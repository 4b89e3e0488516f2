/** The small part of JavaScript's runtime that the harness relies on:
    optional values (`null`/`undefined`), integer-valued numbers and NaN,
    `String.prototype.trim`, ASCII `toLowerCase`, `includes`, `parseInt(s, 10)`
    and the decimal rendering of an integer in a template literal. */
module Js {

  /** A value that may be `null` or `undefined` in the source. */
  datatype Option<+T> = None | Some(value: T) {

    /** The `??` operator: the value, or `default` when it is absent. */
    function GetOr(default: T): T {
      match this
      case Some(v) => v
      case None => default
    }
  }

  /** The properties every object inherits from `Object.prototype`
      (section 20.1.3 of ECMA-262, with the legacy accessors of its Annex B):
      reading one of them on a plain object finds a function, or for
      `__proto__` the prototype, rather than `undefined`. */
  predicate PrototypeMember(name: string) {
    name in {"constructor", "hasOwnProperty", "isPrototypeOf", "propertyIsEnumerable",
             "toLocaleString", "toString", "valueOf", "__proto__",
             "__defineGetter__", "__defineSetter__", "__lookupGetter__", "__lookupSetter__"}
  }

  /** A JavaScript number, restricted to the values the harness produces:
      an integer, or NaN (what `parseInt` gives when it finds no digit). */
  datatype Num = Int(value: int) | NaN

  /* ---------------------------------------------------------------- */
  /*  Characters                                                       */
  /* ---------------------------------------------------------------- */

  /** `\d` in a regular expression without the `u` flag: ASCII digits only. */
  predicate IsDigit(c: char) {
    '0' <= c <= '9'
  }

  predicate IsUpper(c: char) {
    'A' <= c <= 'Z'
  }

  /** ECMAScript WhiteSpace and LineTerminator code points: what `trim` and
      `parseInt` skip. */
  predicate IsWhiteSpace(c: char) {
    || c == '\t' || c == '\n' || c == '\U{000B}' || c == '\U{000C}' || c == '\r'
    || c == ' ' || c == '\U{00A0}' || c == '\U{1680}'
    || ('\U{2000}' <= c <= '\U{200A}')
    || c == '\U{2028}' || c == '\U{2029}' || c == '\U{202F}' || c == '\U{205F}'
    || c == '\U{3000}' || c == '\U{FEFF}'
  }

  predicate NoDigits(s: string) {
    forall i :: 0 <= i < |s| ==> !IsDigit(s[i])
  }

  predicate AllDigits(s: string) {
    forall i :: 0 <= i < |s| ==> IsDigit(s[i])
  }

  function DigitValue(c: char): nat
    requires IsDigit(c)
  {
    c as int - '0' as int
  }

  function DigitChar(d: nat): (c: char)
    requires d < 10
    ensures IsDigit(c) && DigitValue(c) == d
  {
    ('0' as int + d) as char
  }

  /* ---------------------------------------------------------------- */
  /*  Case and whitespace                                              */
  /* ---------------------------------------------------------------- */

  function LowerChar(c: char): char {
    if IsUpper(c) then (c as int + 32) as char else c
  }

  /** `toLowerCase`, for the ASCII letters: the length is kept, every ASCII
      capital becomes its small letter, and every other character is kept. */
  function ToLower(s: string): (r: string)
    ensures |r| == |s|
    ensures forall i :: 0 <= i < |s| ==> !IsUpper(r[i])
    ensures forall i :: 0 <= i < |s| ==> (IsUpper(s[i]) <==> r[i] != s[i])
    ensures forall i :: 0 <= i < |s| && IsUpper(s[i]) ==> r[i] as int == s[i] as int + 32
  {
    seq(|s|, i requires 0 <= i < |s| => LowerChar(s[i]))
  }

  /** Lower-casing leaves no ASCII capital, so lower-casing again changes
      nothing. */
  lemma ToLowerIdempotent(s: string)
    ensures forall i :: 0 <= i < |s| ==> !IsUpper(ToLower(s)[i])
    ensures ToLower(ToLower(s)) == ToLower(s)
  {
    var once := ToLower(s);
    assert forall i :: 0 <= i < |s| ==> LowerChar(once[i]) == once[i];
  }

  lemma ToLowerAppend(a: string, b: string)
    ensures ToLower(a + b) == ToLower(a) + ToLower(b)
  {
  }

  lemma ToLowerDigits(d: string)
    requires AllDigits(d)
    ensures ToLower(d) == d
  {
  }

  function TrimStart(s: string): (r: string)
    ensures |r| <= |s| && r == s[|s| - |r|..]
    ensures |r| == 0 || !IsWhiteSpace(r[0])
    ensures forall i :: 0 <= i < |s| - |r| ==> IsWhiteSpace(s[i])
  {
    if |s| > 0 && IsWhiteSpace(s[0]) then TrimStart(s[1..]) else s
  }

  function TrimEnd(s: string): (r: string)
    ensures |r| <= |s| && r == s[..|r|]
    ensures |r| == 0 || !IsWhiteSpace(r[|r| - 1])
    ensures forall i :: |r| <= i < |s| ==> IsWhiteSpace(s[i])
  {
    if |s| > 0 && IsWhiteSpace(s[|s| - 1]) then TrimEnd(s[..|s| - 1]) else s
  }

  /** `String.prototype.trim`: no longer than the text, and neither
      starting nor ending with white space. */
  function Trim(s: string): (r: string)
    ensures |r| <= |s|
    ensures |r| == 0 || (!IsWhiteSpace(r[0]) && !IsWhiteSpace(r[|r| - 1]))
  {
    var t := TrimStart(s);
    var e := TrimEnd(t);
    assert |e| == 0 || e[0] == t[0];
    e
  }

  /** The empty text is its own trim. */
  lemma TrimEmpty()
    ensures Trim("") == ""
  {
  }

  /** What `trim` promises: the result is a contiguous piece of the input,
      only whitespace was removed on either side, and the result neither
      starts nor ends with whitespace. */
  lemma TrimSpec(s: string)
    ensures exists a, b ::
              && 0 <= a <= b <= |s| && Trim(s) == s[a..b]
              && (forall i :: 0 <= i < a ==> IsWhiteSpace(s[i]))
              && (forall i :: b <= i < |s| ==> IsWhiteSpace(s[i]))
    ensures |Trim(s)| == 0 || (!IsWhiteSpace(Trim(s)[0]) && !IsWhiteSpace(Trim(s)[|Trim(s)| - 1]))
  {
    var a, b := TrimBounds(s);
  }

  /** The bounds of the piece `trim` keeps. */
  lemma TrimBounds(s: string) returns (a: nat, b: nat)
    ensures a <= b <= |s| && Trim(s) == s[a..b]
    ensures forall i :: 0 <= i < a ==> IsWhiteSpace(s[i])
    ensures forall i :: b <= i < |s| ==> IsWhiteSpace(s[i])
  {
    var t := TrimStart(s);
    var e := TrimEnd(t);
    a := |s| - |t|;
    b := a + |e|;
    assert t == s[a..] && e == t[..|e|];
    assert Trim(s) == e;
    SuffixPrefix(s, a, |e|);
    SuffixTailWhite(s, t, a, |e|);
  }

  /** A slice of a slice is a slice. */
  lemma SliceOfSlice(s: string, a: nat, b: nat, i: nat, n: nat)
    requires a <= b <= |s| && i + n <= b - a
    ensures s[a..b][i..i + n] == s[a + i..a + i + n]
  {
    var x, y := s[a..b][i..i + n], s[a + i..a + i + n];
    assert forall j :: 0 <= j < n ==> x[j] == y[j];
  }

  /** An occurrence inside a slice is an occurrence in the slice. */
  lemma OccursInSlice(s: string, a: nat, b: nat, k: nat, t: string)
    requires a <= k && k + |t| <= b <= |s| && s[k..k + |t|] == t
    ensures s[a..b][k - a..k - a + |t|] == t
  {
    SliceOfSlice(s, a, b, k - a, |t|);
    assert a + (k - a) == k;
  }

  /** A prefix of a suffix is a slice. */
  lemma SuffixPrefix(s: string, a: nat, n: nat)
    requires a + n <= |s|
    ensures s[a..][..n] == s[a..a + n]
  {
  }

  /** Whitespace at the end of a suffix is whitespace at the end of the
      whole text. */
  lemma SuffixTailWhite(s: string, t: string, a: nat, n: nat)
    requires a <= |s| && t == s[a..] && n <= |t|
    requires forall k :: n <= k < |t| ==> IsWhiteSpace(t[k])
    ensures forall i :: a + n <= i < |s| ==> IsWhiteSpace(s[i])
  {
    forall i | a + n <= i < |s|
      ensures IsWhiteSpace(s[i])
    {
      assert s[i] == t[i - a];
    }
  }

  /** A string that neither starts nor ends with whitespace is its own trim. */
  lemma TrimOfTrimmed(s: string)
    requires |s| == 0 || (!IsWhiteSpace(s[0]) && !IsWhiteSpace(s[|s| - 1]))
    ensures Trim(s) == s
  {
  }

  /** Whitespace around a string without surrounding whitespace is exactly
      what `trim` removes. */
  lemma {:induction false} TrimPadded(p: string, e: string, q: string)
    requires forall i :: 0 <= i < |p| ==> IsWhiteSpace(p[i])
    requires forall i :: 0 <= i < |q| ==> IsWhiteSpace(q[i])
    requires |e| > 0 && !IsWhiteSpace(e[0]) && !IsWhiteSpace(e[|e| - 1])
    ensures Trim(p + e + q) == e
  {
    TrimStartPadded(p, e + q);
    assert p + e + q == p + (e + q);
    TrimEndPadded(e, q);
  }

  lemma {:induction false} TrimStartPadded(p: string, t: string)
    requires forall i :: 0 <= i < |p| ==> IsWhiteSpace(p[i])
    requires |t| > 0 && !IsWhiteSpace(t[0])
    ensures TrimStart(p + t) == t
    decreases |p|
  {
    if |p| == 0 {
      assert p + t == t;
    } else {
      assert (p + t)[1..] == p[1..] + t;
      TrimStartPadded(p[1..], t);
    }
  }

  lemma {:induction false} TrimEndPadded(t: string, q: string)
    requires forall i :: 0 <= i < |q| ==> IsWhiteSpace(q[i])
    requires |t| > 0 && !IsWhiteSpace(t[|t| - 1])
    ensures TrimEnd(t + q) == t
    decreases |q|
  {
    if |q| == 0 {
      assert t + q == t;
    } else {
      assert (t + q)[..|t + q| - 1] == t + q[..|q| - 1];
      TrimEndPadded(t, q[..|q| - 1]);
    }
  }

  lemma TrimIdempotent(s: string)
    ensures Trim(Trim(s)) == Trim(s)
  {
    TrimSpec(s);
    TrimOfTrimmed(Trim(s));
  }

  /* ---------------------------------------------------------------- */
  /*  Substrings                                                       */
  /* ---------------------------------------------------------------- */

  predicate StartsWith(s: string, p: string) {
    |p| <= |s| && s[..|p|] == p
  }

  /** `s.includes(t)`, and Jest's `toContain` on strings. */
  predicate Contains(s: string, t: string)
    ensures Contains(s, t) ==> |t| <= |s|
    ensures |t| == 0 ==> Contains(s, t)
    decreases |s|
  {
    StartsWith(s, t) || (|s| > 0 && Contains(s[1..], t))
  }

  /** `t` occurs in `s` starting at position `k`. */
  predicate OccursAt(s: string, t: string, k: int) {
    0 <= k && k + |t| <= |s| && s[k..k + |t|] == t
  }

  /** `t` occurs at some position of `s`. */
  ghost predicate Occurs(s: string, t: string) {
    exists k :: OccursAt(s, t, k)
  }

  /** `includes` finds exactly the tokens that occur at some position. */
  lemma ContainsIffOccurs(s: string, t: string)
    ensures Contains(s, t) <==> Occurs(s, t)
  {
    if Contains(s, t) {
      var k := ContainsWitness(s, t);
      assert OccursAt(s, t, k);
    }
    if exists k :: OccursAt(s, t, k) {
      var k :| OccursAt(s, t, k);
      ContainsAt(s, t, k);
    }
  }

  /** `Contains` holds when `t` occurs at some position of `s`. */
  lemma {:induction false} ContainsAt(s: string, t: string, i: nat)
    requires i + |t| <= |s| && s[i..i + |t|] == t
    ensures Contains(s, t)
    decreases i
  {
    if i == 0 {
      assert s[..|t|] == t;
    } else {
      assert s[1..][i - 1..i - 1 + |t|] == s[i..i + |t|];
      ContainsAt(s[1..], t, i - 1);
    }
  }

  lemma {:induction false} ContainsWitness(s: string, t: string) returns (i: nat)
    requires Contains(s, t)
    ensures i + |t| <= |s| && s[i..i + |t|] == t
    decreases |s|
  {
    if StartsWith(s, t) {
      i := 0;
    } else {
      var j := ContainsWitness(s[1..], t);
      assert s[1..][j..j + |t|] == s[j + 1..j + 1 + |t|];
      i := j + 1;
    }
  }

  /** A piece of the text is contained in the text with anything around it. */
  lemma ContainsInfix(p: string, t: string, q: string)
    ensures Contains(p + t + q, t)
  {
    var s := p + t + q;
    assert s[|p|..|p| + |t|] == t;
    ContainsAt(s, t, |p|);
  }

  /** Trimming neither hides nor creates an occurrence of a token that
      neither starts nor ends with white space. */
  lemma ContainsAfterTrim(s: string, t: string)
    requires |t| == 0 || (!IsWhiteSpace(t[0]) && !IsWhiteSpace(t[|t| - 1]))
    ensures Contains(Trim(s), t) <==> Contains(s, t)
  {
    if Contains(Trim(s), t) {
      TrimmedOccurrenceLifts(s, t);
    }
    if Contains(s, t) {
      OccurrenceSurvivesTrim(s, t);
    }
  }

  lemma TrimmedOccurrenceLifts(s: string, t: string)
    requires Contains(Trim(s), t)
    ensures Contains(s, t)
  {
    var a, b := TrimBounds(s);
    var k := ContainsWitness(Trim(s), t);
    SliceOfSlice(s, a, b, k, |t|);
    ContainsAt(s, t, a + k);
  }

  lemma OccurrenceSurvivesTrim(s: string, t: string)
    requires |t| == 0 || (!IsWhiteSpace(t[0]) && !IsWhiteSpace(t[|t| - 1]))
    requires Contains(s, t)
    ensures Contains(Trim(s), t)
  {
    if |t| > 0 {
      var a, b := TrimBounds(s);
      OccurrenceBetween(s, a, b, t);
    }
  }

  /** A token whose ends are not white space, found in a text, is found in
      the piece between the white space on either side. */
  lemma OccurrenceBetween(s: string, a: nat, b: nat, t: string)
    requires a <= b <= |s|
    requires forall i :: 0 <= i < a ==> IsWhiteSpace(s[i])
    requires forall i :: b <= i < |s| ==> IsWhiteSpace(s[i])
    requires 0 < |t| && !IsWhiteSpace(t[0]) && !IsWhiteSpace(t[|t| - 1])
    requires Contains(s, t)
    ensures Contains(s[a..b], t)
  {
    var k := ContainsWitness(s, t);
    OccurrenceWithinBounds(s, a, b, k, t);
    OccursInSlice(s, a, b, k, t);
    ContainsAt(s[a..b], t, k - a);
  }

  /** An occurrence whose ends are not white space lies between the white
      space `trim` cuts off either side. */
  lemma OccurrenceWithinBounds(s: string, a: nat, b: nat, k: nat, t: string)
    requires a <= b <= |s|
    requires forall i :: 0 <= i < a ==> IsWhiteSpace(s[i])
    requires forall i :: b <= i < |s| ==> IsWhiteSpace(s[i])
    requires 0 < |t| && !IsWhiteSpace(t[0]) && !IsWhiteSpace(t[|t| - 1])
    requires k + |t| <= |s| && s[k..k + |t|] == t
    ensures a <= k && k + |t| <= b
  {
    assert s[k] == t[0] && s[k + |t| - 1] == t[|t| - 1];
  }

  /* ---------------------------------------------------------------- */
  /*  Decimal digits                                                   */
  /* ---------------------------------------------------------------- */

  /** The value of a run of decimal digits, most significant first. */
  function DigitsValue(s: string): nat
    requires AllDigits(s)
  {
    if |s| == 0 then 0 else 10 * DigitsValue(s[..|s| - 1]) + DigitValue(s[|s| - 1])
  }

  /** The canonical decimal rendering of a natural number. */
  function NatToString(n: nat): (r: string)
    ensures |r| > 0 && AllDigits(r)
    ensures r[0] != '0' || n == 0
    decreases n
  {
    if n < 10 then [DigitChar(n)] else NatToString(n / 10) + [DigitChar(n % 10)]
  }

  lemma {:induction false} NatToStringValue(n: nat)
    ensures DigitsValue(NatToString(n)) == n
    decreases n
  {
    if n >= 10 {
      var r := NatToString(n);
      assert r[..|r| - 1] == NatToString(n / 10);
      NatToStringValue(n / 10);
    }
  }

  /** `${n}` / `String(n)` for the numbers the harness produces: "NaN", or
      a minus sign exactly for a negative integer followed by a non-empty
      digit string. Integers of 22 digits or more use exponent notation in
      JavaScript; that is not modelled. */
  function NumToString(x: Num): (r: string)
    ensures x.NaN? ==> r == "NaN"
    ensures x.Int? ==> |r| > 0 && (r[0] == '-' <==> x.value < 0)
    ensures x.Int? && x.value < 0 ==> |r| > 1 && AllDigits(r[1..])
    ensures x.Int? && x.value >= 0 ==> AllDigits(r)
  {
    match x
    case NaN => "NaN"
    case Int(n) => if n < 0 then "-" + NatToString(-n) else NatToString(n)
  }

  /** The longest prefix of `s` made of digits. */
  function DigitPrefix(s: string): (r: string)
    ensures AllDigits(r) && StartsWith(s, r)
    ensures |r| == |s| || !IsDigit(s[|r|])
  {
    if |s| > 0 && IsDigit(s[0]) then [s[0]] + DigitPrefix(s[1..]) else []
  }

  lemma {:induction false} DigitPrefixOfDigitsThen(d: string, rest: string)
    requires AllDigits(d)
    requires |rest| == 0 || !IsDigit(rest[0])
    ensures DigitPrefix(d + rest) == d
    decreases |d|
  {
    if |d| > 0 {
      assert (d + rest)[1..] == d[1..] + rest;
      DigitPrefixOfDigitsThen(d[1..], rest);
    } else {
      assert d + rest == rest;
    }
  }

  /** `parseInt(s, 10)`: skip leading whitespace, read an optional sign,
      then the longest run of decimal digits; NaN when that run is empty. */
  function ParseInt(s: string): (r: Num)
    ensures r.NaN? <==> |DigitPrefix(SignlessPart(TrimStart(s)))| == 0
  {
    ParseSigned(TrimStart(s))
  }

  /** `parseInt` from the first character that is not white space on. */
  function ParseSigned(t: string): Num {
    var digits := DigitPrefix(SignlessPart(t));
    if |digits| == 0 then NaN
    else if |t| > 0 && t[0] == '-' then Int(0 - DigitsValue(digits))
    else Int(DigitsValue(digits))
  }

  /** The text after an optional leading `+` or `-`. */
  function SignlessPart(t: string): (r: string)
    ensures |t| > 0 && (t[0] == '-' || t[0] == '+') ==> r == t[1..]
    ensures !(|t| > 0 && (t[0] == '-' || t[0] == '+')) ==> r == t
  {
    if |t| > 0 && (t[0] == '-' || t[0] == '+') then t[1..] else t
  }

  /** The empty text has no digits and parses to NaN. */
  lemma ParseIntEmpty()
    ensures ParseInt("") == NaN
  {
    assert TrimStart("") == "";
    assert TrimEnd("") == "";
    assert SignlessPart("") == "";
    assert DigitPrefix("") == "";
  }

  /** A one-digit text, such as the "0" the badge and id reads default to,
      is its own trim and parses to its digit's value. */
  lemma OneDigitTrims(c: char)
    requires IsDigit(c)
    ensures Trim([c]) == [c]
  {
    DigitIsNotSpace(c);
    TrimOfTrimmed([c]);
  }

  lemma OneDigitValue(c: char)
    requires IsDigit(c)
    ensures DigitsValue([c]) == DigitValue(c)
  {
    assert [c][..0] == [];
  }

  lemma OneDigitParses(c: char)
    requires IsDigit(c)
    ensures ParseInt([c]) == Int(DigitValue(c))
  {
    ParseIntOfDigits([c]);
    OneDigitValue(c);
  }

  lemma OneDigitTrimmedParses(c: char)
    requires IsDigit(c)
    ensures ParseInt(Trim([c])) == Int(DigitValue(c))
  {
    OneDigitTrims(c);
    OneDigitParses(c);
  }

  /** A non-empty run of digits parses to its own value. */
  lemma ParseIntOfDigits(d: string)
    requires |d| > 0 && AllDigits(d)
    ensures ParseInt(d) == Int(DigitsValue(d))
  {
    DigitIsNotSpace(d[0]);
    assert TrimStart(d) == d;
    assert SignlessPart(d) == d;
    DigitPrefixOfDigitsThen(d, []);
    assert d + [] == d;
  }

  /** What `parseInt(s, 10)` reads from any text: leading white space, an
      optional sign, a non-empty digit run ended by a non-digit or the end
      of the text, then anything; the value is the run's, negated after a
      minus sign. " -12abc" gives -12 and "3 items" gives 3. */
  lemma ParseIntOfParts(ws: string, sign: string, d: string, rest: string)
    requires forall i :: 0 <= i < |ws| ==> IsWhiteSpace(ws[i])
    requires sign == "" || sign == "+" || sign == "-"
    requires |d| > 0 && AllDigits(d)
    requires |rest| == 0 || !IsDigit(rest[0])
    ensures ParseInt(ws + (sign + d + rest)) == Int(if sign == "-" then -(DigitsValue(d) as int) else DigitsValue(d))
  {
    SignedDigitsParse(sign, d, rest);
    TrimStartPadded(ws, sign + d + rest);
  }

  /** The same without leading white space. */
  lemma SignedDigitsParse(sign: string, d: string, rest: string)
    requires sign == "" || sign == "+" || sign == "-"
    requires |d| > 0 && AllDigits(d)
    requires |rest| == 0 || !IsDigit(rest[0])
    ensures |sign + d + rest| > 0 && !IsWhiteSpace((sign + d + rest)[0])
    ensures TrimStart(sign + d + rest) == sign + d + rest
    ensures ParseInt(sign + d + rest) == Int(if sign == "-" then -(DigitsValue(d) as int) else DigitsValue(d))
  {
    var t := sign + d + rest;
    SignedStart(sign, d, rest);
    assert TrimStart(t) == t;
    ParseIntOfSignless(t, d, rest);
  }

  /** A sign, then a digit: not white space, and the sign is cut off. */
  lemma SignedStart(sign: string, d: string, rest: string)
    requires sign == "" || sign == "+" || sign == "-"
    requires |d| > 0 && AllDigits(d)
    ensures |sign + d + rest| > 0 && !IsWhiteSpace((sign + d + rest)[0])
    ensures (sign + d + rest)[0] == '-' <==> sign == "-"
    ensures SignlessPart(sign + d + rest) == d + rest
  {
    var t := sign + d + rest;
    DigitIsNotSpace(d[0]);
    if sign == "" {
      assert t == d + rest;
    } else {
      assert t[0] == sign[0];
      assert t[1..] == d + rest;
    }
  }

  /** A text with no leading white space whose unsigned part is a digit run
      ended by a non-digit parses to that run's value, negated after a minus
      sign. */
  lemma ParseIntOfSignless(t: string, d: string, rest: string)
    requires TrimStart(t) == t && SignlessPart(t) == d + rest
    requires |d| > 0 && AllDigits(d)
    requires |rest| == 0 || !IsDigit(rest[0])
    ensures ParseInt(t) == Int(if |t| > 0 && t[0] == '-' then -(DigitsValue(d) as int) else DigitsValue(d))
  {
    DigitPrefixOfDigitsThen(d, rest);
  }

  lemma DigitIsNotSpace(c: char)
    requires IsDigit(c)
    ensures !IsWhiteSpace(c)
  {
  }

  /** Rendering an integer and parsing it back gives the integer. */
  lemma ParseIntRoundTrip(n: int)
    ensures ParseInt(NumToString(Int(n))) == Int(n)
  {
    var m := if n < 0 then -n else n;
    var d := NatToString(m);
    NatToStringValue(m);
    DigitPrefixOfDigitsThen(d, []);
    assert d + [] == d;
    if n < 0 {
      var s := "-" + d;
      assert !IsWhiteSpace(s[0]);
      assert TrimStart(s) == s;
      assert SignlessPart(s) == d;
      assert NumToString(Int(n)) == s;
    } else {
      DigitIsNotSpace(d[0]);
      assert TrimStart(d) == d;
      assert SignlessPart(d) == d;
      assert NumToString(Int(n)) == d;
    }
  }
}
