/** The data readers of the catalogue screen object: the stock-text parser,
    the name and category normalisers, and the defaults applied when the
    browser reports no text content. The browser reads themselves are
    parameters: a `textContent()` that returns `null` is `None`. */
module ProductsPage {
  import opened Js

  /** For every value of a card's `data-product-id` attribute, the text
      content of that card's stock element. */
  type StockTexts = string -> Option<string>

  /* ---------------------------------------------------------------- */
  /*  Stock text                                                       */
  /* ---------------------------------------------------------------- */

  /** `run` sits at position `k` of `s` with no digit before it and no
      digit right after it. */
  predicate FirstRunAt(s: string, k: int, run: string) {
    && 0 <= k && k + |run| <= |s| && s[k..k + |run|] == run
    && NoDigits(s[..k])
    && (k + |run| == |s| || !IsDigit(s[k + |run|]))
  }

  /** What `/(\d+)/` captures: nothing when the text has no digit, and
      otherwise a non-empty run of digits with no digit before it and none
      right after it, that is, the first maximal run. */
  function FirstDigitRun(s: string): (r: Option<string>)
    ensures r.None? <==> NoDigits(s)
    ensures r.Some? ==> |r.value| > 0 && AllDigits(r.value)
    ensures r.Some? ==> exists k :: FirstRunAt(s, k, r.value)
  {
    if |s| == 0 then None
    else if IsDigit(s[0]) then
      var d := DigitPrefix(s);
      assert FirstRunAt(s, 0, d) by {
        assert s[..0] == [];
      }
      Some(d)
    else
      var r := FirstDigitRun(s[1..]);
      if r.Some? then
        FirstRunShift(s, r.value);
        r
      else r
  }

  /** A first run of the text after a non-digit is a first run of the whole
      text, one position further on. */
  lemma FirstRunShift(s: string, run: string)
    requires |s| > 0 && !IsDigit(s[0])
    requires exists k :: FirstRunAt(s[1..], k, run)
    ensures exists k :: FirstRunAt(s, k, run)
  {
    var k :| FirstRunAt(s[1..], k, run);
    assert s[k + 1..k + 1 + |run|] == s[1..][k..k + |run|];
    assert s[..k + 1] == [s[0]] + s[1..][..k];
    assert FirstRunAt(s, k + 1, run);
  }

  /** `parseStockCount`: `parseInt` of the first run of digits, 0 when the
      text has none. */
  function ParseStockCount(stockText: string): (n: nat)
    ensures NoDigits(stockText) ==> n == 0
  {
    match FirstDigitRun(stockText)
    case None => 0
    case Some(run) =>
      ParseIntOfDigits(run);
      ParseInt(run).value
  }

  /** Text with no digit before a run of digits that is not followed by
      another digit: the count is the value of that run, whatever follows. */
  lemma {:induction false} StockCountFirstRun(prefix: string, run: string, suffix: string)
    requires NoDigits(prefix)
    requires |run| > 0 && AllDigits(run)
    requires |suffix| == 0 || !IsDigit(suffix[0])
    ensures ParseStockCount(prefix + run + suffix) == DigitsValue(run)
    decreases |prefix|
  {
    var s := prefix + run + suffix;
    if |prefix| == 0 {
      assert s == run + suffix;
      DigitPrefixOfDigitsThen(run, suffix);
      assert FirstDigitRun(s) == Some(run);
      ParseIntOfDigits(run);
    } else {
      assert s[1..] == prefix[1..] + run + suffix;
      StockCountFirstRun(prefix[1..], run, suffix);
    }
  }

  /** Rendering a count into stock text and parsing it back gives the count:
      "3 of 10" gives 3, "Only 7 left" gives 7. */
  lemma StockCountRoundTrip(prefix: string, n: nat, suffix: string)
    requires NoDigits(prefix)
    requires |suffix| == 0 || !IsDigit(suffix[0])
    ensures ParseStockCount(prefix + NatToString(n) + suffix) == n
  {
    StockCountFirstRun(prefix, NatToString(n), suffix);
    NatToStringValue(n);
  }

  /** Every stock text with a digit splits into a digit-free prefix, the
      first maximal run of digits and the rest, and the count is that run's
      value: together with `StockCountFirstRun` this characterises the
      parser completely. */
  lemma StockCountSplit(text: string) returns (prefix: string, run: string, suffix: string)
    requires !NoDigits(text)
    ensures text == prefix + run + suffix
    ensures NoDigits(prefix) && |run| > 0 && AllDigits(run)
    ensures |suffix| == 0 || !IsDigit(suffix[0])
    ensures ParseStockCount(text) == DigitsValue(run)
  {
    prefix, run, suffix := FirstRunSplit(text);
    StockCountFirstRun(prefix, run, suffix);
  }

  /** The split itself: a digit-free prefix, a maximal digit run, the rest. */
  lemma {:induction false} FirstRunSplit(text: string) returns (prefix: string, run: string, suffix: string)
    requires !NoDigits(text)
    ensures text == prefix + run + suffix
    ensures NoDigits(prefix) && |run| > 0 && AllDigits(run)
    ensures |suffix| == 0 || !IsDigit(suffix[0])
    decreases |text|
  {
    if IsDigit(text[0]) {
      prefix := [];
      run := DigitPrefix(text);
      suffix := text[|run|..];
      assert text[..|run|] == run;
      assert text == prefix + run + suffix;
    } else {
      assert !NoDigits(text[1..]) by {
        var i :| 0 <= i < |text| && IsDigit(text[i]);
        assert text[1..][i - 1] == text[i];
      }
      var p, r, s := FirstRunSplit(text[1..]);
      prefix, run, suffix := [text[0]] + p, r, s;
      assert text == prefix + run + suffix by {
        assert text == [text[0]] + text[1..];
      }
      assert forall k :: 1 <= k < |prefix| ==> prefix[k] == p[k - 1];
    }
  }

  /** The same parse as a left-to-right scan: skip non-digits, then
      accumulate the digit run. */
  method ScanStockCount(stockText: string) returns (n: nat)
    ensures n == ParseStockCount(stockText)
  {
    var i := 0;
    while i < |stockText| && !IsDigit(stockText[i])
      invariant 0 <= i <= |stockText|
      invariant NoDigits(stockText[..i])
    {
      i := i + 1;
    }
    n := 0;
    var j := i;
    while j < |stockText| && IsDigit(stockText[j])
      invariant i <= j <= |stockText|
      invariant forall k :: i <= k < j ==> IsDigit(stockText[k])
      invariant AllDigits(stockText[i..j])
      invariant n == DigitsValue(stockText[i..j])
    {
      assert stockText[i..j + 1][..j - i] == stockText[i..j];
      n := 10 * n + DigitValue(stockText[j]);
      j := j + 1;
    }
    assert stockText == stockText[..i] + stockText[i..j] + stockText[j..];
    if i == j {
      assert i == |stockText|;
      assert stockText[..i] == stockText;
    } else {
      StockCountFirstRun(stockText[..i], stockText[i..j], stockText[j..]);
    }
  }

  /** The text interpolated into the card selector for a product id:
      `${productId}`, which is "undefined" when the id was never recorded. */
  function CardKey(productId: Option<Num>): (key: string)
    ensures productId.None? ==> key == "undefined"
    ensures productId == Some(NaN) ==> key == "NaN"
    ensures productId.Some? && productId.value.Int? ==> ParseInt(key) == productId.value
    ensures productId.Some? && productId.value.Int? && productId.value.value >= 0 ==> |key| > 0 && AllDigits(key)
  {
    match productId
    case None => "undefined"
    case Some(x) =>
      if x.Int? then
        ParseIntRoundTrip(x.value);
        NumToString(x)
      else NumToString(x)
  }

  /** `getStockCountForProduct`: the stock text of the card keyed by the id,
      absent text read as "" and therefore as 0. */
  function StockCountForProduct(stock: StockTexts, productId: Option<Num>): (n: nat)
    ensures stock(CardKey(productId)).None? ==> n == 0
    ensures stock(CardKey(productId)).Some? ==> n == ParseStockCount(stock(CardKey(productId)).value)
  {
    ParseStockCount(stock(CardKey(productId)).GetOr(""))
  }

  /* ---------------------------------------------------------------- */
  /*  Names and categories                                             */
  /* ---------------------------------------------------------------- */

  /** `getProductNames`: each name text trimmed, in card order. */
  function ProductNames(texts: seq<string>): (names: seq<string>)
    ensures |names| == |texts|
    ensures forall i :: 0 <= i < |texts| ==> names[i] == Trim(texts[i])
  {
    seq(|texts|, i requires 0 <= i < |texts| => Trim(texts[i]))
  }

  /** A name keeps its case: it is a contiguous piece of the card's text with
      only whitespace cut off around it, and reading the names again changes
      nothing. */
  lemma ProductNamesKeepText(texts: seq<string>, i: nat)
    requires i < |texts|
    ensures exists a, b ::
              && 0 <= a <= b <= |texts[i]| && ProductNames(texts)[i] == texts[i][a..b]
              && (forall k :: 0 <= k < a ==> IsWhiteSpace(texts[i][k]))
              && (forall k :: b <= k < |texts[i]| ==> IsWhiteSpace(texts[i][k]))
    ensures ProductNames(ProductNames(texts)) == ProductNames(texts)
  {
    TrimSpec(texts[i]);
    forall k | 0 <= k < |texts|
      ensures Trim(Trim(texts[k])) == Trim(texts[k])
    {
      TrimIdempotent(texts[k]);
    }
  }

  /** `getProductCategories`: each category text trimmed and lowercased, in
      card order. */
  function ProductCategories(texts: seq<string>): (cats: seq<string>)
    ensures |cats| == |texts|
    ensures forall i :: 0 <= i < |texts| ==> cats[i] == ToLower(Trim(texts[i]))
  {
    seq(|texts|, i requires 0 <= i < |texts| => ToLower(Trim(texts[i])))
  }

  lemma LowerKeepsWhiteSpace(c: char)
    ensures IsWhiteSpace(LowerChar(c)) <==> IsWhiteSpace(c)
  {
  }

  /** A normalised category is already normalised: it has no upper-case
      ASCII letter and no surrounding whitespace, so normalising again is
      the identity. */
  lemma {:induction false} CategoryNormalised(text: string)
    ensures forall k :: 0 <= k < |ToLower(Trim(text))| ==> !IsUpper(ToLower(Trim(text))[k])
    ensures ToLower(Trim(ToLower(Trim(text)))) == ToLower(Trim(text))
  {
    var t := Trim(text);
    var c := ToLower(t);
    TrimSpec(text);
    if |c| > 0 {
      LowerKeepsWhiteSpace(t[0]);
      LowerKeepsWhiteSpace(t[|t| - 1]);
    }
    TrimOfTrimmed(c);
    ToLowerIdempotent(t);
  }

  lemma ProductCategoriesIdempotent(texts: seq<string>)
    ensures ProductCategories(ProductCategories(texts)) == ProductCategories(texts)
  {
    forall k | 0 <= k < |texts|
      ensures ToLower(Trim(ToLower(Trim(texts[k])))) == ToLower(Trim(texts[k]))
    {
      CategoryNormalised(texts[k]);
    }
  }

  /* ---------------------------------------------------------------- */
  /*  Defaults for missing content                                     */
  /* ---------------------------------------------------------------- */

  /** `(await x.textContent()) ?? ""`, as `getProductCountText` and
      `getErrorMessage` read their element. */
  function TextOrEmpty(content: Option<string>): (text: string)
    ensures content.None? ==> text == ""
    ensures content.Some? ==> text == content.value
  {
    content.GetOr("")
  }

  /** `getNavCartCount`: the badge text, "0" when there is none, trimmed and
      parsed base 10. */
  function NavCartCount(content: Option<string>): (count: Num)
    ensures content.None? ==> count == Int(0)
  {
    OneDigitTrimmedParses('0');
    ParseInt(Trim(content.GetOr("0")))
  }

  /** A badge showing a rendered count reads back as that count. */
  lemma NavCartCountRoundTrip(n: nat)
    ensures NavCartCount(Some(NatToString(n))) == Int(n)
  {
    var d := NatToString(n);
    DigitIsNotSpace(d[0]);
    DigitIsNotSpace(d[|d| - 1]);
    TrimOfTrimmed(d);
    ParseIntOfDigits(d);
    NatToStringValue(n);
  }

  /** The id returned by `addFirstAvailableProductToCart`: the first
      available card's `data-product-id` parsed base 10, "0" when the
      attribute is absent. */
  function AddedProductId(attribute: Option<string>): (id: Num)
    ensures attribute.None? ==> id == Int(0)
  {
    OneDigitParses('0');
    ParseInt(attribute.GetOr("0"))
  }

  /** A card whose attribute is the canonical rendering of an id yields that
      id, and the selector built from it names the same card again. */
  lemma AddedProductIdRoundTrip(n: int)
    ensures AddedProductId(Some(NumToString(Int(n)))) == Int(n)
    ensures CardKey(Some(AddedProductId(Some(NumToString(Int(n)))))) == NumToString(Int(n))
  {
    ParseIntRoundTrip(n);
  }
}
