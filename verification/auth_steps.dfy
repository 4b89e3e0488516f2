/** The sign-up and log-in step bindings: the fixture lookup by email, the
    valid sign-up record and the per-step field overrides of the negative
    sign-up steps, the scratch write of the valid sign-up step and the
    account-name check that reads it. The fixture file's contents and the
    clock are parameters. */
module AuthSteps {
  import opened Js
  import opened ScenarioWorld

  datatype TestUser = TestUser(email: string, password: string, name: string)

  const AliceEmail: string := "alice@example.com"
  const TakenEmail: string := "taken@example.com"

  /* ---------------------------------------------------------------- */
  /*  Fixture lookup                                                   */
  /* ---------------------------------------------------------------- */

  /** `i` is the position of the first user whose email is `email`. */
  predicate FirstMatch(users: seq<TestUser>, email: string, i: nat) {
    && i < |users| && users[i].email == email
    && forall k :: 0 <= k < i ==> users[k].email != email
  }

  /** Past a first user with another address, the first match moves one
      position down in the rest. */
  lemma FirstMatchShift(users: seq<TestUser>, email: string)
    requires |users| > 0 && users[0].email != email
    ensures forall i: nat :: FirstMatch(users, email, i) ==> i > 0 && FirstMatch(users[1..], email, i - 1)
    ensures forall k :: 1 <= k < |users| ==> users[k] == users[1..][k - 1]
  {
  }

  /** `users.find((u) => u.email === email)`: the first user whose email is
      exactly the given address. */
  function FindUser(users: seq<TestUser>, email: string): (u: Option<TestUser>)
    ensures u.None? <==> forall k :: 0 <= k < |users| ==> users[k].email != email
    ensures u.Some? ==> u.value in users && u.value.email == email
    ensures forall i: nat :: FirstMatch(users, email, i) ==> u == Some(users[i])
  {
    if |users| == 0 then None
    else if users[0].email == email then Some(users[0])
    else
      FirstMatchShift(users, email);
      FindUser(users[1..], email)
  }

  /** Appending users behind a match does not change the lookup, and a user
      put in front with the same address shadows every later one. */
  lemma FindUserFirstWins(users: seq<TestUser>, email: string, more: seq<TestUser>, u: TestUser)
    requires FindUser(users, email).Some?
    requires u.email == email
    ensures FindUser(users + more, email) == FindUser(users, email)
    ensures FindUser([u] + users, email) == Some(u)
  {
    var j := FirstIndex(users, email);
    assert (users + more)[j] == users[j];
  }

  /** The position of the first user with the address. */
  lemma {:induction false} FirstIndex(users: seq<TestUser>, email: string) returns (j: nat)
    requires FindUser(users, email).Some?
    ensures FirstMatch(users, email, j)
    ensures FindUser(users, email) == Some(users[j])
    decreases |users|
  {
    if users[0].email == email {
      j := 0;
    } else {
      var r := FirstIndex(users[1..], email);
      FirstMatchUnshift(users, email, r);
      j := r + 1;
    }
  }

  /** Behind a first user with another address, a first match in the rest
      is a first match one position further on. */
  lemma FirstMatchUnshift(users: seq<TestUser>, email: string, r: nat)
    requires |users| > 0 && users[0].email != email
    requires FirstMatch(users[1..], email, r)
    ensures FirstMatch(users, email, r + 1)
  {
    assert users[r + 1] == users[1..][r];
    forall k | 0 <= k < r + 1
      ensures users[k].email != email
    {
      if k > 0 {
        assert users[k] == users[1..][k - 1];
      }
    }
  }

  /** The two fixtures the steps read. A missing fixture is `None`; a step
      that then reads one of its fields throws. */
  datatype Fixtures = Fixtures(alice: Option<TestUser>, taken: Option<TestUser>)

  function LoadFixtures(users: seq<TestUser>): (f: Fixtures)
    ensures f.alice.Some? ==> f.alice.value.email == AliceEmail
    ensures f.taken.Some? ==> f.taken.value.email == TakenEmail
    ensures f.alice.None? <==> forall k :: 0 <= k < |users| ==> users[k].email != AliceEmail
    ensures f.taken.None? <==> forall k :: 0 <= k < |users| ==> users[k].email != TakenEmail
  {
    Fixtures(FindUser(users, AliceEmail), FindUser(users, TakenEmail))
  }

  /* ---------------------------------------------------------------- */
  /*  Sign-up forms                                                    */
  /* ---------------------------------------------------------------- */

  datatype SignupForm = SignupForm(name: string, email: string, password: string, confirm: string)

  const DefaultName: string := "Test User"
  const DefaultPassword: string := "Password123!"
  const EmailHead: string := "testuser_"
  const EmailDomain: string := "@test.com"

  /** `validSignupDefaults`, with `now` the value of `Date.now()`: a fixed
      name and password, and an address made unique by the timestamp. */
  function ValidSignupDefaults(now: nat): (f: SignupForm)
    ensures f.name == DefaultName
    ensures f.password == DefaultPassword && f.confirm == f.password
    ensures StartsWith(f.email, EmailHead)
    ensures EmailTimestamp(f.email) == Some(now)
  {
    var email := EmailHead + NatToString(now) + EmailDomain;
    assert email[..|EmailHead|] == EmailHead;
    EmailTimestampOfRendered(now);
    SignupForm(DefaultName, email, DefaultPassword, DefaultPassword)
  }

  /** The timestamp an address of the form `testuser_<digits>@test.com`
      carries, and `None` for any other address. */
  function EmailTimestamp(email: string): (t: Option<nat>)
    ensures t.Some? ==> StartsWith(email, EmailHead)
  {
    if |email| > |EmailHead| + |EmailDomain| && email[..|EmailHead|] == EmailHead
       && email[|email| - |EmailDomain|..] == EmailDomain
       && AllDigits(email[|EmailHead|..|email| - |EmailDomain|])
    then Some(DigitsValue(email[|EmailHead|..|email| - |EmailDomain|]))
    else None
  }

  lemma EmailTimestampOfRendered(now: nat)
    ensures EmailTimestamp(EmailHead + NatToString(now) + EmailDomain) == Some(now)
  {
    var d := NatToString(now);
    var email := EmailHead + d + EmailDomain;
    assert email[..|EmailHead|] == EmailHead;
    assert email[|email| - |EmailDomain|..] == EmailDomain;
    assert email[|EmailHead|..|email| - |EmailDomain|] == d;
    NatToStringValue(now);
  }

  /** Sign-ups at different times use different addresses. */
  lemma DefaultEmailsDistinct(t1: nat, t2: nat)
    requires t1 != t2
    ensures ValidSignupDefaults(t1).email != ValidSignupDefaults(t2).email
  {
  }

  /** The negative sign-up steps. */
  datatype NegativeSignup =
    | OneCharacterName
    | InvalidEmail
    | ShortPassword
    | NoUppercase
    | NoNumber
    | MismatchedConfirm
    | ExistingEmail

  /** The form each negative step submits: the valid defaults with the
      fields the step is about overridden, or, for the existing-address
      step, the `taken` fixture's credentials. That step throws when the
      fixture is missing, and the form is then `None`. */
  function NegativeForm(c: NegativeSignup, now: nat, taken: Option<TestUser>): (f: Option<SignupForm>)
    ensures f.None? <==> c == ExistingEmail && taken.None?
    ensures f.Some? ==> (f.value.password == f.value.confirm <==> c != MismatchedConfirm)
  {
    var d := ValidSignupDefaults(now);
    match c
    case OneCharacterName => Some(d.(name := "A"))
    case InvalidEmail => Some(d.(email := "not-an-email"))
    case ShortPassword => Some(d.(password := "Ab1", confirm := "Ab1"))
    case NoUppercase => Some(d.(password := "password1!", confirm := "password1!"))
    case NoNumber => Some(d.(password := "Password!", confirm := "Password!"))
    case MismatchedConfirm => Some(d.(password := DefaultPassword, confirm := "Different123!"))
    case ExistingEmail =>
      if taken.None? then None
      else Some(SignupForm("Existing User", taken.value.email, taken.value.password, taken.value.password))
  }

  datatype Field = Name | Email | Password | Confirm

  function FieldOf(f: SignupForm, x: Field): string {
    match x
    case Name => f.name
    case Email => f.email
    case Password => f.password
    case Confirm => f.confirm
  }

  /** The fields a negative step overrides. */
  function Overridden(c: NegativeSignup): set<Field> {
    match c
    case OneCharacterName => {Name}
    case InvalidEmail => {Email}
    case ShortPassword => {Password, Confirm}
    case NoUppercase => {Password, Confirm}
    case NoNumber => {Password, Confirm}
    case MismatchedConfirm => {Confirm}
    case ExistingEmail => {Name, Email, Password, Confirm}
  }

  /** Each negative step keeps every field it does not override. */
  lemma NegativeFormKeepsOtherFields(c: NegativeSignup, now: nat, taken: Option<TestUser>, x: Field)
    requires NegativeForm(c, now, taken).Some?
    requires x !in Overridden(c)
    ensures FieldOf(NegativeForm(c, now, taken).value, x) == FieldOf(ValidSignupDefaults(now), x)
  {
  }

  predicate HasUpper(s: string) {
    exists k :: 0 <= k < |s| && IsUpper(s[k])
  }

  predicate HasDigit(s: string) {
    exists k :: 0 <= k < |s| && IsDigit(s[k])
  }

  /** Each negative step breaks the rule it is named after, which the valid
      defaults keep. */
  lemma NegativeFormBreaksItsRule(now: nat, taken: Option<TestUser>)
    ensures var d := ValidSignupDefaults(now);
            |NegativeForm(OneCharacterName, now, taken).value.name| == 1 < |d.name|
    ensures var d := ValidSignupDefaults(now);
            '@' !in NegativeForm(InvalidEmail, now, taken).value.email && '@' in d.email
    ensures var d := ValidSignupDefaults(now);
            |NegativeForm(ShortPassword, now, taken).value.password| < |d.password|
    ensures var d := ValidSignupDefaults(now);
            !HasUpper(NegativeForm(NoUppercase, now, taken).value.password) && HasUpper(d.password)
    ensures var d := ValidSignupDefaults(now);
            !HasDigit(NegativeForm(NoNumber, now, taken).value.password) && HasDigit(d.password)
    ensures NegativeForm(MismatchedConfirm, now, taken).value.password == DefaultPassword
    ensures taken.Some? ==> NegativeForm(ExistingEmail, now, taken).value.email == taken.value.email
  {
    InvalidEmailHasNoAt(now, taken);
    DefaultEmailHasAt(now);
    NoUppercaseHasNone(now, taken);
    NoNumberHasNone(now, taken);
  }

  /** The invalid address has no "@". */
  lemma InvalidEmailHasNoAt(now: nat, taken: Option<TestUser>)
    ensures '@' !in NegativeForm(InvalidEmail, now, taken).value.email
  {
    var e := NegativeForm(InvalidEmail, now, taken).value.email;
    assert forall k :: 0 <= k < |e| ==> e[k] != '@';
  }

  /** The default address has an "@". */
  lemma DefaultEmailHasAt(now: nat)
    ensures '@' in ValidSignupDefaults(now).email
  {
    var n := NatToString(now);
    var tail := n + EmailDomain;
    assert ValidSignupDefaults(now).email == EmailHead + tail;
    assert tail[|n|] == EmailDomain[0] == '@';
    assert (EmailHead + tail)[|EmailHead| + |n|] == tail[|n|];
  }

  /** The default password has an upper-case letter and the no-uppercase
      one has none. */
  lemma NoUppercaseHasNone(now: nat, taken: Option<TestUser>)
    ensures !HasUpper(NegativeForm(NoUppercase, now, taken).value.password)
    ensures HasUpper(ValidSignupDefaults(now).password)
  {
    assert IsUpper(DefaultPassword[0]);
    var noUpper := NegativeForm(NoUppercase, now, taken).value.password;
    assert forall k :: 0 <= k < |noUpper| ==> !IsUpper(noUpper[k]);
  }

  /** The default password has a digit and the no-number one has none. */
  lemma NoNumberHasNone(now: nat, taken: Option<TestUser>)
    ensures !HasDigit(NegativeForm(NoNumber, now, taken).value.password)
    ensures HasDigit(ValidSignupDefaults(now).password)
  {
    assert IsDigit(DefaultPassword[8]);
    var noDigit := NegativeForm(NoNumber, now, taken).value.password;
    assert forall k :: 0 <= k < |noDigit| ==> !IsDigit(noDigit[k]);
  }

  /* ---------------------------------------------------------------- */
  /*  The valid sign-up step and the account check                     */
  /* ---------------------------------------------------------------- */

  /** "I submit the sign up form with valid details": the name is recorded
      before the form is submitted, so it is recorded even when the
      submission then throws. */
  datatype SignupStep = SignupStep(scratch: Scratch, submitted: SignupForm, threw: bool)

  function WhenValidSignup(s: Scratch, now: nat, submitThrows: bool): (r: SignupStep)
    ensures r.scratch.signupName == Some(DefaultName)
    ensures r.scratch.productId == s.productId && r.scratch.stockBefore == s.stockBefore
    ensures r.submitted == ValidSignupDefaults(now)
    ensures r.threw == submitThrows
  {
    var data := ValidSignupDefaults(now);
    SignupStep(s.(signupName := Some(data.name)), data, submitThrows)
  }

  /** "I should see my account link in the nav": the account link's text,
      "" when it has none, trimmed, must be non-empty, and must equal the
      recorded sign-up name when one is recorded and is not empty. */
  function AccountNameMatches(navText: Option<string>, signupName: Option<string>): (pass: bool)
    ensures pass ==> |Trim(navText.GetOr(""))| > 0
    ensures navText.None? ==> !pass
    ensures signupName.Some? && signupName.value != "" ==>
              (pass <==> Trim(navText.GetOr("")) == signupName.value)
    ensures signupName.None? || signupName == Some("") ==>
              (pass <==> |Trim(navText.GetOr(""))| > 0)
  {
    TrimEmpty();
    var name := Trim(navText.GetOr(""));
    |name| > 0 && (signupName.Some? && signupName.value != "" ==> name == signupName.value)
  }

  /** After the valid sign-up step, the account check passes exactly when
      the nav shows the default name, blanks around it aside. */
  lemma AccountCheckAfterSignup(s: Scratch, now: nat, submitThrows: bool, navText: Option<string>)
    ensures var r := WhenValidSignup(s, now, submitThrows);
            AccountNameMatches(navText, r.scratch.signupName) <==> Trim(navText.GetOr("")) == DefaultName
  {
  }

  /** In a scenario that did not sign up, any non-blank account name passes:
      a log-in as alice passes whatever her display name. */
  lemma AccountCheckWithoutSignup(p: string, q: string, shown: string)
    requires forall k :: 0 <= k < |p| ==> IsWhiteSpace(p[k])
    requires forall k :: 0 <= k < |q| ==> IsWhiteSpace(q[k])
    requires |shown| > 0 && !IsWhiteSpace(shown[0]) && !IsWhiteSpace(shown[|shown| - 1])
    ensures AccountNameMatches(Some(p + shown + q), EmptyScratch.signupName)
  {
    TrimPadded(p, shown, q);
  }

  /** The credentials "I am logged in" and the valid log-in step submit:
      alice's, or a throw when her fixture is missing. */
  function AliceCredentials(f: Fixtures): (c: Option<(string, string)>)
    ensures c.Some? <==> f.alice.Some?
    ensures c.Some? ==> c.value.0 == f.alice.value.email && c.value.1 == f.alice.value.password
  {
    match f.alice
    case None => None
    case Some(a) => Some((a.email, a.password))
  }

  /** The log-in uses the first fixture user with alice's address. */
  lemma AliceIsFirstMatch(users: seq<TestUser>, i: nat)
    requires i < |users| && users[i].email == AliceEmail
    requires forall k :: 0 <= k < i ==> users[k].email != AliceEmail
    ensures AliceCredentials(LoadFixtures(users)) == Some((AliceEmail, users[i].password))
  {
  }
}
