/** The sign-up form (app/routes/signup.tsx): the password rules, the
    checklist shown under the password field, the submit handler's gate and
    the submit button's disabled condition. Form state is passed in as
    values; the browser alert and the navigation are results. */
module Signup {
  import opened Nullable

  /** The five password requirements, as the checklist lists them. */
  datatype Requirement = MinLength | Uppercase | Lowercase | Digit | Special

  const Checklist: seq<Requirement> := [MinLength, Uppercase, Lowercase, Digit, Special]

  /** The checklist's text for a requirement; validatePassword reports a
      failed requirement with the same text. */
  function Message(r: Requirement): string
  {
    match r
    case MinLength => "At least 8 characters long"
    case Uppercase => "At least one uppercase letter"
    case Lowercase => "At least one lowercase letter"
    case Digit => "At least one number"
    case Special => "At least one special character"
  }

  /** A requirement's place on the checklist. */
  function Rank(r: Requirement): nat
  {
    match r
    case MinLength => 0
    case Uppercase => 1
    case Lowercase => 2
    case Digit => 3
    case Special => 4
  }

  /** The place on the checklist of the requirement a message reports, or
      -1 for any other text. */
  function MessageRank(m: string): int
  {
    if m == Message(MinLength) then 0
    else if m == Message(Uppercase) then 1
    else if m == Message(Lowercase) then 2
    else if m == Message(Digit) then 3
    else if m == Message(Special) then 4
    else -1
  }

  /** `password.length`: JavaScript counts UTF-16 code units, so a
      character beyond U+FFFF counts twice. */
  function Utf16Length(s: string): nat
  {
    if s == [] then 0 else (if s[0] as int > 0xFFFF then 2 else 1) + Utf16Length(s[1..])
  }

  /** The class `[!@#$%^&*(),.?":{}|<>]`. */
  const SpecialCharacters := "!@#$%^&*(),.?\":{}|<>"

  /** `/[A-Z]/.test(s)` */
  predicate HasUppercase(s: string)
  {
    exists i | 0 <= i < |s| :: 'A' <= s[i] <= 'Z'
  }

  /** `/[a-z]/.test(s)` */
  predicate HasLowercase(s: string)
  {
    exists i | 0 <= i < |s| :: 'a' <= s[i] <= 'z'
  }

  /** `/\d/.test(s)`: ASCII digits only. */
  predicate HasDigit(s: string)
  {
    exists i | 0 <= i < |s| :: '0' <= s[i] <= '9'
  }

  /** `/[!@#$%^&*(),.?":{}|<>]/.test(s)` */
  predicate HasSpecial(s: string)
  {
    exists i | 0 <= i < |s| :: s[i] in SpecialCharacters
  }

  predicate Satisfies(password: string, r: Requirement)
  {
    match r
    case MinLength => Utf16Length(password) >= 8
    case Uppercase => HasUppercase(password)
    case Lowercase => HasLowercase(password)
    case Digit => HasDigit(password)
    case Special => HasSpecial(password)
  }

  /** The report for one requirement: its message when `password` fails it. */
  function Piece(password: string, r: Requirement): seq<string>
  {
    if Satisfies(password, r) then [] else [Message(r)]
  }

  /** The messages of the requirements among `rs` that `password` fails,
      in the order of `rs`. */
  function UnmetAmong(password: string, rs: seq<Requirement>): seq<string>
  {
    if rs == [] then [] else Piece(password, rs[0]) + UnmetAmong(password, rs[1..])
  }

  /** What the form should report: the checklist entries `password` fails. */
  function Unmet(password: string): seq<string>
  {
    UnmetAmong(password, Checklist)
  }

  /** validatePassword: one check after another, each pushing its message
      when it fails. */
  method ValidatePassword(password: string) returns (errors: seq<string>)
    ensures errors == Unmet(password)
  {
    errors := [];
    if Utf16Length(password) < 8 {
      errors := errors + ["At least 8 characters long"];
    }
    assert errors == Piece(password, MinLength);
    if !HasUppercase(password) {
      errors := errors + ["At least one uppercase letter"];
    }
    assert errors == Piece(password, MinLength) + Piece(password, Uppercase);
    if !HasLowercase(password) {
      errors := errors + ["At least one lowercase letter"];
    }
    assert errors == Piece(password, MinLength) + Piece(password, Uppercase) + Piece(password, Lowercase);
    if !HasDigit(password) {
      errors := errors + ["At least one number"];
    }
    assert errors == Piece(password, MinLength) + Piece(password, Uppercase) + Piece(password, Lowercase) +
      Piece(password, Digit);
    if !HasSpecial(password) {
      errors := errors + ["At least one special character"];
    }
    UnmetUnfolded(password);
  }

  lemma UnmetUnfolded(password: string)
    ensures Unmet(password) ==
      Piece(password, MinLength) + Piece(password, Uppercase) + Piece(password, Lowercase) +
      Piece(password, Digit) + Piece(password, Special)
  {
    var p := password;
    var e := UnmetAmong(p, [Special]);
    assert e == Piece(p, Special) by {
      assert [Special][1..] == [];
      assert UnmetAmong(p, []) == [];
      assert e == Piece(p, Special) + [];
    }
    var d := UnmetAmong(p, [Digit, Special]);
    assert d == Piece(p, Digit) + e by {
      assert [Digit, Special][1..] == [Special];
    }
    var c := UnmetAmong(p, [Lowercase, Digit, Special]);
    assert c == Piece(p, Lowercase) + d by {
      assert [Lowercase, Digit, Special][1..] == [Digit, Special];
    }
    var b := UnmetAmong(p, [Uppercase, Lowercase, Digit, Special]);
    assert b == Piece(p, Uppercase) + c by {
      assert [Uppercase, Lowercase, Digit, Special][1..] == [Lowercase, Digit, Special];
    }
    assert Unmet(p) == Piece(p, MinLength) + b by {
      assert Checklist[1..] == [Uppercase, Lowercase, Digit, Special];
    }
    Regroup(Piece(p, MinLength), Piece(p, Uppercase), Piece(p, Lowercase), Piece(p, Digit), e);
  }

  lemma Regroup(a: seq<string>, b: seq<string>, c: seq<string>, d: seq<string>, e: seq<string>)
    ensures a + (b + (c + (d + e))) == a + b + c + d + e
  {
  }

  /** A message appears among `rs`'s failures exactly when it reports a
      requirement in `rs` that the password fails. */
  lemma {:induction false} UnmetAmongMembers(password: string, rs: seq<Requirement>, m: string)
    ensures m in UnmetAmong(password, rs) <==>
      exists r | r in rs :: m == Message(r) && !Satisfies(password, r)
  {
    if rs != [] {
      UnmetAmongMembers(password, rs[1..], m);
      assert forall r :: r in rs <==> r == rs[0] || r in rs[1..];
    }
  }

  /** The form accepts the password exactly when it is at least 8 UTF-16
      units long and has an upper-case letter, a lower-case letter, a digit
      and one of the listed special characters. */
  lemma ValidIffAllMet(password: string)
    ensures Unmet(password) == [] <==>
      Utf16Length(password) >= 8 && HasUppercase(password) && HasLowercase(password) &&
      HasDigit(password) && HasSpecial(password)
  {
    UnmetUnfolded(password);
  }

  /** Each message is reported exactly when its own check fails. */
  lemma MessagePresentIff(password: string, r: Requirement)
    ensures Message(r) in Unmet(password) <==> !Satisfies(password, r)
  {
    UnmetAmongMembers(password, Checklist, Message(r));
    forall q | Message(q) == Message(r) ensures q == r {
    }
  }

  lemma MessageRankOfMessage(r: Requirement)
    ensures MessageRank(Message(r)) == Rank(r)
  {
    match r
    case MinLength =>
    case Uppercase =>
    case Lowercase =>
    case Digit =>
    case Special =>
  }

  /** Putting a message in front of a report whose messages all come
      later on the checklist keeps the report in checklist order. */
  lemma PrependInOrder(m: string, v: seq<string>, lo: int)
    requires lo <= MessageRank(m) <= 4
    requires forall k | 0 <= k < |v| :: MessageRank(m) < MessageRank(v[k]) <= 4
    requires forall i, j | 0 <= i < j < |v| :: MessageRank(v[i]) < MessageRank(v[j])
    ensures forall i | 0 <= i < |[m] + v| :: lo <= MessageRank(([m] + v)[i]) <= 4
    ensures forall i, j | 0 <= i < j < |[m] + v| :: MessageRank(([m] + v)[i]) < MessageRank(([m] + v)[j])
  {
    var u := [m] + v;
    forall i | 0 <= i < |u| ensures lo <= MessageRank(u[i]) <= 4 {
      if i > 0 {
        assert u[i] == v[i - 1];
      }
    }
    forall i, j | 0 <= i < j < |u| ensures MessageRank(u[i]) < MessageRank(u[j]) {
      assert u[j] == v[j - 1];
      if i > 0 {
        assert u[i] == v[i - 1];
      }
    }
  }

  lemma {:induction false} UnmetAmongOrdered(password: string, rs: seq<Requirement>, lo: int)
    requires forall i, j | 0 <= i < j < |rs| :: Rank(rs[i]) < Rank(rs[j])
    requires forall i | 0 <= i < |rs| :: lo <= Rank(rs[i])
    ensures forall i | 0 <= i < |UnmetAmong(password, rs)| :: lo <= MessageRank(UnmetAmong(password, rs)[i]) <= 4
    ensures forall i, j | 0 <= i < j < |UnmetAmong(password, rs)| ::
      MessageRank(UnmetAmong(password, rs)[i]) < MessageRank(UnmetAmong(password, rs)[j])
  {
    if rs != [] {
      var tail := rs[1..];
      assert forall i | 0 <= i < |tail| :: tail[i] == rs[i + 1];
      UnmetAmongOrdered(password, tail, Rank(rs[0]) + 1);
      MessageRankOfMessage(rs[0]);
      var v := UnmetAmong(password, tail);
      if !Satisfies(password, rs[0]) {
        assert UnmetAmong(password, rs) == [Message(rs[0])] + v;
        PrependInOrder(Message(rs[0]), v, lo);
      }
    }
  }

  /** The report lists failures in checklist order (length, upper, lower,
      digit, special), each at most once, so never more than five. */
  lemma UnmetInChecklistOrder(password: string)
    ensures |Unmet(password)| <= 5
    ensures forall i | 0 <= i < |Unmet(password)| :: 0 <= MessageRank(Unmet(password)[i]) <= 4
    ensures forall i, j | 0 <= i < j < |Unmet(password)| ::
      MessageRank(Unmet(password)[i]) < MessageRank(Unmet(password)[j])
  {
    UnmetAmongOrdered(password, Checklist, 0);
    UnmetUnfolded(password);
  }

  /** A checklist line shows the tick when its text is not among the
      reported errors. */
  function ChecklistItemValid(r: Requirement, passwordErrors: seq<string>): bool
  {
    Message(r) !in passwordErrors
  }

  /** With the errors the password field computed, the checklist ticks
      exactly the requirements the password meets. */
  lemma ChecklistAgrees(password: string, r: Requirement)
    ensures ChecklistItemValid(r, Unmet(password)) <==> Satisfies(password, r)
  {
    MessagePresentIff(password, r);
  }

  /** Where handleSubmit ends: an alert, or the register operation. */
  datatype SubmitOutcome = Alert(text: string) | Register

  /** handleSubmit before the dispatch: the password rules are checked
      first, then the confirmation. */
  function HandleSubmit(password: string, confirmPassword: string): SubmitOutcome
  {
    if |Unmet(password)| > 0 then Alert("Please fix password requirements before submitting")
    else if password != confirmPassword then Alert("Passwords do not match")
    else Register
  }

  /** Registration is reached only with a password that meets every rule
      and equals its confirmation, and a failing password is reported as
      such whatever the confirmation says. */
  lemma RegisterOnlyWhenValid(password: string, confirmPassword: string)
    ensures HandleSubmit(password, confirmPassword) == Register <==>
      (forall r :: Satisfies(password, r)) && password == confirmPassword
    ensures (exists r :: !Satisfies(password, r)) ==>
      HandleSubmit(password, confirmPassword) == Alert("Please fix password requirements before submitting")
  {
    UnmetUnfolded(password);
  }

  /** How the dispatched registration settled. */
  datatype RegisterResult = RegisterFulfilled(apiKey: string) | RegisterRejected(message: Option<string>) | RegisterThrew

  /** handleSubmit navigates to /docs only on a fulfilled registration. */
  function NavigatesToDocs(password: string, confirmPassword: string, result: RegisterResult): bool
  {
    match HandleSubmit(password, confirmPassword)
    case Alert(_) => false
    case Register => result.RegisterFulfilled?
  }

  lemma NavigationNeedsValidFulfilledRegistration(password: string, confirmPassword: string, result: RegisterResult)
    ensures NavigatesToDocs(password, confirmPassword, result) <==>
      (forall r :: Satisfies(password, r)) && password == confirmPassword && result.RegisterFulfilled?
  {
    RegisterOnlyWhenValid(password, confirmPassword);
  }

  /** The submit button's `disabled` expression. */
  function SubmitDisabled(loading: bool, passwordErrors: seq<string>, password: string, confirmPassword: string): bool
  {
    loading || |passwordErrors| > 0 || password != confirmPassword || password == "" || confirmPassword == ""
  }

  /** When the shown errors are the password's own, the button is enabled
      exactly when no request is in flight and the handler would register:
      the empty-field tests add nothing, as an empty password already
      fails the length rule. */
  lemma ButtonAgreesWithHandler(loading: bool, password: string, confirmPassword: string)
    ensures !SubmitDisabled(loading, Unmet(password), password, confirmPassword) <==>
      !loading && HandleSubmit(password, confirmPassword) == Register
  {
    UnmetUnfolded(password);
  }
}
