/** Second factor and recovery codes of one account, each handler taken as one step on
    the stored record. Password checks, code checks and generated values are supplied. */
module Totp {
  import opened Wrappers
  import opened Text
  import opened Accounts

  const RECOVERY_CODES := 10

  /** Which handlers succeed; a failed one may still change the record. */
  datatype Response = Accepted | Refused

  function Sign(u: User, secret: string): (User, Response) {
    if u.totpVerified then (u, Refused)
    else (u.(totpSecret := secret, totpVerified := false, recoveryCodes := []), Accepted)
  }

  /** A wrong first code removes the set-up entirely. */
  function Verify(u: User, codeIsRight: bool, codes: seq<string>): (User, Response) {
    if u.totpSecret == "" || u.totpVerified then (u, Refused)
    else if !codeIsRight then (u.(totpSecret := "", totpVerified := false, recoveryCodes := []), Refused)
    else (u.(totpVerified := true, recoveryCodes := codes), Accepted)
  }

  function Unsign(u: User): (User, Response) {
    if u.totpSecret == "" then (u, Refused)
    else (u.(totpSecret := "", totpVerified := false, recoveryCodes := []), Accepted)
  }

  function UpperChar(c: char): char {
    if 'a' <= c <= 'z' then (c as int - 32) as char else c
  }

  function Upper(s: string): string {
    seq(|s|, i requires 0 <= i < |s| => UpperChar(s[i]))
  }

  lemma UpperFolds(s: string)
    ensures Fold(Upper(s)) == Fold(s)
  {
    assert |Fold(Upper(s))| == |Fold(s)|;
  }

  /** Position of the first code equal to the given one without regard to case. */
  function FirstMatch(codes: seq<string>, code: string): (r: Option<nat>)
    ensures r.Some? ==> r.value < |codes| && EqualFold(codes[r.value], code)
    ensures r.Some? ==> forall i :: 0 <= i < r.value ==> !EqualFold(codes[i], code)
    ensures r.None? ==> forall i :: 0 <= i < |codes| ==> !EqualFold(codes[i], code)
  {
    if codes == [] then None
    else if EqualFold(codes[0], code) then Some(0)
    else
      match FirstMatch(codes[1..], code)
      case None => None
      case Some(i) => Some(i + 1)
  }

  function Without(codes: seq<string>, i: nat): seq<string>
    requires i < |codes|
  {
    codes[..i] + codes[i + 1..]
  }

  /** The loop that rebuilds the list without the first match. */
  method SpendCode(codes: seq<string>, code: string) returns (found: bool, rest: seq<string>)
    ensures found <==> FirstMatch(codes, code).Some?
    ensures rest == if found then Without(codes, FirstMatch(codes, code).value) else codes
  {
    var upper := Upper(code);
    UpperFolds(code);
    found := false;
    rest := [];
    ghost var at := 0;
    for i := 0 to |codes|
      invariant !found ==> rest == codes[..i] && forall j :: 0 <= j < i ==> !EqualFold(codes[j], code)
      invariant found ==> at < i && EqualFold(codes[at], code) && rest == codes[..at] + codes[at + 1..i]
      invariant found ==> forall j :: 0 <= j < at ==> !EqualFold(codes[j], code)
    {
      if EqualFold(codes[i], upper) && !found {
        found := true;
        at := i;
        continue;
      }
      rest := rest + [codes[i]];
    }
    var first := FirstMatch(codes, code);
    if found {
      assert first.value == at by {
        assert !(first.value < at) && !(at < first.value);
      }
    }
  }

  /** No two codes are equal ignoring case. */
  predicate FoldDistinct(codes: seq<string>) {
    forall i, j :: 0 <= i < j < |codes| ==> !EqualFold(codes[i], codes[j])
  }

  function Recover(u: User, code: string): (User, Response) {
    if !u.totpVerified || u.recoveryCodes == [] then (u, Refused)
    else
      match FirstMatch(u.recoveryCodes, code)
      case None => (u, Refused)
      case Some(i) => (u.(recoveryCodes := Without(u.recoveryCodes, i)), Accepted)
  }

  // ---- runs

  datatype Event =
    | SignEvent(secret: string)
    | VerifyEvent(codeIsRight: bool, codes: seq<string>)
    | UnsignEvent
    | RecoverEvent(code: string)

  /** The record, the codes of the latest activation and those of them spent since. */
  datatype State = State(u: User, issued: seq<string>, spent: multiset<string>)

  function Handle(u: User, e: Event): (User, Response) {
    match e
    case SignEvent(secret) => Sign(u, secret)
    case VerifyEvent(ok, codes) => Verify(u, ok, codes)
    case UnsignEvent => Unsign(u)
    case RecoverEvent(code) => Recover(u, code)
  }

  function Step(s: State, e: Event): State {
    var (u, r) := Handle(s.u, e);
    match e
    case VerifyEvent(_, codes) => if r.Accepted? then State(u, codes, multiset{}) else s.(u := u)
    case RecoverEvent(code) =>
      if r.Accepted? then
        var spent := s.u.recoveryCodes[FirstMatch(s.u.recoveryCodes, code).value];
        State(u, s.issued, s.spent + multiset{spent})
      else s.(u := u)
    case _ => s.(u := u)
  }

  function Run(s: State, events: seq<Event>): State {
    if events == [] then s else Step(Run(s, events[..|events| - 1]), events[|events| - 1])
  }

  /** Ten codes are generated per activation. */
  predicate TenCodes(e: Event) {
    e.VerifyEvent? ==> |e.codes| == RECOVERY_CODES
  }

  ghost predicate TotpOk(s: State) {
    && (s.u.totpVerified ==> s.u.totpSecret != "")
    && (s.u.recoveryCodes != [] ==> s.u.totpVerified)
    && multiset(s.u.recoveryCodes) + s.spent <= multiset(s.issued)
    && (s.u.totpVerified ==> multiset(s.u.recoveryCodes) + s.spent == multiset(s.issued))
    && |s.issued| <= RECOVERY_CODES
  }

  lemma WithoutMultiset(codes: seq<string>, i: nat)
    requires i < |codes|
    ensures multiset(Without(codes, i)) + multiset{codes[i]} == multiset(codes)
  {
    assert codes == codes[..i] + [codes[i]] + codes[i + 1..];
  }

  lemma StepOk(s: State, e: Event)
    requires TotpOk(s) && TenCodes(e)
    ensures TotpOk(Step(s, e))
    ensures var u := Step(s, e).u; u.id == s.u.id && u.email == s.u.email && u.uid == s.u.uid && u.password == s.u.password
  {
    if e.RecoverEvent? {
      RecoverOk(s, e.code);
    }
  }

  lemma RecoverOk(s: State, code: string)
    requires TotpOk(s)
    ensures TotpOk(Step(s, RecoverEvent(code)))
    ensures var u := Step(s, RecoverEvent(code)).u;
            u == s.u.(recoveryCodes := u.recoveryCodes)
  {
    if Recover(s.u, code).1.Accepted? {
      var i := FirstMatch(s.u.recoveryCodes, code).value;
      var after := Step(s, RecoverEvent(code));
      assert after.u.recoveryCodes == Without(s.u.recoveryCodes, i);
      assert after.spent == s.spent + multiset{s.u.recoveryCodes[i]};
      WithoutMultiset(s.u.recoveryCodes, i);
    }
  }

  /** Over every run of handlers: a verified second factor has a secret, codes exist only
      while it is verified, and since the latest activation the codes spent and the codes
      left together are the ten that were issued, so at most ten recovery logins
      succeed and each of them uses up one code. */
  lemma {:induction false} RunOk(s: State, events: seq<Event>)
    requires TotpOk(s) && forall i :: 0 <= i < |events| ==> TenCodes(events[i])
    ensures TotpOk(Run(s, events)) && |Run(s, events).spent| <= RECOVERY_CODES
  {
    if events != [] {
      var init := events[..|events| - 1];
      RunOk(s, init);
      StepOk(Run(s, init), events[|events| - 1]);
    }
    var t := Run(s, events);
    SmallerMultiset(t.spent, multiset(t.issued));
  }

  lemma SmallerMultiset(a: multiset<string>, b: multiset<string>)
    requires a <= b
    ensures |a| <= |b|
  {
    assert b == a + (b - a);
  }

  /** A successful recovery login removes exactly one code, the first that matches, and
      keeps the others in order; a code that matches nothing changes nothing. */
  lemma RecoverMeaning(u: User, code: string)
    requires u.totpVerified
    ensures var (after, r) := Recover(u, code);
            && (r.Accepted? <==> exists i :: 0 <= i < |u.recoveryCodes| && EqualFold(u.recoveryCodes[i], code))
            && (r.Refused? ==> after == u)
            && (r.Accepted? ==> exists i :: SpentAt(u, code, i, after))
  {
    if Recover(u, code).1.Accepted? {
      assert SpentAt(u, code, FirstMatch(u.recoveryCodes, code).value, Recover(u, code).0);
    }
  }

  ghost predicate SpentAt(u: User, code: string, i: int, after: User) {
    && 0 <= i < |u.recoveryCodes| && EqualFold(u.recoveryCodes[i], code)
    && (forall j :: 0 <= j < i ==> !EqualFold(u.recoveryCodes[j], code))
    && after == u.(recoveryCodes := u.recoveryCodes[..i] + u.recoveryCodes[i + 1..])
  }

  /** Codes that differ by more than case work once: a handler that reads the record the
      previous login wrote refuses the code. */
  lemma SpentCodeIsRefused(u: User, code: string)
    requires u.totpVerified && FirstMatch(u.recoveryCodes, code).Some?
    requires FoldDistinct(u.recoveryCodes)
    ensures Recover(u, code).1.Accepted?
    ensures Recover(Recover(u, code).0, code).1.Refused?
  {
    var i := FirstMatch(u.recoveryCodes, code).value;
    var rest := Without(u.recoveryCodes, i);
    forall j | 0 <= j < |rest| ensures !EqualFold(rest[j], code) {
      var k := if j < i then j else j + 1;
      assert rest[j] == u.recoveryCodes[k];
      assert !EqualFold(u.recoveryCodes[if k < i then k else i], u.recoveryCodes[if k < i then i else k]);
    }
  }
}
