/** The second-factor handlers and profile updates of one account at the same time. Each
    reads the record and writes all of it back later. The handlers hold the lock only
    while they read, so any number of writes can come in between, and also in between an
    update, which holds it throughout; that two updates cannot overlap is not used. */
module Overlaps {
  import opened Text
  import opened Accounts
  import opened Totp

  datatype Action =
    | Handler(e: Event)
    | Update(updates: map<string, string>)

  /** A request reads the record, or ends with what it makes of the record it read; `saved`
      says whether the file could be written. */
  datatype Turn =
    | Read(h: nat)
    | Write(h: nat, a: Action, saved: bool)

  /** The stored record and what the open requests have read. `profile` is what the updates
      come to. Since the last write that was neither an update nor a recovery login: the
      codes it left valid, those the accepted logins used up, and what their clients typed. */
  datatype System = System(record: User, held: map<nat, User>, profile: map<string, string>,
                           issued: seq<string>, spent: seq<string>, typed: seq<string>)

  function Start(u: User): System {
    System(u, map[], u.profile, u.recoveryCodes, [], [])
  }

  predicate Writes(u: User, a: Action) {
    match a
    case Handler(SignEvent(_)) => !u.totpVerified
    case Handler(VerifyEvent(_, _)) => u.totpSecret != "" && !u.totpVerified
    case Handler(UnsignEvent) => u.totpSecret != ""
    case Handler(RecoverEvent(code)) => u.totpVerified && FirstMatch(u.recoveryCodes, code).Some?
    case Update(updates) => updates != map[]
  }

  function Result(u: User, a: Action): User {
    match a
    case Handler(e) => Handle(u, e).0
    case Update(updates) => u.(profile := u.profile + updates)
  }

  /** A request that does not write would have changed nothing, and a recovery login writes
      exactly when it is accepted. */
  lemma SilentIsIdle(u: User, a: Action)
    ensures !Writes(u, a) ==> Result(u, a) == u
    ensures a.Handler? && a.e.RecoverEvent? ==> (Writes(u, a) <==> Handle(u, a.e).1.Accepted?)
  {
    if a.Update? && a.updates == map[] {
      assert u.profile + a.updates == u.profile;
    }
  }

  /** Whether this turn writes what its request made of the record over the record. */
  predicate Saves(s: System, t: Turn) {
    t.Write? && t.saved && t.h in s.held && Writes(s.held[t.h], t.a)
  }

  function Step(s: System, t: Turn): System {
    match t
    case Read(h) => s.(held := s.held[h := s.record])
    case Write(h, a, _) =>
      if Saves(s, t) then Written(s.(held := s.held - {h}), s.held[h], a) else s.(held := s.held - {h})
  }

  function Written(s: System, u: User, a: Action): System
    requires Writes(u, a)
  {
    var after := Result(u, a);
    match a
    case Handler(RecoverEvent(code)) =>
      var i := FirstMatch(u.recoveryCodes, code).value;
      s.(record := after, spent := s.spent + [u.recoveryCodes[i]], typed := s.typed + [code])
    case Handler(_) => s.(record := after, issued := after.recoveryCodes, spent := [], typed := [])
    case Update(updates) => s.(record := after, profile := s.profile + updates)
  }

  function After(s: System, turns: seq<Turn>): System {
    if turns == [] then s else Step(After(s, turns[..|turns| - 1]), turns[|turns| - 1])
  }

  lemma AfterPrefix(s: System, turns: seq<Turn>, k: nat)
    requires k < |turns|
    ensures After(s, turns[..k + 1]) == Step(After(s, turns[..k]), turns[k])
  {
    assert turns[..k + 1][..k] == turns[..k];
  }

  // ---- what holds whatever overlaps

  predicate Shape(u: User) {
    && (u.totpVerified ==> u.totpSecret != "")
    && (u.recoveryCodes != [] ==> u.totpVerified)
    && |u.recoveryCodes| <= RECOVERY_CODES
  }

  predicate SameAccount(u: User, v: User) {
    u.id == v.id && u.email == v.email && u.uid == v.uid && u.password == v.password
  }

  predicate TenCodesAt(t: Turn) {
    t.Write? && t.a.Handler? ==> TenCodes(t.a.e)
  }

  ghost predicate Sound(s: System, u: User) {
    && Shape(s.record) && SameAccount(s.record, u)
    && forall h :: h in s.held ==> Shape(s.held[h]) && SameAccount(s.held[h], u)
  }

  lemma ResultKeepsShape(u: User, a: Action)
    requires Shape(u) && (a.Handler? ==> TenCodes(a.e))
    ensures Shape(Result(u, a)) && SameAccount(Result(u, a), u)
  {
  }

  /** However the requests overlap, a verified second factor has a secret, codes exist only
      while it is verified and are at most ten, and the account stays who it is. */
  lemma {:induction false} ShapeKept(u: User, turns: seq<Turn>)
    requires Shape(u) && forall k :: 0 <= k < |turns| ==> TenCodesAt(turns[k])
    ensures Sound(After(Start(u), turns), u)
  {
    if turns != [] {
      var init, t := turns[..|turns| - 1], turns[|turns| - 1];
      ShapeKept(u, init);
      var s := After(Start(u), init);
      if t.Write? && t.h in s.held {
        ResultKeepsShape(s.held[t.h], t.a);
      }
    }
  }

  // ---- when the requests might as well run one at a time

  function OneByOne(u: User, actions: seq<Action>): User {
    if actions == [] then u else Result(OneByOne(u, actions[..|actions| - 1]), actions[|actions| - 1])
  }

  /** For handlers this is the run of the serialised model. */
  lemma {:induction false} OneByOneIsRun(s: State, events: seq<Event>)
    ensures OneByOne(s.u, seq(|events|, i requires 0 <= i < |events| => Handler(events[i]))) == Run(s, events).u
  {
    if events != [] {
      var n := |events| - 1;
      var actions := seq(|events|, i requires 0 <= i < |events| => Handler(events[i]));
      OneByOneIsRun(s, events[..n]);
      assert actions[..n] == seq(n, i requires 0 <= i < n => Handler(events[..n][i]));
    }
  }

  /** The requests that ended and were not kept from saving, in that order. */
  function Served(s: System, turns: seq<Turn>): seq<Action> {
    if turns == [] then []
    else
      var init, t := turns[..|turns| - 1], turns[|turns| - 1];
      Served(s, init) + if t.Write? && t.saved && t.h in After(s, init).held then [t.a] else []
  }

  /** The record changed between this request's read and its write. */
  predicate Outdated(s: System, t: Turn) {
    t.Write? && t.saved && t.h in s.held && s.held[t.h] != s.record
  }

  /** Where no request ends on a record that changed since it read it, the record is what
      the same requests leave that run one after another. */
  lemma {:induction false} UndisturbedIsSerial(u: User, turns: seq<Turn>)
    requires forall k :: 0 <= k < |turns| ==> !Outdated(After(Start(u), turns[..k]), turns[k])
    ensures After(Start(u), turns).record == OneByOne(u, Served(Start(u), turns))
  {
    if turns != [] {
      var n := |turns| - 1;
      var init, t := turns[..n], turns[n];
      forall k | 0 <= k < n ensures !Outdated(After(Start(u), init[..k]), init[k]) {
        assert init[..k] == turns[..k];
      }
      UndisturbedIsSerial(u, init);
      var s, before := After(Start(u), init), Served(Start(u), init);
      assert !Outdated(s, t);
      if t.Write? && t.saved && t.h in s.held {
        SilentIsIdle(s.record, t.a);
        assert (before + [t.a])[..|before|] == before;
      } else {
        assert before + [] == before;
      }
    }
  }

  // ---- profile updates

  function OwnKeys(a: Action): set<string> {
    if a.Update? then a.updates.Keys else {}
  }

  /** A write undoes somebody's update: the profile it read differs from the record's in
      more than it sets itself. */
  predicate Undoes(s: System, t: Turn) {
    Saves(s, t) && s.held[t.h].profile - OwnKeys(t.a) != s.record.profile - OwnKeys(t.a)
  }

  lemma SameOutside(a: map<string, string>, b: map<string, string>, more: map<string, string>)
    ensures a + more == b + more <==> a - more.Keys == b - more.Keys
  {
    if a + more == b + more {
      forall k | k !in more ensures (k in a <==> k in b) && (k in a ==> a[k] == b[k]) {
        assert k in a + more <==> k in b + more;
        assert k in a + more ==> (a + more)[k] == (b + more)[k];
      }
      assert a - more.Keys == b - more.Keys;
    }
    if a - more.Keys == b - more.Keys {
      forall k | k !in more ensures (k in a <==> k in b) && (k in a ==> a[k] == b[k]) {
        assert k in a - more.Keys <==> k in b - more.Keys;
        assert k in a - more.Keys ==> (a - more.Keys)[k] == (b - more.Keys)[k];
      }
      assert a + more == b + more;
    }
  }

  lemma ProfileStep(s: System, t: Turn)
    requires s.record.profile == s.profile
    ensures Step(s, t).record.profile == Step(s, t).profile <==> !Undoes(s, t)
  {
    if Saves(s, t) {
      var held := s.held[t.h].profile;
      if t.a.Update? {
        SameOutside(held, s.profile, t.a.updates);
      } else {
        assert held - {} == held && s.record.profile - {} == s.record.profile;
      }
    }
  }

  /** The stored profile is what the updates come to, throughout a run, exactly when no
      write undoes an update. */
  lemma ProfileExactly(u: User, turns: seq<Turn>)
    ensures (forall k :: 0 <= k <= |turns| ==>
               var s := After(Start(u), turns[..k]); s.record.profile == s.profile)
            <==> forall k :: 0 <= k < |turns| ==> !Undoes(After(Start(u), turns[..k]), turns[k])
  {
    var kept := (s: System) => s.record.profile == s.profile;
    Exactly(Start(u), turns, kept, Undoes) by {
      forall s, t | kept(s) ensures kept(Step(s, t)) <==> !Undoes(s, t) {
        ProfileStep(s, t);
      }
    }
  }

  /** What each step keeps exactly when it is not a bad one, a run keeps exactly when it has
      no bad step. */
  lemma Exactly(s: System, turns: seq<Turn>, kept: System -> bool, bad: (System, Turn) -> bool)
    requires kept(s)
    requires forall r, t :: kept(r) ==> (kept(Step(r, t)) <==> !bad(r, t))
    ensures (forall k :: 0 <= k <= |turns| ==> kept(After(s, turns[..k])))
            <==> forall k :: 0 <= k < |turns| ==> !bad(After(s, turns[..k]), turns[k])
  {
    if forall k :: 0 <= k <= |turns| ==> kept(After(s, turns[..k])) {
      forall k | 0 <= k < |turns| ensures !bad(After(s, turns[..k]), turns[k]) {
        assert kept(After(s, turns[..k])) && kept(After(s, turns[..k + 1]));
        AfterPrefix(s, turns, k);
      }
    }
    if forall k :: 0 <= k < |turns| ==> !bad(After(s, turns[..k]), turns[k]) {
      forall k | 0 <= k <= |turns| ensures kept(After(s, turns[..k])) {
        KeptUpTo(s, turns, kept, bad, k);
      }
    }
  }

  lemma {:induction false} KeptUpTo(s: System, turns: seq<Turn>, kept: System -> bool, bad: (System, Turn) -> bool, k: nat)
    requires kept(s) && k <= |turns|
    requires forall r, t :: kept(r) ==> (kept(Step(r, t)) <==> !bad(r, t))
    requires forall i :: 0 <= i < k ==> !bad(After(s, turns[..i]), turns[i])
    ensures kept(After(s, turns[..k]))
  {
    if k > 0 {
      KeptUpTo(s, turns, kept, bad, k - 1);
      AfterPrefix(s, turns, k - 1);
      assert !bad(After(s, turns[..k - 1]), turns[k - 1]);
    }
  }

  // ---- a recovery code works once

  /** The codes left and the codes spent are the codes issued. */
  predicate Books(s: System) {
    multiset(s.record.recoveryCodes) + multiset(s.spent) == multiset(s.issued)
  }

  predicate IsLogin(a: Action) {
    a.Handler? && a.e.RecoverEvent?
  }

  /** Whether the codes issued stay the valid ones. */
  predicate KeepsCodes(a: Action) {
    IsLogin(a) || a.Update?
  }

  /** An accepted recovery login, or an update, writes over codes that changed since it
      read them. */
  predicate Overwrites(s: System, t: Turn) {
    && Saves(s, t) && KeepsCodes(t.a)
    && multiset(s.held[t.h].recoveryCodes) != multiset(s.record.recoveryCodes)
  }

  /** One step keeps the books exactly when it does not. */
  lemma BooksStep(s: System, t: Turn)
    requires Books(s)
    ensures Books(Step(s, t)) <==> !Overwrites(s, t)
  {
    if Saves(s, t) {
      var codes, left := s.held[t.h].recoveryCodes, s.record.recoveryCodes;
      if IsLogin(t.a) {
        var i := FirstMatch(codes, t.a.e.code).value;
        WithoutMultiset(codes, i);
        SpentBooks(multiset(codes), multiset(Without(codes, i)), multiset(left), s.spent, codes[i], multiset(s.issued));
      } else if t.a.Update? {
        SameRest(multiset(codes), multiset(left), multiset(s.spent));
      }
    }
  }

  lemma SameRest(a: multiset<string>, b: multiset<string>, rest: multiset<string>)
    ensures a + rest == b + rest <==> a == b
  {
    assert (a + rest) - rest == a && (b + rest) - rest == b;
  }

  lemma SpentBooks(held: multiset<string>, left: multiset<string>, now: multiset<string>, spent: seq<string>, code: string,
                   issued: multiset<string>)
    requires left + multiset{code} == held && now + multiset(spent) == issued
    ensures left + multiset(spent + [code]) == issued <==> held == now
  {
    assert left + multiset(spent + [code]) == held + multiset(spent);
    SameRest(held, now, multiset(spent));
  }

  predicate NeverOverwrites(s: System, turns: seq<Turn>) {
    forall k :: 0 <= k < |turns| ==> !Overwrites(After(s, turns[..k]), turns[k])
  }

  predicate AlwaysBooks(s: System, turns: seq<Turn>) {
    forall k :: 0 <= k <= |turns| ==> Books(After(s, turns[..k]))
  }

  /** Over any number of overlapping requests, codes left and codes spent are the codes
      issued throughout exactly when none overwrites codes that changed since it read
      them. */
  lemma BooksExactly(s: System, turns: seq<Turn>)
    requires Books(s)
    ensures AlwaysBooks(s, turns) <==> NeverOverwrites(s, turns)
  {
    forall r, t | Books(r) ensures Books(Step(r, t)) <==> !Overwrites(r, t) {
      BooksStep(r, t);
    }
    Exactly(s, turns, Books, Overwrites);
  }

  /** What was typed is what was spent, ignoring case. */
  predicate Matched(s: System) {
    |s.typed| == |s.spent| && forall i :: 0 <= i < |s.spent| ==> EqualFold(s.spent[i], s.typed[i])
  }

  lemma {:induction false} RunMatched(s: System, turns: seq<Turn>)
    requires Matched(s)
    ensures Matched(After(s, turns))
  {
    if turns != [] {
      RunMatched(s, turns[..|turns| - 1]);
      MatchedStep(After(s, turns[..|turns| - 1]), turns[|turns| - 1]);
    }
  }

  /** Then each code is accepted at most once, in whatever case it is typed. */
  lemma CodesWorkOnce(u: User, turns: seq<Turn>)
    requires NeverOverwrites(Start(u), turns) && FoldDistinct(After(Start(u), turns).issued)
    ensures FoldDistinct(After(Start(u), turns).typed)
  {
    BooksExactly(Start(u), turns);
    assert turns[..|turns|] == turns;
    assert Books(After(Start(u), turns[..|turns|]));
    RunMatched(Start(u), turns);
    OnceEach(After(Start(u), turns));
  }

  lemma OnceEach(s: System)
    requires Books(s) && Matched(s) && FoldDistinct(s.issued)
    ensures FoldDistinct(s.typed)
  {
    assert multiset(s.spent) <= multiset(s.issued);
    PartOfDistinct(s.spent, s.issued);
    forall i, j | 0 <= i < j < |s.typed| ensures !EqualFold(s.typed[i], s.typed[j]) {
      assert EqualFold(s.spent[i], s.typed[i]) && EqualFold(s.spent[j], s.typed[j]) && !EqualFold(s.spent[i], s.spent[j]);
    }
  }

  lemma PartOfDistinct(part: seq<string>, codes: seq<string>)
    requires multiset(part) <= multiset(codes) && FoldDistinct(codes)
    ensures FoldDistinct(part)
  {
    forall i, j | 0 <= i < j < |part| ensures !EqualFold(part[i], part[j]) {
      assert part[i] in multiset(codes) && part[j] in multiset(codes);
      var p :| 0 <= p < |codes| && codes[p] == part[i];
      var q :| 0 <= q < |codes| && codes[q] == part[j];
      if p == q {
        CountedTwice(part, i, j);
        CountedOnce(codes, part[i]);
      } else {
        assert !EqualFold(codes[if p < q then p else q], codes[if p < q then q else p]);
      }
    }
  }

  lemma CountedTwice(s: seq<string>, i: nat, j: nat)
    requires i < j < |s| && s[i] == s[j]
    ensures multiset(s)[s[i]] >= 2
  {
    assert s == s[..i] + [s[i]] + s[i + 1..j] + [s[j]] + s[j + 1..];
  }

  lemma CountedOnce(codes: seq<string>, code: string)
    requires FoldDistinct(codes)
    ensures multiset(codes)[code] <= 1
  {
    if code in codes {
      var i :| 0 <= i < |codes| && codes[i] == code;
      assert codes == codes[..i] + [code] + codes[i + 1..];
      forall j | 0 <= j < |codes| && j != i ensures codes[j] != code {
        assert !EqualFold(codes[if i < j then i else j], codes[if i < j then j else i]);
      }
      assert code !in codes[..i] && code !in codes[i + 1..];
    }
  }

  // ---- and only then

  /** Recovery logins and profile updates, which leave the second factor set up. */
  predicate AllKeepCodes(turns: seq<Turn>) {
    forall k :: 0 <= k < |turns| && turns[k].Write? ==> KeepsCodes(turns[k].a)
  }

  /** A recovery login nothing overlaps. */
  function Login(h: nat, code: string): seq<Turn> {
    [Read(h), Write(h, Handler(RecoverEvent(code)), true)]
  }

  /** Meanwhile what a request has read holds at least the codes left. */
  ghost predicate Activated(s: System, issued: seq<string>) {
    && Books(s) && Matched(s) && s.issued == issued && s.record.totpVerified
    && forall h :: h in s.held ==>
         && s.held[h].totpVerified
         && multiset(s.record.recoveryCodes) <= multiset(s.held[h].recoveryCodes) <= multiset(issued)
  }

  lemma LoginTurn(s: System, t: Turn, issued: seq<string>)
    requires Activated(s, issued) && !Overwrites(s, t) && (t.Write? ==> KeepsCodes(t.a))
    ensures Activated(Step(s, t), issued)
  {
    BooksStep(s, t);
    if Saves(s, t) {
      if t.a.Update? {
        SavedUpdate(s, t, issued);
      } else {
        AcceptedLogin(s, t.h, t.a.e.code, issued);
      }
    }
  }

  lemma SavedUpdate(s: System, t: Turn, issued: seq<string>)
    requires Activated(s, issued) && Saves(s, t) && t.a.Update?
    requires multiset(s.held[t.h].recoveryCodes) == multiset(s.record.recoveryCodes)
    ensures Activated(Step(s, t), issued)
  {
    MatchedStep(s, t);
    FewerCodes(s, Step(s, t), t.h);
  }

  lemma AcceptedLogin(s: System, h: nat, code: string, issued: seq<string>)
    requires Activated(s, issued) && h in s.held && FirstMatch(s.held[h].recoveryCodes, code).Some?
    requires multiset(s.held[h].recoveryCodes) == multiset(s.record.recoveryCodes)
    requires Books(Step(s, Write(h, Handler(RecoverEvent(code)), true)))
    ensures Activated(Step(s, Write(h, Handler(RecoverEvent(code)), true)), issued)
  {
    var after := Step(s, Write(h, Handler(RecoverEvent(code)), true));
    MatchedStep(s, Write(h, Handler(RecoverEvent(code)), true));
    LoginWritten(s, h, code);
    FewerCodes(s, after, h);
  }

  lemma LoginWritten(s: System, h: nat, code: string)
    requires h in s.held && s.held[h].totpVerified && FirstMatch(s.held[h].recoveryCodes, code).Some?
    ensures var after := Step(s, Write(h, Handler(RecoverEvent(code)), true));
            && after.record.totpVerified && after.issued == s.issued && after.held == s.held - {h}
            && multiset(after.record.recoveryCodes) <= multiset(s.held[h].recoveryCodes)
  {
    var codes := s.held[h].recoveryCodes;
    WithoutMultiset(codes, FirstMatch(codes, code).value);
  }

  lemma FewerCodes(s: System, after: System, h: nat)
    requires multiset(after.record.recoveryCodes) <= multiset(s.record.recoveryCodes) && after.held == s.held - {h}
    requires forall k :: k in s.held ==> multiset(s.record.recoveryCodes) <= multiset(s.held[k].recoveryCodes)
    ensures forall k :: k in after.held ==> multiset(after.record.recoveryCodes) <= multiset(after.held[k].recoveryCodes)
  {
  }

  lemma MatchedStep(s: System, t: Turn)
    requires Matched(s)
    ensures Matched(Step(s, t))
  {
  }

  lemma {:induction false} LoginTurns(u: User, turns: seq<Turn>, k: nat)
    requires u.totpVerified && AllKeepCodes(turns) && NeverOverwrites(Start(u), turns) && k <= |turns|
    ensures Activated(After(Start(u), turns[..k]), u.recoveryCodes)
  {
    if k > 0 {
      LoginTurns(u, turns, k - 1);
      AfterPrefix(Start(u), turns, k - 1);
      LoginTurn(After(Start(u), turns[..k - 1]), turns[k - 1], u.recoveryCodes);
    }
  }

  lemma AfterLogin(s: System, h: nat, code: string)
    ensures var read := Step(s, Read(h));
            && After(s, Login(h, code)) == Step(read, Write(h, Handler(RecoverEvent(code)), true))
            && !Overwrites(s, Read(h)) && !Overwrites(read, Write(h, Handler(RecoverEvent(code)), true))
  {
    assert Login(h, code)[..1] == [Read(h)] && [Read(h)][..0] == [];
    assert After(s, [Read(h)]) == Step(After(s, []), Read(h));
  }

  lemma NextLogin(s: System, h: nat, code: string)
    requires s.record.totpVerified && FirstMatch(s.record.recoveryCodes, code).Some?
    ensures After(s, Login(h, code)).typed == s.typed + [code]
  {
    AfterLogin(s, h, code);
  }

  lemma TypedTwice(typed: seq<string>, code: string, i: nat)
    requires i < |typed| && EqualFold(typed[i], code)
    ensures !FoldDistinct(typed + [code])
  {
    assert EqualFold((typed + [code])[i], (typed + [code])[|typed|]);
  }

  /** The first request that overwrites changed codes either uses a code for the second
      time itself or puts a spent one back, so that the next login can. */
  lemma OverwriteLetsCodeBack(s: System, t: Turn, issued: seq<string>, h: nat)
    requires Activated(s, issued) && FoldDistinct(issued) && Overwrites(s, t)
    ensures var s' := Step(s, t);
            !FoldDistinct(s'.typed) || exists code :: !FoldDistinct(After(s', Login(h, code)).typed)
  {
    var codes := s.held[t.h].recoveryCodes;
    var back := BackAgain(codes, s.record.recoveryCodes, s.spent, issued);
    var p :| 0 <= p < |s.spent| && s.spent[p] == back;
    assert EqualFold(s.spent[p], s.typed[p]);
    if IsLogin(t.a) && codes[FirstMatch(codes, t.a.e.code).value] == back {
      TypedTwice(s.typed, t.a.e.code, p);
    } else {
      NextTakesBack(s, t, back, p, h);
    }
  }

  lemma NextTakesBack(s: System, t: Turn, back: string, p: nat, h: nat)
    requires Saves(s, t) && KeepsCodes(t.a) && s.held[t.h].totpVerified && back in s.held[t.h].recoveryCodes
    requires IsLogin(t.a) ==> var codes := s.held[t.h].recoveryCodes; codes[FirstMatch(codes, t.a.e.code).value] != back
    requires p < |s.typed| && EqualFold(s.typed[p], back)
    ensures !FoldDistinct(After(Step(s, t), Login(h, back)).typed)
  {
    var codes, s' := s.held[t.h].recoveryCodes, Step(s, t);
    if IsLogin(t.a) {
      StillThere(codes, FirstMatch(codes, t.a.e.code).value, back);
    }
    NextLogin(s', h, back);
    TypedTwice(s'.typed, back, p);
  }

  /** A code that was read and has been spent since. */
  lemma BackAgain(codes: seq<string>, left: seq<string>, spent: seq<string>, issued: seq<string>) returns (back: string)
    requires multiset(left) + multiset(spent) == multiset(issued) && FoldDistinct(issued)
    requires multiset(left) <= multiset(codes) <= multiset(issued) && multiset(left) != multiset(codes)
    ensures back in codes && back in spent
  {
    assert (forall c: string :: multiset(left)[c] == multiset(codes)[c]) ==> multiset(left) == multiset(codes);
    back :| multiset(left)[back] != multiset(codes)[back];
    CountedOnce(issued, back);
    assert multiset(codes)[back] == 1 && multiset(left)[back] == 0;
    assert multiset(spent)[back] == 1;
  }

  lemma StillThere(codes: seq<string>, i: nat, code: string)
    requires i < |codes| && code in codes && codes[i] != code
    ensures FirstMatch(Without(codes, i), code).Some?
  {
    var j :| 0 <= j < |codes| && codes[j] == code;
    MatchStillThere(codes, i, code, j);
  }

  /** No code has been accepted twice, nor can be by one more login. */
  ghost predicate OnceEvenNext(s: System) {
    FoldDistinct(s.typed) && forall h: nat, code: string :: FoldDistinct(After(s, Login(h, code)).typed)
  }

  /** Recovery logins and profile updates, any number and overlapping in any way: no code is
      ever accepted twice, nor can be by the next login, exactly when none of them overwrites
      codes that changed since it read them. */
  lemma OnceExactly(u: User, turns: seq<Turn>)
    requires u.totpVerified && FoldDistinct(u.recoveryCodes) && AllKeepCodes(turns)
    ensures (forall k :: 0 <= k <= |turns| ==> OnceEvenNext(After(Start(u), turns[..k]))) <==> NeverOverwrites(Start(u), turns)
  {
    if NeverOverwrites(Start(u), turns) {
      forall k | 0 <= k <= |turns| ensures OnceEvenNext(After(Start(u), turns[..k])) {
        LoginTurns(u, turns, k);
        NextIsOnce(After(Start(u), turns[..k]), u.recoveryCodes);
      }
    }
    if forall k :: 0 <= k <= |turns| ==> OnceEvenNext(After(Start(u), turns[..k])) {
      OnceNeverOverwrites(u, turns);
    }
  }

  lemma NextIsOnce(s: System, issued: seq<string>)
    requires Activated(s, issued) && FoldDistinct(issued)
    ensures OnceEvenNext(s)
  {
    OnceEach(s);
    forall h: nat, code: string ensures FoldDistinct(After(s, Login(h, code)).typed) {
      AfterLogin(s, h, code);
      LoginTurn(s, Read(h), issued);
      LoginTurn(Step(s, Read(h)), Write(h, Handler(RecoverEvent(code)), true), issued);
      OnceEach(After(s, Login(h, code)));
    }
  }

  lemma {:induction false} OnceNeverOverwrites(u: User, turns: seq<Turn>)
    requires u.totpVerified && FoldDistinct(u.recoveryCodes) && AllKeepCodes(turns)
    requires forall k :: 0 <= k <= |turns| ==> OnceEvenNext(After(Start(u), turns[..k]))
    ensures NeverOverwrites(Start(u), turns)
  {
    if turns != [] {
      var n := |turns| - 1;
      var init := turns[..n];
      forall k | 0 <= k <= n ensures OnceEvenNext(After(Start(u), init[..k])) {
        assert init[..k] == turns[..k];
      }
      OnceNeverOverwrites(u, init);
      LoginTurns(u, init, n);
      assert init[..n] == init;
      assert turns[..n + 1] == turns;
      assert OnceEvenNext(After(Start(u), turns[..n + 1]));
      if Overwrites(After(Start(u), init), turns[n]) {
        OverwriteLetsCodeBack(After(Start(u), init), turns[n], u.recoveryCodes, 0);
      }
      forall k | 0 <= k < n + 1 ensures !Overwrites(After(Start(u), turns[..k]), turns[k]) {
        if k < n {
          assert init[..k] == turns[..k] && init[k] == turns[k];
        }
      }
    }
  }

  // ---- two and three logins

  /** Every write comes after a read by the same handler. */
  predicate InOrder(turns: seq<Turn>) {
    forall i :: 0 <= i < |turns| && turns[i].Write? ==> Read(turns[i].h) in turns[..i]
  }

  /** Two logins with one code, in any order of their reads and writes: one of them succeeds,
      and both do exactly when both read before either wrote. */
  lemma TwoLoginsOneCode(u: User, code: string, turns: seq<Turn>)
    requires u.totpVerified && FirstMatch(u.recoveryCodes, code).Some? && FoldDistinct(u.recoveryCodes)
    requires |turns| == 4 && multiset(turns) == multiset(Login(0, code) + Login(1, code)) && InOrder(turns)
    ensures var s := After(Start(u), turns);
            && s.record == Recover(u, code).0
            && 1 <= |s.typed| <= 2
            && (|s.typed| == 2 <==> turns[0].Read? && turns[1].Read?)
  {
    TwoInOrder(u, code, turns) by {
      SpentCodeIsRefused(u, code);
      var e := Handler(RecoverEvent(code));
      assert Login(0, code) + Login(1, code) == [Read(0), Write(0, e, true), Read(1), Write(1, e, true)];
    }
  }

  lemma TwoInOrder(u: User, code: string, turns: seq<Turn>)
    requires u.totpVerified && FirstMatch(u.recoveryCodes, code).Some? && Recover(Recover(u, code).0, code).1.Refused?
    requires |turns| == 4 && InOrder(turns)
    requires var e := Handler(RecoverEvent(code));
             multiset(turns) == multiset{Read(0), Write(0, e, true), Read(1), Write(1, e, true)}
    ensures var s := After(Start(u), turns);
            && s.record == Recover(u, code).0
            && |s.typed| == (if turns[1].Read? then 2 else 1)
            && turns[0].Read?
  {
    var (a, b, c, d) := (turns[0], turns[1], turns[2], turns[3]);
    var s := Step(Step(Step(Step(Start(u), a), b), c), d);
    assert turns == [a, b, c, d];
    assert After(Start(u), turns) == s by {
      FourSteps(Start(u), a, b, c, d);
    }
    assert s.record == Recover(u, code).0 && |s.typed| == (if b.Read? then 2 else 1) && a.Read? by {
      TheOrders(a, b, c, d, Handler(RecoverEvent(code)));
      EitherOrder(u, code, a, b, c, d);
    }
  }

  lemma EitherOrder(u: User, code: string, a: Turn, b: Turn, c: Turn, d: Turn)
    requires u.totpVerified && FirstMatch(u.recoveryCodes, code).Some? && Recover(Recover(u, code).0, code).1.Refused?
    requires a.Read?
    requires var e := Handler(RecoverEvent(code));
             && (b.Read? ==> b.h != a.h && c == Write(c.h, e, true) && d == Write(d.h, e, true) && {c.h, d.h} == {a.h, b.h} && c.h != d.h)
             && (b.Write? ==> b == Write(a.h, e, true) && c.Read? && c.h != a.h && d == Write(c.h, e, true))
    ensures var s := Step(Step(Step(Step(Start(u), a), b), c), d);
            s.record == Recover(u, code).0 && |s.typed| == if b.Read? then 2 else 1
  {
    if b.Read? {
      BothReadFirst(u, code, a.h, b.h, c.h, d.h);
    } else {
      OneAfterTheOther(u, code, a.h, c.h);
    }
  }

  lemma FourSteps(s: System, a: Turn, b: Turn, c: Turn, d: Turn)
    ensures After(s, [a, b, c, d]) == Step(Step(Step(Step(s, a), b), c), d)
  {
    assert [a, b, c, d][..3] == [a, b, c] && [a, b, c][..2] == [a, b] && [a, b][..1] == [a] && [a][..0] == [];
    assert After(s, [a]) == Step(After(s, []), a);
    assert After(s, [a, b]) == Step(After(s, [a]), b);
    assert After(s, [a, b, c]) == Step(After(s, [a, b]), c);
  }

  lemma TheOrders(a: Turn, b: Turn, c: Turn, d: Turn, e: Action)
    requires multiset{a, b, c, d} == multiset{Read(0), Write(0, e, true), Read(1), Write(1, e, true)}
    requires InOrder([a, b, c, d])
    ensures a.Read?
    ensures b.Read? ==> b.h != a.h && c == Write(c.h, e, true) && d == Write(d.h, e, true) && {c.h, d.h} == {a.h, b.h} && c.h != d.h
    ensures b.Write? ==> b == Write(a.h, e, true) && c.Read? && c.h != a.h && d == Write(c.h, e, true)
  {
    AllFour(a, b, c, d, e);
    ReadsBefore(a, b, c, d);
  }

  lemma ReadsBefore(a: Turn, b: Turn, c: Turn, d: Turn)
    requires InOrder([a, b, c, d])
    ensures a.Read? && (b.Write? ==> a == Read(b.h))
    ensures c.Write? ==> a == Read(c.h) || b == Read(c.h)
    ensures d.Write? ==> a == Read(d.h) || b == Read(d.h) || c == Read(d.h)
  {
    var turns := [a, b, c, d];
    assert turns[0] == a && turns[1] == b && turns[2] == c && turns[3] == d;
    assert turns[..0] == [] && turns[..1] == [a] && turns[..2] == [a, b] && turns[..3] == [a, b, c];
  }

  lemma AllFour(a: Turn, b: Turn, c: Turn, d: Turn, e: Action)
    requires multiset{a, b, c, d} == multiset{Read(0), Write(0, e, true), Read(1), Write(1, e, true)}
    ensures forall t :: t in {a, b, c, d} ==> t.h < 2 && (t.Write? ==> t == Write(t.h, e, true))
    ensures a != b && a != c && a != d && b != c && b != d && c != d
  {
    var all := multiset{a, b, c, d};
    assert a in all && b in all && c in all && d in all;
    assert forall t :: t in all ==> all[t] == 1;
    assert all[a] == 1 && all[b] == 1 && all[c] == 1 && all[d] == 1;
  }

  lemma BothReadFirst(u: User, code: string, a: nat, b: nat, c: nat, d: nat)
    requires u.totpVerified && FirstMatch(u.recoveryCodes, code).Some?
    requires a != b && c != d && {c, d} == {a, b}
    ensures var e := Handler(RecoverEvent(code));
            var s := Step(Step(Step(Step(Start(u), Read(a)), Read(b)), Write(c, e, true)), Write(d, e, true));
            s.record == Recover(u, code).0 && |s.typed| == 2
  {
    assert c in {a, b} && d in {a, b};
  }

  lemma OneAfterTheOther(u: User, code: string, a: nat, b: nat)
    requires u.totpVerified && FirstMatch(u.recoveryCodes, code).Some? && a != b
    requires Recover(Recover(u, code).0, code).1.Refused?
    ensures var e := Handler(RecoverEvent(code));
            var s := Step(Step(Step(Step(Start(u), Read(a)), Write(a, e, true)), Read(b)), Write(b, e, true));
            s.record == Recover(u, code).0 && |s.typed| == 1
  {
    SilentIsIdle(Recover(u, code).0, Handler(RecoverEvent(code)));
  }

  /** Three logins and two codes: the second puts the first one's code back, and a third that
      starts when both are done uses it again. */
  lemma ThreeLoginsTwoCodes(u: User, a: string, b: string)
    requires u.totpVerified && !EqualFold(a, b)
    requires FirstMatch(u.recoveryCodes, a).Some? && FirstMatch(u.recoveryCodes, b).Some?
    ensures var overlapping := [Read(0), Read(1), Write(0, Handler(RecoverEvent(a)), true), Write(1, Handler(RecoverEvent(b)), true)];
            After(After(Start(u), overlapping), Login(2, a)).typed == [a, b, a]
  {
    FourSteps(Start(u), Read(0), Read(1), Write(0, Handler(RecoverEvent(a)), true), Write(1, Handler(RecoverEvent(b)), true));
    var s := Step(Step(Step(Step(Start(u), Read(0)), Read(1)), Write(0, Handler(RecoverEvent(a)), true)), Write(1, Handler(RecoverEvent(b)), true));
    TwoOverlap(u, a, b);
    NextLogin(s, 2, a) by {
      TwoOverlap(u, a, b);
      OtherCodeStays(u.recoveryCodes, a, b);
    }
  }

  lemma OtherCodeStays(codes: seq<string>, a: string, b: string)
    requires !EqualFold(a, b) && FirstMatch(codes, a).Some? && FirstMatch(codes, b).Some?
    ensures FirstMatch(Without(codes, FirstMatch(codes, b).value), a).Some?
  {
    MatchStillThere(codes, FirstMatch(codes, b).value, a, FirstMatch(codes, a).value);
  }

  lemma TwoOverlap(u: User, a: string, b: string)
    requires u.totpVerified && FirstMatch(u.recoveryCodes, a).Some? && FirstMatch(u.recoveryCodes, b).Some?
    ensures var s := Step(Step(Step(Step(Start(u), Read(0)), Read(1)), Write(0, Handler(RecoverEvent(a)), true)), Write(1, Handler(RecoverEvent(b)), true));
            s.record == Recover(u, b).0 && s.typed == [a, b]
  {
  }

  lemma MatchStillThere(codes: seq<string>, i: nat, code: string, j: nat)
    requires i < |codes| && j < |codes| && i != j && EqualFold(codes[j], code)
    ensures FirstMatch(Without(codes, i), code).Some?
  {
    var rest := Without(codes, i);
    assert rest[if j < i then j else j - 1] == codes[j];
  }
}
