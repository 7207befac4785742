/** The user records behind every login and every local recipient. */
module Accounts {
  import opened Wrappers
  import opened Text
  import opened Address

  datatype User = User(id: string, email: string, password: string, uid: int, profile: map<string, string>,
                       totpSecret: string, totpVerified: bool, recoveryCodes: seq<string>)

  datatype Account = Account(id: string, uid: int, email: string)

  function AccountOf(u: User): Account {
    Account(u.id, u.uid, u.email)
  }

  // ---- lookup by ID

  function FoldMatches(users: seq<User>, id: string): seq<User> {
    if users == [] then []
    else
      var before := FoldMatches(users[..|users| - 1], id);
      if EqualFold(users[|users| - 1].id, id) then before + [users[|users| - 1]] else before
  }

  function FirstExact(users: seq<User>, id: string): (r: Option<User>)
    ensures r.Some? ==> r.value in users && r.value.id == id
    ensures r.None? ==> forall u :: u in users ==> u.id != id
  {
    if users == [] then None
    else if users[0].id == id then Some(users[0])
    else FirstExact(users[1..], id)
  }

  /** An exact ID wins; otherwise a case-insensitive match counts only if it is unique. */
  function Found(users: seq<User>, id: string): Option<Account> {
    var exact := FirstExact(users, id);
    var folded := FoldMatches(users, id);
    if exact.Some? then Some(AccountOf(exact.value))
    else if |folded| == 1 then Some(AccountOf(folded[0]))
    else None
  }

  method FindById(users: seq<User>, id: string) returns (r: Option<Account>)
    ensures r == Found(users, id)
  {
    assert users[0..] == users;
    for i := 0 to |users|
      invariant FirstExact(users, id) == FirstExact(users[i..], id)
    {
      assert users[i..][1..] == users[i + 1..];
      if users[i].id == id {
        return Some(AccountOf(users[i]));
      }
    }
    var folded: Option<Account> := None;
    var matches := 0;
    for i := 0 to |users|
      invariant matches == |FoldMatches(users[..i], id)|
      invariant matches > 0 ==> folded == Some(AccountOf(FoldMatches(users[..i], id)[matches - 1]))
    {
      assert users[..i + 1][..i] == users[..i];
      if EqualFold(users[i].id, id) {
        folded := Some(AccountOf(users[i]));
        matches := matches + 1;
      }
    }
    assert users[..|users|] == users;
    if matches == 1 {
      return folded;
    }
    return None;
  }

  // ---- which records can exist together

  ghost predicate RecordOk(u: User) {
    IdPattern(u.id) && '@' in u.email && u.uid >= 1
  }

  /** IDs, case-folded e-mails and UIDs each name one record. */
  ghost predicate UsersOk(users: set<User>) {
    && (forall u :: u in users ==> RecordOk(u))
    && (forall u, v :: u in users && v in users && (u.id == v.id || EqualFold(u.email, v.email) || u.uid == v.uid) ==> u == v)
  }

  /** A listing of the user directory, in any order. */
  ghost predicate Lists(users: set<User>, order: seq<User>) {
    && (forall u :: u in order <==> u in users)
    && (forall i, j :: 0 <= i < j < |order| ==> order[i] != order[j])
  }

  lemma {:induction false} FoldMatchesMeaning(order: seq<User>, id: string)
    requires forall i, j :: 0 <= i < j < |order| ==> order[i] != order[j]
    ensures forall u :: u in FoldMatches(order, id) <==> u in order && EqualFold(u.id, id)
    ensures forall i, j :: 0 <= i < j < |FoldMatches(order, id)| ==> FoldMatches(order, id)[i] != FoldMatches(order, id)[j]
  {
    if order != [] {
      var init, last := order[..|order| - 1], order[|order| - 1];
      FoldMatchesMeaning(init, id);
      assert order == init + [last];
      var before := FoldMatches(init, id);
      forall i | 0 <= i < |before| ensures before[i] != last {
        assert before[i] in init;
      }
    }
  }

  /** The record an ID resolves to, as a property of the set of records alone. */
  ghost predicate ResolvesTo(users: set<User>, id: string, u: User) {
    u in users &&
    (u.id == id
     || ((forall v :: v in users ==> v.id != id)
         && EqualFold(u.id, id) && forall v :: v in users && EqualFold(v.id, id) ==> v == u))
  }

  /** FindByID depends on the records, not on the order the directory lists them in. */
  lemma FoundMeaning(users: set<User>, order: seq<User>, id: string)
    requires UsersOk(users) && Lists(users, order)
    ensures forall u :: ResolvesTo(users, id, u) ==> Found(order, id) == Some(AccountOf(u))
    ensures Found(order, id).Some? ==> exists u :: ResolvesTo(users, id, u) && Found(order, id) == Some(AccountOf(u))
  {
    forall u | ResolvesTo(users, id, u) ensures Found(order, id) == Some(AccountOf(u)) {
      ResolvedIsFound(users, order, id, u);
    }
    if Found(order, id).Some? {
      var u := FoundIsResolved(users, order, id);
    }
  }

  lemma FoundIsResolved(users: set<User>, order: seq<User>, id: string) returns (u: User)
    requires UsersOk(users) && Lists(users, order) && Found(order, id).Some?
    ensures ResolvesTo(users, id, u) && Found(order, id) == Some(AccountOf(u))
  {
    var exact, folded := FirstExact(order, id), FoldMatches(order, id);
    if exact.Some? {
      return exact.value;
    }
    FoldMatchesMeaning(order, id);
    u := folded[0];
    assert u in folded;
    forall v | v in users && EqualFold(v.id, id) ensures v == u {
      assert v in folded;
    }
  }

  lemma ResolvedIsFound(users: set<User>, order: seq<User>, id: string, u: User)
    requires UsersOk(users) && Lists(users, order) && ResolvesTo(users, id, u)
    ensures Found(order, id) == Some(AccountOf(u))
  {
    if u.id != id {
      assert FirstExact(order, id).None?;
      OnlyOne(order, id, u);
    }
  }

  lemma {:induction false} OnlyOne(order: seq<User>, id: string, u: User)
    requires forall i, j :: 0 <= i < j < |order| ==> order[i] != order[j]
    requires u in order && EqualFold(u.id, id)
    requires forall v :: v in order && EqualFold(v.id, id) ==> v == u
    ensures FoldMatches(order, id) == [u]
  {
    var init, last := order[..|order| - 1], order[|order| - 1];
    assert order == init + [last];
    if last == u {
      assert u !in init;
      NoneMatch(init, id);
    } else {
      OnlyOne(init, id, u);
    }
  }

  lemma {:induction false} NoneMatch(order: seq<User>, id: string)
    requires forall v :: v in order ==> !EqualFold(v.id, id)
    ensures FoldMatches(order, id) == []
  {
    if order != [] {
      assert order[|order| - 1] in order;
      NoneMatch(order[..|order| - 1], id);
    }
  }

  lemma FoundOrderFree(users: set<User>, a: seq<User>, b: seq<User>, id: string)
    requires UsersOk(users) && Lists(users, a) && Lists(users, b)
    ensures Found(a, id) == Found(b, id)
  {
    FoundMeaning(users, a, id);
    FoundMeaning(users, b, id);
  }

  /** A spelling of an account's ID leads back to that account exactly when it is the ID
      itself or no other account's ID differs from it by case alone. */
  lemma SpellingResolves(users: set<User>, order: seq<User>, u: User, spelling: string)
    requires UsersOk(users) && Lists(users, order) && u in users && EqualFold(spelling, u.id)
    ensures Found(order, spelling) == Some(AccountOf(u)) <==>
            spelling == u.id || forall v :: v in users && EqualFold(v.id, u.id) ==> v == u
  {
    FoundMeaning(users, order, spelling);
    if spelling == u.id || forall v :: v in users && EqualFold(v.id, u.id) ==> v == u {
      assert ResolvesTo(users, spelling, u);
    }
    if Found(order, spelling) == Some(AccountOf(u)) {
      var w :| ResolvesTo(users, spelling, w) && Found(order, spelling) == Some(AccountOf(w));
      assert w == u;
    }
  }

  // ---- login

  predicate Matches(u: User, query: string) {
    u.id == query || EqualFold(u.email, query)
  }

  /** IDs never contain an @ and e-mails always do, so a query names at most one record. */
  lemma AtMostOneMatch(users: set<User>, query: string, u: User, v: User)
    requires UsersOk(users) && u in users && v in users && Matches(u, query) && Matches(v, query)
    ensures u == v
  {
    assert RecordOk(u) && RecordOk(v);
    FoldKeepsAt(u.email);
    FoldKeepsAt(v.email);
    FoldKeepsAt(query);
    if u.id == query && EqualFold(v.email, query) {
      assert '@' in query;
    }
    if v.id == query && EqualFold(u.email, query) {
      assert '@' in query;
    }
  }

  /** What login and verifyPassword answer: a listed record that matches the query and
      accepts the password, or none if there is none. */
  ghost predicate LoginAnswer(order: seq<User>, query: string, accepts: User -> bool, r: Option<User>) {
    && (r.Some? ==> r.value in order && Matches(r.value, query) && accepts(r.value))
    && (r.None? ==> forall u :: u in order && Matches(u, query) ==> !accepts(u))
  }

  method VerifyPassword(users: seq<User>, query: string, accepts: User -> bool) returns (r: Option<User>)
    ensures LoginAnswer(users, query, accepts, r)
  {
    for i := 0 to |users|
      invariant forall j :: 0 <= j < i && Matches(users[j], query) ==> !accepts(users[j])
    {
      if (users[i].id == query || EqualFold(users[i].email, query)) && accepts(users[i]) {
        return Some(users[i]);
      }
    }
    return None;
  }

  /** What the TOTP and recovery logins look up: a listed record that matches, or none. */
  ghost predicate QueryAnswer(order: seq<User>, query: string, r: Option<User>) {
    && (r.Some? ==> r.value in order && Matches(r.value, query))
    && (r.None? ==> forall u :: u in order ==> !Matches(u, query))
  }

  method FindByQuery(users: seq<User>, query: string) returns (r: Option<User>)
    ensures QueryAnswer(users, query, r)
  {
    for i := 0 to |users|
      invariant forall j :: 0 <= j < i ==> !Matches(users[j], query)
    {
      if users[i].id == query || EqualFold(users[i].email, query) {
        return Some(users[i]);
      }
    }
    return None;
  }

  /** All four lookup loops name the same record, in whatever order each of them read the
      directory: a password login succeeds exactly when the one record the query names
      accepts the password. */
  lemma LoopsAgree(users: set<User>, a: seq<User>, b: seq<User>, query: string, accepts: User -> bool,
                   login: Option<User>, named: Option<User>)
    requires UsersOk(users) && Lists(users, a) && Lists(users, b)
    requires LoginAnswer(a, query, accepts, login) && QueryAnswer(b, query, named)
    ensures login == if named.Some? && accepts(named.value) then named else None
  {
    if login.Some? {
      assert login.value in b;
      AtMostOneMatch(users, query, login.value, named.value);
    }
    if named.Some? {
      assert named.value in a;
    }
  }
}
