/** The user store: registering accounts and keeping their identities apart. */
module Registration {
  import opened Wrappers
  import opened Text
  import opened Address
  import opened Accounts
  import Totp

  datatype Request = Request(username: string, id: string, email: string, password: string)

  predicate PasswordChar(c: char) {
    IdChar(c) || c in "!@#$%^&*"
  }

  predicate PasswordPattern(s: string) {
    s != "" && forall i :: 0 <= i < |s| ==> PasswordChar(s[i])
  }

  /** Error code of a request, 0 when it may be registered. `parsed` is what the mail
      package makes of the e-mail field. */
  function ValidateRegister(req: Request, parsed: Option<string>): nat {
    if req.username == "" || '\r' in req.username || '\n' in req.username then 1
    else if !IdPattern(req.id) then 2
    else if parsed != Some(req.email) || '@' !in req.email then 3
    else if !PasswordPattern(req.password) then 4
    else 0
  }

  function NewUser(req: Request, hash: string, uid: int, profile: map<string, string>): User {
    User(req.id, req.email, hash, uid, profile, "", false, [])
  }

  function Users(records: map<int, User>): set<User> {
    set n | n in records :: records[n]
  }

  lemma Holds(records: map<int, User>, n: int)
    requires n in records
    ensures records[n] in Users(records)
  {
  }

  /** One record per numbered directory. */
  ghost predicate StoreOk(records: map<int, User>) {
    UsersOk(Users(records)) && forall n :: n in records ==> records[n].uid == n
  }

  /** The directories of the user tree, in any order. */
  ghost predicate IsListing(records: map<int, User>, listing: seq<int>) {
    && (forall i :: 0 <= i < |listing| ==> listing[i] in records)
    && (forall n :: n in records ==> n in listing)
    && (forall i, j :: 0 <= i < j < |listing| ==> listing[i] != listing[j])
  }

  predicate Taken(records: map<int, User>, req: Request) {
    exists n :: n in records && (records[n].id == req.id || EqualFold(records[n].email, req.email))
  }

  /** The records of a directory listing. */
  function Listed(records: map<int, User>, listing: seq<int>): (order: seq<User>)
    requires forall i :: 0 <= i < |listing| ==> listing[i] in records
    ensures |order| == |listing| && forall i :: 0 <= i < |order| ==> order[i] == records[listing[i]]
  {
    seq(|listing|, i requires 0 <= i < |listing| => records[listing[i]])
  }

  predicate Collides(u: User, req: Request) {
    u.id == req.id || EqualFold(u.email, req.email)
  }

  /** The answer of the first record that collides, its ID asked before its e-mail. */
  function CollisionCode(order: seq<User>, req: Request): nat {
    if order == [] then 0
    else if order[0].id == req.id then 2
    else if EqualFold(order[0].email, req.email) then 3
    else CollisionCode(order[1..], req)
  }

  lemma AddUser(records: map<int, User>, u: User)
    requires StoreOk(records) && RecordOk(u) && u.uid !in records
    requires forall n :: n in records ==> records[n].id != u.id && !EqualFold(records[n].email, u.email)
    ensures StoreOk(records[u.uid := u])
  {
    var more := records[u.uid := u];
    assert Users(more) == Users(records) + {u} by {
      assert more[u.uid] == u;
      forall v | v in Users(records) ensures v in Users(more) {
        var n :| n in records && records[n] == v;
        assert more[n] == v;
      }
    }
  }

  class UserStore {
    var records: map<int, User>

    constructor ()
      ensures records == map[] && StoreOk(records)
    {
      records := map[];
    }

    /** Reads the record in every directory of a listing. */
    method LoadUsers(listing: seq<int>) returns (order: seq<User>)
      requires StoreOk(records) && IsListing(records, listing)
      ensures Lists(Users(records), order) && order == Listed(records, listing)
    {
      order := [];
      for i := 0 to |listing|
        invariant |order| == i && forall j :: 0 <= j < i ==> order[j] == records[listing[j]]
      {
        order := order + [records[listing[i]]];
      }
      forall j, k | 0 <= j < k < |order| ensures order[j] != order[k] {
        assert order[j].uid == listing[j] && order[k].uid == listing[k];
      }
      forall u | u in Users(records) ensures u in order {
        var n :| n in records && records[n] == u;
        var j :| 0 <= j < |listing| && listing[j] == n;
        assert order[j] == u;
      }
      forall u | u in order ensures u in Users(records) {
        var j :| 0 <= j < |order| && order[j] == u;
        Holds(records, listing[j]);
      }
    }

    method Register(req: Request, hash: string, profile: map<string, string>, listing: seq<int>)
      returns (uid: int, code: nat)
      requires StoreOk(records) && IsListing(records, listing) && IdPattern(req.id) && '@' in req.email
      modifies this
      ensures StoreOk(records)
      ensures code == CollisionCode(Listed(old(records), listing), req)
      ensures code == 0 <==> !Taken(old(records), req)
      ensures code == 0 ==> uid >= 1 && (forall n :: n in old(records) ==> n < uid)
                            && records == old(records)[uid := NewUser(req, hash, uid, profile)]
      ensures code != 0 ==> records == old(records)
    {
      var users := LoadUsers(listing);
      code := FirstCollision(users, req);
      NoneOrTaken(records, listing, req);
      if code != 0 {
        return 0, code;
      }
      uid := NextUid(users);
      forall n | n in records
        ensures n < uid && records[n].id != req.id && !EqualFold(records[n].email, req.email)
      {
        var j :| 0 <= j < |listing| && listing[j] == n;
        assert users[j] == records[n];
      }
      var newUser := NewUser(req, hash, uid, profile);
      AddUser(records, newUser);
      records := records[uid := newUser];
    }

    static method FirstCollision(users: seq<User>, req: Request) returns (code: nat)
      ensures code == CollisionCode(users, req)
    {
      assert users[0..] == users;
      for i := 0 to |users|
        invariant CollisionCode(users, req) == CollisionCode(users[i..], req)
      {
        assert users[i..][1..] == users[i + 1..];
        if users[i].id == req.id {
          return 2;
        }
        if EqualFold(users[i].email, req.email) {
          return 3;
        }
      }
      return 0;
    }

    /** Above every UID in use. */
    static method NextUid(users: seq<User>) returns (uid: int)
      ensures uid >= 1 && forall j :: 0 <= j < |users| ==> users[j].uid < uid
    {
      uid := 1;
      for i := 0 to |users|
        invariant uid >= 1 && forall j :: 0 <= j < i ==> users[j].uid < uid
      {
        if users[i].uid >= uid {
          uid := users[i].uid + 1;
        }
      }
    }

    method WriteUser(u: User)
      requires StoreOk(records) && u.uid in records && u.id == records[u.uid].id && u.email == records[u.uid].email
      modifies this
      ensures records == old(records)[u.uid := u] && StoreOk(records)
    {
      RewriteUser(records, u.uid, u);
      records := records[u.uid := u];
    }

    /** The record behind a query and a password. */
    method Target(query: string, accepts: User -> bool, listing: seq<int>) returns (target: Option<User>)
      requires StoreOk(records) && IsListing(records, listing)
      ensures target.Some? ==> Named(records, query, accepts, target.value)
      ensures target.None? ==> forall u :: !Named(records, query, accepts, u)
    {
      var users := LoadUsers(listing);
      target := VerifyPassword(users, query, accepts);
    }

    method TotpSign(query: string, accepts: User -> bool, secret: string, listing: seq<int>)
      returns (response: Totp.Response)
      requires StoreOk(records) && IsListing(records, listing)
      modifies this
      ensures StoreOk(records)
      ensures Acted(old(records), records, query, accepts, Totp.SignEvent(secret), response)
    {
      var found := Target(query, accepts, listing);
      if found.None? {
        return Totp.Refused;
      }
      var target := found.value;
      OnlyNamed(records, query, accepts, target);
      if target.totpVerified {
        SameRecord(records, target);
        return Totp.Refused;
      }
      target := target.(totpSecret := secret);
      target := target.(totpVerified := false);
      target := target.(recoveryCodes := []);
      WriteUser(target);
      return Totp.Accepted;
    }

    method TotpVerify(query: string, accepts: User -> bool, codeIsRight: bool, codes: seq<string>, listing: seq<int>)
      returns (response: Totp.Response)
      requires StoreOk(records) && IsListing(records, listing)
      modifies this
      ensures StoreOk(records)
      ensures Acted(old(records), records, query, accepts, Totp.VerifyEvent(codeIsRight, codes), response)
    {
      var found := Target(query, accepts, listing);
      if found.None? {
        return Totp.Refused;
      }
      var target := found.value;
      OnlyNamed(records, query, accepts, target);
      if target.totpSecret == "" || target.totpVerified {
        SameRecord(records, target);
        return Totp.Refused;
      }
      if !codeIsRight {
        target := target.(totpSecret := "");
        target := target.(totpVerified := false);
        target := target.(recoveryCodes := []);
        WriteUser(target);
        return Totp.Refused;
      }
      target := target.(totpVerified := true);
      target := target.(recoveryCodes := codes);
      WriteUser(target);
      return Totp.Accepted;
    }

    method TotpUnsign(query: string, accepts: User -> bool, listing: seq<int>) returns (response: Totp.Response)
      requires StoreOk(records) && IsListing(records, listing)
      modifies this
      ensures StoreOk(records)
      ensures Acted(old(records), records, query, accepts, Totp.UnsignEvent, response)
    {
      var found := Target(query, accepts, listing);
      if found.None? {
        return Totp.Refused;
      }
      var target := found.value;
      OnlyNamed(records, query, accepts, target);
      if target.totpSecret == "" {
        SameRecord(records, target);
        return Totp.Refused;
      }
      target := target.(totpSecret := "");
      target := target.(totpVerified := false);
      target := target.(recoveryCodes := []);
      WriteUser(target);
      return Totp.Accepted;
    }

    /** A recovery code stands in for the password, and is spent. */
    method RecoveryLogin(query: string, code: string, listing: seq<int>) returns (response: Totp.Response)
      requires StoreOk(records) && IsListing(records, listing)
      modifies this
      ensures StoreOk(records)
      ensures Acted(old(records), records, query, Anyone, Totp.RecoverEvent(code), response)
    {
      var users := LoadUsers(listing);
      var named := FindByQuery(users, query);
      if named.None? {
        return Totp.Refused;
      }
      var target := named.value;
      OnlyNamed(records, query, Anyone, target);
      if !target.totpVerified || target.recoveryCodes == [] {
        SameRecord(records, target);
        return Totp.Refused;
      }
      var found, rest := Totp.SpendCode(target.recoveryCodes, code);
      if !found {
        SameRecord(records, target);
        return Totp.Refused;
      }
      target := target.(recoveryCodes := rest);
      WriteUser(target);
      return Totp.Accepted;
    }

    /** `holder` is the ID a valid token was issued to. */
    method UpdateProfile(uid: int, holder: Option<string>, updates: map<string, string>) returns (ok: bool)
      requires StoreOk(records)
      modifies this
      ensures StoreOk(records)
      ensures ok <==> uid in old(records) && holder == Some(old(records)[uid].id)
      ensures !ok ==> records == old(records)
      ensures ok ==> records == old(records)[uid := old(records)[uid].(profile := old(records)[uid].profile + updates)]
    {
      if uid !in records {
        return false;
      }
      var target := records[uid];
      if holder.None? || holder.value != target.id {
        return false;
      }
      if updates == map[] {
        assert target.profile + updates == target.profile;
        assert records == records[uid := target];
        return true;
      }
      target := target.(profile := target.profile + updates);
      WriteUser(target);
      return true;
    }
  }

  /** No password is asked for. */
  predicate Anyone(u: User) {
    true
  }

  predicate Named(records: map<int, User>, query: string, accepts: User -> bool, u: User) {
    u in Users(records) && Matches(u, query) && accepts(u)
  }

  /** What a second-factor handler does: one step on the record that the query and the
      password name, in whatever order the directory was read, or nothing. */
  ghost predicate Acted(before: map<int, User>, after: map<int, User>, query: string, accepts: User -> bool,
                        e: Totp.Event, response: Totp.Response)
  {
    && (forall u :: Named(before, query, accepts, u) ==>
          after == before[u.uid := Totp.Handle(u, e).0] && response == Totp.Handle(u, e).1)
    && ((forall u :: !Named(before, query, accepts, u)) ==> after == before && response.Refused?)
  }

  lemma OnlyNamed(records: map<int, User>, query: string, accepts: User -> bool, u: User)
    requires StoreOk(records) && Named(records, query, accepts, u)
    ensures u.uid in records && records[u.uid] == u
    ensures forall v :: Named(records, query, accepts, v) ==> v == u
  {
    var n :| n in records && records[n] == u;
    forall v | Named(records, query, accepts, v) ensures v == u {
      AtMostOneMatch(Users(records), query, u, v);
    }
  }

  lemma SameRecord(records: map<int, User>, u: User)
    requires u.uid in records && records[u.uid] == u
    ensures records[u.uid := u] == records
  {
  }

  // ---- which collision is reported

  lemma {:induction false} CodeZero(order: seq<User>, req: Request)
    ensures CollisionCode(order, req) == 0 <==> forall i :: 0 <= i < |order| ==> !Collides(order[i], req)
  {
    if order != [] {
      CodeZero(order[1..], req);
      if CollisionCode(order, req) == 0 {
        forall i | 0 <= i < |order| ensures !Collides(order[i], req) {
          assert i > 0 ==> order[i] == order[1..][i - 1];
        }
      } else if !Collides(order[0], req) {
        var i :| 0 <= i < |order[1..]| && Collides(order[1..][i], req);
        assert Collides(order[i + 1], req);
      } else {
        assert Collides(order[0], req);
      }
    }
  }

  /** Whether a request is refused does not depend on the order. */
  lemma NoneOrTaken(records: map<int, User>, listing: seq<int>, req: Request)
    requires IsListing(records, listing)
    ensures CollisionCode(Listed(records, listing), req) == 0 <==> !Taken(records, req)
  {
    var order := Listed(records, listing);
    CodeZero(order, req);
    if Taken(records, req) {
      var n :| n in records && (records[n].id == req.id || EqualFold(records[n].email, req.email));
      var j :| 0 <= j < |listing| && listing[j] == n;
      assert Collides(order[j], req);
    }
    if !Taken(records, req) {
      forall i | 0 <= i < |order| ensures !Collides(order[i], req) {
        assert listing[i] in records;
      }
    }
  }

  lemma {:induction false} OnlyByEmail(order: seq<User>, req: Request, k: nat)
    requires k < |order| && Collides(order[k], req)
    requires forall i :: 0 <= i < |order| ==> order[i].id != req.id
    ensures CollisionCode(order, req) == 3
  {
    if k > 0 && !Collides(order[0], req) {
      OnlyByEmail(order[1..], req, k - 1);
    }
  }

  lemma {:induction false} OnlyById(order: seq<User>, req: Request, k: nat)
    requires k < |order| && order[k].id == req.id
    requires forall i :: 0 <= i < |order| && Collides(order[i], req) ==> order[i].id == req.id
    ensures CollisionCode(order, req) == 2
  {
    if k > 0 && !Collides(order[0], req) {
      OnlyById(order[1..], req, k - 1);
    }
  }

  /** A listing that starts with a given directory. */
  lemma ListingFrom(records: map<int, User>, n: int) returns (listing: seq<int>)
    requires n in records
    ensures IsListing(records, listing) && |listing| > 0 && listing[0] == n
  {
    var rest := InSomeOrder(records.Keys - {n});
    listing := [n] + rest;
  }

  lemma InSomeOrder<T>(s: set<T>) returns (order: seq<T>)
    ensures forall i :: 0 <= i < |order| ==> order[i] in s
    ensures forall n :: n in s ==> n in order
    ensures forall i, j :: 0 <= i < j < |order| ==> order[i] != order[j]
  {
    order := [];
    var left := s;
    while |left| > 0
      invariant left <= s
      invariant forall i :: 0 <= i < |order| ==> order[i] in s && order[i] !in left
      invariant forall n :: n in s ==> n in left || n in order
      invariant forall i, j :: 0 <= i < j < |order| ==> order[i] != order[j]
      decreases |left|
    {
      var n :| n in left;
      order := order + [n];
      left := left - {n};
    }
  }

  /** Some ID is taken by one record and the e-mail by another. */
  predicate TakenTwice(records: map<int, User>, req: Request) {
    exists m, n :: m in records && n in records && records[m].id == req.id
                   && records[n].id != req.id && EqualFold(records[n].email, req.email)
  }

  /** Which of the two codes is answered depends on the order the directory is listed in
      exactly when one record has the ID and another has the e-mail. */
  lemma CodeDependsOnOrder(records: map<int, User>, req: Request)
    requires StoreOk(records)
    ensures (exists a, b :: IsListing(records, a) && IsListing(records, b)
                            && CollisionCode(Listed(records, a), req) != CollisionCode(Listed(records, b), req))
       <==> TakenTwice(records, req)
  {
    if TakenTwice(records, req) {
      var m, n :| m in records && n in records && records[m].id == req.id
                  && records[n].id != req.id && EqualFold(records[n].email, req.email);
      var a := ListingFrom(records, m);
      var b := ListingFrom(records, n);
      assert CollisionCode(Listed(records, a), req) == 2 && CollisionCode(Listed(records, b), req) == 3;
    }
    forall a, b | IsListing(records, a) && IsListing(records, b) && !TakenTwice(records, req)
      ensures CollisionCode(Listed(records, a), req) == CollisionCode(Listed(records, b), req)
    {
      SameCode(records, a, b, req);
    }
  }

  lemma SameCode(records: map<int, User>, a: seq<int>, b: seq<int>, req: Request)
    requires IsListing(records, a) && IsListing(records, b) && !TakenTwice(records, req)
    ensures CollisionCode(Listed(records, a), req) == CollisionCode(Listed(records, b), req)
  {
    if n :| n in records && records[n].id == req.id {
      OneCodeById(records, a, req, n);
      OneCodeById(records, b, req, n);
    } else if n :| n in records && Collides(records[n], req) {
      OneCodeByEmail(records, a, req, n);
      OneCodeByEmail(records, b, req, n);
    } else {
      NoneOrTaken(records, a, req);
      NoneOrTaken(records, b, req);
    }
  }

  lemma OneCodeByEmail(records: map<int, User>, listing: seq<int>, req: Request, n: int)
    requires IsListing(records, listing) && n in records && Collides(records[n], req)
    requires forall m :: m in records ==> records[m].id != req.id
    ensures CollisionCode(Listed(records, listing), req) == 3
  {
    var i :| 0 <= i < |listing| && listing[i] == n;
    OnlyByEmail(Listed(records, listing), req, i);
  }

  lemma OneCodeById(records: map<int, User>, listing: seq<int>, req: Request, n: int)
    requires IsListing(records, listing) && !TakenTwice(records, req) && n in records && records[n].id == req.id
    ensures CollisionCode(Listed(records, listing), req) == 2
  {
    var i :| 0 <= i < |listing| && listing[i] == n;
    OnlyById(Listed(records, listing), req, i);
  }

  // ---- runs

  datatype Event =
    | Registering(req: Request, parsed: Option<string>, hash: string, profile: map<string, string>, uid: int)
    | SecondFactor(uid: int, event: Totp.Event)
    | UpdatingProfile(uid: int, profile: map<string, string>)

  /** `uid` is the number Register picks: above every number in use. */
  predicate Enabled(records: map<int, User>, e: Event) {
    match e
    case Registering(_, _, _, _, uid) => uid >= 1 && forall n :: n in records ==> n < uid
    case SecondFactor(uid, _) => uid in records
    case UpdatingProfile(uid, _) => uid in records
  }

  function Step(records: map<int, User>, e: Event): map<int, User>
    requires Enabled(records, e)
  {
    match e
    case Registering(req, parsed, hash, profile, uid) =>
      if ValidateRegister(req, parsed) != 0 || Taken(records, req) then records
      else records[uid := NewUser(req, hash, uid, profile)]
    case SecondFactor(uid, event) => records[uid := Totp.Handle(records[uid], event).0]
    case UpdatingProfile(uid, profile) => records[uid := records[uid].(profile := profile)]
  }

  predicate IsRun(records: map<int, User>, events: seq<Event>)
    decreases |events|
  {
    events == [] || (Enabled(records, events[0]) && IsRun(Step(records, events[0]), events[1..]))
  }

  function After(records: map<int, User>, events: seq<Event>): map<int, User>
    requires IsRun(records, events)
    decreases |events|
  {
    if events == [] then records else After(Step(records, events[0]), events[1..])
  }

  /** Rewriting a record without touching who it belongs to. */
  lemma RewriteUser(records: map<int, User>, n: int, u: User)
    requires StoreOk(records) && n in records
    requires u.id == records[n].id && u.email == records[n].email && u.uid == records[n].uid
    ensures StoreOk(records[n := u])
  {
    var more := records[n := u];
    forall v, w | v in Users(more) && w in Users(more) && (v.id == w.id || EqualFold(v.email, w.email) || v.uid == w.uid)
      ensures v == w
    {
      var i :| i in more && more[i] == v;
      var j :| j in more && more[j] == w;
      assert records[i] in Users(records) && records[j] in Users(records);
      assert records[i] == records[j];
    }
    forall v | v in Users(more) ensures RecordOk(v) {
      var i :| i in more && more[i] == v;
      assert records[i] in Users(records);
    }
  }

  /** Over any run of registrations, second-factor handlers and profile updates, IDs,
      case-folded e-mails and UIDs stay unique. */
  lemma {:induction false} RunKeepsIdentities(records: map<int, User>, events: seq<Event>)
    requires StoreOk(records) && IsRun(records, events)
    ensures StoreOk(After(records, events))
    decreases |events|
  {
    if events != [] {
      var e := events[0];
      match e {
        case Registering(req, parsed, hash, profile, uid) =>
          if ValidateRegister(req, parsed) == 0 && !Taken(records, req) {
            AddUser(records, NewUser(req, hash, uid, profile));
          }
        case SecondFactor(uid, event) => RewriteUser(records, uid, Totp.Handle(records[uid], event).0);
        case UpdatingProfile(uid, profile) => RewriteUser(records, uid, records[uid].(profile := profile));
      }
      RunKeepsIdentities(Step(records, e), events[1..]);
    }
  }

  /** So after any run a login query names at most one account. */
  lemma OneAccountPerQuery(events: seq<Event>, query: string, m: int, n: int)
    requires IsRun(map[], events)
    requires m in After(map[], events) && n in After(map[], events)
    requires Matches(After(map[], events)[m], query) && Matches(After(map[], events)[n], query)
    ensures m == n
  {
    RunKeepsIdentities(map[], events);
    var records := After(map[], events);
    assert records[m] in Users(records) && records[n] in Users(records);
    AtMostOneMatch(Users(records), query, records[m], records[n]);
  }
}
