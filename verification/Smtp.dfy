/** The SMTP session: who may send what to whom, and where an accepted message goes. */
module Smtp {
  import opened Wrappers
  import opened Text
  import opened Address
  import opened Accounts
  import opened MailDisk
  import opened Transport
  import opened Filing

  /** A recipient is local when it carries an account. */
  datatype Recipient = Recipient(addr: string, account: Option<Account>)

  datatype Session = Session(account: Option<Account>, from: string, rcpts: seq<Recipient>)

  datatype Reply = Accepted | Refused(code: nat) | AuthUnsupported | AuthRequired | AuthFailed | Broken

  datatype Queued = Queued(from: string, to: seq<string>, message: Bytes)

  // ---- commands

  /** A client may log in with its mailbox address in place of its ID. */
  function LoginQuery(cfg: Config, username: string): string {
    LoginQuerySplit(cfg, username, SplitAddress(username))
  }

  function LoginQuerySplit(cfg: Config, username: string, split: Option<(string, string)>): string {
    match split
    case None => username
    case Some((local, domain)) => if IsLocalDomain(cfg, domain) then local else username
  }

  function DoAuth(s: Session, submission: bool, login: Option<Account>): (Session, Reply) {
    if !submission then (s, AuthUnsupported)
    else if login.None? then (s, AuthFailed)
    else (s.(account := login), Accepted)
  }

  function DoMail(s: Session, submission: bool, cfg: Config, from: string): (Session, Reply) {
    if submission && s.account.None? then (s, AuthRequired)
    else if submission && !EqualFold(from, AddressOf(s.account.value.id, cfg.domain)) then (s, Refused(550))
    else (s.(from := from, rcpts := []), Accepted)
  }

  function DoRcpt(s: Session, submission: bool, cfg: Config, users: seq<User>, to: string): (Session, Reply) {
    DoRcptSplit(s, submission, cfg, users, to, SplitAddress(to))
  }

  /** The same once the address is split. */
  function DoRcptSplit(s: Session, submission: bool, cfg: Config, users: seq<User>, to: string,
                       split: Option<(string, string)>): (Session, Reply)
  {
    match split
    case None => (s, Refused(501))
    case Some((local, domain)) =>
      if IsLocalDomain(cfg, domain) then
        var found := Found(users, local);
        if found.None? then (s, Refused(550))
        else (s.(rcpts := s.rcpts + [Recipient(to, found)]), Accepted)
      else if !submission || s.account.None? || !cfg.relay then (s, Refused(550))
      else (s.(rcpts := s.rcpts + [Recipient(to, None)]), Accepted)
  }

  function DoReset(s: Session): Session {
    s.(from := "", rcpts := [])
  }

  // ---- DATA

  /** What one DATA command meets: the text or a failed read, the header blocks the server
      adds, the clock, and which of its writes succeed. */
  datatype Transfer = Transfer(raw: Option<Bytes>, stamp: Bytes -> Bytes, received: nat -> Bytes, trace: Bytes,
                               clock: nat -> int, stored: nat -> bool, spooled: bool)

  function TextOf(submission: bool, t: Transfer): Bytes
    requires t.raw.Some?
  {
    if submission then t.stamp(Normalised(t.raw.value)) else Normalised(t.raw.value)
  }

  function CopyFor(rcpts: seq<Recipient>, k: nat, text: Bytes, t: Transfer): Copy
    requires k < |rcpts| && rcpts[k].account.Some?
  {
    Copy(rcpts[k].account.value.uid, t.received(k) + text, t.stored(k), t.clock(k))
  }

  /** One copy per local recipient, in the order they were given. */
  function CopiesOf(rcpts: seq<Recipient>, text: Bytes, t: Transfer): seq<Copy> {
    if rcpts == [] then []
    else
      var k := |rcpts| - 1;
      CopiesOf(rcpts[..k], text, t)
      + if rcpts[k].account.Some? then [CopyFor(rcpts, k, text, t)] else []
  }

  /** The addresses of the local or of the remote recipients, in the order given. */
  function AddrsOf(rcpts: seq<Recipient>, local: bool): seq<string> {
    if rcpts == [] then []
    else
      var k := |rcpts| - 1;
      AddrsOf(rcpts[..k], local) + if rcpts[k].account.Some? == local then [rcpts[k].addr] else []
  }

  predicate AllStored(rcpts: seq<Recipient>, stored: nat -> bool) {
    forall i :: 0 <= i < |rcpts| && rcpts[i].account.Some? ==> stored(i)
  }

  /** Why DATA is refused before anything is written, or None. */
  function Obstacle(rcpts: seq<Recipient>, cfg: Config, t: Transfer): Option<Reply> {
    if rcpts == [] then Some(Refused(554))
    else if t.raw.None? then Some(Broken)
    else if |t.raw.value| > cfg.maxMessageBytes then Some(Refused(552))
    else None
  }

  /** DATA is answered positively: every copy was stored, and the queue took the rest. */
  predicate Fulfilled(rcpts: seq<Recipient>, t: Transfer) {
    AllStored(rcpts, t.stored) && (AddrsOf(rcpts, false) == [] || t.spooled)
  }

  function Spooled(from: string, to: seq<string>, text: Bytes, t: Transfer): seq<Queued> {
    if to == [] || !t.spooled then [] else [Queued(from, to, t.trace + text)]
  }

  lemma FileStep(mail: map<int, Disk>, rcpts: seq<Recipient>, k: nat, text: Bytes, t: Transfer)
    requires k < |rcpts|
    ensures File(mail, CopiesOf(rcpts[..k + 1], text, t))
         == if rcpts[k].account.None? then File(mail, CopiesOf(rcpts[..k], text, t))
            else FileOne(File(mail, CopiesOf(rcpts[..k], text, t)), CopyFor(rcpts, k, text, t))
  {
    assert rcpts[..k + 1][..k] == rcpts[..k];
    var copies := CopiesOf(rcpts[..k], text, t);
    if rcpts[k].account.Some? {
      var c := CopyFor(rcpts, k, text, t);
      assert CopiesOf(rcpts[..k + 1], text, t) == copies + [c];
      assert (copies + [c])[..|copies|] == copies;
    } else {
      assert CopiesOf(rcpts[..k + 1], text, t) == copies + [] == copies;
    }
  }

  lemma AddrsStep(rcpts: seq<Recipient>, k: nat)
    requires k < |rcpts|
    ensures AddrsOf(rcpts[..k + 1], false)
         == AddrsOf(rcpts[..k], false) + (if rcpts[k].account.None? then [rcpts[k].addr] else [])
  {
    assert rcpts[..k + 1][..k] == rcpts[..k];
  }

  class MailServer {
    const cfg: Config
    var mail: map<int, Disk>
    var queue: seq<Queued>

    constructor (cfg: Config)
      ensures this.cfg == cfg && mail == map[] && queue == []
    {
      this.cfg := cfg;
      mail, queue := map[], [];
    }
  }

  class SmtpSession {
    const submission: bool
    const server: MailServer
    var account: Option<Account>
    var from: string
    var rcpts: seq<Recipient>

    constructor (server: MailServer, submission: bool)
      ensures this.server == server && this.submission == submission
      ensures State() == Session(None, "", [])
    {
      this.server, this.submission := server, submission;
      account, from, rcpts := None, "", [];
    }

    function State(): Session
      reads this
    {
      Session(account, from, rcpts)
    }

    method Reset()
      modifies this
      ensures State() == DoReset(old(State()))
    {
      from, rcpts := "", [];
    }

    /** The check behind both mechanisms. `accepts` is the password comparison. */
    method Authenticate(users: seq<User>, username: string, accepts: User -> bool) returns (reply: Reply)
      requires submission
      modifies this
      ensures exists login ::
                && LoginAnswer(users, LoginQuery(server.cfg, username), accepts, login)
                && (State(), reply)
                   == DoAuth(old(State()), submission, if login.Some? then Some(AccountOf(login.value)) else None)
    {
      var query := username;
      var split := SplitAddress(username);
      if split.Some? {
        var local := CheckLocalDomain(server.cfg, split.value.1);
        if local {
          query := split.value.0;
        }
      }
      assert query == LoginQuerySplit(server.cfg, username, split);
      assert query == LoginQuery(server.cfg, username);
      var login := VerifyPassword(users, query, accepts);
      if login.None? {
        return AuthFailed;
      }
      account := Some(AccountOf(login.value));
      return Accepted;
    }

    /** AUTH PLAIN; the listener for incoming mail has no AUTH at all, and nobody may act for
        somebody else. */
    method AuthPlain(users: seq<User>, identity: string, username: string, accepts: User -> bool) returns (reply: Reply)
      modifies this
      ensures !submission ==> reply == AuthUnsupported && State() == old(State())
      ensures submission && identity != "" && identity != username ==> reply == AuthFailed && State() == old(State())
      ensures submission && (identity == "" || identity == username) ==>
                exists login ::
                  && LoginAnswer(users, LoginQuery(server.cfg, username), accepts, login)
                  && (State(), reply)
                     == DoAuth(old(State()), submission, if login.Some? then Some(AccountOf(login.value)) else None)
    {
      if !submission {
        return AuthUnsupported;
      }
      if identity != "" && identity != username {
        return AuthFailed;
      }
      reply := Authenticate(users, username, accepts);
    }

    method Mail(sender: string) returns (reply: Reply)
      modifies this
      ensures (State(), reply) == DoMail(old(State()), submission, server.cfg, sender)
    {
      if submission {
        if account.None? {
          return AuthRequired;
        }
        var owned := AddressOf(account.value.id, server.cfg.domain);
        if !EqualFold(sender, owned) {
          return Refused(550);
        }
      }
      from := sender;
      rcpts := [];
      return Accepted;
    }

    method Rcpt(users: seq<User>, to: string) returns (reply: Reply)
      modifies this
      ensures (State(), reply) == DoRcpt(old(State()), submission, server.cfg, users, to)
    {
      var split := SplitAddress(to);
      if split.None? {
        return Refused(501);
      }
      var local := CheckLocalDomain(server.cfg, split.value.1);
      if local {
        var found := FindById(users, split.value.0);
        if found.None? {
          return Refused(550);
        }
        rcpts := rcpts + [Recipient(to, found)];
        return Accepted;
      }
      if !submission || account.None? {
        return Refused(550);
      }
      if !server.cfg.relay {
        return Refused(550);
      }
      rcpts := rcpts + [Recipient(to, None)];
      return Accepted;
    }

    /** Files a copy for every local recipient and hands the remote ones to the queue, even
        when some of the copies could not be stored. */
    method Data(t: Transfer) returns (reply: Reply)
      modifies server
      ensures Obstacle(rcpts, server.cfg, t).Some? ==>
                reply == Obstacle(rcpts, server.cfg, t).value
                && server.mail == old(server.mail) && server.queue == old(server.queue)
      ensures Obstacle(rcpts, server.cfg, t).None? ==>
                var text := TextOf(submission, t);
                && server.mail == File(old(server.mail), CopiesOf(rcpts, text, t))
                && server.queue == old(server.queue) + Spooled(from, AddrsOf(rcpts, false), text, t)
                && (reply == Accepted <==> Fulfilled(rcpts, t))
                && (reply != Accepted ==> reply == Refused(451))
    {
      if |rcpts| == 0 {
        return Refused(554);
      }
      if t.raw.None? {
        return Broken;
      }
      if |t.raw.value| > server.cfg.maxMessageBytes {
        return Refused(552);
      }
      var text := NormaliseLineEndings(t.raw.value);
      if submission {
        text := t.stamp(text);
      }
      var remote, localOk := Distribute(text, t);
      if |remote| > 0 {
        if !t.spooled {
          return Refused(451);
        }
        server.queue := server.queue + [Queued(from, remote, t.trace + text)];
      }
      return if localOk then Accepted else Refused(451);
    }

    method Store(c: Copy) returns (ok: bool)
      modifies server`mail
      ensures server.mail == FileOne(old(server.mail), c) && ok == c.stored
    {
      server.mail := FileOne(server.mail, c);
      return c.stored;
    }

    method Distribute(text: Bytes, t: Transfer) returns (remote: seq<string>, localOk: bool)
      modifies server`mail
      ensures server.mail == File(old(server.mail), CopiesOf(rcpts, text, t))
      ensures remote == AddrsOf(rcpts, false)
      ensures localOk == AllStored(rcpts, t.stored)
    {
      remote, localOk := [], true;
      for i := 0 to |rcpts|
        invariant server.mail == File(old(server.mail), CopiesOf(rcpts[..i], text, t))
        invariant remote == AddrsOf(rcpts[..i], false)
        invariant localOk <==> forall j :: 0 <= j < i && rcpts[j].account.Some? ==> t.stored(j)
      {
        FileStep(old(server.mail), rcpts, i, text, t);
        AddrsStep(rcpts, i);
        if rcpts[i].account.None? {
          remote := remote + [rcpts[i].addr];
          continue;
        }
        var c := CopyFor(rcpts, i, text, t);
        var ok := Store(c);
        localOk := localOk && ok;
      }
      assert rcpts[..|rcpts|] == rcpts;
    }
  }

  function Addrs(rcpts: seq<Recipient>): multiset<string> {
    if rcpts == [] then multiset{} else Addrs(rcpts[..|rcpts| - 1]) + multiset{rcpts[|rcpts| - 1].addr}
  }

  /** Local and remote addresses together are those of all recipients. */
  lemma {:induction false} AddrsPartition(rcpts: seq<Recipient>)
    ensures multiset(AddrsOf(rcpts, true)) + multiset(AddrsOf(rcpts, false)) == Addrs(rcpts)
  {
    if rcpts != [] {
      AddrsPartition(rcpts[..|rcpts| - 1]);
    }
  }
}
