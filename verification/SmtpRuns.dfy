/** What holds over every conversation the SMTP library permits: RCPT and DATA come after
    a MAIL that was accepted, and AUTH can succeed once. */
module SmtpRuns {
  import opened Wrappers
  import opened Text
  import opened Address
  import opened Accounts
  import opened Relay
  import opened Smtp

  /** One listener's conversation. `inMail` is the library's note that MAIL was accepted. */
  datatype Conn = Conn(s: Session, inMail: bool, queue: seq<Queued>)

  /** Accounts registered meanwhile show up in later listings, so RCPT brings its own. */
  datatype Command =
    | Auth(login: Option<Account>)
    | Mail(from: string)
    | Rcpt(users: seq<User>, to: string)
    | Data(t: Transfer)
    | Reset

  predicate Permitted(c: Conn, cmd: Command) {
    match cmd
    case Auth(_) => c.s.account.None?
    case Mail(_) => true
    case Rcpt(_, _) => c.inMail
    case Data(_) => c.inMail
    case Reset => true
  }

  function Step(c: Conn, submission: bool, cfg: Config, cmd: Command): Conn
    requires Permitted(c, cmd)
  {
    match cmd
    case Auth(login) => c.(s := DoAuth(c.s, submission, login).0)
    case Mail(from) =>
      var (s, reply) := DoMail(c.s, submission, cfg, from);
      c.(s := s, inMail := c.inMail || reply.Accepted?)
    case Rcpt(users, to) => c.(s := DoRcpt(c.s, submission, cfg, users, to).0)
    case Data(t) =>
      var more := if Obstacle(c.s.rcpts, cfg, t).Some? then []
                  else Spooled(c.s.from, AddrsOf(c.s.rcpts, false), TextOf(submission, t), t);
      Conn(DoReset(c.s), false, c.queue + more)
    case Reset => c.(s := DoReset(c.s), inMail := false)
  }

  predicate IsRun(c: Conn, submission: bool, cfg: Config, cmds: seq<Command>)
    decreases |cmds|
  {
    cmds == [] || (Permitted(c, cmds[0]) && IsRun(Step(c, submission, cfg, cmds[0]), submission, cfg, cmds[1..]))
  }

  function After(c: Conn, submission: bool, cfg: Config, cmds: seq<Command>): Conn
    requires IsRun(c, submission, cfg, cmds)
    decreases |cmds|
  {
    if cmds == [] then c else After(Step(c, submission, cfg, cmds[0]), submission, cfg, cmds[1..])
  }

  const Start := Conn(Session(None, "", []), false, [])

  // ---- invariants

  predicate Remote(to: string, cfg: Config) {
    SplitAddress(to).Some? && !IsLocalDomain(cfg, SplitAddress(to).value.1)
  }

  /** A recipient that is not delivered here is one only a submission client may name. */
  ghost predicate RecipientOk(r: Recipient, s: Session, submission: bool, cfg: Config) {
    && SplitAddress(r.addr).Some?
    && (r.account.Some? <==> IsLocalDomain(cfg, SplitAddress(r.addr).value.1))
    && (r.account.None? ==> submission && s.account.Some? && cfg.relay)
  }

  ghost predicate OwnSender(from: string, account: Option<Account>, cfg: Config) {
    account.Some? && EqualFold(from, AddressOf(account.value.id, cfg.domain))
  }

  /** A queue entry carries the address of the client that is logged in, and recipients
      that all split and are all elsewhere. */
  ghost predicate QueuedOk(q: Queued, s: Session, submission: bool, cfg: Config) {
    && submission && cfg.relay && OwnSender(q.from, s.account, cfg) && q.to != []
    && (forall i :: 0 <= i < |q.to| ==> Remote(q.to[i], cfg))
  }

  ghost predicate Inv(c: Conn, submission: bool, cfg: Config) {
    && (!submission ==> c.s.account.None?)
    && (c.s.rcpts != [] ==> c.inMail)
    && (submission && c.inMail ==> OwnSender(c.s.from, c.s.account, cfg))
    && (forall i :: 0 <= i < |c.s.rcpts| ==> RecipientOk(c.s.rcpts[i], c.s, submission, cfg))
    && (forall i :: 0 <= i < |c.queue| ==> QueuedOk(c.queue[i], c.s, submission, cfg))
  }

  /** What holds of every remote recipient holds of every remote address. */
  lemma {:induction false} AddrsAll(rcpts: seq<Recipient>, p: string -> bool)
    requires forall i :: 0 <= i < |rcpts| && rcpts[i].account.None? ==> p(rcpts[i].addr)
    ensures forall i :: 0 <= i < |AddrsOf(rcpts, false)| ==> p(AddrsOf(rcpts, false)[i])
    ensures AddrsOf(rcpts, false) != [] ==> exists i :: 0 <= i < |rcpts| && rcpts[i].account.None?
  {
    if rcpts != [] {
      var k := |rcpts| - 1;
      var init := rcpts[..k];
      AddrsAll(init, p);
      if i :| 0 <= i < |init| && init[i].account.None? {
        assert rcpts[i].account.None?;
      }
    }
  }

  lemma RemoteAddrs(rcpts: seq<Recipient>, s: Session, submission: bool, cfg: Config)
    requires forall i :: 0 <= i < |rcpts| ==> RecipientOk(rcpts[i], s, submission, cfg)
    ensures forall i :: 0 <= i < |AddrsOf(rcpts, false)| ==> Remote(AddrsOf(rcpts, false)[i], cfg)
    ensures AddrsOf(rcpts, false) != [] ==> submission && s.account.Some? && cfg.relay
  {
    forall i | 0 <= i < |rcpts| && rcpts[i].account.None?
      ensures Remote(rcpts[i].addr, cfg) && submission && s.account.Some? && cfg.relay
    {
      assert RecipientOk(rcpts[i], s, submission, cfg);
    }
    AddrsAll(rcpts, to => Remote(to, cfg));
  }

  lemma DataKeeps(c: Conn, submission: bool, cfg: Config, t: Transfer)
    requires Inv(c, submission, cfg) && c.inMail
    ensures Inv(Step(c, submission, cfg, Data(t)), submission, cfg)
  {
    RemoteAddrs(c.s.rcpts, c.s, submission, cfg);
    var after := Step(c, submission, cfg, Data(t));
    forall i | 0 <= i < |after.queue| ensures QueuedOk(after.queue[i], after.s, submission, cfg) {
      if i < |c.queue| {
        assert QueuedOk(c.queue[i], c.s, submission, cfg);
      }
    }
  }

  /** RCPT adds at most one recipient, and only a permitted one. */
  lemma RcptAdds(s: Session, submission: bool, cfg: Config, users: seq<User>, to: string)
    ensures var s' := DoRcpt(s, submission, cfg, users, to).0;
            s' == s || exists r :: s' == s.(rcpts := s.rcpts + [r]) && RecipientOk(r, s, submission, cfg)
  {
    SplitAdds(s, submission, cfg, users, to, SplitAddress(to));
  }

  lemma SplitAdds(s: Session, submission: bool, cfg: Config, users: seq<User>, to: string, split: Option<(string, string)>)
    ensures var s' := DoRcptSplit(s, submission, cfg, users, to, split).0;
            s' == s || exists account ::
              && s' == s.(rcpts := s.rcpts + [Recipient(to, account)]) && split.Some?
              && (account.Some? <==> IsLocalDomain(cfg, split.value.1))
              && (account.None? ==> submission && s.account.Some? && cfg.relay)
  {
    var s' := DoRcptSplit(s, submission, cfg, users, to, split).0;
    if s' != s {
      var added := s'.rcpts[|s.rcpts|];
      assert s' == s.(rcpts := s.rcpts + [Recipient(to, added.account)]);
    }
  }

  lemma RcptKeeps(c: Conn, submission: bool, cfg: Config, users: seq<User>, to: string)
    requires Inv(c, submission, cfg) && c.inMail
    ensures Inv(Step(c, submission, cfg, Rcpt(users, to)), submission, cfg)
  {
    RcptAdds(c.s, submission, cfg, users, to);
    var s' := DoRcpt(c.s, submission, cfg, users, to).0;
    if s' != c.s {
      var r :| s' == c.s.(rcpts := c.s.rcpts + [r]) && RecipientOk(r, c.s, submission, cfg);
      AddedKeeps(c, submission, cfg, r);
    }
  }

  lemma AddedKeeps(c: Conn, submission: bool, cfg: Config, r: Recipient)
    requires Inv(c, submission, cfg) && c.inMail && RecipientOk(r, c.s, submission, cfg)
    ensures Inv(c.(s := c.s.(rcpts := c.s.rcpts + [r])), submission, cfg)
  {
    var after := c.(s := c.s.(rcpts := c.s.rcpts + [r]));
    SameLogin(c, after, submission, cfg);
    forall i | 0 <= i < |after.s.rcpts| ensures RecipientOk(after.s.rcpts[i], after.s, submission, cfg) {
      if i < |c.s.rcpts| {
        assert RecipientOk(c.s.rcpts[i], c.s, submission, cfg);
      }
    }
  }

  lemma SameLogin(c: Conn, after: Conn, submission: bool, cfg: Config)
    requires forall i :: 0 <= i < |c.queue| ==> QueuedOk(c.queue[i], c.s, submission, cfg)
    requires after.queue == c.queue && (c.s.account.None? || after.s.account == c.s.account)
    ensures forall i :: 0 <= i < |after.queue| ==> QueuedOk(after.queue[i], after.s, submission, cfg)
  {
    forall i | 0 <= i < |after.queue| ensures QueuedOk(after.queue[i], after.s, submission, cfg) {
      assert QueuedOk(c.queue[i], c.s, submission, cfg);
    }
  }

  lemma SameLoginRecipient(c: Conn, after: Conn, submission: bool, cfg: Config, i: nat)
    requires i < |c.s.rcpts| && RecipientOk(c.s.rcpts[i], c.s, submission, cfg)
    requires c.s.account.None? || after.s.account == c.s.account
    ensures RecipientOk(c.s.rcpts[i], after.s, submission, cfg)
  {
  }

  lemma AuthKeeps(c: Conn, submission: bool, cfg: Config, login: Option<Account>)
    requires Inv(c, submission, cfg) && c.s.account.None?
    ensures Inv(Step(c, submission, cfg, Auth(login)), submission, cfg)
  {
    var after := Step(c, submission, cfg, Auth(login));
    SameLogin(c, after, submission, cfg);
    forall i | 0 <= i < |c.s.rcpts| ensures RecipientOk(c.s.rcpts[i], after.s, submission, cfg) {
      SameLoginRecipient(c, after, submission, cfg, i);
    }
  }

  lemma MailKeeps(c: Conn, submission: bool, cfg: Config, from: string)
    requires Inv(c, submission, cfg)
    ensures Inv(Step(c, submission, cfg, Mail(from)), submission, cfg)
  {
    SameLogin(c, Step(c, submission, cfg, Mail(from)), submission, cfg);
  }

  lemma StepKeeps(c: Conn, submission: bool, cfg: Config, cmd: Command)
    requires Inv(c, submission, cfg) && Permitted(c, cmd)
    ensures Inv(Step(c, submission, cfg, cmd), submission, cfg)
  {
    match cmd {
      case Auth(login) => AuthKeeps(c, submission, cfg, login);
      case Mail(from) => MailKeeps(c, submission, cfg, from);
      case Rcpt(users, to) => RcptKeeps(c, submission, cfg, users, to);
      case Data(t) => DataKeeps(c, submission, cfg, t);
      case Reset => SameLogin(c, Step(c, submission, cfg, Reset), submission, cfg);
    }
  }

  lemma {:induction false} RunKeeps(c: Conn, submission: bool, cfg: Config, cmds: seq<Command>)
    requires Inv(c, submission, cfg) && IsRun(c, submission, cfg, cmds)
    ensures Inv(After(c, submission, cfg, cmds), submission, cfg)
    decreases |cmds|
  {
    if cmds != [] {
      StepKeeps(c, submission, cfg, cmds[0]);
      RunKeeps(Step(c, submission, cfg, cmds[0]), submission, cfg, cmds[1..]);
    }
  }

  // ---- what they give

  lemma QueueSubmits(c: Conn, submission: bool, cfg: Config)
    requires Inv(c, submission, cfg) && c.queue != []
    ensures submission
  {
    assert QueuedOk(c.queue[0], c.s, submission, cfg);
  }

  /** The MX listener queues nothing, whatever it is sent: no open relay. */
  lemma MxNeverRelays(cfg: Config, cmds: seq<Command>)
    requires IsRun(Start, false, cfg, cmds)
    ensures After(Start, false, cfg, cmds).queue == []
    ensures forall r :: r in After(Start, false, cfg, cmds).s.rcpts ==> r.account.Some?
  {
    RunKeeps(Start, false, cfg, cmds);
    NothingToRelay(After(Start, false, cfg, cmds), cfg);
  }

  lemma NothingToRelay(c: Conn, cfg: Config)
    requires Inv(c, false, cfg)
    ensures c.queue == [] && forall r :: r in c.s.rcpts ==> r.account.Some?
  {
    if c.queue != [] {
      QueueSubmits(c, false, cfg);
    }
    forall r | r in c.s.rcpts ensures r.account.Some? {
      var i :| 0 <= i < |c.s.rcpts| && c.s.rcpts[i] == r;
      assert RecipientOk(c.s.rcpts[i], c.s, false, cfg);
    }
  }

  /** Whatever a submission client does, each queued message has recipients that all split,
      and the bounce look-up of its sender - splitting, domain check, account search, in any
      directory order and with any accounts registered since - ends at the account that
      submitted it exactly when the client spelled its own ID as registered or no other ID
      is equal to it ignoring case. */
  lemma QueuedSenderResolves(cfg: Config, cmds: seq<Command>, k: nat, users: set<User>, listing: seq<User>, u: User)
    requires DomainText(cfg.domain) && IsRun(Start, true, cfg, cmds)
    requires k < |After(Start, true, cfg, cmds).queue|
    requires UsersOk(users) && Lists(users, listing) && u in users
    requires After(Start, true, cfg, cmds).s.account == Some(AccountOf(u))
    ensures var q := After(Start, true, cfg, cmds).queue[k];
            && AllSplit(DomainOf, q.to) && q.to != []
            && |q.from| > |u.id|
            && (BounceTarget(cfg, listing, q.from) == Some(AccountOf(u)) <==>
                  q.from[..|u.id|] == u.id || forall v :: v in users && EqualFold(v.id, u.id) ==> v == u)
  {
    RunKeeps(Start, true, cfg, cmds);
    var c := After(Start, true, cfg, cmds);
    var q := c.queue[k];
    assert QueuedOk(q, c.s, true, cfg);
    forall i | 0 <= i < |q.to| ensures DomainOf(q.to[i]).Some? {
      assert Remote(q.to[i], cfg);
    }
    assert RecordOk(u);
    OwnAddressSplits(q.from, u.id, cfg.domain);
    FoldIdempotent(cfg.domain);
    SpellingResolves(users, listing, u, q.from[..|u.id|]);
  }

  lemma LoginKept(c: Conn, submission: bool, cfg: Config, cmd: Command)
    requires Permitted(c, cmd) && c.s.account.Some?
    ensures Step(c, submission, cfg, cmd).s.account == c.s.account
  {
    match cmd {
      case Rcpt(users, to) => RcptAdds(c.s, submission, cfg, users, to);
      case _ =>
    }
  }

  /** Everything queued over one connection was queued by the one account that logged in. */
  lemma {:induction false} LoginIsFinal(c: Conn, submission: bool, cfg: Config, cmds: seq<Command>)
    requires IsRun(c, submission, cfg, cmds) && c.s.account.Some?
    ensures After(c, submission, cfg, cmds).s.account == c.s.account
    decreases |cmds|
  {
    if cmds != [] {
      LoginKept(c, submission, cfg, cmds[0]);
      LoginIsFinal(Step(c, submission, cfg, cmds[0]), submission, cfg, cmds[1..]);
    }
  }
}
