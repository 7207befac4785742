/** The POP3 session: message numbers fixed by the snapshot taken at PASS, and what each
    command shows and changes. */
module Pop3 {
  import opened Wrappers
  import opened Text
  import opened Flags
  import opened MailboxNames
  import opened MailDisk
  import opened MailStore
  import opened Transport
  import Accounts
  import Tokens

  datatype Reply =
    | Failed
    | Done
    | Stats(count: nat, octets: nat)
    | Scan(lines: seq<(nat, nat)>)
    | Ids(ids: seq<(nat, string)>)
    | Text(octets: nat, wire: Bytes)

  /** The session's fields. `deleted` holds the UIDs DELE has marked. */
  datatype Pop = Pop(account: Option<Accounts.Account>, user: string, messages: seq<Message>, uidValidity: uint32,
                     deleted: set<uint32>)

  // ---- message numbers

  /** The messages still shown, with their numbers. */
  function Visible(messages: seq<Message>, deleted: set<uint32>): seq<(nat, Message)> {
    if messages == [] then []
    else
      var n := |messages|;
      Visible(messages[..n - 1], deleted) + if messages[n - 1].uid in deleted then [] else [(n, messages[n - 1])]
  }

  function Octets(shown: seq<(nat, Message)>): nat {
    if shown == [] then 0 else Octets(shown[..|shown| - 1]) + shown[|shown| - 1].1.size
  }

  /** The message an argument names, with its number. */
  function Lookup(p: Pop, argument: string): Option<(nat, Message)> {
    var number := Tokens.ParseInt(argument);
    if p.account.None? || number.None? || number.value < 1 || number.value > |p.messages| then None
    else if p.messages[number.value - 1].uid in p.deleted then None
    else Some((number.value, p.messages[number.value - 1]))
  }

  lemma {:induction false} VisibleMeaning(messages: seq<Message>, deleted: set<uint32>)
    ensures forall n: nat, m :: (n, m) in Visible(messages, deleted) <==>
              1 <= n <= |messages| && m == messages[n - 1] && m.uid !in deleted
    ensures forall i, j :: 0 <= i < j < |Visible(messages, deleted)| ==>
              Visible(messages, deleted)[i].0 < Visible(messages, deleted)[j].0
    ensures forall i :: 0 <= i < |Visible(messages, deleted)| ==> Visible(messages, deleted)[i].0 <= |messages|
  {
    if messages != [] {
      VisibleMeaning(messages[..|messages| - 1], deleted);
    }
  }

  /** The numbers LIST shows are exactly those the other commands accept. */
  lemma LookupIsVisible(p: Pop, argument: string, n: nat, m: Message)
    requires p.account.Some?
    ensures Lookup(p, argument) == Some((n, m)) <==>
            Tokens.ParseInt(argument) == Some(n) && (n, m) in Visible(p.messages, p.deleted)
  {
    VisibleMeaning(p.messages, p.deleted);
  }

  function Uids(messages: seq<Message>): set<uint32> {
    set m | m in messages :: m.uid
  }

  /** STAT counts what is not marked: each mark takes one message off the count. */
  lemma {:induction false} CountOfVisible(messages: seq<Message>, deleted: set<uint32>)
    requires forall i, j :: 0 <= i < j < |messages| ==> messages[i].uid < messages[j].uid
    requires deleted <= Uids(messages)
    ensures |Visible(messages, deleted)| + |deleted| == |messages|
  {
    if messages == [] {
      assert deleted == {};
    } else {
      var init, last := messages[..|messages| - 1], messages[|messages| - 1];
      VisibleWithout(init, deleted, last.uid);
      forall u | u in deleted && u != last.uid ensures u in Uids(init) {
        var m :| m in messages && m.uid == u;
        assert m in init;
      }
      CountOfVisible(init, deleted - {last.uid});
    }
  }

  lemma {:induction false} VisibleWithout(messages: seq<Message>, deleted: set<uint32>, u: uint32)
    requires forall i :: 0 <= i < |messages| ==> messages[i].uid != u
    ensures Visible(messages, deleted) == Visible(messages, deleted - {u})
  {
    if messages != [] {
      VisibleWithout(messages[..|messages| - 1], deleted, u);
    }
  }

  function ScanLines(shown: seq<(nat, Message)>): seq<(nat, nat)> {
    seq(|shown|, i requires 0 <= i < |shown| => (shown[i].0, shown[i].1.size))
  }

  function UidText(uidValidity: uint32, uid: uint32): string {
    Decimal(uidValidity) + "." + Decimal(uid)
  }

  function IdLines(uidValidity: uint32, shown: seq<(nat, Message)>): seq<(nat, string)> {
    seq(|shown|, i requires 0 <= i < |shown| => (shown[i].0, UidText(uidValidity, shown[i].1.uid)))
  }

  lemma ScanLinesSnoc(shown: seq<(nat, Message)>, n: nat, m: Message)
    ensures ScanLines(shown + [(n, m)]) == ScanLines(shown) + [(n, m.size)]
  {
  }

  lemma IdLinesSnoc(uidValidity: uint32, shown: seq<(nat, Message)>, n: nat, m: Message)
    ensures IdLines(uidValidity, shown + [(n, m)]) == IdLines(uidValidity, shown) + [(n, UidText(uidValidity, m.uid))]
  {
  }

  /** Two unique-ids are equal only for the same UIDVALIDITY and UID. */
  lemma UidTextInjective(v: uint32, u: uint32, w: uint32, t: uint32)
    ensures UidText(v, u) == UidText(w, t) <==> v == w && u == t
  {
    if UidText(v, u) == UidText(w, t) {
      DotAt(v, u);
      DotAt(w, t);
      var k := |Decimal(v)|;
      assert Decimal(v) == UidText(v, u)[..k] && Decimal(u) == UidText(v, u)[k + 1..];
      assert Decimal(w) == UidText(w, t)[..k] && Decimal(t) == UidText(w, t)[k + 1..];
      NumeralOfDecimal(v);
      NumeralOfDecimal(u);
      NumeralOfDecimal(w);
      NumeralOfDecimal(t);
    }
  }

  lemma DotAt(v: uint32, u: uint32)
    ensures LastIndex(UidText(v, u), '.') == |Decimal(v)|
  {
    var s, k := UidText(v, u), |Decimal(v)|;
    forall i | k < i < |s| ensures s[i] != '.' {
      assert s[i] == Decimal(u)[i - k - 1] && IsDigit(Decimal(u)[i - k - 1]);
    }
    LastIndexAt(s, '.', k);
  }

  // ---- the session

  /** RETR marks the message seen once its text has been sent. */
  function AfterRetr(p: Pop, disk: Disk, argument: string, now: int): Disk {
    match Lookup(p, argument)
    case None => disk
    case Some((_, m)) =>
      if Body(disk, INBOX_DIR, m).None? then disk
      else SetFlags(disk, INBOX_DIR, UidSet([m.uid]), [SEEN], FlagsAdd, now).0
  }

  class Session {
    var account: Option<Accounts.Account>
    var user: string
    var messages: seq<Message>
    var uidValidity: uint32
    var deleted: set<uint32>
    var store: Store

    /** `store` is replaced by the account's own at PASS; nothing reads it before. */
    constructor (store: Store)
      ensures State() == Pop(None, "", [], 0, {}) && this.store == store
    {
      this.store := store;
      account, user, messages, uidValidity, deleted := None, "", [], 0, {};
    }

    function State(): Pop
      reads this
    {
      Pop(account, user, messages, uidValidity, deleted)
    }

    method User(argument: string) returns (reply: Reply)
      modifies this`user
      ensures reply == Done && user == argument
    {
      user := argument;
      return Done;
    }

    static method OpenInbox(mail: Store, now: int) returns (snapshot: Snapshot)
      ensures TakeSnapshot(mail.Contents(), INBOX_DIR, now) == Ok(snapshot)
    {
      InboxHome();
      var taken := mail.Snapshot(INBOX, now);
      snapshot := taken.value;
    }

    /** Authentication and the snapshot. `login` is the account the credentials open, with
        its store, `secure` says that the connection is encrypted or need not be, and
        `opens` that INBOX can be read. */
    method Pass(login: Option<(Accounts.Account, Store)>, secure: bool, opens: bool, now: int) returns (reply: Reply)
      modifies this
      ensures reply == if old(account).None? && old(user) != "" && secure && login.Some? && opens then Done else Failed
      ensures reply == Failed ==> State() == old(State()) && store == old(store)
      ensures reply == Done ==>
                var taken := TakeSnapshot(login.value.1.Contents(), INBOX_DIR, now);
                && taken.Ok? && store == login.value.1
                && State() == Pop(Some(login.value.0), old(user), taken.value.messages, taken.value.uidValidity, old(deleted))
    {
      if account.Some? || user == "" || !secure || login.None? {
        return Failed;
      }
      if !opens {
        return Failed;
      }
      var snapshot := OpenInbox(login.value.1, now);
      account, store := Some(login.value.0), login.value.1;
      messages, uidValidity := snapshot.messages, snapshot.uidValidity;
      return Done;
    }

    method Find(argument: string) returns (r: Option<(nat, Message)>)
      ensures r == Lookup(State(), argument)
    {
      if account.None? {
        return None;
      }
      var number := Tokens.ParseInt(argument);
      if number.None? || number.value < 1 || number.value > |messages| {
        return None;
      }
      var msg := messages[number.value - 1];
      if msg.uid in deleted {
        return None;
      }
      return Some((number.value, msg));
    }

    method Stat() returns (reply: Reply)
      ensures account.None? ==> reply == Failed
      ensures account.Some? ==>
                reply == Stats(|Visible(messages, deleted)|, Octets(Visible(messages, deleted)))
    {
      if account.None? {
        return Failed;
      }
      var count: nat, size: nat := 0, 0;
      for i := 0 to |messages|
        invariant count == |Visible(messages[..i], deleted)| && size == Octets(Visible(messages[..i], deleted))
      {
        VisibleStep(messages, deleted, i);
        if messages[i].uid in deleted {
          continue;
        }
        count := count + 1;
        size := size + messages[i].size;
      }
      assert messages[..|messages|] == messages;
      return Stats(count, size);
    }

    method List(argument: string) returns (reply: Reply)
      ensures argument != "" ==>
                reply == match Lookup(State(), argument) case None => Failed case Some((n, m)) => Scan([(n, m.size)])
      ensures argument == "" ==> reply == if account.None? then Failed else Scan(ScanLines(Visible(messages, deleted)))
    {
      if argument != "" {
        var found := Find(argument);
        return if found.None? then Failed else Scan([(found.value.0, found.value.1.size)]);
      }
      if account.None? {
        return Failed;
      }
      var lines := AllSizes();
      return Scan(lines);
    }

    method AllSizes() returns (lines: seq<(nat, nat)>)
      ensures lines == ScanLines(Visible(messages, deleted))
    {
      lines := [];
      for i := 0 to |messages|
        invariant lines == ScanLines(Visible(messages[..i], deleted))
      {
        VisibleStep(messages, deleted, i);
        if messages[i].uid in deleted {
          continue;
        }
        ScanLinesSnoc(Visible(messages[..i], deleted), i + 1, messages[i]);
        lines := lines + [(i + 1, messages[i].size)];
      }
      assert messages[..|messages|] == messages;
    }

    method Uidl(argument: string) returns (reply: Reply)
      ensures argument != "" ==>
                reply == match Lookup(State(), argument)
                         case None => Failed
                         case Some((n, m)) => Ids([(n, UidText(uidValidity, m.uid))])
      ensures argument == "" ==>
                reply == if account.None? then Failed else Ids(IdLines(uidValidity, Visible(messages, deleted)))
    {
      if argument != "" {
        var found := Find(argument);
        return if found.None? then Failed else Ids([(found.value.0, UidText(uidValidity, found.value.1.uid))]);
      }
      if account.None? {
        return Failed;
      }
      var lines := AllIds();
      return Ids(lines);
    }

    method AllIds() returns (lines: seq<(nat, string)>)
      ensures lines == IdLines(uidValidity, Visible(messages, deleted))
    {
      lines := [];
      for i := 0 to |messages|
        invariant lines == IdLines(uidValidity, Visible(messages[..i], deleted))
      {
        VisibleStep(messages, deleted, i);
        if messages[i].uid in deleted {
          continue;
        }
        IdLinesSnoc(uidValidity, Visible(messages[..i], deleted), i + 1, messages[i]);
        lines := lines + [(i + 1, UidText(uidValidity, messages[i].uid))];
      }
      assert messages[..|messages|] == messages;
    }

    method ReadBody(msg: Message) returns (body: Option<Bytes>)
      ensures body == MailDisk.Body(store.Contents(), INBOX_DIR, msg)
    {
      InboxHome();
      body := store.Body(INBOX, msg);
    }

    method MarkSeen(msg: Message, now: int)
      modifies store
      ensures store.Contents() == SetFlags(old(store.Contents()), INBOX_DIR, UidSet([msg.uid]), [SEEN], FlagsAdd, now).0
    {
      InboxHome();
      var result := store.SetFlags(INBOX, [msg.uid], [SEEN], FlagsAdd, now);
    }

    method Retr(argument: string, now: int) returns (reply: Reply)
      modifies store
      ensures store.Contents() == AfterRetr(State(), old(store.Contents()), argument, now)
      ensures reply == match Lookup(State(), argument)
                       case None => Failed
                       case Some((_, m)) =>
                         var body := MailDisk.Body(old(store.Contents()), INBOX_DIR, m);
                         if body.None? then Failed
                         else Text(|body.value|, Dotted(Contents(body.value)))
    {
      var found := Find(argument);
      if found.None? {
        return Failed;
      }
      var body := ReadBody(found.value.1);
      if body.None? {
        return Failed;
      }
      var wire := WriteDotted(body.value, -1);
      assert Contents(body.value)[..|Contents(body.value)|] == Contents(body.value);
      MarkSeen(found.value.1, now);
      return Text(|body.value|, wire);
    }

    /** `fields` are the words of the argument. */
    method Top(fields: seq<string>) returns (reply: Reply)
      ensures reply == Failed || (|fields| == 2 && Lookup(State(), fields[0]).Some?)
      ensures |fields| == 2 && Lookup(State(), fields[0]).Some? ==>
                var lines := Tokens.ParseInt(fields[1]);
                var body := MailDisk.Body(store.Contents(), INBOX_DIR, Lookup(State(), fields[0]).value.1);
                reply == if lines.None? || lines.value < 0 || body.None? then Failed
                         else Text(|body.value|,
                                   Dotted(Contents(body.value)[..Transport.Shown(Contents(body.value), lines.value)]))
    {
      if |fields| != 2 {
        return Failed;
      }
      var lines := Tokens.ParseInt(fields[1]);
      if lines.None? || lines.value < 0 {
        return Failed;
      }
      var found := Find(fields[0]);
      if found.None? {
        return Failed;
      }
      var body := ReadBody(found.value.1);
      if body.None? {
        return Failed;
      }
      var wire := WriteDotted(body.value, lines.value);
      return Text(|body.value|, wire);
    }

    method Dele(argument: string) returns (reply: Reply)
      modifies this`deleted
      ensures deleted == match Lookup(old(State()), argument)
                         case None => old(deleted)
                         case Some((_, m)) => old(deleted) + {m.uid}
      ensures reply == if Lookup(old(State()), argument).Some? then Done else Failed
    {
      var found := Find(argument);
      if found.None? {
        return Failed;
      }
      deleted := deleted + {found.value.1.uid};
      return Done;
    }

    method Rset() returns (reply: Reply)
      modifies this`deleted
      ensures account.None? ==> reply == Failed && deleted == old(deleted)
      ensures account.Some? ==> reply == Done && deleted == {}
    {
      if account.None? {
        return Failed;
      }
      deleted := {};
      return Done;
    }

    /** Marked messages go here and nowhere else. */
    method Quit(now: int) returns (reply: Reply)
      modifies store
      ensures account.None? || deleted == {} ==> reply == Done && store.Contents() == old(store.Contents())
      ensures account.Some? && deleted != {} ==>
                && store.Contents() == MailDisk.Remove(old(store.Contents()), INBOX_DIR, deleted, now).0
                && (reply == Done <==> MailDisk.Remove(old(store.Contents()), INBOX_DIR, deleted, now).1.Ok?)
    {
      if account.None? {
        return Done;
      }
      var uids := ListOf(deleted);
      if |uids| > 0 {
        InboxHome();
        var result := store.Remove(INBOX, uids, now);
        if result.Err? {
          return Failed;
        }
      }
      return Done;
    }

    method ListOf(uids: set<uint32>) returns (listed: seq<uint32>)
      ensures UidSet(listed) == uids && (listed == [] <==> uids == {})
    {
      listed := [];
      var left := uids;
      while |left| > 0
        invariant left <= uids && UidSet(listed) == uids - left
        invariant listed == [] <==> left == uids
        decreases |left|
      {
        var u :| u in left;
        assert UidSet(listed + [u]) == UidSet(listed) + {u};
        listed := listed + [u];
        left := left - {u};
      }
    }
  }

  lemma VisibleStep(messages: seq<Message>, deleted: set<uint32>, i: nat)
    requires i < |messages|
    ensures var before := Visible(messages[..i], deleted);
            var after := Visible(messages[..i + 1], deleted);
            && after == before + (if messages[i].uid in deleted then [] else [(i + 1, messages[i])])
            && Octets(after) == Octets(before) + (if messages[i].uid in deleted then 0 else messages[i].size)
  {
    assert messages[..i + 1][..i] == messages[..i];
    var before := Visible(messages[..i], deleted);
    var after := Visible(messages[..i + 1], deleted);
    if messages[i].uid !in deleted {
      assert after == before + [(i + 1, messages[i])];
      assert after[..|after| - 1] == before;
    } else {
      assert after == before + [] == before;
    }
  }
}
