/** One accepted DATA command followed to the end: what it files, what it queues, and what
    the queue makes of that over every later run. */
module EndToEnd {
  import opened Wrappers
  import opened MailDisk
  import opened Filing
  import opened Address
  import opened Smtp
  import SmtpRuns
  import opened Backoff
  import opened Relay
  import opened Spool
  import opened SpoolSafety
  import opened SpoolRuns

  // ---- local recipients

  /** How many of the recipients are this account and had their copy stored. */
  function CountFor(rcpts: seq<Recipient>, uid: int, stored: nat -> bool): nat {
    if rcpts == [] then 0
    else
      var k := |rcpts| - 1;
      CountFor(rcpts[..k], uid, stored)
      + if rcpts[k].account.Some? && rcpts[k].account.value.uid == uid && stored(k) then 1 else 0
  }

  /** An account is due one copy for each time it was named. */
  lemma {:induction false} DueCount(rcpts: seq<Recipient>, text: Bytes, t: Transfer, uid: int)
    ensures |DueTo(CopiesOf(rcpts, text, t), uid)| == CountFor(rcpts, uid, t.stored)
  {
    if rcpts != [] {
      var k := |rcpts| - 1;
      DueCount(rcpts[..k], text, t, uid);
      DueStep(rcpts, text, t, uid);
    }
  }

  lemma DueStep(rcpts: seq<Recipient>, text: Bytes, t: Transfer, uid: int)
    requires rcpts != []
    ensures var k := |rcpts| - 1;
            DueTo(CopiesOf(rcpts, text, t), uid)
            == DueTo(CopiesOf(rcpts[..k], text, t), uid)
               + if rcpts[k].account.Some? && rcpts[k].account.value.uid == uid && t.stored(k) then [t.received(k) + text]
                 else []
  {
    var k := |rcpts| - 1;
    var before := CopiesOf(rcpts[..k], text, t);
    if rcpts[k].account.Some? {
      assert (before + [CopyFor(rcpts, k, text, t)])[..|before|] == before;
    } else {
      assert before + [] == before;
    }
  }

  /** The k-th recipient's own copy, under its own header, comes after those of the same
      account's earlier mentions. */
  lemma {:induction false} OwnCopy(rcpts: seq<Recipient>, text: Bytes, t: Transfer, k: nat)
    requires k < |rcpts| && rcpts[k].account.Some? && t.stored(k)
    ensures var uid := rcpts[k].account.value.uid;
            var due := DueTo(CopiesOf(rcpts, text, t), uid);
            var j := CountFor(rcpts[..k], uid, t.stored);
            j < |due| && due[j] == t.received(k) + text
  {
    var last, uid := |rcpts| - 1, rcpts[k].account.value.uid;
    var before, due := DueTo(CopiesOf(rcpts[..last], text, t), uid), DueTo(CopiesOf(rcpts, text, t), uid);
    assert before <= due by {
      DueStep(rcpts, text, t, uid);
    }
    if k < last {
      assert CountFor(rcpts[..k], uid, t.stored) < |before| && before[CountFor(rcpts[..k], uid, t.stored)] == t.received(k) + text by {
        OwnCopy(rcpts[..last], text, t, k);
        assert rcpts[..last][..k] == rcpts[..k];
      }
    } else {
      assert |before| == CountFor(rcpts[..k], uid, t.stored) by {
        DueCount(rcpts[..k], text, t, uid);
      }
      assert due == before + [t.received(k) + text] by {
        DueStep(rcpts, text, t, uid);
      }
    }
  }

  /** After DATA the k-th recipient, if it is local, has its copy in its INBOX: unread, and
      at the place its mention has among those of the same account. */
  lemma LocalRecipientReached(mail: map<int, Disk>, rcpts: seq<Recipient>, text: Bytes, t: Transfer, k: nat)
    requires k < |rcpts| && rcpts[k].account.Some? && t.stored(k)
    requires forall i: nat :: Stamp(t.clock(i)) != 0
    requires var uid := rcpts[k].account.value.uid;
             Agree(DiskOf(mail, uid)) && Inbox(DiskOf(mail, uid)).uidNext + CountFor(rcpts, uid, t.stored) <= UINT32_MAX
    ensures var uid := rcpts[k].account.value.uid;
            var before := DiskOf(mail, uid);
            var after := DiskOf(File(mail, CopiesOf(rcpts, text, t)), uid);
            var j := CountFor(rcpts[..k], uid, t.stored);
            && |Inbox(after).messages| == |Inbox(before).messages| + CountFor(rcpts, uid, t.stored)
            && ReceivedOne(after, |Inbox(before).messages| + j, Inbox(before).uidNext + j, t.received(k) + text)
  {
    var uid := rcpts[k].account.value.uid;
    CopyClocks(rcpts, text, t);
    PlaceOf(mail, CopiesOf(rcpts, text, t), uid, CountFor(rcpts[..k], uid, t.stored), CountFor(rcpts, uid, t.stored),
            t.received(k) + text) by {
      DueCount(rcpts, text, t, uid);
      OwnCopy(rcpts, text, t, k);
    }
  }

  lemma PlaceOf(mail: map<int, Disk>, copies: seq<Copy>, uid: int, j: nat, count: nat, body: Bytes)
    requires Agree(DiskOf(mail, uid)) && forall i :: 0 <= i < |copies| ==> Stamp(copies[i].now) != 0
    requires Inbox(DiskOf(mail, uid)).uidNext + count <= UINT32_MAX
    requires |DueTo(copies, uid)| == count && j < count && DueTo(copies, uid)[j] == body
    ensures var before, after := DiskOf(mail, uid), DiskOf(File(mail, copies), uid);
            && |Inbox(after).messages| == |Inbox(before).messages| + count
            && ReceivedOne(after, |Inbox(before).messages| + j, Inbox(before).uidNext + j, body)
  {
    FiledAt(mail, copies, uid, j);
  }

  lemma {:induction false} CopyClocks(rcpts: seq<Recipient>, text: Bytes, t: Transfer)
    requires forall i: nat :: Stamp(t.clock(i)) != 0
    ensures forall i :: 0 <= i < |CopiesOf(rcpts, text, t)| ==> Stamp(CopiesOf(rcpts, text, t)[i].now) != 0
  {
    if rcpts != [] {
      CopyClocks(rcpts[..|rcpts| - 1], text, t);
    }
  }

  // ---- remote recipients

  /** A message that was taken in keeps its text and the recipients it was accepted for. */
  lemma StepKeepsAccepted(key: Parser, s: System, e: Event, id: string)
    requires Enabled(key, s, e) && id in s.past && !IsClients(s.enqueuer, id)
    ensures var t := Step(key, s, e);
            && id in t.past && !IsClients(t.enqueuer, id)
            && t.past[id].accepted == s.past[id].accepted && t.past[id].message == s.past[id].message
  {
    match e {
      case Visit(readable) => VisitKeepsAccepted(key, s, readable, id);
      case Deliver(domain, outcome) => DeliverKeepsAccepted(key, s, domain, outcome, id);
      case EndRound(writeOk) => EndRoundKeepsAccepted(s, writeOk, id);
      case UnlinkEntry(ok) => UnlinkKeepsAccepted(s, ok, id);
      case PutBody(other, from, to, message) => ClientKeepsAccepted(s, other, from, to, message, true, id);
      case PutEntry(ok) => ClientKeepsAccepted(s, s.enqueuer.id, "", [], [], ok, id);
      case Crash => CrashKeepsAccepted(s, id);
      case _ =>
    }
  }

  lemma UnlinkKeepsAccepted(s: System, ok: bool, id: string)
    requires s.worker.UnlinkingEntry? && id in s.past
    ensures SameAccepted(s, UnlinkEntryStep(s, ok), id)
  {
  }

  lemma ClientKeepsAccepted(s: System, other: string, from: string, to: seq<string>, message: Bytes, ok: bool, id: string)
    requires id in s.past && !IsClients(s.enqueuer, id)
    ensures other != id ==>
              var t := PutBodyStep(s, other, from, to, message);
              id in t.past && t.past[id] == s.past[id] && !IsClients(t.enqueuer, id)
    ensures s.enqueuer.BodyWritten? ==>
              var t := PutEntryStep(s, ok);
              id in t.past && t.past[id] == s.past[id] && !IsClients(t.enqueuer, id)
  {
  }

  lemma CrashKeepsAccepted(s: System, id: string)
    requires id in s.past
    ensures var t := CrashStep(s);
            && id in t.past && !IsClients(t.enqueuer, id)
            && t.past[id].accepted == s.past[id].accepted && t.past[id].message == s.past[id].message
  {
  }

  ghost predicate SameAccepted(s: System, t: System, id: string) {
    && id in s.past && id in t.past && t.enqueuer == s.enqueuer
    && t.past[id].accepted == s.past[id].accepted && t.past[id].message == s.past[id].message
  }

  lemma VisitKeepsAccepted(key: Parser, s: System, readable: bool, id: string)
    requires s.worker.Scanning? && s.worker.todo != [] && (readable ==> s.worker.todo[0] in s.bodies) && id in s.past
    ensures SameAccepted(s, VisitStep(key, s, readable), id)
  {
  }

  lemma DeliverKeepsAccepted(key: Parser, s: System, domain: string, outcome: Outcome, id: string)
    requires s.worker.Delivering? && id in s.past
    ensures SameAccepted(s, DeliverStep(key, s, domain, outcome), id)
  {
  }

  lemma EndRoundKeepsAccepted(s: System, writeOk: bool, id: string)
    requires s.worker.Delivering? && id in s.past
    ensures SameAccepted(s, EndRoundStep(s, writeOk), id)
  {
    if s.worker.deferred == [] {
      assert SameAccepted(s, CloseStep(s), id);
    } else if s.worker.entry.attempts >= MAX_ATTEMPTS {
      GiveUpKeepsAccepted(s, id);
    } else if writeOk {
      assert SameAccepted(s, RescheduleStep(s), id);
    } else {
      assert SameAccepted(s, NotWrittenStep(s), id);
    }
  }

  lemma GiveUpKeepsAccepted(s: System, id: string)
    requires s.worker.Delivering? && id in s.past
    ensures SameAccepted(s, GiveUpStep(s), id)
  {
  }

  lemma {:induction false} RunKeepsAccepted(key: Parser, s: System, events: seq<Event>, id: string)
    requires IsRun(key, s, events) && id in s.past && !IsClients(s.enqueuer, id)
    ensures var t := After(key, s, events);
            && id in t.past
            && t.past[id].accepted == s.past[id].accepted && t.past[id].message == s.past[id].message
    decreases |events|
  {
    if events != [] {
      StepKeepsAccepted(key, s, events[0], id);
      RunKeepsAccepted(key, Step(key, s, events[0]), events[1..], id);
    }
  }

  lemma {:induction false} RunSplits(key: Parser, s: System, a: seq<Event>, b: seq<Event>)
    requires IsRun(key, s, a + b)
    ensures IsRun(key, s, a) && IsRun(key, After(key, s, a), b)
    ensures After(key, s, a + b) == After(key, After(key, s, a), b)
    decreases |a|
  {
    if a == [] {
      assert a + b == b;
    } else {
      assert (a + b)[0] == a[0] && (a + b)[1..] == a[1..] + b;
      RunSplits(key, Step(key, s, a[0]), a[1..], b);
    }
  }

  /** The queue has this message's body file and is about to write its entry. */
  ghost predicate Waiting(s: System, id: string, q: Queued) {
    s.enqueuer == BodyWritten(id, q.from, q.to) && id in s.past && s.past[id].message == q.message
  }

  lemma BodyPut(key: Parser, s: System, id: string, q: Queued)
    requires Enabled(key, s, PutBody(id, q.from, q.to, q.message))
    ensures Waiting(Step(key, s, PutBody(id, q.from, q.to, q.message)), id, q)
  {
  }

  /** Whatever the worker does meanwhile, the message waits for its entry. */
  lemma {:induction false} StillWaiting(key: Parser, s: System, events: seq<Event>, id: string, q: Queued)
    requires Inv(key, s) && IsRun(key, s, events) && Waiting(s, id, q)
    requires forall i :: 0 <= i < |events| ==> !events[i].Crash? && !events[i].PutEntry?
    ensures Waiting(After(key, s, events), id, q)
    decreases |events|
  {
    if events != [] {
      WaitsThrough(key, s, events[0], id, q);
      SpoolRuns.StepKeeps(key, s, events[0]);
      StillWaiting(key, Step(key, s, events[0]), events[1..], id, q);
    }
  }

  lemma WaitsThrough(key: Parser, s: System, e: Event, id: string, q: Queued)
    requires Enabled(key, s, e) && Waiting(s, id, q) && !e.Crash? && !e.PutEntry?
    ensures Waiting(Step(key, s, e), id, q)
  {
    match e {
      case Visit(readable) => VisitKeepsAccepted(key, s, readable, id);
      case Deliver(domain, outcome) => DeliverKeepsAccepted(key, s, domain, outcome, id);
      case EndRound(writeOk) => EndRoundKeepsAccepted(s, writeOk, id);
      case UnlinkEntry(ok) => UnlinkKeepsAccepted(s, ok, id);
      case _ =>
    }
  }

  lemma HandedOver(key: Parser, s: System, id: string, q: Queued)
    requires Waiting(s, id, q)
    ensures var t := PutEntryStep(s, true);
            && id in t.past && !IsClients(t.enqueuer, id)
            && t.past[id].accepted == multiset(q.to) && t.past[id].message == q.message
  {
  }

  /** Whatever happens to the queue after the entry is written - rounds, failures, crashes,
      restarts - every recipient handed over has been delivered to, handed to a bounce, or
      is still listed with the text that was queued, unless the body file was there and
      could not be read. */
  lemma RemoteRecipientsReached(key: Parser, now: int, before: seq<Event>, id: string, q: Queued, later: seq<Event>)
    requires IsRun(key, Init(now), before + [PutEntry(true)] + later)
    requires IsRun(key, Init(now), before) && Waiting(After(key, Init(now), before), id, q)
    ensures var s := After(key, Init(now), before + [PutEntry(true)] + later);
            var i := ItemOf(s, id);
            && i.past.accepted == multiset(q.to) && i.past.message == q.message
            && (!i.past.misread ==> multiset(q.to) <= i.past.delivered + i.past.bounced + Pending(i.entry))
            && (i.body.Some? ==> i.body.value == q.message)
  {
    var events := before + [PutEntry(true)] + later;
    RunSplits(key, Init(now), before + [PutEntry(true)], later);
    RunSplits(key, Init(now), before, [PutEntry(true)]);
    var s := After(key, Init(now), before);
    assert [PutEntry(true)][1..] == [];
    assert After(key, s, [PutEntry(true)]) == PutEntryStep(s, true);
    HandedOver(key, s, id, q);
    RunKeepsAccepted(key, PutEntryStep(s, true), later, id);
    NothingLost(key, now, events, id);
    BodyIsAccepted(key, now, events, id);
  }

  /** The same from the moment DATA starts to queue: the body file is written, the worker
      goes on meanwhile, the entry file is written, and then anything happens. */
  lemma QueuedIsAccountedFor(key: Parser, now: int, before: seq<Event>, id: string, q: Queued,
                             meanwhile: seq<Event>, later: seq<Event>)
    requires forall i :: 0 <= i < |meanwhile| ==> !meanwhile[i].Crash? && !meanwhile[i].PutEntry?
    requires IsRun(key, Init(now), before + [PutBody(id, q.from, q.to, q.message)] + meanwhile + [PutEntry(true)] + later)
    ensures var events := before + [PutBody(id, q.from, q.to, q.message)] + meanwhile + [PutEntry(true)] + later;
            var i := ItemOf(After(key, Init(now), events), id);
            && i.past.accepted == multiset(q.to) && i.past.message == q.message
            && (!i.past.misread ==> multiset(q.to) <= i.past.delivered + i.past.bounced + Pending(i.entry))
            && (i.body.Some? ==> i.body.value == q.message)
  {
    var put := PutBody(id, q.from, q.to, q.message);
    var queuing := before + [put] + meanwhile;
    RunSplits(key, Init(now), queuing + [PutEntry(true)], later);
    RunSplits(key, Init(now), queuing, [PutEntry(true)]);
    QueuingWaits(key, now, before, id, q, meanwhile);
    RemoteRecipientsReached(key, now, queuing, id, q, later);
  }

  lemma QueuingWaits(key: Parser, now: int, before: seq<Event>, id: string, q: Queued, meanwhile: seq<Event>)
    requires forall i :: 0 <= i < |meanwhile| ==> !meanwhile[i].Crash? && !meanwhile[i].PutEntry?
    requires IsRun(key, Init(now), before + [PutBody(id, q.from, q.to, q.message)] + meanwhile)
    ensures Waiting(After(key, Init(now), before + [PutBody(id, q.from, q.to, q.message)] + meanwhile), id, q)
  {
    var put := PutBody(id, q.from, q.to, q.message);
    RunSplits(key, Init(now), before + [put], meanwhile);
    RunSplits(key, Init(now), before, [put]);
    var s := After(key, Init(now), before);
    BodyPut(key, s, id, q);
    assert [put][1..] == [];
    assert After(key, s, [put]) == Step(key, s, put);
    StartInv(key, now);
    SpoolRuns.RunKeeps(key, Init(now), before + [put]);
    StillWaiting(key, Step(key, s, put), meanwhile, id, q);
  }

  lemma BodyIsAccepted(key: Parser, now: int, events: seq<Event>, id: string)
    requires IsRun(key, Init(now), events) && id in After(key, Init(now), events).past
    ensures var i := ItemOf(After(key, Init(now), events), id);
            i.body.Some? ==> i.body.value == i.past.message
  {
    StartInv(key, now);
    SpoolRuns.RunKeeps(key, Init(now), events);
    assert ItemAt(key, After(key, Init(now), events), id);
  }

  // ---- all of them

  /** Each recipient of a DATA command that was answered positively: a local one has its own
      copy in its INBOX, a remote one is among those the queue took over. */
  lemma EveryRecipientServed(mail: map<int, Disk>, rcpts: seq<Recipient>, from: string, text: Bytes, t: Transfer, k: nat)
    requires k < |rcpts| && Fulfilled(rcpts, t)
    requires forall i: nat :: Stamp(t.clock(i)) != 0
    requires forall uid :: Agree(DiskOf(mail, uid))
                           && Inbox(DiskOf(mail, uid)).uidNext + CountFor(rcpts, uid, t.stored) <= UINT32_MAX
    ensures if rcpts[k].account.Some? then
              var uid := rcpts[k].account.value.uid;
              var place := |Inbox(DiskOf(mail, uid)).messages| + CountFor(rcpts[..k], uid, t.stored);
              var after := DiskOf(File(mail, CopiesOf(rcpts, text, t)), uid);
              && place < |Inbox(after).messages|
              && Body(after, INBOX_DIR, Inbox(after).messages[place]) == Some(t.received(k) + text)
            else
              && |Spooled(from, AddrsOf(rcpts, false), text, t)| == 1
              && rcpts[k].addr in Spooled(from, AddrsOf(rcpts, false), text, t)[0].to
  {
    if rcpts[k].account.Some? {
      LocalRecipientReached(mail, rcpts, text, t, k);
    } else {
      RemoteIsNamed(rcpts, k);
    }
  }

  lemma {:induction false} RemoteIsNamed(rcpts: seq<Recipient>, k: nat)
    requires k < |rcpts| && rcpts[k].account.None?
    ensures rcpts[k].addr in AddrsOf(rcpts, false)
  {
    if k < |rcpts| - 1 {
      RemoteIsNamed(rcpts[..|rcpts| - 1], k);
    }
  }

  // ---- from the conversation to the last round

  /** What DATA hands to the queue. */
  function Handed(c: SmtpRuns.Conn, submission: bool, t: Transfer): Queued
    requires t.raw.Some?
  {
    Queued(c.s.from, AddrsOf(c.s.rcpts, false), t.trace + TextOf(submission, t))
  }

  /** The queue's part in a spool run: the body file, what the worker does meanwhile, the
      entry file, and whatever follows. */
  function Queuing(before: seq<Event>, id: string, q: Queued, meanwhile: seq<Event>, later: seq<Event>): seq<Event> {
    before + [PutBody(id, q.from, q.to, q.message)] + meanwhile + [PutEntry(true)] + later
  }

  lemma HandedSplits(cfg: Config, submission: bool, cmds: seq<SmtpRuns.Command>, t: Transfer)
    requires SmtpRuns.IsRun(SmtpRuns.Start, submission, cfg, cmds)
    requires t.raw.Some?
    ensures AllSplit(DomainOf, Handed(SmtpRuns.After(SmtpRuns.Start, submission, cfg, cmds), submission, t).to)
  {
    SmtpRuns.RunKeeps(SmtpRuns.Start, submission, cfg, cmds);
    var c := SmtpRuns.After(SmtpRuns.Start, submission, cfg, cmds);
    SmtpRuns.RemoteAddrs(c.s.rcpts, c.s, submission, cfg);
    var to := AddrsOf(c.s.rcpts, false);
    forall i | 0 <= i < |to| ensures DomainOf(to[i]).Some? {
      assert SmtpRuns.Remote(to[i], cfg);
    }
  }

  /** Any permitted conversation whose DATA is answered positively: the message queued for a
      remote recipient is one the spool takes, and after any later run of the spool that
      recipient was delivered to, handed to a bounce or is still listed. */
  lemma ConversationToSpool(cfg: Config, submission: bool, cmds: seq<SmtpRuns.Command>, t: Transfer, k: nat,
                            now: int, before: seq<Event>, id: string, meanwhile: seq<Event>, later: seq<Event>)
    requires SmtpRuns.IsRun(SmtpRuns.Start, submission, cfg, cmds)
    requires var c := SmtpRuns.After(SmtpRuns.Start, submission, cfg, cmds);
             && SmtpRuns.Permitted(c, SmtpRuns.Data(t)) && Obstacle(c.s.rcpts, cfg, t).None? && Fulfilled(c.s.rcpts, t)
             && k < |c.s.rcpts| && c.s.rcpts[k].account.None?
    requires forall i :: 0 <= i < |meanwhile| ==> !meanwhile[i].Crash? && !meanwhile[i].PutEntry?
    ensures var c := SmtpRuns.After(SmtpRuns.Start, submission, cfg, cmds);
            var q := Handed(c, submission, t);
            && SmtpRuns.Step(c, submission, cfg, SmtpRuns.Data(t)).queue == c.queue + [q]
            && AllSplit(DomainOf, q.to) && c.s.rcpts[k].addr in q.to
            && (IsRun(DomainOf, Init(now), Queuing(before, id, q, meanwhile, later)) ==>
                  var s := After(DomainOf, Init(now), Queuing(before, id, q, meanwhile, later));
                  var i := ItemOf(s, id);
                  && (i.body.Some? ==> i.body.value == q.message)
                  && (!i.past.misread ==> c.s.rcpts[k].addr in i.past.delivered + i.past.bounced + Pending(i.entry)))
  {
    var c := SmtpRuns.After(SmtpRuns.Start, submission, cfg, cmds);
    var q := Handed(c, submission, t);
    HandedSplits(cfg, submission, cmds, t);
    RemoteIsNamed(c.s.rcpts, k);
    if IsRun(DomainOf, Init(now), Queuing(before, id, q, meanwhile, later)) {
      QueuedIsAccountedFor(DomainOf, now, before, id, q, meanwhile, later);
      assert c.s.rcpts[k].addr in multiset(q.to);
    }
  }
}
