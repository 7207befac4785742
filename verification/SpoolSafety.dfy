/** What every run of the spool keeps for each message: no accepted recipient is lost, none
    is counted twice unless something failed, and the retry ladder is climbed in full. */
module SpoolSafety {
  import opened Wrappers
  import opened MailDisk
  import opened Relay
  import opened Backoff
  import opened Spool

  /** Everything about one message. */
  datatype Item = Item(entry: Option<Entry>, body: Option<Bytes>, past: Past)

  /** What the worker is doing with one message. */
  datatype Flight =
    | Rest
    | Round(entry: Entry, left: set<string>, deferred: seq<string>, message: Bytes, started: int)
    | EntryGoing
    | BodyGoing

  function ItemOf(s: System, id: string): Item {
    Item(if id in s.entries then Some(s.entries[id]) else None,
         if id in s.bodies then Some(s.bodies[id]) else None,
         PastOf(s, id))
  }

  function FlightOf(w: Worker, id: string): Flight {
    if w.Delivering? && w.id == id then Round(w.entry, w.left, w.deferred, w.message, w.started)
    else if w.UnlinkingEntry? && w.id == id then EntryGoing
    else if w.UnlinkingBody? && w.id == id then BodyGoing
    else Rest
  }

  function Resolved(p: Past): multiset<string> {
    p.delivered + p.bounced
  }

  function Pending(entry: Option<Entry>): multiset<string> {
    if entry.Some? then multiset(entry.value.to) else multiset{}
  }

  /** Recipients of the running round that have no outcome yet or are to be tried again. */
  function Open(key: Parser, f: Flight): multiset<string>
    requires f.Round?
  {
    multiset(f.deferred) + multiset(Within(key, f.entry.to, f.left))
  }

  function Outstanding(key: Parser, i: Item, f: Flight): multiset<string> {
    match f
    case Rest => Pending(i.entry)
    case Round(_, _, _, _, _) => Open(key, f)
    case EntryGoing => multiset{}
    case BodyGoing => multiset{}
  }

  predicate Settled(p: Past) {
    p.accepted <= Resolved(p)
  }

  /** Earliest time for the attempt after the given number of them. */
  function Earliest(first: int, attempts: nat): int {
    first + Ladder(attempts) * NANOS_PER_MINUTE
  }

  // ---- the invariant, for one message

  ghost predicate EntryInv(key: Parser, e: Entry, p: Past, now: int) {
    && AllSplit(key, e.to) && e.attempts < MAX_ATTEMPTS
    && (e.attempts == 0 ==> e.nextTry <= now)
    && (e.attempts >= 1 ==> p.firstRound.Some? && e.nextTry >= Earliest(p.firstRound.value, e.attempts))
  }

  ghost predicate FilesInv(i: Item, f: Flight) {
    && (i.body.Some? ==> i.body.value == i.past.message)
    && (i.entry.Some? && i.body.None? ==> i.past.stuck && (i.past.misread || Settled(i.past)))
    && (f.BodyGoing? && i.entry.Some? ==> i.past.stuck)
    && (i.past.stuck ==> i.past.cuts > 0)
  }

  ghost predicate CoverInv(key: Parser, i: Item, f: Flight) {
    i.past.misread ||
    (&& i.past.accepted <= Resolved(i.past) + Pending(i.entry)
     && (f.Round? ==> i.past.accepted <= Resolved(i.past) + Open(key, f))
     && (f.EntryGoing? || f.BodyGoing? ==> Settled(i.past)))
  }

  ghost predicate ExactInv(key: Parser, i: Item, f: Flight) {
    i.past.cuts > 0 || i.past.misread || i.past.accepted == Resolved(i.past) + Outstanding(key, i, f)
  }

  /** Every round is on record in the entry, is the running one, or was cut short. */
  ghost predicate CountInv(i: Item, f: Flight) {
    && i.past.rounds <= MAX_ATTEMPTS + i.past.cuts
    && (i.entry.Some? ==>
          i.past.rounds <= i.entry.value.attempts + i.past.cuts + if f.Round? || f.EntryGoing? then 1 else 0)
  }

  ghost predicate TimeInv(p: Past, now: int) {
    && (p.firstRound.Some? ==> p.firstRound.value <= now)
    && (p.gaveUp.Some? ==> p.firstRound.Some? && p.gaveUp.value >= Earliest(p.firstRound.value, MAX_ATTEMPTS - 1))
  }

  ghost predicate RoundInv(key: Parser, i: Item, f: Flight, now: int)
    requires f.Round?
  {
    && f.entry.attempts >= 1 && i.entry == Some(f.entry.(attempts := f.entry.attempts - 1))
    && f.left <= Domains(key, f.entry.to) && AllSplit(key, f.deferred)
    && f.message == i.past.message
    && i.past.firstRound.Some? && Earliest(i.past.firstRound.value, f.entry.attempts - 1) <= f.started <= now
  }

  ghost predicate ItemInv(key: Parser, i: Item, f: Flight, now: int) {
    && (i.entry.Some? ==> EntryInv(key, i.entry.value, i.past, now))
    && FilesInv(i, f) && CoverInv(key, i, f) && ExactInv(key, i, f) && CountInv(i, f) && TimeInv(i.past, now)
    && (f.Round? ==> RoundInv(key, i, f, now))
  }

  // ---- what each step does to the message it is about

  lemma Later(key: Parser, i: Item, f: Flight, now: int, later: int)
    requires ItemInv(key, i, f, now) && now <= later
    ensures ItemInv(key, i, f, later)
  {
  }

  lemma Accept(key: Parser, i: Item, from: string, to: seq<string>, now: int)
    requires i == Item(None, i.body, NewPast(i.past.message)) && i.body == Some(i.past.message) && AllSplit(key, to)
    ensures ItemInv(key, Item(Some(Entry(from, to, 0, now, now)), i.body, i.past.(accepted := multiset(to))), Rest, now)
  {
  }

  lemma BodyMissing(key: Parser, i: Item, now: int)
    requires ItemInv(key, i, Rest, now) && i.entry.Some?
    ensures ItemInv(key, i.(past := i.past.(misread := i.past.misread || i.body.Some?)), EntryGoing, now)
  {
  }

  lemma StartRound(key: Parser, i: Item, now: int)
    requires ItemInv(key, i, Rest, now) && i.entry.Some? && i.body.Some? && i.entry.value.nextTry <= now
    ensures var entry := i.entry.value.(attempts := i.entry.value.attempts + 1);
            ItemInv(key, i.(past := Started(i.past, now)),
                    Round(entry, Domains(key, entry.to), [], i.body.value, now), now)
  {
    var entry := i.entry.value.(attempts := i.entry.value.attempts + 1);
    var f := Round(entry, Domains(key, entry.to), [], i.body.value, now);
    assert Open(key, f) == Pending(i.entry) by {
      WithinAll(key, entry.to, Domains(key, entry.to));
    }
    StartBooks(key, i, f, now);
    StartClock(key, i, f, now);
  }

  lemma StartBooks(key: Parser, i: Item, f: Flight, now: int)
    requires ItemInv(key, i, Rest, now) && i.body.Some? && f.Round? && Open(key, f) == Pending(i.entry)
    ensures var i' := i.(past := Started(i.past, now));
            FilesInv(i', f) && CoverInv(key, i', f) && ExactInv(key, i', f)
  {
  }

  lemma StartClock(key: Parser, i: Item, f: Flight, now: int)
    requires ItemInv(key, i, Rest, now) && i.entry.Some? && i.body.Some? && i.entry.value.nextTry <= now
    requires var entry := i.entry.value.(attempts := i.entry.value.attempts + 1);
             f == Round(entry, Domains(key, entry.to), [], i.body.value, now)
    ensures var i' := i.(past := Started(i.past, now));
            EntryInv(key, i'.entry.value, i'.past, now) && CountInv(i', f) && TimeInv(i'.past, now)
            && RoundInv(key, i', f, now)
  {
    assert Ladder(0) == 0;
  }

  lemma OneDomainLess(key: Parser, to: seq<string>, left: set<string>, d: string)
    requires d in left
    ensures multiset(Within(key, to, left)) == multiset(Within(key, to, left - {d})) + multiset(Within(key, to, {d}))
  {
    WithinUnion(key, to, left - {d}, {d});
    assert left - {d} + {d} == left;
  }

  lemma {:induction false} WithinSplit(key: Parser, to: seq<string>, domains: set<string>)
    ensures AllSplit(key, Within(key, to, domains))
  {
    if to != [] {
      WithinSplit(key, to[..|to| - 1], domains);
    }
  }

  function AnsweredFlight(key: Parser, f: Flight, d: string, outcome: Outcome): Flight
    requires f.Round?
  {
    f.(left := f.left - {d},
       deferred := if outcome == Temporary then f.deferred + Within(key, f.entry.to, {d}) else f.deferred)
  }

  /** An answer moves a group from the open recipients to the resolved ones, or leaves it open. */
  lemma AnswerBalances(key: Parser, p: Past, f: Flight, d: string, outcome: Outcome)
    requires f.Round? && d in f.left
    ensures Resolved(Answered(p, multiset(Within(key, f.entry.to, {d})), outcome)) + Open(key, AnsweredFlight(key, f, d, outcome))
         == Resolved(p) + Open(key, f)
  {
    OneDomainLess(key, f.entry.to, f.left, d);
    var before, after, group := multiset(Within(key, f.entry.to, f.left)), multiset(Within(key, f.entry.to, f.left - {d})),
                                Within(key, f.entry.to, {d});
    assert before == after + multiset(group);
    assert multiset(f.deferred + group) == multiset(f.deferred) + multiset(group);
    match outcome {
      case Sent => assert (p.delivered + multiset(group) + p.bounced) + (multiset(f.deferred) + after)
                       == (p.delivered + p.bounced) + (multiset(f.deferred) + before);
      case Permanent => assert (p.delivered + (p.bounced + multiset(group))) + (multiset(f.deferred) + after)
                            == (p.delivered + p.bounced) + (multiset(f.deferred) + before);
      case Temporary => assert (multiset(f.deferred) + multiset(group)) + after == multiset(f.deferred) + before;
    }
  }

  lemma AnswerDomain(key: Parser, i: Item, f: Flight, d: string, outcome: Outcome, now: int)
    requires f.Round? && ItemInv(key, i, f, now) && d in f.left
    ensures ItemInv(key, i.(past := Answered(i.past, multiset(Within(key, f.entry.to, {d})), outcome)),
                    AnsweredFlight(key, f, d, outcome), now)
  {
    var i' := i.(past := Answered(i.past, multiset(Within(key, f.entry.to, {d})), outcome));
    var f' := AnsweredFlight(key, f, d, outcome);
    AnswerBalances(key, i.past, f, d, outcome);
    AnswerGrows(i.past, multiset(Within(key, f.entry.to, {d})), outcome);
    AnswerBooks(key, i, i', f, f');
    WithinSplit(key, f.entry.to, {d});
    AnswerRound(key, i, i', f, f', now);
  }

  lemma AnswerGrows(p: Past, group: multiset<string>, outcome: Outcome)
    ensures var q := Answered(p, group, outcome);
            q == p.(delivered := q.delivered, bounced := q.bounced) && Resolved(p) <= Resolved(q)
  {
  }

  lemma AnswerRound(key: Parser, i: Item, i': Item, f: Flight, f': Flight, now: int)
    requires f.Round? && RoundInv(key, i, f, now) && CountInv(i, f) && TimeInv(i.past, now)
    requires i.entry.Some? ==> EntryInv(key, i.entry.value, i.past, now)
    requires i' == i.(past := i.past.(delivered := i'.past.delivered, bounced := i'.past.bounced))
    requires f'.Round? && f' == f.(left := f'.left, deferred := f'.deferred) && f'.left <= f.left && AllSplit(key, f'.deferred)
    ensures RoundInv(key, i', f', now) && CountInv(i', f') && TimeInv(i'.past, now)
    ensures i'.entry.Some? ==> EntryInv(key, i'.entry.value, i'.past, now)
  {
  }

  lemma AnswerBooks(key: Parser, i: Item, i': Item, f: Flight, f': Flight)
    requires f.Round? && f'.Round? && FilesInv(i, f) && CoverInv(key, i, f) && ExactInv(key, i, f)
    requires i' == i.(past := i.past.(delivered := i'.past.delivered, bounced := i'.past.bounced))
    requires Resolved(i.past) <= Resolved(i'.past)
    requires Resolved(i'.past) + Open(key, f') == Resolved(i.past) + Open(key, f)
    ensures FilesInv(i', f') && CoverInv(key, i', f') && ExactInv(key, i', f')
  {
  }

  lemma NobodyLeft(key: Parser, f: Flight)
    requires f.Round? && f.left == {}
    ensures Open(key, f) == multiset(f.deferred)
  {
    WithinNone(key, f.entry.to);
  }

  lemma AllDone(key: Parser, i: Item, f: Flight, now: int)
    requires f.Round? && ItemInv(key, i, f, now) && f.left == {} && f.deferred == []
    ensures ItemInv(key, i, EntryGoing, now)
  {
    NobodyLeft(key, f);
  }

  lemma GiveUp(key: Parser, i: Item, f: Flight, now: int)
    requires f.Round? && ItemInv(key, i, f, now) && f.left == {} && f.entry.attempts >= MAX_ATTEMPTS
    ensures ItemInv(key, i.(past := GivenUp(i.past, f.deferred, now)),
                    EntryGoing, now)
  {
    NobodyLeft(key, f);
    assert Resolved(GivenUp(i.past, f.deferred, now)) == Resolved(i.past) + multiset(f.deferred);
  }

  lemma Reschedule(key: Parser, i: Item, f: Flight, now: int)
    requires f.Round? && ItemInv(key, i, f, now) && f.left == {} && f.entry.attempts < MAX_ATTEMPTS
    ensures ItemInv(key, i.(entry := Some(Rescheduled(f.entry, f.deferred, now))), Rest, now)
  {
    NobodyLeft(key, f);
    assert Ladder(f.entry.attempts) == Ladder(f.entry.attempts - 1) + Minutes(f.entry.attempts);
  }

  lemma Disturb(key: Parser, i: Item, f: Flight, now: int)
    requires ItemInv(key, i, f, now) && (f.Round? || f.EntryGoing?)
    ensures ItemInv(key, i.(past := Cut(i.past)), Rest, now)
  {
  }

  lemma EntryUnlinked(key: Parser, i: Item, now: int)
    requires ItemInv(key, i, EntryGoing, now)
    ensures ItemInv(key, i.(entry := None), BodyGoing, now)
    ensures ItemInv(key, i.(past := Cut(i.past).(stuck := true)), BodyGoing, now)
  {
  }

  lemma BodyUnlinked(key: Parser, i: Item, now: int)
    requires ItemInv(key, i, BodyGoing, now)
    ensures ItemInv(key, i.(body := None), Rest, now) && ItemInv(key, i, Rest, now)
  {
  }
}
