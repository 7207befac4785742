/** The spool over whole runs. */
module SpoolRuns {
  import opened Wrappers
  import opened MailDisk
  import opened Relay
  import opened Backoff
  import opened Spool
  import opened SpoolSafety

  ghost predicate ItemAt(key: Parser, s: System, id: string) {
    ItemInv(key, ItemOf(s, id), FlightOf(s.worker, id), s.clock)
  }

  ghost predicate ItemsInv(key: Parser, s: System) {
    forall id {:trigger ItemAt(key, s, id)} :: id in s.past ==> ItemAt(key, s, id)
  }

  /** Files and flights belong to messages the spool has taken in. */
  ghost predicate Known(s: System) {
    && s.entries.Keys <= s.past.Keys && s.bodies.Keys <= s.past.Keys
    && (s.worker.Delivering? || s.worker.UnlinkingEntry? || s.worker.UnlinkingBody? ==> s.worker.id in s.past)
  }

  /** A message whose entry is not written yet is the client's alone. */
  ghost predicate ClientInv(key: Parser, s: System) {
    match s.enqueuer
    case Away => true
    case BodyWritten(id, _, to) =>
      && id in s.past && FlightOf(s.worker, id) == Rest && AllSplit(key, to)
      && ItemOf(s, id) == Item(None, Some(s.past[id].message), NewPast(s.past[id].message))
    case EntryWritten(_) => true
    case EntryRefused(id) => id in s.past && FlightOf(s.worker, id) == Rest && id !in s.entries
  }

  /** An entry no flush has listed yet will still be found: a token waits, or its client has
      yet to signal, or a flush has yet to list, or the queue is stopping - unless the
      directory could not be read the last time. */
  ghost predicate WakeInv(s: System) {
    s.unseen != {} ==> s.wake || s.enqueuer.EntryWritten? || s.worker.Listing? || s.stop || s.missed
  }

  ghost predicate Inv(key: Parser, s: System) {
    Known(s) && ItemsInv(key, s) && ClientInv(key, s) && WakeInv(s)
  }

  ghost predicate SameElsewhere(s: System, t: System, about: string) {
    && t.past.Keys <= s.past.Keys + {about}
    && (forall id {:trigger ItemOf(t, id)} :: id != about ==> ItemOf(t, id) == ItemOf(s, id))
  }

  ghost predicate SameFlights(w: Worker, v: Worker, about: string) {
    forall id {:trigger FlightOf(v, id)} :: id != about ==> FlightOf(v, id) == FlightOf(w, id)
  }

  /** A step about one message leaves all others alone. */
  lemma Framed(key: Parser, s: System, t: System, about: string, i: Item, f: Flight)
    requires ItemsInv(key, s) && s.clock <= t.clock
    requires SameElsewhere(s, t, about) && SameFlights(s.worker, t.worker, about)
    requires ItemOf(t, about) == i && FlightOf(t.worker, about) == f && ItemInv(key, i, f, t.clock)
    ensures ItemsInv(key, t)
  {
    forall id | id in t.past ensures ItemAt(key, t, id) {
      if id != about {
        assert ItemOf(t, id) == ItemOf(s, id) && FlightOf(t.worker, id) == FlightOf(s.worker, id);
        assert ItemAt(key, s, id);
        Later(key, ItemOf(s, id), FlightOf(s.worker, id), s.clock, t.clock);
      }
    }
  }

  /** A step about no message at all. */
  lemma Unmoved(key: Parser, s: System, t: System)
    requires ItemsInv(key, s) && s.clock <= t.clock
    requires t.past == s.past && t.entries == s.entries && t.bodies == s.bodies
    requires forall id :: FlightOf(t.worker, id) == FlightOf(s.worker, id)
    ensures ItemsInv(key, t)
  {
    forall id | id in t.past ensures ItemAt(key, t, id) {
      assert ItemAt(key, s, id);
      assert ItemOf(t, id) == ItemOf(s, id);
      Later(key, ItemOf(s, id), FlightOf(s.worker, id), s.clock, t.clock);
    }
  }

  // ---- the client's steps

  lemma PutBodyItems(key: Parser, s: System, id: string, from: string, to: seq<string>, message: Bytes)
    requires Known(s) && ItemsInv(key, s) && id !in s.past
    ensures ItemsInv(key, PutBodyStep(s, id, from, to, message))
  {
    var t := PutBodyStep(s, id, from, to, message);
    Framed(key, s, t, id, Item(None, Some(message), NewPast(message)), Rest);
  }

  lemma PutEntryItems(key: Parser, s: System, ok: bool)
    requires Known(s) && ItemsInv(key, s) && ClientInv(key, s) && s.enqueuer.BodyWritten?
    ensures ItemsInv(key, PutEntryStep(s, ok))
  {
    var t := PutEntryStep(s, ok);
    var id := s.enqueuer.id;
    if ok {
      Accept(key, ItemOf(s, id), s.enqueuer.from, s.enqueuer.to, s.clock);
      Framed(key, s, t, id, ItemOf(t, id), Rest);
    } else {
      Unmoved(key, s, t);
    }
  }

  lemma CleanBodyItems(key: Parser, s: System, ok: bool)
    requires Known(s) && ItemsInv(key, s) && ClientInv(key, s) && s.enqueuer.EntryRefused?
    ensures ItemsInv(key, CleanBodyStep(s, ok))
  {
    var t := CleanBodyStep(s, ok);
    var id := s.enqueuer.id;
    assert ItemAt(key, s, id);
    WithoutBody(key, ItemOf(s, id), s.clock);
    Framed(key, s, t, id, ItemOf(t, id), Rest);
  }

  lemma WithoutBody(key: Parser, i: Item, now: int)
    requires ItemInv(key, i, Rest, now) && i.entry.None?
    ensures ItemInv(key, i.(body := None), Rest, now)
  {
  }

  // ---- the worker's steps

  predicate AtMost(w: Worker, about: string) {
    w.Delivering? || w.UnlinkingEntry? || w.UnlinkingBody? ==> w.id == about
  }

  lemma FlightsElsewhere(w: Worker, v: Worker, about: string)
    requires AtMost(w, about) && AtMost(v, about)
    ensures SameFlights(w, v, about)
  {
  }

  /** What a step does to one message, and that it does nothing to any other. */
  ghost predicate Moves(s: System, t: System, about: string, i: Item, f: Flight) {
    && SameElsewhere(s, t, about) && SameFlights(s.worker, t.worker, about)
    && ItemOf(t, about) == i && FlightOf(t.worker, about) == f
  }

  lemma DropMoves(s: System, id: string, todo: seq<string>)
    requires s.worker.Scanning?
    ensures var i := ItemOf(s, id);
            Moves(s, DropStep(s, id, todo), id,
                  i.(past := i.past.(misread := i.past.misread || i.body.Some?)), EntryGoing)
  {
    FlightsElsewhere(s.worker, DropStep(s, id, todo).worker, id);
  }

  lemma StartMoves(key: Parser, s: System, id: string, todo: seq<string>)
    requires s.worker.Scanning? && id in s.entries && id in s.bodies
    ensures var i := ItemOf(s, id);
            var entry := i.entry.value.(attempts := i.entry.value.attempts + 1);
            Moves(s, StartStep(key, s, id, todo), id, i.(past := Started(i.past, s.clock)),
                  Round(entry, Domains(key, entry.to), [], i.body.value, s.clock))
  {
    FlightsElsewhere(s.worker, StartStep(key, s, id, todo).worker, id);
  }

  lemma DropItems(key: Parser, s: System, id: string, todo: seq<string>)
    requires Known(s) && ItemsInv(key, s) && s.worker.Scanning? && id in s.entries
    ensures ItemsInv(key, DropStep(s, id, todo))
  {
    var i := ItemOf(s, id);
    assert ItemAt(key, s, id);
    BodyMissing(key, i, s.clock);
    DropMoves(s, id, todo);
    Framed(key, s, DropStep(s, id, todo), id, i.(past := i.past.(misread := i.past.misread || i.body.Some?)), EntryGoing);
  }

  lemma StartItems(key: Parser, s: System, id: string, todo: seq<string>)
    requires Known(s) && ItemsInv(key, s) && s.worker.Scanning?
    requires id in s.entries && id in s.bodies && s.entries[id].nextTry <= s.clock
    ensures ItemsInv(key, StartStep(key, s, id, todo))
  {
    var i := ItemOf(s, id);
    assert ItemAt(key, s, id);
    StartRound(key, i, s.clock);
    StartMoves(key, s, id, todo);
    var entry := i.entry.value.(attempts := i.entry.value.attempts + 1);
    Framed(key, s, StartStep(key, s, id, todo), id, i.(past := Started(i.past, s.clock)),
           Round(entry, Domains(key, entry.to), [], i.body.value, s.clock));
  }

  lemma VisitItems(key: Parser, s: System, readable: bool)
    requires Known(s) && ItemsInv(key, s)
    requires s.worker.Scanning? && s.worker.todo != [] && (readable ==> s.worker.todo[0] in s.bodies)
    ensures ItemsInv(key, VisitStep(key, s, readable))
  {
    var id, todo := s.worker.todo[0], s.worker.todo[1..];
    if id !in s.entries || s.clock < s.entries[id].nextTry {
      Unmoved(key, s, s.(worker := Scanning(todo)));
    } else if readable {
      StartItems(key, s, id, todo);
    } else {
      DropItems(key, s, id, todo);
    }
  }

  lemma DeliverMoves(key: Parser, s: System, d: string, outcome: Outcome)
    requires s.worker.Delivering?
    ensures var i, f := ItemOf(s, s.worker.id), FlightOf(s.worker, s.worker.id);
            Moves(s, DeliverStep(key, s, d, outcome), s.worker.id,
                  i.(past := Answered(i.past, multiset(Within(key, f.entry.to, {d})), outcome)),
                  AnsweredFlight(key, f, d, outcome))
  {
    FlightsElsewhere(s.worker, DeliverStep(key, s, d, outcome).worker, s.worker.id);
  }

  lemma DeliverItems(key: Parser, s: System, d: string, outcome: Outcome)
    requires Known(s) && ItemsInv(key, s) && s.worker.Delivering? && d in s.worker.left
    ensures ItemsInv(key, DeliverStep(key, s, d, outcome))
  {
    var id := s.worker.id;
    var i, f := ItemOf(s, id), FlightOf(s.worker, id);
    assert ItemAt(key, s, id);
    AnswerDomain(key, i, f, d, outcome, s.clock);
    DeliverMoves(key, s, d, outcome);
    Framed(key, s, DeliverStep(key, s, d, outcome), id,
           i.(past := Answered(i.past, multiset(Within(key, f.entry.to, {d})), outcome)),
           AnsweredFlight(key, f, d, outcome));
  }

  lemma CloseMoves(s: System)
    requires s.worker.Delivering? && s.worker.id in s.past
    ensures Moves(s, CloseStep(s), s.worker.id, ItemOf(s, s.worker.id), EntryGoing)
  {
    FlightsElsewhere(s.worker, CloseStep(s).worker, s.worker.id);
  }

  lemma CloseItems(key: Parser, s: System)
    requires Known(s) && ItemsInv(key, s) && s.worker.Delivering? && s.worker.left == {} && s.worker.deferred == []
    ensures ItemsInv(key, CloseStep(s))
  {
    var id := s.worker.id;
    assert ItemAt(key, s, id);
    AllDone(key, ItemOf(s, id), FlightOf(s.worker, id), s.clock);
    CloseMoves(s);
    Framed(key, s, CloseStep(s), id, ItemOf(s, id), EntryGoing);
  }

  lemma GiveUpMoves(s: System)
    requires s.worker.Delivering?
    ensures var i := ItemOf(s, s.worker.id);
            Moves(s, GiveUpStep(s), s.worker.id, i.(past := GivenUp(i.past, s.worker.deferred, s.clock)), EntryGoing)
  {
    FlightsElsewhere(s.worker, GiveUpStep(s).worker, s.worker.id);
  }

  lemma GiveUpItems(key: Parser, s: System)
    requires Known(s) && ItemsInv(key, s) && s.worker.Delivering? && s.worker.left == {}
    requires s.worker.entry.attempts >= MAX_ATTEMPTS
    ensures ItemsInv(key, GiveUpStep(s))
  {
    var id := s.worker.id;
    var i := ItemOf(s, id);
    assert ItemAt(key, s, id);
    GiveUp(key, i, FlightOf(s.worker, id), s.clock);
    GiveUpMoves(s);
    Framed(key, s, GiveUpStep(s), id, i.(past := GivenUp(i.past, s.worker.deferred, s.clock)), EntryGoing);
  }

  lemma RescheduleMoves(s: System)
    requires s.worker.Delivering?
    ensures var i := ItemOf(s, s.worker.id);
            Moves(s, RescheduleStep(s), s.worker.id,
                  i.(entry := Some(Rescheduled(s.worker.entry, s.worker.deferred, s.clock))), Rest)
  {
    FlightsElsewhere(s.worker, RescheduleStep(s).worker, s.worker.id);
  }

  lemma RescheduleItems(key: Parser, s: System)
    requires Known(s) && ItemsInv(key, s) && s.worker.Delivering? && s.worker.left == {}
    requires s.worker.entry.attempts < MAX_ATTEMPTS
    ensures ItemsInv(key, RescheduleStep(s))
  {
    var id := s.worker.id;
    var i := ItemOf(s, id);
    assert ItemAt(key, s, id);
    Reschedule(key, i, FlightOf(s.worker, id), s.clock);
    RescheduleMoves(s);
    Framed(key, s, RescheduleStep(s), id,
           i.(entry := Some(Rescheduled(s.worker.entry, s.worker.deferred, s.clock))), Rest);
  }

  lemma NotWrittenMoves(s: System)
    requires s.worker.Delivering?
    ensures var i := ItemOf(s, s.worker.id);
            Moves(s, NotWrittenStep(s), s.worker.id, i.(past := Cut(i.past)), Rest)
  {
    FlightsElsewhere(s.worker, NotWrittenStep(s).worker, s.worker.id);
  }

  lemma NotWrittenItems(key: Parser, s: System)
    requires Known(s) && ItemsInv(key, s) && s.worker.Delivering?
    ensures ItemsInv(key, NotWrittenStep(s))
  {
    var id := s.worker.id;
    var i := ItemOf(s, id);
    assert ItemAt(key, s, id);
    Disturb(key, i, FlightOf(s.worker, id), s.clock);
    NotWrittenMoves(s);
    Framed(key, s, NotWrittenStep(s), id, i.(past := Cut(i.past)), Rest);
  }

  lemma EndRoundItems(key: Parser, s: System, writeOk: bool)
    requires Known(s) && ItemsInv(key, s) && s.worker.Delivering? && s.worker.left == {}
    ensures ItemsInv(key, EndRoundStep(s, writeOk))
  {
    if s.worker.deferred == [] {
      CloseItems(key, s);
    } else if s.worker.entry.attempts >= MAX_ATTEMPTS {
      GiveUpItems(key, s);
    } else if writeOk {
      RescheduleItems(key, s);
    } else {
      NotWrittenItems(key, s);
    }
  }

  lemma UnlinkEntryMoves(s: System, ok: bool)
    requires s.worker.UnlinkingEntry?
    ensures var i := ItemOf(s, s.worker.id);
            Moves(s, UnlinkEntryStep(s, ok), s.worker.id,
                  if ok then i.(entry := None) else i.(past := Cut(i.past).(stuck := true)), BodyGoing)
  {
    FlightsElsewhere(s.worker, UnlinkEntryStep(s, ok).worker, s.worker.id);
  }

  lemma UnlinkEntryItems(key: Parser, s: System, ok: bool)
    requires Known(s) && ItemsInv(key, s) && s.worker.UnlinkingEntry?
    ensures ItemsInv(key, UnlinkEntryStep(s, ok))
  {
    var i := ItemOf(s, s.worker.id);
    assert ItemAt(key, s, s.worker.id);
    EntryUnlinked(key, i, s.clock);
    UnlinkEntryMoves(s, ok);
    Framed(key, s, UnlinkEntryStep(s, ok), s.worker.id,
           if ok then i.(entry := None) else i.(past := Cut(i.past).(stuck := true)), BodyGoing);
  }

  lemma UnlinkBodyMoves(s: System, ok: bool)
    requires s.worker.UnlinkingBody? && s.worker.id in s.past
    ensures var i := ItemOf(s, s.worker.id);
            Moves(s, UnlinkBodyStep(s, ok), s.worker.id, if ok then i.(body := None) else i, Rest)
  {
    FlightsElsewhere(s.worker, UnlinkBodyStep(s, ok).worker, s.worker.id);
  }

  lemma UnlinkBodyItems(key: Parser, s: System, ok: bool)
    requires Known(s) && ItemsInv(key, s) && s.worker.UnlinkingBody?
    ensures ItemsInv(key, UnlinkBodyStep(s, ok))
  {
    var t := UnlinkBodyStep(s, ok);
    assert ItemAt(key, s, s.worker.id);
    BodyUnlinked(key, ItemOf(s, s.worker.id), s.clock);
    UnlinkBodyMoves(s, ok);
    Framed(key, s, t, s.worker.id, ItemOf(t, s.worker.id), Rest);
  }

  lemma CrashMoves(s: System)
    requires (s.worker.Delivering? || s.worker.UnlinkingEntry? || s.worker.UnlinkingBody?) && s.worker.id in s.past
    ensures var i := ItemOf(s, s.worker.id);
            Moves(s, CrashStep(s), s.worker.id,
                  if s.worker.UnlinkingBody? then i else i.(past := Cut(i.past)), Rest)
  {
    FlightsElsewhere(s.worker, CrashStep(s).worker, s.worker.id);
  }

  lemma CrashItems(key: Parser, s: System)
    requires Known(s) && ItemsInv(key, s)
    ensures ItemsInv(key, CrashStep(s))
  {
    if s.worker.Delivering? || s.worker.UnlinkingEntry? || s.worker.UnlinkingBody? {
      var id := s.worker.id;
      var i, f := ItemOf(s, id), FlightOf(s.worker, id);
      assert ItemAt(key, s, id);
      if s.worker.UnlinkingBody? {
        BodyUnlinked(key, i, s.clock);
      } else {
        Disturb(key, i, f, s.clock);
      }
      CrashMoves(s);
      Framed(key, s, CrashStep(s), id, if f.BodyGoing? then i else i.(past := Cut(i.past)), Rest);
    } else {
      Unmoved(key, s, CrashStep(s));
    }
  }

  lemma ItemsKept(key: Parser, s: System, e: Event)
    requires Known(s) && ItemsInv(key, s) && ClientInv(key, s) && Enabled(key, s, e)
    ensures ItemsInv(key, Step(key, s, e))
  {
    match e {
      case PutBody(id, from, to, message) => PutBodyItems(key, s, id, from, to, message);
      case PutEntry(ok) => PutEntryItems(key, s, ok);
      case CleanBody(ok) => CleanBodyItems(key, s, ok);
      case Visit(readable) => VisitItems(key, s, readable);
      case Deliver(d, outcome) => DeliverItems(key, s, d, outcome);
      case EndRound(writeOk) => EndRoundItems(key, s, writeOk);
      case UnlinkEntry(ok) => UnlinkEntryItems(key, s, ok);
      case UnlinkBody(ok) => UnlinkBodyItems(key, s, ok);
      case Crash => CrashItems(key, s);
      case _ => Unmoved(key, s, Step(key, s, e));
    }
  }

  // ---- the client's part of the invariant

  predicate IsClients(e: Enqueuer, id: string) {
    (e.BodyWritten? || e.EntryRefused?) && e.id == id
  }

  /** A step about another message leaves the client's alone. */
  lemma ClientElsewhere(key: Parser, s: System, t: System, about: string)
    requires ClientInv(key, s) && SameElsewhere(s, t, about) && SameFlights(s.worker, t.worker, about)
    requires t.enqueuer == s.enqueuer && s.past.Keys <= t.past.Keys && !IsClients(s.enqueuer, about)
    ensures ClientInv(key, t)
  {
    if s.enqueuer.BodyWritten? || s.enqueuer.EntryRefused? {
      var id := s.enqueuer.id;
      assert ItemOf(t, id) == ItemOf(s, id) && FlightOf(t.worker, id) == FlightOf(s.worker, id);
      assert t.past[id] == s.past[id];
    }
  }

  lemma StartClient(key: Parser, s: System, id: string, todo: seq<string>)
    requires ClientInv(key, s) && s.worker.Scanning? && id in s.entries && id in s.bodies
    ensures ClientInv(key, StartStep(key, s, id, todo))
  {
    StartMoves(key, s, id, todo);
    ClientElsewhere(key, s, StartStep(key, s, id, todo), id);
  }

  lemma DropClient(key: Parser, s: System, id: string, todo: seq<string>)
    requires ClientInv(key, s) && s.worker.Scanning? && id in s.entries
    ensures ClientInv(key, DropStep(s, id, todo))
  {
    DropMoves(s, id, todo);
    ClientElsewhere(key, s, DropStep(s, id, todo), id);
  }

  lemma VisitClient(key: Parser, s: System, readable: bool)
    requires ClientInv(key, s)
    requires s.worker.Scanning? && s.worker.todo != [] && (readable ==> s.worker.todo[0] in s.bodies)
    ensures ClientInv(key, VisitStep(key, s, readable))
  {
    var id, todo := s.worker.todo[0], s.worker.todo[1..];
    if id in s.entries && s.clock >= s.entries[id].nextTry {
      if readable {
        StartClient(key, s, id, todo);
      } else {
        DropClient(key, s, id, todo);
      }
    }
  }

  lemma CloseClient(key: Parser, s: System)
    requires ClientInv(key, s) && s.worker.Delivering? && s.worker.id in s.past && !IsClients(s.enqueuer, s.worker.id)
    ensures ClientInv(key, CloseStep(s))
  {
    CloseMoves(s);
    ClientElsewhere(key, s, CloseStep(s), s.worker.id);
  }

  lemma GiveUpClient(key: Parser, s: System)
    requires ClientInv(key, s) && s.worker.Delivering? && s.worker.id in s.past && !IsClients(s.enqueuer, s.worker.id)
    ensures ClientInv(key, GiveUpStep(s))
  {
    GiveUpMoves(s);
    ClientElsewhere(key, s, GiveUpStep(s), s.worker.id);
  }

  lemma RescheduleClient(key: Parser, s: System)
    requires ClientInv(key, s) && s.worker.Delivering? && s.worker.id in s.past && !IsClients(s.enqueuer, s.worker.id)
    ensures ClientInv(key, RescheduleStep(s))
  {
    RescheduleMoves(s);
    ClientElsewhere(key, s, RescheduleStep(s), s.worker.id);
  }

  lemma NotWrittenClient(key: Parser, s: System)
    requires ClientInv(key, s) && s.worker.Delivering? && s.worker.id in s.past && !IsClients(s.enqueuer, s.worker.id)
    ensures ClientInv(key, NotWrittenStep(s))
  {
    NotWrittenMoves(s);
    ClientElsewhere(key, s, NotWrittenStep(s), s.worker.id);
  }

  lemma EndRoundClient(key: Parser, s: System, writeOk: bool)
    requires ClientInv(key, s) && s.worker.Delivering? && s.worker.id in s.past
    ensures ClientInv(key, EndRoundStep(s, writeOk))
  {
    assert FlightOf(s.worker, s.worker.id) != Rest;
    if s.worker.deferred == [] {
      CloseClient(key, s);
    } else if s.worker.entry.attempts >= MAX_ATTEMPTS {
      GiveUpClient(key, s);
    } else if writeOk {
      RescheduleClient(key, s);
    } else {
      NotWrittenClient(key, s);
    }
  }

  lemma DeliverClient(key: Parser, s: System, d: string, outcome: Outcome)
    requires ClientInv(key, s) && s.worker.Delivering? && s.worker.id in s.past
    ensures ClientInv(key, DeliverStep(key, s, d, outcome))
  {
    assert FlightOf(s.worker, s.worker.id) != Rest;
    DeliverMoves(key, s, d, outcome);
    ClientElsewhere(key, s, DeliverStep(key, s, d, outcome), s.worker.id);
  }

  lemma UnlinkEntryClient(key: Parser, s: System, ok: bool)
    requires ClientInv(key, s) && s.worker.UnlinkingEntry? && s.worker.id in s.past
    ensures ClientInv(key, UnlinkEntryStep(s, ok))
  {
    assert FlightOf(s.worker, s.worker.id) == EntryGoing;
    UnlinkEntryMoves(s, ok);
    ClientElsewhere(key, s, UnlinkEntryStep(s, ok), s.worker.id);
  }

  lemma UnlinkBodyClient(key: Parser, s: System, ok: bool)
    requires ClientInv(key, s) && s.worker.UnlinkingBody? && s.worker.id in s.past
    ensures ClientInv(key, UnlinkBodyStep(s, ok))
  {
    assert FlightOf(s.worker, s.worker.id) == BodyGoing;
    UnlinkBodyMoves(s, ok);
    ClientElsewhere(key, s, UnlinkBodyStep(s, ok), s.worker.id);
  }

  lemma PutBodyClient(key: Parser, s: System, id: string, from: string, to: seq<string>, message: Bytes)
    requires Known(s) && id !in s.past && AllSplit(key, to)
    ensures ClientInv(key, PutBodyStep(s, id, from, to, message))
  {
  }

  lemma ClientKept(key: Parser, s: System, e: Event)
    requires Known(s) && ClientInv(key, s) && Enabled(key, s, e)
    ensures ClientInv(key, Step(key, s, e))
  {
    match e {
      case PutBody(id, from, to, message) => PutBodyClient(key, s, id, from, to, message);
      case Visit(readable) => VisitClient(key, s, readable);
      case Deliver(d, outcome) => DeliverClient(key, s, d, outcome);
      case EndRound(writeOk) => EndRoundClient(key, s, writeOk);
      case UnlinkEntry(ok) => UnlinkEntryClient(key, s, ok);
      case UnlinkBody(ok) => UnlinkBodyClient(key, s, ok);
      case _ =>
    }
  }

  lemma VisitKnown(key: Parser, s: System, readable: bool)
    requires Known(s)
    requires s.worker.Scanning? && s.worker.todo != [] && (readable ==> s.worker.todo[0] in s.bodies)
    ensures Known(VisitStep(key, s, readable))
  {
  }

  lemma DeliverKnown(key: Parser, s: System, d: string, outcome: Outcome)
    requires Known(s) && s.worker.Delivering?
    ensures Known(DeliverStep(key, s, d, outcome))
  {
  }

  lemma EndRoundKnown(s: System, writeOk: bool)
    requires Known(s) && s.worker.Delivering?
    ensures Known(EndRoundStep(s, writeOk))
  {
    GiveUpKnown(s);
    RescheduleKnown(s);
    NotWrittenKnown(s);
  }

  lemma GiveUpKnown(s: System)
    requires Known(s) && s.worker.Delivering?
    ensures Known(GiveUpStep(s)) && Known(CloseStep(s))
  {
  }

  lemma RescheduleKnown(s: System)
    requires Known(s) && s.worker.Delivering?
    ensures Known(RescheduleStep(s))
  {
  }

  lemma NotWrittenKnown(s: System)
    requires Known(s) && s.worker.Delivering?
    ensures Known(NotWrittenStep(s))
  {
  }

  lemma UnlinkKnown(s: System, ok: bool)
    requires Known(s)
    ensures s.worker.UnlinkingEntry? ==> Known(UnlinkEntryStep(s, ok))
    ensures s.worker.UnlinkingBody? ==> Known(UnlinkBodyStep(s, ok))
  {
  }

  lemma ClientKnown(key: Parser, s: System, ok: bool, id: string, from: string, to: seq<string>, message: Bytes)
    requires Known(s) && ClientInv(key, s)
    ensures Known(PutBodyStep(s, id, from, to, message))
    ensures s.enqueuer.BodyWritten? ==> Known(PutEntryStep(s, ok))
    ensures s.enqueuer.EntryRefused? ==> Known(CleanBodyStep(s, ok))
  {
  }

  lemma KnownKept(key: Parser, s: System, e: Event)
    requires Known(s) && ClientInv(key, s) && Enabled(key, s, e)
    ensures Known(Step(key, s, e))
  {
    match e {
      case PutBody(id, from, to, message) => ClientKnown(key, s, true, id, from, to, message);
      case PutEntry(ok) => ClientKnown(key, s, ok, "", "", [], []);
      case CleanBody(ok) => ClientKnown(key, s, ok, "", "", [], []);
      case Visit(readable) => VisitKnown(key, s, readable);
      case Deliver(d, outcome) => DeliverKnown(key, s, d, outcome);
      case EndRound(writeOk) => EndRoundKnown(s, writeOk);
      case UnlinkEntry(ok) => UnlinkKnown(s, ok);
      case UnlinkBody(ok) => UnlinkKnown(s, ok);
      case _ =>
    }
  }

  lemma WakeKept(key: Parser, s: System, e: Event)
    requires WakeInv(s) && Enabled(key, s, e)
    ensures WakeInv(Step(key, s, e))
  {
    match e {
      case Visit(readable) => VisitWake(key, s, readable);
      case Deliver(domain, outcome) => DeliverWake(key, s, domain, outcome);
      case EndRound(writeOk) => EndRoundWake(s, writeOk);
      case _ =>
    }
  }

  /** What the wake-up depends on. */
  ghost predicate SameSignals(s: System, t: System) {
    && t.unseen == s.unseen && t.wake == s.wake && t.enqueuer == s.enqueuer && t.stop == s.stop && t.missed == s.missed
    && !s.worker.Listing?
  }

  lemma VisitWake(key: Parser, s: System, readable: bool)
    requires s.worker.Scanning? && s.worker.todo != [] && (readable ==> s.worker.todo[0] in s.bodies)
    ensures SameSignals(s, VisitStep(key, s, readable))
  {
  }

  lemma DeliverWake(key: Parser, s: System, domain: string, outcome: Outcome)
    requires s.worker.Delivering?
    ensures SameSignals(s, DeliverStep(key, s, domain, outcome))
  {
  }

  lemma EndRoundWake(s: System, writeOk: bool)
    requires s.worker.Delivering?
    ensures SameSignals(s, EndRoundStep(s, writeOk))
  {
    GiveUpWake(s);
    RescheduleWake(s);
    NotWrittenWake(s);
  }

  lemma GiveUpWake(s: System)
    requires s.worker.Delivering?
    ensures SameSignals(s, GiveUpStep(s)) && SameSignals(s, CloseStep(s))
  {
  }

  lemma RescheduleWake(s: System)
    requires s.worker.Delivering?
    ensures SameSignals(s, RescheduleStep(s))
  {
  }

  lemma NotWrittenWake(s: System)
    requires s.worker.Delivering?
    ensures SameSignals(s, NotWrittenStep(s))
  {
  }

  // ---- runs

  lemma StepKeeps(key: Parser, s: System, e: Event)
    requires Inv(key, s) && Enabled(key, s, e)
    ensures Inv(key, Step(key, s, e))
  {
    KnownKept(key, s, e);
    ItemsKept(key, s, e);
    ClientKept(key, s, e);
    WakeKept(key, s, e);
  }

  lemma {:induction false} RunKeeps(key: Parser, s: System, events: seq<Event>)
    requires Inv(key, s) && IsRun(key, s, events)
    ensures Inv(key, After(key, s, events))
    decreases |events|
  {
    if events != [] {
      StepKeeps(key, s, events[0]);
      RunKeeps(key, Step(key, s, events[0]), events[1..]);
    }
  }

  lemma StartInv(key: Parser, now: int)
    ensures Inv(key, Init(now))
  {
  }

  // ---- main results

  /** No accepted recipient is ever lost: each is delivered, handed to a bounce or still
      listed in an entry on disk, after any run with failures and crashes, except of a
      message whose body file was there but could not be read. Between rounds and with no
      crash or failed write in a round, the three account for every recipient exactly once. */
  lemma NothingLost(key: Parser, now: int, events: seq<Event>, id: string)
    requires IsRun(key, Init(now), events) && id in After(key, Init(now), events).past
    ensures var s := After(key, Init(now), events);
            var i := ItemOf(s, id);
            !i.past.misread ==>
              && i.past.accepted <= i.past.delivered + i.past.bounced + Pending(i.entry)
              && (i.past.cuts == 0 && FlightOf(s.worker, id).Rest? ==>
                    i.past.accepted == i.past.delivered + i.past.bounced + Pending(i.entry))
  {
    StartInv(key, now);
    RunKeeps(key, Init(now), events);
    assert ItemAt(key, After(key, Init(now), events), id);
  }

  /** An entry without its body is one whose entry file could not be unlinked once, and all
      its recipients were settled by then: dropping it loses nobody. */
  lemma DroppingIsHarmless(key: Parser, now: int, events: seq<Event>, id: string)
    requires IsRun(key, Init(now), events)
    requires id in After(key, Init(now), events).entries && id !in After(key, Init(now), events).bodies
    ensures var p := PastOf(After(key, Init(now), events), id);
            p.stuck && (!p.misread ==> p.accepted <= p.delivered + p.bounced)
  {
    StartInv(key, now);
    RunKeeps(key, Init(now), events);
    assert ItemAt(key, After(key, Init(now), events), id);
  }

  /** A message is tried at most twelve times and once more for every round that was cut
      short, and is gone after that; and whatever happened, it is not given up on before
      2075 minutes after its first round. */
  lemma PatienceAndLimit(key: Parser, now: int, events: seq<Event>, id: string)
    requires IsRun(key, Init(now), events) && id in After(key, Init(now), events).past
    ensures var s := After(key, Init(now), events);
            var p := PastOf(s, id);
            && p.rounds <= 12 + p.cuts
            && (p.rounds == 12 + p.cuts && FlightOf(s.worker, id).Rest? ==> id !in s.entries)
            && (p.gaveUp.Some? ==> p.firstRound.Some? && p.gaveUp.value >= p.firstRound.value + 2075 * NANOS_PER_MINUTE)
  {
    StartInv(key, now);
    RunKeeps(key, Init(now), events);
    assert ItemAt(key, After(key, Init(now), events), id);
    FullLadder();
  }

  /** No lost wake-up; and an entry no round has been recorded for is due whenever it is
      looked at. */
  lemma EveryEntryIsSeen(key: Parser, now: int, events: seq<Event>)
    requires IsRun(key, Init(now), events)
    ensures var s := After(key, Init(now), events);
            && (s.unseen != {} ==> s.wake || s.enqueuer.EntryWritten? || s.worker.Listing? || s.stop || s.missed)
            && (forall id :: id in s.entries && s.entries[id].attempts == 0 ==> s.entries[id].nextTry <= s.clock)
  {
    StartInv(key, now);
    RunKeeps(key, Init(now), events);
    var s := After(key, Init(now), events);
    forall id | id in s.entries && s.entries[id].attempts == 0 ensures s.entries[id].nextTry <= s.clock {
      assert ItemAt(key, s, id);
    }
  }

  /** What is sent to any host is the text the client handed over. */
  lemma SentAsAccepted(key: Parser, now: int, events: seq<Event>)
    requires IsRun(key, Init(now), events) && After(key, Init(now), events).worker.Delivering?
    ensures var s := After(key, Init(now), events);
            s.worker.message == PastOf(s, s.worker.id).message
  {
    StartInv(key, now);
    RunKeeps(key, Init(now), events);
    var s := After(key, Init(now), events);
    assert ItemAt(key, s, s.worker.id);
  }

  // ---- where the promises end

  /** A due message whose body is there but cannot be read is dropped like one whose body is
      missing. Its outstanding recipients are then neither delivered nor bounced nor listed,
      so somebody is lost exactly when the entry still names a recipient. */
  lemma UnreadableBodyLoses(key: Parser, s: System)
    requires Inv(key, s) && Enabled(key, s, Visit(false))
    requires var id := s.worker.todo[0];
             && id in s.entries && id in s.bodies && s.clock >= s.entries[id].nextTry
             && PastOf(s, id).cuts == 0 && !PastOf(s, id).misread
    ensures var id := s.worker.todo[0];
            var dropped := Step(key, s, Visit(false));
            && Enabled(key, dropped, UnlinkEntry(true))
            && var t := Step(key, dropped, UnlinkEntry(true));
               && id !in t.entries
               && PastOf(t, id).accepted == Resolved(PastOf(t, id)) + multiset(s.entries[id].to)
               && (PastOf(t, id).accepted <= Resolved(PastOf(t, id)) <==> s.entries[id].to == [])
  {
    var id, todo := s.worker.todo[0], s.worker.todo[1..];
    assert PastOf(s, id).accepted == Resolved(PastOf(s, id)) + multiset(s.entries[id].to) by {
      assert ItemAt(key, s, id);
    }
    DroppedPast(key, s, id, todo);
    LeftOver(PastOf(s, id).accepted, Resolved(PastOf(s, id)), s.entries[id].to);
  }

  lemma DroppedPast(key: Parser, s: System, id: string, todo: seq<string>)
    requires s.worker.Scanning?
    ensures var dropped := DropStep(s, id, todo);
            && dropped.worker == UnlinkingEntry(todo, id)
            && var t := UnlinkEntryStep(dropped, true);
               id !in t.entries && PastOf(t, id) == PastOf(s, id).(misread := PastOf(t, id).misread)
  {
  }

  lemma LeftOver(accepted: multiset<string>, resolved: multiset<string>, to: seq<string>)
    requires accepted == resolved + multiset(to)
    ensures accepted <= resolved <==> to == []
  {
    if to != [] {
      assert to[0] in multiset(to);
      assert accepted[to[0]] == resolved[to[0]] + multiset(to)[to[0]];
    }
  }

  function UnreadableRun(id: string, from: string, to: seq<string>, message: Bytes): seq<Event> {
    [PutBody(id, from, to, message), PutEntry(true), Signal, List([id]), Visit(false), UnlinkEntry(true)]
  }

  /** Six steps from an empty queue: the client is told its message is queued, one read
      fails, and no recipient will ever hear of it. */
  lemma UnreadableBodyLosesAll(key: Parser, now: int, id: string, from: string, to: seq<string>, message: Bytes)
    requires AllSplit(key, to) && to != []
    ensures var events := UnreadableRun(id, from, to, message);
            && IsRun(key, Init(now), events)
            && var t := After(key, Init(now), events);
               && id in t.past && id !in t.entries && t.past[id].accepted == multiset(to)
               && Resolved(t.past[id]) == multiset{} && !(t.past[id].accepted <= Resolved(t.past[id]))
  {
    var e := UnreadableRun(id, from, to, message);
    AcceptedRun(key, now, id, from, to, message);
    assert e[4] == Visit(false) && e[5] == UnlinkEntry(true);
    DroppedThen(key, Init(now), e, 4, After(key, Init(now), e[..4]), id);
    assert e[..6] == e;
    LeftOver(multiset(to), multiset{}, to);
  }

  lemma DueIsDropped(key: Parser, s: System, id: string)
    requires s.worker == Scanning([id]) && !s.stop && id in s.entries && s.entries[id].nextTry <= s.clock
    ensures Enabled(key, s, Visit(false)) && Step(key, s, Visit(false)) == DropStep(s, id, [])
  {
    assert [id][1..] == [];
  }

  /** The first four steps: accepted, signalled and listed. */
  lemma AcceptedRun(key: Parser, now: int, id: string, from: string, to: seq<string>, message: Bytes)
    requires AllSplit(key, to)
    ensures var events := UnreadableRun(id, from, to, message)[..4];
            && IsRun(key, Init(now), events)
            && var s := After(key, Init(now), events);
               && s.worker == Scanning([id]) && !s.stop && id in s.entries && s.entries[id].nextTry <= s.clock
               && id in s.past && s.past[id] == NewPast(message).(accepted := multiset(to))
               && s.entries.Keys == {id} && s.entries[id].to == to && id in s.bodies
  {
    var e := UnreadableRun(id, from, to, message);
    var s0 := Init(now);
    var s1 := PutBodyStep(s0, id, from, to, message);
    var s2 := PutEntryStep(s1, true);
    var s3 := s2.(wake := true, enqueuer := Away);
    Extend(key, s0, e, 0, s0);
    Extend(key, s0, e, 1, s1);
    Extend(key, s0, e, 2, s2);
    Extend(key, s0, e, 3, s3);
  }

  /** One more step of a listed run. */
  lemma Extend(key: Parser, s: System, events: seq<Event>, k: nat, at: System)
    requires k < |events| && IsRun(key, s, events[..k]) && After(key, s, events[..k]) == at
    requires Enabled(key, at, events[k])
    ensures IsRun(key, s, events[..k + 1]) && After(key, s, events[..k + 1]) == Step(key, at, events[k])
  {
    RunSnoc(key, s, events[..k], events[k]);
    assert events[..k + 1] == events[..k] + [events[k]];
  }

  function CutRun(id: string, from: string, to: seq<string>, message: Bytes, domain: string): seq<Event> {
    UnreadableRun(id, from, to, message)[..4]
    + [Visit(true), Deliver(domain, Sent), Crash, List([id]), Visit(false), UnlinkEntry(true)]
  }

  /** After a round that was cut short the entry can name recipients that were reached in it:
      here all of them were, so that the failed read loses nobody. */
  lemma CutRoundLosesNobody(key: Parser, now: int, id: string, from: string, to: seq<string>, message: Bytes, domain: string)
    requires to != [] && forall i :: 0 <= i < |to| ==> key(to[i]) == Some(domain)
    ensures var events := CutRun(id, from, to, message, domain);
            && IsRun(key, Init(now), events) && IsRun(key, Init(now), events[..8])
            && var s := After(key, Init(now), events[..8]);
               var t := After(key, Init(now), events);
               && id in s.entries && s.entries[id].to == to
               && id in t.past && id !in t.entries && t.past[id].accepted == Resolved(t.past[id]) == multiset(to)
  {
    var e := CutRun(id, from, to, message, domain);
    AcceptedRun(key, now, id, from, to, message);
    assert e[..4] == UnreadableRun(id, from, to, message)[..4];
    assert e[4..] == [Visit(true), Deliver(domain, Sent), Crash, List([id]), Visit(false), UnlinkEntry(true)];
    CutThenDropped(key, Init(now), e, After(key, Init(now), e[..4]), id, to, domain);
    assert e[..10] == e;
  }

  lemma CutThenDropped(key: Parser, start: System, e: seq<Event>, s: System, id: string, to: seq<string>, domain: string)
    requires |e| == 10 && e[4..] == [Visit(true), Deliver(domain, Sent), Crash, List([id]), Visit(false), UnlinkEntry(true)]
    requires to != [] && forall i :: 0 <= i < |to| ==> key(to[i]) == Some(domain)
    requires IsRun(key, start, e[..4]) && After(key, start, e[..4]) == s
    requires Alone(s, id, to) && s.worker == Scanning([id]) && Resolved(s.past[id]) == multiset{}
    ensures IsRun(key, start, e[..8]) && Alone(After(key, start, e[..8]), id, to)
    ensures IsRun(key, start, e[..10])
    ensures var t := After(key, start, e[..10]);
            id in t.past && id !in t.entries && t.past[id].accepted == s.past[id].accepted && Resolved(t.past[id]) == multiset(to)
  {
    assert e[4] == e[4..][0] && e[5] == e[4..][1] && e[6] == e[4..][2] && e[7] == e[4..][3];
    assert e[8] == e[4..][4] && e[9] == e[4..][5];
    var t := RoundCutShort(key, start, e, s, id, to, domain);
    DroppedThen(key, start, e, 8, t, id);
  }

  lemma RoundCutShort(key: Parser, start: System, e: seq<Event>, s: System, id: string, to: seq<string>, domain: string)
    returns (t: System)
    requires |e| >= 8 && e[4] == Visit(true) && e[5] == Deliver(domain, Sent) && e[6] == Crash && e[7] == List([id])
    requires to != [] && forall i :: 0 <= i < |to| ==> key(to[i]) == Some(domain)
    requires IsRun(key, start, e[..4]) && After(key, start, e[..4]) == s
    requires Alone(s, id, to) && s.worker == Scanning([id]) && Resolved(s.past[id]) == multiset{}
    ensures IsRun(key, start, e[..8]) && After(key, start, e[..8]) == t
    ensures Alone(t, id, to) && t.worker == Scanning([id])
    ensures t.past[id].accepted == s.past[id].accepted && Resolved(t.past[id]) == multiset(to)
  {
    var s5 := TakenUp(key, s, id, to, domain);
    Extend(key, start, e, 4, s);
    OneDomain(key, to, domain);
    var s6 := AllSent(key, s5, id, to, domain);
    Extend(key, start, e, 5, s5);
    var s7 := CutOff(key, s6, id, to);
    Extend(key, start, e, 6, s6);
    t := ListedAgain(key, s7, id, to);
    Extend(key, start, e, 7, s7);
  }

  lemma DroppedThen(key: Parser, start: System, e: seq<Event>, k: nat, s: System, id: string)
    requires |e| >= k + 2 && e[k] == Visit(false) && e[k + 1] == UnlinkEntry(true)
    requires IsRun(key, start, e[..k]) && After(key, start, e[..k]) == s
    requires s.worker == Scanning([id]) && !s.stop && id in s.entries && s.entries[id].nextTry <= s.clock && id in s.past
    ensures IsRun(key, start, e[..k + 2])
    ensures var t := After(key, start, e[..k + 2]); id !in t.entries && SameBooks(s, t, id)
  {
    DueIsDropped(key, s, id);
    DroppedPast(key, s, id, []);
    Extend(key, start, e, k, s);
    Extend(key, start, e, k + 1, DropStep(s, id, []));
  }

  /** The queue holds this message only, and it is due. */
  ghost predicate Alone(s: System, id: string, to: seq<string>) {
    && s.entries.Keys == {id} && s.entries[id].to == to && s.entries[id].nextTry <= s.clock
    && id in s.bodies && id in s.past && !s.stop
  }

  ghost predicate SameBooks(s: System, t: System, id: string) {
    && id in s.past && id in t.past
    && t.past[id].accepted == s.past[id].accepted && Resolved(t.past[id]) == Resolved(s.past[id])
  }

  ghost predicate InRound(s: System, id: string, to: seq<string>) {
    s.worker.Delivering? && s.worker.id == id && s.worker.entry.to == to
  }

  lemma TakenUp(key: Parser, s: System, id: string, to: seq<string>, domain: string) returns (t: System)
    requires Alone(s, id, to) && s.worker == Scanning([id])
    requires to != [] && forall i :: 0 <= i < |to| ==> key(to[i]) == Some(domain)
    ensures Enabled(key, s, Visit(true)) && t == Step(key, s, Visit(true))
    ensures Alone(t, id, to) && SameBooks(s, t, id) && InRound(t, id, to) && t.worker.left == {domain}
  {
    assert [id][1..] == [];
    OneDomain(key, to, domain);
    t := StartStep(key, s, id, []);
  }

  lemma AllSent(key: Parser, s: System, id: string, to: seq<string>, domain: string) returns (t: System)
    requires Alone(s, id, to) && InRound(s, id, to) && s.worker.left == {domain} && Resolved(s.past[id]) == multiset{}
    requires Within(key, to, {domain}) == to
    ensures Enabled(key, s, Deliver(domain, Sent)) && t == Step(key, s, Deliver(domain, Sent))
    ensures Alone(t, id, to) && InRound(t, id, to)
    ensures t.past[id].accepted == s.past[id].accepted && Resolved(t.past[id]) == multiset(to)
  {
    t := DeliverStep(key, s, domain, Sent);
    SentResolves(s.past[id], to);
    assert t.past[id] == Answered(s.past[id], multiset(to), Sent);
  }

  lemma SentResolves(p: Past, to: seq<string>)
    requires Resolved(p) == multiset{}
    ensures Resolved(Answered(p, multiset(to), Sent)) == multiset(to)
  {
    assert p.delivered == multiset{} && p.bounced == multiset{};
  }

  lemma CutOff(key: Parser, s: System, id: string, to: seq<string>) returns (t: System)
    requires Alone(s, id, to) && InRound(s, id, to)
    ensures t == Step(key, s, Crash) && Alone(t, id, to) && SameBooks(s, t, id) && t.worker == Listing
  {
    t := CrashStep(s);
  }

  lemma ListedAgain(key: Parser, s: System, id: string, to: seq<string>) returns (t: System)
    requires Alone(s, id, to) && s.worker == Listing
    ensures Enabled(key, s, List([id])) && t == Step(key, s, List([id]))
    ensures Alone(t, id, to) && SameBooks(s, t, id) && t.worker == Scanning([id])
  {
    t := s.(worker := Scanning([id]), unseen := {}, missed := false);
  }

  lemma OneDomain(key: Parser, to: seq<string>, domain: string)
    requires to != [] && forall i :: 0 <= i < |to| ==> key(to[i]) == Some(domain)
    ensures Domains(key, to) == {domain} && Within(key, to, {domain}) == to
  {
    OnlyDomain(key, to, domain);
    WithinAll(key, to, {domain});
  }

  lemma {:induction false} OnlyDomain(key: Parser, to: seq<string>, domain: string)
    requires forall i :: 0 <= i < |to| ==> key(to[i]) == Some(domain)
    ensures Domains(key, to) == if to == [] then {} else {domain}
  {
    if to != [] {
      OnlyDomain(key, to[..|to| - 1], domain);
    }
  }

  /** Removing a message leaves an entry without a body exactly when the entry cannot be
      unlinked and the body can. */
  lemma RemovalKeepsPairs(key: Parser, s: System, entryOk: bool, bodyOk: bool)
    requires s.worker.UnlinkingEntry? && s.worker.id in s.entries && s.worker.id in s.bodies
    ensures var t := Step(key, Step(key, s, UnlinkEntry(entryOk)), UnlinkBody(bodyOk));
            (s.worker.id in t.entries ==> s.worker.id in t.bodies) <==> entryOk || !bodyOk
  {
  }
}
