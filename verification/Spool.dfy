/** The outbound spool as the file operations of one worker and one client at a time, in
    any order, with failing writes and unlinks, and with crashes of the process.

    Every queued message has an entry file and a body file of the same ID. `past` is a
    record of what has happened to each message; no step looks at it. */
module Spool {
  import opened Wrappers
  import opened MailDisk
  import opened Relay
  import opened Backoff

  const NANOS_PER_MINUTE := 60_000_000_000

  datatype Entry = Entry(from: string, to: seq<string>, attempts: nat, firstTry: int, nextTry: int)

  /** `accepted` are the recipients the entry was first written with. `cuts` counts
      the crashes and failed writes in the middle of a round, `stuck` an entry file that could
      not be unlinked, `misread` a body that was there but could not be read. */
  datatype Past = Past(message: Bytes, accepted: multiset<string>, delivered: multiset<string>,
                       bounced: multiset<string>, rounds: nat, firstRound: Option<int>, gaveUp: Option<int>,
                       cuts: nat, stuck: bool, misread: bool)

  datatype Worker =
    | Idle
    | Listing
    | Scanning(todo: seq<string>)
    | Delivering(todo: seq<string>, id: string, entry: Entry, left: set<string>, deferred: seq<string>,
                 message: Bytes, started: int)
    | UnlinkingEntry(todo: seq<string>, id: string)
    | UnlinkingBody(todo: seq<string>, id: string)
    | Stopped

  /** The client that holds the queue's lock. */
  datatype Enqueuer =
    | Away
    | BodyWritten(id: string, from: string, to: seq<string>)
    | EntryWritten(id: string)
    | EntryRefused(id: string)

  /** `wake` is the one-slot channel. `unseen` holds the entries written since a flush last
      listed the directory; `missed` says that the latest attempt to list it failed. */
  datatype System = System(entries: map<string, Entry>, bodies: map<string, Bytes>, past: map<string, Past>,
                           worker: Worker, enqueuer: Enqueuer, wake: bool, stop: bool, clock: int,
                           unseen: set<string>, missed: bool)

  function Init(now: int): System {
    System(map[], map[], map[], Listing, Away, false, false, now, {}, false)
  }

  datatype Event =
    | PutBody(id: string, from: string, to: seq<string>, message: Bytes)
    | PutEntry(ok: bool)
    | CleanBody(ok: bool)
    | Signal
    | TakeWake
    | Tick
    | List(todo: seq<string>)
    | ListFails
    | Skip
    | Visit(readable: bool)
    | Deliver(domain: string, outcome: Outcome)
    | EndRound(writeOk: bool)
    | UnlinkEntry(ok: bool)
    | UnlinkBody(ok: bool)
    | EndFlush
    | LeaveFlush
    | Quit
    | Advance(elapsed: nat)
    | Stop
    | Crash

  /** IDs are new, and recipients are ones the SMTP session has let through. */
  predicate Enabled(key: Parser, s: System, e: Event) {
    match e
    case PutBody(id, _, to, _) => s.enqueuer.Away? && id !in s.past && AllSplit(key, to)
    case PutEntry(_) => s.enqueuer.BodyWritten?
    case CleanBody(_) => s.enqueuer.EntryRefused?
    case Signal => s.enqueuer.EntryWritten?
    case TakeWake => s.worker.Idle? && s.wake
    case Tick => s.worker.Idle?
    case List(todo) => s.worker.Listing? && (forall id :: id in s.entries ==> id in todo)
    case ListFails => s.worker.Listing?
    case Skip => s.worker.Scanning? && s.worker.todo != []
    case Visit(readable) =>
      s.worker.Scanning? && s.worker.todo != [] && !s.stop && (readable ==> s.worker.todo[0] in s.bodies)
    case Deliver(domain, _) => s.worker.Delivering? && domain in s.worker.left
    case EndRound(_) => s.worker.Delivering? && s.worker.left == {}
    case UnlinkEntry(_) => s.worker.UnlinkingEntry?
    case UnlinkBody(_) => s.worker.UnlinkingBody?
    case EndFlush => s.worker.Scanning? && s.worker.todo == []
    case LeaveFlush => s.worker.Scanning? && s.stop
    case Quit => s.worker.Idle? && s.stop
    case Advance(_) => true
    case Stop => true
    case Crash => true
  }

  function NewPast(message: Bytes): Past {
    Past(message, multiset{}, multiset{}, multiset{}, 0, None, None, 0, false, false)
  }

  function Cut(p: Past): Past {
    p.(cuts := p.cuts + 1)
  }

  function PastOf(s: System, id: string): Past {
    if id in s.past then s.past[id] else NewPast([])
  }

  function WithPast(s: System, id: string, p: Past): System {
    s.(past := s.past[id := p])
  }

  function PutBodyStep(s: System, id: string, from: string, to: seq<string>, message: Bytes): System {
    WithPast(s, id, NewPast(message)).(bodies := s.bodies[id := message], enqueuer := BodyWritten(id, from, to))
  }

  function PutEntryStep(s: System, ok: bool): System
    requires s.enqueuer.BodyWritten?
  {
    var (id, from, to) := (s.enqueuer.id, s.enqueuer.from, s.enqueuer.to);
    if ok then
      WithPast(s, id, PastOf(s, id).(accepted := multiset(to)))
        .(entries := s.entries[id := Entry(from, to, 0, s.clock, s.clock)],
          unseen := s.unseen + {id}, enqueuer := EntryWritten(id))
    else s.(enqueuer := EntryRefused(id))
  }

  function CleanBodyStep(s: System, ok: bool): System
    requires s.enqueuer.EntryRefused?
  {
    s.(bodies := if ok then s.bodies - {s.enqueuer.id} else s.bodies, enqueuer := Away)
  }

  /** The body cannot be read, so the message is dropped. */
  function DropStep(s: System, id: string, todo: seq<string>): System {
    var p := PastOf(s, id);
    WithPast(s, id, p.(misread := p.misread || id in s.bodies)).(worker := UnlinkingEntry(todo, id))
  }

  function Started(p: Past, now: int): Past {
    p.(rounds := p.rounds + 1, firstRound := if p.firstRound.None? then Some(now) else p.firstRound)
  }

  function StartStep(key: Parser, s: System, id: string, todo: seq<string>): System
    requires id in s.entries && id in s.bodies
  {
    var entry := s.entries[id].(attempts := s.entries[id].attempts + 1);
    WithPast(s, id, Started(PastOf(s, id), s.clock))
      .(worker := Delivering(todo, id, entry, Domains(key, entry.to), [], s.bodies[id], s.clock))
  }

  /** The worker takes up the next listed entry: due or not, and with its body or not. */
  function VisitStep(key: Parser, s: System, readable: bool): System
    requires s.worker.Scanning? && s.worker.todo != [] && (readable ==> s.worker.todo[0] in s.bodies)
  {
    var id, todo := s.worker.todo[0], s.worker.todo[1..];
    if id !in s.entries || s.clock < s.entries[id].nextTry then s.(worker := Scanning(todo))
    else if readable then StartStep(key, s, id, todo)
    else DropStep(s, id, todo)
  }

  function Answered(p: Past, group: multiset<string>, outcome: Outcome): Past {
    match outcome
    case Sent => p.(delivered := p.delivered + group)
    case Permanent => p.(bounced := p.bounced + group)
    case Temporary => p
  }

  function DeliverStep(key: Parser, s: System, domain: string, outcome: Outcome): System
    requires s.worker.Delivering?
  {
    var w := s.worker;
    var group := Within(key, w.entry.to, {domain});
    WithPast(s, w.id, Answered(PastOf(s, w.id), multiset(group), outcome))
      .(worker := w.(left := w.left - {domain},
                     deferred := if outcome == Temporary then w.deferred + group else w.deferred))
  }

  function Rescheduled(entry: Entry, deferred: seq<string>, now: int): Entry {
    entry.(to := deferred, nextTry := now + Minutes(entry.attempts) * NANOS_PER_MINUTE)
  }

  function GivenUp(p: Past, deferred: seq<string>, now: int): Past {
    p.(bounced := p.bounced + multiset(deferred), gaveUp := Some(now))
  }

  function CloseStep(s: System): System
    requires s.worker.Delivering?
  {
    s.(worker := UnlinkingEntry(s.worker.todo, s.worker.id))
  }

  function GiveUpStep(s: System): System
    requires s.worker.Delivering?
  {
    var w := s.worker;
    WithPast(s, w.id, GivenUp(PastOf(s, w.id), w.deferred, s.clock)).(worker := UnlinkingEntry(w.todo, w.id))
  }

  function RescheduleStep(s: System): System
    requires s.worker.Delivering?
  {
    var w := s.worker;
    s.(entries := s.entries[w.id := Rescheduled(w.entry, w.deferred, s.clock)], worker := Scanning(w.todo))
  }

  function NotWrittenStep(s: System): System
    requires s.worker.Delivering?
  {
    var w := s.worker;
    WithPast(s, w.id, Cut(PastOf(s, w.id))).(worker := Scanning(w.todo))
  }

  function EndRoundStep(s: System, writeOk: bool): System
    requires s.worker.Delivering?
  {
    if s.worker.deferred == [] then CloseStep(s)
    else if s.worker.entry.attempts >= MAX_ATTEMPTS then GiveUpStep(s)
    else if writeOk then RescheduleStep(s)
    else NotWrittenStep(s)
  }

  function UnlinkEntryStep(s: System, ok: bool): System
    requires s.worker.UnlinkingEntry?
  {
    var (todo, id) := (s.worker.todo, s.worker.id);
    if ok then s.(entries := s.entries - {id}, worker := UnlinkingBody(todo, id))
    else WithPast(s, id, Cut(PastOf(s, id)).(stuck := true)).(worker := UnlinkingBody(todo, id))
  }

  function UnlinkBodyStep(s: System, ok: bool): System
    requires s.worker.UnlinkingBody?
  {
    s.(bodies := if ok then s.bodies - {s.worker.id} else s.bodies, worker := Scanning(s.worker.todo))
  }

  /** The process dies and is started again: what is not in a file is gone. */
  function CrashStep(s: System): System {
    var t := s.(worker := Listing, enqueuer := Away, wake := false, stop := false);
    if s.worker.Delivering? || s.worker.UnlinkingEntry? then
      WithPast(t, s.worker.id, Cut(PastOf(s, s.worker.id)))
    else t
  }

  function Step(key: Parser, s: System, e: Event): System
    requires Enabled(key, s, e)
  {
    match e
    case PutBody(id, from, to, message) => PutBodyStep(s, id, from, to, message)
    case PutEntry(ok) => PutEntryStep(s, ok)
    case CleanBody(ok) => CleanBodyStep(s, ok)
    case Signal => s.(wake := true, enqueuer := Away)
    case TakeWake => s.(wake := false, worker := Listing)
    case Tick => s.(worker := Listing)
    case List(todo) => s.(worker := Scanning(todo), unseen := {}, missed := false)
    case ListFails => s.(worker := Idle, missed := true)
    case Skip => s.(worker := Scanning(s.worker.todo[1..]))
    case Visit(readable) => VisitStep(key, s, readable)
    case Deliver(domain, outcome) => DeliverStep(key, s, domain, outcome)
    case EndRound(writeOk) => EndRoundStep(s, writeOk)
    case UnlinkEntry(ok) => UnlinkEntryStep(s, ok)
    case UnlinkBody(ok) => UnlinkBodyStep(s, ok)
    case EndFlush => s.(worker := Idle)
    case LeaveFlush => s.(worker := Idle)
    case Quit => s.(worker := Stopped)
    case Advance(elapsed) => s.(clock := s.clock + elapsed)
    case Stop => s.(stop := true)
    case Crash => CrashStep(s)
  }

  predicate IsRun(key: Parser, s: System, events: seq<Event>)
    decreases |events|
  {
    events == [] || (Enabled(key, s, events[0]) && IsRun(key, Step(key, s, events[0]), events[1..]))
  }

  function After(key: Parser, s: System, events: seq<Event>): System
    requires IsRun(key, s, events)
    decreases |events|
  {
    if events == [] then s else After(key, Step(key, s, events[0]), events[1..])
  }

  lemma {:induction false} RunSnoc(key: Parser, s: System, trace: seq<Event>, e: Event)
    requires IsRun(key, s, trace) && Enabled(key, After(key, s, trace), e)
    ensures IsRun(key, s, trace + [e])
    ensures After(key, s, trace + [e]) == Step(key, After(key, s, trace), e)
    decreases |trace|
  {
    if trace == [] {
      assert [] + [e] == [e] && [e][1..] == [];
    } else {
      RunSnoc(key, Step(key, s, trace[0]), trace[1..], e);
      assert (trace + [e])[1..] == trace[1..] + [e];
    }
  }
}
