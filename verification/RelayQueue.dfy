/** The queue as its caller and its worker run it, each call from start to end. Every
    method is shown to be a run of the spool's steps, so what holds over all runs holds
    for it. What the outside world answers is supplied. */
module RelayQueue {
  import opened MailDisk
  import opened Relay
  import opened Backoff
  import opened Spool

  /** One message's luck in one flush. */
  datatype Luck = Luck(readable: bool, outcome: string -> Outcome, elapsed: nat, written: bool,
                       entryUnlinks: bool, bodyUnlinks: bool)

  class Queue {
    const key: Parser
    var entries: map<string, Entry>
    var bodies: map<string, Bytes>
    var wake: bool
    var stop: bool
    var clock: int
    ghost var sys: System

    constructor (key: Parser, now: int)
      ensures this.key == key && Valid() && sys == Init(now)
    {
      this.key := key;
      entries, bodies := map[], map[];
      wake, stop, clock := false, false, now;
      sys := Init(now);
    }

    ghost predicate Valid()
      reads this
    {
      sys.entries == entries && sys.bodies == bodies && sys.wake == wake && sys.stop == stop && sys.clock == clock
    }

    ghost predicate Ran(before: System, trace: seq<Event>)
      reads this
    {
      IsRun(key, before, trace) && sys == After(key, before, trace)
    }

    ghost method Take(e: Event, before: System, trace: seq<Event>) returns (more: seq<Event>)
      requires Ran(before, trace) && Enabled(key, sys, e)
      modifies this`sys
      ensures sys == Step(key, old(sys), e) && Ran(before, more)
    {
      RunSnoc(key, before, trace, e);
      sys := Step(key, sys, e);
      more := trace + [e];
    }

    method Signal(ghost before: System, ghost done: seq<Event>) returns (ghost trace: seq<Event>)
      requires Valid() && Ran(before, done) && sys.enqueuer.EntryWritten?
      modifies this`wake, this`sys
      ensures Valid() && Ran(before, trace) && wake
      ensures sys.enqueuer.Away? && sys.worker == old(sys.worker)
    {
      wake := true;
      trace := Take(Event.Signal, before, done);
    }

    method CleanUp(id: string, cleaned: bool, ghost before: System, ghost done: seq<Event>)
      returns (ghost trace: seq<Event>)
      requires Valid() && Ran(before, done) && sys.enqueuer == EntryRefused(id)
      modifies this`bodies, this`sys
      ensures Valid() && Ran(before, trace) && bodies - {id} == old(bodies) - {id}
      ensures sys.enqueuer.Away? && sys.worker == old(sys.worker)
    {
      if cleaned {
        bodies := bodies - {id};
      }
      trace := Take(CleanBody(cleaned), before, done);
    }

    method WriteBody(id: string, from: string, to: seq<string>, message: Bytes) returns (ghost trace: seq<Event>)
      requires Valid() && sys.enqueuer.Away? && id !in sys.past && AllSplit(key, to)
      modifies this`bodies, this`sys
      ensures Valid() && Ran(old(sys), trace) && bodies == old(bodies)[id := message]
      ensures sys.enqueuer == BodyWritten(id, from, to) && sys.worker == old(sys.worker)
    {
      bodies := bodies[id := message];
      trace := Take(PutBody(id, from, to, message), sys, []);
    }

    method WriteEntry(id: string, from: string, to: seq<string>, written: bool,
                      ghost before: System, ghost done: seq<Event>)
      returns (ghost trace: seq<Event>)
      requires Valid() && Ran(before, done) && sys.enqueuer == BodyWritten(id, from, to)
      modifies this`entries, this`sys
      ensures Valid() && Ran(before, trace) && sys.worker == old(sys.worker)
      ensures sys.enqueuer == if written then EntryWritten(id) else EntryRefused(id)
      ensures entries == if written then old(entries)[id := Entry(from, to, 0, clock, clock)] else old(entries)
    {
      if written {
        entries := entries[id := Entry(from, to, 0, clock, clock)];
      }
      trace := Take(PutEntry(written), before, done);
    }

    /** Body first, then the entry: the client is told of success only when both are there. */
    method Enqueue(id: string, from: string, to: seq<string>, message: Bytes, written: bool, cleaned: bool)
      returns (ok: bool, ghost trace: seq<Event>)
      requires Valid() && sys.enqueuer.Away? && id !in sys.past && AllSplit(key, to)
      modifies this
      ensures Valid() && Ran(old(sys), trace) && sys.enqueuer.Away? && sys.worker == old(sys.worker)
      ensures ok == written
      ensures ok ==> entries == old(entries)[id := Entry(from, to, 0, clock, clock)]
                     && bodies == old(bodies)[id := message] && wake
      ensures !ok ==> entries == old(entries) && bodies - {id} == old(bodies) - {id}
    {
      ghost var before := sys;
      trace := WriteBody(id, from, to, message);
      trace := WriteEntry(id, from, to, written, before, trace);
      if !written {
        trace := CleanUp(id, cleaned, before, trace);
        return false, trace;
      }
      trace := Signal(before, trace);
      return true, trace;
    }

    method UnlinkEntryFile(id: string, ghost todo: seq<string>, ok: bool, ghost before: System, ghost done: seq<Event>)
      returns (ghost trace: seq<Event>)
      requires Valid() && Ran(before, done) && sys.worker == UnlinkingEntry(todo, id)
      modifies this`entries, this`sys
      ensures Valid() && Ran(before, trace) && sys.worker == UnlinkingBody(todo, id)
      ensures sys.enqueuer == old(sys.enqueuer)
    {
      if ok {
        entries := entries - {id};
      }
      trace := Take(UnlinkEntry(ok), before, done);
    }

    method UnlinkBodyFile(id: string, ghost todo: seq<string>, ok: bool, ghost before: System, ghost done: seq<Event>)
      returns (ghost trace: seq<Event>)
      requires Valid() && Ran(before, done) && sys.worker == UnlinkingBody(todo, id)
      modifies this`bodies, this`sys
      ensures Valid() && Ran(before, trace) && sys.worker == Scanning(todo)
      ensures sys.enqueuer == old(sys.enqueuer)
    {
      if ok {
        bodies := bodies - {id};
      }
      trace := Take(UnlinkBody(ok), before, done);
    }

    /** Entry first, so that a crash in between leaves no entry without a body. */
    method Remove(id: string, ghost todo: seq<string>, luck: Luck, ghost before: System, ghost done: seq<Event>)
      returns (ghost trace: seq<Event>)
      requires Valid() && Ran(before, done) && sys.worker == UnlinkingEntry(todo, id)
      modifies this
      ensures Valid() && Ran(before, trace) && sys.worker == Scanning(todo)
      ensures sys.enqueuer == old(sys.enqueuer) && stop == old(stop)
    {
      trace := UnlinkEntryFile(id, todo, luck.entryUnlinks, before, done);
      trace := UnlinkBodyFile(id, todo, luck.bodyUnlinks, before, trace);
    }

    /** One delivery to each domain, in an arbitrary order. */
    method DeliverAll(id: string, ghost todo: seq<string>, entry: Entry, ghost message: Bytes, ghost started: int,
                      outcome: string -> Outcome, ghost before: System, ghost done: seq<Event>)
      returns (deferred: seq<string>, ghost trace: seq<Event>)
      requires Valid() && Ran(before, done)
      requires sys.worker == Delivering(todo, id, entry, Domains(key, entry.to), [], message, started)
      modifies this`sys
      ensures Valid() && Ran(before, trace)
      ensures sys.worker == Delivering(todo, id, entry, {}, deferred, message, started)
      ensures sys.enqueuer == old(sys.enqueuer)
    {
      var grouped := GroupByDomain(key, entry.to);
      deferred, trace := [], done;
      var left := grouped.Keys;
      while |left| > 0
        invariant Valid() && Ran(before, trace) && left <= grouped.Keys
        invariant sys.worker == Delivering(todo, id, entry, left, deferred, message, started)
        invariant sys.enqueuer == old(sys.enqueuer)
        decreases |left|
      {
        var d := OneOf(left);
        if outcome(d) == Temporary {
          deferred := deferred + grouped[d];
        }
        trace := Take(Deliver(d, outcome(d)), before, trace);
        left := left - {d};
      }
    }

    method Drop(id: string, ghost todo: seq<string>, luck: Luck, ghost before: System, ghost done: seq<Event>)
      returns (ghost trace: seq<Event>)
      requires Valid() && Ran(before, done) && sys.worker == Scanning([id] + todo) && !stop
      requires id in entries && clock >= entries[id].nextTry
      modifies this
      ensures Valid() && Ran(before, trace) && sys.worker == Scanning(todo)
      ensures sys.enqueuer == old(sys.enqueuer) && stop == old(stop)
    {
      assert ([id] + todo)[1..] == todo;
      trace := Take(Visit(false), before, done);
      trace := Remove(id, todo, luck, before, trace);
    }

    method Attempt(id: string, ghost todo: seq<string>, luck: Luck, ghost before: System, ghost done: seq<Event>)
      returns (ghost trace: seq<Event>)
      requires Valid() && Ran(before, done) && sys.worker == Scanning([id] + todo) && !stop
      requires id in entries && clock >= entries[id].nextTry
      modifies this
      ensures Valid() && Ran(before, trace) && sys.worker == Scanning(todo)
      ensures sys.enqueuer == old(sys.enqueuer) && stop == old(stop)
    {
      if id !in bodies || !luck.readable {
        trace := Drop(id, todo, luck, before, done);
        return;
      }
      var message := bodies[id];
      var entry := entries[id];
      entry := entry.(attempts := entry.attempts + 1);
      assert ([id] + todo)[1..] == todo;
      trace := Take(Visit(true), before, done);
      var deferred;
      deferred, trace := DeliverAll(id, todo, entry, message, clock, luck.outcome, before, trace);
      trace := Wait(luck.elapsed, before, trace);
      trace := Conclude(id, todo, entry, deferred, luck, before, trace);
    }

    method Wait(elapsed: nat, ghost before: System, ghost done: seq<Event>) returns (ghost trace: seq<Event>)
      requires Valid() && Ran(before, done)
      modifies this`clock, this`sys
      ensures Valid() && Ran(before, trace)
      ensures sys.worker == old(sys.worker) && sys.enqueuer == old(sys.enqueuer)
    {
      clock := clock + elapsed;
      trace := Take(Advance(elapsed), before, done);
    }

    /** What becomes of the message after a round. */
    method Conclude(id: string, ghost todo: seq<string>, entry: Entry, deferred: seq<string>, luck: Luck,
                    ghost before: System, ghost done: seq<Event>)
      returns (ghost trace: seq<Event>)
      requires Valid() && Ran(before, done)
      requires sys.worker.Delivering? && sys.worker == sys.worker.(todo := todo, id := id, entry := entry, left := {},
                                                                   deferred := deferred)
      modifies this
      ensures Valid() && Ran(before, trace) && sys.worker == Scanning(todo)
      ensures sys.enqueuer == old(sys.enqueuer) && stop == old(stop)
    {
      if |deferred| == 0 || entry.attempts >= MAX_ATTEMPTS {
        trace := Take(EndRound(true), before, done);
        trace := Remove(id, todo, luck, before, trace);
        return;
      }
      var delay := Delay(entry.attempts);
      if luck.written {
        entries := entries[id := entry.(to := deferred, nextTry := clock + delay as int)];
      }
      trace := Take(EndRound(luck.written), before, done);
    }

    /** An entry that is gone, or whose time has not come. */
    ghost method PassOver(id: string, todo: seq<string>, before: System, done: seq<Event>) returns (trace: seq<Event>)
      requires Valid() && Ran(before, done) && sys.worker == Scanning([id] + todo) && !stop
      requires id in entries ==> clock < entries[id].nextTry
      modifies this`sys
      ensures Valid() && Ran(before, trace) && sys.worker == Scanning(todo) && sys.enqueuer == old(sys.enqueuer)
    {
      assert ([id] + todo)[1..] == todo;
      trace := Take(Visit(false), before, done);
    }

    /** Everything listed whose time has come, unless the queue is told to stop. */
    method Flush(listing: seq<string>, luck: string -> Luck) returns (ghost trace: seq<Event>)
      requires Valid() && sys.worker.Listing? && forall id :: id in entries ==> id in listing
      modifies this
      ensures Valid() && Ran(old(sys), trace) && sys.worker.Idle? && sys.enqueuer == old(sys.enqueuer)
    {
      ghost var before := sys;
      trace := Take(List(listing), before, []);
      for i := 0 to |listing|
        invariant Valid() && Ran(before, trace) && sys.worker == Scanning(listing[i..]) && sys.enqueuer == before.enqueuer
      {
        if stop {
          trace := Take(LeaveFlush, before, trace);
          return;
        }
        assert listing[i..] == [listing[i]] + listing[i + 1..];
        if listing[i] !in entries || clock < entries[listing[i]].nextTry {
          trace := PassOver(listing[i], listing[i + 1..], before, trace);
          continue;
        }
        trace := Attempt(listing[i], listing[i + 1..], luck(listing[i]), before, trace);
      }
      trace := Take(EndFlush, before, trace);
    }
  }
}
