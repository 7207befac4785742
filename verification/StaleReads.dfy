/** What a client with an old snapshot reads, whatever became of its mailbox. */
module StaleReads {
  import opened MailDisk
  import opened Interleavings

  /** The body file an append puts down: its name and its text. */
  function Put(s: System, e: Event): set<(string, Bytes)> {
    if e.StartAppend? then {(FileName(IndexToAppend(s.disk, e.dir, e.now).uidNext), e.body)} else {}
  }

  function PutsOf(s: System, events: seq<Event>): set<(string, Bytes)>
    requires IsRun(s, events)
    decreases |events|
  {
    if events == [] then {} else Put(s, events[0]) + PutsOf(Step(s, events[0]), events[1..])
  }

  ghost predicate Known(disk: Disk, puts: set<(string, Bytes)>) {
    forall k :: k in disk.bodies ==> (k.1, disk.bodies[k]) in puts
  }

  lemma FewerKnown(a: Disk, b: Disk, puts: set<(string, Bytes)>)
    requires Known(a, puts)
    requires forall k :: k in b.bodies ==> k in a.bodies && a.bodies[k] == b.bodies[k]
    ensures Known(b, puts)
  {
  }

  lemma RenamedKnown(disk: Disk, from: string, to: string, puts: set<(string, Bytes)>)
    requires Known(disk, puts)
    ensures Known(MailDisk.Rename(disk, from, to).0, puts)
  {
    if MailDisk.Rename(disk, from, to).1.Ok? {
      MovedBodies(disk, from, to);
      var after := Moved(disk, from, to);
      forall k | k in after.bodies ensures (k.1, after.bodies[k]) in puts {
        if k.0 == to {
          assert (from, k.1) in disk.bodies && after.bodies[(to, k.1)] == disk.bodies[(from, k.1)];
        }
      }
    }
  }

  lemma StepKnown(s: System, e: Event, puts: set<(string, Bytes)>)
    requires Known(s.disk, puts) && Enabled(s, e)
    ensures Known(Step(s, e).disk, puts + Put(s, e))
  {
    match e {
      case Rename(from, to) => RenamedKnown(s.disk, from, to, puts);
      case StartAppend(_, _, _, _, _) =>
      case _ => FewerKnown(s.disk, Step(s, e).disk, puts);
    }
  }

  /** No text is on disk that no append put there, under the file name it has. */
  lemma {:induction false} RunKnown(s: System, events: seq<Event>, puts: set<(string, Bytes)>)
    requires IsRun(s, events) && Known(s.disk, puts)
    ensures Known(After(s, events).disk, puts + PutsOf(s, events))
    decreases |events|
  {
    if events != [] {
      StepKnown(s, events[0], puts);
      RunKnown(Step(s, events[0]), events[1..], puts + Put(s, events[0]));
      assert puts + Put(s, events[0]) + PutsOf(Step(s, events[0]), events[1..]) == puts + PutsOf(s, events);
    }
  }

  /** An append to this mailbox has put down its body and not yet listed it. */
  predicate BeingAppended(s: System, dir: string, uid: uint32) {
    s.job.Appending? && s.job.dir == dir && JobIndex(s.job).uidNext == uid
  }

  ghost predicate Unlisted(s: System, dir: string, uid: uint32) {
    dir in s.disk.indexes ==> forall i :: 0 <= i < |s.disk.indexes[dir].messages| ==> s.disk.indexes[dir].messages[i].uid != uid
  }

  /** Which message a read of this UID finds: the one its pair is bound to while the mailbox
      has a UIDVALIDITY it was bound under, and otherwise one the mailbox does not list. */
  ghost predicate Finds(s: System, dir: string, uid: uint32, body: Bytes) {
    if dir in s.disk.indexes && (s.disk.indexes[dir].uidValidity, uid) in s.bound
    then body == s.bound[(s.disk.indexes[dir].uidValidity, uid)]
    else Unlisted(s, dir, uid)
  }

  /** A read from a snapshot, however old, after any run. While the mailbox has the snapshot's
      UIDVALIDITY it gives the client's own message. Once that differs it gives the message
      the mailbox binds the UID to now, if it binds it; if not, one the mailbox does not
      list - that of the append in progress, if one is at this UID. Whatever it gives, an
      append put it down under this UID. */
  lemma StaleReadIsRight(events: seq<Event>, sid: nat, k: nat)
    requires IsRun(Init, events) && Enabled(After(Init, events), Read(sid, k))
    requires var s := After(Init, events);
             var snapshot := s.sessions[sid].snapshot;
             Body(s.disk, snapshot.dir, snapshot.messages[k]).Some?
    ensures var s := After(Init, events);
            var snapshot := s.sessions[sid].snapshot;
            var dir, uid := snapshot.dir, snapshot.messages[k].uid;
            var body := Body(s.disk, dir, snapshot.messages[k]).value;
            && (snapshot.uidValidity, uid) in s.bound
            && (dir in s.disk.indexes && s.disk.indexes[dir].uidValidity == snapshot.uidValidity ==>
                  body == s.bound[(snapshot.uidValidity, uid)])
            && Finds(s, dir, uid, body)
            && (BeingAppended(s, dir, uid) ==> body == s.job.body)
            && (FileName(uid), body) in PutsOf(Init, events)
  {
    InitInv();
    RunKeeps(Init, events);
    RunKnown(Init, events, {});
    var s := After(Init, events);
    var snapshot := s.sessions[sid].snapshot;
    ReadFinds(s, sid, k);
    assert (snapshot.dir, FileName(snapshot.messages[k].uid)) in s.disk.bodies;
  }

  lemma ReadFinds(s: System, sid: nat, k: nat)
    requires Inv(s) && Enabled(s, Read(sid, k))
    requires Body(s.disk, s.sessions[sid].snapshot.dir, s.sessions[sid].snapshot.messages[k]).Some?
    ensures var snapshot := s.sessions[sid].snapshot;
            var dir, uid := snapshot.dir, snapshot.messages[k].uid;
            var body := Body(s.disk, dir, snapshot.messages[k]).value;
            && (snapshot.uidValidity, uid) in s.bound && snapshot.messages[k].file == FileName(uid)
            && (dir in s.disk.indexes && s.disk.indexes[dir].uidValidity == snapshot.uidValidity ==>
                  body == s.bound[(snapshot.uidValidity, uid)])
            && Finds(s, dir, uid, body)
            && (BeingAppended(s, dir, uid) ==> body == s.job.body)
  {
    BodyIsBound(s, sid, k);
    var snapshot := s.sessions[sid].snapshot;
    assert SessionInv(s.sessions[sid], s.disk, s.bound);
    assert MessageOk(snapshot.messages[k]);
    if snapshot.dir in s.disk.indexes {
      assert IndexInv(snapshot.dir, s.disk.indexes[snapshot.dir], s.disk.bodies, s.bound, s.stamps);
    }
  }
}
