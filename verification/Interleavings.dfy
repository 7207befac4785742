/** Clients and deliveries acting on one account at the same time.

    Store calls hold the lock, but they work file by file, reading a body takes no
    lock at all, and a session keeps the snapshot it opened with. The steps below are
    those file operations and session commands in any order, with calls that fail half
    way and crashes of the whole process. */
module Interleavings {
  import opened Flags
  import opened MailDisk

  /** The store call in progress, and the disk it found when it took the lock. */
  datatype Job =
    | Free
    | Appending(dir: string, before: Disk, flags: seq<string>, date: Date, body: Bytes, now: int)
    | Removing(dir: string, before: Disk, doomed: set<uint32>, now: int, done: nat)
    | Deleting(dir: string, before: Disk)

  /** A client with a snapshot: a POP3 session from PASS on (over INBOX), or an IMAP
      fetch or copy over any mailbox. `marked` holds the UIDs DELE has marked. */
  datatype Session = Session(snapshot: Snapshot, marked: set<uint32>)

  /** One body handed to a client, with the identity the client knows it by. `current`
      says whether the mailbox still had the snapshot's UIDVALIDITY at that moment. */
  datatype Seen = Seen(dir: string, uidValidity: uint32, uid: uint32, current: bool, body: Bytes)

  type Id = (uint32, uint32)

  /** `bound` records the body each (UIDVALIDITY, UID) was first given; `stamps` the
      UIDVALIDITY values ever written. Neither is consulted by any step. */
  datatype System = System(disk: Disk, job: Job, sessions: map<nat, Session>, log: seq<Seen>,
                           bound: map<Id, Bytes>, stamps: set<uint32>)

  const Init := System(Disk(map[], map[]), Free, map[], [], map[], {})

  datatype Event =
    | Open(sid: nat, dir: string, now: int)
    | Read(sid: nat, k: nat)
    | Mark(sid: nat, k: nat)
    | Unmark(sid: nat)
    | Close(sid: nat)
    | Quit(sid: nat, now: int)
    | StartAppend(dir: string, flags: seq<string>, date: Date, body: Bytes, now: int)
    | StartRemove(dir: string, uids: set<uint32>, now: int)
    | StartDelete(dir: string)
    | Unlink(file: string)
    | UnlinkIndex
    | Proceed
    | SetFlags(dir: string, uids: set<uint32>, flags: seq<string>, op: FlagOp, now: int)
    | SetSubscribed(dir: string, subscribed: bool, now: int)
    | Create(dir: string, now: int)
    | Rename(from: string, to: string)
    | Abandon
    | Crash

  /** The clock gives a new mailbox a nonzero stamp no mailbox of the account had before. */
  predicate FreshIfNew(s: System, dir: string, now: int) {
    dir !in s.disk.indexes ==> Stamp(now) != 0 && Stamp(now) !in s.stamps
  }

  /** A call that only opens existing mailboxes may still have to write INBOX first. */
  predicate FreshIfInbox(s: System, dir: string, now: int) {
    dir == INBOX_DIR ==> FreshIfNew(s, dir, now)
  }

  predicate Enabled(s: System, e: Event) {
    match e
    case Open(sid, dir, now) => OwnDirectory(dir) && s.job.Free? && sid !in s.sessions && TakeSnapshot(s.disk, dir, now).Ok?
    case Read(sid, k) => sid in s.sessions && k < |s.sessions[sid].snapshot.messages|
    case Mark(sid, k) => sid in s.sessions && k < |s.sessions[sid].snapshot.messages|
    case Unmark(sid) => sid in s.sessions
    case Close(sid) => sid in s.sessions
    case Quit(sid, now) =>
      s.job.Free? && sid in s.sessions && FreshIfInbox(s, s.sessions[sid].snapshot.dir, now)
    case StartAppend(dir, _, _, _, now) =>
      OwnDirectory(dir) && s.job.Free? && FreshIfNew(s, dir, now) && IndexToAppend(s.disk, dir, now).uidNext < UINT32_MAX
    case StartRemove(dir, _, now) =>
      OwnDirectory(dir) && s.job.Free? && FreshIfInbox(s, dir, now) && ReadIndex(s.disk, dir, now).Ok?
    case StartDelete(dir) => OwnDirectory(dir) && s.job.Free? && dir != INBOX_DIR && dir in s.disk.indexes
    case Unlink(_) => s.job.Deleting?
    case UnlinkIndex => s.job.Deleting?
    case Proceed =>
      !s.job.Free? &&
      (s.job.Deleting? ==> s.job.dir !in s.disk.indexes && !HoldsFiles(s.disk, s.job.dir))
    case SetFlags(dir, _, _, _, now) => OwnDirectory(dir) && s.job.Free? && FreshIfInbox(s, dir, now)
    case SetSubscribed(dir, _, now) => OwnDirectory(dir) && s.job.Free? && FreshIfInbox(s, dir, now)
    case Create(dir, now) => OwnDirectory(dir) && s.job.Free? && FreshIfNew(s, dir, now)
    case Rename(from, to) => OwnDirectory(from) && OwnDirectory(to) && s.job.Free?
    case Abandon => !s.job.Free?
    case Crash => true
  }

  /** The index a job loaded when it took the lock. */
  function JobIndex(job: Job): Index
    requires job.Appending? || job.Removing?
  {
    IndexToAppend(job.before, job.dir, job.now)
  }

  function StampsOf(disk: Disk): set<uint32> {
    set d | d in disk.indexes :: disk.indexes[d].uidValidity
  }

  function WithDisk(s: System, disk: Disk): System {
    s.(disk := disk, stamps := s.stamps + StampsOf(disk))
  }

  function BeginRemove(s: System, dir: string, doomed: set<uint32>, now: int): System {
    s.(job := Removing(dir, s.disk, doomed, now, 0))
  }

  function ProceedStep(s: System): System
    requires Enabled(s, Proceed)
  {
    match s.job
    case Appending(dir, before, flags, date, body, now) =>
      var ix := JobIndex(s.job);
      WithDisk(s, WriteIndex(s.disk, dir, Appended(ix, flags, date, body, now)))
        .(job := Free, bound := s.bound[(ix.uidValidity, ix.uidNext) := body])
    case Removing(dir, before, doomed, now, done) =>
      var ix := JobIndex(s.job);
      if done < |ix.messages| then
        var m := ix.messages[done];
        s.(job := s.job.(done := done + 1),
           disk := if m.uid in doomed then s.disk.(bodies := s.disk.bodies - {(dir, m.file)}) else s.disk)
      else
        WithDisk(s, WriteIndex(s.disk, dir, ix.(messages := Kept(ix.messages, doomed)))).(job := Free)
    case Deleting(_, _) => s.(job := Free)
  }

  function Step(s: System, e: Event): System
    requires Enabled(s, e)
  {
    match e
    case Open(sid, dir, now) =>
      s.(sessions := s.sessions[sid := Session(TakeSnapshot(s.disk, dir, now).value, {})])
    case Read(sid, k) =>
      var snapshot := s.sessions[sid].snapshot;
      var m := snapshot.messages[k];
      var body := Body(s.disk, snapshot.dir, m);
      if body.None? then s
      else
        var current := snapshot.dir in s.disk.indexes
                       && s.disk.indexes[snapshot.dir].uidValidity == snapshot.uidValidity;
        s.(log := s.log + [Seen(snapshot.dir, snapshot.uidValidity, m.uid, current, body.value)])
    case Mark(sid, k) =>
      var session := s.sessions[sid];
      s.(sessions := s.sessions[sid := session.(marked := session.marked + {session.snapshot.messages[k].uid})])
    case Unmark(sid) => s.(sessions := s.sessions[sid := s.sessions[sid].(marked := {})])
    case Close(sid) => s.(sessions := s.sessions - {sid})
    case Quit(sid, now) =>
      var session := s.sessions[sid];
      var ended := s.(sessions := s.sessions - {sid});
      if session.marked == {} || ReadIndex(s.disk, session.snapshot.dir, now).Err? then ended
      else BeginRemove(ended, session.snapshot.dir, session.marked, now)
    case StartAppend(dir, flags, date, body, now) =>
      var ix := IndexToAppend(s.disk, dir, now);
      s.(job := Appending(dir, s.disk, flags, date, body, now),
         disk := PutBody(s.disk, dir, ix.uidNext, body))
    case StartRemove(dir, uids, now) => BeginRemove(s, dir, uids, now)
    case StartDelete(dir) => s.(job := Deleting(dir, s.disk))
    case Unlink(file) => s.(disk := s.disk.(bodies := s.disk.bodies - {(s.job.dir, file)}))
    case UnlinkIndex => s.(disk := s.disk.(indexes := s.disk.indexes - {s.job.dir}))
    case Proceed => ProceedStep(s)
    case SetFlags(dir, uids, flags, op, now) =>
      WithDisk(s, MailDisk.SetFlags(s.disk, dir, uids, flags, op, now).0)
    case SetSubscribed(dir, subscribed, now) =>
      WithDisk(s, MailDisk.SetSubscribed(s.disk, dir, subscribed, now).0)
    case Create(dir, now) => WithDisk(s, MailDisk.Create(s.disk, dir, now).0)
    case Rename(from, to) => WithDisk(s, MailDisk.Rename(s.disk, from, to).0)
    case Abandon => s.(job := Free)
    case Crash => s.(job := Free, sessions := map[])
  }

  // ---- the invariant

  /** A mailbox gives each of its UIDs the body that UID was bound to, or none. */
  ghost predicate IndexInv(dir: string, ix: Index, bodies: map<(string, string), Bytes>,
                           bound: map<Id, Bytes>, stamps: set<uint32>)
  {
    && IndexOk(ix) && ix.uidValidity in stamps
    && (forall i :: 0 <= i < |ix.messages| ==> (ix.uidValidity, ix.messages[i].uid) in bound)
    && BodiesBound(dir, ix, bodies, bound)
  }

  ghost predicate BodiesBound(dir: string, ix: Index, bodies: map<(string, string), Bytes>, bound: map<Id, Bytes>) {
    && (forall u: uint32 :: (ix.uidValidity, u) in bound ==> u < ix.uidNext)
    && (forall u: uint32 :: (ix.uidValidity, u) in bound && (dir, FileName(u)) in bodies ==>
          bodies[(dir, FileName(u))] == bound[(ix.uidValidity, u)])
  }

  ghost predicate DistinctStamps(indexes: map<string, Index>) {
    forall d, e :: d in indexes && e in indexes && d != e ==> indexes[d].uidValidity != indexes[e].uidValidity
  }

  ghost predicate DiskInv(disk: Disk, bound: map<Id, Bytes>, stamps: set<uint32>) {
    && (forall d :: d in disk.indexes ==> IndexInv(d, disk.indexes[d], disk.bodies, bound, stamps))
    && DistinctStamps(disk.indexes)
    && (forall id :: id in bound ==> id.0 in stamps && id.1 >= 1)
  }

  /** What holds while a call has the lock: where it has got to from the disk it found. */
  ghost predicate JobInv(s: System) {
    match s.job
    case Free => true
    case Appending(dir, before, flags, date, body, now) =>
      && FreshIfNew(s, dir, now) && JobIndex(s.job).uidNext < UINT32_MAX
      && s.disk == PutBody(before, dir, JobIndex(s.job).uidNext, body)
    case Removing(dir, before, doomed, now, done) =>
      && FreshIfNew(s, dir, now) && ReadIndex(before, dir, now).Ok?
      && done <= |JobIndex(s.job).messages|
      && s.disk == RemovedUpTo(before, dir, JobIndex(s.job).messages, doomed, done)
    case Deleting(dir, before) =>
      dir != INBOX_DIR && OwnDirectory(dir) && Erased(s.disk, dir) == Erased(before, dir)
  }

  ghost predicate SessionInv(session: Session, disk: Disk, bound: map<Id, Bytes>) {
    var snapshot := session.snapshot;
    && (forall i :: 0 <= i < |snapshot.messages| ==>
          && MessageOk(snapshot.messages[i])
          && (snapshot.uidValidity, snapshot.messages[i].uid) in bound
          && snapshot.messages[i].uid < snapshot.uidNext)
    && (forall u :: u in session.marked ==> exists i :: 0 <= i < |snapshot.messages| && snapshot.messages[i].uid == u)
    && (snapshot.dir == INBOX_DIR && snapshot.messages != [] ==>
          && INBOX_DIR in disk.indexes
          && disk.indexes[INBOX_DIR].uidValidity == snapshot.uidValidity
          && snapshot.uidNext <= disk.indexes[INBOX_DIR].uidNext)
  }

  ghost predicate SessionsInv(s: System) {
    forall sid :: sid in s.sessions ==> SessionInv(s.sessions[sid], s.disk, s.bound)
  }

  ghost predicate SeenInv(seen: Seen, bound: map<Id, Bytes>) {
    (seen.dir == INBOX_DIR || seen.current) ==>
      (seen.uidValidity, seen.uid) in bound && bound[(seen.uidValidity, seen.uid)] == seen.body
  }

  ghost predicate LogInv(s: System) {
    forall i :: 0 <= i < |s.log| ==> SeenInv(s.log[i], s.bound)
  }

  ghost predicate Inv(s: System) {
    DiskInv(s.disk, s.bound, s.stamps) && JobInv(s) && SessionsInv(s) && LogInv(s)
  }

  // ---- what the invariant needs from each change to the disk

  lemma MoreStamps(disk: Disk, bound: map<Id, Bytes>, stamps: set<uint32>, more: set<uint32>)
    requires DiskInv(disk, bound, stamps) && stamps <= more
    ensures DiskInv(disk, bound, more)
  {
    forall d | d in disk.indexes ensures IndexInv(d, disk.indexes[d], disk.bodies, bound, more) {
      assert IndexInv(d, disk.indexes[d], disk.bodies, bound, stamps);
    }
  }

  lemma RewriteIndex(disk: Disk, bound: map<Id, Bytes>, stamps: set<uint32>, dir: string, ix: Index)
    requires DiskInv(disk, bound, stamps) && dir in disk.indexes && IndexOk(ix)
    requires ix.uidValidity == disk.indexes[dir].uidValidity && ix.uidNext == disk.indexes[dir].uidNext
    requires forall i :: 0 <= i < |ix.messages| ==> (ix.uidValidity, ix.messages[i].uid) in bound
    ensures DiskInv(WriteIndex(disk, dir, ix), bound, stamps)
  {
    var after := WriteIndex(disk, dir, ix);
    forall d | d in after.indexes ensures IndexInv(d, after.indexes[d], after.bodies, bound, stamps) {
      assert IndexInv(d, disk.indexes[d], disk.bodies, bound, stamps);
    }
  }

  lemma AddIndex(disk: Disk, bound: map<Id, Bytes>, stamps: set<uint32>, dir: string, ix: Index)
    requires DiskInv(disk, bound, stamps) && dir !in disk.indexes
    requires IndexOk(ix) && ix.messages == [] && ix.uidValidity !in stamps
    ensures DiskInv(WriteIndex(disk, dir, ix), bound, stamps + {ix.uidValidity})
  {
    var after := WriteIndex(disk, dir, ix);
    var more := stamps + {ix.uidValidity};
    forall d | d in after.indexes ensures IndexInv(d, after.indexes[d], after.bodies, bound, more) {
      if d != dir {
        assert IndexInv(d, disk.indexes[d], disk.bodies, bound, stamps);
      }
    }
    forall d | d in disk.indexes ensures disk.indexes[d].uidValidity != ix.uidValidity {
      assert IndexInv(d, disk.indexes[d], disk.bodies, bound, stamps);
    }
  }

  lemma FewerBodies(disk: Disk, after: Disk, bound: map<Id, Bytes>, stamps: set<uint32>)
    requires DiskInv(disk, bound, stamps)
    requires after.indexes == disk.indexes
    requires forall k :: k in after.bodies ==> k in disk.bodies && after.bodies[k] == disk.bodies[k]
    ensures DiskInv(after, bound, stamps)
  {
    forall d | d in after.indexes ensures IndexInv(d, after.indexes[d], after.bodies, bound, stamps) {
      assert IndexInv(d, disk.indexes[d], disk.bodies, bound, stamps);
    }
  }

  lemma FewerIndexes(disk: Disk, after: Disk, bound: map<Id, Bytes>, stamps: set<uint32>)
    requires DiskInv(disk, bound, stamps)
    requires after.bodies == disk.bodies
    requires forall d :: d in after.indexes ==> d in disk.indexes && after.indexes[d] == disk.indexes[d]
    ensures DiskInv(after, bound, stamps)
  {
    forall d | d in after.indexes ensures IndexInv(d, after.indexes[d], after.bodies, bound, stamps) {
      assert IndexInv(d, disk.indexes[d], disk.bodies, bound, stamps);
    }
  }

  /** The file of the next UID belongs to no bound UID, so writing it disturbs none. */
  lemma PutNextBody(disk: Disk, bound: map<Id, Bytes>, stamps: set<uint32>, dir: string, uid: uint32, body: Bytes)
    requires DiskInv(disk, bound, stamps)
    requires dir in disk.indexes ==> uid == disk.indexes[dir].uidNext
    ensures DiskInv(PutBody(disk, dir, uid, body), bound, stamps)
  {
    var after := PutBody(disk, dir, uid, body);
    forall d | d in after.indexes ensures IndexInv(d, after.indexes[d], after.bodies, bound, stamps) {
      var ix := disk.indexes[d];
      assert IndexInv(d, ix, disk.bodies, bound, stamps);
      forall u: uint32 | (ix.uidValidity, u) in bound && (d, FileName(u)) in after.bodies
        ensures after.bodies[(d, FileName(u))] == bound[(ix.uidValidity, u)]
      {
        PutBodyFrame(disk, dir, uid, body, (d, u));
      }
    }
  }

  /** The disk once the new message is listed. */
  function Committed(disk: Disk, dir: string, ix: Index, added: Message): Disk
    requires ix.uidNext < UINT32_MAX
  {
    WriteIndex(disk, dir, ix.(uidNext := ix.uidNext + 1, messages := ix.messages + [added]))
  }

  /** Listing the new message binds its UID, which was not bound before. */
  lemma CommitOnto(disk: Disk, bound: map<Id, Bytes>, stamps: set<uint32>, dir: string, ix: Index, added: Message, body: Bytes)
    requires DiskInv(disk, bound, stamps) && ix.uidNext < UINT32_MAX
    requires dir in disk.indexes && ix == disk.indexes[dir]
    requires MessageOk(added) && added.uid == ix.uidNext
    requires (dir, FileName(ix.uidNext)) in disk.bodies && disk.bodies[(dir, FileName(ix.uidNext))] == body
    ensures (ix.uidValidity, ix.uidNext) !in bound
    ensures DiskInv(Committed(disk, dir, ix, added), bound[(ix.uidValidity, ix.uidNext) := body], stamps)
  {
    var bound' := bound[(ix.uidValidity, ix.uidNext) := body];
    assert IndexInv(dir, ix, disk.bodies, bound, stamps);
    var after := Committed(disk, dir, ix, added);
    StampsStayDistinct(disk.indexes, dir, after.indexes[dir]);
    forall d | d in after.indexes ensures IndexInv(d, after.indexes[d], after.bodies, bound', stamps) {
      if d != dir {
        assert IndexInv(d, disk.indexes[d], disk.bodies, bound, stamps);
        OtherIndexAfterCommit(d, disk.indexes[d], disk.bodies, bound, stamps, (ix.uidValidity, ix.uidNext), body);
      } else {
        OwnIndexAfterCommit(dir, ix, disk.bodies, bound, stamps, added, body);
      }
    }
  }

  lemma StampsStayDistinct(indexes: map<string, Index>, dir: string, ix: Index)
    requires DistinctStamps(indexes) && dir in indexes && ix.uidValidity == indexes[dir].uidValidity
    ensures DistinctStamps(indexes[dir := ix])
  {
  }

  lemma StampsStayDistinctMoved(indexes: map<string, Index>, from: string, to: string)
    requires DistinctStamps(indexes) && from in indexes && to !in indexes
    ensures DistinctStamps((indexes - {from})[to := indexes[from]])
  {
  }

  lemma OtherIndexAfterCommit(dir: string, ix: Index, bodies: map<(string, string), Bytes>, bound: map<Id, Bytes>,
                              stamps: set<uint32>, id: Id, body: Bytes)
    requires IndexInv(dir, ix, bodies, bound, stamps) && id.0 != ix.uidValidity
    ensures IndexInv(dir, ix, bodies, bound[id := body], stamps)
  {
    OtherStampUnaffected(dir, ix, bodies, bound, id, body);
  }

  lemma OwnIndexAfterCommit(dir: string, ix: Index, bodies: map<(string, string), Bytes>, bound: map<Id, Bytes>,
                            stamps: set<uint32>, added: Message, body: Bytes)
    requires IndexInv(dir, ix, bodies, bound, stamps) && ix.uidNext < UINT32_MAX
    requires MessageOk(added) && added.uid == ix.uidNext
    requires (dir, FileName(ix.uidNext)) in bodies && bodies[(dir, FileName(ix.uidNext))] == body
    ensures IndexInv(dir, ix.(uidNext := ix.uidNext + 1, messages := ix.messages + [added]), bodies,
                     bound[(ix.uidValidity, ix.uidNext) := body], stamps)
  {
    AddedOk(ix, added);
    AddedBodiesBound(dir, ix, bodies, bound, body);
  }

  /** The same for a mailbox the append creates. */
  lemma CommitNew(disk: Disk, bound: map<Id, Bytes>, stamps: set<uint32>, dir: string, ix: Index, added: Message, body: Bytes)
    requires DiskInv(disk, bound, stamps) && ix.uidNext < UINT32_MAX
    requires dir !in disk.indexes && IndexOk(ix) && ix.messages == [] && ix.uidValidity !in stamps
    requires MessageOk(added) && added.uid == ix.uidNext
    requires (dir, FileName(ix.uidNext)) in disk.bodies && disk.bodies[(dir, FileName(ix.uidNext))] == body
    ensures (ix.uidValidity, ix.uidNext) !in bound
    ensures DiskInv(Committed(disk, dir, ix, added), bound[(ix.uidValidity, ix.uidNext) := body], stamps + {ix.uidValidity})
  {
    var base := WriteIndex(disk, dir, ix);
    CommitOnto(base, bound, stamps + {ix.uidValidity}, dir, ix, added, body) by {
      AddIndex(disk, bound, stamps, dir, ix);
    }
    assert Committed(base, dir, ix, added) == Committed(disk, dir, ix, added);
  }

  lemma OtherStampUnaffected(dir: string, ix: Index, bodies: map<(string, string), Bytes>, bound: map<Id, Bytes>, id: Id, body: Bytes)
    requires BodiesBound(dir, ix, bodies, bound) && id.0 != ix.uidValidity
    ensures BodiesBound(dir, ix, bodies, bound[id := body])
  {
  }

  lemma AddedBodiesBound(dir: string, ix: Index, bodies: map<(string, string), Bytes>, bound: map<Id, Bytes>, body: Bytes)
    requires BodiesBound(dir, ix, bodies, bound) && ix.uidNext < UINT32_MAX
    requires (dir, FileName(ix.uidNext)) in bodies && bodies[(dir, FileName(ix.uidNext))] == body
    ensures BodiesBound(dir, ix.(uidNext := ix.uidNext + 1), bodies, bound[(ix.uidValidity, ix.uidNext) := body])
  {
  }

  lemma MoveIndex(disk: Disk, bound: map<Id, Bytes>, stamps: set<uint32>, from: string, to: string)
    requires DiskInv(disk, bound, stamps)
    requires from in disk.indexes && to !in disk.indexes && !HoldsFiles(disk, to)
    ensures DiskInv(Moved(disk, from, to), bound, stamps)
  {
    var after := Moved(disk, from, to);
    StampsStayDistinctMoved(disk.indexes, from, to);
    forall d | d in after.indexes ensures IndexInv(d, after.indexes[d], after.bodies, bound, stamps) {
      if d == to {
        assert IndexInv(from, disk.indexes[from], disk.bodies, bound, stamps);
        MovedBodiesBound(disk, from, to, bound);
      } else {
        assert IndexInv(d, disk.indexes[d], disk.bodies, bound, stamps);
        UnmovedBodiesBound(disk, from, to, d, bound);
      }
    }
  }

  lemma UnmovedBodiesBound(disk: Disk, from: string, to: string, dir: string, bound: map<Id, Bytes>)
    requires from in disk.indexes && from != to && !HoldsFiles(disk, to) && dir != from && dir != to
    requires dir in disk.indexes && BodiesBound(dir, disk.indexes[dir], disk.bodies, bound)
    ensures BodiesBound(dir, disk.indexes[dir], Moved(disk, from, to).bodies, bound)
  {
    MovedBodies(disk, from, to);
  }

  lemma MovedBodiesBound(disk: Disk, from: string, to: string, bound: map<Id, Bytes>)
    requires from in disk.indexes && from != to && !HoldsFiles(disk, to)
    requires BodiesBound(from, disk.indexes[from], disk.bodies, bound)
    ensures BodiesBound(to, disk.indexes[from], Moved(disk, from, to).bodies, bound)
  {
    MovedBodies(disk, from, to);
  }

  // ---- every step keeps the invariant

  ghost predicate Extends(bound: map<Id, Bytes>, more: map<Id, Bytes>) {
    forall id :: id in bound ==> id in more && more[id] == bound[id]
  }

  /** INBOX is never deleted, renamed or restamped, and its UIDNext never falls. */
  ghost predicate InboxGrows(a: Disk, b: Disk) {
    INBOX_DIR in a.indexes ==>
      && INBOX_DIR in b.indexes
      && b.indexes[INBOX_DIR].uidValidity == a.indexes[INBOX_DIR].uidValidity
      && b.indexes[INBOX_DIR].uidNext >= a.indexes[INBOX_DIR].uidNext
  }

  lemma SessionCarries(session: Session, disk: Disk, bound: map<Id, Bytes>, disk': Disk, bound': map<Id, Bytes>)
    requires SessionInv(session, disk, bound) && Extends(bound, bound') && InboxGrows(disk, disk')
    ensures SessionInv(session, disk', bound')
  {
  }

  /** A step that leaves sessions and log alone only has to keep disk and job in order. */
  lemma Carry(s: System, s': System)
    requires SessionsInv(s) && LogInv(s)
    requires s'.sessions == s.sessions && s'.log == s.log
    requires Extends(s.bound, s'.bound) && InboxGrows(s.disk, s'.disk)
    ensures SessionsInv(s') && LogInv(s')
  {
    forall sid | sid in s'.sessions ensures SessionInv(s'.sessions[sid], s'.disk, s'.bound) {
      SessionCarries(s.sessions[sid], s.disk, s.bound, s'.disk, s'.bound);
    }
    forall i | 0 <= i < |s'.log| ensures SeenInv(s'.log[i], s'.bound) {
      assert SeenInv(s.log[i], s.bound);
    }
  }

  lemma OpenKeeps(s: System, sid: nat, dir: string, now: int)
    requires Inv(s) && Enabled(s, Open(sid, dir, now))
    ensures Inv(Step(s, Open(sid, dir, now)))
  {
    var s' := Step(s, Open(sid, dir, now));
    var snapshot := TakeSnapshot(s.disk, dir, now).value;
    if dir in s.disk.indexes {
      assert IndexInv(dir, s.disk.indexes[dir], s.disk.bodies, s.bound, s.stamps);
      LoadedOk(s.disk.indexes[dir], now);
    }
    assert SessionInv(Session(snapshot, {}), s.disk, s.bound);
    forall i | sid in s'.sessions && i in s'.sessions ensures SessionInv(s'.sessions[i], s'.disk, s'.bound) {
      if i != sid {
        assert SessionInv(s.sessions[i], s.disk, s.bound);
      }
    }
  }

  /** A body read at any moment is the one the UID is bound to, as long as the mailbox
      has not been replaced; INBOX never is. */
  lemma BodyIsBound(s: System, sid: nat, k: nat)
    requires DiskInv(s.disk, s.bound, s.stamps) && SessionsInv(s) && Enabled(s, Read(sid, k))
    ensures var snapshot := s.sessions[sid].snapshot;
            var m := snapshot.messages[k];
            (snapshot.uidValidity, m.uid) in s.bound
            && (snapshot.dir == INBOX_DIR
                || (snapshot.dir in s.disk.indexes && s.disk.indexes[snapshot.dir].uidValidity == snapshot.uidValidity)
                ==> Body(s.disk, snapshot.dir, m).None?
                    || Body(s.disk, snapshot.dir, m).value == s.bound[(snapshot.uidValidity, m.uid)])
  {
    var snapshot := s.sessions[sid].snapshot;
    assert SessionInv(s.sessions[sid], s.disk, s.bound);
    assert MessageOk(snapshot.messages[k]);
    if snapshot.dir in s.disk.indexes {
      assert IndexInv(snapshot.dir, s.disk.indexes[snapshot.dir], s.disk.bodies, s.bound, s.stamps);
    }
  }

  lemma ReadKeeps(s: System, sid: nat, k: nat)
    requires Inv(s) && Enabled(s, Read(sid, k))
    ensures Inv(Step(s, Read(sid, k)))
  {
    BodyIsBound(s, sid, k);
    var s' := Step(s, Read(sid, k));
    forall i | 0 <= i < |s'.log| ensures SeenInv(s'.log[i], s'.bound) {
      if i < |s.log| {
        assert SeenInv(s.log[i], s.bound);
      }
    }
  }

  lemma SessionEventKeeps(s: System, e: Event)
    requires Inv(s) && Enabled(s, e) && (e.Mark? || e.Unmark? || e.Close?)
    ensures Inv(Step(s, e)) && Step(s, e).disk == s.disk && Step(s, e).bound == s.bound
  {
    var s' := Step(s, e);
    assert SessionInv(s.sessions[e.sid], s.disk, s.bound);
    forall i | i in s'.sessions ensures SessionInv(s'.sessions[i], s'.disk, s'.bound) {
      assert SessionInv(s.sessions[i], s.disk, s.bound);
    }
  }

  lemma BeginRemoveKeeps(s: System, dir: string, doomed: set<uint32>, now: int)
    requires Inv(s) && s.job.Free? && FreshIfInbox(s, dir, now) && ReadIndex(s.disk, dir, now).Ok?
    ensures Inv(BeginRemove(s, dir, doomed, now))
  {
    var ix := IndexToAppend(s.disk, dir, now);
    assert ix.messages[..0] == [];
    assert DoomedFiles(dir, [], doomed) == {};
    assert s.disk.bodies - {} == s.disk.bodies;
  }

  lemma QuitKeeps(s: System, sid: nat, now: int)
    requires Inv(s) && Enabled(s, Quit(sid, now))
    ensures Inv(Step(s, Quit(sid, now)))
  {
    var session := s.sessions[sid];
    var ended := s.(sessions := s.sessions - {sid});
    assert Inv(ended);
    if session.marked != {} && ReadIndex(s.disk, session.snapshot.dir, now).Ok? {
      BeginRemoveKeeps(ended, session.snapshot.dir, session.marked, now);
    }
  }

  lemma StartAppendKeeps(s: System, e: Event)
    requires Inv(s) && e.StartAppend? && Enabled(s, e)
    ensures Inv(Step(s, e))
  {
    var ix := IndexToAppend(s.disk, e.dir, e.now);
    if e.dir in s.disk.indexes {
      assert IndexInv(e.dir, s.disk.indexes[e.dir], s.disk.bodies, s.bound, s.stamps);
    }
    PutNextBody(s.disk, s.bound, s.stamps, e.dir, ix.uidNext, e.body);
    Carry(s, Step(s, e));
  }

  lemma DeletingKeeps(s: System, e: Event)
    requires Inv(s) && Enabled(s, e) && (e.Unlink? || e.UnlinkIndex?)
    ensures Inv(Step(s, e))
  {
    var s' := Step(s, e);
    if e.Unlink? {
      FewerBodies(s.disk, s'.disk, s.bound, s.stamps);
    } else {
      FewerIndexes(s.disk, s'.disk, s.bound, s.stamps);
    }
    ErasedSame(s.disk, s'.disk, s.job.dir);
    Carry(s, s');
  }

  lemma ErasedSame(a: Disk, b: Disk, dir: string)
    requires forall d :: d != dir ==> (d in a.indexes <==> d in b.indexes)
    requires forall d :: d != dir && d in a.indexes ==> a.indexes[d] == b.indexes[d]
    requires SameFilesOutside(a, b, dir)
    ensures Erased(a, dir) == Erased(b, dir)
  {
    assert Erased(a, dir).indexes == Erased(b, dir).indexes;
    assert Erased(a, dir).bodies == Erased(b, dir).bodies;
  }

  /** The job's index is the one on disk, or a brand-new one with an unused stamp. */
  lemma JobIndexMeaning(s: System)
    requires DiskInv(s.disk, s.bound, s.stamps) && JobInv(s) && (s.job.Appending? || s.job.Removing?)
    ensures var ix := JobIndex(s.job);
            && IndexOk(ix)
            && if s.job.dir in s.disk.indexes then ix == s.disk.indexes[s.job.dir]
               else ix.messages == [] && ix.uidNext == 1 && ix.uidValidity !in s.stamps
  {
    if s.job.dir in s.disk.indexes {
      assert IndexInv(s.job.dir, s.disk.indexes[s.job.dir], s.disk.bodies, s.bound, s.stamps);
    }
  }

  lemma FinishAppendKeeps(s: System)
    requires Inv(s) && s.job.Appending?
    ensures Inv(Step(s, Proceed)) && Extends(s.bound, Step(s, Proceed).bound)
  {
    JobIndexMeaning(s);
    var ix, dir := JobIndex(s.job), s.job.dir;
    var added := NewMessage(ix.uidNext, s.job.flags, s.job.date, s.job.body, s.job.now);
    NewMessageOk(ix.uidNext, s.job.flags, s.job.date, s.job.body, s.job.now);
    CommitAny(s.disk, s.bound, s.stamps, dir, ix, added, s.job.body);
    FinishedAppend(s, ix, added);
    Carry(s, Step(s, Proceed));
  }

  lemma CommitAny(disk: Disk, bound: map<Id, Bytes>, stamps: set<uint32>, dir: string, ix: Index, added: Message, body: Bytes)
    requires DiskInv(disk, bound, stamps) && IndexOk(ix) && ix.uidNext < UINT32_MAX
    requires if dir in disk.indexes then ix == disk.indexes[dir]
             else ix.messages == [] && ix.uidNext == 1 && ix.uidValidity !in stamps
    requires MessageOk(added) && added.uid == ix.uidNext
    requires (dir, FileName(ix.uidNext)) in disk.bodies && disk.bodies[(dir, FileName(ix.uidNext))] == body
    ensures var after, bound' := Committed(disk, dir, ix, added), bound[(ix.uidValidity, ix.uidNext) := body];
            DiskInv(after, bound', stamps + StampsOf(after)) && Extends(bound, bound') && InboxGrows(disk, after)
  {
    var after := Committed(disk, dir, ix, added);
    var bound' := bound[(ix.uidValidity, ix.uidNext) := body];
    if dir in disk.indexes {
      CommitOnto(disk, bound, stamps, dir, ix, added, body);
      MoreStamps(after, bound', stamps, stamps + StampsOf(after));
    } else {
      CommitNew(disk, bound, stamps, dir, ix, added, body);
      StampListed(after, dir);
      MoreStamps(after, bound', stamps + {ix.uidValidity}, stamps + StampsOf(after));
    }
  }

  lemma StampListed(disk: Disk, dir: string)
    requires dir in disk.indexes
    ensures disk.indexes[dir].uidValidity in StampsOf(disk)
  {
  }

  lemma FinishedAppend(s: System, ix: Index, added: Message)
    requires s.job.Appending? && ix == JobIndex(s.job) && ix.uidNext < UINT32_MAX
    requires added == NewMessage(ix.uidNext, s.job.flags, s.job.date, s.job.body, s.job.now)
    ensures var after := Committed(s.disk, s.job.dir, ix, added);
            Step(s, Proceed) == s.(disk := after, stamps := s.stamps + StampsOf(after), job := Free,
                                   bound := s.bound[(ix.uidValidity, ix.uidNext) := s.job.body])
  {
  }

  lemma RemoveFileKeeps(s: System)
    requires Inv(s) && s.job.Removing? && s.job.done < |JobIndex(s.job).messages|
    ensures Inv(Step(s, Proceed)) && Step(s, Proceed).bound == s.bound
  {
    var s' := Step(s, Proceed);
    FewerBodies(s.disk, s'.disk, s.bound, s.stamps);
    RemoveOneFile(s);
    Carry(s, s');
  }

  lemma RemoveOneFile(s: System)
    requires JobInv(s) && s.job.Removing? && s.job.done < |JobIndex(s.job).messages|
    ensures JobInv(Step(s, Proceed))
  {
    var messages, done := JobIndex(s.job).messages, s.job.done;
    DoomedStep(s.job.dir, messages, s.job.doomed, done);
    var s' := Step(s, Proceed);
    assert s'.disk.bodies == s.job.before.bodies - DoomedFiles(s.job.dir, messages[..done + 1], s.job.doomed);
  }

  /** Writing an index with the loaded one's stamp and UIDNext and no message it did not
      list keeps the disk in order, whether or not the mailbox existed. */
  lemma SaveIndex(disk: Disk, bound: map<Id, Bytes>, stamps: set<uint32>, dir: string, ix: Index)
    requires DiskInv(disk, bound, stamps) && IndexOk(ix)
    requires if dir in disk.indexes
             then ix.uidValidity == disk.indexes[dir].uidValidity && ix.uidNext == disk.indexes[dir].uidNext
             else ix.messages == [] && ix.uidValidity !in stamps
    requires forall i :: 0 <= i < |ix.messages| ==> (ix.uidValidity, ix.messages[i].uid) in bound
    ensures var after := WriteIndex(disk, dir, ix);
            DiskInv(after, bound, stamps + StampsOf(after)) && InboxGrows(disk, after)
  {
    var after := WriteIndex(disk, dir, ix);
    if dir in disk.indexes {
      RewriteIndex(disk, bound, stamps, dir, ix);
      MoreStamps(after, bound, stamps, stamps + StampsOf(after));
    } else {
      AddIndex(disk, bound, stamps, dir, ix);
      StampListed(after, dir);
      MoreStamps(after, bound, stamps + {ix.uidValidity}, stamps + StampsOf(after));
    }
  }

  lemma FinishRemoveKeeps(s: System)
    requires Inv(s) && s.job.Removing? && s.job.done == |JobIndex(s.job).messages|
    ensures Inv(Step(s, Proceed)) && Step(s, Proceed).bound == s.bound
  {
    JobIndexMeaning(s);
    var ix := JobIndex(s.job);
    var kept := ix.(messages := Kept(ix.messages, s.job.doomed));
    KeptOk(ix, s.job.doomed);
    KeptBound(s, ix, s.job.doomed);
    forall i | 0 <= i < |kept.messages| ensures (ix.uidValidity, kept.messages[i].uid) in s.bound {
      assert kept.messages[i] == Kept(ix.messages, s.job.doomed)[i];
    }
    SaveIndex(s.disk, s.bound, s.stamps, s.job.dir, kept);
    Carry(s, Step(s, Proceed));
  }

  lemma KeptBound(s: System, ix: Index, doomed: set<uint32>)
    requires DiskInv(s.disk, s.bound, s.stamps) && JobInv(s) && s.job.Removing? && ix == JobIndex(s.job)
    ensures forall i :: 0 <= i < |Kept(ix.messages, doomed)| ==>
              (ix.uidValidity, Kept(ix.messages, doomed)[i].uid) in s.bound
    ensures s.job.dir !in s.disk.indexes ==> Kept(ix.messages, doomed) == []
  {
    JobIndexMeaning(s);
    KeptMeaning(ix.messages, doomed);
    var kept := Kept(ix.messages, doomed);
    forall i | 0 <= i < |kept| ensures (ix.uidValidity, kept[i].uid) in s.bound {
      assert kept[i] in kept;
      var j :| 0 <= j < |ix.messages| && ix.messages[j] == kept[i];
      assert IndexInv(s.job.dir, s.disk.indexes[s.job.dir], s.disk.bodies, s.bound, s.stamps);
    }
  }

  lemma ProceedKeeps(s: System)
    requires Inv(s) && Enabled(s, Proceed)
    ensures Inv(Step(s, Proceed)) && Extends(s.bound, Step(s, Proceed).bound)
  {
    match s.job
    case Appending(_, _, _, _, _, _) => FinishAppendKeeps(s);
    case Removing(_, _, _, _, done) =>
      if done < |JobIndex(s.job).messages| {
        RemoveFileKeeps(s);
      } else {
        FinishRemoveKeeps(s);
      }
    case Deleting(_, _) => Carry(s, Step(s, Proceed));
  }

  lemma LoadedInv(s: System, dir: string, now: int)
    requires Inv(s) && FreshIfInbox(s, dir, now) && ReadIndex(s.disk, dir, now).Ok?
    ensures var ix := ReadIndex(s.disk, dir, now).value;
            && IndexOk(ix)
            && (if dir in s.disk.indexes then ix == s.disk.indexes[dir]
                else ix.messages == [] && ix.uidValidity !in s.stamps)
            && forall i :: 0 <= i < |ix.messages| ==> (ix.uidValidity, ix.messages[i].uid) in s.bound
  {
    if dir in s.disk.indexes {
      assert IndexInv(dir, s.disk.indexes[dir], s.disk.bodies, s.bound, s.stamps);
    }
  }

  lemma SetFlagsKeeps(s: System, e: Event)
    requires Inv(s) && e.SetFlags? && Enabled(s, e)
    ensures Inv(Step(s, e))
  {
    var s' := Step(s, e);
    if ReadIndex(s.disk, e.dir, e.now).Ok? {
      LoadedInv(s, e.dir, e.now);
      var ix := ReadIndex(s.disk, e.dir, e.now).value;
      ReflaggedOk(ix, e.uids, e.flags, e.op);
      SaveIndex(s.disk, s.bound, s.stamps, e.dir, ix.(messages := ReflagAll(ix.messages, e.uids, e.flags, e.op)));
    } else {
      MoreStamps(s.disk, s.bound, s.stamps, s'.stamps);
    }
    Carry(s, s');
  }

  lemma SetSubscribedKeeps(s: System, e: Event)
    requires Inv(s) && e.SetSubscribed? && Enabled(s, e)
    ensures Inv(Step(s, e))
  {
    var s' := Step(s, e);
    if ReadIndex(s.disk, e.dir, e.now).Ok? {
      LoadedInv(s, e.dir, e.now);
      var ix := ReadIndex(s.disk, e.dir, e.now).value;
      SaveIndex(s.disk, s.bound, s.stamps, e.dir, ix.(subscribed := e.subscribed));
    } else {
      MoreStamps(s.disk, s.bound, s.stamps, s'.stamps);
    }
    Carry(s, s');
  }

  lemma CreateKeeps(s: System, e: Event)
    requires Inv(s) && e.Create? && Enabled(s, e)
    ensures Inv(Step(s, e))
  {
    var s' := Step(s, e);
    if MailDisk.Create(s.disk, e.dir, e.now).1.Ok? {
      SaveIndex(s.disk, s.bound, s.stamps, e.dir, NewIndex(e.now));
    } else {
      MoreStamps(s.disk, s.bound, s.stamps, s'.stamps);
    }
    Carry(s, s');
  }

  lemma RenameKeeps(s: System, e: Event)
    requires Inv(s) && e.Rename? && Enabled(s, e)
    ensures Inv(Step(s, e))
  {
    var s' := Step(s, e);
    var after := MailDisk.Rename(s.disk, e.from, e.to).0;
    RenamedInv(s.disk, s.bound, s.stamps, e.from, e.to);
    MoreStamps(after, s.bound, s.stamps, s.stamps + StampsOf(after));
    Carry(s, s');
  }

  lemma RenamedInv(disk: Disk, bound: map<Id, Bytes>, stamps: set<uint32>, from: string, to: string)
    requires DiskInv(disk, bound, stamps)
    ensures DiskInv(MailDisk.Rename(disk, from, to).0, bound, stamps)
    ensures InboxGrows(disk, MailDisk.Rename(disk, from, to).0)
  {
    if MailDisk.Rename(disk, from, to).1.Ok? {
      MoveIndex(disk, bound, stamps, from, to);
    }
  }

  /** Every step, by any client, delivery, failure or crash, keeps the invariant and
      never rebinds a UID. */
  lemma StepKeeps(s: System, e: Event)
    requires Inv(s) && Enabled(s, e)
    ensures Inv(Step(s, e)) && Extends(s.bound, Step(s, e).bound)
  {
    match e
    case Open(sid, dir, now) => OpenKeeps(s, sid, dir, now);
    case Read(sid, k) => ReadKeeps(s, sid, k);
    case Mark(_, _) => SessionEventKeeps(s, e);
    case Unmark(_) => SessionEventKeeps(s, e);
    case Close(_) => SessionEventKeeps(s, e);
    case Quit(sid, now) => QuitKeeps(s, sid, now);
    case StartAppend(_, _, _, _, _) => StartAppendKeeps(s, e);
    case StartRemove(dir, uids, now) => BeginRemoveKeeps(s, dir, uids, now);
    case StartDelete(_) => Carry(s, Step(s, e));
    case Unlink(_) => DeletingKeeps(s, e);
    case UnlinkIndex => DeletingKeeps(s, e);
    case Proceed => ProceedKeeps(s);
    case SetFlags(_, _, _, _, _) => SetFlagsKeeps(s, e);
    case SetSubscribed(_, _, _) => SetSubscribedKeeps(s, e);
    case Create(_, _) => CreateKeeps(s, e);
    case Rename(_, _) => RenameKeeps(s, e);
    case Abandon => Carry(s, Step(s, e));
    case Crash => assert LogInv(s);
  }

  // ---- runs

  predicate IsRun(s: System, events: seq<Event>)
    decreases |events|
  {
    events == [] || (Enabled(s, events[0]) && IsRun(Step(s, events[0]), events[1..]))
  }

  function After(s: System, events: seq<Event>): System
    requires IsRun(s, events)
    decreases |events|
  {
    if events == [] then s else After(Step(s, events[0]), events[1..])
  }

  lemma InitInv()
    ensures Inv(Init)
  {
  }

  /** Over every run, index UIDs ascend below UIDNext, stamps are distinct, files hold
      the bodies their UIDs are bound to, and no binding is ever changed or lost. */
  lemma {:induction false} RunKeeps(s: System, events: seq<Event>)
    requires Inv(s) && IsRun(s, events)
    ensures Inv(After(s, events)) && Extends(s.bound, After(s, events).bound)
    decreases |events|
  {
    if events != [] {
      StepKeeps(s, events[0]);
      RunKeeps(Step(s, events[0]), events[1..]);
    }
  }

  /** UIDVALIDITY and UID name one message for good: any two bodies ever handed out
      under the same pair are equal. For INBOX, so for every POP3 session, this needs no
      condition; for another mailbox, that it still had the stamp the client knew. */
  lemma SameUidSameBody(events: seq<Event>, i: nat, j: nat)
    requires IsRun(Init, events)
    requires var log := After(Init, events).log;
             && i < |log| && j < |log|
             && (log[i].uidValidity, log[i].uid) == (log[j].uidValidity, log[j].uid)
             && (log[i].dir == INBOX_DIR || log[i].current)
             && (log[j].dir == INBOX_DIR || log[j].current)
    ensures var log := After(Init, events).log;
            log[i].body == log[j].body
  {
    InitInv();
    RunKeeps(Init, events);
    var s := After(Init, events);
    assert SeenInv(s.log[i], s.bound) && SeenInv(s.log[j], s.bound);
  }

  /** Appending hands out a pair nobody has seen, for exactly the bytes given. */
  lemma AppendBindsFreshUid(s: System)
    requires Inv(s) && s.job.Appending?
    ensures var id := (JobIndex(s.job).uidValidity, JobIndex(s.job).uidNext);
            && id !in s.bound
            && Step(s, Proceed).bound == s.bound[id := s.job.body]
  {
    JobIndexMeaning(s);
    var ix, dir := JobIndex(s.job), s.job.dir;
    if dir in s.disk.indexes {
      assert IndexInv(dir, s.disk.indexes[dir], s.disk.bodies, s.bound, s.stamps);
    }
  }

  /** A call that is not cut short has, file by file, the effect of the whole call on the
      disk it found, whatever readers and sessions did meanwhile. */
  lemma UninterruptedCall(s: System)
    requires Inv(s) && Enabled(s, Proceed) && Step(s, Proceed).job.Free?
    ensures var after := Step(s, Proceed).disk;
            match s.job
            case Appending(dir, before, flags, date, body, now) =>
              after == Append(before, dir, flags, date, body, now).0
            case Removing(dir, before, doomed, now, _) =>
              after == Remove(before, dir, doomed, now).0
            case Deleting(dir, before) => after == Erased(before, dir)
  {
    if s.job.Removing? {
      RemoveFinished(s);
    } else if s.job.Deleting? {
      NothingToErase(s.disk, s.job.dir);
    }
  }

  lemma RemoveFinished(s: System)
    requires Inv(s) && s.job.Removing? && s.job.done == |JobIndex(s.job).messages|
    ensures Step(s, Proceed).disk == Remove(s.job.before, s.job.dir, s.job.doomed, s.job.now).0
  {
  }

  lemma NothingToErase(disk: Disk, dir: string)
    requires OwnDirectory(dir) && dir !in disk.indexes && !HoldsFiles(disk, dir)
    ensures Erased(disk, dir) == disk
  {
    assert Erased(disk, dir).indexes == disk.indexes;
    assert Erased(disk, dir).bodies == disk.bodies;
  }

  // ---- POP3 sessions

  /** Message numbers are fixed: whatever happens while a session is open, its snapshot
      stays the one taken at PASS. */
  lemma {:induction false} SnapshotFixed(s: System, events: seq<Event>, sid: nat)
    requires IsRun(s, events) && sid in s.sessions
    requires forall i :: 0 <= i < |events| ==> !Ends(events[i], sid)
    ensures sid in After(s, events).sessions
    ensures After(s, events).sessions[sid].snapshot == s.sessions[sid].snapshot
    decreases |events|
  {
    if events != [] {
      assert !Ends(events[0], sid);
      var s' := Step(s, events[0]);
      assert sid in s'.sessions && s'.sessions[sid].snapshot == s.sessions[sid].snapshot;
      SnapshotFixed(s', events[1..], sid);
    }
  }

  predicate Ends(e: Event, sid: nat) {
    e == Close(sid) || e.Crash? || (e.Quit? && e.sid == sid)
  }

  /** RETR n answers with the body the n-th snapshot message was delivered with, or with
      an error, at any moment of any run. */
  lemma RetrieveIsRight(events: seq<Event>, sid: nat, k: nat)
    requires IsRun(Init, events) && Enabled(After(Init, events), Read(sid, k))
    requires After(Init, events).sessions[sid].snapshot.dir == INBOX_DIR
    ensures var s := After(Init, events);
            var snapshot := s.sessions[sid].snapshot;
            var body := Body(s.disk, INBOX_DIR, snapshot.messages[k]);
            && (snapshot.uidValidity, snapshot.messages[k].uid) in s.bound
            && (body.None? || body.value == s.bound[(snapshot.uidValidity, snapshot.messages[k].uid)])
  {
    InitInv();
    RunKeeps(Init, events);
    BodyIsBound(After(Init, events), sid, k);
  }

  /** The steps of one client. */
  predicate Of(e: Event, sid: nat) {
    (e.Open? || e.Read? || e.Mark? || e.Unmark? || e.Close? || e.Quit?) && e.sid == sid
  }

  function Without(events: seq<Event>, sid: nat): seq<Event> {
    if events == [] then []
    else if Of(events[0], sid) then Without(events[1..], sid)
    else [events[0]] + Without(events[1..], sid)
  }

  /** The same store, calls, bindings and other sessions, with and without one client. */
  ghost predicate SameBut(s: System, t: System, sid: nat) {
    && t.disk == s.disk && t.job == s.job && t.bound == s.bound && t.stamps == s.stamps
    && t.sessions == s.sessions - {sid}
  }

  lemma OtherEnabled(s: System, t: System, e: Event, sid: nat)
    requires SameBut(s, t, sid) && Enabled(s, e) && !Of(e, sid)
    ensures Enabled(t, e)
  {
  }

  lemma OtherStep(s: System, t: System, e: Event, sid: nat)
    requires SameBut(s, t, sid) && Enabled(s, e) && !Of(e, sid)
    ensures Enabled(t, e) && SameBut(Step(s, e), Step(t, e), sid)
  {
    OtherEnabled(s, t, e, sid);
    if e.Open? || e.Read? || e.Mark? || e.Unmark? || e.Close? || e.Quit? {
      OtherClientStep(s, t, e, sid);
    }
  }

  lemma UpdateOther(sessions: map<nat, Session>, other: nat, session: Session, sid: nat)
    requires other != sid
    ensures sessions[other := session] - {sid} == (sessions - {sid})[other := session]
  {
  }

  lemma OtherClientStep(s: System, t: System, e: Event, sid: nat)
    requires SameBut(s, t, sid) && Enabled(s, e) && Enabled(t, e) && !Of(e, sid)
    requires e.Open? || e.Read? || e.Mark? || e.Unmark? || e.Close? || e.Quit?
    ensures SameBut(Step(s, e), Step(t, e), sid)
  {
    if e.Close? || e.Quit? {
      assert s.sessions - {e.sid} - {sid} == t.sessions - {e.sid};
    } else if !e.Read? {
      UpdateOther(s.sessions, e.sid, Step(t, e).sessions[e.sid], sid);
    }
  }

  lemma OwnStep(s: System, t: System, e: Event, sid: nat)
    requires SameBut(s, t, sid) && Enabled(s, e) && Of(e, sid) && !e.Quit?
    ensures SameBut(Step(s, e), t, sid)
  {
    assert Step(s, e).sessions - {sid} == s.sessions - {sid};
  }

  /** A client that never quits leaves no trace: the run without its steps is a run too, and
      ends with the same disk, the same call in progress, the same bindings and the same
      other sessions, whatever it opened, read, marked and unmarked. */
  lemma {:induction false} UnlessItQuits(s: System, t: System, events: seq<Event>, sid: nat)
    requires SameBut(s, t, sid) && IsRun(s, events)
    requires forall i :: 0 <= i < |events| ==> !(events[i].Quit? && events[i].sid == sid)
    ensures IsRun(t, Without(events, sid)) && SameBut(After(s, events), After(t, Without(events, sid)), sid)
    decreases |events|
  {
    if events != [] {
      var e := events[0];
      if Of(e, sid) {
        OwnStep(s, t, e, sid);
        UnlessItQuits(Step(s, e), t, events[1..], sid);
      } else {
        OtherStep(s, t, e, sid);
        UnlessItQuits(Step(s, e), Step(t, e), events[1..], sid);
        assert Without(events, sid)[1..] == Without(events[1..], sid);
      }
    }
  }

  /** QUIT starts the removal of the marked UIDs. All of them are messages of the
      snapshot, so nothing that arrived after PASS is among them, and the completed
      removal leaves the other messages in place and in order. */
  ghost predicate QuitsExactly(s: System, sid: nat, now: int)
    requires Enabled(s, Quit(sid, now))
  {
    var session := s.sessions[sid];
    && Step(s, Quit(sid, now)).job == Removing(INBOX_DIR, s.disk, session.marked, now, 0)
    && (forall u :: u in session.marked ==>
          u < session.snapshot.uidNext
          && exists i :: 0 <= i < |session.snapshot.messages| && session.snapshot.messages[i].uid == u)
    && INBOX_DIR in s.disk.indexes
    && var ix := s.disk.indexes[INBOX_DIR];
       var after := Remove(s.disk, INBOX_DIR, session.marked, now).0;
       && after.indexes == s.disk.indexes[INBOX_DIR := ix.(messages := Kept(ix.messages, session.marked))]
       && forall m :: m in ix.messages ==>
            && (m in Kept(ix.messages, session.marked) <==> m.uid !in session.marked)
            && (m.uid >= session.snapshot.uidNext ==> m in Kept(ix.messages, session.marked))
  }

  lemma QuitRemovesMarked(events: seq<Event>, sid: nat, now: int)
    requires IsRun(Init, events) && Enabled(After(Init, events), Quit(sid, now))
    requires var session := After(Init, events).sessions[sid];
             session.snapshot.dir == INBOX_DIR && session.marked != {}
    ensures QuitsExactly(After(Init, events), sid, now)
  {
    InitInv();
    RunKeeps(Init, events);
    QuitFromInv(After(Init, events), sid, now);
  }

  lemma QuitFromInv(s: System, sid: nat, now: int)
    requires Inv(s) && Enabled(s, Quit(sid, now))
    requires s.sessions[sid].snapshot.dir == INBOX_DIR && s.sessions[sid].marked != {}
    ensures QuitsExactly(s, sid, now)
  {
    var session := s.sessions[sid];
    assert SessionInv(session, s.disk, s.bound);
    var u :| u in session.marked;
    var ix := s.disk.indexes[INBOX_DIR];
    QuitIndex(s.disk, ix, session.marked, now) by {
      assert IndexInv(INBOX_DIR, ix, s.disk.bodies, s.bound, s.stamps);
    }
  }

  lemma QuitIndex(disk: Disk, ix: Index, marked: set<uint32>, now: int)
    requires INBOX_DIR in disk.indexes && disk.indexes[INBOX_DIR] == ix && IndexOk(ix)
    ensures Remove(disk, INBOX_DIR, marked, now).0.indexes ==
            disk.indexes[INBOX_DIR := ix.(messages := Kept(ix.messages, marked))]
    ensures forall m :: m in ix.messages ==> (m in Kept(ix.messages, marked) <==> m.uid !in marked)
  {
    LoadedOk(ix, now);
    KeptMeaning(ix.messages, marked);
  }

  // ---- where the promise ends

  /** The clock condition is exact: a new mailbox keeps identities apart if and only if
      its stamp is nonzero, no other mailbox has it now, and no UID was ever bound under
      it. Stamps are whole seconds, so two mailboxes made within one second break it. */
  lemma NewMailboxIsSafe(disk: Disk, bound: map<Id, Bytes>, stamps: set<uint32>, dir: string, now: int)
    requires DiskInv(disk, bound, stamps) && dir !in disk.indexes && dir != INBOX_DIR
    ensures DiskInv(MailDisk.Create(disk, dir, now).0, bound, stamps + {Stamp(now)}) <==> UnusedStamp(disk, bound, Stamp(now))
  {
    var after := MailDisk.Create(disk, dir, now).0;
    assert after == WriteIndex(disk, dir, NewIndex(now));
    if UnusedStamp(disk, bound, Stamp(now)) {
      AddUnusedIndex(disk, bound, stamps, dir, now);
    }
    if DiskInv(after, bound, stamps + {Stamp(now)}) {
      assert IndexInv(dir, after.indexes[dir], after.bodies, bound, stamps + {Stamp(now)});
      forall d | d in disk.indexes ensures disk.indexes[d].uidValidity != Stamp(now) {
        assert after.indexes[d] == disk.indexes[d];
      }
    }
  }

  ghost predicate UnusedStamp(disk: Disk, bound: map<Id, Bytes>, stamp: uint32) {
    && stamp != 0
    && (forall d :: d in disk.indexes ==> disk.indexes[d].uidValidity != stamp)
    && (forall u: uint32 :: (stamp, u) !in bound)
  }

  lemma AddUnusedIndex(disk: Disk, bound: map<Id, Bytes>, stamps: set<uint32>, dir: string, now: int)
    requires DiskInv(disk, bound, stamps) && dir !in disk.indexes && UnusedStamp(disk, bound, Stamp(now))
    ensures DiskInv(WriteIndex(disk, dir, NewIndex(now)), bound, stamps + {Stamp(now)})
  {
    var more := stamps + {Stamp(now)};
    var after := WriteIndex(disk, dir, NewIndex(now));
    forall d | d in after.indexes ensures IndexInv(d, after.indexes[d], after.bodies, bound, more) {
      if d != dir {
        assert IndexInv(d, disk.indexes[d], disk.bodies, bound, stamps);
      }
    }
  }
}
