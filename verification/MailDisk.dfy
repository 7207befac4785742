/** One account's mail on disk, and what each store call does to it.

    A mailbox is a directory holding index.json and one immutable body file per
    message. Directories stand for mailboxes here; MailboxNames says which name
    has which directory. */
module MailDisk {
  import opened Wrappers
  import opened Text
  import opened Flags

  const INBOX_DIR := "INBOX"

  /** The empty name and "." stand for the account's whole mail directory and ".." for the
      account's directory; every other name is a directory of its own below the first. */
  predicate OwnDirectory(dir: string) {
    dir != "" && dir != "." && dir != ".."
  }

  /** Whether directory d lies in the directory `dir` stands for. */
  predicate Inside(d: string, dir: string) {
    d == dir || dir == ".." || ((dir == "." || dir == "") && d != "..")
  }

  const UINT32_SIZE := 0x1_0000_0000
  const UINT32_MAX := 0xFFFF_FFFF

  type uint32 = n: nat | n < UINT32_SIZE

  newtype byte = b: int | 0 <= b < 0x100

  type Bytes = seq<byte>

  /** An internal date; the zero time is what a client that gives none sends. */
  datatype Date = ZeroDate | Date(seconds: int)

  datatype Message = Message(uid: uint32, file: string, size: uint32, date: Date, flags: seq<string>)

  datatype Index = Index(uidValidity: uint32, uidNext: uint32, subscribed: bool, messages: seq<Message>)

  /** index.json per directory, and body files by directory and file name. */
  datatype Disk = Disk(indexes: map<string, Index>, bodies: map<(string, string), Bytes>)

  datatype Error = NoSuchMailbox | MailboxExists | MailboxForbidden | IoError

  /** %08d.eml */
  function FileName(uid: nat): string {
    PadZeros(Decimal(uid), 8) + ".eml"
  }

  lemma FileNameInjective(a: nat, b: nat)
    ensures FileName(a) == FileName(b) <==> a == b
  {
    if FileName(a) == FileName(b) {
      var pa, pb := PadZeros(Decimal(a), 8), PadZeros(Decimal(b), 8);
      assert pa == FileName(a)[..|FileName(a)| - 4] && pb == FileName(b)[..|FileName(b)| - 4];
      NumeralOfPadded(Decimal(a), 8);
      NumeralOfPadded(Decimal(b), 8);
      NumeralOfDecimal(a);
      NumeralOfDecimal(b);
    }
  }

  /** Clock readings are whole Unix seconds, kept modulo 2^32. */
  function Stamp(now: int): uint32 {
    now % UINT32_SIZE
  }

  function NewIndex(now: int): Index {
    Index(Stamp(now), 1, true, [])
  }

  /** A zero field reads as missing and is filled in, in memory only. */
  function Loaded(index: Index, now: int): Index {
    index.(uidValidity := if index.uidValidity == 0 then Stamp(now) else index.uidValidity,
           uidNext := if index.uidNext == 0 then 1 else index.uidNext)
  }

  function ReadIndex(disk: Disk, dir: string, now: int): Result<Index, Error> {
    if dir in disk.indexes then Ok(Loaded(disk.indexes[dir], now))
    else if dir == INBOX_DIR then Ok(NewIndex(now))
    else Err(NoSuchMailbox)
  }

  function WriteIndex(disk: Disk, dir: string, index: Index): Disk {
    disk.(indexes := disk.indexes[dir := index])
  }

  function UidSet(uids: seq<uint32>): set<uint32> {
    set u | u in uids
  }

  // ---- the calls

  datatype Snapshot = Snapshot(dir: string, uidValidity: uint32, uidNext: uint32,
                               subscribed: bool, messages: seq<Message>)

  function TakeSnapshot(disk: Disk, dir: string, now: int): Result<Snapshot, Error> {
    match ReadIndex(disk, dir, now)
    case Err(e) => Err(e)
    case Ok(ix) => Ok(Snapshot(dir, ix.uidValidity, ix.uidNext, ix.subscribed, ix.messages))
  }

  function SetSubscribed(disk: Disk, dir: string, subscribed: bool, now: int): (Disk, Result<(), Error>) {
    match ReadIndex(disk, dir, now)
    case Err(e) => (disk, Err(e))
    case Ok(ix) => (WriteIndex(disk, dir, ix.(subscribed := subscribed)), Ok(()))
  }

  /** The index Append starts from: a mailbox that is missing is created. */
  function IndexToAppend(disk: Disk, dir: string, now: int): Index {
    var read := ReadIndex(disk, dir, now);
    if read.Ok? then read.value else NewIndex(now)
  }

  function NewMessage(uid: uint32, flags: seq<string>, date: Date, body: Bytes, now: int): Message {
    Message(uid, FileName(uid), |body| % UINT32_SIZE,
            if date == ZeroDate then Date(now) else date, Normalise(flags))
  }

  function Appended(ix: Index, flags: seq<string>, date: Date, body: Bytes, now: int): Index {
    ix.(uidNext := (ix.uidNext + 1) % UINT32_SIZE,
        messages := ix.messages + [NewMessage(ix.uidNext, flags, date, body, now)])
  }

  /** First half of Append: the body file. */
  function PutBody(disk: Disk, dir: string, uid: uint32, body: Bytes): Disk {
    disk.(bodies := disk.bodies[(dir, FileName(uid)) := body])
  }

  function Append(disk: Disk, dir: string, flags: seq<string>, date: Date, body: Bytes, now: int): (Disk, uint32) {
    var ix := IndexToAppend(disk, dir, now);
    (WriteIndex(PutBody(disk, dir, ix.uidNext, body), dir, Appended(ix, flags, date, body, now)), ix.uidNext)
  }

  function Body(disk: Disk, dir: string, msg: Message): Option<Bytes> {
    if (dir, msg.file) in disk.bodies then Some(disk.bodies[(dir, msg.file)]) else None
  }

  function Reflagged(m: Message, uids: set<uint32>, flags: seq<string>, op: FlagOp): Message {
    if m.uid in uids then m.(flags := Apply(m.flags, flags, op)) else m
  }

  function ReflagAll(messages: seq<Message>, uids: set<uint32>, flags: seq<string>, op: FlagOp): (r: seq<Message>)
    ensures |r| == |messages|
    ensures forall i :: 0 <= i < |r| ==> r[i] == Reflagged(messages[i], uids, flags, op)
  {
    seq(|messages|, i requires 0 <= i < |messages| => Reflagged(messages[i], uids, flags, op))
  }

  function SetFlags(disk: Disk, dir: string, uids: set<uint32>, flags: seq<string>, op: FlagOp, now: int)
    : (Disk, Result<(), Error>)
  {
    match ReadIndex(disk, dir, now)
    case Err(e) => (disk, Err(e))
    case Ok(ix) =>
      (WriteIndex(disk, dir, ix.(messages := ReflagAll(ix.messages, uids, flags, op))), Ok(()))
  }

  /** The messages whose UID is in the set, in mailbox order. */
  function Selected(messages: seq<Message>, uids: set<uint32>): seq<Message> {
    if messages == [] then []
    else
      var m := messages[|messages| - 1];
      var before := Selected(messages[..|messages| - 1], uids);
      if m.uid in uids then before + [m] else before
  }

  /** The messages whose UID is not in the set, in mailbox order. */
  function Kept(messages: seq<Message>, doomed: set<uint32>): seq<Message> {
    if messages == [] then []
    else
      var m := messages[|messages| - 1];
      var before := Kept(messages[..|messages| - 1], doomed);
      if m.uid in doomed then before else before + [m]
  }

  function DoomedFiles(dir: string, messages: seq<Message>, doomed: set<uint32>): set<(string, string)> {
    set m | m in messages && m.uid in doomed :: (dir, m.file)
  }

  /** Remove after it has worked through the first k messages: files go first, the
      index is rewritten only at the end. */
  function RemovedUpTo(disk: Disk, dir: string, messages: seq<Message>, doomed: set<uint32>, k: nat): Disk
    requires k <= |messages|
  {
    disk.(bodies := disk.bodies - DoomedFiles(dir, messages[..k], doomed))
  }

  function Remove(disk: Disk, dir: string, doomed: set<uint32>, now: int): (Disk, Result<(), Error>) {
    match ReadIndex(disk, dir, now)
    case Err(e) => (disk, Err(e))
    case Ok(ix) =>
      (WriteIndex(RemovedUpTo(disk, dir, ix.messages, doomed, |ix.messages|), dir,
                  ix.(messages := Kept(ix.messages, doomed))), Ok(()))
  }

  function Create(disk: Disk, dir: string, now: int): (Disk, Result<(), Error>) {
    if dir in disk.indexes || dir == INBOX_DIR then (disk, Err(MailboxExists))
    else (WriteIndex(disk, dir, NewIndex(now)), Ok(()))
  }

  /** Deleting removes the whole tree. */
  function Erased(disk: Disk, dir: string): Disk {
    Disk(map d | d in disk.indexes && !Inside(d, dir) :: disk.indexes[d],
         map k | k in disk.bodies && !Inside(k.0, dir) :: disk.bodies[k])
  }

  function Delete(disk: Disk, dir: string): (Disk, Result<(), Error>) {
    if dir == INBOX_DIR then (disk, Err(MailboxForbidden))
    else if dir !in disk.indexes then (disk, Err(NoSuchMailbox))
    else (Erased(disk, dir), Ok(()))
  }

  predicate HoldsFiles(disk: Disk, dir: string) {
    exists k :: k in disk.bodies && k.0 == dir
  }

  function MovedKey(k: (string, string), from: string, to: string): (string, string) {
    if k.0 == from then (to, k.1) else k
  }

  function Moved(disk: Disk, from: string, to: string): Disk
    requires from in disk.indexes && from != to && !HoldsFiles(disk, to)
  {
    Disk((disk.indexes - {from})[to := disk.indexes[from]],
         map k | k in (set j | j in disk.bodies :: MovedKey(j, from, to)) :: disk.bodies[MovedKey(k, to, from)])
  }

  /** A rename moves the directory; it fails onto a directory that still holds files, and
      neither the mail directory nor the account's can be moved or be replaced. */
  function Rename(disk: Disk, from: string, to: string): (Disk, Result<(), Error>) {
    if from == INBOX_DIR || to == INBOX_DIR then (disk, Err(MailboxForbidden))
    else if from !in disk.indexes then (disk, Err(NoSuchMailbox))
    else if to in disk.indexes then (disk, Err(MailboxExists))
    else if HoldsFiles(disk, to) || !OwnDirectory(from) || !OwnDirectory(to) then (disk, Err(IoError))
    else (Moved(disk, from, to), Ok(()))
  }

  // ---- what stays true

  /** UIDs ascend strictly below UIDNext, and every record is in stored form. */
  ghost predicate IndexOk(ix: Index) {
    && ix.uidValidity != 0
    && (forall i, j :: 0 <= i < j < |ix.messages| ==> ix.messages[i].uid < ix.messages[j].uid)
    && (forall i :: 0 <= i < |ix.messages| ==> MessageOk(ix.messages[i]) && ix.messages[i].uid < ix.uidNext)
    && ix.uidNext >= 1
  }

  ghost predicate MessageOk(m: Message) {
    m.uid >= 1 && m.file == FileName(m.uid) && Normal(m.flags) && m.date != ZeroDate
  }

  /** The files of a directory are exactly those its index lists, with the sizes it
      records. */
  ghost predicate FilesOk(disk: Disk, dir: string, ix: Index) {
    && (forall i :: 0 <= i < |ix.messages| ==>
          && (dir, ix.messages[i].file) in disk.bodies
          && ix.messages[i].size == |disk.bodies[(dir, ix.messages[i].file)]| % UINT32_SIZE)
    && (forall k :: k in disk.bodies && k.0 == dir ==>
          exists i :: 0 <= i < |ix.messages| && ix.messages[i].file == k.1)
  }

  ghost predicate Agree(disk: Disk) {
    && (forall dir :: dir in disk.indexes ==> IndexOk(disk.indexes[dir]) && FilesOk(disk, dir, disk.indexes[dir]))
    && (forall k :: k in disk.bodies ==> k.0 in disk.indexes)
  }

  lemma LoadedOk(ix: Index, now: int)
    requires IndexOk(ix)
    ensures Loaded(ix, now) == ix
  {
  }

  lemma NewMessageOk(uid: uint32, flags: seq<string>, date: Date, body: Bytes, now: int)
    requires uid >= 1
    ensures MessageOk(NewMessage(uid, flags, date, body, now))
  {
    NormaliseMeaning(flags);
  }

  /** Appending keeps the index in order exactly while UIDNext is below 2^32 - 1. At
      that value it wraps, and the next reader starts again from UID 1. */
  lemma AppendedOk(ix: Index, flags: seq<string>, date: Date, body: Bytes, now: int)
    requires IndexOk(ix)
    ensures IndexOk(Appended(ix, flags, date, body, now)) <==> ix.uidNext < UINT32_MAX
    ensures ix.uidNext == UINT32_MAX ==> Loaded(Appended(ix, flags, date, body, now), now).uidNext == 1
  {
    var added := NewMessage(ix.uidNext, flags, date, body, now);
    var after := Appended(ix, flags, date, body, now);
    if ix.uidNext < UINT32_MAX {
      NewMessageOk(ix.uidNext, flags, date, body, now);
      AddedOk(ix, added);
      assert after == ix.(uidNext := ix.uidNext + 1, messages := ix.messages + [added]);
    } else {
      WrapsToZero(ix, flags, date, body, now);
    }
  }

  lemma WrapsToZero(ix: Index, flags: seq<string>, date: Date, body: Bytes, now: int)
    requires ix.uidNext + 1 == UINT32_SIZE
    ensures Appended(ix, flags, date, body, now).uidNext == 0
    ensures Loaded(Appended(ix, flags, date, body, now), now).uidNext == 1
    ensures !IndexOk(Appended(ix, flags, date, body, now))
  {
    assert Appended(ix, flags, date, body, now).uidNext == 0;
    ZeroIsNotOk(Appended(ix, flags, date, body, now));
  }

  lemma ZeroIsNotOk(ix: Index)
    requires ix.uidNext == 0
    ensures !IndexOk(ix)
  {
  }

  lemma AddedOk(ix: Index, added: Message)
    requires IndexOk(ix) && MessageOk(added) && added.uid == ix.uidNext < UINT32_MAX
    ensures IndexOk(ix.(uidNext := ix.uidNext + 1, messages := ix.messages + [added]))
  {
  }

  /** Two files of one directory with different UIDs never share a name, so a body is
      written over another only by reusing its UID. */
  lemma PutBodyFrame(disk: Disk, dir: string, uid: uint32, body: Bytes, other: (string, nat))
    requires other != (dir, uid)
    ensures var key := (other.0, FileName(other.1));
            && (key in PutBody(disk, dir, uid, body).bodies <==> key in disk.bodies)
            && (key in disk.bodies ==> PutBody(disk, dir, uid, body).bodies[key] == disk.bodies[key])
  {
    FileNameInjective(uid, other.1);
  }

  /** Room for one more UID, and a clock that does not read zero when the mailbox has
      to be created. */
  predicate CanAppend(disk: Disk, dir: string, now: int) {
    if dir in disk.indexes then disk.indexes[dir].uidNext < UINT32_MAX else Stamp(now) != 0
  }

  /** A failure-free Append keeps index and files in agreement exactly when there
      was room for it. */
  lemma AppendAgrees(disk: Disk, dir: string, flags: seq<string>, date: Date, body: Bytes, now: int)
    requires Agree(disk)
    ensures Agree(Append(disk, dir, flags, date, body, now).0) <==> CanAppend(disk, dir, now)
  {
    if CanAppend(disk, dir, now) {
      AppendWithRoom(disk, dir, flags, date, body, now);
    } else {
      var ix := IndexToAppend(disk, dir, now);
      var after := Append(disk, dir, flags, date, body, now).0;
      assert after.indexes[dir] == Appended(ix, flags, date, body, now);
      if dir in disk.indexes {
        AppendedOk(ix, flags, date, body, now);
      }
    }
  }

  lemma IndexToAppendOk(disk: Disk, dir: string, now: int)
    requires Agree(disk) && CanAppend(disk, dir, now)
    ensures var ix := IndexToAppend(disk, dir, now);
            && IndexOk(ix) && ix.uidNext < UINT32_MAX && FilesOk(disk, dir, ix)
            && ix == if dir in disk.indexes then disk.indexes[dir] else NewIndex(now)
  {
  }

  lemma AppendWithRoom(disk: Disk, dir: string, flags: seq<string>, date: Date, body: Bytes, now: int)
    requires Agree(disk) && CanAppend(disk, dir, now)
    ensures Agree(Append(disk, dir, flags, date, body, now).0)
  {
    IndexToAppendOk(disk, dir, now);
    var ix := IndexToAppend(disk, dir, now);
    AppendedOk(ix, flags, date, body, now);
    AppendFiles(disk, dir, ix, flags, date, body, now);
    var written := PutBody(disk, dir, ix.uidNext, body);
    RewrittenAgrees(disk, written, dir, Appended(ix, flags, date, body, now));
  }

  /** The two disks have the same files outside one directory. */
  ghost predicate SameFilesOutside(a: Disk, b: Disk, dir: string) {
    forall k: (string, string) :: k.0 != dir ==>
      (k in a.bodies <==> k in b.bodies) && (k in a.bodies ==> a.bodies[k] == b.bodies[k])
  }

  /** Agreement is local to a directory: changing its files and then its index keeps
      every other mailbox as it was. */
  lemma RewrittenAgrees(disk: Disk, written: Disk, dir: string, ix: Index)
    requires Agree(disk)
    requires written.indexes == disk.indexes && SameFilesOutside(disk, written, dir)
    requires IndexOk(ix) && FilesOk(written, dir, ix)
    ensures Agree(WriteIndex(written, dir, ix))
  {
    var after := WriteIndex(written, dir, ix);
    forall d | d in after.indexes ensures IndexOk(after.indexes[d]) && FilesOk(after, d, after.indexes[d]) {
      if d != dir {
        assert FilesOk(disk, d, disk.indexes[d]);
        FilesCarryOver(disk, after, dir, d);
      }
    }
    forall k | k in after.bodies ensures k.0 in after.indexes {
      if k.0 != dir {
        assert k in disk.bodies;
      }
    }
  }

  lemma FilesCarryOver(disk: Disk, after: Disk, dir: string, d: string)
    requires d != dir && d in disk.indexes && FilesOk(disk, d, disk.indexes[d])
    requires SameFilesOutside(disk, after, dir)
    ensures FilesOk(after, d, disk.indexes[d])
  {
  }

  lemma AppendFiles(disk: Disk, dir: string, ix: Index, flags: seq<string>, date: Date, body: Bytes, now: int)
    requires IndexOk(ix) && FilesOk(disk, dir, ix)
    ensures FilesOk(PutBody(disk, dir, ix.uidNext, body), dir, Appended(ix, flags, date, body, now))
  {
    var after := PutBody(disk, dir, ix.uidNext, body);
    var ix' := Appended(ix, flags, date, body, now);
    forall i | 0 <= i < |ix'.messages|
      ensures (dir, ix'.messages[i].file) in after.bodies
      ensures ix'.messages[i].size == |after.bodies[(dir, ix'.messages[i].file)]| % UINT32_SIZE
    {
      if i < |ix.messages| {
        assert MessageOk(ix.messages[i]);
        PutBodyFrame(disk, dir, ix.uidNext, body, (dir, ix.messages[i].uid));
      }
    }
    forall k | k in after.bodies && k.0 == dir
      ensures exists i :: 0 <= i < |ix'.messages| && ix'.messages[i].file == k.1
    {
      if k == (dir, FileName(ix.uidNext)) {
        assert ix'.messages[|ix.messages|].file == k.1;
      } else {
        var i :| 0 <= i < |ix.messages| && ix.messages[i].file == k.1;
        assert ix'.messages[i].file == k.1;
      }
    }
  }

  // ---- flags and subscriptions

  lemma ReflaggedOk(ix: Index, uids: set<uint32>, flags: seq<string>, op: FlagOp)
    requires IndexOk(ix)
    ensures IndexOk(ix.(messages := ReflagAll(ix.messages, uids, flags, op)))
  {
    forall i | 0 <= i < |ix.messages| ensures MessageOk(Reflagged(ix.messages[i], uids, flags, op)) {
      ApplyMeaning(ix.messages[i].flags, flags, op);
    }
  }

  lemma ReflaggedFilesOk(disk: Disk, dir: string, ix: Index, uids: set<uint32>, flags: seq<string>, op: FlagOp)
    requires FilesOk(disk, dir, ix)
    ensures FilesOk(disk, dir, ix.(messages := ReflagAll(ix.messages, uids, flags, op)))
  {
    var messages := ReflagAll(ix.messages, uids, flags, op);
    forall i | 0 <= i < |ix.messages|
      ensures messages[i].file == ix.messages[i].file && messages[i].size == ix.messages[i].size
    {
      assert messages[i] == Reflagged(ix.messages[i], uids, flags, op);
    }
    SameFilesOk(disk, dir, ix, ix.(messages := messages));
  }

  lemma SameFilesOk(disk: Disk, dir: string, ix: Index, ix': Index)
    requires FilesOk(disk, dir, ix) && |ix'.messages| == |ix.messages|
    requires forall i :: 0 <= i < |ix.messages| ==>
               ix'.messages[i].file == ix.messages[i].file && ix'.messages[i].size == ix.messages[i].size
    ensures FilesOk(disk, dir, ix')
  {
    forall k | k in disk.bodies && k.0 == dir
      ensures exists i :: 0 <= i < |ix'.messages| && ix'.messages[i].file == k.1
    {
      var i :| 0 <= i < |ix.messages| && ix.messages[i].file == k.1;
      assert ix'.messages[i].file == k.1;
    }
  }

  lemma ReadOk(disk: Disk, dir: string, now: int)
    requires Agree(disk) && ReadIndex(disk, dir, now).Ok? && (dir in disk.indexes || Stamp(now) != 0)
    ensures var ix := ReadIndex(disk, dir, now).value;
            && IndexOk(ix) && FilesOk(disk, dir, ix)
            && ix == if dir in disk.indexes then disk.indexes[dir] else NewIndex(now)
  {
  }

  /** A call that may have to materialise INBOX stamps it with the clock. */
  predicate CanOpen(disk: Disk, dir: string, now: int) {
    dir == INBOX_DIR && dir !in disk.indexes ==> Stamp(now) != 0
  }

  lemma SetFlagsAgrees(disk: Disk, dir: string, uids: set<uint32>, flags: seq<string>, op: FlagOp, now: int)
    requires Agree(disk) && CanOpen(disk, dir, now)
    ensures Agree(SetFlags(disk, dir, uids, flags, op, now).0)
  {
    if ReadIndex(disk, dir, now).Ok? {
      ReadOk(disk, dir, now);
      var ix := ReadIndex(disk, dir, now).value;
      ReflaggedOk(ix, uids, flags, op);
      ReflaggedFilesOk(disk, dir, ix, uids, flags, op);
      RewrittenAgrees(disk, disk, dir, ix.(messages := ReflagAll(ix.messages, uids, flags, op)));
    }
  }

  lemma SetSubscribedAgrees(disk: Disk, dir: string, subscribed: bool, now: int)
    requires Agree(disk) && CanOpen(disk, dir, now)
    ensures Agree(SetSubscribed(disk, dir, subscribed, now).0)
  {
    if ReadIndex(disk, dir, now).Ok? {
      ReadOk(disk, dir, now);
      var ix := ReadIndex(disk, dir, now).value;
      RewrittenAgrees(disk, disk, dir, ix.(subscribed := subscribed));
    }
  }

  // ---- removal

  lemma {:induction false} KeptMembers(messages: seq<Message>, doomed: set<uint32>)
    ensures forall m :: m in Kept(messages, doomed) <==> m in messages && m.uid !in doomed
  {
    if messages != [] {
      var init, m := messages[..|messages| - 1], messages[|messages| - 1];
      KeptMembers(init, doomed);
      assert messages == init + [m];
    }
  }

  lemma {:induction false} KeptAscend(messages: seq<Message>, doomed: set<uint32>)
    requires forall i, j :: 0 <= i < j < |messages| ==> messages[i].uid < messages[j].uid
    ensures forall i, j :: 0 <= i < j < |Kept(messages, doomed)| ==>
              Kept(messages, doomed)[i].uid < Kept(messages, doomed)[j].uid
  {
    if messages != [] {
      var init, m := messages[..|messages| - 1], messages[|messages| - 1];
      KeptAscend(init, doomed);
      var before := Kept(init, doomed);
      forall i | 0 <= i < |before| ensures before[i].uid < m.uid {
        KeptMembers(init, doomed);
        assert before[i] in before;
        var k :| 0 <= k < |init| && init[k] == before[i];
        assert messages[k].uid < messages[|messages| - 1].uid;
      }
    }
  }

  lemma {:induction false} KeptMeaning(messages: seq<Message>, doomed: set<uint32>)
    ensures forall m :: m in Kept(messages, doomed) <==> m in messages && m.uid !in doomed
    ensures (forall i, j :: 0 <= i < j < |messages| ==> messages[i].uid < messages[j].uid) ==>
              forall i, j :: 0 <= i < j < |Kept(messages, doomed)| ==>
                Kept(messages, doomed)[i].uid < Kept(messages, doomed)[j].uid
  {
    KeptMembers(messages, doomed);
    if forall i, j :: 0 <= i < j < |messages| ==> messages[i].uid < messages[j].uid {
      KeptAscend(messages, doomed);
    }
  }

  lemma KeptOk(ix: Index, doomed: set<uint32>)
    requires IndexOk(ix)
    ensures IndexOk(ix.(messages := Kept(ix.messages, doomed)))
  {
    KeptMeaning(ix.messages, doomed);
    var kept := Kept(ix.messages, doomed);
    forall i | 0 <= i < |kept| ensures MessageOk(kept[i]) && kept[i].uid < ix.uidNext {
      assert kept[i] in kept;
    }
  }

  lemma DoomedStep(dir: string, messages: seq<Message>, doomed: set<uint32>, i: nat)
    requires i < |messages|
    ensures DoomedFiles(dir, messages[..i + 1], doomed) ==
            DoomedFiles(dir, messages[..i], doomed)
            + (if messages[i].uid in doomed then {(dir, messages[i].file)} else {})
  {
    assert messages[..i + 1] == messages[..i] + [messages[i]];
  }

  lemma SurvivorKeepsFile(dir: string, ix: Index, doomed: set<uint32>, m: Message)
    requires IndexOk(ix) && m in ix.messages && m.uid !in doomed
    ensures (dir, m.file) !in DoomedFiles(dir, ix.messages, doomed)
  {
    forall d | d in ix.messages && d.uid in doomed ensures d.file != m.file {
      var i :| 0 <= i < |ix.messages| && ix.messages[i] == d;
      var j :| 0 <= j < |ix.messages| && ix.messages[j] == m;
      assert MessageOk(ix.messages[i]) && MessageOk(ix.messages[j]);
      FileNameInjective(d.uid, m.uid);
    }
  }

  lemma RemovedFilesOk(disk: Disk, dir: string, ix: Index, doomed: set<uint32>)
    requires IndexOk(ix) && FilesOk(disk, dir, ix)
    ensures FilesOk(RemovedUpTo(disk, dir, ix.messages, doomed, |ix.messages|), dir,
                    ix.(messages := Kept(ix.messages, doomed)))
  {
    var all := ix.messages;
    assert all[..|all|] == all;
    var kept := Kept(all, doomed);
    var after := RemovedUpTo(disk, dir, all, doomed, |all|);
    forall i | 0 <= i < |kept|
      ensures (dir, kept[i].file) in after.bodies
      ensures kept[i].size == |after.bodies[(dir, kept[i].file)]| % UINT32_SIZE
    {
      KeptFileStays(disk, dir, ix, doomed, i);
    }
    forall k | k in after.bodies && k.0 == dir
      ensures exists i :: 0 <= i < |kept| && kept[i].file == k.1
    {
      RemainingFileIsKept(disk, dir, ix, doomed, k.1);
    }
  }

  lemma KeptFileStays(disk: Disk, dir: string, ix: Index, doomed: set<uint32>, i: nat)
    requires IndexOk(ix) && FilesOk(disk, dir, ix) && i < |Kept(ix.messages, doomed)|
    ensures var m := Kept(ix.messages, doomed)[i];
            && (dir, m.file) in disk.bodies && (dir, m.file) !in DoomedFiles(dir, ix.messages, doomed)
            && m.size == |disk.bodies[(dir, m.file)]| % UINT32_SIZE
  {
    var kept := Kept(ix.messages, doomed);
    KeptMeaning(ix.messages, doomed);
    assert kept[i] in kept;
    SurvivorKeepsFile(dir, ix, doomed, kept[i]);
    var k :| 0 <= k < |ix.messages| && ix.messages[k] == kept[i];
  }

  lemma RemainingFileIsKept(disk: Disk, dir: string, ix: Index, doomed: set<uint32>, file: string)
    requires FilesOk(disk, dir, ix)
    requires (dir, file) in disk.bodies && (dir, file) !in DoomedFiles(dir, ix.messages, doomed)
    ensures exists i :: 0 <= i < |Kept(ix.messages, doomed)| && Kept(ix.messages, doomed)[i].file == file
  {
    KeptMeaning(ix.messages, doomed);
    var k := (dir, file);
    var i :| 0 <= i < |ix.messages| && ix.messages[i].file == k.1;
    var m := ix.messages[i];
    assert m in ix.messages;
    assert m in Kept(ix.messages, doomed);
  }

  lemma RemoveAgrees(disk: Disk, dir: string, doomed: set<uint32>, now: int)
    requires Agree(disk) && CanOpen(disk, dir, now)
    ensures Agree(Remove(disk, dir, doomed, now).0)
  {
    if ReadIndex(disk, dir, now).Ok? {
      ReadOk(disk, dir, now);
      var ix := ReadIndex(disk, dir, now).value;
      KeptOk(ix, doomed);
      RemovedFilesOk(disk, dir, ix, doomed);
      var written := RemovedUpTo(disk, dir, ix.messages, doomed, |ix.messages|);
      RewrittenAgrees(disk, written, dir, ix.(messages := Kept(ix.messages, doomed)));
    }
  }

  /** Stopping Remove after any number of its file deletions and calling it again ends
      where one complete call ends. */
  lemma RemoveResumes(disk: Disk, dir: string, doomed: set<uint32>, k: nat, now: int, later: int)
    requires dir in disk.indexes && IndexOk(disk.indexes[dir]) && k <= |disk.indexes[dir].messages|
    ensures var stopped := RemovedUpTo(disk, dir, disk.indexes[dir].messages, doomed, k);
            Remove(stopped, dir, doomed, later) == Remove(disk, dir, doomed, now)
  {
    var ix := disk.indexes[dir];
    var all := ix.messages;
    assert all[..|all|] == all;
    var part, full := DoomedFiles(dir, all[..k], doomed), DoomedFiles(dir, all, doomed);
    assert part <= full;
    assert disk.bodies - part - full == disk.bodies - full;
  }

  // ---- creating, deleting, renaming

  lemma CreateAgrees(disk: Disk, dir: string, now: int)
    requires Agree(disk) && (dir !in disk.indexes ==> Stamp(now) != 0)
    ensures Agree(Create(disk, dir, now).0)
  {
    if Create(disk, dir, now).1.Ok? {
      RewrittenAgrees(disk, disk, dir, NewIndex(now));
    }
  }

  lemma DeleteAgrees(disk: Disk, dir: string)
    requires Agree(disk)
    ensures Agree(Delete(disk, dir).0)
  {
    if Delete(disk, dir).1.Ok? {
      var after := Erased(disk, dir);
      forall d | d in after.indexes ensures FilesOk(after, d, after.indexes[d]) {
        assert FilesOk(disk, d, disk.indexes[d]);
        UnerasedFilesOk(disk, dir, d);
      }
    }
  }

  lemma UnerasedFilesOk(disk: Disk, dir: string, d: string)
    requires d in disk.indexes && !Inside(d, dir) && FilesOk(disk, d, disk.indexes[d])
    ensures FilesOk(Erased(disk, dir), d, disk.indexes[d])
  {
  }

  /** Where a renamed file is found, and that nothing else moves. */
  lemma MovedBodies(disk: Disk, from: string, to: string)
    requires from in disk.indexes && from != to && !HoldsFiles(disk, to)
    ensures var after := Moved(disk, from, to);
            && (forall f :: (to, f) in after.bodies <==> (from, f) in disk.bodies)
            && (forall f :: (to, f) in after.bodies ==> after.bodies[(to, f)] == disk.bodies[(from, f)])
            && (forall f :: (from, f) !in after.bodies)
            && (forall k: (string, string) :: k.0 != from && k.0 != to ==> (k in after.bodies <==> k in disk.bodies))
            && (forall k: (string, string) :: k.0 != from && k.0 != to && k in disk.bodies ==> after.bodies[k] == disk.bodies[k])
  {
    var after := Moved(disk, from, to);
    forall f | (from, f) in disk.bodies ensures (to, f) in after.bodies {
      assert MovedKey((from, f), from, to) == (to, f);
    }
    forall f | (to, f) in after.bodies
      ensures (from, f) in disk.bodies && after.bodies[(to, f)] == disk.bodies[(from, f)]
    {
      var j :| j in disk.bodies && MovedKey(j, from, to) == (to, f);
      assert j == (from, f);
    }
    forall k: (string, string) | k.0 != from && k.0 != to
      ensures (k in after.bodies <==> k in disk.bodies) && (k in disk.bodies ==> after.bodies[k] == disk.bodies[k])
    {
      if k in disk.bodies {
        assert MovedKey(k, from, to) == k;
      }
    }
  }

  lemma RenameAgrees(disk: Disk, from: string, to: string)
    requires Agree(disk)
    ensures Agree(Rename(disk, from, to).0)
    ensures Rename(disk, from, to).1.Ok? <==>
              && from != INBOX_DIR && to != INBOX_DIR && from in disk.indexes && to !in disk.indexes
              && OwnDirectory(from) && OwnDirectory(to)
  {
    if Rename(disk, from, to).1.Ok? {
      MovedAgrees(disk, from, to);
    }
  }

  lemma MovedAgrees(disk: Disk, from: string, to: string)
    requires Agree(disk) && from in disk.indexes && from != to && !HoldsFiles(disk, to)
    ensures Agree(Moved(disk, from, to))
  {
    var after := Moved(disk, from, to);
    forall d | d in after.indexes ensures IndexOk(after.indexes[d]) && FilesOk(after, d, after.indexes[d]) {
      if d == to {
        MovedFilesOk(disk, from, to);
      } else {
        UnmovedFilesOk(disk, from, to, d);
      }
    }
    forall k | k in after.bodies ensures k.0 in after.indexes {
      MovedKeyListed(disk, from, to, k);
    }
  }

  lemma MovedKeyListed(disk: Disk, from: string, to: string, k: (string, string))
    requires from in disk.indexes && from != to && !HoldsFiles(disk, to)
    requires forall j :: j in disk.bodies ==> j.0 in disk.indexes
    requires k in Moved(disk, from, to).bodies
    ensures k.0 == to || (k.0 != from && k.0 in disk.indexes)
  {
    MovedBodies(disk, from, to);
    assert k == (k.0, k.1);
    if k.0 != to {
      assert k in disk.bodies;
    }
  }

  lemma UnmovedFilesOk(disk: Disk, from: string, to: string, dir: string)
    requires from in disk.indexes && from != to && !HoldsFiles(disk, to)
    requires dir != from && dir != to && dir in disk.indexes && FilesOk(disk, dir, disk.indexes[dir])
    ensures FilesOk(Moved(disk, from, to), dir, disk.indexes[dir])
  {
    MovedBodies(disk, from, to);
  }

  lemma MovedFilesOk(disk: Disk, from: string, to: string)
    requires from in disk.indexes && from != to && !HoldsFiles(disk, to)
    requires FilesOk(disk, from, disk.indexes[from])
    ensures FilesOk(Moved(disk, from, to), to, disk.indexes[from])
  {
    MovedBodies(disk, from, to);
    var after := Moved(disk, from, to);
    forall k | k in after.bodies && k.0 == to
      ensures exists i :: 0 <= i < |disk.indexes[from].messages| && disk.indexes[from].messages[i].file == k.1
    {
      assert (to, k.1) in after.bodies;
      assert (from, k.1) in disk.bodies;
    }
  }

  // ---- what the next look shows

  /** The new message comes last, under the UID the call answered, with the flags, size and
      date it was given; everything before it is listed as before. */
  lemma AppendedShown(disk: Disk, dir: string, flags: seq<string>, date: Date, body: Bytes, now: int, later: int)
    requires Agree(disk) && CanAppend(disk, dir, now)
    ensures var (after, uid) := Append(disk, dir, flags, date, body, now);
            var before := IndexToAppend(disk, dir, now);
            var added := NewMessage(uid, flags, date, body, now);
            && TakeSnapshot(after, dir, later)
               == Ok(Snapshot(dir, before.uidValidity, uid + 1, before.subscribed, before.messages + [added]))
            && added.size == |body| % UINT32_SIZE && View(added.flags) == View(flags) - UntrackedView()
            && added.date == if date == ZeroDate then Date(now) else date
  {
    IndexToAppendOk(disk, dir, now);
    NormaliseMeaning(flags);
    AppendLists(disk, dir, IndexToAppend(disk, dir, now), flags, date, body, now, later);
  }

  /** It reads as the body it was given, and what was there reads as before. */
  lemma AppendedReads(disk: Disk, dir: string, flags: seq<string>, date: Date, body: Bytes, now: int, m: Message)
    requires Agree(disk) && CanAppend(disk, dir, now)
    ensures var (after, uid) := Append(disk, dir, flags, date, body, now);
            && Body(after, dir, NewMessage(uid, flags, date, body, now)) == Some(body)
            && (m in IndexToAppend(disk, dir, now).messages ==> Body(after, dir, m) == Body(disk, dir, m))
  {
    IndexToAppendOk(disk, dir, now);
    var ix := IndexToAppend(disk, dir, now);
    if m in ix.messages {
      var i :| 0 <= i < |ix.messages| && ix.messages[i] == m;
      assert MessageOk(ix.messages[i]);
      PutBodyFrame(disk, dir, ix.uidNext, body, (dir, m.uid));
    }
  }

  lemma AppendLists(disk: Disk, dir: string, ix: Index, flags: seq<string>, date: Date, body: Bytes, now: int, later: int)
    requires IndexOk(ix) && ix.uidNext < UINT32_MAX
    ensures var after := WriteIndex(PutBody(disk, dir, ix.uidNext, body), dir, Appended(ix, flags, date, body, now));
            TakeSnapshot(after, dir, later)
            == Ok(Snapshot(dir, ix.uidValidity, ix.uidNext + 1, ix.subscribed,
                           ix.messages + [NewMessage(ix.uidNext, flags, date, body, now)]))
  {
  }

  /** A subscription changes what is shown of it and nothing else. */
  lemma SubscriptionShown(disk: Disk, dir: string, subscribed: bool, now: int, later: int)
    requires Agree(disk) && CanOpen(disk, dir, now)
    ensures var (after, r) := SetSubscribed(disk, dir, subscribed, now);
            var before := TakeSnapshot(disk, dir, now);
            && (r.Ok? <==> before.Ok?) && after.bodies == disk.bodies
            && (r.Ok? ==> TakeSnapshot(after, dir, later) == Ok(before.value.(subscribed := subscribed)))
  {
  }

  /** A new mailbox is subscribed and empty; it cannot be made twice. */
  lemma CreatedShown(disk: Disk, dir: string, now: int, later: int)
    requires Stamp(now) != 0
    ensures var (after, r) := Create(disk, dir, now);
            && (r.Ok? <==> dir != INBOX_DIR && TakeSnapshot(disk, dir, now).Err?)
            && (r.Ok? ==> TakeSnapshot(after, dir, later) == Ok(Snapshot(dir, Stamp(now), 1, true, [])))
            && Create(after, dir, later).1 == Err(MailboxExists)
  {
  }

  /** A deleted mailbox is gone with all its files, and so is every mailbox inside the
      directory it stands for; the others show what they did. */
  lemma DeletedIsGone(disk: Disk, dir: string, other: string, msg: Message, later: int)
    requires Delete(disk, dir).1.Ok?
    ensures var after := Delete(disk, dir).0;
            && TakeSnapshot(after, dir, later) == Err(NoSuchMailbox)
            && (Inside(other, dir) ==> other !in after.indexes && !HoldsFiles(after, other))
            && (!Inside(other, dir) ==>
                  && TakeSnapshot(after, other, later) == TakeSnapshot(disk, other, later)
                  && Body(after, other, msg) == Body(disk, other, msg))
  {
  }

  ghost predicate SparesOthers(before: Disk, after: Disk, dir: string) {
    && (forall d :: d in before.indexes && d != dir ==> d in after.indexes && after.indexes[d] == before.indexes[d])
    && (forall k :: k in before.bodies && k.0 != dir ==> k in after.bodies && after.bodies[k] == before.bodies[k])
  }

  /** With an INBOX there, deleting a mailbox leaves every other one in place exactly when
      its directory is its own. */
  lemma DeletionIsLocal(disk: Disk, dir: string)
    requires INBOX_DIR in disk.indexes && Delete(disk, dir).1.Ok?
    ensures SparesOthers(disk, Delete(disk, dir).0, dir) <==> OwnDirectory(dir)
  {
    if !OwnDirectory(dir) {
      assert Inside(INBOX_DIR, dir);
    }
  }

  /** Making and deleting the mailbox "." erases INBOX, whose next look is a new mailbox. */
  lemma DotErasesInbox(disk: Disk, now: int, later: int)
    requires INBOX_DIR in disk.indexes && "." !in disk.indexes
    ensures var after := Delete(Create(disk, ".", now).0, ".").0;
            && Create(disk, ".", now).1.Ok? && Delete(Create(disk, ".", now).0, ".").1.Ok?
            && INBOX_DIR !in after.indexes && !HoldsFiles(after, INBOX_DIR)
            && TakeSnapshot(after, INBOX_DIR, later) == Ok(Snapshot(INBOX_DIR, Stamp(later), 1, true, []))
  {
  }

  /** A renamed mailbox shows under its new name what it showed under the old one. */
  lemma RenamedShown(disk: Disk, from: string, to: string, msg: Message, later: int)
    requires Rename(disk, from, to).1.Ok?
    ensures var after := Rename(disk, from, to).0;
            && TakeSnapshot(after, from, later) == Err(NoSuchMailbox)
            && TakeSnapshot(disk, from, later).Ok?
            && TakeSnapshot(after, to, later) == Ok(TakeSnapshot(disk, from, later).value.(dir := to))
            && Body(after, to, msg) == Body(disk, from, msg)
  {
    MovedBodies(disk, from, to);
  }
}
