/** The store as its callers use it: mailboxes by name, one call at a time. Each method
    is proved against the call it makes on the disk. Clock readings are arguments. */
module MailStore {
  import opened Wrappers
  import opened Flags
  import opened MailboxNames
  import opened MailDisk
  import opened Copying

  /** Below the mail directory; the empty name is the mail directory itself. */
  function Joined(dir: string): string {
    if dir == "" then "." else dir
  }

  function DirOf(name: string): string {
    Joined(Encode(Canonical(name)))
  }

  lemma {:induction false} PlainNames(name: string)
    requires '%' !in Encode(name)
    ensures Encode(name) == name
  {
    if name != [] {
      var rest := Encode(name[1..]);
      assert Encode(name)[0] != '%';
      assert forall c :: c in rest ==> c in Encode(name);
      PlainNames(name[1..]);
    }
  }

  /** Only INBOX, in some casing, is stored in the directory INBOX. */
  lemma InboxDir(name: string)
    ensures DirOf(name) == INBOX_DIR <==> Canonical(name) == INBOX
  {
    if DirOf(name) == INBOX_DIR {
      PlainNames(Canonical(name));
    }
    if Canonical(name) == INBOX {
      EncodeInbox();
    }
  }

  lemma EncodeInbox()
    ensures Encode("INBOX") == "INBOX"
  {
    assert "INBOX"[1..] == "NBOX" && "NBOX"[1..] == "BOX" && "BOX"[1..] == "OX";
    assert "OX"[1..] == "X" && "X"[1..] == "";
  }

  lemma InboxHome()
    ensures DirOf(INBOX) == INBOX_DIR
  {
    InboxDir(INBOX);
    CanonicalOfInbox();
  }

  /** How far the writes of an append get. */
  datatype Writes = AllWritten | BodyFails | IndexFails

  class Store {
    var indexes: map<string, Index>
    var bodies: map<(string, string), Bytes>

    constructor ()
      ensures Contents() == Disk(map[], map[])
    {
      indexes, bodies := map[], map[];
    }

    function Contents(): Disk
      reads this
    {
      Disk(indexes, bodies)
    }

    method MailboxDir(name: string) returns (dir: string)
      ensures dir == DirOf(name)
    {
      dir := EncodeMailboxName(Canonical(name));
      if dir == "" {
        dir := ".";
      }
    }

    method ReadIndex(name: string, now: int) returns (r: Result<Index, Error>)
      ensures r == MailDisk.ReadIndex(Contents(), DirOf(name), now)
    {
      InboxDir(name);
      var canonical := Canonical(name);
      var dir := MailboxDir(name);
      if dir !in indexes {
        if canonical != INBOX {
          return Err(NoSuchMailbox);
        }
        return Ok(NewIndex(now));
      }
      var index := indexes[dir];
      if index.uidValidity == 0 {
        index := index.(uidValidity := Stamp(now));
      }
      if index.uidNext == 0 {
        index := index.(uidNext := 1);
      }
      return Ok(index);
    }

    method WriteIndex(name: string, index: Index)
      modifies this`indexes
      ensures Contents() == MailDisk.WriteIndex(old(Contents()), DirOf(name), index)
    {
      var dir := MailboxDir(name);
      indexes := indexes[dir := index];
    }

    method Snapshot(name: string, now: int) returns (r: Result<Snapshot, Error>)
      ensures r == TakeSnapshot(Contents(), DirOf(name), now)
    {
      var read := ReadIndex(name, now);
      if read.Err? {
        return Err(read.error);
      }
      var index := read.value;
      var messages := DeepCopy(index.messages);
      var dir := MailboxDir(name);
      return Ok(MailDisk.Snapshot(dir, index.uidValidity, index.uidNext, index.subscribed, messages));
    }

    method DeepCopy(messages: seq<Message>) returns (copied: seq<Message>)
      ensures copied == messages
    {
      copied := [];
      for i := 0 to |messages|
        invariant copied == messages[..i]
      {
        copied := copied + [messages[i]];
      }
    }

    method SetSubscribed(name: string, subscribed: bool, now: int) returns (r: Result<(), Error>)
      modifies this
      ensures (Contents(), r) == MailDisk.SetSubscribed(old(Contents()), DirOf(name), subscribed, now)
    {
      var read := ReadIndex(name, now);
      if read.Err? {
        return Err(read.error);
      }
      WriteIndex(name, read.value.(subscribed := subscribed));
      return Ok(());
    }

    /** A mailbox that cannot be read is started anew. */
    method IndexFor(name: string, now: int) returns (index: Index)
      ensures index == IndexToAppend(Contents(), DirOf(name), now)
    {
      CanonicalIdempotent(name);
      var read := ReadIndex(Canonical(name), now);
      return if read.Err? then NewIndex(now) else read.value;
    }

    method WriteBody(name: string, uid: uint32, body: Bytes)
      modifies this`bodies
      ensures Contents() == PutBody(old(Contents()), DirOf(name), uid, body)
    {
      var dir := MailboxDir(name);
      bodies := bodies[(dir, FileName(uid)) := body];
    }

    /** Body file first, then the index; a failed write leaves what came before it. */
    method Append(name: string, flags: seq<string>, date: Date, body: Bytes, now: int, writes: Writes)
      returns (r: Result<uint32, Error>)
      modifies this
      ensures writes.AllWritten? ==>
                r.Ok? && (Contents(), r.value) == MailDisk.Append(old(Contents()), DirOf(name), flags, date, body, now)
      ensures writes.BodyFails? ==> r == Err(IoError) && Contents() == old(Contents())
      ensures writes.IndexFails? ==>
                r == Err(IoError)
                && Contents() == PutBody(old(Contents()), DirOf(name),
                                         IndexToAppend(old(Contents()), DirOf(name), now).uidNext, body)
    {
      var index := IndexFor(name, now);
      var uid := index.uidNext;
      if writes.BodyFails? {
        return Err(IoError);
      }
      WriteBody(name, uid, body);
      index := AddMessage(index, flags, date, |body| % UINT32_SIZE, now, body);
      if writes.IndexFails? {
        return Err(IoError);
      }
      WriteIndex(name, index);
      return Ok(uid);
    }

    static method AddMessage(index: Index, flags: seq<string>, date: Date, size: uint32, now: int, ghost body: Bytes)
      returns (after: Index)
      requires size == |body| % UINT32_SIZE
      ensures after == Appended(index, flags, date, body, now)
    {
      var stored := date;
      if stored == ZeroDate {
        stored := Date.Date(now);
      }
      var uid := index.uidNext;
      var kept := NormaliseFlags(flags);
      after := index.(messages := index.messages + [Message(uid, FileName(uid), size, stored, kept)]);
      after := after.(uidNext := (uid + 1) % UINT32_SIZE);
    }

    method Body(mailbox: string, msg: Message) returns (r: Option<Bytes>)
      ensures r == MailDisk.Body(Contents(), DirOf(mailbox), msg)
    {
      var dir := MailboxDir(mailbox);
      if (dir, msg.file) in bodies {
        return Some(bodies[(dir, msg.file)]);
      }
      return None;
    }

    method SetFlags(name: string, uids: seq<uint32>, flags: seq<string>, op: FlagOp, now: int)
      returns (r: Result<(), Error>)
      modifies this
      ensures (Contents(), r) == MailDisk.SetFlags(old(Contents()), DirOf(name), UidSet(uids), flags, op, now)
    {
      var read := ReadIndex(name, now);
      if read.Err? {
        return Err(read.error);
      }
      var wanted := SetOf(uids);
      var messages := ReflagEach(read.value.messages, wanted, flags, op);
      WriteIndex(name, read.value.(messages := messages));
      return Ok(());
    }

    method ReflagEach(stored: seq<Message>, wanted: set<uint32>, flags: seq<string>, op: FlagOp)
      returns (messages: seq<Message>)
      ensures messages == ReflagAll(stored, wanted, flags, op)
    {
      messages := stored;
      for i := 0 to |messages|
        invariant |messages| == |stored|
        invariant forall j :: 0 <= j < i ==> messages[j] == Reflagged(stored[j], wanted, flags, op)
        invariant forall j :: i <= j < |messages| ==> messages[j] == stored[j]
      {
        if messages[i].uid !in wanted {
          continue;
        }
        var applied := ApplyFlags(messages[i].flags, flags, op);
        messages := messages[i := messages[i].(flags := applied)];
      }
    }

    method SetOf(uids: seq<uint32>) returns (s: set<uint32>)
      ensures s == UidSet(uids)
    {
      s := {};
      for i := 0 to |uids|
        invariant s == UidSet(uids[..i])
      {
        s := s + {uids[i]};
      }
      assert uids[..|uids|] == uids;
    }

    method Remove(name: string, uids: seq<uint32>, now: int) returns (r: Result<(), Error>)
      modifies this
      ensures (Contents(), r) == MailDisk.Remove(old(Contents()), DirOf(name), UidSet(uids), now)
    {
      var read := ReadIndex(name, now);
      if read.Err? {
        return Err(read.error);
      }
      var index := read.value;
      var doomed := SetOf(uids);
      var dir := MailboxDir(name);
      var kept := RemoveFiles(dir, index.messages, doomed);
      WriteIndex(name, index.(messages := kept));
      return Ok(());
    }

    method RemoveFiles(dir: string, messages: seq<Message>, doomed: set<uint32>) returns (kept: seq<Message>)
      modifies this`bodies
      ensures kept == Kept(messages, doomed)
      ensures Contents() == RemovedUpTo(old(Contents()), dir, messages, doomed, |messages|)
    {
      kept := [];
      for i := 0 to |messages|
        invariant kept == Kept(messages[..i], doomed)
        invariant bodies == old(bodies) - DoomedFiles(dir, messages[..i], doomed)
      {
        assert messages[..i + 1][..i] == messages[..i];
        var msg := messages[i];
        DoomedStep(dir, messages, doomed, i);
        if msg.uid !in doomed {
          kept := kept + [msg];
          continue;
        }
        bodies := bodies - {(dir, msg.file)};
      }
      assert messages[..|messages|] == messages;
    }

    method CreateMailbox(name: string, now: int) returns (r: Result<(), Error>)
      modifies this
      ensures Canonical(name) == "" ==> r == Err(NoSuchMailbox) && Contents() == old(Contents())
      ensures Canonical(name) != "" ==> (Contents(), r) == Create(old(Contents()), DirOf(name), now)
    {
      InboxDir(name);
      if Canonical(name) == "" {
        return Err(NoSuchMailbox);
      }
      var dir := MailboxDir(name);
      if dir in indexes {
        return Err(MailboxExists);
      }
      if Canonical(name) == INBOX {
        return Err(MailboxExists);
      }
      WriteIndex(name, NewIndex(now));
      return Ok(());
    }

    method DeleteMailbox(name: string) returns (r: Result<(), Error>)
      modifies this
      ensures (Contents(), r) == Delete(old(Contents()), DirOf(name))
    {
      InboxDir(name);
      if Canonical(name) == INBOX {
        return Err(MailboxForbidden);
      }
      var dir := MailboxDir(name);
      if dir !in indexes {
        return Err(NoSuchMailbox);
      }
      RemoveAll(dir);
      return Ok(());
    }

    /** The whole tree below the directory goes. */
    method RemoveAll(dir: string)
      modifies this
      ensures Contents() == Erased(old(Contents()), dir)
    {
      indexes := map d | d in indexes && !Inside(d, dir) :: indexes[d];
      bodies := map k | k in bodies && !Inside(k.0, dir) :: bodies[k];
    }

    method RenameMailbox(from: string, to: string) returns (r: Result<(), Error>)
      modifies this
      ensures (Contents(), r) == Rename(old(Contents()), DirOf(from), DirOf(to))
    {
      InboxDir(from);
      InboxDir(to);
      if Canonical(from) == INBOX || Canonical(to) == INBOX {
        return Err(MailboxForbidden);
      }
      var fromDir := MailboxDir(from);
      var toDir := MailboxDir(to);
      if fromDir !in indexes {
        return Err(NoSuchMailbox);
      }
      if toDir in indexes {
        return Err(MailboxExists);
      }
      if HoldsFiles(Contents(), toDir) || !OwnDirectory(fromDir) || !OwnDirectory(toDir) {
        return Err(IoError);
      }
      var moved := Moved(Contents(), fromDir, toDir);
      indexes, bodies := moved.indexes, moved.bodies;
      return Ok(());
    }

    method Copy(from: string, to: string, uids: seq<uint32>, now: int) returns (r: Result<(), Error>)
      modifies this
      ensures (Contents(), r) == Copying.Copy(old(Contents()), DirOf(from), DirOf(to), UidSet(uids), now)
    {
      var source := Snapshot(from, now);
      if source.Err? {
        return Err(source.error);
      }
      var check := ReadIndex(to, now);
      if check.Err? {
        return Err(check.error);
      }
      var wanted := SetOf(uids);
      r := CopyEach(from, to, source.value.messages, wanted, now);
    }

    method CopyEach(from: string, to: string, messages: seq<Message>, wanted: set<uint32>, now: int)
      returns (r: Result<(), Error>)
      modifies this
      ensures (Contents(), r) ==
              CopyAll(old(Contents()), DirOf(from), DirOf(to), Selected(messages, wanted), now)
    {
      assert messages[0..] == messages;
      for i := 0 to |messages|
        invariant CopyAll(Contents(), DirOf(from), DirOf(to), Selected(messages[i..], wanted), now)
               == CopyAll(old(Contents()), DirOf(from), DirOf(to), Selected(messages, wanted), now)
      {
        ghost var rest := Selected(messages[i + 1..], wanted);
        SelectedFront(messages[i..], wanted);
        assert messages[i..][1..] == messages[i + 1..];
        var msg := messages[i];
        if msg.uid !in wanted {
          assert [] + rest == rest;
          continue;
        }
        CopyAllUnfold(Contents(), DirOf(from), DirOf(to), msg, rest, now);
        var body := Body(from, msg);
        if body.None? {
          return Err(IoError);
        }
        var appended := Append(to, msg.flags, msg.date, body.value, now, AllWritten);
      }
      return Ok(());
    }

    /** The directories inside the mail directory, in whatever order the file system returns
        them. */
    method ReadDir() returns (dirs: seq<string>)
      ensures NoDuplicates(dirs)
      ensures forall d :: d in dirs <==> OwnDirectory(d) && (d in indexes || HoldsFiles(Contents(), d))
    {
      var left := set d | d in indexes.Keys + (set k | k in bodies :: k.0) && OwnDirectory(d);
      ghost var all := left;
      dirs := [];
      while left != {}
        invariant NoDuplicates(dirs)
        invariant forall d :: d in all <==> d in dirs || d in left
        invariant forall d :: d in dirs ==> d !in left
        decreases left
      {
        var d :| d in left;
        left := left - {d};
        dirs := dirs + [d];
      }
    }

    /** LIST: INBOX first, then exactly the stored names, ascending. */
    method ListMailboxes() returns (names: seq<string>)
      ensures forall stored :: HoldsNames(Contents(), stored) ==> ListsNames(names, stored)
    {
      var dirs := ReadDir();
      names := MailboxNames.ListMailboxes(dirs);
      forall stored | HoldsNames(Contents(), stored) ensures ListsNames(names, stored) {
        ListingOfDisk(Contents(), dirs, stored);
      }
    }
  }

  lemma CopyAllUnfold(disk: Disk, from: string, to: string, msg: Message, rest: seq<Message>, now: int)
    ensures CopyAll(disk, from, to, [msg] + rest, now) ==
            match Body(disk, from, msg)
            case None => (disk, Err(IoError))
            case Some(body) => CopyAll(Append(disk, to, msg.flags, msg.date, body, now).0, from, to, rest, now)
  {
    assert ([msg] + rest)[1..] == rest;
  }

  // ---- which names are stored

  function Dirs(names: set<string>): set<string> {
    set n | n in names :: Encode(n)
  }

  function OwnDirs(dirs: set<string>): set<string> {
    set d | d in dirs && OwnDirectory(d)
  }

  /** The mailboxes with a directory of their own are the named ones; INBOX always counts. */
  ghost predicate HoldsNames(disk: Disk, names: set<string>) {
    && AllCanonical(names) && AllReadBack(names) && INBOX in names
    && OwnDirs(disk.indexes.Keys) + {INBOX_DIR} == Dirs(names)
    && forall k :: k in disk.bodies ==> k.0 in disk.indexes
  }

  ghost predicate ListsNames(listing: seq<string>, names: set<string>) {
    && listing != [] && listing[0] == INBOX && Sorted(listing[1..]) && NoDuplicates(listing)
    && forall n :: n in listing <==> n in names
  }

  lemma ListingOfDisk(disk: Disk, dirs: seq<string>, names: set<string>)
    requires NoDuplicates(dirs)
    requires forall d :: d in dirs <==> OwnDirectory(d) && (d in disk.indexes || HoldsFiles(disk, d))
    requires HoldsNames(disk, names)
    ensures ListsNames(Listing(dirs), names)
  {
    DirsAreNamed(disk, dirs, names);
    var stored := NamesBehind(dirs, names);
    EncodeInbox();
    forall n | n in names && n != INBOX ensures n in stored {
      NameIsBehind(dirs, stored, names, n);
    }
    ListingOfNames(stored, names);
  }

  lemma ListingOfNames(stored: seq<string>, names: set<string>)
    requires AllCanonical(names) && AllReadBack(names) && INBOX in names && NoDuplicates(stored)
    requires forall i :: 0 <= i < |stored| ==> stored[i] in names
    requires forall n :: n in names && n != INBOX ==> n in stored
    ensures ListsNames(Listing(EncodeAll(stored)), names)
  {
    ListingIsTheStoredNames(stored);
    forall n | n in stored ensures n in names {
      var i :| 0 <= i < |stored| && stored[i] == n;
    }
  }

  lemma DirsAreNamed(disk: Disk, dirs: seq<string>, names: set<string>)
    requires forall d :: d in dirs <==> OwnDirectory(d) && (d in disk.indexes || HoldsFiles(disk, d))
    requires OwnDirs(disk.indexes.Keys) + {INBOX_DIR} == Dirs(names)
    requires forall k :: k in disk.bodies ==> k.0 in disk.indexes
    ensures forall i :: 0 <= i < |dirs| ==> dirs[i] in Dirs(names)
    ensures forall d :: d in Dirs(names) ==> d in dirs || d == INBOX_DIR
  {
    forall i | 0 <= i < |dirs| ensures dirs[i] in OwnDirs(disk.indexes.Keys) {
      assert dirs[i] in dirs;
      if HoldsFiles(disk, dirs[i]) {
        var k :| k in disk.bodies && k.0 == dirs[i];
      }
    }
  }

  lemma NameIsBehind(dirs: seq<string>, stored: seq<string>, names: set<string>, n: string)
    requires AllReadBack(names) && INBOX in names && Encode(INBOX) == INBOX_DIR
    requires EncodeAll(stored) == dirs && forall i :: 0 <= i < |stored| ==> stored[i] in names
    requires n in names && n != INBOX
    requires forall d :: d in Dirs(names) ==> d in dirs || d == INBOX_DIR
    ensures n in stored
  {
    assert Decode(Encode(n)) == n && Decode(Encode(INBOX)) == INBOX;
    assert Encode(n) in Dirs(names);
    var i :| 0 <= i < |dirs| && dirs[i] == Encode(n);
    assert Decode(Encode(stored[i])) == stored[i];
  }

  /** The stored names, in the order their directories are read. */
  lemma {:induction false} NamesBehind(dirs: seq<string>, names: set<string>) returns (stored: seq<string>)
    requires NoDuplicates(dirs)
    requires forall i :: 0 <= i < |dirs| ==> dirs[i] in Dirs(names)
    ensures EncodeAll(stored) == dirs && NoDuplicates(stored)
    ensures forall i :: 0 <= i < |stored| ==> stored[i] in names
  {
    if dirs == [] {
      stored := [];
    } else {
      var init, dir := dirs[..|dirs| - 1], dirs[|dirs| - 1];
      var before := NamesBehind(init, names);
      assert dir in Dirs(names);
      var name :| name in names && Encode(name) == dir;
      stored := before + [name];
      EncodeAllExtend(before, name);
      forall i | 0 <= i < |before| ensures before[i] != name {
        assert EncodeAll(before)[i] == dirs[i];
      }
    }
  }

  lemma EncodeAllExtend(names: seq<string>, name: string)
    ensures EncodeAll(names + [name]) == EncodeAll(names) + [Encode(name)]
  {
  }
}
