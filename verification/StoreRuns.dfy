/** Whole runs of undisturbed store calls: index and files agree throughout, and LIST
    shows exactly what was created. */
module StoreRuns {
  import opened Flags
  import opened Text
  import opened MailboxNames
  import opened MailDisk
  import opened Copying
  import opened MailStore

  datatype Call =
    | Append(name: string, flags: seq<string>, date: Date, body: Bytes)
    | SetFlags(name: string, uids: set<uint32>, flags: seq<string>, op: FlagOp)
    | SetSubscribed(name: string, subscribed: bool)
    | Copy(name: string, dest: string, uids: set<uint32>)
    | Remove(name: string, uids: set<uint32>)
    | Create(name: string)
    | Delete(name: string)
    | Rename(name: string, dest: string)

  function Dest(call: Call): string {
    if call.Copy? || call.Rename? then call.dest else call.name
  }

  function Do(disk: Disk, call: Call, now: int): Disk {
    DoAt(disk, call, Canonical(call.name) == "", DirOf(call.name), DirOf(Dest(call)), now)
  }

  /** The same by directories. */
  function DoAt(disk: Disk, call: Call, blank: bool, dir: string, dest: string, now: int): Disk {
    match call
    case Append(_, flags, date, body) => MailDisk.Append(disk, dir, flags, date, body, now).0
    case SetFlags(_, uids, flags, op) => MailDisk.SetFlags(disk, dir, uids, flags, op, now).0
    case SetSubscribed(_, subscribed) => MailDisk.SetSubscribed(disk, dir, subscribed, now).0
    case Copy(_, _, uids) => Copying.Copy(disk, dir, dest, uids, now).0
    case Remove(_, uids) => MailDisk.Remove(disk, dir, uids, now).0
    case Create(_) => if blank then disk else MailDisk.Create(disk, dir, now).0
    case Delete(_) => MailDisk.Delete(disk, dir).0
    case Rename(_, _) => MailDisk.Rename(disk, dir, dest).0
  }

  /** The UIDs a call needs are still available: fewer than 2^32 - 1 appends per mailbox. */
  predicate Room(disk: Disk, call: Call, now: int) {
    match call
    case Append(name, _, _, _) => CanAppend(disk, DirOf(name), now)
    case Copy(name, dest, uids) =>
      var source := TakeSnapshot(disk, DirOf(name), now);
      var target := ReadIndex(disk, DirOf(dest), now);
      source.Ok? && target.Ok? ==>
        target.value.uidNext + |Selected(source.value.messages, uids)| <= UINT32_MAX
    case _ => true
  }

  lemma DoAgrees(disk: Disk, call: Call, now: int)
    requires Agree(disk) && Stamp(now) != 0 && Room(disk, call, now)
    ensures Agree(Do(disk, call, now))
  {
    var dir := DirOf(call.name);
    match call
    case Append(_, flags, date, body) => AppendAgrees(disk, dir, flags, date, body, now);
    case SetFlags(_, uids, flags, op) => SetFlagsAgrees(disk, dir, uids, flags, op, now);
    case SetSubscribed(_, subscribed) => SetSubscribedAgrees(disk, dir, subscribed, now);
    case Copy(_, dest, uids) =>
      if TakeSnapshot(disk, dir, now).Ok? && ReadIndex(disk, DirOf(dest), now).Ok? {
        CopyMeaning(disk, dir, DirOf(dest), uids, now);
      }
    case Remove(_, uids) => RemoveAgrees(disk, dir, uids, now);
    case Create(_) => CreateAgrees(disk, dir, now);
    case Delete(_) => DeleteAgrees(disk, dir);
    case Rename(_, dest) => RenameAgrees(disk, dir, DirOf(dest));
  }

  function Run(disk: Disk, calls: seq<(Call, int)>): Disk {
    if calls == [] then disk
    else
      var before := Run(disk, calls[..|calls| - 1]);
      Do(before, calls[|calls| - 1].0, calls[|calls| - 1].1)
  }

  predicate OwnCall(call: Call) {
    OwnDirectory(DirOf(call.name)) && OwnDirectory(DirOf(Dest(call)))
  }

  /** A run on names with a directory of their own, with room throughout and a clock that
      never reads zero. */
  predicate Roomy(disk: Disk, calls: seq<(Call, int)>) {
    calls == [] ||
    (&& Roomy(disk, calls[..|calls| - 1])
     && OwnCall(calls[|calls| - 1].0) && Stamp(calls[|calls| - 1].1) != 0
     && Room(Run(disk, calls[..|calls| - 1]), calls[|calls| - 1].0, calls[|calls| - 1].1))
  }

  const Empty := Disk(map[], map[])

  /** After any run of calls every indexed message has its file, of the recorded size,
      and every file has its record. */
  lemma {:induction false} RunAgrees(calls: seq<(Call, int)>)
    requires Roomy(Empty, calls)
    ensures Agree(Run(Empty, calls))
  {
    if calls != [] {
      var init := calls[..|calls| - 1];
      RunAgrees(init);
      DoAgrees(Run(Empty, init), calls[|calls| - 1].0, calls[|calls| - 1].1);
    }
  }

  // ---- names

  /** Names that read back and have a directory of their own. */
  predicate NamesOk(call: Call) {
    Latin1(call.name) && Latin1(Dest(call)) && OwnCall(call)
  }

  /** What a call does to the collection of mailboxes, whatever stands for a mailbox:
      a directory or a name. */
  function Changed<T(==)>(all: set<T>, call: Call, blank: bool, self: T, dest: T, inbox: T): set<T> {
    match call
    case Append(_, _, _, _) => all + {self}
    case Create(_) => if blank then all else all + {self}
    case Delete(_) => if self == inbox then all else all - {self}
    case Rename(_, _) =>
      if self == inbox || dest == inbox || self !in all || dest in all then all
      else all - {self} + {dest}
    case _ => all
  }

  function Image<S, T>(f: S -> T, all: set<S>): set<T> {
    set x | x in all :: f(x)
  }

  lemma ChangedImage<S, T>(f: S -> T, all: set<S>, call: Call, blank: bool, self: S, dest: S, inbox: S)
    requires forall x, y :: x in all + {self, dest, inbox} && y in all + {self, dest, inbox} && f(x) == f(y) ==> x == y
    ensures Image(f, Changed(all, call, blank, self, dest, inbox)) ==
            Changed(Image(f, all), call, blank, f(self), f(dest), f(inbox))
    ensures Changed(all, call, blank, self, dest, inbox) <= all + {self, dest}
    ensures inbox in all ==> inbox in Changed(all, call, blank, self, dest, inbox)
  {
    var image := Image(f, all);
    assert self in all <==> f(self) in image;
    assert dest in all <==> f(dest) in image;
    assert Image(f, all + {self}) == image + {f(self)};
    assert Image(f, all - {self}) == image - {f(self)};
    assert Image(f, all - {self} + {dest}) == image - {f(self)} + {f(dest)};
  }

  lemma {:induction false} CopyAllKeys(disk: Disk, from: string, to: string, messages: seq<Message>, now: int)
    ensures disk.indexes.Keys <= CopyAll(disk, from, to, messages, now).0.indexes.Keys <= disk.indexes.Keys + {to}
    decreases |messages|
  {
    if messages != [] && MailDisk.Body(disk, from, messages[0]).Some? {
      var body := MailDisk.Body(disk, from, messages[0]).value;
      var first := MailDisk.Append(disk, to, messages[0].flags, messages[0].date, body, now).0;
      assert first.indexes.Keys == disk.indexes.Keys + {to};
      CopyAllKeys(first, from, to, messages[1..], now);
    }
  }

  /** The directories LIST reads, INBOX always among them. */
  function ListedDirs(disk: Disk): set<string> {
    disk.indexes.Keys + {INBOX_DIR}
  }

  function DirsAfter(dirs: set<string>, call: Call): set<string> {
    Changed(dirs, call, Canonical(call.name) == "", DirOf(call.name), DirOf(Dest(call)), INBOX_DIR)
  }

  lemma RenamedDirs(disk: Disk, from: string, to: string)
    requires Agree(disk) && OwnDirectory(from) && OwnDirectory(to)
    ensures ListedDirs(MailDisk.Rename(disk, from, to).0) ==
            if from == INBOX_DIR || to == INBOX_DIR || from !in ListedDirs(disk) || to in ListedDirs(disk)
            then ListedDirs(disk) else ListedDirs(disk) - {from} + {to}
  {
    RenameAgrees(disk, from, to);
    var after := MailDisk.Rename(disk, from, to).0;
    if after != disk {
      assert after.indexes.Keys == disk.indexes.Keys - {from} + {to};
    }
  }

  lemma CopiedDirs(disk: Disk, from: string, to: string, uids: set<uint32>, now: int)
    ensures ListedDirs(Copying.Copy(disk, from, to, uids, now).0) == ListedDirs(disk)
  {
    if TakeSnapshot(disk, from, now).Ok? && ReadIndex(disk, to, now).Ok? {
      CopyAllKeys(disk, from, to, Selected(TakeSnapshot(disk, from, now).value.messages, uids), now);
    }
  }

  lemma WrittenDirs(disk: Disk, after: Disk, dir: string, now: int)
    requires ReadIndex(disk, dir, now).Ok?
    requires after.indexes.Keys == disk.indexes.Keys + {dir}
    ensures ListedDirs(after) == ListedDirs(disk)
  {
  }

  lemma ReflaggedDirs(disk: Disk, dir: string, uids: set<uint32>, flags: seq<string>, op: FlagOp, now: int)
    ensures ListedDirs(MailDisk.SetFlags(disk, dir, uids, flags, op, now).0) == ListedDirs(disk)
  {
    if ReadIndex(disk, dir, now).Ok? {
      WrittenDirs(disk, MailDisk.SetFlags(disk, dir, uids, flags, op, now).0, dir, now);
    }
  }

  lemma SubscribedDirs(disk: Disk, dir: string, subscribed: bool, now: int)
    ensures ListedDirs(MailDisk.SetSubscribed(disk, dir, subscribed, now).0) == ListedDirs(disk)
  {
    if ReadIndex(disk, dir, now).Ok? {
      WrittenDirs(disk, MailDisk.SetSubscribed(disk, dir, subscribed, now).0, dir, now);
    }
  }

  lemma RemovedDirs(disk: Disk, dir: string, uids: set<uint32>, now: int)
    ensures ListedDirs(MailDisk.Remove(disk, dir, uids, now).0) == ListedDirs(disk)
  {
    if ReadIndex(disk, dir, now).Ok? {
      WrittenDirs(disk, MailDisk.Remove(disk, dir, uids, now).0, dir, now);
    }
  }

  lemma AppendedDirs(disk: Disk, dir: string, flags: seq<string>, date: Date, body: Bytes, now: int)
    ensures ListedDirs(MailDisk.Append(disk, dir, flags, date, body, now).0) == ListedDirs(disk) + {dir}
  {
    assert MailDisk.Append(disk, dir, flags, date, body, now).0.indexes.Keys == disk.indexes.Keys + {dir};
  }

  lemma CreatedDirs(disk: Disk, dir: string, now: int)
    requires OwnDirectory(dir)
    ensures ListedDirs(MailDisk.Create(disk, dir, now).0) == ListedDirs(disk) + {dir}
    ensures ListedDirs(MailDisk.Delete(disk, dir).0) ==
            if dir == INBOX_DIR then ListedDirs(disk) else ListedDirs(disk) - {dir}
  {
    if MailDisk.Delete(disk, dir).1.Ok? {
      assert Erased(disk, dir).indexes.Keys == disk.indexes.Keys - {dir};
    }
  }

  lemma DirsOfDo(disk: Disk, call: Call, now: int)
    requires Agree(disk) && OwnCall(call)
    ensures ListedDirs(Do(disk, call, now)) == DirsAfter(ListedDirs(disk), call)
  {
    DirsOfDoAt(disk, call, Canonical(call.name) == "", DirOf(call.name), DirOf(Dest(call)), now);
  }

  lemma DirsOfDoAt(disk: Disk, call: Call, blank: bool, dir: string, dest: string, now: int)
    requires Agree(disk) && OwnDirectory(dir) && OwnDirectory(dest)
    ensures ListedDirs(DoAt(disk, call, blank, dir, dest, now)) == Changed(ListedDirs(disk), call, blank, dir, dest, INBOX_DIR)
  {
    match call {
      case Append(_, flags, date, body) => AppendedDirs(disk, dir, flags, date, body, now);
      case SetFlags(_, uids, flags, op) => ReflaggedDirs(disk, dir, uids, flags, op, now);
      case SetSubscribed(_, subscribed) => SubscribedDirs(disk, dir, subscribed, now);
      case Copy(_, _, uids) => CopiedDirs(disk, dir, dest, uids, now);
      case Remove(_, uids) => RemovedDirs(disk, dir, uids, now);
      case Create(_) => CreatedDirs(disk, dir, now);
      case Delete(_) => CreatedDirs(disk, dir, now);
      case Rename(_, _) => RenamedDirs(disk, dir, dest);
    }
  }

  // ---- from directories to names

  function NamesAfter(names: set<string>, call: Call): set<string> {
    Changed(names, call, Canonical(call.name) == "", Canonical(call.name), Canonical(Dest(call)), INBOX)
  }

  lemma EncodeOneToOne(f: string -> string, names: set<string>)
    requires AllReadBack(names)
    requires forall n :: f(n) == Encode(n)
    ensures forall x, y :: x in names && y in names && f(x) == f(y) ==> x == y
  {
    forall x, y | x in names && y in names && f(x) == f(y) ensures x == y {
      assert Decode(Encode(x)) == x && Decode(Encode(y)) == y;
    }
  }

  lemma DirsAreImages(f: string -> string, names: set<string>)
    requires forall n :: f(n) == Encode(n)
    ensures Dirs(names) == Image(f, names)
  {
  }

  lemma CanonicalReadsBack(name: string)
    requires Latin1(name)
    ensures Decode(Encode(Canonical(name))) == Canonical(name)
  {
    CanonicalIsLatin1(name);
    RoundTrip(Canonical(name));
  }

  lemma CanonicalIsLatin1(name: string)
    requires Latin1(name)
    ensures Latin1(Canonical(name))
  {
    TrimmedIsPart(name, {'/'});
    InboxIsLatin1();
    InboxOrTrimmed(name);
  }

  lemma InboxIsLatin1()
    ensures Latin1(INBOX)
  {
  }

  lemma InboxOrTrimmed(name: string)
    ensures Canonical(name) == INBOX || Canonical(name) == Trim(name, {'/'})
  {
  }

  /** Trimming only drops characters. */
  lemma TrimmedIsPart(s: string, cut: set<char>)
    requires Latin1(s)
    ensures Latin1(Trim(s, cut))
  {
    var left := TrimLeft(s, cut);
    assert left == s[|s| - |left|..];
    assert Trim(s, cut) <= left;
  }

  lemma StayReadBack(names: set<string>, name: string, dest: string, after: set<string>)
    requires AllReadBack(names) && after <= names + {name, dest}
    requires Decode(Encode(name)) == name && Decode(Encode(dest)) == dest
    ensures AllReadBack(after)
  {
    forall n | n in after ensures Decode(Encode(n)) == n {
      assert n in names || n == name || n == dest;
    }
  }

  lemma StayCanonical(names: set<string>, name: string, dest: string, after: set<string>)
    requires AllCanonical(names) && after <= names + {name, dest}
    requires Canonical(name) == name && Canonical(dest) == dest
    ensures AllCanonical(after)
  {
    StayFixed(Canonical, names, name, dest, after);
  }

  lemma StayFixed(f: string -> string, names: set<string>, name: string, dest: string, after: set<string>)
    requires forall n :: n in names ==> f(n) == n
    requires after <= names + {name, dest} && f(name) == name && f(dest) == dest
    ensures forall n :: n in after ==> f(n) == n
  {
    forall n | n in after ensures f(n) == n {
      assert n in names || n == name || n == dest;
    }
  }

  /** The two views of one call: as sets of names and as sets of directories. */
  lemma NamesOfCall(names: set<string>, call: Call)
    requires AllReadBack(names) && INBOX in names && NamesOk(call)
    ensures AllReadBack(NamesAfter(names, call)) && INBOX in NamesAfter(names, call)
    ensures Dirs(NamesAfter(names, call)) == DirsAfter(Dirs(names), call)
  {
    var name, dest := Canonical(call.name), Canonical(Dest(call));
    OwnDir(call.name);
    OwnDir(Dest(call));
    CanonicalReadsBack(call.name);
    CanonicalReadsBack(Dest(call));
    EncodeInbox();
    NamesOfCanonical(names, call, Canonical(call.name) == "", name, dest);
  }

  lemma OwnDir(name: string)
    requires OwnDirectory(DirOf(name))
    ensures DirOf(name) == Encode(Canonical(name))
  {
  }

  lemma NamesOfCanonical(names: set<string>, call: Call, blank: bool, name: string, dest: string)
    requires AllReadBack(names) && INBOX in names && Encode(INBOX) == INBOX_DIR
    requires Decode(Encode(name)) == name && Decode(Encode(dest)) == dest
    ensures var after := Changed(names, call, blank, name, dest, INBOX);
            && AllReadBack(after) && INBOX in after
            && Dirs(after) == Changed(Dirs(names), call, blank, Encode(name), Encode(dest), INBOX_DIR)
  {
    var f := (n: string) => Encode(n);
    var all := names + {name, dest, INBOX};
    StayReadBack(names, name, dest, all);
    EncodeOneToOne(f, all);
    DirsOfChange(f, names, call, blank, name, dest);
    StayReadBack(all, name, dest, Changed(names, call, blank, name, dest, INBOX));
  }

  lemma DirsOfChange(f: string -> string, names: set<string>, call: Call, blank: bool, name: string, dest: string)
    requires forall n :: f(n) == Encode(n)
    requires INBOX in names && f(INBOX) == INBOX_DIR
    requires var all := names + {name, dest, INBOX};
             forall x, y :: x in all && y in all && f(x) == f(y) ==> x == y
    ensures var after := Changed(names, call, blank, name, dest, INBOX);
            && INBOX in after && after <= names + {name, dest}
            && Dirs(after) == Changed(Dirs(names), call, blank, f(name), f(dest), INBOX_DIR)
  {
    ChangedImage(f, names, call, blank, name, dest, INBOX);
    DirsAreImages(f, names);
    DirsAreImages(f, Changed(names, call, blank, name, dest, INBOX));
  }

  lemma CanonicalAfter(names: set<string>, call: Call)
    requires AllCanonical(names)
    ensures AllCanonical(NamesAfter(names, call))
  {
    var name, dest := Canonical(call.name), Canonical(Dest(call));
    StayCanonical(names, name, dest, NamesAfter(names, call)) by {
      CanonicalIdempotent(call.name);
      CanonicalIdempotent(Dest(call));
      NamesAfterWithin(names, call, name, dest);
    }
  }

  lemma NamesAfterWithin(names: set<string>, call: Call, name: string, dest: string)
    requires name == Canonical(call.name) && dest == Canonical(Dest(call))
    ensures NamesAfter(names, call) <= names + {name, dest}
  {
    ChangedWithin(names, call, name == "", name, dest, INBOX);
  }

  lemma ChangedWithin<T>(all: set<T>, call: Call, blank: bool, self: T, dest: T, inbox: T)
    ensures Changed(all, call, blank, self, dest, inbox) <= all + {self, dest}
  {
  }

  function NamesAfterAll(calls: seq<(Call, int)>): set<string> {
    if calls == [] then {INBOX}
    else NamesAfter(NamesAfterAll(calls[..|calls| - 1]), calls[|calls| - 1].0)
  }

  ghost predicate NamesHeld(disk: Disk, names: set<string>) {
    AllReadBack(names) && INBOX in names && ListedDirs(disk) == Dirs(names) && OwnDirs(ListedDirs(disk)) == ListedDirs(disk)
  }

  lemma NamesAfterCall(disk: Disk, names: set<string>, call: Call, now: int)
    requires Agree(disk) && NamesOk(call) && NamesHeld(disk, names)
    ensures NamesHeld(Do(disk, call, now), NamesAfter(names, call))
  {
    DirsOfDo(disk, call, now);
    NamesOfCall(names, call);
    StayOwn(ListedDirs(disk), call);
  }

  lemma StayOwn(dirs: set<string>, call: Call)
    requires OwnDirs(dirs) == dirs && OwnCall(call)
    ensures OwnDirs(DirsAfter(dirs, call)) == DirsAfter(dirs, call)
  {
    OwnChanged(dirs, call, Canonical(call.name) == "", DirOf(call.name), DirOf(Dest(call)), INBOX_DIR);
  }

  lemma OwnChanged(dirs: set<string>, call: Call, blank: bool, self: string, dest: string, inbox: string)
    requires OwnDirs(dirs) == dirs && OwnDirectory(self) && OwnDirectory(dest)
    ensures OwnDirs(Changed(dirs, call, blank, self, dest, inbox)) == Changed(dirs, call, blank, self, dest, inbox)
  {
    forall d | d in Changed(dirs, call, blank, self, dest, inbox) ensures OwnDirectory(d) {
      assert d in OwnDirs(dirs) || d == self || d == dest;
    }
  }

  lemma {:induction false} NamesHeldAfter(calls: seq<(Call, int)>)
    requires Roomy(Empty, calls) && forall i :: 0 <= i < |calls| ==> NamesOk(calls[i].0)
    ensures NamesHeld(Run(Empty, calls), NamesAfterAll(calls)) && AllCanonical(NamesAfterAll(calls))
  {
    if calls == [] {
      InboxAlone();
      InboxIsCanonical();
    } else {
      var init, last := calls[..|calls| - 1], calls[|calls| - 1];
      NamesHeldAfter(init);
      RunAgrees(init);
      NamesAfterCall(Run(Empty, init), NamesAfterAll(init), last.0, last.1);
      CanonicalAfter(NamesAfterAll(init), last.0);
    }
  }

  /** Whatever the run of calls on names with a directory of their own, the mailboxes on
      disk, and so the answer to LIST, are exactly the names that creating, deleting and
      renaming leave. */
  lemma NamesAfterRun(calls: seq<(Call, int)>)
    requires Roomy(Empty, calls) && forall i :: 0 <= i < |calls| ==> NamesOk(calls[i].0)
    ensures HoldsNames(Run(Empty, calls), NamesAfterAll(calls))
  {
    HoldsHeld(Run(Empty, calls), NamesAfterAll(calls)) by {
      RunAgrees(calls);
      NamesHeldAfter(calls);
    }
  }

  lemma HoldsHeld(disk: Disk, names: set<string>)
    requires Agree(disk) && NamesHeld(disk, names) && AllCanonical(names)
    ensures HoldsNames(disk, names)
  {
    OwnKeys(disk);
  }

  lemma OwnKeys(disk: Disk)
    requires OwnDirs(ListedDirs(disk)) == ListedDirs(disk)
    ensures OwnDirs(disk.indexes.Keys) + {INBOX_DIR} == ListedDirs(disk)
  {
    forall d | d in disk.indexes.Keys ensures d in OwnDirs(disk.indexes.Keys) {
      assert d in OwnDirs(ListedDirs(disk));
    }
  }

  lemma InboxAlone()
    ensures NamesHeld(Empty, {INBOX})
  {
    OneNameHeld(INBOX, INBOX_DIR, Empty) by {
      InboxIsListed();
      AllInboxReadsBack();
    }
  }

  lemma OneNameHeld(name: string, dir: string, disk: Disk)
    requires name == INBOX && dir == INBOX_DIR && disk.indexes.Keys == {}
    requires AllReadBack({name}) && Dirs({name}) == {dir}
    ensures NamesHeld(disk, {name})
  {
    OwnDirsOfOne(dir);
    assert ListedDirs(disk) == {dir};
  }

  lemma InboxIsCanonical()
    ensures AllCanonical({INBOX})
  {
    CanonicalOfInbox();
  }

  lemma OwnDirsOfOne(dir: string)
    requires OwnDirectory(dir)
    ensures OwnDirs({dir}) == {dir}
  {
  }

  lemma InboxIsListed()
    ensures Dirs({INBOX}) == {INBOX_DIR}
  {
    EncodeInbox();
    OneName(INBOX, INBOX_DIR);
  }

  lemma AllInboxReadsBack()
    ensures AllReadBack({INBOX})
  {
    InboxReadsBack();
  }

  lemma OneName(name: string, dir: string)
    requires Encode(name) == dir
    ensures Dirs({name}) == {dir}
  {
  }

  lemma InboxReadsBack()
    ensures Decode(Encode(INBOX)) == INBOX
  {
    RoundTrip(INBOX);
  }
}
