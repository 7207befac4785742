/** The IMAP mailbox commands that pick messages out of a snapshot and then act on the
    store by UID. A sequence set is any set of numbers. */
module Imap {
  import opened Wrappers
  import opened Flags
  import opened MailDisk
  import opened MailStore
  import opened Copying

  function Identifier(byUid: bool, seqNum: nat, uid: uint32): nat {
    if byUid then uid else seqNum
  }

  predicate Chosen(messages: seq<Message>, i: nat, byUid: bool, contains: nat -> bool)
    requires i < |messages|
  {
    contains(Identifier(byUid, i + 1, messages[i].uid))
  }

  function Resolved(messages: seq<Message>, byUid: bool, contains: nat -> bool): seq<uint32> {
    if messages == [] then []
    else
      var n := |messages|;
      Resolved(messages[..n - 1], byUid, contains)
      + if Chosen(messages, n - 1, byUid, contains) then [messages[n - 1].uid] else []
  }

  function ResolvedIn(disk: Disk, dir: string, byUid: bool, contains: nat -> bool, now: int): Result<seq<uint32>, Error> {
    match TakeSnapshot(disk, dir, now)
    case Err(e) => Err(e)
    case Ok(snapshot) => Ok(Resolved(snapshot.messages, byUid, contains))
  }

  ghost predicate Ascending(messages: seq<Message>) {
    forall i, j :: 0 <= i < j < |messages| ==> messages[i].uid < messages[j].uid
  }

  /** Sequence numbers and UIDs correspond in order: the resolved UIDs ascend strictly, and
      a message's UID is among them exactly when its number or UID was asked for. */
  lemma {:induction false} ResolvedMeaning(messages: seq<Message>, byUid: bool, contains: nat -> bool)
    requires Ascending(messages)
    ensures var uids := Resolved(messages, byUid, contains);
            && (forall i, j :: 0 <= i < j < |uids| ==> uids[i] < uids[j])
            && (forall u :: u in uids ==> exists i :: 0 <= i < |messages| && messages[i].uid == u)
            && (forall i :: 0 <= i < |messages| ==> (messages[i].uid in uids <==> Chosen(messages, i, byUid, contains)))
  {
    if messages != [] {
      var n := |messages|;
      var init := messages[..n - 1];
      ResolvedMeaning(init, byUid, contains);
      var before, uids := Resolved(init, byUid, contains), Resolved(messages, byUid, contains);
      forall u | u in before ensures u < messages[n - 1].uid {
        var i :| 0 <= i < |init| && init[i].uid == u;
        assert messages[i].uid == u;
      }
      StaysAscending(before, messages[n - 1].uid);
      forall i | 0 <= i < n ensures messages[i].uid in uids <==> Chosen(messages, i, byUid, contains) {
        if i < n - 1 {
          assert messages[i] == init[i] && messages[i].uid < messages[n - 1].uid;
          assert Chosen(init, i, byUid, contains) <==> Chosen(messages, i, byUid, contains);
        }
      }
      forall u | u in uids ensures exists i :: 0 <= i < n && messages[i].uid == u {
        if u in before {
          var i :| 0 <= i < |init| && init[i].uid == u;
          assert messages[i].uid == u;
        } else {
          assert messages[n - 1].uid == u;
        }
      }
    }
  }

  lemma StaysAscending(uids: seq<uint32>, last: uint32)
    requires forall i, j :: 0 <= i < j < |uids| ==> uids[i] < uids[j]
    requires forall u :: u in uids ==> u < last
    ensures forall i, j :: 0 <= i < j < |uids| + 1 ==> (uids + [last])[i] < (uids + [last])[j]
  {
    forall k | 0 <= k < |uids| ensures uids[k] < last {
      assert uids[k] in uids;
    }
  }

  /** What a message selection picks, in mailbox order. */
  function Picked(messages: seq<Message>, byUid: bool, contains: nat -> bool): seq<Message> {
    if messages == [] then []
    else
      var n := |messages|;
      Picked(messages[..n - 1], byUid, contains)
      + if Chosen(messages, n - 1, byUid, contains) then [messages[n - 1]] else []
  }

  /** Acting on the resolved UIDs is acting on the picked messages, as long as nothing has
      changed in between. */
  lemma SelectsPicked(messages: seq<Message>, byUid: bool, contains: nat -> bool)
    requires Ascending(messages)
    ensures Selected(messages, UidSet(Resolved(messages, byUid, contains))) == Picked(messages, byUid, contains)
  {
    ResolvedMeaning(messages, byUid, contains);
    SelectedByIndex(messages, UidSet(Resolved(messages, byUid, contains)), byUid, contains);
  }

  lemma {:induction false} SelectedByIndex(messages: seq<Message>, uids: set<uint32>, byUid: bool, contains: nat -> bool)
    requires forall i :: 0 <= i < |messages| ==> (messages[i].uid in uids <==> Chosen(messages, i, byUid, contains))
    ensures Selected(messages, uids) == Picked(messages, byUid, contains)
  {
    if messages != [] {
      var init := messages[..|messages| - 1];
      forall i | 0 <= i < |init| ensures init[i].uid in uids <==> Chosen(init, i, byUid, contains) {
        assert messages[i].uid in uids <==> Chosen(messages, i, byUid, contains);
      }
      SelectedByIndex(init, uids, byUid, contains);
    }
  }

  // ---- flags of a snapshot

  function Unread(messages: seq<Message>): seq<Message> {
    if messages == [] then []
    else
      var last := messages[|messages| - 1];
      Unread(messages[..|messages| - 1]) + if Has(last.flags, SEEN) then [] else [last]
  }

  /** Sequence number of the first unread message, 0 when there is none. */
  method UnseenSeqNum(messages: seq<Message>) returns (n: nat)
    ensures n == 0 ==> forall i :: 0 <= i < |messages| ==> Has(messages[i].flags, SEEN)
    ensures n > 0 ==> n <= |messages| && !Has(messages[n - 1].flags, SEEN)
                      && forall i :: 0 <= i < n - 1 ==> Has(messages[i].flags, SEEN)
  {
    for i := 0 to |messages|
      invariant forall j :: 0 <= j < i ==> Has(messages[j].flags, SEEN)
    {
      var seen := HasFlag(messages[i].flags, SEEN);
      if !seen {
        return i + 1;
      }
    }
    return 0;
  }

  method Unseen(messages: seq<Message>) returns (count: nat)
    ensures count == |Unread(messages)|
  {
    count := 0;
    for i := 0 to |messages|
      invariant count == |Unread(messages[..i])|
    {
      assert messages[..i + 1][..i] == messages[..i];
      var seen := HasFlag(messages[i].flags, SEEN);
      if !seen {
        count := count + 1;
      }
    }
    assert messages[..|messages|] == messages;
  }

  /** The two STATUS answers agree: some message is unread, or none is. */
  lemma {:induction false} UnreadIffSome(messages: seq<Message>)
    ensures Unread(messages) == [] <==> forall i :: 0 <= i < |messages| ==> Has(messages[i].flags, SEEN)
  {
    if messages != [] {
      UnreadIffSome(messages[..|messages| - 1]);
    }
  }

  function DeletedUids(messages: seq<Message>): seq<uint32> {
    if messages == [] then []
    else
      var last := messages[|messages| - 1];
      DeletedUids(messages[..|messages| - 1]) + if Has(last.flags, DELETED) then [last.uid] else []
  }

  method Deleted(messages: seq<Message>) returns (uids: seq<uint32>)
    ensures uids == DeletedUids(messages)
  {
    uids := [];
    for i := 0 to |messages|
      invariant uids == DeletedUids(messages[..i])
    {
      assert messages[..i + 1][..i] == messages[..i];
      var doomed := HasFlag(messages[i].flags, DELETED);
      if doomed {
        uids := uids + [messages[i].uid];
      }
    }
    assert messages[..|messages|] == messages;
  }

  /** The messages without \Deleted, in mailbox order. */
  function Undeleted(messages: seq<Message>): seq<Message> {
    if messages == [] then []
    else
      var last := messages[|messages| - 1];
      Undeleted(messages[..|messages| - 1]) + if Has(last.flags, DELETED) then [] else [last]
  }

  lemma {:induction false} DeletedUidsMeaning(messages: seq<Message>)
    requires Ascending(messages)
    ensures forall i :: 0 <= i < |messages| ==> (messages[i].uid in DeletedUids(messages) <==> Has(messages[i].flags, DELETED))
    ensures forall u :: u in DeletedUids(messages) ==> exists i :: 0 <= i < |messages| && messages[i].uid == u
  {
    if messages != [] {
      var n := |messages|;
      var init := messages[..n - 1];
      DeletedUidsMeaning(init);
      forall u | u in DeletedUids(init) ensures u < messages[n - 1].uid {
        var i :| 0 <= i < |init| && init[i].uid == u;
        assert messages[i].uid == u;
      }
      forall i | 0 <= i < n ensures messages[i].uid in DeletedUids(messages) <==> Has(messages[i].flags, DELETED) {
        if i < n - 1 {
          assert messages[i] == init[i] && messages[i].uid < messages[n - 1].uid;
        }
      }
      forall u | u in DeletedUids(messages) ensures exists i :: 0 <= i < n && messages[i].uid == u {
        if u in DeletedUids(init) {
          var i :| 0 <= i < |init| && init[i].uid == u;
          assert messages[i].uid == u;
        } else {
          assert messages[n - 1].uid == u;
        }
      }
    }
  }

  lemma {:induction false} KeptIsUndeleted(messages: seq<Message>, doomed: set<uint32>)
    requires forall i :: 0 <= i < |messages| ==> (messages[i].uid in doomed <==> Has(messages[i].flags, DELETED))
    ensures Kept(messages, doomed) == Undeleted(messages)
  {
    if messages != [] {
      var init := messages[..|messages| - 1];
      forall i | 0 <= i < |init| ensures init[i].uid in doomed <==> Has(init[i].flags, DELETED) {
        assert messages[i].uid in doomed <==> Has(messages[i].flags, DELETED);
      }
      KeptIsUndeleted(init, doomed);
    }
  }

  function ExpungeDisk(disk: Disk, dir: string, now: int): (Disk, Result<(), Error>) {
    match TakeSnapshot(disk, dir, now)
    case Err(e) => (disk, Err(e))
    case Ok(snapshot) =>
      var doomed := DeletedUids(snapshot.messages);
      if doomed == [] then (disk, Ok(())) else Remove(disk, dir, UidSet(doomed), now)
  }

  lemma UndeletedIsKept(messages: seq<Message>)
    requires Ascending(messages)
    ensures Kept(messages, UidSet(DeletedUids(messages))) == Undeleted(messages)
    ensures DeletedUids(messages) == [] ==> Undeleted(messages) == messages
  {
    DeletedUidsMeaning(messages);
    KeptIsUndeleted(messages, UidSet(DeletedUids(messages)));
    if DeletedUids(messages) == [] {
      NothingKept(messages);
      assert UidSet([]) == {};
    }
  }

  lemma RemovedIndexes(disk: Disk, dir: string, doomed: set<uint32>, now: int)
    requires dir in disk.indexes && Loaded(disk.indexes[dir], now) == disk.indexes[dir]
    ensures var (after, r) := Remove(disk, dir, doomed, now);
            var ix := disk.indexes[dir];
            r.Ok? && after.indexes == disk.indexes[dir := ix.(messages := Kept(ix.messages, doomed))]
  {
  }

  lemma ExpungedDisk(disk: Disk, dir: string, now: int)
    requires dir in disk.indexes && Loaded(disk.indexes[dir], now) == disk.indexes[dir]
    ensures var uids := DeletedUids(disk.indexes[dir].messages);
            ExpungeDisk(disk, dir, now) == if uids == [] then (disk, Ok(())) else Remove(disk, dir, UidSet(uids), now)
  {
  }

  /** Expunge leaves exactly the messages without \Deleted, in order. */
  lemma ExpungeMeaning(disk: Disk, dir: string, now: int)
    requires Agree(disk) && dir in disk.indexes
    ensures var (after, r) := ExpungeDisk(disk, dir, now);
            && r.Ok? && Agree(after)
            && after.indexes == disk.indexes[dir := disk.indexes[dir].(messages := Undeleted(disk.indexes[dir].messages))]
  {
    var ix := disk.indexes[dir];
    LoadedOk(ix, now);
    UndeletedIsKept(ix.messages);
    ExpungedDisk(disk, dir, now);
    if DeletedUids(ix.messages) == [] {
      assert disk.indexes == disk.indexes[dir := ix];
    } else {
      RemoveAgrees(disk, dir, UidSet(DeletedUids(ix.messages)), now);
      RemovedIndexes(disk, dir, UidSet(DeletedUids(ix.messages)), now);
    }
  }

  lemma {:induction false} NothingKept(messages: seq<Message>)
    ensures Kept(messages, {}) == messages
  {
    if messages != [] {
      NothingKept(messages[..|messages| - 1]);
      assert messages == messages[..|messages| - 1] + [messages[|messages| - 1]];
    }
  }

  /** STORE changes the flags of exactly the messages asked for. */
  lemma UpdateMeaning(disk: Disk, dir: string, byUid: bool, contains: nat -> bool, flags: seq<string>, op: FlagOp, now: int)
    requires Agree(disk) && dir in disk.indexes
    ensures var before := disk.indexes[dir].messages;
            var uids := UidSet(Resolved(before, byUid, contains));
            var after := SetFlags(disk, dir, uids, flags, op, now).0;
            && Agree(after) && after.bodies == disk.bodies && dir in after.indexes
            && |after.indexes[dir].messages| == |before|
            && forall i :: 0 <= i < |before| ==>
                 after.indexes[dir].messages[i]
                 == if Chosen(before, i, byUid, contains) then before[i].(flags := Apply(before[i].flags, flags, op))
                    else before[i]
  {
    var ix := disk.indexes[dir];
    LoadedOk(ix, now);
    ResolvedMeaning(ix.messages, byUid, contains);
    var uids := UidSet(Resolved(ix.messages, byUid, contains));
    SetFlagsAgrees(disk, dir, uids, flags, op, now);
    var after := ReflagAll(ix.messages, uids, flags, op);
    forall i | 0 <= i < |ix.messages|
      ensures after[i] == if Chosen(ix.messages, i, byUid, contains)
                          then ix.messages[i].(flags := Apply(ix.messages[i].flags, flags, op)) else ix.messages[i]
    {
      assert after[i] == Reflagged(ix.messages[i], uids, flags, op);
    }
  }

  /** COPY appends exactly the messages asked for, in order. */
  lemma CopyPicked(disk: Disk, from: string, to: string, byUid: bool, contains: nat -> bool, now: int)
    requires Agree(disk) && from in disk.indexes && ReadIndex(disk, to, now).Ok? && Stamp(now) != 0
    requires ReadIndex(disk, to, now).value.uidNext + |Picked(disk.indexes[from].messages, byUid, contains)| <= UINT32_MAX
    ensures var before := disk.indexes[from].messages;
            var picked := Picked(before, byUid, contains);
            var (after, r) := Copying.Copy(disk, from, to, UidSet(Resolved(before, byUid, contains)), now);
            && r.Ok? && Agree(after)
            && (picked == [] ==> after == disk)
            && (picked != [] ==> Copied(disk, after, from, to, picked, ReadIndex(disk, to, now).value))
  {
    var ix := disk.indexes[from];
    LoadedOk(ix, now);
    SelectsPicked(ix.messages, byUid, contains);
    CopyMeaning(disk, from, to, UidSet(Resolved(ix.messages, byUid, contains)), now);
  }

  // ---- the mailbox a client has selected

  method Pick(messages: seq<Message>, byUid: bool, contains: nat -> bool) returns (uids: seq<uint32>)
    ensures uids == Resolved(messages, byUid, contains)
  {
    uids := [];
    for i := 0 to |messages|
      invariant uids == Resolved(messages[..i], byUid, contains)
    {
      assert messages[..i + 1][..i] == messages[..i];
      if contains(Identifier(byUid, i + 1, messages[i].uid)) {
        uids := uids + [messages[i].uid];
      }
    }
    assert messages[..|messages|] == messages;
  }

  class Mailbox {
    const store: Store
    const name: string

    constructor (store: Store, name: string)
      ensures this.store == store && this.name == name
    {
      this.store, this.name := store, name;
    }

    method Resolve(byUid: bool, contains: nat -> bool, now: int) returns (r: Result<seq<uint32>, Error>)
      ensures r == ResolvedIn(store.Contents(), DirOf(name), byUid, contains, now)
    {
      var snapshot := store.Snapshot(name, now);
      if snapshot.Err? {
        return Err(snapshot.error);
      }
      var messages := snapshot.value.messages;
      var uids := Pick(messages, byUid, contains);
      return Ok(uids);
    }

    /** An operation the library does not define is ignored. */
    method UpdateMessagesFlags(byUid: bool, contains: nat -> bool, op: Option<FlagOp>, flags: seq<string>, now: int)
      returns (r: Result<(), Error>)
      modifies store
      ensures match TakeSnapshot(old(store.Contents()), DirOf(name), now)
              case Err(e) => r == Err(e) && store.Contents() == old(store.Contents())
              case Ok(snapshot) =>
                if op.None? then r == Ok(()) && store.Contents() == old(store.Contents())
                else (store.Contents(), r) == SetFlags(old(store.Contents()), DirOf(name),
                                                       UidSet(Resolved(snapshot.messages, byUid, contains)), flags, op.value, now)
    {
      var uids := Resolve(byUid, contains, now);
      if uids.Err? {
        return Err(uids.error);
      }
      if op.None? {
        return Ok(());
      }
      r := store.SetFlags(name, uids.value, flags, op.value, now);
    }

    method CopyMessages(byUid: bool, contains: nat -> bool, dest: string, now: int) returns (r: Result<(), Error>)
      modifies store
      ensures match TakeSnapshot(old(store.Contents()), DirOf(name), now)
              case Err(e) => r == Err(e) && store.Contents() == old(store.Contents())
              case Ok(snapshot) =>
                (store.Contents(), r) == Copying.Copy(old(store.Contents()), DirOf(name), DirOf(dest),
                                                      UidSet(Resolved(snapshot.messages, byUid, contains)), now)
    {
      var uids := Resolve(byUid, contains, now);
      if uids.Err? {
        return Err(uids.error);
      }
      r := store.Copy(name, dest, uids.value, now);
    }

    method Expunge(now: int) returns (r: Result<(), Error>)
      modifies store
      ensures (store.Contents(), r) == ExpungeDisk(old(store.Contents()), DirOf(name), now)
    {
      var snapshot := store.Snapshot(name, now);
      if snapshot.Err? {
        return Err(snapshot.error);
      }
      var doomed := Deleted(snapshot.value.messages);
      if |doomed| == 0 {
        return Ok(());
      }
      r := store.Remove(name, doomed, now);
    }
  }
}
