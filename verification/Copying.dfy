/** Copying messages between mailboxes, as one undisturbed call. */
module Copying {
  import opened Wrappers
  import opened Flags
  import opened MailDisk

  /** Reads and appends the messages one by one; a body that is gone ends the copy. */
  function CopyAll(disk: Disk, from: string, to: string, messages: seq<Message>, now: int): (Disk, Result<(), Error>)
    decreases |messages|
  {
    if messages == [] then (disk, Ok(()))
    else
      match Body(disk, from, messages[0])
      case None => (disk, Err(IoError))
      case Some(body) =>
        CopyAll(Append(disk, to, messages[0].flags, messages[0].date, body, now).0, from, to, messages[1..], now)
  }

  function Copy(disk: Disk, from: string, to: string, uids: set<uint32>, now: int): (Disk, Result<(), Error>) {
    match TakeSnapshot(disk, from, now)
    case Err(e) => (disk, Err(e))
    case Ok(source) =>
      match ReadIndex(disk, to, now)
      case Err(e) => (disk, Err(e))
      case Ok(_) => CopyAll(disk, from, to, Selected(source.messages, uids), now)
  }

  lemma {:induction false} SelectedFront(messages: seq<Message>, uids: set<uint32>)
    requires messages != []
    ensures Selected(messages, uids) ==
            (if messages[0].uid in uids then [messages[0]] else []) + Selected(messages[1..], uids)
  {
    if |messages| > 1 {
      var init := messages[..|messages| - 1];
      SelectedFront(init, uids);
      assert messages[1..][..|messages| - 2] == init[1..];
    }
  }

  lemma {:induction false} SelectedMembers(messages: seq<Message>, uids: set<uint32>)
    ensures forall m :: m in Selected(messages, uids) <==> m in messages && m.uid in uids
  {
    if messages != [] {
      var init, m := messages[..|messages| - 1], messages[|messages| - 1];
      SelectedMembers(init, uids);
      assert messages == init + [m];
    }
  }

  lemma {:induction false} SelectedAscend(messages: seq<Message>, uids: set<uint32>)
    requires forall i, j :: 0 <= i < j < |messages| ==> messages[i].uid < messages[j].uid
    ensures forall i, j :: 0 <= i < j < |Selected(messages, uids)| ==>
              Selected(messages, uids)[i].uid < Selected(messages, uids)[j].uid
  {
    if messages != [] {
      var init, m := messages[..|messages| - 1], messages[|messages| - 1];
      SelectedAscend(init, uids);
      var before := Selected(init, uids);
      forall i | 0 <= i < |before| ensures before[i].uid < m.uid {
        SelectedMembers(init, uids);
        assert before[i] in before;
        var k :| 0 <= k < |init| && init[k] == before[i];
        assert messages[k].uid < messages[|messages| - 1].uid;
      }
    }
  }

  /** Exactly the messages asked for, each once and in mailbox order. */
  lemma {:induction false} SelectedMeaning(messages: seq<Message>, uids: set<uint32>)
    ensures forall m :: m in Selected(messages, uids) <==> m in messages && m.uid in uids
    ensures (forall i, j :: 0 <= i < j < |messages| ==> messages[i].uid < messages[j].uid) ==>
              forall i, j :: 0 <= i < j < |Selected(messages, uids)| ==>
                Selected(messages, uids)[i].uid < Selected(messages, uids)[j].uid
  {
    SelectedMembers(messages, uids);
    if forall i, j :: 0 <= i < j < |messages| ==> messages[i].uid < messages[j].uid {
      SelectedAscend(messages, uids);
    }
  }

  function Renumbered(m: Message, uid: uint32): Message {
    m.(uid := uid, file := FileName(uid))
  }

  /** The copies: same bytes, flags and date, under the next UIDs in turn. */
  function Copies(messages: seq<Message>, next: nat): (r: seq<Message>)
    requires next + |messages| < UINT32_SIZE
    ensures |r| == |messages|
    ensures forall i :: 0 <= i < |r| ==> r[i] == Renumbered(messages[i], next + i)
  {
    seq(|messages|, i requires 0 <= i < |messages| => Renumbered(messages[i], next + i))
  }

  /** A stored record whose body file is in place. */
  ghost predicate Stored(disk: Disk, dir: string, m: Message) {
    MessageOk(m) && (dir, m.file) in disk.bodies && m.size == |disk.bodies[(dir, m.file)]| % UINT32_SIZE
  }

  /** The disk after one stored message has been copied under the next UID. */
  function CopiedOne(disk: Disk, from: string, to: string, m: Message, ix: Index): Disk
    requires (from, m.file) in disk.bodies && ix.uidNext < UINT32_MAX
  {
    Disk(disk.indexes[to := ix.(uidNext := ix.uidNext + 1,
                                messages := ix.messages + [Renumbered(m, ix.uidNext)])],
         disk.bodies[(to, FileName(ix.uidNext)) := disk.bodies[(from, m.file)]])
  }

  /** Re-normalising stored flags, filling in the date and measuring the body again
      reproduce the source's record. */
  lemma CopyOfStored(disk: Disk, from: string, m: Message, uid: uint32, now: int)
    requires Stored(disk, from, m)
    ensures NewMessage(uid, m.flags, m.date, disk.bodies[(from, m.file)], now) == Renumbered(m, uid)
  {
    NormaliseKeepsNormalPrefix(m.flags, []);
  }

  lemma AppendCopy(disk: Disk, from: string, to: string, m: Message, now: int)
    requires Agree(disk) && CanAppend(disk, to, now) && Stored(disk, from, m)
    ensures var ix := IndexToAppend(disk, to, now);
            var after := Append(disk, to, m.flags, m.date, disk.bodies[(from, m.file)], now).0;
            && ix.uidNext < UINT32_MAX
            && after == CopiedOne(disk, from, to, m, ix)
            && (to, FileName(ix.uidNext)) !in disk.bodies
            && Agree(after)
  {
    IndexToAppendOk(disk, to, now);
    var ix := IndexToAppend(disk, to, now);
    NextFileIsFree(disk, to, ix);
    AppendWithRoom(disk, to, m.flags, m.date, disk.bodies[(from, m.file)], now);
    AppendIsCopiedOne(disk, from, to, m, now);
  }

  lemma AppendIsCopiedOne(disk: Disk, from: string, to: string, m: Message, now: int)
    requires Stored(disk, from, m) && IndexToAppend(disk, to, now).uidNext < UINT32_MAX
    ensures Append(disk, to, m.flags, m.date, disk.bodies[(from, m.file)], now).0
            == CopiedOne(disk, from, to, m, IndexToAppend(disk, to, now))
  {
    CopyOfStored(disk, from, m, IndexToAppend(disk, to, now).uidNext, now);
  }

  lemma NextFileIsFree(disk: Disk, dir: string, ix: Index)
    requires IndexOk(ix) && FilesOk(disk, dir, ix)
    ensures (dir, FileName(ix.uidNext)) !in disk.bodies
  {
    if (dir, FileName(ix.uidNext)) in disk.bodies {
      var k := (dir, FileName(ix.uidNext));
      var i :| 0 <= i < |ix.messages| && ix.messages[i].file == k.1;
      assert MessageOk(ix.messages[i]);
      FileNameInjective(ix.messages[i].uid, ix.uidNext);
    }
  }

  /** What copying a run of stored messages leaves behind. */
  ghost predicate Copied(disk: Disk, after: Disk, from: string, to: string, messages: seq<Message>, base: Index)
    requires base.uidNext + |messages| < UINT32_SIZE
  {
    && (forall i :: 0 <= i < |messages| ==> (from, messages[i].file) in disk.bodies)
    && after.indexes == disk.indexes[to := base.(uidNext := base.uidNext + |messages|,
                                                 messages := base.messages + Copies(messages, base.uidNext))]
    && (forall k :: k in disk.bodies ==> k in after.bodies && after.bodies[k] == disk.bodies[k])
    && (forall i :: 0 <= i < |messages| ==> CopyAt(disk, after, from, to, messages[i], base.uidNext + i))
  }

  /** The copy under this UID has the bytes of the original. */
  ghost predicate CopyAt(disk: Disk, after: Disk, from: string, to: string, m: Message, uid: nat) {
    && (from, m.file) in disk.bodies && (to, FileName(uid)) in after.bodies
    && after.bodies[(to, FileName(uid))] == disk.bodies[(from, m.file)]
  }

  lemma {:induction false} CopyAllMeaning(disk: Disk, from: string, to: string, messages: seq<Message>, now: int)
    requires Agree(disk) && messages != []
    requires forall i :: 0 <= i < |messages| ==> Stored(disk, from, messages[i])
    requires IndexToAppend(disk, to, now).uidNext + |messages| <= UINT32_MAX && CanAppend(disk, to, now)
    ensures var (after, r) := CopyAll(disk, from, to, messages, now);
            r.Ok? && Agree(after) && Copied(disk, after, from, to, messages, IndexToAppend(disk, to, now))
    decreases |messages|
  {
    var base := IndexToAppend(disk, to, now);
    assert Stored(disk, from, messages[0]);
    AppendCopy(disk, from, to, messages[0], now);
    var first := CopiedOne(disk, from, to, messages[0], base);
    CopyAllStep(disk, from, to, messages, now);
    var rest := messages[1..];
    if rest == [] {
      CopiedSingle(disk, from, to, messages[0], base);
      assert messages == [messages[0]];
    } else {
      RestStored(disk, from, to, messages, base);
      IndexToAppendOk(disk, to, now);
      IndexAfterCopy(disk, from, to, messages[0], base, now);
      CopyAllMeaning(first, from, to, rest, now);
      CopiedTogether(disk, CopyAll(first, from, to, rest, now).0, from, to, messages, base);
    }
  }

  lemma CopyAllStep(disk: Disk, from: string, to: string, messages: seq<Message>, now: int)
    requires messages != [] && Stored(disk, from, messages[0])
    requires IndexToAppend(disk, to, now).uidNext < UINT32_MAX
    ensures var first := CopiedOne(disk, from, to, messages[0], IndexToAppend(disk, to, now));
            CopyAll(disk, from, to, messages, now) ==
            if |messages| == 1 then (first, Ok(())) else CopyAll(first, from, to, messages[1..], now)
  {
    AppendIsCopiedOne(disk, from, to, messages[0], now);
  }

  lemma RestStored(disk: Disk, from: string, to: string, messages: seq<Message>, base: Index)
    requires messages != [] && base.uidNext < UINT32_MAX
    requires Stored(disk, from, messages[0])
    requires forall i :: 0 <= i < |messages| ==> Stored(disk, from, messages[i])
    requires (to, FileName(base.uidNext)) !in disk.bodies
    ensures var first := CopiedOne(disk, from, to, messages[0], base);
            forall i :: 0 <= i < |messages| - 1 ==> Stored(first, from, messages[1..][i])
  {
    var first := CopiedOne(disk, from, to, messages[0], base);
    forall i | 0 <= i < |messages| - 1 ensures Stored(first, from, messages[1..][i]) {
      assert Stored(disk, from, messages[i + 1]);
    }
  }

  lemma IndexAfterCopy(disk: Disk, from: string, to: string, m: Message, base: Index, now: int)
    requires (from, m.file) in disk.bodies && base.uidNext < UINT32_MAX && base.uidValidity != 0
    ensures var first := CopiedOne(disk, from, to, m, base);
            && IndexToAppend(first, to, now) == first.indexes[to]
            && first.indexes[to].uidNext == base.uidNext + 1
  {
  }

  lemma CopiedSingle(disk: Disk, from: string, to: string, m: Message, base: Index)
    requires (from, m.file) in disk.bodies && base.uidNext < UINT32_MAX
    requires (to, FileName(base.uidNext)) !in disk.bodies
    ensures Copied(disk, CopiedOne(disk, from, to, m, base), from, to, [m], base)
  {
    var after := CopiedOne(disk, from, to, m, base);
    assert Copies([m], base.uidNext) == [Renumbered(m, base.uidNext)];
    assert CopyAt(disk, after, from, to, m, base.uidNext);
    forall i | 0 <= i < |[m]| ensures CopyAt(disk, after, from, to, [m][i], base.uidNext + i) {
      assert i == 0;
    }
  }

  lemma CopiedTogether(disk: Disk, after: Disk, from: string, to: string, messages: seq<Message>, base: Index)
    requires |messages| > 1 && base.uidNext + |messages| < UINT32_SIZE
    requires forall i :: 0 <= i < |messages| ==> (from, messages[i].file) in disk.bodies
    requires (to, FileName(base.uidNext)) !in disk.bodies
    requires var first := CopiedOne(disk, from, to, messages[0], base);
             Copied(first, after, from, to, messages[1..], first.indexes[to])
    ensures Copied(disk, after, from, to, messages, base)
  {
    var first := CopiedOne(disk, from, to, messages[0], base);
    var next := base.uidNext;
    TogetherIndexes(disk, after, from, to, messages, base);
    forall k | k in disk.bodies ensures k in after.bodies && after.bodies[k] == disk.bodies[k] {
      assert k in first.bodies && first.bodies[k] == disk.bodies[k];
    }
    forall i | 0 <= i < |messages| ensures CopyAt(disk, after, from, to, messages[i], next + i) {
      if i == 0 {
        assert first.bodies[(to, FileName(next))] == disk.bodies[(from, messages[0].file)];
      } else {
        assert first.bodies[(from, messages[i].file)] == disk.bodies[(from, messages[i].file)];
        assert CopyAt(first, after, from, to, messages[1..][i - 1], (next + 1) + (i - 1));
      }
    }
  }

  lemma TogetherIndexes(disk: Disk, after: Disk, from: string, to: string, messages: seq<Message>, base: Index)
    requires |messages| > 1 && base.uidNext + |messages| < UINT32_SIZE && (from, messages[0].file) in disk.bodies
    requires var first := CopiedOne(disk, from, to, messages[0], base);
             Copied(first, after, from, to, messages[1..], first.indexes[to])
    ensures after.indexes == disk.indexes[to := base.(uidNext := base.uidNext + |messages|,
                                                      messages := base.messages + Copies(messages, base.uidNext))]
  {
    CopiesCons(messages, base.uidNext, base.messages);
  }

  lemma CopiesCons(messages: seq<Message>, next: nat, before: seq<Message>)
    requires messages != [] && next + |messages| < UINT32_SIZE
    ensures before + Copies(messages, next) ==
            before + [Renumbered(messages[0], next)] + Copies(messages[1..], next + 1)
  {
    assert Copies(messages, next) == [Renumbered(messages[0], next)] + Copies(messages[1..], next + 1);
  }

  /** COPY, undisturbed and with room: the selected messages are appended to the
      destination in order under fresh ascending UIDs, with the same bytes, flags and
      dates. Nothing already on disk changes, also when source and destination are
      the same mailbox. */
  lemma CopyMeaning(disk: Disk, from: string, to: string, uids: set<uint32>, now: int)
    requires Agree(disk) && ReadIndex(disk, to, now).Ok? && TakeSnapshot(disk, from, now).Ok?
    requires Stamp(now) != 0
    requires var sel := Selected(TakeSnapshot(disk, from, now).value.messages, uids);
             ReadIndex(disk, to, now).value.uidNext + |sel| <= UINT32_MAX
    ensures var sel := Selected(TakeSnapshot(disk, from, now).value.messages, uids);
            var (after, r) := Copy(disk, from, to, uids, now);
            && r.Ok? && Agree(after)
            && (sel == [] ==> after == disk)
            && (sel != [] ==> Copied(disk, after, from, to, sel, ReadIndex(disk, to, now).value))
  {
    SelectionStored(disk, from, uids, now);
    var sel := Selected(TakeSnapshot(disk, from, now).value.messages, uids);
    if sel != [] {
      CanAppendTo(disk, to, now, |sel|);
      CopyAllMeaning(disk, from, to, sel, now);
    }
  }

  lemma SelectionStored(disk: Disk, from: string, uids: set<uint32>, now: int)
    requires Agree(disk) && TakeSnapshot(disk, from, now).Ok? && Stamp(now) != 0
    ensures var sel := Selected(TakeSnapshot(disk, from, now).value.messages, uids);
            forall i :: 0 <= i < |sel| ==> Stored(disk, from, sel[i])
  {
    ReadOk(disk, from, now);
    var ix := ReadIndex(disk, from, now).value;
    var sel := Selected(ix.messages, uids);
    SelectedMeaning(ix.messages, uids);
    forall i | 0 <= i < |sel| ensures Stored(disk, from, sel[i]) {
      assert sel[i] in sel;
      ListedIsStored(disk, from, ix, sel[i]);
    }
  }

  lemma ListedIsStored(disk: Disk, from: string, ix: Index, m: Message)
    requires IndexOk(ix) && FilesOk(disk, from, ix) && m in ix.messages
    ensures Stored(disk, from, m)
  {
    var k :| 0 <= k < |ix.messages| && ix.messages[k] == m;
    assert MessageOk(ix.messages[k]);
  }

  lemma CanAppendTo(disk: Disk, to: string, now: int, count: nat)
    requires Agree(disk) && ReadIndex(disk, to, now).Ok? && Stamp(now) != 0
    requires count > 0 && ReadIndex(disk, to, now).value.uidNext + count <= UINT32_MAX
    ensures CanAppend(disk, to, now)
    ensures IndexToAppend(disk, to, now) == ReadIndex(disk, to, now).value
  {
    ReadOk(disk, to, now);
  }
}
