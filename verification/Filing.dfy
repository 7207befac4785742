/** Filing one message into the INBOX of each of its local recipients. */
module Filing {
  import opened Wrappers
  import opened MailDisk
  import opened Copying

  /** One delivery: whose mailbox, the text, and whether the store accepts it at that time. */
  datatype Copy = Copy(uid: int, body: Bytes, stored: bool, now: int)

  function DiskOf(mail: map<int, Disk>, uid: int): Disk {
    if uid in mail then mail[uid] else Disk(map[], map[])
  }

  function FileOne(mail: map<int, Disk>, c: Copy): map<int, Disk> {
    if c.stored then mail[c.uid := Append(DiskOf(mail, c.uid), INBOX_DIR, [], Date(c.now), c.body, c.now).0]
    else mail
  }

  function File(mail: map<int, Disk>, copies: seq<Copy>): map<int, Disk> {
    if copies == [] then mail
    else FileOne(File(mail, copies[..|copies| - 1]), copies[|copies| - 1])
  }

  /** What one account is due, in order. */
  function DueTo(copies: seq<Copy>, uid: int): seq<Bytes> {
    if copies == [] then []
    else
      var last := copies[|copies| - 1];
      DueTo(copies[..|copies| - 1], uid) + if last.uid == uid && last.stored then [last.body] else []
  }

  function Inbox(disk: Disk): (ix: Index) {
    if INBOX_DIR in disk.indexes then disk.indexes[INBOX_DIR] else Index(1, 1, true, [])
  }

  ghost predicate Untouched(before: Disk, after: Disk) {
    forall i :: 0 <= i < |Inbox(before).messages| ==>
      i < |Inbox(after).messages|
      && Inbox(after).messages[i] == Inbox(before).messages[i]
      && Body(after, INBOX_DIR, Inbox(after).messages[i]) == Body(before, INBOX_DIR, Inbox(before).messages[i])
  }

  ghost predicate ReceivedOne(disk: Disk, k: nat, uid: nat, body: Bytes) {
    && k < |Inbox(disk).messages|
    && Inbox(disk).messages[k].uid == uid && Inbox(disk).messages[k].flags == []
    && Body(disk, INBOX_DIR, Inbox(disk).messages[k]) == Some(body)
  }

  /** The INBOX has the given texts after what it had, each under the next UID and unread;
      no other mailbox of the account has a different index. */
  ghost predicate Grown(before: Disk, after: Disk, due: seq<Bytes>) {
    var n := |Inbox(before).messages|;
    && |Inbox(after).messages| == n + |due|
    && Inbox(after).uidNext == Inbox(before).uidNext + |due|
    && (INBOX_DIR in before.indexes ==> INBOX_DIR in after.indexes && Inbox(after).uidValidity == Inbox(before).uidValidity)
    && Untouched(before, after)
    && (forall i :: 0 <= i < |due| ==> ReceivedOne(after, n + i, Inbox(before).uidNext + i, due[i]))
    && after.indexes - {INBOX_DIR} == before.indexes - {INBOX_DIR}
  }

  /** A body under a new name leaves what the mailbox had readable as before. */
  lemma OthersUntouched(disk: Disk, after: Disk, key: (string, string), body: Bytes)
    requires Agree(disk) && key !in disk.bodies && after.bodies == disk.bodies[key := body]
    requires Inbox(disk).messages <= Inbox(after).messages
    ensures Untouched(disk, after)
  {
    forall i | 0 <= i < |Inbox(disk).messages|
      ensures Body(after, INBOX_DIR, Inbox(after).messages[i]) == Body(disk, INBOX_DIR, Inbox(disk).messages[i])
    {
      assert FilesOk(disk, INBOX_DIR, disk.indexes[INBOX_DIR]);
      assert (INBOX_DIR, Inbox(disk).messages[i].file) in disk.bodies;
    }
  }

  lemma InboxToAppend(disk: Disk, now: int)
    requires Agree(disk) && Stamp(now) != 0 && Inbox(disk).uidNext < UINT32_MAX
    ensures CanAppend(disk, INBOX_DIR, now)
    ensures IndexToAppend(disk, INBOX_DIR, now)
         == if INBOX_DIR in disk.indexes then Inbox(disk) else Inbox(disk).(uidValidity := Stamp(now))
  {
    IndexToAppendOk(disk, INBOX_DIR, now);
  }

  lemma AppendedInbox(disk: Disk, body: Bytes, now: int)
    requires Agree(disk) && Stamp(now) != 0 && Inbox(disk).uidNext < UINT32_MAX
    ensures var after := Append(disk, INBOX_DIR, [], Date(now), body, now).0;
            var key := (INBOX_DIR, FileName(Inbox(disk).uidNext));
            && after.bodies == disk.bodies[key := body]
            && INBOX_DIR in after.indexes && after.indexes - {INBOX_DIR} == disk.indexes - {INBOX_DIR}
            && Inbox(after).messages == Inbox(disk).messages + [NewMessage(Inbox(disk).uidNext, [], Date(now), body, now)]
            && Inbox(after).uidNext == Inbox(disk).uidNext + 1
            && (INBOX_DIR in disk.indexes ==> Inbox(after).uidValidity == Inbox(disk).uidValidity)
  {
    InboxToAppend(disk, now);
    var ix := IndexToAppend(disk, INBOX_DIR, now);
    assert ix.uidNext == Inbox(disk).uidNext && ix.messages == Inbox(disk).messages;
    var after := Append(disk, INBOX_DIR, [], Date(now), body, now).0;
    assert after.indexes == disk.indexes[INBOX_DIR := Appended(ix, [], Date(now), body, now)];
  }

  lemma AppendGrows(disk: Disk, body: Bytes, now: int)
    requires Agree(disk) && Stamp(now) != 0 && Inbox(disk).uidNext < UINT32_MAX
    ensures var after := Append(disk, INBOX_DIR, [], Date(now), body, now).0;
            Agree(after) && Grown(disk, after, [body])
  {
    InboxToAppend(disk, now);
    AppendWithRoom(disk, INBOX_DIR, [], Date(now), body, now);
    NextFileIsFree(disk, INBOX_DIR, IndexToAppend(disk, INBOX_DIR, now));
    AppendedInbox(disk, body, now);
    var after := Append(disk, INBOX_DIR, [], Date(now), body, now).0;
    OthersUntouched(disk, after, (INBOX_DIR, FileName(Inbox(disk).uidNext)), body);
    AddedReceived(disk, after, body, now);
  }

  lemma AddedReceived(disk: Disk, after: Disk, body: Bytes, now: int)
    requires Inbox(after).messages == Inbox(disk).messages + [NewMessage(Inbox(disk).uidNext, [], Date(now), body, now)]
    requires Inbox(after).uidNext == Inbox(disk).uidNext + 1
    requires (INBOX_DIR in disk.indexes ==> INBOX_DIR in after.indexes && Inbox(after).uidValidity == Inbox(disk).uidValidity)
    requires after.bodies == disk.bodies[(INBOX_DIR, FileName(Inbox(disk).uidNext)) := body]
    requires after.indexes - {INBOX_DIR} == disk.indexes - {INBOX_DIR} && Untouched(disk, after)
    ensures Grown(disk, after, [body])
  {
    var n := |Inbox(disk).messages|;
    NoFlags();
    assert ReceivedOne(after, n, Inbox(disk).uidNext, body);
    forall i | 0 <= i < |[body]| ensures ReceivedOne(after, n + i, Inbox(disk).uidNext + i, [body][i]) {
      assert i == 0;
    }
  }

  lemma NoFlags()
    ensures Flags.Normalise([]) == []
  {
  }

  lemma GrowsOn(before: Disk, middle: Disk, after: Disk, due: seq<Bytes>, body: Bytes)
    requires Grown(before, middle, due) && Grown(middle, after, [body])
    ensures Grown(before, after, due + [body])
  {
    var n, next := |Inbox(before).messages|, Inbox(before).uidNext;
    forall i | 0 <= i < |due| + 1 ensures ReceivedOne(after, n + i, next + i, (due + [body])[i]) {
      if i < |due| {
        assert ReceivedOne(middle, n + i, next + i, due[i]);
        assert Inbox(after).messages[n + i] == Inbox(middle).messages[n + i];
      } else {
        assert ReceivedOne(after, |Inbox(middle).messages| + 0, Inbox(middle).uidNext + 0, [body][0]);
      }
    }
    forall i | 0 <= i < n
      ensures i < |Inbox(after).messages|
      ensures Inbox(after).messages[i] == Inbox(before).messages[i]
      ensures Body(after, INBOX_DIR, Inbox(after).messages[i]) == Body(before, INBOX_DIR, Inbox(before).messages[i])
    {
      assert Inbox(middle).messages[i] == Inbox(before).messages[i];
    }
  }

  /** Every account receives exactly the copies due to it, in order, and no other account's. */
  lemma {:induction false} FiledMeaning(mail: map<int, Disk>, copies: seq<Copy>, uid: int)
    requires Agree(DiskOf(mail, uid)) && forall i :: 0 <= i < |copies| ==> Stamp(copies[i].now) != 0
    requires Inbox(DiskOf(mail, uid)).uidNext + |DueTo(copies, uid)| <= UINT32_MAX
    ensures var after := DiskOf(File(mail, copies), uid);
            Agree(after) && Grown(DiskOf(mail, uid), after, DueTo(copies, uid))
  {
    if copies != [] {
      var init, last := copies[..|copies| - 1], copies[|copies| - 1];
      FiledMeaning(mail, init, uid);
      if last.stored && last.uid == uid {
        var middle := DiskOf(File(mail, init), uid);
        AppendGrows(middle, last.body, last.now);
        GrowsOn(DiskOf(mail, uid), middle, DiskOf(File(mail, copies), uid), DueTo(init, uid), last.body);
      }
    }
  }

  /** The j-th copy due to an account has the j-th new place in its INBOX. */
  lemma FiledAt(mail: map<int, Disk>, copies: seq<Copy>, uid: int, j: nat)
    requires Agree(DiskOf(mail, uid)) && forall i :: 0 <= i < |copies| ==> Stamp(copies[i].now) != 0
    requires Inbox(DiskOf(mail, uid)).uidNext + |DueTo(copies, uid)| <= UINT32_MAX && j < |DueTo(copies, uid)|
    ensures var before, after := DiskOf(mail, uid), DiskOf(File(mail, copies), uid);
            && |Inbox(after).messages| == |Inbox(before).messages| + |DueTo(copies, uid)|
            && ReceivedOne(after, |Inbox(before).messages| + j, Inbox(before).uidNext + j, DueTo(copies, uid)[j])
  {
    FiledMeaning(mail, copies, uid);
    GrownAt(DiskOf(mail, uid), DiskOf(File(mail, copies), uid), DueTo(copies, uid), j);
  }

  lemma GrownAt(before: Disk, after: Disk, due: seq<Bytes>, j: nat)
    requires Grown(before, after, due) && j < |due|
    ensures |Inbox(after).messages| == |Inbox(before).messages| + |due|
    ensures ReceivedOne(after, |Inbox(before).messages| + j, Inbox(before).uidNext + j, due[j])
  {
  }
}
