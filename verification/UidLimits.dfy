/** The edges of the UID promises: exact conditions, and inputs that show they are needed. */
module UidLimits {
  import opened Wrappers
  import opened MailDisk

  /** UIDVALIDITY does not depend on when it is asked for exactly when the mailbox has
      been written with a nonzero stamp. INBOX is shown before its first message is
      stored, with a stamp that is made up again on every look. */
  lemma UidValidityIsStable(disk: Disk, dir: string)
    requires TakeSnapshot(disk, dir, 0).Ok?
    ensures (forall t: int, u: int :: TakeSnapshot(disk, dir, t).value.uidValidity
                                   == TakeSnapshot(disk, dir, u).value.uidValidity)
            <==> dir in disk.indexes && disk.indexes[dir].uidValidity != 0
  {
    if !(dir in disk.indexes && disk.indexes[dir].uidValidity != 0) {
      assert TakeSnapshot(disk, dir, 1).value.uidValidity == 1;
      assert TakeSnapshot(disk, dir, 2).value.uidValidity == 2;
    }
  }

  const A := "A"
  const Start := Disk(map[], map[])

  /** Two mailboxes of one name made within the same second: the pair (stamp, 1) names
      first one body and then another. */
  lemma SameSecondReusesIdentity(now: int, one: Bytes, two: Bytes)
    requires Stamp(now) != 0 && one != two
    ensures var d1 := Append(Start, A, [], ZeroDate, one, now).0;
            var d2 := Append(Delete(d1, A).0, A, [], ZeroDate, two, now).0;
            && d1.indexes[A].uidValidity == d2.indexes[A].uidValidity
            && |d1.indexes[A].messages| == |d2.indexes[A].messages| == 1
            && d1.indexes[A].messages[0].uid == d2.indexes[A].messages[0].uid
            && Body(d1, A, d1.indexes[A].messages[0]) == Some(one)
            && Body(d2, A, d2.indexes[A].messages[0]) == Some(two)
  {
    var d1 := Append(Start, A, [], ZeroDate, one, now).0;
    var e := Delete(d1, A).0;
    assert A in d1.indexes && A !in e.indexes;
    var d2 := Append(e, A, [], ZeroDate, two, now).0;
    assert d2.indexes[A].messages == [NewMessage(1, [], ZeroDate, two, now)];
  }

  /** A client that kept the snapshot of a mailbox since deleted and made again, even at
      another second, reads the new mailbox's message for the old one: bodies are fetched
      by file name and the stamp is not compared. POP3 is spared because INBOX cannot be
      deleted. */
  lemma StaleSnapshotReadsAnother(now: int, later: int, one: Bytes, two: Bytes)
    requires Stamp(now) != 0 && Stamp(later) != 0 && Stamp(now) != Stamp(later) && one != two
    ensures var d1 := Append(Start, A, [], ZeroDate, one, now).0;
            var d2 := Append(Delete(d1, A).0, A, [], ZeroDate, two, later).0;
            && TakeSnapshot(d1, A, now).Ok?
            && var m := TakeSnapshot(d1, A, now).value.messages[0];
               && Body(d1, A, m) == Some(one) && Body(d2, A, m) == Some(two)
               && d2.indexes[A].uidValidity != TakeSnapshot(d1, A, now).value.uidValidity
  {
    var d1 := Append(Start, A, [], ZeroDate, one, now).0;
    var e := Delete(d1, A).0;
    assert A !in e.indexes;
    var d2 := Append(e, A, [], ZeroDate, two, later).0;
    assert d2.indexes[A].messages == [NewMessage(1, [], ZeroDate, two, later)];
    assert TakeSnapshot(d1, A, now).value.messages == [NewMessage(1, [], ZeroDate, one, now)];
  }

  /** With UIDNext at 2^32 - 1 two more appends store the second under UID 1 again, over
      the body file UID 1 already had. */
  lemma WrapReusesUid(disk: Disk, dir: string, first: Bytes, second: Bytes, now: int)
    requires Agree(disk) && dir in disk.indexes && disk.indexes[dir].uidNext == UINT32_MAX
    requires disk.indexes[dir].messages != [] && disk.indexes[dir].messages[0].uid == 1
    ensures var d1 := Append(disk, dir, [], ZeroDate, first, now);
            var d2 := Append(d1.0, dir, [], ZeroDate, second, now);
            && d1.1 == UINT32_MAX && d2.1 == 1
            && d2.0.indexes[dir].messages != []
            && d2.0.indexes[dir].messages[0] == disk.indexes[dir].messages[0]
            && Body(d2.0, dir, disk.indexes[dir].messages[0]) == Some(second)
  {
    assert MessageOk(disk.indexes[dir].messages[0]);
    WrapStores(disk, dir, first, second, now);
  }

  lemma AppendExisting(disk: Disk, dir: string, body: Bytes, now: int)
    requires dir in disk.indexes
    ensures var (after, uid) := Append(disk, dir, [], ZeroDate, body, now);
            && uid == (if disk.indexes[dir].uidNext == 0 then 1 else disk.indexes[dir].uidNext)
            && dir in after.indexes
            && after.indexes[dir].uidNext == (uid + 1) % UINT32_SIZE
            && disk.indexes[dir].messages <= after.indexes[dir].messages
            && (dir, FileName(uid)) in after.bodies && after.bodies[(dir, FileName(uid))] == body
  {
  }

  lemma WrapStores(disk: Disk, dir: string, first: Bytes, second: Bytes, now: int)
    requires dir in disk.indexes && disk.indexes[dir].uidNext != 0
    ensures var d1 := Append(disk, dir, [], ZeroDate, first, now);
            var d2 := Append(d1.0, dir, [], ZeroDate, second, now);
            && d1.1 == disk.indexes[dir].uidNext
            && d2.1 == (if d1.1 == UINT32_MAX then 1 else d1.1 + 1)
            && dir in d2.0.indexes && (dir, FileName(d2.1)) in d2.0.bodies
            && disk.indexes[dir].messages <= d2.0.indexes[dir].messages
            && d2.0.bodies[(dir, FileName(d2.1))] == second
  {
    AppendExisting(disk, dir, first, now);
    SecondStored(disk, Append(disk, dir, [], ZeroDate, first, now).0, dir, disk.indexes[dir].uidNext, second, now);
  }

  lemma SecondStored(disk: Disk, d1: Disk, dir: string, uid: uint32, second: Bytes, now: int)
    requires dir in disk.indexes && dir in d1.indexes && uid != 0
    requires d1.indexes[dir].uidNext == (uid + 1) % UINT32_SIZE && disk.indexes[dir].messages <= d1.indexes[dir].messages
    ensures var d2 := Append(d1, dir, [], ZeroDate, second, now);
            && d2.1 == (if uid == UINT32_MAX then 1 else uid + 1)
            && dir in d2.0.indexes && (dir, FileName(d2.1)) in d2.0.bodies
            && disk.indexes[dir].messages <= d2.0.indexes[dir].messages
            && d2.0.bodies[(dir, FileName(d2.1))] == second
  {
    AppendExisting(d1, dir, second, now);
  }

  // ---- a stamp that was used before

  /** The same message filed n times. */
  function AppendTimes(disk: Disk, dir: string, n: nat, body: Bytes, now: int): Disk {
    if n == 0 then disk
    else Append(AppendTimes(disk, dir, n - 1, body, now), dir, [], ZeroDate, body, now).0
  }

  /** The mailbox lists a message under the pair, with this body. */
  ghost predicate Shows(disk: Disk, dir: string, uidValidity: uint32, uid: nat, body: Bytes) {
    && dir in disk.indexes && disk.indexes[dir].uidValidity == uidValidity
    && exists i :: 0 <= i < |disk.indexes[dir].messages| && disk.indexes[dir].messages[i].uid == uid
                   && Body(disk, dir, disk.indexes[dir].messages[i]) == Some(body)
  }

  ghost predicate OthersSame(disk: Disk, after: Disk, dir: string) {
    && (forall d :: d in disk.indexes && d != dir ==> d in after.indexes && after.indexes[d] == disk.indexes[d])
    && (forall k :: k in disk.bodies && k.0 != dir ==> k in after.bodies && after.bodies[k] == disk.bodies[k])
  }

  /** The mailbox after its n-th message, all of them this one. */
  ghost predicate Filled(disk: Disk, after: Disk, dir: string, n: nat, body: Bytes, stamp: uint32) {
    && dir in after.indexes && after.indexes[dir].uidValidity == stamp && after.indexes[dir].uidNext == n + 1
    && (n > 0 ==> Shows(after, dir, stamp, n, body))
    && OthersSame(disk, after, dir)
  }

  lemma {:induction false} NthAppend(disk: Disk, dir: string, n: nat, body: Bytes, now: int)
    requires dir in disk.indexes && disk.indexes[dir] == NewIndex(now) && Stamp(now) != 0 && n < UINT32_MAX
    ensures Filled(disk, AppendTimes(disk, dir, n, body, now), dir, n, body, Stamp(now))
  {
    if n > 0 {
      NthAppend(disk, dir, n - 1, body, now);
      OneMore(disk, AppendTimes(disk, dir, n - 1, body, now), dir, n, body, now);
    }
  }

  lemma OneMore(disk: Disk, before: Disk, dir: string, n: nat, body: Bytes, now: int)
    requires 0 < n < UINT32_MAX && Stamp(now) != 0 && Filled(disk, before, dir, n - 1, body, Stamp(now))
    ensures Filled(disk, Append(before, dir, [], ZeroDate, body, now).0, dir, n, body, Stamp(now))
  {
    LastAppended(before, dir, body, now);
    OthersStillSame(disk, before, Append(before, dir, [], ZeroDate, body, now).0, dir);
  }

  lemma OthersStillSame(disk: Disk, middle: Disk, after: Disk, dir: string)
    requires OthersSame(disk, middle, dir) && OthersSame(middle, after, dir)
    ensures OthersSame(disk, after, dir)
  {
  }

  lemma LastAppended(disk: Disk, dir: string, body: Bytes, now: int)
    requires dir in disk.indexes && disk.indexes[dir].uidValidity != 0 && 1 <= disk.indexes[dir].uidNext < UINT32_MAX
    ensures var ix := disk.indexes[dir];
            var after := Append(disk, dir, [], ZeroDate, body, now).0;
            && dir in after.indexes && after.indexes[dir].uidValidity == ix.uidValidity
            && after.indexes[dir].uidNext == ix.uidNext + 1
            && Shows(after, dir, ix.uidValidity, ix.uidNext, body)
            && OthersSame(disk, after, dir)
  {
    var ix := disk.indexes[dir];
    var after := Append(disk, dir, [], ZeroDate, body, now).0;
    assert after.indexes[dir] == Appended(ix, [], ZeroDate, body, now);
    assert after.indexes[dir].messages[|ix.messages|] == NewMessage(ix.uidNext, [], ZeroDate, body, now);
  }

  /** A pair that is bound to a body gets another one in a mailbox made with its stamp, by as
      many deliveries as its UID says. */
  lemma UsedStampRebinds(disk: Disk, bound: map<(uint32, uint32), Bytes>, dir: string, now: int, u: uint32, body: Bytes)
    requires dir !in disk.indexes && dir != INBOX_DIR && Stamp(now) != 0 && 1 <= u < UINT32_MAX
    requires (Stamp(now), u) in bound && bound[(Stamp(now), u)] != body
    ensures var after := AppendTimes(Create(disk, dir, now).0, dir, u, body, now);
            Shows(after, dir, Stamp(now), u, body) && body != bound[(Stamp(now), u)]
  {
    NthAppend(Create(disk, dir, now).0, dir, u, body, now);
  }

  /** Two mailboxes with one stamp come to show one pair with two bodies. */
  lemma SharedStampCollides(disk: Disk, dir: string, other: string, now: int, one: Bytes, two: Bytes)
    requires dir !in disk.indexes && dir != INBOX_DIR && other in disk.indexes && Stamp(now) != 0
    requires disk.indexes[other].uidValidity == Stamp(now) && 1 <= disk.indexes[other].uidNext < UINT32_MAX
    ensures var u := disk.indexes[other].uidNext;
            var first := Append(disk, other, [], ZeroDate, one, now).0;
            var after := AppendTimes(Create(first, dir, now).0, dir, u, two, now);
            Shows(after, other, Stamp(now), u, one) && Shows(after, dir, Stamp(now), u, two)
  {
    LastAppended(disk, other, one, now);
    var u := disk.indexes[other].uidNext;
    var first := Append(disk, other, [], ZeroDate, one, now).0;
    assert dir !in first.indexes;
    NthAppend(Create(first, dir, now).0, dir, u, two, now);
    var after := AppendTimes(Create(first, dir, now).0, dir, u, two, now);
    var i :| 0 <= i < |first.indexes[other].messages| && first.indexes[other].messages[i].uid == u
             && Body(first, other, first.indexes[other].messages[i]) == Some(one);
    assert after.indexes[other].messages[i].uid == u;
  }

  // ---- names that are no mailbox of their own

  /** An open POP3 session reads another message for its own once the mailbox "." was made
      and deleted and new mail has come in: INBOX is safe only from mailboxes with a
      directory of their own. */
  lemma DotMisleadsPop3(now: int, later: int, one: Bytes, two: Bytes)
    requires Stamp(now) != 0 && one != two
    ensures var d1 := Append(Start, INBOX_DIR, [], ZeroDate, one, now).0;
            var d2 := Delete(Create(d1, ".", now).0, ".").0;
            var d3 := Append(d2, INBOX_DIR, [], ZeroDate, two, later).0;
            && TakeSnapshot(d1, INBOX_DIR, now).Ok? && |TakeSnapshot(d1, INBOX_DIR, now).value.messages| == 1
            && var m := TakeSnapshot(d1, INBOX_DIR, now).value.messages[0];
               Body(d1, INBOX_DIR, m) == Some(one) && Body(d3, INBOX_DIR, m) == Some(two)
  {
    var d1 := Append(Start, INBOX_DIR, [], ZeroDate, one, now).0;
    DotErasesInbox(d1, now, later);
    assert d1.indexes[INBOX_DIR].messages == [NewMessage(1, [], ZeroDate, one, now)];
    assert TakeSnapshot(d1, INBOX_DIR, now).value.messages == [NewMessage(1, [], ZeroDate, one, now)];
  }
}
