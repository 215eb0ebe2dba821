/**
 Every action keeps the journal's invariant. For each part of the invariant there is one frame
 lemma, which covers the actions that leave its fields alone, and one lemma for every action
 that does not.
 */
module JournalSafety {
  import opened JournalFormat
  import opened JournalSteps
  import opened Bytes
  import opened Optional

  // ---------- Slot accounting ----------

  lemma RingFrame(s: State, t: State)
    requires RingInv(s)
    requires t.total == s.total && |t.disk| == |s.disk| && t.nextwrite == s.nextwrite
    requires t.pending == s.pending && t.inuse == s.inuse && t.open == s.open && t.resrv == s.resrv
    requires t.started == s.started && t.totalTrans == s.totalTrans && t.totalReserve == s.totalReserve
    requires t.asked == s.asked
    requires t.inflight == s.inflight || t.inflight == None
    requires forall x :: x in s.pending && x in s.handles ==> x in t.handles && t.handles[x].slot == s.handles[x].slot
    ensures RingInv(t)
  {}

  lemma RingRequest(s: State, count: nat)
    requires RingInv(s)
    ensures RingInv(Apply(s, Request(count)))
  {}

  lemma RingReserve(s: State)
    requires RingInv(s) && Enabled(s, Reserve)
    ensures RingInv(DoReserve(s))
  {}

  lemma RingUnreserve(s: State, unused: bool)
    requires RingInv(s) && Enabled(s, Unreserve(unused))
    ensures RingInv(DoUnreserve(s, unused))
  {}

  lemma RingNewTrans(s: State, distill: bool, txg: nat, buf: nat)
    requires RingInv(s) && IdInv(s) && Enabled(s, NewTrans(distill, txg, buf))
    ensures RingInv(DoNewTrans(s, distill, txg, buf))
  {
    hide RingInv, IdInv, NextXid, Busy;
    var t, x := DoNewTrans(s, distill, txg, buf), NextXid(s.lastxid);
    NewXidFacts(s, x);
    assert |t.started| == |s.started| + 1;
    RingBegun(s, t, x);
  }

  lemma RingBegun(s: State, t: State, x: nat)
    requires RingInv(s) && x !in s.handles && |s.started| < s.open
    requires t.total == s.total && t.disk == s.disk && t.nextwrite == s.nextwrite && t.inflight == s.inflight
    requires t.pending == s.pending && t.inuse == s.inuse && t.open == s.open && t.resrv == s.resrv
    requires |t.started| == |s.started| + 1 && t.totalTrans == s.totalTrans + 1
    requires t.totalReserve == s.totalReserve && t.asked == s.asked
    requires forall y :: y in s.handles ==> y in t.handles && t.handles[y].slot == s.handles[y].slot
    ensures RingInv(t)
  {}

  lemma RingNextSlot(s: State, x: nat, app: nat, data: seq<Byte>)
    requires RingInv(s) && IdInv(s) && Enabled(s, NextSlot(x, app, data)) && s.open > 0
    ensures RingInv(DoNextSlot(s, x, app, data))
  {
    hide RecordOf;
    var t := DoNextSlot(s, x, app, data);
    assert x !in s.pending;
    FewerStarted(s.started, x);
    forall k | 0 <= k < |t.pending|
      ensures t.pending[k] in t.handles && t.handles[t.pending[k]].slot == PendingSlot(t, k)
    {
      assert k < |s.pending| ==> t.pending[k] == s.pending[k] != x;
      assert k < |s.pending| ==> PendingSlot(t, k) == PendingSlot(s, k);
    }
  }

  lemma FewerStarted(m: map<nat, nat>, x: nat)
    requires x in m
    ensures |m - {x}| == |m| - 1
  {
    assert (m - {x}).Keys == m.Keys - {x};
    assert |(m - {x}).Keys| == |m.Keys| - 1;
  }

  lemma RingReclaim(s: State)
    requires RingInv(s) && Reclaimable(s) && s.inuse > 0 && KeepsHandles(s, Reclaim)
    ensures RingInv(DoReclaim(s))
  {
    var t := DoReclaim(s);
    forall k | 0 <= k < |t.pending|
      ensures t.pending[k] in t.handles && t.handles[t.pending[k]].slot == PendingSlot(t, k)
    {
      assert t.pending[k] == s.pending[k + 1];
      assert PendingSlot(s, k + 1) != PendingSlot(s, 0);
    }
    assert s.inflight.Some? ==> |s.pending| > 1;
  }

  // ---------- IDs ----------

  lemma IdFrame(s: State, t: State)
    requires IdInv(s)
    requires t.handles.Keys == s.handles.Keys && forall x :: x in s.handles ==> t.handles[x].xid == s.handles[x].xid
    requires t.started == s.started && t.pending == s.pending && t.logged == s.logged && t.issued == s.issued
    requires t.inflight == s.inflight && t.thrXid == s.thrXid
    requires t.lastxid == s.lastxid || s.lastxid <= t.lastxid < XID_LIMIT
    requires forall x :: x in t.flushed ==> x in s.flushed && t.flushed[x] == s.flushed[x]
    requires forall x :: x in t.returning ==> x !in t.flushed && (x in s.returning || x in s.flushed)
    ensures IdInv(t)
  {
    assert forall x :: x in t.handles <==> x in s.handles;
  }

  lemma IdNewTrans(s: State, distill: bool, txg: nat, buf: nat)
    requires IdInv(s) && s.lastxid + 1 < XID_LIMIT
    ensures IdInv(DoNewTrans(s, distill, txg, buf))
  {
    NextXidGrows(s.lastxid);
    hide NextXid;
  }

  lemma IdNextSlot(s: State, x: nat, app: nat, data: seq<Byte>)
    requires IdInv(s) && x in s.started && x in s.handles && s.open > 0
    ensures IdInv(DoNextSlot(s, x, app, data))
  {
    hide Sealed;
    var t := DoNextSlot(s, x, app, data);
    assert t.pending[|s.pending|] == x;
  }

  lemma IdFlush(s: State, slot: int)
    requires IdInv(s) && s.inflight.Some?
    ensures IdInv(DoFlush(s, slot))
  {}

  lemma IdDistillDone(s: State)
    requires IdInv(s) && s.distilling.Some? && s.distilling.value.xid in s.handles && s.distilling.value.seen.Some?
    ensures IdInv(DoDistillDone(s))
  {
    var t := DoDistillDone(s);
    assert forall x :: x in t.handles <==> x in s.handles;
  }

  lemma IdReclaim(s: State)
    requires RingInv(s) && IdInv(s) && Reclaimable(s) && s.inuse > 0
    ensures IdInv(DoReclaim(s))
  {
    hide RingInv, IdInv;
    HeadOnce(s);
    IdDropped(s, DoReclaim(s), s.pending[0]);
  }

  lemma IdDropped(s: State, t: State, x: nat)
    requires IdInv(s) && s.pending != [] && s.pending[0] == x && x !in s.pending[1..]
    requires t.pending == s.pending[1..] && t.handles == s.handles - {x}
    requires t.started == s.started && t.inflight == s.inflight && t.flushed == s.flushed && t.returning == s.returning
    requires t.logged == s.logged && t.issued == s.issued && t.thrXid == s.thrXid && t.lastxid == s.lastxid
    ensures IdInv(t)
  {
    assert s.pending == [x] + t.pending;
    assert forall y :: y in s.pending <==> y == x || y in t.pending;
    assert forall y :: y in t.handles <==> y in s.handles && y != x;
  }

  // A transaction is pending at most once, because pending slots differ.
  lemma HeadOnce(s: State)
    requires RingInv(s) && s.pending != []
    ensures s.pending[0] !in s.pending[1..]
  {
    forall k | 0 <= k < |s.pending| - 1
      ensures s.pending[1..][k] != s.pending[0]
    {
      assert s.pending[1..][k] == s.pending[k + 1];
      assert PendingSlot(s, k + 1) != PendingSlot(s, 0);
    }
  }

  // ---------- The log ----------

  lemma LogFrame(s: State, t: State)
    requires LogInv(s)
    requires t.pending == s.pending && t.logged == s.logged && t.inflight == s.inflight
    requires t.disk == s.disk && t.retired == s.retired && t.commitTxg >= s.commitTxg
    requires forall x :: x in s.pending && x in t.handles ==> x in s.handles && Milder(s.handles[x], t.handles[x])
    requires forall x :: x in s.pending && x in s.handles ==> x in t.handles
    ensures LogInv(t)
  {
    hide IsEntry;
  }

  ghost predicate Milder(g: Handle, h: Handle) {
    h.xid == g.xid && h.slot == g.slot && h.txg >= g.txg && (h.distill ==> g.distill)
  }

  lemma LogNextSlot(s: State, t: State, x: nat, w: Write)
    requires LogInv(s) && s.inflight.None?
    requires x in s.handles && x !in s.pending && x !in s.logged && x in t.handles
    requires t.pending == s.pending + [x] && t.logged == s.logged && t.disk == s.disk
    requires t.commitTxg == s.commitTxg && t.retired == s.retired
    requires t.handles == s.handles[x := s.handles[x].(slot := t.handles[x].slot)]
    requires t.inflight == Some(w) && w.xid == x && Recorded(s.handles[x], w.rec) && s.handles[x].xid == x
    ensures LogInv(t)
  {
    hide IsEntry;
    forall y | y in t.pending
      ensures PendingOk(t, y)
    {
      assert y != x ==> y in s.pending && PendingOk(s, y);
    }
    assert t.pending[|s.pending|] == x;
    forall y | y in t.logged
      ensures LoggedOk(t, y)
    {
      assert LoggedOk(s, y);
    }
  }

  lemma SealedRecord(h: Handle, app: nat, data: seq<Byte>)
    ensures IsEntry(RecordOf(h, app, data)) && Recorded(h, RecordOf(h, app, data))
    ensures RecordOf(h, app, data).kind == Normal(app, h.distill) && RecordOf(h, app, data).txg == h.txg
    ensures RecordOf(h, app, data).data == data && RecordOf(h, app, data).xid == h.xid
    ensures RecordOf(h, app, data).magic == 0x4567abcd
  {
    hide Intact, Sealed;
    SealedIsIntact(Record(PJE_MAGIC, Normal(app, h.distill), h.xid, h.txg, 0, data));
  }

  lemma LogFlush(s: State, slot: int)
    requires RingInv(s) && IdInv(s) && LogInv(s) && s.inflight.Some? && InRing(s, slot)
    ensures LogInv(DoFlush(s, slot))
  {
    hide IsEntry;
    var w, t := s.inflight.value, DoFlush(s, slot);
    forall x | x in s.pending && x in s.logged && x in s.handles
      ensures s.handles[x].slot != slot
    {
      OtherSlots(s, x);
    }
  }

  // The slot of the write in progress, as its handle has it.
  ghost predicate InRing(s: State, slot: int) {
    && s.inflight.Some? && s.inflight.value.xid in s.handles && slot == s.handles[s.inflight.value.xid].slot
    && 0 <= slot < |s.disk|
  }

  // No pending transaction but the one being written has the slot being written.
  lemma OtherSlots(s: State, x: nat)
    requires RingInv(s) && IdInv(s) && s.inflight.Some? && x in s.pending && x in s.logged
    ensures x in s.handles && s.inflight.value.xid in s.handles
    ensures s.handles[x].slot != s.handles[s.inflight.value.xid].slot
  {
    hide IdInv;
    InflightNotLogged(s);
    var k :| 0 <= k < |s.pending| && s.pending[k] == x;
    var n := |s.pending| - 1;
    assert s.pending[n] == s.inflight.value.xid;
    assert PendingSlot(s, k) != PendingSlot(s, n);
  }

  lemma InflightNotLogged(s: State)
    requires IdInv(s) && s.inflight.Some?
    ensures s.inflight.value.xid !in s.logged
  {}

  lemma LogReclaim(s: State, t: State, x: nat)
    requires LogInv(s) && s.pending != [] && s.pending[0] == x && x !in s.pending[1..]
    requires x in s.handles && s.handles[x].txg <= s.commitTxg && !s.handles[x].distill
    requires s.inflight.Some? ==> s.inflight.value.xid != x
    requires t.pending == s.pending[1..] && t.logged == s.logged && t.disk == s.disk && t.inflight == s.inflight
    requires t.commitTxg == s.commitTxg && t.handles == s.handles - {x} && t.retired >= s.retired
    requires x in s.logged && s.logged[x].kind.Normal? && s.logged[x].kind.distill ==> x <= t.retired
    ensures LogInv(t)
  {
    hide Intact;
    assert s.pending == [x] + t.pending;
    forall y | y in t.pending
      ensures PendingOk(t, y)
    {
      assert y in s.pending && PendingOk(s, y);
    }
    forall y | y in t.logged
      ensures LoggedOk(t, y)
    {
      assert LoggedOk(s, y);
      assert y == x ==> PendingOk(s, y);
    }
    assert PendingOk(s, x);
  }

  // ---------- The disk ----------

  lemma DiskFrame(s: State, t: State)
    requires DiskInv(s)
    requires t.disk == s.disk && t.inflight == s.inflight && t.nextwrite == s.nextwrite && t.total == s.total
    requires t.lastxid >= s.lastxid && forall x :: x in t.started ==> x in s.started || x > s.lastxid
    ensures DiskInv(t)
  {
    hide IsEntry, IsFormat;
  }

  lemma DiskNextSlot(s: State, t: State, x: nat)
    requires DiskInv(s) && s.inflight.None? && x in s.started
    requires t.disk == s.disk && t.lastxid == s.lastxid && t.started == s.started - {x}
    requires t.inflight.Some? && t.inflight.value.xid == x && Wrap(t.nextwrite - 1, t.total) == s.nextwrite
    ensures DiskInv(t)
  {
    hide IsEntry, IsFormat;
  }

  lemma DiskFlush(s: State, t: State, w: Write, slot: nat)
    requires DiskInv(s) && s.inflight == Some(w) && w.xid <= s.lastxid && w.xid !in s.started
    requires slot < |s.disk| && slot == Wrap(s.nextwrite - 1, s.total)
    requires IsEntry(w.rec) && w.rec.xid == w.xid
    requires t.disk == s.disk[slot := w.rec] && t.inflight == None && t.lastxid == s.lastxid
    requires t.started == s.started && (t.nextwrite == slot + 1 || t.nextwrite == 0)
    ensures DiskInv(t)
  {
    EntryIsNotFormat(w.rec);
    hide IsEntry, IsFormat;
    assert forall j :: 0 <= j < |s.disk| && j != slot ==> t.disk[j] == s.disk[j];
    OverwriteKeepsSuffix(s.disk, slot, w.rec);
    OverwriteKeepsDistinct(s.disk, slot, w.rec);
  }

  lemma OverwriteKeepsSuffix(disk: seq<Record>, i: nat, r: Record)
    requires FormatSuffix(disk) && i < |disk| && !IsFormat(r)
    requires forall j :: 0 <= j < i ==> !IsFormat(disk[j])
    ensures FormatSuffix(disk[i := r])
  {
    hide IsFormat;
  }

  lemma OverwriteKeepsDistinct(disk: seq<Record>, i: nat, r: Record)
    requires DistinctXids(disk) && i < |disk|
    requires forall j :: 0 <= j < |disk| && IsEntry(disk[j]) ==> disk[j].xid != r.xid
    ensures DistinctXids(disk[i := r])
  {
    hide IsEntry;
  }

  lemma EntryIsNotFormat(r: Record)
    requires IsEntry(r)
    ensures !IsFormat(r)
  {}

  // ---------- Distillation ----------

  // The distill thread has the same transaction in hand.
  ghost predicate SameHand(s: State, t: State) {
    && s.distilling.Some? == t.distilling.Some?
    && (s.distilling.Some? ==>
          s.distilling.value.xid == t.distilling.value.xid && s.distilling.value.item == t.distilling.value.item)
  }

  lemma QueueFrame(s: State, t: State)
    requires QueueInv(s)
    requires t.distillq == s.distillq && t.thrXid == s.thrXid && SameHand(s, t) && t.lastxid >= s.lastxid
    requires t.distillXid <= t.thrXid && t.retired <= t.thrXid
    requires forall x :: x in t.handles ==> x in s.handles && t.handles[x].distill == s.handles[x].distill
    requires forall x :: x in s.handles && s.handles[x].distill ==> x in t.handles
    ensures QueueInv(t)
  {}

  lemma QueueNewTrans(s: State, t: State, x: nat, distill: bool)
    requires QueueInv(s) && x > s.lastxid && t.lastxid == x && s.thrXid <= s.lastxid
    requires forall y :: y in s.handles ==> y <= s.lastxid
    requires t.distillq == if distill then s.distillq + [x] else s.distillq
    requires t.handles.Keys == s.handles.Keys + {x} && t.handles[x].distill == distill
    requires forall y :: y in s.handles ==> t.handles[y].distill == s.handles[y].distill
    requires t.thrXid == s.thrXid && t.distilling == s.distilling
    requires t.distillXid == s.distillXid && t.retired == s.retired
    ensures QueueInv(t)
  {
    hide IncreasingIds;
    forall y
      ensures y in t.distillq <==> y in s.distillq || (distill && y == x)
    {}
    assert forall y :: y in t.handles <==> y in s.handles || y == x;
    assert x !in s.distillq && !InHand(s, x);
    if distill {
      IncreasingAppended(s.distillq, x);
    }
  }

  lemma IncreasingAppended(q: seq<nat>, x: nat)
    requires IncreasingIds(q) && forall y :: y in q ==> y < x
    ensures IncreasingIds(q + [x])
  {
    assert forall i :: 0 <= i < |q| ==> q[i] in q;
  }

  lemma QueueTake(s: State, t: State, x: nat)
    requires QueueInv(s) && s.distilling.None? && s.distillq != [] && s.distillq[0] == x
    requires t.distillq == s.distillq[1..] && t.distilling.Some? && t.distilling.value.xid == x
    requires t.handles.Keys == s.handles.Keys && forall y :: y in s.handles ==> t.handles[y].distill == s.handles[y].distill
    requires t.thrXid == s.thrXid && t.distillXid == s.distillXid && t.retired == s.retired && t.lastxid == s.lastxid
    ensures QueueInv(t)
  {
    assert s.distillq == [x] + t.distillq;
    assert forall y :: y in t.handles <==> y in s.handles;
    assert forall i :: 0 <= i < |t.distillq| ==> t.distillq[i] == s.distillq[i + 1];
    assert IncreasingIds(t.distillq);
    assert forall y :: y in s.distillq <==> y == x || y in t.distillq;
    assert x in s.distillq;
    forall y | y in t.distillq
      ensures x < y && t.thrXid < y <= t.lastxid && y in t.handles
    {
      assert y in s.distillq;
      var k :| 0 <= k < |t.distillq| && t.distillq[k] == y;
      assert s.distillq[0] < s.distillq[k + 1];
    }
    forall y | y in t.handles
      ensures t.handles[y].distill <==> y in t.distillq || InHand(t, y)
    {
      assert s.handles[y].distill <==> y in s.distillq || InHand(s, y);
    }
  }

  lemma QueueDone(s: State, t: State, x: nat)
    requires QueueInv(s) && InHand(s, x) && t.thrXid == x && t.distilling == None
    requires t.handles.Keys == s.handles.Keys && !t.handles[x].distill
    requires forall y :: y in s.handles && y != x ==> t.handles[y].distill == s.handles[y].distill
    requires t.distillq == s.distillq && t.lastxid == s.lastxid
    requires t.distillXid == s.distillXid && t.retired == s.retired
    ensures QueueInv(t)
  {
    assert forall y :: y in t.handles <==> y in s.handles;
  }

  lemma HistoryFrame(s: State, t: State)
    requires HistoryInv(s)
    requires t.handled == s.handled && t.issued == s.issued && t.distillq == s.distillq
    requires forall x :: x <= s.thrXid || InHand(s, x) ==> x <= t.thrXid || InHand(t, x)
    ensures HistoryInv(t)
  {}

  lemma HistoryNewTrans(s: State, t: State, x: nat)
    requires HistoryInv(s)
    requires t.distillq == s.distillq + [x] && t.issued == s.issued + {x}
    requires t.handled == s.handled && t.thrXid == s.thrXid && t.distilling == s.distilling
    ensures HistoryInv(t)
  {
    assert t.distillq[|s.distillq|] == x;
  }

  lemma HistoryTake(s: State, t: State, x: nat)
    requires HistoryInv(s) && s.distilling.None? && s.distillq != [] && s.distillq[0] == x
    requires s.thrXid < x && x in s.issued
    requires t.distillq == s.distillq[1..] && t.handled == s.handled + [x] && InHand(t, x)
    requires t.issued == s.issued && t.thrXid == s.thrXid
    ensures HistoryInv(t)
  {
    assert s.distillq == [x] + t.distillq;
    assert forall y :: y in t.handled <==> y in s.handled || y == x;
    forall i, j | 0 <= i < j < |t.handled|
      ensures t.handled[i] < t.handled[j]
    {
      assert t.handled[i] == s.handled[i] && s.handled[i] in s.handled;
    }
  }

  lemma FlagFrame(s: State, t: State)
    requires FlagInv(s)
    requires t.issued == s.issued && t.started == s.started && t.logged == s.logged && t.inflight == s.inflight
    requires forall x :: x in t.handles ==> x in s.handles && (t.handles[x].distill ==> s.handles[x].distill)
    requires forall x :: x in t.handles && x in s.started ==> t.handles[x].distill == s.handles[x].distill
    ensures FlagInv(t)
  {}

  lemma FlagNewTrans(s: State, t: State, x: nat, distill: bool)
    requires FlagInv(s) && x !in s.issued && x !in s.logged && (s.inflight.Some? ==> s.inflight.value.xid != x)
    requires (forall y :: y in t.started <==> y in s.started || y == x)
    requires t.issued == if distill then s.issued + {x} else s.issued
    requires t.handles.Keys == s.handles.Keys + {x} && t.handles[x].distill == distill && x !in s.handles
    requires forall y :: y in s.handles ==> t.handles[y].distill == s.handles[y].distill
    requires t.inflight == s.inflight && t.logged == s.logged
    ensures FlagInv(t)
  {
    assert forall y :: y in t.handles <==> y in s.handles || y == x;
  }

  lemma FlagNextSlot(s: State, t: State, x: nat)
    requires FlagInv(s) && x in s.started && x in s.handles
    requires t.started == s.started - {x} && t.inflight.Some? && t.inflight.value.xid == x
    requires t.inflight.value.rec.kind.Normal? && t.inflight.value.rec.kind.distill == s.handles[x].distill
    requires t.handles.Keys == s.handles.Keys && forall y :: y in s.handles ==> t.handles[y].distill == s.handles[y].distill
    requires t.issued == s.issued && t.logged == s.logged
    ensures FlagInv(t)
  {
    assert forall y :: y in t.handles <==> y in s.handles;
  }

  lemma FlagFlush(s: State, t: State, w: Write)
    requires FlagInv(s) && s.inflight == Some(w) && t.inflight == None
    requires t.logged == s.logged[w.xid := w.rec]
    requires t.issued == s.issued && t.started == s.started && t.handles == s.handles
    ensures FlagInv(t)
  {}

  // ---------- Attached buffers ----------

  lemma AttachFrame(s: State, t: State)
    requires AttachInv(s)
    requires forall x :: x in t.handles ==>
      x in s.handles && t.handles[x].written == s.handles[x].written && t.handles[x].data == s.handles[x].data
    requires forall x :: x in s.handles && x in s.distillq ==> x in t.handles
    requires t.distillq == s.distillq && t.logged == s.logged && t.flushed == s.flushed && t.inflight == s.inflight
    requires t.started == s.started && (SameHand(s, t) || t.distilling == None)
    ensures AttachInv(t)
  {
    forall x | x in t.distillq
      ensures Underway(t, x)
    {
      assert Underway(s, x);
    }
  }

  lemma AttachNewTrans(s: State, t: State, x: nat)
    requires AttachInv(s) && x !in s.handles && x !in s.flushed
    requires s.inflight.Some? ==> s.inflight.value.xid != x
    requires t.handles.Keys == s.handles.Keys + {x} && !t.handles[x].written && t.handles[x].data == None
    requires forall y :: y in s.handles ==> t.handles[y] == s.handles[y]
    requires t.distillq == s.distillq || t.distillq == s.distillq + [x]
    requires x in t.started && forall y :: y in s.started ==> y in t.started
    requires t.logged == s.logged && t.flushed == s.flushed && t.inflight == s.inflight && t.distilling == s.distilling
    ensures AttachInv(t)
  {
    assert forall y :: y in s.distillq ==> y in t.distillq;
    assert forall y :: y in t.handles <==> y in s.handles || y == x;
    forall y | y in t.distillq
      ensures Underway(t, y)
    {
      assert y != x ==> Underway(s, y);
    }
  }

  lemma AttachNextSlot(s: State, t: State, x: nat)
    requires AttachInv(s) && x in s.handles && s.inflight.None? && t.inflight.Some? && t.inflight.value.xid == x
    requires t.inflight.value.rec.kind.Normal? && (t.inflight.value.rec.kind.distill ==> x in s.distillq)
    requires t.handles.Keys == s.handles.Keys && forall y :: y in s.started && y != x ==> y in t.started
    requires forall y :: y in s.handles ==> t.handles[y].written == s.handles[y].written && t.handles[y].data == s.handles[y].data
    requires t.distillq == s.distillq && t.logged == s.logged && t.flushed == s.flushed && t.distilling == s.distilling
    ensures AttachInv(t)
  {
    assert forall y :: y in t.handles <==> y in s.handles;
    forall y | y in t.distillq
      ensures Underway(t, y)
    {
      assert Underway(s, y);
    }
  }

  lemma AttachFlush(s: State, t: State, w: Write)
    requires AttachInv(s) && s.inflight == Some(w) && t.inflight == None
    requires w.rec.kind.Normal? && w.xid !in s.logged && (w.xid in s.distillq ==> w.xid in s.handles)
    requires t.logged == s.logged[w.xid := w.rec] && t.flushed == s.flushed[w.xid := w]
    requires t.distillq == s.distillq && t.handles == s.handles && t.distilling == s.distilling && t.started == s.started
    ensures AttachInv(t)
  {
    forall y | y in t.distillq
      ensures Underway(t, y)
    {
      assert Underway(s, y);
    }
  }

  lemma AttachHandOff(s: State, t: State, x: nat)
    requires AttachInv(s) && x in s.flushed && x in s.logged && s.flushed[x].rec == s.logged[x]
    requires x in s.distillq ==> s.flushed[x].rec.kind.distill
    requires t.flushed == s.flushed - {x} && t.started == s.started
    requires t.distillq == s.distillq && t.logged == s.logged && t.inflight == s.inflight && t.distilling == s.distilling
    requires t.handles.Keys == s.handles.Keys && forall y :: y in s.handles && y != x ==> t.handles[y] == s.handles[y]
    requires if s.flushed[x].rec.kind.distill then
        x in t.handles && t.handles[x].written && t.handles[x].data == Some(Attached(s.flushed[x].buf, s.flushed[x].rec))
      else t.handles == s.handles
    ensures AttachInv(t)
  {
    assert forall y :: y in t.handles <==> y in s.handles;
    forall y | y in t.distillq
      ensures Underway(t, y)
    {
      assert Underway(s, y);
    }
  }

  lemma AttachTake(s: State, t: State, x: nat)
    requires AttachInv(s) && s.distillq != [] && s.distillq[0] == x && x in s.handles && s.handles[x].written
    requires x !in s.distillq[1..] && (s.inflight.Some? ==> s.inflight.value.xid !in s.logged)
    requires t.distillq == s.distillq[1..] && t.started == s.started
    requires t.distilling.Some? && t.distilling.value.xid == x && t.distilling.value.item == s.handles[x].data.value
    requires t.handles.Keys == s.handles.Keys && !t.handles[x].written && t.handles[x].data == None
    requires forall y :: y in s.handles && y != x ==> t.handles[y] == s.handles[y]
    requires t.logged == s.logged && t.flushed == s.flushed && t.inflight == s.inflight
    ensures AttachInv(t)
  {
    assert s.distillq == [x] + t.distillq;
    assert forall y :: y in s.distillq <==> y == x || y in t.distillq;
    assert forall y :: y in t.handles <==> y in s.handles;
    forall y | y in t.distillq
      ensures Underway(t, y)
    {
      assert Underway(s, y);
    }
  }

  // ---------- Buffers ----------

  lemma BufFrame(s: State, t: State)
    requires BufInv(s)
    requires t.bufs == s.bufs && t.held == s.held && SameHand(s, t) && t.spare == s.spare
    requires forall x :: HasData(t, x) <==> HasData(s, x)
    requires forall x :: HasData(t, x) ==> t.handles[x].data == s.handles[x].data
    ensures BufInv(t)
  {
    assert AttachedBufs(t) == AttachedBufs(s);
  }

  lemma BufHandOff(s: State, t: State, x: nat, item: Attached)
    requires BufInv(s) && item.buf in s.held && x in s.handles && !HasData(s, x)
    requires x in t.handles && t.handles == s.handles[x := t.handles[x]] && t.handles[x].data == Some(item)
    requires t.held == s.held - {item.buf} && t.bufs == s.bufs && t.distilling == s.distilling && t.spare == s.spare
    ensures BufInv(t)
  {
    forall y
      ensures HasData(t, y) <==> HasData(s, y) || y == x
    {}
    assert AttachedBufs(t) == AttachedBufs(s) + {item.buf} by {
      assert HasData(t, x);
      forall b | b in AttachedBufs(s)
        ensures b in AttachedBufs(t)
      {
        var y :| y in s.handles && HasData(s, y) && s.handles[y].data.value.buf == b;
        assert HasData(t, y) && t.handles[y].data.value.buf == b;
      }
    }
  }

  lemma BufTake(s: State, t: State, x: nat, item: Attached)
    requires BufInv(s) && HasData(s, x) && s.handles[x].data == Some(item) && s.distilling.None? && s.spare.None?
    requires x in t.handles && t.handles == s.handles[x := t.handles[x]] && t.handles[x].data == None
    requires t.held == s.held && t.bufs == s.bufs && t.spare == s.spare
    requires t.distilling.Some? && t.distilling.value.item == item
    ensures BufInv(t)
  {
    forall y
      ensures HasData(t, y) <==> HasData(s, y) && y != x
    {}
    assert AttachedBufs(t) == AttachedBufs(s) - {item.buf} by {
      forall b | b in AttachedBufs(s) && b != item.buf
        ensures b in AttachedBufs(t)
      {
        var y :| y in s.handles && HasData(s, y) && s.handles[y].data.value.buf == b;
        assert HasData(t, y) && t.handles[y].data.value.buf == b;
      }
    }
    assert item.buf in AttachedBufs(s);
  }

  // The buffer of what was distilled is put aside.
  lemma BufDone(s: State, t: State)
    requires BufInv(s) && s.distilling.Some? && t.distilling == None && t.spare == Some(s.distilling.value.item.buf)
    requires t.bufs == s.bufs && t.held == s.held
    requires forall x :: HasData(t, x) <==> HasData(s, x)
    requires forall x :: HasData(t, x) ==> t.handles[x].data == s.handles[x].data
    ensures BufInv(t)
  {
    assert AttachedBufs(t) == AttachedBufs(s);
  }

  lemma BufSpare(s: State, t: State)
    requires BufInv(s) && s.spare.Some? && t.spare == None && t.bufs == s.bufs + [s.spare.value]
    requires t.held == s.held && t.distilling == s.distilling && t.handles == s.handles
    ensures BufInv(t)
  {
    assert AttachedBufs(t) == AttachedBufs(s) by { assert forall x :: HasData(t, x) <==> HasData(s, x); }
    FreeAppend(s.bufs, s.spare.value);
  }

  lemma FreeAppend(q: seq<nat>, b: nat)
    requires NoRepeat(q) && b !in Members(q)
    ensures Members(q + [b]) == Members(q) + {b} && NoRepeat(q + [b])
  {
    assert forall i :: 0 <= i < |q| ==> q[i] in Members(q);
    assert (q + [b])[|q|] == b;
  }

  lemma BufPut(s: State, t: State, b: nat)
    requires BufInv(s) && b in s.held
    requires t.bufs == s.bufs + [b] && t.held == s.held - {b}
    requires t.distilling == s.distilling && t.handles == s.handles && t.spare == s.spare
    ensures BufInv(t)
  {
    hide Members, NoRepeat, AttachedBufs, DistillBufs;
    SameOwners(s, t);
    FreeAppend(s.bufs, b);
  }

  lemma BufGet(s: State, t: State)
    requires BufInv(s) && s.bufs != []
    requires t.bufs == if |s.bufs| == 1 then [] else [s.bufs[|s.bufs| - 1]] + s.bufs[1..|s.bufs| - 1]
    requires t.held == s.held + {s.bufs[0]}
    requires t.distilling == s.distilling && t.handles == s.handles && t.spare == s.spare
    ensures BufInv(t)
  {
    hide Members, NoRepeat, AttachedBufs, DistillBufs;
    SameOwners(s, t);
    FreeGet(s.bufs, t.bufs);
  }

  lemma SameOwners(s: State, t: State)
    requires t.handles == s.handles && t.distilling == s.distilling && t.spare == s.spare
    ensures AttachedBufs(t) == AttachedBufs(s) && DistillBufs(t) == DistillBufs(s)
  {
    assert forall x :: HasData(t, x) <==> HasData(s, x);
  }

  // The first buffer goes out, the last one takes its place.
  lemma FreeGet(q: seq<nat>, r: seq<nat>)
    requires q != [] && NoRepeat(q)
    requires r == if |q| == 1 then [] else [q[|q| - 1]] + q[1..|q| - 1]
    ensures Members(q) == Members(r) + {q[0]} && q[0] !in Members(r) && NoRepeat(r)
  {
    var n := |q|;
    forall i | 0 <= i < n - 1
      ensures r[i] == q[if i == 0 then n - 1 else i]
    {}
    GetKeepsOthers(q, r);
    GetDropsFirst(q, r);
  }

  // Position i of what is left after the first one went.
  ghost predicate LastInFront(q: seq<nat>, r: seq<nat>) {
    |q| == |r| + 1 && forall i :: 0 <= i < |r| ==> r[i] == q[if i == 0 then |q| - 1 else i]
  }

  lemma GetKeepsOthers(q: seq<nat>, r: seq<nat>)
    requires LastInFront(q, r)
    ensures Members(q) == Members(r) + {q[0]}
  {
    forall b | b in q
      ensures b in r || b == q[0]
    {
      var i :| 0 <= i < |q| && q[i] == b;
      if i > 0 {
        var k := if i == |q| - 1 then 0 else i;
        assert r[k] == b;
      }
    }
    forall b | b in r
      ensures b in q
    {
      var i :| 0 <= i < |r| && r[i] == b;
      assert q[if i == 0 then |q| - 1 else i] == b;
    }
  }

  lemma GetDropsFirst(q: seq<nat>, r: seq<nat>)
    requires LastInFront(q, r) && NoRepeat(q)
    ensures q[0] !in Members(r) && NoRepeat(r)
  {
    forall i | 0 <= i < |r|
      ensures r[i] != q[0]
    {
      assert r[i] == q[if i == 0 then |q| - 1 else i];
    }
    forall i, j | 0 <= i < j < |r|
      ensures r[i] != r[j]
    {
      assert r[j] == q[j] && r[i] == q[if i == 0 then |q| - 1 else i];
    }
  }

  lemma WriterFrame(s: State, t: State)
    requires WriterInv(s)
    requires t.started == s.started && t.inflight == s.inflight && t.flushed == s.flushed
    requires forall b :: b in s.held && b !in t.held ==> !Busy(s, b)
    ensures WriterInv(t)
  {
    forall x
      ensures Carrier(t, x) <==> Carrier(s, x)
      ensures Carrier(s, x) ==> Carried(t, x) == Carried(s, x) && Busy(s, Carried(s, x))
    {}
  }

  lemma WriterNewTrans(s: State, t: State, x: nat, b: nat)
    requires WriterInv(s) && b in s.held && !Busy(s, b) && x !in s.started
    requires t.started == s.started[x := b] && t.inflight == s.inflight && t.flushed == s.flushed && t.held == s.held
    ensures WriterInv(t)
  {
    forall y | y != x
      ensures Carrier(t, y) <==> Carrier(s, y)
      ensures Carrier(s, y) ==> Carried(t, y) == Carried(s, y) != b
    {
      assert Carrier(s, y) ==> Busy(s, Carried(s, y));
    }
  }

  lemma WriterNextSlot(s: State, t: State, x: nat)
    requires WriterInv(s) && x in s.started && s.inflight.None? && x !in s.flushed
    requires t.started == s.started - {x} && t.flushed == s.flushed && t.held == s.held
    requires t.inflight.Some? && t.inflight.value.xid == x && t.inflight.value.buf == s.started[x]
    ensures WriterInv(t)
  {
    assert forall y :: Carrier(t, y) ==> Carrier(s, y) && Carried(t, y) == Carried(s, y);
  }

  lemma WriterFlush(s: State, t: State, w: Write)
    requires WriterInv(s) && s.inflight == Some(w) && w.xid !in s.started && t.inflight == None
    requires t.started == s.started && t.flushed == s.flushed[w.xid := w] && t.held == s.held
    ensures WriterInv(t)
  {
    assert forall y :: Carrier(t, y) ==> Carrier(s, y) && Carried(t, y) == Carried(s, y);
  }

  lemma WriterHandOff(s: State, t: State, x: nat)
    requires WriterInv(s) && x in s.flushed && x !in s.started && (s.inflight.Some? ==> s.inflight.value.xid != x)
    requires t.started == s.started && t.inflight == s.inflight && t.flushed == s.flushed - {x}
    requires t.held == s.held || t.held == s.held - {s.flushed[x].buf}
    ensures WriterInv(t)
  {
    assert Carrier(s, x) && Carried(s, x) == s.flushed[x].buf;
    assert forall y :: Carrier(t, y) ==> Carrier(s, y) && y != x && Carried(t, y) == Carried(s, y);
  }

  // ---------- Handles in use ----------

  lemma AliveFrame(s: State, t: State)
    requires Alive(s) && t.inflight == s.inflight && t.flushed == s.flushed && t.returning <= s.returning
    requires s.handles.Keys <= t.handles.Keys
    ensures Alive(t)
  {
    assert forall x :: Unfinished(t, x) ==> Unfinished(s, x) && x in s.handles.Keys;
  }

  lemma AliveNextSlot(s: State, t: State, x: nat)
    requires Alive(s) && t.inflight.Some? && t.inflight.value.xid == x && x in t.handles
    requires t.flushed == s.flushed && t.returning == s.returning && s.handles.Keys == t.handles.Keys
    ensures Alive(t)
  {
    assert forall y :: Unfinished(t, y) ==> y == x || (Unfinished(s, y) && y in s.handles.Keys);
  }

  lemma AliveFlush(s: State, t: State, w: Write)
    requires Alive(s) && s.inflight == Some(w) && t.inflight == None && t.flushed == s.flushed[w.xid := w]
    requires t.returning == s.returning && t.handles == s.handles
    ensures Alive(t)
  {
    assert forall x :: Unfinished(t, x) ==> Unfinished(s, x);
  }

  lemma AliveHandOff(s: State, t: State, x: nat)
    requires Alive(s) && x in s.flushed && t.inflight == s.inflight && t.flushed == s.flushed - {x}
    requires t.returning == s.returning + {x} && s.handles.Keys == t.handles.Keys
    ensures Alive(t)
  {
    assert forall y :: Unfinished(t, y) ==> Unfinished(s, y) && y in s.handles.Keys;
  }

  lemma AliveReclaim(s: State, t: State, x: nat)
    requires Alive(s) && !Unfinished(s, x) && t.handles == s.handles - {x}
    requires t.inflight == s.inflight && t.flushed == s.flushed && t.returning == s.returning
    ensures Alive(t)
  {
    assert forall y :: Unfinished(t, y) ==> Unfinished(s, y);
  }

  // ---------- Steps ----------

  lemma StartedFacts(s: State, x: nat)
    requires RingInv(s) && IdInv(s) && x in s.started
    ensures s.open > 0 && x in s.handles && s.handles[x].xid == x && x !in s.pending && x !in s.logged
    ensures 0 < x <= s.lastxid && s.nextwrite < s.total && x !in s.flushed && |s.disk| == s.total
  {
    assert x in s.started.Keys;
    assert |s.started| == |s.started.Keys| > 0;
  }

  // Actions that touch neither the lists, the handles, the writers nor the distill thread.
  ghost predicate SameCore(s: State, t: State) {
    && t.total == s.total && t.disk == s.disk && t.nextwrite == s.nextwrite && t.inuse == s.inuse
    && t.totalTrans == s.totalTrans && (t.lastxid == s.lastxid || s.lastxid < t.lastxid < XID_LIMIT)
    && t.handles == s.handles && t.pending == s.pending && t.distillq == s.distillq
    && t.started == s.started && t.inflight == s.inflight && t.flushed == s.flushed && t.returning <= s.returning
    && t.thrXid == s.thrXid && SameHand(s, t)
    && t.logged == s.logged && t.issued == s.issued && t.handled == s.handled && t.retired == s.retired
    && t.commitTxg >= s.commitTxg
    && (t.distillXid == s.distillXid || t.distillXid == Max(s.distillXid, s.thrXid))
  }

  ghost predicate SameSlots(s: State, t: State) {
    t.resrv == s.resrv && t.open == s.open && t.totalReserve == s.totalReserve && t.asked == s.asked
  }

  ghost predicate SameBufs(s: State, t: State) {
    t.bufs == s.bufs && t.held == s.held && t.spare == s.spare
  }

  lemma CoreFrame(s: State, t: State)
    requires Inv(s) && SameCore(s, t)
    ensures IdInv(t) && LogInv(t) && DiskInv(t) && DistillInv(t) && AttachInv(t) && Alive(t)
    ensures SameSlots(s, t) ==> RingInv(t)
    ensures SameBufs(s, t) ==> BufInv(t) && WriterInv(t)
  {
    hide RingInv, IdInv, LogInv, DiskInv, QueueInv, HistoryInv, FlagInv, AttachInv, BufInv, WriterInv, Alive, SameCore, SameSlots,
         SameBufs;
    CoreLog(s, t);
    CoreLists(s, t);
    CoreBufs(s, t);
  }

  lemma CoreLog(s: State, t: State)
    requires RingInv(s) && IdInv(s) && LogInv(s) && DiskInv(s) && SameCore(s, t)
    ensures IdInv(t) && LogInv(t) && DiskInv(t) && (SameSlots(s, t) ==> RingInv(t))
  {
    ReturningFacts(s);
    hide RingInv, IdInv, LogInv, DiskInv;
    IdFrame(s, t);
    LogFrame(s, t);
    DiskFrame(s, t);
    if SameSlots(s, t) { RingFrame(s, t); }
  }

  lemma CoreLists(s: State, t: State)
    requires QueueInv(s) && HistoryInv(s) && FlagInv(s) && AttachInv(s) && SameCore(s, t)
    ensures QueueInv(t) && HistoryInv(t) && FlagInv(t) && AttachInv(t)
  {
    QueueProgress(s);
    hide QueueInv, HistoryInv, FlagInv, AttachInv;
    QueueFrame(s, t);
    HistoryFrame(s, t);
    FlagFrame(s, t);
    AttachFrame(s, t);
  }

  lemma CoreBufs(s: State, t: State)
    requires BufInv(s) && WriterInv(s) && Alive(s) && SameCore(s, t)
    ensures Alive(t) && (SameBufs(s, t) ==> BufInv(t) && WriterInv(t))
  {
    hide BufInv, WriterInv, Alive, Unfinished, Busy;
    AliveFrame(s, t);
    if SameBufs(s, t) {
      BufFrame(s, t);
      WriterFrame(s, t);
    }
  }

  lemma QueueProgress(s: State)
    requires QueueInv(s)
    ensures s.distillXid <= s.thrXid && s.retired <= s.thrXid
  {}

  lemma StepRequest(s: State, count: nat)
    requires Inv(s)
    ensures Inv(Apply(s, Request(count)))
  {
    hide RingInv, IdInv, LogInv, DiskInv, DistillInv, AttachInv, BufInv, WriterInv, Alive;
    RingRequest(s, count);
    CoreFrame(s, Apply(s, Request(count)));
  }

  lemma StepReserve(s: State)
    requires Inv(s) && Enabled(s, Reserve)
    ensures Inv(DoReserve(s))
  {
    hide RingInv, IdInv, LogInv, DiskInv, DistillInv, AttachInv, BufInv, WriterInv, Alive;
    RingReserve(s);
    CoreFrame(s, DoReserve(s));
  }

  lemma StepUnreserve(s: State, unused: bool)
    requires Inv(s) && Enabled(s, Unreserve(unused))
    ensures Inv(Apply(s, Unreserve(unused)))
  {
    hide RingInv, IdInv, LogInv, DiskInv, DistillInv, AttachInv, BufInv, WriterInv, Alive;
    OpenFacts(s);
    RingUnreserve(s, unused);
    CoreFrame(s, DoUnreserve(s, unused));
  }

  lemma OpenFacts(s: State)
    requires RingInv(s)
    ensures |s.started| <= s.open <= s.resrv && s.inuse + s.open <= s.total
  {}

  lemma StepProgress(s: State, a: Action)
    requires Inv(s) && Enabled(s, a) && (a.Publish? || a.Sync? || a.UpdateTxg? || a.SkipXid? || a.DistillRead? || a.Return?)
    ensures Inv(Apply(s, a))
  {
    hide RingInv, IdInv, LogInv, DiskInv, DistillInv, AttachInv, BufInv, WriterInv, Alive, NextXid;
    if a.SkipXid? { NextXidGrows(s.lastxid); }
    CoreFrame(s, Apply(s, a));
  }

  lemma StepBufs(s: State, a: Action)
    requires Inv(s) && Enabled(s, a) && (a.GetBuf? || a.PutBuf? || a.PutSpare?)
    ensures Inv(Apply(s, a))
  {
    hide RingInv, IdInv, LogInv, DiskInv, DistillInv, AttachInv, BufInv, WriterInv, Alive, Unfinished, Busy;
    var t := Apply(s, a);
    CoreFrame(s, t);
    WriterFrame(s, t);
    match a
    case GetBuf => BufGet(s, t);
    case PutBuf(buf) => BufPut(s, t, buf);
    case PutSpare => BufSpare(s, t);
    case _ =>
  }

  lemma StepNewTrans(s: State, distill: bool, txg: nat, buf: nat)
    requires Inv(s) && Enabled(s, NewTrans(distill, txg, buf))
    ensures Inv(DoNewTrans(s, distill, txg, buf))
  {
    hide Busy, RingInv, IdInv, LogInv, DiskInv, DistillInv, AttachInv, BufInv, WriterInv, Alive, DoNewTrans;
    RingNewTrans(s, distill, txg, buf);
    IdNewTrans(s, distill, txg, buf);
    LogNewTrans(s, distill, txg, buf);
    DistillNewTrans(s, distill, txg, buf);
    AttachedNewTrans(s, distill, txg, buf);
    CarriedNewTrans(s, distill, txg, buf);
  }

  lemma LogNewTrans(s: State, distill: bool, txg: nat, buf: nat)
    requires IdInv(s) && LogInv(s) && DiskInv(s) && Enabled(s, NewTrans(distill, txg, buf))
    ensures LogInv(DoNewTrans(s, distill, txg, buf)) && DiskInv(DoNewTrans(s, distill, txg, buf))
  {
    hide IdInv, LogInv, DiskInv, NextXid, Busy;
    NewXidFacts(s, NextXid(s.lastxid));
    LogFrame(s, DoNewTrans(s, distill, txg, buf));
    DiskFrame(s, DoNewTrans(s, distill, txg, buf));
  }

  lemma AttachedNewTrans(s: State, distill: bool, txg: nat, buf: nat)
    requires IdInv(s) && AttachInv(s) && s.lastxid + 1 < XID_LIMIT
    ensures AttachInv(DoNewTrans(s, distill, txg, buf))
  {
    hide IdInv, AttachInv, NextXid;
    NewXidFacts(s, NextXid(s.lastxid));
    AttachNewTrans(s, DoNewTrans(s, distill, txg, buf), NextXid(s.lastxid));
  }

  lemma CarriedNewTrans(s: State, distill: bool, txg: nat, buf: nat)
    requires IdInv(s) && BufInv(s) && WriterInv(s) && Alive(s) && Enabled(s, NewTrans(distill, txg, buf))
    ensures var t := DoNewTrans(s, distill, txg, buf); BufInv(t) && WriterInv(t) && Alive(t)
  {
    hide IdInv, BufInv, WriterInv, Alive, NextXid, Busy;
    var t := DoNewTrans(s, distill, txg, buf);
    NewXidFacts(s, NextXid(s.lastxid));
    BufFrame(s, t);
    WriterNewTrans(s, t, NextXid(s.lastxid), buf);
    AliveFrame(s, t);
  }

  lemma DistillNewTrans(s: State, distill: bool, txg: nat, buf: nat)
    requires IdInv(s) && DistillInv(s) && s.lastxid + 1 < XID_LIMIT
    ensures DistillInv(DoNewTrans(s, distill, txg, buf))
  {
    hide IdInv, QueueInv, HistoryInv, FlagInv, NextXid;
    var t, x := DoNewTrans(s, distill, txg, buf), NextXid(s.lastxid);
    NewXidFacts(s, x);
    QueueNewTrans(s, t, x, distill);
    if distill { HistoryNewTrans(s, t, x); } else { HistoryFrame(s, t); }
    FlagNewTrans(s, t, x, distill);
  }

  lemma NewXidFacts(s: State, x: nat)
    requires IdInv(s) && s.lastxid + 1 < XID_LIMIT && x == NextXid(s.lastxid)
    ensures x > s.lastxid && x !in s.handles && x !in s.pending && x !in s.logged && x !in s.issued && x !in s.flushed
    ensures x !in s.started
    ensures s.inflight.Some? ==> s.inflight.value.xid != x
    ensures s.thrXid <= s.lastxid && forall y :: y in s.handles ==> y <= s.lastxid
  {
    NextXidGrows(s.lastxid);
  }

  lemma NextSlotLog(s: State, x: nat, app: nat, data: seq<Byte>)
    requires Inv(s) && Enabled(s, NextSlot(x, app, data))
    ensures var t := Apply(s, NextSlot(x, app, data)); RingInv(t) && IdInv(t) && LogInv(t) && DiskInv(t)
  {
    hide RingInv, IdInv, LogInv, DiskInv, QueueInv, HistoryInv, FlagInv, AttachInv, BufInv, WriterInv, Alive, Unfinished, Busy, RecordOf, IsEntry;
    StartedFacts(s, x);
    var t := DoNextSlot(s, x, app, data);
    SealedRecord(s.handles[x], app, data);
    RingNextSlot(s, x, app, data);
    IdNextSlot(s, x, app, data);
    LogNextSlot(s, t, x, t.inflight.value);
    DiskNextSlot(s, t, x);
  }

  lemma NextSlotLists(s: State, x: nat, app: nat, data: seq<Byte>)
    requires Inv(s) && Enabled(s, NextSlot(x, app, data))
    ensures var t := Apply(s, NextSlot(x, app, data)); QueueInv(t) && HistoryInv(t) && FlagInv(t) && AttachInv(t)
  {
    hide RingInv, IdInv, LogInv, DiskInv, QueueInv, HistoryInv, FlagInv, AttachInv, BufInv, WriterInv, Alive, Unfinished, Busy, RecordOf, IsEntry;
    StartedFacts(s, x);
    var t := DoNextSlot(s, x, app, data);
    SealedRecord(s.handles[x], app, data);
    StartedQueued(s, x);
    QueueFrame(s, t);
    HistoryFrame(s, t);
    FlagNextSlot(s, t, x);
    AttachNextSlot(s, t, x);
  }

  lemma NextSlotBufs(s: State, x: nat, app: nat, data: seq<Byte>)
    requires Inv(s) && Enabled(s, NextSlot(x, app, data))
    ensures var t := Apply(s, NextSlot(x, app, data)); BufInv(t) && WriterInv(t) && Alive(t)
  {
    hide RingInv, IdInv, LogInv, DiskInv, QueueInv, HistoryInv, FlagInv, AttachInv, BufInv, WriterInv, Alive, Unfinished, Busy, RecordOf, IsEntry;
    StartedFacts(s, x);
    var t := DoNextSlot(s, x, app, data);
    SealedRecord(s.handles[x], app, data);
    BufFrame(s, t);
    WriterNextSlot(s, t, x);
    assert t.handles.Keys == s.handles.Keys;
    AliveNextSlot(s, t, x);
  }

  lemma StepNextSlot(s: State, x: nat, app: nat, data: seq<Byte>)
    requires Inv(s) && Enabled(s, NextSlot(x, app, data))
    ensures Inv(Apply(s, NextSlot(x, app, data)))
  {
    hide RingInv, IdInv, LogInv, DiskInv, QueueInv, HistoryInv, FlagInv, AttachInv, BufInv, WriterInv, Alive, Apply, Enabled, KeepsHandles;
    NextSlotLog(s, x, app, data);
    NextSlotLists(s, x, app, data);
    NextSlotBufs(s, x, app, data);
  }

  lemma StartedQueued(s: State, x: nat)
    requires IdInv(s) && QueueInv(s) && AttachInv(s) && x in s.started
    ensures x in s.handles && (s.handles[x].distill ==> x in s.distillq)
    ensures s.distillXid <= s.thrXid && s.retired <= s.thrXid
  {}

  lemma FlushLog(s: State, slot: int)
    requires Inv(s) && Enabled(s, Flush(slot))
    ensures var t := Apply(s, Flush(slot)); RingInv(t) && IdInv(t) && LogInv(t) && DiskInv(t)
  {
    hide RingInv, IdInv, LogInv, DiskInv, QueueInv, HistoryInv, FlagInv, AttachInv, BufInv, WriterInv, Alive, Unfinished, Busy, IsEntry;
    var w, t := s.inflight.value, DoFlush(s, slot);
    InflightFacts(s);
    RingFrame(s, t);
    IdFlush(s, slot);
    LogFlush(s, slot);
    DiskFlush(s, t, w, slot);
  }

  lemma FlushLists(s: State, slot: int)
    requires Inv(s) && Enabled(s, Flush(slot))
    ensures var t := Apply(s, Flush(slot)); QueueInv(t) && HistoryInv(t) && FlagInv(t) && AttachInv(t)
  {
    hide RingInv, IdInv, LogInv, DiskInv, QueueInv, HistoryInv, FlagInv, AttachInv, BufInv, WriterInv, Alive, Unfinished, Busy, IsEntry;
    var w, t := s.inflight.value, DoFlush(s, slot);
    InflightFacts(s);
    QueueProgress(s);
    QueueFrame(s, t);
    HistoryFrame(s, t);
    FlagFlush(s, t, w);
    AttachFlush(s, t, w);
  }

  lemma FlushBufs(s: State, slot: int)
    requires Inv(s) && Enabled(s, Flush(slot))
    ensures var t := Apply(s, Flush(slot)); BufInv(t) && WriterInv(t) && Alive(t)
  {
    hide RingInv, IdInv, LogInv, DiskInv, QueueInv, HistoryInv, FlagInv, AttachInv, BufInv, WriterInv, Alive, Unfinished, Busy, IsEntry;
    var w, t := s.inflight.value, DoFlush(s, slot);
    InflightFacts(s);
    BufFrame(s, t);
    WriterFlush(s, t, w);
    AliveFlush(s, t, w);
  }

  lemma StepFlush(s: State, slot: int)
    requires Inv(s) && Enabled(s, Flush(slot))
    ensures Inv(Apply(s, Flush(slot)))
  {
    hide RingInv, IdInv, LogInv, DiskInv, QueueInv, HistoryInv, FlagInv, AttachInv, BufInv, WriterInv, Alive, Apply, Enabled, KeepsHandles;
    FlushLog(s, slot);
    FlushLists(s, slot);
    FlushBufs(s, slot);
  }

  lemma InflightFacts(s: State)
    requires RingInv(s) && IdInv(s) && LogInv(s) && s.inflight.Some?
    ensures var w := s.inflight.value;
      && w.xid in s.pending && w.xid in s.handles && 0 <= s.handles[w.xid].slot < |s.disk|
      && s.handles[w.xid].slot == Wrap(s.nextwrite - 1, s.total)
      && (s.nextwrite == s.handles[w.xid].slot + 1 || s.nextwrite == 0)
      && w.xid <= s.lastxid && w.xid !in s.started && w.xid !in s.logged && w.xid !in s.flushed
      && IsEntry(w.rec) && w.rec.kind.Normal? && w.rec.xid == w.xid
  {
    hide Intact;
    var n := |s.pending| - 1;
    assert s.pending[n] in s.handles && s.handles[s.pending[n]].slot == PendingSlot(s, n);
  }

  lemma HandOffLog(s: State, x: nat, flag: bool, into: nat)
    requires Inv(s) && Enabled(s, HandOff(x, flag, into))
    ensures var t := Apply(s, HandOff(x, flag, into)); RingInv(t) && IdInv(t) && LogInv(t) && DiskInv(t)
  {
    hide RingInv, IdInv, LogInv, DiskInv, QueueInv, HistoryInv, FlagInv, AttachInv, BufInv, WriterInv, Alive, Unfinished, Busy;
    FlushedFacts(s, x);
    ReturningFacts(s);
    HandedOff(s, DoHandOff(s, x, flag, into), x);
  }

  // Handing off changes nothing of ring, log and disk.
  lemma HandedOff(s: State, t: State, x: nat)
    requires RingInv(s) && IdInv(s) && LogInv(s) && DiskInv(s) && x in s.handles && x in s.flushed
    requires forall y :: y in s.returning ==> y !in s.flushed
    requires x in t.handles && t.handles == s.handles[x := s.handles[x].(written := t.handles[x].written, data := t.handles[x].data)]
    requires t == s.(flushed := s.flushed - {x}, returning := s.returning + {x}, handles := t.handles, held := t.held)
    ensures RingInv(t) && IdInv(t) && LogInv(t) && DiskInv(t)
  {
    hide RingInv, IdInv, LogInv, DiskInv;
    assert t.handles.Keys == s.handles.Keys;
    RingFrame(s, t);
    IdFrame(s, t);
    LogFrame(s, t);
    DiskFrame(s, t);
  }

  lemma HandOffLists(s: State, x: nat, flag: bool, into: nat)
    requires Inv(s) && Enabled(s, HandOff(x, flag, into))
    ensures var t := Apply(s, HandOff(x, flag, into)); QueueInv(t) && HistoryInv(t) && FlagInv(t) && AttachInv(t)
  {
    hide RingInv, IdInv, LogInv, DiskInv, QueueInv, HistoryInv, FlagInv, AttachInv, BufInv, WriterInv, Alive, Unfinished, Busy;
    FlushedFacts(s, x);
    var w, t := s.flushed[x], DoHandOff(s, x, flag, into);
    assert t.handles.Keys == s.handles.Keys;
    QueueFrame(s, t);
    HistoryFrame(s, t);
    FlagFrame(s, t);
    AttachHandOff(s, t, x);
  }

  lemma HandOffBufs(s: State, x: nat, flag: bool, into: nat)
    requires Inv(s) && Enabled(s, HandOff(x, flag, into))
    ensures var t := Apply(s, HandOff(x, flag, into)); BufInv(t) && WriterInv(t) && Alive(t)
  {
    hide RingInv, IdInv, LogInv, DiskInv, QueueInv, HistoryInv, FlagInv, AttachInv, BufInv, WriterInv, Alive, Unfinished, Busy;
    FlushedFacts(s, x);
    var w, t := s.flushed[x], DoHandOff(s, x, flag, into);
    assert t.handles.Keys == s.handles.Keys;
    if flag { BufHandOff(s, t, x, Attached(w.buf, w.rec)); } else { BufFrame(s, t); }
    WriterHandOff(s, t, x);
    AliveHandOff(s, t, x);
  }

  lemma StepHandOff(s: State, x: nat, flag: bool, into: nat)
    requires Inv(s) && Enabled(s, HandOff(x, flag, into))
    ensures Inv(Apply(s, HandOff(x, flag, into)))
  {
    hide RingInv, IdInv, LogInv, DiskInv, QueueInv, HistoryInv, FlagInv, AttachInv, BufInv, WriterInv, Alive, Apply, Enabled, KeepsHandles;
    HandOffLog(s, x, flag, into);
    HandOffLists(s, x, flag, into);
    HandOffBufs(s, x, flag, into);
  }

  // A written transaction: its handle has the flag of its record.
  lemma FlushedFacts(s: State, x: nat)
    requires IdInv(s) && QueueInv(s) && FlagInv(s) && AttachInv(s) && WriterInv(s) && Alive(s) && x in s.flushed
    ensures x in s.logged && s.flushed[x].rec == s.logged[x] && s.flushed[x].rec.kind.Normal?
    ensures s.flushed[x].buf in s.held && x in s.handles && !HasData(s, x)
    ensures s.flushed[x].rec.kind.distill == s.handles[x].distill && (x in s.distillq ==> s.handles[x].distill)
    ensures x !in s.started && x !in s.returning && (s.inflight.Some? ==> s.inflight.value.xid != x)
    ensures s.distillXid <= s.thrXid && s.retired <= s.thrXid
  {
    assert Carrier(s, x) && Carried(s, x) == s.flushed[x].buf;
    assert Unfinished(s, x);
    assert FlaggedAsIssued(s, x, s.logged[x]);
  }

  lemma ReturningFacts(s: State)
    requires IdInv(s)
    ensures forall x :: x in s.returning ==> x !in s.flushed && x in s.logged
  {}

  lemma TakeDistillLog(s: State)
    requires Inv(s) && Enabled(s, TakeDistill)
    ensures var t := Apply(s, TakeDistill); RingInv(t) && IdInv(t) && LogInv(t) && DiskInv(t)
  {
    hide RingInv, IdInv, LogInv, DiskInv, QueueInv, HistoryInv, FlagInv, AttachInv, BufInv, WriterInv, Alive, Unfinished, Busy;
    QueueHeadFacts(s);
    var x, t := s.distillq[0], DoTakeDistill(s);
    assert t.handles.Keys == s.handles.Keys;
    ReturningFacts(s);
    RingFrame(s, t);
    IdFrame(s, t);
    LogFrame(s, t);
    DiskFrame(s, t);
  }

  lemma TakeDistillLists(s: State)
    requires Inv(s) && Enabled(s, TakeDistill)
    ensures var t := Apply(s, TakeDistill); QueueInv(t) && HistoryInv(t) && FlagInv(t) && AttachInv(t)
  {
    hide RingInv, IdInv, LogInv, DiskInv, QueueInv, HistoryInv, FlagInv, AttachInv, BufInv, WriterInv, Alive, Unfinished, Busy;
    QueueHeadFacts(s);
    var x, t := s.distillq[0], DoTakeDistill(s);
    assert t.handles.Keys == s.handles.Keys;
    QueueTake(s, t, x);
    HistoryTake(s, t, x);
    FlagFrame(s, t);
    AttachTake(s, t, x);
  }

  lemma TakeDistillBufs(s: State)
    requires Inv(s) && Enabled(s, TakeDistill)
    ensures var t := Apply(s, TakeDistill); BufInv(t) && WriterInv(t) && Alive(t)
  {
    hide RingInv, IdInv, LogInv, DiskInv, QueueInv, HistoryInv, FlagInv, AttachInv, BufInv, WriterInv, Alive, Unfinished, Busy;
    QueueHeadFacts(s);
    var x, t := s.distillq[0], DoTakeDistill(s);
    assert t.handles.Keys == s.handles.Keys;
    BufTake(s, t, x, s.handles[x].data.value);
    WriterFrame(s, t);
    AliveFrame(s, t);
  }

  lemma StepTakeDistill(s: State)
    requires Inv(s) && Enabled(s, TakeDistill)
    ensures Inv(Apply(s, TakeDistill))
  {
    hide RingInv, IdInv, LogInv, DiskInv, QueueInv, HistoryInv, FlagInv, AttachInv, BufInv, WriterInv, Alive, Apply, Enabled, KeepsHandles;
    TakeDistillLog(s);
    TakeDistillLists(s);
    TakeDistillBufs(s);
  }

  lemma QueueHeadFacts(s: State)
    requires IdInv(s) && QueueInv(s) && FlagInv(s) && AttachInv(s) && s.distillq != []
    ensures var x := s.distillq[0];
      && s.thrXid < x && x in s.handles && s.handles[x].distill && x in s.issued && x !in s.distillq[1..]
      && (s.handles[x].written <==> HasData(s, x))
    ensures s.inflight.Some? ==> s.inflight.value.xid !in s.logged
  {
    assert s.distillq[0] in s.distillq;
  }

  lemma DistillDoneLog(s: State)
    requires Inv(s) && Enabled(s, DistillDone)
    ensures var t := Apply(s, DistillDone); RingInv(t) && IdInv(t) && LogInv(t) && DiskInv(t)
  {
    hide RingInv, IdInv, LogInv, DiskInv, QueueInv, HistoryInv, FlagInv, AttachInv, BufInv, WriterInv, Alive, Unfinished, Busy;
    InHandFacts(s);
    var x, t := s.distilling.value.xid, DoDistillDone(s);
    assert t.handles.Keys == s.handles.Keys;
    RingFrame(s, t);
    IdDistillDone(s);
    LogFrame(s, t);
    DiskFrame(s, t);
  }

  lemma DistillDoneLists(s: State)
    requires Inv(s) && Enabled(s, DistillDone)
    ensures var t := Apply(s, DistillDone); QueueInv(t) && HistoryInv(t) && FlagInv(t) && AttachInv(t)
  {
    hide RingInv, IdInv, LogInv, DiskInv, QueueInv, HistoryInv, FlagInv, AttachInv, BufInv, WriterInv, Alive, Unfinished, Busy;
    InHandFacts(s);
    var x, t := s.distilling.value.xid, DoDistillDone(s);
    assert t.handles.Keys == s.handles.Keys;
    QueueDone(s, t, x);
    HistoryFrame(s, t);
    FlagFrame(s, t);
    AttachFrame(s, t);
  }

  lemma DistillDoneBufs(s: State)
    requires Inv(s) && Enabled(s, DistillDone)
    ensures var t := Apply(s, DistillDone); BufInv(t) && WriterInv(t) && Alive(t)
  {
    hide RingInv, IdInv, LogInv, DiskInv, QueueInv, HistoryInv, FlagInv, AttachInv, BufInv, WriterInv, Alive, Unfinished, Busy;
    InHandFacts(s);
    var x, t := s.distilling.value.xid, DoDistillDone(s);
    assert t.handles.Keys == s.handles.Keys;
    BufDone(s, t);
    WriterFrame(s, t);
    AliveFrame(s, t);
  }

  lemma StepDistillDone(s: State)
    requires Inv(s) && Enabled(s, DistillDone)
    ensures Inv(Apply(s, DistillDone))
  {
    hide RingInv, IdInv, LogInv, DiskInv, QueueInv, HistoryInv, FlagInv, AttachInv, BufInv, WriterInv, Alive, Apply, Enabled, KeepsHandles;
    DistillDoneLog(s);
    DistillDoneLists(s);
    DistillDoneBufs(s);
  }

  lemma InHandFacts(s: State)
    requires IdInv(s) && QueueInv(s) && AttachInv(s) && s.distilling.Some?
    ensures var x := s.distilling.value.xid;
      s.thrXid < x && x in s.handles && x !in s.started
  {}

  lemma NotInflight(s: State, x: nat)
    requires !Unfinished(s, x)
    ensures s.inflight.Some? ==> s.inflight.value.xid != x
  {}

  lemma ReclaimLog(s: State)
    requires Inv(s) && Enabled(s, Reclaim) && KeepsHandles(s, Reclaim)
    ensures var t := Apply(s, Reclaim); RingInv(t) && IdInv(t) && LogInv(t) && DiskInv(t)
  {
    hide RingInv, IdInv, LogInv, DiskInv, QueueInv, HistoryInv, FlagInv, AttachInv, BufInv, WriterInv, Alive, Unfinished, Busy;
    ReclaimFacts(s);
    var x, t := s.pending[0], DoReclaim(s);
    RingReclaim(s);
    IdReclaim(s);
    NotInflight(s, x);
    LogReclaim(s, t, x);
    DiskFrame(s, t);
  }

  lemma ReclaimLists(s: State)
    requires Inv(s) && Enabled(s, Reclaim) && KeepsHandles(s, Reclaim)
    ensures var t := Apply(s, Reclaim); QueueInv(t) && HistoryInv(t) && FlagInv(t) && AttachInv(t)
  {
    hide RingInv, IdInv, LogInv, DiskInv, QueueInv, HistoryInv, FlagInv, AttachInv, BufInv, WriterInv, Alive, Unfinished, Busy;
    ReclaimFacts(s);
    var x, t := s.pending[0], DoReclaim(s);
    QueueFrame(s, t);
    HistoryFrame(s, t);
    FlagFrame(s, t);
    AttachFrame(s, t);
  }

  lemma ReclaimBufs(s: State)
    requires Inv(s) && Enabled(s, Reclaim) && KeepsHandles(s, Reclaim)
    ensures var t := Apply(s, Reclaim); BufInv(t) && WriterInv(t) && Alive(t)
  {
    hide RingInv, IdInv, LogInv, DiskInv, QueueInv, HistoryInv, FlagInv, AttachInv, BufInv, WriterInv, Alive, Unfinished, Busy;
    ReclaimFacts(s);
    var x, t := s.pending[0], DoReclaim(s);
    BufFrame(s, t);
    WriterFrame(s, t);
    AliveReclaim(s, t, x);
  }

  lemma StepReclaim(s: State)
    requires Inv(s) && Enabled(s, Reclaim) && KeepsHandles(s, Reclaim)
    ensures Inv(Apply(s, Reclaim))
  {
    hide RingInv, IdInv, LogInv, DiskInv, QueueInv, HistoryInv, FlagInv, AttachInv, BufInv, WriterInv, Alive, Apply, Enabled, KeepsHandles;
    ReclaimLog(s);
    ReclaimLists(s);
    ReclaimBufs(s);
  }

  // The transaction at the head of the pending list can be destroyed: it is on no other list
  // and has no buffer.
  lemma ReclaimFacts(s: State)
    requires Inv(s) && Reclaimable(s)
    ensures var x := s.pending[0];
      && s.inuse > 0 && x !in s.pending[1..] && x !in s.distillq && !InHand(s, x) && !HasData(s, x)
      && (x in s.logged && s.logged[x].kind.distill ==> x <= s.thrXid)
    ensures s.distillXid <= s.thrXid && s.retired <= s.thrXid
  {
    hide BufInv, WriterInv, DiskInv, IsEntry;
    HeadOnce(s);
  }

  // ---------- Crash and recovery ----------

  lemma CrashDisk(s: State, found: Record, at: int, c: Cursor)
    requires RingInv(s) && IdInv(s) && LogInv(s) && DiskInv(s) && Enabled(s, Crash(found, at, c))
    ensures var d := DiskAfterCrash(s, found, at);
      && |d| == |s.disk| > 0 && FormatSuffix(d) && DistinctXids(d)
      && forall r :: r in d && IsEntry(r) ==> r.xid <= s.lastxid
  {
    hide IsEntry, IsFormat, Intact, LogInv, IdInv;
    if s.inflight.Some? {
      var w := s.inflight.value;
      InflightFacts(s);
      FoundFacts(s.disk, w, at, found);
      if found == s.disk[at] {
        assert s.disk[at := found] == s.disk;
      } else {
        OverwriteKeepsSuffix(s.disk, at, found);
        OverwriteKeepsFound(s.disk, at, found);
      }
    }
  }

  lemma FoundFacts(disk: seq<Record>, w: Write, at: nat, found: Record)
    requires at < |disk| && IsEntry(w.rec)
    requires found == w.rec || !Intact(found) || found == disk[at]
    ensures found == disk[at] || (!IsFormat(found) && (IsEntry(found) ==> found == w.rec))
  {
    hide Checksum;
  }

  lemma OverwriteKeepsFound(disk: seq<Record>, i: nat, r: Record)
    requires DistinctXids(disk) && i < |disk|
    requires IsEntry(r) ==> forall j :: 0 <= j < |disk| && IsEntry(disk[j]) ==> disk[j].xid != r.xid
    ensures DistinctXids(disk[i := r])
  {
    hide IsEntry;
  }

  lemma RecoveredInv(disk: seq<Record>, c: Cursor)
    requires disk != [] && FormatSuffix(disk) && DistinctXids(disk) && LastXid(disk, c) < XID_LIMIT
    ensures Inv(Recovered(disk, c))
  {
    hide RingInv, IdInv, LogInv, DiskInv, DistillInv, AttachInv, BufInv, WriterInv, Alive, IsEntry, ToReplay, LastXid;
    LastXidCovers(disk, c);
    var s := Recovered(disk, c);
    FreshSlots(s);
    FreshLists(s);
    RecoveredBufs(s);
  }

  // A state in which nothing has happened yet.
  ghost predicate Fresh(s: State) {
    && s.handles == map[] && s.pending == [] && s.distillq == [] && s.started == map[] && s.inflight == None
    && s.flushed == map[] && s.returning == {} && s.distilling == None && s.spare == None
    && s.logged == map[] && s.issued == {} && s.handled == [] && s.retired == 0
  }

  lemma FreshSlots(s: State)
    requires Fresh(s) && s.total == |s.disk| > 0 && s.resrv == s.inuse == s.open == s.nextwrite == 0
    requires s.totalReserve == s.totalTrans == s.asked == 0 && s.thrXid <= s.lastxid < XID_LIMIT
    requires FormatSuffix(s.disk) && DistinctXids(s.disk) && forall r :: r in s.disk && IsEntry(r) ==> r.xid <= s.lastxid
    ensures RingInv(s) && IdInv(s) && LogInv(s) && DiskInv(s)
  {
    hide IsEntry, IsFormat, FormatSuffix, DistinctXids;
  }

  lemma FreshLists(s: State)
    requires Fresh(s) && s.distillXid <= s.thrXid
    ensures DistillInv(s) && AttachInv(s) && WriterInv(s) && Alive(s)
  {}

  lemma RecoveredBufs(s: State)
    requires s.bufs == Pool() && s.held == {} && s.handles == map[] && s.distilling == None && s.spare == None
    ensures BufInv(s)
  {
    assert AttachedBufs(s) == {};
    assert FreeBufs(s) == PoolBufs();
  }

  // The recovered ID is at least every ID found in the log and the distill cursor, and is one
  // of these.
  lemma LastXidCovers(disk: seq<Record>, c: Cursor)
    requires FormatSuffix(disk)
    ensures forall r :: r in disk && IsEntry(r) ==> r.xid <= LastXid(disk, c)
    ensures c.distillXid <= LastXid(disk, c)
    ensures LastXid(disk, c) in {0, c.distillXid} || exists r :: r in disk && IsEntry(r) && r.xid == LastXid(disk, c)
  {
    hide IsEntry, IsFormat, Intact, Scanned, MaxXid;
    ScanFindsEverything(disk);
    ScannedAreEntries(disk);
    MaxXidBounds(Scanned(disk));
  }

  lemma StepCrash(s: State, found: Record, at: int, c: Cursor)
    requires Inv(s) && Enabled(s, Crash(found, at, c))
    ensures Inv(Recovered(DiskAfterCrash(s, found, at), c))
  {
    hide RingInv, LogInv, DiskInv, QueueInv, HistoryInv, FlagInv, AttachInv, BufInv, WriterInv, Alive, IsEntry, Recovered,
         DiskAfterCrash, LastXid;
    var d := DiskAfterCrash(s, found, at);
    CrashDisk(s, found, at, c);
    LastXidCovers(d, c);
    RecoveredInv(d, c);
  }

  // Every action keeps the invariant, unless it takes a handle away from a writer.
  lemma StepKeepsInv(s: State, a: Action)
    requires Inv(s) && Enabled(s, a) && KeepsHandles(s, a)
    ensures Inv(Apply(s, a))
  {
    hide Inv, Enabled, Recovered, Unfinished;
    match a
    case Request(count) => StepRequest(s, count);
    case Reserve => StepReserve(s);
    case Unreserve(unused) => StepUnreserve(s, unused);
    case SkipXid => StepProgress(s, a);
    case NewTrans(distill, txg, buf) => StepNewTrans(s, distill, txg, buf);
    case NextSlot(x, app, data) => StepNextSlot(s, x, app, data);
    case Flush(slot) => StepFlush(s, slot);
    case HandOff(x, flag, into) => StepHandOff(s, x, flag, into);
    case Return(_, _) => StepProgress(s, a);
    case TakeDistill => StepTakeDistill(s);
    case DistillRead => StepProgress(s, a);
    case DistillDone => StepDistillDone(s);
    case PutSpare => StepBufs(s, a);
    case Publish => StepProgress(s, a);
    case Sync(_) => StepProgress(s, a);
    case Reclaim => StepReclaim(s);
    case UpdateTxg(_) => StepProgress(s, a);
    case GetBuf => StepBufs(s, a);
    case PutBuf(_) => StepBufs(s, a);
    case Crash(found, at, c) => StepCrash(s, found, at, c);
  }
}
