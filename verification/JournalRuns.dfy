/**
 What holds over every run of the journal, whatever the interleaving of writers, callers and
 the distill thread, and whatever the number of crashes, as long as no handle has been reclaimed
 under a writer that still uses it. JournalHandles is about when that can happen.
 */
module JournalRuns {
  import opened JournalFormat
  import opened JournalSteps
  import opened JournalSafety
  import opened Bytes
  import opened Optional

  // ---------- Runs ----------

  ghost predicate Legal(s: State, acts: seq<Action>)
    decreases |acts|
  {
    acts != [] ==> Enabled(s, acts[0]) && Legal(Apply(s, acts[0]), acts[1..])
  }

  ghost function Exec(s: State, acts: seq<Action>): State
    decreases |acts|
  {
    if acts == [] then s else Exec(Apply(s, acts[0]), acts[1..])
  }

  ghost predicate NoCrash(acts: seq<Action>) {
    forall a <- acts :: !a.Crash?
  }

  function FormatRecord(): (r: Record)
    ensures IsFormat(r)
  {
    var r := Record(PJE_MAGIC, Format, 0, 0, 0, []);
    SealedIsIntact(r);
    Sealed(r)
  }

  // A journal of n slots as the formatting utility leaves it.
  function FormattedDisk(n: nat): (d: seq<Record>)
    ensures |d| == n && forall i :: 0 <= i < n ==> IsFormat(d[i])
  {
    seq(n, _ => FormatRecord())
  }

  ghost predicate Initial(s: State) {
    exists n: nat, c: Cursor :: n > 0 && c.distillXid < XID_LIMIT && s == Recovered(FormattedDisk(n), c)
  }

  // No step takes a handle away from a writer.
  ghost predicate SafeRun(s: State, acts: seq<Action>)
    decreases |acts|
  {
    acts != [] ==> KeepsHandles(s, acts[0]) && SafeRun(Apply(s, acts[0]), acts[1..])
  }

  // Reached from a formatted journal without a writer losing its handle.
  ghost predicate Reachable(s: State) {
    exists s0, acts :: Initial(s0) && Legal(s0, acts) && SafeRun(s0, acts) && s == Exec(s0, acts)
  }

  lemma {:induction false} RunKeepsInv(s: State, acts: seq<Action>)
    requires Inv(s) && Legal(s, acts) && SafeRun(s, acts)
    ensures Inv(Exec(s, acts))
    decreases |acts|
  {
    hide Inv, Apply, Enabled, KeepsHandles;
    if acts != [] {
      StepKeepsInv(s, acts[0]);
      RunKeepsInv(Apply(s, acts[0]), acts[1..]);
    }
  }

  // A transaction whose handle may be reclaimed although its writer still uses it: it needs no
  // distilling and its group is committed.
  predicate Exposed(s: State, x: nat) {
    Unfinished(s, x) && x in s.handles && !s.handles[x].distill && s.handles[x].txg <= s.commitTxg
  }

  ghost predicate Timely(s: State) {
    forall x :: !Exposed(s, x)
  }

  // No transaction is ever exposed.
  ghost predicate TimelyRun(s: State, acts: seq<Action>)
    decreases |acts|
  {
    Timely(s) && (acts != [] ==> TimelyRun(Apply(s, acts[0]), acts[1..]))
  }

  lemma TimelyIsSafe(s: State, a: Action)
    requires Timely(s) && Enabled(s, a)
    ensures KeepsHandles(s, a)
  {
    hide Unfinished;
    if a.Reclaim? {
      assert !Exposed(s, s.pending[0]);
    }
  }

  // A run that exposes nothing takes no handle away.
  lemma {:induction false} TimelyRunIsSafe(s: State, acts: seq<Action>)
    requires Legal(s, acts) && TimelyRun(s, acts)
    ensures SafeRun(s, acts)
    decreases |acts|
  {
    hide Apply, Enabled, KeepsHandles, Timely;
    if acts != [] {
      TimelyIsSafe(s, acts[0]);
      TimelyRunIsSafe(Apply(s, acts[0]), acts[1..]);
    }
  }

  lemma InitialInv(s: State)
    requires Initial(s)
    ensures Inv(s)
  {
    hide Inv, Recovered, IsFormat, IsEntry;
    var n: nat, c: Cursor :| n > 0 && c.distillXid < XID_LIMIT && s == Recovered(FormattedDisk(n), c);
    var d := FormattedDisk(n);
    assert d[0] in d;
    FormattedFacts(d);
    LastXidCovers(d, c);
    RecoveredInv(d, c);
  }

  lemma FormattedFacts(d: seq<Record>)
    requires forall i :: 0 <= i < |d| ==> IsFormat(d[i])
    ensures forall r :: r in d ==> !IsEntry(r)
    ensures FormatSuffix(d) && DistinctXids(d)
  {
    hide Intact;
  }

  // The invariant holds in every reachable state.
  lemma ReachableInv(s: State)
    requires Reachable(s)
    ensures Inv(s)
  {
    hide Inv, Initial, Legal, Exec, SafeRun;
    var s0, acts :| Initial(s0) && Legal(s0, acts) && SafeRun(s0, acts) && s == Exec(s0, acts);
    InitialInv(s0);
    RunKeepsInv(s0, acts);
  }

  // ---------- No live entry is overwritten ----------

  // In every reachable state the assertions on the way to a slot hold: the slot handed out is
  // not the oldest pending one, the cursor is inside the ring, and the reserve is not empty.
  // The pending transactions fill the ring positions just before the slot.
  lemma SlotAssertionsHold(s: State, x: nat, app: nat, data: seq<Byte>)
    requires Reachable(s) && Enabled(s, NextSlot(x, app, data))
    ensures s.nextwrite < s.total && s.resrv > 0
    ensures forall k :: 0 <= k < |s.pending| ==>
      && s.pending[k] in s.handles
      && s.handles[s.pending[k]].slot == Wrap(s.nextwrite - s.inuse + k, s.total) != s.nextwrite
  {
    hide RingInv, IdInv, LogInv, DiskInv, DistillInv, AttachInv, BufInv, WriterInv, Alive, Reachable;
    ReachableInv(s);
    StartedFacts(s, x);
    FreeSlot(s);
    assert forall k :: 0 <= k < |s.pending| ==> s.pending[k] in s.handles;
  }

  lemma FreeSlot(s: State)
    requires RingInv(s) && s.open > 0
    ensures s.nextwrite < s.total && s.resrv > 0
    ensures forall k :: 0 <= k < |s.pending| ==>
      && s.pending[k] in s.handles
      && s.handles[s.pending[k]].slot == Wrap(s.nextwrite - s.inuse + k, s.total) != s.nextwrite
  {
    forall k | 0 <= k < |s.pending|
      ensures s.pending[k] in s.handles && s.handles[s.pending[k]].slot == PendingSlot(s, k) != s.nextwrite
    {
      assert s.pending[k] in s.handles && s.handles[s.pending[k]].slot == PendingSlot(s, k);
    }
  }

  // Slots in use and reservations not yet consumed never exceed the ring, and a transaction
  // begun within its reservation is covered by the totals.
  lemma ReservationsCover(s: State)
    requires Reachable(s)
    ensures |s.pending| == s.inuse && s.inuse + s.open <= s.total && |s.started| <= s.open <= s.resrv
    ensures |s.started| < s.open ==> s.totalTrans + 1 + s.asked <= s.totalReserve
  {
    hide IdInv, LogInv, DiskInv, DistillInv, AttachInv, BufInv, WriterInv, Alive, Reachable;
    ReachableInv(s);
  }

  ghost predicate LiveOnDisk(s: State, disk: seq<Record>, x: nat) {
    && x in s.handles && x in s.logged && 0 <= s.handles[x].slot < |disk|
    && disk[s.handles[x].slot] == s.logged[x] && IsEntry(s.logged[x])
  }

  // Completing a write puts the record into the slot that was claimed for it, and leaves the
  // record of every other pending transaction in its slot.
  lemma WritePreservesLiveEntries(s: State, slot: int)
    requires Reachable(s) && Enabled(s, Flush(slot))
    ensures 0 <= slot < |s.disk| && slot == Wrap(s.nextwrite - 1, s.total)
    ensures Apply(s, Flush(slot)).disk == s.disk[slot := s.inflight.value.rec]
    ensures forall x :: x in s.pending && x != s.inflight.value.xid ==>
      LiveOnDisk(s, s.disk, x) && LiveOnDisk(s, Apply(s, Flush(slot)).disk, x)
  {
    hide RingInv, IdInv, LogInv, DiskInv, QueueInv, HistoryInv, FlagInv, AttachInv, BufInv, WriterInv, Alive, Reachable, IsEntry;
    ReachableInv(s);
    InflightFacts(s);
    forall x | x in s.pending && x != s.inflight.value.xid
      ensures LiveOnDisk(s, s.disk, x) && s.handles[x].slot != slot
    {
      LiveFacts(s, x);
      OtherSlots(s, x);
    }
  }

  // What a writer finds in its handle is its own: the slot it claimed and the flag of its record,
  // and, when the flag is not set, no buffer.
  lemma WriterFindsItsOwn(s: State, x: nat)
    requires Reachable(s) && Unfinished(s, x)
    ensures x in s.handles && x in s.pending && s.handles[x].xid == x && 0 <= s.handles[x].slot < s.total
    ensures x in s.flushed ==>
      && s.flushed[x].rec.kind.Normal? && s.handles[x].distill == s.flushed[x].rec.kind.distill
      && s.handles[x].data == None
  {
    hide RingInv, IdInv, LogInv, DiskInv, QueueInv, HistoryInv, FlagInv, AttachInv, BufInv, WriterInv, Reachable;
    ReachableInv(s);
    UnfinishedFacts(s, x);
    if x in s.flushed {
      FlushedFacts(s, x);
    }
  }

  lemma UnfinishedFacts(s: State, x: nat)
    requires RingInv(s) && IdInv(s) && Alive(s) && Unfinished(s, x)
    ensures x in s.handles && x in s.pending && s.handles[x].xid == x && 0 <= s.handles[x].slot < s.total
  {
    assert x in s.handles && x !in s.started;
    var k :| 0 <= k < |s.pending| && s.pending[k] == x;
  }

  lemma LiveFacts(s: State, x: nat)
    requires LogInv(s) && x in s.pending && (s.inflight.Some? ==> x != s.inflight.value.xid)
    ensures LiveOnDisk(s, s.disk, x)
  {
    hide Intact;
    assert PendingOk(s, x);
  }

  // ---------- Distillation ----------

  // Everything issued for distillation up to the published ID has been handled, in order of ID
  // and without gaps; the thread's order assertion holds; and new IDs are above all of the log.
  lemma DistilledInOrder(s: State)
    requires Reachable(s)
    ensures IncreasingIds(s.handled)
    ensures forall x :: x in s.issued && x <= s.distillXid ==> x in s.handled
    ensures forall x, y :: x in s.issued && y in s.handled && x <= y ==> x in s.handled
    ensures s.distilling.Some? ==> s.thrXid < s.distilling.value.xid
    ensures forall r :: r in s.disk && IsEntry(r) ==> r.xid <= s.lastxid
  {
    hide RingInv, IdInv, LogInv, DiskInv, QueueInv, HistoryInv, FlagInv, AttachInv, BufInv, WriterInv, Alive, Reachable, IsEntry;
    ReachableInv(s);
    HandledFacts(s);
    DiskIds(s);
  }

  lemma HandledFacts(s: State)
    requires QueueInv(s) && HistoryInv(s)
    ensures IncreasingIds(s.handled)
    ensures forall x :: x in s.issued && x <= s.distillXid ==> x in s.handled
    ensures forall x, y :: x in s.issued && y in s.handled && x <= y ==> x in s.handled
    ensures s.distilling.Some? ==> s.thrXid < s.distilling.value.xid
  {}

  lemma DiskIds(s: State)
    requires DiskInv(s)
    ensures forall r :: r in s.disk && IsEntry(r) ==> r.xid <= s.lastxid
  {
    hide IsEntry, IsFormat;
  }

  ghost predicate NotBehind(s: State, t: State) {
    && s.distillXid <= t.distillXid && s.thrXid <= t.thrXid && s.lastxid <= t.lastxid
    && s.commitTxg <= t.commitTxg && s.replayXid == t.replayXid && s.handled <= t.handled
  }

  // Progress never goes back while the journal runs.
  lemma ProgressIsMonotone(s: State, acts: seq<Action>)
    requires Reachable(s) && Legal(s, acts) && SafeRun(s, acts) && NoCrash(acts)
    ensures NotBehind(s, Exec(s, acts))
  {
    hide Reachable, Legal, Exec, Inv, SafeRun;
    ReachableInv(s);
    RunProgresses(s, acts);
  }

  lemma {:induction false} RunProgresses(s: State, acts: seq<Action>)
    requires Inv(s) && Legal(s, acts) && SafeRun(s, acts) && NoCrash(acts)
    ensures NotBehind(s, Exec(s, acts))
    decreases |acts|
  {
    hide Inv, Apply, Enabled, KeepsHandles;
    if acts != [] {
      StepKeepsInv(s, acts[0]);
      StepProgresses(s, acts[0]);
      assert forall a <- acts[1..] :: a in acts;
      RunProgresses(Apply(s, acts[0]), acts[1..]);
    }
  }

  lemma StepProgresses(s: State, a: Action)
    requires Inv(s) && Enabled(s, a) && !a.Crash?
    ensures NotBehind(s, Apply(s, a))
  {
    hide RingInv, IdInv, LogInv, DiskInv, QueueInv, HistoryInv, FlagInv, AttachInv, BufInv, WriterInv, Alive, Apply, Enabled;
    StepMovesHandle(s, a, 0);
    StepHand(s, a, 0);
    StepCursors(s, a);
  }

  lemma StepCursors(s: State, a: Action)
    requires !a.Crash?
    ensures var t := Apply(s, a); s.distillXid <= t.distillXid && s.replayXid == t.replayXid && s.handled <= t.handled
  {
    hide Apply;
    if a.NextSlot? || a.Flush? || a.HandOff? || a.NewTrans? {
      WriterCursors(s, a);
    } else {
      OtherCursors(s, a);
    }
  }

  lemma WriterCursors(s: State, a: Action)
    requires a.NextSlot? || a.Flush? || a.HandOff? || a.NewTrans?
    ensures var t := Apply(s, a); s.distillXid == t.distillXid && s.replayXid == t.replayXid && s.handled == t.handled
  {
    hide Enabled, NextXid, RecordOf, Written, Recovered, DoReserve, DoUnreserve, DoTakeDistill, DoDistillRead, DoDistillDone,
         DoPutSpare, DoReclaim, DoGetBuf;
  }

  lemma OtherCursors(s: State, a: Action)
    requires !a.NextSlot? && !a.Flush? && !a.HandOff? && !a.NewTrans? && !a.Crash?
    ensures var t := Apply(s, a); s.distillXid <= t.distillXid && s.replayXid == t.replayXid && s.handled <= t.handled
  {
    hide Enabled, NextXid, Recovered, DoNewTrans, DoNextSlot, DoFlush, DoHandOff;
  }

  lemma LastBelowLimit(s: State)
    requires IdInv(s)
    ensures s.lastxid < XID_LIMIT
  {}

  // What a step does to a handle: it is new, gone because it was reclaimable, or has a group no
  // earlier than before.
  ghost predicate HandleMoves(s: State, t: State, x: nat) {
    && s.lastxid <= t.lastxid && s.commitTxg <= t.commitTxg
    && (x in t.handles && x !in s.handles ==> s.lastxid < x <= t.lastxid)
    && (x in t.handles && x in s.handles ==> t.handles[x].txg >= s.handles[x].txg)
    && (x in s.handles && x !in t.handles ==> s.handles[x].txg <= s.commitTxg && !s.handles[x].distill)
  }

  lemma StepMovesHandle(s: State, a: Action, x: nat)
    requires IdInv(s) && Enabled(s, a) && !a.Crash?
    ensures HandleMoves(s, Apply(s, a), x)
  {
    hide IdInv, DoNewTrans, DoNextSlot, DoHandOff, DoTakeDistill, DoDistillDone, HandleMoves, Enabled;
    match a
    case NewTrans(distill, txg, buf) => NewTransMoves(s, distill, txg, buf, x);
    case NextSlot(_, _, _) => ListMoves(s, a, x);
    case HandOff(_, _, _) => ListMoves(s, a, x);
    case TakeDistill => ListMoves(s, a, x);
    case DistillDone => ListMoves(s, a, x);
    case _ => OtherMoves(s, a, x);
  }

  lemma NewTransMoves(s: State, distill: bool, txg: nat, buf: nat, x: nat)
    requires IdInv(s) && Enabled(s, NewTrans(distill, txg, buf))
    ensures HandleMoves(s, DoNewTrans(s, distill, txg, buf), x)
  {
    hide IdInv, NextXid, Busy;
    NewXidFacts(s, NextXid(s.lastxid));
  }

  lemma ListMoves(s: State, a: Action, x: nat)
    requires a.NextSlot? || a.HandOff? || a.TakeDistill? || a.DistillDone?
    ensures HandleMoves(s, Apply(s, a), x)
  {
    hide RecordOf;
  }

  lemma OtherMoves(s: State, a: Action, x: nat)
    requires IdInv(s) && Enabled(s, a) && !a.Crash? && !a.NewTrans?
    requires !a.NextSlot? && !a.HandOff? && !a.TakeDistill? && !a.DistillDone?
    ensures HandleMoves(s, Apply(s, a), x)
  {
    hide IdInv, NextXid, Busy;
    LastBelowLimit(s);
    NextXidGrows(s.lastxid);
  }

  // What distilling a transaction in group g leads to: its handle stays until a later group is
  // committed.
  ghost predicate HeldPast(s: State, x: nat, g: nat) {
    && x <= s.lastxid
    && if InHand(s, x) then s.distilling.value.seen.Some? && s.distilling.value.seen.value > g && x in s.handles
       else x <= s.thrXid && if x in s.handles then s.handles[x].txg > g else s.commitTxg > g
  }

  // A transaction that has been distilled while g was the current group is not reclaimed before
  // a later group is committed, so that its distillation, and the cursor that covers it, can be
  // committed first.
  lemma DistilledThenCommitted(s: State, acts: seq<Action>)
    requires Reachable(s) && acts != [] && acts[0] == DistillRead
    requires Legal(s, acts) && SafeRun(s, acts) && NoCrash(acts)
    ensures HeldPast(Exec(s, acts), s.distilling.value.xid, s.currentTxg)
  {
    hide RingInv, LogInv, DiskInv, QueueInv, HistoryInv, FlagInv, AttachInv, BufInv, WriterInv, Alive, Reachable, KeepsHandles;
    ReachableInv(s);
    InHandFacts(s);
    StepKeepsInv(s, DistillRead);
    assert forall a <- acts[1..] :: a in acts;
    RunHeldPast(Apply(s, DistillRead), acts[1..], s.distilling.value.xid, s.currentTxg);
  }

  lemma {:induction false} RunHeldPast(s: State, acts: seq<Action>, x: nat, g: nat)
    requires Inv(s) && Legal(s, acts) && SafeRun(s, acts) && NoCrash(acts) && HeldPast(s, x, g)
    ensures HeldPast(Exec(s, acts), x, g)
    decreases |acts|
  {
    hide Inv, Apply, Enabled, HeldPast, KeepsHandles;
    if acts != [] {
      StepKeepsInv(s, acts[0]);
      StepHeldPast(s, acts[0], x, g);
      assert forall a <- acts[1..] :: a in acts;
      RunHeldPast(Apply(s, acts[0]), acts[1..], x, g);
    }
  }

  lemma StepHeldPast(s: State, a: Action, x: nat, g: nat)
    requires Inv(s) && Enabled(s, a) && !a.Crash? && HeldPast(s, x, g)
    ensures HeldPast(Apply(s, a), x, g)
  {
    hide RingInv, IdInv, LogInv, DiskInv, QueueInv, HistoryInv, FlagInv, AttachInv, BufInv, WriterInv, Alive, Apply, Enabled;
    StepMovesHandle(s, a, x);
    StepHand(s, a, x);
    HandFlagged(s, x);
  }

  // What a step does to the transaction in hand: it is taken from the distill list, its group is
  // read, or it is put down with a group no earlier than the one read.
  lemma StepHand(s: State, a: Action, x: nat)
    requires QueueInv(s) && Enabled(s, a) && !a.Crash?
    ensures var t := Apply(s, a);
      && (InHand(t, x) && !InHand(s, x) ==> x in s.distillq && s.handles[x].distill)
      && (InHand(t, x) && InHand(s, x) && s.distilling.value.seen.Some? ==> t.distilling == s.distilling)
      && (InHand(s, x) && !InHand(t, x) ==>
            && x in t.handles && s.distilling.value.seen.Some? && t.handles[x].txg >= s.distilling.value.seen.value
            && x <= t.thrXid)
      && s.thrXid <= t.thrXid
  {
    hide QueueInv, Apply, Enabled;
    if a.TakeDistill? || a.DistillRead? || a.DistillDone? {
      ThreadHand(s, a, x);
    } else {
      SameThread(s, a);
    }
  }

  lemma ThreadHand(s: State, a: Action, x: nat)
    requires QueueInv(s) && Enabled(s, a) && (a.TakeDistill? || a.DistillRead? || a.DistillDone?)
    ensures var t := Apply(s, a);
      && (InHand(t, x) && !InHand(s, x) ==> x in s.distillq && s.handles[x].distill)
      && (InHand(t, x) && InHand(s, x) && s.distilling.value.seen.Some? ==> t.distilling == s.distilling)
      && (InHand(s, x) && !InHand(t, x) ==>
            && x in t.handles && s.distilling.value.seen.Some? && t.handles[x].txg >= s.distilling.value.seen.value
            && x <= t.thrXid)
      && s.thrXid <= t.thrXid
  {
    hide IncreasingIds;
    assert a.TakeDistill? ==> s.distillq[0] in s.distillq;
  }

  lemma SameThread(s: State, a: Action)
    requires !a.TakeDistill? && !a.DistillRead? && !a.DistillDone? && !a.Crash?
    ensures Apply(s, a).distilling == s.distilling && Apply(s, a).thrXid == s.thrXid
  {
    hide NextXid, RecordOf, Enabled;
  }

  // What the thread has in hand, or will have, is flagged, so its handle stays.
  lemma HandFlagged(s: State, x: nat)
    requires QueueInv(s)
    ensures x in s.distillq ==> x in s.handles && s.handles[x].distill && s.thrXid < x
    ensures InHand(s, x) ==> x in s.handles && s.handles[x].distill
  {}

  // ---------- Conservation ----------

  // A handle that is reclaimed is on no list and has no buffer attached, and afterwards it is gone
  // from every list. A writer uses it exactly if its transaction is exposed, so that destroying it
  // is safe when none is.
  lemma DestroyIsSafe(s: State)
    requires Reachable(s) && Reclaimable(s)
    ensures var x, t := s.pending[0], Apply(s, Reclaim);
      && x !in t.pending && x !in t.distillq && !InHand(t, x) && x !in t.handles
      && s.handles[x].data == None && s.inuse > 0
      && (Unfinished(s, x) <==> Exposed(s, x)) && (Timely(s) ==> !Unfinished(s, x))
  {
    hide RingInv, IdInv, LogInv, DiskInv, DistillInv, AttachInv, BufInv, WriterInv, Alive, Reachable, Unfinished;
    ReachableInv(s);
    ReclaimFacts(s);
  }

  ghost function Attachers(s: State): set<nat> {
    set x | x in s.handles && HasData(s, x)
  }

  // Buffers are conserved: free, held by callers, attached to a handle and in the distill
  // thread's hands add up to the pool at every moment.
  lemma BuffersConserved(s: State)
    requires Reachable(s)
    ensures |s.bufs| + |s.held| + |Attachers(s)| + (if s.distilling.Some? || s.spare.Some? then 1 else 0) == 16384
  {
    hide RingInv, IdInv, LogInv, DiskInv, DistillInv, AttachInv, BufInv, WriterInv, Alive, Reachable, HasData;
    ReachableInv(s);
    BufferCount(s);
  }

  lemma BufferCount(s: State)
    requires BufInv(s)
    ensures |s.bufs| + |s.held| + |Attachers(s)| + (if s.distilling.Some? || s.spare.Some? then 1 else 0) == MAX_BUF
  {
    hide HasData, Pool, NoRepeat;
    DistinctCount(s.bufs);
    PoolCount();
    AttachedCount(s, Attachers(s));
    assert BufsOf(s, Attachers(s)) == AttachedBufs(s);
    var f, h, a, d := FreeBufs(s), s.held, AttachedBufs(s), DistillBufs(s);
    assert |f + h| == |f| + |h|;
    assert |f + h + a| == |f + h| + |a|;
    assert |f + h + a + d| == |f + h + a| + |d|;
  }

  lemma {:induction false} DistinctCount(b: seq<nat>)
    requires NoRepeat(b)
    ensures |Members(b)| == |b|
    decreases |b|
  {
    if b != [] {
      assert forall i :: 0 <= i < |b| - 1 ==> b[1..][i] == b[i + 1];
      DistinctCount(b[1..]);
      assert b[0] !in b[1..];
      assert Members(b) == {b[0]} + Members(b[1..]);
    }
  }

  lemma PoolCount()
    ensures |PoolBufs()| == MAX_BUF
  {
    DistinctCount(Pool());
  }

  ghost function BufsOf(s: State, xs: set<nat>): set<nat> {
    set x | x in xs && HasData(s, x) :: s.handles[x].data.value.buf
  }

  lemma {:induction false} AttachedCount(s: State, xs: set<nat>)
    requires forall x :: x in xs ==> HasData(s, x)
    requires forall x, y :: HasData(s, x) && HasData(s, y) && x != y ==>
      s.handles[x].data.value.buf != s.handles[y].data.value.buf
    ensures |BufsOf(s, xs)| == |xs|
    decreases |xs|
  {
    if xs == {} {
      assert BufsOf(s, xs) == {};
    } else {
      var x :| x in xs;
      var ys, b := xs - {x}, s.handles[x].data.value.buf;
      AttachedCount(s, ys);
      assert BufsOf(s, xs) == BufsOf(s, ys) + {b};
      assert b !in BufsOf(s, ys);
    }
  }

  // ---------- Recovery after a crash ----------

  // After a crash in any reachable state, with the slot being written left old, new or damaged,
  // recovery hands every handler exactly the intact entries the cursor leaves to it, each once
  // and in order of transaction ID. In particular the scan loses nothing by stopping at the
  // first formatted slot.
  lemma RecoveryComplete(s: State, found: Record, at: int, c: Cursor)
    requires Reachable(s) && Enabled(s, Crash(found, at, c))
    ensures var d := DiskAfterCrash(s, found, at); var es := Events(ToReplay(d, c), c);
      && InOrder(es)
      && (forall r :: Replay(r) in es <==>
            r in d && IsEntry(r) && OwedReplay(r, c))
      && (forall r :: Distill(r) in es <==>
            r in d && IsEntry(r) && OwedDistill(r, c))
  {
    hide RingInv, IdInv, LogInv, DiskInv, QueueInv, HistoryInv, FlagInv, AttachInv, BufInv, WriterInv, Alive,
         Reachable, IsEntry, DiskAfterCrash, Events, ToReplay, InOrder, OwedReplay, OwedDistill;
    ReachableInv(s);
    CrashDisk(s, found, at, c);
    RecoveryExact(DiskAfterCrash(s, found, at), c);
  }

  // A cursor that is at least as far as what the running journal had reclaimed.
  ghost predicate UpToDate(s: State, c: Cursor) {
    s.commitTxg <= c.commitTxg && s.retired <= c.distillXid
  }

  // No completed write is forgotten: whatever this incarnation logged, and the cursor does not
  // cover, is replayed or distilled after a crash, provided its ID is above the replay cursor.
  lemma NothingForgotten(s: State, found: Record, at: int, c: Cursor, x: nat)
    requires Reachable(s) && Enabled(s, Crash(found, at, c)) && UpToDate(s, c)
    requires x in s.logged && x > c.replayXid
    ensures var r := s.logged[x]; var es := Events(ToReplay(DiskAfterCrash(s, found, at), c), c);
      && IsEntry(r) && r.xid == x
      && (r.txg > c.commitTxg <==> Replay(r) in es)
      && (r.kind.distill && x > c.distillXid ==> Distill(r) in es)
  {
    hide RingInv, IdInv, LogInv, DiskInv, DistillInv, AttachInv, BufInv, WriterInv, Alive,
         Reachable, DiskAfterCrash, Events, ToReplay, InOrder, Intact;
    ReachableInv(s);
    RecoveryComplete(s, found, at, c);
    LoggedSurvives(s, found, at, c, x);
  }

  lemma LoggedSurvives(s: State, found: Record, at: int, c: Cursor, x: nat)
    requires RingInv(s) && IdInv(s) && LogInv(s) && x in s.logged && Enabled(s, Crash(found, at, c))
    ensures IsEntry(s.logged[x]) && s.logged[x].xid == x
    ensures s.logged[x] in DiskAfterCrash(s, found, at) || Settled(s, s.logged[x])
  {
    hide RingInv, IdInv, Intact;
    assert LoggedOk(s, x);
    if x in s.pending {
      assert PendingOk(s, x);
      if s.inflight.Some? { OtherSlots(s, x); }
      assert DiskAfterCrash(s, found, at)[s.handles[x].slot] == s.logged[x];
    }
  }

  // ---------- The replay cursor and the IDs issued after recovery ----------

  // Every transaction of an incarnation has an ID above the one recovery ended with.
  ghost predicate IdsAbove(s: State, base: nat) {
    && base <= s.lastxid
    && (forall x :: x in s.handles || x in s.logged ==> x > base)
    && (s.inflight.Some? ==> s.inflight.value.xid > base)
  }

  // From a recovery to the next crash, every ID is above the one the recovery ended with.
  lemma IncarnationIdsAbove(d: seq<Record>, c: Cursor, acts: seq<Action>)
    requires d != [] && FormatSuffix(d) && DistinctXids(d) && LastXid(d, c) < XID_LIMIT
    requires Legal(Recovered(d, c), acts) && SafeRun(Recovered(d, c), acts) && NoCrash(acts)
    ensures IdsAbove(Exec(Recovered(d, c), acts), LastXid(d, c))
  {
    hide Inv, ToReplay, LastXid, Legal, Exec, FormatSuffix, DistinctXids, SafeRun;
    RecoveredInv(d, c);
    RunIdsAbove(Recovered(d, c), acts, LastXid(d, c));
  }

  lemma {:induction false} RunIdsAbove(s: State, acts: seq<Action>, base: nat)
    requires Inv(s) && Legal(s, acts) && SafeRun(s, acts) && NoCrash(acts) && IdsAbove(s, base)
    ensures IdsAbove(Exec(s, acts), base)
    decreases |acts|
  {
    hide Inv, Apply, Enabled, IdsAbove, KeepsHandles;
    if acts != [] {
      StepKeepsInv(s, acts[0]);
      StepIdsAbove(s, acts[0], base);
      assert forall a <- acts[1..] :: a in acts;
      RunIdsAbove(Apply(s, acts[0]), acts[1..], base);
    }
  }

  lemma StepIdsAbove(s: State, a: Action, base: nat)
    requires Inv(s) && Enabled(s, a) && !a.Crash? && IdsAbove(s, base)
    ensures IdsAbove(Apply(s, a), base)
  {
    hide RingInv, IdInv, LogInv, DiskInv, DistillInv, AttachInv, BufInv, WriterInv, Alive, Apply, Enabled;
    StepMovesHandle(s, a, base);
    StepWriters(s, a);
    forall x: nat | x in Apply(s, a).handles
      ensures x > base
    {
      StepMovesHandle(s, a, x);
    }
  }

  // Who is written, and who is being written.
  lemma StepWriters(s: State, a: Action)
    requires !a.Crash?
    ensures var t := Apply(s, a);
      && (t.inflight.Some? ==> t.inflight == s.inflight || t.inflight.value.xid in s.handles)
      && (forall x :: x in t.logged ==> x in s.logged || (s.inflight.Some? && x == s.inflight.value.xid))
  {
    hide Apply;
    if a.NextSlot? || a.Flush? {
      WriteWriters(s, a);
    } else if a.NewTrans? || a.HandOff? || a.TakeDistill? || a.DistillDone? || a.Reclaim? {
      ListWriters(s, a);
    } else {
      CounterWriters(s, a);
    }
  }

  lemma WriteWriters(s: State, a: Action)
    requires a.NextSlot? || a.Flush?
    ensures var t := Apply(s, a);
      && (t.inflight.Some? ==> t.inflight == s.inflight || t.inflight.value.xid in s.handles)
      && (forall x :: x in t.logged ==> x in s.logged || (s.inflight.Some? && x == s.inflight.value.xid))
  {
    hide Enabled, RecordOf, Written, Recovered, DoReserve, DoUnreserve, DoNewTrans, DoHandOff, DoTakeDistill, DoDistillRead,
         DoDistillDone, DoPutSpare, DoReclaim, DoGetBuf;
  }

  lemma ListWriters(s: State, a: Action)
    requires a.NewTrans? || a.HandOff? || a.TakeDistill? || a.DistillDone? || a.Reclaim?
    ensures Apply(s, a).inflight == s.inflight && Apply(s, a).logged == s.logged
  {
    hide Enabled, NextXid, Recovered, DoReserve, DoUnreserve, DoNextSlot, DoFlush, DoDistillRead, DoPutSpare, DoGetBuf;
  }

  lemma CounterWriters(s: State, a: Action)
    requires !a.NextSlot? && !a.Flush? && !a.Crash?
    requires !a.NewTrans? && !a.HandOff? && !a.TakeDistill? && !a.DistillDone? && !a.Reclaim?
    ensures Apply(s, a).inflight == s.inflight && Apply(s, a).logged == s.logged
  {
    hide Enabled, NextXid, Recovered, DoNewTrans, DoNextSlot, DoFlush, DoHandOff, DoTakeDistill, DoDistillDone, DoReclaim;
  }

  // Whether every transaction begun after a recovery, in any run of the new incarnation, has an
  // ID that the next recovery will not take for already replayed.
  ghost predicate NewIdsPassReplayFilter(d: seq<Record>, c: Cursor) {
    var s := Recovered(d, c);
    forall acts, x :: Legal(s, acts) && SafeRun(s, acts) && NoCrash(acts) && x in Exec(s, acts).handles ==> x > s.replayXid
  }

  // It holds exactly when the last ID that recovery will find is not below the replay cursor it
  // starts with.
  lemma ReplayFilterCondition(d: seq<Record>, c: Cursor)
    requires d != [] && FormatSuffix(d) && DistinctXids(d) && LastXid(d, c) + 1 < XID_LIMIT
    ensures NewIdsPassReplayFilter(d, c) <==> LastXid(d, c) >= c.replayXid
  {
    hide Inv, ToReplay, LastXid, Legal, Exec, SafeRun;
    var s := Recovered(d, c);
    RecoveredInv(d, c);
    ReplayCursorMoves(d, c);
    if LastXid(d, c) >= s.replayXid {
      forall acts, x | Legal(s, acts) && SafeRun(s, acts) && NoCrash(acts) && x in Exec(s, acts).handles
        ensures x > s.replayXid
      {
        IncarnationIdsAbove(d, c, acts);
      }
    } else {
      FirstTransaction(s);
    }
  }

  // Replay moves its cursor up to an ID in the log, if it moves it.
  lemma ReplayCursorMoves(d: seq<Record>, c: Cursor)
    requires FormatSuffix(d) && DistinctXids(d)
    ensures var r := ReplayXidAfter(ToReplay(d, c), c); r == c.replayXid || c.replayXid < r <= LastXid(d, c)
  {
    hide ToReplay, LastXid, IsEntry, FormatSuffix, DistinctXids, Increasing;
    ToReplayExactly(d, c);
    LastXidCovers(d, c);
    var rs := ToReplay(d, c);
    if rs != [] {
      assert rs[|rs| - 1] in rs;
    }
  }

  lemma FirstTransaction(s: State)
    requires s.resrv == s.inuse == s.open == s.asked == 0 && s.total > 0 && s.lastxid + 1 < XID_LIMIT
    requires s.bufs != [] && Fresh(s)
    ensures exists acts ::
      Legal(s, acts) && SafeRun(s, acts) && NoCrash(acts) && s.lastxid + 1 in Exec(s, acts).handles
  {
    hide Apply, Enabled, Legal, Exec, SafeRun, NoCrash;
    var a, b, c, d := Request(1), Reserve, GetBuf, NewTrans(false, 1, s.bufs[0]);
    var s1 := Asked(s);
    var s2 := Granted(s1);
    BeginsWith(s2);
    var s3 := Apply(s2, c);
    var s4 := Apply(s3, d);
    NoSteps(s4);
    GrownBy(s3, d, []);
    GrownBy(s2, c, [d] + []);
    GrownBy(s1, b, [c] + ([d] + []));
    GrownBy(s, a, [b] + ([c] + ([d] + [])));
  }

  lemma Asked(s: State) returns (t: State)
    ensures Enabled(s, Request(1)) && t == Apply(s, Request(1))
    ensures t == s.(asked := s.asked + 1, totalReserve := s.totalReserve + 1)
  {
    t := Apply(s, Request(1));
  }

  lemma Granted(s: State) returns (t: State)
    requires s.asked > 0 && s.resrv + s.inuse < s.total
    ensures Enabled(s, Reserve) && t == Apply(s, Reserve) && t == DoReserve(s)
  {
    t := Apply(s, Reserve);
  }

  lemma BeginsWith(s: State)
    requires s.inflight == None && s.flushed == map[] && s.started == map[]
    requires s.open > 0 && s.lastxid + 1 < XID_LIMIT && s.bufs != []
    ensures var t := Apply(s, GetBuf); var a := NewTrans(false, 1, s.bufs[0]);
      Enabled(s, GetBuf) && Enabled(t, a) && s.lastxid + 1 in Apply(t, a).handles
  {
    hide NextXid;
    NextXidGrows(s.lastxid);
  }

  lemma NoSteps(s: State)
    ensures Legal(s, []) && SafeRun(s, []) && NoCrash([]) && Exec(s, []) == s
  {}

  // A run with one more step in front.
  lemma GrownBy(s: State, a: Action, rest: seq<Action>)
    requires Enabled(s, a) && !a.Crash? && !a.Reclaim?
    requires Legal(Apply(s, a), rest) && SafeRun(Apply(s, a), rest) && NoCrash(rest)
    ensures var acts := [a] + rest;
      Legal(s, acts) && SafeRun(s, acts) && NoCrash(acts) && Exec(s, acts) == Exec(Apply(s, a), rest)
  {
    hide Apply, Enabled;
    assert ([a] + rest)[1..] == rest;
  }

  lemma {:induction false} ExecAppend(s: State, acts: seq<Action>, a: Action)
    requires Legal(s, acts) && Enabled(Exec(s, acts), a)
    ensures Legal(s, acts + [a]) && Exec(s, acts + [a]) == Apply(Exec(s, acts), a)
    decreases |acts|
  {
    hide Apply, Enabled;
    if acts == [] {
      assert (acts + [a])[1..] == [];
      assert Exec(Apply(s, a), []) == Apply(s, a);
    } else {
      assert (acts + [a])[1..] == acts[1..] + [a];
      ExecAppend(Apply(s, acts[0]), acts[1..], a);
    }
  }

  lemma TwoSteps(s: State, a: Action, b: Action)
    requires Enabled(s, a) && Enabled(Apply(s, a), b)
    ensures Legal(s, [a, b]) && Exec(s, [a, b]) == Apply(Apply(s, a), b)
  {
    hide Apply, Enabled;
    ExecAppend(s, [], a);
    assert [] + [a] == [a];
    ExecAppend(s, [a], b);
    assert [a] + [b] == [a, b];
  }

  lemma {:induction false} SafeAppend(s: State, acts: seq<Action>, a: Action)
    requires SafeRun(s, acts) && KeepsHandles(Exec(s, acts), a)
    ensures SafeRun(s, acts + [a])
    decreases |acts|
  {
    hide Apply, KeepsHandles;
    if acts == [] {
      assert (acts + [a])[1..] == [];
    } else {
      assert (acts + [a])[1..] == acts[1..] + [a];
      SafeAppend(Apply(s, acts[0]), acts[1..], a);
    }
  }

  lemma ReachNext(s: State, a: Action)
    requires Reachable(s) && Enabled(s, a) && KeepsHandles(s, a)
    ensures Reachable(Apply(s, a))
  {
    hide Apply, Enabled, Legal, Exec, Initial, SafeRun, KeepsHandles;
    var s0, acts :| Initial(s0) && Legal(s0, acts) && SafeRun(s0, acts) && s == Exec(s0, acts);
    ExecAppend(s0, acts, a);
    SafeAppend(s0, acts, a);
  }

  // Where it fails, an entry is lost. A formatted journal opened with the cursor of an older one
  // issues ID 1 again; its entry is complete on disk and not committed, and the next recovery
  // skips it.
  lemma LostEntry() returns (s: State, found: Record, c: Cursor)
    ensures Reachable(s) && Enabled(s, Crash(found, 0, c)) && UpToDate(s, c) && c.replayXid == s.replayXid
    ensures 1 in s.logged && s.logged[1] in s.disk && IsEntry(s.logged[1]) && s.logged[1].txg > c.commitTxg
    ensures Replay(s.logged[1]) !in Events(ToReplay(DiskAfterCrash(s, found, 0), c), c)
  {
    hide Reachable, Events, ToReplay, IsFormat, Intact, Sealed, InOrder, Needed;
    c := Cursor(0, 0, 5);
    var s3 := BegunUnderOldCursor(c, 1);
    var s4 := Apply(s3, NextSlot(1, 0, []));
    ReachNext(s3, NextSlot(1, 0, []));
    s := Apply(s4, Flush(0));
    ReachNext(s4, Flush(0));
    found := s.disk[0];
    SealedRecord(s3.handles[1], 0, []);
    RecoveryComplete(s, found, 0, c);
  }

  // A journal just formatted with one slot in which a transaction of the given group has begun.
  lemma BegunUnderOldCursor(c: Cursor, txg: nat) returns (s: State)
    requires c.commitTxg == 0 && c.distillXid == 0 && txg > 0
    ensures Reachable(s) && s.started == map[1 := 0] && s.open == 1 && s.total == 1 && |s.disk| == 1
    ensures s.handles == map[1 := Handle(1, txg, false, false, SLOT_ANY, None)] && s.pending == []
    ensures s.inflight == None && s.flushed == map[] && s.returning == {} && s.held == {0} && s.logged == map[]
    ensures s.commitTxg == 0 && s.retired == 0 && s.replayXid == c.replayXid && s.nextwrite == 0 && s.inuse == 0
  {
    hide Reachable, Pool;
    var s3 := GrantedWithBuffer(c);
    NextXidGrows(0);
    s := Apply(s3, NewTrans(false, txg, 0));
    ReachNext(s3, NewTrans(false, txg, 0));
  }

  // A journal just formatted with one slot, which is reserved, and one buffer handed out.
  lemma GrantedWithBuffer(c: Cursor) returns (s: State)
    requires c.commitTxg == 0 && c.distillXid == 0
    ensures Reachable(s) && s.started == map[] && s.open == 1 && s.total == 1 && |s.disk| == 1 && s.lastxid == 0
    ensures s.handles == map[] && s.pending == []
    ensures s.inflight == None && s.flushed == map[] && s.returning == {} && s.held == {0} && s.logged == map[]
    ensures s.commitTxg == 0 && s.retired == 0 && s.replayXid == c.replayXid && s.nextwrite == 0 && s.inuse == 0
  {
    hide Reachable, Pool;
    var s0 := JustFormatted(c);
    FirstOfPool();
    var s1 := Apply(s0, Request(1));
    ReachNext(s0, Request(1));
    var s2 := Apply(s1, Reserve);
    ReachNext(s1, Reserve);
    s := Apply(s2, GetBuf);
    ReachNext(s2, GetBuf);
  }

  lemma FirstOfPool()
    ensures Pool() != [] && Pool()[0] == 0
  {}

  lemma JustFormatted(c: Cursor) returns (s: State)
    requires c.distillXid == 0
    ensures Reachable(s) && |s.disk| == 1
    ensures s == State(1, s.disk, 0, 0, 0, 0, 0, 0, 0, 0, 0, c.replayXid, c.commitTxg, 0,
                       map[], [], [], map[], None, map[], {}, 0, None, None, Pool(), {}, map[], {}, [], 0)
  {
    hide IsFormat, Intact, Sealed, Pool;
    var d := FormattedDisk(1);
    s := Recovered(d, c);
    NothingToReplay(d, c);
    assert Initial(s);
    assert Legal(s, []) && SafeRun(s, []) && s == Exec(s, []);
  }

  lemma NothingToReplay(d: seq<Record>, c: Cursor)
    requires d != [] && IsFormat(d[0])
    ensures ToReplay(d, c) == [] && LastXid(d, c) == c.distillXid
  {
    hide IsFormat;
  }
}
