/**
 The handle of a transaction can be reclaimed while its writer still uses it. A writer lets go of
 its handle only when it returns, but the transaction is on the pending list from the moment its
 slot is claimed, and is reclaimed from there once it needs no distilling and its group is
 committed. Which steps lead there, and that they do lead there.
 */
module JournalHandles {
  import opened JournalFormat
  import opened JournalSteps
  import opened JournalSafety
  import opened JournalRuns
  import opened Bytes
  import opened Optional

  // ---------- A run that loses a handle ----------

  // A transaction outside of distilling gets its slot, its group is committed and it is reclaimed,
  // all before its record is written. The writer may then find any slot in the handle.
  lemma LostHandle() returns (s: State)
    ensures Reachable(s) && s.inflight.Some?
    ensures var acts := [Sync(1), Reclaim]; var t := Exec(s, acts);
      && Legal(s, acts) && !Alive(t)
      && t.inflight == s.inflight && forall slot :: Enabled(t, Flush(slot))
  {
    hide Reachable, Legal, Exec;
    s := ClaimedSlot();
    TwoSteps(s, Sync(1), Reclaim);
    NotAlive(Apply(Apply(s, Sync(1)), Reclaim), 1);
  }

  // A transaction of group 1 has claimed the only slot; nothing is committed yet.
  lemma ClaimedSlot() returns (s: State)
    ensures Reachable(s) && s.inflight.Some? && s.inflight.value.xid == 1
    ensures s.pending == [1] && s.inuse == 1 && s.commitTxg == 0
    ensures s.handles == map[1 := Handle(1, 1, false, false, 0, None)]
  {
    hide Reachable, RecordOf;
    var s0 := BegunUnderOldCursor(Cursor(0, 0, 0), 1);
    s := Apply(s0, NextSlot(1, 0, []));
    ReachNext(s0, NextSlot(1, 0, []));
  }

  // ---------- The steps that expose a transaction ----------

  // The step exposes no further transaction.
  ghost predicate CarefulStep(s: State, a: Action) {
    forall x :: Exposed(Apply(s, a), x) ==> Exposed(s, x)
  }

  // Three steps can: claiming a slot for a transaction whose group is already committed,
  // committing the group of one that is being written, and clearing the distill flag of one that
  // has not returned when the group that counts for it then is already committed.
  ghost predicate Exposes(s: State, a: Action) {
    match a
    case NextSlot(x, _, _) => x in s.handles && !s.handles[x].distill && s.handles[x].txg <= s.commitTxg
    case Sync(txg) =>
      exists x :: Unfinished(s, x) && x in s.handles && !s.handles[x].distill && s.commitTxg < s.handles[x].txg <= txg
    case DistillDone =>
      && s.distilling.Some? && s.distilling.value.seen.Some? && s.distilling.value.xid in s.handles
      && Unfinished(s, s.distilling.value.xid)
      && Max(s.handles[s.distilling.value.xid].txg, s.distilling.value.seen.value) <= s.commitTxg
    case _ => false
  }

  lemma ExposingSteps(s: State, a: Action)
    requires Inv(s) && Enabled(s, a) && !a.Crash?
    ensures CarefulStep(s, a) <==> !Exposes(s, a)
  {
    hide RingInv, IdInv, LogInv, DiskInv, QueueInv, HistoryInv, FlagInv, AttachInv, BufInv, WriterInv, Alive, Apply, CarefulStep,
         Exposes, Enabled;
    match a
    case NextSlot(x, app, data) => NextSlotExposes(s, x, app, data);
    case Sync(txg) => SyncExposes(s, txg);
    case DistillDone => DoneExposes(s);
    case NewTrans(distill, txg, buf) => NewTransCareful(s, distill, txg, buf);
    case HandOff(x, flag, into) => HandOffCareful(s, x, flag, into);
    case TakeDistill => TakeCareful(s);
    case _ => QuietCareful(s, a);
  }

  lemma NextSlotExposes(s: State, x: nat, app: nat, data: seq<Byte>)
    requires Inv(s) && Enabled(s, NextSlot(x, app, data))
    ensures CarefulStep(s, NextSlot(x, app, data)) <==> !Exposes(s, NextSlot(x, app, data))
  {
    hide RingInv, IdInv, LogInv, DiskInv, DistillInv, AttachInv, BufInv, WriterInv, Alive, RecordOf;
    StartedFacts(s, x);
    NotReturning(s, x);
    var t := Apply(s, NextSlot(x, app, data));
    assert Unfinished(t, x) && !Unfinished(s, x);
    forall y | y != x
      ensures Exposed(t, y) <==> Exposed(s, y)
    {}
    assert Exposed(t, x) <==> Exposes(s, NextSlot(x, app, data));
  }

  lemma NotReturning(s: State, x: nat)
    requires IdInv(s) && x in s.started
    ensures x !in s.returning && x !in s.flushed
  {}

  lemma SyncExposes(s: State, txg: nat)
    requires Enabled(s, Sync(txg))
    ensures CarefulStep(s, Sync(txg)) <==> !Exposes(s, Sync(txg))
  {
    hide Unfinished;
    var t := Apply(s, Sync(txg));
    SyncKeepsWriters(s, txg);
    if Exposes(s, Sync(txg)) {
      var x :| Unfinished(s, x) && x in s.handles && !s.handles[x].distill && s.commitTxg < s.handles[x].txg <= txg;
      assert Exposed(t, x) && !Exposed(s, x);
    }
  }

  lemma SyncKeepsWriters(s: State, txg: nat)
    ensures forall x :: Unfinished(Apply(s, Sync(txg)), x) <==> Unfinished(s, x)
  {}

  lemma DoneExposes(s: State)
    requires Inv(s) && Enabled(s, DistillDone)
    ensures CarefulStep(s, DistillDone) <==> !Exposes(s, DistillDone)
  {
    hide RingInv, IdInv, LogInv, DiskInv, QueueInv, HistoryInv, FlagInv, AttachInv, BufInv, WriterInv, Alive;
    InHandFacts(s);
    HandFlagged(s, s.distilling.value.xid);
    var t, x := Apply(s, DistillDone), s.distilling.value.xid;
    forall y | y != x
      ensures Exposed(t, y) <==> Exposed(s, y)
    {}
    assert !Exposed(s, x);
    assert Exposed(t, x) <==> Exposes(s, DistillDone);
  }

  lemma NewTransCareful(s: State, distill: bool, txg: nat, buf: nat)
    requires Inv(s) && Enabled(s, NewTrans(distill, txg, buf))
    ensures CarefulStep(s, NewTrans(distill, txg, buf)) && !Exposes(s, NewTrans(distill, txg, buf))
  {
    hide RingInv, IdInv, LogInv, DiskInv, DistillInv, AttachInv, BufInv, WriterInv, Busy, NextXid;
    var x, t := NextXid(s.lastxid), Apply(s, NewTrans(distill, txg, buf));
    NewXidFacts(s, x);
    assert forall y :: Unfinished(t, y) <==> Unfinished(s, y);
    assert !Unfinished(s, x);
  }

  lemma HandOffCareful(s: State, x: nat, flag: bool, into: nat)
    requires Inv(s) && Enabled(s, HandOff(x, flag, into))
    ensures CarefulStep(s, HandOff(x, flag, into)) && !Exposes(s, HandOff(x, flag, into))
  {
    hide RingInv, IdInv, LogInv, DiskInv, QueueInv, HistoryInv, FlagInv, AttachInv, BufInv, WriterInv, Alive;
    FlushedFacts(s, x);
    var t := Apply(s, HandOff(x, flag, into));
    forall y
      ensures Exposed(t, y) ==> Exposed(s, y)
    {}
  }

  lemma TakeCareful(s: State)
    requires Enabled(s, TakeDistill)
    ensures CarefulStep(s, TakeDistill) && !Exposes(s, TakeDistill)
  {}

  // Steps that leave writers, flags and groups alone, or take handles away.
  lemma QuietCareful(s: State, a: Action)
    requires Enabled(s, a) && !a.Crash? && !a.NextSlot? && !a.Sync? && !a.DistillDone? && !a.NewTrans? && !a.HandOff?
    requires !a.TakeDistill?
    ensures CarefulStep(s, a) && !Exposes(s, a)
  {
    hide Busy, NextXid, Recovered;
  }

  // ---------- The exact condition ----------

  ghost predicate Careful(s: State, acts: seq<Action>)
    decreases |acts|
  {
    acts != [] ==> CarefulStep(s, acts[0]) && Careful(Apply(s, acts[0]), acts[1..])
  }

  // In every reachable state: no run that exposes no further transaction takes a handle away from
  // a writer, if and only if no transaction is exposed now.
  lemma HandleCondition(s: State)
    requires Reachable(s)
    ensures (forall acts :: Legal(s, acts) && NoCrash(acts) && Careful(s, acts) ==> Alive(Exec(s, acts))) <==> Timely(s)
  {
    hide *;
    ReachableInv(s);
    if Timely(s) {
      forall acts | Legal(s, acts) && NoCrash(acts) && Careful(s, acts)
        ensures Alive(Exec(s, acts))
      {
        CarefulIsTimely(s, acts);
        TimelyRunIsSafe(s, acts);
        RunKeepsInv(s, acts);
        InvAlive(Exec(s, acts));
      }
    } else {
      var x := SomeExposed(s);
      var acts := LoseHandle(s, x);
      assert Legal(s, acts) && NoCrash(acts) && Careful(s, acts) && !Alive(Exec(s, acts));
    }
  }

  lemma InvAlive(s: State)
    requires Inv(s)
    ensures Alive(s)
  {
    hide Alive;
  }

  lemma SomeExposed(s: State) returns (x: nat)
    requires !Timely(s)
    ensures Exposed(s, x)
  {
    hide Exposed;
    x :| Exposed(s, x);
  }

  lemma {:induction false} CarefulIsTimely(s: State, acts: seq<Action>)
    requires Timely(s) && Careful(s, acts)
    ensures TimelyRun(s, acts)
    decreases |acts|
  {
    hide Apply, Exposed;
    if acts != [] {
      CarefulIsTimely(Apply(s, acts[0]), acts[1..]);
    }
  }

  // ---------- An exposed handle can always be lost ----------

  function IndexOf(q: seq<nat>, x: nat): nat {
    if q == [] || q[0] == x then 0 else 1 + IndexOf(q[1..], x)
  }

  lemma {:induction false} IndexAppend(q: seq<nat>, y: nat, x: nat)
    requires x in q
    ensures IndexOf(q + [y], x) == IndexOf(q, x)
    decreases |q|
  {
    if q[0] != x {
      IndexAppend(q[1..], y, x);
      assert (q + [y])[1..] == q[1..] + [y];
    }
  }

  // How far an exposed transaction is from being reclaimed: what is ahead of it on the pending
  // list, what the other writers and the distill thread still have to do, and whether the head of
  // the list waits for its group.
  ghost function Work(s: State, x: nat): nat {
    9 * IndexOf(s.pending, x) + Late(s) + WriterWork(s) + DistillWork(s)
  }

  ghost function Late(s: State): (r: nat)
    ensures r <= 1
  {
    if s.pending != [] && s.pending[0] in s.handles && s.handles[s.pending[0]].txg > s.commitTxg then 1 else 0
  }

  ghost function WriterWork(s: State): nat {
    6 * |s.started| + (if s.inflight.Some? then 5 else 0) + 4 * |s.flushed| + 2 * |s.returning|
  }

  ghost function DistillWork(s: State): nat {
    6 * |s.distillq|
    + (if s.distilling.None? then 0 else if s.distilling.value.seen.None? then 5 else 4)
    + (if s.spare.Some? then 2 else 0)
  }

  // The run in which everybody else goes on until the handle of x, or that of another writer, is
  // reclaimed under it.
  lemma {:induction false} LoseHandle(s: State, x: nat) returns (acts: seq<Action>)
    requires Inv(s) && Exposed(s, x)
    ensures Legal(s, acts) && NoCrash(acts) && Careful(s, acts) && !Alive(Exec(s, acts))
    decreases Work(s, x)
  {
    hide *;
    if Reclaimable(s) && !KeepsHandles(s, Reclaim) {
      ReclaimLoses(s);
      acts := [Reclaim];
    } else {
      var a := NextMove(s, x);
      StepKeepsInv(s, a);
      StaysExposed(s, a, x);
      var rest := LoseHandle(Apply(s, a), x);
      CarefulFront(s, a, rest);
      acts := [a] + rest;
    }
  }

  lemma ReclaimLoses(s: State)
    requires Inv(s) && Reclaimable(s) && !KeepsHandles(s, Reclaim)
    ensures Legal(s, [Reclaim]) && NoCrash([Reclaim]) && Careful(s, [Reclaim]) && !Alive(Exec(s, [Reclaim]))
  {
    hide RingInv, IdInv, LogInv, DiskInv, DistillInv, AttachInv, BufInv, WriterInv, Alive;
    ReclaimFacts(s);
    QuietCareful(s, Reclaim);
    var t, x := Apply(s, Reclaim), s.pending[0];
    assert [Reclaim][1..] == [] && Exec(s, [Reclaim]) == t;
    NotAlive(t, x);
  }

  lemma NotAlive(s: State, x: nat)
    requires Unfinished(s, x) && x !in s.handles
    ensures !Alive(s)
  {}

  lemma CarefulFront(s: State, a: Action, rest: seq<Action>)
    requires Enabled(s, a) && !a.Crash? && CarefulStep(s, a)
    requires Legal(Apply(s, a), rest) && NoCrash(rest) && Careful(Apply(s, a), rest)
    ensures var acts := [a] + rest;
      Legal(s, acts) && NoCrash(acts) && Careful(s, acts) && Exec(s, acts) == Exec(Apply(s, a), rest)
  {
    hide Apply, Enabled, CarefulStep;
    assert ([a] + rest)[1..] == rest;
  }

  // A transaction stays exposed until it is reclaimed or its writer returns.
  lemma StaysExposed(s: State, a: Action, x: nat)
    requires Inv(s) && Enabled(s, a) && KeepsHandles(s, a) && !a.Crash? && Exposed(s, x)
    requires a.Return? ==> a.xid != x
    ensures Exposed(Apply(s, a), x)
  {
    hide RingInv, IdInv, LogInv, DiskInv, QueueInv, HistoryInv, FlagInv, AttachInv, BufInv, WriterInv, Alive, Apply, Enabled,
         Unfinished, KeepsHandles;
    StaysUnfinished(s, a, x);
    StepMovesHandle(s, a, x);
    HandleStays(s, a, x);
  }

  lemma StaysUnfinished(s: State, a: Action, x: nat)
    requires Enabled(s, a) && !a.Crash? && Unfinished(s, x) && (a.Return? ==> a.xid != x)
    ensures Unfinished(Apply(s, a), x)
  {
    hide Apply, Enabled;
    match a
    case NextSlot(y, app, data) => ClaimKeeps(s, y, app, data, x);
    case Flush(slot) => FlushKeeps(s, slot, x);
    case HandOff(y, flag, into) => HandOffKeeps(s, y, flag, into, x);
    case Return(y, slot) => ReturnKeeps(s, y, slot, x);
    case _ => WritersKept(s, a);
  }

  lemma ClaimKeeps(s: State, y: nat, app: nat, data: seq<Byte>, x: nat)
    requires Enabled(s, NextSlot(y, app, data)) && Unfinished(s, x)
    ensures Unfinished(Apply(s, NextSlot(y, app, data)), x)
  {
    hide RecordOf;
  }

  lemma FlushKeeps(s: State, slot: int, x: nat)
    requires Unfinished(s, x)
    ensures Unfinished(Apply(s, Flush(slot)), x)
  {
    hide Written;
  }

  lemma HandOffKeeps(s: State, y: nat, flag: bool, into: nat, x: nat)
    requires Unfinished(s, x)
    ensures Unfinished(Apply(s, HandOff(y, flag, into)), x)
  {}

  lemma ReturnKeeps(s: State, y: nat, slot: int, x: nat)
    requires Unfinished(s, x) && y != x
    ensures Unfinished(Apply(s, Return(y, slot)), x)
  {}

  lemma WritersKept(s: State, a: Action)
    requires !a.NextSlot? && !a.Flush? && !a.HandOff? && !a.Return? && !a.Crash?
    ensures var t := Apply(s, a); t.inflight == s.inflight && t.flushed == s.flushed && t.returning == s.returning
  {
    hide Apply;
    if a.NewTrans? || a.TakeDistill? || a.DistillDone? || a.Reclaim? {
      ListsKeepWriters(s, a);
    } else {
      CountersKeepWriters(s, a);
    }
  }

  lemma ListsKeepWriters(s: State, a: Action)
    requires a.NewTrans? || a.TakeDistill? || a.DistillDone? || a.Reclaim?
    ensures var t := Apply(s, a); t.inflight == s.inflight && t.flushed == s.flushed && t.returning == s.returning
  {
    hide Enabled, NextXid, Recovered, DoReserve, DoUnreserve, DoNextSlot, DoFlush, DoHandOff, DoDistillRead, DoPutSpare, DoGetBuf;
  }

  lemma CountersKeepWriters(s: State, a: Action)
    requires !a.NextSlot? && !a.Flush? && !a.HandOff? && !a.Return? && !a.Crash?
    requires !a.NewTrans? && !a.TakeDistill? && !a.DistillDone? && !a.Reclaim?
    ensures var t := Apply(s, a); t.inflight == s.inflight && t.flushed == s.flushed && t.returning == s.returning
  {
    hide Apply;
    if a.GetBuf? {
      GetBufKeepsWriters(s);
    } else if a.PutBuf? || a.PutSpare? || a.DistillRead? {
      BufsKeepWriters(s, a);
    } else {
      SlotsKeepWriters(s, a);
    }
  }

  lemma GetBufKeepsWriters(s: State)
    ensures var t := Apply(s, GetBuf); t.inflight == s.inflight && t.flushed == s.flushed && t.returning == s.returning
  {
    hide Enabled;
    if s.bufs != [] {
      var t := DoGetBuf(s);
      assert t == s.(bufs := t.bufs, held := t.held);
    }
  }

  lemma BufsKeepWriters(s: State, a: Action)
    requires a.PutBuf? || a.PutSpare? || a.DistillRead?
    ensures var t := Apply(s, a); t.inflight == s.inflight && t.flushed == s.flushed && t.returning == s.returning
  {
    hide Enabled, NextXid, Recovered, DoReserve, DoUnreserve, DoNewTrans, DoNextSlot, DoFlush, DoHandOff, DoTakeDistill, DoDistillDone,
         DoReclaim, DoGetBuf;
  }

  lemma SlotsKeepWriters(s: State, a: Action)
    requires a.Request? || a.Reserve? || a.Unreserve? || a.SkipXid? || a.Publish? || a.Sync? || a.UpdateTxg?
    ensures var t := Apply(s, a); t.inflight == s.inflight && t.flushed == s.flushed && t.returning == s.returning
  {
    hide Enabled, NextXid, Recovered, DoNewTrans, DoNextSlot, DoFlush, DoHandOff, DoTakeDistill, DoDistillRead, DoDistillDone,
         DoPutSpare, DoReclaim, DoGetBuf;
  }

  lemma HandleStays(s: State, a: Action, x: nat)
    requires Inv(s) && Enabled(s, a) && KeepsHandles(s, a) && !a.Crash? && Unfinished(s, x) && x in s.handles
    requires !s.handles[x].distill
    ensures var t := Apply(s, a);
      x in t.handles && !t.handles[x].distill && t.handles[x].txg == s.handles[x].txg
  {
    hide RingInv, IdInv, LogInv, DiskInv, QueueInv, HistoryInv, FlagInv, AttachInv, BufInv, WriterInv, Alive, Enabled, Unfinished,
         DoNewTrans, NextXid, KeepsHandles, DoNextSlot, DoHandOff, DoTakeDistill, DoDistillDone;
    HandFlagged(s, x);
    match a
    case NewTrans(distill, txg, buf) => NewTransKeepsOthers(s, distill, txg, buf, x);
    case NextSlot(_, _, _) => ListKeepsUnflagged(s, a, x);
    case HandOff(_, _, _) => ListKeepsUnflagged(s, a, x);
    case TakeDistill => ListKeepsUnflagged(s, a, x);
    case DistillDone => ListKeepsUnflagged(s, a, x);
    case Reclaim => ReclaimKeepsUnfinished(s, x);
    case _ =>
  }

  lemma NewTransKeepsOthers(s: State, distill: bool, txg: nat, buf: nat, x: nat)
    requires IdInv(s) && Enabled(s, NewTrans(distill, txg, buf)) && x in s.handles
    ensures var t := DoNewTrans(s, distill, txg, buf); x in t.handles && t.handles[x] == s.handles[x]
  {
    hide IdInv, NextXid, Busy;
    NewXidFacts(s, NextXid(s.lastxid));
  }

  lemma ListKeepsUnflagged(s: State, a: Action, x: nat)
    requires a.NextSlot? || a.HandOff? || a.TakeDistill? || a.DistillDone?
    requires x in s.handles && !s.handles[x].distill && !InHand(s, x)
    ensures var t := Apply(s, a);
      x in t.handles && !t.handles[x].distill && t.handles[x].txg == s.handles[x].txg
  {
    hide RecordOf, Enabled, Written, Recovered, DoReserve, DoUnreserve, DoNewTrans, DoFlush, DoDistillRead, DoPutSpare, DoReclaim,
         DoGetBuf;
  }

  lemma ReclaimKeepsUnfinished(s: State, x: nat)
    requires KeepsHandles(s, Reclaim) && Unfinished(s, x) && x in s.handles
    ensures var t := Apply(s, Reclaim); x in t.handles && t.handles[x] == s.handles[x]
  {
    hide Unfinished;
  }

  // The next thing to do on the way.
  lemma NextMove(s: State, x: nat) returns (a: Action)
    requires Inv(s) && Exposed(s, x) && (Reclaimable(s) ==> KeepsHandles(s, Reclaim))
    ensures Enabled(s, a) && KeepsHandles(s, a) && !a.Crash? && CarefulStep(s, a)
    ensures (a.Return? ==> a.xid != x) && Work(Apply(s, a), x) < Work(s, x)
  {
    hide *;
    PendingWork(s, x);
    if s.inflight.Some? || (exists z <- s.flushed.Keys :: z != x) || (exists z <- s.returning :: z != x) {
      a := WriterMove(s, x);
    } else {
      OnlyUnfinished(s, x);
      if s.handles[s.pending[0]].distill {
        a := DistillMove(s, x);
      } else {
        a := HeadMove(s, x);
      }
    }
  }

  lemma PendingWork(s: State, x: nat)
    requires Inv(s) && Exposed(s, x)
    ensures x in s.pending && s.pending != [] && s.pending[0] in s.handles
  {
    hide LogInv, DiskInv, DistillInv, AttachInv, BufInv, WriterInv;
    UnfinishedFacts(s, x);
  }

  // Nobody but x is between its slot and its return.
  lemma OnlyUnfinished(s: State, x: nat)
    requires s.inflight.None? && !(exists z <- s.flushed.Keys :: z != x) && !(exists z <- s.returning :: z != x)
    ensures forall z :: Unfinished(s, z) ==> z == x
  {}

  // Another writer goes on, or x's writes its record.
  lemma WriterMove(s: State, x: nat) returns (a: Action)
    requires Inv(s) && Exposed(s, x) && x in s.pending && s.pending != []
    requires s.inflight.Some? || (exists z <- s.flushed.Keys :: z != x) || (exists z <- s.returning :: z != x)
    ensures Enabled(s, a) && KeepsHandles(s, a) && !a.Crash? && CarefulStep(s, a)
    ensures (a.Return? ==> a.xid != x) && Work(Apply(s, a), x) < Work(s, x)
  {
    hide RingInv, IdInv, LogInv, DiskInv, DistillInv, AttachInv, BufInv, WriterInv, CarefulStep, Work, Apply;
    if z :| z in s.returning && z != x {
      assert Unfinished(s, z);
      a := Return(z, s.handles[z].slot);
      ReturnWork(s, z, a.slot, x);
    } else if z :| z in s.flushed.Keys && z != x {
      assert Unfinished(s, z);
      a := HandOff(z, s.handles[z].distill, z);
      HandOffWork(s, z, a.flag, x);
    } else {
      assert Unfinished(s, s.inflight.value.xid);
      a := Flush(s.handles[s.inflight.value.xid].slot);
      FlushWork(s, a.slot, x);
    }
    ExposingSteps(s, a);
  }

  lemma ReturnWork(s: State, z: nat, slot: int, x: nat)
    requires z in s.returning
    ensures Work(Apply(s, Return(z, slot)), x) < Work(s, x)
  {
    assert |s.returning - {z}| == |s.returning| - 1;
  }

  lemma HandOffWork(s: State, z: nat, flag: bool, x: nat)
    requires Inv(s) && z in s.flushed
    ensures Work(Apply(s, HandOff(z, flag, z)), x) < Work(s, x)
  {
    hide RingInv, IdInv, LogInv, DiskInv, QueueInv, HistoryInv, FlagInv, AttachInv, BufInv, WriterInv, Alive, IndexOf, Late,
         WriterWork, DistillWork, Apply;
    FlushedFacts(s, z);
    HandOffMoves(s, z, flag);
  }

  lemma HandOffMoves(s: State, z: nat, flag: bool)
    requires z in s.flushed && z !in s.returning
    ensures var t := Apply(s, HandOff(z, flag, z));
      t.pending == s.pending && WriterWork(t) == WriterWork(s) - 2 && DistillWork(t) == DistillWork(s)
  {
    hide Enabled, Recovered, DoReserve, DoUnreserve, DoNewTrans, DoNextSlot, DoFlush, DoTakeDistill, DoDistillRead, DoDistillDone,
         DoPutSpare, DoReclaim, DoGetBuf;
    FewerFlushed(s.flushed, z);
    assert |s.returning + {z}| == |s.returning| + 1;
  }

  lemma FewerFlushed(m: map<nat, Write>, z: nat)
    requires z in m
    ensures |m - {z}| == |m| - 1
  {
    assert (m - {z}).Keys == m.Keys - {z};
    assert |(m - {z}).Keys| == |m.Keys| - 1;
  }

  lemma FlushWork(s: State, slot: int, x: nat)
    requires Inv(s) && s.inflight.Some?
    ensures Work(Apply(s, Flush(slot)), x) < Work(s, x)
  {
    hide RingInv, IdInv, LogInv, DiskInv, DistillInv, AttachInv, BufInv, WriterInv, Alive, IndexOf;
    InflightFacts(s);
    assert |s.flushed[s.inflight.value.xid := s.inflight.value]| == |s.flushed| + 1;
  }

  // The head of the pending list waits for its group, or goes.
  lemma HeadMove(s: State, x: nat) returns (a: Action)
    requires Inv(s) && Exposed(s, x) && x in s.pending && s.pending != [] && s.pending[0] in s.handles
    requires !s.handles[s.pending[0]].distill && (Reclaimable(s) ==> KeepsHandles(s, Reclaim))
    requires forall z :: Unfinished(s, z) ==> z == x
    ensures Enabled(s, a) && KeepsHandles(s, a) && !a.Crash? && CarefulStep(s, a)
    ensures !a.Return? && Work(Apply(s, a), x) < Work(s, x)
  {
    hide RingInv, IdInv, LogInv, DiskInv, DistillInv, AttachInv, BufInv, WriterInv, Alive, CarefulStep, IndexOf, Unfinished;
    var h := s.handles[s.pending[0]];
    if h.txg > s.commitTxg {
      a := Sync(h.txg);
      ExposingSteps(s, a);
    } else {
      a := Reclaim;
      ExposingSteps(s, a);
      ReclaimFacts(s);
      IndexDrops(s.pending, x);
    }
  }

  lemma IndexDrops(q: seq<nat>, x: nat)
    requires q != [] && q[0] != x
    ensures IndexOf(q[1..], x) == IndexOf(q, x) - 1
  {}

  // The distill thread goes on, or the writer it waits for.
  lemma DistillMove(s: State, x: nat) returns (a: Action)
    requires Inv(s) && Exposed(s, x) && x in s.pending && s.pending != [] && s.pending[0] in s.handles
    requires s.handles[s.pending[0]].distill && s.inflight.None?
    requires forall z :: Unfinished(s, z) ==> z == x
    ensures Enabled(s, a) && KeepsHandles(s, a) && !a.Crash? && CarefulStep(s, a)
    ensures !a.Return? && Work(Apply(s, a), x) < Work(s, x)
  {
    hide RingInv, IdInv, LogInv, DiskInv, QueueInv, HistoryInv, FlagInv, AttachInv, BufInv, WriterInv, Alive, CarefulStep, IndexOf,
         Unfinished, Work, Apply;
    HandFlagged(s, x);
    if s.spare.Some? {
      a := PutSpare;
      ThreadWork(s, a, x);
    } else if s.distilling.Some? {
      a := if s.distilling.value.seen.None? then DistillRead else DistillDone;
      HandFlagged(s, s.distilling.value.xid);
      ThreadWork(s, a, x);
    } else {
      QueueWaits(s, x);
      QueueHeadFacts(s);
      var q := s.distillq[0];
      if s.handles[q].written {
        a := TakeDistill;
        ThreadWork(s, a, x);
      } else {
        a := NextSlot(q, 0, []);
        NextSlotWork(s, q, x);
      }
    }
    ExposingSteps(s, a);
  }

  lemma ThreadWork(s: State, a: Action, x: nat)
    requires Inv(s) && Enabled(s, a) && (a.PutSpare? || a.DistillRead? || a.DistillDone? || a.TakeDistill?)
    requires s.pending != [] && s.pending[0] in s.handles
    ensures Work(Apply(s, a), x) < Work(s, x)
  {
    hide RingInv, IdInv, LogInv, DiskInv, QueueInv, HistoryInv, FlagInv, AttachInv, BufInv, WriterInv, Alive, IndexOf, Apply;
    HandFacts(s);
    if s.distillq != [] { QueueHeadFacts(s); }
    ThreadMoves(s, a);
  }

  lemma ThreadMoves(s: State, a: Action)
    requires Enabled(s, a) && (a.PutSpare? || a.DistillRead? || a.DistillDone? || a.TakeDistill?)
    requires s.distilling.Some? ==> s.distilling.value.xid in s.handles && s.spare.None?
    requires a.TakeDistill? ==> HasData(s, s.distillq[0])
    ensures var t := Apply(s, a);
      && t.pending == s.pending && WriterWork(t) == WriterWork(s)
      && DistillWork(t) < DistillWork(s) - (if a.DistillDone? then 1 else 0)
      && (!a.DistillDone? ==> Late(t) == Late(s))
  {}

  lemma HandFacts(s: State)
    requires QueueInv(s) && BufInv(s)
    ensures s.distilling.Some? ==> s.distilling.value.xid in s.handles && s.spare.None?
  {}

  lemma NextSlotWork(s: State, q: nat, x: nat)
    requires Inv(s) && Enabled(s, NextSlot(q, 0, [])) && x in s.pending && s.pending != [] && s.pending[0] in s.handles
    ensures Work(Apply(s, NextSlot(q, 0, [])), x) < Work(s, x)
  {
    hide RingInv, IdInv, LogInv, DiskInv, DistillInv, AttachInv, BufInv, WriterInv, Alive, IndexOf, RecordOf;
    StartedFacts(s, q);
    FewerStarted(s.started, q);
    IndexAppend(s.pending, q, x);
  }

  // A flagged transaction that the thread does not have in hand is queued, and the first in the
  // queue is written or waits for its slot, since nobody but x is in between.
  lemma QueueWaits(s: State, x: nat)
    requires QueueInv(s) && AttachInv(s) && s.inflight.None? && s.distilling.None?
    requires s.pending != [] && s.pending[0] in s.handles && s.handles[s.pending[0]].distill
    requires x in s.handles && !s.handles[x].distill && forall z :: Unfinished(s, z) ==> z == x
    ensures s.distillq != [] && s.distillq[0] in s.handles
    ensures s.handles[s.distillq[0]].written || s.distillq[0] in s.started
  {
    assert s.pending[0] in s.distillq;
    var q := s.distillq[0];
    assert q in s.distillq && Underway(s, q);
    assert q in s.flushed ==> Unfinished(s, q);
  }
}
