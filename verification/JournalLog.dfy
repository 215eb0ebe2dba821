/**
 What is in the log is what was asked for. The payloads come from the actions of a run alone; the
 flags and groups from the way its transactions were begun.
 */
module JournalLog {
  import opened JournalFormat
  import opened JournalSteps
  import opened JournalSafety
  import opened JournalRuns
  import opened Bytes
  import opened Optional

  // ---------- What was asked for ----------

  // The application's type and data of an entry.
  datatype Payload = Payload(app: nat, data: seq<Byte>)

  // The write in progress and the completed ones, by transaction ID, since the last crash.
  datatype Writes = Writes(xid: nat, payload: Option<Payload>, done: map<nat, Payload>)

  const NO_WRITES := Writes(0, None, map[])

  function NoteWrite(w: Writes, a: Action): Writes {
    match a
    case NextSlot(x, app, data) => Writes(x, Some(Payload(app, data)), w.done)
    case Flush(_) => if w.payload.Some? then Writes(0, None, w.done[w.xid := w.payload.value]) else w
    case Crash(_, _, _) => NO_WRITES
    case _ => w
  }

  ghost function WritesAfter(w: Writes, acts: seq<Action>): Writes
    decreases |acts|
  {
    if acts == [] then w else WritesAfter(NoteWrite(w, acts[0]), acts[1..])
  }

  // The flag and the group of a transaction.
  datatype Begun = Begun(distill: bool, txg: nat)

  // A transaction takes the next ID. Without a group of its own it belongs to the current one.
  function NoteBegin(m: map<nat, Begun>, s: State, a: Action): map<nat, Begun> {
    match a
    case NewTrans(distill, txg, _) => m[s.lastxid + 1 := Begun(distill, if txg == 0 then s.currentTxg else txg)]
    case Crash(_, _, _) => map[]
    case _ => m
  }

  ghost function BegunAfter(m: map<nat, Begun>, s: State, acts: seq<Action>): map<nat, Begun>
    decreases |acts|
  {
    if acts == [] then m else BegunAfter(NoteBegin(m, s, acts[0]), Apply(s, acts[0]), acts[1..])
  }

  // The current group is the one noted last since the last crash.
  ghost function GroupAfter(g: nat, acts: seq<Action>): nat
    decreases |acts|
  {
    if acts == [] then g
    else GroupAfter(match acts[0] case UpdateTxg(txg) => txg case Crash(_, _, _) => 0 case _ => g, acts[1..])
  }

  // ---------- The log agrees ----------

  ghost predicate SameBegin(distill: bool, txg: nat, m: map<nat, Begun>, x: nat) {
    x in m && m[x] == Begun(distill, txg)
  }

  // A record with a payload, for a transaction begun as told.
  ghost predicate AsAsked(r: Record, x: nat, p: Payload, m: map<nat, Begun>) {
    && r.magic == 0x4567abcd && r.kind.Normal? && r.kind.app == p.app && r.data == p.data && r.xid == x
    && SameBegin(r.kind.distill, r.txg, m, x)
  }

  ghost predicate WritesAgree(s: State, w: Writes, m: map<nat, Begun>) {
    && (s.inflight.Some? <==> w.payload.Some?)
    && (s.inflight.Some? ==> s.inflight.value.xid == w.xid && AsAsked(s.inflight.value.rec, w.xid, w.payload.value, m))
    && s.logged.Keys == w.done.Keys
    && (forall x :: x in s.logged ==> x in w.done && AsAsked(s.logged[x], x, w.done[x], m))
  }

  ghost predicate BeginsAgree(s: State, m: map<nat, Begun>) {
    && (forall x :: x in m ==> x <= s.lastxid)
    && (forall x :: x in s.started ==> x in s.handles && SameBegin(s.handles[x].distill, s.handles[x].txg, m, x))
  }

  ghost predicate Agree(s: State, w: Writes, m: map<nat, Begun>) {
    WritesAgree(s, w, m) && BeginsAgree(s, m)
  }

  lemma StepAgrees(s: State, a: Action, w: Writes, m: map<nat, Begun>)
    requires Inv(s) && Enabled(s, a) && Agree(s, w, m)
    ensures Agree(Apply(s, a), NoteWrite(w, a), NoteBegin(m, s, a))
  {
    hide RingInv, IdInv, LogInv, DiskInv, QueueInv, HistoryInv, FlagInv, AttachInv, BufInv, WriterInv, Alive, Apply, Enabled, Agree,
         NoteWrite, NoteBegin;
    match a
    case NewTrans(distill, txg, buf) => BeginAgrees(s, distill, txg, buf, w, m);
    case NextSlot(x, app, data) => ClaimAgrees(s, x, app, data, w, m);
    case Flush(slot) => FlushAgrees(s, slot, w, m);
    case TakeDistill => TakeAgrees(s, w, m);
    case DistillDone => DoneAgrees(s, w, m);
    case HandOff(x, flag, into) => HandOffAgrees(s, x, flag, into, w, m);
    case Reclaim => ReclaimAgrees(s, w, m);
    case Crash(found, at, c) => CrashAgrees(s, found, at, c, w, m);
    case SkipXid => SkipAgrees(s, w, m);
    case _ => OtherAgrees(s, a, w, m);
  }

  // A step that leaves the log, the write in progress and the transactions without a slot alone.
  lemma SameLogAgrees(s: State, t: State, w: Writes, m: map<nat, Begun>)
    requires Agree(s, w, m) && t.inflight == s.inflight && t.logged == s.logged && t.lastxid >= s.lastxid
    requires t.started == s.started
    requires forall x :: x in s.started && x in s.handles ==>
      x in t.handles && t.handles[x].distill == s.handles[x].distill && t.handles[x].txg == s.handles[x].txg
    ensures Agree(t, w, m)
  {
    hide AsAsked;
  }

  lemma BeginAgrees(s: State, distill: bool, txg: nat, buf: nat, w: Writes, m: map<nat, Begun>)
    requires Inv(s) && Enabled(s, NewTrans(distill, txg, buf)) && Agree(s, w, m)
    ensures var a := NewTrans(distill, txg, buf); Agree(Apply(s, a), NoteWrite(w, a), NoteBegin(m, s, a))
  {
    hide RingInv, IdInv, LogInv, DiskInv, DistillInv, AttachInv, BufInv, WriterInv, Alive, NextXid, Busy, Agree;
    NewXidFacts(s, NextXid(s.lastxid));
    NextXidGrows(s.lastxid);
    BegunMore(s, Apply(s, NewTrans(distill, txg, buf)), w, m, s.lastxid + 1);
  }

  // One more transaction, begun and without a slot.
  lemma BegunMore(s: State, t: State, w: Writes, m: map<nat, Begun>, x: nat)
    requires Agree(s, w, m) && x == s.lastxid + 1 == t.lastxid && t.inflight == s.inflight && t.logged == s.logged
    requires x in t.handles && t.handles == s.handles[x := t.handles[x]] && x !in s.handles
    requires x in t.started && t.started == s.started[x := t.started[x]]
    ensures Agree(t, w, m[x := Begun(t.handles[x].distill, t.handles[x].txg)])
  {}

  lemma ClaimAgrees(s: State, x: nat, app: nat, data: seq<Byte>, w: Writes, m: map<nat, Begun>)
    requires Inv(s) && Enabled(s, NextSlot(x, app, data)) && Agree(s, w, m)
    ensures var a := NextSlot(x, app, data); Agree(Apply(s, a), NoteWrite(w, a), NoteBegin(m, s, a))
  {
    hide RingInv, IdInv, LogInv, DiskInv, DistillInv, AttachInv, BufInv, WriterInv, Alive, RecordOf, IsEntry;
    StartedFacts(s, x);
    SealedRecord(s.handles[x], app, data);
  }

  lemma FlushAgrees(s: State, slot: int, w: Writes, m: map<nat, Begun>)
    requires Enabled(s, Flush(slot)) && Agree(s, w, m)
    ensures Agree(Apply(s, Flush(slot)), NoteWrite(w, Flush(slot)), NoteBegin(m, s, Flush(slot)))
  {
    hide AsAsked, Written;
  }

  lemma TakeAgrees(s: State, w: Writes, m: map<nat, Begun>)
    requires Inv(s) && Enabled(s, TakeDistill) && Agree(s, w, m)
    ensures Agree(Apply(s, TakeDistill), NoteWrite(w, TakeDistill), NoteBegin(m, s, TakeDistill))
  {
    hide RingInv, IdInv, LogInv, DiskInv, QueueInv, HistoryInv, FlagInv, AttachInv, BufInv, WriterInv, Alive, Agree;
    SameLogAgrees(s, Apply(s, TakeDistill), w, m);
  }

  lemma DoneAgrees(s: State, w: Writes, m: map<nat, Begun>)
    requires Inv(s) && Enabled(s, DistillDone) && Agree(s, w, m)
    ensures Agree(Apply(s, DistillDone), NoteWrite(w, DistillDone), NoteBegin(m, s, DistillDone))
  {
    hide RingInv, IdInv, LogInv, DiskInv, QueueInv, HistoryInv, FlagInv, AttachInv, BufInv, WriterInv, Alive, Agree;
    InHandFacts(s);
    SameLogAgrees(s, Apply(s, DistillDone), w, m);
  }

  lemma HandOffAgrees(s: State, x: nat, flag: bool, into: nat, w: Writes, m: map<nat, Begun>)
    requires Agree(s, w, m)
    ensures var a := HandOff(x, flag, into); Agree(Apply(s, a), NoteWrite(w, a), NoteBegin(m, s, a))
  {
    hide Agree;
    SameLogAgrees(s, Apply(s, HandOff(x, flag, into)), w, m);
  }

  lemma ReclaimAgrees(s: State, w: Writes, m: map<nat, Begun>)
    requires Inv(s) && Enabled(s, Reclaim) && Agree(s, w, m)
    ensures Agree(Apply(s, Reclaim), NoteWrite(w, Reclaim), NoteBegin(m, s, Reclaim))
  {
    hide RingInv, LogInv, DiskInv, DistillInv, AttachInv, BufInv, WriterInv, Alive, Agree;
    assert s.pending[0] in s.pending;
    SameLogAgrees(s, Apply(s, Reclaim), w, m);
  }

  lemma CrashAgrees(s: State, found: Record, at: int, c: Cursor, w: Writes, m: map<nat, Begun>)
    ensures var a := Crash(found, at, c); Agree(Apply(s, a), NoteWrite(w, a), NoteBegin(m, s, a))
  {
    hide LastXid, ToReplay, Written;
  }

  lemma SkipAgrees(s: State, w: Writes, m: map<nat, Begun>)
    requires Inv(s) && Enabled(s, SkipXid) && Agree(s, w, m)
    ensures Agree(Apply(s, SkipXid), NoteWrite(w, SkipXid), NoteBegin(m, s, SkipXid))
  {
    hide Inv, NextXid, Agree;
    NextXidGrows(s.lastxid);
    SameLogAgrees(s, Apply(s, SkipXid), w, m);
  }

  lemma OtherAgrees(s: State, a: Action, w: Writes, m: map<nat, Begun>)
    requires Agree(s, w, m)
    requires !a.NewTrans? && !a.NextSlot? && !a.Flush? && !a.TakeDistill? && !a.DistillDone? && !a.HandOff?
    requires !a.Reclaim? && !a.Crash? && !a.SkipXid?
    ensures Agree(Apply(s, a), NoteWrite(w, a), NoteBegin(m, s, a))
  {
    hide Agree, Apply;
    OtherLeaves(s, a);
    SameLogAgrees(s, Apply(s, a), w, m);
  }

  ghost predicate SameLog(s: State, t: State) {
    && t.inflight == s.inflight && t.logged == s.logged && t.lastxid == s.lastxid
    && t.started == s.started && t.handles == s.handles
  }

  lemma OtherLeaves(s: State, a: Action)
    requires !a.NewTrans? && !a.NextSlot? && !a.Flush? && !a.TakeDistill? && !a.DistillDone? && !a.HandOff?
    requires !a.Reclaim? && !a.Crash? && !a.SkipXid?
    ensures SameLog(s, Apply(s, a))
  {
    hide Apply;
    match a
    case Request(_) => CountersLeave(s, a);
    case Reserve => CountersLeave(s, a);
    case Unreserve(_) => CountersLeave(s, a);
    case Return(_, _) => CountersLeave(s, a);
    case Publish => CursorsLeave(s, a);
    case Sync(_) => CursorsLeave(s, a);
    case UpdateTxg(_) => CursorsLeave(s, a);
    case _ => BuffersLeave(s, a);
  }

  lemma CountersLeave(s: State, a: Action)
    requires a.Request? || a.Reserve? || a.Unreserve? || a.Return?
    ensures SameLog(s, Apply(s, a))
  {
    hide Enabled;
  }

  lemma CursorsLeave(s: State, a: Action)
    requires a.Publish? || a.Sync? || a.UpdateTxg?
    ensures SameLog(s, Apply(s, a))
  {}

  lemma BuffersLeave(s: State, a: Action)
    requires a.DistillRead? || a.PutSpare? || a.GetBuf? || a.PutBuf?
    ensures SameLog(s, Apply(s, a))
  {}

  lemma {:induction false} RunAgrees(s: State, acts: seq<Action>, w: Writes, m: map<nat, Begun>)
    requires Inv(s) && Legal(s, acts) && SafeRun(s, acts) && Agree(s, w, m)
    ensures Agree(Exec(s, acts), WritesAfter(w, acts), BegunAfter(m, s, acts))
    decreases |acts|
  {
    hide Inv, Apply, Enabled, KeepsHandles, Agree, NoteWrite, NoteBegin;
    if acts != [] {
      StepKeepsInv(s, acts[0]);
      StepAgrees(s, acts[0], w, m);
      RunAgrees(Apply(s, acts[0]), acts[1..], NoteWrite(w, acts[0]), NoteBegin(m, s, acts[0]));
    }
  }

  // ---------- From a formatted journal on ----------

  // In every run: the log holds an entry for exactly the transactions whose write was claimed and
  // completed, with the type and data given, under its ID, and with the flag and group its
  // transaction was begun with.
  lemma LoggedAsAsked(s: State, acts: seq<Action>)
    requires Initial(s) && Legal(s, acts) && SafeRun(s, acts)
    ensures var t, w, m := Exec(s, acts), WritesAfter(NO_WRITES, acts), BegunAfter(map[], s, acts);
      && (forall x :: x in t.logged <==> x in w.done)
      && (forall x :: x in t.logged ==> IsEntry(t.logged[x]) && AsAsked(t.logged[x], x, w.done[x], m))
  {
    hide Inv, Initial, Legal, Exec, SafeRun, WritesAfter, BegunAfter, IsEntry, AsAsked;
    InitialInv(s);
    RunKeepsInv(s, acts);
    InitiallyAgrees(s);
    RunAgrees(s, acts, NO_WRITES, map[]);
    LoggedIntact(Exec(s, acts));
  }

  lemma InitiallyAgrees(s: State)
    requires Initial(s)
    ensures Agree(s, NO_WRITES, map[])
  {
    hide LastXid, ToReplay, FormattedDisk;
  }

  lemma LoggedIntact(s: State)
    requires Inv(s)
    ensures forall x :: x in s.logged ==> IsEntry(s.logged[x])
  {
    hide RingInv, IdInv, DiskInv, DistillInv, AttachInv, BufInv, WriterInv, Alive, IsEntry;
    assert forall x :: x in s.logged ==> LoggedOk(s, x);
  }

  // The current group is the one noted last.
  lemma {:induction false} CurrentGroup(s: State, acts: seq<Action>)
    requires Legal(s, acts)
    ensures Exec(s, acts).currentTxg == GroupAfter(s.currentTxg, acts)
    decreases |acts|
  {
    hide Apply, Enabled;
    if acts != [] {
      StepGroup(s, acts[0]);
      CurrentGroup(Apply(s, acts[0]), acts[1..]);
    }
  }

  lemma StepGroup(s: State, a: Action)
    ensures Apply(s, a).currentTxg == match a case UpdateTxg(txg) => txg case Crash(_, _, _) => 0 case _ => s.currentTxg
  {
    hide NextXid, RecordOf, Enabled, LastXid, ToReplay, Written;
  }

  // No completed write is lost. After a crash an entry with the data given, and the flag and group
  // of its transaction, goes to the handlers that the cursor leaves it to.
  lemma PayloadDelivered(s: State, acts: seq<Action>, found: Record, at: int, c: Cursor, x: nat)
    requires Initial(s) && Legal(s, acts) && SafeRun(s, acts)
    requires Enabled(Exec(s, acts), Crash(found, at, c)) && UpToDate(Exec(s, acts), c)
    requires x in WritesAfter(NO_WRITES, acts).done && x > c.replayXid
    ensures var t := Exec(s, acts); var es := Events(ToReplay(DiskAfterCrash(t, found, at), c), c);
      exists r :: AsAsked(r, x, WritesAfter(NO_WRITES, acts).done[x], BegunAfter(map[], s, acts))
        && (r.txg > c.commitTxg <==> Replay(r) in es)
        && (r.kind.distill && x > c.distillXid ==> Distill(r) in es)
  {
    hide Initial, Legal, Exec, SafeRun, WritesAfter, BegunAfter, AsAsked, Enabled, UpToDate, DiskAfterCrash, Events, ToReplay, IsEntry;
    LoggedAsAsked(s, acts);
    var t := Exec(s, acts);
    assert Reachable(t);
    NothingForgotten(t, found, at, c, x);
    assert AsAsked(t.logged[x], x, WritesAfter(NO_WRITES, acts).done[x], BegunAfter(map[], s, acts));
  }

  // What the distill thread gives to the handler is what was asked for.
  lemma DistilledAsAsked(s: State, acts: seq<Action>)
    requires Initial(s) && Legal(s, acts) && SafeRun(s, acts) && Exec(s, acts).distilling.Some?
    ensures var d, w := Exec(s, acts).distilling.value, WritesAfter(NO_WRITES, acts);
      d.xid in w.done && AsAsked(d.item.rec, d.xid, w.done[d.xid], BegunAfter(map[], s, acts))
  {
    hide Inv, Initial, Legal, Exec, SafeRun, WritesAfter, BegunAfter, AsAsked, IsEntry;
    LoggedAsAsked(s, acts);
    InitialInv(s);
    RunKeepsInv(s, acts);
    InHandLogged(Exec(s, acts));
  }

  // ---------- What is distilled ----------

  // The transactions begun for distillation since the last crash, in order.
  function NoteFlagged(q: seq<nat>, s: State, a: Action): seq<nat> {
    match a
    case NewTrans(distill, _, _) => if distill then q + [s.lastxid + 1] else q
    case Crash(_, _, _) => []
    case _ => q
  }

  ghost function FlaggedAfter(q: seq<nat>, s: State, acts: seq<Action>): seq<nat>
    decreases |acts|
  {
    if acts == [] then q else FlaggedAfter(NoteFlagged(q, s, acts[0]), Apply(s, acts[0]), acts[1..])
  }

  // How many the distill thread has taken since the last crash.
  function NoteTaken(n: nat, a: Action): nat {
    match a case TakeDistill => n + 1 case Crash(_, _, _) => 0 case _ => n
  }

  ghost function TakenAfter(n: nat, acts: seq<Action>): nat
    decreases |acts|
  {
    if acts == [] then n else TakenAfter(NoteTaken(n, acts[0]), acts[1..])
  }

  ghost predicate QueueIs(s: State, q: seq<nat>, n: nat) {
    s.handled + s.distillq == q && |s.handled| == n
  }

  lemma QueueStep(s: State, a: Action, q: seq<nat>, n: nat)
    requires Inv(s) && Enabled(s, a) && QueueIs(s, q, n)
    ensures QueueIs(Apply(s, a), NoteFlagged(q, s, a), NoteTaken(n, a))
  {
    hide Inv, Apply, Enabled, QueueIs, NextXid;
    match a
    case NewTrans(distill, txg, buf) => QueueBegin(s, distill, txg, buf, q, n);
    case TakeDistill => QueueTake(s, q, n);
    case Crash(found, at, c) => QueueCrash(s, found, at, c);
    case _ => QueueSame(s, a, q, n);
  }

  lemma QueueBegin(s: State, distill: bool, txg: nat, buf: nat, q: seq<nat>, n: nat)
    requires Inv(s) && Enabled(s, NewTrans(distill, txg, buf)) && QueueIs(s, q, n)
    ensures QueueIs(Apply(s, NewTrans(distill, txg, buf)), NoteFlagged(q, s, NewTrans(distill, txg, buf)), n)
  {
    hide Inv, NextXid, Busy;
    NextXidGrows(s.lastxid);
  }

  lemma QueueTake(s: State, q: seq<nat>, n: nat)
    requires Inv(s) && Enabled(s, TakeDistill) && QueueIs(s, q, n)
    ensures QueueIs(Apply(s, TakeDistill), q, n + 1)
  {
    hide RingInv, IdInv, LogInv, DiskInv, DistillInv, BufInv, WriterInv, Alive;
    var x := s.distillq[0];
    assert s.handles[x].data.Some?;
    assert s.distillq == [x] + s.distillq[1..];
  }

  lemma QueueCrash(s: State, found: Record, at: int, c: Cursor)
    ensures QueueIs(Apply(s, Crash(found, at, c)), [], 0)
  {
    hide LastXid, ToReplay, Written;
  }

  lemma QueueSame(s: State, a: Action, q: seq<nat>, n: nat)
    requires QueueIs(s, q, n) && !a.NewTrans? && !a.TakeDistill? && !a.Crash?
    ensures QueueIs(Apply(s, a), q, n)
  {
    hide QueueIs, Apply;
    QueueLeft(s, a);
    SameQueue(s, Apply(s, a), q, n);
  }

  lemma SameQueue(s: State, t: State, q: seq<nat>, n: nat)
    requires QueueIs(s, q, n) && t.handled == s.handled && t.distillq == s.distillq
    ensures QueueIs(t, q, n)
  {}

  lemma QueueLeft(s: State, a: Action)
    requires !a.NewTrans? && !a.TakeDistill? && !a.Crash?
    ensures Apply(s, a).handled == s.handled && Apply(s, a).distillq == s.distillq
  {
    hide Enabled, NextXid, RecordOf, Written, Reclaimable;
  }

  lemma {:induction false} RunQueue(s: State, acts: seq<Action>, q: seq<nat>, n: nat)
    requires Inv(s) && Legal(s, acts) && SafeRun(s, acts) && QueueIs(s, q, n)
    ensures QueueIs(Exec(s, acts), FlaggedAfter(q, s, acts), TakenAfter(n, acts))
    decreases |acts|
  {
    hide Inv, Apply, Enabled, KeepsHandles, QueueIs, NoteFlagged, NoteTaken;
    if acts != [] {
      StepKeepsInv(s, acts[0]);
      QueueStep(s, acts[0], q, n);
      RunQueue(Apply(s, acts[0]), acts[1..], NoteFlagged(q, s, acts[0]), NoteTaken(n, acts[0]));
    }
  }

  // In every run: what has been handled and what is queued are together the transactions begun for
  // distillation since the last crash, in the order they were begun, as many handled as were taken.
  lemma DistilledAsBegun(s: State, acts: seq<Action>)
    requires Initial(s) && Legal(s, acts) && SafeRun(s, acts)
    ensures var t := Exec(s, acts);
      t.handled + t.distillq == FlaggedAfter([], s, acts) && |t.handled| == TakenAfter(0, acts)
  {
    hide Inv, Legal, Exec, SafeRun, FlaggedAfter, TakenAfter;
    InitialInv(s);
    RunQueue(s, acts, [], 0);
  }

  lemma InHandLogged(s: State)
    requires Inv(s) && s.distilling.Some?
    ensures s.distilling.value.xid in s.logged && s.distilling.value.item.rec == s.logged[s.distilling.value.xid]
  {
    hide RingInv, IdInv, LogInv, DiskInv, DistillInv, BufInv, WriterInv, Alive;
  }
}
