/**
 The running journal as a state machine. Every action is one region of code under the journal
 lock, the write lock or a transaction lock, or one read of a handle outside them, so a run is
 any interleaving of the writers, the distill thread, the callers that reserve and release slots,
 and crashes.

 A writer goes on using its transaction handle after the transaction is on the pending list. If
 the handle is reclaimed before, it may have become the handle of another transaction, and what
 the writer reads there is anything.
 */
module JournalSteps {
  import opened JournalFormat
  import opened Bytes
  import opened Optional

  const SLOT_ANY: int := -1
  const MAX_BUF: nat := 16384
  const XID_LIMIT: nat := 0x1_0000_0000_0000_0000

  // A journal buffer handed to the distill thread, with the record it holds.
  datatype Attached = Attached(buf: nat, rec: Record)

  // A transaction handle. The journal's two lists refer to handles by transaction ID.
  datatype Handle = Handle(
    xid: nat, txg: nat, distill: bool, written: bool, slot: int, data: Option<Attached>)

  // A record that a writer puts into the slot of its handle, from a buffer it holds.
  datatype Write = Write(xid: nat, rec: Record, buf: nat)

  // What the distill thread has in hand, and the group it has read for it after distilling.
  datatype Distilling = Distilling(xid: nat, item: Attached, seen: Option<nat>)

  datatype State = State(
    total: nat,
    disk: seq<Record>,
    // slots: in reserve, in use, and the part of the reserve no transaction has consumed
    resrv: nat, inuse: nat, open: nat, nextwrite: nat,
    // running totals, and reservations asked for but not granted
    totalReserve: nat, totalTrans: nat, asked: nat,
    lastxid: nat, distillXid: nat, replayXid: nat, commitTxg: nat, currentTxg: nat,
    handles: map<nat, Handle>,
    pending: seq<nat>,
    distillq: seq<nat>,
    // writers: ID assigned but no slot yet, with their buffers; the one holding the write lock;
    // written, hand-off open; handed off, about to return
    started: map<nat, nat>, inflight: Option<Write>, flushed: map<nat, Write>, returning: set<nat>,
    // the distill thread: its progress variable, the handle it has in hand, a buffer to put back
    thrXid: nat, distilling: Option<Distilling>, spare: Option<nat>,
    bufs: seq<nat>, held: set<nat>,
    // history since the last recovery
    logged: map<nat, Record>, issued: set<nat>, handled: seq<nat>, retired: nat)

  // The slot of Flush and Return, the flag of HandOff and the transaction it goes into are what
  // the writer finds in its handle.
  datatype Action =
    | Request(count: nat)
    | Reserve
    | Unreserve(unused: bool)
    | SkipXid
    | NewTrans(distill: bool, txg: nat, buf: nat)
    | NextSlot(xid: nat, app: nat, data: seq<Byte>)
    | Flush(slot: int)
    | HandOff(xid: nat, flag: bool, into: nat)
    | Return(xid: nat, slot: int)
    | TakeDistill
    | DistillRead
    | DistillDone
    | PutSpare
    | Publish
    | Sync(txg: nat)
    | Reclaim
    | UpdateTxg(txg: nat)
    | GetBuf
    | PutBuf(buf: nat)
    | Crash(found: Record, at: int, cursor: Cursor)

  // ---------- IDs and slots ----------

  // IDs are 64-bit and skip the invalid ID 0.
  function NextXid(x: nat): (y: nat) {
    var y := (x + 1) % XID_LIMIT;
    if y == PJE_XID_NONE then y + 1 else y
  }

  // IDs grow exactly until the counter wraps around.
  lemma NextXidGrows(x: nat)
    requires x < 0x1_0000_0000_0000_0000
    ensures NextXid(x) > x <==> x + 1 < 0x1_0000_0000_0000_0000
    ensures x + 1 < 0x1_0000_0000_0000_0000 ==> NextXid(x) == x + 1
    ensures x + 1 == 0x1_0000_0000_0000_0000 ==> NextXid(x) == 1
    ensures NextXid(x) != 0
  {}

  // Position i of the ring, for i one turn around zero.
  function Wrap(i: int, n: nat): int {
    if i < 0 then i + n else i
  }

  // The slot of the k-th pending transaction.
  function PendingSlot(s: State, k: nat): int {
    Wrap(s.nextwrite - s.inuse + k, s.total)
  }

  function Max(a: nat, b: nat): nat {
    if a < b then b else a
  }

  // ---------- Enabledness ----------

  predicate Enabled(s: State, a: Action) {
    match a
    case Request(_) => true
    case Reserve => s.asked > 0 && s.resrv + s.inuse < s.total
    case Unreserve(unused) => if unused then |s.started| < s.open else s.open < s.resrv
    case SkipXid => s.lastxid + 1 < XID_LIMIT
    case NewTrans(_, _, buf) =>
      |s.started| < s.open && s.lastxid + 1 < XID_LIMIT && buf in s.held && !Busy(s, buf)
    case NextSlot(xid, _, _) => xid in s.started && s.inflight.None?
    case Flush(slot) => s.inflight.Some? && Finds(s, s.inflight.value.xid, slot)
    case HandOff(xid, flag, into) =>
      xid in s.flushed && (xid in s.handles ==> flag == s.handles[xid].distill && into == xid)
    case Return(xid, slot) => xid in s.returning && Finds(s, xid, slot)
    case TakeDistill =>
      && s.distilling.None? && s.spare.None?
      && s.distillq != [] && s.distillq[0] in s.handles && s.handles[s.distillq[0]].written
    case DistillRead => s.distilling.Some? && s.distilling.value.seen.None?
    case DistillDone => s.distilling.Some? && s.distilling.value.seen.Some?
    case PutSpare => s.spare.Some?
    case Publish => true
    case Sync(txg) => s.commitTxg <= txg
    case Reclaim => Reclaimable(s)
    case UpdateTxg(_) => true
    case GetBuf => s.bufs != []
    case PutBuf(buf) => buf in s.held && !Busy(s, buf)
    case Crash(found, at, cursor) =>
      && cursor.distillXid < XID_LIMIT
      && (s.inflight.Some? ==>
            && Finds(s, s.inflight.value.xid, at)
            && (|| found == s.inflight.value.rec || !Intact(found)
                || (0 <= at < |s.disk| && found == s.disk[at])))
  }

  // What a writer finds as the slot in its handle: anything once the handle is gone.
  predicate Finds(s: State, x: nat, slot: int) {
    x in s.handles ==> slot == s.handles[x].slot
  }

  // A writer is using the buffer.
  predicate Busy(s: State, buf: nat) {
    || (exists x <- s.started.Keys :: s.started[x] == buf)
    || (s.inflight.Some? && s.inflight.value.buf == buf)
    || exists x <- s.flushed.Keys :: s.flushed[x].buf == buf
  }

  predicate Reclaimable(s: State) {
    s.pending != [] && s.pending[0] in s.handles
    && s.handles[s.pending[0]].txg <= s.commitTxg && !s.handles[s.pending[0]].distill
  }

  // ---------- The steps ----------

  function DoReserve(s: State): State
    requires s.asked > 0
  {
    s.(resrv := s.resrv + 1, open := s.open + 1, asked := s.asked - 1)
  }

  function DoUnreserve(s: State, unused: bool): State
    requires Enabled(s, Unreserve(unused)) && s.open <= s.resrv
  {
    s.(resrv := s.resrv - 1, open := if unused then s.open - 1 else s.open)
  }

  function DoNewTrans(s: State, distill: bool, txg: nat, buf: nat): State {
    var x := NextXid(s.lastxid);
    var h := Handle(x, if txg == 0 then s.currentTxg else txg, distill, false, SLOT_ANY, None);
    s.(totalTrans := s.totalTrans + 1, lastxid := x, handles := s.handles[x := h], started := s.started[x := buf],
       distillq := if distill then s.distillq + [x] else s.distillq,
       issued := if distill then s.issued + {x} else s.issued)
  }

  // The header that a transaction gives its record.
  function HeaderOf(h: Handle, app: nat, data: seq<Byte>): Record {
    Record(PJE_MAGIC, Normal(app, h.distill), h.xid, h.txg, 0, data)
  }

  function RecordOf(h: Handle, app: nat, data: seq<Byte>): Record {
    Sealed(HeaderOf(h, app, data))
  }

  function DoNextSlot(s: State, x: nat, app: nat, data: seq<Byte>): State
    requires x in s.handles && x in s.started && s.open > 0
  {
    s.(nextwrite := if s.nextwrite + 1 == s.total then 0 else s.nextwrite + 1,
       inuse := s.inuse + 1, open := s.open - 1, started := s.started - {x},
       handles := s.handles[x := s.handles[x].(slot := s.nextwrite)],
       pending := s.pending + [x],
       inflight := Some(Write(x, RecordOf(s.handles[x], app, data), s.started[x])))
  }

  // A slot outside the ring is written outside the ring.
  function Written(disk: seq<Record>, slot: int, rec: Record): (r: seq<Record>)
    ensures |r| == |disk|
  {
    if 0 <= slot < |disk| then disk[slot := rec] else disk
  }

  function DoFlush(s: State, slot: int): State
    requires s.inflight.Some?
  {
    var w := s.inflight.value;
    s.(disk := Written(s.disk, slot, w.rec), inflight := None,
       logged := s.logged[w.xid := w.rec], flushed := s.flushed[w.xid := w])
  }

  // The buffer is left in the handle that is found, whosever it is by then.
  function DoHandOff(s: State, x: nat, flag: bool, into: nat): State
    requires x in s.flushed
  {
    var w := s.flushed[x];
    var t := s.(flushed := s.flushed - {x}, returning := s.returning + {x});
    if flag then
      t.(handles :=
           if into in s.handles
           then s.handles[into := s.handles[into].(written := true, data := Some(Attached(w.buf, w.rec)))]
           else s.handles,
         held := s.held - {w.buf})
    else t
  }

  function DoTakeDistill(s: State): State
    requires s.distillq != [] && s.distillq[0] in s.handles && s.handles[s.distillq[0]].data.Some?
  {
    var x := s.distillq[0];
    s.(distillq := s.distillq[1..],
       handles := s.handles[x := s.handles[x].(written := false, data := None)],
       distilling := Some(Distilling(x, s.handles[x].data.value, None)),
       handled := s.handled + [x])
  }

  function DoDistillRead(s: State): State
    requires s.distilling.Some?
  {
    s.(distilling := Some(s.distilling.value.(seen := Some(s.currentTxg + 1))))
  }

  function DoDistillDone(s: State): State
    requires s.distilling.Some? && s.distilling.value.xid in s.handles && s.distilling.value.seen.Some?
  {
    var d := s.distilling.value;
    var h := s.handles[d.xid];
    s.(thrXid := d.xid,
       handles := s.handles[d.xid := h.(txg := Max(h.txg, d.seen.value), distill := false)],
       spare := Some(d.item.buf), distilling := None)
  }

  function DoPutSpare(s: State): State
    requires s.spare.Some?
  {
    s.(bufs := s.bufs + [s.spare.value], spare := None)
  }

  function DoReclaim(s: State): State
    requires Reclaimable(s) && s.inuse > 0
  {
    var x := s.pending[0];
    s.(pending := s.pending[1..], handles := s.handles - {x}, inuse := s.inuse - 1,
       retired := if x in s.logged && s.logged[x].kind.Normal? && s.logged[x].kind.distill
                  then Max(s.retired, x) else s.retired)
  }

  // The first buffer goes out; the last one takes its place.
  function DoGetBuf(s: State): State
    requires s.bufs != []
  {
    var n := |s.bufs|;
    s.(bufs := if n == 1 then [] else [s.bufs[n - 1]] + s.bufs[1..n - 1], held := s.held + {s.bufs[0]})
  }

  function DiskAfterCrash(s: State, found: Record, at: int): seq<Record> {
    if s.inflight.Some? then Written(s.disk, at, found) else s.disk
  }

  // The buffers allocated once replay is over.
  function Pool(): seq<nat> {
    seq(MAX_BUF, i => i)
  }

  // A journal just opened and replayed.
  function Recovered(disk: seq<Record>, c: Cursor): State {
    var last := LastXid(disk, c);
    State(|disk|, disk, 0, 0, 0, 0, 0, 0, 0,
          last, c.distillXid, ReplayXidAfter(ToReplay(disk, c), c), c.commitTxg, 0,
          map[], [], [], map[], None, map[], {}, c.distillXid, None, None,
          Pool(), {}, map[], {}, [], 0)
  }

  // Apply an action. Where an operation has a demand of its own, that demand follows from the
  // invariant, and the step is the identity outside it.
  function Apply(s: State, a: Action): State {
    match a
    case Request(count) => s.(totalReserve := s.totalReserve + count, asked := s.asked + count)
    case Reserve => if s.asked > 0 then DoReserve(s) else s
    case Unreserve(unused) => if Enabled(s, a) && s.open <= s.resrv then DoUnreserve(s, unused) else s
    case SkipXid => s.(lastxid := NextXid(s.lastxid))
    case NewTrans(distill, txg, buf) => DoNewTrans(s, distill, txg, buf)
    case NextSlot(x, app, data) =>
      if x in s.handles && x in s.started && s.open > 0 then DoNextSlot(s, x, app, data) else s
    case Flush(slot) => if s.inflight.Some? then DoFlush(s, slot) else s
    case HandOff(x, flag, into) => if x in s.flushed then DoHandOff(s, x, flag, into) else s
    case Return(x, _) => s.(returning := s.returning - {x})
    case TakeDistill =>
      if s.distillq != [] && s.distillq[0] in s.handles && s.handles[s.distillq[0]].data.Some?
      then DoTakeDistill(s) else s
    case DistillRead => if s.distilling.Some? then DoDistillRead(s) else s
    case DistillDone =>
      if s.distilling.Some? && s.distilling.value.xid in s.handles && s.distilling.value.seen.Some?
      then DoDistillDone(s) else s
    case PutSpare => if s.spare.Some? then DoPutSpare(s) else s
    case Publish => s.(distillXid := Max(s.distillXid, s.thrXid))
    case Sync(txg) => s.(commitTxg := txg)
    case Reclaim => if Reclaimable(s) && s.inuse > 0 then DoReclaim(s) else s
    case UpdateTxg(txg) => s.(currentTxg := txg)
    case GetBuf => if s.bufs != [] then DoGetBuf(s) else s
    case PutBuf(buf) => s.(bufs := s.bufs + [buf], held := s.held - {buf})
    case Crash(found, at, c) => Recovered(DiskAfterCrash(s, found, at), c)
  }

  // A crash leaves the disk as it is, but for the slot of a write in progress, which holds what is found
  // there.
  lemma CrashLeaves(s: State, found: Record, at: int, c: Cursor)
    ensures
      var t := Apply(s, Crash(found, at, c));
      && |t.disk| == |s.disk| && t.logged == map[] && t.pending == [] && t.handles == map[]
      && forall k :: 0 <= k < |s.disk| ==> t.disk[k] == if s.inflight.Some? && k == at then found else s.disk[k]
  {
    hide LastXid, ToReplay, ReplayXidAfter;
  }

  // ---------- The invariant ----------

  // A writer that has put its transaction on the pending list and not returned yet. It still
  // uses the handle.
  predicate Unfinished(s: State, x: nat) {
    (s.inflight.Some? && s.inflight.value.xid == x) || x in s.flushed || x in s.returning
  }

  // Every writer that still uses its handle has it.
  ghost predicate Alive(s: State) {
    forall x :: Unfinished(s, x) ==> x in s.handles
  }

  // A step that does not take a handle away from a writer.
  predicate KeepsHandles(s: State, a: Action) {
    a.Reclaim? && s.pending != [] ==> !Unfinished(s, s.pending[0])
  }

  // Slot accounting: the pending transactions occupy the consecutive ring positions that end
  // just before the next slot to write.
  ghost predicate RingInv(s: State) {
    && s.total > 0 && |s.disk| == s.total && s.nextwrite < s.total
    && |s.pending| == s.inuse && s.inuse + s.open <= s.total
    && |s.started| <= s.open <= s.resrv
    && s.totalTrans + s.open - |s.started| + s.asked <= s.totalReserve
    && (forall k :: 0 <= k < |s.pending| ==>
          s.pending[k] in s.handles && s.handles[s.pending[k]].slot == PendingSlot(s, k))
    && (s.inflight.Some? ==> s.pending != [] && s.pending[|s.pending| - 1] == s.inflight.value.xid)
  }

  // Which transactions have handles, and the order of IDs.
  ghost predicate IdInv(s: State) {
    && (forall x :: x in s.handles <==> x in s.started || x in s.pending)
    && (forall x :: x in s.handles ==> s.handles[x].xid == x && 0 < x <= s.lastxid)
    && (forall x :: x in s.started ==> x !in s.pending && x !in s.logged)
    && (forall x :: x in s.logged ==> x <= s.lastxid)
    && (forall x :: x in s.issued ==> x <= s.lastxid)
    && (s.inflight.Some? ==>
          && s.inflight.value.xid !in s.logged && s.inflight.value.xid !in s.started
          && s.inflight.value.xid <= s.lastxid)
    && (forall x :: x in s.flushed ==> x in s.logged && s.flushed[x].rec == s.logged[x] && s.flushed[x].xid == x)
    && (forall x :: x in s.returning ==> x in s.logged && x !in s.flushed)
    && s.thrXid <= s.lastxid && s.lastxid < XID_LIMIT
  }

  // The record of a transaction that has a slot.
  ghost predicate Recorded(h: Handle, r: Record) {
    IsEntry(r) && r.xid == h.xid && r.txg <= h.txg && (h.distill ==> r.kind.distill)
  }

  // A pending transaction has its record in its slot, unless that is the write in progress.
  ghost predicate PendingOk(s: State, x: nat) {
    && x in s.handles
    && if x in s.logged then
         && 0 <= s.handles[x].slot < |s.disk| && s.disk[s.handles[x].slot] == s.logged[x]
         && Recorded(s.handles[x], s.logged[x])
       else
         && s.inflight.Some? && s.inflight.value.xid == x && Recorded(s.handles[x], s.inflight.value.rec)
  }

  // A completed record that is no longer pending is committed and distilled.
  ghost predicate LoggedOk(s: State, x: nat)
    requires x in s.logged
  {
    IsEntry(s.logged[x]) && s.logged[x].xid == x && (x !in s.pending ==> Settled(s, s.logged[x]))
  }

  ghost predicate InflightOk(w: Write) {
    IsEntry(w.rec) && w.rec.xid == w.xid
  }

  ghost predicate LogInv(s: State) {
    && (forall x :: x in s.pending ==> PendingOk(s, x))
    && (forall x :: x in s.logged ==> LoggedOk(s, x))
    && (s.inflight.Some? ==> InflightOk(s.inflight.value))
  }

  // A record whose effects the file system already holds.
  ghost predicate Settled(s: State, r: Record) {
    r.kind.Normal? && r.txg <= s.commitTxg && (r.kind.distill ==> r.xid <= s.retired)
  }

  // The disk: formatted slots come last, entries have distinct IDs, all of them issued.
  ghost predicate DiskInv(s: State) {
    && FormatSuffix(s.disk) && DistinctXids(s.disk)
    && (forall j :: 0 <= j < |s.disk| && j < (if s.inflight.Some? then Wrap(s.nextwrite - 1, s.total) else s.nextwrite)
          ==> !IsFormat(s.disk[j]))
    && (forall j :: 0 <= j < |s.disk| && IsEntry(s.disk[j]) ==>
          && s.disk[j].xid <= s.lastxid && s.disk[j].xid !in s.started
          && (s.inflight.Some? ==> s.disk[j].xid != s.inflight.value.xid))
  }

  ghost predicate IncreasingIds(xs: seq<nat>) {
    forall i, j :: 0 <= i < j < |xs| ==> xs[i] < xs[j]
  }

  predicate InHand(s: State, x: nat) {
    s.distilling.Some? && s.distilling.value.xid == x
  }

  // The distill list: in order, ahead of the thread, and exactly the flagged transactions that
  // the thread does not have in hand.
  ghost predicate QueueInv(s: State) {
    && IncreasingIds(s.distillq)
    && s.distillXid <= s.thrXid && s.retired <= s.thrXid
    && (forall x :: x in s.distillq ==> s.thrXid < x <= s.lastxid && x in s.handles)
    && (s.distilling.Some? ==>
          && s.thrXid < s.distilling.value.xid && s.distilling.value.xid in s.handles
          && forall x :: x in s.distillq ==> s.distilling.value.xid < x)
    && (forall x :: x in s.handles ==> (s.handles[x].distill <==> x in s.distillq || InHand(s, x)))
  }

  // What has been issued for distillation has been handled or is still queued.
  ghost predicate HistoryInv(s: State) {
    && IncreasingIds(s.handled)
    && (forall x :: x in s.issued ==> x in s.handled || x in s.distillq)
    && (forall x :: x in s.handled ==> x in s.issued && (x <= s.thrXid || InHand(s, x)))
  }

  // The distill flag of a record agrees with what was issued.
  ghost predicate FlagInv(s: State) {
    && (forall x :: x in s.handles && s.handles[x].distill ==> x in s.issued)
    && (forall x :: x in s.started && x in s.handles ==> (s.handles[x].distill <==> x in s.issued))
    && (forall x :: x in s.logged ==> FlaggedAsIssued(s, x, s.logged[x]))
    && (s.inflight.Some? ==> FlaggedAsIssued(s, s.inflight.value.xid, s.inflight.value.rec))
  }

  ghost predicate FlaggedAsIssued(s: State, x: nat, r: Record) {
    r.kind.Normal? && (r.kind.distill <==> x in s.issued)
  }

  ghost predicate DistillInv(s: State) {
    QueueInv(s) && HistoryInv(s) && FlagInv(s)
  }

  // Where the writer of a transaction on the distill list is.
  ghost predicate Underway(s: State, x: nat) {
    || x in s.started || (s.inflight.Some? && s.inflight.value.xid == x) || x in s.flushed
    || (x in s.handles && s.handles[x].written)
  }

  // A buffer is attached exactly while its transaction waits, written, on the distill list.
  ghost predicate AttachInv(s: State) {
    && (forall x :: x in s.handles ==>
          (s.handles[x].written <==> s.handles[x].data.Some?)
          && (s.handles[x].written ==>
                && x in s.distillq && x in s.logged && x !in s.flushed
                && s.handles[x].data.value.rec == s.logged[x]))
    && (forall x :: x in s.flushed ==>
          && s.flushed[x].rec.kind.Normal?
          && (s.flushed[x].rec.kind.distill ==> x in s.distillq && x in s.handles && !s.handles[x].written))
    && (s.inflight.Some? && s.inflight.value.rec.kind.Normal? && s.inflight.value.rec.kind.distill ==>
          s.inflight.value.xid in s.distillq)
    && (forall x :: x in s.distillq ==> Underway(s, x))
    && (s.distilling.Some? ==>
          && s.distilling.value.xid in s.logged && s.distilling.value.item.rec == s.logged[s.distilling.value.xid]
          && s.distilling.value.xid !in s.flushed)
  }

  ghost predicate HasData(s: State, x: nat) {
    x in s.handles && s.handles[x].data.Some?
  }

  ghost function AttachedBufs(s: State): set<nat> {
    set x | x in s.handles && HasData(s, x) :: s.handles[x].data.value.buf
  }

  ghost function DistillBufs(s: State): set<nat> {
    if s.distilling.Some? then {s.distilling.value.item.buf}
    else if s.spare.Some? then {s.spare.value}
    else {}
  }

  ghost function Members(q: seq<nat>): set<nat> {
    set b | b in q
  }

  ghost function PoolBufs(): set<nat> {
    Members(Pool())
  }

  ghost function FreeBufs(s: State): set<nat> {
    Members(s.bufs)
  }

  ghost predicate NoRepeat(q: seq<nat>) {
    forall i, j :: 0 <= i < j < |q| ==> q[i] != q[j]
  }

  // Buffers: every one of the pool is free, held by a caller, attached to one handle or in the
  // hands of the distill thread, and only one of these.
  ghost predicate BufInv(s: State) {
    && (s.distilling.Some? ==> s.spare.None?)
    && NoRepeat(s.bufs)
    && (forall x, y :: HasData(s, x) && HasData(s, y) && x != y ==>
          s.handles[x].data.value.buf != s.handles[y].data.value.buf)
    && FreeBufs(s) !! s.held && FreeBufs(s) !! AttachedBufs(s) && FreeBufs(s) !! DistillBufs(s)
    && s.held !! AttachedBufs(s) && s.held !! DistillBufs(s) && AttachedBufs(s) !! DistillBufs(s)
    && FreeBufs(s) + s.held + AttachedBufs(s) + DistillBufs(s) == PoolBufs()
  }

  // A writer on its way to the hand-off, and the buffer it carries.
  predicate Carrier(s: State, x: nat) {
    x in s.started || (s.inflight.Some? && s.inflight.value.xid == x) || x in s.flushed
  }

  function Carried(s: State, x: nat): nat
    requires Carrier(s, x)
  {
    if x in s.started then s.started[x]
    else if s.inflight.Some? && s.inflight.value.xid == x then s.inflight.value.buf
    else s.flushed[x].buf
  }

  // Writers hold the buffers they write from, each its own.
  ghost predicate WriterInv(s: State) {
    && (forall x :: Carrier(s, x) ==> Carried(s, x) in s.held)
    && (forall x, y :: Carrier(s, x) && Carrier(s, y) && x != y ==> Carried(s, x) != Carried(s, y))
  }

  ghost predicate Inv(s: State) {
    && RingInv(s) && IdInv(s) && LogInv(s) && DiskInv(s) && DistillInv(s) && AttachInv(s) && BufInv(s) && WriterInv(s)
    && Alive(s)
  }
}
