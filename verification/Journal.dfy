/**
 The journal as the program keeps it: counters, two lists of transaction handles, a pool of
 buffers and the slots on disk, changed in place. Every method is one locked region, or the
 sequence of them that one caller runs, and is proved to take exactly the steps of the state
 machine in JournalSteps.
 */
module Journal {
  import opened JournalFormat
  import opened JournalSteps
  import opened JournalSafety
  import opened JournalRuns
  import opened JournalRecovery
  import opened Bytes
  import opened Optional

  // What a reservation attempt ends with.
  datatype Reservation = Granted | WaitForRelease | WaitForCommit(txg: nat) | WaitForDistill | Reclaimed

  class PscJournal {
    const total: nat
    var disk: seq<Record>
    var resrv: nat
    var inuse: nat
    var nextwrite: nat
    var totalReserve: nat
    var totalTrans: nat
    var lastxid: nat
    var distillXid: nat
    var replayXid: nat
    var commitTxg: nat
    var currentTxg: nat
    var handles: map<nat, Handle>
    var pending: seq<nat>
    var distillq: seq<nat>
    var bufs: seq<nat>
    var thrXid: nat
    // The state of the machine: the fields above, and what writers, callers and the distill
    // thread hold.
    ghost var st: State

    ghost predicate Valid()
      reads this
    {
      Inv(st) && Agrees()
    }

    ghost predicate Agrees()
      reads this
    {
      && total == st.total && disk == st.disk
      && resrv == st.resrv && inuse == st.inuse && nextwrite == st.nextwrite
      && totalReserve == st.totalReserve && totalTrans == st.totalTrans
      && lastxid == st.lastxid && distillXid == st.distillXid && replayXid == st.replayXid
      && commitTxg == st.commitTxg && currentTxg == st.currentTxg
      && handles == st.handles && pending == st.pending && distillq == st.distillq
      && bufs == st.bufs && thrXid == st.thrXid
    }

    // Open a journal: recover what is on disk, start at the first slot, allocate the buffers.
    constructor (slots: seq<Record>, readsize: nat, c: Cursor)
      requires 0 < readsize && |slots| % readsize == 0
      ensures Agrees() && st == Recovered(slots, c)
      ensures disk == slots && nextwrite == 0 && inuse == 0 && resrv == 0 && pending == [] && distillq == []
      ensures |bufs| == 16384
      ensures commitTxg == c.commitTxg && distillXid == c.distillXid && thrXid == c.distillXid && currentTxg == 0
      ensures Resumes(slots, c, lastxid, replayXid)
      ensures slots != [] && FormatSuffix(slots) && DistinctXids(slots) && LastXid(slots, c) < XID_LIMIT ==> Valid()
    {
      hide Inv, FormatSuffix, DistinctXids, LastXid, ToReplay, ReplayXidAfter, Resumes;
      var events, last, replayed := Recover(slots, readsize, c);
      RecoveryResumes(slots, c);
      if slots != [] && FormatSuffix(slots) && DistinctXids(slots) && LastXid(slots, c) < XID_LIMIT {
        RecoveredInv(slots, c);
      }
      total, disk := |slots|, slots;
      resrv, inuse, nextwrite, totalReserve, totalTrans := 0, 0, 0, 0, 0;
      lastxid, distillXid, replayXid, commitTxg, currentTxg := last, c.distillXid, replayed, c.commitTxg, 0;
      handles, pending, distillq, bufs, thrXid := map[], [], [], Pool(), c.distillXid;
      st := Recovered(slots, c);
    }

    // ---------- Reservations ----------

    // Ask for slots: the running total counts them at once.
    method Request(count: nat)
      requires Valid()
      modifies this
      ensures Valid() && st == Apply(old(st), JournalSteps.Request(count)) && totalReserve == old(totalReserve) + count
    {
      hide Inv;
      StepKeepsInv(st, JournalSteps.Request(count));
      totalReserve := totalReserve + count;
      st := Apply(st, JournalSteps.Request(count));
    }

    // One turn of the reservation loop.
    method TryReserve(synced: nat) returns (r: Reservation)
      requires Valid() && commitTxg <= synced && st.asked > 0
      requires var mid := Apply(st, Sync(synced)); Reclaimable(mid) ==> KeepsHandles(mid, Reclaim)
      modifies this
      ensures Valid()
      ensures match r
              case Granted => Enabled(old(st), Reserve) && st == Apply(old(st), Reserve)
              case Reclaimed =>
                var mid := Apply(old(st), Sync(synced)); Enabled(mid, Reclaim) && st == Apply(mid, Reclaim)
              case _ => st == Apply(old(st), Sync(synced)) && !Enabled(st, Reclaim)
      ensures r.Granted? <==> old(resrv + inuse < total)
      ensures resrv == if r.Granted? then old(resrv) + 1 else old(resrv)
      ensures r.WaitForRelease? ==> pending == []
      ensures r.WaitForCommit? ==> Blocked(st) && handles[pending[0]].txg == r.txg > commitTxg
      ensures r.WaitForDistill? ==> Blocked(st) && handles[pending[0]].distill
    {
      hide Inv, Apply, KeepsHandles;
      ReserveUnfolds(st, synced);
      if resrv + inuse < total {
        resrv := resrv + 1;
        st := Apply(st, Reserve);
        return Granted;
      }
      commitTxg := synced;
      st := Apply(st, Sync(synced));
      if pending == [] {
        return WaitForRelease;
      }
      PendingHead(st);
      var t := handles[pending[0]];
      assert t.slot < total;
      if t.txg > commitTxg {
        return WaitForCommit(t.txg);
      }
      if t.distill {
        return WaitForDistill;
      }
      ReclaimHead();
      r := Reclaimed;
    }

    // Take the transaction at the head of the pending list off, and destroy its handle, which no
    // writer uses.
    method ReclaimHead()
      requires Valid() && Reclaimable(st) && KeepsHandles(st, Reclaim)
      modifies this
      ensures Valid() && st == Apply(old(st), Reclaim)
      ensures commitTxg == old(commitTxg) && distillXid == old(distillXid) && resrv == old(resrv)
      ensures old(pending) != [] && pending == old(pending)[1..] && inuse == old(inuse) - 1
      ensures handles == old(handles) - {old(pending)[0]}
    {
      hide Inv, Apply, Reclaimable, KeepsHandles, Unfinished;
      ReclaimUnfolds(st);
      var x := pending[0];
      pending := pending[1..];
      // the handle goes back to its pool: off both lists, no data
      assert x !in pending && x !in distillq && handles[x].data == None && !Unfinished(st, x);
      handles := handles - {x};
      assert inuse > 0;
      inuse := inuse - 1;
      st := Apply(st, Reclaim);
    }

    // Give reservations back, `unused` of them not consumed by a transaction.
    method Unreserve(count: nat, ghost unused: nat)
      requires Valid() && unused <= count
      requires |st.started| + unused <= st.open && st.open + (count - unused) <= resrv
      modifies this
      ensures Valid()
      ensures Legal(old(st), Returns(count, unused)) && st == Exec(old(st), Returns(count, unused))
      ensures resrv == old(resrv) - count
    {
      hide Inv, Apply, Enabled, SafeRun;
      ReturnsUnfolds(st, count, unused);
      RunKeepsInv(st, Returns(count, unused));
      assert resrv >= count;
      resrv := resrv - count;
      st := Exec(st, Returns(count, unused));
    }

    // ---------- Writing ----------

    // Take an ID without beginning a transaction.
    method SkipXid() returns (x: nat)
      requires Valid() && Enabled(st, JournalSteps.SkipXid)
      modifies this
      ensures Valid() && st == Apply(old(st), JournalSteps.SkipXid) && x == lastxid > old(lastxid)
    {
      hide Inv, NextXid;
      SkipUnfolds(st);
      lastxid := NextXid(lastxid);
      x := lastxid;
      st := Apply(st, JournalSteps.SkipXid);
    }

    // Begin a transaction: a new ID, and a place on the distill list in order of IDs.
    method NewTrans(distill: bool, txg: nat, buf: nat) returns (x: nat)
      requires Valid() && Enabled(st, JournalSteps.NewTrans(distill, txg, buf))
      modifies this
      ensures Valid() && st == Apply(old(st), JournalSteps.NewTrans(distill, txg, buf))
      ensures x == NextXid(old(lastxid)) == old(lastxid) + 1 && x in st.started && st.started[x] == buf
      ensures handles == old(handles)[x := Handle(x, if txg == 0 then old(currentTxg) else txg, distill, false, -1, None)]
      ensures distillq == (if distill then old(distillq) + [x] else old(distillq)) && pending == old(pending)
    {
      hide Inv, Apply, Enabled, NextXid;
      NewTransUnfolds(st, distill, txg, buf);
      totalTrans := totalTrans + 1;
      assert totalTrans <= totalReserve;
      x := NextXid(lastxid);
      lastxid := x;
      if distill {
        distillq := distillq + [x];
      }
      handles := handles[x := Handle(x, if txg == 0 then currentTxg else txg, distill, false, SLOT_ANY, None)];
      st := Apply(st, JournalSteps.NewTrans(distill, txg, buf));
    }

    // Claim the next slot of the ring for a transaction and fill in the record header.
    method NextSlot(x: nat, app: nat, data: seq<Byte>, ghost buf: nat) returns (rec: Record)
      requires x in st.started && st.started[x] == buf
      requires Valid() && Enabled(st, JournalSteps.NextSlot(x, app, data))
      modifies this
      ensures x in handles && handles[x].slot == old(nextwrite)
      ensures nextwrite == (if old(nextwrite) + 1 == total then 0 else old(nextwrite) + 1)
      ensures pending == old(pending) + [x] && inuse == old(inuse) + 1
      ensures st.inflight == Some(Write(x, Sealed(rec), buf))
      ensures x in old(handles) && AsGiven(rec, old(handles[x]), app, data)
      ensures Valid() && st == Apply(old(st), JournalSteps.NextSlot(x, app, data))
    {
      hide Inv, Apply, Enabled, Sealed, HeaderOf, AsGiven;
      NextSlotUnfolds(st, x, app, data);
      HeaderAsGiven(handles[x], app, data);
      var slot, h := nextwrite, handles[x];
      assert pending != [] ==> handles[pending[0]].slot != slot;
      assert slot < total && resrv > 0;
      rec := HeaderOf(h, app, data);
      ghost var t := Apply(st, JournalSteps.NextSlot(x, app, data));
      nextwrite := if slot + 1 == total then 0 else slot + 1;
      inuse := inuse + 1;
      handles := handles[x := h.(slot := slot)];
      pending := pending + [x];
      st := t;
    }

    // Seal a record and put it into the slot its handle names.
    method WriteSlot(x: nat, rec: Record)
      requires Valid() && st.inflight.Some? && st.inflight.value.xid == x && st.inflight.value.rec == Sealed(rec)
      modifies this
      ensures Valid() && x in old(handles) && handles == old(handles)
      ensures var slot := handles[x].slot;
        && 0 <= slot < |disk| && Enabled(old(st), Flush(slot)) && st == Apply(old(st), Flush(slot))
        && disk == old(disk)[slot := Sealed(rec)] && x in st.flushed && st.flushed[x] == old(st).inflight.value
    {
      hide Inv, Apply, Checksum;
      FlushUnfolds(st);
      var slot := handles[x].slot;
      var chksum := ComputeChecksum(rec);
      disk := disk[slot := rec.(chksum := chksum)];
      st := Apply(st, Flush(slot));
    }

    // Leave a written record to the distill thread if its handle says so.
    method HandOff(x: nat, rec: Record, buf: nat)
      requires Valid() && x in st.flushed && st.flushed[x].rec == rec && st.flushed[x].buf == buf
      modifies this
      ensures Valid() && x in old(handles) && x in st.returning && x in handles
      ensures handles[x].slot == old(handles[x].slot) && disk == old(disk) && st.logged == old(st).logged
      ensures handles == old(handles)[x :=
        if old(handles[x].distill) then old(handles[x]).(written := true, data := Some(Attached(buf, rec))) else old(handles[x])]
      ensures var a := JournalSteps.HandOff(x, old(handles[x].distill), x); Enabled(old(st), a) && st == Apply(old(st), a)
    {
      hide Inv, Apply;
      HandOffUnfolds(st, x);
      var flag := handles[x].distill;
      if flag {
        handles := handles[x := handles[x].(written := true, data := Some(Attached(buf, rec)))];
      } else {
        assert handles[x].data == None;
      }
      st := Apply(st, JournalSteps.HandOff(x, flag, x));
    }

    // The slot that the caller is told.
    method ReturnSlot(x: nat) returns (slot: int)
      requires Valid() && x in st.returning
      modifies this`st
      ensures Valid() && x in handles && slot == handles[x].slot && st.logged == old(st).logged
      ensures Enabled(old(st), JournalSteps.Return(x, slot)) && st == Apply(old(st), JournalSteps.Return(x, slot))
    {
      hide Inv;
      ReturnUnfolds(st, x);
      slot := handles[x].slot;
      st := Apply(st, JournalSteps.Return(x, slot));
    }

    // Write a log entry for a transaction: claim a slot, put the record there, hand it off, return.
    method LogWrite(x: nat, app: nat, data: seq<Byte>, buf: nat) returns (slot: int)
      requires x in st.started && st.started[x] == buf
      requires Valid() && Enabled(st, JournalSteps.NextSlot(x, app, data))
      modifies this
      ensures slot == old(nextwrite) < |disk| && x in st.logged && disk[slot] == st.logged[x] && Valid()
      ensures x in old(handles) && Intact(disk[slot]) && AsGiven(disk[slot], old(handles[x]), app, data)
      ensures var acts := LogSteps(old(st), x, app, data); Legal(old(st), acts) && st == Exec(old(st), acts)
    {
      hide Inv, Apply, Enabled, Sealed, Intact, AsGiven;
      ghost var s0 := st;
      var rec := NextSlot(x, app, data, buf);
      ghost var s1 := st;
      FlushUnfolds(s1);
      SealedAsGiven(rec, old(handles[x]), app, data);
      WriteSlot(x, rec);
      ghost var s2 := st;
      FlushedIsLogged(s1, s2, x, old(nextwrite));
      HandOff(x, disk[handles[x].slot], buf);
      ghost var s3 := st;
      slot := ReturnSlot(x);
      LogStepsFit(s0, x, app, data, s1, s2, s3, st);
    }

    // Add a log entry: begin a transaction under a reservation and write its record.
    method AddEntry(txg: nat, app: nat, distill: bool, data: seq<Byte>, buf: nat) returns (slot: int)
      requires Valid() && Enabled(st, JournalSteps.NewTrans(distill, txg, buf)) && st.inflight == None
      modifies this
      ensures Valid() && slot == old(nextwrite) < |disk|
      ensures var x, a := NextXid(old(lastxid)), JournalSteps.NewTrans(distill, txg, buf);
        var acts := [a] + LogSteps(Apply(old(st), a), x, app, data);
        && Legal(old(st), acts) && st == Exec(old(st), acts)
        && x in st.logged && disk[slot] == st.logged[x]
      ensures Intact(disk[slot]) && disk[slot].magic == 0x4567abcd && disk[slot].data == data
      ensures disk[slot].kind == Normal(app, distill) && disk[slot].xid == old(lastxid) + 1
      ensures disk[slot].txg == if txg == 0 then old(currentTxg) else txg
    {
      hide Inv, Apply, Enabled, NextXid, Sealed, Intact, Legal, Exec, LogSteps;
      ghost var s := st;
      NewTransReady(s, distill, txg, app, data, buf);
      var x := NewTrans(distill, txg, buf);
      slot := LogWrite(x, app, data, buf);
      ghost var a := JournalSteps.NewTrans(distill, txg, buf);
      ExecCons(s, a, LogSteps(Apply(s, a), x, app, data));
    }

    // ---------- The distill thread ----------

    // Take the transaction at the head of the distill list, if it has been written, and process
    // it. The record given to the distill handler is returned.
    method DistillNext() returns (r: Option<Record>)
      requires Valid() && Resting(st)
      modifies this
      ensures Valid() && Resting(st)
      ensures r.Some? ==>
        && old(distillq) != [] && old(distillq)[0] in old(st).logged && r.value == old(st).logged[old(distillq)[0]]
        && Legal(old(st), Turn()) && st == Exec(old(st), Turn())
        && distillq == old(distillq)[1..] && st.logged == old(st).logged
        && var x := old(distillq)[0];
           && x in old(handles) && x in handles && thrXid == x && handles[x].txg > old(currentTxg)
           && handles[x] == old(handles[x]).(
                written := false, data := None, distill := false,
                txg := if old(handles[x].txg) > old(currentTxg) then old(handles[x].txg) else old(currentTxg) + 1)
      ensures r.None? ==> st == old(st) && !Enabled(st, TakeDistill) && distillq == old(distillq)
    {
      hide Inv, Apply, Exec, Legal, Enabled;
      ghost var s := st;
      DistillUnfolds(s);
      if distillq == [] {
        return None;
      }
      var x := distillq[0];
      var h := handles[x];
      assert h.distill;
      if !h.written {
        return None;
      }
      var item := h.data.value;
      distillq := distillq[1..];
      // the handler runs here, on item.rec
      var txg := currentTxg + 1;
      assert thrXid < x;
      thrXid := x;
      handles := handles[x := h.(written := false, data := None, txg := Max(h.txg, txg), distill := false)];
      bufs := bufs + [item.buf];
      st := Exec(s, Turn());
      r := Some(item.rec);
    }

    // Process the distill list up to the first transaction that is not written yet. The records
    // given to the handler are those at the front of the list, in their order.
    method DistillReady() returns (records: seq<Record>)
      requires Valid() && Resting(st)
      modifies this
      ensures Valid() && Resting(st) && !Enabled(st, TakeDistill)
      ensures |records| <= |old(distillq)| && distillq == old(distillq)[|records|..]
      ensures Legal(old(st), Passes(|records|)) && st == Exec(old(st), Passes(|records|))
      ensures forall i :: 0 <= i < |records| ==> IsEntry(records[i]) && records[i].xid == old(distillq)[i]
      ensures forall i :: 0 <= i < |records| ==>
        old(distillq)[i] in old(st).logged && records[i] == old(st).logged[old(distillq)[i]]
    {
      hide Inv, Apply, Exec, Legal, Enabled, IsEntry;
      ghost var s, q := st, distillq;
      records := [];
      var more := true;
      NoPasses(s);
      while more
        invariant Valid() && Resting(st) && |records| <= |q| && distillq == q[|records|..]
        invariant Legal(s, Passes(|records|)) && st == Exec(s, Passes(|records|))
        invariant forall i :: 0 <= i < |records| ==> IsEntry(records[i]) && records[i].xid == q[i]
        invariant st.logged == s.logged
        invariant forall i :: 0 <= i < |records| ==> q[i] in s.logged && records[i] == s.logged[q[i]]
        invariant !more ==> !Enabled(st, TakeDistill)
        decreases |distillq|, more
      {
        ghost var mid := st;
        var r := DistillNext();
        match r
        case None => more := false;
        case Some(rec) =>
          LoggedEntry(mid, mid.distillq[0]);
          OnePass(s, |records|);
          records := records + [rec];
      }
    }

    // Publish the distill progress, note what the file system has committed, and reclaim every
    // transaction at the head of the pending list that is committed and distilled.
    method PublishAndReclaim(synced: nat) returns (reclaimed: nat)
      requires Valid() && commitTxg <= synced && FreeToGo(Apply(st, Sync(synced)))
      modifies this
      ensures Valid() && !Enabled(st, Reclaim)
      ensures var acts := [Publish, Sync(synced)] + Repeat(Reclaim, reclaimed);
        Legal(old(st), acts) && st == Exec(old(st), acts)
      ensures distillXid == (if old(distillXid) < old(thrXid) then old(thrXid) else old(distillXid)) && commitTxg == synced
      ensures pending == [] || (pending[0] in handles && (handles[pending[0]].txg > synced || handles[pending[0]].distill))
    {
      hide Inv, Apply, Exec, Legal, FreeToGo, KeepsHandles;
      ghost var s := st;
      PublishUnfolds(s, synced);
      if distillXid < thrXid {
        distillXid := thrXid;
      }
      commitTxg := synced;
      st := Exec(s, [Publish, Sync(synced)]);
      ghost var acts := [Publish, Sync(synced)];
      reclaimed := 0;
      assert acts == [Publish, Sync(synced)] + Repeat(Reclaim, 0);
      ghost var published := distillXid;
      while pending != [] && handles[pending[0]].txg <= commitTxg && !handles[pending[0]].distill
        invariant Valid() && FreeToGo(st) && commitTxg == synced && distillXid == published
        invariant pending != [] ==> pending[0] in handles
        invariant acts == [Publish, Sync(synced)] + Repeat(Reclaim, reclaimed)
        invariant Legal(s, acts) && st == Exec(s, acts)
        decreases |pending|
      {
        ExecAppend(s, acts, Reclaim);
        HeadGoes(st);
        ReclaimHead();
        acts := acts + [Reclaim];
        reclaimed := reclaimed + 1;
        PendingHeadIf(st);
      }
    }

    // Note the transaction group that new transactions belong to.
    method UpdateTxg(txg: nat)
      requires Valid()
      modifies this
      ensures Valid() && st == Apply(old(st), JournalSteps.UpdateTxg(txg)) && currentTxg == txg
    {
      hide Inv;
      StepKeepsInv(st, JournalSteps.UpdateTxg(txg));
      currentTxg := txg;
      st := Apply(st, JournalSteps.UpdateTxg(txg));
    }

    // ---------- Buffers ----------

    method GetBuf() returns (buf: nat)
      requires Valid() && bufs != []
      modifies this
      ensures Valid() && st == Apply(old(st), JournalSteps.GetBuf) && buf in st.held && buf !in old(st).held
      ensures buf == old(bufs)[0] && multiset(bufs) == multiset(old(bufs)) - multiset{buf}
    {
      hide Inv, Apply;
      GetBufUnfolds(st);
      buf := bufs[0];
      var n := |bufs|;
      OneLess(bufs);
      bufs := if n == 1 then [] else [bufs[n - 1]] + bufs[1..n - 1];
      st := Apply(st, JournalSteps.GetBuf);
    }

    method PutBuf(buf: nat)
      requires Valid() && Enabled(st, JournalSteps.PutBuf(buf))
      modifies this
      ensures Valid() && st == Apply(old(st), JournalSteps.PutBuf(buf)) && bufs == old(bufs) + [buf]
    {
      hide Inv, Apply, Enabled;
      PutBufUnfolds(st, buf);
      bufs := bufs + [buf];
      st := Apply(st, JournalSteps.PutBuf(buf));
    }
  }

  // ---------- Steps in terms of fields ----------

  ghost predicate Blocked(s: State) {
    s.pending != [] && s.pending[0] in s.handles
  }

  lemma ReserveUnfolds(s: State, synced: nat)
    requires Inv(s) && s.commitTxg <= synced && s.asked > 0
    ensures Apply(s, Reserve) == DoReserve(s)
    ensures s.resrv + s.inuse < s.total ==> Inv(DoReserve(s))
    ensures Apply(s, Sync(synced)) == s.(commitTxg := synced)
    ensures Inv(s.(commitTxg := synced))
  {
    hide Inv;
    StepKeepsInv(s, Sync(synced));
    if s.resrv + s.inuse < s.total { StepKeepsInv(s, Reserve); }
  }

  lemma PendingHead(s: State)
    requires Inv(s) && s.pending != []
    ensures s.pending[0] in s.handles && 0 <= s.handles[s.pending[0]].slot < s.total
  {
    hide IdInv, LogInv, DiskInv, DistillInv, AttachInv, BufInv, WriterInv;
  }

  lemma ReclaimUnfolds(s: State)
    requires Inv(s) && Reclaimable(s) && KeepsHandles(s, Reclaim)
    ensures !Unfinished(s, s.pending[0])
    ensures s.inuse > 0 && Apply(s, Reclaim) == DoReclaim(s) && Inv(DoReclaim(s)) && s.pending != []
    ensures s.pending[0] in s.handles && s.pending[0] !in s.pending[1..] && s.pending[0] !in s.distillq
    ensures s.handles[s.pending[0]].data == None
  {
    hide RingInv, IdInv, LogInv, DiskInv, DistillInv, AttachInv, BufInv, WriterInv, Alive, Unfinished;
    ReclaimFacts(s);
    StepKeepsInv(s, Reclaim);
  }

  // The first k + 1 pending transactions are committed and need no distilling.
  ghost predicate Done(s: State, k: nat) {
    forall j :: 0 <= j <= k && j < |s.pending| ==>
      var x := s.pending[j]; x in s.handles && s.handles[x].txg <= s.commitTxg && !s.handles[x].distill
  }

  // What would be reclaimed now is used by no writer.
  ghost predicate FreeToGo(s: State) {
    forall k :: 0 <= k < |s.pending| && Done(s, k) ==> !Unfinished(s, s.pending[k])
  }

  lemma HeadGoes(s: State)
    requires Inv(s) && Reclaimable(s) && FreeToGo(s)
    ensures KeepsHandles(s, Reclaim) && FreeToGo(Apply(s, Reclaim))
  {
    hide RingInv, IdInv, LogInv, DiskInv, DistillInv, AttachInv, BufInv, WriterInv, Alive, Unfinished;
    assert Done(s, 0);
    ReclaimFacts(s);
    var t := Apply(s, Reclaim);
    SameUnfinished(s, t);
    forall k | 0 <= k < |t.pending| && Done(t, k)
      ensures !Unfinished(t, t.pending[k])
    {
      assert t.pending[k] == s.pending[k + 1];
      forall j | 0 <= j <= k + 1 && j < |s.pending|
        ensures s.pending[j] in s.handles && s.handles[s.pending[j]].txg <= s.commitTxg && !s.handles[s.pending[j]].distill
      {
        assert j > 0 ==> s.pending[j] == t.pending[j - 1];
      }
      assert Done(s, k + 1);
    }
  }

  lemma SameUnfinished(s: State, t: State)
    requires t.inflight == s.inflight && t.flushed == s.flushed && t.returning == s.returning
    ensures forall x :: Unfinished(t, x) <==> Unfinished(s, x)
  {}

  // The actions of giving `count` reservations back, the unused ones first.
  ghost function Returns(count: nat, unused: nat): (acts: seq<Action>)
    requires unused <= count
    ensures |acts| == count
  {
    seq(count, i => JournalSteps.Unreserve(i < unused))
  }

  lemma {:induction false} ReturnsUnfolds(s: State, count: nat, unused: nat)
    requires unused <= count
    requires |s.started| + unused <= s.open && s.open + (count - unused) <= s.resrv
    ensures Legal(s, Returns(count, unused)) && SafeRun(s, Returns(count, unused))
    ensures Exec(s, Returns(count, unused)) == s.(resrv := s.resrv - count, open := s.open - unused)
    decreases count
  {
    if count > 0 {
      var a := JournalSteps.Unreserve(0 < unused);
      var t := Apply(s, a);
      var rest := if unused > 0 then unused - 1 else 0;
      assert Returns(count, unused)[0] == a;
      assert Returns(count, unused)[1..] == Returns(count - 1, rest);
      ReturnsUnfolds(t, count - 1, rest);
    }
  }

  lemma SkipUnfolds(s: State)
    requires Inv(s) && Enabled(s, JournalSteps.SkipXid)
    ensures var t := Apply(s, JournalSteps.SkipXid);
      t == s.(lastxid := NextXid(s.lastxid)) && Inv(t) && NextXid(s.lastxid) > s.lastxid
  {
    hide Inv, NextXid;
    NextXidGrows(s.lastxid);
    StepKeepsInv(s, JournalSteps.SkipXid);
  }

  lemma NewTransUnfolds(s: State, distill: bool, txg: nat, buf: nat)
    requires Inv(s) && Enabled(s, JournalSteps.NewTrans(distill, txg, buf))
    ensures var t := DoNewTrans(s, distill, txg, buf);
      Apply(s, JournalSteps.NewTrans(distill, txg, buf)) == t && Inv(t) && t.totalTrans <= t.totalReserve
    ensures NextXid(s.lastxid) == s.lastxid + 1
  {
    hide Inv, NextXid;
    NextXidGrows(s.lastxid);
    StepKeepsInv(s, JournalSteps.NewTrans(distill, txg, buf));
    TransCovered(s);
  }

  // A record with the header fields of a transaction and what its caller gave for it.
  predicate AsGiven(r: Record, h: Handle, app: nat, data: seq<Byte>) {
    r.magic == 0x4567abcd && r.kind == Normal(app, h.distill) && r.xid == h.xid && r.txg == h.txg && r.data == data
  }

  lemma HeaderAsGiven(h: Handle, app: nat, data: seq<Byte>)
    ensures AsGiven(HeaderOf(h, app, data), h, app, data)
  {}

  lemma SealedAsGiven(r: Record, h: Handle, app: nat, data: seq<Byte>)
    requires AsGiven(r, h, app, data)
    ensures Intact(Sealed(r)) && AsGiven(Sealed(r), h, app, data)
  {
    hide Intact, Sealed;
    SealedIsIntact(r);
  }

  // A transaction just begun can be given its slot.
  lemma NewTransReady(s: State, distill: bool, txg: nat, app: nat, data: seq<Byte>, buf: nat)
    requires s.inflight == None
    ensures var t := Apply(s, JournalSteps.NewTrans(distill, txg, buf));
      && Enabled(t, JournalSteps.NextSlot(NextXid(s.lastxid), app, data)) && t.nextwrite == s.nextwrite
  {
    hide NextXid;
  }

  lemma ExecCons(s: State, a: Action, rest: seq<Action>)
    requires Enabled(s, a) && Legal(Apply(s, a), rest)
    ensures Legal(s, [a] + rest) && Exec(s, [a] + rest) == Exec(Apply(s, a), rest)
  {
    hide Apply, Enabled;
    assert ([a] + rest)[1..] == rest;
  }

  lemma TransCovered(s: State)
    requires Inv(s) && |s.started| < s.open
    ensures s.totalTrans + 1 <= s.totalReserve
  {
    hide IdInv, LogInv, DiskInv, DistillInv, AttachInv, BufInv, WriterInv;
  }

  lemma NextSlotUnfolds(s: State, x: nat, app: nat, data: seq<Byte>)
    requires Inv(s) && Enabled(s, JournalSteps.NextSlot(x, app, data))
    ensures x in s.handles && x in s.started && s.open > 0 && s.resrv > 0 && s.nextwrite < s.total
    ensures s.pending != [] ==> s.pending[0] in s.handles && s.handles[s.pending[0]].slot != s.nextwrite
    ensures var t, h := Apply(s, JournalSteps.NextSlot(x, app, data)), s.handles[x];
      && Inv(t)
      && t == s.(nextwrite := if s.nextwrite + 1 == s.total then 0 else s.nextwrite + 1,
                 inuse := s.inuse + 1, open := s.open - 1, started := s.started - {x}, pending := s.pending + [x],
                 handles := s.handles[x := h.(slot := s.nextwrite)],
                 inflight := Some(Write(x, Sealed(HeaderOf(h, app, data)), s.started[x])))
  {
    hide RingInv, IdInv, LogInv, DiskInv, DistillInv, AttachInv, BufInv, WriterInv, Alive, Sealed;
    StartedFacts(s, x);
    FreeSlot(s);
    StepKeepsInv(s, JournalSteps.NextSlot(x, app, data));
  }

  lemma FlushUnfolds(s: State)
    requires Inv(s) && s.inflight.Some?
    ensures s.inflight.value.xid in s.handles
    ensures var slot := s.handles[s.inflight.value.xid].slot;
      && 0 <= slot < |s.disk| && Enabled(s, Flush(slot)) && Apply(s, Flush(slot)) == DoFlush(s, slot)
      && DoFlush(s, slot).disk == s.disk[slot := s.inflight.value.rec] && Inv(DoFlush(s, slot))
  {
    hide RingInv, IdInv, LogInv, DiskInv, QueueInv, HistoryInv, FlagInv, AttachInv, BufInv, WriterInv, Alive;
    InflightFacts(s);
    StepKeepsInv(s, Flush(s.handles[s.inflight.value.xid].slot));
  }

  // After a write the log has the record that the slot holds.
  lemma FlushedIsLogged(s: State, t: State, x: nat, slot: int)
    requires s.inflight.Some? && s.inflight.value.xid == x && 0 <= slot < |s.disk| && t == Apply(s, Flush(slot))
    ensures x in t.flushed && x in t.logged && t.disk[slot] == t.logged[x] == t.flushed[x].rec
  {}

  lemma HandOffUnfolds(s: State, x: nat)
    requires Inv(s) && x in s.flushed
    ensures x in s.handles && (!s.handles[x].distill ==> s.handles[x].data == None)
    ensures var flag := s.handles[x].distill; var a := JournalSteps.HandOff(x, flag, x);
      && Enabled(s, a) && Apply(s, a) == DoHandOff(s, x, flag, x) && Inv(DoHandOff(s, x, flag, x))
  {
    hide RingInv, IdInv, LogInv, DiskInv, QueueInv, HistoryInv, FlagInv, AttachInv, BufInv, WriterInv, Alive;
    FlushedFacts(s, x);
    StepKeepsInv(s, JournalSteps.HandOff(x, s.handles[x].distill, x));
  }

  lemma ReturnUnfolds(s: State, x: nat)
    requires Inv(s) && x in s.returning
    ensures x in s.handles
    ensures var a := JournalSteps.Return(x, s.handles[x].slot);
      Enabled(s, a) && Apply(s, a) == s.(returning := s.returning - {x}) && Inv(Apply(s, a))
  {
    hide RingInv, IdInv, LogInv, DiskInv, DistillInv, AttachInv, BufInv, WriterInv;
    assert Unfinished(s, x);
    StepKeepsInv(s, JournalSteps.Return(x, s.handles[x].slot));
  }

  // The steps of writing a log entry, when nothing comes between them.
  ghost function LogSteps(s: State, x: nat, app: nat, data: seq<Byte>): seq<Action> {
    var slot, flag := s.nextwrite, x in s.handles && s.handles[x].distill;
    [JournalSteps.NextSlot(x, app, data), Flush(slot), JournalSteps.HandOff(x, flag, x), JournalSteps.Return(x, slot)]
  }

  lemma LogStepsFit(s: State, x: nat, app: nat, data: seq<Byte>, s1: State, s2: State, s3: State, s4: State)
    requires Inv(s) && Enabled(s, JournalSteps.NextSlot(x, app, data)) && s1 == Apply(s, JournalSteps.NextSlot(x, app, data))
    requires Enabled(s1, Flush(s.nextwrite)) && s2 == Apply(s1, Flush(s.nextwrite)) && x in s2.handles
    requires Enabled(s2, JournalSteps.HandOff(x, s2.handles[x].distill, x))
    requires s3 == Apply(s2, JournalSteps.HandOff(x, s2.handles[x].distill, x))
    requires Enabled(s3, JournalSteps.Return(x, s.nextwrite)) && s4 == Apply(s3, JournalSteps.Return(x, s.nextwrite))
    ensures Legal(s, LogSteps(s, x, app, data)) && Exec(s, LogSteps(s, x, app, data)) == s4
  {
    hide Inv, Apply, Enabled, Legal, Exec;
    SameFlag(s, x, app, data);
    var a, b := JournalSteps.NextSlot(x, app, data), Flush(s.nextwrite);
    var c, d := JournalSteps.HandOff(x, s2.handles[x].distill, x), JournalSteps.Return(x, s.nextwrite);
    TwoSteps(s, a, b);
    TwoSteps(s2, c, d);
    ExecConcat(s, [a, b], [c, d]);
    assert [a, b] + [c, d] == LogSteps(s, x, app, data);
  }

  // Claiming a slot and writing leave the flag alone.
  lemma SameFlag(s: State, x: nat, app: nat, data: seq<Byte>)
    requires Inv(s) && Enabled(s, JournalSteps.NextSlot(x, app, data))
    ensures var t := Apply(Apply(s, JournalSteps.NextSlot(x, app, data)), Flush(s.nextwrite));
      x in s.handles && x in t.handles && t.handles[x].distill == s.handles[x].distill
  {
    hide RingInv, IdInv, LogInv, DiskInv, DistillInv, AttachInv, BufInv, WriterInv, Alive, RecordOf;
    StartedFacts(s, x);
  }

  // The distill thread is between two transactions.
  ghost predicate Resting(s: State) {
    s.distilling == None && s.spare == None
  }

  // One turn of the distill thread.
  ghost function Turn(): seq<Action> {
    [TakeDistill, DistillRead, DistillDone, PutSpare]
  }

  lemma DistillUnfolds(s: State)
    requires Inv(s) && Resting(s)
    ensures s.distillq == [] ==> !Enabled(s, TakeDistill)
    ensures s.distillq != [] ==> var x := s.distillq[0];
      && x in s.handles && s.handles[x].distill && s.thrXid < x
      && (s.handles[x].written <==> Enabled(s, TakeDistill))
    ensures s.distillq != [] && s.handles[s.distillq[0]].written ==>
      var x, t := s.distillq[0], Exec(s, Turn());
      && Legal(s, Turn()) && Inv(t)
      && s.handles[x].data.Some? && x in s.logged && s.handles[x].data.value.rec == s.logged[x]
      && t.distillq == s.distillq[1..] && t.thrXid == x && t.bufs == s.bufs + [s.handles[x].data.value.buf]
      && t.handles == s.handles[x := s.handles[x].(
           written := false, data := None, txg := Max(s.handles[x].txg, s.currentTxg + 1), distill := false)]
      && t == s.(distillq := t.distillq, thrXid := t.thrXid, bufs := t.bufs, handles := t.handles, handled := t.handled)
  {
    hide RingInv, IdInv, LogInv, DiskInv, QueueInv, HistoryInv, FlagInv, AttachInv, BufInv, WriterInv, Alive, Exec, Legal, SafeRun;
    if s.distillq != [] {
      QueueHeadFacts(s);
      if s.handles[s.distillq[0]].written {
        AttachedRecord(s);
        TurnTaken(s);
        TurnIsSafe(s);
        RunKeepsInv(s, Turn());
      }
    }
  }

  lemma TurnTaken(s: State)
    requires Resting(s) && Enabled(s, TakeDistill) && HasData(s, s.distillq[0])
    ensures var x, t := s.distillq[0], Exec(s, Turn());
      && Legal(s, Turn())
      && t.distillq == s.distillq[1..] && t.thrXid == x && t.bufs == s.bufs + [s.handles[x].data.value.buf]
      && t.handles == s.handles[x := s.handles[x].(
           written := false, data := None, txg := Max(s.handles[x].txg, s.currentTxg + 1), distill := false)]
      && t == s.(distillq := t.distillq, thrXid := t.thrXid, bufs := t.bufs, handles := t.handles, handled := t.handled)
  {
    hide Exec, Legal, Apply;
    var s2 := TakenAndRead(s);
    var t := DoneAndPut(s2);
    TwoSteps(s, TakeDistill, DistillRead);
    TwoSteps(s2, DistillDone, PutSpare);
    ExecConcat(s, [TakeDistill, DistillRead], [DistillDone, PutSpare]);
    assert [TakeDistill, DistillRead] + [DistillDone, PutSpare] == Turn();
  }

  lemma TakenAndRead(s: State) returns (t: State)
    requires Enabled(s, TakeDistill) && HasData(s, s.distillq[0])
    ensures Enabled(Apply(s, TakeDistill), DistillRead) && t == Apply(Apply(s, TakeDistill), DistillRead)
    ensures var x := s.distillq[0];
      t == s.(distillq := s.distillq[1..], handled := s.handled + [x],
              handles := s.handles[x := s.handles[x].(written := false, data := None)],
              distilling := Some(Distilling(x, s.handles[x].data.value, Some(s.currentTxg + 1))))
  {
    t := Apply(Apply(s, TakeDistill), DistillRead);
  }

  lemma DoneAndPut(s: State) returns (t: State)
    requires Enabled(s, DistillDone) && s.distilling.value.xid in s.handles
    ensures Enabled(Apply(s, DistillDone), PutSpare) && t == Apply(Apply(s, DistillDone), PutSpare)
    ensures var d := s.distilling.value; var h := s.handles[d.xid];
      t == s.(thrXid := d.xid, handles := s.handles[d.xid := h.(txg := Max(h.txg, d.seen.value), distill := false)],
              bufs := s.bufs + [d.item.buf], distilling := None, spare := None)
  {
    t := Apply(Apply(s, DistillDone), PutSpare);
  }

  lemma TurnIsSafe(s: State)
    ensures SafeRun(s, Turn())
  {
    NothingReclaimed(s, Turn());
  }

  lemma {:induction false} NothingReclaimed(s: State, acts: seq<Action>)
    requires Reclaim !in acts
    ensures SafeRun(s, acts)
    decreases |acts|
  {
    hide Apply;
    if acts != [] {
      assert acts[0] in acts && forall a <- acts[1..] :: a in acts;
      NothingReclaimed(Apply(s, acts[0]), acts[1..]);
    }
  }

  lemma AttachedRecord(s: State)
    requires AttachInv(s) && s.distillq != [] && s.distillq[0] in s.handles && s.handles[s.distillq[0]].written
    ensures var x := s.distillq[0];
      s.handles[x].data.Some? && x in s.logged && s.handles[x].data.value.rec == s.logged[x]
  {}

  lemma PublishUnfolds(s: State, synced: nat)
    requires Inv(s) && s.commitTxg <= synced && FreeToGo(Apply(s, Sync(synced)))
    ensures var t := Exec(s, [Publish, Sync(synced)]);
      && Legal(s, [Publish, Sync(synced)]) && Inv(t) && FreeToGo(t)
      && t == s.(distillXid := Max(s.distillXid, s.thrXid), commitTxg := synced)
      && (t.pending != [] ==> t.pending[0] in t.handles)
  {
    hide Inv, FreeToGo;
    TwoSteps(s, Publish, Sync(synced));
    NothingReclaimed(s, [Publish, Sync(synced)]);
    RunKeepsInv(s, [Publish, Sync(synced)]);
    var t := Exec(s, [Publish, Sync(synced)]);
    PendingHeadIf(t);
    SameToGo(Apply(s, Sync(synced)), t);
  }

  lemma SameToGo(s: State, t: State)
    requires FreeToGo(s) && t.inflight == s.inflight && t.flushed == s.flushed && t.returning == s.returning
    requires t.handles == s.handles && t.commitTxg == s.commitTxg && t.pending == s.pending
    ensures FreeToGo(t)
  {
    hide Unfinished;
    SameUnfinished(s, t);
    assert forall k :: 0 <= k < |s.pending| && Done(t, k) ==> Done(s, k);
  }

  lemma PendingHeadIf(s: State)
    requires Inv(s)
    ensures s.pending != [] ==> s.pending[0] in s.handles
  {
    hide IdInv, LogInv, DiskInv, DistillInv, AttachInv, BufInv, WriterInv;
  }

  lemma GetBufUnfolds(s: State)
    requires Inv(s) && s.bufs != []
    ensures Apply(s, JournalSteps.GetBuf) == DoGetBuf(s) && Inv(DoGetBuf(s)) && s.bufs[0] !in s.held
  {
    hide RingInv, IdInv, LogInv, DiskInv, DistillInv, AttachInv, BufInv, WriterInv, Alive;
    StepKeepsInv(s, JournalSteps.GetBuf);
    FreeNotHeld(s);
  }

  lemma OneLess(q: seq<nat>)
    requires q != []
    ensures var n := |q|;
      multiset(if n == 1 then [] else [q[n - 1]] + q[1..n - 1]) == multiset(q) - multiset{q[0]}
  {
    var n := |q|;
    if n == 1 {
      assert q == [q[0]];
    } else {
      assert q == [q[0]] + q[1..n - 1] + [q[n - 1]];
    }
  }

  lemma FreeNotHeld(s: State)
    requires BufInv(s) && s.bufs != []
    ensures s.bufs[0] !in s.held
  {
    assert s.bufs[0] in FreeBufs(s);
  }

  lemma PutBufUnfolds(s: State, buf: nat)
    requires Inv(s) && Enabled(s, JournalSteps.PutBuf(buf))
    ensures var t := Apply(s, JournalSteps.PutBuf(buf));
      t == s.(bufs := s.bufs + [buf], held := s.held - {buf}) && Inv(t)
  {
    hide Inv;
    StepKeepsInv(s, JournalSteps.PutBuf(buf));
  }

  ghost function Repeat(a: Action, n: nat): (acts: seq<Action>)
    ensures |acts| == n
  {
    seq(n, _ => a)
  }

  // n turns of the distill thread.
  ghost function Passes(n: nat): (acts: seq<Action>)
    ensures |acts| == 4 * n
  {
    if n == 0 then [] else Passes(n - 1) + Turn()
  }

  lemma NoPasses(s: State)
    ensures Legal(s, Passes(0)) && Exec(s, Passes(0)) == s
  {}

  lemma OnePass(s: State, n: nat)
    requires Legal(s, Passes(n)) && Legal(Exec(s, Passes(n)), Turn())
    ensures Legal(s, Passes(n + 1))
    ensures Exec(s, Passes(n + 1)) == Exec(Exec(s, Passes(n)), Turn())
  {
    hide Apply, Enabled;
    ExecConcat(s, Passes(n), Turn());
  }

  lemma {:induction false} ExecConcat(s: State, a: seq<Action>, b: seq<Action>)
    requires Legal(s, a) && Legal(Exec(s, a), b)
    ensures Legal(s, a + b) && Exec(s, a + b) == Exec(Exec(s, a), b)
    decreases |a|
  {
    hide Apply, Enabled;
    if a == [] {
      assert a + b == b;
    } else {
      ExecConcat(Apply(s, a[0]), a[1..], b);
      assert (a + b)[1..] == a[1..] + b;
    }
  }

  lemma LoggedEntry(s: State, x: nat)
    requires Inv(s) && x in s.logged
    ensures IsEntry(s.logged[x]) && s.logged[x].xid == x
  {
    hide RingInv, IdInv, DiskInv, DistillInv, AttachInv, BufInv, WriterInv, IsEntry;
    assert LoggedOk(s, x);
  }
}
