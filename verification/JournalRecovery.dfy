/**
 The recovery code: the scan over the slots in batches, and the replay loop. Both are proved to
 compute what JournalFormat says a recovery does.
 */
module JournalRecovery {
  import opened JournalFormat

  lemma {:induction false} KeepAppend(rs: seq<Record>, r: Record, c: Cursor)
    requires r.kind.Normal? && forall q <- rs :: q.kind.Normal?
    ensures forall q <- rs + [r] :: q.kind.Normal?
    ensures Keep(rs + [r], c) == Keep(rs, c) + if Needed(r, c) then [r] else []
    decreases |rs|
  {
    if rs == [] {
      assert [] + [r] == [r] && [r][1..] == [];
    } else {
      KeepAppend(rs[1..], r, c);
      assert (rs + [r])[1..] == rs[1..] + [r];
    }
  }

  lemma {:induction false} MaxXidAppend(rs: seq<Record>, r: Record)
    ensures MaxXid(rs + [r]) == if r.xid >= MaxXid(rs) then r.xid else MaxXid(rs)
    decreases |rs|
  {
    if rs == [] {
      assert [] + [r] == [r] && [r][1..] == [];
    } else {
      MaxXidAppend(rs[1..], r);
      assert (rs + [r])[1..] == rs[1..] + [r];
    }
  }

  lemma {:induction false} EventsAppend(rs: seq<Record>, r: Record, c: Cursor)
    ensures Events(rs + [r], c) == Events(rs, c) + EventsOf(r, c)
    decreases |rs|
  {
    if rs == [] {
      assert [] + [r] == [r] && [r][1..] == [];
    } else {
      EventsAppend(rs[1..], r, c);
      assert (rs + [r])[1..] == rs[1..] + [r];
    }
  }

  // Looking at one slot: a damaged slot is passed over, an entry adds to what was seen.
  lemma ScanStep(disk: seq<Record>, k: nat)
    requires k < |disk| && !IsFormat(disk[k])
    ensures Scanned(disk[k..]) == (if Intact(disk[k]) then [disk[k]] else []) + Scanned(disk[k + 1..])
    ensures Intact(disk[k]) ==> disk[k].kind.Normal?
  {
    hide Checksum;
    assert disk[k..][1..] == disk[k + 1..];
  }

  // What the scan has found out from the entries it has seen.
  ghost predicate Collected(seen: seq<Record>, c: Cursor, kept: seq<Record>, last: nat) {
    (forall r <- seen :: r.kind.Normal?) && kept == Keep(seen, c) && last == MaxXid(seen)
  }

  method NoteEntry(ghost seen: seq<Record>, r: Record, c: Cursor, kept: seq<Record>, last: nat)
    returns (kept': seq<Record>, last': nat)
    requires Collected(seen, c, kept, last) && r.kind.Normal?
    ensures Collected(seen + [r], c, kept', last')
  {
    KeepAppend(seen, r, c);
    MaxXidAppend(seen, r);
    kept', last' := kept, last;
    if r.xid >= last {
      last' := r.xid;
    }
    if r.xid <= c.replayXid {
      return;
    }
    if !r.kind.distill && r.txg <= c.commitTxg {
      return;
    }
    if r.kind.distill && r.txg <= c.commitTxg && r.xid <= c.distillXid {
      return;
    }
    kept' := kept + [r];
  }

  // Look at the slots of one batch. `done` is set when a formatted slot ends the scan.
  method ScanBatch(disk: seq<Record>, slot: nat, count: nat, c: Cursor,
                   ghost seen: seq<Record>, kept0: seq<Record>, last0: nat)
    returns (ghost seen': seq<Record>, kept: seq<Record>, last: nat, done: bool)
    requires slot + count <= |disk| && Collected(seen, c, kept0, last0)
    requires Scanned(disk) == seen + Scanned(disk[slot..])
    ensures Collected(seen', c, kept, last)
    ensures Scanned(disk) == seen' + (if done then [] else Scanned(disk[slot + count..]))
  {
    hide Collected, Scanned, Intact;
    seen', kept, last, done := seen, kept0, last0, false;
    var batch := disk[slot..slot + count];
    var i := 0;
    while i < count
      invariant 0 <= i <= count
      invariant Collected(seen', c, kept, last)
      invariant Scanned(disk) == seen' + Scanned(disk[slot + i..]) && !done
    {
      var r := batch[i];
      var ok := Examine(r);
      if ok && r.kind.Format? {
        ScanStops(disk, slot + i);
        done := true;
        return;
      }
      ScanStep(disk, slot + i);
      i := i + 1;
      if !ok {
        continue;
      }
      kept, last := NoteEntry(seen', r, c, kept, last);
      seen' := seen' + [r];
    }
  }

  // The magic number, then the checksum.
  method Examine(r: Record) returns (ok: bool)
    ensures ok <==> Intact(r)
  {
    hide Checksum;
    if r.magic != PJE_MAGIC {
      return false;
    }
    var chksum := ComputeChecksum(r);
    ok := r.chksum == chksum;
  }

  // Read the slots in batches of `count`, from the first to the last or to the first formatted
  // one.
  method ScanSlots(disk: seq<Record>, count: nat, c: Cursor) returns (kept: seq<Record>, last: nat)
    requires 0 < count && |disk| % count == 0
    ensures kept == ToReplay(disk, c) && last == LastXid(disk, c)
  {
    hide Keep, MaxXid, Scanned, Checksum, Needed, Sort, Times;
    kept, last := [], PJE_XID_NONE;
    ghost var seen: seq<Record> := [];
    var slot, done := 0, false;
    ghost var n, batches := |disk| / count, 0;
    NothingSeen(disk, c);
    WholeBatches(|disk|, count);
    while slot < |disk| && !done
      invariant 0 <= slot <= |disk| && slot == Times(batches, count)
      invariant Collected(seen, c, kept, last)
      invariant Scanned(disk) == seen + (if done then [] else Scanned(disk[slot..]))
      decreases |disk| - slot
    {
      NextBatch(batches, n, count);
      seen, kept, last, done := ScanBatch(disk, slot, count, c, seen, kept, last);
      slot := slot + count;
      batches := batches + 1;
    }
    if !done {
      ScanEnds(disk, slot);
    }
    if last < c.distillXid {
      last := c.distillXid;
    }
    kept := Sort(kept);
    assert Scanned(disk) == seen;
  }

  ghost function Times(n: nat, count: nat): nat {
    if n == 0 then 0 else Times(n - 1, count) + count
  }

  lemma {:induction false} TimesIsProduct(n: nat, count: nat)
    ensures Times(n, count) == n * count
  {
    if n > 0 {
      TimesIsProduct(n - 1, count);
      assert n * count == (n - 1) * count + count;
    }
  }

  lemma WholeBatches(total: nat, count: nat)
    requires 0 < count && total % count == 0
    ensures total == Times(total / count, count) && Times(0, count) == 0
  {
    TimesIsProduct(total / count, count);
  }

  lemma NextBatch(a: nat, n: nat, count: nat)
    requires Times(a, count) < Times(n, count)
    ensures Times(a + 1, count) == Times(a, count) + count <= Times(n, count)
  {
    if a < n {
      TimesGrows(a, n, count);
    } else {
      TimesGrows(n, a, count);
    }
  }

  lemma {:induction false} TimesGrows(a: nat, n: nat, count: nat)
    requires a <= n
    ensures Times(a, count) <= Times(n, count)
    ensures a < n ==> Times(a, count) + count <= Times(n, count)
    decreases n
  {
    if a < n {
      TimesGrows(a, n - 1, count);
    }
  }

  lemma NothingSeen(disk: seq<Record>, c: Cursor)
    ensures Collected([], c, [], PJE_XID_NONE) && disk[0..] == disk
  {}

  lemma ScanStops(disk: seq<Record>, k: nat)
    requires k < |disk| && IsFormat(disk[k])
    ensures Scanned(disk[k..]) == []
  {
    hide Checksum;
  }

  lemma ScanEnds(disk: seq<Record>, k: nat)
    requires k == |disk|
    ensures Scanned(disk[k..]) == []
  {}

  // Give the collected entries to the handlers. `events` records the calls made.
  method ReplayEntries(kept: seq<Record>, c: Cursor) returns (events: seq<Event>, replayXid: nat)
    ensures events == Events(kept, c) && replayXid == ReplayXidAfter(kept, c)
  {
    events, replayXid := [], c.replayXid;
    for i := 0 to |kept|
      invariant events == Events(kept[..i], c) && replayXid == ReplayXidAfter(kept[..i], c)
    {
      var r := kept[i];
      EventsAppend(kept[..i], r, c);
      assert kept[..i + 1] == kept[..i] + [r];
      if r.xid > c.distillXid {
        events := events + [Distill(r)];
      }
      if r.txg > c.commitTxg {
        events := events + [Replay(r)];
      }
      replayXid := r.xid;
    }
    assert kept[..|kept|] == kept;
  }

  // Recovery as a whole: which handler is called for which entry, once each and in order.
  method Recover(disk: seq<Record>, count: nat, c: Cursor) returns (events: seq<Event>, lastXid: nat, replayXid: nat)
    requires 0 < count && |disk| % count == 0
    ensures InXidOrder(events)
    ensures forall r :: Replay(r) in events <==> Found(disk, r) && OwedReplay(r, c)
    ensures forall r :: Distill(r) in events <==> Found(disk, r) && OwedDistill(r, c)
    ensures FormatSuffix(disk) && DistinctXids(disk) ==> InOrder(events)
    ensures forall e <- events :: e.rec.xid <= replayXid
    ensures if events == [] then replayXid == c.replayXid
            else replayXid > c.replayXid && exists e <- events :: e.rec.xid == replayXid
    ensures var next := c.(replayXid := replayXid); Events(ToReplay(disk, next), next) == []
    ensures (forall r :: Found(disk, r) ==> r.xid <= lastXid) && c.distillXid <= lastXid
    ensures lastXid == c.distillXid || exists r :: Found(disk, r) && r.xid == lastXid
    ensures lastXid == LastXid(disk, c) && replayXid == ReplayXidAfter(ToReplay(disk, c), c)
    ensures events == Events(ToReplay(disk, c), c)
  {
    hide ToReplay, Events, Intact, LastXid, FormatSuffix, DistinctXids, Found, OwedReplay, OwedDistill, InXidOrder, ReplayXidAfter;
    RecoveryOfAnyDisk(disk, c);
    ReplayCursorExactly(disk, c);
    LastXidOfAnyDisk(disk, c);
    var kept;
    kept, lastXid := ScanSlots(disk, count, c);
    events, replayXid := ReplayEntries(kept, c);
    if FormatSuffix(disk) && DistinctXids(disk) {
      RecoveryExact(disk, c);
    }
  }
}
