/**
 The table as the program runs it: a file, a bitmap with a rover, and the operations on them.
 Every method takes exactly the steps of the state machine in OdtableRuns.
 */
module Odtable {
  import opened Bytes
  import opened Optional
  import opened Crc
  import opened OdtableFormat
  import opened OdtableRuns

  // ---------- The bitmap ----------

  function ByteCount(n: nat): nat {
    (n + 7) / 8
  }

  // Byte b of the bitmap has no unset bit.
  predicate Full(bits: seq<bool>, b: nat) {
    forall k :: 8 * b <= k < 8 * b + 8 && k < |bits| ==> bits[k]
  }

  // The byte `step` places after the rover, going around.
  function Around(pos: nat, step: nat, n: nat): nat {
    if pos + step < n then pos + step else pos + step - n
  }

  method LowestUnset(bits: seq<bool>, b: nat) returns (r: Option<nat>)
    ensures r.None? <==> Full(bits, b)
    ensures r.Some? ==>
      && 8 * b <= r.value < 8 * b + 8 && r.value < |bits| && !bits[r.value]
      && forall k :: 8 * b <= k < r.value ==> bits[k]
  {
    var k := 8 * b;
    while k < 8 * b + 8 && k < |bits|
      invariant 8 * b <= k <= 8 * b + 8
      invariant forall j :: 8 * b <= j < k && j < |bits| ==> bits[j]
    {
      if !bits[k] {
        return Some(k);
      }
      k := k + 1;
    }
    r := None;
  }

  // k is the lowest unset bit of the first byte that is not full, going around from byte `pos`.
  ghost predicate IsNext(bits: seq<bool>, pos: nat, k: nat) {
    && k < |bits| && !bits[k] && (forall j :: 8 * (k / 8) <= j < k ==> bits[j])
    && exists step :: 0 <= step < ByteCount(|bits|) && k / 8 == Around(pos, step, ByteCount(|bits|))
         && forall s :: 0 <= s < step ==> Full(bits, Around(pos, s, ByteCount(|bits|)))
  }

  // The next unset bit: the first byte that is not full, from the rover around, and in it the
  // lowest unset bit. The rover moves to that byte.
  method NextUnset(bits: seq<bool>, pos: nat) returns (r: Option<nat>, pos': nat)
    requires pos < ByteCount(|bits|)
    ensures pos' < ByteCount(|bits|)
    ensures r.None? ==> pos' == pos && forall k :: 0 <= k < |bits| ==> bits[k]
    ensures r.Some? ==> r.value < |bits| && pos' == r.value / 8 && IsNext(bits, pos, r.value)
  {
    var n := ByteCount(|bits|);
    pos' := pos;
    var step := 0;
    while step < n
      invariant 0 <= step <= n && pos' == pos
      invariant forall s :: 0 <= s < step ==> Full(bits, Around(pos, s, n))
    {
      r := LowestUnset(bits, Around(pos, step, n));
      if r.Some? {
        pos' := Around(pos, step, n);
        return;
      }
      step := step + 1;
    }
    r := None;
    forall k | 0 <= k < |bits|
      ensures bits[k]
    {
      var b := k / 8;
      var s := if b >= pos then b - pos else b + n - pos;
      assert Around(pos, s, n) == b;
      assert Full(bits, b);
    }
  }

  // ---------- Writing and checking ----------

  // Compute the footer of a slot and write it, with the item if there is one.
  method PutSlot(h: Header, file: seq<Byte>, i: nat, p: Option<seq<Byte>>, inuse: bool) returns (file': seq<Byte>)
    requires WellSized(h) && (p.Some? ==> |p.value| == h.itemsz) && (inuse ==> p.Some?)
    ensures file' == WriteSlot(h, file, i, p, FooterBytes(i, if inuse then p else None))
  {
    hide Pwrite, LittleEndian, WordBytes, Off, Update;
    var head := FooterHead(inuse, i);
    var crc := ONES;
    if inuse {
      crc := Add(crc, p.value);
      UpdateConcat(ONES, p.value, head);
    } else {
      assert [] + head == head;
    }
    crc := Add(crc, head);
    crc := Xor(crc, ONES);
    var ftr := head + WordBytes(crc);
    match p
    case Some(item) => file' := Pwrite(file, Off(h, i), item + ftr);
    case None => file' := Pwrite(file, Off(h, i) + h.itemsz, ftr);
  }

  // Make a new table: the header, then a free footer in every slot.
  method Create(h: Header) returns (file: seq<Byte>)
    requires WellSized(h)
    ensures Stored(h, file, map[])
  {
    hide Holds, HeaderBytes, FooterBytes, WriteSlot;
    file := HeaderBytes(h);
    assert file[..HDR_SIZE] == file;
    for i := 0 to h.nitems
      invariant |file| >= HDR_SIZE && file[..HDR_SIZE] == HeaderBytes(h)
      invariant forall j :: 0 <= j < i ==> Holds(h, file, j, None)
    {
      WriteKeepsHeader(h, file, i, None, FooterBytes(i, None));
      WriteHolds(h, file, i, None, None);
      forall j | 0 <= j < i
        ensures Holds(h, WriteSlot(h, file, i, None, FooterBytes(i, None)), j, None)
      {
        WriteElsewhere(h, file, i, None, FooterBytes(i, None), j, None);
      }
      file := PutSlot(h, file, i, None, false);
    }
  }

  method LoadTableHeader(file: seq<Byte>) returns (h: Option<Header>)
    ensures h == LoadHeader(file)
  {
    if |file| < HDR_SIZE {
      return None;
    }
    var crc := Calc(file[..24]);
    if WordFrom(file[24..32]) != crc {
      return None;
    }
    h := Some(Header(FromLittleEndian(file[0..4]), FromLittleEndian(file[4..8]), FromLittleEndian(file[8..12]),
                     FromLittleEndian(file[12..16]), FromLittleEndian(file[16..24])));
  }

  datatype Failure = FooterCheck(slot: nat) | CrcFailed(slot: nat)
  datatype Call = Call(slot: nat, item: seq<Byte>)
  datatype CheckResult = Passed(bits: seq<bool>, calls: seq<Call>) | Fatal(why: Failure)

  // The callbacks for the first n slots.
  function Calls(h: Header, file: seq<Byte>, n: nat): seq<Call>
    requires forall i :: 0 <= i < n ==> Present(h, file, i)
  {
    if n == 0 then []
    else
      var v := CheckSlot(h, file, n - 1);
      Calls(h, file, n - 1) + if v.Used? then [Call(n - 1, v.item)] else []
  }

  // Go over all slots: the first bad one is fatal, be it that its footer has another slot's number
  // or that its checksum is wrong; otherwise every slot in use gets its bit and its callback, in
  // order of slots.
  method Check(h: Header, file: seq<Byte>, bits0: seq<bool>) returns (r: CheckResult)
    requires |bits0| == h.nitems && forall i :: 0 <= i < h.nitems ==> Present(h, file, i)
    ensures r.Passed? ==>
      && |r.bits| == h.nitems && r.calls == Calls(h, file, h.nitems)
      && forall i :: 0 <= i < h.nitems ==>
           && !CheckSlot(h, file, i).BadFooter? && !CheckSlot(h, file, i).BadCrc?
           && (r.bits[i] <==> bits0[i] || CheckSlot(h, file, i).Used?)
    ensures r.Fatal? ==>
      && r.why.slot < h.nitems
      && CheckSlot(h, file, r.why.slot) == (if r.why.FooterCheck? then BadFooter else BadCrc)
      && forall i :: 0 <= i < r.why.slot ==> !CheckSlot(h, file, i).BadFooter? && !CheckSlot(h, file, i).BadCrc?
    ensures forall i :: 0 <= i < h.nitems ==>
      NamesAnother(h, file, i) || (h.options % 2 == 1 && SumDiffers(h, file, i)) ==> r.Fatal? && r.why.slot <= i
    ensures r.Fatal? ==>
      if r.why.FooterCheck? then NamesAnother(h, file, r.why.slot)
      else h.options % 2 == 1 && SumDiffers(h, file, r.why.slot)
  {
    hide CheckSlot, Present, NamesAnother, SumDiffers;
    forall i | 0 <= i < h.nitems
      ensures CheckSlot(h, file, i) == BadFooter <==> NamesAnother(h, file, i)
      ensures CheckSlot(h, file, i) == BadCrc <==>
        !NamesAnother(h, file, i) && h.options % 2 == 1 && SumDiffers(h, file, i)
    {
      BadSlotIs(h, file, i);
    }
    var bits := bits0;
    var calls: seq<Call> := [];
    for i := 0 to h.nitems
      invariant |bits| == h.nitems && calls == Calls(h, file, i)
      invariant forall j :: 0 <= j < i ==>
        && !CheckSlot(h, file, j).BadFooter? && !CheckSlot(h, file, j).BadCrc?
        && (bits[j] <==> bits0[j] || CheckSlot(h, file, j).Used?)
      invariant forall j :: i <= j < h.nitems ==> bits[j] == bits0[j]
    {
      var v := CheckOne(h, file, i);
      match v
      case BadFooter => return Fatal(FooterCheck(i));
      case BadCrc => return Fatal(CrcFailed(i));
      case Used(item) =>
        bits := bits[i := true];
        calls := calls + [Call(i, item)];
      case Unused =>
    }
    r := Passed(bits, calls);
  }

  // Read one slot and judge it.
  method CheckOne(h: Header, file: seq<Byte>, i: nat) returns (v: Verdict)
    requires Present(h, file, i)
    ensures v == CheckSlot(h, file, i)
  {
    hide Off, FromLittleEndian, WordFrom, Update;
    var item := ItemAt(h, file, i);
    var ftr := FooterAt(h, file, i);
    if FromLittleEndian(ftr[4..8]) != i {
      return BadFooter;
    }
    if CrcOn(h) {
      var crc := ONES;
      if MarkedInUse(ftr) {
        crc := Add(crc, item);
        UpdateConcat(ONES, item, ftr[..8]);
      } else {
        assert [] + ftr[..8] == ftr[..8];
      }
      crc := Add(crc, ftr[..8]);
      crc := Xor(crc, ONES);
      if crc != WordFrom(ftr[8..]) {
        return BadCrc;
      }
    }
    v := if MarkedInUse(ftr) then Used(item) else Unused;
  }

  // The callbacks of a stored table: one for each item, with its contents, in order of slots.
  lemma CallsExact(h: Header, file: seq<Byte>, m: map<nat, seq<Byte>>)
    requires Stored(h, file, m)
    ensures forall i :: 0 <= i < h.nitems ==> Present(h, file, i)
    ensures var cs := Calls(h, file, h.nitems);
      && (forall c :: c in cs <==> c.slot in m && m[c.slot] == c.item)
      && forall a, b :: 0 <= a < b < |cs| ==> cs[a].slot < cs[b].slot
  {
    hide Stored, CheckSlot, Present;
    StoredChecks(h, file, m);
    StoredKeys(h, file, m);
    CallsAre(h, file, m, h.nitems);
    Listed(m, h.nitems);
  }

  ghost function ListOf(m: map<nat, seq<Byte>>, n: nat): seq<Call> {
    if n == 0 then [] else ListOf(m, n - 1) + if n - 1 in m then [Call(n - 1, m[n - 1])] else []
  }

  lemma {:induction false} CallsAre(h: Header, file: seq<Byte>, m: map<nat, seq<Byte>>, n: nat)
    requires forall i :: 0 <= i < n ==> Present(h, file, i) && CheckSlot(h, file, i) == VerdictOf(Lookup(m, i))
    ensures Calls(h, file, n) == ListOf(m, n)
    decreases n
  {
    hide CheckSlot, Present;
    if n > 0 {
      CallsAre(h, file, m, n - 1);
    }
  }

  lemma {:induction false} Listed(m: map<nat, seq<Byte>>, n: nat)
    ensures forall c :: c in ListOf(m, n) <==> c.slot < n && c.slot in m && m[c.slot] == c.item
    ensures forall a, b :: 0 <= a < b < |ListOf(m, n)| ==> ListOf(m, n)[a].slot < ListOf(m, n)[b].slot
    decreases n
  {
    if n > 0 {
      Listed(m, n - 1);
      var cs := ListOf(m, n - 1);
      var tail := if n - 1 in m then [Call(n - 1, m[n - 1])] else [];
      var all := ListOf(m, n);
      assert all == cs + tail;
      forall a, b | 0 <= a < b < |all|
        ensures all[a].slot < all[b].slot
      {
        assert all[a] == cs[a] && cs[a] in cs;
        if b < |cs| {
          assert all[b] == cs[b] && cs[a].slot < cs[b].slot;
        } else {
          assert all[b] == tail[b - |cs|] && cs[a].slot < n - 1;
        }
      }
      forall c
        ensures c in cs + tail <==> c.slot < n && c.slot in m && m[c.slot] == c.item
      {
        assert c == Call(c.slot, c.item);
        assert c in cs + tail <==> c in cs || c in tail;
      }
    }
  }

  // ---------- The open table ----------

  ghost function SetBits(bits: seq<bool>): set<nat> {
    set k | 0 <= k < |bits| && bits[k]
  }

  class Odt {
    const h: Header
    var file: seq<Byte>
    var bits: seq<bool>
    var pos: nat
    ghost var st: Table

    ghost predicate Valid()
      reads this
    {
      && Inv(st) && h == st.h && file == st.file
      && |bits| == h.nitems && SetBits(bits) == st.bits && pos < ByteCount(|bits|)
    }

    // Load a table and check it.
    constructor (file0: seq<Byte>, ghost hdr: Header, ghost m: map<nat, seq<Byte>>)
      requires Stored(hdr, file0, m) && 0 !in m
      ensures Valid() && st == Table(hdr, file0, {0} + m.Keys, m.Keys, {}, m)
    {
      hide Stored, CheckSlot, Present, LoadHeader;
      StoredChecks(hdr, file0, m);
      StoredKeys(hdr, file0, m);
      var hd := LoadTableHeader(file0);
      var n := hd.value.nitems;
      var bits0 := seq(n, k => k == 0);
      var r := Check(hd.value, file0, bits0);
      h := hd.value;
      file := file0;
      bits := r.bits;
      pos := 0;
      st := Table(hdr, file0, {0} + m.Keys, m.Keys, {}, m);
      new;
      assert SetBits(bits) == {0} + m.Keys;
    }

    method AllocSlot() returns (r: Option<nat>)
      requires Valid()
      modifies this
      ensures Valid()
      ensures r.Some? ==> Enabled(old(st), Alloc(r.value)) && st == Apply(old(st), Alloc(r.value))
      ensures r.Some? ==> IsNext(old(bits), old(pos), r.value) && bits == old(bits)[r.value := true] && pos == r.value / 8
      ensures r.None? ==> st == old(st) && forall i :: 0 <= i < h.nitems ==> i in st.bits
    {
      hide Inv, Full, Around, ByteCount;
      r, pos := NextUnset(bits, pos);
      if r.Some? {
        assert r.value !in SetBits(bits);
        StepKeepsInv(st, Alloc(r.value));
        ghost var before := SetBits(bits);
        bits := bits[r.value := true];
        assert SetBits(bits) == before + {r.value};
        st := Apply(st, Alloc(r.value));
      } else {
        assert forall i :: 0 <= i < h.nitems ==> i in SetBits(bits);
      }
    }

    method PutItem(i: nat, p: Option<seq<Byte>>, inuse: bool)
      requires Valid() && Enabled(st, Put(i, p, inuse))
      modifies this
      ensures Valid() && st == Apply(old(st), Put(i, p, inuse))
      ensures Lookup(st.stored, i) == (if inuse then p else None) && bits == old(bits)
    {
      hide Stored, WriteSlot, FooterBytes;
      StoredKeys(st.h, st.file, st.stored);
      WellSizedOf(st);
      StepKeepsInv(st, Put(i, p, inuse));
      file := PutSlot(h, file, i, p, inuse);
      st := Apply(st, Put(i, p, inuse));
    }

    method ReplaceItem(i: nat, p: seq<Byte>)
      requires Valid() && Enabled(st, Put(i, Some(p), true))
      modifies this
      ensures Valid() && st == Apply(old(st), Put(i, Some(p), true))
      ensures Lookup(st.stored, i) == Some(p)
    {
      hide Inv, WriteSlot, FooterBytes;
      PutItem(i, Some(p), true);
    }

    method FreeItem(i: nat)
      requires Valid() && i in st.owned
      modifies this
      ensures Valid() && Legal(old(st), [FreeWrite(i), FreeUnset(i)])
      ensures st == Exec(old(st), [FreeWrite(i), FreeUnset(i)])
      ensures Lookup(st.stored, i) == None && |bits| == |old(bits)| && i < |bits| && bits == old(bits)[i := false]
    {
      hide Stored, WriteSlot, FooterBytes;
      ghost var s0 := st;
      ghost var s1 := Apply(s0, FreeWrite(i));
      WellSizedOf(s0);
      StepKeepsInv(s0, FreeWrite(i));
      StepKeepsInv(s1, FreeUnset(i));
      file := PutSlot(h, file, i, None, false);
      ghost var before := SetBits(bits);
      assert i in before;
      bits := bits[i := false];
      assert SetBits(bits) == before - {i};
      st := Apply(s1, FreeUnset(i));
      TwoSteps(s0, FreeWrite(i), FreeUnset(i));
    }
  }

  lemma WellSizedOf(s: Table)
    requires Inv(s)
    ensures WellSized(s.h)
  {}
}
