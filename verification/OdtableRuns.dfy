/**
 An on-disk table of fixed size: callers allocate slots from a bitmap in memory, and put,
 replace and free items on disk. A run is any interleaving of callers' steps and of reloads,
 which throw the memory away and rebuild it from the file.
 */
module OdtableRuns {
  import opened Bytes
  import opened Optional
  import opened OdtableFormat

  // ---------- The table as a state machine ----------

  // `bits` is the bitmap. `owned` are the slots callers have, `freeing` those marked free on disk
  // whose bit is still set. `stored` is history: what each slot was last put in use with.
  datatype Table = Table(
    h: Header, file: seq<Byte>, bits: set<nat>, owned: set<nat>, freeing: set<nat>, stored: map<nat, seq<Byte>>)

  datatype Action =
    | Alloc(i: nat)
    | Put(i: nat, p: Option<seq<Byte>>, inuse: bool)
    | FreeWrite(i: nat)
    | FreeUnset(i: nat)
    | Reload

  predicate Enabled(s: Table, a: Action) {
    match a
    case Alloc(i) => i < s.h.nitems && i !in s.bits
    case Put(i, p, inuse) => i in s.owned && (p.Some? ==> |p.value| == s.h.itemsz) && (inuse ==> p.Some?)
    case FreeWrite(i) => i in s.owned
    case FreeUnset(i) => i in s.freeing
    case Reload => true
  }

  function DoPut(s: Table, i: nat, p: Option<seq<Byte>>, inuse: bool): Table
    requires inuse ==> p.Some?
  {
    s.(file := WriteSlot(s.h, s.file, i, p, FooterBytes(i, if inuse then p else None)),
       stored := if inuse then s.stored[i := p.value] else s.stored - {i})
  }

  function Apply(s: Table, a: Action): Table {
    match a
    case Alloc(i) => s.(bits := s.bits + {i}, owned := s.owned + {i})
    case Put(i, p, inuse) => if inuse && p.None? then s else DoPut(s, i, p, inuse)
    case FreeWrite(i) => DoPut(s, i, None, false).(owned := s.owned - {i}, freeing := s.freeing + {i})
    case FreeUnset(i) => s.(bits := s.bits - {i}, freeing := s.freeing - {i})
    case Reload => s.(bits := {0} + InUse(s.h, s.file), owned := InUse(s.h, s.file), freeing := {})
  }

  // The slots a check finds in use.
  function InUse(h: Header, file: seq<Byte>): set<nat> {
    set i | 0 <= i < h.nitems && Present(h, file, i) && CheckSlot(h, file, i).Used?
  }

  function Lookup(m: map<nat, seq<Byte>>, i: nat): Option<seq<Byte>> {
    if i in m then Some(m[i]) else None
  }

  // The file is a table with these items.
  ghost predicate Stored(h: Header, file: seq<Byte>, m: map<nat, seq<Byte>>) {
    && WellSized(h) && |file| >= HDR_SIZE && file[..HDR_SIZE] == HeaderBytes(h)
    && (forall i :: 0 <= i < h.nitems ==> Holds(h, file, i, Lookup(m, i)))
    && (forall i :: i in m ==> i < h.nitems)
  }

  ghost predicate Inv(s: Table) {
    && Stored(s.h, s.file, s.stored)
    && s.bits == {0} + s.owned + s.freeing && s.owned !! s.freeing && 0 !in s.owned && 0 !in s.freeing
    && s.stored.Keys <= s.owned && (forall i :: i in s.bits ==> i < s.h.nitems)
  }

  lemma PutStored(h: Header, file: seq<Byte>, m: map<nat, seq<Byte>>, i: nat, p: Option<seq<Byte>>, v: Option<seq<Byte>>)
    requires Stored(h, file, m) && i < h.nitems
    requires (p.Some? ==> |p.value| == h.itemsz) && (v.Some? ==> v == p) && (p.None? ==> v.None?)
    ensures Stored(h, WriteSlot(h, file, i, p, FooterBytes(i, v)), if v.Some? then m[i := v.value] else m - {i})
  {
    hide Holds, WellSized, HeaderBytes, FooterBytes, WriteSlot;
    var file' := WriteSlot(h, file, i, p, FooterBytes(i, v));
    var m' := if v.Some? then m[i := v.value] else m - {i};
    WriteKeepsHeader(h, file, i, p, FooterBytes(i, v));
    forall j | 0 <= j < h.nitems
      ensures Holds(h, file', j, Lookup(m', j))
    {
      if j == i {
        WriteHolds(h, file, i, p, v);
        assert Lookup(m', i) == v;
      } else {
        WriteElsewhere(h, file, i, p, FooterBytes(i, v), j, Lookup(m, j));
        assert Lookup(m', j) == Lookup(m, j);
      }
    }
  }

  // A check of a stored table passes every slot, and sees exactly what was stored.
  lemma StoredChecks(h: Header, file: seq<Byte>, m: map<nat, seq<Byte>>)
    requires Stored(h, file, m)
    ensures forall i :: 0 <= i < h.nitems ==> Present(h, file, i) && CheckSlot(h, file, i) == VerdictOf(Lookup(m, i))
    ensures InUse(h, file) == m.Keys
    ensures LoadHeader(file) == Some(h)
  {
    hide CheckSlot, HeaderBytes, LoadHeader, FooterBytes, Off;
    HeaderRoundTrip(h, file);
    forall i | 0 <= i < h.nitems
      ensures Present(h, file, i) && CheckSlot(h, file, i) == VerdictOf(Lookup(m, i))
    {
      assert Holds(h, file, i, Lookup(m, i));
      HoldsChecks(h, file, i, Lookup(m, i));
    }
  }

  lemma StepKeepsInv(s: Table, a: Action)
    requires Inv(s) && Enabled(s, a)
    ensures Inv(Apply(s, a))
  {
    hide Stored, WriteSlot, FooterBytes, InUse;
    match a
    case Put(i, p, inuse) => PutStored(s.h, s.file, s.stored, i, p, if inuse then p else None);
    case FreeWrite(i) => PutStored(s.h, s.file, s.stored, i, None, None);
    case Reload =>
      StoredChecks(s.h, s.file, s.stored);
      StoredKeys(s.h, s.file, s.stored);
    case _ =>
  }

  lemma StoredKeys(h: Header, file: seq<Byte>, m: map<nat, seq<Byte>>)
    requires Stored(h, file, m)
    ensures 0 < h.nitems && forall i :: i in m ==> i < h.nitems
  {}

  // ---------- Runs ----------

  ghost predicate Legal(s: Table, acts: seq<Action>)
    decreases |acts|
  {
    acts != [] ==> Enabled(s, acts[0]) && Legal(Apply(s, acts[0]), acts[1..])
  }

  ghost function Exec(s: Table, acts: seq<Action>): Table
    decreases |acts|
  {
    if acts == [] then s else Exec(Apply(s, acts[0]), acts[1..])
  }

  lemma {:induction false} RunKeepsInv(s: Table, acts: seq<Action>)
    requires Inv(s) && Legal(s, acts)
    ensures Inv(Exec(s, acts))
    decreases |acts|
  {
    hide Inv, Apply, Enabled;
    if acts != [] {
      StepKeepsInv(s, acts[0]);
      RunKeepsInv(Apply(s, acts[0]), acts[1..]);
    }
  }

  lemma TwoSteps(s: Table, a: Action, b: Action)
    requires Enabled(s, a) && Enabled(Apply(s, a), b)
    ensures Legal(s, [a, b]) && Exec(s, [a, b]) == Apply(Apply(s, a), b)
  {
    hide Apply, Enabled;
    assert [a, b][1..] == [b] && [b][1..] == [];
    assert Legal(Apply(s, a), [b]) && Exec(Apply(s, a), [b]) == Apply(Apply(s, a), b);
  }

  // What the last put left in slot i over a run, by the actions alone.
  ghost function LastPut(acts: seq<Action>, i: nat, before: Option<seq<Byte>>): Option<seq<Byte>>
    decreases |acts|
  {
    if acts == [] then before
    else
      var now := match acts[0]
        case Put(j, p, inuse) => if j == i && (inuse ==> p.Some?) then (if inuse then p else None) else before
        case FreeWrite(j) => if j == i then None else before
        case _ => before;
      LastPut(acts[1..], i, now)
  }

  lemma {:induction false} StoredIsLastPut(s: Table, acts: seq<Action>, i: nat)
    ensures Lookup(Exec(s, acts).stored, i) == LastPut(acts, i, Lookup(s.stored, i))
    decreases |acts|
  {
    hide WriteSlot, FooterBytes, InUse;
    if acts != [] {
      StoredIsLastPut(Apply(s, acts[0]), acts[1..], i);
    }
  }

  // Durability: stop a run anywhere and reload. The header is accepted, no slot fails its check,
  // the slots found in use are those whose last put was in use, with the contents of that put,
  // and the bitmap is slot 0 and these.
  lemma Durability(s: Table, acts: seq<Action>)
    requires Inv(s) && Legal(s, acts)
    ensures var t := Exec(s, acts);
      && LoadHeader(t.file) == Some(t.h)
      && (forall i :: 0 <= i < t.h.nitems ==>
            && Present(t.h, t.file, i)
            && CheckSlot(t.h, t.file, i) == VerdictOf(LastPut(acts, i, Lookup(s.stored, i))))
      && Apply(t, Reload).bits
           == {0} + set i | 0 <= i < t.h.nitems && LastPut(acts, i, Lookup(s.stored, i)).Some?
  {
    hide Stored, CheckSlot, LoadHeader, LastPut, Exec, Legal, Present, HeaderBytes;
    RunKeepsInv(s, acts);
    var t := Exec(s, acts);
    StoredChecks(t.h, t.file, t.stored);
    StoredKeys(t.h, t.file, t.stored);
    forall i
      ensures Lookup(t.stored, i) == LastPut(acts, i, Lookup(s.stored, i))
    {
      StoredIsLastPut(s, acts, i);
    }
    assert forall i :: i in InUse(t.h, t.file) <==> i in t.stored;
  }

  // A slot handed out is not slot 0, nobody else's, and not in use on disk.
  lemma AllocIsFresh(s: Table, acts: seq<Action>, i: nat)
    requires Inv(s) && Legal(s, acts) && Enabled(Exec(s, acts), Alloc(i))
    ensures var t := Exec(s, acts);
      i != 0 && i !in t.owned && i !in t.freeing && Present(t.h, t.file, i) && CheckSlot(t.h, t.file, i) == Unused
  {
    hide Stored, CheckSlot, Exec, Legal, Present;
    RunKeepsInv(s, acts);
    var t := Exec(s, acts);
    StoredChecks(t.h, t.file, t.stored);
    assert Lookup(t.stored, i) == None;
  }
}
