/**
 The growable array: positions up to `pos` are in use, the rest of the allocation is not.
 */
module Dynarray {
  // ---------- Splicing on memory ----------

  // Copy n cells inside a memory, as if through a buffer.
  function Memmove<T>(mem: seq<T>, dst: nat, src: nat, n: nat): (r: seq<T>)
    requires dst + n <= |mem| && src + n <= |mem|
    ensures |r| == |mem|
  {
    mem[..dst] + mem[src..src + n] + mem[dst + n..]
  }

  // A memory with room for at least n cells, the new ones filled with nul.
  function Padded<T>(mem: seq<T>, n: nat, nul: T): (r: seq<T>)
    ensures |r| == (if n <= |mem| then |mem| else n) && r[..|mem|] == mem
    ensures forall k :: |mem| <= k < |r| ==> r[k] == nul
  {
    if n <= |mem| then mem else mem + seq(n - |mem|, _ => nul)
  }

  // What a splice leaves in the memory: the tail is moved, then the new items are copied in.
  // `len` positions are in use before.
  function SpliceMemory<T>(mem: seq<T>, len: nat, off: nat, nrmv: nat, base: seq<T>): (r: seq<T>)
    requires off + nrmv <= len <= |mem| && len + |base| - nrmv <= |mem|
    ensures |r| == |mem|
  {
    var rem := len - off - nrmv;
    var moved :=
      if |base| == nrmv then mem
      else Memmove(mem, if |base| > nrmv then off + |base| - nrmv else off + |base|, off + nrmv, rem);
    moved[..off] + base + moved[off + |base|..]
  }

  // What a splice is for.
  function Spliced<T>(s: seq<T>, off: nat, nrmv: nat, base: seq<T>): seq<T>
    requires off + nrmv <= |s|
  {
    s[..off] + base + s[off + nrmv..]
  }

  // The tail lands in its place unless something is removed, more is added, and there is a tail.
  predicate TailFits(len: nat, off: nat, nrmv: nat, nadd: nat) {
    nrmv == 0 || nadd <= nrmv || off + nrmv == len
  }

  lemma MemmoveAt<T>(mem: seq<T>, dst: nat, src: nat, n: nat, k: nat)
    requires dst + n <= |mem| && src + n <= |mem| && k < |mem|
    ensures Memmove(mem, dst, src, n)[k] == if dst <= k < dst + n then mem[src + (k - dst)] else mem[k]
  {}

  // The cells after a splice.
  lemma SpliceAt<T>(mem: seq<T>, len: nat, off: nat, nrmv: nat, base: seq<T>, k: nat)
    requires off + nrmv <= len <= |mem| && len + |base| - nrmv <= |mem| && k < |mem|
    ensures
      var rem := len - off - nrmv;
      var dst := if |base| > nrmv then off + |base| - nrmv else off + |base|;
      SpliceMemory(mem, len, off, nrmv, base)[k] ==
        if k < off then mem[k]
        else if k < off + |base| then base[k - off]
        else if dst <= k < dst + rem && |base| != nrmv then mem[off + nrmv + (k - dst)]
        else mem[k]
  {
    hide Memmove;
    if |base| != nrmv {
      var rem := len - off - nrmv;
      MemmoveAt(mem, if |base| > nrmv then off + |base| - nrmv else off + |base|, off + nrmv, rem, k);
    }
  }

  lemma SpliceRight<T>(mem: seq<T>, len: nat, off: nat, nrmv: nat, base: seq<T>)
    requires off + nrmv <= len <= |mem| && len + |base| - nrmv <= |mem| && TailFits(len, off, nrmv, |base|)
    ensures SpliceMemory(mem, len, off, nrmv, base)[..len + |base| - nrmv] == Spliced(mem[..len], off, nrmv, base)
  {
    hide SpliceMemory;
    var got, want := SpliceMemory(mem, len, off, nrmv, base), Spliced(mem[..len], off, nrmv, base);
    forall k | 0 <= k < |want|
      ensures got[k] == want[k]
    {
      SpliceAt(mem, len, off, nrmv, base, k);
    }
  }

  ghost predicate AllDifferent<T>(s: seq<T>) {
    forall i, j :: 0 <= i < j < |s| ==> s[i] != s[j]
  }

  // In the remaining cases the result is wrong for every memory without repetitions: the cell
  // that should hold the first item of the tail holds another.
  lemma SpliceWrong<T>(mem: seq<T>, len: nat, off: nat, nrmv: nat, base: seq<T>)
    requires off + nrmv <= len <= |mem| && len + |base| - nrmv <= |mem| && !TailFits(len, off, nrmv, |base|)
    requires AllDifferent(mem)
    ensures SpliceMemory(mem, len, off, nrmv, base)[..len + |base| - nrmv] != Spliced(mem[..len], off, nrmv, base)
  {
    hide SpliceMemory;
    var got, want := SpliceMemory(mem, len, off, nrmv, base), Spliced(mem[..len], off, nrmv, base);
    var k := off + |base|;
    SpliceAt(mem, len, off, nrmv, base, k);
    assert want[k] == mem[off + nrmv];
    assert got[..len + |base| - nrmv][k] == got[k] != want[k];
  }

  ghost predicate SpliceWorks(mem: seq<int>, len: nat, off: nat, nrmv: nat, base: seq<int>) {
    off + nrmv <= len <= |mem| && len + |base| - nrmv <= |mem| ==>
      SpliceMemory(mem, len, off, nrmv, base)[..len + |base| - nrmv] == Spliced(mem[..len], off, nrmv, base)
  }

  // When splicing a given range works whatever the contents.
  lemma SpliceCondition(len: nat, off: nat, nrmv: nat, nadd: nat)
    requires off + nrmv <= len
    ensures TailFits(len, off, nrmv, nadd) <==>
      forall mem: seq<int>, base: seq<int> :: |base| == nadd ==> SpliceWorks(mem, len, off, nrmv, base)
  {
    if TailFits(len, off, nrmv, nadd) {
      forall mem: seq<int>, base: seq<int> | |base| == nadd
        ensures SpliceWorks(mem, len, off, nrmv, base)
      {
        if off + nrmv <= len <= |mem| && len + |base| - nrmv <= |mem| {
          SpliceRight(mem, len, off, nrmv, base);
        }
      }
    } else {
      var mem := seq(len + nadd, i => i);
      var base := seq(nadd, i => i);
      SpliceWrong(mem, len, off, nrmv, base);
      assert !SpliceWorks(mem, len, off, nrmv, base);
    }
  }

  // ---------- Reversing ----------

  // The exchanges from position i on.
  function Exchanges<T>(s: seq<T>, i: nat, start: nat, len: nat): (r: seq<T>)
    requires start + len <= |s|
    ensures |r| == |s|
    decreases len - i
  {
    if i >= len / 2 then s
    else var j := start + len - 1 - i; Exchanges(s[i := s[j]][j := s[i]], i + 1, start, len)
  }

  // Cell k of a sequence with the cells from start to start + len reversed.
  function ReversedCell<T>(s: seq<T>, start: nat, len: nat, k: nat): T
    requires start + len <= |s| && k < |s|
  {
    if start <= k < start + len then s[start + len - 1 - (k - start)] else s[k]
  }

  ghost predicate IsReversed<T>(r: seq<T>, s: seq<T>, start: nat, len: nat)
    requires start + len <= |s|
  {
    |r| == |s| && forall k :: 0 <= k < |s| ==> r[k] == ReversedCell(s, start, len, k)
  }

  // Cell k after the exchanges from position i on: the cells from i up to the middle of a range at the
  // front have changed places with their mirror images in the range asked for.
  lemma {:induction false} ExchangesAt<T>(s: seq<T>, i: nat, start: nat, len: nat, k: nat)
    requires start + len <= |s| && k < |s| && start <= i
    ensures Exchanges(s, i, start, len)[k] ==
      if i <= k < len / 2 || start + len - len / 2 <= k < start + len - i then s[start + len - 1 - k] else s[k]
    decreases len - i
  {
    if i < len / 2 {
      var j := start + len - 1 - i;
      ExchangesAt(s[i := s[j]][j := s[i]], i + 1, start, len, k);
    }
  }

  // The loop reverses what it is asked to when that is at the front or has at most one item, and
  // otherwise never does when the items are different.
  lemma ReverseRight<T>(s: seq<T>, start: nat, len: nat)
    requires start + len <= |s| && (start == 0 || len <= 1)
    ensures IsReversed(Exchanges(s, start, start, len), s, start, len)
  {
    forall k | 0 <= k < |s|
      ensures Exchanges(s, start, start, len)[k] == ReversedCell(s, start, len, k)
    {
      ExchangesAt(s, start, start, len, k);
    }
  }

  // What the loop leaves in every case.
  ghost predicate HalfReversed<T>(r: seq<T>, s: seq<T>, start: nat, len: nat)
    requires start + len <= |s|
  {
    |r| == |s| && forall k :: 0 <= k < |s| ==> r[k] == HalfCell(s, start, len, k)
  }

  function HalfCell<T>(s: seq<T>, start: nat, len: nat, k: nat): T
    requires start + len <= |s| && k < |s|
  {
    if start <= k < len / 2 || start + len - len / 2 <= k < len then s[start + len - 1 - k] else s[k]
  }

  lemma AlwaysHalf<T>(s: seq<T>, start: nat, len: nat)
    requires start + len <= |s|
    ensures HalfReversed(Exchanges(s, start, start, len), s, start, len)
  {
    var r := Exchanges(s, start, start, len);
    forall k | 0 <= k < |s|
      ensures r[k] == HalfCell(s, start, len, k)
    {
      ExchangesAt(s, start, start, len, k);
    }
  }

  lemma ReverseWrong<T>(s: seq<T>, start: nat, len: nat)
    requires start + len <= |s| && start > 0 && len > 1 && AllDifferent(s)
    ensures !IsReversed(Exchanges(s, start, start, len), s, start, len)
  {
    var r := Exchanges(s, start, start, len);
    ExchangesAt(s, start, start, len, start);
    assert r[start] != ReversedCell(s, start, len, start);
  }

  method ReverseSubsequence<T>(a: array<T>, start: nat, len: nat)
    requires start + len <= a.Length
    modifies a
    ensures a[..] == Exchanges(old(a[..]), start, start, len)
    ensures start == 0 ==> IsReversed(a[..], old(a[..]), start, len)
    ensures HalfReversed(a[..], old(a[..]), start, len)
  {
    hide HalfReversed, IsReversed;
    ghost var s := a[..];
    var i := start;
    while i < len / 2
      invariant start <= i && Exchanges(a[..], i, start, len) == Exchanges(s, start, start, len)
      decreases len - i
    {
      var j := start + len - 1 - i;
      ghost var before := a[..];
      a[i], a[j] := a[j], a[i];
      assert a[..] == before[i := before[j]][j := before[i]];
      i := i + 1;
    }
    if start == 0 {
      ReverseRight(s, start, len);
    }
    AlwaysHalf(s, start, len);
  }

  // ---------- The array ----------

  class PscDynarray<T(0)> {
    // what unused cells are filled with
    const nul: T
    var items: array<T>
    var pos: nat

    ghost predicate Valid()
      reads this
    {
      pos <= items.Length
    }

    ghost function Contents(): seq<T>
      reads this, items
      requires Valid()
    {
      items[..pos]
    }

    constructor (nul: T)
      ensures Valid() && fresh(items) && Contents() == []
    {
      this.nul := nul;
      items := new T[0];
      pos := 0;
    }

    method EnsureLen(n: nat)
      requires Valid()
      modifies this`items
      ensures Valid() && (if n <= old(items.Length) then items == old(items) else fresh(items))
      ensures items[..] == Padded(old(items[..]), n, nul)
    {
      if n > items.Length {
        var a := new T[n];
        forall i | 0 <= i < n {
          a[i] := if i < items.Length then items[i] else nul;
        }
        items := a;
      }
    }

    method Add(x: T)
      requires Valid()
      modifies this, items
      ensures Valid() && (items == old(items) || fresh(items)) && Contents() == old(Contents()) + [x]
    {
      if pos + 1 > items.Length {
        ghost var before := items[..pos];
        EnsureLen(2 * (pos + 1));
        assert items[..pos] == items[..][..pos] == before;
      }
      items[pos] := x;
      pos := pos + 1;
    }

    // The last item takes the place of the one removed.
    method RemovePos(at: nat)
      requires Valid() && at < pos
      modifies this`pos, items
      ensures Valid() && pos == old(pos) - 1 && Contents() == old(Contents())[at := old(Contents())[pos]][..pos]
    {
      if at != pos - 1 {
        items[at] := items[pos - 1];
      }
      pos := pos - 1;
    }

    method Splice(off: nat, nrmv: nat, base: seq<T>)
      requires Valid() && off + nrmv <= pos
      modifies this, items
      ensures Valid() && (items == old(items) || fresh(items)) && pos == old(pos) + |base| - nrmv
      ensures TailFits(old(pos), off, nrmv, |base|) ==> Contents() == Spliced(old(Contents()), off, nrmv, base)
      ensures items[..] ==
        SpliceMemory(Padded(old(items[..]), old(pos) + |base| - nrmv, nul), old(pos), off, nrmv, base)
    {
      hide SpliceMemory, Spliced;
      ghost var len, before := pos, items[..pos];
      EnsureLen(pos + |base| - nrmv);
      ghost var mem := items[..];
      assert mem[..len] == before;
      if TailFits(len, off, nrmv, |base|) {
        SpliceRight(mem, len, off, nrmv, base);
      }
      SpliceCells(items, pos, off, nrmv, base);
      pos := pos + |base| - nrmv;
    }
  }

  // Move the tail, then copy the new items in.
  method SpliceCells<T>(a: array<T>, len: nat, off: nat, nrmv: nat, base: seq<T>)
    requires off + nrmv <= len <= a.Length && len + |base| - nrmv <= a.Length
    modifies a
    ensures a[..] == SpliceMemory(old(a[..]), len, off, nrmv, base)
  {
    hide Memmove;
    if |base| != nrmv {
      var rem := len - off - nrmv;
      Move(a, if |base| > nrmv then off + |base| - nrmv else off + |base|, off + nrmv, rem);
    }
    ghost var moved := a[..];
    forall i | 0 <= i < |base| {
      a[off + i] := base[i];
    }
    assert a[..] == moved[..off] + base + moved[off + |base|..];
  }

  method Move<T>(a: array<T>, dst: nat, src: nat, n: nat)
    requires dst + n <= a.Length && src + n <= a.Length
    modifies a
    ensures a[..] == Memmove(old(a[..]), dst, src, n)
  {
    forall i | 0 <= i < n {
      a[dst + i] := a[src + i];
    }
  }
}
