/**
 The priority queue with intrusive back-indices: every item knows its position, and every swap
 keeps the positions right.
 */
module Heap {
  import opened HeapOrder
  import opened Optional

  class Item {
    var idx: int

    constructor ()
    {
      idx := 0;
    }
  }

  type Keys = map<Item, int>

  // The comparison function, by what it sees in two items.
  function Cmp(a: int, b: int): int {
    if a < b then -1 else if a > b then 1 else 0
  }

  ghost function Snap(base: seq<Item>, keys: Keys): (b: seq<Elem<Item>>)
    requires forall x <- base :: x in keys
    ensures |b| == |base|
  {
    seq(|base|, i requires 0 <= i < |base| => Elem(base[i], keys[base[i]]))
  }

  lemma SnapSwap(base: seq<Item>, keys: Keys, i: nat, j: nat)
    requires (forall x <- base :: x in keys) && i < |base| && j < |base|
    ensures forall x <- Swap(base, i, j) :: x in keys
    ensures Snap(Swap(base, i, j), keys) == Swap(Snap(base, keys), i, j)
  {
    assert forall x <- Swap(base, i, j) :: x in base;
  }

  class PflHeap {
    var base: seq<Item>
    // What the comparison function sees in the items; the items' owners may change it.
    var keys: Keys
    ghost var items: set<Item>

    ghost predicate Valid()
      reads this, items
    {
      && (forall x <- base :: x in items && x in keys)
      && (forall i :: 0 <= i < |base| ==> base[i] in items && base[i].idx == i)
    }

    ghost function Contents(): seq<Elem<Item>>
      reads this, items
      requires Valid()
    {
      Snap(base, keys)
    }

    constructor ()
      ensures Valid() && base == [] && items == {}
    {
      base := [];
      keys := map[];
      items := {};
    }

    // Exchange two items and their positions.
    method SwapItems(p: Item, c: Item)
      requires Valid() && p in base && c in base
      modifies this`base, p`idx, c`idx
      ensures Valid() && base == Swap(old(base), old(p.idx), old(c.idx)) && p in base && c in base
      ensures Contents() == Swap(old(Contents()), old(p.idx), old(c.idx))
      ensures p.idx == old(c.idx) && c.idx == old(p.idx)
      ensures forall x <- base :: x in old(base)
    {
      SnapSwap(base, keys, p.idx, c.idx);
      base := Swap(base, p.idx, c.idx);
      p.idx, c.idx := c.idx, p.idx;
      assert base[p.idx] == p && base[c.idx] == c;
    }

    method Add(c: Item)
      requires Valid() && c !in base && c in keys
      modifies this`base, this`items, items`idx, c`idx
      ensures Valid() && items == old(items) + {c} && Contents() == Added(old(Contents()), Elem(c, keys[c]))
      ensures multiset(Contents()) == multiset(old(Contents())) + multiset{Elem(c, keys[c])}
      ensures old(Ordered(Contents())) ==> Ordered(Contents())
    {
      hide Up, Snap, Ordered, Added, Swap;
      ghost var goal := Added(Contents(), Elem(c, keys[c]));
      AddedMeans(Contents(), Elem(c, keys[c]));
      SnapAppend(base, keys, c);
      items := items + {c};
      c.idx := |base|;
      base := base + [c];
      while c.idx > 0
        invariant Valid() && c in base && items == old(items) + {c}
        invariant Up(Contents(), c.idx) == goal
        decreases c.idx
      {
        UpStep(Contents(), c.idx);
        var p := base[(c.idx - 1) / 2];
        SnapAt(base, keys);
        if Cmp(keys[p], keys[c]) != 1 {
          break;
        }
        SwapItems(p, c);
      }
      UpStep(Contents(), c.idx);
    }

    method Remove(p: Item)
      requires Valid() && p in base
      modifies this`base, items`idx
      ensures Valid() && Contents() == Removed(old(Contents()), old(p.idx))
      ensures forall x <- base :: x in old(base)
      ensures multiset(Contents()) == multiset(old(Contents())) - multiset{Elem(p, keys[p])}
      ensures old(Ordered(Contents())) ==> (Ordered(Contents()) <==> Fits(old(Contents()), old(p.idx)))
    {
      hide Down, Least, Snap, Ordered, Fits, Removed, Filled, Swap;
      SnapAt(base, keys);
      RemovedMeans(Contents(), p.idx);
      ghost var goal := Removed(Contents(), p.idx);
      var idx, n := p.idx, |base| - 1;
      var q := base[n];
      SnapFill(base, keys, idx);
      base := base[idx := q][..n];
      q.idx := idx;
      if idx == n {
        return;
      }
      assert base[idx] == q;
      while true
        invariant Valid() && |base| == n && q in base
        invariant forall x <- base :: x in old(base)
        invariant Down(Contents(), q.idx) == goal
        decreases n - q.idx
      {
        DownStep(Contents(), q.idx);
        LeastBound(Contents(), q.idx);
        var m := LeastChild(q);
        if m == q {
          break;
        }
        SwapItems(q, m);
      }
    }

    // The least of an item and its children.
    method LeastChild(q: Item) returns (m: Item)
      requires Valid() && q in base
      ensures m == base[Least(Contents(), q.idx)]
    {
      m := q;
      var idx := q.idx * 2 + 1;
      if idx < |base| && Cmp(keys[base[idx]], keys[m]) == -1 {
        m := base[idx];
      }
      idx := idx + 1;
      if idx < |base| && Cmp(keys[base[idx]], keys[m]) == -1 {
        m := base[idx];
      }
    }

    method Peek() returns (r: Option<Item>)
      requires Valid()
      ensures r.None? <==> base == []
      ensures r.Some? ==> r.value == base[0]
    {
      r := if base == [] then None else Some(base[0]);
    }

    // Take the first item off. It is a least one, and the order is kept.
    method Shift() returns (r: Option<Item>)
      requires Valid() && Ordered(Contents())
      modifies this`base, items`idx
      ensures Valid() && Ordered(Contents())
      ensures r.None? <==> old(base) == []
      ensures r.None? ==> base == []
      ensures r.Some? ==>
        && r.value == old(base)[0] && r.value in keys && (forall x <- old(base) :: keys[r.value] <= keys[x])
        && multiset(Contents()) == multiset(old(Contents())) - multiset{Elem(r.value, keys[r.value])}
        && |base| < |old(base)| && forall x <- base :: x in old(base)
    {
      hide Ordered, Removed, OrderedAround;
      r := Peek();
      if r.Some? {
        ghost var b := Contents();
        forall x <- base
          ensures keys[r.value] <= keys[x]
        {
          var i :| 0 <= i < |base| && base[i] == x;
          RootIsLeast(b, i);
        }
        OrderedIsAround(b, 0);
        RemovedOrdered(b, 0);
        RemovedPermutes(b, 0);
        Remove(r.value);
      }
    }

    // Move an item whose key has changed to its place. The order is restored exactly when the
    // item that fills its old position fits there.
    method Reseat(p: Item)
      requires Valid() && p in base && OrderedAround(Contents(), p.idx)
      modifies this`base, this`items, items`idx
      ensures Valid() && items == old(items) && multiset(Contents()) == multiset(old(Contents()))
      ensures Contents() == Added(Removed(old(Contents()), old(p.idx)), Elem(p, keys[p]))
      ensures Ordered(Contents()) <==> Fits(old(Contents()), old(p.idx))
    {
      hide Ordered, Removed, OrderedAround, Fits, Added, Snap;
      ghost var b, i := Contents(), p.idx;
      SnapAt(base, keys);
      DistinctItems(b);
      RemovedPermutes(b, i);
      Remove(p);
      NotLeft(b, i, Contents(), p);
      SnapHas(base, keys, p);
      ReseatedOrdered(b, i);
      Add(p);
    }

    // Back-indices tell the items apart.
    lemma DistinctItems(b: seq<Elem<Item>>)
      requires Valid() && b == Contents()
      ensures forall j, k :: 0 <= j < k < |b| ==> b[j].item != b[k].item
    {
      forall j, k | 0 <= j < k < |b|
        ensures b[j].item != b[k].item
      {
        assert base[j].idx == j && base[k].idx == k;
      }
    }
  }

  // ---------- Snapshots ----------

  lemma SnapAppend(base: seq<Item>, keys: Keys, c: Item)
    requires (forall x <- base :: x in keys) && c in keys
    ensures (forall x <- base + [c] :: x in keys) && Snap(base + [c], keys) == Snap(base, keys) + [Elem(c, keys[c])]
  {}

  lemma SnapAt(base: seq<Item>, keys: Keys)
    requires forall x <- base :: x in keys
    ensures forall i :: 0 <= i < |base| ==> Snap(base, keys)[i] == Elem(base[i], keys[base[i]])
  {}

  lemma SnapFill(base: seq<Item>, keys: Keys, i: nat)
    requires (forall x <- base :: x in keys) && i < |base|
    ensures var n := |base| - 1;
      && (forall x <- base[i := base[n]][..n] :: x in keys)
      && Snap(base[i := base[n]][..n], keys) == Filled(Snap(base, keys), i)
  {
    var n := |base| - 1;
    assert forall x <- base[i := base[n]][..n] :: x in base;
  }

  lemma SnapHas(base: seq<Item>, keys: Keys, p: Item)
    requires (forall x <- base :: x in keys) && forall e <- Snap(base, keys) :: e.item != p
    ensures p !in base
  {
    forall i | 0 <= i < |base|
      ensures base[i] != p
    {
      assert Snap(base, keys)[i] in Snap(base, keys);
    }
  }

  // An item removed is not left over elsewhere.
  lemma NotLeft(b: seq<Elem<Item>>, i: nat, t: seq<Elem<Item>>, p: Item)
    requires i < |b| && multiset(t) == multiset(b) - multiset{b[i]} && b[i].item == p
    requires forall j, k :: 0 <= j < k < |b| ==> b[j].item != b[k].item
    ensures forall e <- t :: e.item != p
  {
    assert b == b[..i] + [b[i]] + b[i + 1..];
    assert multiset(b) == multiset(b[..i]) + multiset{b[i]} + multiset(b[i + 1..]);
    forall e <- t
      ensures e.item != p
    {
      assert e in multiset(t);
      assert e in multiset(b[..i]) || e in multiset(b[i + 1..]);
      assert e in b[..i] || e in b[i + 1..];
    }
  }

  lemma AddedMeans<T>(b: seq<Elem<T>>, e: Elem<T>)
    ensures Added(b, e) == Up(b + [e], |b|) && multiset(Added(b, e)) == multiset(b) + multiset{e}
    ensures Ordered(b) ==> Ordered(Added(b, e))
  {
    hide Up, Ordered;
    UpPermutes(b + [e], |b|);
    if Ordered(b) {
      AddedOrdered(b, e);
    }
  }

  lemma RemovedMeans<T>(b: seq<Elem<T>>, i: nat)
    requires i < |b|
    ensures Removed(b, i) == if i < |b| - 1 then Down(Filled(b, i), i) else Filled(b, i)
    ensures multiset(Removed(b, i)) == multiset(b) - multiset{b[i]}
    ensures Ordered(b) ==> (Ordered(Removed(b, i)) <==> Fits(b, i))
  {
    hide Down, Filled, Ordered, OrderedAround, Fits;
    RemovedPermutes(b, i);
    if Ordered(b) {
      OrderedIsAround(b, i);
      RemovedOrdered(b, i);
    }
  }

  lemma UpStep<T>(b: seq<Elem<T>>, i: nat)
    requires i < |b|
    ensures Up(b, i) == if i > 0 && b[Parent(i)].key > b[i].key then Up(Swap(b, Parent(i), i), Parent(i)) else b
  {}

  lemma DownStep<T>(b: seq<Elem<T>>, i: nat)
    requires i < |b|
    ensures Down(b, i) == if Least(b, i) == i then b else Down(Swap(b, i, Least(b, i)), Least(b, i))
  {}

  lemma LeastBound<T>(b: seq<Elem<T>>, i: nat)
    requires i < |b|
    ensures i <= Least(b, i) < |b|
  {}

  lemma MoveOver<E>(out: seq<E>, e: E, rest: multiset<E>, left: multiset<E>, all: multiset<E>)
    requires multiset(out) + rest == all && e in rest && left == rest - multiset{e}
    ensures multiset(out + [e]) + left == all
  {}

  ghost predicate Sorted(out: seq<Elem<Item>>) {
    forall i, j :: 0 <= i < j < |out| ==> out[i].key <= out[j].key
  }

  // Nothing still in the heap is less than what has come out.
  ghost predicate Ahead(out: seq<Elem<Item>>, base: seq<Item>, keys: Keys) {
    forall i, x :: 0 <= i < |out| && x in base && x in keys ==> out[i].key <= keys[x]
  }

  lemma NextOut(out: seq<Elem<Item>>, base: seq<Item>, left: seq<Item>, keys: Keys, r: Item)
    requires Sorted(out) && Ahead(out, base, keys) && r in base && (forall x <- base :: x in keys)
    requires (forall x <- base :: keys[r] <= keys[x]) && forall x <- left :: x in base
    ensures Sorted(out + [Elem(r, keys[r])]) && Ahead(out + [Elem(r, keys[r])], left, keys)
  {}

  // Shift until empty: the items come out sorted, and they are those that were there.
  method Drain(h: PflHeap) returns (out: seq<Elem<Item>>)
    requires h.Valid() && Ordered(h.Contents())
    modifies h`base, h.items`idx
    ensures h.Valid() && h.base == []
    ensures Sorted(out) && multiset(out) == multiset(old(h.Contents()))
  {
    hide Ordered, Snap, Ahead, Sorted;
    out := [];
    NoneOut(h.base, h.keys);
    while h.base != []
      invariant h.Valid() && Ordered(h.Contents())
      invariant Sorted(out) && Ahead(out, h.base, h.keys)
      invariant multiset(out) + multiset(h.Contents()) == multiset(old(h.Contents()))
      decreases |h.base|
    {
      SnapAt(h.base, h.keys);
      ghost var base, rest := h.base, multiset(h.Contents());
      assert h.Contents()[0] in rest;
      var r := h.Shift();
      var e := Elem(r.value, h.keys[r.value]);
      MoveOver(out, e, rest, multiset(h.Contents()), multiset(old(h.Contents())));
      NextOut(out, base, h.base, h.keys, r.value);
      out := out + [e];
    }
    assert |h.Contents()| == 0;
  }

  lemma NoneOut(base: seq<Item>, keys: Keys)
    ensures Sorted([]) && Ahead([], base, keys)
  {}
}
