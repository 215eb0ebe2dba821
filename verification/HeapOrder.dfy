/**
 Binary heaps as sequences: what bubbling up and down do, and when the order survives.
 */
module HeapOrder {
  // An item with the key that the comparison function sees.
  datatype Elem<T> = Elem(item: T, key: int)

  function Parent(i: nat): (p: nat)
    requires i > 0
    ensures p < i
  {
    (i - 1) / 2
  }

  // The two children of a position, and only these, have it as parent.
  lemma ChildrenOf(i: nat, j: nat)
    ensures j > 0 && Parent(j) == i <==> j == 2 * i + 1 || j == 2 * i + 2
  {}

  ghost predicate Edge<T>(b: seq<Elem<T>>, i: nat)
    requires 0 < i < |b|
  {
    b[Parent(i)].key <= b[i].key
  }

  ghost predicate Ordered<T>(b: seq<Elem<T>>) {
    forall i :: 0 < i < |b| ==> Edge(b, i)
  }

  // Every edge but those at h is in order, and what is below h is not less than what is above.
  ghost predicate OrderedAround<T>(b: seq<Elem<T>>, h: nat) {
    && (forall i :: 0 < i < |b| && i != h && Parent(i) != h ==> Edge(b, i))
    && (forall i :: 0 < h < |b| && 0 < i < |b| && Parent(i) == h ==> b[Parent(h)].key <= b[i].key)
  }

  function Swap<T>(b: seq<T>, i: nat, j: nat): (r: seq<T>)
    requires i < |b| && j < |b|
    ensures |r| == |b|
  {
    b[i := b[j]][j := b[i]]
  }

  lemma SwapPermutes<T>(b: seq<T>, i: nat, j: nat)
    requires i < |b| && j < |b|
    ensures multiset(Swap(b, i, j)) == multiset(b)
  {}

  // ---------- Up ----------

  function Up<T>(b: seq<Elem<T>>, i: nat): (r: seq<Elem<T>>)
    requires i < |b|
    ensures |r| == |b|
    decreases i
  {
    if i > 0 && b[Parent(i)].key > b[i].key then Up(Swap(b, Parent(i), i), Parent(i)) else b
  }

  // Bubbling up repairs a heap in which only the edge above i may be out of order.
  lemma {:induction false} UpOrdered<T>(b: seq<Elem<T>>, i: nat)
    requires i < |b| && OrderedAround(b, i)
    requires forall j :: 0 < j < |b| && Parent(j) == i ==> Edge(b, j)
    ensures Ordered(Up(b, i))
    decreases i
  {
    if i > 0 && b[Parent(i)].key > b[i].key {
      var p := Parent(i);
      var t := Swap(b, p, i);
      forall j | 0 < j < |t| && j != p
        ensures Edge(t, j)
      {
        assert j != i && Parent(j) != i && Parent(j) != p ==> Edge(b, j);
        assert Parent(j) == p && j != i ==> Edge(b, j);
      }
      forall j | 0 < p && 0 < j < |t| && Parent(j) == p
        ensures t[Parent(p)].key <= t[j].key
      {
        assert Edge(b, p);
        assert j != i ==> Edge(b, j);
      }
      UpOrdered(t, p);
    } else {
      forall j | 0 < j < |b|
        ensures Edge(b, j)
      {}
    }
  }

  lemma {:induction false} UpPermutes<T>(b: seq<Elem<T>>, i: nat)
    requires i < |b|
    ensures multiset(Up(b, i)) == multiset(b)
    decreases i
  {
    if i > 0 && b[Parent(i)].key > b[i].key {
      SwapPermutes(b, Parent(i), i);
      UpPermutes(Swap(b, Parent(i), i), Parent(i));
    }
  }

  // ---------- Down ----------

  // The least of i and its children; ties keep the earlier one.
  function Least<T>(b: seq<Elem<T>>, i: nat): (m: nat)
    requires i < |b|
    ensures i <= m < |b| && (m == i || Parent(m) == i) && b[m].key <= b[i].key
    ensures forall j :: 0 < j < |b| && Parent(j) == i ==> b[m].key <= b[j].key
    ensures m != i ==> b[m].key < b[i].key
    ensures m == 2 * i + 2 ==> b[m].key < b[2 * i + 1].key
  {
    var l, r := 2 * i + 1, 2 * i + 2;
    var m := if l < |b| && b[l].key < b[i].key then l else i;
    var m' := if r < |b| && b[r].key < b[m].key then r else m;
    assert forall j :: 0 < j < |b| && Parent(j) == i ==> j == l || j == r;
    m'
  }

  function Down<T>(b: seq<Elem<T>>, i: nat): (r: seq<Elem<T>>)
    requires i < |b|
    ensures |r| == |b|
    decreases |b| - i
  {
    var m := Least(b, i);
    if m == i then b else Down(Swap(b, i, m), m)
  }

  // Bubbling down repairs a heap in which only the edges below i may be out of order.
  lemma {:induction false} DownOrdered<T>(b: seq<Elem<T>>, i: nat)
    requires i < |b| && OrderedAround(b, i) && (i > 0 ==> Edge(b, i))
    ensures Ordered(Down(b, i))
    decreases |b| - i
  {
    var m := Least(b, i);
    if m == i {
      forall j | 0 < j < |b|
        ensures Edge(b, j)
      {}
    } else {
      var t := Swap(b, i, m);
      forall j | 0 < j < |t| && Parent(j) != m
        ensures Edge(t, j)
      {
        if j == i {
          assert b[Parent(i)].key <= b[m].key;
        } else if Parent(j) == i {
        } else {
          assert Edge(b, j);
        }
      }
      forall j | 0 < m < |t| && 0 < j < |t| && Parent(j) == m
        ensures t[Parent(m)].key <= t[j].key
      {
        assert Edge(b, j);
      }
      DownOrdered(t, m);
    }
  }

  lemma {:induction false} DownPermutes<T>(b: seq<Elem<T>>, i: nat)
    requires i < |b|
    ensures multiset(Down(b, i)) == multiset(b)
    decreases |b| - i
  {
    var m := Least(b, i);
    if m != i {
      SwapPermutes(b, i, m);
      DownPermutes(Swap(b, i, m), m);
    }
  }

  // ---------- The operations ----------

  function Added<T>(b: seq<Elem<T>>, e: Elem<T>): seq<Elem<T>> {
    Up(b + [e], |b|)
  }

  // The last item takes the place of the one removed and sinks from there.
  function Removed<T>(b: seq<Elem<T>>, i: nat): (r: seq<Elem<T>>)
    requires i < |b|
    ensures |r| == |b| - 1
  {
    if i < |b| - 1 then Down(Filled(b, i), i) else Filled(b, i)
  }

  lemma AddedOrdered<T>(b: seq<Elem<T>>, e: Elem<T>)
    requires Ordered(b)
    ensures Ordered(Added(b, e)) && multiset(Added(b, e)) == multiset(b) + multiset{e}
  {
    var t := b + [e];
    forall j | 0 < j < |t| && j != |b|
      ensures Edge(t, j)
    {
      assert Edge(b, j);
    }
    UpOrdered(t, |b|);
    UpPermutes(t, |b|);
  }

  // When the order survives a removal: exactly when the item that fills the hole is not less
  // than what is above the hole.
  predicate Fits<T>(b: seq<Elem<T>>, i: nat)
    requires i < |b|
  {
    i == 0 || i == |b| - 1 || b[Parent(i)].key <= b[|b| - 1].key
  }

  lemma RemovedOrdered<T>(b: seq<Elem<T>>, i: nat)
    requires i < |b| && OrderedAround(b, i)
    ensures Ordered(Removed(b, i)) <==> Fits(b, i)
  {
    hide Ordered, OrderedAround, Edge, Down;
    if i == |b| - 1 {
      LastRemoved(b);
    } else {
      FilledAround(b, i);
      if Fits(b, i) {
        FillerFits(b, i);
        DownOrdered(Filled(b, i), i);
      } else {
        FillerSticks(b, i);
      }
    }
  }

  // The hole filled with the last item.
  function Filled<T>(b: seq<Elem<T>>, i: nat): (t: seq<Elem<T>>)
    requires i < |b|
    ensures |t| == |b| - 1
  {
    b[i := b[|b| - 1]][..|b| - 1]
  }

  lemma LastRemoved<T>(b: seq<Elem<T>>)
    requires b != [] && OrderedAround(b, |b| - 1)
    ensures Ordered(Filled(b, |b| - 1))
  {
    var t := Filled(b, |b| - 1);
    forall j | 0 < j < |t|
      ensures Edge(t, j)
    {
      assert Edge(b, j);
    }
  }

  lemma FilledAround<T>(b: seq<Elem<T>>, i: nat)
    requires i < |b| - 1 && OrderedAround(b, i)
    ensures OrderedAround(Filled(b, i), i)
  {
    var t := Filled(b, i);
    forall j | 0 < j < |t| && j != i && Parent(j) != i
      ensures Edge(t, j)
    {
      assert Edge(b, j);
    }
  }

  lemma FillerFits<T>(b: seq<Elem<T>>, i: nat)
    requires 0 <= i < |b| - 1 && Fits(b, i)
    ensures i > 0 ==> Edge(Filled(b, i), i)
  {}

  // A filler less than what is above the hole is less than everything below, so it stays.
  lemma FillerUnmoved<T>(t: seq<Elem<T>>, i: nat)
    requires 0 < i < |t| && OrderedAround(t, i) && t[Parent(i)].key > t[i].key
    ensures Down(t, i) == t
  {
    assert forall j :: 0 < j < |t| && Parent(j) == i ==> t[i].key < t[j].key;
    assert Least(t, i) == i;
  }

  lemma FillerSticks<T>(b: seq<Elem<T>>, i: nat)
    requires i < |b| - 1 && !Fits(b, i) && OrderedAround(Filled(b, i), i)
    ensures !Ordered(Down(Filled(b, i), i))
  {
    var t := Filled(b, i);
    FillerUnmoved(t, i);
    assert !Edge(t, i);
  }

  lemma RemovedPermutes<T>(b: seq<Elem<T>>, i: nat)
    requires i < |b|
    ensures multiset(Removed(b, i)) == multiset(b) - multiset{b[i]}
  {
    hide Down;
    FilledPermutes(b, i);
    if i < |b| - 1 {
      DownPermutes(Filled(b, i), i);
    }
  }

  lemma FilledPermutes<T>(b: seq<Elem<T>>, i: nat)
    requires i < |b|
    ensures multiset(Filled(b, i)) == multiset(b) - multiset{b[i]}
  {
    var n := |b| - 1;
    if i == n {
      assert b == Filled(b, i) + [b[i]];
    } else {
      var front, mid := b[..i], b[i + 1..n];
      assert b == front + [b[i]] + mid + [b[n]];
      assert Filled(b, i) == front + [b[n]] + mid;
      LastMovedIn(front, b[i], mid, b[n]);
    }
  }

  lemma LastMovedIn<E>(front: seq<E>, x: E, mid: seq<E>, y: E)
    ensures multiset(front + [y] + mid) == multiset(front + [x] + mid + [y]) - multiset{x}
  {
    assert multiset(front + [y] + mid) == multiset(front) + multiset{y} + multiset(mid);
    assert multiset(front + [x] + mid + [y]) == multiset(front) + multiset{x} + multiset(mid) + multiset{y};
  }

  lemma OrderedIsAround<T>(b: seq<Elem<T>>, h: nat)
    requires Ordered(b)
    ensures OrderedAround(b, h)
  {
    forall i | 0 < h < |b| && 0 < i < |b| && Parent(i) == h
      ensures b[Parent(h)].key <= b[i].key
    {
      assert Edge(b, i) && Edge(b, h);
    }
  }

  // A change of one item's key leaves the heap in order around that item.
  lemma RekeyedIsAround<T>(b: seq<Elem<T>>, h: nat, key: int)
    requires Ordered(b) && h < |b|
    ensures OrderedAround(b[h := b[h].(key := key)], h)
  {
    OrderedIsAround(b, h);
    var t := b[h := b[h].(key := key)];
    forall i | 0 < i < |t| && i != h && Parent(i) != h
      ensures Edge(t, i)
    {
      assert Edge(b, i);
    }
  }

  // The first item is a least one.
  lemma {:induction false} RootIsLeast<T>(b: seq<Elem<T>>, i: nat)
    requires Ordered(b) && i < |b|
    ensures b[0].key <= b[i].key
    decreases i
  {
    if i > 0 {
      assert Edge(b, i);
      RootIsLeast(b, Parent(i));
    }
  }

  // A heap in which removing an item from the middle breaks the order.
  lemma RemoveCanBreakOrder()
    ensures
      var b := [Elem(0, 1), Elem(1, 10), Elem(2, 2), Elem(3, 11), Elem(4, 12), Elem(5, 3)];
      Ordered(b) && !Fits(b, 3) && !Ordered(Removed(b, 3))
  {
    var b := [Elem(0, 1), Elem(1, 10), Elem(2, 2), Elem(3, 11), Elem(4, 12), Elem(5, 3)];
    assert Parent(1) == 0 && Parent(2) == 0 && Parent(3) == 1 && Parent(4) == 1 && Parent(5) == 2;
    assert Ordered(b);
    OrderedIsAround(b, 3);
    RemovedOrdered(b, 3);
  }

  // ---------- Removing an item and adding it again ----------

  // Position a is n or above it.
  predicate OnPath(a: nat, n: nat) {
    a == n || (n > 0 && OnPath(a, Parent(n)))
  }

  lemma {:induction false} AboveOnPath(i: nat, n: nat)
    requires 0 < i && OnPath(i, n)
    ensures OnPath(Parent(i), n)
    decreases n
  {
    if i != n {
      AboveOnPath(i, Parent(n));
    }
  }

  // Bubbling up changes only positions on the way up.
  lemma {:induction false} UpKeepsOthers<T>(b: seq<Elem<T>>, i: nat, k: nat)
    requires i < |b| && k < |b| && !OnPath(k, i)
    ensures Up(b, i)[k] == b[k]
    decreases i
  {
    if i > 0 && b[Parent(i)].key > b[i].key {
      UpKeepsOthers(Swap(b, Parent(i), i), Parent(i), k);
    }
  }

  // r is b with the item at the first of some positions moved to the last of them, and the items at
  // the others moved up by one.
  ghost predicate Shifted<T>(b: seq<T>, r: seq<T>, ps: seq<nat>) {
    && |r| == |b| && ps != [] && (forall k :: 0 <= k < |ps| ==> ps[k] < |b|)
    && (forall k :: 0 <= k < |ps| ==> Moves(b, r, ps, k))
    && (forall k :: 0 <= k < |b| && k !in ps ==> r[k] == b[k])
  }

  ghost predicate Moves<T>(b: seq<T>, r: seq<T>, ps: seq<nat>, k: nat)
    requires k < |ps| && |r| == |b| && forall k :: 0 <= k < |ps| ==> ps[k] < |b|
  {
    r[ps[k]] == b[ps[if k + 1 < |ps| then k + 1 else 0]]
  }

  lemma ShiftedOne<T>(b: seq<T>, i: nat)
    requires i < |b|
    ensures Shifted(b, b, [i])
  {}

  lemma ShiftedMore<T>(b: seq<T>, r: seq<T>, i: nat, m: nat, rest: seq<nat>)
    requires i < |b| && m < |b| && Shifted(Swap(b, i, m), r, rest) && rest[0] == m && i !in rest
    requires forall k :: 0 < k < |rest| ==> rest[k] != m
    ensures Shifted(b, r, [i] + rest)
  {
    var t, ps := Swap(b, i, m), [i] + rest;
    forall k | 0 <= k < |ps|
      ensures ps[k] < |b|
    {
      assert k > 0 ==> ps[k] == rest[k - 1];
    }
    forall k | 0 <= k < |ps|
      ensures Moves(b, r, ps, k)
    {
      if k > 0 {
        assert Moves(t, r, rest, k - 1);
      }
    }
    forall k | 0 <= k < |b| && k !in ps
      ensures r[k] == b[k]
    {
      assert k !in rest;
    }
  }

  // An item of a key at p changes places with its parent at q.
  ghost predicate Rises<T>(b: seq<Elem<T>>, key: int, p: nat, q: nat) {
    p > 0 && q == (p - 1) / 2 && q < |b| && b[q].key > key
  }

  // An item of a key at p changes places with its lesser child at q, the left one of two equal ones.
  ghost predicate Sinks<T>(b: seq<Elem<T>>, key: int, p: nat, q: nat) {
    && q < |b| && b[q].key < key
    && ((q == 2 * p + 1 && (q + 1 < |b| ==> b[q].key <= b[q + 1].key)) || (q == 2 * p + 2 && b[q].key < b[q - 1].key))
  }

  // Where bubbling up leaves everything: the item rises past the greater ones above it, up to the
  // first that is not.
  lemma {:induction false} UpExactly<T>(b: seq<Elem<T>>, i: nat) returns (ps: seq<nat>)
    requires i < |b|
    ensures ps != [] && ps[0] == i && Shifted(b, Up(b, i), ps) && forall k :: 0 < k < |ps| ==> ps[k] < i
    ensures forall k :: 0 <= k < |ps| - 1 ==> RisesAt(b, b[i].key, ps, k)
    ensures var z := ps[|ps| - 1]; z == 0 || b[(z - 1) / 2].key <= b[i].key
    decreases i
  {
    hide Shifted, Rises, Swap;
    ps := [i];
    ShiftedOne(b, i);
    if i > 0 && b[Parent(i)].key > b[i].key {
      var p := Parent(i);
      var t := Swap(b, p, i);
      SwapSame(b, i, p);
      var rest := UpExactly(t, p);
      ShiftedMore(b, Up(b, i), i, p, rest);
      ps := [i] + rest;
      forall k | 0 <= k < |ps| - 1
        ensures RisesAt(b, b[i].key, ps, k)
      {
        if k > 0 {
          assert RisesAt(t, t[p].key, rest, k - 1);
          RisesSame(b, t, i, p, rest[k - 1], rest[k]);
        } else {
          FirstRise(b, i);
        }
      }
      RiseEnds(b, t, i, p, rest[|rest| - 1]);
      assert ps[|ps| - 1] == rest[|rest| - 1];
    }
  }

  lemma SwapSame<T>(b: seq<T>, i: nat, j: nat)
    requires i < |b| && j < |b|
    ensures Swap(b, i, j) == Swap(b, j, i) && Swap(b, i, j)[j] == b[i]
  {}

  ghost predicate RisesAt<T>(b: seq<Elem<T>>, key: int, ps: seq<nat>, k: nat)
    requires k < |ps| - 1
  {
    Rises(b, key, ps[k], ps[k + 1])
  }

  lemma FirstRise<T>(b: seq<Elem<T>>, i: nat)
    requires 0 < i < |b| && b[Parent(i)].key > b[i].key
    ensures Rises(b, b[i].key, i, Parent(i))
  {}

  lemma RisesSame<T>(b: seq<Elem<T>>, t: seq<Elem<T>>, i: nat, p: nat, x: nat, y: nat)
    requires p < i < |b| && t == Swap(b, i, p) && x <= p && Rises(t, t[p].key, x, y)
    ensures Rises(b, b[i].key, x, y)
  {}

  lemma RiseEnds<T>(b: seq<Elem<T>>, t: seq<Elem<T>>, i: nat, p: nat, z: nat)
    requires p < i < |b| && t == Swap(b, i, p) && z <= p && (z == 0 || t[(z - 1) / 2].key <= t[p].key)
    ensures z == 0 || b[(z - 1) / 2].key <= b[i].key
  {
    assert z > 0 ==> t[(z - 1) / 2] == b[(z - 1) / 2];
  }

  // Where bubbling down leaves everything: the item sinks past its lesser child while that is less,
  // until none is.
  lemma {:induction false} DownExactly<T>(b: seq<Elem<T>>, i: nat) returns (ps: seq<nat>)
    requires i < |b|
    ensures ps != [] && ps[0] == i && Shifted(b, Down(b, i), ps) && forall k :: 0 < k < |ps| ==> i < ps[k]
    ensures forall k :: 0 <= k < |ps| - 1 ==> SinksAt(b, b[i].key, ps, k)
    ensures Settled(b, b[i].key, ps[|ps| - 1])
    decreases |b| - i
  {
    hide Shifted, Settled, Sinks;
    var m := Least(b, i);
    ps := [i];
    ShiftedOne(b, i);
    ChildrenOf(i, m);
    if m != i {
      var t := Swap(b, i, m);
      var rest := DownExactly(t, m);
      ShiftedMore(b, Down(b, i), i, m, rest);
      ps := [i] + rest;
      forall k | 0 <= k < |ps| - 1
        ensures SinksAt(b, b[i].key, ps, k)
      {
        if k > 0 {
          assert SinksAt(t, t[m].key, rest, k - 1);
          SinksSame(b, t, i, m, rest[k - 1], rest[k]);
        } else {
          LeastSinks(b, i);
        }
      }
      assert ps[|ps| - 1] == rest[|rest| - 1];
      SettledSame(b, t, i, m, rest[|rest| - 1]);
    } else {
      LeastSettled(b, i);
    }
  }

  ghost predicate SinksAt<T>(b: seq<Elem<T>>, key: int, ps: seq<nat>, k: nat)
    requires k < |ps| - 1
  {
    Sinks(b, key, ps[k], ps[k + 1])
  }

  ghost predicate Settled<T>(b: seq<Elem<T>>, key: int, z: nat) {
    (2 * z + 1 < |b| ==> key <= b[2 * z + 1].key) && (2 * z + 2 < |b| ==> key <= b[2 * z + 2].key)
  }

  lemma LeastSinks<T>(b: seq<Elem<T>>, i: nat)
    requires i < |b| && Least(b, i) != i
    ensures Sinks(b, b[i].key, i, Least(b, i))
  {
    ChildrenOf(i, Least(b, i));
    ChildrenOf(i, 2 * i + 2);
  }

  lemma LeastSettled<T>(b: seq<Elem<T>>, i: nat)
    requires i < |b| && Least(b, i) == i
    ensures Settled(b, b[i].key, i)
  {
    ChildrenOf(i, 2 * i + 1);
    ChildrenOf(i, 2 * i + 2);
  }

  // Below the place exchanged nothing has changed.
  lemma SinksSame<T>(b: seq<Elem<T>>, t: seq<Elem<T>>, i: nat, m: nat, p: nat, q: nat)
    requires i < m < |b| && t == Swap(b, i, m) && p >= m && Sinks(t, t[m].key, p, q)
    ensures Sinks(b, b[i].key, p, q)
  {}

  lemma SettledSame<T>(b: seq<Elem<T>>, t: seq<Elem<T>>, i: nat, m: nat, z: nat)
    requires i < m < |b| && t == Swap(b, i, m) && z >= m && Settled(t, t[m].key, z)
    ensures Settled(b, b[i].key, z)
  {}

  // What stands under the parent of i, other than i, is not less than that parent.
  lemma {:induction false} UnderParent<T>(b: seq<Elem<T>>, i: nat, n: nat)
    requires 0 < i < |b| && OrderedAround(b, i) && n < |b| && n != i && OnPath(Parent(i), n)
    ensures b[Parent(i)].key <= b[n].key
    decreases n
  {
    if n != Parent(i) && Parent(n) != i {
      UnderParent(b, i, Parent(n));
      assert Edge(b, n);
    }
  }

  // A filler that does not fit keeps the order broken: the item that is added again bubbles up
  // elsewhere in the heap.
  lemma FillerStays<T>(b: seq<Elem<T>>, i: nat)
    requires i < |b| && OrderedAround(b, i) && !Fits(b, i)
    ensures !Ordered(Added(Removed(b, i), b[i]))
  {
    hide Down, Up, OrderedAround;
    var n, p := |b| - 1, Parent(i);
    FilledAround(b, i);
    var t := Filled(b, i);
    FillerUnmoved(t, i);
    if OnPath(p, n) {
      UnderParent(b, i, n);
    } else if OnPath(i, n) {
      AboveOnPath(i, n);
    } else {
      UpKeepsOthers(t + [b[i]], n, p);
      UpKeepsOthers(t + [b[i]], n, i);
      assert !Edge(Added(t, b[i]), i);
    }
  }

  // Removing an item and adding it again keeps the items, and the order is restored exactly when
  // what fills the hole fits there.
  lemma ReseatedOrdered<T>(b: seq<Elem<T>>, i: nat)
    requires i < |b| && OrderedAround(b, i)
    ensures multiset(Added(Removed(b, i), b[i])) == multiset(b)
    ensures Ordered(Added(Removed(b, i), b[i])) <==> Fits(b, i)
  {
    hide Ordered, Removed, OrderedAround, Fits, Up;
    var t := Removed(b, i);
    RemovedOrdered(b, i);
    RemovedPermutes(b, i);
    UpPermutes(t + [b[i]], |t|);
    assert b[i] in multiset(b);
    if Fits(b, i) {
      AddedOrdered(t, b[i]);
    } else {
      FillerStays(b, i);
    }
  }

  // A heap in which reseating an item breaks the order, even though its key has not changed.
  lemma ReseatCanBreakOrder()
    ensures
      var b := [Elem(0, 1), Elem(1, 10), Elem(2, 2), Elem(3, 11), Elem(4, 12), Elem(5, 3)];
      Ordered(b) && !Fits(b, 3) && !Ordered(Added(Removed(b, 3), b[3]))
  {
    var b := [Elem(0, 1), Elem(1, 10), Elem(2, 2), Elem(3, 11), Elem(4, 12), Elem(5, 3)];
    RemoveCanBreakOrder();
    OrderedIsAround(b, 3);
    ReseatedOrdered(b, 3);
  }
}
