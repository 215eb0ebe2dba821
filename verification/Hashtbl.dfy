/**
 The hash table: buckets of items in order of insertion, resized online by building a new array
 of buckets. The reference is one list of all items in order of insertion.
 */
module Hashtbl {
  import opened Optional

  datatype Key = Num(n: nat) | Str(s: string)

  // An item; `id` stands for the object, the key is what the table sorts it by.
  datatype Item = Item(id: nat, key: Key)

  // ---------- The reference: a list ----------

  // The items of one key, in order.
  function OfKey(s: seq<Item>, k: Key): seq<Item> {
    if s == [] then [] else if s[0].key == k then [s[0]] + OfKey(s[1..], k) else OfKey(s[1..], k)
  }

  // The first item of a key that satisfies a comparator.
  function First(s: seq<Item>, k: Key, cmp: Item -> bool): Option<Item> {
    if s == [] then None else if s[0].key == k && cmp(s[0]) then Some(s[0]) else First(s[1..], k, cmp)
  }

  function Without(s: seq<Item>, x: Item): seq<Item> {
    if s == [] then [] else if s[0] == x then s[1..] else [s[0]] + Without(s[1..], x)
  }

  ghost predicate NoRepeat(s: seq<Item>) {
    s != [] ==> s[0] !in s[1..] && NoRepeat(s[1..])
  }

  lemma {:induction false} OfKeyConcat(a: seq<Item>, b: seq<Item>, k: Key)
    ensures OfKey(a + b, k) == OfKey(a, k) + OfKey(b, k)
    decreases |a|
  {
    if a == [] {
      assert a + b == b;
    } else {
      OfKeyConcat(a[1..], b, k);
      assert (a + b)[1..] == a[1..] + b;
    }
  }

  // The items of a key are a selection of the list, in its order.
  lemma {:induction false} OfKeySelects(s: seq<Item>, k: Key) returns (at: seq<nat>)
    ensures |at| == |OfKey(s, k)| && forall i, j :: 0 <= i < j < |at| ==> at[i] < at[j]
    ensures forall i :: 0 <= i < |at| ==> at[i] < |s| && OfKey(s, k)[i] == s[at[i]]
    ensures forall i :: 0 <= i < |s| ==> (i in at <==> s[i].key == k)
    decreases |s|
  {
    at := [];
    if s != [] {
      var n := |s| - 1;
      at := OfKeySelects(s[..n], k);
      assert s == s[..n] + [s[n]];
      OfKeyConcat(s[..n], [s[n]], k);
      OfKeyOne(s[n], k);
      if s[n].key == k {
        at := at + [n];
      }
    }
  }

  lemma {:induction false} OfKeyMembers(s: seq<Item>, k: Key)
    ensures forall x :: x in OfKey(s, k) <==> x in s && x.key == k
    decreases |s|
  {
    if s != [] {
      OfKeyMembers(s[1..], k);
      assert s == [s[0]] + s[1..];
    }
  }

  // A search looks only at the items of its key.
  lemma {:induction false} FirstOfKey(s: seq<Item>, k: Key, cmp: Item -> bool)
    ensures First(s, k, cmp) == First(OfKey(s, k), k, cmp)
    decreases |s|
  {
    if s != [] {
      FirstOfKey(s[1..], k, cmp);
      if s[0].key == k {
        assert OfKey(s, k)[1..] == OfKey(s[1..], k);
      }
    }
  }

  // Position i holds a match, and no earlier position does.
  ghost predicate EarliestAt(s: seq<Item>, k: Key, cmp: Item -> bool, i: nat) {
    && i < |s| && s[i].key == k && cmp(s[i])
    && forall j :: 0 <= j < i && s[j].key == k ==> !cmp(s[j])
  }

  // An item is gone from a list, and nothing else has changed.
  ghost predicate Gone(s: seq<Item>, x: Item, t: seq<Item>) {
    exists i :: 0 <= i < |s| && s[i] == x && t == s[..i] + s[i + 1..]
  }

  lemma FoundThere(s: seq<Item>, k: Key, cmp: Item -> bool, x: Item)
    requires exists i: nat :: EarliestAt(s, k, cmp, i) && s[i] == x
    ensures x in s && x.key == k
  {}

  // What a search of the list finds: the earliest match.
  lemma {:induction false} FirstIsEarliest(s: seq<Item>, k: Key, cmp: Item -> bool)
    ensures match First(s, k, cmp)
      case None => forall x <- s :: x.key == k ==> !cmp(x)
      case Some(x) => exists i: nat :: EarliestAt(s, k, cmp, i) && s[i] == x
    decreases |s|
  {
    if s != [] {
      FirstIsEarliest(s[1..], k, cmp);
      assert s == [s[0]] + s[1..];
      if s[0].key == k && cmp(s[0]) {
        assert EarliestAt(s, k, cmp, 0);
      } else if First(s, k, cmp).Some? {
        var i: nat :| EarliestAt(s[1..], k, cmp, i) && s[1..][i] == First(s, k, cmp).value;
        forall j | 0 <= j < i + 1 && s[j].key == k
          ensures !cmp(s[j])
        {
          assert j > 0 ==> s[1..][j - 1] == s[j];
        }
        assert EarliestAt(s, k, cmp, i + 1);
      }
    }
  }

  lemma {:induction false} OfKeyWithout(s: seq<Item>, x: Item, k: Key)
    ensures OfKey(Without(s, x), k) == Without(OfKey(s, k), x)
    decreases |s|
  {
    if s != [] {
      OfKeyWithout(s[1..], x, k);
      if s[0] == x {
        if x.key != k {
          OfKeyMembers(s[1..], k);
          WithoutAbsent(OfKey(s[1..], k), x);
        } else {
          assert OfKey(s, k)[1..] == OfKey(s[1..], k);
        }
      } else {
        assert ([s[0]] + Without(s[1..], x))[1..] == Without(s[1..], x);
        if s[0].key == k {
          assert OfKey(s, k)[1..] == OfKey(s[1..], k);
        }
      }
    }
  }

  lemma {:induction false} WithoutAbsent(s: seq<Item>, x: Item)
    requires x !in s
    ensures Without(s, x) == s
    decreases |s|
  {
    if s != [] {
      WithoutAbsent(s[1..], x);
    }
  }

  lemma {:induction false} WithoutMembers(s: seq<Item>, x: Item)
    requires NoRepeat(s)
    ensures NoRepeat(Without(s, x)) && forall y :: y in Without(s, x) <==> y in s && y != x
    ensures |Without(s, x)| == if x in s then |s| - 1 else |s|
    decreases |s|
  {
    if s != [] {
      WithoutMembers(s[1..], x);
      assert s == [s[0]] + s[1..];
      assert ([s[0]] + Without(s[1..], x))[1..] == Without(s[1..], x);
    }
  }

  // Taking an item out closes the gap and moves nothing else.
  lemma {:induction false} WithoutIs(s: seq<Item>, x: Item) returns (i: nat)
    requires x in s
    ensures i < |s| && s[i] == x && Without(s, x) == s[..i] + s[i + 1..]
    decreases |s|
  {
    i := 0;
    if s[0] != x {
      assert s == [s[0]] + s[1..];
      var k := WithoutIs(s[1..], x);
      i := k + 1;
      assert s[..i] == [s[0]] + s[1..][..k] && s[i + 1..] == s[1..][k + 1..];
    }
  }

  lemma {:induction false} NoRepeatAppend(s: seq<Item>, x: Item)
    requires NoRepeat(s) && x !in s
    ensures NoRepeat(s + [x])
    decreases |s|
  {
    if s == [] {
      assert [x][1..] == [];
      assert s + [x] == [x];
    } else {
      NoRepeatAppend(s[1..], x);
      assert (s + [x])[1..] == s[1..] + [x];
    }
  }

  // ---------- Buckets ----------

  datatype Bucket = Bucket(items: seq<Item>, nitems: int, refcnt: int, gen: int, died: bool)

  // Bucket generations are kept in 16 bits, signed.
  function Gen16(g: nat): int {
    (g + 0x8000) % 0x1_0000 - 0x8000
  }

  // The generation of a bucket agrees with that of its table exactly for the first 32768
  // generations; a lookup in a later one never gets its bucket.
  lemma GenerationAgrees(g: nat)
    ensures Gen16(g) == g <==> g < 0x8000
  {}

  lemma GenerationMoves(g: nat)
    ensures Gen16(g) != g + 1
  {}

  function NewBucket(g: nat): Bucket {
    Bucket([], 0, 0, Gen16(g), false)
  }

  // A bucket holds the items of its place, counted.
  ghost predicate BucketOk(b: Bucket, hash: Key -> nat, place: nat, nb: nat)
    requires nb > 0
  {
    && b.nitems == |b.items| && b.refcnt == 0 && !b.died
    && forall x <- b.items :: hash(x.key) % nb == place
  }

  ghost predicate BucketsOk(bs: seq<Bucket>, hash: Key -> nat) {
    bs != [] && forall i :: 0 <= i < |bs| ==> BucketOk(bs[i], hash, i, |bs|)
  }

  // For every key, its bucket has the same items in the same order as the list.
  ghost predicate Agree(bs: seq<Bucket>, hash: Key -> nat, all: seq<Item>)
    requires bs != []
  {
    forall k :: OfKey(bs[hash(k) % |bs|].items, k) == OfKey(all, k)
  }

  lemma BucketOf(bs: seq<Bucket>, hash: Key -> nat, all: seq<Item>, x: Item)
    requires BucketsOk(bs, hash) && Agree(bs, hash, all)
    ensures x in all <==> x in bs[hash(x.key) % |bs|].items
  {
    OfKeyMembers(all, x.key);
    OfKeyMembers(bs[hash(x.key) % |bs|].items, x.key);
  }

  // One bucket changes, and the list with it.
  lemma BucketChanged(bs: seq<Bucket>, hash: Key -> nat, all: seq<Item>, j: nat, b: Bucket, all': seq<Item>)
    requires BucketsOk(bs, hash) && Agree(bs, hash, all) && j < |bs| && BucketOk(b, hash, j, |bs|)
    requires forall k :: hash(k) % |bs| == j ==> OfKey(b.items, k) == OfKey(all', k)
    requires forall k :: hash(k) % |bs| != j ==> OfKey(all', k) == OfKey(all, k)
    ensures BucketsOk(bs[j := b], hash) && Agree(bs[j := b], hash, all')
  {
    forall k
      ensures OfKey(bs[j := b][hash(k) % |bs|].items, k) == OfKey(all', k)
    {
      assert OfKey(bs[hash(k) % |bs|].items, k) == OfKey(all, k);
    }
  }

  lemma ItemAdded(bs: seq<Bucket>, hash: Key -> nat, all: seq<Item>, x: Item)
    requires BucketsOk(bs, hash) && Agree(bs, hash, all)
    ensures
      var j := hash(x.key) % |bs|;
      var b := bs[j].(items := bs[j].items + [x], nitems := bs[j].nitems + 1);
      BucketsOk(bs[j := b], hash) && Agree(bs[j := b], hash, all + [x])
  {
    var j := hash(x.key) % |bs|;
    var b := bs[j].(items := bs[j].items + [x], nitems := bs[j].nitems + 1);
    forall k
      ensures OfKey(all + [x], k) == OfKey(all, k) + OfKey([x], k)
      ensures OfKey(b.items, k) == OfKey(bs[j].items, k) + OfKey([x], k)
      ensures k != x.key ==> OfKey(all + [x], k) == OfKey(all, k)
    {
      OfKeyConcat(all, [x], k);
      OfKeyConcat(bs[j].items, [x], k);
    }
    BucketChanged(bs, hash, all, j, b, all + [x]);
  }

  lemma ItemRemoved(bs: seq<Bucket>, hash: Key -> nat, all: seq<Item>, x: Item)
    requires BucketsOk(bs, hash) && Agree(bs, hash, all) && x in all
    requires NoRepeat(bs[hash(x.key) % |bs|].items)
    ensures
      var j := hash(x.key) % |bs|;
      var b := bs[j].(items := Without(bs[j].items, x), nitems := bs[j].nitems - 1);
      x in bs[j].items && BucketsOk(bs[j := b], hash) && Agree(bs[j := b], hash, Without(all, x))
  {
    var j := hash(x.key) % |bs|;
    var b := bs[j].(items := Without(bs[j].items, x), nitems := bs[j].nitems - 1);
    BucketOf(bs, hash, all, x);
    WithoutMembers(bs[j].items, x);
    forall k
      ensures OfKey(Without(all, x), k) == Without(OfKey(all, k), x)
      ensures OfKey(b.items, k) == Without(OfKey(bs[j].items, k), x)
      ensures k != x.key ==> OfKey(Without(all, x), k) == OfKey(all, k)
    {
      OfKeyWithout(all, x, k);
      OfKeyWithout(bs[j].items, x, k);
      if k != x.key {
        OfKeyMembers(all, k);
        WithoutAbsent(OfKey(all, k), x);
      }
    }
    BucketChanged(bs, hash, all, j, b, Without(all, x));
  }

  // ---------- Moving to new buckets ----------

  // While items move, the new bucket of a key continues with what is left in the old one.
  ghost predicate Moving(bnew: seq<Bucket>, bold: seq<Bucket>, hash: Key -> nat, all: seq<Item>) {
    && BucketsOk(bnew, hash) && BucketsOk(bold, hash) && (forall b <- bnew :: NoRepeat(b.items))
    && forall k :: OfKey(bnew[hash(k) % |bnew|].items, k) + OfKey(bold[hash(k) % |bold|].items, k) == OfKey(all, k)
  }

  function WithItem(b: Bucket, p: Item): Bucket {
    b.(items := b.items + [p], nitems := b.nitems + 1)
  }

  function WithoutHead(b: Bucket): Bucket
    requires b.items != []
  {
    b.(items := b.items[1..], nitems := b.nitems - 1)
  }

  lemma {:induction false} OfKeyNoRepeat(s: seq<Item>, k: Key)
    requires NoRepeat(s)
    ensures NoRepeat(OfKey(s, k))
    decreases |s|
  {
    if s != [] {
      OfKeyNoRepeat(s[1..], k);
      OfKeyMembers(s[1..], k);
      if s[0].key == k {
        assert OfKey(s, k)[1..] == OfKey(s[1..], k);
      }
    }
  }

  lemma {:induction false} NotInFront(a: seq<Item>, b: seq<Item>, x: Item)
    requires NoRepeat(a + b) && x in b
    ensures x !in a
    decreases |a|
  {
    if a != [] {
      assert (a + b)[1..] == a[1..] + b;
      NotInFront(a[1..], b, x);
      assert a == [a[0]] + a[1..];
    }
  }

  // The head of an old bucket goes to the tail of its new one.
  lemma MoveItem(bnew: seq<Bucket>, bold: seq<Bucket>, hash: Key -> nat, all: seq<Item>, i: nat)
    requires Moving(bnew, bold, hash, all) && NoRepeat(all) && i < |bold| && bold[i].items != []
    ensures
      var p := bold[i].items[0];
      var j := hash(p.key) % |bnew|;
      Moving(bnew[j := WithItem(bnew[j], p)], bold[i := WithoutHead(bold[i])], hash, all)
  {
    var p := bold[i].items[0];
    var j := hash(p.key) % |bnew|;
    var b, o := WithItem(bnew[j], p), WithoutHead(bold[i]);
    MovedItemIsNew(bnew, bold, hash, all, i);
    NoRepeatAppend(bnew[j].items, p);
    MovedBuckets(bnew, bold, hash, i);
    forall k
      ensures OfKey(bnew[j := b][hash(k) % |bnew|].items, k) + OfKey(bold[i := o][hash(k) % |bold|].items, k)
        == OfKey(all, k)
    {
      MovedKey(bnew, bold, hash, i, k);
    }
  }

  lemma MovedItemIsNew(bnew: seq<Bucket>, bold: seq<Bucket>, hash: Key -> nat, all: seq<Item>, i: nat)
    requires Moving(bnew, bold, hash, all) && NoRepeat(all) && i < |bold| && bold[i].items != []
    ensures var p := bold[i].items[0]; p !in bnew[hash(p.key) % |bnew|].items
  {
    var p := bold[i].items[0];
    var a, b := bnew[hash(p.key) % |bnew|].items, bold[i].items;
    assert hash(p.key) % |bold| == i;
    OfKeyNoRepeat(all, p.key);
    OfKeyMembers(a, p.key);
    OfKeyMembers(b, p.key);
    NotInFront(OfKey(a, p.key), OfKey(b, p.key), p);
  }

  lemma MovedBuckets(bnew: seq<Bucket>, bold: seq<Bucket>, hash: Key -> nat, i: nat)
    requires BucketsOk(bnew, hash) && BucketsOk(bold, hash) && i < |bold| && bold[i].items != []
    ensures
      var p := bold[i].items[0];
      var j := hash(p.key) % |bnew|;
      BucketsOk(bnew[j := WithItem(bnew[j], p)], hash) && BucketsOk(bold[i := WithoutHead(bold[i])], hash)
  {
    var p := bold[i].items[0];
    var j := hash(p.key) % |bnew|;
    assert BucketOk(WithItem(bnew[j], p), hash, j, |bnew|);
    assert BucketOk(WithoutHead(bold[i]), hash, i, |bold|);
  }

  lemma MovedKey(bnew: seq<Bucket>, bold: seq<Bucket>, hash: Key -> nat, i: nat, k: Key)
    requires bnew != [] && BucketsOk(bold, hash) && i < |bold| && bold[i].items != []
    ensures
      var p := bold[i].items[0];
      var j := hash(p.key) % |bnew|;
      var jk, ik := hash(k) % |bnew|, hash(k) % |bold|;
      OfKey(bnew[j := WithItem(bnew[j], p)][jk].items, k) + OfKey(bold[i := WithoutHead(bold[i])][ik].items, k)
        == OfKey(bnew[jk].items, k) + OfKey(bold[ik].items, k)
  {
    hide BucketsOk, OfKey;
    var p := bold[i].items[0];
    var a, rest := bnew[hash(p.key) % |bnew|].items, bold[i].items[1..];
    HeadPlace(bold, hash, i);
    assert bold[i].items == [p] + rest;
    OfKeyConcat(a, [p], k);
    OfKeyConcat([p], rest, k);
    OfKeyOne(p, k);
    if k == p.key {
      assert OfKey(a, k) + [p] + OfKey(rest, k) == OfKey(a, k) + ([p] + OfKey(rest, k));
    } else {
      assert OfKey(a, k) + [] == OfKey(a, k) && [] + OfKey(rest, k) == OfKey(rest, k);
    }
  }

  lemma HeadPlace(bs: seq<Bucket>, hash: Key -> nat, i: nat)
    requires BucketsOk(bs, hash) && i < |bs| && bs[i].items != []
    ensures hash(bs[i].items[0].key) % |bs| == i
  {
    assert bs[i].items[0] in bs[i].items;
  }

  lemma OfKeyOne(p: Item, k: Key)
    ensures OfKey([p], k) == if p.key == k then [p] else []
  {
    assert [p][1..] == [];
  }

  // When nothing is left in the old buckets, the new ones agree with the list.
  lemma Moved(bnew: seq<Bucket>, bold: seq<Bucket>, hash: Key -> nat, all: seq<Item>)
    requires Moving(bnew, bold, hash, all) && forall b <- bold :: b.items == []
    ensures Agree(bnew, hash, all)
  {}

  lemma MovingFacts(bnew: seq<Bucket>, bold: seq<Bucket>, hash: Key -> nat, all: seq<Item>)
    requires Moving(bnew, bold, hash, all)
    ensures BucketsOk(bnew, hash) && (forall b <- bnew :: NoRepeat(b.items))
    ensures bold != [] && forall b <- bold :: b.refcnt == 0 && !b.died
  {}

  lemma StartMoving(bnew: seq<Bucket>, bold: seq<Bucket>, hash: Key -> nat, all: seq<Item>, g: nat)
    requires bnew != [] && (forall b <- bnew :: b == NewBucket(g)) && BucketsOk(bold, hash) && Agree(bold, hash, all)
    ensures Moving(bnew, bold, hash, all)
  {
    forall i | 0 <= i < |bnew|
      ensures bnew[i] == NewBucket(g)
    {
      assert bnew[i] in bnew;
    }
    forall k
      ensures OfKey(bnew[hash(k) % |bnew|].items, k) + OfKey(bold[hash(k) % |bold|].items, k) == OfKey(all, k)
    {
      assert [] + OfKey(all, k) == OfKey(all, k);
    }
  }

  ghost predicate OfGen(bs: seq<Bucket>, g: int) {
    forall i :: 0 <= i < |bs| ==> bs[i].gen == g
  }

  // Empty the old buckets one after the other, from the head of each, into new ones.
  method MoveAll(hash: Key -> nat, bold0: seq<Bucket>, nb: nat, g: nat, ghost all: seq<Item>)
    returns (bnew: seq<Bucket>, bold: seq<Bucket>)
    requires nb > 0 && BucketsOk(bold0, hash) && Agree(bold0, hash, all) && NoRepeat(all)
    ensures |bnew| == nb && |bold| == |bold0| && OfGen(bnew, Gen16(g))
    ensures forall i :: 0 <= i < |bold| ==> bold[i].gen == bold0[i].gen
    ensures Moving(bnew, bold, hash, all) && Agree(bnew, hash, all)
  {
    hide Agree, BucketsOk, Moving, Gen16, NoRepeat;
    bnew, bold := seq(nb, _ => NewBucket(g)), bold0;
    StartMoving(bnew, bold, hash, all, g);
    for i := 0 to |bold0|
      invariant |bnew| == nb && |bold| == |bold0| && Moving(bnew, bold, hash, all)
      invariant OfGen(bnew, Gen16(g)) && forall j :: 0 <= j < |bold| ==> bold[j].gen == bold0[j].gen
      invariant forall j :: 0 <= j < i ==> bold[j].items == []
    {
      while bold[i].items != []
        invariant |bnew| == nb && |bold| == |bold0| && Moving(bnew, bold, hash, all)
        invariant OfGen(bnew, Gen16(g)) && forall j :: 0 <= j < |bold| ==> bold[j].gen == bold0[j].gen
        invariant forall j :: 0 <= j < i ==> bold[j].items == []
        decreases |bold[i].items|
      {
        MoveItem(bnew, bold, hash, all, i);
        var p := bold[i].items[0];
        bold := bold[i := WithoutHead(bold[i])];
        var j := hash(p.key) % nb;
        bnew := bnew[j := WithItem(bnew[j], p)];
      }
    }
    Moved(bnew, bold, hash, all);
  }

  // Walk a bucket for the first match.
  method FindIn(items: seq<Item>, k: Key, cmp: Item -> bool) returns (r: Option<Item>)
    ensures r == First(items, k, cmp)
  {
    for i := 0 to |items|
      invariant First(items, k, cmp) == First(items[i..], k, cmp)
    {
      assert items[i..][1..] == items[i + 1..];
      if items[i].key != k {
        continue;
      }
      if cmp(items[i]) {
        return Some(items[i]);
      }
    }
    r := None;
  }

  // ---------- The table ----------

  class HashTable {
    const hash: Key -> nat
    var buckets: seq<Bucket>
    var gen: nat
    // while resizing: the old buckets and how many of them are still alive
    var resizing: bool
    var obuckets: Option<seq<Bucket>>
    var ocntr: int
    // every item, in order of insertion
    ghost var all: seq<Item>

    ghost predicate Valid()
      reads this
    {
      && BucketsOk(buckets, hash) && Agree(buckets, hash, all)
      && (forall b <- buckets :: b.gen == Gen16(gen) && NoRepeat(b.items)) && NoRepeat(all)
      && !resizing && obuckets == None
    }

    constructor (hash: Key -> nat, nb: nat)
      requires nb > 0
      ensures Valid() && all == [] && |buckets| == nb && this.hash == hash && gen == 0
    {
      this.hash := hash;
      buckets := seq(nb, _ => NewBucket(0));
      gen := 0;
      resizing := false;
      obuckets := None;
      ocntr := 0;
      all := [];
    }

    // Take a bucket. The generations agree for the first 32768 generations; in a later one this
    // does not return.
    method Get(k: Key) returns (j: nat, b: Bucket)
      requires Valid() && gen < 0x8000
      ensures j == hash(k) % |buckets| && b == buckets[j].(refcnt := 1)
    {
      GenerationAgrees(gen);
      j := hash(k) % |buckets|;
      b := buckets[j].(refcnt := buckets[j].refcnt + 1);
      assert b.gen == gen;
    }

    // Give a bucket back. An old bucket that nobody uses any more dies, and the last one to die
    // takes the old array with it.
    method Put(b: Bucket) returns (b': Bucket)
      modifies this`ocntr, this`obuckets, this`resizing
      ensures
        var dies := b.refcnt == 1 && b.gen != gen && old(resizing) && !b.died;
        && b' == b.(refcnt := b.refcnt - 1, died := b.died || dies)
        && ocntr == (if dies then old(ocntr) - 1 else old(ocntr))
        && (if dies && ocntr == 0 then obuckets == None && !resizing
            else obuckets == old(obuckets) && resizing == old(resizing))
    {
      b' := b.(refcnt := b.refcnt - 1);
      if b'.refcnt != 0 || b'.gen == gen || !resizing || b'.died {
        return;
      }
      b' := b'.(died := true);
      ocntr := ocntr - 1;
      if ocntr == 0 {
        obuckets := None;
        resizing := false;
      }
    }

    // What every bucket is between calls: counted, at rest, and with items of its own place only.
    ghost predicate AtRest()
      reads this
    {
      forall i :: 0 <= i < |buckets| ==>
        && buckets[i].nitems == |buckets[i].items| && buckets[i].refcnt == 0 && !buckets[i].died
        && forall x <- buckets[i].items :: hash(x.key) % |buckets| == i && x in all
    }

    lemma Resting()
      requires Valid()
      ensures AtRest()
    {
      forall i, x | 0 <= i < |buckets| && x in buckets[i].items
        ensures x in all
      {
        BucketOf(buckets, hash, all, x);
      }
    }

    method AddItem(x: Item)
      requires Valid() && gen < 0x8000 && x !in all
      modifies this
      ensures Valid() && all == old(all) + [x] && gen == old(gen) && AtRest()
    {
      var j, b := Get(x.key);
      ItemAdded(buckets, hash, all, x);
      NoRepeatAppend(all, x);
      BucketOf(buckets, hash, all, x);
      NoRepeatAppend(buckets[j].items, x);
      b := b.(items := b.items + [x], nitems := b.nitems + 1);
      b := Put(b);
      buckets := buckets[j := b];
      all := all + [x];
      Resting();
    }

    // Find the earliest item of a key that satisfies the comparator, and take it out if asked.
    method Search(k: Key, cmp: Item -> bool, del: bool) returns (r: Option<Item>)
      requires Valid() && gen < 0x8000
      modifies this
      ensures Valid() && r == First(old(all), k, cmp) && gen == old(gen) && AtRest()
      ensures r.None? ==> all == old(all) && forall x <- old(all) :: x.key == k ==> !cmp(x)
      ensures r.Some? ==> exists i: nat :: EarliestAt(old(all), k, cmp, i) && old(all)[i] == r.value
      ensures r.Some? ==> if del then Gone(old(all), r.value, all) else all == old(all)
    {
      hide First, OfKey, Without, EarliestAt;
      FirstIsEarliest(all, k, cmp);
      var j, b := Get(k);
      r := FindIn(b.items, k, cmp);
      FirstOfKey(all, k, cmp);
      FirstOfKey(b.items, k, cmp);
      if r.Some? && del {
        FoundThere(all, k, cmp, r.value);
        Taken(j, r.value);
        ghost var i := WithoutIs(all, r.value);
        b := b.(items := Without(b.items, r.value), nitems := b.nitems - 1);
        all := Without(all, r.value);
      }
      b := Put(b);
      buckets := buckets[j := b];
      Resting();
    }

    method Remove(x: Item)
      requires Valid() && gen < 0x8000 && x in all
      modifies this
      ensures Valid() && Gone(old(all), x, all) && gen == old(gen) && AtRest()
    {
      ghost var i := WithoutIs(all, x);
      var j, b := Get(x.key);
      Taken(j, x);
      assert b.nitems > 0;
      b := b.(items := Without(b.items, x), nitems := b.nitems - 1);
      b := Put(b);
      buckets := buckets[j := b];
      all := Without(all, x);
      Resting();
    }

    // Build a new array of buckets and move every item over. No item is lost or reordered among
    // items of its key, so no search changes its result.
    method Resize(nb: nat)
      requires Valid() && nb > 0
      modifies this
      ensures Valid() && all == old(all) && gen == old(gen) + 1 && |buckets| == nb && AtRest()
    {
      hide Agree, BucketsOk, Moving, Gen16, AtRest;
      GenerationMoves(gen);
      gen := gen + 1;
      resizing, obuckets, ocntr := true, Some(buckets), |buckets|;
      var bnew, bold := MoveAll(hash, buckets, nb, gen, all);
      MovingFacts(bnew, bold, hash, all);
      buckets := bnew;
      obuckets := Some(bold);
      Release(bold);
      Resting();
    }

    // Give every old bucket back once. The old array goes with the last of them, not before.
    method Release(bold: seq<Bucket>)
      requires resizing && obuckets == Some(bold) && ocntr == |bold| > 0
      requires forall b <- bold :: b.refcnt == 0 && !b.died && b.gen != gen
      modifies this`ocntr, this`obuckets, this`resizing
      ensures ocntr == 0 && obuckets == None && !resizing
    {
      var i := 0;
      while i < |bold|
        invariant 0 <= i <= |bold| && ocntr == |bold| - i
        invariant resizing <==> i < |bold|
        invariant obuckets == if i < |bold| then Some(bold) else None
      {
        var b := Put(bold[i].(refcnt := bold[i].refcnt + 1));
        assert b.died;
        i := i + 1;
      }
    }

    lemma Taken(j: nat, x: Item)
      requires Valid() && x in all && j == hash(x.key) % |buckets|
      ensures
        var b := buckets[j].(items := Without(buckets[j].items, x), nitems := buckets[j].nitems - 1);
        && buckets[j].nitems > 0 && NoRepeat(b.items) && NoRepeat(Without(all, x))
        && BucketsOk(buckets[j := b], hash) && Agree(buckets[j := b], hash, Without(all, x))
    {
      BucketOf(buckets, hash, all, x);
      ItemRemoved(buckets, hash, all, x);
      WithoutMembers(buckets[j].items, x);
      WithoutMembers(all, x);
    }
  }
}
