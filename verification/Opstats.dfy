/**
 The registry of operation statistics: an array sorted by name, searched by bisection, with one
 statistic per name.
 */
module Opstats {
  import opened Dynarray

  const NAME_MAX: nat := 127

  // ---------- Names ----------

  // String comparison.
  function StrCmp(a: string, b: string): int {
    if a == [] && b == [] then 0
    else if a == [] then -1
    else if b == [] then 1
    else if a[0] < b[0] then -1
    else if a[0] > b[0] then 1
    else StrCmp(a[1..], b[1..])
  }

  // Strings compare by the first character that differs, and a proper prefix is less.
  lemma {:induction false} StrCmpIs(a: string, b: string, k: nat)
    requires k <= |a| && k <= |b| && a[..k] == b[..k]
    ensures k < |a| && k < |b| && a[k] < b[k] ==> StrCmp(a, b) < 0
    ensures k < |a| && k < |b| && a[k] > b[k] ==> StrCmp(a, b) > 0
    ensures k == |a| < |b| ==> StrCmp(a, b) < 0
    ensures k == |b| < |a| ==> StrCmp(a, b) > 0
    ensures k == |a| == |b| ==> StrCmp(a, b) == 0
    decreases k
  {
    if k > 0 {
      assert a[0] == a[..k][0] && b[0] == b[..k][0];
      assert a[1..][..k - 1] == a[..k][1..] && b[1..][..k - 1] == b[..k][1..];
      StrCmpIs(a[1..], b[1..], k - 1);
    }
  }

  lemma {:induction false} StrCmpEqual(a: string, b: string)
    ensures StrCmp(a, b) == 0 <==> a == b
    decreases |a|
  {
    if a != [] && b != [] && a[0] == b[0] {
      StrCmpEqual(a[1..], b[1..]);
      assert a == [a[0]] + a[1..] && b == [b[0]] + b[1..];
    }
  }

  lemma {:induction false} StrCmpSwap(a: string, b: string)
    ensures StrCmp(a, b) < 0 <==> StrCmp(b, a) > 0
    decreases |a|
  {
    if a != [] && b != [] && a[0] == b[0] {
      StrCmpSwap(a[1..], b[1..]);
    }
  }

  lemma {:induction false} StrCmpTrans(a: string, b: string, c: string)
    requires StrCmp(a, b) < 0 && StrCmp(b, c) < 0
    ensures StrCmp(a, c) < 0
    decreases |a|
  {
    if a != [] && b != [] && c != [] && a[0] == b[0] && b[0] == c[0] {
      StrCmpTrans(a[1..], b[1..], c[1..]);
    }
  }

  ghost predicate Sorted(names: seq<string>) {
    forall i, j :: 0 <= i < j < |names| ==> StrCmp(names[i], names[j]) < 0
  }

  // Everything before p is less than the name, and nothing from p on is.
  ghost predicate IsPlace(names: seq<string>, name: string, p: nat) {
    && p <= |names| && (forall i :: 0 <= i < p ==> StrCmp(names[i], name) < 0)
    && (forall i :: p <= i < |names| ==> StrCmp(names[i], name) >= 0)
  }

  // In a sorted list there is one such place.
  lemma PlaceUnique(names: seq<string>, name: string, p: nat, q: nat)
    requires IsPlace(names, name, p) && IsPlace(names, name, q)
    ensures p == q
  {
    var atP := if p < |names| then StrCmp(names[p], name) else 0;
    var atQ := if q < |names| then StrCmp(names[q], name) else 0;
  }

  lemma Above(names: seq<string>, name: string, m: nat)
    requires Sorted(names) && m < |names| && StrCmp(names[m], name) > 0
    ensures forall i :: m <= i < |names| ==> StrCmp(names[i], name) > 0
  {
    forall i | m <= i < |names|
      ensures StrCmp(names[i], name) > 0
    {
      StrCmpSwap(name, names[m]);
      StrCmpSwap(name, names[i]);
      if m < i {
        StrCmpTrans(name, names[m], names[i]);
      }
    }
  }

  lemma Under(names: seq<string>, name: string, m: nat)
    requires Sorted(names) && m < |names| && StrCmp(names[m], name) < 0
    ensures forall i :: 0 <= i <= m ==> StrCmp(names[i], name) < 0
  {
    forall i | 0 <= i <= m
      ensures StrCmp(names[i], name) < 0
    {
      if i < m {
        StrCmpTrans(names[i], names[m], name);
      }
    }
  }

  lemma FoundPlace(names: seq<string>, name: string, m: nat)
    requires Sorted(names) && m < |names| && names[m] == name
    ensures IsPlace(names, name, m)
  {
    StrCmpEqual(name, name);
    forall i | m < i < |names|
      ensures StrCmp(names[i], name) >= 0
    {
      StrCmpSwap(name, names[i]);
    }
  }

  lemma NotThere(names: seq<string>, name: string)
    requires forall i :: 0 <= i < |names| ==> StrCmp(names[i], name) != 0
    ensures name !in names
  {
    StrCmpEqual(name, name);
  }

  // ---------- The registry ----------

  // Names are cut to what fits the name buffer.
  function Cut(name: string): (r: string)
    ensures |r| <= NAME_MAX
  {
    if |name| <= NAME_MAX then name else name[..NAME_MAX]
  }

  // The flag of a creation that must not find the name taken.
  predicate Exclusive(flags: nat) {
    flags / 2 % 2 == 1
  }

  class Opstat {
    const name: string
    const flags: nat

    constructor (name: string, flags: nat)
      ensures this.name == name && this.flags == flags
    {
      this.name := name;
      this.flags := flags;
    }
  }

  function NamesOf(s: seq<Opstat>): (n: seq<string>)
    ensures |n| == |s|
  {
    seq(|s|, i requires 0 <= i < |s| => s[i].name)
  }

  // Bisection: the position of a name, or the one where it belongs.
  method Bsearch(d: PscDynarray<Opstat?>, name: string, ghost list: seq<Opstat>) returns (mid: nat)
    requires d.Valid() && d.Contents() == list && Sorted(NamesOf(list))
    ensures IsPlace(NamesOf(list), name, mid)
    ensures name in NamesOf(list) <==> mid < |list| && list[mid].name == name
  {
    ghost var names := NamesOf(list);
    var min, max := 0, d.pos - 1;
    mid := 0;
    while min <= max
      invariant 0 <= min <= |names| && -1 <= max < |names| && min <= max + 1
      invariant forall i :: 0 <= i < min ==> StrCmp(names[i], name) < 0
      invariant forall i :: max < i < |names| ==> StrCmp(names[i], name) > 0
      invariant min > max ==> mid == min
      decreases max - min
    {
      mid := (max + min) / 2;
      var p := d.items[mid];
      assert p == list[mid];
      var rc := StrCmp(name, p.name);
      StrCmpSwap(name, names[mid]);
      StrCmpSwap(names[mid], name);
      StrCmpEqual(name, names[mid]);
      if rc < 0 {
        Above(names, name, mid);
        max := mid - 1;
      } else if rc > 0 {
        Under(names, name, mid);
        min := mid + 1;
        mid := mid + 1;
      } else {
        FoundPlace(names, name, mid);
        return;
      }
    }
    NotThere(names, name);
    assert mid < |names| ==> names[mid] in names && names[mid] == list[mid].name;
  }

  // A name goes in at its place, and the list stays sorted.
  lemma InsertSorted(s: seq<Opstat>, p: nat, x: Opstat)
    requires Sorted(NamesOf(s)) && IsPlace(NamesOf(s), x.name, p) && x.name !in NamesOf(s)
    ensures Sorted(NamesOf(Spliced(s, p, 0, [x])))
  {
    var t := Spliced(s, p, 0, [x]);
    var n, m := NamesOf(s), NamesOf(t);
    forall i, j | 0 <= i < j < |m|
      ensures StrCmp(m[i], m[j]) < 0
    {
      if j == p {
        assert m[i] == n[i];
      } else if i == p {
        assert m[j] == n[j - 1];
        StrCmpEqual(n[j - 1], x.name);
        StrCmpSwap(x.name, n[j - 1]);
      } else {
        assert m[i] == n[if i < p then i else i - 1] && m[j] == n[if j < p then j else j - 1];
      }
    }
  }

  lemma RemoveSorted(s: seq<Opstat>, p: nat)
    requires Sorted(NamesOf(s)) && p < |s|
    ensures Sorted(NamesOf(Spliced(s, p, 1, [])))
  {
    var t := Spliced(s, p, 1, []);
    var n, m := NamesOf(s), NamesOf(t);
    forall i | 0 <= i < |m|
      ensures m[i] == n[if i < p then i else i + 1]
    {}
  }

  class Registry {
    const stats: PscDynarray<Opstat?>
    ghost var list: seq<Opstat>

    ghost predicate Valid()
      reads this, stats, stats.items
    {
      stats.Valid() && stats.Contents() == list && Sorted(NamesOf(list))
    }

    constructor ()
      ensures Valid() && fresh(stats) && fresh(stats.items) && list == []
    {
      stats := new PscDynarray<Opstat?>(null);
      list := [];
      new;
    }

    // The statistic of a name: the one there is, or a new one in its place.
    method Create(flags: nat, name: string) returns (o: Opstat)
      requires Valid() && (Exclusive(flags) ==> Cut(name) !in NamesOf(list))
      modifies this, stats, stats.items
      ensures Valid() && (stats.items == old(stats.items) || fresh(stats.items))
      ensures o in list && o.name == (if |name| <= 127 then name else name[..127])
      ensures flags / 2 % 2 == 1 ==> fresh(o)
      ensures Cut(name) in NamesOf(old(list)) ==> list == old(list)
      ensures Cut(name) !in NamesOf(old(list)) ==>
        fresh(o) && o.flags == flags && exists p ::
          0 <= p <= |old(list)| && IsPlace(NamesOf(old(list)), o.name, p) && list == Spliced(old(list), p, 0, [o])
    {
      hide Sorted, IsPlace, StrCmp, SpliceMemory, Padded;
      var n := Cut(name);
      var pos := Bsearch(stats, n, list);
      PlaceBound(NamesOf(list), n, pos);
      if pos < stats.pos {
        assert stats.items[pos] == list[pos];
        var q := stats.items[pos];
        if StrCmp(n, q.name) == 0 {
          StrCmpEqual(n, q.name);
          assert q.name == NamesOf(list)[pos];
          assert !Exclusive(flags);
          return q;
        }
      }
      StrCmpEqual(n, n);
      o := new Opstat(n, flags);
      InsertSorted(list, pos, o);
      stats.Splice(pos, 0, [o]);
      SplicedIn(list, pos, o);
      list := Spliced(list, pos, 0, [o]);
    }

    // Take a statistic out of the registry; the others stay, in their order.
    method Destroy(o: Opstat)
      requires Valid() && o in list
      modifies this, stats, stats.items
      ensures Valid() && (stats.items == old(stats.items) || fresh(stats.items))
      ensures exists p :: 0 <= p < |old(list)| && old(list)[p] == o && list == Spliced(old(list), p, 1, [])
    {
      hide Sorted, IsPlace, StrCmp, SpliceMemory, Padded;
      var pos := Bsearch(stats, o.name, list);
      ghost var k :| 0 <= k < |list| && list[k] == o;
      assert NamesOf(list)[k] == o.name;
      OneOfName(list, k, pos);
      assert stats.items[pos] == o;
      RemoveSorted(list, pos);
      stats.Splice(pos, 1, []);
      list := Spliced(list, pos, 1, []);
    }
  }

  lemma SplicedIn(s: seq<Opstat>, p: nat, o: Opstat)
    requires p <= |s|
    ensures o in Spliced(s, p, 0, [o])
  {
    assert Spliced(s, p, 0, [o])[p] == o;
  }

  lemma PlaceBound(names: seq<string>, name: string, p: nat)
    requires IsPlace(names, name, p)
    ensures p <= |names|
  {}

  // Names are unique.
  lemma OneOfName(s: seq<Opstat>, i: nat, j: nat)
    requires Sorted(NamesOf(s)) && i < |s| && j < |s| && s[i].name == s[j].name
    ensures i == j
  {
    StrCmpEqual(s[i].name, s[j].name);
    StrCmpEqual(s[j].name, s[i].name);
    assert NamesOf(s)[i] == NamesOf(s)[j];
  }
}
