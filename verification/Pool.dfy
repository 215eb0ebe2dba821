/**
 Pools of objects: a free list and a total, kept between a minimum and a maximum. Growing
 allocates without the lock, so growers may overlap; everything else is one locked region.
 */
module Pool {
  import opened Optional

  function Min(a: int, b: int): int {
    if a < b then a else b
  }

  function Max(a: int, b: int): int {
    if a < b then b else a
  }

  // ---------- The pool as a state machine ----------

  // Objects by number. `growers` holds, for each call to grow, how many objects it may still add on
  // the strength of the total it has read. A maximum of zero means none.
  datatype State = State(
    free: seq<nat>, out: set<nat>, total: int, min: nat, max: nat, auto: bool, thres: nat, growers: seq<nat>)

  datatype Action =
    | GrowBegin(n: nat)
    | GrowAdd(call: nat, obj: nat)
    | GrowStop(call: nat)
    | Shrink(n: nat)
    | TryGet
    | Return(obj: nat)
    | Limits(min: nat, max: nat)

  predicate Enabled(s: State, a: Action) {
    match a
    case GrowBegin(n) => n > 0
    case GrowAdd(k, obj) => k < |s.growers| && s.growers[k] > 0 && obj !in s.free && obj !in s.out
    case GrowStop(k) => k < |s.growers|
    case Shrink(_) => true
    case TryGet => true
    case Return(obj) => obj in s.out
    case Limits(_, _) => true
  }

  // How much a grower may add, as it reads the total.
  function Grant(s: State, n: nat): nat {
    if s.max == 0 then n else Max(0, Min(n, s.max - s.total))
  }

  // How many objects a shrink takes off the free list.
  function Taken(s: State, n: nat): nat {
    Max(0, Min(n, Min(s.total - s.min, |s.free|)))
  }

  // Whether a returned object is let go rather than kept.
  predicate LetGo(s: State) {
    && s.auto && s.total > s.min
    && ((s.max > 0 && s.total > s.max) || |s.free| > s.total * s.thres / 100)
  }

  function Apply(s: State, a: Action): State
    requires Enabled(s, a)
  {
    match a
    case GrowBegin(n) => s.(growers := s.growers + [Grant(s, n)])
    case GrowAdd(k, obj) =>
      s.(total := s.total + 1, free := s.free + [obj], growers := s.growers[k := s.growers[k] - 1])
    case GrowStop(k) => s.(growers := s.growers[k := 0])
    case Shrink(n) => s.(total := s.total - Taken(s, n), free := s.free[Min(Taken(s, n), |s.free|)..])
    case TryGet => if s.free == [] then s else s.(free := s.free[1..], out := s.out + {s.free[0]})
    case Return(obj) =>
      if LetGo(s) then s.(total := s.total - 1, out := s.out - {obj})
      else s.(free := s.free + [obj], out := s.out - {obj})
    case Limits(lo, hi) => s.(min := lo, max := hi)
  }

  ghost predicate NoRepeat(q: seq<nat>) {
    forall i, j :: 0 <= i < j < |q| ==> q[i] != q[j]
  }

  // Every object is free or handed out, not both, and the total counts them.
  ghost predicate Inv(s: State) {
    s.total == |s.free| + |s.out| && NoRepeat(s.free) && forall x <- s.free :: x !in s.out
  }

  lemma StepKeepsInv(s: State, a: Action)
    requires Inv(s) && Enabled(s, a)
    ensures Inv(Apply(s, a))
  {
    match a
    case GrowAdd(k, obj) => AddKeeps(s, k, obj);
    case Return(obj) => ReturnKeeps(s, obj);
    case TryGet => GetKeeps(s);
    case Shrink(n) => ShrinkKeeps(s, n);
    case _ =>
  }

  lemma AddKeeps(s: State, k: nat, obj: nat)
    requires Inv(s) && Enabled(s, GrowAdd(k, obj))
    ensures Inv(Apply(s, GrowAdd(k, obj)))
  {
    hide NoRepeat;
    AddedAtEnd(s.free, obj);
  }

  lemma ReturnKeeps(s: State, obj: nat)
    requires Inv(s) && obj in s.out
    ensures Inv(Apply(s, Return(obj)))
  {
    hide NoRepeat, LetGo;
    assert s.out == (s.out - {obj}) + {obj};
    AddedAtEnd(s.free, obj);
  }

  lemma GetKeeps(s: State)
    requires Inv(s)
    ensures Inv(Apply(s, TryGet))
  {
    hide NoRepeat;
    if s.free != [] {
      Dropped(s.free, 1);
      assert s.free[0] in s.free[..1];
      assert s.free[0] in s.free;
      assert forall x <- s.free[1..] :: x in s.free;
    }
  }

  lemma ShrinkKeeps(s: State, n: nat)
    requires Inv(s)
    ensures Inv(Apply(s, Shrink(n)))
  {
    hide NoRepeat, Taken;
    TakenBound(s, n);
    Dropped(s.free, Taken(s, n));
    assert forall x <- s.free[Taken(s, n)..] :: x in s.free;
  }

  lemma AddedAtEnd(q: seq<nat>, x: nat)
    requires NoRepeat(q) && x !in q
    ensures NoRepeat(q + [x])
  {}

  lemma Dropped(q: seq<nat>, k: nat)
    requires NoRepeat(q) && k <= |q|
    ensures NoRepeat(q[k..]) && forall x <- q[..k] :: x !in q[k..]
  {
    assert forall i :: 0 <= i < |q| - k ==> q[k..][i] == q[k + i];
  }

  lemma TakenBound(s: State, n: nat)
    ensures Taken(s, n) <= |s.free|
  {}

  // What a step can do to the total: only shrinking and returning lower it, and not below the
  // minimum.
  lemma NotBelowMinimum(s: State, a: Action)
    requires Inv(s) && Enabled(s, a)
    ensures Apply(s, a).total < s.total ==> (a.Shrink? || a.Return?) && Apply(s, a).total >= s.min
  {}

  ghost predicate Legal(s: State, acts: seq<Action>)
    decreases |acts|
  {
    acts != [] ==> Enabled(s, acts[0]) && Legal(Apply(s, acts[0]), acts[1..])
  }

  ghost function Exec(s: State, acts: seq<Action>): State
    requires Legal(s, acts)
    decreases |acts|
  {
    if acts == [] then s else Exec(Apply(s, acts[0]), acts[1..])
  }

  // Conservation over every run.
  lemma {:induction false} RunKeepsInv(s: State, acts: seq<Action>)
    requires Inv(s) && Legal(s, acts)
    ensures Inv(Exec(s, acts))
    decreases |acts|
  {
    hide Apply, Enabled, Inv;
    if acts != [] {
      StepKeepsInv(s, acts[0]);
      RunKeepsInv(Apply(s, acts[0]), acts[1..]);
    }
  }

  // A run keeps at or above a minimum that does not change.
  lemma {:induction false} StaysAboveMinimum(s: State, acts: seq<Action>)
    requires Inv(s) && Legal(s, acts) && s.total >= s.min && forall a <- acts :: !a.Limits?
    ensures Exec(s, acts).total >= s.min && Exec(s, acts).min == s.min
    decreases |acts|
  {
    hide Inv, Enabled;
    if acts != [] {
      assert acts[0] in acts && forall a <- acts[1..] :: a in acts;
      StepKeepsInv(s, acts[0]);
      NotBelowMinimum(s, acts[0]);
      StaysAboveMinimum(Apply(s, acts[0]), acts[1..]);
    }
  }

  // The limits are those set last.
  lemma {:induction false} LimitsAre(s: State, acts: seq<Action>)
    requires Legal(s, acts)
    ensures var t := Exec(s, acts); (t.min, t.max) == LimitsAfter(acts, (s.min, s.max))
    decreases |acts|
  {
    if acts != [] {
      LimitsAre(Apply(s, acts[0]), acts[1..]);
    }
  }

  function LimitsAfter(acts: seq<Action>, before: (nat, nat)): (nat, nat)
    decreases |acts|
  {
    if acts == [] then before
    else LimitsAfter(acts[1..], match acts[0] case Limits(lo, hi) => (lo, hi) case _ => before)
  }

  // A call to grow adds no more than it may, and nothing once it has stopped.
  lemma {:induction false} AddsWithinGrant(s: State, acts: seq<Action>, k: nat)
    requires Legal(s, acts) && k < |s.growers|
    ensures var t := Exec(s, acts);
      && k < |t.growers| && AddsOf(acts, k) + t.growers[k] <= s.growers[k]
      && (GrowStop(k) !in acts ==> AddsOf(acts, k) + t.growers[k] == s.growers[k])
      && (acts != [] && acts[0] == GrowStop(k) ==> AddsOf(acts, k) == 0)
    decreases |acts|
  {
    if acts != [] {
      assert acts == [acts[0]] + acts[1..];
      AddsWithinGrant(Apply(s, acts[0]), acts[1..], k);
    }
  }

  function AddsOf(acts: seq<Action>, k: nat): nat {
    if acts == [] then 0 else (if acts[0].GrowAdd? && acts[0].call == k then 1 else 0) + AddsOf(acts[1..], k)
  }

  // ---------- The maximum ----------

  function Sum(q: seq<nat>): nat {
    if q == [] then 0 else Sum(q[..|q| - 1]) + q[|q| - 1]
  }

  // The total there will be when every call to grow has added all it may.
  function Promised(s: State): int {
    s.total + Sum(s.growers)
  }

  lemma {:induction false} SumUpdated(q: seq<nat>, k: nat, v: nat)
    requires k < |q|
    ensures Sum(q[k := v]) == Sum(q) - q[k] + v
  {
    var n := |q| - 1;
    if k < n {
      SumUpdated(q[..n], k, v);
      assert q[k := v][..n] == q[..n][k := v];
    } else {
      assert q[k := v][..n] == q[..n];
    }
  }

  lemma {:induction false} SomePositive(q: seq<nat>) returns (k: nat)
    requires Sum(q) > 0
    ensures k < |q| && q[k] > 0
  {
    var n := |q| - 1;
    if q[n] > 0 {
      k := n;
    } else {
      k := SomePositive(q[..n]);
    }
  }

  // What a step does to the promise: only a new call to grow raises it, by its grant.
  lemma StepPromised(s: State, a: Action)
    requires Inv(s) && Enabled(s, a) && !a.Limits?
    ensures Promised(Apply(s, a)) <= Promised(s) + (if a.GrowBegin? then Grant(s, a.n) else 0)
    ensures Apply(s, a).max == s.max
  {
    hide Inv, Grant, LetGo;
    match a
    case GrowBegin(n) => assert (s.growers + [Grant(s, n)])[..|s.growers|] == s.growers;
    case GrowAdd(k, _) => SumUpdated(s.growers, k, s.growers[k] - 1);
    case GrowStop(k) => SumUpdated(s.growers, k, 0);
    case _ =>
  }

  // No call to grow begins while another may still add.
  ghost predicate NoOverlap(s: State, acts: seq<Action>)
    requires Legal(s, acts)
    decreases |acts|
  {
    acts != [] ==>
      && (acts[0].GrowBegin? ==> Sum(s.growers) == 0)
      && !acts[0].Limits? && NoOverlap(Apply(s, acts[0]), acts[1..])
  }

  // Growing never takes the total above the maximum as long as calls to grow do not overlap.
  lemma {:induction false} StaysWithinMaximum(s: State, acts: seq<Action>)
    requires Inv(s) && Legal(s, acts) && NoOverlap(s, acts) && 0 < s.max && Promised(s) <= s.max
    ensures Promised(Exec(s, acts)) <= s.max && Exec(s, acts).total <= s.max
    decreases |acts|
  {
    hide Inv, Enabled, Apply;
    if acts != [] {
      StepKeepsInv(s, acts[0]);
      StepPromised(s, acts[0]);
      StaysWithinMaximum(Apply(s, acts[0]), acts[1..]);
    }
  }

  // Two calls that overlap can exceed it.
  lemma OverlapExceeds()
    ensures
      var s := State([], {}, 0, 0, 1, false, 80, []);
      var acts := [GrowBegin(1), GrowBegin(1), GrowAdd(0, 10), GrowAdd(1, 11)];
      Inv(s) && Legal(s, acts) && Exec(s, acts).total > s.max
  {
    var s0 := State([], {}, 0, 0, 1, false, 80, []);
    var s1 := Apply(s0, GrowBegin(1));
    var s2 := Apply(s1, GrowBegin(1));
    var s3 := Apply(s2, GrowAdd(0, 10));
    ExecStep(s3, GrowAdd(1, 11), []);
    ExecStep(s2, GrowAdd(0, 10), [GrowAdd(1, 11)]);
    ExecStep(s1, GrowBegin(1), [GrowAdd(0, 10), GrowAdd(1, 11)]);
    ExecStep(s0, GrowBegin(1), [GrowBegin(1), GrowAdd(0, 10), GrowAdd(1, 11)]);
  }

  // Runs in which the calls to grow are the ones already begun, and the limits stay.
  ghost predicate Settling(acts: seq<Action>) {
    forall a <- acts :: !a.GrowBegin? && !a.Limits?
  }

  // Exactly when the calls to grow that have begun cannot take the total above the maximum,
  // whatever else happens: when what they may still add fits.
  lemma MaximumCondition(s: State)
    requires Inv(s)
    ensures
      (forall acts :: Legal(s, acts) && Settling(acts) ==> Exec(s, acts).total <= s.max) <==> Promised(s) <= s.max
  {
    hide *;
    var all := AddAll(s);
    if Promised(s) <= s.max {
      forall acts | Legal(s, acts) && Settling(acts)
        ensures Exec(s, acts).total <= s.max
      {
        SettlingPromised(s, acts);
      }
    } else {
      assert Legal(s, all) && Settling(all) && Exec(s, all).total > s.max;
    }
  }

  lemma {:induction false} SettlingPromised(s: State, acts: seq<Action>)
    requires Inv(s) && Legal(s, acts) && Settling(acts)
    ensures Exec(s, acts).total <= Promised(s)
    decreases |acts|
  {
    hide Inv, Enabled, Apply;
    if acts != [] {
      assert acts[0] in acts && forall a <- acts[1..] :: a in acts;
      StepKeepsInv(s, acts[0]);
      StepPromised(s, acts[0]);
      SettlingPromised(Apply(s, acts[0]), acts[1..]);
    }
  }

  // The run in which every call adds all it may.
  lemma {:induction false} AddAll(s: State) returns (acts: seq<Action>)
    requires Inv(s)
    ensures Legal(s, acts) && Settling(acts) && Exec(s, acts).total == Promised(s)
    decreases Sum(s.growers)
  {
    hide Inv;
    acts := [];
    if Sum(s.growers) > 0 {
      var k := SomePositive(s.growers);
      var used := (set x <- s.free) + s.out;
      var obj := Above(used);
      assert obj !in used;
      var a := GrowAdd(k, obj);
      SumUpdated(s.growers, k, s.growers[k] - 1);
      StepKeepsInv(s, a);
      var rest := AddAll(Apply(s, a));
      ExecStep(s, a, rest);
      acts := [a] + rest;
    }
  }

  lemma {:induction false} Above(xs: set<nat>) returns (n: nat)
    ensures forall x <- xs :: x < n
  {
    n := 0;
    if xs != {} {
      var x :| x in xs;
      var m := Above(xs - {x});
      n := Max(m, x + 1);
      assert forall y <- xs :: y == x || y in xs - {x};
    }
  }

  lemma ExecStep(s: State, a: Action, rest: seq<Action>)
    requires Enabled(s, a) && Legal(Apply(s, a), rest)
    ensures [a] + rest != [] && Legal(s, [a] + rest) && Exec(s, [a] + rest) == Exec(Apply(s, a), rest)
  {
    hide Enabled, Apply;
    assert ([a] + rest)[1..] == rest;
  }

  // ---------- The pool manager ----------

  class PoolMgr {
    var free: seq<nat>
    var total: int
    var min: nat
    var max: nat
    var auto: bool
    var thres: nat
    // the objects handed out
    ghost var out: set<nat>

    ghost function St(): State
      reads this
    {
      State(free, out, total, min, max, auto, thres, [])
    }

    ghost predicate Valid()
      reads this
    {
      Inv(St())
    }

    constructor (min: nat, max: nat, auto: bool, thres: nat)
      ensures Valid() && total == 0 && free == [] && out == {}
      ensures this.min == min && this.max == max && this.auto == auto && this.thres == thres
    {
      free, total, out := [], 0, {};
      this.min, this.max, this.auto, this.thres := min, max, auto, thres;
    }

    // Add up to n objects, as many as the maximum and the memory allow: it stops short only at one of
    // these, and without a maximum only at the memory. `mem` is what allocation yields before it
    // fails.
    method TryGrow(n: nat, mem: seq<nat>) returns (i: nat)
      requires Valid() && n > 0 && NoRepeat(mem) && forall x <- mem :: x !in free && x !in out
      modifies this`free, this`total
      ensures Valid() && i == Min(Grant(old(St()), n), |mem|)
      ensures i <= n && i <= |mem| && (max > 0 && i > 0 ==> total <= max)
      ensures i == n || i == |mem| || (max > 0 && total >= max)
      ensures free == old(free) + mem[..i] && total == old(total) + i
    {
      i := 0;
      var grant := n;
      if max > 0 {
        if total == max {
          return;
        }
        grant := Max(0, Min(n, max - total));
      }
      while i < grant
        invariant 0 <= i <= grant && i <= |mem| && Valid()
        invariant free == old(free) + mem[..i] && total == old(total) + i
      {
        if i == |mem| {
          return;
        }
        assert mem[i] in mem && mem[i] !in mem[..i];
        total := total + 1;
        free := free + [mem[i]];
        assert mem[..i + 1] == mem[..i] + [mem[i]];
        i := i + 1;
      }
    }

    // Free up to n objects, as many as the minimum and the free list allow.
    method TryShrink(n: nat) returns (i: nat)
      requires Valid()
      modifies this`free, this`total
      ensures Valid() && St() == Apply(old(St()), Shrink(n)) && i == Taken(old(St()), n)
      ensures i <= n && i <= |old(free)| && free == old(free)[i..] && total == old(total) - i && (i > 0 ==> total >= min)
      ensures i == n || free == [] || total <= min
    {
      i := 0;
      while i < n && total > min
        invariant 0 <= i <= n && i <= |old(free)| && Valid()
        invariant total == old(total) - i && free == old(free)[i..] && (i > 0 ==> total >= min)
      {
        if free == [] {
          break;
        }
        assert forall k :: 0 <= k < |free[1..]| ==> free[1..][k] == free[k + 1];
        free := free[1..];
        total := total - 1;
        i := i + 1;
      }
    }

    // Bring the total to a wanted value, within the limits and as far as free objects allow.
    method SetTotal(wanted: nat, mem: seq<nat>) returns (adj: nat)
      requires Valid() && NoRepeat(mem) && forall x <- mem :: x !in free && x !in out
      modifies this`free, this`total
      ensures Valid()
      ensures
        var goal := Clamp(wanted, min, max);
        if goal < old(total) then total == Min(old(total), Max(goal, Max(min, |out|)))
        else total == old(total) + Min(Grant(old(St()), goal - old(total)), |mem|)
      ensures
        var goal := if max > 0 && wanted > max then max else if wanted < min then min else wanted;
        if goal < old(total) then
          && goal <= total <= old(total) && adj == old(total) - total
          && (total == goal || free == [] || total <= min)
        else
          && old(total) <= total <= goal && adj == total - old(total)
          && (total == goal || adj == |mem| || (max > 0 && total >= max))
    {
      var goal := Clamp(wanted, min, max);
      if goal < total {
        adj := TryShrink(total - goal);
      } else if goal > total {
        adj := TryGrow(goal - total, mem);
      } else {
        adj := 0;
      }
    }

    // Bring the total back between the limits, as far as free objects and memory allow.
    method Resize(mem: seq<nat>)
      requires Valid() && NoRepeat(mem) && forall x <- mem :: x !in free && x !in out
      modifies this`free, this`total
      ensures Valid()
      ensures
        if max > 0 && old(total) > max then total == Min(old(total), Max(max, Max(min, |out|)))
        else if old(total) < min then total == old(total) + Min(Grant(old(St()), min - old(total)), |mem|)
        else total == old(total)
      ensures
        if max > 0 && old(total) > max then
          max <= total <= old(total) && (total == max || free == [] || total <= min)
        else if old(total) < min then
          && old(total) <= total <= min
          && (total == min || total == old(total) + |mem| || (max > 0 && total >= max))
        else total == old(total)
    {
      if max > 0 && total > max {
        var shrunk := TryShrink(total - max);
      } else if total < min {
        var grown := TryGrow(min - total, mem);
      }
    }

    // Take a free object, if there is one.
    method TryGet() returns (r: Option<nat>)
      requires Valid()
      modifies this`free, this`out
      ensures Valid() && St() == Apply(old(St()), Action.TryGet)
      ensures r == if old(free) == [] then None else Some(old(free)[0])
      ensures r.None? ==> free == [] && out == old(out)
      ensures r.Some? ==> free == old(free)[1..] && out == old(out) + {r.value}
    {
      StepKeepsInv(St(), Action.TryGet);
      if free == [] {
        return None;
      }
      r := Some(free[0]);
      free := free[1..];
      out := out + {r.value};
    }

    // Give an object back: it is kept, or let go when there are too many.
    method Return(obj: nat)
      requires Valid() && obj in out
      modifies this`free, this`total, this`out
      ensures Valid() && St() == Apply(old(St()), Action.Return(obj)) && out == old(out) - {obj}
      ensures
        if auto && old(total) > min && ((max > 0 && old(total) > max) || |old(free)| > old(total) * thres / 100)
        then free == old(free) && total == old(total) - 1
        else free == old(free) + [obj] && total == old(total)
    {
      StepKeepsInv(St(), Action.Return(obj));
      if auto && total > min && ((max > 0 && total > max) || |free| > total * thres / 100) {
        total := total - 1;
      } else {
        free := free + [obj];
      }
      out := out - {obj};
    }
  }

  function Clamp(wanted: nat, lo: nat, hi: nat): nat {
    if hi > 0 && wanted > hi then hi else if wanted < lo then lo else wanted
  }
}
