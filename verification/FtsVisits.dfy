/**
 The tour said outright, without following the walk: which places of the hierarchy are visited,
 what each visit shows, and in which order they come.
 */
module FtsVisits {
  import opened FtsTour

  // A way down from a root: the entries on it, and the position of each in the directory before
  // it, of the first among the roots.
  datatype Spot = Spot(at: seq<nat>, way: seq<Dirent>)

  // A visit of the end of a way: on the way in, or on leaving a directory.
  datatype Mark = Mark(spot: Spot, closing: bool)

  // ---------- What is visited ----------

  // The entries "." and ".." are listed on demand only.
  predicate Listed(c: Config, e: Dirent) {
    c.seeDot || (e.name != "." && e.name != "..")
  }

  predicate SameDevice(a: Kind, b: Kind) {
    a.Dir? && b.Dir? && a.id.dev == b.id.dev
  }

  function Last(way: seq<Dirent>): Dirent
    requires way != []
  {
    way[|way| - 1]
  }

  // A directory that is on the way already.
  ghost predicate Repeats(way: seq<Dirent>)
    requires way != []
  {
    exists e <- way[..|way| - 1] :: e.kind == Last(way).kind
  }

  // What the end of a way is seen as.
  ghost function InfoOf(way: seq<Dirent>): (info: Info)
    requires way != []
    ensures info == D ==> Last(way).kind.Dir?
  {
    var e := Last(way);
    match e.kind
    case Dir(_) =>
      if |way| > 1 && (e.name == "." || e.name == "..") then DOT else if Repeats(way) then DC else D
    case Regular => F
    case Link => SL
    case Dangling => SLNONE
    case NoStat => NS
    case Special => DEFAULT
  }

  // The directory at the end of a way is entered.
  ghost predicate Entered(c: Config, way: seq<Dirent>)
    requires way != []
  {
    InfoOf(way) == D && Last(way).kind.id in c.fs && (c.xdev ==> SameDevice(way[0].kind, Last(way).kind))
  }

  // Entry i is listed in the directory before it, which is entered.
  ghost predicate Step(c: Config, p: Spot, i: nat)
    requires 0 < i < |p.way| == |p.at|
  {
    && Entered(c, p.way[..i])
    && var es := c.fs[p.way[i - 1].kind.id];
       p.at[i] < |es| && p.way[i] == es[p.at[i]] && Listed(c, p.way[i])
  }

  ghost predicate OnWay(c: Config, roots: seq<Dirent>, p: Spot) {
    && 0 < |p.way| == |p.at| && p.at[0] < |roots| && p.way[0] == roots[p.at[0]]
    && forall i :: 0 < i < |p.way| ==> Step(c, p, i)
  }

  ghost predicate Made(c: Config, roots: seq<Dirent>, m: Mark) {
    OnWay(c, roots, m.spot) && (m.closing ==> InfoOf(m.spot.way) == D)
  }

  // ---------- What a visit shows ----------

  function LevelOf(way: seq<Dirent>): nat
    requires way != []
  {
    if |way| - 1 < 0x7fff_ffff then |way| - 1 else 0x7fff_ffff
  }

  function Slashed(es: seq<Dirent>): string {
    if es == [] then "" else Slashed(es[..|es| - 1]) + "/" + es[|es| - 1].name
  }

  function Unslashed(name: string): string {
    if name != [] && name[|name| - 1] == '/' then name[..|name| - 1] else name
  }

  // The names joined by slashes; one at the end of the root's name is not doubled.
  function PathOf(way: seq<Dirent>): string
    requires way != []
  {
    if |way| == 1 then way[0].name else Unslashed(way[0].name) + Slashed(way[1..])
  }

  // On leaving: an unreadable directory is told apart, and an empty one has lost its slash.
  ghost function VisitOf(c: Config, m: Mark): Visit
    requires m.spot.way != []
  {
    var way := m.spot.way;
    var e, level, path := Last(way), LevelOf(way), PathOf(way);
    if !m.closing || !e.kind.Dir? then Visit(InfoOf(way), level, path)
    else if c.xdev && !SameDevice(way[0].kind, e.kind) then Visit(DP, level, path)
    else if e.kind.id !in c.fs then Visit(DNR, level, path)
    else Visit(DP, level, if exists d <- c.fs[e.kind.id] :: Listed(c, d) then path else Unslashed(path))
  }

  // ---------- The order of visits ----------

  // A directory comes before what is below it, and again after it; what is in one directory comes
  // in the order of that directory.
  ghost predicate Earlier(x: Mark, y: Mark) {
    var a, b := x.spot.at, y.spot.at;
    if a == b then !x.closing && y.closing
    else if a <= b then !x.closing
    else if b <= a then y.closing
    else exists k :: 0 <= k < |a| && k < |b| && a[..k] == b[..k] && a[k] < b[k]
  }

  ghost predicate Shows(c: Config, ms: seq<Mark>, vs: seq<Visit>) {
    && |ms| == |vs|
    && (forall i :: 0 <= i < |ms| ==> ms[i].spot.way != [] && vs[i] == VisitOf(c, ms[i]))
    && (forall i, j :: 0 <= i < j < |ms| ==> Earlier(ms[i], ms[j]))
  }

  // The visits are those of exactly the places that are visited, each once, in order.
  ghost predicate IsTour(c: Config, roots: seq<Dirent>, vs: seq<Visit>) {
    exists ms :: Shows(c, ms, vs) && forall m :: m in ms <==> Made(c, roots, m)
  }

  lemma ShowsConcat(c: Config, ms: seq<Mark>, vs: seq<Visit>, ns: seq<Mark>, ws: seq<Visit>)
    requires Shows(c, ms, vs) && Shows(c, ns, ws) && forall x, y :: x in ms && y in ns ==> Earlier(x, y)
    ensures Shows(c, ms + ns, vs + ws)
  {
    hide Earlier, VisitOf;
    var l := ms + ns;
    forall i, j | 0 <= i < j < |l|
      ensures Earlier(l[i], l[j])
    {
      if i < |ms| <= j {
        assert l[i] in ms && l[j] in ns;
      }
    }
  }

  lemma ShowsNone(c: Config)
    ensures Shows(c, [], [])
  {}

  lemma ShowsOne(c: Config, m: Mark)
    requires m.spot.way != []
    ensures Shows(c, [m], [VisitOf(c, m)])
  {}

  lemma EarlierBeside(at: seq<nat>, x: Mark, y: Mark)
    requires at < x.spot.at && at < y.spot.at && x.spot.at[|at|] < y.spot.at[|at|]
    ensures Earlier(x, y)
  {
    var a, b := x.spot.at, y.spot.at;
    assert a[..|at|] == at && b[..|at|] == at;
  }

  // Where two sequences differ first.
  lemma FirstDifference(a: seq<nat>, b: seq<nat>, k: nat, l: nat)
    requires k < |a| && k < |b| && l < |a| && l < |b| && a[..k] == b[..k] && a[..l] == b[..l] && a[k] < b[k]
    ensures a[l] <= b[l]
  {
    if l < k {
      assert a[..k][l] == b[..k][l];
    }
  }

  lemma EarlierAsymmetric(x: Mark, y: Mark)
    requires Earlier(x, y)
    ensures !Earlier(y, x)
  {
    var a, b := x.spot.at, y.spot.at;
    if !(a <= b) && !(b <= a) {
      var k :| 0 <= k < |a| && k < |b| && a[..k] == b[..k] && a[k] < b[k];
      forall l: nat | l < |a| && l < |b| && b[..l] == a[..l]
        ensures a[l] <= b[l]
      {
        FirstDifference(a, b, k, l);
      }
    }
  }

  // So there is one tour only.
  lemma TourUnique(c: Config, roots: seq<Dirent>, vs: seq<Visit>, ws: seq<Visit>)
    requires IsTour(c, roots, vs) && IsTour(c, roots, ws)
    ensures vs == ws
  {
    hide Earlier, VisitOf, Made;
    var ms: seq<Mark> :| Shows(c, ms, vs) && forall m :: m in ms <==> Made(c, roots, m);
    var ns :| Shows(c, ns, ws) && forall m :: m in ns <==> Made(c, roots, m);
    SortedUnique(ms, ns);
  }

  lemma {:induction false} SortedUnique(ms: seq<Mark>, ns: seq<Mark>)
    requires forall i, j :: 0 <= i < j < |ms| ==> Earlier(ms[i], ms[j])
    requires forall i, j :: 0 <= i < j < |ns| ==> Earlier(ns[i], ns[j])
    requires forall m :: m in ms <==> m in ns
    ensures ms == ns
    decreases |ms|
  {
    hide Earlier;
    BothEmpty(ms, ns);
    BothEmpty(ns, ms);
    if ms != [] {
      SameFirst(ms, ns);
      NotAgain(ms);
      NotAgain(ns);
      assert ms == [ms[0]] + ms[1..] && ns == [ns[0]] + ns[1..];
      assert forall m :: (m in ms[1..] <==> m in ms && m != ms[0]) && (m in ns[1..] <==> m in ns && m != ns[0]);
      SortedUnique(ms[1..], ns[1..]);
    }
  }

  lemma BothEmpty(ms: seq<Mark>, ns: seq<Mark>)
    requires forall m :: m in ms ==> m in ns
    ensures ms != [] ==> ns != []
  {
    if ms != [] {
      assert ms[0] in ns;
    }
  }

  lemma SameFirst(ms: seq<Mark>, ns: seq<Mark>)
    requires ms != [] && ns != []
    requires forall i, j :: 0 <= i < j < |ms| ==> Earlier(ms[i], ms[j])
    requires forall i, j :: 0 <= i < j < |ns| ==> Earlier(ns[i], ns[j])
    requires forall m :: m in ms <==> m in ns
    ensures ms[0] == ns[0]
  {
    hide Earlier;
    assert ms[0] in ns && ns[0] in ms;
    var i :| 0 <= i < |ms| && ms[i] == ns[0];
    var j :| 0 <= j < |ns| && ns[j] == ms[0];
    if i > 0 && j > 0 {
      EarlierAsymmetric(ms[0], ns[0]);
    }
  }

  lemma NotAgain(ms: seq<Mark>)
    requires ms != [] && forall i, j :: 0 <= i < j < |ms| ==> Earlier(ms[i], ms[j])
    ensures ms[0] !in ms[1..]
  {
    hide Earlier;
    if ms[0] in ms[1..] {
      var j :| 0 <= j < |ms[1..]| && ms[1..][j] == ms[0];
      EarlierAsymmetric(ms[0], ms[j + 1]);
    }
  }

  // ---------- The walk makes these visits ----------

  lemma {:induction false} ShownStep(c: Config, es: seq<Dirent>)
    ensures es != [] ==> Shown(c.seeDot, es) == (if Listed(c, es[0]) then [es[0]] else []) + Shown(c.seeDot, es[1..])
    ensures Shown(c.seeDot, es) != [] <==> exists e <- es :: Listed(c, e)
    decreases |es|
  {
    if es != [] {
      ShownStep(c, es[1..]);
      assert es == [es[0]] + es[1..];
    }
  }

  function IdsOf(way: seq<Dirent>): set<Id> {
    set e | e in way && e.kind.Dir? :: e.kind.id
  }

  // The walk's test against the directories above sees what is on the way already.
  lemma ClassifiedAs(way: seq<Dirent>, e: Dirent)
    requires way != []
    ensures Classify(IdsOf(way), e) == InfoOf(way + [e])
  {
    var w := way + [e];
    assert w[..|way|] == way && Last(w) == e;
    if e.kind.Dir? && e.kind.id in IdsOf(way) {
      var d :| d in way && d.kind.Dir? && d.kind.id == e.kind.id;
      assert d in w[..|way|] && d.kind == e.kind;
    }
  }

  lemma IdsGrow(way: seq<Dirent>, e: Dirent)
    requires e.kind.Dir?
    ensures IdsOf(way + [e]) == IdsOf(way) + {e.kind.id}
  {
    assert forall d :: d in way + [e] <==> d in way || d == e;
  }

  lemma LevelGrows(way: seq<Dirent>, e: Dirent)
    requires way != []
    ensures LevelOf(way + [e]) == Deeper(LevelOf(way))
  {}

  lemma Unslash(path: string)
    ensures Unslashed(path) == Stem(path)
  {}

  // Joining a name extends the path.
  lemma PathGrows(way: seq<Dirent>, e: Dirent)
    requires way != [] && (|way| > 1 ==> ValidName(Last(way).name))
    ensures PathOf(way + [e]) == Join(PathOf(way), e.name)
  {
    var w := way + [e];
    Unslash(PathOf(way));
    if |way| == 1 {
      assert w[1..] == [e] && [e][..0] == [];
      assert Slashed([e]) == "" + "/" + e.name;
    } else {
      var t := way[1..];
      assert w[1..] == t + [e] && (t + [e])[..|t|] == t;
      assert Slashed(t + [e]) == Slashed(t) + "/" + e.name;
      EndsInName(way);
      assert Stem(PathOf(way)) == PathOf(way);
    }
  }

  lemma EndsInName(way: seq<Dirent>)
    requires |way| > 1 && ValidName(Last(way).name)
    ensures Unslashed(PathOf(way)) == PathOf(way)
  {
    var p, name, t := PathOf(way), Last(way).name, way[1..];
    assert t[|t| - 1] == Last(way);
    assert p == Unslashed(way[0].name) + (Slashed(t[..|t| - 1]) + "/" + name);
    assert p[|p| - 1] == name[|name| - 1];
    assert name[|name| - 1] in name;
  }

  // The place of an entry of a directory.
  function Child(p: Spot, k: nat, e: Dirent): Spot {
    Spot(p.at + [k], p.way + [e])
  }

  lemma ChildOnWay(c: Config, roots: seq<Dirent>, p: Spot, k: nat)
    requires OnWay(c, roots, p) && Entered(c, p.way) && k < |c.fs[Last(p.way).kind.id]|
    requires Listed(c, c.fs[Last(p.way).kind.id][k])
    ensures OnWay(c, roots, Child(p, k, c.fs[Last(p.way).kind.id][k]))
  {
    hide Listed;
    var q := Child(p, k, c.fs[Last(p.way).kind.id][k]);
    forall i | 0 < i < |q.way|
      ensures Step(c, q, i)
    {
      assert q.way[..i] == p.way[..i];
      if i < |p.way| {
        assert Step(c, p, i);
      } else {
        assert p.way[..i] == p.way;
      }
    }
  }

  // The first entry on a way is a directory if there is a second.
  lemma FirstIsDir(c: Config, roots: seq<Dirent>, p: Spot)
    requires OnWay(c, roots, p) && Last(p.way).kind.Dir?
    ensures p.way[0].kind.Dir?
  {
    if |p.way| > 1 {
      assert Step(c, p, 1);
      assert p.way[..1] == [p.way[0]];
    }
  }

  // What is below a directory, from entry k on.
  ghost predicate Under(c: Config, roots: seq<Dirent>, p: Spot, k: nat, m: Mark) {
    Made(c, roots, m) && p.at < m.spot.at && p.way < m.spot.way && |p.at| == |p.way| && m.spot.at[|p.at|] >= k
  }

  // What comes after the first visit of a directory, up to its last.
  ghost predicate Inside(c: Config, roots: seq<Dirent>, p: Spot, m: Mark) {
    Made(c, roots, m) && p.at <= m.spot.at && p.way <= m.spot.way && m != Mark(p, false)
  }

  // A way that goes on enters its directory, by a listed entry.
  lemma GoesOn(c: Config, roots: seq<Dirent>, p: Spot, m: Mark)
    requires OnWay(c, roots, p) && Under(c, roots, p, 0, m)
    ensures Entered(c, p.way)
    ensures
      var es, k := c.fs[Last(p.way).kind.id], m.spot.at[|p.at|];
      k < |es| && Listed(c, es[k]) && Child(p, k, es[k]).at <= m.spot.at && Child(p, k, es[k]).way <= m.spot.way
  {
    hide Entered, Listed;
    var n := |p.way|;
    assert Step(c, m.spot, n);
    assert m.spot.way[..n] == p.way;
    assert m.spot.at == p.at + m.spot.at[n..] && m.spot.way == p.way + m.spot.way[n..];
  }

  // The device of the root of a way, which the walk keeps in hand.
  function DevOf(way: seq<Dirent>): nat
    requires way != []
  {
    if way[0].kind.Dir? then way[0].kind.id.dev else 0
  }

  ghost function ListVisits(c: Config, way: seq<Dirent>, es: seq<Dirent>): seq<Visit>
    requires way != []
  {
    ListTour(c, DevOf(way), IdsOf(way), Deeper(LevelOf(way)), PathOf(way), Shown(c.seeDot, es))
  }

  // What follows the first visit of the end of a way.
  ghost function BelowVisits(c: Config, way: seq<Dirent>): seq<Visit>
    requires way != [] && Last(way).kind.Dir? && Last(way).kind.id !in IdsOf(way[..|way| - 1])
  {
    Below(c, DevOf(way), IdsOf(way[..|way| - 1]), LevelOf(way), PathOf(way), Last(way).kind.id)
  }

  lemma NewOnWay(way: seq<Dirent>)
    requires way != [] && InfoOf(way) == D
    ensures Last(way).kind.Dir? && Last(way).kind.id !in IdsOf(way[..|way| - 1])
  {
    assert forall d <- way[..|way| - 1] :: d.kind != Last(way).kind;
  }

  // One entry of a directory: its visit, what is below it, and the other entries.
  lemma ListStep(c: Config, way: seq<Dirent>, es: seq<Dirent>)
    requires way != [] && es != [] && (|way| > 1 ==> ValidName(Last(way).name))
    ensures
      var w := way + [es[0]];
      && (InfoOf(w) == D ==> Last(w).kind.Dir? && Last(w).kind.id !in IdsOf(w[..|w| - 1]))
      && ListVisits(c, way, es) ==
           (if Listed(c, es[0]) then
              [Visit(InfoOf(w), LevelOf(w), PathOf(w))] + if InfoOf(w) == D then BelowVisits(c, w) else []
            else []) + ListVisits(c, way, es[1..])
  {
    hide InfoOf, PathOf, LevelOf, Deeper, Join, Shown, Listed, Below, IdsOf, Classify;
    var w := way + [es[0]];
    ShownStep(c, es);
    ClassifiedAs(way, es[0]);
    LevelGrows(way, es[0]);
    PathGrows(way, es[0]);
    assert w[..|way|] == way;
    if InfoOf(w) == D {
      NewOnWay(w);
    }
    var ss, rest := Shown(c.seeDot, es), Shown(c.seeDot, es[1..]);
    if Listed(c, es[0]) {
      assert ss[0] == es[0] && ss[1..] == rest;
      var level, path := Deeper(LevelOf(way)), Join(PathOf(way), es[0].name);
      assert InfoOf(w) == D ==> BelowVisits(c, w) == Below(c, DevOf(way), IdsOf(way), level, path, es[0].kind.id);
    } else {
      assert ss == rest;
    }
  }

  // A directory that is entered: what is in it, and the way out.
  lemma BelowStep(c: Config, way: seq<Dirent>, p: Spot)
    requires way == p.way && way != [] && InfoOf(way) == D && way[0].kind.Dir?
    ensures Last(way).kind.Dir? && Last(way).kind.id !in IdsOf(way[..|way| - 1])
    ensures BelowVisits(c, way) ==
      (if Entered(c, way) then ListVisits(c, way, c.fs[Last(way).kind.id]) else []) + [VisitOf(c, Mark(p, true))]
  {
    hide InfoOf, PathOf, LevelOf, Deeper, Shown, Listed, IdsOf, Stem, Unslashed, Repeats;
    NewOnWay(way);
    Unslash(PathOf(way));
    var e := Last(way);
    IdsGrow(way[..|way| - 1], e);
    assert way == way[..|way| - 1] + [e];
    if e.kind.id in c.fs {
      ShownStep(c, c.fs[e.kind.id]);
    }
  }

  lemma NameOnWay(c: Config, roots: seq<Dirent>, p: Spot)
    requires FsOk(c) && OnWay(c, roots, p)
    ensures |p.way| > 1 ==> ValidName(Last(p.way).name)
  {
    hide ValidName, InfoOf, Listed;
    var n := |p.way| - 1;
    if n > 0 {
      assert Step(c, p, n);
      assert p.way[..n][n - 1] == p.way[n - 1];
      assert NamesOk(c.fs[p.way[n - 1].kind.id]);
    }
  }

  lemma OnWayShape(c: Config, roots: seq<Dirent>, p: Spot)
    requires OnWay(c, roots, p)
    ensures 0 < |p.way| == |p.at|
  {}

  // What is below an entry, and what is its own.
  lemma InsideIs(c: Config, roots: seq<Dirent>, p: Spot, m: Mark)
    requires OnWay(c, roots, p)
    ensures Inside(c, roots, p, m) <==> (m == Mark(p, true) && InfoOf(p.way) == D) || Under(c, roots, p, 0, m)
    ensures Under(c, roots, p, 0, m) ==> Entered(c, p.way) && InfoOf(p.way) == D
  {
    hide InfoOf, Step;
    if Under(c, roots, p, 0, m) {
      GoesOn(c, roots, p, m);
    }
    if Inside(c, roots, p, m) && |m.spot.at| == |p.at| {
      assert m.spot == p;
    }
  }

  ghost predicate AtEntry(c: Config, roots: seq<Dirent>, q: Spot, m: Mark)
    requires q.way != []
  {
    m == Mark(q, false) || (InfoOf(q.way) == D && Inside(c, roots, q, m))
  }

  // What is below a directory is at one of its entries or later.
  lemma UnderIs(c: Config, roots: seq<Dirent>, p: Spot, k: nat, m: Mark)
    requires OnWay(c, roots, p) && Entered(c, p.way) && k < |c.fs[Last(p.way).kind.id]|
    ensures
      var e := c.fs[Last(p.way).kind.id][k];
      var q := Child(p, k, e);
      Under(c, roots, p, k, m) <==> Under(c, roots, p, k + 1, m) || (Listed(c, e) && AtEntry(c, roots, q, m))
  {
    hide Step, InfoOf, Listed, Inside;
    var e := c.fs[Last(p.way).kind.id][k];
    var q := Child(p, k, e);
    if Listed(c, e) {
      ChildOnWay(c, roots, p, k);
      InsideIs(c, roots, q, m);
      InsideMeans(c, roots, q, m);
    }
    if Under(c, roots, p, k, m) {
      GoesOn(c, roots, p, m);
    }
  }

  lemma InsideMeans(c: Config, roots: seq<Dirent>, p: Spot, m: Mark)
    ensures Inside(c, roots, p, m) <==> Made(c, roots, m) && p.at <= m.spot.at && p.way <= m.spot.way && m != Mark(p, false)
  {}

  // The entries of a directory from k on.
  lemma {:induction false} ListMarks(c: Config, roots: seq<Dirent>, p: Spot, k: nat) returns (ms: seq<Mark>)
    requires FsOk(c) && OnWay(c, roots, p) && Entered(c, p.way) && k <= |c.fs[Last(p.way).kind.id]|
    ensures Shows(c, ms, ListVisits(c, p.way, c.fs[Last(p.way).kind.id][k..]))
    ensures forall m :: m in ms <==> Under(c, roots, p, k, m)
    decreases |c.fs.Keys - IdsOf(p.way)|, |c.fs[Last(p.way).kind.id]| - k
  {
    hide Shows, OnWay, Under, Inside, InfoOf, Listed, ListVisits, BelowVisits, VisitOf, FsOk, IdsOf;
    OnWayShape(c, roots, p);
    var es := c.fs[Last(p.way).kind.id];
    if k == |es| {
      ms := [];
      NoneListed(c, roots, p);
      assert es[k..] == [];
      return;
    }
    var q := Child(p, k, es[k]);
    var rest := ListMarks(c, roots, p, k + 1);
    NameOnWay(c, roots, p);
    ListStep(c, p.way, es[k..]);
    assert es[k..][0] == es[k] && es[k..][1..] == es[k + 1..];
    forall m
      ensures Under(c, roots, p, k, m) <==> Under(c, roots, p, k + 1, m) || (Listed(c, es[k]) && AtEntry(c, roots, q, m))
    {
      UnderIs(c, roots, p, k, m);
    }
    if !Listed(c, es[k]) {
      ms := rest;
      assert ListVisits(c, p.way, es[k..]) == ListVisits(c, p.way, es[k + 1..]);
      return;
    }
    ChildOnWay(c, roots, p, k);
    assert q.way[..|p.way|] == p.way;
    var below := [];
    ShowsNone(c);
    if InfoOf(q.way) == D {
      below := BelowMarks(c, roots, q);
    }
    ms := [Mark(q, false)] + below + rest;
    forall m <- rest
      ensures p.at < m.spot.at && m.spot.at[|p.at|] > k
    {
      UnderLater(c, roots, p, k + 1, m);
    }
    OneEntry(c, roots, p, k, q, below, rest);
    var here := [Visit(InfoOf(q.way), LevelOf(q.way), PathOf(q.way))] + if InfoOf(q.way) == D then BelowVisits(c, q.way) else [];
    ShowsConcat(c, [Mark(q, false)] + below, here, rest, ListVisits(c, p.way, es[k + 1..]));
  }

  lemma UnderLater(c: Config, roots: seq<Dirent>, p: Spot, k: nat, m: Mark)
    requires Under(c, roots, p, k, m)
    ensures p.at < m.spot.at && m.spot.at[|p.at|] >= k
  {}

  lemma NoneListed(c: Config, roots: seq<Dirent>, p: Spot)
    requires OnWay(c, roots, p) && Entered(c, p.way)
    ensures Shows(c, [], ListVisits(c, p.way, []))
    ensures forall m :: !Under(c, roots, p, |c.fs[Last(p.way).kind.id]|, m)
  {
    hide Listed, InfoOf;
    forall m
      ensures !Under(c, roots, p, |c.fs[Last(p.way).kind.id]|, m)
    {
      if Under(c, roots, p, 0, m) {
        GoesOn(c, roots, p, m);
      }
    }
  }

  // The marks of one entry, of what is below it and of the entries after it.
  lemma OneEntry(c: Config, roots: seq<Dirent>, p: Spot, k: nat, q: Spot, below: seq<Mark>, rest: seq<Mark>)
    requires |p.way| == |p.at| && q.at == p.at + [k] && 0 < |q.way| == |q.at|
    requires InfoOf(q.way) == D ==> Last(q.way).kind.Dir? && Last(q.way).kind.id !in IdsOf(q.way[..|q.way| - 1])
    requires Shows(c, below, if InfoOf(q.way) == D then BelowVisits(c, q.way) else [])
    requires forall m <- below :: Inside(c, roots, q, m)
    requires forall m <- rest :: p.at < m.spot.at && m.spot.at[|p.at|] > k
    ensures forall x, y :: x in [Mark(q, false)] + below && y in rest ==> Earlier(x, y)
    ensures Shows(c, [Mark(q, false)] + below,
                  [Visit(InfoOf(q.way), LevelOf(q.way), PathOf(q.way))]
                  + if InfoOf(q.way) == D then BelowVisits(c, q.way) else [])
  {
    hide InfoOf, BelowVisits, Earlier, Made, LevelOf, PathOf, IdsOf;
    var first := Mark(q, false);
    forall m <- below
      ensures Earlier(first, m)
    {
      InsideLater(c, roots, q, m);
    }
    ShowsOne(c, first);
    ShowsConcat(c, [first], [VisitOf(c, first)], below, if InfoOf(q.way) == D then BelowVisits(c, q.way) else []);
    forall x, y | x in [first] + below && y in rest
      ensures Earlier(x, y)
    {
      assert x == first || x in below;
      assert p.at < x.spot.at && x.spot.at[|p.at|] == k;
      EarlierBeside(p.at, x, y);
    }
  }

  lemma InsideLater(c: Config, roots: seq<Dirent>, q: Spot, m: Mark)
    requires |q.at| == |q.way| && Inside(c, roots, q, m)
    ensures Earlier(Mark(q, false), m)
  {
    hide Step, InfoOf;
    assert |m.spot.at| == |q.at| ==> m.spot == q;
  }

  // A directory after its first visit.
  lemma {:induction false} BelowMarks(c: Config, roots: seq<Dirent>, q: Spot) returns (ms: seq<Mark>)
    requires FsOk(c) && OnWay(c, roots, q) && InfoOf(q.way) == D
    ensures Last(q.way).kind.Dir? && Last(q.way).kind.id !in IdsOf(q.way[..|q.way| - 1])
    ensures Shows(c, ms, BelowVisits(c, q.way))
    ensures forall m :: m in ms <==> Inside(c, roots, q, m)
    decreases |c.fs.Keys - IdsOf(q.way[..|q.way| - 1])|, 0
  {
    hide Shows, InfoOf, ListVisits, BelowVisits, VisitOf, FsOk, IdsOf, Under, Inside, Earlier, Step;
    NewOnWay(q.way);
    FirstIsDir(c, roots, q);
    BelowStep(c, q.way, q);
    var closing := Mark(q, true);
    ShowsOne(c, closing);
    forall m
      ensures Inside(c, roots, q, m) <==> m == closing || Under(c, roots, q, 0, m)
      ensures Under(c, roots, q, 0, m) ==> Entered(c, q.way) && Earlier(m, closing)
    {
      InsideIs(c, roots, q, m);
      UnderEarlier(c, roots, q, m);
    }
    ms := [closing];
    assert [] + [VisitOf(c, closing)] == [VisitOf(c, closing)];
    if Entered(c, q.way) {
      var way, e := q.way[..|q.way| - 1], Last(q.way);
      assert q.way == way + [e];
      IdsGrow(way, e);
      Shrinks(c.fs.Keys, IdsOf(way), e.kind.id);
      var es := c.fs[e.kind.id];
      assert es[0..] == es;
      var inner := ListMarks(c, roots, q, 0);
      ShowsConcat(c, inner, ListVisits(c, q.way, es), [closing], [VisitOf(c, closing)]);
      ms := inner + [closing];
    }
  }

  lemma UnderEarlier(c: Config, roots: seq<Dirent>, q: Spot, m: Mark)
    ensures Under(c, roots, q, 0, m) ==> Earlier(m, Mark(q, true))
  {}

  // ---------- The whole walk ----------

  // The marks of the roots from k on.
  ghost predicate FromRoot(c: Config, roots: seq<Dirent>, k: nat, m: Mark) {
    Made(c, roots, m) && m.spot.at[0] >= k
  }

  function RootSpot(roots: seq<Dirent>, k: nat): Spot
    requires k < |roots|
  {
    Spot([k], [roots[k]])
  }

  lemma RootAlone(c: Config, r: Dirent)
    ensures InfoOf([r]) == RootInfo(r.kind) && LevelOf([r]) == 0 && PathOf([r]) == r.name
    ensures r.kind.Dir? <==> InfoOf([r]) == D
    ensures r.kind.Dir? ==>
      r.kind.id !in IdsOf([r][..0]) && BelowVisits(c, [r]) == Below(c, r.kind.id.dev, {}, 0, r.name, r.kind.id)
  {
    hide Below;
    assert [r][..0] == [] && Last([r]) == r;
    assert IdsOf([]) == {};
  }

  lemma FromRootIs(c: Config, roots: seq<Dirent>, k: nat, m: Mark)
    requires k < |roots|
    ensures OnWay(c, roots, RootSpot(roots, k))
    ensures FromRoot(c, roots, k, m) <==> FromRoot(c, roots, k + 1, m) || AtEntry(c, roots, RootSpot(roots, k), m)
  {
    hide Step, InfoOf, Inside, Under;
    var q := RootSpot(roots, k);
    InsideIs(c, roots, q, m);
    InsideMeans(c, roots, q, m);
    if FromRoot(c, roots, k, m) && m.spot.at[0] == k {
      assert q.at <= m.spot.at && q.way <= m.spot.way;
      NothingElse(c, roots, q, m);
    }
  }

  // A place that is no directory has one visit.
  lemma NothingElse(c: Config, roots: seq<Dirent>, q: Spot, m: Mark)
    requires OnWay(c, roots, q) && Made(c, roots, m) && q.at <= m.spot.at && q.way <= m.spot.way
    ensures AtEntry(c, roots, q, m)
  {
    hide Step, InfoOf, Inside, Under;
    InsideIs(c, roots, q, m);
    InsideMeans(c, roots, q, m);
    UnderMeans(c, roots, q, m);
    if |m.spot.at| == |q.at| {
      assert m.spot == q;
    }
  }

  lemma UnderMeans(c: Config, roots: seq<Dirent>, q: Spot, m: Mark)
    requires |q.at| == |q.way|
    ensures Under(c, roots, q, 0, m) <==> Made(c, roots, m) && q.at < m.spot.at && q.way < m.spot.way
  {}

  lemma {:induction false} RootMarks(c: Config, roots: seq<Dirent>, k: nat) returns (ms: seq<Mark>)
    requires FsOk(c) && k <= |roots|
    ensures Shows(c, ms, RootsTour(c, roots[k..]))
    ensures forall m :: m in ms <==> FromRoot(c, roots, k, m)
    decreases |roots| - k
  {
    hide Shows, OnWay, InfoOf, BelowVisits, VisitOf, FsOk, IdsOf, Inside, Below, RootInfo;
    ShowsNone(c);
    if k == |roots| {
      ms := [];
      NoRootLeft(c, roots);
      return;
    }
    var q := RootSpot(roots, k);
    var rest := RootMarks(c, roots, k + 1);
    assert roots[k..][0] == roots[k] && roots[k..][1..] == roots[k + 1..];
    RootAlone(c, roots[k]);
    forall m
      ensures FromRoot(c, roots, k, m) <==> FromRoot(c, roots, k + 1, m) || AtEntry(c, roots, q, m)
    {
      FromRootIs(c, roots, k, m);
    }
    FromRootIs(c, roots, k, Mark(q, false));
    var below := [];
    if InfoOf(q.way) == D {
      below := BelowMarks(c, roots, q);
    }
    ms := [Mark(q, false)] + below + rest;
    OneRoot(c, roots, k, below, rest);
    var here := [Visit(InfoOf(q.way), 0, roots[k].name)] + if InfoOf(q.way) == D then BelowVisits(c, q.way) else [];
    ShowsConcat(c, [Mark(q, false)] + below, here, rest, RootsTour(c, roots[k + 1..]));
  }

  lemma NoRootLeft(c: Config, roots: seq<Dirent>)
    ensures RootsTour(c, roots[|roots|..]) == [] && forall m :: !FromRoot(c, roots, |roots|, m)
  {}

  lemma OneRoot(c: Config, roots: seq<Dirent>, k: nat, below: seq<Mark>, rest: seq<Mark>)
    requires k < |roots|
    requires roots[k].kind.Dir? ==> roots[k].kind.id !in IdsOf([roots[k]][..0])
    requires Shows(c, below, if InfoOf([roots[k]]) == D then BelowVisits(c, [roots[k]]) else [])
    requires forall m <- below :: Inside(c, roots, RootSpot(roots, k), m)
    requires forall m <- rest :: FromRoot(c, roots, k + 1, m)
    ensures var q := RootSpot(roots, k);
      && (forall x, y :: x in [Mark(q, false)] + below && y in rest ==> Earlier(x, y))
      && Shows(c, [Mark(q, false)] + below,
               [Visit(InfoOf(q.way), 0, roots[k].name)] + if InfoOf(q.way) == D then BelowVisits(c, q.way) else [])
  {
    hide InfoOf, BelowVisits, Earlier, IdsOf, Step;
    var q := RootSpot(roots, k);
    RootAlone(c, roots[k]);
    assert [] + [k] == [k];
    forall m <- rest
      ensures [] < m.spot.at
    {}
    OneEntry(c, roots, Spot([], []), k, q, below, rest);
  }

  // Opening and reading to the end makes exactly the visits said, in exactly the order said.
  lemma WalkIsTour(c: Config, roots: seq<Dirent>)
    requires FsOk(c)
    ensures IsTour(c, roots, RootsTour(c, roots))
  {
    hide Shows, Step, FsOk, InfoOf, RootsTour;
    var ms := RootMarks(c, roots, 0);
    assert roots[0..] == roots;
    assert forall m :: m in ms <==> Made(c, roots, m);
  }

  lemma VisitInfo(c: Config, m: Mark)
    requires m.spot.way != []
    ensures
      var v, way := VisitOf(c, m), m.spot.way;
      (m.closing ==> v.info in {DP, DNR}) || v == Visit(InfoOf(way), LevelOf(way), PathOf(way))
    ensures !m.closing ==> VisitOf(c, m) == Visit(InfoOf(m.spot.way), LevelOf(m.spot.way), PathOf(m.spot.way))
  {}

  // What a walk sees in pre-order: the ends of the ways down from its roots.
  lemma WalkSees(c: Config, roots: seq<Dirent>, v: Visit)
    requires FsOk(c) && v.info != DP && v.info != DNR
    ensures v in RootsTour(c, roots) <==>
      exists p :: OnWay(c, roots, p) && v == Visit(InfoOf(p.way), LevelOf(p.way), PathOf(p.way))
  {
    hide OnWay, FsOk, InfoOf, LevelOf, PathOf, Earlier, RootsTour, VisitOf;
    WalkIsTour(c, roots);
    var vs := RootsTour(c, roots);
    var ms: seq<Mark> :| Shows(c, ms, vs) && forall m :: m in ms <==> Made(c, roots, m);
    if v in vs {
      var i :| 0 <= i < |vs| && vs[i] == v;
      assert ms[i] in ms;
      assert OnWay(c, roots, ms[i].spot);
      VisitInfo(c, ms[i]);
    }
    forall p | OnWay(c, roots, p)
      ensures p.way != [] && Visit(InfoOf(p.way), LevelOf(p.way), PathOf(p.way)) in vs
    {
      OnWayShape(c, roots, p);
      VisitInfo(c, Mark(p, false));
      assert Mark(p, false) in ms;
      var i :| 0 <= i < |ms| && ms[i] == Mark(p, false);
      assert vs[i] in vs;
    }
  }
}
