/**
 What a walk over file hierarchies visits. The file system is a finite graph of directories; the
 tour of a list of roots is their pre- and post-order, cut off at directories that are their own
 ancestors, that cannot be read or that lie on another device.
 */
module FtsTour {
  // Device and inode number.
  datatype Id = Id(dev: nat, ino: nat)

  // What stat finds out about a name.
  datatype Kind = Dir(id: Id) | Regular | Link | Dangling | NoStat | Special

  datatype Dirent = Dirent(name: string, kind: Kind)

  datatype Info = D | DP | DC | DOT | DNR | F | SL | SLNONE | NS | DEFAULT

  // One entry returned to the caller, with the path that the path buffer shows.
  datatype Visit = Visit(info: Info, level: nat, path: string)

  // The readable directories with their entries, and the options of the walk.
  datatype Config = Config(fs: map<Id, seq<Dirent>>, seeDot: bool, xdev: bool)

  const MAX_LEVEL: nat := 0x7fff_ffff

  predicate IsDot(name: string) {
    name == "." || name == ".."
  }

  // ---------- Paths ----------

  // The length of a path without a slash at its end.
  function Nappend(path: string): (n: nat)
    ensures n <= |path|
  {
    if path != [] && path[|path| - 1] == '/' then |path| - 1 else |path|
  }

  function Stem(path: string): string {
    path[..Nappend(path)]
  }

  function Join(parent: string, name: string): string {
    Stem(parent) + "/" + name
  }

  // Names that a directory can hold.
  ghost predicate ValidName(name: string) {
    name != [] && '/' !in name && '\0' !in name
  }

  ghost predicate NamesOk(ds: seq<Dirent>) {
    forall d <- ds :: ValidName(d.name)
  }

  ghost predicate FsOk(c: Config) {
    forall id :: id in c.fs ==> NamesOk(c.fs[id])
  }

  // A path is a prefix of the paths below it, and only a root can end in a slash.
  lemma JoinFacts(parent: string, name: string)
    requires ValidName(name)
    ensures parent <= Join(parent, name)
    ensures Stem(Join(parent, name)) == Join(parent, name)
    ensures |Join(parent, name)| == Nappend(parent) + 1 + |name|
  {
    var p := Join(parent, name);
    assert p[|p| - 1] == name[|name| - 1];
    assert name[|name| - 1] in name;
    assert Stem(p) == p;
  }

  // ---------- Classification ----------

  function Classify(anc: set<Id>, e: Dirent): Info {
    match e.kind
    case Dir(id) => if IsDot(e.name) then DOT else if id in anc then DC else D
    case Regular => F
    case Link => SL
    case Dangling => SLNONE
    case NoStat => NS
    case Special => DEFAULT
  }

  // Roots have no ancestors, and "." and ".." are real directories there.
  function RootInfo(kind: Kind): Info {
    if kind.Dir? then D else Classify({}, Dirent("", kind))
  }

  function Shown(seeDot: bool, es: seq<Dirent>): seq<Dirent> {
    if es == [] then []
    else if !seeDot && IsDot(es[0].name) then Shown(seeDot, es[1..])
    else [es[0]] + Shown(seeDot, es[1..])
  }

  function Deeper(level: nat): nat {
    if level < MAX_LEVEL then level + 1 else level
  }

  // ---------- The tour ----------

  lemma Shrinks(keys: set<Id>, anc: set<Id>, id: Id)
    requires id in keys && id !in anc
    ensures |keys - (anc + {id})| < |keys - anc|
  {
    assert keys - anc == (keys - (anc + {id})) + {id};
  }

  // What follows the pre-order visit of a directory.
  function Below(c: Config, dev: nat, anc: set<Id>, level: nat, path: string, id: Id): seq<Visit>
    requires id !in anc
    decreases |c.fs.Keys - anc|, 0
  {
    if c.xdev && id.dev != dev then [Visit(DP, level, path)]
    else if id !in c.fs then [Visit(DNR, level, path)]
    else
      var es := Shown(c.seeDot, c.fs[id]);
      if es == [] then [Visit(DP, level, Stem(path))]
      else
        Shrinks(c.fs.Keys, anc, id);
        ListTour(c, dev, anc + {id}, Deeper(level), path, es) + [Visit(DP, level, path)]
  }

  // The entries of one directory, in order, each with what is below it.
  function ListTour(c: Config, dev: nat, anc: set<Id>, level: nat, parent: string, es: seq<Dirent>): seq<Visit>
    decreases |c.fs.Keys - anc|, |es|
  {
    if es == [] then []
    else
      var path, info := Join(parent, es[0].name), Classify(anc, es[0]);
      [Visit(info, level, path)]
      + (if info == D then Below(c, dev, anc, level, path, es[0].kind.id) else [])
      + ListTour(c, dev, anc, level, parent, es[1..])
  }

  function RootsTour(c: Config, roots: seq<Dirent>): seq<Visit> {
    if roots == [] then []
    else
      var r := roots[0];
      [Visit(RootInfo(r.kind), 0, r.name)]
      + (if r.kind.Dir? then Below(c, r.kind.id.dev, {}, 0, r.name, r.kind.id) else [])
      + RootsTour(c, roots[1..])
  }

  // ---------- Depth ----------

  ghost predicate Within(vs: seq<Visit>, lo: int, hi: int) {
    forall v <- vs :: lo <= v.level <= hi
  }

  lemma {:induction false} BelowDepth(c: Config, dev: nat, anc: set<Id>, level: nat, path: string, id: Id)
    requires id !in anc && level <= MAX_LEVEL
    ensures Within(Below(c, dev, anc, level, path, id), level, level + |c.fs.Keys - anc|)
    decreases |c.fs.Keys - anc|, 0
  {
    if !(c.xdev && id.dev != dev) && id in c.fs && Shown(c.seeDot, c.fs[id]) != [] {
      Shrinks(c.fs.Keys, anc, id);
      ListDepth(c, dev, anc + {id}, Deeper(level), path, Shown(c.seeDot, c.fs[id]));
    }
  }

  lemma {:induction false} ListDepth(c: Config, dev: nat, anc: set<Id>, level: nat, parent: string, es: seq<Dirent>)
    requires level <= MAX_LEVEL
    ensures Within(ListTour(c, dev, anc, level, parent, es), level, level + |c.fs.Keys - anc|)
    decreases |c.fs.Keys - anc|, |es|
  {
    if es != [] {
      ListDepth(c, dev, anc, level, parent, es[1..]);
      if Classify(anc, es[0]) == D {
        BelowDepth(c, dev, anc, level, Join(parent, es[0].name), es[0].kind.id);
      }
    }
  }

  // No walk goes deeper than the number of directories, whatever links and cycles there are.
  lemma {:induction false} DepthBounded(c: Config, roots: seq<Dirent>)
    ensures forall v <- RootsTour(c, roots) :: v.level <= |c.fs|
    decreases |roots|
  {
    if roots != [] {
      var r := roots[0];
      DepthBounded(c, roots[1..]);
      if r.kind.Dir? {
        BelowDepth(c, r.kind.id.dev, {}, 0, r.name, r.kind.id);
        assert c.fs.Keys - {} == c.fs.Keys;
      }
    }
  }

  // ---------- What is listed ----------

  // The entries of a directory that are listed: those whose name is neither "." nor "..", or all
  // when these are asked for, in the order of the directory.
  lemma {:induction false} ShownSelects(seeDot: bool, es: seq<Dirent>) returns (at: seq<nat>)
    ensures |at| == |Shown(seeDot, es)| && forall i, j :: 0 <= i < j < |at| ==> at[i] < at[j]
    ensures forall i :: 0 <= i < |at| ==> at[i] < |es| && Shown(seeDot, es)[i] == es[at[i]]
    ensures forall k :: 0 <= k < |es| ==> (k in at <==> seeDot || (es[k].name != "." && es[k].name != ".."))
    decreases |es|
  {
    at := [];
    if es != [] {
      var n := |es| - 1;
      at := ShownSelects(seeDot, es[..n]);
      assert es == es[..n] + [es[n]];
      ShownAppend(seeDot, es[..n], es[n]);
      assert forall i :: 0 <= i < |at| ==> at[i] < n;
      if seeDot || (es[n].name != "." && es[n].name != "..") {
        at := at + [n];
      }
    }
  }

  lemma {:induction false} ShownAppend(seeDot: bool, ds: seq<Dirent>, d: Dirent)
    ensures Shown(seeDot, ds + [d]) == Shown(seeDot, ds) + if !seeDot && IsDot(d.name) then [] else [d]
    decreases |ds|
  {
    hide IsDot;
    if ds == [] {
      assert [] + [d] == [d] && [d][1..] == [];
    } else {
      ShownAppend(seeDot, ds[1..], d);
      assert (ds + [d])[1..] == ds[1..] + [d];
    }
  }

  // ---------- The path at the post-order visit ----------

  // A directory is left with one last visit, on the level of its first one. It tells an unreadable
  // directory from others, and shows the path of the first visit unless the directory is readable
  // and empty and that path ends in a slash.
  lemma LastVisit(c: Config, dev: nat, anc: set<Id>, level: nat, path: string, id: Id)
    requires id !in anc
    ensures
      var vs, across := Below(c, dev, anc, level, path, id), c.xdev && id.dev != dev;
      && vs != [] && vs[|vs| - 1].info in {DP, DNR} && vs[|vs| - 1].level == level
      && (vs[|vs| - 1].info == DNR <==> !across && id !in c.fs)
      && (vs[|vs| - 1].path == path <==>
            || across || id !in c.fs || path == "" || path[|path| - 1] != '/'
            || exists e <- c.fs[id] :: c.seeDot || (e.name != "." && e.name != ".."))
  {
    hide Shown;
    if id in c.fs {
      SomeShown(c.seeDot, c.fs[id]);
    }
  }

  lemma SomeShown(seeDot: bool, es: seq<Dirent>)
    ensures Shown(seeDot, es) != [] <==> exists e <- es :: seeDot || (e.name != "." && e.name != "..")
  {
    hide Shown;
    var at := ShownSelects(seeDot, es);
    if at != [] {
      assert at[0] in at && es[at[0]] in es;
    }
    forall e <- es | seeDot || (e.name != "." && e.name != "..")
      ensures at != []
    {
      var k :| 0 <= k < |es| && es[k] == e;
      assert k in at;
    }
  }

  // A walk of one empty directory given as "a/": the post-order visit shows "a".
  lemma EmptyRootLosesSlash()
    ensures
      var c := Config(map[Id(0, 1) := []], false, false);
      RootsTour(c, [Dirent("a/", Dir(Id(0, 1)))]) == [Visit(D, 0, "a/"), Visit(DP, 0, "a")]
  {
    var c, root := Config(map[Id(0, 1) := []], false, false), Dirent("a/", Dir(Id(0, 1)));
    assert Shown(false, []) == [];
    assert Stem("a/") == "a";
    assert Below(c, 0, {}, 0, "a/", Id(0, 1)) == [Visit(DP, 0, "a")];
    assert [root][1..] == [];
  }
}
