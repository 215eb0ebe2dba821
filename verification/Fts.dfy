/**
 The walker: a current entry, the siblings after it, the chain of directories above it with
 their siblings, and one path buffer shared by all entries. Successive reads return the tour.
 */
module Fts {
  import opened FtsTour
  import FtsVisits
  import opened Optional

  const PATH_MAX: nat := 4096

  // An entry of the hierarchy; the path of an entry is the first `pathlen` characters of the
  // shared buffer while the entry or something below it is current.
  datatype Entry = Entry(name: string, kind: Kind, info: Info, level: nat, pathlen: nat)

  // A directory that has been entered, and the siblings to continue with after it.
  datatype Frame = Frame(node: Entry, link: seq<Entry>)

  datatype Cursor = Init | At(node: Entry) | Finished

  function DirentOf(e: Entry): Dirent {
    Dirent(e.name, e.kind)
  }

  function Dirents(es: seq<Entry>): (ds: seq<Dirent>)
    ensures |ds| == |es|
  {
    seq(|es|, i requires 0 <= i < |es| => DirentOf(es[i]))
  }

  function EntryOf(anc: set<Id>, level: nat, parent: string, e: Dirent): Entry {
    Entry(e.name, e.kind, Classify(anc, e), level, |Join(parent, e.name)|)
  }

  // ---------- The chain of directories above ----------

  ghost function Ids(up: seq<Frame>): set<Id>
    requires forall f <- up :: f.node.kind.Dir?
  {
    set f | f in up :: f.node.kind.id
  }

  // Siblings in a directory are classified against its chain.
  ghost predicate Siblings(anc: set<Id>, level: nat, parent: string, link: seq<Entry>, room: nat) {
    forall e <- link :: e == EntryOf(anc, level, parent, DirentOf(e)) && ValidName(e.name) && e.pathlen < room
  }

  ghost predicate Roots(link: seq<Entry>, room: nat) {
    forall e <- link :: e.info == RootInfo(e.kind) && e.level == 0 && 0 < |e.name| < room && '\0' !in e.name
  }

  ghost predicate LinkOk(up: seq<Frame>, paths: seq<string>, link: seq<Entry>, room: nat)
    requires |paths| == |up| && forall f <- up :: f.node.kind.Dir?
  {
    if up == [] then Roots(link, room) else Siblings(Ids(up), Deeper(up[0].node.level), paths[0], link, room)
  }

  // The directories entered: distinct readable directories, each below the next.
  ghost predicate ChainOk(c: Config, up: seq<Frame>, paths: seq<string>, room: nat) {
    && |paths| == |up| && (forall f <- up :: f.node.kind.Dir?)
    && (up != [] ==>
          && up[0].node.kind.id in c.fs && up[0].node.kind.id !in Ids(up[1..])
          && up[0].node.pathlen == |paths[0]| && paths[0] != []
          && (if |up| == 1 then up[0].node.level == 0 else
                && ValidName(up[0].node.name) && paths[0] == Join(paths[1], up[0].node.name)
                && up[0].node.level == Deeper(up[1].node.level))
          && LinkOk(up[1..], paths[1..], up[0].link, room)
          && ChainOk(c, up[1..], paths[1..], room))
  }

  // What is left to visit among the siblings, and then above.
  ghost function LinkTour(c: Config, dev: nat, up: seq<Frame>, paths: seq<string>, link: seq<Entry>): seq<Visit>
    requires |paths| == |up| && forall f <- up :: f.node.kind.Dir?
  {
    if up == [] then RootsTour(c, Dirents(link))
    else ListTour(c, dev, Ids(up), Deeper(up[0].node.level), paths[0], Dirents(link))
  }

  ghost function After(c: Config, dev: nat, up: seq<Frame>, paths: seq<string>): seq<Visit>
    requires |paths| == |up| && forall f <- up :: f.node.kind.Dir?
  {
    if up == [] then []
    else
      [Visit(DP, up[0].node.level, paths[0])]
      + LinkTour(c, dev, up[1..], paths[1..], up[0].link)
      + After(c, dev, up[1..], paths[1..])
  }

  ghost function Coming(c: Config, dev: nat, up: seq<Frame>, paths: seq<string>, link: seq<Entry>): seq<Visit>
    requires |paths| == |up| && forall f <- up :: f.node.kind.Dir?
  {
    LinkTour(c, dev, up, paths, link) + After(c, dev, up, paths)
  }

  // ---------- The path buffer ----------

  // The buffer holds s as a C string.
  ghost predicate Shows(buf: seq<char>, s: string) {
    |s| < |buf| && buf[..|s|] == s && buf[|s|] == '\0'
  }

  // Copy a name and its terminator to an offset.
  method Store(buf: array<char>, at: nat, s: string)
    requires at + |s| < buf.Length
    modifies buf
    ensures buf[..at] == old(buf[..at]) && buf[at..at + |s|] == s && buf[at + |s|] == '\0'
  {
    forall i | 0 <= i < |s| {
      buf[at + i] := s[i];
    }
    buf[at + |s|] := '\0';
  }

  // Make room for more characters, keeping the contents.
  method Grow(buf: array<char>, more: nat) returns (r: array<char>)
    ensures fresh(r) && r.Length == buf.Length + more + 256 && r[..buf.Length] == buf[..]
  {
    r := new char[buf.Length + more + 256];
    forall i | 0 <= i < buf.Length {
      r[i] := buf[i];
    }
  }

  // Look for a directory among those above, innermost first.
  method InChain(up: seq<Frame>, id: Id) returns (found: bool)
    requires forall f <- up :: f.node.kind.Dir?
    ensures found <==> id in Ids(up)
  {
    for i := 0 to |up|
      invariant forall j :: 0 <= j < i ==> up[j].node.kind.id != id
    {
      if up[i].node.kind.id == id {
        assert up[i] in up;
        return true;
      }
    }
    forall f <- up
      ensures f.node.kind.id != id
    {
      var j :| 0 <= j < |up| && up[j] == f;
    }
    found := false;
  }

  method Stat(up: seq<Frame>, e: Dirent) returns (info: Info)
    requires forall f <- up :: f.node.kind.Dir?
    ensures info == Classify(Ids(up), e)
  {
    match e.kind
    case Dir(id) =>
      if IsDot(e.name) {
        return DOT;
      }
      var cycle := InChain(up, id);
      info := if cycle then DC else D;
    case Regular => info := F;
    case Link => info := SL;
    case Dangling => info := SLNONE;
    case NoStat => info := NS;
    case Special => info := DEFAULT;
  }

  // ---------- Reading a directory ----------

  function Entries(anc: set<Id>, level: nat, parent: string, ds: seq<Dirent>): (es: seq<Entry>)
    ensures |es| == |ds|
  {
    seq(|ds|, i requires 0 <= i < |ds| => EntryOf(anc, level, parent, ds[i]))
  }

  // The part of the buffer in front of the names while a directory is being read.
  ghost predicate Prefixed(buf: seq<char>, path: string) {
    Nappend(path) < |buf| && buf[..Nappend(path) + 1] == Stem(path) + "/"
  }

  // Put a slash behind the path, unless it ends in one.
  method OpenPath(buf: array<char>, ghost path: string, pathlen: nat) returns (len: nat)
    requires path != [] && pathlen == |path| && |path| < buf.Length && buf[..|path|] == path
    modifies buf
    ensures len == Nappend(path) + 1 && Prefixed(buf[..], path)
  {
    assert buf[pathlen - 1] == path[|path| - 1];
    len := if buf[pathlen - 1] == '/' then pathlen - 1 else pathlen;
    buf[len] := '/';
    len := len + 1;
    assert buf[..len - 1] == Stem(path);
  }

  // Make room for a name behind the path and write it there.
  method AddName(buf0: array<char>, ghost path: string, len: nat, name: string) returns (buf: array<char>)
    requires Prefixed(buf0[..], path) && len == Nappend(path) + 1
    modifies buf0
    ensures buf == buf0 || fresh(buf)
    ensures Prefixed(buf[..], path) && buf.Length >= buf0.Length && len + |name| < buf.Length
  {
    buf := buf0;
    if |name| >= buf.Length - len {
      buf := Grow(buf, |name| + len + 1);
      assert buf[..len] == buf[..buf0.Length][..len];
    }
    Store(buf, len, name);
  }

  // Reset the buffer when the names are read.
  method ClosePath(buf: array<char>, ghost path: string, len: nat, empty: bool)
    requires Prefixed(buf[..], path) && len == Nappend(path) + 1 && (empty || len < buf.Length)
    modifies buf
    ensures empty ==> Shows(buf[..], Stem(path))
    ensures !empty ==> Prefixed(buf[..], path)
  {
    if len == buf.Length || empty {
      buf[len - 1] := '\0';
      assert buf[..len - 1] == Stem(path);
    } else {
      buf[len] := '\0';
      assert buf[..len] == Stem(path) + "/";
    }
  }

  // Read the entries of the current directory, classify each against the chain, and write each
  // name behind the path on the way. The buffer grows when a name does not fit.
  method Build(seeDot: bool, ds: seq<Dirent>, chain: seq<Frame>, level: nat, ghost path: string, pathlen: nat,
               buf0: array<char>) returns (es: seq<Entry>, buf: array<char>)
    requires NamesOk(ds) && (forall f <- chain :: f.node.kind.Dir?)
    requires path != [] && pathlen == |path| && Shows(buf0[..], path)
    modifies buf0
    ensures buf == buf0 || fresh(buf)
    ensures buf.Length >= buf0.Length
    ensures es == Entries(Ids(chain), level, path, Shown(seeDot, ds))
    ensures es == [] ==> Shows(buf[..], Stem(path))
    ensures es != [] ==> Prefixed(buf[..], path) && forall e <- es :: e.pathlen < buf.Length
  {
    hide Stem, Prefixed, Classify, Ids, IsDot, Shown;
    var len := OpenPath(buf0, path, pathlen);
    buf, es := buf0, [];
    assert ds[..0] == [];
    NoneShown(seeDot);
    for i := 0 to |ds|
      invariant buf == buf0 || fresh(buf)
      invariant buf0.Length <= buf.Length && Prefixed(buf[..], path)
      invariant es == Entries(Ids(chain), level, path, Shown(seeDot, ds[..i]))
      invariant forall e <- es :: e.pathlen < buf.Length
      invariant es != [] ==> len < buf.Length
    {
      var d := ds[i];
      ShownAppend(seeDot, ds[..i], d);
      assert ds[..i + 1] == ds[..i] + [d];
      if !seeDot && IsDot(d.name) {
        continue;
      }
      buf := AddName(buf, path, len, d.name);
      var info := Stat(chain, d);
      JoinLength(path, d.name);
      es := es + [Entry(d.name, d.kind, info, level, len + |d.name|)];
    }
    assert ds[..|ds|] == ds;
    ClosePath(buf, path, len, es == []);
  }

  lemma NoneShown(seeDot: bool)
    ensures Shown(seeDot, []) == []
  {}

  lemma JoinLength(parent: string, name: string)
    ensures |Join(parent, name)| == Nappend(parent) + 1 + |name|
  {}

  // ---------- The stream ----------

  // The current entry sits below the chain.
  ghost predicate NodeOk(node: Entry, up: seq<Frame>, path: string, paths: seq<string>)
    requires |paths| == |up| && forall f <- up :: f.node.kind.Dir?
  {
    && node.pathlen == |path| && path != []
    && (node.info == D ==> node.kind.Dir? && node.kind.id !in Ids(up))
    && (if up == [] then node.level == 0 else
          node.level == Deeper(up[0].node.level) && ValidName(node.name) && path == Join(paths[0], node.name))
  }

  class Stream {
    const c: Config
    var cur: Cursor
    var link: seq<Entry>
    var up: seq<Frame>
    var buf: array<char>
    var dev: nat
    // the path of the current entry, and those of the directories above it
    ghost var path: string
    ghost var paths: seq<string>

    ghost predicate Valid()
      reads this, buf
    {
      && FsOk(c) && ChainOk(c, up, paths, buf.Length) && LinkOk(up, paths, link, buf.Length)
      && (!cur.At? ==> up == []) && (cur.Finished? ==> link == [])
      && (cur.At? ==> NodeOk(cur.node, up, path, paths))
      && (cur.At? && (cur.node.info == D || up != []) ==> Shows(buf[..], path))
    }

    // The visits still to come.
    ghost function Remaining(): seq<Visit>
      requires Valid()
      reads this, buf
    {
      if cur.Finished? then []
      else
        (if cur.At? && cur.node.info == D then Below(c, dev, Ids(up), cur.node.level, path, cur.node.kind.id) else [])
        + Coming(c, dev, up, paths, link)
    }

    // Start a walk of the given roots. Empty root names are refused.
    constructor (config: Config, roots: seq<Dirent>)
      requires FsOk(config) && forall r <- roots :: r.name != [] && '\0' !in r.name
      ensures Valid() && fresh(buf) && Remaining() == RootsTour(config, roots) && c == config
      ensures buf.Length >= 4096 + 256 && forall r <- roots :: |r.name| + 256 < buf.Length
    {
      hide RootsTour, RootInfo;
      var room := MaxArgLen(roots);
      c := config;
      cur := Init;
      link := seq(|roots|, i requires 0 <= i < |roots| =>
        Entry(roots[i].name, roots[i].kind, RootInfo(roots[i].kind), 0, 0));
      up := [];
      buf := new char[(if room < PATH_MAX then PATH_MAX else room) + 256];
      dev := 0;
      path := [];
      paths := [];
      new;
      assert Dirents(link) == roots;
      assert Remaining() == [] + (RootsTour(c, roots) + []);
    }

    // Return the next entry of the tour, and leave the rest of it. The path buffer shows the
    // path of the entry returned.
    method Read() returns (v: Option<Visit>)
      requires Valid()
      modifies this, buf
      ensures Valid() && (buf == old(buf) || fresh(buf))
      ensures old(Remaining()) == [] ==> v == None && Remaining() == []
      ensures old(Remaining()) != [] ==> v == Some(old(Remaining())[0]) && Remaining() == old(Remaining())[1..]
      ensures v.Some? ==> Shows(buf[..], v.value.path)
    {
      hide Below, Coming, ChainOk, LinkOk, NodeOk, FsOk;
      if cur.Finished? {
        return None;
      }
      if cur.At? && cur.node.info == D {
        v := Enter(cur.node);
      } else {
        v := Next();
      }
    }

    // The current entry is a directory seen in pre-order: go into it, or leave it at once.
    method Enter(node: Entry) returns (v: Option<Visit>)
      requires Valid() && cur == At(node) && node.info == D
      modifies this, buf
      ensures Valid() && (buf == old(buf) || fresh(buf))
      ensures v.Some? && Shows(buf[..], v.value.path) && old(Remaining()) == [v.value] + Remaining()
    {
      hide Coming, ChainOk, LinkOk, Ids, ListTour, Shown, Stem, Join;
      var id := node.kind.id;
      if c.xdev && id.dev != dev {
        cur := At(node.(info := DP));
        return Some(Visit(DP, node.level, buf[..node.pathlen]));
      }
      if id !in c.fs {
        cur := At(node.(info := DNR));
        return Some(Visit(DNR, node.level, buf[..node.pathlen]));
      }
      v := Descend(node, id);
    }

    // Read the directory and go to its first entry; an empty one is left at once.
    method Descend(node: Entry, id: Id) returns (v: Option<Visit>)
      requires Valid() && cur == At(node) && node.info == D && node.kind == Dir(id)
      requires id in c.fs && !(c.xdev && id.dev != dev)
      modifies this, buf
      ensures Valid() && (buf == old(buf) || fresh(buf))
      ensures v.Some? && Shows(buf[..], v.value.path) && old(Remaining()) == [v.value] + Remaining()
    {
      hide Coming, ChainOk, LinkOk, NodeOk, Ids, Stem, Below, Nappend, Shows;
      ChainShape(c, up, paths, buf.Length);
      NodeShape(node, up, path, paths);
      PathEnd(buf[..], path);
      ShownString(buf[..], path);
      ghost var left := Remaining();
      var len := if buf[node.pathlen - 1] == '/' then node.pathlen - 1 else node.pathlen;
      var es := ReadEntries(node, id);
      if es == [] {
        LeaveEmpty(node, up, path, paths);
        ShownString(buf[..], Stem(path));
        cur := At(node.(info := DP));
        return Some(Visit(DP, node.level, buf[..len]));
      }
      up, paths, link := [Frame(node, link)] + up, [path] + paths, es;
      assert left == Coming(c, dev, up, paths, link);
      v := ToSibling();
    }

    // Read the entries of the current directory into a list.
    method ReadEntries(node: Entry, id: Id) returns (es: seq<Entry>)
      requires Valid() && cur == At(node) && node.info == D && node.kind == Dir(id)
      requires id in c.fs && !(c.xdev && id.dev != dev)
      modifies this`buf, buf
      ensures buf == old(buf) || fresh(buf)
      ensures ChainOk(c, up, paths, buf.Length) && LinkOk(up, paths, link, buf.Length)
      ensures es == [] ==>
        && Shows(buf[..], Stem(path))
        && Below(c, dev, Ids(up), node.level, path, id) == [Visit(DP, node.level, Stem(path))]
      ensures es != [] ==>
        var up', paths' := [Frame(node, link)] + up, [path] + paths;
        && ChainOk(c, up', paths', buf.Length) && LinkOk(up', paths', es, buf.Length)
        && |path| <= buf.Length && buf[..|path|] == path
        && Below(c, dev, Ids(up), node.level, path, id) + Coming(c, dev, up, paths, link)
             == Coming(c, dev, up', paths', es)
    {
      hide Coming, ChainOk, LinkOk, NodeOk, Ids, Entries, Shown, Stem, Below, Nappend, Deeper, Prefixed, Shows;
      ChainShape(c, up, paths, buf.Length);
      NodeShape(node, up, path, paths);
      ghost var room := buf.Length;
      es, buf := Build(c.seeDot, c.fs[id], [Frame(node, link)] + up, Deeper(node.level), path, node.pathlen, buf);
      RoomGrows(c, up, paths, room, buf.Length);
      LinkRoomGrows(up, paths, link, room, buf.Length);
      Entered(c, dev, node, id, link, up, path, paths, es, buf.Length);
      if es != [] {
        PrefixedPath(buf[..], path);
      }
    }

    // Go to the next entry on this level, or back up.
    method Next() returns (v: Option<Visit>)
      requires Valid() && !cur.Finished? && !(cur.At? && cur.node.info == D)
      modifies this, buf
      ensures Valid() && (buf == old(buf) || fresh(buf))
      ensures v.None? ==> old(Remaining()) == [] && Remaining() == []
      ensures v.Some? ==> Shows(buf[..], v.value.path) && old(Remaining()) == [v.value] + Remaining()
    {
      hide ListTour, Below, ChainOk, LinkOk, Ids, Stem, Join;
      ChainShape(c, up, paths, buf.Length);
      if link != [] && up == [] {
        v := LoadRoot();
      } else if link != [] {
        BelowParent(buf[..], path, paths[0], cur.node.name);
        v := ToSibling();
      } else if up == [] {
        NothingLeft(c, dev);
        cur := Finished;
        v := None;
      } else {
        v := BackUp();
      }
    }

    // Put the name of the next sibling behind the path of the directory.
    method ToSibling() returns (v: Option<Visit>)
      requires FsOk(c) && up != [] && link != []
      requires ChainOk(c, up, paths, buf.Length) && LinkOk(up, paths, link, buf.Length)
      requires |paths[0]| <= buf.Length && buf[..|paths[0]|] == paths[0]
      modifies this, buf
      ensures Valid() && buf == old(buf)
      ensures v.Some? && Shows(buf[..], v.value.path)
      ensures old(Coming(c, dev, up, paths, link)) == [v.value] + Remaining()
    {
      hide ListTour, Below, Ids, Stem, Coming, ChainOk, LinkOk, NodeOk, Join, Nappend, Prefixed;
      ChainShape(c, up, paths, buf.Length);
      ChainHead(c, up, paths, buf.Length);
      SiblingFacts(c, dev, up, paths, link, buf.Length);
      var p := link[0];
      link := link[1..];
      var len := OpenPath(buf, paths[0], up[0].node.pathlen);
      Store(buf, len, p.name);
      NamePlaced(buf[..], paths[0], p.name);
      path := Join(paths[0], p.name);
      cur := At(p);
      v := Some(Visit(p.info, p.level, buf[..p.pathlen]));
    }

    // Start with the next root.
    method LoadRoot() returns (v: Option<Visit>)
      requires Valid() && up == [] && link != [] && !cur.Finished?
      modifies this, buf
      ensures Valid() && buf == old(buf)
      ensures v.Some? && Shows(buf[..], v.value.path)
      ensures old(Coming(c, dev, up, paths, link)) == [v.value] + Remaining()
      ensures cur.At? && cur.node.name == Base(old(link[0].name))
    {
      hide Below, RootInfo, Coming;
      var p := link[0];
      RootStep(c, dev, link);
      RootKind(p.kind);
      assert p in link && paths == [] && Ids([]) == {};
      link := link[1..];
      Store(buf, 0, p.name);
      cur := At(p.(name := Base(p.name), pathlen := |p.name|));
      path := p.name;
      dev := if p.kind.Dir? then p.kind.id.dev else 0;
      v := Some(Visit(p.info, p.level, buf[..|p.name|]));
    }

    // Return to the directory above, in post-order.
    method BackUp() returns (v: Option<Visit>)
      requires Valid() && up != [] && link == [] && cur.At? && cur.node.info != D
      modifies this, buf
      ensures Valid() && buf == old(buf)
      ensures v.Some? && Shows(buf[..], v.value.path)
      ensures old(Coming(c, dev, up, paths, link)) == [v.value] + Remaining()
    {
      hide ListTour, Below, Ids, Stem, Join, Coming, ChainOk, LinkOk;
      ChainShape(c, up, paths, buf.Length);
      ChainAbove(c, up, paths, buf.Length);
      BelowParent(buf[..], path, paths[0], cur.node.name);
      var p := up[0].node;
      buf[p.pathlen] := '\0';
      Climb(c, dev, up, paths);
      cur := At(p.(info := DP));
      path, link := paths[0], up[0].link;
      up, paths := up[1..], paths[1..];
      v := Some(Visit(DP, p.level, buf[..p.pathlen]));
    }
  }

  // ---------- Steps of the walk ----------

  // The last component of a root's name, which names the root once its path is loaded.
  function LastSlash(name: string): (k: int)
    ensures -1 <= k < |name|
  {
    if name == [] then -1 else if name[|name| - 1] == '/' then |name| - 1 else LastSlash(name[..|name| - 1])
  }

  function Base(name: string): string {
    var k := LastSlash(name);
    if k < 0 || (k == 0 && |name| == 1) then name else name[k + 1..]
  }

  // What follows the last slash, if something does; "/" stays as it is.
  lemma {:induction false} BaseIs(name: string)
    ensures '/' !in name || name == "/" ==> Base(name) == name
    ensures '/' in name && name != "/" ==>
      '/' !in Base(name) && exists dir :: name == dir + "/" + Base(name)
  {
    LastSlashIs(name);
    var k := LastSlash(name);
    if k >= 0 && name != "/" {
      assert name == name[..k] + "/" + name[k + 1..];
    }
  }

  lemma {:induction false} LastSlashIs(name: string)
    ensures var k := LastSlash(name); (k >= 0 ==> name[k] == '/') && forall i :: k < i < |name| ==> name[i] != '/'
    decreases |name|
  {
    if name != [] && name[|name| - 1] != '/' {
      LastSlashIs(name[..|name| - 1]);
    }
  }

  lemma {:induction false} RoomGrows(c: Config, up: seq<Frame>, paths: seq<string>, room: nat, more: nat)
    requires ChainOk(c, up, paths, room) && room <= more
    ensures ChainOk(c, up, paths, more)
    decreases |up|
  {
    if up != [] {
      RoomGrows(c, up[1..], paths[1..], room, more);
      LinkRoomGrows(up[1..], paths[1..], up[0].link, room, more);
    }
  }

  lemma LinkRoomGrows(up: seq<Frame>, paths: seq<string>, link: seq<Entry>, room: nat, more: nat)
    requires |paths| == |up| && (forall f <- up :: f.node.kind.Dir?) && LinkOk(up, paths, link, room) && room <= more
    ensures LinkOk(up, paths, link, more)
  {}

  lemma PrefixedPath(buf: seq<char>, path: string)
    requires Prefixed(buf, path)
    ensures |path| <= |buf| && buf[..|path|] == path
  {
    var n := Nappend(path);
    assert path == Stem(path) || path == Stem(path) + "/";
    assert buf[..n] == buf[..n + 1][..n];
  }

  lemma BelowParent(buf: seq<char>, path: string, parent: string, name: string)
    requires Shows(buf, path) && path == Join(parent, name) && ValidName(name)
    ensures |parent| < |path| && buf[..|parent|] == parent
  {
    JoinFacts(parent, name);
    assert buf[..|parent|] == buf[..|path|][..|parent|];
  }

  lemma NamePlaced(buf: seq<char>, parent: string, name: string)
    requires Prefixed(buf, parent)
    requires var len := Nappend(parent) + 1;
      len + |name| < |buf| && buf[len..len + |name|] == name && buf[len + |name|] == '\0'
    ensures Shows(buf, Join(parent, name))
  {
    var len := Nappend(parent) + 1;
    assert buf[..len + |name|] == buf[..len] + buf[len..len + |name|];
  }

  lemma IdsPush(f: Frame, up: seq<Frame>)
    requires f.node.kind.Dir? && forall g <- up :: g.node.kind.Dir?
    ensures (forall g <- [f] + up :: g.node.kind.Dir?) && Ids([f] + up) == Ids(up) + {f.node.kind.id}
  {
    assert forall g :: g in [f] + up <==> g == f || g in up;
  }

  lemma NothingLeft(c: Config, dev: nat)
    ensures Coming(c, dev, [], [], []) == []
  {}

  // No directory occurs twice on the chain, so the chain is no longer than the number of
  // directories.
  lemma {:induction false} ChainLength(c: Config, up: seq<Frame>, paths: seq<string>, room: nat)
    requires ChainOk(c, up, paths, room)
    ensures |up| == |Ids(up)| <= |c.fs| && Ids(up) <= c.fs.Keys
    decreases |up|
  {
    hide LinkOk, Join;
    if up != [] {
      ChainLength(c, up[1..], paths[1..], room);
      IdsPush(up[0], up[1..]);
      assert up == [up[0]] + up[1..];
      SubsetSize(Ids(up), c.fs.Keys);
    }
  }

  lemma {:induction false} SubsetSize(a: set<Id>, b: set<Id>)
    requires a <= b
    ensures |a| <= |b|
    decreases |a|
  {
    if a != {} {
      var x :| x in a;
      SubsetSize(a - {x}, b - {x});
    }
  }

  lemma ChainShape(c: Config, up: seq<Frame>, paths: seq<string>, room: nat)
    requires ChainOk(c, up, paths, room)
    ensures |paths| == |up| && forall f <- up :: f.node.kind.Dir?
  {}

  lemma NodeShape(node: Entry, up: seq<Frame>, path: string, paths: seq<string>)
    requires |paths| == |up| && (forall f <- up :: f.node.kind.Dir?) && NodeOk(node, up, path, paths)
    ensures node.pathlen == |path| > 0
  {}

  lemma PathEnd(buf: seq<char>, path: string)
    requires path != [] && Shows(buf, path)
    ensures Nappend(path) == |Stem(path)| == if buf[|path| - 1] == '/' then |path| - 1 else |path|
  {
    assert buf[|path| - 1] == buf[..|path|][|path| - 1];
  }

  lemma ShownString(buf: seq<char>, s: string)
    requires Shows(buf, s)
    ensures |s| < |buf| && buf[..|s|] == s
  {}

  lemma LeaveEmpty(node: Entry, up: seq<Frame>, path: string, paths: seq<string>)
    requires |paths| == |up| && (forall f <- up :: f.node.kind.Dir?) && NodeOk(node, up, path, paths)
    ensures NodeOk(node.(info := DP), up, path, paths) && (up != [] ==> Stem(path) == path)
  {
    if up != [] {
      JoinFacts(paths[0], node.name);
    }
  }

  lemma RootKind(kind: Kind)
    ensures RootInfo(kind) == D <==> kind.Dir?
  {}

  lemma {:induction false} ShownNames(seeDot: bool, ds: seq<Dirent>)
    requires NamesOk(ds)
    ensures NamesOk(Shown(seeDot, ds))
    decreases |ds|
  {
    hide IsDot, ValidName;
    if ds != [] {
      ShownNames(seeDot, ds[1..]);
    }
  }

  // The directory above, back in hand.
  lemma ChainAbove(c: Config, up: seq<Frame>, paths: seq<string>, room: nat)
    requires ChainOk(c, up, paths, room) && up != []
    ensures ChainOk(c, up[1..], paths[1..], room) && LinkOk(up[1..], paths[1..], up[0].link, room)
    ensures NodeOk(up[0].node.(info := DP), up[1..], paths[0], paths[1..])
  {
    hide Ids, Stem, LinkOk;
  }

  lemma ChainHead(c: Config, up: seq<Frame>, paths: seq<string>, room: nat)
    requires ChainOk(c, up, paths, room) && up != []
    ensures up[0].node.pathlen == |paths[0]| && paths[0] != []
  {}

  // The first sibling, and what comes after it.
  lemma SiblingFacts(c: Config, dev: nat, up: seq<Frame>, paths: seq<string>, link: seq<Entry>, room: nat)
    requires ChainOk(c, up, paths, room) && up != [] && link != [] && LinkOk(up, paths, link, room)
    ensures
      var p, path := link[0], Join(paths[0], link[0].name);
      && NodeOk(p, up, path, paths) && LinkOk(up, paths, link[1..], room)
      && p.pathlen == |path| == Nappend(paths[0]) + 1 + |p.name| < room && |paths[0]| < room
      && Coming(c, dev, up, paths, link) == [Visit(p.info, p.level, path)]
           + ((if p.info == D then Below(c, dev, Ids(up), p.level, path, p.kind.id) else [])
              + Coming(c, dev, up, paths, link[1..]))
  {
    hide Coming, Below;
    SiblingShape(c, up, paths, link, room);
    SiblingComing(c, dev, up, paths, link);
  }

  lemma SiblingShape(c: Config, up: seq<Frame>, paths: seq<string>, link: seq<Entry>, room: nat)
    requires ChainOk(c, up, paths, room) && up != [] && link != [] && LinkOk(up, paths, link, room)
    ensures
      var p, path := link[0], Join(paths[0], link[0].name);
      && NodeOk(p, up, path, paths) && LinkOk(up, paths, link[1..], room)
      && p.pathlen == |path| == Nappend(paths[0]) + 1 + |p.name| < room && |paths[0]| < room
      && p == EntryOf(Ids(up), Deeper(up[0].node.level), paths[0], DirentOf(p))
  {
    hide Ids;
    var p := link[0];
    assert p in link && p == EntryOf(Ids(up), Deeper(up[0].node.level), paths[0], DirentOf(p));
    JoinFacts(paths[0], p.name);
  }

  lemma SiblingComing(c: Config, dev: nat, up: seq<Frame>, paths: seq<string>, link: seq<Entry>)
    requires |paths| == |up| && up != [] && link != [] && forall f <- up :: f.node.kind.Dir?
    requires link[0] == EntryOf(Ids(up), Deeper(up[0].node.level), paths[0], DirentOf(link[0]))
    ensures
      var p, path := link[0], Join(paths[0], link[0].name);
      Coming(c, dev, up, paths, link) == [Visit(p.info, p.level, path)]
        + ((if p.info == D then Below(c, dev, Ids(up), p.level, path, p.kind.id) else [])
           + Coming(c, dev, up, paths, link[1..]))
  {
    hide Ids, Below, After;
    assert Dirents(link)[0] == DirentOf(link[0]);
    assert Dirents(link)[1..] == Dirents(link[1..]);
  }

  lemma RootStep(c: Config, dev: nat, link: seq<Entry>)
    requires link != [] && link[0].info == RootInfo(link[0].kind)
    ensures
      var p := link[0];
      var dev' := if p.kind.Dir? then p.kind.id.dev else 0;
      Coming(c, dev, [], [], link) == [Visit(p.info, 0, p.name)]
        + ((if p.kind.Dir? then Below(c, dev', {}, 0, p.name, p.kind.id) else [])
           + Coming(c, dev', [], [], link[1..]))
  {
    hide Below, RootsTour, Dirents;
    FirstDirent(link);
    RootsTourStep(c, Dirents(link));
    NothingAfter(c, dev, link);
    NothingAfter(c, if link[0].kind.Dir? then link[0].kind.id.dev else 0, link[1..]);
  }

  lemma FirstDirent(link: seq<Entry>)
    requires link != []
    ensures Dirents(link) != [] && Dirents(link)[0] == DirentOf(link[0]) && Dirents(link)[1..] == Dirents(link[1..])
  {}

  // Without directories above, what is coming is the tour of the roots that are left.
  lemma NothingAfter(c: Config, dev: nat, link: seq<Entry>)
    ensures Coming(c, dev, [], [], link) == RootsTour(c, Dirents(link))
  {
    hide RootsTour, Dirents;
  }

  lemma RootsTourStep(c: Config, ds: seq<Dirent>)
    requires ds != []
    ensures
      var r := ds[0];
      RootsTour(c, ds) == [Visit(RootInfo(r.kind), 0, r.name)]
        + ((if r.kind.Dir? then Below(c, r.kind.id.dev, {}, 0, r.name, r.kind.id) else [])
           + RootsTour(c, ds[1..]))
  {
    hide Below;
  }

  // Going up: the directory above is visited again, then its siblings.
  lemma Climb(c: Config, dev: nat, up: seq<Frame>, paths: seq<string>)
    requires |paths| == |up| && up != [] && forall f <- up :: f.node.kind.Dir?
    ensures Coming(c, dev, up, paths, []) == [Visit(DP, up[0].node.level, paths[0])]
      + Coming(c, dev, up[1..], paths[1..], up[0].link)
  {
    hide Ids;
    assert Dirents([]) == [];
  }

  // Going into a directory with entries: its tour is that of the entries and the way back up.
  lemma Entered(c: Config, dev: nat, node: Entry, id: Id, link: seq<Entry>, up: seq<Frame>,
                path: string, paths: seq<string>, es: seq<Entry>, room: nat)
    requires FsOk(c) && ChainOk(c, up, paths, room) && LinkOk(up, paths, link, room) && NodeOk(node, up, path, paths)
    requires node.info == D && node.kind == Dir(id) && id in c.fs && !(c.xdev && id.dev != dev)
    requires (forall f <- [Frame(node, link)] + up :: f.node.kind.Dir?)
    requires es == Entries(Ids([Frame(node, link)] + up), Deeper(node.level), path, Shown(c.seeDot, c.fs[id]))
    requires forall e <- es :: e.pathlen < room
    ensures es == [] ==> Below(c, dev, Ids(up), node.level, path, id) == [Visit(DP, node.level, Stem(path))]
    ensures es != [] ==>
      var up', paths' := [Frame(node, link)] + up, [path] + paths;
      && ChainOk(c, up', paths', room) && LinkOk(up', paths', es, room)
      && Below(c, dev, Ids(up), node.level, path, id) + Coming(c, dev, up, paths, link) == Coming(c, dev, up', paths', es)
  {
    hide Ids, ListTour, Shown, Stem, Join, Coming, ChainOk, LinkOk;
    ChainShape(c, up, paths, room);
    IdsPush(Frame(node, link), up);
    if es != [] {
      ShownNames(c.seeDot, c.fs[id]);
      ChainPush(c, node, link, up, path, paths, room);
      EntriesSiblings(Frame(node, link), up, path, paths, Shown(c.seeDot, c.fs[id]), room);
      ComingPush(c, dev, node, link, up, path, paths, es);
      assert Dirents(es) == Shown(c.seeDot, c.fs[id]);
    }
  }

  lemma ChainPush(c: Config, node: Entry, link: seq<Entry>, up: seq<Frame>, path: string, paths: seq<string>, room: nat)
    requires ChainOk(c, up, paths, room) && LinkOk(up, paths, link, room) && NodeOk(node, up, path, paths)
    requires node.info == D && node.kind.id in c.fs
    ensures ChainOk(c, [Frame(node, link)] + up, [path] + paths, room)
  {
    hide Ids, Stem, LinkOk;
    assert ([Frame(node, link)] + up)[1..] == up && ([path] + paths)[1..] == paths;
  }

  lemma EntriesSiblings(f: Frame, up: seq<Frame>, path: string, paths: seq<string>, ds: seq<Dirent>, room: nat)
    requires |paths| == |up| && (forall g <- [f] + up :: g.node.kind.Dir?) && NamesOk(ds)
    requires forall e <- Entries(Ids([f] + up), Deeper(f.node.level), path, ds) :: e.pathlen < room
    ensures LinkOk([f] + up, [path] + paths, Entries(Ids([f] + up), Deeper(f.node.level), path, ds), room)
  {
    hide Ids, Join, Classify;
    var es := Entries(Ids([f] + up), Deeper(f.node.level), path, ds);
    forall e <- es
      ensures e == EntryOf(Ids([f] + up), Deeper(f.node.level), path, DirentOf(e)) && ValidName(e.name)
    {
      var i :| 0 <= i < |es| && es[i] == e;
      assert ds[i] in ds;
    }
  }

  lemma ComingPush(c: Config, dev: nat, node: Entry, link: seq<Entry>, up: seq<Frame>, path: string, paths: seq<string>,
                   es: seq<Entry>)
    requires |paths| == |up| && node.kind.Dir? && forall f <- up :: f.node.kind.Dir?
    ensures forall f <- [Frame(node, link)] + up :: f.node.kind.Dir?
    ensures Coming(c, dev, [Frame(node, link)] + up, [path] + paths, es)
      == ListTour(c, dev, Ids([Frame(node, link)] + up), Deeper(node.level), path, Dirents(es))
         + [Visit(DP, node.level, path)] + Coming(c, dev, up, paths, link)
  {
    hide Ids, ListTour;
    assert ([Frame(node, link)] + up)[1..] == up && ([path] + paths)[1..] == paths;
  }

  // Open a walk. It is refused when a root has no name.
  method Open(config: Config, roots: seq<Dirent>) returns (s: Stream?)
    requires FsOk(config) && forall r <- roots :: '\0' !in r.name
    ensures s == null <==> exists r <- roots :: r.name == []
    ensures s != null ==> fresh(s) && fresh(s.buf) && s.Valid() && s.Remaining() == RootsTour(config, roots)
    ensures s != null ==> FtsVisits.IsTour(config, roots, s.Remaining())
  {
    hide RootsTour, FsOk, FtsVisits.IsTour;
    FtsVisits.WalkIsTour(config, roots);
    for i := 0 to |roots|
      invariant forall j :: 0 <= j < i ==> roots[j].name != []
    {
      if roots[i].name == [] {
        assert roots[i] in roots;
        return null;
      }
    }
    s := new Stream(config, roots);
  }

  // Open a walk and read it to its end: it ends, and what it returned is the tour, that is, each
  // place that is to be visited in its order, with what its visit shows.
  method Walk(config: Config, roots: seq<Dirent>) returns (vs: Option<seq<Visit>>)
    requires FsOk(config) && forall r <- roots :: '\0' !in r.name
    ensures vs.None? <==> exists r <- roots :: r.name == []
    ensures vs.Some? ==> vs.value == RootsTour(config, roots) && FtsVisits.IsTour(config, roots, vs.value)
  {
    hide *;
    FtsVisits.WalkIsTour(config, roots);
    var s := Open(config, roots);
    if s == null {
      return None;
    }
    var read := [];
    var v := s.Read();
    while v.Some?
      invariant s.Valid() && fresh(s) && fresh(s.buf)
      invariant RootsTour(config, roots) == read + (if v.Some? then [v.value] else []) + s.Remaining()
      invariant v.None? ==> s.Remaining() == []
      decreases |s.Remaining()|, v.Some?
    {
      read := read + [v.value];
      v := s.Read();
    }
    vs := Some(read);
  }

  // The longest root name and its terminator.
  method MaxArgLen(roots: seq<Dirent>) returns (n: nat)
    ensures forall r <- roots :: |r.name| < n
    ensures n == 1 || exists r <- roots :: |r.name| + 1 == n
  {
    var max: nat := 0;
    for i := 0 to |roots|
      invariant forall j :: 0 <= j < i ==> |roots[j].name| <= max
      invariant max == 0 || exists r <- roots :: |r.name| == max
    {
      if |roots[i].name| > max {
        max := |roots[i].name|;
        assert roots[i] in roots;
      }
    }
    n := max + 1;
  }
}
