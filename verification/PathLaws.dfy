/**
 What paths are for: a relative path means the same as the path of the working directory with it
 appended, a name just made is found, and a name just removed is not.
 */
module PathLaws {
  import opened Directory
  import opened Links
  import opened InodeMap
  import opened Syscalls
  import opened Paths

  // ---------------------------------------------------------------- paths and their elements

  /** A path and a relative one behind it. */
  function Join(p: string, q: string): string { if p == "" then q else p + "/" + q }

  lemma {:induction false} ElementsJoin(p: string, q: string)
    ensures Elements(p + "/" + q) == Elements(p) + Elements(q)
    decreases |p|
  {
    hide Elements, RunLength, Cut;
    var path := p + "/" + q;
    if p == "" {
      assert path[0] == '/' && path[1..] == q;
      OneSlash(path);
      ElementsEmpty();
    } else if p[0] == '/' {
      assert path[0] == '/' && path[1..] == p[1..] + "/" + q;
      ElementsJoin(p[1..], q);
      OneSlash(path);
      OneSlash(p);
    } else {
      var n := RunLength(p);
      assert path[..n] == p[..n] && path[n..] == p[n..] + "/" + q;
      assert path[n] == '/';
      RunIs(path, n);
      ElementsJoin(p[n..], q);
      OneRun(path);
      OneRun(p);
      var e := [Cut(p[..n])];
      assert e + (Elements(p[n..]) + Elements(q)) == e + Elements(p[n..]) + Elements(q);
    }
  }

  lemma OneSlash(path: string)
    requires path != "" && path[0] == '/'
    ensures Elements(path) == Elements(path[1..])
  {
  }

  lemma OneRun(path: string)
    requires path != "" && path[0] != '/'
    ensures Elements(path) == [Cut(path[..RunLength(path)])] + Elements(path[RunLength(path)..])
  {
  }

  /** A path without slashes is one element, cut to fourteen characters. */
  lemma SingleElement(e: string)
    requires e != "" && '/' !in e
    ensures Elements(e) == [if |e| > DIRSIZ then e[..DIRSIZ] else e]
  {
    hide Elements, RunLength;
    assert e[..|e|] == e && e[|e|..] == "";
    RunIs(e, |e|);
    OneRun(e);
    ElementsEmpty();
  }

  // ---------------------------------------------------------------- walking on

  /** A walk along a and then along b is a walk along b from where a leads. */
  lemma {:induction false} WalkOn(nodes: Nodes, s: nat, a: seq<string>, b: seq<string>, parent: bool)
    requires s < |nodes| && (parent ==> b != [])
    ensures var i := Resolve(nodes, s, a, false);
            && (i.At? ==> i.inum < |nodes| && Resolve(nodes, s, a + b, parent) == Resolve(nodes, i.inum, b, parent))
            && (b != [] && !i.At? ==> Resolve(nodes, s, a + b, parent) == i)
    decreases |a|
  {
    if a == [] {
      assert a + b == b;
    } else {
      assert (a + b)[0] == a[0] && (a + b)[1..] == a[1..] + b;
      if nodes[s].kind == Dir {
        var k := First(nodes[s].entries, a[0]);
        if k < |nodes[s].entries| && nodes[s].entries[k].inum < |nodes| {
          WalkOn(nodes, nodes[s].entries[k].inum, a[1..], b, parent);
        }
      }
    }
  }

  /** The one-element walk is the lookup in the directory's map. */
  lemma OneElement(nodes: Nodes, d: nat, name: string)
    requires d < |nodes|
    ensures var m := Mapped(nodes[d].entries);
            Resolve(nodes, d, [name], false) ==
            if nodes[d].kind == Free then Stale
            else if nodes[d].kind != Dir || name !in m then Missing
            else if m[name] >= |nodes| then Stale else At(m[name])
    ensures nodes[d].kind == Dir ==> Resolve(nodes, d, [name], true) == At(d)
  {
    LookupIsMap(nodes[d].entries, name);
    assert [name][1..] == [];
  }

  /** nameiparent is namei of all but the last element, if that is a directory. */
  lemma ParentIsPrefix(nodes: Nodes, s: nat, elems: seq<string>)
    requires s < |nodes| && elems != []
    ensures var d := Resolve(nodes, s, elems[..|elems| - 1], false);
            && (d.At? ==> d.inum < |nodes|)
            && (d.At? && nodes[d.inum].kind == Dir ==> Resolve(nodes, s, elems, true) == d)
            && (Resolve(nodes, s, elems, true).At? ==> Resolve(nodes, s, elems, true) == d && nodes[d.inum].kind == Dir)
  {
    var a, last := elems[..|elems| - 1], elems[|elems| - 1];
    assert a + [last] == elems;
    WalkOn(nodes, s, a, [last], true);
    var d := Resolve(nodes, s, a, false);
    if d.At? {
      OneElement(nodes, d.inum, last);
    }
  }

  /** What the last element names is what its directory's map says. */
  lemma LastInParent(nodes: Nodes, s: nat, elems: seq<string>)
    requires s < |nodes| && elems != [] && Resolve(nodes, s, elems, true).At?
    ensures var d := Resolve(nodes, s, elems, true).inum;
            && d < |nodes| && nodes[d].kind == Dir
            && Resolve(nodes, s, elems, false) == Resolve(nodes, d, [elems[|elems| - 1]], false)
  {
    ParentIsPrefix(nodes, s, elems);
    var a, last := elems[..|elems| - 1], elems[|elems| - 1];
    assert a + [last] == elems;
    WalkOn(nodes, s, a, [last], false);
  }

  // ---------------------------------------------------------------- working directories

  /**
   With the working directory at what p names, a relative path q names what p/q names from the
   old one; an absolute path names the same from everywhere, and what it names relative to the root.
   */
  lemma RelativePath(nodes: Nodes, p: string, q: string, cwd: nat, i: nat, parent: bool)
    requires PathIs(nodes, p, cwd, i) && (q == "" || q[0] != '/') && (parent ==> q != "")
    ensures Target(nodes, q, i, parent) == Target(nodes, Join(p, q), cwd, parent)
  {
    hide Resolve, Elements;
    ElementsEmpty();
    EmptyPath(q);
    WalkOn(nodes, Start(p, cwd), Elements(p), Elements(q), parent);
    ElementsJoin(p, q);
    if p == "" {
      assert Elements(p) + Elements(q) == Elements(q);
      ResolveEnd(nodes, cwd, false);
    } else {
      assert Join(p, q)[0] == p[0];
    }
  }

  lemma ElementsEmpty()
    ensures Elements("") == []
  {
  }

  lemma AbsolutePath(nodes: Nodes, q: string, cwd: nat, parent: bool)
    requires q == "" || q[0] != '/'
    ensures Target(nodes, "/" + q, cwd, parent) == Target(nodes, q, ROOT, parent)
  {
    ElementsJoin("", q);
    assert "" + "/" + q == "/" + q;
    ElementsEmpty();
    assert Elements("") + Elements(q) == Elements(q);
  }

  // ---------------------------------------------------------------- new names are found

  /** What a directory maps, it still maps; kinds change only where an inode was free. */
  predicate Keeps(nodes: Nodes, nodes': Nodes) {
    && |nodes'| == |nodes|
    && (forall j :: 0 <= j < |nodes| && nodes[j].kind != Free ==> nodes'[j].kind == nodes[j].kind)
    && (forall j, n :: 0 <= j < |nodes| && nodes[j].kind == Dir && n in Mapped(nodes[j].entries) ==>
          n in Mapped(nodes'[j].entries) && Mapped(nodes'[j].entries)[n] == Mapped(nodes[j].entries)[n])
  }

  lemma {:induction false} StillNamed(nodes: Nodes, nodes': Nodes, s: nat, elems: seq<string>, parent: bool)
    requires Keeps(nodes, nodes') && s < |nodes| && Resolve(nodes, s, elems, parent).At?
    ensures Resolve(nodes', s, elems, parent) == Resolve(nodes, s, elems, parent)
    decreases |elems|
  {
    hide Mapped;
    if elems != [] {
      var es, es' := nodes[s].entries, nodes'[s].entries;
      LookupIsMap(es, elems[0]);
      LookupIsMap(es', elems[0]);
      if !(parent && |elems| == 1) {
        StillNamed(nodes, nodes', es[First(es, elems[0])].inum, elems[1..], parent);
      }
    }
  }

  /** A new entry for i in directory d, with only link counts and inode i changed besides. */
  predicate Added(nodes: Nodes, nodes': Nodes, d: nat, name: string, i: nat) {
    && |nodes'| == |nodes| && d < |nodes| && 0 < i < |nodes| && nodes[d].kind == Dir && nodes'[d].kind == Dir
    && Mapped(nodes'[d].entries) == Mapped(nodes[d].entries)[name := i] && name !in Mapped(nodes[d].entries)
    && (forall j :: 0 <= j < |nodes| && nodes[j].kind != Free ==> nodes'[j].kind == nodes[j].kind)
    && (forall j :: 0 <= j < |nodes| && j != d && nodes[j].kind != Free ==> nodes'[j].entries == nodes[j].entries)
  }

  lemma AddedIsFound(nodes: Nodes, nodes': Nodes, s: nat, elems: seq<string>, i: nat)
    requires s < |nodes| && elems != [] && Resolve(nodes, s, elems, true).At?
    requires Added(nodes, nodes', Resolve(nodes, s, elems, true).inum, elems[|elems| - 1], i)
    ensures Keeps(nodes, nodes') && Resolve(nodes', s, elems, false) == At(i)
  {
    hide Mapped, Resolve;
    var d := Resolve(nodes, s, elems, true).inum;
    StillNamed(nodes, nodes', s, elems, true);
    LastInParent(nodes', s, elems);
    OneElement(nodes', d, elems[|elems| - 1]);
  }

  lemma MadeIsAdded(nodes: Nodes, nodes': Nodes, d: nat, name: string, i: nat, kind: Kind)
    requires Sound(nodes) && CreatedIn(nodes, nodes', d, name, i, kind)
    ensures Added(nodes, nodes', d, name, i)
  {
    hide Sound, Mapped, LinkSet, Put;
    DirShape(nodes, d);
    LinkIsUpdate(nodes[d].entries, FirstFree(nodes[d].entries), name, i);
  }

  lemma LinkedIsAdded(nodes: Nodes, d: nat, name: string, i: nat)
    requires Sound(nodes) && d < |nodes| && nodes[d].kind == Dir && name !in Mapped(nodes[d].entries) && 0 < i < |nodes| && i != d
    ensures Added(nodes, LinkFile(nodes, d, FirstFree(nodes[d].entries), name, i), d, name, i)
  {
    hide Sound, Mapped, LinkSet, Put;
    DirShape(nodes, d);
    LinkIsUpdate(nodes[d].entries, FirstFree(nodes[d].entries), name, i);
  }

  lemma DirShape(nodes: Nodes, d: nat)
    requires Sound(nodes) && d < |nodes| && nodes[d].kind == Dir
    ensures Names(nodes[d].entries)
  {
    assert ShapeAt(nodes, d);
  }

  /** After create the path names the new inode, and every path that named something names the same. */
  lemma CreatedIsFound(nodes: Nodes, nodes': Nodes, path: string, cwd: nat, i: nat, kind: Kind)
    requires Sound(nodes) && Creates(nodes, nodes', path, cwd, i, kind)
    ensures PathIs(nodes', path, cwd, i) && Keeps(nodes, nodes')
  {
    hide Sound, Resolve, Elements, CreatedIn, Mapped;
    var s, elems := Start(path, cwd), Elements(path);
    var d := Resolve(nodes, s, elems, true).inum;
    if elems == [] { ResolveEnd(nodes, s, true); }
    MadeIsAdded(nodes, nodes', d, LastOf(path), i, kind);
    AddedIsFound(nodes, nodes', s, elems, i);
  }

  /** After link both paths name the file. */
  lemma LinkedIsFound(nodes: Nodes, nodes': Nodes, oldPath: string, newPath: string, cwd: nat)
    requires Sound(nodes) && LinksTo(nodes, nodes', oldPath, newPath, cwd)
    ensures Keeps(nodes, nodes')
    ensures exists f: nat :: PathIs(nodes, oldPath, cwd, f) && PathIs(nodes', oldPath, cwd, f) && PathIs(nodes', newPath, cwd, f)
  {
    hide Sound, Resolve, Elements, Mapped, LinkFile, FirstFree;
    var s, elems := Start(newPath, cwd), Elements(newPath);
    var f := Resolve(nodes, Start(oldPath, cwd), Elements(oldPath), false).inum;
    var d := Resolve(nodes, s, elems, true).inum;
    if elems == [] { ResolveEnd(nodes, s, true); }
    LinkedIsAdded(nodes, d, LastOf(newPath), f);
    AddedIsFound(nodes, nodes', s, elems, f);
    StillNamed(nodes, nodes', Start(oldPath, cwd), Elements(oldPath), false);
    assert PathIs(nodes, oldPath, cwd, f) && PathIs(nodes', oldPath, cwd, f) && PathIs(nodes', newPath, cwd, f);
  }

  // ---------------------------------------------------------------- old names are gone

  /** Directories map no more than before, and where one was freed it maps nothing. */
  predicate Shrinks(nodes: Nodes, nodes': Nodes) {
    && |nodes'| == |nodes|
    && (forall j :: 0 <= j < |nodes| ==> nodes'[j].kind == nodes[j].kind || nodes'[j].kind == Free)
    && (forall j, n :: 0 <= j < |nodes| && nodes'[j].kind == Dir && n in Mapped(nodes'[j].entries) ==>
          n in Mapped(nodes[j].entries) && Mapped(nodes'[j].entries)[n] == Mapped(nodes[j].entries)[n])
  }

  lemma {:induction false} NamedBefore(nodes: Nodes, nodes': Nodes, s: nat, elems: seq<string>, parent: bool)
    requires Shrinks(nodes, nodes') && s < |nodes| && Resolve(nodes', s, elems, parent).At?
    ensures Resolve(nodes, s, elems, parent) == Resolve(nodes', s, elems, parent)
    decreases |elems|
  {
    hide Mapped;
    if elems != [] {
      var es, es' := nodes[s].entries, nodes'[s].entries;
      LookupIsMap(es, elems[0]);
      LookupIsMap(es', elems[0]);
      if !(parent && |elems| == 1) {
        NamedBefore(nodes, nodes', es'[First(es', elems[0])].inum, elems[1..], parent);
      }
    }
  }

  lemma RemovedMaps(nodes: Nodes, c: Cache, d: nat, k: nat)
    requires Sound(nodes) && d < |nodes| && nodes[d].kind == Dir && k < |nodes[d].entries| && Live(nodes[d].entries[k])
    requires nodes[d].entries[k].inum < |nodes|
    ensures var i := nodes[d].entries[k].inum;
            var nodes' := Reaped(Removed(nodes, d, k, i), c, i);
            Shrinks(nodes, nodes') && (nodes'[d].kind == Dir ==> nodes[d].entries[k].name !in Mapped(nodes'[d].entries))
  {
    hide Sound, Mapped, LinkSet;
    DirShape(nodes, d);
    UnlinkIsRemoval(nodes[d].entries, k);
  }

  /** After unlink the path names nothing, and no path names anything it did not name before. */
  lemma UnlinkedIsGone(nodes: Nodes, nodes': Nodes, c: Cache, path: string, cwd: nat)
    requires Sound(nodes) && Unlinks(nodes, nodes', c, path, cwd)
    ensures Shrinks(nodes, nodes') && !Target(nodes', path, cwd, false).At?
  {
    hide Sound, Resolve, Elements, Mapped, Removed, Reaped;
    var s, elems := Start(path, cwd), Elements(path);
    var d := Resolve(nodes, s, elems, true).inum;
    var k := First(nodes[d].entries, LastOf(path));
    RemovedMaps(nodes, c, d, k);
    if elems == [] {
      ResolveEnd(nodes, s, true);
    }
    if Resolve(nodes', s, elems, false).At? {
      var a, last := elems[..|elems| - 1], elems[|elems| - 1];
      assert a + [last] == elems;
      WalkOn(nodes', s, a, [last], false);
      var d' := Resolve(nodes', s, a, false).inum;
      NamedBefore(nodes, nodes', s, a, false);
      OneElement(nodes', d', last);
      ParentIsPrefix(nodes, s, elems);
    }
  }
}
