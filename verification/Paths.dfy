/**
 When path lookup meets a freed inode.  namex panics there ("ilock: no type").  From the root, or
 from any directory that is linked, it never does; from a directory that has been removed it does
 exactly by way of "." and "..".
 */
module Paths {
  import opened Common
  import opened Directory
  import opened Links
  import opened InodeMap
  import opened Syscalls

  /** In use, and linked if it is a directory. */
  predicate Solid(nodes: Nodes, i: nat) {
    0 < i < |nodes| && nodes[i].kind != Free && (nodes[i].kind == Dir ==> nodes[i].nlink > 0)
  }

  /** Every entry of a linked directory leads to an inode in use, and to a linked one if it is a directory. */
  lemma SolidEntry(nodes: Nodes, d: nat, k: nat)
    requires Sound(nodes) && Solid(nodes, d) && nodes[d].kind == Dir
    requires k < |nodes[d].entries| && Live(nodes[d].entries[k])
    ensures Solid(nodes, nodes[d].entries[k].inum)
  {
    hide LinkSet, Mapped;
    assert ShapeAt(nodes, d) && ParentAt(nodes, d);
    var i := nodes[d].entries[k].inum;
    if k >= 2 {
      EntryLinked(nodes, d, k, i);
    } else if k == 1 && d != ROOT {
      var j: nat :| NamedBy(nodes, d, ParentOf(nodes, d), j);
    }
  }

  /** From a linked directory no path is stale, and what it names is in use. */
  lemma {:induction false} NeverStale(nodes: Nodes, i: nat, elems: seq<string>, parent: bool)
    requires Sound(nodes) && Solid(nodes, i)
    ensures var r := Resolve(nodes, i, elems, parent); r.Missing? || (r.At? && Solid(nodes, r.inum))
    decreases |elems|
  {
    hide Sound;
    if elems != [] && nodes[i].kind == Dir && !(parent && |elems| == 1) {
      var es := nodes[i].entries;
      var k := First(es, elems[0]);
      if k < |es| {
        SolidEntry(nodes, i, k);
        NeverStale(nodes, es[k].inum, elems[1..], parent);
      }
    }
  }

  /** A removed directory has two names left. */
  lemma RemovedNames(nodes: Nodes, d: nat, name: string)
    requires Sound(nodes) && 0 < d < |nodes| && nodes[d].kind == Dir && nodes[d].nlink <= 0
    ensures |nodes[d].entries| >= 2 && 0 < ParentOf(nodes, d) < |nodes| && nodes[d].entries[0].inum == d
    ensures First(nodes[d].entries, name) ==
            if name == "." then 0 else if name == ".." then 1 else |nodes[d].entries|
  {
    hide Mapped, LinkSet;
    assert ShapeAt(nodes, d);
    var es := nodes[d].entries;
    assert Live(es[0]) && Live(es[1]);
    Sole(es, 0);
    Sole(es, 1);
  }

  /**
   The elements, as far as they are "." and "..", lead through removed directories to a freed
   inode; with `parent` the last element is not followed.
   */
  predicate ClimbsToFree(nodes: Nodes, i: nat, elems: seq<string>, parent: bool)
    decreases |elems|
  {
    && i < |nodes| && elems != []
    && (|| nodes[i].kind == Free
        || (&& nodes[i].kind == Dir && nodes[i].nlink <= 0 && |nodes[i].entries| >= 2 && !(parent && |elems| == 1)
            && (|| (elems[0] == "." && ClimbsToFree(nodes, i, elems[1..], parent))
                || (elems[0] == ".." && ClimbsToFree(nodes, ParentOf(nodes, i), elems[1..], parent)))))
  }

  /** Lookup meets a freed inode, with elements left, exactly then. */
  lemma {:induction false} StaleIff(nodes: Nodes, i: nat, elems: seq<string>, parent: bool)
    requires Sound(nodes) && 0 < i < |nodes|
    ensures Resolve(nodes, i, elems, parent) == Stale <==> ClimbsToFree(nodes, i, elems, parent)
    decreases |elems|
  {
    hide Sound;
    if Solid(nodes, i) {
      NeverStale(nodes, i, elems, parent);
    } else if elems != [] && nodes[i].kind == Dir && !(parent && |elems| == 1) {
      RemovedNames(nodes, i, elems[0]);
      if elems[0] == "." {
        StaleIff(nodes, i, elems[1..], parent);
      } else if elems[0] == ".." {
        StaleIff(nodes, ParentOf(nodes, i), elems[1..], parent);
      }
    }
  }

  /** All elements are "." and "..", and they lead through removed directories to a freed inode. */
  predicate EndsFree(nodes: Nodes, i: nat, elems: seq<string>)
    decreases |elems|
  {
    && i < |nodes|
    && if elems == [] then nodes[i].kind == Free
       else && nodes[i].kind == Dir && nodes[i].nlink <= 0 && |nodes[i].entries| >= 2
            && (|| (elems[0] == "." && EndsFree(nodes, i, elems[1..]))
                || (elems[0] == ".." && EndsFree(nodes, ParentOf(nodes, i), elems[1..])))
  }

  lemma {:induction false} EndsFreeIff(nodes: Nodes, i: nat, elems: seq<string>)
    requires Sound(nodes) && 0 < i < |nodes|
    ensures (exists j: nat :: Resolve(nodes, i, elems, false) == At(j) && j < |nodes| && nodes[j].kind == Free)
            <==> EndsFree(nodes, i, elems)
    decreases |elems|
  {
    hide Sound;
    if Solid(nodes, i) {
      NeverStale(nodes, i, elems, false);
    } else if elems != [] && nodes[i].kind == Dir {
      RemovedNames(nodes, i, elems[0]);
      if elems[0] == "." {
        EndsFreeIff(nodes, i, elems[1..]);
      } else if elems[0] == ".." {
        EndsFreeIff(nodes, ParentOf(nodes, i), elems[1..]);
      }
    }
  }

  /** namei, and the ilock of what it returns, panic for a freed inode exactly then. */
  lemma LostIff(nodes: Nodes, path: string, cwd: nat)
    requires Sound(nodes) && 0 < cwd < |nodes|
    ensures var i := Start(path, cwd);
            Lost(nodes, path, cwd) <==> ClimbsToFree(nodes, i, Elements(path), false) || EndsFree(nodes, i, Elements(path))
    ensures path != "" && path[0] == '/' ==> !Lost(nodes, path, cwd)
  {
    hide Sound, Resolve, Elements, ClimbsToFree, EndsFree;
    RootLinked(nodes);
    StaleIff(nodes, Start(path, cwd), Elements(path), false);
    EndsFreeIff(nodes, Start(path, cwd), Elements(path));
    if path != "" && path[0] == '/' {
      RootSolid(nodes);
      NeverStale(nodes, ROOT, Elements(path), false);
    }
  }

  lemma RootSolid(nodes: Nodes)
    requires Sound(nodes)
    ensures Solid(nodes, ROOT)
  {
  }

  // ---------------------------------------------------------------- inputs on which it happens

  /** The working directory has been removed, and so has the directory its ".." names. */
  function Orphaned(): Nodes {
    [Node(Free, 0, []),
     Node(Dir, 1, [Dirent(1, "."), Dirent(1, "..")]),
     Node(Dir, 0, [Dirent(2, "."), Dirent(3, "..")]),
     Node(Free, 0, [])]
  }

  lemma OrphanedSound()
    ensures Sound(Orphaned())
  {
    var nodes := Orphaned();
    RootAlone(nodes[2 := Node(Free, 0, [])]);
    NamelessSound(nodes[2 := Node(Free, 0, [])], 2, nodes[2]);
    assert nodes[2 := Node(Free, 0, [])][2 := nodes[2]] == nodes;
  }

  /** "../x" from there: a state between calls in which every lookup of it panics. */
  lemma StaleInput()
    ensures var c := map[1 := Held(1, false, true), 2 := Held(1, false, true)];
            Sound(Orphaned()) && ReadyAt(Orphaned(), c, 2) && Resolve(Orphaned(), 2, ["..", "x"], false) == Stale
  {
    var nodes := Orphaned();
    OrphanedSound();
    SoundWalkable(nodes);
    RemovedNames(nodes, 2, "..");
    StaleIff(nodes, 2, ["..", "x"], false);
    assert ClimbsToFree(nodes, 3, ["..", "x"][1..], false);
  }

  /** A new file named in the removed working directory, and a new directory: the link counts are wrong. */
  lemma StrayInputs()
    ensures var nodes := Orphaned()[3 := Node(File, 0, [])];
            Sound(nodes) && Vacant(nodes, 2, 2, "x") && !Sound(LinkFile(nodes, 2, 2, "x", 3))
    ensures var nodes := Orphaned()[3 := Node(Dir, 0, [Dirent(3, "."), Dirent(2, "..")])];
            Sound(nodes) && Vacant(nodes, 2, 2, "x") && !Sound(LinkDir(nodes, 2, 2, "x", 3))
  {
    hide Sound;
    OrphanedSound();
    var es := Orphaned()[2].entries;
    LookupIsMap(es, "x");
    NamelessSound(Orphaned(), 3, Node(File, 0, []));
    LinkFileBreaks(Orphaned()[3 := Node(File, 0, [])], 2, 2, "x", 3);
    NamelessSound(Orphaned(), 3, Node(Dir, 0, [Dirent(3, "."), Dirent(2, "..")]));
    LinkDirBreaks(Orphaned()[3 := Node(Dir, 0, [Dirent(3, "."), Dirent(2, "..")])], 2, 2, "x", 3);
  }
}
