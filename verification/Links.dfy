/**
 The name space (fs.c, sysfile.c): inodes, the directory entries that name them, and the rule that
 an inode's link count is the number of entries, other than ".", that name it in linked directories.
 */
module Links {
  import opened Directory

  const ROOT: nat := 1

  datatype Kind = Free | File | Dir | Device
  datatype Node = Node(kind: Kind, nlink: int, entries: seq<Dirent>)
  type Nodes = seq<Node>                 // by inode number; 0 is not used

  predicate Linked(n: Node) { n.kind == Dir && n.nlink > 0 }

  /** Entry k of directory d counts as a link to i. */
  predicate Counts(nodes: Nodes, d: nat, k: nat, i: nat) {
    d < |nodes| && Linked(nodes[d]) && k < |nodes[d].entries| && nodes[d].entries[k].inum == i && nodes[d].entries[k].name != "."
  }

  /** The links to i. */
  function LinkSet(nodes: Nodes, i: nat): (s: set<(nat, nat)>)
    ensures forall d: nat, k: nat :: (d, k) in s <==> Counts(nodes, d, k, i)
  {
    set d, k | 0 <= d < |nodes| && 0 <= k < |nodes[d].entries| && Counts(nodes, d, k, i) :: (d, k)
  }

  // ---------------------------------------------------------------- what every operation keeps

  predicate TallyAt(nodes: Nodes, i: nat)
    requires i < |nodes|
  {
    if nodes[i].kind == Free then LinkSet(nodes, i) == {} else nodes[i].nlink == |LinkSet(nodes, i)|
  }

  /** "." and ".." first, nowhere else; other names distinct, and none for the directory itself. */
  predicate ShapeAt(nodes: Nodes, d: nat)
    requires d < |nodes|
  {
    var es := nodes[d].entries;
    && Names(es) && |es| >= 2 && es[0] == Dirent(d, ".") && es[1].name == ".." && 0 < es[1].inum < |nodes|
    && (forall k :: 2 <= k < |es| && Live(es[k]) ==> es[k].name != "." && es[k].name != ".." && es[k].inum < |nodes| && es[k].inum != d && es[k].inum != ROOT)
    && (nodes[d].nlink <= 0 ==> forall k :: 2 <= k < |es| ==> !Live(es[k]))
  }

  function ParentOf(nodes: Nodes, d: nat): nat
    requires d < |nodes| && |nodes[d].entries| >= 2
  {
    nodes[d].entries[1].inum
  }

  /** Entry k of q names d, other than by "." and "..". */
  predicate NamedBy(nodes: Nodes, d: nat, q: nat, k: nat) { k >= 2 && Counts(nodes, q, k, d) }

  /** A linked directory is named once, in the directory its ".." names. */
  ghost predicate ParentAt(nodes: Nodes, d: nat)
    requires d < |nodes| && |nodes[d].entries| >= 2
  {
    && (d == ROOT ==> ParentOf(nodes, d) == ROOT)
    && (d != ROOT ==> exists k: nat :: NamedBy(nodes, d, ParentOf(nodes, d), k))
    && (forall q: nat, k: nat, q': nat, k': nat :: NamedBy(nodes, d, q, k) && NamedBy(nodes, d, q', k') ==> q == q' && k == k')
  }

  ghost predicate Sound(nodes: Nodes) {
    && |nodes| > ROOT && Linked(nodes[ROOT]) && nodes[0].kind == Free
    && (forall i :: 0 < i < |nodes| ==> TallyAt(nodes, i))
    && (forall d :: 0 <= d < |nodes| && nodes[d].kind == Dir ==> ShapeAt(nodes, d))
    && (forall d :: 0 <= d < |nodes| && Linked(nodes[d]) ==> ParentAt(nodes, d))
  }

  /** A file system with nothing but its root. */
  lemma RootAlone(nodes: Nodes)
    requires |nodes| > ROOT && nodes[ROOT] == Node(Dir, 1, [Dirent(ROOT, "."), Dirent(ROOT, "..")])
    requires forall i :: 0 <= i < |nodes| && i != ROOT ==> nodes[i].kind == Free
    ensures Sound(nodes)
  {
    assert forall d: nat, k: nat, i: nat :: Counts(nodes, d, k, i) <==> d == ROOT && k == 1 && i == ROOT;
    assert LinkSet(nodes, ROOT) == {(ROOT, 1)};
    forall i | 0 < i < |nodes|
      ensures TallyAt(nodes, i)
    {
      assert i != ROOT ==> LinkSet(nodes, i) == {};
    }
  }

  // ---------------------------------------------------------------- how the link sets change

  lemma SameLinks(nodes: Nodes, nodes': Nodes, i: nat)
    requires forall d: nat, k: nat :: Counts(nodes', d, k, i) == Counts(nodes, d, k, i)
    ensures LinkSet(nodes', i) == LinkSet(nodes, i)
  {
    hide Counts;
  }

  lemma OneMoreLink(nodes: Nodes, nodes': Nodes, i: nat, q: nat, j: nat)
    requires !Counts(nodes, q, j, i) && forall d: nat, k: nat :: Counts(nodes', d, k, i) == (Counts(nodes, d, k, i) || (d == q && k == j))
    ensures LinkSet(nodes', i) == LinkSet(nodes, i) + {(q, j)} && |LinkSet(nodes', i)| == |LinkSet(nodes, i)| + 1
  {
    hide Counts;
    assert LinkSet(nodes', i) == LinkSet(nodes, i) + {(q, j)};
  }

  // ---------------------------------------------------------------- a new entry for a file or device

  function WithEntry(nodes: Nodes, d: nat, k: nat, e: Dirent): Nodes
    requires d < |nodes| && k <= |nodes[d].entries|
  {
    nodes[d := nodes[d].(entries := Put(nodes[d].entries, k, e))]
  }

  /** Where dirlink may write. */
  predicate Vacant(nodes: Nodes, d: nat, k: nat, name: string) {
    && d < |nodes| && nodes[d].kind == Dir && 2 <= k <= |nodes[d].entries|
    && (k < |nodes[d].entries| ==> !Live(nodes[d].entries[k]))
    && name !in Mapped(nodes[d].entries) && name != "." && name != ".."
  }

  /** nlink changes by c. */
  function Bump(nodes: Nodes, i: nat, c: int): Nodes
    requires i < |nodes|
  {
    nodes[i := nodes[i].(nlink := nodes[i].nlink + c)]
  }

  function LinkFile(nodes: Nodes, d: nat, k: nat, name: string, i: nat): Nodes
    requires d < |nodes| && i < |nodes| && k <= |nodes[d].entries|
  {
    WithEntry(Bump(nodes, i, 1), d, k, Dirent(i, name))
  }

  lemma LinkFileCounts(nodes: Nodes, d: nat, k: nat, name: string, i: nat, q: nat, j: nat, t: nat)
    requires Vacant(nodes, d, k, name) && 0 < i < |nodes| && nodes[i].kind != Dir && t != 0
    ensures Counts(LinkFile(nodes, d, k, name, i), q, j, t) == (Counts(nodes, q, j, t) || (Linked(nodes[d]) && q == d && j == k && t == i))
    ensures !Counts(nodes, d, k, t)
  {
  }

  /** A directory whose entries only changed at k >= 2, by a new name, keeps its shape. */
  lemma ShapeWithEntry(nodes: Nodes, nodes': Nodes, d: nat, k: nat, name: string, i: nat)
    requires |nodes'| == |nodes| && Vacant(nodes, d, k, name) && ShapeAt(nodes, d) && 0 < i < |nodes| && i != d
    requires i != ROOT
    requires nodes'[d].entries == Put(nodes[d].entries, k, Dirent(i, name)) && nodes'[d].nlink > 0
    ensures ShapeAt(nodes', d)
  {
    hide Mapped;
    LinkIsUpdate(nodes[d].entries, k, name, i);
  }

  /** A new name for a file: create and link. */
  lemma LinkFileSound(nodes: Nodes, d: nat, k: nat, name: string, i: nat)
    requires Sound(nodes) && Vacant(nodes, d, k, name) && Linked(nodes[d]) && 0 < i < |nodes|
    requires (nodes[i].kind == File || nodes[i].kind == Device)
    ensures Sound(LinkFile(nodes, d, k, name, i))
  {
    hide Counts, Names, Mapped, Put;
    var nodes' := LinkFile(nodes, d, k, name, i);
    forall q: nat, j: nat, t: nat | t != 0
      ensures Counts(nodes', q, j, t) == (Counts(nodes, q, j, t) || (q == d && j == k && t == i))
      ensures !Counts(nodes, d, k, t)
    {
      LinkFileCounts(nodes, d, k, name, i, q, j, t);
    }
    forall t | 0 < t < |nodes|
      ensures TallyAt(nodes', t)
    {
      assert TallyAt(nodes, t);
      if t == i {
        OneMoreLink(nodes, nodes', i, d, k);
      } else {
        SameLinks(nodes, nodes', t);
      }
    }
    ShapeWithEntry(nodes, nodes', d, k, name, i);
    forall x | 0 <= x < |nodes| && nodes'[x].kind == Dir
      ensures ShapeAt(nodes', x)
    {
      assert ShapeAt(nodes, x);
    }
    PutKeeps(nodes[d].entries, k, Dirent(i, name));
    forall x | 0 <= x < |nodes| && Linked(nodes'[x])
      ensures ParentAt(nodes', x)
    {
      assert ParentAt(nodes, x) && x != i;
      ParentSame(nodes, nodes', x);
    }
  }

  lemma PutKeeps(es: seq<Dirent>, k: nat, e: Dirent)
    requires 2 <= k <= |es|
    ensures |Put(es, k, e)| >= |es| && Put(es, k, e)[0] == es[0] && Put(es, k, e)[1] == es[1]
  {
  }

  lemma ParentSame(nodes: Nodes, nodes': Nodes, x: nat)
    requires x < |nodes| == |nodes'| && |nodes[x].entries| >= 2 && |nodes'[x].entries| >= 2
    requires nodes'[x].entries[1] == nodes[x].entries[1]
    requires ParentAt(nodes, x) && forall q: nat, k: nat :: k >= 2 ==> Counts(nodes', q, k, x) == Counts(nodes, q, k, x)
    ensures ParentAt(nodes', x)
  {
    hide Counts;
    assert forall q: nat, k: nat :: NamedBy(nodes', x, q, k) == NamedBy(nodes, x, q, k);
    if x != ROOT {
      var k: nat :| NamedBy(nodes, x, ParentOf(nodes, x), k);
      assert NamedBy(nodes', x, ParentOf(nodes', x), k);
    }
  }

  // ---------------------------------------------------------------- a new directory

  function LinkDir(nodes: Nodes, d: nat, k: nat, name: string, i: nat): Nodes
    requires d < |nodes| && i < |nodes| && k <= |nodes[d].entries|
  {
    WithEntry(Bump(Bump(nodes, i, 1), d, 1), d, k, Dirent(i, name))
  }

  /** A directory inode before it has a name: "." and "..", no links. */
  predicate Unnamed(nodes: Nodes, d: nat, i: nat) {
    i < |nodes| && i != d && i != ROOT && i != 0 && nodes[i].kind == Dir && nodes[i].nlink == 0 && nodes[i].entries == [Dirent(i, "."), Dirent(d, "..")]
  }

  lemma LinkDirCounts(nodes: Nodes, d: nat, k: nat, name: string, i: nat, q: nat, j: nat, t: nat)
    requires Vacant(nodes, d, k, name) && Linked(nodes[d]) && Unnamed(nodes, d, i) && t != 0
    ensures Counts(LinkDir(nodes, d, k, name, i), q, j, t) == (Counts(nodes, q, j, t) || (q == d && j == k && t == i) || (q == i && j == 1 && t == d))
    ensures !Counts(nodes, d, k, t) && !Counts(nodes, i, j, t)
  {
  }

  /** nodes' counts what nodes counts and two links more: (d, k) to i and (i, 1) to d. */
  ghost predicate TwoMore(nodes: Nodes, nodes': Nodes, d: nat, k: nat, i: nat) {
    forall q: nat, j: nat, t: nat :: t != 0 ==>
      Counts(nodes', q, j, t) == (Counts(nodes, q, j, t) || (q == d && j == k && t == i) || (q == i && j == 1 && t == d))
  }

  lemma TwoMoreTally(nodes: Nodes, nodes': Nodes, d: nat, k: nat, i: nat, t: nat)
    requires TwoMore(nodes, nodes', d, k, i) && !Counts(nodes, d, k, i) && !Counts(nodes, i, 1, d) && d != i && 0 < t
    ensures |LinkSet(nodes', t)| == |LinkSet(nodes, t)| + if t == i || t == d then 1 else 0
    ensures t != i && t != d ==> LinkSet(nodes', t) == LinkSet(nodes, t)
  {
    hide Counts;
    if t == i {
      OneMoreLink(nodes, nodes', i, d, k);
    } else if t == d {
      OneMoreLink(nodes, nodes', d, i, 1);
    } else {
      SameLinks(nodes, nodes', t);
    }
  }

  lemma LinkDirSound(nodes: Nodes, d: nat, k: nat, name: string, i: nat)
    requires Sound(nodes) && Vacant(nodes, d, k, name) && Linked(nodes[d]) && Unnamed(nodes, d, i)
    ensures Sound(LinkDir(nodes, d, k, name, i))
  {
    hide Counts, Names, Mapped, Put, TwoMore, LinkSet;
    var nodes' := LinkDir(nodes, d, k, name, i);
    assert d != 0;
    LinkDirTwoMore(nodes, d, k, name, i);
    forall t | 0 < t < |nodes|
      ensures TallyAt(nodes', t)
    {
      assert TallyAt(nodes, t);
      TwoMoreTally(nodes, nodes', d, k, i, t);
    }
    assert ShapeAt(nodes, d) && ShapeAt(nodes, i);
    ShapeWithEntry(nodes, nodes', d, k, name, i);
    forall x | 0 <= x < |nodes| && nodes'[x].kind == Dir
      ensures ShapeAt(nodes', x)
    {
      assert ShapeAt(nodes, x);
    }
    forall x | 0 <= x < |nodes| && Linked(nodes'[x])
      ensures ParentAt(nodes', x)
    {
      assert TallyAt(nodes, i) && x != i ==> ParentAt(nodes, x);
      LinkDirParent(nodes, d, k, name, i, x);
    }
  }

  lemma LinkDirTwoMore(nodes: Nodes, d: nat, k: nat, name: string, i: nat)
    requires Vacant(nodes, d, k, name) && Linked(nodes[d]) && Unnamed(nodes, d, i) && d != 0
    ensures TwoMore(nodes, LinkDir(nodes, d, k, name, i), d, k, i) && !Counts(nodes, d, k, i) && !Counts(nodes, i, 1, d)
  {
    hide Counts, Names, Mapped, Put;
    LinkDirCounts(nodes, d, k, name, i, d, k, i);
    LinkDirCounts(nodes, d, k, name, i, i, 1, d);
    forall q: nat, j: nat, t: nat | t != 0
      ensures Counts(LinkDir(nodes, d, k, name, i), q, j, t) == (Counts(nodes, q, j, t) || (q == d && j == k && t == i) || (q == i && j == 1 && t == d))
    {
      LinkDirCounts(nodes, d, k, name, i, q, j, t);
    }
  }

  lemma LinkDirParent(nodes: Nodes, d: nat, k: nat, name: string, i: nat, x: nat)
    requires Vacant(nodes, d, k, name) && Linked(nodes[d]) && Unnamed(nodes, d, i) && d != 0 && ShapeAt(nodes, d)
    requires 0 < x < |nodes| && |nodes[x].entries| >= 2
    requires if x == i then LinkSet(nodes, i) == {} else ParentAt(nodes, x)
    ensures |LinkDir(nodes, d, k, name, i)[x].entries| >= 2 && ParentAt(LinkDir(nodes, d, k, name, i), x)
  {
    hide Counts, Names, Mapped, Put, LinkSet;
    var nodes' := LinkDir(nodes, d, k, name, i);
    LinkDirTwoMore(nodes, d, k, name, i);
    PutKeeps(nodes[d].entries, k, Dirent(i, name));
    if x == i {
      NamedOnce(nodes, nodes', d, k, i);
    } else {
      ParentSame(nodes, nodes', x);
    }
  }

  lemma NamedOnce(nodes: Nodes, nodes': Nodes, d: nat, k: nat, i: nat)
    requires 2 <= k && i < |nodes'| && |nodes'[i].entries| >= 2 && ParentOf(nodes', i) == d && i != ROOT
    requires LinkSet(nodes, i) == {}
    requires forall q: nat, j: nat :: Counts(nodes', q, j, i) == (Counts(nodes, q, j, i) || (q == d && j == k))
    ensures ParentAt(nodes', i)
  {
    hide Counts;
    assert forall q: nat, j: nat :: !Counts(nodes, q, j, i) by {
      forall q: nat, j: nat
        ensures !Counts(nodes, q, j, i)
      {
        assert (q, j) !in LinkSet(nodes, i);
      }
    }
    assert NamedBy(nodes', i, d, k);
  }

  // ---------------------------------------------------------------- taking a name away

  function Cleared(nodes: Nodes, d: nat, k: nat): Nodes
    requires d < |nodes| && k < |nodes[d].entries|
  {
    nodes[d := nodes[d].(entries := nodes[d].entries[k := Dirent(0, "")])]
  }

  function UnlinkFile(nodes: Nodes, d: nat, k: nat, i: nat): Nodes
    requires d < |nodes| && i < |nodes| && k < |nodes[d].entries|
  {
    Bump(Cleared(nodes, d, k), i, -1)
  }

  /** Entry k of d names i. */
  predicate Entry(nodes: Nodes, d: nat, k: nat, i: nat) {
    d < |nodes| && nodes[d].kind == Dir && 2 <= k < |nodes[d].entries| && nodes[d].entries[k].inum == i && 0 < i < |nodes|
  }

  /** Only linked directories name anything, and what they name has a link. */
  lemma EntryLinked(nodes: Nodes, d: nat, k: nat, i: nat)
    requires Sound(nodes) && Entry(nodes, d, k, i)
    ensures Linked(nodes[d]) && Counts(nodes, d, k, i) && i != d && i != ROOT && nodes[i].kind != Free
    ensures nodes[i].nlink >= 1
  {
    assert ShapeAt(nodes, d) && Live(nodes[d].entries[k]);
    assert (d, k) in LinkSet(nodes, i) && TallyAt(nodes, i);
    assert |LinkSet(nodes, i)| > 0;
  }

  lemma UnlinkFileCounts(nodes: Nodes, d: nat, k: nat, i: nat, q: nat, j: nat, t: nat)
    requires Entry(nodes, d, k, i) && nodes[i].kind != Dir && t != 0
    ensures Counts(nodes, q, j, t) && !(q == d && j == k) <==> Counts(UnlinkFile(nodes, d, k, i), q, j, t)
    ensures t != i ==> !Counts(nodes, d, k, t)
  {
  }

  lemma ShapeCleared(nodes: Nodes, nodes': Nodes, d: nat, k: nat)
    requires |nodes'| == |nodes| && d < |nodes| && 2 <= k < |nodes[d].entries| && Live(nodes[d].entries[k])
    requires ShapeAt(nodes, d)
    requires nodes'[d].entries == nodes[d].entries[k := Dirent(0, "")] && nodes'[d].nlink > 0
    ensures ShapeAt(nodes', d)
  {
    hide Mapped;
    UnlinkIsRemoval(nodes[d].entries, k);
  }

  lemma UnlinkFileSound(nodes: Nodes, d: nat, k: nat, i: nat)
    requires Sound(nodes) && Entry(nodes, d, k, i) && nodes[i].kind != Dir
    ensures Sound(UnlinkFile(nodes, d, k, i))
  {
    EntryLinked(nodes, d, k, i);
    UnlinkFileKeeps(nodes, d, k, i);
  }

  lemma UnlinkFileKeeps(nodes: Nodes, d: nat, k: nat, i: nat)
    requires Sound(nodes) && Entry(nodes, d, k, i) && nodes[i].kind != Dir && Linked(nodes[d])
    requires Counts(nodes, d, k, i) && nodes[i].kind != Free && i != d
    ensures Sound(UnlinkFile(nodes, d, k, i))
  {
    hide Counts, Names, Mapped;
    var nodes' := UnlinkFile(nodes, d, k, i);
    forall q: nat, j: nat, t: nat | t != 0
      ensures Counts(nodes, q, j, t) == (Counts(nodes', q, j, t) || (q == d && j == k && t == i))
      ensures !Counts(nodes', d, k, t)
    {
      UnlinkFileCounts(nodes, d, k, i, q, j, t);
      UnlinkFileCounts(nodes, d, k, i, d, k, t);
    }
    forall t | 0 < t < |nodes|
      ensures TallyAt(nodes', t)
    {
      assert TallyAt(nodes, t);
      if t == i {
        OneMoreLink(nodes', nodes, i, d, k);
      } else {
        SameLinks(nodes, nodes', t);
      }
    }
    assert ShapeAt(nodes, d);
    ShapeCleared(nodes, nodes', d, k);
    forall x | 0 <= x < |nodes| && nodes'[x].kind == Dir
      ensures ShapeAt(nodes', x)
    {
      assert ShapeAt(nodes, x);
    }
    forall x | 0 <= x < |nodes| && Linked(nodes'[x])
      ensures ParentAt(nodes', x)
    {
      assert ParentAt(nodes, x);
      ParentSame(nodes, nodes', x);
    }
  }

  // ---------------------------------------------------------------- taking a directory away

  function UnlinkDir(nodes: Nodes, d: nat, k: nat, i: nat): Nodes
    requires d < |nodes| && i < |nodes| && k < |nodes[d].entries|
  {
    Bump(Bump(Cleared(nodes, d, k), d, -1), i, -1)
  }

  predicate IsEmpty(n: Node) { forall k :: 2 <= k < |n.entries| ==> !Live(n.entries[k]) }

  /** An empty directory has one link, from the directory its ".." names. */
  lemma EmptyHasOneLink(nodes: Nodes, d: nat, k: nat, i: nat)
    requires Sound(nodes) && Entry(nodes, d, k, i) && nodes[i].kind == Dir && IsEmpty(nodes[i])
    ensures LinkSet(nodes, i) == {(d, k)} && nodes[i].nlink == 1 && |nodes[i].entries| >= 2 && ParentOf(nodes, i) == d
  {
    EntryLinked(nodes, d, k, i);
    assert TallyAt(nodes, i) && ParentAt(nodes, i) && NamedBy(nodes, i, d, k);
    forall q: nat, j: nat | Counts(nodes, q, j, i)
      ensures q == d && j == k
    {
      LinkOfEmpty(nodes, d, k, i, q, j);
    }
    assert forall x :: x in LinkSet(nodes, i) ==> x == (d, k);
    assert LinkSet(nodes, i) == {(d, k)};
  }

  lemma LinkOfEmpty(nodes: Nodes, d: nat, k: nat, i: nat, q: nat, j: nat)
    requires Sound(nodes) && NamedBy(nodes, i, d, k) && 0 < i < |nodes| && i != ROOT && Linked(nodes[i])
    requires IsEmpty(nodes[i]) && Counts(nodes, q, j, i)
    ensures q == d && j == k
  {
    assert ShapeAt(nodes, q) && ParentAt(nodes, i);
    NoDotDot(nodes, i, q);
    assert j != 0 && j != 1;
    assert NamedBy(nodes, i, q, j);
  }

  /** No linked directory has an empty one as its parent. */
  lemma NoDotDot(nodes: Nodes, i: nat, q: nat)
    requires Sound(nodes) && i < |nodes| && i != ROOT && IsEmpty(nodes[i]) && q < |nodes|
    ensures !Counts(nodes, q, 1, i)
  {
    if Linked(nodes[q]) {
      assert ShapeAt(nodes, q) && ParentAt(nodes, q);
      assert forall k: nat :: !NamedBy(nodes, q, i, k);
      assert ParentOf(nodes, q) != i;
    }
  }

  lemma UnlinkDirCounts(nodes: Nodes, d: nat, k: nat, i: nat, q: nat, j: nat, t: nat)
    requires Entry(nodes, d, k, i) && nodes[i].kind == Dir && IsEmpty(nodes[i]) && nodes[i].nlink == 1 && i != d
    requires t != 0 && nodes[d].nlink > 1
    requires |nodes[i].entries| >= 2 && nodes[i].entries[0].name == "." && nodes[i].entries[1] == Dirent(d, "..")
    requires nodes[d].entries[k].name != "."
    ensures Counts(nodes, q, j, t) == (Counts(UnlinkDir(nodes, d, k, i), q, j, t) || (q == d && j == k && t == i) || (q == i && j == 1 && t == d))
    ensures !Counts(UnlinkDir(nodes, d, k, i), d, k, t) && !Counts(UnlinkDir(nodes, d, k, i), i, j, t)
  {
  }

  lemma UnlinkDirSound(nodes: Nodes, d: nat, k: nat, i: nat)
    requires Sound(nodes) && Entry(nodes, d, k, i) && nodes[i].kind == Dir && IsEmpty(nodes[i])
    ensures Sound(UnlinkDir(nodes, d, k, i))
  {
    hide Counts, Names, Mapped, TwoMore, LinkSet;
    EntryLinked(nodes, d, k, i);
    EmptyHasOneLink(nodes, d, k, i);
    TwoLinks(nodes, d, k, i);
    var nodes' := UnlinkDir(nodes, d, k, i);
    UnlinkDirTwoMore(nodes, d, k, i);
    forall t | 0 < t < |nodes|
      ensures TallyAt(nodes', t)
    {
      assert TallyAt(nodes, t);
      TwoMoreTally(nodes', nodes, d, k, i, t);
    }
    assert ShapeAt(nodes, d);
    ShapeCleared(nodes, nodes', d, k);
    forall x | 0 <= x < |nodes| && nodes'[x].kind == Dir
      ensures ShapeAt(nodes', x)
    {
      assert ShapeAt(nodes, x);
    }
    forall x | 0 <= x < |nodes| && Linked(nodes'[x])
      ensures ParentAt(nodes', x)
    {
      assert ParentAt(nodes, x) && x != i;
      TwoMoreNamed(nodes', nodes, d, k, i, x);
      ParentSame(nodes, nodes', x);
    }
  }

  lemma TwoMoreNamed(nodes: Nodes, nodes': Nodes, d: nat, k: nat, i: nat, x: nat)
    requires TwoMore(nodes, nodes', d, k, i) && x != i && x != 0
    ensures forall q: nat, j: nat :: j >= 2 ==> Counts(nodes', q, j, x) == Counts(nodes, q, j, x)
  {
    hide Counts;
  }

  /** The parent of an empty directory has a second link: that directory's "..". */
  lemma TwoLinks(nodes: Nodes, d: nat, k: nat, i: nat)
    requires Sound(nodes) && Entry(nodes, d, k, i) && nodes[i].kind == Dir && nodes[i].nlink == 1
    requires ParentOf(nodes, i) == d && Linked(nodes[d]) && i != d && i != ROOT
    ensures nodes[d].nlink > 1 && d != 0
  {
    assert ShapeAt(nodes, i) && ShapeAt(nodes, d) && TallyAt(nodes, d) && ParentAt(nodes, d);
    assert (i, 1) in LinkSet(nodes, d);
    if d == ROOT {
      assert (d, 1) in LinkSet(nodes, d);
      TwoMembers(LinkSet(nodes, d), (i, 1), (d, 1));
    } else {
      var k': nat :| NamedBy(nodes, d, ParentOf(nodes, d), k');
      assert (ParentOf(nodes, d), k') in LinkSet(nodes, d);
      TwoMembers(LinkSet(nodes, d), (i, 1), (ParentOf(nodes, d), k'));
    }
  }

  lemma TwoMembers(s: set<(nat, nat)>, x: (nat, nat), y: (nat, nat))
    requires x in s && y in s && x != y
    ensures |s| > 1
  {
    var rest := s - {x};
    assert y in rest && |rest| > 0 && s == rest + {x};
  }

  lemma UnlinkDirTwoMore(nodes: Nodes, d: nat, k: nat, i: nat)
    requires Sound(nodes) && Entry(nodes, d, k, i) && nodes[i].kind == Dir && IsEmpty(nodes[i]) && nodes[i].nlink == 1
    requires ParentOf(nodes, i) == d && i != d && d != 0 && nodes[d].nlink > 1
    ensures TwoMore(UnlinkDir(nodes, d, k, i), nodes, d, k, i)
    ensures !Counts(UnlinkDir(nodes, d, k, i), d, k, i) && !Counts(UnlinkDir(nodes, d, k, i), i, 1, d)
  {
    hide Counts, Names, Mapped, LinkSet;
    assert ShapeAt(nodes, d) && ShapeAt(nodes, i);
    UnlinkDirCounts(nodes, d, k, i, d, 1, i);
    UnlinkDirCounts(nodes, d, k, i, d, 1, d);
    forall q: nat, j: nat, t: nat | t != 0
      ensures Counts(nodes, q, j, t) == (Counts(UnlinkDir(nodes, d, k, i), q, j, t) || (q == d && j == k && t == i) || (q == i && j == 1 && t == d))
    {
      UnlinkDirCounts(nodes, d, k, i, q, j, t);
    }
  }

  // ---------------------------------------------------------------- inodes without names

  /** Inodes that no entry of a linked directory names may come and go. */
  lemma NamelessSound(nodes: Nodes, i: nat, n: Node)
    requires Sound(nodes) && 0 < i < |nodes| && i != ROOT
    requires nodes[i].kind == Free || nodes[i].nlink == 0
    requires n.kind == Free || n.nlink == 0
    requires n.kind == Dir ==> |n.entries| == 2 && n.entries[0] == Dirent(i, ".")
    requires n.kind == Dir ==> n.entries[1].name == ".." && 0 < n.entries[1].inum < |nodes|
    ensures Sound(nodes[i := n])
  {
    hide LinkSet, Mapped;
    var nodes' := nodes[i := n];
    assert !Linked(nodes[i]) && !Linked(n);
    assert forall q: nat, j: nat, t: nat :: Counts(nodes', q, j, t) == Counts(nodes, q, j, t);
    forall t | 0 < t < |nodes|
      ensures TallyAt(nodes', t)
    {
      assert TallyAt(nodes, t);
      SameLinks(nodes, nodes', t);
      if t == i {
        NoLinks(nodes, i);
      }
    }
    forall x | 0 <= x < |nodes| && nodes'[x].kind == Dir
      ensures ShapeAt(nodes', x)
    {
      assert x != i ==> ShapeAt(nodes, x);
    }
    forall x | 0 <= x < |nodes| && Linked(nodes'[x])
      ensures ParentAt(nodes', x)
    {
      assert ParentAt(nodes, x);
      ParentSame(nodes, nodes', x);
    }
  }

  lemma NoLinks(nodes: Nodes, i: nat)
    requires i < |nodes| && TallyAt(nodes, i) && (nodes[i].kind == Free || nodes[i].nlink == 0)
    ensures LinkSet(nodes, i) == {}
  {
  }

  // ---------------------------------------------------------------- names in removed directories

  /** A file named in a directory that has itself been removed breaks the rule... */
  lemma LinkFileBreaks(nodes: Nodes, d: nat, k: nat, name: string, i: nat)
    requires Sound(nodes) && Vacant(nodes, d, k, name) && !Linked(nodes[d]) && 0 < i < |nodes|
    requires (nodes[i].kind == File || nodes[i].kind == Device)
    ensures !Sound(LinkFile(nodes, d, k, name, i))
  {
    hide LinkSet, Mapped;
    var nodes' := LinkFile(nodes, d, k, name, i);
    forall q: nat, j: nat
      ensures Counts(nodes', q, j, i) == Counts(nodes, q, j, i)
    {
      LinkFileCounts(nodes, d, k, name, i, q, j, i);
    }
    SameLinks(nodes, nodes', i);
    assert TallyAt(nodes, i) && !TallyAt(nodes', i);
  }

  /** ...and so does a directory made there. */
  lemma LinkDirBreaks(nodes: Nodes, d: nat, k: nat, name: string, i: nat)
    requires Sound(nodes) && Vacant(nodes, d, k, name) && !Linked(nodes[d]) && Unnamed(nodes, d, i)
    ensures !Sound(LinkDir(nodes, d, k, name, i))
  {
    hide Mapped, LinkSet;
    var nodes', p := LinkDir(nodes, d, k, name, i), ParentOf(nodes, d);
    assert ShapeAt(nodes, d) && TallyAt(nodes, d) && TallyAt(nodes, i) && TallyAt(nodes, p);
    assert nodes[d].nlink == 0;
    PutKeeps(nodes[d].entries, k, Dirent(i, name));
    assert Counts(nodes', d, 1, p);
    if p == i {
      assert (d, 1) in LinkSet(nodes', i) && (d, k) in LinkSet(nodes', i);
      TwoMembers(LinkSet(nodes', i), (d, 1), (d, k));
      assert !TallyAt(nodes', i);
    } else if p == d {
      assert (d, 1) in LinkSet(nodes', d) && (i, 1) in LinkSet(nodes', d);
      TwoMembers(LinkSet(nodes', d), (d, 1), (i, 1));
      assert !TallyAt(nodes', d);
    } else {
      forall q: nat, j: nat
        ensures Counts(nodes', q, j, p) == (Counts(nodes, q, j, p) || (q == d && j == 1))
      {
        AwakenedCounts(nodes, d, k, name, i, q, j);
      }
      OneMoreLink(nodes, nodes', p, d, 1);
      assert !TallyAt(nodes', p);
    }
  }

  /** With a link of its own the removed directory counts again, and so does its "..". */
  lemma AwakenedCounts(nodes: Nodes, d: nat, k: nat, name: string, i: nat, q: nat, j: nat)
    requires Vacant(nodes, d, k, name) && nodes[d].nlink == 0 && Unnamed(nodes, d, i) && ShapeAt(nodes, d)
    requires ParentOf(nodes, d) != i && ParentOf(nodes, d) != d
    ensures Counts(LinkDir(nodes, d, k, name, i), q, j, ParentOf(nodes, d)) == (Counts(nodes, q, j, ParentOf(nodes, d)) || (q == d && j == 1))
    ensures !Counts(nodes, d, 1, ParentOf(nodes, d))
  {
  }
}
