/**
 Path lookup and the system calls that change the name space (fs.c, sysfile.c), run one at a time:
 what they do to names and link counts, and that on every way out the references and inode locks
 they took are gone again, except those they hand over.  Inodes go by number; the cache is the map
 of inode numbers to reference counts and flags that its slots stand for (Icache.MapOf).
 */
module Syscalls {
  import opened Common
  import opened Directory
  import opened Links
  import opened InodeMap

  const DIRMAX: nat := 4480              // entries in a file of MAXFILE blocks

  // ---------------------------------------------------------------- the inode cache

  /** Nothing is locked. */
  predicate Quiet(c: Cache) { forall i :: i in c ==> c[i].ref >= 1 && !c[i].busy }

  /** From c to c' exactly the references in extra were added; nothing is locked, and what was read in still is. */
  ghost predicate Balanced(c: Cache, c': Cache, extra: multiset<nat>) {
    && Quiet(c') && (forall i: nat :: Refs(c', i) == Refs(c, i) + extra[i])
    && (forall i :: i in c && c[i].valid ==> i in c' && c'[i].valid)
  }

  lemma BalancedStart(c: Cache)
    requires Quiet(c)
    ensures Balanced(c, c, multiset{})
  {
  }

  lemma BalancedGet(c: Cache, c': Cache, i: nat)
    requires Quiet(c) && Balanced(c, c', multiset{})
    ensures Balanced(c, Gotten(c', i), multiset{i})
  {
  }

  /** Lock ip, take next, unlock and drop ip. */
  function Stepped(c: Cache, ip: nat, next: nat): Cache
    requires ip in c
  {
    Dropped(Unlocked(Gotten(Locked(c, ip), next), ip), ip)
  }

  lemma SteppedRefs(c: Cache, c': Cache, ip: nat, next: nat, i: nat)
    requires Quiet(c) && Balanced(c, c', multiset{ip}) && ip in c'
    ensures Refs(Stepped(c', ip, next), i) == Refs(c, i) + if i == next then 1 else 0
    ensures i in Stepped(c', ip, next) ==> Stepped(c', ip, next)[i].ref >= 1 && !Stepped(c', ip, next)[i].busy
    ensures i in c && c[i].valid ==> i in Stepped(c', ip, next) && Stepped(c', ip, next)[i].valid
  {
    assert Refs(c', ip) == Refs(c, ip) + 1;
    assert Refs(c', i) == Refs(c, i) + multiset{ip}[i];
  }

  lemma BalancedStep(c: Cache, c': Cache, ip: nat, next: nat)
    requires Quiet(c) && Balanced(c, c', multiset{ip}) && ip in c'
    ensures Balanced(c, Dropped(Unlocked(Gotten(Locked(c', ip), next), ip), ip), multiset{next})
  {
    hide Dropped, Unlocked, Gotten, Locked;
    var c2 := Stepped(c', ip, next);
    forall i: nat
      ensures Refs(c2, i) == Refs(c, i) + multiset{next}[i]
      ensures i in c2 ==> c2[i].ref >= 1 && !c2[i].busy
      ensures i in c && c[i].valid ==> i in c2 && c2[i].valid
    {
      SteppedRefs(c, c', ip, next, i);
    }
  }

  /** Lock ip, unlock it, and drop it or keep it. */
  lemma BalancedStop(c: Cache, c': Cache, ip: nat)
    requires Quiet(c) && Balanced(c, c', multiset{ip}) && ip in c'
    ensures Balanced(c, Unlocked(Locked(c', ip), ip), multiset{ip})
    ensures Balanced(c, Dropped(Unlocked(Locked(c', ip), ip), ip), multiset{})
    ensures Balanced(c, Dropped(c', ip), multiset{})
  {
    hide Balanced, Quiet, Dropped;
    BalancedTouch(c, c', ip);
    BalancedDrop(c, c', ip);
    BalancedDrop(c, Unlocked(Locked(c', ip), ip), ip);
  }

  lemma BalancedTouch(c: Cache, c': Cache, ip: nat)
    requires Quiet(c) && Balanced(c, c', multiset{ip}) && ip in c'
    ensures Balanced(c, Unlocked(Locked(c', ip), ip), multiset{ip})
  {
  }

  lemma BalancedDrop(c: Cache, c': Cache, ip: nat)
    requires Quiet(c) && Balanced(c, c', multiset{ip}) && ip in c'
    ensures Balanced(c, Dropped(c', ip), multiset{})
  {
    assert Refs(c', ip) == Refs(c, ip) + 1;
  }

  // ---------------------------------------------------------------- what a path names

  datatype Resolved = At(inum: nat) | Missing | Stale

  /**
   The inode a path of these elements names from i on, or with `parent` the directory of its last
   element.  Stale: on the way lies an inode that has been freed.
   */
  function Resolve(nodes: Nodes, i: nat, elems: seq<string>, parent: bool): Resolved
    requires i < |nodes|
    decreases |elems|
  {
    if elems == [] then (if parent then Missing else At(i))
    else if nodes[i].kind == Free then Stale
    else if nodes[i].kind != Dir then Missing
    else if parent && |elems| == 1 then At(i)
    else
      var es := nodes[i].entries;
      var k := First(es, elems[0]);
      if k == |es| then Missing
      else if es[k].inum >= |nodes| then Stale
      else Resolve(nodes, es[k].inum, elems[1..], parent)
  }

  datatype Walk = Inode(inum: nat) | NoInode | Panicked

  /** What namex found is what the elements of the path name from directory i on. */
  predicate WalksTo(nodes: Nodes, i: nat, path: string, parent: bool, r: Walk, cached: nat) {
    && i < |nodes|
    && var found := Resolve(nodes, i, Elements(path), parent);
    match r
    case Inode(inum) => found == At(inum)
    case NoInode => found == Missing
    case Panicked => found == Stale || cached + 1 >= NINODE
  }
  datatype Step = Onward(inum: nat) | StopHere | NoStep | StepPanic
  datatype Linking = Added | Exists | LinkPanic
  datatype Lookup = Hit(inum: nat, k: nat) | NoEntry | LookupPanic

  // ---------------------------------------------------------------- what holds between calls

  /** Inodes without links are referenced, so that the last reference will free them. */
  predicate Kept(nodes: Nodes, c: Cache) {
    forall x :: 0 < x < |nodes| && nodes[x].kind != Free && nodes[x].nlink == 0 ==> x in c && c[x].valid
  }

  /** Free inodes are not referenced. */
  predicate InUse(nodes: Nodes, c: Cache) { forall i :: i in c ==> 0 < i < |nodes| && nodes[i].kind != Free }

  /** Link counts are right, and the last reference to an inode without links will free it, and not before. */
  ghost predicate Tidy(nodes: Nodes, c: Cache) { Sound(nodes) && Kept(nodes, c) && InUse(nodes, c) }

  /** Dropping a reference, and freeing the inode if it is the last and there are no links. */
  lemma PutTidy(nodes: Nodes, c: Cache, i: nat)
    requires Tidy(nodes, c) && i in c && i < |nodes| && c[i].ref > 0
    ensures var nodes' := if c[i].ref == 1 && c[i].valid && nodes[i].nlink == 0 then nodes[i := Node(Free, 0, [])] else nodes;
            Tidy(nodes', Dropped(c, i))
  {
    hide Sound;
    if c[i].ref == 1 && c[i].valid && nodes[i].nlink == 0 {
      RootLinked(nodes);
      NamelessSound(nodes, i, Node(Free, 0, []));
    }
  }

  /** There is a root, and directories look like directories. */
  predicate Walkable(nodes: Nodes) {
    && |nodes| > ROOT && nodes[ROOT].kind == Dir && nodes[0].kind == Free
    && (forall d :: 0 <= d < |nodes| && nodes[d].kind == Dir ==> ShapeAt(nodes, d) && nodes[d].nlink >= 0)
  }

  /** What path lookup relies on. */
  predicate ReadyAt(nodes: Nodes, c: Cache, cwd: nat) {
    && Walkable(nodes) && Quiet(c) && Kept(nodes, c) && InUse(nodes, c)
    && cwd in c && cwd < |nodes| && nodes[cwd].kind == Dir
  }

  /** No entry can be added: the file is as long as a file can be, or it needs a block (32 entries fill one). */
  predicate NoSlot(es: seq<Dirent>, full: bool) {
    |es| >= DIRMAX || (full && FirstFree(es) == |es| && |es| % 32 == 0)
  }

  class FileTree {
    var nodes: Nodes
    var cache: Cache
    var cwd: nat
    var diskFull: bool                   // balloc would find no block

    ghost predicate Valid()
      reads this
    {
      Sound(nodes) && Ready()
    }

    ghost predicate Ready()
      reads this
    {
      ReadyAt(nodes, cache, cwd)
    }

    /** The first process, on a disk with nothing but the root directory. */
    constructor (inodes: nat)
      requires inodes > ROOT
      ensures Valid() && cwd == ROOT && cache == map[ROOT := Held(1, false, false)] && |nodes| == inodes
    {
      nodes := seq(inodes, i => if i == ROOT then Node(Dir, 1, [Dirent(ROOT, "."), Dirent(ROOT, "..")]) else Node(Free, 0, []));
      cache, cwd, diskFull := map[ROOT := Held(1, false, false)], ROOT, false;
      new;
      RootAlone(nodes);
      SoundWalkable(nodes);
    }

    /** iget; false is the panic "no inodes". */
    method Iget(i: nat) returns (ok: bool)
      modifies this`cache
      ensures ok <==> i in old(cache) || |old(cache)| < NINODE
      ensures cache == if ok then Gotten(old(cache), i) else old(cache)
    {
      ok := i in cache || |cache| < NINODE;
      if ok {
        cache := Gotten(cache, i);
      }
    }

    /** ilock of an inode that nobody has locked; false is the panic "no type". */
    method Ilock(i: nat) returns (ok: bool)
      requires i in cache && !cache[i].busy && i < |nodes|
      modifies this`cache
      ensures ok <==> nodes[i].kind != Free || old(cache[i].valid)
      ensures cache == Locked(old(cache), i)
    {
      ok := cache[i].valid || nodes[i].kind != Free;
      cache := Locked(cache, i);
    }

    method Iunlock(i: nat)
      requires i in cache && cache[i].busy
      modifies this`cache
      ensures cache == Unlocked(old(cache), i)
    {
      cache := Unlocked(cache, i);
    }

    /** iput: the last reference to an inode without links frees it; that one must not be locked. */
    method Iput(i: nat)
      requires i in cache && i < |nodes|
      requires (cache[i].ref == 1 && cache[i].valid && nodes[i].nlink == 0 ==> !cache[i].busy)
      modifies this`cache, this`nodes
      ensures old(Tidy(nodes, cache)) && old(cache[i].ref) > 0 ==> Tidy(nodes, cache)
      ensures cache == Dropped(old(cache), i)
      ensures nodes == if old(cache[i].ref == 1 && cache[i].valid && nodes[i].nlink == 0) then old(nodes)[i := Node(Free, 0, [])] else old(nodes)
    {
      hide Tidy;
      if Tidy(nodes, cache) && cache[i].ref > 0 { PutTidy(nodes, cache, i); }
      if cache[i].ref == 1 && cache[i].valid && nodes[i].nlink == 0 {
        nodes := nodes[i := Node(Free, 0, [])];
      }
      cache := Dropped(cache, i);
    }

    /** dirlookup in the locked directory d. */
    method DirLookup(d: nat, name: string) returns (r: Lookup)
      requires d < |nodes| && nodes[d].kind == Dir
      modifies this`cache
      ensures r.NoEntry? <==> First(nodes[d].entries, name) == |nodes[d].entries|
      ensures r.NoEntry? ==> cache == old(cache)
      ensures r.Hit? ==> r.k == First(nodes[d].entries, name) && r.inum == nodes[d].entries[r.k].inum
      ensures r.Hit? ==> cache == Gotten(old(cache), r.inum)
      ensures r.LookupPanic? ==> |old(cache)| >= NINODE
    {
      var es := nodes[d].entries;
      var k := 0;
      while k < |es|
        invariant 0 <= k <= |es| && cache == old(cache) && forall j :: 0 <= j < k ==> !(Live(es[j]) && es[j].name == name)
      {
        if Live(es[k]) && es[k].name == name {
          var ok := Iget(es[k].inum);
          return if ok then Hit(es[k].inum, k) else LookupPanic;
        }
        k := k + 1;
      }
      return NoEntry;
    }

    /** dirlink in the locked directory d. */
    method DirLink(d: nat, name: string, inum: nat) returns (r: Linking)
      requires d < |nodes| && nodes[d].kind == Dir && forall k :: 0 <= k < |nodes[d].entries| ==> nodes[d].entries[k].inum < |nodes|
      requires forall i :: i in cache ==> cache[i].ref >= 1
      modifies this`nodes, this`cache
      ensures !r.LinkPanic? ==> cache == old(cache) && (r.Exists? <==> name in Mapped(old(nodes)[d].entries))
      ensures r.Exists? ==> nodes == old(nodes)
      ensures r.Added? ==> nodes == WithEntry(old(nodes), d, FirstFree(old(nodes)[d].entries), Dirent(inum, name))
      ensures r.LinkPanic? ==> |old(cache)| >= NINODE || NoSlot(old(nodes)[d].entries, diskFull)
    {
      hide Mapped, Dropped, First, FirstFree;
      var found := DirLookup(d, name);
      LookupIsMap(nodes[d].entries, name);
      match found {
        case LookupPanic =>
          return LinkPanic;
        case Hit(i, _) =>
          GotAndDropped(old(cache), i);
          Iput(i);
          return Exists;
        case NoEntry =>
      }
      var k := 0;
      var es := nodes[d].entries;
      while k < |es| && Live(es[k])
        invariant 0 <= k <= |es| && forall j :: 0 <= j < k ==> Live(es[j])
      {
        k := k + 1;
      }
      FreeIs(es, k);
      if k >= DIRMAX || (k == |es| && k % 32 == 0 && diskFull) {
        return LinkPanic;
      }
      nodes := nodes[d := nodes[d].(entries := Put(es, k, Dirent(inum, name)))];
      return Added;
    }

    /** ialloc; None is a panic for want of inodes or of cache slots. */
    method Ialloc(kind: Kind) returns (r: Option<nat>)
      requires |nodes| > 0
      modifies this`nodes, this`cache
      ensures r.Some? ==> 0 < r.value < |nodes| == |old(nodes)| && old(nodes)[r.value].kind == Free
      ensures r.Some? ==> forall i :: 0 < i < r.value ==> old(nodes)[i].kind != Free
      ensures r.Some? ==> nodes == old(nodes)[r.value := Node(kind, 0, [])] && cache == Gotten(old(cache), r.value)
      ensures r.None? ==> (forall i :: 0 < i < |old(nodes)| ==> old(nodes)[i].kind != Free) || |old(cache)| >= NINODE
    {
      var i := 1;
      while i < |nodes|
        invariant 1 <= i && nodes == old(nodes) && cache == old(cache) && forall j :: 0 < j < i && j < |nodes| ==> nodes[j].kind != Free
      {
        if nodes[i].kind == Free {
          nodes := nodes[i := Node(kind, 0, [])];
          var ok := Iget(i);
          return if ok then Some(i) else None;
        }
        i := i + 1;
      }
      return None;
    }

    /** One turn of the loop of namex, at inode ip; stop is "one level early". */
    method WalkElem(ip: nat, name: string, stop: bool, ghost c0: Cache) returns (r: Step)
      requires Walkable(nodes) && Kept(nodes, c0) && InUse(nodes, c0) && Quiet(c0) && Balanced(c0, cache, multiset{ip})
      requires 0 < ip < |nodes| && ip in cache && (nodes[ip].kind == Free ==> !cache[ip].valid)
      modifies this`cache, this`nodes
      ensures nodes == old(nodes)
      ensures r.StepPanic? ==> nodes[ip].kind == Free || |c0| + 1 >= NINODE
      ensures r.NoStep? ==> nodes[ip].kind != Free
      ensures r.NoStep? ==> (nodes[ip].kind == Dir ==> !stop && First(nodes[ip].entries, name) == |nodes[ip].entries|)
      ensures r.NoStep? ==> Balanced(c0, cache, multiset{})
      ensures r.StopHere? ==> nodes[ip].kind == Dir && stop && Balanced(c0, cache, multiset{ip}) && ip in cache
      ensures r.Onward? ==> nodes[ip].kind == Dir && !stop && First(nodes[ip].entries, name) < |nodes[ip].entries|
      ensures r.Onward? ==> r.inum == nodes[ip].entries[First(nodes[ip].entries, name)].inum
      ensures r.Onward? ==> 0 < r.inum < |nodes| && Balanced(c0, cache, multiset{r.inum}) && r.inum in cache
      ensures r.Onward? ==> (nodes[r.inum].kind == Free ==> !cache[r.inum].valid)
    {
      hide Walkable, Balanced, Quiet, Kept, InUse;
      ghost var c1 := cache;
      WalkFacts(nodes, c0, cache, ip);
      BalancedStop(c0, cache, ip);
      var ok := Ilock(ip);
      if !ok {
        return StepPanic;
      }
      if nodes[ip].kind != Dir {
        Iunlock(ip);
        Iput(ip);
        return NoStep;
      }
      if stop {
        Iunlock(ip);
        return StopHere;
      }
      var next := DirLookup(ip, name);
      if next.LookupPanic? {
        return StepPanic;
      }
      if next.NoEntry? {
        Iunlock(ip);
        Iput(ip);
        return NoStep;
      }
      BalancedStep(c0, c1, ip, next.inum);
      EntryRange(nodes, ip, next.k);
      FreshFree(nodes, c0, c1, ip, next.inum);
      Iunlock(ip);
      Iput(ip);
      return Onward(next.inum);
    }

    /** namex; with parent also the name of the last element. */
    method Namex(path: string, parent: bool) returns (r: Walk, name: string)
      requires Ready()
      modifies this`cache, this`nodes
      ensures nodes == old(nodes)
      ensures path != "" && path[0] == '/' ==> WalksTo(nodes, ROOT, path, parent, r, |old(cache)|)
      ensures path == "" || path[0] != '/' ==> WalksTo(nodes, cwd, path, parent, r, |old(cache)|)
      ensures r.Inode? ==> Balanced(old(cache), cache, multiset{r.inum})
      ensures r.Inode? ==> 0 < r.inum < |nodes| && r.inum in cache
      ensures r.Inode? ==> (nodes[r.inum].kind == Free ==> !cache[r.inum].valid)
      ensures r.Inode? && parent ==> nodes[r.inum].kind == Dir && Elements(path) != []
      ensures r.Inode? && parent ==> name == Elements(path)[|Elements(path)| - 1]
      ensures r.NoInode? ==> Balanced(old(cache), cache, multiset{})
    {
      hide Walkable, Balanced, Elements, Quiet, Resolve, Kept, InUse;
      ghost var c0, start, elems := cache, Start(path, cwd), Elements(path);
      name := "";
      StartFacts(nodes, cache, cwd);
      var ip := if path != "" && path[0] == '/' then ROOT else cwd;
      var ok := Iget(ip);
      if !ok {
        return Panicked, name;
      }
      BalancedStart(c0);
      BalancedGet(c0, c0, ip);
      ghost var done := [];
      var p := path;
      var more, elem, rest := SkipElem(p);
      while more
        invariant nodes == old(nodes) && 0 < ip < |nodes| && ip in cache
        invariant (nodes[ip].kind == Free ==> !cache[ip].valid) && Balanced(c0, cache, multiset{ip})
        invariant Resolve(nodes, start, elems, parent) == Resolve(nodes, ip, Elements(p), parent)
        invariant elems == done + Elements(p)
        invariant more <==> Elements(p) != []
        invariant more ==> Elements(p) == [elem] + Elements(rest) && |rest| < |p| && (rest == "" <==> Elements(rest) == [])
        decreases |p|, more
      {
        name := elem;
        ResolveStep(nodes, ip, Elements(p), elem, Elements(rest), parent);
        var step := WalkElem(ip, name, parent && rest == "", c0);
        match step {
          case StepPanic =>
            return Panicked, name;
          case NoStep =>
            return NoInode, name;
          case StopHere =>
            return Inode(ip), name;
          case Onward(next) =>
            done := done + [elem];
            p, ip := rest, next;
            more, elem, rest := SkipElem(p);
        }
      }
      ResolveEnd(nodes, ip, parent);
      if parent {
        WalkFacts(nodes, c0, cache, ip);
        BalancedStop(c0, cache, ip);
        Iput(ip);
        return NoInode, name;
      }
      return Inode(ip), name;
    }

    /** The "." and ".." of a new directory. */
    method MakeDots(ip: nat, dp: nat) returns (ok: bool)
      requires 0 < ip < |nodes| && dp < |nodes| && nodes[ip].kind == Dir && nodes[ip].entries == [] && forall i :: i in cache ==> cache[i].ref >= 1
      modifies this`nodes, this`cache
      ensures ok ==> nodes == old(nodes)[ip := old(nodes)[ip].(entries := [Dirent(ip, "."), Dirent(dp, "..")])]
      ensures ok ==> cache == old(cache)
      ensures !ok ==> |old(cache)| >= NINODE || diskFull
    {
      hide Mapped, FirstFree, First, Put;
      NewEntries(ip, dp);
      var dot := DirLink(ip, ".", ip);
      if dot.LinkPanic? {
        return false;
      }
      var dotdot := DirLink(ip, "..", dp);
      return !dotdot.LinkPanic?;
    }

    /** The rest of create, once dp is locked and has no such name. */
    method MakeNode(dp: nat, name: string, kind: Kind) returns (r: Option<nat>)
      requires Walkable(nodes) && dp < |nodes| && nodes[dp].kind == Dir && name !in Mapped(nodes[dp].entries)
      requires kind != Free
      requires (forall i :: i in cache ==> cache[i].ref >= 1) && InUse(nodes, cache)
      modifies this`nodes, this`cache
      ensures r.Some? ==> CreatedIn(old(nodes), nodes, dp, name, r.value, kind)
      ensures r.Some? ==> cache == Locked(Gotten(old(cache), r.value), r.value) && r.value !in old(cache)
      ensures r.None? ==> NoRoom(old(nodes), old(cache), dp, kind, diskFull)
    {
      hide Mapped, FirstFree, First, ShapeAt;
      AllInRange(nodes, dp);
      var a := Ialloc(kind);
      if a.None? {
        return None;
      }
      var ip := a.value;
      ghost var nodes1 := nodes;
      var ok := Ilock(ip);
      assert ok;
      nodes := nodes[ip := nodes[ip].(nlink := 1)];
      if kind == Dir {
        nodes := nodes[dp := nodes[dp].(nlink := nodes[dp].nlink + 1)];
        ok := MakeDots(ip, dp);
        if !ok {
          return None;
        }
      }
      var link := DirLink(dp, name, ip);
      if link.LinkPanic? {
        return None;
      }
      return Some(ip);
    }

    /** create, where the name is taken already. */
    method UseExisting(ip: nat, kind: Kind, ghost c0: Cache) returns (r: Creation)
      requires Kept(nodes, c0) && InUse(nodes, c0) && Quiet(c0) && Balanced(c0, cache, multiset{ip})
      requires 0 < ip < |nodes| && ip in cache && (nodes[ip].kind == Free ==> !cache[ip].valid)
      modifies this`nodes, this`cache
      ensures nodes == old(nodes) && !r.Created?
      ensures r.Found? ==> r.inum == ip && kind == File && nodes[ip].kind == File && ip in cache && cache[ip].busy
      ensures r.Found? ==> Balanced(c0, Unlocked(cache, ip), multiset{ip})
      ensures r.NotCreated? ==> Balanced(c0, cache, multiset{}) && !(kind == File && nodes[ip].kind == File)
      ensures r.CreatePanic? ==> nodes[ip].kind == Free
    {
      hide Balanced, Quiet, Kept, InUse;
      WalkFacts(nodes, c0, cache, ip);
      BalancedStop(c0, cache, ip);
      var ok := Ilock(ip);
      if !ok {
        return CreatePanic;
      }
      if kind == File && nodes[ip].kind == File {
        return Found(ip);
      }
      Iunlock(ip);
      Iput(ip);
      return NotCreated;
    }

    /** create, from after nameiparent on: dp is referenced and not locked. */
    method CreateIn(dp: nat, name: string, kind: Kind, ghost c0: Cache) returns (r: Creation)
      requires Walkable(nodes) && Kept(nodes, c0) && InUse(nodes, c0) && Quiet(c0) && Balanced(c0, cache, multiset{dp})
      requires 0 < dp < |nodes| && dp in cache && nodes[dp].kind == Dir && kind != Free
      modifies this`nodes, this`cache
      ensures r.Created? ==> CreatedIn(old(nodes), nodes, dp, name, r.inum, kind)
      ensures r.Found? || r.NotCreated? ==> nodes == old(nodes)
      ensures r.Found? ==> kind == File && 0 < r.inum < |nodes| && nodes[r.inum].kind == File
      ensures r.Found? ==> name in Mapped(nodes[dp].entries) && Mapped(nodes[dp].entries)[name] == r.inum
      ensures r.NotCreated? ==> name in Mapped(nodes[dp].entries) && Balanced(c0, cache, multiset{})
      ensures r.NotCreated? ==> Mapped(nodes[dp].entries)[name] < |nodes|
      ensures r.NotCreated? ==> !(kind == File && nodes[Mapped(nodes[dp].entries)[name]].kind == File)
      ensures r.Created? || r.Found? ==> r.inum in cache && cache[r.inum].busy
      ensures r.Created? || r.Found? ==> Balanced(c0, Unlocked(cache, r.inum), multiset{r.inum})
      ensures r.CreatePanic? ==>
        || NoRoom(old(nodes), c0, dp, kind, diskFull) || |c0| + 2 >= NINODE
        || (name in Mapped(old(nodes)[dp].entries) && IsStale(old(nodes), Mapped(old(nodes)[dp].entries)[name]))
    {
      hide Walkable, Balanced, Quiet, Kept, InUse, Mapped, First, FirstFree, NoRoom, CreatedIn;
      ghost var c1 := cache;
      WalkFacts(nodes, c0, cache, dp);
      LookupIsMap(nodes[dp].entries, name);
      var ok := Ilock(dp);
      var found := DirLookup(dp, name);
      match found {
        case LookupPanic =>
          return CreatePanic;
        case Hit(ip, k) =>
          BalancedStep(c0, c1, dp, ip);
          EntryRange(nodes, dp, k);
          FreshFree(nodes, c0, c1, dp, ip);
          Iunlock(dp);
          Iput(dp);
          r := UseExisting(ip, kind, c0);
          return;
        case NoEntry =>
          LockedFacts(nodes, c0, c1, dp);
          NonNegative(nodes, dp);
          var made := MakeNode(dp, name, kind);
          if made.None? {
            NoRoomThen(old(nodes), c0, c1, dp, kind, diskFull);
            return CreatePanic;
          }
          MadeDp(old(nodes), nodes, c1, dp, name, made.value, kind);
          BalancedCreate(c0, c1, dp, made.value);
          Iunlock(dp);
          Iput(dp);
          return Created(made.value);
      }
    }

    /** create: a new name keeps the link counts right exactly if its directory has not been removed. */
    method Create(path: string, kind: Kind) returns (r: Creation)
      requires Valid() && kind != Free
      modifies this`nodes, this`cache
      ensures r.Created? || r.Found? ==> r.inum in cache && cache[r.inum].busy
      ensures r.Created? || r.Found? ==> Balanced(old(cache), Unlocked(cache, r.inum), multiset{r.inum})
      ensures r.Created? || r.Found? ==> 0 < r.inum < |nodes| && nodes[r.inum].kind == kind
      ensures r.Created? || r.Found? ==> (r.Created? ==> nodes[r.inum].nlink == 1)
      ensures r.Found? || r.NotCreated? ==> nodes == old(nodes)
      ensures r.NotCreated? ==> Balanced(old(cache), cache, multiset{}) && CannotCreate(nodes, path, cwd, kind)
      ensures r.Found? ==> kind == File && EntryOf(nodes, path, cwd, r.inum)
      ensures !r.CreatePanic? ==> |nodes| == |old(nodes)| && forall x :: 0 <= x < |nodes| && old(nodes)[x].kind == Dir ==> nodes[x].kind == Dir
      ensures r.Created? ==> Creates(old(nodes), nodes, path, cwd, r.inum, kind) && Kept(nodes, old(cache))
      ensures r.Created? ==> InUse(nodes, old(cache))
      ensures r.CreatePanic? ==> |old(cache)| + 2 >= NINODE || Blocked(old(nodes), old(cache), path, cwd, kind, diskFull)
    {
      hide Sound, Walkable, Balanced, Quiet, Kept, InUse, Mapped, First, FirstFree, NoRoom, CreatedIn, Resolve, Elements;
      StartFacts(nodes, cache, cwd);
      var dp, name := Namex(path, true);
      match dp {
        case Panicked =>
          return CreatePanic;
        case NoInode =>
          return NotCreated;
        case Inode(d) =>
          NonNegative(nodes, d);
          r := CreateIn(d, name, kind, old(cache));
          if r.Created? {
            MadeSound(old(nodes), nodes, d, name, r.inum, kind);
            MadeKept(old(nodes), nodes, d, name, r.inum, kind, old(cache));
          } else if r.NotCreated? {
            assert EntryOf(nodes, path, cwd, Mapped(nodes[d].entries)[name]);
          }
          return;
      }
    }

    /** sys_open; the file takes over the reference.  fileOk: a file and a descriptor were to be had. */
    method Open(path: string, create: bool, writing: bool, fileOk: bool) returns (r: Opened)
      requires Valid()
      modifies this`nodes, this`cache
      ensures r.Fd? ==> fileOk && r.inum < |nodes| && nodes[r.inum].kind != Free
      ensures r.Fd? ==> Balanced(old(cache), cache, multiset{r.inum})
      ensures r.Fd? && !create ==> PathIs(nodes, path, cwd, r.inum) && (nodes[r.inum].kind == Dir ==> !writing)
      ensures r.Fd? && create ==> EntryOf(nodes, path, cwd, r.inum) || Creates(old(nodes), nodes, path, cwd, r.inum, File)
      ensures r.NotOpened? ==> Balanced(old(cache), cache, multiset{})
      ensures r.NotOpened? && fileOk ==> if create then CannotCreate(nodes, path, cwd, File) else CannotOpen(nodes, path, cwd, writing)
      ensures r.OpenPanic? && !create ==> |old(cache)| + 1 >= NINODE || Lost(old(nodes), path, cwd)
      ensures r.OpenPanic? && create ==> |old(cache)| + 2 >= NINODE || Blocked(old(nodes), old(cache), path, cwd, File, diskFull)
      ensures !r.OpenPanic? && nodes != old(nodes) ==> create && exists i: nat :: Creates(old(nodes), nodes, path, cwd, i, File)
      ensures !r.OpenPanic? ==> (Valid() <==> Sound(nodes))
    {
      hide Sound, Walkable, Balanced, Quiet, Kept, InUse, Resolve, Elements, Creates;
      ghost var c0, nodes0 := cache, nodes;
      StartFacts(nodes, cache, cwd);
      var ip;
      if create {
        var made := Create(path, File);
        if made.CreatePanic? {
          return OpenPanic;
        }
        if made.NotCreated? {
          StillValid(nodes, c0, cache, cwd, multiset{});
          return NotOpened;
        }
        ip := made.inum;
        if made.Created? {
          assert Creates(nodes0, nodes, path, cwd, made.inum, File);
        }
      } else {
        var found, _ := Namex(path, false);
        if found.Panicked? {
          return OpenPanic;
        }
        if found.NoInode? {
          StillValid(nodes, c0, cache, cwd, multiset{});
          return NotOpened;
        }
        ip := found.inum;
        WalkFacts(nodes, c0, cache, ip);
        BalancedStop(c0, cache, ip);
        var ok := Ilock(ip);
        if !ok {
          return OpenPanic;
        }
        if nodes[ip].kind == Dir && writing {
          Iunlock(ip);
          Iput(ip);
          StillValid(nodes, c0, cache, cwd, multiset{});
          return NotOpened;
        }
      }
      r := Hand(ip, fileOk, c0);
      if nodes != nodes0 {
        assert Creates(nodes0, nodes, path, cwd, ip, File);
      }
    }

    /** The end of sys_open: the locked inode goes to the file, or is given up. */
    method Hand(ip: nat, fileOk: bool, ghost c0: Cache) returns (r: Opened)
      requires Kept(nodes, c0) && InUse(nodes, c0) && Quiet(c0) && ip in cache && cache[ip].busy
      requires Balanced(c0, Unlocked(cache, ip), multiset{ip})
      requires 0 < ip < |nodes| && nodes[ip].kind != Free && cwd in c0 && cwd < |nodes| && nodes[cwd].kind == Dir
      modifies this`nodes, this`cache
      ensures nodes == old(nodes) && !r.OpenPanic?
      ensures r == if fileOk then Fd(ip) else NotOpened
      ensures Balanced(c0, cache, if fileOk then multiset{ip} else multiset{}) && (Valid() <==> Sound(nodes))
    {
      hide Sound, Walkable, Balanced, Quiet, Kept, InUse;
      WalkFacts(nodes, c0, Unlocked(cache, ip), ip);
      BalancedStop(c0, Unlocked(cache, ip), ip);
      Iunlock(ip);
      if !fileOk {
        Iput(ip);
        StillValid(nodes, c0, cache, cwd, multiset{});
        return NotOpened;
      }
      StillValid(nodes, c0, cache, cwd, multiset{ip});
      return Fd(ip);
    }

    /** sys_mkdir and sys_mknod: create, then give the inode up. */
    method Make(path: string, kind: Kind) returns (r: Status)
      requires Valid() && (kind == Dir || kind == Device)
      modifies this`nodes, this`cache
      ensures !r.Panic? ==> Balanced(old(cache), cache, multiset{}) && (Valid() <==> Sound(nodes))
      ensures r.Ok? ==> exists i: nat :: Creates(old(nodes), nodes, path, cwd, i, kind)
      ensures r.Fails? ==> nodes == old(nodes) && CannotCreate(nodes, path, cwd, kind)
      ensures r.Panic? ==> |old(cache)| + 2 >= NINODE || Blocked(old(nodes), old(cache), path, cwd, kind, diskFull)
    {
      hide Sound, Walkable, Balanced, Quiet, Kept, InUse, Resolve, Elements, Creates, Blocked;
      ghost var c0, nodes0 := cache, nodes;
      StartFacts(nodes, cache, cwd);
      var made := Create(path, kind);
      if made.CreatePanic? {
        return Panic;
      }
      if made.NotCreated? {
        StillValid(nodes, c0, cache, cwd, multiset{});
        return Fails;
      }
      assert Creates(nodes0, nodes, path, cwd, made.inum, kind);
      var given := Hand(made.inum, false, c0);
      assert Creates(nodes0, nodes, path, cwd, made.inum, kind);
      return Ok;
    }

    /** fileclose of the last reference to an open file: its inode is given up, and freed if it was kept only by this. */
    method Close(i: nat)
      requires Valid() && i in cache && cache[i].ref > (if i == cwd then 1 else 0)
      modifies this`nodes, this`cache
      ensures Valid() && cache == Dropped(old(cache), i)
      ensures nodes == if old(cache[i].ref == 1 && nodes[i].nlink == 0) then old(nodes)[i := Node(Free, 0, [])] else old(nodes)
    {
      hide Sound, Walkable;
      UseFacts(nodes, cache, i);
      Iput(i);
      SoundWalkable(nodes);
    }

    /** sys_chdir: the working directory's reference is exchanged for one to the new directory. */
    method Chdir(path: string) returns (r: Status)
      requires Valid()
      modifies this
      ensures r.Ok? ==> PathIs(old(nodes), path, old(cwd), cwd) && Exchanged(old(cache), cache, old(cwd), cwd)
      ensures r.Ok? ==> Valid()
      ensures r.Ok? ==> nodes == Left(old(nodes), old(cache), old(cwd), cwd)
      ensures r.Fails? ==> nodes == old(nodes) && cwd == old(cwd) && Balanced(old(cache), cache, multiset{}) && Valid()
      ensures r.Fails? ==> !exists i: nat :: PathIs(nodes, path, cwd, i) && i < |nodes| && nodes[i].kind == Dir
      ensures r.Panic? ==> |old(cache)| + 1 >= NINODE || Lost(old(nodes), path, old(cwd))
    {
      hide Sound, Walkable, Balanced, Quiet, Kept, InUse, Resolve, Elements, Exchanged;
      ghost var c0 := cache;
      StartFacts(nodes, cache, cwd);
      var found, _ := Namex(path, false);
      if found.Panicked? {
        return Panic;
      }
      if found.NoInode? {
        StillValid(nodes, c0, cache, cwd, multiset{});
        return Fails;
      }
      var ip := found.inum;
      WalkFacts(nodes, c0, cache, ip);
      BalancedStop(c0, cache, ip);
      var ok := Ilock(ip);
      if !ok {
        return Panic;
      }
      if nodes[ip].kind != Dir {
        Iunlock(ip);
        Iput(ip);
        StillValid(nodes, c0, cache, cwd, multiset{});
        return Fails;
      }
      Iunlock(ip);
      CwdFacts(nodes, c0, cache, cwd, ip);
      ghost var c2 := cache;
      Iput(cwd);
      Changed(nodes, old(nodes), c0, c2, cwd, ip);
      cwd := ip;
      return Ok;
    }

    /** isdirempty */
    method IsDirEmpty(d: nat) returns (empty: bool)
      requires d < |nodes|
      ensures empty <==> IsEmpty(nodes[d])
    {
      var k := 2;
      while k < |nodes[d].entries|
        invariant 2 <= k && forall j :: 2 <= j < k && j < |nodes[d].entries| ==> !Live(nodes[d].entries[j])
      {
        if Live(nodes[d].entries[k]) {
          return false;
        }
        k := k + 1;
      }
      return true;
    }

    method Iunlockput(i: nat)
      requires i in cache && cache[i].busy && i < |nodes|
      modifies this`cache, this`nodes
      ensures cache == Dropped(Unlocked(old(cache), i), i)
      ensures nodes == if old(cache[i].ref == 1 && cache[i].valid && nodes[i].nlink == 0) then old(nodes)[i := Node(Free, 0, [])] else old(nodes)
    {
      Iunlock(i);
      Iput(i);
    }

    /** sys_unlink: the name goes, with it a link, and with the last link and no reference the inode. */
    method Unlink(path: string) returns (r: Status)
      requires Valid()
      modifies this`nodes, this`cache
      ensures !r.Panic? ==> Valid() && Balanced(old(cache), cache, multiset{})
      ensures r.Ok? ==> Unlinks(old(nodes), nodes, old(cache), path, cwd)
      ensures r.Fails? ==> nodes == old(nodes) && !CanUnlink(nodes, path, cwd)
      ensures r.Panic? ==> |old(cache)| + 2 >= NINODE || Target(old(nodes), path, cwd, true) == Stale
    {
      hide Sound, Walkable, Balanced, Quiet, Kept, InUse, Resolve, Elements, First, UnlinkFile, UnlinkDir, IsEmpty;
      ghost var c0, nodes0 := cache, nodes;
      StartFacts(nodes, cache, cwd);
      var dp, name := Namex(path, true);
      if dp.Panicked? {
        return Panic;
      }
      if dp.NoInode? {
        StillValid(nodes, c0, cache, cwd, multiset{});
        return Fails;
      }
      var d := dp.inum;
      ghost var c1 := cache;
      WalkFacts(nodes, c0, cache, d);
      BalancedStop(c0, cache, d);
      var ok := Ilock(d);
      if name == "." || name == ".." {
        Iunlockput(d);
        StillValid(nodes, c0, cache, cwd, multiset{});
        return Fails;
      }
      var found := DirLookup(d, name);
      if found.LookupPanic? {
        return Panic;
      }
      if found.NoEntry? {
        Iunlockput(d);
        StillValid(nodes, c0, cache, cwd, multiset{});
        return Fails;
      }
      var i, k := found.inum, found.k;
      NamedEntry(nodes, d, k);
      EntryLinked(nodes, d, k, i);
      BalancedUnlink(c0, c1, d, i);
      r := Remove(d, k, i, c0);
      if r.Fails? {
        StillValid(nodes, c0, cache, cwd, multiset{});
      } else {
        RemovedValid(nodes0, nodes, c0, cache, cwd, d, k, i);
      }
    }

    /** sys_unlink, from the lock on the inode the entry names. */
    method Remove(d: nat, k: nat, i: nat, ghost c0: Cache) returns (r: Status)
      requires Sound(nodes) && Entry(nodes, d, k, i) && d != i && nodes[i].kind != Free && nodes[i].nlink >= 1
      requires Links.Linked(nodes[d]) && Quiet(c0)
      requires d in cache && cache[d].busy && i in cache && d != i && !cache[i].busy
      requires cache[i].ref == Refs(c0, i) + 1 && (cache[d].ref >= 2 || nodes[d].nlink > 0)
      modifies this`nodes, this`cache
      ensures !r.Panic?
      ensures r.Fails? <==> old(nodes)[i].kind == Dir && !IsEmpty(old(nodes)[i])
      ensures r.Fails? ==> nodes == old(nodes) && cache == BothDropped(Locked(old(cache), i), i, d)
      ensures r.Ok? ==> nodes == Reaped(Removed(old(nodes), d, k, i), c0, i)
      ensures r.Ok? ==> cache == BothDropped(Locked(old(cache), i), d, i)
    {
      hide Sound, IsEmpty, Tidy;
      var ok := Ilock(i);
      if nodes[i].kind == Dir {
        var empty := IsDirEmpty(i);
        if !empty {
          Iunlockput(i);
          Iunlockput(d);
          return Fails;
        }
        EmptyHasOneLink(nodes, d, k, i);
        TwoLinksOf(nodes, d, k, i);
      }
      TakeAway(d, k, i, c0);
      return Ok;
    }

    /** sys_unlink, once the entry may go: both inodes are locked, and given up at the end. */
    method TakeAway(d: nat, k: nat, i: nat, ghost c0: Cache)
      requires Entry(nodes, d, k, i) && d != i && nodes[i].nlink >= 1
      requires nodes[d].nlink > (if nodes[i].kind == Dir then 1 else 0) && Quiet(c0)
      requires d in cache && cache[d].busy && i in cache && cache[i].busy && cache[i].valid && cache[i].ref == Refs(c0, i) + 1
      modifies this`nodes, this`cache
      ensures nodes == Reaped(Removed(old(nodes), d, k, i), c0, i)
      ensures cache == BothDropped(old(cache), d, i)
    {
      hide Tidy;
      nodes := nodes[d := nodes[d].(entries := nodes[d].entries[k := Dirent(0, "")])];
      if nodes[i].kind == Dir {
        nodes := nodes[d := nodes[d].(nlink := nodes[d].nlink - 1)];
      }
      Iunlockput(d);
      nodes := nodes[i := nodes[i].(nlink := nodes[i].nlink - 1)];
      Iunlockput(i);
    }

    /** The middle of sys_link: the new name, in the directory it belongs to. */
    method LinkAt(path: string, ip: nat) returns (r: Status)
      requires Ready() && 0 < ip < |nodes|
      modifies this`nodes, this`cache
      ensures !r.Panic? ==> Balanced(old(cache), cache, multiset{})
      ensures r.Ok? ==> NamesIn(old(nodes), nodes, path, cwd, ip)
      ensures r.Fails? ==> nodes == old(nodes) && CannotName(nodes, path, cwd)
      ensures r.Panic? ==> |old(cache)| + 2 >= NINODE || NameBlocked(old(nodes), path, cwd, diskFull)
    {
      hide Walkable, Balanced, Quiet, Kept, InUse, Resolve, Elements, FirstFree, Mapped;
      ghost var c1 := cache;
      StartFacts(nodes, cache, cwd);
      var dp, name := Namex(path, true);
      if dp.Panicked? {
        return Panic;
      }
      if dp.NoInode? {
        return Fails;
      }
      var d := dp.inum;
      ghost var c2 := cache;
      WalkFacts(nodes, c1, cache, d);
      BalancedStop(c1, cache, d);
      AllInRange(nodes, d);
      LockedFacts(nodes, c1, cache, d);
      var ok := Ilock(d);
      var link := DirLink(d, name, ip);
      if link.LinkPanic? {
        return Panic;
      }
      Iunlockput(d);
      return if link.Added? then Ok else Fails;
    }

    /** sys_link */
    method Link(oldPath: string, newPath: string) returns (r: Status)
      requires Valid()
      modifies this`nodes, this`cache
      ensures !r.Panic? ==> Balanced(old(cache), cache, multiset{}) && (Valid() <==> Sound(nodes))
      ensures r.Ok? ==> LinksTo(old(nodes), nodes, oldPath, newPath, cwd)
      ensures r.Fails? ==> nodes == old(nodes) && (NoFileAt(nodes, oldPath, cwd) || CannotName(nodes, newPath, cwd))
      ensures r.Panic? ==> |old(cache)| + 3 >= NINODE || Lost(old(nodes), oldPath, cwd) || NameBlocked(old(nodes), newPath, cwd, diskFull)
    {
      hide Sound, Walkable, Balanced, Quiet, Kept, InUse, Resolve, Elements, FirstFree, Mapped;
      ghost var c0, nodes0 := cache, nodes;
      StartFacts(nodes, cache, cwd);
      var found, _ := Namex(oldPath, false);
      if found.Panicked? {
        return Panic;
      }
      if found.NoInode? {
        StillValid(nodes, c0, cache, cwd, multiset{});
        return Fails;
      }
      var ip := found.inum;
      WalkFacts(nodes, c0, cache, ip);
      BalancedStop(c0, cache, ip);
      var ok := Ilock(ip);
      if !ok {
        return Panic;
      }
      if nodes[ip].kind == Dir {
        Iunlockput(ip);
        StillValid(nodes, c0, cache, cwd, multiset{});
        return Fails;
      }
      nodes := nodes[ip := nodes[ip].(nlink := nodes[ip].nlink + 1)];
      Iunlock(ip);
      ghost var c1 := cache;
      AtLeastZero(nodes0, ip);
      BumpReady(nodes0, c0, c1, cwd, ip);
      NamesSame(nodes0, ip, newPath, cwd, diskFull);
      var placed := LinkAt(newPath, ip);
      if placed.Panic? {
        return Panic;
      }
      BalancedTrans(c0, c1, cache, multiset{ip});
      WalkFacts(nodes0, c0, cache, ip);
      BalancedStop(c0, cache, ip);
      if placed.Fails? {
        ok := Ilock(ip);
        nodes := nodes[ip := nodes[ip].(nlink := nodes[ip].nlink - 1)];
        assert nodes == nodes0;
        Iunlockput(ip);
        StillValid(nodes, c0, cache, cwd, multiset{});
        return Fails;
      }
      LinkedDone(nodes0, nodes, c0, oldPath, newPath, cwd, ip);
      Iput(ip);
      StillValid(nodes, c0, cache, cwd, multiset{});
      return Ok;
    }
  }

  /** What the path names, or the directory of its last element. */
  function Target(nodes: Nodes, path: string, cwd: nat, parent: bool): Resolved {
    if Start(path, cwd) < |nodes| then Resolve(nodes, Start(path, cwd), Elements(path), parent) else Stale
  }

  /** The path's last element is an entry for i. */
  predicate EntryOf(nodes: Nodes, path: string, cwd: nat, i: nat) {
    var d := Target(nodes, path, cwd, true);
    && d.At? && d.inum < |nodes| && LastOf(path) in Mapped(nodes[d.inum].entries)
    && Mapped(nodes[d.inum].entries)[LastOf(path)] == i
  }

  /** There is no such directory, or the name is taken, and not by a file where a file is wanted. */
  ghost predicate CannotCreate(nodes: Nodes, path: string, cwd: nat, kind: Kind) {
    || Target(nodes, path, cwd, true).Missing?
    || exists i: nat :: EntryOf(nodes, path, cwd, i) && i < |nodes| && !(kind == File && nodes[i].kind == File)
  }

  /** Nothing is there, or a directory that is not to be written. */
  predicate CannotOpen(nodes: Nodes, path: string, cwd: nat, writing: bool) {
    var t := Target(nodes, path, cwd, false);
    t.Missing? || (t.At? && t.inum < |nodes| && nodes[t.inum].kind == Dir && writing)
  }

  /** Lookup meets a freed inode. */
  predicate Lost(nodes: Nodes, path: string, cwd: nat) {
    var t := Target(nodes, path, cwd, false);
    t.Stale? || (t.At? && t.inum < |nodes| && nodes[t.inum].kind == Free)
  }

  /** There is no such directory, or the name is taken. */
  predicate CannotName(nodes: Nodes, path: string, cwd: nat) {
    var t := Target(nodes, path, cwd, true);
    t.Missing? || (t.At? && t.inum < |nodes| && LastOf(path) in Mapped(nodes[t.inum].entries))
  }

  predicate NameBlocked(nodes: Nodes, path: string, cwd: nat, full: bool) {
    var t := Target(nodes, path, cwd, true);
    t.Stale? || (t.At? && t.inum < |nodes| && NoSlot(nodes[t.inum].entries, full))
  }

  predicate NoFileAt(nodes: Nodes, path: string, cwd: nat) {
    var t := Target(nodes, path, cwd, false);
    t.Missing? || (t.At? && t.inum < |nodes| && nodes[t.inum].kind == Dir)
  }

  lemma NamesSame(nodes: Nodes, ip: nat, path: string, cwd: nat, full: bool)
    requires ip < |nodes|
    ensures CannotName(Bump(nodes, ip, 1), path, cwd) == CannotName(nodes, path, cwd)
    ensures NameBlocked(Bump(nodes, ip, 1), path, cwd, full) == NameBlocked(nodes, path, cwd, full)
  {
    hide Resolve, Elements, Mapped;
    if Start(path, cwd) < |nodes| {
      ResolveSame(nodes, Bump(nodes, ip, 1), Start(path, cwd), Elements(path), true);
    }
  }

  /** The path's last element is a new name for inode i. */
  ghost predicate NamesIn(nodes: Nodes, nodes': Nodes, path: string, cwd: nat, i: nat) {
    && Start(path, cwd) < |nodes|
    && var d := Resolve(nodes, Start(path, cwd), Elements(path), true);
    && d.At? && d.inum < |nodes| && nodes[d.inum].kind == Dir && LastOf(path) !in Mapped(nodes[d.inum].entries)
    && nodes' == WithEntry(nodes, d.inum, FirstFree(nodes[d.inum].entries), Dirent(i, LastOf(path)))
  }

  /** What link does: one more name and one more link for the file at the old path; right only in a linked directory. */
  ghost predicate LinksTo(nodes: Nodes, nodes': Nodes, oldPath: string, newPath: string, cwd: nat) {
    && Start(oldPath, cwd) < |nodes| && Start(newPath, cwd) < |nodes|
    && var f := Resolve(nodes, Start(oldPath, cwd), Elements(oldPath), false);
    var d := Resolve(nodes, Start(newPath, cwd), Elements(newPath), true);
    && f.At? && 0 < f.inum < |nodes| && nodes[f.inum].kind != Dir && nodes[f.inum].kind != Free
    && d.At? && d.inum < |nodes| && nodes[d.inum].kind == Dir && LastOf(newPath) !in Mapped(nodes[d.inum].entries)
    && nodes' == LinkFile(nodes, d.inum, FirstFree(nodes[d.inum].entries), LastOf(newPath), f.inum)
    && (Sound(nodes') <==> Links.Linked(nodes[d.inum]))
  }

  lemma BalancedTrans(c: Cache, c1: Cache, c2: Cache, a: multiset<nat>)
    requires Balanced(c, c1, a) && Balanced(c1, c2, multiset{})
    ensures Balanced(c, c2, a)
  {
    forall i: nat
      ensures Refs(c2, i) == Refs(c, i) + a[i]
    {
      assert Refs(c1, i) == Refs(c, i) + a[i] && Refs(c2, i) == Refs(c1, i) + multiset{}[i];
    }
  }

  lemma BumpReady(nodes: Nodes, c: Cache, c': Cache, cwd: nat, ip: nat)
    requires Walkable(nodes) && Kept(nodes, c) && InUse(nodes, c) && Quiet(c) && Balanced(c, c', multiset{ip})
    requires cwd in c && cwd < |nodes| && nodes[cwd].kind == Dir
    requires 0 < ip < |nodes| && nodes[ip].kind != Dir && nodes[ip].kind != Free && nodes[ip].nlink >= 0
    ensures var n := Bump(nodes, ip, 1); Walkable(n) && Kept(n, c') && InUse(n, c') && Quiet(c') && cwd in c' && n[cwd].kind == Dir
  {
    hide Mapped, Sound;
    var n := Bump(nodes, ip, 1);
    forall d | 0 <= d < |n| && n[d].kind == Dir
      ensures ShapeAt(n, d) && n[d].nlink >= 0
    {
      assert ShapeAt(nodes, d) && n[d] == nodes[d];
    }
    StillValid(nodes, c, c', cwd, multiset{ip});
    assert ip in c' by { assert Refs(c', ip) == Refs(c, ip) + 1; }
  }

  lemma {:induction false} ResolveSame(nodes: Nodes, nodes': Nodes, i: nat, elems: seq<string>, parent: bool)
    requires i < |nodes| == |nodes'| && forall x :: 0 <= x < |nodes| ==> nodes'[x].kind == nodes[x].kind && nodes'[x].entries == nodes[x].entries
    ensures Resolve(nodes', i, elems, parent) == Resolve(nodes, i, elems, parent)
    decreases |elems|
  {
    if elems != [] && nodes[i].kind == Dir {
      var es := nodes[i].entries;
      var k := First(es, elems[0]);
      if k < |es| && es[k].inum < |nodes| {
        ResolveSame(nodes, nodes', es[k].inum, elems[1..], parent);
      }
    }
  }

  lemma LinkedDone(nodes: Nodes, nodes': Nodes, c: Cache, oldPath: string, newPath: string, cwd: nat, ip: nat)
    requires Sound(nodes) && 0 < ip < |nodes| && nodes[ip].kind != Dir && nodes[ip].kind != Free
    requires NamesIn(Bump(nodes, ip, 1), nodes', newPath, cwd, ip)
    requires Start(oldPath, cwd) < |nodes| && Resolve(nodes, Start(oldPath, cwd), Elements(oldPath), false) == At(ip)
    requires Kept(nodes, c) && InUse(nodes, c)
    ensures LinksTo(nodes, nodes', oldPath, newPath, cwd) && |nodes'| == |nodes|
    ensures nodes'[ip].nlink == nodes[ip].nlink + 1 >= 1
    ensures Kept(nodes', c) && InUse(nodes', c) && forall x :: 0 <= x < |nodes| ==> nodes'[x].kind == nodes[x].kind
  {
    hide Sound, Mapped, Elements, Resolve, FirstFree;
    var n := Bump(nodes, ip, 1);
    ResolveSame(nodes, n, Start(newPath, cwd), Elements(newPath), true);
    var d := Resolve(nodes, Start(newPath, cwd), Elements(newPath), true).inum;
    NewSlot(nodes, d, LastOf(newPath));
    if Links.Linked(nodes[d]) {
      LinkFileSound(nodes, d, FirstFree(nodes[d].entries), LastOf(newPath), ip);
    } else {
      LinkFileBreaks(nodes, d, FirstFree(nodes[d].entries), LastOf(newPath), ip);
    }
    AtLeastZero(nodes, ip);
  }

  lemma AtLeastZero(nodes: Nodes, i: nat)
    requires Sound(nodes) && 0 < i < |nodes| && nodes[i].kind != Free
    ensures nodes[i].nlink >= 0
  {
    assert TallyAt(nodes, i);
  }

  /** The name space without entry k of d, which names i. */
  function Removed(nodes: Nodes, d: nat, k: nat, i: nat): Nodes
    requires d < |nodes| && i < |nodes| && k < |nodes[d].entries|
  {
    if nodes[i].kind == Dir then UnlinkDir(nodes, d, k, i) else UnlinkFile(nodes, d, k, i)
  }

  /** Without links and references inode i is freed. */
  function Reaped(nodes: Nodes, c: Cache, i: nat): Nodes
    requires i < |nodes|
  {
    if nodes[i].nlink == 0 && i !in c then nodes[i := Node(Free, 0, [])] else nodes
  }

  /** The path's last element names something that may be unlinked. */
  ghost predicate CanUnlink(nodes: Nodes, path: string, cwd: nat) {
    && Start(path, cwd) < |nodes| && LastOf(path) != "." && LastOf(path) != ".."
    && var d := Resolve(nodes, Start(path, cwd), Elements(path), true);
    && d.At? && d.inum < |nodes| && nodes[d.inum].kind == Dir
    && var k := First(nodes[d.inum].entries, LastOf(path));
    && k < |nodes[d.inum].entries| && nodes[d.inum].entries[k].inum < |nodes|
    && var i := nodes[d.inum].entries[k].inum;
    nodes[i].kind == Dir ==> IsEmpty(nodes[i])
  }

  ghost predicate Unlinks(nodes: Nodes, nodes': Nodes, c: Cache, path: string, cwd: nat) {
    && CanUnlink(nodes, path, cwd)
    && var d := Resolve(nodes, Start(path, cwd), Elements(path), true).inum;
    var k := First(nodes[d].entries, LastOf(path));
    nodes' == Reaped(Removed(nodes, d, k, nodes[d].entries[k].inum), c, nodes[d].entries[k].inum)
  }

  lemma NamedEntry(nodes: Nodes, d: nat, k: nat)
    requires Sound(nodes) && d < |nodes| && nodes[d].kind == Dir && k < |nodes[d].entries| && Live(nodes[d].entries[k])
    requires nodes[d].entries[k].name != "." && nodes[d].entries[k].name != ".."
    ensures Entry(nodes, d, k, nodes[d].entries[k].inum)
  {
    assert ShapeAt(nodes, d);
  }

  lemma TwoLinksOf(nodes: Nodes, d: nat, k: nat, i: nat)
    requires Sound(nodes) && Entry(nodes, d, k, i) && nodes[i].kind == Dir && nodes[i].nlink == 1
    requires |nodes[i].entries| >= 2 && ParentOf(nodes, i) == d
    ensures nodes[d].nlink > 1
  {
    EntryLinked(nodes, d, k, i);
    TwoLinks(nodes, d, k, i);
  }

  /** Unlock and drop i, then j. */
  function BothDropped(c: Cache, i: nat, j: nat): Cache
    requires i in c && j in c && i != j
  {
    Dropped(Unlocked(Dropped(Unlocked(c, i), i), j), j)
  }

  /** The cache after d was locked, i taken and locked, and both given up. */
  function After(c: Cache, d: nat, i: nat): Cache
    requires d in c && i != d
  {
    BothDropped(Locked(Gotten(Locked(c, d), i), i), d, i)
  }

  lemma AfterRefs(c: Cache, c': Cache, d: nat, i: nat, j: nat)
    requires Quiet(c) && Balanced(c, c', multiset{d}) && d in c' && i != d
    ensures Refs(After(c', d, i), j) == Refs(c, j)
    ensures j in After(c', d, i) ==> After(c', d, i)[j].ref >= 1 && !After(c', d, i)[j].busy
    ensures j in c && c[j].valid ==> j in After(c', d, i) && After(c', d, i)[j].valid
    ensures i in c ==> i in After(c', d, i) && After(c', d, i)[i].valid
  {
    assert Refs(c', j) == Refs(c, j) + multiset{d}[j];
    assert Refs(c', d) == Refs(c, d) + 1 && Refs(c', i) == Refs(c, i) + 0;
  }

  lemma EitherOrder(c: Cache, i: nat, j: nat)
    requires i in c && j in c && i != j
    ensures BothDropped(c, i, j) == BothDropped(c, j, i)
  {
  }

  lemma BalancedUnlink(c: Cache, c': Cache, d: nat, i: nat)
    requires Quiet(c) && Balanced(c, c', multiset{d}) && d in c' && i != d
    ensures d in Gotten(Locked(c', d), i) && i in Gotten(Locked(c', d), i)
    ensures Gotten(Locked(c', d), i)[d].ref == c'[d].ref
    ensures Gotten(Locked(c', d), i)[d].busy && !Gotten(Locked(c', d), i)[i].busy
    ensures Gotten(Locked(c', d), i)[i].ref == Refs(c, i) + 1
    ensures Balanced(c, BothDropped(Locked(Gotten(Locked(c', d), i), i), i, d), multiset{})
    ensures Balanced(c, BothDropped(Locked(Gotten(Locked(c', d), i), i), d, i), multiset{})
    ensures i in c ==> i in BothDropped(Locked(Gotten(Locked(c', d), i), i), d, i)
    ensures i in c ==> BothDropped(Locked(Gotten(Locked(c', d), i), i), d, i)[i].valid
  {
    hide BothDropped;
    assert Refs(c', i) == Refs(c, i) + multiset{d}[i];
    EitherOrder(Locked(Gotten(Locked(c', d), i), i), i, d);
    AfterRefs(c, c', d, i, i);
    AfterBalanced(c, c', d, i);
  }

  lemma AfterBalanced(c: Cache, c': Cache, d: nat, i: nat)
    requires Quiet(c) && Balanced(c, c', multiset{d}) && d in c' && i != d
    ensures Balanced(c, After(c', d, i), multiset{})
  {
    hide After;
    forall j: nat
      ensures Refs(After(c', d, i), j) == Refs(c, j) + multiset{}[j]
      ensures j in After(c', d, i) ==> After(c', d, i)[j].ref >= 1 && !After(c', d, i)[j].busy
      ensures j in c && c[j].valid ==> j in After(c', d, i) && After(c', d, i)[j].valid
    {
      AfterRefs(c, c', d, i, j);
    }
  }

  lemma RemovedValid(nodes: Nodes, nodes': Nodes, c: Cache, c': Cache, cwd: nat, d: nat, k: nat, i: nat)
    requires Sound(nodes) && Entry(nodes, d, k, i) && (nodes[i].kind == Dir ==> IsEmpty(nodes[i]))
    requires nodes' == Reaped(Removed(nodes, d, k, i), c, i)
    requires Quiet(c) && Kept(nodes, c) && InUse(nodes, c) && Balanced(c, c', multiset{})
    requires (i in c ==> i in c' && c'[i].valid)
    requires cwd in c && cwd < |nodes| && nodes[cwd].kind == Dir
    ensures Sound(nodes') && Walkable(nodes') && Quiet(c') && Kept(nodes', c') && InUse(nodes', c') && cwd in c'
    ensures |nodes'| == |nodes| && nodes'[cwd].kind == Dir
  {
    hide Sound, Walkable, IsEmpty;
    EntryLinked(nodes, d, k, i);
    var after := Removed(nodes, d, k, i);
    if nodes[i].kind == Dir {
      EmptyHasOneLink(nodes, d, k, i);
      TwoLinksOf(nodes, d, k, i);
      UnlinkDirSound(nodes, d, k, i);
    } else {
      UnlinkFileSound(nodes, d, k, i);
    }
    if nodes' != after {
      NamelessSound(after, i, Node(Free, 0, []));
    }
    SoundWalkable(nodes');
    SameKeys(c, c');
    RemovedKept(nodes, nodes', c, c', d, k, i);
  }

  lemma SameKeys(c: Cache, c': Cache)
    requires Quiet(c) && Balanced(c, c', multiset{})
    ensures c'.Keys == c.Keys && Quiet(c')
  {
    forall j: nat
      ensures j in c' <==> j in c
    {
      assert Refs(c', j) == Refs(c, j) + multiset{}[j];
    }
  }

  lemma RemovedKept(nodes: Nodes, nodes': Nodes, c: Cache, c': Cache, d: nat, k: nat, i: nat)
    requires Entry(nodes, d, k, i) && d != i && nodes[d].nlink > (if nodes[i].kind == Dir then 1 else 0)
    requires nodes' == Reaped(Removed(nodes, d, k, i), c, i) && nodes[i].kind != Free
    requires Kept(nodes, c) && InUse(nodes, c) && Balanced(c, c', multiset{}) && (i in c ==> i in c' && c'[i].valid)
    requires c'.Keys == c.Keys
    ensures Kept(nodes', c') && InUse(nodes', c') && |nodes'| == |nodes|
    ensures forall x :: x in c ==> nodes'[x].kind == nodes[x].kind
  {
  }

  datatype Status = Ok | Fails | Panic

  /** The name space after the working directory changed: the old one is freed if nothing else keeps it. */
  function Left(nodes: Nodes, c: Cache, from: nat, to: nat): Nodes {
    if Refs(c, from) == 1 && from != to && from < |nodes| && nodes[from].nlink == 0 then nodes[from := Node(Free, 0, [])]
    else nodes
  }

  /** One reference to `from` went, one to `to` came. */
  ghost predicate Exchanged(c: Cache, c': Cache, from: nat, to: nat) {
    Quiet(c') && forall i: nat :: Refs(c', i) + multiset{from}[i] == Refs(c, i) + multiset{to}[i]
  }

  lemma CwdFacts(nodes: Nodes, c: Cache, c': Cache, cwd: nat, ip: nat)
    requires Kept(nodes, c) && InUse(nodes, c) && Quiet(c) && Balanced(c, c', multiset{ip}) && cwd in c
    ensures cwd in c' && 0 < cwd < |nodes| && nodes[cwd].kind != Free && !c'[cwd].busy
    ensures c'[cwd].ref == Refs(c, cwd) + (if cwd == ip then 1 else 0)
    ensures nodes[cwd].nlink == 0 ==> c'[cwd].valid
  {
    assert Refs(c', cwd) == Refs(c, cwd) + multiset{ip}[cwd];
  }

  lemma Changed(nodes': Nodes, nodes: Nodes, c: Cache, c': Cache, cwd: nat, ip: nat)
    requires Sound(nodes) && Kept(nodes, c) && InUse(nodes, c) && Quiet(c) && Balanced(c, c', multiset{ip})
    requires cwd in c && cwd in c'
    requires 0 < ip < |nodes| && nodes[ip].kind == Dir && 0 < cwd < |nodes| && nodes[cwd].kind == Dir
    requires nodes' == if Refs(c, cwd) == 1 && cwd != ip && nodes[cwd].nlink == 0 then nodes[cwd := Node(Free, 0, [])] else nodes
    ensures Sound(nodes') && Walkable(nodes') && Exchanged(c, Dropped(c', cwd), cwd, ip)
    ensures Kept(nodes', Dropped(c', cwd)) && InUse(nodes', Dropped(c', cwd))
    ensures Quiet(Dropped(c', cwd)) && ip in Dropped(c', cwd) && |nodes'| == |nodes| && nodes'[ip].kind == Dir
  {
    hide Sound, Walkable;
    var c2 := Dropped(c', cwd);
    if nodes' != nodes {
      RootLinked(nodes);
      NamelessSound(nodes, cwd, Node(Free, 0, []));
    }
    SoundWalkable(nodes');
    forall i: nat
      ensures Refs(c2, i) + multiset{cwd}[i] == Refs(c, i) + multiset{ip}[i]
      ensures i in c2 ==> i in c || i == ip
    {
      assert Refs(c', i) == Refs(c, i) + multiset{ip}[i];
    }
    assert Refs(c', ip) == Refs(c, ip) + 1;
    ChangedKept(nodes', nodes, c, c', cwd, ip);
  }

  lemma UseFacts(nodes: Nodes, c: Cache, i: nat)
    requires Kept(nodes, c) && InUse(nodes, c) && i in c
    ensures 0 < i < |nodes| && nodes[i].kind != Free && (nodes[i].nlink == 0 ==> c[i].valid)
  {
  }

  lemma RootLinked(nodes: Nodes)
    requires Sound(nodes)
    ensures |nodes| > ROOT && nodes[ROOT].nlink > 0
  {
  }

  lemma ChangedKept(nodes': Nodes, nodes: Nodes, c: Cache, c': Cache, cwd: nat, ip: nat)
    requires Kept(nodes, c) && InUse(nodes, c) && Quiet(c) && Balanced(c, c', multiset{ip}) && cwd in c && cwd in c'
    requires 0 < ip < |nodes| && nodes[ip].kind == Dir && 0 < cwd < |nodes| && nodes[cwd].kind == Dir
    requires nodes' == if Refs(c, cwd) == 1 && cwd != ip && nodes[cwd].nlink == 0 then nodes[cwd := Node(Free, 0, [])] else nodes
    ensures Kept(nodes', Dropped(c', cwd)) && InUse(nodes', Dropped(c', cwd))
  {
    assert Refs(c', cwd) == Refs(c, cwd) + multiset{ip}[cwd];
    forall i | i in c'
      ensures i in c || i == ip
    {
      assert Refs(c', i) == Refs(c, i) + multiset{ip}[i];
    }
  }

  ghost predicate PathIs(nodes: Nodes, path: string, cwd: nat, i: nat) {
    Start(path, cwd) < |nodes| && Resolve(nodes, Start(path, cwd), Elements(path), false) == At(i)
  }

  lemma SoundWalkable(nodes: Nodes)
    requires Sound(nodes)
    ensures Walkable(nodes)
  {
    forall d | 0 <= d < |nodes| && nodes[d].kind == Dir
      ensures ShapeAt(nodes, d) && nodes[d].nlink >= 0
    {
      assert d != 0 && TallyAt(nodes, d);
    }
  }

  /** With balanced references, all that holds between calls is what the name space needs. */
  lemma StillValid(nodes: Nodes, c: Cache, c': Cache, cwd: nat, extra: multiset<nat>)
    requires Kept(nodes, c) && InUse(nodes, c) && Quiet(c) && Balanced(c, c', extra) && cwd in c
    requires forall i :: i in extra ==> 0 < i < |nodes| && nodes[i].kind != Free
    ensures Quiet(c') && Kept(nodes, c') && InUse(nodes, c') && cwd in c' && (Sound(nodes) ==> Walkable(nodes))
  {
    hide Sound, Walkable;
    assert Refs(c', cwd) == Refs(c, cwd) + extra[cwd];
    forall i | i in c'
      ensures 0 < i < |nodes| && nodes[i].kind != Free
    {
      assert Refs(c', i) == Refs(c, i) + extra[i];
    }
    if Sound(nodes) {
      SoundWalkable(nodes);
    }
  }

  datatype Opened = Fd(inum: nat) | NotOpened | OpenPanic

  /** The last element of a path. */
  function LastOf(path: string): string { if Elements(path) == [] then "" else Elements(path)[|Elements(path)| - 1] }

  /** The path's last element is a new name for the new inode i, in the directory the rest names. */
  ghost predicate Creates(nodes: Nodes, nodes': Nodes, path: string, cwd: nat, i: nat, kind: Kind) {
    && Start(path, cwd) < |nodes|
    && var d := Resolve(nodes, Start(path, cwd), Elements(path), true);
    && d.At? && CreatedIn(nodes, nodes', d.inum, LastOf(path), i, kind)
    && (Sound(nodes') <==> Links.Linked(nodes[d.inum]))
  }

  /** Lookup meets a freed inode, or there is no room for a new one. */
  predicate Blocked(nodes: Nodes, c: Cache, path: string, cwd: nat, kind: Kind, full: bool) {
    && Start(path, cwd) < |nodes|
    && var d := Resolve(nodes, Start(path, cwd), Elements(path), true);
    || d.Stale?
    || (d.At? && NoRoom(nodes, c, d.inum, kind, full))
    || (d.At? && d.inum < |nodes| && LastOf(path) in Mapped(nodes[d.inum].entries) && IsStale(nodes, Mapped(nodes[d.inum].entries)[LastOf(path)]))
  }

  lemma MadeSound(nodes: Nodes, nodes': Nodes, d: nat, name: string, i: nat, kind: Kind)
    requires Sound(nodes) && CreatedIn(nodes, nodes', d, name, i, kind) && kind != Free
    ensures Sound(nodes') <==> Links.Linked(nodes[d])
    ensures 0 < i < |nodes'| == |nodes| && nodes'[i].kind == kind && nodes'[i].nlink == 1
  {
    hide Sound, Mapped, ShapeAt, LinkSet, Counts;
    var k := FirstFree(nodes[d].entries);
    NewSlot(nodes, d, name);
    var n := if kind == Dir then Node(Dir, 0, [Dirent(i, "."), Dirent(d, "..")]) else Node(kind, 0, []);
    NamelessSound(nodes, i, n);
    var nodes1 := nodes[i := n];
    if kind == Dir {
      if Links.Linked(nodes[d]) {
        LinkDirSound(nodes1, d, k, name, i);
      } else {
        LinkDirBreaks(nodes1, d, k, name, i);
      }
    } else {
      if Links.Linked(nodes[d]) {
        LinkFileSound(nodes1, d, k, name, i);
      } else {
        LinkFileBreaks(nodes1, d, k, name, i);
      }
    }
  }

  lemma NewSlot(nodes: Nodes, d: nat, name: string)
    requires Sound(nodes) && d < |nodes| && nodes[d].kind == Dir && name !in Mapped(nodes[d].entries)
    ensures Vacant(nodes, d, FirstFree(nodes[d].entries), name) && d != 0 && |nodes| > ROOT && nodes[ROOT].kind == Dir
  {
    hide Mapped;
    var es := nodes[d].entries;
    assert ShapeAt(nodes, d);
    LookupIsMap(es, ".");
    LookupIsMap(es, "..");
    Sole(es, 0);
    Sole(es, 1);
  }

  lemma MadeKept(nodes: Nodes, nodes': Nodes, d: nat, name: string, i: nat, kind: Kind, c: Cache)
    requires CreatedIn(nodes, nodes', d, name, i, kind) && kind != Free && Kept(nodes, c) && InUse(nodes, c)
    requires nodes[d].nlink >= 0
    ensures Kept(nodes', c) && InUse(nodes', c)
    ensures |nodes'| == |nodes| && forall x :: 0 <= x < |nodes| && nodes[x].kind == Dir ==> nodes'[x].kind == Dir
  {
    hide Mapped, FirstFree;
  }

  datatype Creation = Created(inum: nat) | Found(inum: nat) | NotCreated | CreatePanic

  predicate IsStale(nodes: Nodes, i: nat) { i < |nodes| && nodes[i].kind == Free }

  lemma LockedFacts(nodes: Nodes, c: Cache, c': Cache, dp: nat)
    requires Quiet(c) && InUse(nodes, c) && Balanced(c, c', multiset{dp}) && 0 < dp < |nodes|
    requires nodes[dp].kind != Free && dp in c'
    ensures (forall i :: i in Locked(c', dp) ==> Locked(c', dp)[i].ref >= 1) && InUse(nodes, Locked(c', dp))
  {
    forall i | i in c'
      ensures i in c || i == dp
    {
      assert Refs(c', i) == Refs(c, i) + multiset{dp}[i];
    }
  }

  lemma NoRoomThen(nodes: Nodes, c: Cache, c': Cache, dp: nat, kind: Kind, full: bool)
    requires dp in c' && |c'| <= |c| + 1
    ensures NoRoom(nodes, Locked(c', dp), dp, kind, full) ==> NoRoom(nodes, c, dp, kind, full) || |c| + 2 >= NINODE
  {
    assert Locked(c', dp).Keys == c'.Keys;
    assert |Locked(c', dp).Keys| == |Locked(c', dp)| && |c'.Keys| == |c'|;
  }

  lemma MadeDp(nodes: Nodes, nodes': Nodes, c: Cache, dp: nat, name: string, i: nat, kind: Kind)
    requires CreatedIn(nodes, nodes', dp, name, i, kind) && dp in c && i !in Locked(c, dp)
    ensures |nodes'| == |nodes| && i != dp && i !in c && nodes'[dp].nlink == nodes[dp].nlink + if kind == Dir then 1 else 0
  {
  }

  lemma BalancedCreate(c: Cache, c': Cache, dp: nat, i: nat)
    requires Quiet(c) && Balanced(c, c', multiset{dp}) && dp in c' && i !in c' && i != dp
    ensures var c2 := Dropped(Unlocked(Locked(Gotten(Locked(c', dp), i), i), dp), dp);
            i in c2 && c2[i].busy && Balanced(c, Unlocked(c2, i), multiset{i})
  {
    var c3 := Unlocked(Dropped(Unlocked(Locked(Gotten(Locked(c', dp), i), i), dp), dp), i);
    assert Refs(c', dp) == Refs(c, dp) + 1 && Refs(c', i) == Refs(c, i) + 0;
    forall j: nat
      ensures Refs(c3, j) == Refs(c, j) + multiset{i}[j]
    {
      assert Refs(c', j) == Refs(c, j) + multiset{dp}[j];
    }
  }

  /** What create makes: inode i of that kind, named in directory d. */
  function Made(nodes: Nodes, d: nat, k: nat, name: string, i: nat, kind: Kind): Nodes
    requires d < |nodes| && i < |nodes| && i != d && k <= |nodes[d].entries|
  {
    if kind == Dir then LinkDir(nodes[i := Node(Dir, 0, [Dirent(i, "."), Dirent(d, "..")])], d, k, name, i)
    else LinkFile(nodes[i := Node(kind, 0, [])], d, k, name, i)
  }

  predicate CreatedIn(nodes: Nodes, nodes': Nodes, d: nat, name: string, i: nat, kind: Kind) {
    && d < |nodes| && nodes[d].kind == Dir && name !in Mapped(nodes[d].entries) && 0 < i < |nodes|
    && nodes[i].kind == Free
    && nodes' == Made(nodes, d, FirstFree(nodes[d].entries), name, i, kind)
  }

  /** No inode, no cache slot, no block for a new directory, or no room in the old one. */
  predicate NoRoom(nodes: Nodes, c: Cache, d: nat, kind: Kind, full: bool) {
    || (forall i :: 0 < i < |nodes| ==> nodes[i].kind != Free) || |c| + 1 >= NINODE
    || (kind == Dir && full) || (d < |nodes| && NoSlot(nodes[d].entries, full))
  }

  /** The first two entries of a new directory. */
  lemma NewEntries(i: nat, d: nat)
    requires i != 0
    ensures FirstFree([]) == 0 && Put([], 0, Dirent(i, ".")) == [Dirent(i, ".")]
    ensures FirstFree([Dirent(i, ".")]) == 1
    ensures Put([Dirent(i, ".")], 1, Dirent(d, "..")) == [Dirent(i, "."), Dirent(d, "..")]
    ensures "." !in Mapped([]) && ".." !in Mapped([Dirent(i, ".")])
  {
    LookupIsMap([], ".");
    LookupIsMap([Dirent(i, ".")], "..");
  }

  lemma AllInRange(nodes: Nodes, d: nat)
    requires Walkable(nodes) && d < |nodes| && nodes[d].kind == Dir
    ensures forall k :: 0 <= k < |nodes[d].entries| ==> nodes[d].entries[k].inum < |nodes|
  {
    assert ShapeAt(nodes, d);
  }

  lemma NonNegative(nodes: Nodes, d: nat)
    requires Walkable(nodes) && d < |nodes| && nodes[d].kind == Dir
    ensures nodes[d].nlink >= 0
  {
  }

  lemma GotAndDropped(c: Cache, i: nat)
    requires i in c ==> c[i].ref >= 1
    ensures Dropped(Gotten(c, i), i) == c
  {
  }

  lemma FreeIs(es: seq<Dirent>, k: nat)
    requires k <= |es| && (k < |es| ==> !Live(es[k])) && forall j :: 0 <= j < k ==> Live(es[j])
    ensures FirstFree(es) == k
  {
  }

  lemma StartFacts(nodes: Nodes, c: Cache, cwd: nat)
    requires Walkable(nodes) && InUse(nodes, c) && cwd in c
    ensures |nodes| > ROOT && 0 < cwd < |nodes| && nodes[ROOT].kind != Free && nodes[cwd].kind != Free
  {
  }

  lemma WalkFacts(nodes: Nodes, c: Cache, c': Cache, ip: nat)
    requires Kept(nodes, c) && InUse(nodes, c) && Quiet(c) && Balanced(c, c', multiset{ip}) && 0 < ip < |nodes|
    requires (nodes[ip].kind == Free ==> ip in c' && !c'[ip].valid)
    ensures ip in c' && !c'[ip].busy && !(c'[ip].ref == 1 && c'[ip].valid && nodes[ip].nlink == 0)
    ensures nodes[ip].kind != Free && nodes[ip].nlink == 0 ==> c'[ip].ref > 1
    ensures |c'| <= |c| + 1
  {
    assert Refs(c', ip) == Refs(c, ip) + 1;
    forall i | i in c'
      ensures i in c.Keys + {ip}
    {
      assert Refs(c', i) == Refs(c, i) + multiset{ip}[i];
    }
    Fewer(c'.Keys, c.Keys, ip);
  }

  lemma Fewer(a: set<nat>, b: set<nat>, x: nat)
    requires a <= b + {x}
    ensures |a| <= |b| + 1
  {
    var rest := b + {x} - a;
    assert b + {x} == a + rest;
    assert |a + rest| == |a| + |rest|;
  }

  lemma ResolveStep(nodes: Nodes, i: nat, elems: seq<string>, elem: string, rest: seq<string>, parent: bool)
    requires i < |nodes| && elems == [elem] + rest
    ensures nodes[i].kind == Free ==> Resolve(nodes, i, elems, parent) == Stale
    ensures nodes[i].kind != Free && nodes[i].kind != Dir ==> Resolve(nodes, i, elems, parent) == Missing
    ensures nodes[i].kind == Dir && parent && rest == [] ==> Resolve(nodes, i, elems, parent) == At(i)
    ensures nodes[i].kind == Dir && !(parent && rest == []) ==> ResolveNext(nodes, i, elem, rest, parent, Resolve(nodes, i, elems, parent))
  {
    assert elems[1..] == rest;
  }

  predicate ResolveNext(nodes: Nodes, i: nat, elem: string, rest: seq<string>, parent: bool, r: Resolved)
    requires i < |nodes|
  {
    var es := nodes[i].entries;
    var k := First(es, elem);
    && (k == |es| ==> r == Missing)
    && (k < |es| && es[k].inum < |nodes| ==> r == Resolve(nodes, es[k].inum, rest, parent))
  }

  lemma ResolveEnd(nodes: Nodes, i: nat, parent: bool)
    requires i < |nodes|
    ensures Resolve(nodes, i, [], parent) == if parent then Missing else At(i)
  {
  }

  lemma EntryRange(nodes: Nodes, d: nat, k: nat)
    requires Walkable(nodes) && d < |nodes| && nodes[d].kind == Dir && k < |nodes[d].entries|
    requires Live(nodes[d].entries[k])
    ensures 0 < nodes[d].entries[k].inum < |nodes|
  {
    assert ShapeAt(nodes, d);
  }

  /** An inode just taken that is free has not been read in. */
  lemma FreshFree(nodes: Nodes, c: Cache, c': Cache, ip: nat, next: nat)
    requires InUse(nodes, c) && Balanced(c, c', multiset{ip}) && ip < |nodes| && next < |nodes| && ip in c'
    ensures next in Dropped(Unlocked(Gotten(Locked(c', ip), next), ip), ip)
    ensures nodes[next].kind == Free && nodes[ip].kind != Free ==> !Dropped(Unlocked(Gotten(Locked(c', ip), next), ip), ip)[next].valid
  {
    assert Refs(c', next) == Refs(c, next) + multiset{ip}[next];
  }

  /** Where a walk starts. */
  function Start(path: string, cwd: nat): nat { if path != "" && path[0] == '/' then ROOT else cwd }
}
