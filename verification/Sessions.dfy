/**
 Runs of system calls on the name space by one process with its open files (sysfile.c, file.c),
 from a disk with nothing but the root directory.  The references in the inode cache are exactly
 those of the working directory and the open files, the references of an open file are exactly
 its descriptors, and the link counts are right as long as no name is put into a directory that
 has been removed.
 */
module Sessions {
  import opened Common
  import opened Directory
  import opened Links
  import opened Syscalls
  import opened InodeMap

  /** struct file */
  datatype OpenFile = OpenFile(ref: nat, inum: nat)

  predicate On(f: OpenFile, i: nat) { f.ref > 0 && f.inum == i }

  /** The number of open files on inode i. */
  function OpenOn(files: seq<OpenFile>, i: nat): nat {
    if files == [] then 0 else
    OpenOn(files[..|files| - 1], i) + if On(files[|files| - 1], i) then 1 else 0
  }

  lemma {:induction false} OpenOnSet(files: seq<OpenFile>, k: nat, f: OpenFile, i: nat)
    requires k < |files|
    ensures OpenOn(files[k := f], i) + (if On(files[k], i) then 1 else 0) == OpenOn(files, i) + (if On(f, i) then 1 else 0)
    decreases |files|
  {
    var n := |files| - 1;
    if k < n {
      OpenOnSet(files[..n], k, f, i);
      assert files[k := f][..n] == files[..n][k := f];
    } else {
      assert files[k := f][..n] == files[..n];
    }
  }

  lemma {:induction false} OpenOnNone(files: seq<OpenFile>, i: nat)
    requires forall k :: 0 <= k < |files| ==> files[k].ref == 0
    ensures OpenOn(files, i) == 0
    decreases |files|
  {
    if files != [] { OpenOnNone(files[..|files| - 1], i); }
  }

  /** The number of descriptors for file f. */
  function Fds(ofile: seq<Option<nat>>, f: nat): nat {
    if ofile == [] then 0 else
    Fds(ofile[..|ofile| - 1], f) + if ofile[|ofile| - 1] == Some(f) then 1 else 0
  }

  lemma {:induction false} FdsSet(ofile: seq<Option<nat>>, fd: nat, x: Option<nat>, f: nat)
    requires fd < |ofile|
    ensures Fds(ofile[fd := x], f) + (if ofile[fd] == Some(f) then 1 else 0) == Fds(ofile, f) + (if x == Some(f) then 1 else 0)
    decreases |ofile|
  {
    var n := |ofile| - 1;
    if fd < n {
      FdsSet(ofile[..n], fd, x, f);
      assert ofile[fd := x][..n] == ofile[..n][fd := x];
    } else {
      assert ofile[fd := x][..n] == ofile[..n];
    }
  }

  lemma {:induction false} FdsNone(ofile: seq<Option<nat>>, f: nat)
    requires forall fd :: 0 <= fd < |ofile| ==> ofile[fd] == None
    ensures Fds(ofile, f) == 0
    decreases |ofile|
  {
    if ofile != [] { FdsNone(ofile[..|ofile| - 1], f); }
  }

  /** Every open file has as many references as descriptors. */
  predicate FilesOk(files: seq<OpenFile>, ofile: seq<Option<nat>>) {
    && |files| == NFILE && |ofile| == NOFILE
    && (forall fd :: 0 <= fd < |ofile| && ofile[fd].Some? ==> ofile[fd].value < |files|)
    && (forall f :: 0 <= f < |files| ==> files[f].ref == Fds(ofile, f))
  }

  /** The cache holds the references of the working directory and the open files, and no others. */
  ghost predicate RefsExact(c: Cache, cwd: nat, files: seq<OpenFile>) {
    forall i: nat :: Refs(c, i) == OpenOn(files, i) + if i == cwd then 1 else 0
  }

  lemma OpenedExact(c: Cache, c': Cache, cwd: nat, files: seq<OpenFile>, f: nat, i: nat)
    requires RefsExact(c, cwd, files) && Balanced(c, c', multiset{i}) && f < |files| && files[f].ref == 0
    ensures RefsExact(c', cwd, files[f := OpenFile(1, i)])
  {
    forall j: nat
      ensures Refs(c', j) == OpenOn(files[f := OpenFile(1, i)], j) + if j == cwd then 1 else 0
    {
      OpenOnSet(files, f, OpenFile(1, i), j);
      assert Refs(c', j) == Refs(c, j) + multiset{i}[j];
    }
  }

  lemma SameExact(c: Cache, c': Cache, cwd: nat, files: seq<OpenFile>)
    requires RefsExact(c, cwd, files) && Balanced(c, c', multiset{})
    ensures RefsExact(c', cwd, files)
  {
    forall j: nat
      ensures Refs(c', j) == OpenOn(files, j) + if j == cwd then 1 else 0
    {
      assert Refs(c', j) == Refs(c, j) + multiset{}[j];
    }
  }

  lemma ClosedExact(c: Cache, cwd: nat, files: seq<OpenFile>, f: nat)
    requires RefsExact(c, cwd, files) && f < |files| && files[f].ref == 1
    ensures var i := files[f].inum;
            && i in c && c[i].ref > (if i == cwd then 1 else 0)
            && RefsExact(Dropped(c, i), cwd, files[f := files[f].(ref := 0)])
  {
    var i := files[f].inum;
    OpenOnSet(files, f, files[f].(ref := 0), i);
    assert Refs(c, i) == OpenOn(files, i) + if i == cwd then 1 else 0;
    forall j: nat
      ensures Refs(Dropped(c, i), j) == OpenOn(files[f := files[f].(ref := 0)], j) + if j == cwd then 1 else 0
    {
      OpenOnSet(files, f, files[f].(ref := 0), j);
      assert Refs(c, j) == OpenOn(files, j) + if j == cwd then 1 else 0;
    }
  }

  lemma SharedExact(c: Cache, cwd: nat, files: seq<OpenFile>, f: nat, n: nat)
    requires RefsExact(c, cwd, files) && f < |files| && files[f].ref > 0 && n > 0
    ensures RefsExact(c, cwd, files[f := files[f].(ref := n)]) && files[f].inum in c
  {
    OpenOnSet(files, f, OpenFile(0, 0), files[f].inum);
    assert Refs(c, files[f].inum) == OpenOn(files, files[f].inum) + if files[f].inum == cwd then 1 else 0;
    forall j: nat
      ensures OpenOn(files[f := files[f].(ref := n)], j) == OpenOn(files, j)
    {
      OpenOnSet(files, f, files[f].(ref := n), j);
    }
  }

  lemma MovedExact(c: Cache, c': Cache, from: nat, to: nat, files: seq<OpenFile>)
    requires RefsExact(c, from, files) && Exchanged(c, c', from, to)
    ensures RefsExact(c', to, files)
  {
    forall j: nat
      ensures Refs(c', j) == OpenOn(files, j) + if j == to then 1 else 0
    {
      assert Refs(c, j) == OpenOn(files, j) + if j == from then 1 else 0;
      assert Refs(c', j) + multiset{from}[j] == Refs(c, j) + multiset{to}[j];
    }
  }

  lemma NewFd(files: seq<OpenFile>, ofile: seq<Option<nat>>, f: nat, fd: nat, file: OpenFile)
    requires FilesOk(files, ofile) && f < NFILE && fd < NOFILE && ofile[fd].None? && file.ref == files[f].ref + 1
    ensures FilesOk(files[f := file], ofile[fd := Some(f)])
  {
    var files' := files[f := file];
    forall g | 0 <= g < |files'|
      ensures files'[g].ref == Fds(ofile[fd := Some(f)], g)
    {
      FdsSet(ofile, fd, Some(f), g);
    }
  }

  lemma OldFd(files: seq<OpenFile>, ofile: seq<Option<nat>>, fd: nat)
    requires FilesOk(files, ofile) && fd < NOFILE && ofile[fd].Some?
    ensures var f := ofile[fd].value;
            && f < NFILE && files[f].ref > 0
            && FilesOk(files[f := files[f].(ref := files[f].ref - 1)], ofile[fd := None])
  {
    var f := ofile[fd].value;
    FdsSet(ofile, fd, None, f);
    var files' := files[f := files[f].(ref := files[f].ref - 1)];
    forall g | 0 <= g < |files'|
      ensures files'[g].ref == Fds(ofile[fd := None], g)
    {
      FdsSet(ofile, fd, None, g);
    }
  }

  // ---------------------------------------------------------------- new names

  datatype Call =
    | SysOpen(path: string, create: bool, writing: bool)
    | SysClose(fd: nat)
    | SysDup(fd: nat)
    | SysMake(path: string, kind: Kind)          // mkdir and mknod
    | SysChdir(path: string)
    | SysUnlink(path: string)
    | SysLink(path: string, newPath: string)
    | DiskIs(full: bool)                         // not a call: files filled the disk, or made room

  predicate CallOk(call: Call) { call.SysMake? ==> call.kind == Dir || call.kind == Device }

  /** The call put a new name into directory d. */
  ghost predicate NewName(nodes: Nodes, nodes': Nodes, cwd: nat, call: Call, d: nat) {
    match call
    case SysOpen(path, create, _) =>
      create && Target(nodes, path, cwd, true) == At(d) && exists i: nat :: Creates(nodes, nodes', path, cwd, i, Kind.File)
    case SysMake(path, kind) =>
      Target(nodes, path, cwd, true) == At(d) && exists i: nat :: Creates(nodes, nodes', path, cwd, i, kind)
    case SysLink(path, newPath) =>
      Target(nodes, newPath, cwd, true) == At(d) && LinksTo(nodes, nodes', path, newPath, cwd)
    case _ => false
  }

  /** The call put a new name into a directory that has been removed. */
  ghost predicate Strays(nodes: Nodes, nodes': Nodes, cwd: nat, call: Call) {
    exists d: nat :: NewName(nodes, nodes', cwd, call, d) && d < |nodes| && !Links.Linked(nodes[d])
  }

  lemma CreatesTarget(nodes: Nodes, nodes': Nodes, path: string, cwd: nat, i: nat, kind: Kind)
    requires Creates(nodes, nodes', path, cwd, i, kind) && kind != Free
    ensures Target(nodes, path, cwd, true).At? && nodes' != nodes
    ensures var d := Target(nodes, path, cwd, true).inum; d < |nodes| && (Sound(nodes') <==> Links.Linked(nodes[d]))
  {
    hide Sound, Resolve, Elements, Mapped, FirstFree, Put;
  }

  lemma LinksTarget(nodes: Nodes, nodes': Nodes, path: string, newPath: string, cwd: nat)
    requires LinksTo(nodes, nodes', path, newPath, cwd)
    ensures Target(nodes, newPath, cwd, true).At? && nodes' != nodes
    ensures var d := Target(nodes, newPath, cwd, true).inum; d < |nodes| && (Sound(nodes') <==> Links.Linked(nodes[d]))
  {
    hide Sound, Resolve, Elements, Mapped, FirstFree, Put;
    var f := Resolve(nodes, Start(path, cwd), Elements(path), false).inum;
    assert nodes'[f].nlink == nodes[f].nlink + 1;
  }

  /** Link counts stay right exactly unless a name went into a removed directory. */
  lemma SoundUnlessStray(nodes: Nodes, nodes': Nodes, cwd: nat, call: Call)
    requires Sound(nodes) && CallOk(call)
    requires nodes' == nodes || exists d: nat :: NewName(nodes, nodes', cwd, call, d)
    ensures Sound(nodes') <==> !Strays(nodes, nodes', cwd, call)
  {
    hide Sound, Creates, LinksTo, Target;
    forall d: nat | NewName(nodes, nodes', cwd, call, d)
      ensures nodes' != nodes && d < |nodes| && (Sound(nodes') <==> Links.Linked(nodes[d]))
    {
      match call
      case SysOpen(path, _, _) =>
        var i: nat :| Creates(nodes, nodes', path, cwd, i, Kind.File);
        CreatesTarget(nodes, nodes', path, cwd, i, Kind.File);
      case SysMake(path, kind) =>
        var i: nat :| Creates(nodes, nodes', path, cwd, i, kind);
        CreatesTarget(nodes, nodes', path, cwd, i, kind);
      case SysLink(path, newPath) =>
        LinksTarget(nodes, nodes', path, newPath, cwd);
      case _ =>
    }
  }

  // ---------------------------------------------------------------- what a call does

  datatype Outcome = Got(fd: nat) | Did | Refused | Panics

  /** All of the state between two calls. */
  datatype Moment = Moment(nodes: Nodes, cache: Cache, cwd: nat, full: bool, files: seq<OpenFile>, ofile: seq<Option<nat>>)

  /** Every reference is accounted for. */
  ghost predicate Exact(m: Moment) {
    FilesOk(m.files, m.ofile) && RefsExact(m.cache, m.cwd, m.files)
  }

  /** The open files and the descriptors are the same. */
  predicate SameTables(a: Moment, b: Moment) {
    b.files == a.files && b.ofile == a.ofile
  }

  predicate Lowest(ofile: seq<Option<nat>>, fd: nat) {
    fd < |ofile| && ofile[fd].None? && forall g :: 0 <= g < fd ==> ofile[g].Some?
  }

  predicate AllTaken(ofile: seq<Option<nat>>) { forall fd :: 0 <= fd < |ofile| ==> ofile[fd].Some? }

  /** The lowest descriptor is for an open file that was none, now on inode i. */
  ghost predicate OpenedOn(a: Moment, b: Moment, fd: nat, i: nat) {
    && Lowest(a.ofile, fd)
    && exists f: nat :: f < |a.files| && a.files[f].ref == 0 && b.files == a.files[f := OpenFile(1, i)] && b.ofile == a.ofile[fd := Some(f)]
  }

  /** i is the inode the path names, or the one just made there. */
  ghost predicate OpenTo(a: Moment, b: Moment, path: string, create: bool, writing: bool, i: nat) {
    && i < |b.nodes| && b.nodes[i].kind != Free
    && if create then EntryOf(b.nodes, path, a.cwd, i) || Creates(a.nodes, b.nodes, path, a.cwd, i, Kind.File)
       else PathIs(b.nodes, path, a.cwd, i) && (b.nodes[i].kind == Dir ==> !writing)
  }

  ghost predicate Opens(a: Moment, b: Moment, path: string, create: bool, writing: bool, r: Outcome) {
    && b.cwd == a.cwd
    && (b.nodes == a.nodes || (create && exists i: nat :: Creates(a.nodes, b.nodes, path, a.cwd, i, Kind.File)))
    && match r
       case Got(fd) => exists i: nat :: OpenedOn(a, b, fd, i) && OpenTo(a, b, path, create, writing, i)
       case Refused =>
         && SameTables(a, b)
         && (|| (forall f :: 0 <= f < |a.files| ==> a.files[f].ref > 0) || AllTaken(a.ofile)
             || if create then CannotCreate(b.nodes, path, a.cwd, Kind.File) else CannotOpen(b.nodes, path, a.cwd, writing))
       case _ => false
  }

  /** A descriptor less; the last one of an open file gives up its inode, which is freed if that was all that kept it. */
  predicate Closes(a: Moment, b: Moment, fd: nat, r: Outcome) {
    && b.cwd == a.cwd
    && if fd >= |a.ofile| || a.ofile[fd].None? then r == Refused && b == a else
       && r == Did && a.ofile[fd].value < |a.files|
       && var f := a.ofile[fd].value;
       var i := a.files[f].inum;
       && a.files[f].ref > 0 && b.files == a.files[f := a.files[f].(ref := a.files[f].ref - 1)] && b.ofile == a.ofile[fd := None]
       && i in a.cache && i < |a.nodes|
       && (b.nodes == if a.files[f].ref == 1 && a.cache[i].ref == 1 && a.nodes[i].nlink == 0 then a.nodes[i := Node(Free, 0, [])] else a.nodes)
  }

  predicate Dups(a: Moment, b: Moment, fd: nat, r: Outcome) {
    && b.cwd == a.cwd && b.nodes == a.nodes
    && if fd >= |a.ofile| || a.ofile[fd].None? || AllTaken(a.ofile) then r == Refused && b == a else
       && r.Got? && Lowest(a.ofile, r.fd) && a.ofile[fd].value < |a.files|
       && var f := a.ofile[fd].value;
       b.files == a.files[f := a.files[f].(ref := a.files[f].ref + 1)] && b.ofile == a.ofile[r.fd := Some(f)]
  }

  /** What the call does to names, inodes, working directory, open files and descriptors, and when it is refused. */
  ghost predicate Effect(a: Moment, b: Moment, call: Call, r: Outcome) {
    match call
    case SysOpen(path, create, writing) => Opens(a, b, path, create, writing, r)
    case SysClose(fd) => Closes(a, b, fd, r)
    case SysDup(fd) => Dups(a, b, fd, r)
    case SysMake(path, kind) =>
      && SameTables(a, b) && b.cwd == a.cwd
      && (r == Did || (r == Refused && b.nodes == a.nodes && CannotCreate(a.nodes, path, a.cwd, kind)))
      && (r == Did ==> exists i: nat :: Creates(a.nodes, b.nodes, path, a.cwd, i, kind))
    case SysChdir(path) =>
      && SameTables(a, b)
      && (r == Did || (r == Refused && b.cwd == a.cwd && b.nodes == a.nodes && !IsDirAt(a.nodes, path, a.cwd)))
      && (r == Did ==> PathIs(a.nodes, path, a.cwd, b.cwd) && b.nodes == Left(a.nodes, a.cache, a.cwd, b.cwd))
    case SysUnlink(path) =>
      && SameTables(a, b) && b.cwd == a.cwd
      && (r == Did || (r == Refused && b.nodes == a.nodes && !CanUnlink(a.nodes, path, a.cwd)))
      && (r == Did ==> Unlinks(a.nodes, b.nodes, a.cache, path, a.cwd))
    case SysLink(path, newPath) =>
      && SameTables(a, b) && b.cwd == a.cwd
      && (r == Did || (r == Refused && b.nodes == a.nodes && (NoFileAt(a.nodes, path, a.cwd) || CannotName(a.nodes, newPath, a.cwd))))
      && (r == Did ==> LinksTo(a.nodes, b.nodes, path, newPath, a.cwd))
    case DiskIs(full) => r == Did && b == a.(full := full)
  }

  ghost predicate IsDirAt(nodes: Nodes, path: string, cwd: nat) {
    exists i: nat :: PathIs(nodes, path, cwd, i) && i < |nodes| && nodes[i].kind == Dir
  }

  /** Why a call may panic: the inode cache is nearly full, a freed inode is met, or there is no room for a name. */
  predicate MayPanic(a: Moment, call: Call) {
    match call
    case SysOpen(path, create, _) =>
      if create then |a.cache| + 2 >= NINODE || Blocked(a.nodes, a.cache, path, a.cwd, Kind.File, a.full)
      else |a.cache| + 1 >= NINODE || Lost(a.nodes, path, a.cwd)
    case SysMake(path, kind) => |a.cache| + 2 >= NINODE || Blocked(a.nodes, a.cache, path, a.cwd, kind, a.full)
    case SysChdir(path) => |a.cache| + 1 >= NINODE || Lost(a.nodes, path, a.cwd)
    case SysUnlink(path) => |a.cache| + 2 >= NINODE || Target(a.nodes, path, a.cwd, true) == Stale
    case SysLink(path, newPath) =>
      |a.cache| + 3 >= NINODE || Lost(a.nodes, path, a.cwd) || NameBlocked(a.nodes, newPath, a.cwd, a.full)
    case _ => false
  }

  /** The only changes to names are new names, removals, and inodes freed. */
  lemma NamesOnly(a: Moment, b: Moment, call: Call, r: Outcome)
    requires Effect(a, b, call, r) && CallOk(call) && (call.SysOpen? || call.SysMake? || call.SysLink? || call.SysDup? || call.DiskIs?)
    ensures b.nodes == a.nodes || exists d: nat :: NewName(a.nodes, b.nodes, a.cwd, call, d)
  {
    hide Sound, Creates, LinksTo, Target, CannotCreate, CannotOpen, OpenedOn, OpenTo;
    if b.nodes != a.nodes {
      match call
      case SysOpen(path, _, _) =>
        var i: nat :| Creates(a.nodes, b.nodes, path, a.cwd, i, Kind.File);
        CreatesTarget(a.nodes, b.nodes, path, a.cwd, i, Kind.File);
        assert NewName(a.nodes, b.nodes, a.cwd, call, Target(a.nodes, path, a.cwd, true).inum);
      case SysMake(path, kind) =>
        var i: nat :| Creates(a.nodes, b.nodes, path, a.cwd, i, kind);
        CreatesTarget(a.nodes, b.nodes, path, a.cwd, i, kind);
        assert NewName(a.nodes, b.nodes, a.cwd, call, Target(a.nodes, path, a.cwd, true).inum);
      case SysLink(path, newPath) =>
        LinksTarget(a.nodes, b.nodes, path, newPath, a.cwd);
        assert NewName(a.nodes, b.nodes, a.cwd, call, Target(a.nodes, newPath, a.cwd, true).inum);
      case _ =>
    }
  }

  // ---------------------------------------------------------------- the process

  class Session {
    const t: FileTree
    var files: seq<OpenFile>
    var ofile: seq<Option<nat>>

    ghost function Now(): Moment
      reads this, t
    {
      Moment(t.nodes, t.cache, t.cwd, t.diskFull, files, ofile)
    }

    ghost predicate Valid()
      reads this, t
    {
      t.Valid() && Exact(Now())
    }

    constructor (inodes: nat)
      requires inodes > ROOT
      ensures Valid() && fresh(t) && t.cwd == ROOT
    {
      t := new FileTree(inodes);
      files, ofile := seq(NFILE, _ => OpenFile(0, 0)), seq(NOFILE, _ => None);
      new;
      forall i: nat
        ensures OpenOn(files, i) == 0 && Fds(ofile, i) == 0
      {
        OpenOnNone(files, i);
        FdsNone(ofile, i);
      }
    }

    /** filealloc: the first unused slot, or NFILE. */
    method FileAlloc() returns (f: nat)
      requires |files| == NFILE
      ensures f <= NFILE && (f < NFILE ==> files[f].ref == 0) && forall g :: 0 <= g < f ==> files[g].ref > 0
    {
      f := 0;
      while f < NFILE && files[f].ref > 0
        invariant f <= NFILE && forall g :: 0 <= g < f ==> files[g].ref > 0
      {
        f := f + 1;
      }
    }

    /** fdalloc: the first unused descriptor, or NOFILE. */
    method FdAlloc() returns (fd: nat)
      requires |ofile| == NOFILE
      ensures fd <= NOFILE && (fd < NOFILE ==> ofile[fd].None?) && forall g :: 0 <= g < fd ==> ofile[g].Some?
    {
      fd := 0;
      while fd < NOFILE && ofile[fd].Some?
        invariant fd <= NOFILE && forall g :: 0 <= g < fd ==> ofile[g].Some?
      {
        fd := fd + 1;
      }
    }

    /** sys_open: the lowest descriptor, for a new open file on the inode. */
    method Open(path: string, create: bool, writing: bool) returns (r: Outcome)
      requires Valid()
      modifies this`files, this`ofile, t`nodes, t`cache
      ensures !r.Panics? ==> Exact(Now()) && (t.Valid() <==> Sound(t.nodes)) && Opens(old(Now()), Now(), path, create, writing, r)
      ensures r.Panics? ==> MayPanic(old(Now()), SysOpen(path, create, writing))
    {
      hide Sound, Walkable, Balanced, Quiet, Kept, InUse, Creates, Target, CannotCreate, CannotOpen, FilesOk, RefsExact, EntryOf,
           PathIs, Blocked, Lost;
      Sizes(files, ofile);
      var f := FileAlloc();
      var fd := FdAlloc();
      ghost var a := Now();
      var o := t.Open(path, create, writing, f < NFILE && fd < NOFILE);
      if o.OpenPanic? {
        return Panics;
      }
      if o.NotOpened? {
        SameExact(a.cache, t.cache, t.cwd, files);
        return Refused;
      }
      OpenedExact(a.cache, t.cache, t.cwd, files, f, o.inum);
      NewFd(files, ofile, f, fd, OpenFile(1, o.inum));
      files := files[f := OpenFile(1, o.inum)];
      ofile := ofile[fd := Some(f)];
      assert OpenedOn(a, Now(), fd, o.inum) && OpenTo(a, Now(), path, create, writing, o.inum);
      return Got(fd);
    }

    /** sys_close: the last descriptor of an open file gives up its inode. */
    method Close(fd: nat) returns (r: Outcome)
      requires Valid()
      modifies this`files, this`ofile, t`nodes, t`cache
      ensures Valid() && Closes(old(Now()), Now(), fd, r)
    {
      hide Sound, Walkable, FilesOk, RefsExact;
      Sizes(files, ofile);
      if fd >= NOFILE || ofile[fd].None? {
        return Refused;
      }
      var f := ofile[fd].value;
      OldFd(files, ofile, fd);
      ofile := ofile[fd := None];
      if files[f].ref > 1 {
        SharedExact(t.cache, t.cwd, files, f, files[f].ref - 1);
        files := files[f := files[f].(ref := files[f].ref - 1)];
      } else {
        ClosedExact(t.cache, t.cwd, files, f);
        t.Close(files[f].inum);
        files := files[f := files[f].(ref := 0)];
      }
      return Did;
    }

    /** sys_dup */
    method Dup(fd: nat) returns (r: Outcome)
      requires Valid()
      modifies this`files, this`ofile
      ensures Valid() && Dups(old(Now()), Now(), fd, r)
    {
      hide Sound, Walkable, FilesOk, RefsExact;
      Sizes(files, ofile);
      if fd >= NOFILE || ofile[fd].None? {
        return Refused;
      }
      var to := FdAlloc();
      if to == NOFILE {
        return Refused;
      }
      var f := ofile[fd].value;
      OldFd(files, ofile, fd);
      NewFd(files, ofile, f, to, files[f].(ref := files[f].ref + 1));
      SharedExact(t.cache, t.cwd, files, f, files[f].ref + 1);
      files := files[f := files[f].(ref := files[f].ref + 1)];
      ofile := ofile[to := Some(f)];
      return Got(to);
    }

    /** One system call; `stray` says that a name went into a removed directory. */
    method Do(call: Call) returns (r: Outcome, stray: bool)
      requires Valid() && CallOk(call)
      modifies this, t
      ensures r.Panics? ==> MayPanic(old(Now()), call)
      ensures !r.Panics? ==> Exact(Now()) && Effect(old(Now()), Now(), call, r)
      ensures !r.Panics? ==> (Valid() <==> !stray) && (stray <==> Strays(old(t.nodes), t.nodes, old(t.cwd), call))
    {
      hide Sound, Walkable, FilesOk, RefsExact, Strays, NameDir, ReadyAt, MayPanic, Opens, Closes, Dups;
      var nodes0, dir := t.nodes, NameDir(t.nodes, t.cwd, call);
      ghost var a := Now();
      r := Dispatch(call);
      if r.Panics? {
        return r, false;
      }
      if call.SysClose? || call.SysChdir? || call.SysUnlink? {
        StillNoName(nodes0, t.nodes, a.cwd, call);
        return r, false;
      }
      NamesOnly(a, Now(), call, r);
      SoundUnlessStray(nodes0, t.nodes, a.cwd, call);
      StrayDir(nodes0, t.nodes, a.cwd, call);
      stray := t.nodes != nodes0 && dir.At? && dir.inum < |nodes0| && !Links.Linked(nodes0[dir.inum]);
    }

    method Dispatch(call: Call) returns (r: Outcome)
      requires Valid() && CallOk(call)
      modifies this, t
      ensures r.Panics? ==> MayPanic(old(Now()), call)
      ensures !r.Panics? ==> Exact(Now()) && Effect(old(Now()), Now(), call, r) && (t.Valid() <==> Sound(t.nodes))
      ensures !r.Panics? && (call.SysClose? || call.SysChdir? || call.SysUnlink?) ==> Valid()
    {
      hide Sound, Walkable, FilesOk, RefsExact, Opens, Creates, LinksTo, Target, CannotCreate, Blocked, NameBlocked,
           CannotName, NoFileAt, Unlinks, CanUnlink, Lost, PathIs, Left;
      match call
      case SysOpen(path, create, writing) => r := Open(path, create, writing);
      case SysClose(fd) => r := Close(fd);
      case SysDup(fd) => r := Dup(fd);
      case SysMake(path, kind) => r := DoMake(path, kind);
      case SysChdir(path) => r := DoChdir(path);
      case SysUnlink(path) => r := DoUnlink(path);
      case SysLink(path, newPath) => r := DoLink(path, newPath);
      case DiskIs(full) =>
        t.diskFull := full;
        r := Did;
    }

    method DoMake(path: string, kind: Kind) returns (r: Outcome)
      requires Valid() && (kind == Dir || kind == Device)
      modifies t`nodes, t`cache
      ensures r.Panics? ==> MayPanic(old(Now()), SysMake(path, kind))
      ensures !r.Panics? ==> Exact(Now()) && Effect(old(Now()), Now(), SysMake(path, kind), r) && (t.Valid() <==> Sound(t.nodes))
    {
      hide Sound, Walkable, Balanced, Quiet, Kept, InUse, FilesOk, RefsExact, Creates, Blocked, CannotCreate;
      ghost var c0 := t.cache;
      var o := t.Make(path, kind);
      if o.Panic? {
        return Panics;
      }
      SameExact(c0, t.cache, t.cwd, files);
      return if o.Ok? then Did else Refused;
    }

    method DoLink(path: string, newPath: string) returns (r: Outcome)
      requires Valid()
      modifies t`nodes, t`cache
      ensures r.Panics? ==> MayPanic(old(Now()), SysLink(path, newPath))
      ensures !r.Panics? ==> Exact(Now()) && Effect(old(Now()), Now(), SysLink(path, newPath), r) && (t.Valid() <==> Sound(t.nodes))
    {
      hide Sound, Walkable, Balanced, Quiet, Kept, InUse, FilesOk, RefsExact, LinksTo, NameBlocked, CannotName, NoFileAt, Lost;
      ghost var c0 := t.cache;
      var o := t.Link(path, newPath);
      if o.Panic? {
        return Panics;
      }
      SameExact(c0, t.cache, t.cwd, files);
      return if o.Ok? then Did else Refused;
    }

    method DoChdir(path: string) returns (r: Outcome)
      requires Valid()
      modifies t
      ensures r.Panics? ==> MayPanic(old(Now()), SysChdir(path))
      ensures !r.Panics? ==> Valid() && Effect(old(Now()), Now(), SysChdir(path), r)
    {
      hide Sound, Walkable, Balanced, Quiet, Kept, InUse, FilesOk, RefsExact, Exchanged, Lost, PathIs, Left;
      ghost var c0, cwd0 := t.cache, t.cwd;
      var o := t.Chdir(path);
      if o.Panic? {
        return Panics;
      }
      if o.Ok? {
        MovedExact(c0, t.cache, cwd0, t.cwd, files);
        return Did;
      }
      SameExact(c0, t.cache, t.cwd, files);
      return Refused;
    }

    method DoUnlink(path: string) returns (r: Outcome)
      requires Valid()
      modifies t`nodes, t`cache
      ensures r.Panics? ==> MayPanic(old(Now()), SysUnlink(path))
      ensures !r.Panics? ==> Valid() && Effect(old(Now()), Now(), SysUnlink(path), r)
    {
      hide Sound, Walkable, Balanced, Quiet, Kept, InUse, FilesOk, RefsExact, Target, Unlinks, CanUnlink;
      ghost var c0 := t.cache;
      var o := t.Unlink(path);
      if o.Panic? {
        return Panics;
      }
      SameExact(c0, t.cache, t.cwd, files);
      return if o.Ok? then Did else Refused;
    }
  }

  /** The directory a new name would go into. */
  function NameDir(nodes: Nodes, cwd: nat, call: Call): Resolved {
    match call
    case SysOpen(path, _, _) => Target(nodes, path, cwd, true)
    case SysMake(path, _) => Target(nodes, path, cwd, true)
    case SysLink(_, newPath) => Target(nodes, newPath, cwd, true)
    case _ => Missing
  }

  lemma StrayDir(nodes: Nodes, nodes': Nodes, cwd: nat, call: Call)
    requires nodes' == nodes || exists d: nat :: NewName(nodes, nodes', cwd, call, d)
    requires nodes' == nodes ==> !Strays(nodes, nodes', cwd, call)
    ensures var dir := NameDir(nodes, cwd, call);
            Strays(nodes, nodes', cwd, call)
            <==> nodes' != nodes && dir.At? && dir.inum < |nodes| && !Links.Linked(nodes[dir.inum])
  {
    hide Creates, LinksTo, Target;
    if nodes' != nodes {
      var d: nat :| NewName(nodes, nodes', cwd, call, d);
      assert NameDir(nodes, cwd, call) == At(d);
    }
  }

  lemma StillNoName(nodes: Nodes, nodes': Nodes, cwd: nat, call: Call)
    requires call.SysClose? || call.SysChdir? || call.SysUnlink?
    ensures !Strays(nodes, nodes', cwd, call)
  {
  }

  // ---------------------------------------------------------------- runs

  ghost predicate StraysAt(moments: seq<Moment>, calls: seq<Call>, k: nat)
    requires k < |calls| && k + 1 < |moments|
  {
    Strays(moments[k].nodes, moments[k + 1].nodes, moments[k].cwd, calls[k])
  }

  /** Each call did what it should, and every reference was accounted for after it. */
  ghost predicate RunOk(moments: seq<Moment>, calls: seq<Call>, rs: seq<Outcome>) {
    && |moments| == |rs| + 1 && |rs| <= |calls|
    && (forall k :: 0 <= k <= |rs| ==> Exact(moments[k]))
    && (forall k :: 0 <= k < |rs| ==> Sound(moments[k].nodes) && Effect(moments[k], moments[k + 1], calls[k], rs[k]))
  }

  /**
   Any sequence of system calls, up to a panic or to the first that breaks the link counts.
   Each call does what it should, and every reference is accounted for after each; all that
   holds between calls holds throughout exactly if every new name went into a linked directory.
   */
  method Run(s: Session, calls: seq<Call>) returns (rs: seq<Outcome>, panicked: bool, ghost moments: seq<Moment>)
    requires s.Valid() && forall k :: 0 <= k < |calls| ==> CallOk(calls[k])
    modifies s, s.t
    ensures RunOk(moments, calls, rs) && moments[0] == old(s.Now())
    ensures !panicked ==> moments[|rs|] == s.Now()
    ensures !panicked ==> (s.Valid() <==> forall k :: 0 <= k < |rs| ==> !StraysAt(moments, calls, k))
    ensures !panicked && s.Valid() ==> |rs| == |calls|
    ensures panicked ==> |rs| < |calls| && MayPanic(moments[|rs|], calls[|rs|])
  {
    hide Sound, Walkable, Strays, Exact, ReadyAt, Effect, MayPanic;
    moments, rs := [s.Now()], [];
    while |rs| < |calls|
      invariant RunOk(moments, calls, rs) && moments[0] == old(s.Now())
      invariant moments[|rs|] == s.Now() && s.Valid()
      invariant forall k :: 0 <= k < |rs| ==> !StraysAt(moments, calls, k)
      decreases |calls| - |rs|
    {
      ghost var before, n := moments, |rs|;
      var r, stray := s.Do(calls[|rs|]);
      if r.Panics? {
        return rs, true, moments;
      }
      moments, rs := moments + [s.Now()], rs + [r];
      assert forall k :: 0 <= k < n ==> StraysAt(moments, calls, k) == StraysAt(before, calls, k);
      assert StraysAt(moments, calls, n) == stray;
      if stray {
        return rs, false, moments;
      }
    }
    return rs, false, moments;
  }

  lemma Sizes(files: seq<OpenFile>, ofile: seq<Option<nat>>)
    requires FilesOk(files, ofile)
    ensures |files| == NFILE && |ofile| == NOFILE
  {
  }
}
