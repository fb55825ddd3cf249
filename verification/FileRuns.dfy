/**
 Runs of file operations on any inodes: ialloc, writei, readi, itrunc and the freeing of an
 inode, each an operation alone in the log.  Between operations every block is accounted for by
 the inodes on the disk, whichever inode the next operation takes up; and so it is on every disk
 that recovery may find.
 */
module FileRuns {
  import opened Common
  import opened Blocks
  import opened Layout
  import opened Ownership
  import opened FileSpec
  import opened Files
  import opened Transaction
  import LogMachine
  import LogRuns

  predicate Sized(sb: Super, d: Disk) { sb.Valid() && |d| == sb.size && 0 < sb.ninodes }

  /** Inode i as ilock finds it. */
  function FromDisk(sb: Super, d: Disk, i: nat): Held
    requires Sized(sb, d) && i < sb.ninodes
  {
    Regions(sb, 0, i);
    Held(i, OnDisk(sb, d, i))
  }

  predicate NoBlocks(ip: DInode)
    requires ip.Valid()
  {
    forall k :: 0 <= k <= NDIRECT ==> ip.addrs[k] == 0
  }

  /** A file has exactly the blocks its size calls for; a free inode has none. */
  predicate FileOk(d: Disk, ip: DInode)
    requires ip.Valid()
  {
    HoleFree(d, ip, ip.size) && (ip.typ == 0 ==> NoBlocks(ip))
  }

  /** Every block is free, metadata, or in exactly one slot of one inode on the disk. */
  predicate FsOk(sb: Super, d: Disk, owner: Owners) {
    && Sized(sb, d)
    && Owned(sb, d, FromDisk(sb, d, 0), owner, {})
    && forall i :: 0 <= i < sb.ninodes ==> FileOk(d, FromDisk(sb, d, i).ip)
  }

  /** Ownership does not depend on which inode is held, if its disk copy is its memory copy. */
  lemma HandOver(sb: Super, d: Disk, h: Held, owner: Owners, i: nat)
    requires Owned(sb, d, h, owner, {}) && i < sb.ninodes && Sized(sb, d)
    requires FromDisk(sb, d, h.inum) == h
    ensures Owned(sb, d, FromDisk(sb, d, i), owner, {})
  {
    hide InodeIn;
    var h' := FromDisk(sb, d, i);
    forall j, k | 0 <= j < sb.ninodes && 0 <= k < SLOTS
      ensures Addr(sb, d, h', j, k) == Addr(sb, d, h, j, k)
    {
      hide Bit;
      assert InodeAt(sb, d, h', j) == InodeAt(sb, d, h, j);
    }
    Transfer(sb, d, h, d, h', owner, {});
  }

  lemma AnyInode(sb: Super, d: Disk, owner: Owners, i: nat)
    requires FsOk(sb, d, owner) && i < sb.ninodes
    ensures Owned(sb, d, FromDisk(sb, d, i), owner, {}) && FileOk(d, FromDisk(sb, d, i).ip)
  {
    hide Owned, HoleFree, InodeIn;
    HandOver(sb, d, FromDisk(sb, d, 0), owner, i);
  }

  /** A file other than the one written keeps its inode, its blocks and its bytes. */
  lemma OtherFile(sb: Super, d: Disk, d': Disk, h: Held, h': Held, owner: Owners, owner': Owners, i: nat)
    requires Owned(sb, d, h, owner, {}) && Owned(sb, d', h', owner', {}) && h'.inum == h.inum && Sized(sb, d)
    requires OthersKept(sb, d, d', owner, owner', h.inum) && i < sb.ninodes && i != h.inum
    requires FileOk(d, FromDisk(sb, d, i).ip)
    ensures FromDisk(sb, d', i) == FromDisk(sb, d, i) && FileOk(d', FromDisk(sb, d', i).ip)
    ensures Stored(sb, d', i) == Stored(sb, d, i)
  {
    hide Bit, WordAt, FileBytes, HoleFree;
    Regions(sb, 0, i);
    var ip := FromDisk(sb, d, i).ip;
    assert InodeAt(sb, d, h, i) == ip == InodeAt(sb, d', h', i);
    assert Addr(sb, d, h, i, NDIRECT) == ip.addrs[NDIRECT];
    forall k | 0 <= k < SLOTS
      ensures SlotOf(d', ip, k) == SlotOf(d, ip, k)
    {
    }
    forall x | 0 <= x < MAXFILE && 0 < FileBlock(d, ip, x) < |d|
      ensures d'[FileBlock(d, ip, x)] == d[FileBlock(d, ip, x)]
    {
      assert Addr(sb, d, h, i, FileSlot(x)) == FileBlock(d, ip, x);
    }
    SameBytes(d, ip, d', ip, ip.size);
  }

  /** Only file i may differ. */
  predicate OnlyFile(sb: Super, d: Disk, d': Disk, i: nat) {
    && Sized(sb, d) && Sized(sb, d')
    && forall j :: 0 <= j < sb.ninodes && j != i ==>
         FromDisk(sb, d', j) == FromDisk(sb, d, j) && Stored(sb, d', j) == Stored(sb, d, j)
  }

  /** An operation on one inode, which it leaves in order and synchronised, leaves the disk in order. */
  lemma AfterOp(sb: Super, d: Disk, d': Disk, owner: Owners, owner': Owners, h': Held)
    requires FsOk(sb, d, owner) && Owned(sb, d', h', owner', {}) && Sized(sb, d')
    requires FromDisk(sb, d', h'.inum) == h' && FileOk(d', h'.ip)
    requires OthersKept(sb, d, d', owner, owner', h'.inum)
    ensures FsOk(sb, d', owner') && OnlyFile(sb, d, d', h'.inum)
  {
    hide Owned, OthersKept, InodeIn, Stored, FileOk;
    OwnedShape(sb, d', h', owner', {});
    AnyInode(sb, d, owner, h'.inum);
    HandOver(sb, d', h', owner', 0);
    forall j | 0 <= j < sb.ninodes && j != h'.inum
      ensures FromDisk(sb, d', j) == FromDisk(sb, d, j) && FileOk(d', FromDisk(sb, d', j).ip)
      ensures Stored(sb, d', j) == Stored(sb, d, j)
    {
      OtherFile(sb, d, d', FromDisk(sb, d, h'.inum), h', owner, owner', j);
    }
  }

  // ---------------------------------------------------------------- the operations

  /** What ialloc writes: everything but the type is zero. */
  function NewInode(typ: Half): DInode { DInode(typ, 0, 0, 0, 0, seq(NDIRECT + 1, _ => 0)) }

  /** Type, device numbers and links are the same. */
  predicate SameKind(a: DInode, b: DInode) { a.typ == b.typ && a.major == b.major && a.minor == b.minor && a.nlink == b.nlink }

  /** An inode of that type without links, contents or device numbers. */
  predicate Fresh(ip: DInode, typ: Half) {
    ip.Valid() && ip.typ == typ && ip.major == 0 && ip.minor == 0 && ip.nlink == 0 && ip.size == 0 && NoBlocks(ip)
  }

  lemma EmptyFile(d: Disk, ip: DInode)
    requires ip.Valid() && NoBlocks(ip) && ip.size == 0
    ensures FileOk(d, ip) && FileBytes(d, ip, 0) == []
  {
  }

  /** A free inode is overwritten by an empty one. */
  lemma Replaced(sb: Super, d: Disk, owner: Owners, i: nat, ip: DInode)
    requires FsOk(sb, d, owner) && i < sb.ninodes && FromDisk(sb, d, i).ip.typ == 0
    requires ip.Valid() && NoBlocks(ip) && ip.size == 0
    ensures sb.Iblock(i) < |d|
    ensures var d' := d[sb.Iblock(i) := PutInode(d[sb.Iblock(i)], i, ip)];
            FsOk(sb, d', owner) && OnlyFile(sb, d, d', i) && FromDisk(sb, d', i).ip == ip
  {
    hide Owned, OthersKept, InodeIn, PutInode, Stored, HoleFree, FileBytes;
    Regions(sb, 0, i);
    AnyInode(sb, d, owner, i);
    var h := Held(i, ip);
    assert FromDisk(sb, d, i).ip.addrs == ip.addrs;
    OwnedSameAddrs(sb, d, FromDisk(sb, d, i), h, owner);
    EmptyFile(d, h.ip);
    UpdateSummary(sb, d, h, owner);
    var d' := d[sb.Iblock(i) := PutInode(d[sb.Iblock(i)], i, ip)];
    UpdateKeeps(sb, d, d', h, owner, 0, []);
    AfterOp(sb, d, d', owner, owner, h);
  }

  /** Take the first free inode; a panic exactly when there is none or the log is full. */
  method Ialloc(fs: FileSystem, typ: Half) returns (r: Option<nat>)
    requires fs.InOp() && FsOk(fs.sb, fs.d, fs.owner)
    modifies fs`d, fs`logged, fs`writes
    ensures fs.InOp()
    ensures r.Some? ==>
      && FsOk(fs.sb, fs.d, fs.owner) && 0 < r.value < fs.sb.ninodes && OnlyFile(fs.sb, old(fs.d), fs.d, r.value)
      && Fresh(FromDisk(fs.sb, fs.d, r.value).ip, typ)
      && old(FromDisk(fs.sb, fs.d, r.value).ip.typ) == 0
      && forall i :: 0 < i < r.value ==> old(FromDisk(fs.sb, fs.d, i).ip.typ) != 0
    ensures r.None? ==> fs.d == old(fs.d)
    ensures r.None? <==> old(AllUsed(fs.sb, fs.d)) || old(|fs.logged| >= fs.c.Capacity())
  {
    hide Owned, InodeIn, PutInode, OnlyFile, FileOk, Ran;
    var inum := 1;
    while inum < fs.sb.ninodes
      invariant fs.InOp() && fs.d == old(fs.d) && fs.logged == old(fs.logged)
      invariant 1 <= inum && forall i :: 0 < i < inum && i < fs.sb.ninodes ==> FromDisk(fs.sb, fs.d, i).ip.typ != 0
    {
      Regions(fs.sb, 0, inum);
      var x := fs.sb.Iblock(inum);
      if InodeIn(fs.d[x], inum).typ == 0 {
        Replaced(fs.sb, fs.d, fs.owner, inum, NewInode(typ));
        var ok := fs.LogWrite(x, PutInode(fs.d[x], inum, NewInode(typ)));
        return if ok then Some(inum) else None;
      }
      inum := inum + 1;
    }
    return None;
  }

  predicate AllUsed(sb: Super, d: Disk)
    requires Sized(sb, d)
  {
    forall i :: 0 < i < sb.ninodes ==> FromDisk(sb, d, i).ip.typ != 0
  }

  /** iget and ilock; ilock panics on a free inode. */
  method Ilock(fs: FileSystem, inum: nat) returns (r: Option<Inode>)
    requires fs.pending == {} && FsOk(fs.sb, fs.d, fs.owner) && inum < fs.sb.ninodes
    ensures r.None? <==> FromDisk(fs.sb, fs.d, inum).ip.typ == 0
    ensures r.Some? ==> fresh(r.value) && r.value.AsHeld() == FromDisk(fs.sb, fs.d, inum) && fs.Sound(r.value)
  {
    hide Owned, InodeIn, HoleFree;
    AnyInode(fs.sb, fs.d, fs.owner, inum);
    Regions(fs.sb, 0, inum);
    var ip := new Inode(inum, InodeIn(fs.d[fs.sb.Iblock(inum)], inum));
    if ip.typ == 0 {
      return None;
    }
    SizeBound(fs.d, ip.Value());
    return Some(ip);
  }

  lemma SizeBound(d: Disk, ip: DInode)
    requires ip.Valid() && HoleFree(d, ip, ip.size)
    ensures ip.size <= MAXFILE * BSIZE
  {
  }

  /** Why an operation on inode inum panics: the inode is free, the disk is full or the log is. */
  ghost predicate Stopped(fs: FileSystem, was: DInode)
    reads fs
  {
    was.typ == 0 || Full(fs.sb, fs.d) || (fs.c.Valid() && |fs.logged| >= fs.c.Capacity())
  }

  /** writei on any inode. */
  method Write(fs: FileSystem, inum: nat, off: Word, src: seq<Byte>) returns (r: IoResult<nat>)
    requires fs.InOp() && fs.pending == {} && FsOk(fs.sb, fs.d, fs.owner)
    requires inum < fs.sb.ninodes && |src| < WORD_LIMIT
    modifies fs`d, fs`pending, fs`logged, fs`writes, fs`owner
    ensures fs.InOp()
    ensures !r.Panicked? ==> fs.pending == {} && FsOk(fs.sb, fs.d, fs.owner)
    ensures r.Failed? ==> fs.d == old(fs.d) && !old(Fits(fs.sb, fs.d, inum, off, |src|))
    ensures r.Done? ==> r.value == |src| && old(Fits(fs.sb, fs.d, inum, off, |src|) && FromDisk(fs.sb, fs.d, inum).ip.typ != 0)
                        && Wrote(fs.sb, old(fs.d), fs.d, inum, off, src)
    ensures r.Panicked? ==> Stopped(fs, old(FromDisk(fs.sb, fs.d, inum).ip))
  {
    hide Owned, InodeIn, HoleFree, FileBytes, OthersKept, Overwrite, Ran, Full, Span, Range;
    ghost var d0, owner0 := fs.d, fs.owner;
    var l := Ilock(fs, inum);
    if l.None? {
      return Panicked;
    }
    var ip := l.value;
    ghost var data;
    r, data := fs.Writei(ip, off, src);
    if r.Done? {
      AfterOp(fs.sb, d0, fs.d, owner0, fs.owner, ip.AsHeld());
    }
  }

  /** writei accepts the offset and the length. */
  predicate Fits(sb: Super, d: Disk, inum: nat, off: nat, n: nat)
    requires Sized(sb, d) && inum < sb.ninodes
  {
    off <= FromDisk(sb, d, inum).ip.size && off + n <= MAXFILE * BSIZE
  }

  /** File inum was overwritten at off with src, and no other file changed. */
  predicate Wrote(sb: Super, d: Disk, d': Disk, inum: nat, off: nat, src: seq<Byte>) {
    && OnlyFile(sb, d, d', inum) && inum < sb.ninodes
    && SameKind(FromDisk(sb, d', inum).ip, FromDisk(sb, d, inum).ip)
    && Stored(sb, d, inum).Some? && off <= |Stored(sb, d, inum).value|
    && Stored(sb, d', inum) == Some(Overwrite(Stored(sb, d, inum).value, off, src))
  }

  /** readi on any inode. */
  method Read(fs: FileSystem, inum: nat, off: Word, n: Word) returns (r: IoResult<seq<Byte>>)
    requires fs.InOp() && fs.pending == {} && FsOk(fs.sb, fs.d, fs.owner) && inum < fs.sb.ninodes
    modifies fs`d, fs`pending, fs`logged, fs`writes, fs`owner
    ensures fs.InOp() && fs.pending == {} && fs.d == old(fs.d) && fs.owner == old(fs.owner) && fs.writes == old(fs.writes)
    ensures r.Panicked? <==> FromDisk(fs.sb, fs.d, inum).ip.typ == 0
    ensures r.Done? ==>
      && Stored(fs.sb, fs.d, inum).Some? && off <= |Stored(fs.sb, fs.d, inum).value|
      && r.value == Stored(fs.sb, fs.d, inum).value[off..Min(off + n, |Stored(fs.sb, fs.d, inum).value|)]
    ensures !r.Panicked? ==> (r.Failed? <==> off > FromDisk(fs.sb, fs.d, inum).ip.size || off + n >= WORD_LIMIT)
  {
    hide Owned, InodeIn, HoleFree, FileBytes, Ran;
    var l := Ilock(fs, inum);
    if l.None? {
      return Panicked;
    }
    r := fs.Readi(l.value, off, n);
  }

  lemma Reread(sb: Super, d: Disk, d': Disk, inum: nat, off: nat, src: seq<Byte>)
    requires Wrote(sb, d, d', inum, off, src)
    ensures var s := Stored(sb, d', inum).value; s[off..Min(off + |src|, |s|)] == src
    ensures off <= FromDisk(sb, d', inum).ip.size
  {
    hide FileBytes, InodeIn, OnlyFile;
    ReadBack(Stored(sb, d, inum).value, off, src, 0);
  }

  /** What was written is read back, on any inode. */
  method WriteThenRead(fs: FileSystem, inum: nat, off: Word, src: seq<Byte>) returns (w: IoResult<nat>, r: IoResult<seq<Byte>>)
    requires fs.InOp() && fs.pending == {} && FsOk(fs.sb, fs.d, fs.owner)
    requires inum < fs.sb.ninodes && |src| < WORD_LIMIT
    modifies fs`d, fs`pending, fs`logged, fs`writes, fs`owner
    ensures w.Done? ==> r == Done(src)
  {
    hide Owned, InodeIn, HoleFree, FileBytes, Ran, FsOk, Stored, Overwrite;
    r := Failed;
    w := Write(fs, inum, off, src);
    if w.Done? {
      Reread(fs.sb, old(fs.d), fs.d, inum, off, src);
      r := Read(fs, inum, off, |src|);
    }
  }

  /** File inum is empty, has the given type, and no other file changed. */
  predicate Emptied(sb: Super, d: Disk, d': Disk, inum: nat, typ: Half) {
    && OnlyFile(sb, d, d', inum) && inum < sb.ninodes
    && SameKind(FromDisk(sb, d', inum).ip, FromDisk(sb, d, inum).ip.(typ := typ)) && Stored(sb, d', inum) == Some([])
  }

  lemma AfterTrunc(sb: Super, d: Disk, d': Disk, owner: Owners, owner': Owners, h': Held)
    requires FsOk(sb, d, owner) && Owned(sb, d', h', owner', {}) && Sized(sb, d')
    requires FromDisk(sb, d', h'.inum) == h' && NoBlocks(h'.ip) && h'.ip.size == 0
    requires OthersKept(sb, d, d', owner, owner', h'.inum)
    requires SameKind(h'.ip, FromDisk(sb, d, h'.inum).ip.(typ := h'.ip.typ))
    ensures FsOk(sb, d', owner') && Emptied(sb, d, d', h'.inum, h'.ip.typ)
  {
    hide Owned, OthersKept, InodeIn, FsOk, OnlyFile, FileBytes;
    OwnedShape(sb, d', h', owner', {});
    Regions(sb, 0, h'.inum);
    EmptyFile(d', h'.ip);
    AfterOp(sb, d, d', owner, owner', h');
  }

  /** itrunc on any inode. */
  method Trunc(fs: FileSystem, inum: nat) returns (ok: bool)
    requires fs.InOp() && fs.pending == {} && FsOk(fs.sb, fs.d, fs.owner) && inum < fs.sb.ninodes
    modifies fs`d, fs`pending, fs`logged, fs`writes, fs`owner
    ensures fs.InOp()
    ensures ok ==> fs.pending == {} && FsOk(fs.sb, fs.d, fs.owner)
    ensures ok ==> Emptied(fs.sb, old(fs.d), fs.d, inum, old(FromDisk(fs.sb, fs.d, inum).ip.typ))
    ensures !ok ==> Stopped(fs, old(FromDisk(fs.sb, fs.d, inum).ip))
  {
    hide Owned, InodeIn, HoleFree, FileBytes, OthersKept, Ran, Range, Bit;
    ghost var d0, owner0 := fs.d, fs.owner;
    var l := Ilock(fs, inum);
    if l.None? {
      return false;
    }
    ok := fs.Itrunc(l.value);
    if ok {
      AfterTrunc(fs.sb, d0, fs.d, owner0, fs.owner, l.value.AsHeld());
    }
  }

  /** The end of iput for an inode without links: itrunc, type = 0, iupdate. */
  method Free(fs: FileSystem, inum: nat) returns (ok: bool)
    requires fs.InOp() && fs.pending == {} && FsOk(fs.sb, fs.d, fs.owner) && inum < fs.sb.ninodes
    modifies fs`d, fs`pending, fs`logged, fs`writes, fs`owner
    ensures fs.InOp()
    ensures ok ==> fs.pending == {} && FsOk(fs.sb, fs.d, fs.owner) && Emptied(fs.sb, old(fs.d), fs.d, inum, 0)
    ensures !ok ==> Stopped(fs, old(FromDisk(fs.sb, fs.d, inum).ip))
  {
    hide Owned, InodeIn, HoleFree, FileBytes, OthersKept, Ran, Range, Bit, SyncedDisk;
    ghost var d0, owner0 := fs.d, fs.owner;
    var l := Ilock(fs, inum);
    if l.None? {
      return false;
    }
    var ip := l.value;
    ok := fs.Itrunc(ip);
    if ok {
      ghost var d1, h1 := fs.d, ip.AsHeld();
      ip.typ := 0;
      OwnedSameAddrs(fs.sb, fs.d, h1, ip.AsHeld(), fs.owner);
      ok := fs.Iupdate(ip);
      if ok {
        EmptyFile(d1, ip.Value());
        GrowFile(fs.sb, d0, d1, fs.d, ip.AsHeld(), owner0, fs.owner, 0, []);
        AfterTrunc(fs.sb, d0, fs.d, owner0, fs.owner, ip.AsHeld());
      }
    }
  }

  // ---------------------------------------------------------------- runs

  datatype FileOp =
    | Make(typ: Half)
    | Writing(inum: nat, off: Word, src: seq<Byte>)
    | Reading(inum: nat, off: Word, n: Word)
    | Truncating(inum: nat)
    | Freeing(inum: nat)

  predicate OpOk(sb: Super, op: FileOp) {
    match op
    case Make(typ) => typ != 0
    case Writing(i, _, src) => i < sb.ninodes && |src| < WORD_LIMIT
    case Reading(i, _, _) => i < sb.ninodes
    case Truncating(i) => i < sb.ninodes
    case Freeing(i) => i < sb.ninodes
  }

  predicate Made(sb: Super, d: Disk, d': Disk, i: nat, typ: Half) {
    && OnlyFile(sb, d, d', i) && 0 < i < sb.ninodes
    && FromDisk(sb, d, i).ip.typ == 0 && Fresh(FromDisk(sb, d', i).ip, typ)
    && (forall j :: 0 < j < i ==> FromDisk(sb, d, j).ip.typ != 0)
  }

  /** What readi returns: the bytes of the file from off, as far as it goes. */
  predicate ReadAs(sb: Super, d: Disk, i: nat, off: Word, n: Word, out: IoResult<seq<Byte>>)
    requires Sized(sb, d) && i < sb.ninodes
  {
    var s := Stored(sb, d, i);
    if off > FromDisk(sb, d, i).ip.size || off + n >= WORD_LIMIT then out == Failed
    else s.Some? && off <= |s.value| && out == Done(s.value[off..Min(off + n, |s.value|)])
  }

  /** What an operation does to the files on the disk, and what it returns. */
  ghost predicate Did(sb: Super, d: Disk, d': Disk, op: FileOp, out: IoResult<seq<Byte>>)
    requires Sized(sb, d) && OpOk(sb, op)
  {
    match op
    case Make(typ) => exists i :: Made(sb, d, d', i, typ)
    case Writing(i, off, src) => if Fits(sb, d, i, off, |src|) then Wrote(sb, d, d', i, off, src) else d' == d && out == Failed
    case Reading(i, off, n) => d' == d && ReadAs(sb, d, i, off, n, out)
    case Truncating(i) => Emptied(sb, d, d', i, FromDisk(sb, d, i).ip.typ)
    case Freeing(i) => Emptied(sb, d, d', i, 0)
  }

  /** Why an operation panics: the disk or the log is full, its inode is free, or no inode is. */
  ghost predicate Stops(fs: FileSystem, d: Disk, op: FileOp)
    requires Sized(fs.sb, d) && OpOk(fs.sb, op)
    reads fs
  {
    || Full(fs.sb, fs.d) || (fs.c.Valid() && |fs.logged| >= fs.c.Capacity())
    || (if op.Make? then AllUsed(fs.sb, d) else FromDisk(fs.sb, d, op.inum).ip.typ == 0)
  }

  /** begin_op, the operation, end_op. */
  method RunOp(fs: FileSystem, op: FileOp) returns (out: IoResult<seq<Byte>>)
    requires Placed(fs.sb, fs.c) && fs.pending == {} && FsOk(fs.sb, fs.d, fs.owner) && OpOk(fs.sb, op)
    modifies fs`d, fs`pending, fs`logged, fs`base, fs`writes, fs`owner
    ensures fs.InOp() && fs.base == old(fs.d)
    ensures !out.Panicked? ==> fs.pending == {} && FsOk(fs.sb, fs.d, fs.owner) && Did(fs.sb, old(fs.d), fs.d, op, out)
    ensures out.Panicked? ==> Stops(fs, old(fs.d), op)
  {
    hide Owned, InodeIn, FileOk, Ran, Full, Stored, OnlyFile, NewInode;
    fs.BeginOp();
    match op {
      case Make(typ) =>
        var r := Ialloc(fs, typ);
        out := if r.Some? then Done([]) else Panicked;
        assert r.Some? ==> Made(fs.sb, old(fs.d), fs.d, r.value, typ);
      case Writing(i, off, src) =>
        var r := Write(fs, i, off, src);
        out := if r.Done? then Done([]) else if r.Failed? then Failed else Panicked;
      case Reading(i, off, n) =>
        out := Read(fs, i, off, n);
      case Truncating(i) =>
        var ok := Trunc(fs, i);
        out := if ok then Done([]) else Panicked;
      case Freeing(i) =>
        var ok := Free(fs, i);
        out := if ok then Done([]) else Panicked;
    }
  }

  /** Some assignment of blocks to inodes accounts for this disk. */
  ghost predicate Sane(sb: Super, d: Disk) { exists owner :: FsOk(sb, d, owner) }

  /** Wherever the machine stops, recovery yields a disk in order. */
  ghost predicate AlwaysSane(sb: Super, c: LogMachine.Config, s: LogMachine.State, steps: seq<LogMachine.Step>)
    requires c.Valid() && LogMachine.Inv(c, s)
  {
    forall j :: 0 <= j <= |steps| ==>
      && LogRuns.Exec(c, s, steps[..j]).Some?
      && Sane(sb, LogMachine.Committed(c, LogRuns.Exec(c, s, steps[..j]).value))
  }

  lemma SaneImages(sb: Super, c: LogMachine.Config, s: LogMachine.State, steps: seq<LogMachine.Step>, images: seq<Disk>)
    requires c.Valid() && LogMachine.Inv(c, s) && Recovers(c, s, steps, ImageSet(images))
    requires forall k :: 0 <= k < |images| ==> Sane(sb, images[k])
    ensures AlwaysSane(sb, c, s, steps)
  {
    hide LogMachine.RunInv, LogMachine.LoggedOk, LogRuns.Exec, LogMachine.Committed, Sane;
    forall j | 0 <= j <= |steps|
      ensures LogRuns.Exec(c, s, steps[..j]).Some?
      ensures Sane(sb, LogMachine.Committed(c, LogRuns.Exec(c, s, steps[..j]).value))
    {
      var k :| 0 <= k < |images| && images[k] == LogMachine.Committed(c, LogRuns.Exec(c, s, steps[..j]).value);
    }
  }

  /**
   Any sequence of operations on any inodes, up to a panic if there is one: each does to the
   files what it should, every disk between two of them is in order, and so is every disk that
   recovery may find, wherever the machine stops.
   */
  method Run(fs: FileSystem, ops: seq<FileOp>, ghost s: LogMachine.State, ghost p: nat)
    returns (outs: seq<IoResult<seq<Byte>>>, ghost images: seq<Disk>, ghost steps: seq<LogMachine.Step>)
    requires Placed(fs.sb, fs.c) && fs.pending == {} && FsOk(fs.sb, fs.d, fs.owner)
    requires forall k :: 0 <= k < |ops| ==> OpOk(fs.sb, ops[k])
    requires Quiet(fs.c, s) && LogMachine.Current(fs.c, s) == fs.d
    modifies fs`d, fs`pending, fs`logged, fs`base, fs`writes, fs`owner
    ensures |outs| <= |ops| && |images| == |outs| + 1 && images[0] == old(fs.d)
    ensures forall k :: 0 <= k <= |outs| ==> Sane(fs.sb, images[k])
    ensures forall k :: 0 <= k < |outs| ==> Sized(fs.sb, images[k]) && Did(fs.sb, images[k], images[k + 1], ops[k], outs[k])
    ensures AlwaysSane(fs.sb, fs.c, s, steps)
    ensures |outs| == |ops| ==> fs.pending == {} && FsOk(fs.sb, fs.d, fs.owner) && fs.d == images[|outs|]
    ensures |outs| < |ops| ==> Sized(fs.sb, images[|outs|]) && Stops(fs, images[|outs|], ops[|outs|])
  {
    hide Owned, FileOk, Ran, Did, Full, InodeIn, AllUsed, Tied, Quiet, LogMachine.Inv, LogMachine.Current, LogRuns.Exec, OpSteps, OpenSteps,
         AlwaysSane, Recovers;
    images, steps, outs := [fs.d], [], [];
    TiedStart(fs.c, s);
    while |outs| < |ops|
      invariant |outs| <= |ops| && |images| == |outs| + 1 && images[0] == old(fs.d) && fs.d == images[|outs|]
      invariant fs.pending == {} && FsOk(fs.sb, fs.d, fs.owner) && Tied(fs.c, s, steps, images)
      invariant forall k :: 0 <= k <= |outs| ==> Sane(fs.sb, images[k])
      invariant forall k :: 0 <= k < |outs| ==> Sized(fs.sb, images[k]) && Did(fs.sb, images[k], images[k + 1], ops[k], outs[k])
      decreases |ops| - |outs|
    {
      var out := RunOp(fs, ops[|outs|]);
      if out.Panicked? {
        TiedStop(fs.c, s, steps, images, p, fs.writes, fs.d, fs.logged);
        steps := steps + OpenSteps(p, fs.writes);
        SaneImages(fs.sb, fs.c, s, steps, images);
        return;
      }
      TiedOp(fs.c, s, steps, images, p, fs.writes, fs.d, fs.logged);
      steps, images, outs := steps + OpSteps(p, fs.writes), images + [fs.d], outs + [out];
    }
    TiedRecovers(fs.c, s, steps, images);
    SaneImages(fs.sb, fs.c, s, steps, images);
  }

  lemma TiedRecovers(c: LogMachine.Config, s: LogMachine.State, steps: seq<LogMachine.Step>, images: seq<Disk>)
    requires Tied(c, s, steps, images)
    ensures c.Valid() && LogMachine.Inv(c, s) && Recovers(c, s, steps, ImageSet(images))
  {
    hide LogMachine.Inv, LogRuns.Exec, Recovers;
  }
}
