/**
 mkfs.c: the first disk image.  mkfs hands out blocks in order and writes the free map only at
 the end.  With the free map it would write now in place, the image is in order all the time.
 */
module Mkfs {
  import opened Common
  import opened Blocks
  import opened Layout
  import opened Ownership
  import opened FileSpec
  import opened FileRuns
  import opened Files
  import opened Transaction
  import Directory
  import LogMachine
  import LogRuns

  lemma {:induction false} NoBitSet(k: nat)
    ensures !ByteBit(0, k)
  {
    if k > 0 { NoBitSet(k - 1); }
  }

  lemma NoBits()
    ensures forall j :: 0 <= j < BPB ==> !BitOf(ZeroBlock(), j)
  {
    forall j | 0 <= j < BPB
      ensures !BitOf(ZeroBlock(), j)
    {
      NoBitSet(j % 8);
    }
  }

  /** A free-map block with the first n bits set. */
  function FirstBits(n: nat): (b: Block)
    requires n <= BPB
    ensures forall j :: 0 <= j < BPB ==> (BitOf(b, j) <==> j < n)
  {
    if n == 0 then NoBits(); ZeroBlock() else SetBitOf(FirstBits(n - 1), n - 1)
  }

  /** The image with the free map that goes with the blocks handed out so far. */
  function WithMap(sb: Super, img: Disk, n: nat): Disk
    requires sb.bmapstart < |img| && n <= BPB
  {
    img[sb.bmapstart := FirstBits(n)]
  }

  /** Nothing has been written between the superblock and the inodes, where the log is. */
  predicate LogBlank(sb: Super, img: Disk) {
    forall b :: 2 <= b < sb.inodestart && b < |img| ==> img[b] == ZeroBlock()
  }

  /** Nothing has been written to the log and to the blocks not yet handed out. */
  predicate Blank(sb: Super, img: Disk, n: nat) {
    && Sized(sb, img) && sb.datastart <= n <= sb.size < BPB && LogBlank(sb, img)
    && forall b :: n <= b < sb.size ==> img[b] == ZeroBlock()
  }

  lemma MapBlockNumber(sb: Super, img: Disk, n: nat)
    requires Blank(sb, img, n)
    ensures sb.inodestart <= sb.bmapstart < sb.datastart <= |img|
    ensures forall i :: 0 <= i < sb.ninodes ==> sb.inodestart <= sb.Iblock(i) < sb.bmapstart
  {
    DataAfterInodes(sb, sb.bmapstart);
    forall i | 0 <= i < sb.ninodes
      ensures sb.inodestart <= sb.Iblock(i) < sb.bmapstart
    {
      Regions(sb, 0, i);
    }
  }

  lemma FirstMapBlock(sb: Super, b: nat)
    requires b < BPB
    ensures sb.Bblock(b) == sb.bmapstart && b % BPB == b
  {
    assert b / BPB == 0;
  }

  /** freeblock++ is what balloc would do. */
  lemma HandedOut(sb: Super, img: Disk, n: nat, h: Held, owner: Owners)
    requires Blank(sb, img, n) && n < sb.size && sb.bmapstart < |img|
    requires Owned(sb, WithMap(sb, img, n), h, owner, {})
    ensures Blank(sb, img, n + 1) && TookBlock(sb, WithMap(sb, img, n), WithMap(sb, img, n + 1), h, owner, {}, n)
  {
    hide Owned, TookBlock, BitOf, Super.Bblock;
    var d := WithMap(sb, img, n);
    FirstMapBlock(sb, n);
    assert !Bit(sb, d, n);
    TookOne(sb, d, h, owner, {}, n);
    assert FirstBits(n + 1) == SetBitOf(FirstBits(n), n);
    var d1: Disk := d[sb.bmapstart := SetBitOf(d[sb.bmapstart], n)];
    assert d1[n] == ZeroBlock();
    assert d1[n := ZeroBlock()] == d1 == WithMap(sb, img, n + 1);
  }

  /** wsect of any block but the free map. */
  lemma Wsect(sb: Super, img: Disk, n: nat, x: nat, v: Block)
    requires Blank(sb, img, n) && sb.inodestart <= x < n && x != sb.bmapstart && sb.bmapstart < |img|
    ensures x < |img| && Blank(sb, img[x := v], n)
    ensures WithMap(sb, img[x := v], n) == WithMap(sb, img, n)[x := v] && WithMap(sb, img, n)[x] == img[x]
  {
  }

  lemma OwnerBit(sb: Super, d: Disk, h: Held, owner: Owners, b: nat)
    requires Owned(sb, d, h, owner, {}) && b in owner
    ensures InShape(sb, d, h) && sb.datastart <= b < sb.size && Bit(sb, d, b)
  {
    hide Addr, BitOf;
  }

  /** A block in a slot has been handed out. */
  lemma SlotBelow(sb: Super, img: Disk, n: nat, h: Held, owner: Owners, b: nat)
    requires Blank(sb, img, n) && sb.bmapstart < |img| && Owned(sb, WithMap(sb, img, n), h, owner, {}) && b in owner
    ensures sb.datastart <= b < n && b != sb.bmapstart && sb.inodestart <= b
  {
    hide Owned, BitOf, Super.Bblock, Super.Valid, FirstBits;
    OwnerBit(sb, WithMap(sb, img, n), h, owner, b);
    FirstMapBlock(sb, b);
    MapBlockNumber(sb, img, n);
    assert BitOf(FirstBits(n), b);
  }

  class Builder {
    const sb: Super
    var img: Disk
    var freeblock: nat
    var freeinode: nat
    ghost var owner: Owners

    ghost predicate Ready()
      reads this
    {
      Blank(sb, img, freeblock) && sb.bmapstart < |img|
    }

    /** The image as it will be once the free map is written. */
    ghost function View(): (d: Disk)
      reads this
      requires Ready()
      ensures Sized(sb, d)
    {
      WithMap(sb, img, freeblock)
    }

    ghost predicate Holds(h: Held)
      reads this
    {
      Ready() && Owned(sb, View(), h, owner, {})
    }

    /** Between two appends. */
    ghost predicate Valid()
      reads this
    {
      && Ready() && FsOk(sb, View(), owner) && 0 < freeinode
      && forall i :: freeinode <= i < sb.ninodes ==> FromDisk(sb, View(), i).ip.typ == 0
    }

    /** Every block zero but the superblock, no inode used, only the metadata handed out. */
    constructor (sb: Super, super: Block)
      requires sb.Valid() && 0 < sb.ninodes && sb.size < BPB && 2 <= sb.inodestart
      ensures this.sb == sb && Valid() && freeinode == 1 && fresh(this)
    {
      this.sb := sb;
      img := ZeroDisk(sb.size)[1 := super];
      freeblock, freeinode, owner := sb.datastart, 1, map[];
      new;
      BlankImage(sb, img);
    }

    /** freeblock++; None when that block is not on the disk, and the next read fails. */
    method NewBlock(ghost h: Held) returns (r: Option<Word>)
      requires Holds(h)
      modifies this`freeblock
      ensures r.None? ==> freeblock == old(freeblock) == sb.size
      ensures r.Some? ==> Ready() && freeblock == old(freeblock) + 1 && TookBlock(sb, old(View()), View(), h, owner, {}, r.value)
    {
      hide Owned, TookBlock, FirstBits;
      if freeblock >= sb.size {
        return None;
      }
      HandedOut(sb, img, freeblock, h, owner);
      r := Some(freeblock);
      freeblock := freeblock + 1;
    }

    /** A block for slot k <= NDIRECT of an inode that has none there. */
    method NewAddr(inum: nat, din: DInode, k: nat) returns (r: Option<DInode>)
      requires Holds(Held(inum, din)) && k <= NDIRECT && din.addrs[k] == 0
      modifies this`freeblock, this`owner
      ensures r.None? ==> freeblock == old(freeblock) == sb.size
      ensures r.Some? ==>
        && Holds(Held(inum, r.value)) && r.value == din.(addrs := din.addrs[k := r.value.addrs[k]]) && r.value.addrs[k] != 0
        && AddedDirect(sb, old(View()), View(), old(owner), owner, inum, k, r.value.addrs[k])
    {
      hide Owned, TookBlock, AddedDirect, FirstBits;
      ghost var h := Held(inum, din);
      OwnedShape(sb, View(), h, owner, {});
      var b := NewBlock(h);
      if b.None? {
        return None;
      }
      DirectAllocated(sb, old(View()), View(), h, owner, k, b.value);
      owner := owner[b.value := (inum, k)];
      r := Some(din.(addrs := din.addrs[k := b.value]));
      assert Held(inum, r.value) == WithAddr(h, k, b.value);
    }

    /** A block for word j of an inode's indirect table that is zero. */
    method NewWord(inum: nat, din: DInode, j: nat) returns (r: Option<Word>)
      requires Holds(Held(inum, din)) && j < NINDIRECT
      requires 0 < din.addrs[NDIRECT] < |img| && WordAt(img[din.addrs[NDIRECT]], j) == 0
      modifies this`img, this`freeblock, this`owner
      ensures r.None? ==> freeblock == old(freeblock) == sb.size
      ensures r.Some? ==>
        && Holds(Held(inum, din)) && AddedIndirect(sb, old(View()), View(), old(owner), owner, Held(inum, din), j, r.value)
    {
      hide Owned, TookBlock, AddedIndirect, FirstBits, WordAt, PutWord;
      ghost var h := Held(inum, din);
      OwnedShape(sb, View(), h, owner, {});
      var t := din.addrs[NDIRECT];
      TableOwned(sb, View(), h, owner, j);
      SlotBelow(sb, img, freeblock, h, owner, t);
      r := NewBlock(h);
      if r.None? {
        return None;
      }
      IndirectAllocated(sb, old(View()), View(), h, owner, j, r.value);
      Wsect(sb, img, freeblock, t, PutWord(img[t], j, r.value));
      img := img[t := PutWord(img[t], j, r.value)];
      owner := owner[r.value := (inum, NDIRECT + 1 + j)];
    }

    /** iappend finds or makes the block for block fbn of the file. */
    method BlockFor(inum: nat, din: DInode, fbn: nat) returns (ok: bool, din': DInode, x: Word)
      requires Holds(Held(inum, din)) && fbn < MAXFILE
      modifies this`img, this`freeblock, this`owner
      ensures ok ==>
        && Holds(Held(inum, din')) && din.Valid() && din'.Valid()
        && Mapped(sb, old(View()), View(), old(owner), owner, Held(inum, din), Held(inum, din'), fbn, x)
      ensures !ok ==> freeblock == sb.size
    {
      hide Owned, Mapped, AddedDirect, AddedIndirect, FirstBits, WordAt;
      ghost var h := Held(inum, din);
      OwnedShape(sb, View(), h, owner, {});
      if fbn < NDIRECT {
        if din.addrs[fbn] == 0 {
          var r := NewAddr(inum, din, fbn);
          if r.None? {
            return false, din, 0;
          }
          MappedDirect(sb, old(View()), View(), h, old(owner), owner, fbn, r.value.addrs[fbn]);
          return true, r.value, r.value.addrs[fbn];
        }
        AlreadyThere(sb, View(), h, owner, fbn, din.addrs[fbn]);
        return true, din, din.addrs[fbn];
      }
      ok, din', x := IndirectFor(inum, din, fbn);
    }

    method IndirectFor(inum: nat, din: DInode, fbn: nat) returns (ok: bool, din': DInode, x: Word)
      requires Holds(Held(inum, din)) && NDIRECT <= fbn < MAXFILE
      modifies this`img, this`freeblock, this`owner
      ensures ok ==>
        && Holds(Held(inum, din')) && din.Valid() && din'.Valid()
        && Mapped(sb, old(View()), View(), old(owner), owner, Held(inum, din), Held(inum, din'), fbn, x)
      ensures !ok ==> freeblock == sb.size
    {
      hide Owned, Mapped, AddedDirect, AddedIndirect, FirstBits, WordAt;
      ghost var h := Held(inum, din);
      OwnedShape(sb, View(), h, owner, {});
      din' := din;
      if din.addrs[NDIRECT] == 0 {
        var r := NewAddr(inum, din, NDIRECT);
        if r.None? {
          return false, din, 0;
        }
        din' := r.value;
      }
      ghost var h1, d1, owner1 := Held(inum, din'), View(), owner;
      SlotOwned(sb, View(), h1, owner, NDIRECT);
      SlotBelow(sb, img, freeblock, h1, owner, din'.addrs[NDIRECT]);
      Wsect(sb, img, freeblock, din'.addrs[NDIRECT], ZeroBlock());
      x := WordAt(img[din'.addrs[NDIRECT]], fbn - NDIRECT);
      if x == 0 {
        var r := NewWord(inum, din', fbn - NDIRECT);
        if r.None? {
          return false, din', 0;
        }
        MappedIndirect(sb, old(View()), d1, View(), h, h1, old(owner), owner1, owner, fbn, r.value);
        return true, din', r.value;
      }
      assert din.addrs[NDIRECT] != 0 by {
        if din.addrs[NDIRECT] == 0 { FreshTable(sb, old(View()), d1, old(owner), owner, inum, din'.addrs[NDIRECT], fbn - NDIRECT); }
      }
      AlreadyThere(sb, View(), h, owner, fbn, x);
      ok := true;
    }

    /** One turn of iappend's loop. */
    method AppendBlock(inum: nat, din: DInode, off: nat, data: seq<Byte>, ghost len: nat, ghost bytes: seq<Byte>)
      returns (ok: bool, din': DInode)
      requires Ready() && Holding(sb, View(), Held(inum, din), owner, len, bytes) && off <= len
      requires 0 < |data| && off % BSIZE + |data| <= BSIZE && off + |data| <= MAXFILE * BSIZE
      modifies this`img, this`freeblock, this`owner
      ensures ok ==>
        && Ready() && off <= |bytes|
        && Written(sb, old(View()), View(), old(owner), owner, Held(inum, din), Held(inum, din'), off, data, len, bytes)
      ensures !ok ==> freeblock == sb.size
    {
      hide Owned, Mapped, Written, HoleFree, FileBytes, FirstBits, Splice;
      ghost var h, d0, owner0 := Held(inum, din), View(), owner;
      var x;
      ok, din', x := BlockFor(inum, din, off / BSIZE);
      if ok {
        ghost var h1 := Held(inum, din');
        MapsTo(sb, d0, View(), owner0, owner, h, h1, off / BSIZE, x);
        TurnSummary(sb, d0, View(), owner0, owner, h, h1, x, off, data, len, bytes);
        SlotBelow(sb, img, freeblock, h1, owner, x);
        Wsect(sb, img, freeblock, x, Splice(img[x], off % BSIZE, data));
        img := img[x := Splice(img[x], off % BSIZE, data)];
      }
    }

    /** The next inode, with the given type and one link. */
    method Ialloc(typ: Half) returns (inum: nat)
      requires Valid() && freeinode < sb.ninodes && typ != 0
      modifies this`img, this`freeinode
      ensures Valid() && inum == old(freeinode) == freeinode - 1
      ensures OnlyFile(sb, old(View()), View(), inum) && Stored(sb, View(), inum) == Some([])
      ensures OneLink(FromDisk(sb, View(), inum).ip, typ)
    {
      hide Owned, FirstBits, PutInode, InodeIn, FileOk, FileBytes, HoleFree;
      inum := freeinode;
      freeinode := freeinode + 1;
      var din := DInode(typ, 0, 0, 1, 0, seq(NDIRECT + 1, _ => 0));
      var x := sb.Iblock(inum);
      MapBlockNumber(sb, img, freeblock);
      Replaced(sb, View(), owner, inum, din);
      Wsect(sb, img, freeblock, x, PutInode(img[x], inum, din));
      img := img[x := PutInode(img[x], inum, din)];
      EmptyFile(View(), din);
    }

    /** The free-map block mkfs writes at the end, bit by bit. */
    method Balloc(used: nat) returns (buf: Block)
      requires used < BPB
      ensures buf == FirstBits(used)
    {
      buf := ZeroBlock();
      var i := 0;
      while i < used
        invariant i <= used && buf == FirstBits(i)
      {
        buf := SetBitOf(buf, i);
        i := i + 1;
      }
    }

    /**
     Round the root directory's size up and write the free map.  Every block is accounted for;
     the disk is in order exactly when the rounding did not add a block the directory lacks.
     */
    method Finish(root: nat)
      requires Valid() && root < sb.ninodes && FromDisk(sb, View(), root).ip.typ != 0
      modifies this`img
      ensures Sized(sb, img) && Owned(sb, img, FromDisk(sb, img, 0), owner, {})
      ensures OnlyFile(sb, old(View()), img, root) && LogBlank(sb, img)
      ensures Leading(sb, img, root, Stored(sb, old(View()), root)) && SameKind(FromDisk(sb, img, root).ip, old(FromDisk(sb, View(), root).ip))
      ensures FromDisk(sb, img, root).ip.size == (old(FromDisk(sb, View(), root).ip.size) / BSIZE + 1) * BSIZE
      ensures FsOk(sb, img, owner) <==> old(FromDisk(sb, View(), root).ip.size) % BSIZE != 0
    {
      hide Owned, FirstBits, PutInode, InodeIn, FileOk, OnlyFile, FsOk, Leading, Stored;
      var x := sb.Iblock(root);
      MapBlockNumber(sb, img, freeblock);
      Wsect(sb, img, freeblock, x, ZeroBlock());
      var din := InodeIn(img[x], root);
      Rounded(sb, View(), owner, root);
      din := din.(size := (din.size / BSIZE + 1) * BSIZE);
      Wsect(sb, img, freeblock, x, PutInode(img[x], root, din));
      img := img[x := PutInode(img[x], root, din)];
      var buf := Balloc(freeblock);
      img := img[sb.bmapstart := buf];
    }

    /** Append data to a file; a failed assertion or a failed read ends mkfs. */
    method Iappend(inum: nat, data: seq<Byte>) returns (ok: bool)
      requires Valid() && inum < sb.ninodes && FromDisk(sb, View(), inum).ip.typ != 0 && |data| < WORD_LIMIT
      modifies this`img, this`freeblock, this`owner
      ensures ok ==> Valid() && Appended(sb, old(View()), View(), inum, data)
      ensures !ok ==> freeblock == sb.size || old(FromDisk(sb, View(), inum).ip.size) + |data| > MAXFILE * BSIZE
    {
      hide Owned, Written, HoleFree, FileBytes, FirstBits, FsOk, Step, Moved, PutInode, InodeIn, Stored;
      var x := sb.Iblock(inum);
      ghost var d0, owner0, h0 := View(), owner, FromDisk(sb, View(), inum);
      MapBlockNumber(sb, img, freeblock);
      Wsect(sb, img, freeblock, x, ZeroBlock());
      var din := InodeIn(img[x], inum);
      var off := din.size;
      ghost var bytes := AppendStart(sb, d0, owner0, inum);
      var tot := 0;
      ghost var turns := 0;
      assert data[..0] == [];
      NoneMoved(off, |data|);
      while tot < |data|
        invariant Ready() && tot <= |data| && Moved(off, |data|, tot, turns) && off == |bytes|
        invariant Written(sb, d0, View(), owner0, owner, h0, Held(inum, din), off, data[..tot], off, bytes)
        decreases |data| - tot
      {
        if (off + tot) / BSIZE >= MAXFILE {
          PastEnd(off + tot);
          return false;
        }
        StepsSpan(off, |data|, tot, turns);
        var m := Step(off, |data|, tot);
        BeforeEnd(off + tot, m);
        OverwriteMore(bytes, off, data, tot, m);
        ghost var d1, owner1, h1, sofar := View(), owner, Held(inum, din), Overwrite(bytes, off, data[..tot]);
        WrittenHolds(sb, d0, d1, owner0, owner, h0, h1, off, data[..tot], off, bytes);
        ok, din := AppendBlock(inum, din, off + tot, data[tot..tot + m], Max(off, off + tot), sofar);
        if !ok {
          return false;
        }
        WrittenTwice(sb, d0, d1, View(), owner0, owner1, owner, h0, h1, Held(inum, din), off, data, tot, m, off, bytes);
        tot, turns := tot + m, turns + 1;
      }
      assert data[..tot] == data;
      AppendEnd(sb, d0, View(), owner0, owner, h0, Held(inum, din), data, bytes);
      din := din.(size := off + tot);
      MapBlockNumber(sb, img, freeblock);
      Wsect(sb, img, freeblock, x, PutInode(img[x], inum, din));
      img := img[x := PutInode(img[x], inum, din)];
      return true;
    }
  }

  function ZeroDisk(n: nat): Disk { seq(n, _ => ZeroBlock()) }

  lemma ZeroInode(i: nat)
    ensures InodeIn(ZeroBlock(), i) == DInode(0, 0, 0, 0, 0, seq(NDIRECT + 1, _ => 0))
  {
    hide WordAt;
    var base := i % IPB * 16;
    forall j | 0 <= j < 16
      ensures GetWords(ZeroBlock(), base, 16)[j] == 0
    {
      WordOfZero(base + j);
    }
    assert GetWords(ZeroBlock(), base, 16)[3..] == seq(NDIRECT + 1, _ => 0);
  }

  /** An image without inodes. */
  lemma BlankImage(sb: Super, img: Disk)
    requires sb.Valid() && 0 < sb.ninodes && sb.size < BPB && 2 <= sb.inodestart && |img| == sb.size
    requires forall b :: 0 <= b < sb.size && b != 1 ==> img[b] == ZeroBlock()
    ensures Blank(sb, img, sb.datastart) && sb.bmapstart < |img|
    ensures FsOk(sb, WithMap(sb, img, sb.datastart), map[])
    ensures forall i :: 0 <= i < sb.ninodes ==> FromDisk(sb, WithMap(sb, img, sb.datastart), i).ip.typ == 0
  {
    hide BitOf, InodeIn, HoleFree;
    MapBlockNumber(sb, img, sb.datastart);
    var d := WithMap(sb, img, sb.datastart);
    forall i | 0 <= i < sb.ninodes
      ensures FromDisk(sb, d, i).ip == DInode(0, 0, 0, 0, 0, seq(NDIRECT + 1, _ => 0)) && FileOk(d, FromDisk(sb, d, i).ip)
    {
      Regions(sb, 0, i);
      ZeroInode(i);
      EmptyFile(d, FromDisk(sb, d, i).ip);
    }
    BlankOwned(sb, img);
  }

  lemma BlankOwned(sb: Super, img: Disk)
    requires Blank(sb, img, sb.datastart) && sb.bmapstart < |img|
    requires forall i :: 0 <= i < sb.ninodes ==> NoBlocks(FromDisk(sb, WithMap(sb, img, sb.datastart), i).ip)
    ensures Owned(sb, WithMap(sb, img, sb.datastart), FromDisk(sb, WithMap(sb, img, sb.datastart), 0), map[], {})
  {
    hide BitOf, InodeIn, FirstBits;
    var d := WithMap(sb, img, sb.datastart);
    forall b | 0 <= b < sb.size
      ensures Bit(sb, d, b) <==> b < sb.datastart
    {
      FirstMapBlock(sb, b);
      assert BitOf(FirstBits(sb.datastart), b) <==> b < sb.datastart;
    }
    var h := FromDisk(sb, d, 0);
    forall i, k | 0 <= i < sb.ninodes && 0 <= k < SLOTS
      ensures Addr(sb, d, h, i, k) == 0
    {
      assert InodeAt(sb, d, h, i) == FromDisk(sb, d, i).ip;
    }
  }

  /** The file's blocks hold these bytes, whatever size its inode states. */
  predicate Leading(sb: Super, d: Disk, inum: nat, bytes: Option<seq<Byte>>)
    requires Sized(sb, d) && inum < sb.ninodes
  {
    bytes.Some? && |bytes.value| <= MAXFILE * BSIZE && FileBytes(d, FromDisk(sb, d, inum).ip, |bytes.value|) == bytes.value
  }

  /** The root directory with its size rounded up. */
  lemma Rounded(sb: Super, d: Disk, owner: Owners, root: nat)
    requires FsOk(sb, d, owner) && root < sb.ninodes && FromDisk(sb, d, root).ip.typ != 0
    ensures sb.Iblock(root) < |d| && FromDisk(sb, d, root).ip.size <= MAXFILE * BSIZE
    ensures var ip := FromDisk(sb, d, root).ip;
            var d' := WithInode(sb, d, root, ip.(size := (ip.size / BSIZE + 1) * BSIZE));
            && Sized(sb, d') && Owned(sb, d', FromDisk(sb, d', 0), owner, {}) && OnlyFile(sb, d, d', root)
            && Leading(sb, d', root, Stored(sb, d, root)) && SameKind(FromDisk(sb, d', root).ip, ip)
            && FromDisk(sb, d', root).ip.size == (ip.size / BSIZE + 1) * BSIZE
            && (FsOk(sb, d', owner) <==> ip.size % BSIZE != 0)
  {
    hide Owned, InodeIn, PutInode, HoleFree, FileBytes, OthersKept, Stored;
    AnyInode(sb, d, owner, root);
    Regions(sb, 0, root);
    var h := FromDisk(sb, d, root);
    SizeBound(d, h.ip);
    var bytes := FileBytes(d, h.ip, h.ip.size);
    var h2 := h.(ip := h.ip.(size := (h.ip.size / BSIZE + 1) * BSIZE));
    SameAddrs(sb, d, h, h2, owner, h.ip.size, bytes);
    UpdateSummary(sb, d, h2, owner);
    var d' := WithInode(sb, d, root, h2.ip);
    UpdateKeeps(sb, d, d', h2, owner, h.ip.size, bytes);
    HandOver(sb, d', h2, owner, 0);
    RoundedHole(d', h2.ip, h.ip.size);
    forall j | 0 <= j < sb.ninodes && j != root
      ensures FromDisk(sb, d', j) == FromDisk(sb, d, j) && FileOk(d', FromDisk(sb, d', j).ip)
      ensures Stored(sb, d', j) == Stored(sb, d, j)
    {
      OtherFile(sb, d, d', h, h2, owner, owner, j);
    }
    assert FromDisk(sb, d', root).ip == h2.ip;
    assert Stored(sb, d, root) == Some(bytes) by { StoredBytes(sb, d, root); }
  }

  lemma StoredBytes(sb: Super, d: Disk, inum: nat)
    requires Sized(sb, d) && inum < sb.ninodes && FromDisk(sb, d, inum).ip.size <= MAXFILE * BSIZE
    ensures var ip := FromDisk(sb, d, inum).ip; Stored(sb, d, inum) == Some(FileBytes(d, ip, ip.size))
  {
    hide InodeIn, FileBytes;
  }

  lemma RoundedHole(d: Disk, ip: DInode, size: nat)
    requires ip.Valid() && HoleFree(d, ip, size)
    ensures HoleFree(d, ip, (size / BSIZE + 1) * BSIZE) <==> size % BSIZE != 0
  {
    LengthBound(d, ip, size);
    if size < MAXFILE * BSIZE {
      MkfsRootHole(d, ip, size);
    } else {
      Quotient(size, MAXFILE, 0);
    }
  }

  /** File inum is longer by data, and no other file changed. */
  predicate Appended(sb: Super, d: Disk, d': Disk, inum: nat, data: seq<Byte>) {
    && OnlyFile(sb, d, d', inum) && inum < sb.ninodes
    && SameKind(FromDisk(sb, d', inum).ip, FromDisk(sb, d, inum).ip)
    && Stored(sb, d, inum).Some? && Stored(sb, d', inum) == Some(Stored(sb, d, inum).value + data)
  }

  /** winode */
  function WithInode(sb: Super, d: Disk, i: nat, ip: DInode): Disk
    requires sb.Iblock(i) < |d| && ip.Valid()
  {
    d[sb.Iblock(i) := PutInode(d[sb.Iblock(i)], i, ip)]
  }

  lemma PastEnd(o: nat)
    requires o / BSIZE >= MAXFILE
    ensures o >= MAXFILE * BSIZE
  {
    assert o == BSIZE * (o / BSIZE) + o % BSIZE;
  }

  lemma BeforeEnd(o: nat, m: nat)
    requires o / BSIZE < MAXFILE && o % BSIZE + m <= BSIZE
    ensures o + m <= MAXFILE * BSIZE
  {
    assert o == BSIZE * (o / BSIZE) + o % BSIZE;
  }

  /** The file before the append. */
  lemma AppendStart(sb: Super, d: Disk, owner: Owners, inum: nat) returns (bytes: seq<Byte>)
    requires FsOk(sb, d, owner) && inum < sb.ninodes
    ensures var h := FromDisk(sb, d, inum);
            && |bytes| == h.ip.size && Stored(sb, d, inum) == Some(bytes)
            && Written(sb, d, d, owner, owner, h, h, |bytes|, [], |bytes|, bytes)
  {
    hide Owned, InodeIn, HoleFree;
    AnyInode(sb, d, owner, inum);
    Regions(sb, 0, inum);
    var h := FromDisk(sb, d, inum);
    SizeBound(d, h.ip);
    bytes := FileBytes(d, h.ip, h.ip.size);
    WrittenNothing(sb, d, owner, h, |bytes|, |bytes|, bytes);
  }

  /** The file after winode has recorded its new size. */
  lemma AppendEnd(sb: Super, d: Disk, d1: Disk, owner: Owners, owner1: Owners, h: Held, h1: Held, data: seq<Byte>,
                  bytes: seq<Byte>)
    requires FsOk(sb, d, owner) && h.inum < sb.ninodes && h == FromDisk(sb, d, h.inum) && h.ip.typ != 0
    requires Written(sb, d, d1, owner, owner1, h, h1, |bytes|, data, |bytes|, bytes)
    requires Stored(sb, d, h.inum) == Some(bytes)
    ensures h1.ip.Valid() && sb.Iblock(h.inum) < |d1| && |bytes| + |data| <= MAXFILE * BSIZE
    ensures var d2 := WithInode(sb, d1, h.inum, h1.ip.(size := |bytes| + |data|));
            FsOk(sb, d2, owner1) && Appended(sb, d, d2, h.inum, data)
  {
    hide Owned, InodeIn, PutInode, HoleFree, FileBytes, OthersKept, FsOk, OnlyFile;
    var len := |bytes| + |data|;
    WrittenHolds(sb, d, d1, owner, owner1, h, h1, |bytes|, data, |bytes|, bytes);
    OwnedShape(sb, d1, h1, owner1, {});
    LengthBound(d1, h1.ip, len);
    var h2 := h1.(ip := h1.ip.(size := len));
    assert Overwrite(bytes, |bytes|, data) == bytes + data;
    SameAddrs(sb, d1, h1, h2, owner1, len, bytes + data);
    UpdateSummary(sb, d1, h2, owner1);
    var d2 := WithInode(sb, d1, h.inum, h2.ip);
    GrowFile(sb, d, d1, d2, h2, owner, owner1, len, bytes + data);
    AfterOp(sb, d, d2, owner, owner1, h2);
    assert OnDisk(sb, d2, h.inum) == h2.ip;
    assert Stored(sb, d2, h.inum) == Some(FileBytes(d2, h2.ip, len));
  }

  lemma LengthBound(d: Disk, ip: DInode, len: nat)
    requires ip.Valid() && HoleFree(d, ip, len)
    ensures len <= MAXFILE * BSIZE
  {
  }

  lemma AlreadyThere(sb: Super, d: Disk, h: Held, owner: Owners, bn: nat, a: nat)
    requires Owned(sb, d, h, owner, {}) && bn < MAXFILE && h.ip.Valid() && a == FileBlock(d, h.ip, bn) != 0
    ensures Mapped(sb, d, d, owner, owner, h, h, bn, a)
  {
    hide Owned, Mapped, SlotOf;
    MappedAlready(sb, d, h, owner, bn);
  }

  lemma MapsTo(sb: Super, d: Disk, d': Disk, owner: Owners, owner': Owners, h: Held, h': Held, bn: nat, a: nat)
    requires h.ip.Valid() && h'.ip.Valid() && bn < MAXFILE && Mapped(sb, d, d', owner, owner', h, h', bn, a)
    ensures a in owner' && a < |d| == |d'|
  {
  }

  /** The first start from such an image: the log is empty and shows the image as it is. */
  lemma FirstBoot(sb: Super, c: LogMachine.Config, img: Disk)
    requires Placed(sb, c) && 2 <= c.start && |img| == sb.size && LogBlank(sb, img)
    ensures var s := LogMachine.State(img, map[], [], map[], map[], {}, LogMachine.Running, false, false);
            LogRuns.Init(c, s) && Quiet(c, s) && LogMachine.Current(c, s) == img
  {
    var s := LogMachine.State(img, map[], [], map[], map[], {}, LogMachine.Running, false, false);
    WordOfZero(0);
    assert LogRuns.Init(c, s);
    LogRuns.InitInv(c, s);
    assert LogMachine.Current(c, s) == img;
  }

  // ---------------------------------------------------------------- the whole program

  const T_DIR: Half := 1
  const T_FILE: Half := 2
  const DIRENT: nat := 16

  /** An inode of that type with one link and no device. */
  predicate OneLink(ip: DInode, typ: Half) { ip.typ == typ && ip.nlink == 1 && ip.major == 0 && ip.minor == 0 }

  datatype NewFile = NewFile(name: seq<Byte>, data: seq<Byte>)

  /** struct dirent: two bytes of inode number, fourteen of name. */
  function Dirent(inum: nat, name: seq<Byte>): (e: seq<Byte>)
    ensures |e| == DIRENT
  {
    [inum % 256, inum / 256 % 256] + (if |name| >= 14 then name[..14] else name + seq(14 - |name|, _ => 0))
  }

  /** An entry as dirlookup reads it: a little-endian inode number, and a name up to its NUL. */
  function Decode(e: seq<Byte>): Directory.Dirent
    requires |e| == DIRENT
  {
    var low: nat, high: nat := e[0], e[1];
    Directory.Dirent(low + 256 * high, Directory.NameOf(Chars(e[2..])))
  }

  function Chars(s: seq<Byte>): (r: string)
    ensures |r| == |s| && forall i :: 0 <= i < |s| ==> r[i] == s[i] as char
  {
    seq(|s|, i requires 0 <= i < |s| => s[i] as char)
  }

  /** What mkfs writes is read as that inode and that name, cut to fourteen characters. */
  lemma DirentDecodes(inum: nat, name: seq<Byte>)
    requires inum < 65536
    ensures Decode(Dirent(inum, name)) == Directory.Dirent(inum, Directory.Cut(Directory.NameOf(Chars(name))))
  {
    var e := Dirent(inum, name);
    var n := Directory.NameOf(Chars(name));
    var field := Chars(e[2..]);
    assert |field| == Directory.DIRSIZ;
    assert forall i :: 0 <= i < Directory.DIRSIZ ==> field[i] == if i < |name| then Chars(name)[i] else '\0';
    var cut := Directory.Cut(n);
    assert field[..|cut|] == cut;
    Directory.Held(field, |cut|);
  }

  /** The entries of the root directory: itself twice, then each file under its name. */
  predicate Names(s: seq<Byte>, files: seq<NewFile>) {
    && |s| == DIRENT * (|files| + 2)
    && EntryAt(s, 0) == Directory.Dirent(1, ".") && EntryAt(s, 1) == Directory.Dirent(1, "..")
    && forall k :: 0 <= k < |files| ==> EntryAt(s, k + 2) == Directory.Dirent(k + 2, Directory.Cut(Directory.NameOf(Chars(files[k].name))))
  }

  function EntryAt(s: seq<Byte>, k: nat): Directory.Dirent
    requires DIRENT * (k + 1) <= |s|
  {
    Decode(s[DIRENT * k..DIRENT * (k + 1)])
  }

  lemma EntryAtEnd(s: seq<Byte>, e: seq<Byte>, k: nat)
    requires |s| == DIRENT * k && |e| == DIRENT
    ensures EntryAt(s + e, k) == Decode(e) && forall j :: 0 <= j < k ==> EntryAt(s + e, j) == EntryAt(s, j)
  {
    assert (s + e)[DIRENT * k..DIRENT * (k + 1)] == e;
    forall j | 0 <= j < k
      ensures EntryAt(s + e, j) == EntryAt(s, j)
    {
      assert DIRENT * (j + 1) <= DIRENT * k;
      assert (s + e)[DIRENT * j..DIRENT * (j + 1)] == s[DIRENT * j..DIRENT * (j + 1)];
    }
  }

  lemma {:induction false} ListingNames(files: seq<NewFile>)
    requires |files| + 2 <= 65536
    ensures Names(Listing(files), files)
  {
    hide Decode, Dirent, EntryAt, Chars, Directory.Cut, Directory.NameOf;
    if files == [] {
      DotEntries();
    } else {
      var n := |files| - 1;
      ListingNames(files[..n]);
      DirentDecodes(n + 2, files[n].name);
      OneMoreName(Listing(files[..n]), files, n, Dirent(n + 2, files[n].name));
    }
  }

  lemma OneMoreName(s: seq<Byte>, files: seq<NewFile>, n: nat, e: seq<Byte>)
    requires |files| == n + 1 && Names(s, files[..n]) && |e| == DIRENT
    requires Decode(e) == Directory.Dirent(n + 2, Directory.Cut(Directory.NameOf(Chars(files[n].name))))
    ensures Names(s + e, files)
  {
    hide Decode, EntryAt, Chars, Directory.Cut, Directory.NameOf;
    EntryAtEnd(s, e, n + 2);
    forall k | 0 <= k < |files|
      ensures EntryAt(s + e, k + 2) == Directory.Dirent(k + 2, Directory.Cut(Directory.NameOf(Chars(files[k].name))))
    {
      if k < n {
        assert files[..n][k] == files[k];
        assert EntryAt(s + e, k + 2) == EntryAt(s, k + 2);
      }
    }
    assert EntryAt(s + e, 0) == EntryAt(s, 0) && EntryAt(s + e, 1) == EntryAt(s, 1);
  }

  lemma DotEntries()
    ensures |Listing([])| == 2 * DIRENT
    ensures EntryAt(Listing([]), 0) == Directory.Dirent(1, ".") && EntryAt(Listing([]), 1) == Directory.Dirent(1, "..")
  {
    hide Decode, Dirent, EntryAt, Chars;
    var dot, dots := ['.' as int], ['.' as int, '.' as int];
    DotNames();
    DirentDecodes(1, dot);
    DirentDecodes(1, dots);
    EntryAtEnd(Dirent(1, dot), Dirent(1, dots), 1);
    EntryAtEnd([], Dirent(1, dot), 0);
    assert [] + Dirent(1, dot) == Dirent(1, dot);
  }

  lemma DotNames()
    ensures Directory.NameOf(Chars(['.' as int])) == "." && Directory.NameOf(Chars(['.' as int, '.' as int])) == ".."
  {
    Directory.Held(Chars(['.' as int]), 1);
    Directory.Held(Chars(['.' as int, '.' as int]), 2);
  }

  /** The inodes of a disk with one free-map block have 16-bit numbers. */
  lemma FewInodes(sb: Super)
    requires sb.Valid() && sb.size < BPB
    ensures sb.ninodes < 65536
  {
  }

  lemma AppendedNothing(sb: Super, d: Disk, inum: nat)
    requires Sized(sb, d) && inum < sb.ninodes && Stored(sb, d, inum).Some?
    ensures Appended(sb, d, d, inum, [])
  {
    hide Stored, InodeIn;
    assert Stored(sb, d, inum).value + [] == Stored(sb, d, inum).value;
  }

  lemma AppendedAt(sb: Super, d: Disk, d': Disk, inum: nat, data: seq<Byte>)
    requires Appended(sb, d, d', inum, data)
    ensures Sized(sb, d) && Sized(sb, d') && inum < sb.ninodes
    ensures SameKind(FromDisk(sb, d', inum).ip, FromDisk(sb, d, inum).ip)
    ensures Stored(sb, d, inum).Some? && Stored(sb, d', inum) == Some(Stored(sb, d, inum).value + data)
  {
    hide Stored, InodeIn;
  }

  lemma AppendedTwice(sb: Super, d: Disk, d1: Disk, d2: Disk, inum: nat, xs: seq<Byte>, ys: seq<Byte>)
    requires Appended(sb, d, d1, inum, xs) && Appended(sb, d1, d2, inum, ys)
    ensures Appended(sb, d, d2, inum, xs + ys)
  {
    hide Stored, InodeIn;
    var s := Stored(sb, d, inum).value;
    assert s + xs + ys == s + (xs + ys);
  }

  predicate KeptBut(sb: Super, d: Disk, d': Disk, root: nat, inum: nat) {
    && Sized(sb, d) && Sized(sb, d')
    && forall j :: 0 <= j < sb.ninodes && j != root && j != inum ==>
         FromDisk(sb, d', j) == FromDisk(sb, d, j) && Stored(sb, d', j) == Stored(sb, d, j)
  }

  /** The first n files have their contents, in inodes from 2 on. */
  predicate FilesThere(sb: Super, d: Disk, files: seq<NewFile>, n: nat) {
    && n <= |files| && n + 2 <= sb.ninodes && Sized(sb, d)
    && forall k :: 0 <= k < n ==> Stored(sb, d, k + 2) == Some(files[k].data) && OneLink(FromDisk(sb, d, k + 2).ip, T_FILE)
  }

  lemma OneMoreFile(sb: Super, d: Disk, d': Disk, files: seq<NewFile>, n: nat)
    requires FilesThere(sb, d, files, n) && n < |files| && n + 2 < sb.ninodes && KeptBut(sb, d, d', 1, n + 2)
    requires Stored(sb, d', n + 2) == Some(files[n].data) && OneLink(FromDisk(sb, d', n + 2).ip, T_FILE)
    ensures FilesThere(sb, d', files, n + 1)
  {
    hide Stored, InodeIn, OneLink;
    forall k | 0 <= k < n + 1
      ensures Stored(sb, d', k + 2) == Some(files[k].data) && OneLink(FromDisk(sb, d', k + 2).ip, T_FILE)
    {
      if k < n {
        assert Stored(sb, d, k + 2) == Some(files[k].data);
        assert Stored(sb, d', k + 2) == Stored(sb, d, k + 2);
      }
    }
  }

  /** A new inode, its name in the root directory, and its contents. */
  lemma FileAdded(sb: Super, d: Disk, d1: Disk, d2: Disk, d3: Disk, root: nat, inum: nat, e: seq<Byte>, data: seq<Byte>)
    requires OnlyFile(sb, d, d1, inum) && root < sb.ninodes && root != inum && Stored(sb, d1, inum) == Some([])
    requires Appended(sb, d1, d2, root, e) && Appended(sb, d2, d3, inum, data)
    ensures SameKind(FromDisk(sb, d3, root).ip, FromDisk(sb, d, root).ip)
    ensures SameKind(FromDisk(sb, d3, inum).ip, FromDisk(sb, d1, inum).ip)
    ensures Stored(sb, d, root).Some? && Stored(sb, d3, root) == Some(Stored(sb, d, root).value + e)
    ensures Stored(sb, d3, inum) == Some(data)
    ensures KeptBut(sb, d, d3, root, inum)
  {
    hide Stored, InodeIn;
    assert [] + data == data;
  }

  lemma RootKept(sb: Super, d: Disk, d1: Disk, inum: nat, root: nat)
    requires OnlyFile(sb, d, d1, inum) && root < sb.ninodes && root != inum
    ensures FromDisk(sb, d1, root) == FromDisk(sb, d, root)
  {
  }

  lemma NewKept(sb: Super, d: Disk, d1: Disk, root: nat, e: seq<Byte>, inum: nat)
    requires Appended(sb, d, d1, root, e) && inum < sb.ninodes && root != inum
    ensures FromDisk(sb, d1, inum) == FromDisk(sb, d, inum) && Stored(sb, d1, inum) == Stored(sb, d, inum)
  {
  }

  lemma SizeOf(sb: Super, d: Disk, inum: nat, bytes: seq<Byte>)
    requires Sized(sb, d) && inum < sb.ninodes && Stored(sb, d, inum) == Some(bytes)
    ensures FromDisk(sb, d, inum).ip.size == |bytes|
  {
    hide FileBytes, InodeIn;
  }

  /** The file's contents are appended in pieces of at most one block. */
  method CopyIn(b: Builder, inum: nat, data: seq<Byte>) returns (ok: bool)
    requires b.Valid() && inum < b.sb.ninodes && FromDisk(b.sb, b.View(), inum).ip.typ != 0
    requires Stored(b.sb, b.View(), inum) == Some([])
    modifies b`img, b`freeblock, b`owner
    ensures ok ==> b.Valid() && Appended(b.sb, old(b.View()), b.View(), inum, data)
    ensures !ok ==> b.freeblock == b.sb.size || |data| > MAXFILE * BSIZE
  {
    hide FsOk, Stored, WithMap, FirstBits, Blank, Appended;
    var o := 0;
    assert data[..0] == [];
    AppendedNothing(b.sb, b.View(), inum);
    while o < |data|
      invariant o <= |data| && b.Valid() && Appended(b.sb, old(b.View()), b.View(), inum, data[..o])
      decreases |data| - o
    {
      var cc := if |data| - o < BSIZE then |data| - o else BSIZE;
      ghost var d1 := b.View();
      AppendedAt(b.sb, old(b.View()), d1, inum, data[..o]);
      assert [] + data[..o] == data[..o];
      SizeOf(b.sb, d1, inum, data[..o]);
      ok := b.Iappend(inum, data[o..o + cc]);
      if !ok {
        return false;
      }
      assert data[..o] + data[o..o + cc] == data[..o + cc];
      AppendedTwice(b.sb, old(b.View()), d1, b.View(), inum, data[..o], data[o..o + cc]);
      o := o + cc;
    }
    assert data[..o] == data;
    return true;
  }

  /** One file of the argument list: an inode, a name in the root directory, the contents. */
  method AddFile(b: Builder, root: nat, f: NewFile) returns (ok: bool)
    requires b.Valid() && root < b.freeinode < b.sb.ninodes && FromDisk(b.sb, b.View(), root).ip.typ != 0
    requires Stored(b.sb, b.View(), root).Some?
    modifies b`img, b`freeblock, b`freeinode, b`owner
    ensures ok ==>
      && b.Valid() && b.freeinode == old(b.freeinode) + 1 && KeptBut(b.sb, old(b.View()), b.View(), root, old(b.freeinode))
      && SameKind(FromDisk(b.sb, b.View(), root).ip, old(FromDisk(b.sb, b.View(), root).ip))
      && OneLink(FromDisk(b.sb, b.View(), old(b.freeinode)).ip, T_FILE)
      && Stored(b.sb, b.View(), root) == Some(old(Stored(b.sb, b.View(), root)).value + Dirent(old(b.freeinode), f.name))
      && Stored(b.sb, b.View(), old(b.freeinode)) == Some(f.data)
    ensures !ok ==> b.freeblock == b.sb.size || |f.data| > MAXFILE * BSIZE
                    || |old(Stored(b.sb, b.View(), root)).value| + DIRENT > MAXFILE * BSIZE
  {
    hide FsOk, Stored, WithMap, FirstBits, Blank, Dirent, Appended, OnlyFile;
    ghost var d0 := b.View();
    var inum := b.Ialloc(T_FILE);
    ghost var d1 := b.View();
    RootKept(b.sb, d0, d1, inum, root);
    SizeOf(b.sb, d0, root, Stored(b.sb, d0, root).value);
    ok := b.Iappend(root, Dirent(inum, f.name));
    if !ok {
      return false;
    }
    ghost var d2 := b.View();
    NewKept(b.sb, d1, d2, root, Dirent(inum, f.name), inum);
    ok := CopyIn(b, inum, f.data);
    if ok {
      FileAdded(b.sb, d0, d1, d2, b.View(), root, inum, Dirent(inum, f.name), f.data);
    }
  }

  lemma FilesKept(sb: Super, d: Disk, d': Disk, files: seq<NewFile>)
    requires OnlyFile(sb, d, d', 1) && FilesThere(sb, d, files, |files|)
    ensures FilesThere(sb, d', files, |files|)
  {
    hide Stored, InodeIn, OneLink;
    forall k | 0 <= k < |files|
      ensures Stored(sb, d', k + 2) == Some(files[k].data) && OneLink(FromDisk(sb, d', k + 2).ip, T_FILE)
    {
      assert Stored(sb, d, k + 2) == Some(files[k].data);
      assert Stored(sb, d', k + 2) == Stored(sb, d, k + 2);
    }
  }

  lemma RootSize(sb: Super, d: Disk, root: nat, k: nat)
    requires Sized(sb, d) && root < sb.ninodes && Stored(sb, d, root).Some? && |Stored(sb, d, root).value| == DIRENT * k
    ensures FromDisk(sb, d, root).ip.size == DIRENT * k
    ensures FromDisk(sb, d, root).ip.size % BSIZE != 0 <==> k % 32 != 0
  {
    hide FileBytes, InodeIn;
    assert k == 32 * (k / 32) + k % 32;
    Quotient(DIRENT * k, k / 32, DIRENT * (k % 32));
  }

  /** The root directory: itself under both dots, and the files in order. */
  function Listing(files: seq<NewFile>): (s: seq<Byte>)
    ensures |s| == DIRENT * (|files| + 2)
  {
    if files == [] then Dirent(1, ['.' as int]) + Dirent(1, ['.' as int, '.' as int]) else
    Listing(files[..|files| - 1]) + Dirent(|files| + 1, files[|files| - 1].name)
  }

  lemma NoFiles(sb: Super, files: seq<NewFile>)
    requires 2 <= sb.ninodes
    ensures forall d :: Sized(sb, d) ==> FilesThere(sb, d, files, 0)
  {
  }

  /** A file, or the root directory, does not fit a file. */
  predicate TooLong(files: seq<NewFile>) {
    DIRENT * (|files| + 2) > MAXFILE * BSIZE || exists k :: 0 <= k < |files| && |files[k].data| > MAXFILE * BSIZE
  }

  /** The root directory with its two dots. */
  method AddRoot(b: Builder) returns (ok: bool)
    requires b.Valid() && b.freeinode == 1 < b.sb.ninodes
    modifies b`img, b`freeblock, b`freeinode, b`owner
    ensures ok ==>
      && b.Valid() && b.freeinode == 2 && OneLink(FromDisk(b.sb, b.View(), 1).ip, T_DIR)
      && Stored(b.sb, b.View(), 1) == Some(Listing([]))
    ensures !ok ==> b.freeblock == b.sb.size
  {
    hide FsOk, Owned, Stored, WithMap, FirstBits, Blank, Dirent, Appended, OnlyFile;
    var root := b.Ialloc(T_DIR);
    var dot, dots := Dirent(root, ['.' as int]), Dirent(root, ['.' as int, '.' as int]);
    ghost var d0 := b.View();
    SizeOf(b.sb, d0, root, []);
    ok := b.Iappend(root, dot);
    if !ok {
      return;
    }
    ghost var d1 := b.View();
    AppendedAt(b.sb, d0, d1, root, dot);
    assert [] + dot == dot;
    SizeOf(b.sb, d1, root, dot);
    ok := b.Iappend(root, dots);
    if ok {
      AppendedAt(b.sb, d1, b.View(), root, dots);
    }
  }

  /**
   mkfs run on a list of files.  If it succeeds, every file is on the disk with its contents
   and named in the root directory, every block is accounted for, and the disk is in order
   exactly when the root directory, with its two dots, does not fill its blocks.  It fails only
   if the disk is full or something is too long for a file.
   */
  method MakeFs(sb: Super, super: Block, files: seq<NewFile>) returns (b: Builder, ok: bool)
    requires sb.Valid() && sb.size < BPB && 2 <= sb.inodestart && |files| + 2 <= sb.ninodes
    ensures fresh(b) && b.sb == sb
    ensures ok ==> Sized(sb, b.img) && Owned(sb, b.img, FromDisk(sb, b.img, 0), b.owner, {})
    ensures ok ==> LogBlank(sb, b.img) && FilesThere(sb, b.img, files, |files|)
    ensures ok ==> OneLink(FromDisk(sb, b.img, 1).ip, T_DIR)
    ensures ok ==> Leading(sb, b.img, 1, Some(Listing(files))) && Names(Listing(files), files)
    ensures ok ==> (FsOk(sb, b.img, b.owner) <==> (|files| + 2) % 32 != 0)
    ensures !ok ==> b.freeblock == sb.size || TooLong(files)
  {
    hide FsOk, Owned, Stored, WithMap, FirstBits, Blank, Appended, OnlyFile, Leading, Names, FilesThere, KeptBut, InodeIn;
    NoFiles(sb, files);
    b := new Builder(sb, super);
    ok := AddRoot(b);
    if !ok {
      return;
    }
    var root := 1;
    var i := 0;
    while i < |files|
      invariant i <= |files| && b.Valid() && b.freeinode == i + 2 && b.sb == sb && fresh(b)
      invariant OneLink(FromDisk(sb, b.View(), root).ip, T_DIR)
      invariant Stored(sb, b.View(), root) == Some(Listing(files[..i]))
      invariant FilesThere(sb, b.View(), files, i)
    {
      ghost var d1 := b.View();
      ok := AddFile(b, root, files[i]);
      if !ok {
        return;
      }
      OneMoreFile(sb, d1, b.View(), files, i);
      assert files[..i + 1][..i] == files[..i];
      i := i + 1;
    }
    assert files[..i] == files;
    FewInodes(sb);
    ListingNames(files);
    RootSize(sb, b.View(), root, |files| + 2);
    ghost var d2 := b.View();
    b.Finish(root);
    FilesKept(sb, d2, b.img, files);
    return b, true;
  }
}
