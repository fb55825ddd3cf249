/**
 The block and file layers of fs.c: balloc, bfree, bmap, itrunc, iupdate, readi and writei.
 They run on the blocks as the log presents them (LogMachine.Current): `d` is what bread
 returns.  `logged` are the blocks in log.lh, and log_write panics when there is no room for
 one more.  The ghost `writes` are the changes made since begin_op, when the disk was `base`.
 */
module Files {
  import opened Common
  import opened Blocks
  import opened Layout
  import opened Ownership
  import opened FileSpec
  import opened Transaction
  import LogMachine

  /** The result of readi and writei; Failed is their -1. */
  datatype IoResult<+T> = Panicked | Failed | Done(value: T)

  class Inode {
    const inum: nat
    var typ: Half
    var major: Half
    var minor: Half
    var nlink: Half
    var size: Word
    var addrs: seq<Word>

    /** ilock reads the inode from its block. */
    constructor (inum: nat, ip: DInode)
      ensures this.inum == inum && Value() == ip
    {
      this.inum := inum;
      typ, major, minor, nlink, size, addrs := ip.typ, ip.major, ip.minor, ip.nlink, ip.size, ip.addrs;
    }

    ghost function Value(): DInode
      reads this
    {
      DInode(typ, major, minor, nlink, size, addrs)
    }

    /** The block of the indirect table, if there is one. */
    ghost function Table(): (t: set<nat>)
      reads this
      requires |addrs| == NDIRECT + 1
      ensures |t| <= 1
    {
      if addrs[NDIRECT] == 0 then {} else {addrs[NDIRECT] as nat}
    }

    ghost function AsHeld(): Held
      reads this
    {
      Held(inum, Value())
    }
  }

  /** The log lies in front of the inodes, on the same disk. */
  predicate Placed(sb: Super, c: LogMachine.Config) {
    c.Valid() && c.blocks == sb.size && c.start + c.size <= sb.inodestart
  }

  class FileSystem {
    const sb: Super
    const c: LogMachine.Config
    var d: Disk
    var logged: set<nat>
    ghost var owner: Owners
    ghost var pending: set<nat>
    ghost var base: Disk
    ghost var writes: seq<Write>

    /** The operation so far, as the log sees it. */
    ghost predicate InOp()
      reads this
    {
      Placed(sb, c) && Ran(c, base, writes, d, logged)
    }

    /** log_write found the log full, after no more than the free map and `extra` were logged. */
    ghost predicate LogFull(before: set<nat>, extra: set<nat>)
      reads this
    {
      c.Valid() && |logged| >= c.Capacity() && logged <= before + BitmapBlocks(sb) + extra
    }

    /** Why the kernel panicked. */
    ghost predicate Refused(before: set<nat>, extra: set<nat>)
      reads this
    {
      Full(sb, d) || LogFull(before, extra)
    }

    /** begin_op by the only process: the log is empty. */
    method BeginOp()
      requires Placed(sb, c) && |d| == sb.size
      modifies this`logged, this`base, this`writes
      ensures InOp() && base == d && writes == [] && logged == {}
    {
      RanNothing(c, d);
      logged, base, writes := {}, d, [];
    }

    /** bread, change the data, log_write, brelse; false is log_write's panic. */
    method LogWrite(x: nat, v: Block) returns (ok: bool)
      requires InOp() && sb.inodestart <= x < |d|
      modifies this`d, this`logged, this`writes
      ensures InOp() && ok == (|old(logged)| < c.Capacity())
      ensures ok ==> d == old(d)[x := v] && logged == old(logged) + {x}
      ensures !ok ==> d == old(d) && logged == old(logged) && writes == old(writes)
    {
      hide RoomFor, Play;
      if |logged| >= LOGSIZE || |logged| >= c.size - 1 {
        return false;
      }
      RanMore(c, base, writes, d, logged, Write(x, v));
      d := d[x := v];
      logged := logged + {x};
      writes := writes + [Write(x, v)];
      return true;
    }

    /** The lowest clear bit of the free-map block of block b, if any below sb.size. */
    method FindInBlock(b: nat) returns (bi: nat)
      requires sb.Valid() && |d| == sb.size && b % BPB == 0 && b < sb.size
      ensures bi <= BPB && (bi < BPB && b + bi < sb.size ==> !Bit(sb, d, b + bi))
      ensures forall x :: b <= x < b + bi && x < sb.size ==> Bit(sb, d, x)
      ensures bi == BPB || b + bi <= sb.size
    {
      hide BitOf;
      Regions(sb, b, 0);
      var bp := d[sb.Bblock(b)];
      bi := 0;
      while bi < BPB && b + bi < sb.size
        invariant bi <= BPB && b + bi <= sb.size && forall x :: b <= x < b + bi ==> Bit(sb, d, x)
      {
        assert (b + bi) / BPB == b / BPB && (b + bi) % BPB == bi;
        if !BitOf(bp, bi) {
          return;
        }
        bi := bi + 1;
      }
    }

    /** balloc's scan of the free map: the lowest clear bit, None exactly when all are set. */
    method FindFree() returns (r: Option<Word>)
      requires sb.Valid() && |d| == sb.size
      ensures r.None? ==> forall b :: 0 <= b < sb.size ==> Bit(sb, d, b)
      ensures r.Some? ==> r.value < sb.size && !Bit(sb, d, r.value) && forall b :: 0 <= b < r.value ==> Bit(sb, d, b)
    {
      hide Bit;
      var b := 0;
      while b < sb.size
        invariant b % BPB == 0 && forall x :: 0 <= x < b && x < sb.size ==> Bit(sb, d, x)
      {
        var bi := FindInBlock(b);
        if bi < BPB && b + bi < sb.size {
          return Some(b + bi);
        }
        b := b + BPB;
      }
      return None;
    }

    /** A free block, marked used and zeroed; a panic exactly when there is none or the log is full. */
    method Balloc(ghost h: Held) returns (r: Option<Word>)
      requires InOp() && Owned(sb, d, h, owner, pending)
      modifies this`d, this`pending, this`logged, this`writes
      ensures InOp() && (r.None? ==> Refused(old(logged), {}))
      ensures r.Some? ==>
        && TookBlock(sb, old(d), d, h, owner, old(pending), r.value)
        && pending == old(pending) + {r.value} && logged == old(logged) + {sb.Bblock(r.value)} + {r.value}
    {
      hide Addr, Owned, Ran, Range;
      OwnedShape(sb, d, h, owner, pending);
      r := FindFree();
      if r.Some? {
        var ok := TakeBlock(h, r.value);
        if !ok { r := None; }
      }
    }

    method TakeBlock(ghost h: Held, b: nat) returns (ok: bool)
      requires InOp() && Owned(sb, d, h, owner, pending) && b < sb.size && !Bit(sb, d, b)
      modifies this`d, this`pending, this`logged, this`writes
      ensures InOp() && (!ok ==> LogFull(old(logged), {}))
      ensures ok ==> TookBlock(sb, old(d), d, h, owner, old(pending), b)
      ensures ok ==> pending == old(pending) + {b} && logged == old(logged) + {sb.Bblock(b)} + {b}
    {
      hide Owned, TookBlock, BitOf, Bit, Ran, Range, Super.Valid, Super.Bblock;
      OwnedShape(sb, d, h, owner, pending);
      TookOne(sb, d, h, owner, pending, b);
      DataAfterInodes(sb, sb.Bblock(b));
      var bp := d[sb.Bblock(b)];
      ok := LogWrite(sb.Bblock(b), SetBitOf(bp, b % BPB));
      if ok {
        pending := pending + {b};
        ok := LogWrite(b, ZeroBlock());
      }
    }

    ghost predicate Consistent(ip: Inode)
      reads this, ip
    {
      pending == {} && Owned(sb, d, ip.AsHeld(), owner, {})
    }

    /** A new block for slot k of the inode: a direct block or the indirect table. */
    method AllocAddr(ip: Inode, k: nat) returns (ok: bool)
      requires InOp() && Consistent(ip) && k <= NDIRECT && ip.addrs[k] == 0
      modifies this`d, this`pending, this`logged, this`writes, this`owner, ip`addrs
      ensures InOp() && (!ok ==> ip.addrs == old(ip.addrs) && Refused(old(logged), {}))
      ensures ok ==>
        && Consistent(ip)
        && ip.addrs == old(ip.addrs)[k := ip.addrs[k]] && ip.addrs[k] != 0
        && AddedDirect(sb, old(d), d, old(owner), owner, ip.inum, k, ip.addrs[k])
        && logged <= old(logged) + BitmapBlocks(sb) + {ip.addrs[k]}
    {
      hide Addr, Bit, Owned, TookBlock, AddedDirect, Full, Ran, Range;
      ghost var h := ip.AsHeld();
      OwnedShape(sb, d, h, owner, {});
      var b := Balloc(h);
      if b.None? {
        return false;
      }
      DirectAllocated(sb, old(d), d, h, owner, k, b.value);
      owner, pending := owner[b.value := (ip.inum, k)], {};
      ip.addrs := ip.addrs[k := b.value];
      assert ip.AsHeld() == WithAddr(h, k, b.value);
      return true;
    }

    /** A new block for word j of the indirect table, which is then logged. */
    method AllocIndirect(ip: Inode, j: nat) returns (r: Option<Word>, ghost x: nat)
      requires InOp() && Consistent(ip) && j < NINDIRECT
      requires 0 < ip.addrs[NDIRECT] < |d| && WordAt(d[ip.addrs[NDIRECT]], j) == 0
      modifies this`d, this`pending, this`logged, this`writes, this`owner
      ensures InOp() && (r.None? ==> Refused(old(logged), {x}))
      ensures r.Some? ==>
        && Consistent(ip)
        && AddedIndirect(sb, old(d), d, old(owner), owner, ip.AsHeld(), j, r.value)
        && logged <= old(logged) + BitmapBlocks(sb) + {r.value, ip.addrs[NDIRECT]}
    {
      hide Addr, Bit, Owned, WordAt, PutWord, TookBlock, AddedIndirect, Full, Ran, Range;
      ghost var h := ip.AsHeld();
      OwnedShape(sb, d, h, owner, {});
      TableOwned(sb, d, h, owner, j);
      r := Balloc(h);
      x := 0;
      if r.None? {
        return;
      }
      x := r.value;
      IndirectAllocated(sb, old(d), d, h, owner, j, r.value);
      var ok := LogWrite(ip.addrs[NDIRECT], PutWord(d[ip.addrs[NDIRECT]], j, r.value));
      if !ok {
        return None, x;
      }
      owner, pending := owner[r.value := (ip.inum, NDIRECT + 1 + j)], {};
    }

    /** bmap beyond the direct blocks: load the table, allocating it and the word as needed. */
    method BmapIndirect(ip: Inode, bn: nat) returns (r: Option<Word>, ghost x: nat)
      requires InOp() && Consistent(ip) && NDIRECT <= bn < MAXFILE
      modifies this`d, this`pending, this`logged, this`writes, this`owner, ip`addrs
      ensures InOp() && |ip.addrs| == NDIRECT + 1
      ensures old(ip.addrs[NDIRECT]) != 0 ==> ip.addrs[NDIRECT] == old(ip.addrs[NDIRECT])
      ensures r.Some? ==>
        && Consistent(ip)
        && Mapped(sb, old(d), d, old(owner), owner, old(ip.AsHeld()), ip.AsHeld(), bn, r.value)
        && logged <= old(logged) + BitmapBlocks(sb) + {r.value} + ip.Table()
      ensures old(FileBlock(d, ip.Value(), bn)) != 0 ==> r.Some? && logged == old(logged) && writes == old(writes)
      ensures r.None? ==> Refused(old(logged), {x} + ip.Table())
    {
      hide Addr, Bit, Owned, WordAt, PutWord, Mapped, AddedDirect, AddedIndirect, Full, Ran, Range;
      ghost var h := ip.AsHeld();
      OwnedShape(sb, d, h, owner, {});
      x := 0;
      if ip.addrs[NDIRECT] == 0 {
        var ok := AllocAddr(ip, NDIRECT);
        if !ok { return None, 0; }
      }
      SlotOwned(sb, d, ip.AsHeld(), owner, NDIRECT);
      var a := WordAt(d[ip.addrs[NDIRECT]], bn - NDIRECT);
      if a == 0 {
        ghost var d1, owner1, h1 := d, owner, ip.AsHeld();
        r, x := AllocIndirect(ip, bn - NDIRECT);
        if r.Some? {
          MappedIndirect(sb, old(d), d1, d, h, h1, old(owner), owner1, owner, bn, r.value);
        }
      } else {
        assert old(ip.addrs[NDIRECT]) != 0 by {
          if old(ip.addrs[NDIRECT]) == 0 { FreshTable(sb, old(d), d, old(owner), owner, h.inum, ip.addrs[NDIRECT], bn - NDIRECT); }
        }
        MappedAlready(sb, d, h, owner, bn);
        r := Some(a);
      }
    }

    /** The disk block of block bn of the file, allocated if need be; None is a panic. */
    method Bmap(ip: Inode, bn: nat) returns (r: Option<Word>, ghost x: nat)
      requires InOp() && Consistent(ip)
      modifies this`d, this`pending, this`logged, this`writes, this`owner, ip`addrs
      ensures InOp() && |ip.addrs| == NDIRECT + 1
      ensures old(ip.addrs[NDIRECT]) != 0 ==> ip.addrs[NDIRECT] == old(ip.addrs[NDIRECT])
      ensures bn >= MAXFILE ==> r.None?
      ensures r.Some? ==>
        && Consistent(ip)
        && Mapped(sb, old(d), d, old(owner), owner, old(ip.AsHeld()), ip.AsHeld(), bn, r.value)
        && logged <= old(logged) + BitmapBlocks(sb) + {r.value} + ip.Table()
      ensures bn < MAXFILE && old(FileBlock(d, ip.Value(), bn)) != 0 ==>
                r.Some? && logged == old(logged) && writes == old(writes)
      ensures bn < MAXFILE && r.None? ==> Refused(old(logged), {x} + ip.Table())
    {
      hide Addr, Bit, Owned, Mapped, AddedDirect, Full, Ran, Range;
      ghost var h := ip.AsHeld();
      OwnedShape(sb, d, h, owner, {});
      x := 0;
      if bn < NDIRECT {
        if ip.addrs[bn] == 0 {
          var ok := AllocAddr(ip, bn);
          if !ok { return None, 0; }
          MappedDirect(sb, old(d), d, h, old(owner), owner, bn, ip.addrs[bn]);
          assert ip.AsHeld() == WithAddr(h, bn, ip.addrs[bn]);
        } else {
          MappedAlready(sb, d, h, owner, bn);
        }
        r := Some(ip.addrs[bn]);
      } else if bn < MAXFILE {
        r, x := BmapIndirect(ip, bn);
      } else {
        r := None;
      }
    }

    /** Copy the in-memory inode to its block. */
    method Iupdate(ip: Inode) returns (ok: bool)
      requires InOp() && Consistent(ip)
      modifies this`d, this`logged, this`writes
      ensures InOp() && (!ok ==> d == old(d) && logged == old(logged) && LogFull(old(logged), {}))
      ensures ok ==> Consistent(ip) && |d| == |old(d)| && logged == old(logged) + {sb.Iblock(ip.inum)}
      ensures ok ==> Synced(ip) && SyncedDisk(sb, old(d), d, ip.AsHeld())
    {
      hide Addr, Bit, Owned, PutInode, InodeIn, SyncedDisk, Ran, Range;
      UpdateSummary(sb, d, ip.AsHeld(), owner);
      Regions(sb, 0, ip.inum);
      var x := sb.Iblock(ip.inum);
      ok := LogWrite(x, PutInode(d[x], ip.inum, DInode(ip.typ, ip.major, ip.minor, ip.nlink, ip.size, ip.addrs)));
    }

    /** The disk copy of ip is its in-memory copy. */
    ghost predicate Synced(ip: Inode)
      reads this, ip
    {
      sb.Iblock(ip.inum) < |d| && InodeIn(d[sb.Iblock(ip.inum)], ip.inum) == ip.Value()
    }

    /** Between system calls: blocks accounted for, no holes, disk and memory copy equal. */
    ghost predicate Sound(ip: Inode)
      reads this, ip
    {
      Consistent(ip) && ip.Value().Valid() && HoleFree(d, ip.Value(), ip.size) && ip.size <= MAXFILE * BSIZE && Synced(ip)
    }

    /** One turn of writei's loop: find the block, copy the bytes in, log it. */
    method WriteBlock(ip: Inode, off: nat, data: seq<Byte>, ghost len: nat,
                      ghost bytes: seq<Byte>) returns (r: Option<Word>, ghost x: nat)
      requires InOp() && pending == {} && Holding(sb, d, ip.AsHeld(), owner, len, bytes) && off <= len
      requires 0 < |data| && off % BSIZE + |data| <= BSIZE && off + |data| <= MAXFILE * BSIZE
      modifies this`d, this`pending, this`logged, this`writes, this`owner, ip`addrs
      ensures InOp() && |ip.addrs| == NDIRECT + 1 && off <= |bytes|
      ensures old(ip.addrs[NDIRECT]) != 0 ==> ip.addrs[NDIRECT] == old(ip.addrs[NDIRECT])
      ensures r.None? ==> Refused(old(logged), {x} + ip.Table())
      ensures r.Some? ==>
        && pending == {} && logged <= old(logged) + BitmapBlocks(sb) + {r.value} + ip.Table()
        && Written(sb, old(d), d, old(owner), owner, old(ip.AsHeld()), ip.AsHeld(), off, data, len, bytes)
    {
      hide Addr, Bit, Owned, Mapped, HoleFree, FileBytes, Written, Range, Full, Ran, Super.Valid;
      ghost var h, d0, owner0 := ip.AsHeld(), d, owner;
      OwnedShape(sb, d, h, owner, {});
      r, x := Bmap(ip, off / BSIZE);
      if r.Some? {
        x := r.value;
        OwnedShape(sb, d, ip.AsHeld(), owner, {});
        TableKept(sb, d0, d, owner0, owner, h, ip.AsHeld(), off / BSIZE, r.value);
        TurnSummary(sb, d0, d, owner0, owner, h, ip.AsHeld(), r.value, off, data, len, bytes);
        DataAfterInodes(sb, r.value);
        var ok := LogWrite(r.value, Splice(d[r.value], off % BSIZE, data));
        if !ok { r := None; }
      }
    }

    /** writei's loop: |src| bytes at off, block by block.  `data` collects the blocks written. */
    method WriteBlocks(ip: Inode, off: nat, src: seq<Byte>, ghost bytes: seq<Byte>) returns (ok: bool,
                       ghost data: set<nat>)
      requires InOp() && pending == {} && Holding(sb, d, ip.AsHeld(), owner, ip.size, bytes)
      requires off <= ip.size && off + |src| <= MAXFILE * BSIZE
      modifies this`d, this`pending, this`logged, this`writes, this`owner, ip`addrs
      ensures InOp() && |ip.addrs| == NDIRECT + 1 && |data| <= Span(off, |src|) && off <= |bytes|
      ensures !ok ==> Refused(old(logged), data + ip.Table())
      ensures ok ==>
        && pending == {} && logged <= old(logged) + BitmapBlocks(sb) + data + ip.Table()
        && Written(sb, old(d), d, old(owner), owner, old(ip.AsHeld()), ip.AsHeld(), off, src, ip.size, bytes)
    {
      hide Addr, Bit, Owned, HoleFree, FileBytes, Written, Range, Step, Full, Ran, Span, Moved, Super.Valid, Overwrite,
           Max, Placed;
      ghost var h0 := ip.AsHeld();
      OwnedShape(sb, d, h0, owner, {});
      FileLength(sb, d, h0, owner, ip.size, bytes);
      WrittenNothing(sb, d, owner, h0, off, ip.size, bytes);
      data := {};
      var tot := 0;
      ghost var turns := 0;
      assert src[..0] == [];
      assert Moved(off, |src|, 0, 0) by { NoneMoved(off, |src|); }
      while tot < |src|
        invariant InOp() && 0 <= tot <= |src| && pending == {} && |ip.addrs| == NDIRECT + 1
        invariant Written(sb, old(d), d, old(owner), owner, h0, ip.AsHeld(), off, src[..tot], ip.size, bytes)
        invariant logged <= old(logged) + BitmapBlocks(sb) + data + ip.Table()
        invariant |data| <= turns && Moved(off, |src|, tot, turns)
      {
        StepsSpan(off, |src|, tot, turns);
        var m := Step(off, |src|, tot);
        ghost var d1, owner1, h1, sofar := d, owner, ip.AsHeld(), Overwrite(bytes, off, src[..tot]);
        OverwriteMore(bytes, off, src, tot, m);
        WrittenHolds(sb, old(d), d, old(owner), owner, h0, h1, off, src[..tot], ip.size, bytes);
        var a;
        ghost var x;
        a, x := WriteBlock(ip, off + tot, src[tot..tot + m], Max(ip.size, off + tot), sofar);
        if a.None? {
          TurnsSpan(off, |src|, tot + m, turns + 1);
          return false, data + {x};
        }
        WrittenTwice(sb, old(d), d1, d, old(owner), owner1, owner, h0, h1, ip.AsHeld(), off, src, tot, m, ip.size, bytes);
        data, turns := data + {a.value as nat}, turns + 1;
        tot := tot + m;
      }
      assert src[..tot] == src;
      TurnsSpan(off, |src|, tot, turns);
      return true, data;
    }

    /**
     Write src at off.  Failed leaves everything alone; Done means the file's bytes are the old
     ones overwritten at off, its size the larger of the two, no other file is touched, disk and
     memory copy of the inode agree if they did before, and the blocks logged are bounded.
     */
    method Writei(ip: Inode, off: Word, src: seq<Byte>) returns (r: IoResult<nat>, ghost data: set<nat>)
      requires InOp() && Consistent(ip) && HoleFree(d, ip.Value(), ip.size) && |src| < WORD_LIMIT
      modifies this`d, this`pending, this`logged, this`writes, this`owner, ip`addrs, ip`size
      ensures InOp() && |ip.addrs| == NDIRECT + 1
      ensures r.Failed? <==> old(off > ip.size || off + |src| > MAXFILE * BSIZE)
      ensures r.Failed? ==> d == old(d) && owner == old(owner) && logged == old(logged) && writes == old(writes)
      ensures r.Failed? ==> pending == {} && ip.Value() == old(ip.Value())
      ensures r.Done? ==>
        && r.value == |src| && ip.size == Max(old(ip.size), off + |src|)
        && Consistent(ip) && HoleFree(d, ip.Value(), ip.size)
        && FileBytes(d, ip.Value(), ip.size) == Overwrite(old(FileBytes(d, ip.Value(), ip.size)), off, src)
        && (old(Synced(ip)) ==> Synced(ip))
        && sb.Valid() && |old(d)| == |d| == sb.size && OthersKept(sb, old(d), d, old(owner), owner, ip.inum)
        && logged <= old(logged) + BitmapBlocks(sb) + data + ip.Table() + {sb.Iblock(ip.inum)}
      ensures |data| <= Span(off, |src|)
      ensures r.Panicked? ==> Refused(old(logged), data + ip.Table())
    {
      hide Addr, Bit, Owned, HoleFree, FileBytes, OthersKept, Overwrite, Range, SyncedDisk, InodeIn, Full, Ran, Span, Super.Valid;
      OwnedShape(sb, d, ip.AsHeld(), owner, {});
      if off > ip.size || (off + |src|) % WORD_LIMIT < off {
        return Failed, {};
      }
      if off + |src| > MAXFILE * BSIZE {
        return Failed, {};
      }
      FileFits(sb, d, ip.AsHeld(), owner);
      ghost var bytes := FileBytes(d, ip.Value(), ip.size);
      var ok;
      ok, data := WriteBlocks(ip, off, src, bytes);
      if !ok {
        return Panicked, data;
      }
      if |src| > 0 && off + |src| > ip.size {
        ghost var h, d1, len := ip.AsHeld(), d, Max(ip.size, off + |src|);
        ip.size := off + |src|;
        SameAddrs(sb, d, h, ip.AsHeld(), owner, len, Overwrite(bytes, off, src));
        ok := Iupdate(ip);
        if !ok {
          return Panicked, data;
        }
        GrowFile(sb, old(d), d1, d, ip.AsHeld(), old(owner), owner, len, Overwrite(bytes, off, src));
      }
      return Done(|src|), data;
    }

    /** One turn of readi's loop: m bytes at `at`, all in one block that is there. */
    method ReadBlockAt(ip: Inode, at: nat, m: nat) returns (bytes: seq<Byte>)
      requires InOp() && Consistent(ip) && HoleFree(d, ip.Value(), ip.size)
      requires 0 < m && at + m <= ip.size && at % BSIZE + m <= BSIZE
      modifies this`d, this`pending, this`logged, this`writes, this`owner, ip`addrs
      ensures InOp() && Consistent(ip) && d == old(d) && owner == old(owner)
      ensures logged == old(logged) && writes == old(writes)
      ensures ip.Value() == old(ip.Value())
      ensures ip.size <= MAXFILE * BSIZE && bytes == FileBytes(d, ip.Value(), ip.size)[at..at + m]
    {
      hide Addr, Bit, Owned, HoleFree, FileBytes, Mapped, Range, Ran;
      ghost var h := ip.AsHeld();
      FileFits(sb, d, h, owner);
      ReadBlock(sb, d, h, owner, ip.size, at, m);
      var a;
      ghost var x;
      a, x := Bmap(ip, at / BSIZE);
      OwnedShape(sb, d, ip.AsHeld(), owner, {});
      AlreadyMapped(sb, old(d), d, old(owner), owner, h, ip.AsHeld(), at / BSIZE, a.value);
      bytes := d[a.value][at % BSIZE..at % BSIZE + m];
    }

    /** readi's loop: `count` bytes from off, all inside the file. */
    method ReadBlocks(ip: Inode, off: nat, count: nat) returns (dst: seq<Byte>)
      requires InOp() && Consistent(ip) && HoleFree(d, ip.Value(), ip.size) && off + count <= ip.size
      modifies this`d, this`pending, this`logged, this`writes, this`owner, ip`addrs
      ensures InOp() && Consistent(ip) && d == old(d) && owner == old(owner)
      ensures logged == old(logged) && writes == old(writes)
      ensures ip.Value() == old(ip.Value())
      ensures ip.size <= MAXFILE * BSIZE && dst == FileBytes(d, ip.Value(), ip.size)[off..off + count]
    {
      hide Addr, Bit, Owned, HoleFree, FileBytes, Step, Ran;
      FileFits(sb, d, ip.AsHeld(), owner);
      ghost var bytes := FileBytes(d, ip.Value(), ip.size);
      dst := [];
      var tot := 0;
      while tot < count
        invariant 0 <= tot <= count && dst == bytes[off..off + tot]
        invariant InOp() && Consistent(ip) && d == old(d) && owner == old(owner)
        invariant logged == old(logged) && writes == old(writes)
        invariant ip.Value() == old(ip.Value())
      {
        StepInBlock(off, count, tot);
        var m := Step(off, count, tot);
        var more := ReadBlockAt(ip, off + tot, m);
        SlicesJoin(bytes, off, off + tot, off + tot + m);
        dst := dst + more;
        tot := tot + m;
      }
    }

    /** Read up to n bytes at off: a slice of the file's bytes.  Nothing is allocated or logged. */
    method Readi(ip: Inode, off: Word, n: Word) returns (r: IoResult<seq<Byte>>)
      requires InOp() && Consistent(ip) && HoleFree(d, ip.Value(), ip.size)
      modifies this`d, this`pending, this`logged, this`writes, this`owner, ip`addrs
      ensures !r.Panicked? && (r.Failed? <==> old(off > ip.size) || off + n >= WORD_LIMIT)
      ensures InOp() && d == old(d) && owner == old(owner) && pending == {}
      ensures logged == old(logged) && writes == old(writes)
      ensures ip.Value() == old(ip.Value())
      ensures r.Done? ==> r.value == old(FileBytes(d, ip.Value(), ip.size))[off..Min(off + n, ip.size)]
    {
      hide Addr, Bit, Owned, HoleFree, FileBytes;
      if off > ip.size || (off + n) % WORD_LIMIT < off {
        return Failed;
      }
      var dst := ReadBlocks(ip, off, if off + n > ip.size then ip.size - off else n);
      return Done(dst);
    }

    /** Clear the bit of a block no slot names; "freeing free block" cannot happen. */
    method Bfree(b: nat, ghost h: Held) returns (ok: bool)
      requires InOp() && Owned(sb, d, h, owner, pending) && b in pending
      modifies this`d, this`pending, this`logged, this`writes
      ensures InOp() && (!ok ==> LogFull(old(logged), {}))
      ensures ok ==> Owned(sb, d, h, owner, pending) && pending == old(pending) - {b} && MapOnly(sb, old(d), d)
      ensures logged <= old(logged) + BitmapBlocks(sb)
    {
      hide Addr, Owned, BitOf, SameSlots, Ran, Range;
      OwnedShape(sb, d, h, owner, pending);
      PendingInRange(sb, d, h, owner, pending, b);
      Regions(sb, b, 0);
      MarkFree(sb, d, h, owner, pending, b);
      var bp := d[sb.Bblock(b)];
      assert BitOf(bp, b % BPB);
      ok := LogWrite(sb.Bblock(b), ClearBitOf(bp, b % BPB));
      if ok {
        pending := pending - {b};
      }
    }

    /** itrunc, first loop: free the direct blocks. */
    method FreeDirect(ip: Inode) returns (ok: bool)
      requires InOp() && Consistent(ip)
      modifies this`d, this`pending, this`logged, this`writes, this`owner, ip`addrs
      ensures InOp() && (!ok ==> LogFull(old(logged), {}))
      ensures ok ==> Consistent(ip) && owner == Without(old(owner), ip.inum, NDIRECT)
      ensures |ip.addrs| == |old(ip.addrs)| == NDIRECT + 1 && ip.addrs[NDIRECT] == old(ip.addrs[NDIRECT])
      ensures ok ==> forall k :: 0 <= k < NDIRECT ==> ip.addrs[k] == 0
      ensures logged <= old(logged) + BitmapBlocks(sb) && (ok ==> MapOnly(sb, old(d), d))
    {
      hide Addr, Bit, Owned, Range, Ran;
      OwnedShape(sb, d, ip.AsHeld(), owner, {});
      var i := 0;
      assert owner == Without(owner, ip.inum, 0);
      while i < NDIRECT
        invariant InOp() && i <= NDIRECT && Consistent(ip) && owner == Without(old(owner), ip.inum, i)
        invariant |ip.addrs| == |old(ip.addrs)| == NDIRECT + 1 && ip.addrs[NDIRECT] == old(ip.addrs[NDIRECT])
        invariant forall k :: 0 <= k < i ==> ip.addrs[k] == 0
        invariant MapOnly(sb, old(d), d) && logged <= old(logged) + BitmapBlocks(sb)
      {
        WithoutDirect(sb, d, ip.AsHeld(), owner, old(owner), i);
        if ip.addrs[i] != 0 {
          ghost var h, a: nat := ip.AsHeld(), ip.addrs[i];
          DetachDirect(sb, d, h, owner, {}, i);
          owner, pending := owner - {a}, {} + {a};
          ok := Bfree(ip.addrs[i], WithAddr(h, i, 0));
          if !ok { return false; }
          ip.addrs := ip.addrs[i := 0];
          assert ip.AsHeld() == WithAddr(h, i, 0);
        }
        i := i + 1;
      }
      return true;
    }

    /** itrunc, second part: free every block the indirect table names, then the table. */
    method FreeTable(ip: Inode) returns (ok: bool)
      requires InOp() && Consistent(ip) && ip.addrs[NDIRECT] != 0
      modifies this`d, this`pending, this`logged, this`writes, this`owner, ip`addrs
      ensures InOp() && (!ok ==> LogFull(old(logged), {}))
      ensures ok ==> Consistent(ip) && ip.addrs == old(ip.addrs)[NDIRECT := 0]
      ensures old(ip.addrs[NDIRECT]) < |old(d)|
      ensures ok ==> owner == old(owner) - TableBlocks(old(d), old(ip.addrs[NDIRECT]))
      ensures logged <= old(logged) + BitmapBlocks(sb) && (ok ==> MapOnly(sb, old(d), d))
    {
      hide Addr, Bit, Owned, Range, WordAt, Ran, Rest, TableBlocks;
      ghost var h, d0, owner0 := ip.AsHeld(), d, owner;
      OwnedShape(sb, d, h, owner, {});
      SlotOwned(sb, d, h, owner, NDIRECT);
      var t := ip.addrs[NDIRECT];
      DetachTable(sb, d, h, owner, {});
      owner, pending := owner - TableBlocks(d, t), {} + TableBlocks(d, t);
      ghost var h' := WithAddr(h, NDIRECT, 0);
      RestBounds(d, t);
      var j := 0;
      while j < NINDIRECT
        invariant InOp() && j <= NINDIRECT && Owned(sb, d, h', owner, pending) && pending == Rest(d0[t], t, j)
        invariant owner == owner0 - TableBlocks(d0, t) && ip.addrs == old(ip.addrs)
        invariant MapOnly(sb, d0, d) && logged <= old(logged) + BitmapBlocks(sb)
      {
        RestStep(sb, d0, h, owner0, j);
        var w := WordAt(d[t], j);
        if w != 0 {
          ok := Bfree(w, h');
          if !ok { return false; }
        }
        j := j + 1;
      }
      assert pending - {t as nat} == {};
      ok := Bfree(t, h');
      if ok {
        ip.addrs := ip.addrs[NDIRECT := 0];
        assert ip.AsHeld() == h';
      }
    }

    /** Release exactly the blocks of this inode, each once, and record the empty inode. */
    method Itrunc(ip: Inode) returns (ok: bool)
      requires InOp() && Consistent(ip)
      modifies this`d, this`pending, this`logged, this`writes, this`owner, ip`addrs, ip`size
      ensures InOp() && (!ok ==> LogFull(old(logged), {}))
      ensures ok ==> Consistent(ip) && Synced(ip) && ip.size == 0
      ensures ok ==> |ip.addrs| == NDIRECT + 1 && forall k :: 0 <= k <= NDIRECT ==> ip.addrs[k] == 0
      ensures ok ==> owner == map b | b in old(owner) && old(owner)[b].0 != ip.inum :: old(owner)[b]
      ensures ok ==> sb.Valid() && |d| == |old(d)| == sb.size && OthersKept(sb, old(d), d, old(owner), owner, ip.inum)
      ensures ok ==> forall b :: 0 <= b < sb.size ==>
                       (Bit(sb, d, b) <==> Bit(sb, old(d), b) && !(b in old(owner) && old(owner)[b].0 == ip.inum))
    {
      hide Addr, Bit, Owned, Range, SyncedDisk, InodeIn, Ran;
      ghost var h0, d0, owner0 := ip.AsHeld(), d, owner;
      OwnedShape(sb, d, h0, owner, {});
      ok := FreeDirect(ip);
      if !ok { return false; }
      ghost var d1 := d;
      WithoutTable(sb, d, ip.AsHeld(), owner, owner0);
      if ip.addrs[NDIRECT] != 0 {
        ok := FreeTable(ip);
        if !ok { return false; }
      }
      ghost var d2, h2 := d, ip.AsHeld();
      ip.size := 0;
      OwnedSameAddrs(sb, d, h2, ip.AsHeld(), owner);
      ok := Iupdate(ip);
      if ok {
        TruncSummary(sb, d0, d2, d, h0, ip.AsHeld(), owner0, owner);
      }
    }
  }
}
