/**
 What the block and file layers of fs.c compute, on values: a file as a byte sequence, what
 bmap may change, and what one turn of writei's loop does to the bytes.
 */
module FileSpec {
  import opened Common
  import opened Blocks
  import opened Layout
  import opened Ownership

  // ---------------------------------------------------------------- a file as a byte sequence

  function FileSlot(bn: nat): nat { if bn < NDIRECT then bn else bn + 1 }

  function FileBlock(d: Disk, ip: DInode, bn: nat): nat
    requires ip.Valid() && bn < MAXFILE
  {
    SlotOf(d, ip, FileSlot(bn))
  }

  function ByteAt(d: Disk, ip: DInode, o: nat): Byte
    requires ip.Valid() && o < MAXFILE * BSIZE
  {
    if 0 < FileBlock(d, ip, o / BSIZE) < |d| then d[FileBlock(d, ip, o / BSIZE)][o % BSIZE] else 0
  }

  function FileBytes(d: Disk, ip: DInode, len: nat): (s: seq<Byte>)
    requires ip.Valid() && len <= MAXFILE * BSIZE
    ensures |s| == len && forall o :: 0 <= o < len ==> s[o] == ByteAt(d, ip, o)
  {
    if len == 0 then [] else FileBytes(d, ip, len - 1) + [ByteAt(d, ip, len - 1)]
  }

  /** Inode i as it is on the disk. */
  function OnDisk(sb: Super, d: Disk, i: nat): (ip: DInode)
    requires sb.Iblock(i) < |d|
    ensures ip.Valid()
  {
    InodeIn(d[sb.Iblock(i)], i)
  }

  /** The bytes of file inum in a disk image, as found after a reboot. */
  function Stored(sb: Super, d: Disk, inum: nat): Option<seq<Byte>> {
    if sb.Iblock(inum) < |d| && OnDisk(sb, d, inum).size <= MAXFILE * BSIZE
    then Some(FileBytes(d, OnDisk(sb, d, inum), OnDisk(sb, d, inum).size))
    else None
  }

  /** Exactly the blocks needed for len bytes are there. */
  predicate HoleFree(d: Disk, ip: DInode, len: nat)
    requires ip.Valid()
  {
    && len <= MAXFILE * BSIZE
    && (ip.addrs[NDIRECT] != 0 <==> NDIRECT * BSIZE < len)
    && forall bn :: 0 <= bn < MAXFILE ==> (FileBlock(d, ip, bn) != 0 <==> bn * BSIZE < len)
  }

  /** s with src written at off, longer if need be. */
  function Overwrite(s: seq<Byte>, off: nat, src: seq<Byte>): seq<Byte>
    requires off <= |s|
  {
    s[..off] + src + if off + |src| < |s| then s[off + |src|..] else []
  }

  /** Every inode but `inum`, and every block such an inode owns, is as before. */
  predicate OthersKept(sb: Super, d: Disk, d': Disk, owner: Owners, owner': Owners, inum: nat)
    requires sb.Valid() && |d| == |d'| == sb.size
  {
    && (forall b :: b in owner && owner[b].0 != inum && b < sb.size ==> b in owner' && owner'[b] == owner[b] && d'[b] == d[b])
    && (forall i :: 0 <= i < sb.ninodes && i != inum && sb.Iblock(i) < sb.size ==>
          InodeIn(d'[sb.Iblock(i)], i) == InodeIn(d[sb.Iblock(i)], i))
  }

  /**
   Blocks were only added, all to inode `inum`; the inodes on disk, the file data and the
   indirect tables of other inodes are as before.
   */
  predicate Grown(sb: Super, d: Disk, d': Disk, owner: Owners, owner': Owners, inum: nat) {
    && |d| == |d'|
    && (forall x :: 0 <= x < |d| && x < sb.bmapstart ==> d'[x] == d[x])
    && (forall x :: x in owner ==> x in owner' && owner'[x] == owner[x])
    && (forall x :: x in owner && x < |d| && (owner[x].1 != NDIRECT || owner[x].0 != inum) ==> d'[x] == d[x])
    && (forall x :: x in owner' && x !in owner ==> owner'[x].0 == inum)
  }

  function Range(lo: nat, hi: nat): (r: set<nat>)
    ensures forall x :: x in r <==> lo <= x < hi
    ensures |r| == if lo < hi then hi - lo else 0
    decreases hi - lo
  {
    if lo < hi then {lo} + Range(lo + 1, hi) else {}
  }

  /** The blocks of the free map. */
  function BitmapBlocks(sb: Super): set<nat> { Range(sb.bmapstart, sb.datastart) }

  lemma OwnedShape(sb: Super, d: Disk, h: Held, owner: Owners, pending: set<nat>)
    requires Owned(sb, d, h, owner, pending)
    ensures InShape(sb, d, h)
    ensures forall b :: b in owner ==> sb.datastart <= b < sb.size
  {
  }

  /** A free data block b was marked used and zeroed, and nothing else changed. */
  predicate TookBlock(sb: Super, d: Disk, d': Disk, h: Held, owner: Owners, pending: set<nat>, b: nat) {
    && Owned(sb, d, h, owner, pending) && Owned(sb, d', h, owner, pending + {b})
    && sb.datastart <= b < sb.size && !Bit(sb, d, b) && b !in owner && b !in pending
    && d'[b] == ZeroBlock()
    && (forall x :: 0 <= x < |d| && x != b && x != sb.Bblock(b) ==> d'[x] == d[x])
    && SameSlots(sb, d, h, d', h)
  }

  lemma TookOne(sb: Super, d: Disk, h: Held, owner: Owners, pending: set<nat>, b: nat)
    requires Owned(sb, d, h, owner, pending) && b < sb.size && !Bit(sb, d, b)
    ensures sb.bmapstart <= sb.Bblock(b) < sb.datastart <= b && |d| == sb.size && !BitOf(d[sb.Bblock(b)], b % BPB)
    ensures TookBlock(sb, d, d[sb.Bblock(b) := SetBitOf(d[sb.Bblock(b)], b % BPB)][b := ZeroBlock()], h, owner, pending, b)
  {
    hide Addr, BitOf;
    Regions(sb, b, 0);
    MarkUsed(sb, d, h, owner, pending, b);
    var d1 := d[sb.Bblock(b) := SetBitOf(d[sb.Bblock(b)], b % BPB)];
    WriteData(sb, d1, h, owner, pending + {b}, b, ZeroBlock());
  }

  /** Slot k <= NDIRECT of inode inum now names the new block b. */
  predicate AddedDirect(sb: Super, d: Disk, d': Disk, owner: Owners, owner': Owners, inum: nat, k: nat, b: nat) {
    && Grown(sb, d, d', owner, owner', inum)
    && sb.datastart <= b < |d| && b !in owner && owner' == owner[b := (inum, k)]
    && d'[b] == ZeroBlock()
    && (forall x :: x in owner && x < |d| ==> d'[x] == d[x])
  }

  /** Word j of the held inode's table now names the new block b. */
  predicate AddedIndirect(sb: Super, d: Disk, d': Disk, owner: Owners, owner': Owners, h: Held, j: nat, b: Word)
    requires h.ip.Valid() && j < NINDIRECT
  {
    var t := h.ip.addrs[NDIRECT];
    && Grown(sb, d, d', owner, owner', h.inum)
    && t < |d| && sb.datastart <= b < |d| && b !in owner && b != t
    && owner' == owner[b as nat := (h.inum, NDIRECT + 1 + j)]
    && d'[b] == ZeroBlock() && d'[t] == PutWord(d[t], j, b)
  }

  /**
   What bmap(ip, bn) does: block bn of the file is there and is block a of the disk; nothing
   changed if it was there before, else a is new and zeroed; no other block of any file moved.
   */
  predicate Mapped(sb: Super, d: Disk, d': Disk, owner: Owners, owner': Owners, h: Held, h': Held, bn: nat, a: nat)
    requires h.ip.Valid() && h'.ip.Valid() && bn < MAXFILE
  {
    && h' == h.(ip := h.ip.(addrs := h'.ip.addrs))
    && Grown(sb, d, d', owner, owner', h.inum)
    && a == FileBlock(d', h'.ip, bn) && sb.datastart <= a < |d| && a in owner' && owner'[a] == (h.inum, FileSlot(bn))
    && SlotsKept(d, d', h.ip, h'.ip, FileSlot(bn))
    && (bn < NDIRECT || h.ip.addrs[NDIRECT] != 0 ==> h'.ip.addrs[NDIRECT] == h.ip.addrs[NDIRECT])
    && (bn >= NDIRECT ==> h'.ip.addrs[NDIRECT] != 0)
    && (FileBlock(d, h.ip, bn) != 0 ==> d' == d && owner' == owner && h' == h)
    && (FileBlock(d, h.ip, bn) == 0 ==> d'[a] == ZeroBlock() && a !in owner)
  }

  /** All slots but k and the one for the indirect table hold what they held. */
  predicate SlotsKept(d: Disk, d': Disk, ip: DInode, ip': DInode, k: nat)
    requires ip.Valid() && ip'.Valid()
  {
    forall l :: 0 <= l < SLOTS && l != k && l != NDIRECT ==> SlotOf(d', ip', l) == SlotOf(d, ip, l)
  }

  /** A newly allocated block b, and a change in the table t of inode inum. */
  lemma GrownByOne(sb: Super, d: Disk, d': Disk, owner: Owners, inum: nat, k: nat, b: nat, t: nat)
    requires sb.Valid() && |d| == |d'| == sb.size && sb.datastart <= b < sb.size && b !in owner
    requires forall x :: x in owner ==> sb.datastart <= x < sb.size
    requires forall x :: 0 <= x < |d| && x != b && x != sb.Bblock(b) && x != t ==> d'[x] == d[x]
    requires t in owner && owner[t] == (inum, NDIRECT)
    ensures Grown(sb, d, d', owner, owner[b := (inum, k)], inum)
  {
    Regions(sb, b, 0);
  }

  lemma SlotKept(sb: Super, d: Disk, d': Disk, h: Held, k: nat)
    requires InShape(sb, d, h) && InShape(sb, d', h) && SameSlots(sb, d, h, d', h) && k < SLOTS
    ensures Addr(sb, d', h, h.inum, k) == Addr(sb, d, h, h.inum, k)
  {
  }

  lemma TableOwned(sb: Super, d: Disk, h: Held, owner: Owners, j: nat)
    requires Owned(sb, d, h, owner, {}) && j < NINDIRECT && 0 < h.ip.addrs[NDIRECT] < |d|
    ensures h.ip.addrs[NDIRECT] in owner && owner[h.ip.addrs[NDIRECT]] == (h.inum, NDIRECT)
    ensures sb.datastart <= h.ip.addrs[NDIRECT]
    ensures Addr(sb, d, h, h.inum, NDIRECT + 1 + j) == WordAt(d[h.ip.addrs[NDIRECT]], j)
  {
    assert Addr(sb, d, h, h.inum, NDIRECT) == h.ip.addrs[NDIRECT];
  }

  lemma DirectAllocated(sb: Super, d: Disk, d1: Disk, h: Held, owner: Owners, k: nat, b: Word)
    requires TookBlock(sb, d, d1, h, owner, {}, b) && k <= NDIRECT && h.ip.addrs[k] == 0
    ensures sb.Bblock(b) in BitmapBlocks(sb) && b != 0
    ensures Owned(sb, d1, WithAddr(h, k, b), owner[b as nat := (h.inum, k)], {})
    ensures AddedDirect(sb, d, d1, owner, owner[b as nat := (h.inum, k)], h.inum, k, b)
  {
    hide Addr, Bit, Owned, SameSlots;
    assert {} + {b as nat} == {b as nat};
    OwnedShape(sb, d, h, owner, {});
    OwnedShape(sb, d1, h, owner, {b as nat});
    Regions(sb, b, 0);
    AttachDirect(sb, d1, h, owner, {b as nat}, k, b);
    assert {b as nat} - {b as nat} == {};
  }

  lemma IndirectAllocated(sb: Super, d: Disk, d1: Disk, h: Held, owner: Owners, j: nat, b: Word)
    requires TookBlock(sb, d, d1, h, owner, {}, b) && j < NINDIRECT
    requires 0 < h.ip.addrs[NDIRECT] < |d| && WordAt(d[h.ip.addrs[NDIRECT]], j) == 0
    ensures |d1| == |d| && sb.Bblock(b) in BitmapBlocks(sb)
    ensures var t := h.ip.addrs[NDIRECT]; var d2 := d1[t := PutWord(d1[t], j, b)];
            var owner' := owner[b as nat := (h.inum, NDIRECT + 1 + j)];
            Owned(sb, d2, h, owner', {}) && AddedIndirect(sb, d, d2, owner, owner', h, j, b)
  {
    hide Addr, Bit, Owned, WordAt, PutWord, SameSlots;
    assert {} + {b as nat} == {b as nat};
    OwnedShape(sb, d, h, owner, {});
    OwnedShape(sb, d1, h, owner, {b as nat});
    var t := h.ip.addrs[NDIRECT];
    TableOwned(sb, d, h, owner, j);
    Regions(sb, b, 0);
    SlotKept(sb, d, d1, h, NDIRECT + 1 + j);
    AttachIndirect(sb, d1, h, owner, {b as nat}, j, b);
    assert {b as nat} - {b as nat} == {};
    GrownByOne(sb, d, d1[t := PutWord(d1[t], j, b)], owner, h.inum, NDIRECT + 1 + j, b, t);
  }

  /** The block in a slot of the held inode is owned by that slot. */
  lemma SlotOwned(sb: Super, d: Disk, h: Held, owner: Owners, k: nat)
    requires Owned(sb, d, h, owner, {}) && k < SLOTS && SlotOf(d, h.ip, k) != 0
    ensures var a := SlotOf(d, h.ip, k); sb.datastart <= a < |d| && a in owner && owner[a] == (h.inum, k)
  {
    assert Addr(sb, d, h, h.inum, k) == SlotOf(d, h.ip, k);
  }

  lemma MappedAlready(sb: Super, d: Disk, h: Held, owner: Owners, bn: nat)
    requires Owned(sb, d, h, owner, {}) && bn < MAXFILE && FileBlock(d, h.ip, bn) != 0
    ensures Mapped(sb, d, d, owner, owner, h, h, bn, FileBlock(d, h.ip, bn))
  {
    SlotOwned(sb, d, h, owner, FileSlot(bn));
  }

  lemma MappedDirect(sb: Super, d: Disk, d': Disk, h: Held, owner: Owners, owner': Owners, bn: nat, b: Word)
    requires Owned(sb, d, h, owner, {}) && bn < NDIRECT && h.ip.addrs[bn] == 0
    requires AddedDirect(sb, d, d', owner, owner', h.inum, bn, b)
    ensures Mapped(sb, d, d', owner, owner', h, WithAddr(h, bn, b), bn, b)
  {
    var h' := WithAddr(h, bn, b);
    forall l | 0 <= l < SLOTS && l != bn && l != NDIRECT
      ensures SlotOf(d', h'.ip, l) == SlotOf(d, h.ip, l)
    {
      if h.ip.addrs[NDIRECT] != 0 { SlotOwned(sb, d, h, owner, NDIRECT); }
    }
  }

  /** Both halves of the indirect case: the table, if it was missing, and the word in it. */
  lemma MappedIndirect(sb: Super, d: Disk, d1: Disk, d2: Disk, h: Held, h1: Held,
                       owner: Owners, owner1: Owners, owner2: Owners, bn: nat, b: Word)
    requires Owned(sb, d, h, owner, {}) && Owned(sb, d1, h1, owner1, {}) && NDIRECT <= bn < MAXFILE
    requires if h.ip.addrs[NDIRECT] != 0 then d1 == d && h1 == h && owner1 == owner
             else h1 == WithAddr(h, NDIRECT, h1.ip.addrs[NDIRECT])
                  && AddedDirect(sb, d, d1, owner, owner1, h.inum, NDIRECT, h1.ip.addrs[NDIRECT])
    requires 0 < h1.ip.addrs[NDIRECT] < |d1| && WordAt(d1[h1.ip.addrs[NDIRECT]], bn - NDIRECT) == 0
    requires AddedIndirect(sb, d1, d2, owner1, owner2, h1, bn - NDIRECT, b)
    ensures Mapped(sb, d, d2, owner, owner2, h, h1, bn, b)
  {
    hide Bit, Addr, Owned;
    OwnedShape(sb, d, h, owner, {});
    OwnedShape(sb, d1, h1, owner1, {});
    var j, t := bn - NDIRECT, h1.ip.addrs[NDIRECT];
    assert WordAt(d2[t], j) == b by { WordOfPut(d1[t], j, b, j); }
    forall l | 0 <= l < SLOTS && l != FileSlot(bn) && l != NDIRECT
      ensures SlotOf(d2, h1.ip, l) == SlotOf(d, h.ip, l)
    {
      if l > NDIRECT {
        WordOfPut(d1[t], j, b, l - NDIRECT - 1);
        if h.ip.addrs[NDIRECT] == 0 { WordOfZero(l - NDIRECT - 1); }
      }
    }
    assert FileBlock(d, h.ip, bn) == 0;
    assert Grown(sb, d, d2, owner, owner2, h.inum);
  }

  lemma FreshTable(sb: Super, d: Disk, d': Disk, owner: Owners, owner': Owners, inum: nat, t: nat, j: nat)
    requires AddedDirect(sb, d, d', owner, owner', inum, NDIRECT, t) && j < NINDIRECT
    ensures t < |d'| && WordAt(d'[t], j) == 0
  {
    WordOfZero(j);
  }

  lemma TableKept(sb: Super, d: Disk, d': Disk, owner: Owners, owner': Owners, h: Held, h': Held, bn: nat, a: nat)
    requires h.ip.Valid() && h'.ip.Valid() && bn < MAXFILE && Mapped(sb, d, d', owner, owner', h, h', bn, a)
    ensures h.ip.addrs[NDIRECT] != 0 ==> h'.ip.addrs[NDIRECT] == h.ip.addrs[NDIRECT]
    ensures sb.datastart <= a < |d| == |d'| && (sb.Valid() ==> sb.bmapstart <= a)
  {
  }

  // ---------------------------------------------------------------- one turn of writei's loop

  function Max(a: nat, b: nat): nat { if a < b then b else a }

  /** memmove(b + at, data, |data|) */
  function Splice(b: Block, at: nat, data: seq<Byte>): Block
    requires at + |data| <= BSIZE
  {
    b[..at] + data + b[at + |data|..]
  }

  /** bmap gave block a for offset off, and data was copied into it. */
  predicate Turn(sb: Super, d: Disk, d1: Disk, owner: Owners, owner1: Owners, h: Held, h1: Held,
                 a: nat, off: nat, data: seq<Byte>, len: nat)
  {
    && Owned(sb, d, h, owner, {}) && Owned(sb, d1, h1, owner1, {})
    && off <= len && 0 < |data| && off % BSIZE + |data| <= BSIZE && off + |data| <= MAXFILE * BSIZE
    && HoleFree(d, h.ip, len)
    && Mapped(sb, d, d1, owner, owner1, h, h1, off / BSIZE, a)
  }

  lemma TurnKeepsSlots(sb: Super, d: Disk, d1: Disk, owner: Owners, owner1: Owners, h: Held, h1: Held,
                       a: nat, off: nat, data: seq<Byte>, len: nat, v: Block)
    requires Turn(sb, d, d1, owner, owner1, h, h1, a, off, data, len)
    ensures a < |d1| && Owned(sb, d1[a := v], h1, owner1, {})
    ensures forall k :: 0 <= k < SLOTS ==> SlotOf(d1[a := v], h1.ip, k) == SlotOf(d1, h1.ip, k)
  {
    hide Bit;
    WriteData(sb, d1, h1, owner1, {}, a, v);
    forall k | 0 <= k < SLOTS
      ensures SlotOf(d1[a := v], h1.ip, k) == SlotOf(d1, h1.ip, k)
    {
      assert Addr(sb, d1[a := v], h1, h1.inum, k) == Addr(sb, d1, h1, h1.inum, k);
    }
  }

  lemma TurnHoleFree(sb: Super, d: Disk, d1: Disk, owner: Owners, owner1: Owners, h: Held, h1: Held,
                     a: nat, off: nat, data: seq<Byte>, len: nat, d2: Disk)
    requires Turn(sb, d, d1, owner, owner1, h, h1, a, off, data, len)
    requires forall k :: 0 <= k < SLOTS ==> SlotOf(d2, h1.ip, k) == SlotOf(d1, h1.ip, k)
    ensures HoleFree(d2, h1.ip, Max(len, off + |data|))
    ensures off < len ==> h1 == h && d1 == d && owner1 == owner
  {
    hide Bit, Owned, Addr, Grown, SlotOf;
    OwnedShape(sb, d, h, owner, {});
    OwnedShape(sb, d1, h1, owner1, {});
    var bn, len' := off / BSIZE, Max(len, off + |data|);
    assert off < len ==> bn * BSIZE < len;
    assert bn * BSIZE < len' <= Max(len, (bn + 1) * BSIZE);
    forall x | 0 <= x < MAXFILE
      ensures FileBlock(d2, h1.ip, x) != 0 <==> x * BSIZE < len'
    {
      if x != bn {
        assert FileBlock(d2, h1.ip, x) == FileBlock(d, h.ip, x);
      }
    }
    assert h1.ip.addrs[NDIRECT] != 0 <==> NDIRECT * BSIZE < len';
  }

  /** A byte in another block of the file. */
  lemma TurnByteElsewhere(sb: Super, d: Disk, d1: Disk, owner: Owners, owner1: Owners, h: Held, h1: Held,
                          a: nat, off: nat, data: seq<Byte>, len: nat, v: Block, o: nat)
    requires Turn(sb, d, d1, owner, owner1, h, h1, a, off, data, len)
    requires o < Max(len, off + |data|) && o / BSIZE != off / BSIZE
    ensures a < |d1| && o < len && !(off <= o < off + |data|)
    ensures ByteAt(d1[a := v], h1.ip, o) == ByteAt(d, h.ip, o)
  {
    hide Bit, Addr, Owned, SlotOf;
    OwnedShape(sb, d, h, owner, {});
    OwnedShape(sb, d1, h1, owner1, {});
    TurnKeepsSlots(sb, d, d1, owner, owner1, h, h1, a, off, data, len, v);
    var x := o / BSIZE;
    assert o < len;
    assert x * BSIZE <= o;
    assert FileBlock(d, h.ip, x) != 0;
    SlotOwned(sb, d, h, owner, FileSlot(x));
    assert FileBlock(d1[a := v], h1.ip, x) == FileBlock(d, h.ip, x);
    assert FileSlot(x) != FileSlot(off / BSIZE) && FileSlot(x) != NDIRECT;
    assert FileBlock(d, h.ip, x) != a;
  }

  /** A byte in the block being written. */
  lemma TurnByteHere(sb: Super, d: Disk, d1: Disk, owner: Owners, owner1: Owners, h: Held, h1: Held,
                     a: nat, off: nat, data: seq<Byte>, len: nat, o: nat)
    requires Turn(sb, d, d1, owner, owner1, h, h1, a, off, data, len)
    requires o < Max(len, off + |data|) && o / BSIZE == off / BSIZE
    ensures a < |d1| && (off <= o < off + |data| || o < len)
    ensures ByteAt(d1[a := Splice(d1[a], off % BSIZE, data)], h1.ip, o) ==
            if off <= o < off + |data| then data[o - off] else ByteAt(d, h.ip, o)
  {
    hide Bit, Addr, Owned, SlotOf, Grown;
    OwnedShape(sb, d, h, owner, {});
    OwnedShape(sb, d1, h1, owner1, {});
    var v := Splice(d1[a], off % BSIZE, data);
    TurnKeepsSlots(sb, d, d1, owner, owner1, h, h1, a, off, data, len, v);
    var x := off / BSIZE;
    assert FileBlock(d1[a := v], h1.ip, x) == a;
    assert o % BSIZE - off % BSIZE == o - off;
    if !(off <= o < off + |data|) {
      assert o < len && x * BSIZE <= o;
      assert FileBlock(d, h.ip, x) != 0;
      assert d1 == d && h1 == h;
    }
  }

  /** The turn overwrites the file's bytes at off with data and changes nothing else. */
  lemma TurnBytes(sb: Super, d: Disk, d1: Disk, owner: Owners, owner1: Owners, h: Held, h1: Held,
                  a: nat, off: nat, data: seq<Byte>, len: nat)
    requires Turn(sb, d, d1, owner, owner1, h, h1, a, off, data, len)
    ensures a < |d1|
    ensures var d2 := d1[a := Splice(d1[a], off % BSIZE, data)];
            FileBytes(d2, h1.ip, Max(len, off + |data|)) == Overwrite(FileBytes(d, h.ip, len), off, data)
  {
    hide Bit, Addr, Owned, SlotOf, Grown, ByteAt, Mapped;
    OwnedShape(sb, d, h, owner, {});
    OwnedShape(sb, d1, h1, owner1, {});
    TurnKeepsSlots(sb, d, d1, owner, owner1, h, h1, a, off, data, len, ZeroBlock());
    var d2 := d1[a := Splice(d1[a], off % BSIZE, data)];
    var len' := Max(len, off + |data|);
    var was, now := FileBytes(d, h.ip, len), FileBytes(d2, h1.ip, len');
    forall o | 0 <= o < len'
      ensures now[o] == Overwrite(was, off, data)[o]
    {
      if o / BSIZE == off / BSIZE {
        TurnByteHere(sb, d, d1, owner, owner1, h, h1, a, off, data, len, o);
      } else {
        TurnByteElsewhere(sb, d, d1, owner, owner1, h, h1, a, off, data, len, Splice(d1[a], off % BSIZE, data), o);
      }
    }
  }

  lemma TurnKeepsOthers(sb: Super, d: Disk, d1: Disk, owner: Owners, owner1: Owners, h: Held, h1: Held,
                        a: nat, off: nat, data: seq<Byte>, len: nat, v: Block)
    requires Turn(sb, d, d1, owner, owner1, h, h1, a, off, data, len)
    ensures sb.Valid() && |d| == |d1| == sb.size && a < |d1|
    ensures OthersKept(sb, d, d1[a := v], owner, owner1, h.inum)
  {
    hide Bit, Addr, Owned, SlotOf, InodeIn, HoleFree, FileBlock, SlotsKept, OthersKept;
    OwnedShape(sb, d, h, owner, {});
    OwnedShape(sb, d1, h1, owner1, {});
    GrownKeepsOthers(sb, d, d1, owner, owner1, h.inum, a, v);
  }

  lemma OnlyAddrs(sb: Super, d: Disk, d1: Disk, owner: Owners, owner1: Owners, h: Held, h1: Held,
                  a: nat, off: nat, data: seq<Byte>, len: nat)
    requires Turn(sb, d, d1, owner, owner1, h, h1, a, off, data, len)
    ensures h1 == h.(ip := h.ip.(addrs := h1.ip.addrs))
  {
    hide Bit, Addr, Owned, SlotOf, HoleFree, FileBlock, SlotsKept, Grown;
  }

  lemma TurnKeepsInode(sb: Super, d: Disk, d1: Disk, owner: Owners, owner1: Owners, h: Held, h1: Held,
                       a: nat, off: nat, data: seq<Byte>, len: nat)
    requires Turn(sb, d, d1, owner, owner1, h, h1, a, off, data, len)
    ensures |d| == |d1| && sb.Iblock(h.inum) < |d| && d1[sb.Iblock(h.inum)] == d[sb.Iblock(h.inum)]
    ensures sb.Iblock(h.inum) != a
  {
    hide Bit, Addr, Owned, SlotOf, HoleFree, FileBlock, SlotsKept;
    OwnedShape(sb, d, h, owner, {});
    OwnedShape(sb, d1, h1, owner1, {});
    Regions(sb, 0, h.inum);
  }

  lemma GrownKeepsOthers(sb: Super, d: Disk, d1: Disk, owner: Owners, owner1: Owners, inum: nat, a: nat, v: Block)
    requires sb.Valid() && |d| == |d1| == sb.size && sb.datastart <= a < sb.size
    requires Grown(sb, d, d1, owner, owner1, inum) && a in owner1 && owner1[a].0 == inum
    ensures OthersKept(sb, d, d1[a := v], owner, owner1, inum)
  {
    hide InodeIn;
    forall i | 0 <= i < sb.ninodes
      ensures sb.Iblock(i) < sb.bmapstart
    {
      Regions(sb, 0, i);
    }
  }

  lemma {:induction false} OthersKeptTrans(sb: Super, d: Disk, d1: Disk, d2: Disk,
                                           owner: Owners, owner1: Owners, owner2: Owners, inum: nat)
    requires sb.Valid() && |d| == |d1| == |d2| == sb.size
    requires OthersKept(sb, d, d1, owner, owner1, inum) && OthersKept(sb, d1, d2, owner1, owner2, inum)
    ensures OthersKept(sb, d, d2, owner, owner2, inum)
  {
    hide InodeIn;
  }

  lemma OverwriteTwice(s: seq<Byte>, off: nat, xs: seq<Byte>, ys: seq<Byte>)
    requires off <= |s|
    ensures off + |xs| <= |Overwrite(s, off, xs)|
    ensures Overwrite(Overwrite(s, off, xs), off + |xs|, ys) == Overwrite(s, off, xs + ys)
  {
  }

  /** The state writei's loop keeps: len bytes of the file are there and read as `bytes`. */
  predicate Holding(sb: Super, d: Disk, h: Held, owner: Owners, len: nat, bytes: seq<Byte>) {
    Owned(sb, d, h, owner, {}) && HoleFree(d, h.ip, len) && FileBytes(d, h.ip, len) == bytes
  }

  /** One turn of writei, in terms of the file's bytes. */
  lemma TurnSummary(sb: Super, d: Disk, d1: Disk, owner: Owners, owner1: Owners, h: Held, h1: Held,
                    a: nat, off: nat, data: seq<Byte>, len: nat, bytes: seq<Byte>)
    requires Turn(sb, d, d1, owner, owner1, h, h1, a, off, data, len) && Holding(sb, d, h, owner, len, bytes)
    ensures sb.Valid() && |d| == |d1| == sb.size && a < |d1|
    ensures off <= |bytes|
    ensures Written(sb, d, d1[a := Splice(d1[a], off % BSIZE, data)], owner, owner1, h, h1, off, data, len, bytes)
  {
    hide Bit, Addr, Owned, SlotOf, ByteAt, Mapped, HoleFree, OthersKept, FileBytes, Overwrite;
    OnlyAddrs(sb, d, d1, owner, owner1, h, h1, a, off, data, len);
    TurnKeepsOthers(sb, d, d1, owner, owner1, h, h1, a, off, data, len, ZeroBlock());
    TurnKeepsInode(sb, d, d1, owner, owner1, h, h1, a, off, data, len);
    var v := Splice(d1[a], off % BSIZE, data);
    TurnKeepsSlots(sb, d, d1, owner, owner1, h, h1, a, off, data, len, v);
    TurnHoleFree(sb, d, d1, owner, owner1, h, h1, a, off, data, len, d1[a := v]);
    TurnBytes(sb, d, d1, owner, owner1, h, h1, a, off, data, len);
    TurnKeepsOthers(sb, d, d1, owner, owner1, h, h1, a, off, data, len, v);
  }

  /**
   The len bytes of the held file, which read as `bytes`, were overwritten at off with data; the
   inodes on disk and the other files are as before, and so is the held inode unless it grew.
   */
  predicate Written(sb: Super, d: Disk, d': Disk, owner: Owners, owner': Owners, h: Held, h': Held,
                    off: nat, data: seq<Byte>, len: nat, bytes: seq<Byte>)
    requires off <= |bytes|
  {
    && sb.Valid() && |d| == |d'| == sb.size
    && Holding(sb, d', h', owner', Max(len, off + |data|), Overwrite(bytes, off, data))
    && OthersKept(sb, d, d', owner, owner', h.inum)
    && sb.Iblock(h.inum) < |d| && d'[sb.Iblock(h.inum)] == d[sb.Iblock(h.inum)]
    && h' == h.(ip := h.ip.(addrs := h'.ip.addrs)) && (off + |data| <= len ==> h' == h)
  }

  lemma WrittenNothing(sb: Super, d: Disk, owner: Owners, h: Held, off: nat, len: nat, bytes: seq<Byte>)
    requires Holding(sb, d, h, owner, len, bytes) && off <= len
    ensures off <= |bytes| && Written(sb, d, d, owner, owner, h, h, off, [], len, bytes)
  {
    hide Owned, HoleFree, FileBytes, OthersKept;
    OwnedShape(sb, d, h, owner, {});
    Regions(sb, 0, h.inum);
    OthersKeptRefl(sb, d, owner, h.inum);
    OverwriteNothing(bytes, off);
  }

  lemma WrittenHolds(sb: Super, d: Disk, d': Disk, owner: Owners, owner': Owners, h: Held, h': Held,
                     off: nat, data: seq<Byte>, len: nat, bytes: seq<Byte>)
    requires off <= |bytes| && Written(sb, d, d', owner, owner', h, h', off, data, len, bytes)
    ensures Holding(sb, d', h', owner', Max(len, off + |data|), Overwrite(bytes, off, data))
  {
  }

  lemma FileLength(sb: Super, d: Disk, h: Held, owner: Owners, len: nat, bytes: seq<Byte>)
    requires Holding(sb, d, h, owner, len, bytes)
    ensures |bytes| == len
  {
  }

  lemma WrittenTwice(sb: Super, d: Disk, d1: Disk, d2: Disk, owner: Owners, owner1: Owners, owner2: Owners,
                     h: Held, h1: Held, h2: Held, off: nat, src: seq<Byte>, tot: nat, m: nat, len: nat, bytes: seq<Byte>)
    requires off <= |bytes| == len && tot + m <= |src| && off + tot <= |Overwrite(bytes, off, src[..tot])|
    requires Written(sb, d, d1, owner, owner1, h, h1, off, src[..tot], len, bytes)
    requires Written(sb, d1, d2, owner1, owner2, h1, h2, off + tot, src[tot..tot + m], Max(len, off + tot),
                     Overwrite(bytes, off, src[..tot]))
    ensures Written(sb, d, d2, owner, owner2, h, h2, off, src[..tot + m], len, bytes)
  {
    hide Owned, HoleFree, FileBytes, OthersKept, Overwrite, Super.Valid, Super.Iblock;
    OverwriteMore(bytes, off, src, tot, m);
    OthersKeptTrans(sb, d, d1, d2, owner, owner1, owner2, h.inum);
  }

  // ---------------------------------------------------------------- iupdate

  /** Only the block of inode h.inum changed, and in it only that inode. */
  predicate SyncedDisk(sb: Super, d: Disk, d': Disk, h: Held) {
    && sb.Valid() && |d| == |d'| == sb.size
    && (forall x :: 0 <= x < |d| && x != sb.Iblock(h.inum) ==> d'[x] == d[x])
    && (forall i :: 0 <= i < sb.ninodes && i != h.inum && sb.Iblock(i) < |d| ==>
          InodeIn(d'[sb.Iblock(i)], i) == InodeIn(d[sb.Iblock(i)], i))
  }

  lemma UpdateSummary(sb: Super, d: Disk, h: Held, owner: Owners)
    requires Owned(sb, d, h, owner, {})
    ensures InShape(sb, d, h) && sb.Iblock(h.inum) < |d|
    ensures var x := sb.Iblock(h.inum); var d' := d[x := PutInode(d[x], h.inum, h.ip)];
            Owned(sb, d', h, owner, {}) && InodeIn(d'[x], h.inum) == h.ip && SyncedDisk(sb, d, d', h)
  {
    hide Bit, Addr, Owned, InodeIn, PutInode;
    OwnedShape(sb, d, h, owner, {});
    Sync(sb, d, h, owner, {});
    var x := sb.Iblock(h.inum);
    var d' := d[x := PutInode(d[x], h.inum, h.ip)];
    forall i | 0 <= i < sb.ninodes && i != h.inum && sb.Iblock(i) < |d|
      ensures InodeIn(d'[sb.Iblock(i)], i) == InodeIn(d[sb.Iblock(i)], i)
    {
      assert InodeAt(sb, d', h, i) == InodeAt(sb, d, h, i);
    }
  }

  /** Fields of the inode other than addrs play no part in where its blocks are. */
  lemma SameAddrs(sb: Super, d: Disk, h: Held, h': Held, owner: Owners, len: nat, bytes: seq<Byte>)
    requires Holding(sb, d, h, owner, len, bytes)
    requires h'.inum == h.inum && h'.ip.addrs == h.ip.addrs
    ensures Holding(sb, d, h', owner, len, bytes)
  {
    forall i, k | 0 <= i < sb.ninodes && 0 <= k < SLOTS
      ensures Addr(sb, d, h', i, k) == Addr(sb, d, h, i, k)
    {
      hide Bit;
    }
    Transfer(sb, d, h, d, h', owner, {});
    SameBytes(d, h.ip, d, h'.ip, len);
  }

  lemma SameBytes(d: Disk, ip: DInode, d': Disk, ip': DInode, len: nat)
    requires ip.Valid() && ip'.Valid() && HoleFree(d, ip, len) && ip'.addrs == ip.addrs && |d'| == |d|
    requires forall k :: 0 <= k < SLOTS ==> SlotOf(d', ip', k) == SlotOf(d, ip, k)
    requires forall x :: 0 <= x < MAXFILE && 0 < FileBlock(d, ip, x) < |d| ==> d'[FileBlock(d, ip, x)] == d[FileBlock(d, ip, x)]
    ensures HoleFree(d', ip', len) && FileBytes(d', ip', len) == FileBytes(d, ip, len)
  {
    hide SlotOf;
    forall x | 0 <= x < MAXFILE
      ensures FileBlock(d', ip', x) == FileBlock(d, ip, x)
    {
    }
    assert forall o :: 0 <= o < len ==> FileBytes(d', ip', len)[o] == FileBytes(d, ip, len)[o];
  }

  /** iupdate leaves every byte of the file where it is, and every other inode as it is. */
  lemma UpdateKeeps(sb: Super, d: Disk, d': Disk, h: Held, owner: Owners, len: nat, bytes: seq<Byte>)
    requires Holding(sb, d, h, owner, len, bytes) && Owned(sb, d', h, owner, {}) && SyncedDisk(sb, d, d', h)
    ensures Holding(sb, d', h, owner, len, bytes) && OthersKept(sb, d, d', owner, owner, h.inum)
  {
    hide Bit, Addr, Owned, InodeIn;
    OwnedShape(sb, d, h, owner, {});
    Regions(sb, 0, h.inum);
    forall k | 0 <= k < SLOTS
      ensures SlotOf(d', h.ip, k) == SlotOf(d, h.ip, k)
    {
      if h.ip.addrs[NDIRECT] != 0 { SlotOwned(sb, d, h, owner, NDIRECT); }
    }
    forall x | 0 <= x < MAXFILE && 0 < FileBlock(d, h.ip, x) < |d|
      ensures d'[FileBlock(d, h.ip, x)] == d[FileBlock(d, h.ip, x)]
    {
      SlotOwned(sb, d, h, owner, FileSlot(x));
    }
    SameBytes(d, h.ip, d', h.ip, len);
  }

  lemma OthersKeptRefl(sb: Super, d: Disk, owner: Owners, inum: nat)
    requires sb.Valid() && |d| == sb.size
    ensures OthersKept(sb, d, d, owner, owner, inum)
  {
  }

  lemma OverwriteNothing(s: seq<Byte>, off: nat)
    requires off <= |s|
    ensures Overwrite(s, off, []) == s
  {
  }

  lemma OverwriteMore(s: seq<Byte>, off: nat, src: seq<Byte>, tot: nat, m: nat)
    requires off <= |s| && tot + m <= |src|
    ensures off + tot <= |Overwrite(s, off, src[..tot])| == Max(|s|, off + tot)
    ensures Overwrite(Overwrite(s, off, src[..tot]), off + tot, src[tot..tot + m]) == Overwrite(s, off, src[..tot + m])
  {
    OverwriteTwice(s, off, src[..tot], src[tot..tot + m]);
    assert src[..tot] + src[tot..tot + m] == src[..tot + m];
  }

  /** How many of the n bytes from off on writei and readi move in the turn that starts at tot. */
  function Step(off: nat, n: nat, tot: nat): nat
    requires tot <= n
  {
    if n - tot < BSIZE - (off + tot) % BSIZE then n - tot else BSIZE - (off + tot) % BSIZE
  }

  /** The number of blocks that n bytes from off on lie in. */
  function Span(off: nat, n: nat): nat { (off % BSIZE + n + BSIZE - 1) / BSIZE }

  /** tot of the n bytes from off on were moved in so many turns, each but the last up to a block boundary. */
  predicate Moved(off: nat, n: nat, tot: nat, turns: nat) {
    && tot <= n && turns <= Span(off, tot) && (tot == 0 ==> turns == 0)
    && (0 < tot < n ==> (off + tot) % BSIZE == 0)
  }

  lemma Quotient(x: nat, k: nat, r: nat)
    requires x == BSIZE * k + r && r < BSIZE
    ensures x / BSIZE == k && x % BSIZE == r
  {
  }

  lemma ModAdd(off: nat, tot: nat)
    ensures (off + tot) % BSIZE == (off % BSIZE + tot) % BSIZE
  {
    var q, t := off / BSIZE, off % BSIZE + tot;
    assert off + tot == BSIZE * q + t;
    assert t == BSIZE * (t / BSIZE) + t % BSIZE;
    Quotient(off + tot, q + t / BSIZE, t % BSIZE);
  }

  lemma FirstStep(off: nat, n: nat)
    requires 0 < n
    ensures var m := Step(off, n, 0); 0 < m <= n && off % BSIZE + m <= BSIZE && Moved(off, n, m, 1)
  {
    var m, r := Step(off, n, 0), off % BSIZE;
    assert m <= BSIZE - r;
    Quotient(r + m + BSIZE - 1, 1, r + m - 1);
    ModAdd(off, m);
  }

  lemma NextStep(off: nat, n: nat, tot: nat, turns: nat)
    requires 0 < tot < n && Moved(off, n, tot, turns)
    ensures var m := Step(off, n, tot);
            0 < m && tot + m <= n && (off + tot) % BSIZE + m <= BSIZE && Moved(off, n, tot + m, turns + 1)
  {
    var m, t := Step(off, n, tot), off % BSIZE + tot;
    ModAdd(off, tot);
    var k := t / BSIZE;
    assert t == BSIZE * k;
    Quotient(t + BSIZE - 1, k, BSIZE - 1);
    Quotient(t + m + BSIZE - 1, k + 1, m - 1);
    ModAdd(off, tot + m);
    assert tot + m < n ==> m == BSIZE;
    if m == BSIZE { Quotient(t + m, k + 1, 0); }
  }

  /** Every turn but the last ends on a block boundary, so the turns are at most the blocks spanned. */
  lemma StepsSpan(off: nat, n: nat, tot: nat, turns: nat)
    requires tot < n && Moved(off, n, tot, turns)
    ensures var m := Step(off, n, tot);
            && 0 < m && tot + m <= n && (off + tot) % BSIZE + m <= BSIZE
            && Moved(off, n, tot + m, turns + 1)
  {
    hide Step, Span;
    if tot == 0 {
      FirstStep(off, n);
    } else {
      NextStep(off, n, tot, turns);
    }
  }

  lemma NoneMoved(off: nat, n: nat)
    ensures Moved(off, n, 0, 0)
  {
  }

  lemma TurnsSpan(off: nat, n: nat, tot: nat, turns: nat)
    requires Moved(off, n, tot, turns)
    ensures turns <= Span(off, n)
  {
  }

  /** The size and the disk copy of the inode after a write that made the file longer. */
  lemma GrowFile(sb: Super, d0: Disk, d: Disk, d': Disk, h: Held, owner0: Owners, owner: Owners, len: nat,
                 bytes: seq<Byte>)
    requires Holding(sb, d, h, owner, len, bytes) && Owned(sb, d', h, owner, {}) && SyncedDisk(sb, d, d', h)
    requires |d0| == sb.size && OthersKept(sb, d0, d, owner0, owner, h.inum)
    ensures Holding(sb, d', h, owner, len, bytes) && OthersKept(sb, d0, d', owner0, owner, h.inum)
  {
    hide Bit, Addr, Owned, HoleFree, FileBytes, OthersKept;
    UpdateKeeps(sb, d, d', h, owner, len, bytes);
    OthersKeptTrans(sb, d0, d, d', owner0, owner, owner, h.inum);
  }

  function Min(a: nat, b: nat): nat { if a < b then a else b }

  lemma StepInBlock(off: nat, n: nat, tot: nat)
    requires tot < n
    ensures var m := Step(off, n, tot); 0 < m && tot + m <= n && (off + tot) % BSIZE + m <= BSIZE
  {
  }

  lemma FileFits(sb: Super, d: Disk, h: Held, owner: Owners)
    requires Owned(sb, d, h, owner, {}) && HoleFree(d, h.ip, h.ip.size)
    ensures InShape(sb, d, h) && h.ip.size <= MAXFILE * BSIZE
  {
  }

  /** m bytes at `at`, inside one block, are the bytes of that block. */
  lemma ReadBlock(sb: Super, d: Disk, h: Held, owner: Owners, len: nat, at: nat, m: nat)
    requires Owned(sb, d, h, owner, {}) && HoleFree(d, h.ip, len)
    requires 0 < m && at + m <= len && at % BSIZE + m <= BSIZE
    ensures at / BSIZE < MAXFILE && 0 < FileBlock(d, h.ip, at / BSIZE) < |d|
    ensures FileBytes(d, h.ip, len)[at..at + m] == d[FileBlock(d, h.ip, at / BSIZE)][at % BSIZE..at % BSIZE + m]
  {
    hide Bit, Addr, Owned, SlotOf;
    OwnedShape(sb, d, h, owner, {});
    var x := at / BSIZE;
    assert x * BSIZE <= at;
    assert FileBlock(d, h.ip, x) != 0;
    SlotOwned(sb, d, h, owner, FileSlot(x));
    var s, t := FileBytes(d, h.ip, len)[at..at + m], d[FileBlock(d, h.ip, x)][at % BSIZE..at % BSIZE + m];
    forall o | 0 <= o < m
      ensures s[o] == t[o]
    {
      assert (at + o) / BSIZE == x && (at + o) % BSIZE == at % BSIZE + o;
      assert s[o] == ByteAt(d, h.ip, at + o);
    }
  }

  lemma AlreadyMapped(sb: Super, d: Disk, d': Disk, owner: Owners, owner': Owners, h: Held, h': Held, bn: nat, a: nat)
    requires h.ip.Valid() && h'.ip.Valid() && bn < MAXFILE && Mapped(sb, d, d', owner, owner', h, h', bn, a)
    requires FileBlock(d, h.ip, bn) != 0
    ensures d' == d && owner' == owner && h' == h && a == FileBlock(d, h.ip, bn)
  {
  }

  // ---------------------------------------------------------------- itrunc

  /** The block map without the blocks of inode inum in slots below k. */
  function Without(owner: Owners, inum: nat, k: nat): Owners {
    map b | b in owner && !(owner[b].0 == inum && owner[b].1 < k) :: owner[b]
  }

  /** Only the free map changed. */
  predicate MapOnly(sb: Super, d: Disk, d': Disk) {
    |d'| == |d| && forall x :: 0 <= x < |d| && !(sb.bmapstart <= x < sb.datastart) ==> d'[x] == d[x]
  }

  /** The table of an inode and those of its words from j on: what itrunc has still to free. */
  function Rest(table: Block, t: nat, j: nat): set<nat> {
    {t} + set k | j <= k < NINDIRECT && WordAt(table, k) != 0 :: WordAt(table, k) as nat
  }

  /** Taking word j out of what is left leaves exactly the rest: no block is named twice. */
  lemma RestStep(sb: Super, d: Disk, h: Held, owner: Owners, j: nat)
    requires Owned(sb, d, h, owner, {}) && 0 < h.ip.addrs[NDIRECT] < |d| && j < NINDIRECT
    ensures var t := h.ip.addrs[NDIRECT]; var w := WordAt(d[t], j);
            && (w == 0 ==> Rest(d[t], t, j + 1) == Rest(d[t], t, j))
            && (w != 0 ==> w in Rest(d[t], t, j) && Rest(d[t], t, j) - {w as nat} == Rest(d[t], t, j + 1))
  {
    hide Bit;
    var t := h.ip.addrs[NDIRECT];
    var w := WordAt(d[t], j);
    if w != 0 {
      assert Addr(sb, d, h, h.inum, NDIRECT + 1 + j) == w;
      assert Addr(sb, d, h, h.inum, NDIRECT) == t;
      forall k | j < k < NINDIRECT && WordAt(d[t], k) != 0
        ensures WordAt(d[t], k) != w
      {
        assert Addr(sb, d, h, h.inum, NDIRECT + 1 + k) == WordAt(d[t], k);
      }
    }
  }

  lemma RestBounds(d: Disk, t: nat)
    requires t < |d|
    ensures Rest(d[t], t, 0) == TableBlocks(d, t) && Rest(d[t], t, NINDIRECT) == {t}
  {
    hide WordAt;
  }

  lemma WithoutMore(owner: Owners, all: Owners, inum: nat, k: nat, k': nat, gone: set<nat>)
    requires owner == Without(all, inum, k) && k <= k'
    requires forall b :: b in owner ==> (b in gone <==> owner[b].0 == inum && owner[b].1 < k')
    ensures owner - gone == Without(all, inum, k')
  {
  }

  lemma DirectOwner(sb: Super, d: Disk, h: Held, owner: Owners, all: Owners, k: nat, b: nat)
    requires Owned(sb, d, h, owner, {}) && owner == Without(all, h.inum, k) && k < NDIRECT && b in owner
    ensures h.ip.Valid()
    ensures b == h.ip.addrs[k] <==> owner[b].0 == h.inum && owner[b].1 < k + 1
    ensures b != 0
  {
    hide Bit, Owned, Without, InShape;
    WithoutAt(all, h.inum, k, b);
    DirectSlot(sb, d, h, owner, k);
    if owner[b].0 == h.inum && owner[b].1 == k {
      DirectBlock(sb, d, h, owner, k, b);
    }
  }

  lemma WithoutAt(all: Owners, inum: nat, k: nat, b: nat)
    requires b in Without(all, inum, k)
    ensures Without(all, inum, k)[b].0 == inum ==> Without(all, inum, k)[b].1 >= k
  {
  }

  /** The block in a direct slot of the inode is owned by that slot. */
  lemma DirectSlot(sb: Super, d: Disk, h: Held, owner: Owners, k: nat)
    requires Owned(sb, d, h, owner, {}) && k < NDIRECT
    ensures h.ip.Valid() && (h.ip.addrs[k] != 0 ==> h.ip.addrs[k] in owner && owner[h.ip.addrs[k]] == (h.inum, k))
    ensures 0 !in owner
  {
    hide Bit, InodeIn, OwnersHold;
    assert Addr(sb, d, h, h.inum, k) == h.ip.addrs[k];
    OwnedShape(sb, d, h, owner, {});
  }

  lemma DirectBlock(sb: Super, d: Disk, h: Held, owner: Owners, k: nat, b: nat)
    requires Owned(sb, d, h, owner, {}) && k < NDIRECT && b in owner && owner[b] == (h.inum, k)
    ensures h.ip.Valid() && h.ip.addrs[k] == b
  {
    hide Bit, InodeIn, SlotsOwned;
    assert Addr(sb, d, h, owner[b].0, owner[b].1) == b;
  }

  lemma WithoutDirect(sb: Super, d: Disk, h: Held, owner: Owners, all: Owners, k: nat)
    requires Owned(sb, d, h, owner, {}) && owner == Without(all, h.inum, k) && k < NDIRECT
    ensures h.ip.addrs[k] == 0 ==> owner == Without(all, h.inum, k + 1)
    ensures h.ip.addrs[k] != 0 ==> owner - {h.ip.addrs[k] as nat} == Without(all, h.inum, k + 1)
  {
    hide Bit, Owned, Without, InShape;
    DirectSlot(sb, d, h, owner, k);
    var a: nat := h.ip.addrs[k];
    var gone: set<nat> := if a == 0 then {} else {a};
    forall b | b in owner
      ensures b in gone <==> owner[b].0 == h.inum && owner[b].1 < k + 1
    {
      DirectOwner(sb, d, h, owner, all, k, b);
    }
    WithoutMore(owner, all, h.inum, k, k + 1, gone);
  }

  lemma WithoutTable(sb: Super, d: Disk, h: Held, owner: Owners, all: Owners)
    requires Owned(sb, d, h, owner, {}) && owner == Without(all, h.inum, NDIRECT)
    ensures h.ip.addrs[NDIRECT] == 0 ==> owner == Without(all, h.inum, SLOTS)
    ensures h.ip.addrs[NDIRECT] != 0 ==>
      h.ip.addrs[NDIRECT] < |d| && owner - TableBlocks(d, h.ip.addrs[NDIRECT]) == Without(all, h.inum, SLOTS)
  {
    hide Bit, Without, WordAt;
    var t := h.ip.addrs[NDIRECT];
    if t != 0 { SlotOwned(sb, d, h, owner, NDIRECT); }
    var gone: set<nat> := if t == 0 then {} else TableBlocks(d, t);
    forall b | b in owner
      ensures b in gone <==> owner[b].0 == h.inum && owner[b].1 < SLOTS
    {
      if owner[b].0 == h.inum {
        assert owner[b].1 >= NDIRECT by { WithoutOf(all, h.inum, NDIRECT, b); }
        NamedInTable(sb, d, h, owner, b);
      }
      if b in gone { OwnedByTable(sb, d, h, owner, b); }
    }
    WithoutMore(owner, all, h.inum, NDIRECT, SLOTS, gone);
  }

  lemma WithoutOf(all: Owners, inum: nat, k: nat, b: nat)
    requires b in Without(all, inum, k) && Without(all, inum, k)[b].0 == inum
    ensures Without(all, inum, k)[b].1 >= k
  {
  }

  lemma NamedInTable(sb: Super, d: Disk, h: Held, owner: Owners, b: nat)
    requires Owned(sb, d, h, owner, {}) && b in owner && owner[b].0 == h.inum && owner[b].1 >= NDIRECT
    ensures 0 < h.ip.addrs[NDIRECT] < |d| && b in TableBlocks(d, h.ip.addrs[NDIRECT])
  {
    hide Bit, WordAt;
    var t, k := h.ip.addrs[NDIRECT], owner[b].1;
    assert Addr(sb, d, h, h.inum, k) == b;
    if k > NDIRECT {
      assert t != 0 && t < |d|;
      assert WordAt(d[t], k - NDIRECT - 1) == b;
    }
  }

  lemma OwnedByTable(sb: Super, d: Disk, h: Held, owner: Owners, b: nat)
    requires Owned(sb, d, h, owner, {}) && 0 < h.ip.addrs[NDIRECT] < |d| && b in TableBlocks(d, h.ip.addrs[NDIRECT])
    ensures b in owner && owner[b].0 == h.inum && NDIRECT <= owner[b].1 < SLOTS
  {
    hide Bit, WordAt;
    var t := h.ip.addrs[NDIRECT];
    if b != t {
      var j :| 0 <= j < NINDIRECT && WordAt(d[t], j) == b && b != 0;
      assert Addr(sb, d, h, h.inum, NDIRECT + 1 + j) == b;
    } else {
      assert Addr(sb, d, h, h.inum, NDIRECT) == t;
    }
  }

  lemma PendingInRange(sb: Super, d: Disk, h: Held, owner: Owners, pending: set<nat>, b: nat)
    requires Owned(sb, d, h, owner, pending) && b in pending
    ensures sb.datastart <= b < sb.size
  {
  }

  lemma OwnedSameAddrs(sb: Super, d: Disk, h: Held, h': Held, owner: Owners)
    requires Owned(sb, d, h, owner, {}) && h'.inum == h.inum && h'.ip.addrs == h.ip.addrs
    ensures Owned(sb, d, h', owner, {})
  {
    forall i, k | 0 <= i < sb.ninodes && 0 <= k < SLOTS
      ensures Addr(sb, d, h', i, k) == Addr(sb, d, h, i, k)
    {
      hide Bit;
    }
    Transfer(sb, d, h, d, h', owner, {});
  }

  lemma WithoutAll(sb: Super, d: Disk, h: Held, owner: Owners, inum: nat)
    requires Owned(sb, d, h, owner, {})
    ensures Without(owner, inum, SLOTS) == map b | b in owner && owner[b].0 != inum :: owner[b]
  {
    hide Bit, Addr;
  }

  lemma TruncKeepsOthers(sb: Super, d0: Disk, d1: Disk, d2: Disk, h: Held, owner: Owners, owner': Owners)
    requires sb.Valid() && |d0| == sb.size && h.inum < sb.ninodes
    requires (forall b :: b in owner ==> sb.datastart <= b < sb.size)
    requires owner' == map b | b in owner && owner[b].0 != h.inum :: owner[b]
    requires MapOnly(sb, d0, d1) && SyncedDisk(sb, d1, d2, h)
    ensures |d2| == sb.size && OthersKept(sb, d0, d2, owner, owner', h.inum)
  {
    hide InodeIn, Super.Iblock, Super.Valid, MapOnly;
    forall b | b in owner && owner[b].0 != h.inum && b < sb.size
      ensures d2[b] == d0[b]
    {
      TruncBlock(sb, d0, d1, d2, h, b);
    }
    forall i | 0 <= i < sb.ninodes && i != h.inum && sb.Iblock(i) < sb.size
      ensures InodeIn(d2[sb.Iblock(i)], i) == InodeIn(d0[sb.Iblock(i)], i)
    {
      TruncInode(sb, d0, d1, d2, h, i);
    }
  }

  lemma TruncBlock(sb: Super, d0: Disk, d1: Disk, d2: Disk, h: Held, b: nat)
    requires sb.Valid() && |d0| == sb.size && h.inum < sb.ninodes && sb.datastart <= b < sb.size
    requires MapOnly(sb, d0, d1) && SyncedDisk(sb, d1, d2, h)
    ensures d2[b] == d0[b]
  {
    hide InodeIn, Super.Iblock;
    Regions(sb, 0, h.inum);
    assert d2[b] == d1[b];
  }

  lemma TruncInode(sb: Super, d0: Disk, d1: Disk, d2: Disk, h: Held, i: nat)
    requires sb.Valid() && |d0| == sb.size && h.inum < sb.ninodes && i < sb.ninodes && i != h.inum
    requires sb.Iblock(i) < sb.size
    requires MapOnly(sb, d0, d1) && SyncedDisk(sb, d1, d2, h)
    ensures InodeIn(d2[sb.Iblock(i)], i) == InodeIn(d0[sb.Iblock(i)], i)
  {
    hide InodeIn, Super.Iblock;
    Regions(sb, 0, i);
    assert d1[sb.Iblock(i)] == d0[sb.Iblock(i)];
  }

  lemma BitOwned(sb: Super, d: Disk, h: Held, owner: Owners, b: nat)
    requires Owned(sb, d, h, owner, {}) && b < sb.size
    ensures Bit(sb, d, b) <==> b < sb.datastart || b in owner
    ensures b in owner ==> sb.datastart <= b
  {
  }

  /** What itrunc leaves: the set bits lose exactly the blocks of the inode. */
  lemma TruncSummary(sb: Super, d0: Disk, d1: Disk, d2: Disk, h0: Held, h2: Held, owner0: Owners, owner2: Owners)
    requires Owned(sb, d0, h0, owner0, {}) && Owned(sb, d2, h2, owner2, {}) && h2.inum == h0.inum
    requires owner2 == Without(owner0, h0.inum, SLOTS) && MapOnly(sb, d0, d1) && SyncedDisk(sb, d1, d2, h2)
    ensures sb.Valid() && |d0| == |d2| == sb.size
    ensures owner2 == map b | b in owner0 && owner0[b].0 != h0.inum :: owner0[b]
    ensures OthersKept(sb, d0, d2, owner0, owner2, h0.inum)
    ensures forall b :: 0 <= b < sb.size ==>
              (Bit(sb, d2, b) <==> Bit(sb, d0, b) && !(b in owner0 && owner0[b].0 == h0.inum))
  {
    hide Bit, Addr, Owned, InodeIn, OthersKept, Without;
    OwnedShape(sb, d0, h0, owner0, {});
    OwnedShape(sb, d2, h2, owner2, {});
    WithoutAll(sb, d0, h0, owner0, h0.inum);
    TruncKeepsOthers(sb, d0, d1, d2, h2, owner0, owner2);
    forall b | 0 <= b < sb.size
      ensures Bit(sb, d2, b) <==> Bit(sb, d0, b) && !(b in owner0 && owner0[b].0 == h0.inum)
    {
      BitOwned(sb, d0, h0, owner0, b);
      BitOwned(sb, d2, h2, owner2, b);
    }
  }

  // ---------------------------------------------------------------- consequences for the byte sequence

  /** What was written is read back; bytes outside stay. */
  lemma ReadBack(s: seq<Byte>, off: nat, src: seq<Byte>, o: nat)
    requires off <= |s|
    ensures |Overwrite(s, off, src)| == Max(|s|, off + |src|)
    ensures Overwrite(s, off, src)[off..off + |src|] == src
    ensures o < |Overwrite(s, off, src)| && !(off <= o < off + |src|) ==> o < |s| && Overwrite(s, off, src)[o] == s[o]
  {
    assert Overwrite(s, off, src)[off..off + |src|] == src;
  }

  /** Other files keep their inode, their blocks and every byte. */
  lemma OtherFilesKept(sb: Super, d: Disk, d': Disk, h: Held, h': Held, owner: Owners, owner': Owners, i: nat, o: nat)
    requires Owned(sb, d, h, owner, {}) && Owned(sb, d', h', owner', {}) && h'.inum == h.inum
    requires OthersKept(sb, d, d', owner, owner', h.inum) && i < sb.ninodes && i != h.inum && o < MAXFILE * BSIZE
    ensures InodeAt(sb, d', h', i) == InodeAt(sb, d, h, i)
    ensures ByteAt(d', InodeAt(sb, d', h', i), o) == ByteAt(d, InodeAt(sb, d, h, i), o)
  {
    hide Bit, WordAt;
    Regions(sb, 0, i);
    var ip := InodeAt(sb, d, h, i);
    assert InodeAt(sb, d', h', i) == ip;
    assert Addr(sb, d, h, i, NDIRECT) == ip.addrs[NDIRECT];
    var k := FileSlot(o / BSIZE);
    assert Addr(sb, d, h, i, k) == FileBlock(d, ip, o / BSIZE);
  }

  /**
   mkfs sets the root directory's size to the next multiple of BSIZE above it.  The directory
   stays free of holes exactly when its size was no multiple before.
   */
  lemma MkfsRootHole(d: Disk, ip: DInode, size: nat)
    requires ip.Valid() && HoleFree(d, ip, size) && size < MAXFILE * BSIZE
    ensures HoleFree(d, ip, (size / BSIZE + 1) * BSIZE) <==> size % BSIZE != 0
  {
    var size' := (size / BSIZE + 1) * BSIZE;
    if size % BSIZE == 0 {
      assert FileBlock(d, ip, size / BSIZE) == 0;
    } else {
      forall bn | 0 <= bn < MAXFILE
        ensures FileBlock(d, ip, bn) != 0 <==> bn * BSIZE < size'
      {
        assert bn * BSIZE < size <==> bn * BSIZE < size';
      }
      assert NDIRECT * BSIZE < size <==> NDIRECT * BSIZE < size';
    }
  }

  lemma SlicesJoin(bytes: seq<Byte>, a: nat, b: nat, c: nat)
    requires a <= b <= c <= |bytes|
    ensures bytes[a..b] + bytes[b..c] == bytes[a..c]
  {
  }
}
