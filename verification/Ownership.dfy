/**
 Who owns which disk block.  A block is owned by one slot of one inode: slot k <= NDIRECT is
 addrs[k] (NDIRECT being the indirect table itself), slot NDIRECT + 1 + j is word j of the table.
 */
module Ownership {
  import opened Blocks
  import opened Layout

  const SLOTS: nat := NDIRECT + 1 + NINDIRECT

  /** The inode the running operation has locked; its in-memory copy may be ahead of the disk. */
  datatype Held = Held(inum: nat, ip: DInode)

  type Owners = map<nat, (nat, nat)>

  predicate InShape(sb: Super, d: Disk, h: Held) {
    sb.Valid() && |d| == sb.size && h.inum < sb.ninodes && h.ip.Valid()
  }

  predicate Bit(sb: Super, d: Disk, b: nat)
    requires sb.Valid() && |d| == sb.size && b < sb.size
  {
    BitOf(d[sb.Bblock(b)], b % BPB)
  }

  /** No block is free. */
  predicate Full(sb: Super, d: Disk) {
    sb.Valid() && |d| == sb.size && forall b :: 0 <= b < sb.size ==> Bit(sb, d, b)
  }

  function InodeAt(sb: Super, d: Disk, h: Held, i: nat): (ip: DInode)
    requires InShape(sb, d, h) && i < sb.ninodes
    ensures ip.Valid()
  {
    if i == h.inum then h.ip else InodeIn(d[sb.Iblock(i)], i)
  }

  /** The block number in slot k of an inode, 0 when there is none. */
  function SlotOf(d: Disk, ip: DInode, k: nat): nat
    requires ip.Valid() && k < SLOTS
  {
    if k <= NDIRECT then ip.addrs[k]
    else if ip.addrs[NDIRECT] == 0 || ip.addrs[NDIRECT] >= |d| then 0
    else WordAt(d[ip.addrs[NDIRECT]], k - NDIRECT - 1)
  }

  function Addr(sb: Super, d: Disk, h: Held, i: nat, k: nat): nat
    requires InShape(sb, d, h) && i < sb.ninodes && k < SLOTS
  {
    SlotOf(d, InodeAt(sb, d, h, i), k)
  }

  predicate IsSlot(sb: Super, s: (nat, nat)) { s.0 < sb.ninodes && s.1 < SLOTS }

  /**
   Every block number in a slot is owned by exactly that slot, and the set bits of the free map
   are exactly the metadata, the owned blocks and those just allocated or about to be freed.
   */
  predicate Owned(sb: Super, d: Disk, h: Held, owner: Owners, pending: set<nat>) {
    && InShape(sb, d, h)
    && OwnersHold(sb, d, h, owner)
    && SlotsOwned(sb, d, h, owner)
    && (forall b :: 0 <= b < sb.size ==> (Bit(sb, d, b) <==> b < sb.datastart || b in owner || b in pending))
    && (forall b :: b in pending ==> b !in owner && sb.datastart <= b < sb.size)
  }

  predicate OwnersHold(sb: Super, d: Disk, h: Held, owner: Owners)
    requires InShape(sb, d, h)
  {
    forall b :: b in owner ==>
      sb.datastart <= b < sb.size && IsSlot(sb, owner[b]) && Addr(sb, d, h, owner[b].0, owner[b].1) == b
  }

  predicate SlotsOwned(sb: Super, d: Disk, h: Held, owner: Owners)
    requires InShape(sb, d, h)
  {
    forall i, k :: 0 <= i < sb.ninodes && 0 <= k < SLOTS && Addr(sb, d, h, i, k) != 0 ==>
      Addr(sb, d, h, i, k) in owner && owner[Addr(sb, d, h, i, k)] == (i, k)
  }

  /** No block is in two slots. */
  lemma Disjoint(sb: Super, d: Disk, h: Held, owner: Owners, pending: set<nat>, s: (nat, nat), t: (nat, nat))
    requires Owned(sb, d, h, owner, pending) && IsSlot(sb, s) && IsSlot(sb, t)
    requires Addr(sb, d, h, s.0, s.1) == Addr(sb, d, h, t.0, t.1) != 0
    ensures s == t
  {
  }

  lemma Regions(sb: Super, b: nat, i: nat)
    requires sb.Valid() && b < sb.size
    ensures sb.bmapstart <= sb.Bblock(b) < sb.datastart <= sb.size
    ensures i < sb.ninodes ==> sb.inodestart <= sb.Iblock(i) < sb.bmapstart && 0 < sb.Iblock(i)
  {
  }

  lemma DataAfterInodes(sb: Super, x: nat)
    requires sb.Valid() && sb.bmapstart <= x
    ensures sb.inodestart <= x
  {
    assert 0 <= sb.ninodes / IPB;
  }

  /** A slot is unchanged when neither its inode's block nor its table changes. */
  lemma SameAddr(sb: Super, d: Disk, d': Disk, h: Held, i: nat, k: nat)
    requires InShape(sb, d, h) && |d'| == |d| && i < sb.ninodes && k < SLOTS
    requires i == h.inum || d'[sb.Iblock(i)] == d[sb.Iblock(i)]
    requires var t := InodeAt(sb, d, h, i).addrs[NDIRECT]; t != 0 && t < |d| ==> d'[t] == d[t]
    ensures Addr(sb, d', h, i, k) == Addr(sb, d, h, i, k)
  {
  }

  predicate SameSlots(sb: Super, d: Disk, h: Held, d': Disk, h': Held)
    requires InShape(sb, d, h) && InShape(sb, d', h')
  {
    forall i, k :: 0 <= i < sb.ninodes && 0 <= k < SLOTS ==> Addr(sb, d', h', i, k) == Addr(sb, d, h, i, k)
  }

  predicate SameBits(sb: Super, d: Disk, d': Disk)
    requires sb.Valid() && |d| == |d'| == sb.size
  {
    forall b :: 0 <= b < sb.size ==> Bit(sb, d', b) == Bit(sb, d, b)
  }

  lemma Transfer(sb: Super, d: Disk, h: Held, d': Disk, h': Held, owner: Owners, pending: set<nat>)
    requires Owned(sb, d, h, owner, pending) && InShape(sb, d', h')
    requires SameSlots(sb, d, h, d', h') && SameBits(sb, d, d')
    ensures Owned(sb, d', h', owner, pending)
  {
    hide Addr, Bit;
  }

  /** Changing block x moves no block, if x holds no inode and no indirect table. */
  lemma WriteKeepsSlots(sb: Super, d: Disk, h: Held, owner: Owners, pending: set<nat>, x: nat, v: Block)
    requires Owned(sb, d, h, owner, pending) && sb.bmapstart <= x < sb.size
    requires x in owner ==> owner[x].1 != NDIRECT
    ensures SameSlots(sb, d, h, d[x := v], h)
  {
    var d' := d[x := v];
    forall i, k | 0 <= i < sb.ninodes && 0 <= k < SLOTS
      ensures Addr(sb, d', h, i, k) == Addr(sb, d, h, i, k)
    {
      hide Bit;
      Regions(sb, x, i);
      assert Addr(sb, d, h, i, NDIRECT) == InodeAt(sb, d, h, i).addrs[NDIRECT];
      SameAddr(sb, d, d', h, i, k);
    }
  }

  lemma WriteKeepsBits(sb: Super, d: Disk, x: nat, v: Block)
    requires sb.Valid() && |d| == sb.size && x < sb.size && !(sb.bmapstart <= x < sb.datastart)
    ensures SameBits(sb, d, d[x := v])
  {
    forall b | 0 <= b < sb.size
      ensures Bit(sb, d[x := v], b) == Bit(sb, d, b)
    {
      Regions(sb, b, 0);
    }
  }

  /** Writing a data block that is no indirect table. */
  lemma WriteData(sb: Super, d: Disk, h: Held, owner: Owners, pending: set<nat>, x: nat, v: Block)
    requires Owned(sb, d, h, owner, pending) && sb.datastart <= x < sb.size
    requires x in owner ==> owner[x].1 != NDIRECT
    ensures Owned(sb, d[x := v], h, owner, pending) && SameSlots(sb, d, h, d[x := v], h)
  {
    hide Addr, Bit;
    WriteKeepsSlots(sb, d, h, owner, pending, x, v);
    WriteKeepsBits(sb, d, x, v);
    Transfer(sb, d, h, d[x := v], h, owner, pending);
  }

  // ---------------------------------------------------------------- the free map

  lemma BitAfter(sb: Super, d: Disk, b: nat, v: Block, x: nat)
    requires sb.Valid() && |d| == sb.size && b < sb.size && x < sb.size
    ensures Bit(sb, d[sb.Bblock(b) := v], x) ==
            if x / BPB == b / BPB then BitOf(v, x % BPB) else Bit(sb, d, x)
  {
  }

  /** balloc marks a free block: it becomes pending. */
  lemma MarkUsed(sb: Super, d: Disk, h: Held, owner: Owners, pending: set<nat>, b: nat)
    requires Owned(sb, d, h, owner, pending) && b < sb.size && !Bit(sb, d, b)
    ensures b !in owner && b !in pending && sb.datastart <= b
    ensures var d' := d[sb.Bblock(b) := SetBitOf(d[sb.Bblock(b)], b % BPB)];
            Owned(sb, d', h, owner, pending + {b}) && SameSlots(sb, d, h, d', h)
  {
    var v := SetBitOf(d[sb.Bblock(b)], b % BPB);
    Regions(sb, b, 0);
    WriteKeepsSlots(sb, d, h, owner, pending, sb.Bblock(b), v);
    FlipBit(sb, d, h, owner, pending, pending + {b}, b, v);
  }

  /** bfree clears the bit of a block nobody owns any more. */
  lemma MarkFree(sb: Super, d: Disk, h: Held, owner: Owners, pending: set<nat>, b: nat)
    requires Owned(sb, d, h, owner, pending) && b in pending
    ensures Bit(sb, d, b)
    ensures var d' := d[sb.Bblock(b) := ClearBitOf(d[sb.Bblock(b)], b % BPB)];
            Owned(sb, d', h, owner, pending - {b}) && SameSlots(sb, d, h, d', h)
  {
    assert Bit(sb, d, b);
    var v := ClearBitOf(d[sb.Bblock(b)], b % BPB);
    Regions(sb, b, 0);
    WriteKeepsSlots(sb, d, h, owner, pending, sb.Bblock(b), v);
    FlipBit(sb, d, h, owner, pending, pending - {b}, b, v);
  }

  lemma FlipBit(sb: Super, d: Disk, h: Held, owner: Owners, pending: set<nat>, pending': set<nat>, b: nat, v: Block)
    requires Owned(sb, d, h, owner, pending) && sb.datastart <= b < sb.size && b !in owner
    requires forall x :: x != b ==> (x in pending' <==> x in pending)
    requires SameSlots(sb, d, h, d[sb.Bblock(b) := v], h)
    requires forall j :: 0 <= j < BPB && j != b % BPB ==> BitOf(v, j) == BitOf(d[sb.Bblock(b)], j)
    requires BitOf(v, b % BPB) == (b in pending')
    ensures Owned(sb, d[sb.Bblock(b) := v], h, owner, pending')
  {
    hide Addr, BitOf, Bit, Super.Bblock;
    Regions(sb, b, 0);
    var d' := d[sb.Bblock(b) := v];
    forall x | 0 <= x < sb.size
      ensures Bit(sb, d', x) <==> x < sb.datastart || x in owner || x in pending'
    {
      BitFlipped(sb, d, b, v, x);
    }
  }

  lemma BitFlipped(sb: Super, d: Disk, b: nat, v: Block, x: nat)
    requires sb.Valid() && |d| == sb.size && b < sb.size && x < sb.size && sb.Bblock(b) < |d|
    requires forall j :: 0 <= j < BPB && j != b % BPB ==> BitOf(v, j) == BitOf(d[sb.Bblock(b)], j)
    ensures Bit(sb, d[sb.Bblock(b) := v], x) == if x == b then BitOf(v, b % BPB) else Bit(sb, d, x)
  {
    hide BitOf;
    BitAfter(sb, d, b, v, x);
    OtherBit(b, x);
  }

  lemma OtherBit(b: nat, x: nat)
    ensures x / BPB == b / BPB && x != b ==> x % BPB != b % BPB
  {
  }

  // ---------------------------------------------------------------- slots

  /** The two states agree on every slot but s, which holds a in the second. */
  predicate SlotsExcept(sb: Super, d: Disk, h: Held, d': Disk, h': Held, s: (nat, nat), a: nat)
    requires InShape(sb, d, h) && InShape(sb, d', h')
  {
    forall i, k :: 0 <= i < sb.ninodes && 0 <= k < SLOTS ==>
      Addr(sb, d', h', i, k) == if (i, k) == s then a else Addr(sb, d, h, i, k)
  }

  /** A pending block enters an empty slot. */
  lemma Attach(sb: Super, d: Disk, h: Held, d': Disk, h': Held, owner: Owners, pending: set<nat>, s: (nat, nat), b: nat)
    requires Owned(sb, d, h, owner, pending) && InShape(sb, d', h') && IsSlot(sb, s)
    requires SlotsExcept(sb, d, h, d', h', s, b) && SameBits(sb, d, d')
    requires b in pending && Addr(sb, d, h, s.0, s.1) == 0
    ensures Owned(sb, d', h', owner[b := s], pending - {b})
  {
    hide Addr, Bit;
  }

  /** The block of a slot leaves it and becomes pending. */
  lemma Detach(sb: Super, d: Disk, h: Held, d': Disk, h': Held, owner: Owners, pending: set<nat>, s: (nat, nat))
    requires Owned(sb, d, h, owner, pending) && InShape(sb, d', h') && IsSlot(sb, s)
    requires SlotsExcept(sb, d, h, d', h', s, 0) && SameBits(sb, d, d')
    requires Addr(sb, d, h, s.0, s.1) != 0
    ensures var b := Addr(sb, d, h, s.0, s.1); b in owner && Owned(sb, d', h', owner - {b}, pending + {b})
  {
    hide Addr, Bit;
  }

  function WithAddr(h: Held, k: nat, a: Word): Held
    requires h.ip.Valid() && k <= NDIRECT
  {
    h.(ip := h.ip.(addrs := h.ip.addrs[k := a]))
  }

  /** addrs[k] = b: a direct block, or a zeroed indirect table. */
  lemma AttachDirect(sb: Super, d: Disk, h: Held, owner: Owners, pending: set<nat>, k: nat, b: Word)
    requires Owned(sb, d, h, owner, pending) && k <= NDIRECT && h.ip.addrs[k] == 0 && b in pending
    requires k == NDIRECT ==> d[b] == ZeroBlock()
    ensures Owned(sb, d, WithAddr(h, k, b), owner[b := (h.inum, k)], pending - {b})
  {
    var h' := WithAddr(h, k, b);
    forall i, l | 0 <= i < sb.ninodes && 0 <= l < SLOTS
      ensures Addr(sb, d, h', i, l) == if (i, l) == (h.inum, k) then b else Addr(sb, d, h, i, l)
    {
      hide Bit;
      if k == NDIRECT && l > NDIRECT { WordOfZero(l - NDIRECT - 1); }
    }
    Attach(sb, d, h, d, h', owner, pending, (h.inum, k), b);
  }

  /** a[j] = b in the indirect table of the held inode. */
  lemma AttachIndirect(sb: Super, d: Disk, h: Held, owner: Owners, pending: set<nat>, j: nat, b: Word)
    requires Owned(sb, d, h, owner, pending) && j < NINDIRECT && b in pending
    requires h.ip.addrs[NDIRECT] != 0 && Addr(sb, d, h, h.inum, NDIRECT + 1 + j) == 0
    ensures h.ip.addrs[NDIRECT] < |d|
    ensures var t := h.ip.addrs[NDIRECT]; var d' := d[t := PutWord(d[t], j, b)];
            Owned(sb, d', h, owner[b := (h.inum, NDIRECT + 1 + j)], pending - {b})
  {
    hide Addr, Bit, PutWord, Super.Iblock, Super.Bblock;
    TableInRange(sb, d, h, owner, pending);
    var t := h.ip.addrs[NDIRECT];
    var d' := d[t := PutWord(d[t], j, b)];
    forall i, k | 0 <= i < sb.ninodes && 0 <= k < SLOTS
      ensures Addr(sb, d', h, i, k) == if (i, k) == (h.inum, NDIRECT + 1 + j) then b else Addr(sb, d, h, i, k)
    {
      IndirectSlot(sb, d, h, owner, pending, j, b, i, k);
    }
    WriteKeepsBits(sb, d, t, PutWord(d[t], j, b));
    Attach(sb, d, h, d', h, owner, pending, (h.inum, NDIRECT + 1 + j), b);
  }

  lemma TableInRange(sb: Super, d: Disk, h: Held, owner: Owners, pending: set<nat>)
    requires Owned(sb, d, h, owner, pending) && h.ip.addrs[NDIRECT] != 0
    ensures sb.datastart <= h.ip.addrs[NDIRECT] < |d| && owner.Keys >= {h.ip.addrs[NDIRECT] as nat}
    ensures owner[h.ip.addrs[NDIRECT]] == (h.inum, NDIRECT)
  {
    hide Bit;
    assert Addr(sb, d, h, h.inum, NDIRECT) == h.ip.addrs[NDIRECT];
  }

  lemma IndirectSlot(sb: Super, d: Disk, h: Held, owner: Owners, pending: set<nat>, j: nat, b: Word, i: nat, k: nat)
    requires Owned(sb, d, h, owner, pending) && j < NINDIRECT && 0 < h.ip.addrs[NDIRECT] < |d| && i < sb.ninodes
    requires k < SLOTS
    ensures var d' := d[h.ip.addrs[NDIRECT] := PutWord(d[h.ip.addrs[NDIRECT]], j, b)];
            Addr(sb, d', h, i, k) == if (i, k) == (h.inum, NDIRECT + 1 + j) then b else Addr(sb, d, h, i, k)
  {
    hide Bit, PutWord, WordAt;
    var t := h.ip.addrs[NDIRECT];
    var d' := d[t := PutWord(d[t], j, b)];
    TableInRange(sb, d, h, owner, pending);
    Regions(sb, t, i);
    if i == h.inum {
      if k > NDIRECT { WordOfPut(d[t], j, b, k - NDIRECT - 1); }
    } else {
      assert Addr(sb, d, h, i, NDIRECT) == InodeAt(sb, d, h, i).addrs[NDIRECT];
      SameAddr(sb, d, d', h, i, k);
    }
  }

  /** addrs[k] = 0 for a direct block. */
  lemma DetachDirect(sb: Super, d: Disk, h: Held, owner: Owners, pending: set<nat>, k: nat)
    requires Owned(sb, d, h, owner, pending) && k < NDIRECT && h.ip.addrs[k] != 0
    ensures var b := h.ip.addrs[k]; b in owner && Owned(sb, d, WithAddr(h, k, 0), owner - {b}, pending + {b})
  {
    var h' := WithAddr(h, k, 0);
    assert Addr(sb, d, h, h.inum, k) == h.ip.addrs[k];
    forall i, l | 0 <= i < sb.ninodes && 0 <= l < SLOTS
      ensures Addr(sb, d, h', i, l) == if (i, l) == (h.inum, k) then 0 else Addr(sb, d, h, i, l)
    {
      hide Bit;
    }
    Detach(sb, d, h, d, h', owner, pending, (h.inum, k));
  }

  /** iupdate: afterwards the disk copy of the held inode is its in-memory copy. */
  lemma Sync(sb: Super, d: Disk, h: Held, owner: Owners, pending: set<nat>)
    requires Owned(sb, d, h, owner, pending)
    ensures sb.Iblock(h.inum) < |d|
    ensures var x := sb.Iblock(h.inum); var d' := d[x := PutInode(d[x], h.inum, h.ip)];
            && Owned(sb, d', h, owner, pending) && SameSlots(sb, d, h, d', h)
            && InodeIn(d'[x], h.inum) == h.ip
            && forall i :: 0 <= i < sb.ninodes && i != h.inum ==> InodeAt(sb, d', h, i) == InodeAt(sb, d, h, i)
  {
    Regions(sb, 0, h.inum);
    var x := sb.Iblock(h.inum);
    var v := PutInode(d[x], h.inum, h.ip);
    var d' := d[x := v];
    InodeRoundTrip(d[x], h.inum, h.ip, h.inum);
    forall i | 0 <= i < sb.ninodes
      ensures InodeAt(sb, d', h, i) == InodeAt(sb, d, h, i)
    {
      SyncOther(sb, d, h, i);
    }
    SyncSlots(sb, d, h, owner, pending, v);
    WriteKeepsBits(sb, d, x, v);
    Transfer(sb, d, h, d', h, owner, pending);
  }

  lemma SyncOther(sb: Super, d: Disk, h: Held, i: nat)
    requires InShape(sb, d, h) && i < sb.ninodes
    ensures sb.Iblock(h.inum) < |d|
    ensures var x := sb.Iblock(h.inum);
            InodeAt(sb, d[x := PutInode(d[x], h.inum, h.ip)], h, i) == InodeAt(sb, d, h, i)
  {
    Regions(sb, 0, h.inum);
    var x := sb.Iblock(h.inum);
    if i != h.inum && sb.Iblock(i) == x {
      hide InodeIn, PutInode;
      InodeRoundTrip(d[x], h.inum, h.ip, i);
      assert i % IPB != h.inum % IPB;
    }
  }

  lemma SyncSlots(sb: Super, d: Disk, h: Held, owner: Owners, pending: set<nat>, v: Block)
    requires Owned(sb, d, h, owner, pending)
    requires sb.Iblock(h.inum) < |d|
    requires forall i :: 0 <= i < sb.ninodes ==> InodeAt(sb, d[sb.Iblock(h.inum) := v], h, i) == InodeAt(sb, d, h, i)
    ensures SameSlots(sb, d, h, d[sb.Iblock(h.inum) := v], h)
  {
    hide Addr, Bit, InodeAt, Super.Iblock, Super.Bblock;
    Regions(sb, 0, h.inum);
    forall i, k | 0 <= i < sb.ninodes && 0 <= k < SLOTS
      ensures Addr(sb, d[sb.Iblock(h.inum) := v], h, i, k) == Addr(sb, d, h, i, k)
    {
      TableElsewhere(sb, d, h, owner, pending, i);
      SlotSame(sb, d, h, sb.Iblock(h.inum), v, i, k);
    }
  }

  lemma TableElsewhere(sb: Super, d: Disk, h: Held, owner: Owners, pending: set<nat>, i: nat)
    requires Owned(sb, d, h, owner, pending) && i < sb.ninodes
    ensures InodeAt(sb, d, h, i).addrs[NDIRECT] != 0 ==> sb.datastart <= InodeAt(sb, d, h, i).addrs[NDIRECT]
  {
    hide Bit, InodeAt;
    assert Addr(sb, d, h, i, NDIRECT) == InodeAt(sb, d, h, i).addrs[NDIRECT];
  }

  lemma SlotSame(sb: Super, d: Disk, h: Held, x: nat, v: Block, i: nat, k: nat)
    requires InShape(sb, d, h) && i < sb.ninodes && k < SLOTS && x < |d|
    requires InodeAt(sb, d[x := v], h, i) == InodeAt(sb, d, h, i)
    requires InodeAt(sb, d, h, i).addrs[NDIRECT] != 0 ==> x != InodeAt(sb, d, h, i).addrs[NDIRECT]
    ensures Addr(sb, d[x := v], h, i, k) == Addr(sb, d, h, i, k)
  {
    hide InodeAt, Super.Iblock, Super.Bblock;
  }

  /** The indirect table of an inode and the blocks it names. */
  function TableBlocks(d: Disk, t: nat): set<nat>
    requires t < |d|
  {
    {t} + set j | 0 <= j < NINDIRECT && WordAt(d[t], j) != 0 :: WordAt(d[t], j) as nat
  }

  /** addrs[NDIRECT] = 0 gives up the table and every block it names at once. */
  lemma DetachTable(sb: Super, d: Disk, h: Held, owner: Owners, pending: set<nat>)
    requires Owned(sb, d, h, owner, pending) && h.ip.addrs[NDIRECT] != 0
    ensures h.ip.addrs[NDIRECT] < |d| && TableBlocks(d, h.ip.addrs[NDIRECT]) <= owner.Keys
    ensures var bs := TableBlocks(d, h.ip.addrs[NDIRECT]);
            Owned(sb, d, WithAddr(h, NDIRECT, 0), owner - bs, pending + bs)
  {
    var t, h' := h.ip.addrs[NDIRECT], WithAddr(h, NDIRECT, 0);
    assert Addr(sb, d, h, h.inum, NDIRECT) == t;
    var bs := TableBlocks(d, t);
    forall i, k | 0 <= i < sb.ninodes && 0 <= k < SLOTS
      ensures Addr(sb, d, h', i, k) == if i == h.inum && k >= NDIRECT then 0 else Addr(sb, d, h, i, k)
    {
      hide Bit;
    }
    forall k | NDIRECT <= k < SLOTS && Addr(sb, d, h, h.inum, k) != 0
      ensures Addr(sb, d, h, h.inum, k) in bs
    {
      hide Bit;
    }
    forall b | b in bs
      ensures b in owner && owner[b].0 == h.inum && owner[b].1 >= NDIRECT
    {
      hide Bit;
      if b != t {
        var j :| 0 <= j < NINDIRECT && WordAt(d[t], j) == b && b != 0;
        assert Addr(sb, d, h, h.inum, NDIRECT + 1 + j) == b;
      }
    }
    GiveUp(sb, d, h, h', owner, pending, bs);
  }

  lemma GiveUp(sb: Super, d: Disk, h: Held, h': Held, owner: Owners, pending: set<nat>, bs: set<nat>)
    requires Owned(sb, d, h, owner, pending) && InShape(sb, d, h') && bs <= owner.Keys
    requires forall i, k :: 0 <= i < sb.ninodes && 0 <= k < SLOTS ==>
      Addr(sb, d, h', i, k) == if i == h.inum && k >= NDIRECT then 0 else Addr(sb, d, h, i, k)
    requires forall k :: NDIRECT <= k < SLOTS && Addr(sb, d, h, h.inum, k) != 0 ==> Addr(sb, d, h, h.inum, k) in bs
    requires forall b :: b in bs ==> owner[b].0 == h.inum && owner[b].1 >= NDIRECT
    ensures Owned(sb, d, h', owner - bs, pending + bs)
  {
    hide Addr, Bit;
  }
}
