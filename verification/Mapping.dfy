/**
 How address spaces grow (vm.c): a walk that makes a table, a run of pages mapped to a run of
 frames, and the kernel's own mappings, each with the frames it takes from the free list.
 */
module Mapping {
  import opened Common
  import opened Paging

  const FRAMES: nat := 0xE000            // below PHYSTOP
  const ADDRESSES: nat := 0x1_0000_0000

  predicate NoDup(s: seq<nat>) { forall i, j :: 0 <= i < j < |s| ==> s[i] != s[j] }

  /** The first k frames of a free list. */
  function Taken(free: seq<nat>, k: nat): set<nat>
    requires k <= |free|
  {
    set f | f in free[..k]
  }

  // ---------------------------------------------------------------- growing an address space

  /** An address space took the first k frames of the free list for tables, and changed no others. */
  predicate Grew(free: seq<nat>, mem: Memory, d: nat, free': seq<nat>, mem': Memory, k: nat) {
    && k <= |free| && free' == free[k..] && |mem'| == |mem| && IsDir(mem, d) && IsDir(mem', d)
    && Skeleton(mem', d) == Skeleton(mem, d) + Taken(free, k)
    && forall f :: 0 <= f < |mem| && f !in Skeleton(mem, d) && f !in Taken(free, k) ==> mem'[f] == mem[f]
  }

  lemma GrewNot(free: seq<nat>, mem: Memory, d: nat)
    requires IsDir(mem, d)
    ensures Grew(free, mem, d, free, mem, 0)
  {
  }

  lemma GrewMore(free: seq<nat>, mem: Memory, d: nat, free1: seq<nat>, mem1: Memory, k: nat, free2: seq<nat>,
                 mem2: Memory, m: nat)
    requires Grew(free, mem, d, free1, mem1, k) && Grew(free1, mem1, d, free2, mem2, m)
    ensures Grew(free, mem, d, free2, mem2, k + m)
  {
    assert free[..k + m] == free[..k] + free1[..m];
    assert Taken(free, k + m) == Taken(free, k) + Taken(free1, m);
  }

  /** The frames of a free list are not those of a space outside it. */
  predicate Apart(free: seq<nat>, s: set<nat>) { forall i :: 0 <= i < |free| ==> free[i] !in s }

  lemma StillApart(free: seq<nat>, mem: Memory, d: nat, free': seq<nat>, mem': Memory, k: nat)
    requires NoDup(free) && Apart(free, Skeleton(mem, d)) && Grew(free, mem, d, free', mem', k)
    ensures NoDup(free') && Apart(free', Skeleton(mem', d))
  {
  }

  // ---------------------------------------------------------------- the kernel part

  /** Pages of the kernel image: text below data, then data and free memory. */
  const KERNBASE: nat := 0x8_0000
  const KERNLINK: nat := 0x8_0100
  const KERNTOP: nat := 0x8_E000
  const DEVSPACE: nat := 0xF_E000

  /** Every address space maps physical memory at KERNBASE and the devices at DEVSPACE; nothing else. */
  function KernelEntry(data: nat, v: nat): nat {
    if KERNBASE <= v < KERNTOP then Make(v - KERNBASE, if KERNLINK <= v < data then 0 else PTE_W)
    else if DEVSPACE <= v then Make(v, PTE_W)
    else 0
  }

  /** The page may be read or written in user mode; it may be written. */
  predicate UserMay(w: nat) { w / 4 % 2 == 1 }
  predicate MayWrite(w: nat) { w / 2 % 2 == 1 }

  /**
   From page lo on there is the kernel and nothing else: memory from KERNBASE on, the devices at
   their own addresses, nothing of it for user code, and all but the kernel's text writable.
   */
  predicate KernelPages(mem: Memory, d: nat, data: nat, lo: nat)
    requires IsDir(mem, d)
  {
    forall v :: lo <= v < PAGES ==>
      && (Present(Entry(mem, d, v)) <==> KERNBASE <= v < KERNTOP || DEVSPACE <= v)
      && !UserMay(Entry(mem, d, v))
      && (KERNBASE <= v < KERNTOP ==> FrameOf(Entry(mem, d, v)) == v - KERNBASE)
      && (DEVSPACE <= v ==> FrameOf(Entry(mem, d, v)) == v)
      && (Present(Entry(mem, d, v)) ==> (MayWrite(Entry(mem, d, v)) <==> !(KERNLINK <= v < data)))
  }

  lemma EntryBits(f: nat, perm: nat)
    requires perm == 0 || perm == PTE_W
    ensures var w := Make(f, perm); FrameOf(w) == f && Present(w) && !UserMay(w) && (MayWrite(w) <==> perm == PTE_W)
  {
    MakeParts(f, perm);
    var w := Make(f, perm);
    assert w == 4 * (1024 * f) + perm + 1 && w == 2 * (2048 * f + perm / 2) + 1;
    assert w / 4 == 2 * (512 * f);
    assert w / 2 == 2 * (1024 * f) + perm / 2;
  }

  /** An address space with these entries has these pages. */
  lemma EntriesGive(mem: Memory, d: nat, data: nat, lo: nat)
    requires IsDir(mem, d) && KERNLINK < data < KERNTOP
    requires forall v :: lo <= v < PAGES ==> Entry(mem, d, v) == KernelEntry(data, v)
    ensures KernelPages(mem, d, data, lo)
  {
    hide IsDir, Entry, Make, FrameOf, Present, UserMay, MayWrite;
    forall v | lo <= v < PAGES
      ensures Present(Entry(mem, d, v)) <==> KERNBASE <= v < KERNTOP || DEVSPACE <= v
      ensures !UserMay(Entry(mem, d, v))
      ensures KERNBASE <= v < KERNTOP ==> FrameOf(Entry(mem, d, v)) == v - KERNBASE
      ensures DEVSPACE <= v ==> FrameOf(Entry(mem, d, v)) == v
      ensures Present(Entry(mem, d, v)) ==> (MayWrite(Entry(mem, d, v)) <==> !(KERNLINK <= v < data))
    {
      if KERNBASE <= v < KERNTOP {
        EntryBits(v - KERNBASE, if KERNLINK <= v < data then 0 else PTE_W);
      } else if DEVSPACE <= v {
        EntryBits(v, PTE_W);
      } else {
        NoEntry();
      }
    }
  }

  lemma NoEntry()
    ensures !Present(0) && !UserMay(0)
  {
  }

  // ---------------------------------------------------------------- one walk, one mapping

  /** A walk that makes the table of page v if there is none. */
  predicate Walked(free: seq<nat>, mem: Memory, d: nat, v: nat, free': seq<nat>, mem': Memory)
    requires v < PAGES
  {
    && IsDir(mem, d) && Has(mem', d, Dir(v)) && Grew(free, mem, d, free', mem', if Has(mem, d, Dir(v)) then 0 else 1)
    && (forall i :: 0 <= i < NENTRIES ==> Has(mem', d, i) == (Has(mem, d, i) || i == Dir(v)))
    && (forall u :: 0 <= u < PAGES ==> Entry(mem', d, u) == Entry(mem, d, u))
  }

  lemma WalkFinds(free: seq<nat>, mem: Memory, d: nat, v: nat)
    requires v < PAGES && IsDir(mem, d) && Has(mem, d, Dir(v))
    ensures Walked(free, mem, d, v, free, mem)
  {
    GrewNot(free, mem, d);
  }

  lemma WalkMakes(free: seq<nat>, mem: Memory, d: nat, v: nat)
    requires v < PAGES && IsDir(mem, d) && !Has(mem, d, Dir(v)) && free != [] && free[0] < |mem|
    requires free[0] !in Skeleton(mem, d)
    ensures Walked(free, mem, d, v, free[1..], WithTable(mem, d, Dir(v), free[0]))
  {
    TableAdded(mem, d, Dir(v), free[0]);
    assert Taken(free, 1) == {free[0]} by { assert free[..1] == [free[0]]; }
    assert d in Skeleton(mem, d);
  }

  /** The pages from first to before a are mapped to consecutive frames from f on; k tables were made for it. */
  predicate MappedUpTo(free: seq<nat>, mem: Memory, d: nat, free': seq<nat>, mem': Memory, first: nat, a: nat,
                       last: nat, f: nat, perm: nat, k: nat) {
    && first <= a <= last + 1 && last < PAGES && Grew(free, mem, d, free', mem', k)
    && k + (if a <= last then Missing(mem', d, Dir(a), Dir(last)) else 0) == Missing(mem, d, Dir(first), Dir(last))
    && (forall v :: 0 <= v < PAGES ==> Entry(mem', d, v) == if first <= v < a then Make(f + (v - first), perm) else Entry(mem, d, v))
    && (forall i :: 0 <= i < NENTRIES ==> Has(mem', d, i) == (Has(mem, d, i) || (first < a && Dir(first) <= i <= Dir(a - 1))))
  }

  lemma MapStart(free: seq<nat>, mem: Memory, d: nat, first: nat, last: nat, f: nat, perm: nat)
    requires IsDir(mem, d) && first <= last < PAGES
    ensures MappedUpTo(free, mem, d, free, mem, first, first, last, f, perm, 0)
  {
    GrewNot(free, mem, d);
  }

  lemma MapStep(free: seq<nat>, mem: Memory, d: nat, free1: seq<nat>, mem1: Memory, free2: seq<nat>, mem2: Memory,
                first: nat, a: nat, last: nat, f: nat, perm: nat, k: nat)
    requires a <= last && MappedUpTo(free, mem, d, free1, mem1, first, a, last, f, perm, k)
    requires Walked(free1, mem1, d, a, free2, mem2)
    ensures MappedUpTo(free, mem, d, free2, WithEntry(mem2, d, a, Make(f + (a - first), perm)), first, a + 1, last, f, perm,
                       k + if Has(mem1, d, Dir(a)) then 0 else 1)
  {
    hide Grew, Has, Entry, Missing, Skeleton, IsDir, Make, WithEntry;
    EntryGrew(free, mem, d, free1, mem1, free2, mem2, a, Make(f + (a - first), perm), k);
    var m := WithEntry(mem2, d, a, Make(f + (a - first), perm));
    EntrySet(mem2, d, a, Make(f + (a - first), perm));
    FewerMissing(mem1, m, d, a, last);
    assert Dir(a) == if first < a then (if Dir(a) == Dir(a - 1) then Dir(a - 1) else Dir(a - 1) + 1) else Dir(first);
  }

  lemma EntryGrew(free: seq<nat>, mem: Memory, d: nat, free1: seq<nat>, mem1: Memory, free2: seq<nat>, mem2: Memory,
                  a: nat, w: nat, k: nat)
    requires a < PAGES && Grew(free, mem, d, free1, mem1, k) && Walked(free1, mem1, d, a, free2, mem2)
    ensures IsDir(mem2, d)
    ensures Grew(free, mem, d, free2, WithEntry(mem2, d, a, w), k + if Has(mem1, d, Dir(a)) then 0 else 1)
  {
    var k1 := if Has(mem1, d, Dir(a)) then 0 else 1;
    GrewMore(free, mem, d, free1, mem1, k, free2, mem2, k1);
    EntrySet(mem2, d, a, w);
    assert Table(mem2, d, Dir(a)) in Skeleton(mem2, d);
  }

  lemma FewerMissing(mem: Memory, mem': Memory, d: nat, a: nat, last: nat)
    requires a <= last < PAGES
    requires Has(mem', d, Dir(a)) && forall i :: 0 <= i < NENTRIES ==> Has(mem', d, i) == (Has(mem, d, i) || i == Dir(a))
    ensures (if Has(mem, d, Dir(a)) then 0 else 1) + (if a < last then Missing(mem', d, Dir(a + 1), Dir(last)) else 0) == Missing(mem, d, Dir(a), Dir(last))
  {
    hide Has;
    MissingSame(mem, mem', d, Dir(a) + 1, Dir(last));
    if a == last {
      assert Missing(mem, d, Dir(a) + 1, Dir(last)) == 0;
    } else {
      assert Dir(a + 1) == Dir(a) || Dir(a + 1) == Dir(a) + 1;
    }
  }

  // ---------------------------------------------------------------- the kernel's mappings

  /** One line of kmap, in bytes; a physical end of 0 is the top of the address space. */
  datatype KmapLine = KmapLine(virt: nat, phys: nat, end: nat, perm: nat)

  function Kmap(data: nat): (lines: seq<KmapLine>)
    requires KERNLINK < data < KERNTOP
    ensures |lines| == 4
  {
    [
      KmapLine(KERNBASE * PGSIZE, 0, (KERNLINK - KERNBASE) * PGSIZE, PTE_W),
      KmapLine(KERNLINK * PGSIZE, (KERNLINK - KERNBASE) * PGSIZE, (data - KERNBASE) * PGSIZE, 0),
      KmapLine(data * PGSIZE, (data - KERNBASE) * PGSIZE, (KERNTOP - KERNBASE) * PGSIZE, PTE_W),
      KmapLine(DEVSPACE * PGSIZE, DEVSPACE * PGSIZE, 0, PTE_W)
    ]
  }

  /** Is page v mapped by one of the first j lines? */
  predicate Covered(data: nat, j: nat, v: nat) {
    || KERNBASE <= v < (if j == 0 then KERNBASE else if j == 1 then KERNLINK else if j == 2 then data else KERNTOP)
    || (j >= 4 && DEVSPACE <= v)
  }

  /** Directory index i serves a page of one of the first j lines. */
  predicate Served(data: nat, j: nat, i: nat)
    requires KERNLINK < data < KERNTOP
  {
    || (j > 0 && Dir(KERNBASE) <= i <= (if j == 1 then Dir(KERNBASE) else if j == 2 then Dir(data - 1) else Dir(KERNTOP - 1)))
    || (j >= 4 && Dir(DEVSPACE) <= i < NENTRIES)
  }

  /** The frames the first j lines need, the directory included. */
  function KernelFrames(data: nat, j: nat): nat
    requires KERNLINK < data < KERNTOP
  {
    if j == 0 then 1 else if j == 1 then 2 else if j == 2 then 2 + Dir(data - 1) - Dir(KERNBASE) else if j == 3 then 57 else 65
  }

  /** The kernel part is mapped as far as line j of kmap, and nothing else is. */
  predicate KernelUpTo(mem: Memory, d: nat, data: nat, j: nat)
    requires KERNLINK < data < KERNTOP
  {
    && IsDir(mem, d)
    && (forall v :: 0 <= v < PAGES ==> Entry(mem, d, v) == if Covered(data, j, v) then KernelEntry(data, v) else 0)
    && (forall i :: 0 <= i < NENTRIES ==> Has(mem, d, i) == Served(data, j, i))
  }

  lemma MapDone(free: seq<nat>, mem: Memory, d: nat, free': seq<nat>, mem': Memory, first: nat, last: nat, f: nat,
                perm: nat, k: nat)
    requires MappedUpTo(free, mem, d, free', mem', first, last + 1, last, f, perm, k)
    ensures k == Missing(mem, d, Dir(first), Dir(last)) <= |free|
  {
  }

  // ---------------------------------------------------------------- building one from nothing

  const KERNELFRAMES: nat := 65

  /** The frames that are not on the list. */
  function Others(free: seq<nat>): set<nat> { set f | 0 <= f < FRAMES && f !in free }

  /** The address space is made of the first k frames of the free list, and no other frame changed. */
  predicate Built(free: seq<nat>, mem: Memory, d: nat, free': seq<nat>, mem': Memory, k: nat) {
    && k <= |free| && free' == free[k..] && |mem'| == |mem| && IsDir(mem', d) && Skeleton(mem', d) == Taken(free, k)
    && forall f :: 0 <= f < |mem| && f !in Taken(free, k) ==> mem'[f] == mem[f]
  }

  lemma BuiltMore(free: seq<nat>, mem: Memory, d: nat, free1: seq<nat>, mem1: Memory, k: nat, free2: seq<nat>,
                  mem2: Memory, m: nat)
    requires Built(free, mem, d, free1, mem1, k) && Grew(free1, mem1, d, free2, mem2, m)
    ensures Built(free, mem, d, free2, mem2, k + m)
  {
    assert free[..k + m] == free[..k] + free1[..m];
    assert Taken(free, k + m) == Taken(free, k) + Taken(free1, m);
  }

  lemma BuiltSize(free: seq<nat>, mem: Memory, d: nat, free': seq<nat>, mem': Memory, k: nat)
    requires Built(free, mem, d, free', mem', k)
    ensures k <= |free| && |free'| == |free| - k
  {
  }

  lemma BuiltOthers(free: seq<nat>, mem: Memory, d: nat, free': seq<nat>, mem': Memory, k: nat)
    requires Built(free, mem, d, free', mem', k)
    ensures Keeps(mem, mem', Others(free))
  {
    assert forall f :: f in Taken(free, k) ==> f in free;
  }

  lemma EmptySpace(free: seq<nat>, mem: Memory, data: nat)
    requires KERNLINK < data < KERNTOP && free != [] && free[0] < |mem| && NoDup(free)
    ensures Built(free, mem, free[0], free[1..], mem[free[0] := ZeroPage()], 1)
    ensures KernelUpTo(mem[free[0] := ZeroPage()], free[0], data, 0)
    ensures Apart(free[1..], Skeleton(mem[free[0] := ZeroPage()], free[0]))
  {
    assert free[..1] == [free[0]];
    var m := mem[free[0] := ZeroPage()];
    assert forall i :: 0 <= i < NENTRIES ==> !Has(m, free[0], i);
    assert Skeleton(m, free[0]) == {free[0]} == Taken(free, 1);
  }

  // ---------------------------------------------------------------- the lines of kmap, in pages

  function FirstPage(data: nat, j: nat): nat {
    if j == 0 then KERNBASE else if j == 1 then KERNLINK else if j == 2 then data else DEVSPACE
  }

  function LastPage(data: nat, j: nat): nat
    requires KERNLINK < data
  {
    if j == 0 then KERNLINK - 1 else if j == 1 then data - 1 else if j == 2 then KERNTOP - 1 else PAGES - 1
  }

  lemma KmapPages(data: nat, j: nat)
    requires KERNLINK < data < KERNTOP && j < 4
    ensures var k := Kmap(data)[j];
            var size := (k.end - k.phys) % ADDRESSES;
            && 1 <= size && k.virt + size <= ADDRESSES && k.phys % PGSIZE == 0 && k.perm < PGSIZE
            && k.virt / PGSIZE == FirstPage(data, j) && (k.virt + size - 1) / PGSIZE == LastPage(data, j)
            && k.phys / PGSIZE == if j < 3 then FirstPage(data, j) - KERNBASE else FirstPage(data, j)
  {
  }

  lemma FramesGrow(data: nat, j: nat)
    requires KERNLINK < data < KERNTOP
    ensures KernelFrames(data, j) <= KERNELFRAMES && KernelFrames(data, 0) == 1
    ensures (j >= 4 ==> KernelFrames(data, j) == KERNELFRAMES)
  {
  }

  lemma NotYet(mem: Memory, d: nat, data: nat, j: nat)
    requires KERNLINK < data < KERNTOP && j < 4 && KernelUpTo(mem, d, data, j)
    ensures IsDir(mem, d) && forall v :: FirstPage(data, j) <= v <= LastPage(data, j) ==> !Present(Entry(mem, d, v))
  {
  }

  lemma KmapCount(mem: Memory, d: nat, data: nat, j: nat)
    requires KERNLINK < data < KERNTOP && j < 4 && KernelUpTo(mem, d, data, j)
    ensures KernelFrames(data, j + 1) == KernelFrames(data, j) + Missing(mem, d, Dir(FirstPage(data, j)), Dir(LastPage(data, j)))
  {
    hide Has, Entry, KernelEntry, Missing;
    var lo, hi := Dir(FirstPage(data, j)), Dir(LastPage(data, j));
    var k := if j == 0 then lo else if j == 1 then lo + 1 else if j == 2 then Dir(data - 1) + 1 else lo;
    MissingAbove(mem, d, lo, k, hi);
  }

  lemma KmapStep(free: seq<nat>, mem: Memory, free': seq<nat>, mem': Memory, d: nat, data: nat, j: nat)
    requires KERNLINK < data < KERNTOP && j < 4 && KernelUpTo(mem, d, data, j)
    requires MappedUpTo(free, mem, d, free', mem', FirstPage(data, j), LastPage(data, j) + 1, LastPage(data, j),
                        if j < 3 then FirstPage(data, j) - KERNBASE else FirstPage(data, j), Kmap(data)[j].perm,
                        Missing(mem, d, Dir(FirstPage(data, j)), Dir(LastPage(data, j))))
    ensures KernelUpTo(mem', d, data, j + 1)
    ensures Grew(free, mem, d, free', mem', KernelFrames(data, j + 1) - KernelFrames(data, j))
  {
    hide Has, Entry, Missing, Make, Skeleton, IsDir;
    KmapCount(mem, d, data, j);
  }

  lemma KernelDone(mem: Memory, d: nat, data: nat)
    requires KERNLINK < data < KERNTOP && KernelUpTo(mem, d, data, 4)
    ensures IsDir(mem, d) && KernelPages(mem, d, data, 0)
  {
    hide IsDir, Entry, Make, KernelPages, Has;
    EntriesGive(mem, d, data, 0);
  }

  lemma WalkedFacts(free: seq<nat>, mem: Memory, d: nat, v: nat, free': seq<nat>, mem': Memory)
    requires v < PAGES && Walked(free, mem, d, v, free', mem')
    ensures IsDir(mem', d) && |mem'| == |mem| && Has(mem', d, Dir(v)) && Table(mem', d, Dir(v)) < |mem|
    ensures mem'[Table(mem', d, Dir(v))][Slot(v)] == Entry(mem, d, v)
  {
    assert Entry(mem', d, v) == Entry(mem, d, v);
  }

  lemma MappedApart(free: seq<nat>, mem: Memory, d: nat, free': seq<nat>, mem': Memory, first: nat, a: nat, last: nat,
                    f: nat, perm: nat, k: nat)
    requires MappedUpTo(free, mem, d, free', mem', first, a, last, f, perm, k) && NoDup(free)
    requires Apart(free, Skeleton(mem, d))
    ensures IsDir(mem', d) && NoDup(free') && Apart(free', Skeleton(mem', d))
  {
    StillApart(free, mem, d, free', mem', k);
  }

  lemma UpToFacts(free: seq<nat>, mem: Memory, d: nat, free': seq<nat>, mem': Memory, first: nat, a: nat, last: nat,
                  f: nat, perm: nat, k: nat)
    requires MappedUpTo(free, mem, d, free', mem', first, a, last, f, perm, k) && a <= last
    requires forall v :: first <= v <= last ==> !Present(Entry(mem, d, v))
    ensures IsDir(mem', d) && k <= |free| && |free'| == |free| - k && !Present(Entry(mem', d, a))
    ensures Grew(free, mem, d, free', mem', k)
    ensures !Has(mem', d, Dir(a)) && free' == [] ==> Missing(mem, d, Dir(first), Dir(last)) > |free|
    ensures !Has(mem', d, Dir(a)) && Dir(first) == Dir(last) ==> a == first
  {
  }
}
