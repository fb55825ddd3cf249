/**
 Two-level page tables as words in physical frames (mmu.h, vm.c): a directory frame whose
 entries name table frames, whose entries name the frames that pages map to.  Addresses are
 counted in pages and physical addresses in frames.
 */
module Paging {
  const PGSIZE: nat := 4096
  const NENTRIES: nat := 1024
  const PAGES: nat := 0x10_0000
  const USERPAGES: nat := 0x8_0000       // pages below KERNBASE
  const PTE_P: nat := 1
  const PTE_W: nat := 2
  const PTE_U: nat := 4

  type Page = p: seq<nat> | |p| == NENTRIES witness seq(NENTRIES, _ => 0)
  type Memory = seq<Page>

  function ZeroPage(): (p: Page)
    ensures forall i :: 0 <= i < NENTRIES ==> p[i] == 0
  {
    seq(NENTRIES, _ => 0)
  }

  // ---------------------------------------------------------------- entries

  function FrameOf(w: nat): nat { w / PGSIZE }
  function FlagsOf(w: nat): nat { w % PGSIZE }
  predicate Present(w: nat) { w % 2 == 1 }

  /** pa | perm | PTE_P, for a page-aligned pa and flags below PGSIZE. */
  function Make(f: nat, perm: nat): nat { f * PGSIZE + perm + (if perm % 2 == 1 then 0 else 1) }

  lemma PageParts(w: nat, f: nat, r: nat)
    requires w == PGSIZE * f + r && r < PGSIZE
    ensures w / PGSIZE == f && w % PGSIZE == r
  {
  }

  lemma SameParity(r: nat, w: nat, k: nat)
    requires w == r + 2 * k
    ensures r % 2 == w % 2
  {
  }

  lemma MakeParts(f: nat, perm: nat)
    requires perm < PGSIZE
    ensures FrameOf(Make(f, perm)) == f && Present(Make(f, perm))
    ensures FlagsOf(Make(f, perm)) == perm + if Present(perm) then 0 else PTE_P
  {
    var r := perm + if perm % 2 == 1 then 0 else 1;
    assert perm == PGSIZE - 1 ==> perm % 2 == 1;
    assert Make(f, perm) == PGSIZE * f + r && r % 2 == 1;
    PageParts(Make(f, perm), f, r);
    SameParity(r, Make(f, perm), 2048 * f);
  }

  /** PDX and PTX. */
  function Dir(v: nat): nat { v / NENTRIES }
  function Slot(v: nat): (s: nat)
    ensures s < NENTRIES
  {
    v % NENTRIES
  }

  // ---------------------------------------------------------------- address spaces

  /** Directory d has a table for directory index i. */
  predicate Has(mem: Memory, d: nat, i: nat) { d < |mem| && i < NENTRIES && Present(mem[d][i]) }

  function Table(mem: Memory, d: nat, i: nat): nat
    requires Has(mem, d, i)
  {
    FrameOf(mem[d][i])
  }

  /** The tables of a directory are frames of their own; its entries permit all, so that those of the tables decide. */
  predicate IsDir(mem: Memory, d: nat) {
    && d < |mem|
    && (forall i :: 0 <= i < NENTRIES && Has(mem, d, i) ==> Table(mem, d, i) < |mem| && Table(mem, d, i) != d)
    && (forall i :: 0 <= i < NENTRIES && Has(mem, d, i) ==> FlagsOf(mem[d][i]) == PTE_P + PTE_W + PTE_U)
    && (forall i, j :: 0 <= i < j < NENTRIES && Has(mem, d, i) && Has(mem, d, j) ==> Table(mem, d, i) != Table(mem, d, j))
  }

  /** The page table entry of page v; 0 where there is no table. */
  function Entry(mem: Memory, d: nat, v: nat): nat
    requires IsDir(mem, d) && v < PAGES
  {
    if Has(mem, d, Dir(v)) then mem[Table(mem, d, Dir(v))][Slot(v)] else 0
  }

  /** The frames the structure itself takes: the directory and its tables. */
  function Skeleton(mem: Memory, d: nat): set<nat> {
    {d} + set i | 0 <= i < NENTRIES && Has(mem, d, i) :: Table(mem, d, i)
  }

  predicate SameSpace(mem: Memory, d: nat, mem': Memory) {
    && IsDir(mem, d) && IsDir(mem', d) && Skeleton(mem', d) == Skeleton(mem, d)
    && (forall i :: 0 <= i < NENTRIES ==> Has(mem', d, i) == Has(mem, d, i))
    && (forall v :: 0 <= v < PAGES ==> Entry(mem', d, v) == Entry(mem, d, v))
  }

  /** The frames in s hold what they held. */
  predicate Keeps(mem: Memory, mem': Memory, s: set<nat>) {
    |mem'| == |mem| && forall f :: f in s && f < |mem| ==> mem'[f] == mem[f]
  }

  /** What happens in other frames does not concern an address space. */
  lemma OtherFrames(mem: Memory, d: nat, mem': Memory)
    requires IsDir(mem, d) && Keeps(mem, mem', Skeleton(mem, d))
    ensures SameSpace(mem, d, mem')
  {
    assert d in Skeleton(mem, d);
    assert mem'[d] == mem[d];
    forall i | 0 <= i < NENTRIES
      ensures Has(mem', d, i) == Has(mem, d, i)
      ensures Has(mem, d, i) ==> Table(mem', d, i) == Table(mem, d, i) && Table(mem, d, i) in Skeleton(mem, d)
    {
    }
  }

  // ---------------------------------------------------------------- the two ways to change one

  function WithTable(mem: Memory, d: nat, i: nat, f: nat): Memory
    requires d < |mem| && i < NENTRIES && f < |mem|
  {
    mem[f := ZeroPage()][d := mem[f := ZeroPage()][d][i := Make(f, PTE_W + PTE_U)]]
  }

  lemma TableAdded(mem: Memory, d: nat, i: nat, f: nat)
    requires IsDir(mem, d) && i < NENTRIES && !Has(mem, d, i) && f < |mem| && f !in Skeleton(mem, d)
    ensures var m := WithTable(mem, d, i, f);
            IsDir(m, d) && Skeleton(m, d) == Skeleton(mem, d) + {f} && Has(m, d, i) && Table(m, d, i) == f
    ensures forall j :: 0 <= j < NENTRIES ==> Has(WithTable(mem, d, i, f), d, j) == (Has(mem, d, j) || j == i)
    ensures forall v :: 0 <= v < PAGES ==> Entry(WithTable(mem, d, i, f), d, v) == Entry(mem, d, v)
  {
    var m := WithTable(mem, d, i, f);
    MakeParts(f, PTE_W + PTE_U);
    assert |m| == |mem| && m[f] == ZeroPage();
    forall j | 0 <= j < NENTRIES && j != i
      ensures Has(m, d, j) == Has(mem, d, j)
      ensures (Has(mem, d, j) ==> Table(m, d, j) == Table(mem, d, j) && Table(mem, d, j) in Skeleton(mem, d))
    {
      assert m[d][j] == mem[d][j];
    }
    assert Has(m, d, i) && Table(m, d, i) == f;
  }

  function WithEntry(mem: Memory, d: nat, v: nat, w: nat): Memory
    requires IsDir(mem, d) && v < PAGES && Has(mem, d, Dir(v))
  {
    var t := Table(mem, d, Dir(v));
    mem[t := mem[t][Slot(v) := w]]
  }

  lemma EntrySet(mem: Memory, d: nat, v: nat, w: nat)
    requires IsDir(mem, d) && v < PAGES && Has(mem, d, Dir(v))
    ensures var m := WithEntry(mem, d, v, w); IsDir(m, d) && Skeleton(m, d) == Skeleton(mem, d) && m[d] == mem[d]
    ensures forall i :: 0 <= i < NENTRIES ==> Has(WithEntry(mem, d, v, w), d, i) == Has(mem, d, i)
    ensures forall u :: 0 <= u < PAGES ==> Entry(WithEntry(mem, d, v, w), d, u) == if u == v then w else Entry(mem, d, u)
  {
    var m := WithEntry(mem, d, v, w);
    assert m[d] == mem[d];
    assert forall i :: 0 <= i < NENTRIES ==> Has(m, d, i) == Has(mem, d, i) && (Has(mem, d, i) ==> Table(m, d, i) == Table(mem, d, i));
    forall u | 0 <= u < PAGES
      ensures Entry(m, d, u) == if u == v then w else Entry(mem, d, u)
    {
      assert u == NENTRIES * Dir(u) + Slot(u) && v == NENTRIES * Dir(v) + Slot(v);
    }
  }

  // ---------------------------------------------------------------- tables still to be made

  /** How many directory indices from lo to hi have no table yet. */
  function Missing(mem: Memory, d: nat, lo: nat, hi: nat): nat
    decreases hi + 1 - lo
  {
    if lo > hi then 0 else (if Has(mem, d, lo) then 0 else 1) + Missing(mem, d, lo + 1, hi)
  }

  lemma {:induction false} MissingSame(mem: Memory, mem': Memory, d: nat, lo: nat, hi: nat)
    requires forall i :: lo <= i <= hi ==> Has(mem', d, i) == Has(mem, d, i)
    ensures Missing(mem', d, lo, hi) == Missing(mem, d, lo, hi)
    decreases hi + 1 - lo
  {
    if lo <= hi {
      MissingSame(mem, mem', d, lo + 1, hi);
    }
  }

  /** If the tables below k are there and those from k on are not. */
  lemma {:induction false} MissingAbove(mem: Memory, d: nat, lo: nat, k: nat, hi: nat)
    requires lo <= k <= hi + 1
    requires (forall i :: lo <= i < k ==> Has(mem, d, i)) && (forall i :: k <= i <= hi ==> !Has(mem, d, i))
    ensures Missing(mem, d, lo, hi) == hi + 1 - k
    decreases hi + 1 - lo
  {
    if lo <= hi {
      MissingAbove(mem, d, lo + 1, if lo < k then k else k + 1, hi);
    }
  }
}
