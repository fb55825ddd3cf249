/**
 Physical frames and address spaces in memory (kalloc.c, vm.c): allocation from the free list,
 page-table walks, the kernel part of every address space, copying one for fork and tearing one
 down, with the frames of shared memory regions mapped and never copied or freed.
 */
module Vm {
  import opened Common
  import opened Paging
  import opened Mapping
  import opened Spaces

  class Kernel {
    const first: nat                     // the first frame after the kernel image
    const data: nat                      // the page its data start on
    var free: seq<nat>
    var mem: Memory
    var shm: seq<Shm>

    ghost predicate Valid()
      reads this
    {
      && 0 < first <= FRAMES == |mem| && KERNLINK < data < KERNTOP && NoDup(free)
      && forall i :: 0 <= i < |free| ==> first <= free[i] < FRAMES
    }

    /** kalloc */
    method Kalloc() returns (r: Option<nat>)
      requires Valid()
      modifies this`free
      ensures Valid() && (r.None? <==> old(free) == [])
      ensures r.None? ==> free == old(free)
      ensures r.Some? ==> r.value == old(free)[0] && free == old(free)[1..]
    {
      if free == [] {
        return None;
      }
      r := Some(free[0]);
      free := free[1..];
    }

    /** walkpgdir; None is its null pointer, otherwise the frame that holds the entry of page v. */
    method WalkPgdir(d: nat, v: nat, alloc: bool) returns (r: Option<nat>)
      requires Valid() && IsDir(mem, d) && Apart(free, Skeleton(mem, d)) && v < PAGES
      modifies this`free, this`mem
      ensures Valid() && (r.None? <==> !Has(old(mem), d, Dir(v)) && (!alloc || old(free) == []))
      ensures r.None? ==> free == old(free) && mem == old(mem)
      ensures r.Some? ==> Walked(old(free), old(mem), d, v, free, mem) && r.value == Table(mem, d, Dir(v))
      ensures Has(old(mem), d, Dir(v)) ==> free == old(free) && mem == old(mem)
    {
      hide Skeleton, Grew, Walked;
      if Present(mem[d][Dir(v)]) {
        WalkFinds(free, mem, d, v);
        return Some(FrameOf(mem[d][Dir(v)]));
      }
      if !alloc {
        return None;
      }
      var t := Kalloc();
      if t.None? {
        return None;
      }
      WalkMakes(old(free), mem, d, v);
      MakeParts(t.value, PTE_W + PTE_U);
      mem := mem[t.value := ZeroPage()];
      mem := mem[d := mem[d][Dir(v) := Make(t.value, PTE_W + PTE_U)]];
      TableAdded(old(mem), d, Dir(v), t.value);
      return t;
    }

    /** mappages */
    method MapPages(d: nat, va: nat, size: nat, pa: nat, perm: nat) returns (ok: bool)
      requires Valid() && IsDir(mem, d) && Apart(free, Skeleton(mem, d))
      requires 1 <= size && va + size <= ADDRESSES && pa % PGSIZE == 0 && perm < PGSIZE
      requires forall v :: va / PGSIZE <= v <= (va + size - 1) / PGSIZE ==> !Present(Entry(mem, d, v))
      modifies this`free, this`mem
      ensures Valid() && IsDir(mem, d) && NoDup(free) && Apart(free, Skeleton(mem, d))
      ensures ok <==> Missing(old(mem), d, Dir(va / PGSIZE), Dir((va + size - 1) / PGSIZE)) <= |old(free)|
      ensures ok ==> MappedUpTo(old(free), old(mem), d, free, mem, va / PGSIZE, (va + size - 1) / PGSIZE + 1, (va + size - 1) / PGSIZE,
                                pa / PGSIZE, perm, Missing(old(mem), d, Dir(va / PGSIZE), Dir((va + size - 1) / PGSIZE)))
      ensures !ok ==> free == [] && Grew(old(free), old(mem), d, free, mem, |old(free)|)
      ensures !ok && Dir(va / PGSIZE) == Dir((va + size - 1) / PGSIZE) ==> mem == old(mem)
    {
      hide Skeleton, Grew, Walked, IsDir, Has, Entry, Missing, MappedUpTo, Make;
      var a, last := va / PGSIZE, (va + size - 1) / PGSIZE;
      var f := pa / PGSIZE;
      ghost var k := 0;
      MapStart(free, mem, d, a, last, f, perm);
      var going := true;
      while going
        invariant Valid() && va / PGSIZE <= a <= last < PAGES && f == pa / PGSIZE + (a - va / PGSIZE)
        invariant IsDir(mem, d) && NoDup(free) && Apart(free, Skeleton(mem, d))
        invariant MappedUpTo(old(free), old(mem), d, free, mem, va / PGSIZE, if going then a else a + 1, last, pa / PGSIZE, perm, k)
        invariant !going ==> a == last
        invariant a == va / PGSIZE && going ==> mem == old(mem)
        decreases last - a, going
      {
        UpToFacts(old(free), old(mem), d, free, mem, va / PGSIZE, a, last, pa / PGSIZE, perm, k);
        ghost var free1, mem1 := free, mem;
        var pte := WalkPgdir(d, a, true);
        if pte.None? {
          return false;
        }
        WalkedFacts(free1, mem1, d, a, free, mem);
        assert !Present(mem[pte.value][Slot(a)]);
        MapStep(old(free), old(mem), d, free1, mem1, free, mem, va / PGSIZE, a, last, pa / PGSIZE, perm, k);
        mem := mem[pte.value := mem[pte.value][Slot(a) := Make(f, perm)]];
        k := k + if Has(mem1, d, Dir(a)) then 0 else 1;
        MappedApart(old(free), old(mem), d, free, mem, va / PGSIZE, a + 1, last, pa / PGSIZE, perm, k);
        if a == last {
          going := false;
        } else {
          a, f := a + 1, f + 1;
        }
      }
      MapDone(old(free), old(mem), d, free, mem, va / PGSIZE, last, pa / PGSIZE, perm, k);
      return true;
    }

    /** setupkvm */
    method SetupKvm() returns (r: Option<nat>)
      requires Valid()
      modifies this`free, this`mem
      ensures Valid() && (r.Some? <==> KERNELFRAMES <= |old(free)|)
      ensures r.Some? ==> Built(old(free), old(mem), r.value, free, mem, KERNELFRAMES)
      ensures r.Some? ==> KernelUpTo(mem, r.value, data, 4) && KernelPages(mem, r.value, data, 0)
      ensures r.None? ==> free == [] && Keeps(old(mem), mem, Others(old(free)))
    {
      hide Skeleton, Grew, IsDir, Has, Entry, Missing, MappedUpTo, Make, Built, KernelUpTo, Taken, Others, KernelFrames, Kmap, KernelPages;
      var pgdir := Kalloc();
      if pgdir.None? {
        return None;
      }
      var d := pgdir.value;
      mem := mem[d := ZeroPage()];
      EmptySpace(old(free), old(mem), data);
      FramesGrow(data, 0);
      FramesGrow(data, 4);
      var j := 0;
      while j < 4
        invariant 0 <= j <= 4 && Valid() && KernelFrames(data, j) <= |old(free)|
        invariant Built(old(free), old(mem), d, free, mem, KernelFrames(data, j)) && KernelUpTo(mem, d, data, j)
        invariant Apart(free, Skeleton(mem, d))
      {
        var k := Kmap(data)[j];
        KmapPages(data, j);
        NotYet(mem, d, data, j);
        ghost var free1, mem1 := free, mem;
        var ok := MapPages(d, k.virt, (k.end - k.phys) % ADDRESSES, k.phys, k.perm);
        KmapCount(mem1, d, data, j);
        BuiltSize(old(free), old(mem), d, free1, mem1, KernelFrames(data, j));
        FramesGrow(data, j + 1);
        if !ok {
          BuiltMore(old(free), old(mem), d, free1, mem1, KernelFrames(data, j), free, mem, |free1|);
          BuiltOthers(old(free), old(mem), d, free, mem, KernelFrames(data, j) + |free1|);
          return None;
        }
        KmapStep(free1, mem1, free, mem, d, data, j);
        BuiltMore(old(free), old(mem), d, free1, mem1, KernelFrames(data, j), free, mem, KernelFrames(data, j + 1) - KernelFrames(data, j));
        j := j + 1;
      }
      KernelDone(mem, d, data);
      return pgdir;
    }

    /** kfree; the link that threads the free list through the frame is part of `free`. */
    method Kfree(f: nat)
      requires Valid() && first <= f < FRAMES && f !in free
      modifies this`free, this`mem
      ensures Valid() && free == [f] + old(free) && mem == old(mem)[f := JunkPage()]
    {
      mem := mem[f := JunkPage()];
      free := [f] + free;
    }

    /** shm_arr_findPA */
    method FindPA(pa: nat, change: int) returns (r: Option<nat>)
      modifies this`shm
      ensures shm == Bump(old(shm), pa, change)
      ensures r == if Find(old(shm), pa) < |old(shm)| then Some(pa) else None
      ensures |shm| == |old(shm)| && forall i :: 0 <= i < |shm| ==>
                shm[i].phys == old(shm)[i].phys
                && shm[i].numAccess == old(shm)[i].numAccess + if i == Find(old(shm), pa) then change else 0
    {
      var i := 0;
      while i < |shm|
        invariant 0 <= i <= |shm| && shm == old(shm) && forall j :: 0 <= j < i ==> shm[j].phys != pa
      {
        if pa == shm[i].phys {
          shm := shm[i := Shm(shm[i].phys, shm[i].numAccess + change)];
          return Some(pa);
        }
        i := i + 1;
      }
      return None;
    }

    /** One turn of deallocuvm's loop at page a, whose table is t. */
    method FreePage(d: nat, t: nat, a: nat, change: int, ghost free0: seq<nat>, ghost mem0: Memory, ghost shm0: seq<Shm>,
                    ghost start: nat)
      requires Valid() && Owns(first, free0, shm0, mem0, d) && NoNull(mem0, d, USERPAGES) && start <= a < USERPAGES
      requires Freed(free0, mem0, shm0, d, free, mem, start, a) && IsDir(mem0, d)
      requires Counted(shm0, shm, mem0, d, start, a, change)
      requires IsDir(mem, d) && Has(mem, d, Dir(a)) && t == Table(mem, d, Dir(a))
      modifies this`free, this`mem, this`shm
      ensures Valid() && Freed(free0, mem0, shm0, d, free, mem, start, a + 1)
      ensures Counted(shm0, shm, mem0, d, start, a + 1, change)
    {
      hide Owns, Freed, Counted, Entry, Has, Skeleton, IsDir, Find, NoNull, Slot, Dir, FrameOf, Present, Bump;
      FreedFacts(first, free0, mem0, shm0, d, free, mem, start, a);
      if Present(mem[t][Slot(a)]) {
        var pa := FrameOf(mem[t][Slot(a)]);
        NotNull(mem0, d, USERPAGES, a);
        assert pa != 0;
        CountedOne(shm0, shm, mem0, d, start, a, change);
        var found := FindPA(pa * PGSIZE, change);
        if found.None? {
          FreedOne(first, free0, mem0, shm0, d, free, mem, start, a);
          Kfree(pa);
          mem := mem[t := mem[t][Slot(a) := 0]];
        } else {
          FreedPast(free0, mem0, shm0, d, free, mem, start, a, a + 1);
        }
      } else {
        FreedPast(free0, mem0, shm0, d, free, mem, start, a, a + 1);
        CountedPast(shm0, shm, mem0, d, start, a, a + 1, change);
      }
    }

    /** deallocuvm: the private pages from where it begins on are freed, each once. */
    method DeallocUvm(d: nat, oldsz: nat, newsz: nat, change: int) returns (r: nat)
      requires Valid() && Owns(first, free, shm, mem, d) && NoNull(mem, d, USERPAGES) && oldsz <= USERPAGES * PGSIZE
      modifies this`free, this`mem, this`shm
      ensures Valid() && r == if newsz < oldsz then newsz else oldsz
      ensures oldsz <= newsz ==> free == old(free) && mem == old(mem) && shm == old(shm)
      ensures newsz < oldsz ==> IsDir(old(mem), d) && PagesOf(oldsz) <= USERPAGES
      ensures newsz < oldsz ==>
                var lo, n := PagesOf(newsz), PagesOf(oldsz); Freed(old(free), old(mem), old(shm), d, free, mem, Begin(old(mem), d, lo, n), n)
      ensures newsz < oldsz ==>
                var lo, n := PagesOf(newsz), PagesOf(oldsz); Counted(old(shm), shm, old(mem), d, Begin(old(mem), d, lo, n), n, change)
    {
      hide Owns, Freed, Counted, Entry, Has, Skeleton, IsDir, Find, NoNull, Slot, Dir, FrameOf, Present, Bump, Begin;
      if newsz >= oldsz {
        return oldsz;
      }
      ghost var free0, mem0, shm0, lo := free, mem, shm, PagesOf(newsz);
      ghost var n := PagesOf(oldsz);
      OwnsDir(first, free, shm, mem, d);
      if lo < n { BeginFacts(mem, d, lo, n); } else { BeginAtEnd(mem, d, n); }
      ghost var start := Begin(mem0, d, lo, n);
      var a := (newsz + PGSIZE - 1) / PGSIZE;
      FreedNone(first, free, mem, shm, d, start);
      CountedNone(shm, mem, d, start, change);
      while a * PGSIZE < oldsz
        invariant Valid() && IsDir(mem0, d)
        invariant a < start ==> Begin(mem0, d, a, n) == start && free == free0 && mem == mem0
        invariant start <= a < n ==> Has(mem0, d, Dir(a)) || Slot(a) == 0
        invariant Freed(free0, mem0, shm0, d, free, mem, start, Upto(start, a, n))
        invariant Counted(shm0, shm, mem0, d, start, Upto(start, a, n), change)
        decreases n - a
      {
        if a >= start { FreedFacts(first, free0, mem0, shm0, d, free, mem, start, a); }
        if a < start { BeginFacts(mem0, d, a, n); }
        NextPage(a);
        var pte := WalkPgdir(d, a, false);
        if pte.None? {
          if a >= start {
            NoTableNoPages(shm0, mem0, d, a);
            FreedPast(free0, mem0, shm0, d, free, mem, start, a, Lesser(a + NENTRIES, n));
            CountedPast(shm0, shm, mem0, d, start, a, Lesser(a + NENTRIES, n), change);
          } else {
            Onward(mem0, d, a, n, start);
          }
          a := a + (NENTRIES - 1);
        } else {
          FreePage(d, pte.value, a, change, free0, mem0, shm0, start);
        }
        a := a + 1;
      }
      return newsz;
    }

    /** freevm: exactly the frames of the address space are freed. */
    method FreeVm(d: nat, change: int)
      requires Valid() && Owns(first, free, shm, mem, d) && NoNull(mem, d, USERPAGES)
      modifies this`free, this`mem, this`shm
      ensures Valid() && Elements(free) == Elements(old(free)) + Owned(old(shm), old(mem), d)
      ensures forall f :: 0 <= f < FRAMES && f !in Owned(old(shm), old(mem), d) ==> mem[f] == old(mem)[f]
      ensures Counted(old(shm), shm, old(mem), d, 0, USERPAGES, change)
    {
      hide Owns, Freed, Counted, Entry, Skeleton, IsDir, NoNull, TornDown, PrivateFrames;
      ghost var free0, mem0, shm0 := free, mem, shm;
      OwnsDir(first, free, shm, mem, d);
      FromZero(mem, d);
      var _ := DeallocUvm(d, USERPAGES * PGSIZE, 0, change);
      TearStart(free0, mem0, shm0, d, free, mem);
      var i := 0;
      while i < NENTRIES
        invariant 0 <= i <= NENTRIES && Valid() && TornDown(free0, mem0, shm0, d, free, mem, i)
        modifies this`free, this`mem
      {
        TearTable(first, free0, mem0, shm0, d, free, mem, i);
        TornFacts(free0, mem0, shm0, d, free, mem, i);
        if Present(mem[d][i]) {
          Kfree(FrameOf(mem[d][i]));
        }
        i := i + 1;
      }
      TearDir(first, free0, mem0, shm0, d, free, mem);
      TornFacts(free0, mem0, shm0, d, free, mem, i);
      Kfree(d);
    }

    /** The bad label of copyuvm: the copy of the first i pages is torn down again. */
    method Abandon(c: nat, ghost free0: seq<nat>, ghost mem0: Memory, ghost shm0: seq<Shm>, ghost p: nat,
                   ghost n: nat, ghost i: nat, ghost k: nat, ghost free1: seq<nat>, ghost mem1: Memory)
      requires Valid() && CopyReady(free0, mem0, shm0, p, n) && i <= n
      requires Copied(free0, mem0, shm0, p, free1, mem1, c, data, i, k) && NoNull(mem0, p, n)
      requires forall j :: 0 <= j < |free0| ==> first <= free0[j]
      requires free == [] && Keeps(mem1, mem, Taken(free0, k)) && Keeps(mem0, mem, Others(free0))
      requires SamePlaces(shm0, shm)
      modifies this`free, this`mem, this`shm
      ensures Valid() && Elements(free) == Taken(free0, k) && Keeps(mem0, mem, Others(free0)) && shm == old(shm)
    {
      hide Owns, Counted, Entry, Skeleton, IsDir, NoNull, PrivateFrames, Copied, CopyReady, Find;
      CopyWhole(first, free0, mem0, shm0, p, n, free1, mem1, c, data, i, k, free, shm, mem);
      ghost var mem2 := mem;
      FreeVm(c, 0);
      NoDrift(old(shm), shm, mem2, c);
      assert Elements([]) == {};
      TakenIn(free0, k);
    }

    /** The private branch of copyuvm: a frame, the contents of frame pa, and the mapping of page i to it. */
    method MapCopy(c: nat, i: nat, pa: nat, flags: nat) returns (got: bool, ok: bool)
      requires Valid() && IsDir(mem, c) && Apart(free, Skeleton(mem, c)) && i < USERPAGES
      requires !Present(Entry(mem, c, i)) && pa < FRAMES && flags < PGSIZE
      modifies this`free, this`mem
      ensures Valid() && (got <==> old(free) != [])
      ensures !got ==> free == old(free) && mem == old(mem)
      ensures got ==> (ok <==> Missing(old(mem), c, Dir(i), Dir(i)) <= |old(free)| - 1)
      ensures got && ok ==> MappedUpTo(old(free)[1..], old(mem)[old(free)[0] := old(mem)[pa]], c, free, mem, i, i + 1, i, old(free)[0], flags,
                                       Missing(old(mem), c, Dir(i), Dir(i)))
      ensures got && !ok ==> free == [] && mem == old(mem)[old(free)[0] := old(mem)[pa]]
    {
      hide Entry, Has, Skeleton, IsDir, MappedUpTo, Grew, Missing, Make, Taken;
      var page := Kalloc();
      if page.None? {
        return false, false;
      }
      PlaceApart(old(free), mem, c, i, mem[pa]);
      mem := mem[page.value := mem[pa]];
      PageAddress(i);
      PageAddress(page.value);
      ok := MapPages(c, i * PGSIZE, PGSIZE, page.value * PGSIZE, flags);
      return true, ok;
    }

    /** copyuvm */
    method CopyUvm(p: nat, sz: nat) returns (r: Option<nat>)
      requires Valid() && sz <= USERPAGES * PGSIZE && CopyReady(free, mem, shm, p, PagesOf(sz))
      requires NoNull(mem, p, PagesOf(sz))
      modifies this`free, this`mem, this`shm
      ensures Valid() && (r.Some? <==> Need(old(shm), old(mem), p, PagesOf(sz)) <= |old(free)|)
      ensures r.Some? ==> Copied(old(free), old(mem), old(shm), p, free, mem, r.value, data, PagesOf(sz), Need(old(shm), old(mem), p, PagesOf(sz)))
      ensures r.Some? ==> IsDir(mem, r.value) && KernelPages(mem, r.value, data, PagesOf(sz))
      ensures r.Some? ==> Counted(old(shm), shm, old(mem), p, 0, PagesOf(sz), 1)
      ensures r.None? ==> (Elements(free) == Elements(old(free)) <==> !Leaks(old(shm), old(mem), p, PagesOf(sz), |old(free)|))
      ensures r.None? ==> Elements(free) <= Elements(old(free)) && Keeps(old(mem), mem, Others(old(free)))
      ensures r.None? ==> CountedAt(old(shm), shm, old(mem), p, PagesOf(sz), |old(free)|)
    {
      hide Owns, Counted, Entry, Has, Skeleton, IsDir, NoNull, PrivateFrames, Copied, CopyReady, Find, Need, Leaks, MappedUpTo;
      hide Grew, Taken, Elements, Built, KernelUpTo, Walked, Missing, CountedAt, SameSpace, Apart, SamePlaces, Bump, Make, Others, KernelPages;
      ghost var free0, mem0, shm0, n := free, mem, shm, PagesOf(sz);
      ReadyFacts(free, mem, shm, p, n);
      NeedZero(shm0, mem0, p);
      NeedGrows(shm0, mem0, p, 0, n);
      var pgdir := SetupKvm();
      if pgdir.None? {
        EarlyFailure(free0, mem0, shm0, p, n);
        return None;
      }
      var c := pgdir.value;
      CopyStart(free0, mem0, shm0, p, free, mem, c, data);
      CountedNone(shm0, mem0, p, 0, 1);
      var i := 0;
      while i * PGSIZE < sz
        invariant 0 <= i <= n && Valid()
        invariant Copied(free0, mem0, shm0, p, free, mem, c, data, i, Need(shm0, mem0, p, i))
        invariant Counted(shm0, shm, mem0, p, 0, i, 1)
        decreases n - i
      {
        ghost var k := Need(shm0, mem0, p, i);
        ghost var free1, mem1 := free, mem;
        CopyFacts(free0, mem0, shm0, p, n, free, mem, c, data, i, k);
        NeedStep(shm0, mem0, p, i);
        NeedGrows(shm0, mem0, p, i + 1, n);
        PageAddress(i);
        var w := ParentEntry(p, i, mem0);
        var pa, flags := FrameOf(w), FlagsOf(w);
        CountedOne(shm0, shm, mem0, p, 0, i, 1);
        var found := FindPA(pa * PGSIZE, 1);
        if found.Some? {
          var ok := MapPages(c, i * PGSIZE, PGSIZE, found.value, flags);
          if !ok {
            FailureAt(free0, mem0, shm0, p, n, free1, mem1, c, data, i, k, shm);
            Abandon(c, free0, mem0, shm0, p, n, i, k, free1, mem1);
            return None;
          }
          CopyShared(free0, mem0, shm0, p, n, free1, mem1, c, data, i, k, free, mem, Missing(mem1, c, Dir(i), Dir(i)));
        } else {
          var got, ok := MapCopy(c, i, pa, flags);
          if !got {
            FailureAt(free0, mem0, shm0, p, n, free1, mem1, c, data, i, k, shm);
            Abandon(c, free0, mem0, shm0, p, n, i, k, free1, mem1);
            return None;
          }
          if !ok {
            LeakAt(free0, mem0, shm0, p, n, free1, mem1, c, data, i, k, shm, mem1[pa]);
            Abandon(c, free0, mem0, shm0, p, n, i, k, free1, mem1);
            return None;
          }
          CopyPrivate(free0, mem0, shm0, p, n, free1, mem1, c, data, i, k, free, mem, Missing(mem1, c, Dir(i), Dir(i)));
        }
        i := i + 1;
      }
      CopySize(free0, mem0, shm0, p, free, mem, c, data, n, Need(shm0, mem0, p, n));
      CopiedKernel(free0, mem0, shm0, p, free, mem, c, data, n, Need(shm0, mem0, p, n));
      return Some(c);
    }

    /** The address space of a child from fork to wait: when it is gone, all is as it was. */
    method CopyThenFree(p: nat, sz: nat) returns (ok: bool)
      requires Valid() && sz <= USERPAGES * PGSIZE && CopyReady(free, mem, shm, p, PagesOf(sz))
      requires NoNull(mem, p, PagesOf(sz))
      modifies this`free, this`mem, this`shm
      ensures Valid() && (ok <==> Need(old(shm), old(mem), p, PagesOf(sz)) <= |old(free)|)
      ensures ok ==> Elements(free) == Elements(old(free)) && Keeps(old(mem), mem, Others(old(free))) && shm == old(shm)
    {
      hide Owns, Counted, Entry, Skeleton, IsDir, NoNull, PrivateFrames, Copied, CopyReady, Find, Need, Leaks, CountedAt;
      ghost var free0, mem0, shm0, n := free, mem, shm, PagesOf(sz);
      ReadyFacts(free, mem, shm, p, n);
      var c := CopyUvm(p, sz);
      if c.None? {
        return false;
      }
      ghost var free1, mem1, shm1, k := free, mem, shm, Need(shm0, mem0, p, n);
      CountedPlaces(shm0, shm, mem0, p, n);
      CopyWhole(first, free0, mem0, shm0, p, n, free, mem, c.value, data, n, k, free, shm, mem);
      FreeVm(c.value, -1);
      CountsReturn(free0, mem0, shm0, p, n, free1, mem1, c.value, data, k, shm1, shm);
      CopyLeft(free0, mem0, shm0, p, n, free1, mem1, c.value, data, k);
      return true;
    }

    /** The parent's entry for page i: there is one, and it is present. */
    method ParentEntry(p: nat, i: nat, ghost mem0: Memory) returns (w: nat)
      requires Valid() && i < PAGES && SameSpace(mem0, p, mem) && Apart(free, Skeleton(mem0, p))
      requires Present(Entry(mem0, p, i))
      modifies this`free, this`mem
      ensures free == old(free) && mem == old(mem) && w == Entry(mem0, p, i)
    {
      var pte := WalkPgdir(p, i, false);
      assert pte.Some?;
      w := mem[pte.value][Slot(i)];
    }
  }

  lemma OwnsDir(first: nat, free: seq<nat>, shm: seq<Shm>, mem: Memory, d: nat)
    requires Owns(first, free, shm, mem, d)
    ensures IsDir(mem, d) && |mem| == FRAMES && Apart(free, Skeleton(mem, d))
  {
  }

  /** freevm starts at page 0, the first of a table. */
  lemma FromZero(mem: Memory, d: nat)
    requires IsDir(mem, d)
    ensures PagesOf(0) == 0 && PagesOf(USERPAGES * PGSIZE) == USERPAGES && Begin(mem, d, 0, USERPAGES) == 0
  {
    BeginFacts(mem, d, 0, USERPAGES);
  }

  /** In front of the start the next table is looked at, at the same slot. */
  lemma Onward(mem: Memory, d: nat, a: nat, n: nat, start: nat)
    requires IsDir(mem, d) && n <= USERPAGES && a < n && Begin(mem, d, a, n) == start > a && !Has(mem, d, Dir(a))
    ensures a + NENTRIES < start ==> Begin(mem, d, a + NENTRIES, n) == start
    ensures start <= a + NENTRIES < n ==> a + NENTRIES == start && (Has(mem, d, Dir(start)) || Slot(start) == 0)
    ensures Upto(start, a + NENTRIES, n) == start
  {
    hide Has, Slot, Dir;
    BeginFacts(mem, d, a, n);
    if a + NENTRIES < n { BeginFacts(mem, d, a + NENTRIES, n); }
  }

  lemma NextPage(a: nat)
    ensures Slot(a) == 0 ==> Slot(a + NENTRIES) == 0
    ensures Dir(a + 1) == Dir(a) || Slot(a + 1) == 0
  {
  }

  /** Bytes to pages, rounded up. */
  function PagesOf(size: nat): nat { (size + PGSIZE - 1) / PGSIZE }
}
