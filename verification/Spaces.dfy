/**
 What an address space owns (vm.c, shm.h): its directory and tables and the frames of its private
 user pages, but not the frames of shared memory regions; how a teardown gives exactly these back,
 and how a copy takes exactly these.
 */
module Spaces {
  import opened Paging
  import opened Mapping

  // ---------------------------------------------------------------- shared memory regions

  /** An entry of shm_arr. */
  datatype Shm = Shm(phys: nat, numAccess: int)

  /** The first region at physical address pa; |shm| if there is none. */
  function Find(shm: seq<Shm>, pa: nat): (r: nat)
    ensures r <= |shm|
    ensures r < |shm| ==> shm[r].phys == pa
    ensures forall i :: 0 <= i < r ==> shm[i].phys != pa
  {
    if shm == [] then 0 else if shm[0].phys == pa then 0 else 1 + Find(shm[1..], pa)
  }

  predicate Shared(shm: seq<Shm>, f: nat) { Find(shm, f * PGSIZE) < |shm| }

  predicate SamePlaces(shm: seq<Shm>, shm': seq<Shm>) {
    |shm'| == |shm| && forall i :: 0 <= i < |shm| ==> shm'[i].phys == shm[i].phys
  }

  lemma FindSame(shm: seq<Shm>, shm': seq<Shm>, pa: nat)
    requires SamePlaces(shm, shm')
    ensures Find(shm', pa) == Find(shm, pa)
  {
  }

  // ---------------------------------------------------------------- private pages

  predicate PrivateAt(shm: seq<Shm>, mem: Memory, d: nat, v: nat)
    requires IsDir(mem, d) && v < PAGES
  {
    Present(Entry(mem, d, v)) && !Shared(shm, PageFrame(mem, d, v))
  }

  function PageFrame(mem: Memory, d: nat, v: nat): nat
    requires IsDir(mem, d) && v < PAGES
  {
    FrameOf(Entry(mem, d, v))
  }

  /** The frames of the private pages from lo to before hi. */
  function PrivateFrames(shm: seq<Shm>, mem: Memory, d: nat, lo: nat, hi: nat): set<nat>
    requires IsDir(mem, d) && hi <= PAGES
  {
    set v | lo <= v < hi && PrivateAt(shm, mem, d, v) :: PageFrame(mem, d, v)
  }

  /** The space's frames are allocated ones, each used once. */
  predicate Owns(first: nat, free: seq<nat>, shm: seq<Shm>, mem: Memory, d: nat) {
    && IsDir(mem, d) && NoDup(free) && Apart(free, Skeleton(mem, d)) && |mem| == FRAMES
    && (forall f :: f in Skeleton(mem, d) ==> first <= f)
    && (forall v :: 0 <= v < USERPAGES && PrivateAt(shm, mem, d, v) ==> OwnFrame(first, free, mem, d, PageFrame(mem, d, v)))
    && (forall u, v :: 0 <= u < v < USERPAGES && PrivateAt(shm, mem, d, u) && PrivateAt(shm, mem, d, v) ==> PageFrame(mem, d, u) != PageFrame(mem, d, v))
  }

  predicate OwnFrame(first: nat, free: seq<nat>, mem: Memory, d: nat, f: nat) {
    first <= f < FRAMES && f !in free && f !in Skeleton(mem, d)
  }

  // ---------------------------------------------------------------- teardown

  function JunkPage(): Page { seq(NENTRIES, _ => 0x01010101) }

  function Elements(s: seq<nat>): set<nat> { set f | f in s }

  /** The private pages from lo to before a are unmapped and their frames are free; nothing else happened. */
  predicate Freed(free: seq<nat>, mem: Memory, shm: seq<Shm>, d: nat, free': seq<nat>, mem': Memory, lo: nat, a: nat)
    requires a <= USERPAGES
  {
    && IsDir(mem, d) && IsDir(mem', d) && |mem'| == |mem| && NoDup(free')
    && Skeleton(mem', d) == Skeleton(mem, d) && mem'[d] == mem[d]
    && Elements(free') == Elements(free) + PrivateFrames(shm, mem, d, lo, a)
    && (forall v :: 0 <= v < PAGES ==> Entry(mem', d, v) == if lo <= v < a && PrivateAt(shm, mem, d, v) then 0 else Entry(mem, d, v))
    && (forall f :: 0 <= f < |mem| && f !in Skeleton(mem, d) && f !in PrivateFrames(shm, mem, d, lo, a) ==> mem'[f] == mem[f])
  }

  lemma FreedNone(first: nat, free: seq<nat>, mem: Memory, shm: seq<Shm>, d: nat, lo: nat)
    requires lo <= USERPAGES && Owns(first, free, shm, mem, d)
    ensures Freed(free, mem, shm, d, free, mem, lo, lo)
  {
    assert PrivateFrames(shm, mem, d, lo, lo) == {};
  }

  /** Pages that are not private are passed over. */
  lemma FreedPast(free: seq<nat>, mem: Memory, shm: seq<Shm>, d: nat, free': seq<nat>, mem': Memory, lo: nat, a: nat,
                  b: nat)
    requires lo <= a <= b <= USERPAGES && Freed(free, mem, shm, d, free', mem', lo, a)
    requires forall v :: a <= v < b ==> !PrivateAt(shm, mem, d, v)
    ensures Freed(free, mem, shm, d, free', mem', lo, b)
  {
    hide PrivateAt, Entry, IsDir, Skeleton;
    assert PrivateFrames(shm, mem, d, lo, b) == PrivateFrames(shm, mem, d, lo, a);
  }

  /**
   Where deallocuvm begins to free.  From a page whose table is missing it goes on by a whole
   table's worth of pages, to the same place in the next one.
   */
  function Begin(mem: Memory, d: nat, a: nat, n: nat): nat
    requires IsDir(mem, d) && n <= USERPAGES
    decreases if a < n then n - a else 0
  {
    if a >= n then n
    else if Has(mem, d, Dir(a)) || Slot(a) == 0 then a
    else Begin(mem, d, a + NENTRIES, n)
  }

  lemma {:induction false} BeginFacts(mem: Memory, d: nat, a: nat, n: nat)
    requires IsDir(mem, d) && n <= USERPAGES && a < n
    ensures a <= Begin(mem, d, a, n) <= n
    ensures Has(mem, d, Dir(a)) || Slot(a) == 0 ==> Begin(mem, d, a, n) == a
    ensures !Has(mem, d, Dir(a)) && Slot(a) != 0 ==>
              Begin(mem, d, a, n) == Begin(mem, d, a + NENTRIES, n) >= Lesser(a + NENTRIES, n)
    ensures Begin(mem, d, a, n) < n ==> Has(mem, d, Dir(Begin(mem, d, a, n))) || Slot(Begin(mem, d, a, n)) == 0
    decreases n - a
  {
    hide Has, IsDir, Slot, Dir;
    if !Has(mem, d, Dir(a)) && Slot(a) != 0 && a + NENTRIES < n {
      BeginFacts(mem, d, a + NENTRIES, n);
    }
  }

  /** It begins at the first page a, a + 1024, a + 2048, ... below n that has a table; at a if that is the first of its table. */
  lemma {:induction false} BeginIs(mem: Memory, d: nat, a: nat, n: nat) returns (j: nat)
    requires IsDir(mem, d) && n <= USERPAGES && a < n
    ensures Begin(mem, d, a, n) == Lesser(a + NENTRIES * j, n)
    ensures forall i :: 0 <= i < j ==> a + NENTRIES * i < n && !Has(mem, d, Dir(a + NENTRIES * i))
    ensures a + NENTRIES * j < n ==> Has(mem, d, Dir(a + NENTRIES * j)) || Slot(a) == 0
    ensures Slot(a) == 0 ==> j == 0
    decreases n - a
  {
    hide Has, IsDir, Dir;
    if Has(mem, d, Dir(a)) || Slot(a) == 0 {
      j := 0;
    } else if a + NENTRIES >= n {
      j := 1;
    } else {
      assert Slot(a + NENTRIES) == Slot(a);
      var k := BeginIs(mem, d, a + NENTRIES, n);
      j := k + 1;
      forall i | 0 <= i < j
        ensures a + NENTRIES * i < n && !Has(mem, d, Dir(a + NENTRIES * i))
      {
        if i > 0 {
          assert a + NENTRIES * i == a + NENTRIES + NENTRIES * (i - 1);
        }
      }
    }
  }

  /** How far the freeing has come when the loop stands at a. */
  function Upto(start: nat, a: nat, n: nat): nat { if a <= start then start else Lesser(a, n) }

  /** Every private page from lo on is freed exactly if none lies in front of where the freeing begins. */
  lemma SkipsIff(free: seq<nat>, mem: Memory, shm: seq<Shm>, d: nat, free': seq<nat>, mem': Memory, lo: nat, n: nat)
    requires IsDir(mem, d) && lo <= n <= USERPAGES
    requires Freed(free, mem, shm, d, free', mem', Begin(mem, d, lo, n), n)
    ensures (forall v :: lo <= v < n && PrivateAt(shm, mem, d, v) ==> Entry(mem', d, v) == 0)
            <==> forall v :: lo <= v < n && v < Begin(mem, d, lo, n) ==> !PrivateAt(shm, mem, d, v)
  {
    hide Begin, Has, Skeleton, FrameOf;
    if lo < n { BeginFacts(mem, d, lo, n); } else { BeginAtEnd(mem, d, n); }
    var start := Begin(mem, d, lo, n);
    forall v | lo <= v < n
      ensures Entry(mem', d, v) == if start <= v && PrivateAt(shm, mem, d, v) then 0 else Entry(mem, d, v)
      ensures PrivateAt(shm, mem, d, v) ==> Entry(mem, d, v) != 0
    {
    }
  }

  lemma BeginAtEnd(mem: Memory, d: nat, n: nat)
    requires IsDir(mem, d) && n <= USERPAGES
    ensures Begin(mem, d, n, n) == n
  {
  }

  lemma NoTableNoPages(shm: seq<Shm>, mem: Memory, d: nat, a: nat)
    requires IsDir(mem, d) && a < USERPAGES && Slot(a) == 0 && !Has(mem, d, Dir(a))
    ensures a + NENTRIES <= USERPAGES && forall v :: a <= v < a + NENTRIES ==> !Present(Entry(mem, d, v)) && !PrivateAt(shm, mem, d, v)
  {
    forall v | a <= v < a + NENTRIES
      ensures !Present(Entry(mem, d, v))
    {
      assert Dir(v) == Dir(a);
    }
  }

  /** What the teardown sees at page a. */
  lemma FreedFacts(first: nat, free: seq<nat>, mem: Memory, shm: seq<Shm>, d: nat, free': seq<nat>, mem': Memory,
                   lo: nat, a: nat)
    requires lo <= a < USERPAGES && Freed(free, mem, shm, d, free', mem', lo, a) && Owns(first, free, shm, mem, d)
    ensures IsDir(mem', d) && |mem'| == FRAMES && Apart(free', Skeleton(mem', d))
    ensures Has(mem', d, Dir(a)) == Has(mem, d, Dir(a))
    ensures Has(mem', d, Dir(a)) ==> Table(mem', d, Dir(a)) < FRAMES
    ensures Has(mem', d, Dir(a)) ==> mem'[Table(mem', d, Dir(a))][Slot(a)] == Entry(mem, d, a)
    ensures !Has(mem', d, Dir(a)) ==> Entry(mem, d, a) == 0
  {
    assert Entry(mem', d, a) == Entry(mem, d, a);
    forall i | 0 <= i < |free'|
      ensures free'[i] !in Skeleton(mem', d)
    {
      assert free'[i] in Elements(free');
      assert free'[i] in Elements(free) || free'[i] in PrivateFrames(shm, mem, d, lo, a);
    }
  }

  /** The next private page: its frame is not free yet, and freeing it is one more step. */
  lemma FreedOne(first: nat, free: seq<nat>, mem: Memory, shm: seq<Shm>, d: nat, free': seq<nat>, mem': Memory,
                 lo: nat, a: nat)
    requires lo <= a < USERPAGES && Freed(free, mem, shm, d, free', mem', lo, a) && Owns(first, free, shm, mem, d)
    requires PrivateAt(shm, mem, d, a)
    ensures OwnFrame(first, free', mem', d, PageFrame(mem, d, a)) && Has(mem', d, Dir(a))
    ensures PageFrame(mem', d, a) == PageFrame(mem, d, a)
    ensures IsDir(mem'[PageFrame(mem, d, a) := JunkPage()], d)
    ensures Has(mem'[PageFrame(mem, d, a) := JunkPage()], d, Dir(a))
    ensures Table(mem'[PageFrame(mem, d, a) := JunkPage()], d, Dir(a)) == Table(mem', d, Dir(a))
    ensures Freed(free, mem, shm, d, [PageFrame(mem, d, a)] + free', WithEntry(mem'[PageFrame(mem, d, a) := JunkPage()], d, a, 0), lo, a + 1)
  {
    var f := PageFrame(mem, d, a);
    NotFreedYet(first, free, mem, shm, d, free', mem', lo, a);
    var m := mem'[f := JunkPage()];
    OtherFrames(mem', d, m);
    EntrySet(m, d, a, 0);
    var m2 := WithEntry(m, d, a, 0);
    assert Table(m, d, Dir(a)) in Skeleton(m, d);
    FreedFrames(shm, mem, d, lo, a);
    FreedList(free, mem, shm, d, free', lo, a);
    FreedEntries(shm, mem, d, mem', m2, lo, a);
    FreedRest(free, mem, shm, d, free', mem', m2, lo, a);
  }

  lemma NotFreedYet(first: nat, free: seq<nat>, mem: Memory, shm: seq<Shm>, d: nat, free': seq<nat>, mem': Memory,
                    lo: nat, a: nat)
    requires lo <= a < USERPAGES && Freed(free, mem, shm, d, free', mem', lo, a) && Owns(first, free, shm, mem, d)
    requires PrivateAt(shm, mem, d, a)
    ensures OwnFrame(first, free', mem', d, PageFrame(mem, d, a)) && Has(mem', d, Dir(a))
    ensures PageFrame(mem', d, a) == PageFrame(mem, d, a)
  {
    hide Skeleton;
    assert PageFrame(mem, d, a) !in PrivateFrames(shm, mem, d, lo, a);
    assert PageFrame(mem, d, a) !in Elements(free');
    assert Entry(mem', d, a) == Entry(mem, d, a);
  }

  lemma FreedFrames(shm: seq<Shm>, mem: Memory, d: nat, lo: nat, a: nat)
    requires lo <= a < USERPAGES && IsDir(mem, d) && PrivateAt(shm, mem, d, a)
    ensures PrivateFrames(shm, mem, d, lo, a + 1) == PrivateFrames(shm, mem, d, lo, a) + {PageFrame(mem, d, a)}
  {
    hide PrivateAt, PageFrame, IsDir;
  }

  lemma FreedList(free: seq<nat>, mem: Memory, shm: seq<Shm>, d: nat, free': seq<nat>, lo: nat, a: nat)
    requires lo <= a < USERPAGES && IsDir(mem, d) && PrivateAt(shm, mem, d, a)
    requires NoDup(free') && Elements(free') == Elements(free) + PrivateFrames(shm, mem, d, lo, a)
    requires PageFrame(mem, d, a) !in free'
    ensures NoDup([PageFrame(mem, d, a)] + free')
    ensures Elements([PageFrame(mem, d, a)] + free') == Elements(free) + PrivateFrames(shm, mem, d, lo, a + 1)
  {
    hide PrivateAt, PageFrame, IsDir, PrivateFrames;
    FreedFrames(shm, mem, d, lo, a);
    assert Elements([PageFrame(mem, d, a)] + free') == Elements(free') + {PageFrame(mem, d, a)};
  }

  lemma FreedEntries(shm: seq<Shm>, mem: Memory, d: nat, mem': Memory, m2: Memory, lo: nat, a: nat)
    requires lo <= a < USERPAGES && IsDir(mem, d) && PrivateAt(shm, mem, d, a) && IsDir(mem', d) && IsDir(m2, d)
    requires forall v :: 0 <= v < PAGES ==> Entry(mem', d, v) == if lo <= v < a && PrivateAt(shm, mem, d, v) then 0 else Entry(mem, d, v)
    requires forall v :: 0 <= v < PAGES ==> Entry(m2, d, v) == if v == a then 0 else Entry(mem', d, v)
    ensures forall v :: 0 <= v < PAGES ==> Entry(m2, d, v) == if lo <= v < a + 1 && PrivateAt(shm, mem, d, v) then 0 else Entry(mem, d, v)
  {
    hide PrivateAt, Entry, IsDir;
  }

  lemma FreedRest(free: seq<nat>, mem: Memory, shm: seq<Shm>, d: nat, free': seq<nat>, mem': Memory, m2: Memory,
                  lo: nat, a: nat)
    requires lo <= a < USERPAGES && Freed(free, mem, shm, d, free', mem', lo, a) && PrivateAt(shm, mem, d, a)
    requires |m2| == |mem|
    requires forall f :: 0 <= f < |mem| && f !in Skeleton(mem', d) && f != PageFrame(mem, d, a) ==> m2[f] == mem'[f]
    ensures forall f :: 0 <= f < |mem| && f !in Skeleton(mem, d) && f !in PrivateFrames(shm, mem, d, lo, a + 1) ==> m2[f] == mem[f]
  {
    hide PrivateAt, PageFrame, IsDir, PrivateFrames, Entry, Skeleton;
    FreedFrames(shm, mem, d, lo, a);
  }

  // ---------------------------------------------------------------- access counts

  /** What the pages from lo to before hi add to the count of region r, at change per page. */
  function Drift(shm: seq<Shm>, mem: Memory, d: nat, r: nat, lo: nat, hi: nat, change: int): int
    requires IsDir(mem, d) && hi <= PAGES
  {
    if hi <= lo then 0
    else Drift(shm, mem, d, r, lo, hi - 1, change) + (if Hits(shm, mem, d, r, hi - 1) then change else 0)
  }

  /** Page v maps region r. */
  predicate Hits(shm: seq<Shm>, mem: Memory, d: nat, r: nat, v: nat)
    requires IsDir(mem, d) && v < PAGES
  {
    Present(Entry(mem, d, v)) && Find(shm, PageFrame(mem, d, v) * PGSIZE) == r
  }

  /** The pages from lo to before hi that map region r. */
  function PagesOn(shm: seq<Shm>, mem: Memory, d: nat, r: nat, lo: nat, hi: nat): set<nat>
    requires IsDir(mem, d) && hi <= PAGES
  {
    set v | lo <= v < hi && Hits(shm, mem, d, r, v)
  }

  lemma OneMorePage(shm: seq<Shm>, mem: Memory, d: nat, r: nat, lo: nat, last: nat)
    requires IsDir(mem, d) && lo <= last < PAGES
    ensures |PagesOn(shm, mem, d, r, lo, last + 1)| == |PagesOn(shm, mem, d, r, lo, last)| + if Hits(shm, mem, d, r, last) then 1 else 0
  {
    hide IsDir, Hits;
    var before := PagesOn(shm, mem, d, r, lo, last);
    assert PagesOn(shm, mem, d, r, lo, last + 1) == if Hits(shm, mem, d, r, last) then before + {last} else before;
  }

  lemma NoPages(shm: seq<Shm>, mem: Memory, d: nat, r: nat, lo: nat, hi: nat)
    requires IsDir(mem, d) && hi <= lo && hi <= PAGES
    ensures |PagesOn(shm, mem, d, r, lo, hi)| == 0
  {
    hide IsDir, Hits;
    assert PagesOn(shm, mem, d, r, lo, hi) == {};
  }

  lemma Times(change: int, m: nat)
    ensures change * (m + 1) == change * m + change && change * 0 == 0
  {
  }

  /** The count of a region changes by `change` for each page that maps it. */
  lemma {:induction false} DriftIs(shm: seq<Shm>, mem: Memory, d: nat, r: nat, lo: nat, hi: nat, change: int)
    requires IsDir(mem, d) && hi <= PAGES
    ensures Drift(shm, mem, d, r, lo, hi, change) == change * |PagesOn(shm, mem, d, r, lo, hi)|
    decreases hi
  {
    hide IsDir, Hits, PagesOn;
    if hi <= lo {
      NoPages(shm, mem, d, r, lo, hi);
    } else {
      var m := |PagesOn(shm, mem, d, r, lo, hi - 1)|;
      DriftIs(shm, mem, d, r, lo, hi - 1, change);
      OneMorePage(shm, mem, d, r, lo, hi - 1);
      Times(change, m);
    }
  }

  predicate Counted(shm: seq<Shm>, shm': seq<Shm>, mem: Memory, d: nat, lo: nat, hi: nat, change: int)
    requires IsDir(mem, d) && hi <= PAGES
  {
    SamePlaces(shm, shm') && forall r :: 0 <= r < |shm| ==> shm'[r].numAccess == shm[r].numAccess + Drift(shm, mem, d, r, lo, hi, change)
  }

  function Bump(shm: seq<Shm>, pa: nat, change: int): seq<Shm> {
    var r := Find(shm, pa);
    if r < |shm| then shm[r := Shm(shm[r].phys, shm[r].numAccess + change)] else shm
  }

  lemma CountedNone(shm: seq<Shm>, mem: Memory, d: nat, lo: nat, change: int)
    requires IsDir(mem, d) && lo <= PAGES
    ensures Counted(shm, shm, mem, d, lo, lo, change)
  {
  }

  lemma CountedOne(shm: seq<Shm>, shm': seq<Shm>, mem: Memory, d: nat, lo: nat, v: nat, change: int)
    requires IsDir(mem, d) && lo <= v < PAGES && Counted(shm, shm', mem, d, lo, v, change) && Present(Entry(mem, d, v))
    ensures Counted(shm, Bump(shm', PageFrame(mem, d, v) * PGSIZE, change), mem, d, lo, v + 1, change)
    ensures Shared(shm', PageFrame(mem, d, v)) == Shared(shm, PageFrame(mem, d, v))
  {
    hide IsDir, Entry;
    FindSame(shm, shm', PageFrame(mem, d, v) * PGSIZE);
  }

  lemma {:induction false} CountedPast(shm: seq<Shm>, shm': seq<Shm>, mem: Memory, d: nat, lo: nat, a: nat, b: nat,
                                       change: int)
    requires IsDir(mem, d) && lo <= a <= b <= PAGES && Counted(shm, shm', mem, d, lo, a, change)
    requires forall v :: a <= v < b ==> !Present(Entry(mem, d, v))
    ensures Counted(shm, shm', mem, d, lo, b, change)
    decreases b - a
  {
    hide IsDir, Entry;
    if a < b {
      CountedPast(shm, shm', mem, d, lo, a + 1, b, change);
    }
  }

  // ---------------------------------------------------------------- copy

  /** Page v of the copy: same flags; a shared frame itself, or a frame with the same contents. */
  predicate PageCopied(shm: seq<Shm>, mem: Memory, p: nat, mem': Memory, c: nat, v: nat)
    requires IsDir(mem, p) && IsDir(mem', c) && v < PAGES
  {
    var f, f' := PageFrame(mem, p, v), PageFrame(mem', c, v);
    && Present(Entry(mem', c, v)) && FlagsOf(Entry(mem', c, v)) == FlagsOf(Entry(mem, p, v))
    && (if Shared(shm, f) then f' == f else f < |mem| && f' < |mem'| && mem'[f'] == mem[f])
  }

  /** The frames of the copies of private pages below i. */
  function ChildFrames(shm: seq<Shm>, mem: Memory, p: nat, mem': Memory, c: nat, i: nat): set<nat>
    requires IsDir(mem, p) && IsDir(mem', c) && i <= USERPAGES
  {
    set v | 0 <= v < i && PrivateAt(shm, mem, p, v) :: PageFrame(mem', c, v)
  }

  /** The copy consists of the first k frames of the free list, and no other frame changed. */
  predicate CopyFrames(free: seq<nat>, mem: Memory, shm: seq<Shm>, p: nat, free': seq<nat>, mem': Memory, c: nat,
                       i: nat, k: nat)
    requires i <= USERPAGES
  {
    && k <= |free| && free' == free[k..] && |mem'| == |mem| && IsDir(mem, p) && IsDir(mem', c)
    && Taken(free, k) == Skeleton(mem', c) + ChildFrames(shm, mem, p, mem', c, i)
    && (forall f :: 0 <= f < |mem| && f !in Taken(free, k) ==> mem'[f] == mem[f])
  }

  /** Pages below i are copied, each private one to a frame of its own; above there is only the kernel. */
  predicate CopyEntries(mem: Memory, shm: seq<Shm>, p: nat, mem': Memory, c: nat, data: nat, i: nat)
    requires i <= USERPAGES && IsDir(mem, p) && IsDir(mem', c)
  {
    && (forall v :: 0 <= v < i ==> PageCopied(shm, mem, p, mem', c, v))
    && (forall v :: i <= v < PAGES ==> Entry(mem', c, v) == KernelEntry(data, v))
    && (forall v :: 0 <= v < i && PrivateAt(shm, mem, p, v) ==> PageFrame(mem', c, v) !in Skeleton(mem', c))
    && (forall u, v :: 0 <= u < v < i && PrivateAt(shm, mem, p, u) && PrivateAt(shm, mem, p, v) ==> PageFrame(mem', c, u) != PageFrame(mem', c, v))
  }

  predicate CopyTables(mem': Memory, c: nat, data: nat, i: nat)
    requires KERNLINK < data < KERNTOP
  {
    forall j :: 0 <= j < NENTRIES ==> Has(mem', c, j) == (Served(data, 4, j) || j * NENTRIES < i)
  }

  predicate Copied(free: seq<nat>, mem: Memory, shm: seq<Shm>, p: nat, free': seq<nat>, mem': Memory, c: nat,
                   data: nat, i: nat, k: nat)
    requires i <= USERPAGES && KERNLINK < data < KERNTOP
  {
    && CopyFrames(free, mem, shm, p, free', mem', c, i, k)
    && CopyEntries(mem, shm, p, mem', c, data, i) && CopyTables(mem', c, data, i)
  }

  lemma CopyStart(free: seq<nat>, mem: Memory, shm: seq<Shm>, p: nat, free': seq<nat>, mem': Memory, c: nat, data: nat)
    requires KERNLINK < data < KERNTOP && IsDir(mem, p)
    requires Built(free, mem, c, free', mem', KERNELFRAMES) && KernelUpTo(mem', c, data, 4)
    ensures Copied(free, mem, shm, p, free', mem', c, data, 0, KERNELFRAMES)
  {
    hide Entry, Has, Skeleton, IsDir, Make;
    assert ChildFrames(shm, mem, p, mem', c, 0) == {};
  }

  /** Above its user pages a copy has the kernel's pages, none of them open to user code. */
  lemma CopiedKernel(free: seq<nat>, mem: Memory, shm: seq<Shm>, p: nat, free': seq<nat>, mem': Memory, c: nat,
                     data: nat, i: nat, k: nat)
    requires i <= USERPAGES && KERNLINK < data < KERNTOP && Copied(free, mem, shm, p, free', mem', c, data, i, k)
    ensures IsDir(mem', c) && KernelPages(mem', c, data, i)
  {
    hide Entry, Has, Skeleton, IsDir, Make, KernelPages;
    EntriesGive(mem', c, data, i);
  }

  /** The parent: n pages present, its frames not on the free list, nor any shared frame. */
  predicate CopyReady(free: seq<nat>, mem: Memory, shm: seq<Shm>, p: nat, n: nat) {
    && n <= USERPAGES && IsDir(mem, p) && |mem| == FRAMES && NoDup(free) && Apart(free, Skeleton(mem, p))
    && (forall i :: 0 <= i < |free| ==> free[i] < FRAMES && !Shared(shm, free[i]))
    && (forall v :: 0 <= v < n ==> Present(Entry(mem, p, v)))
    && (forall v :: 0 <= v < n && PrivateAt(shm, mem, p, v) ==> PageFrame(mem, p, v) < FRAMES && PageFrame(mem, p, v) !in free)
  }

  lemma TakenMore(free: seq<nat>, k: nat, m: nat)
    requires k + m <= |free|
    ensures Taken(free, k + m) == Taken(free, k) + Taken(free[k..], m)
    ensures NoDup(free) ==> Taken(free, k) !! Taken(free[k..], m)
  {
    assert free[..k + m] == free[..k] + free[k..][..m];
  }

  /** Page i is mapped to frame f by entry w, at the cost of the table frames in s; only x got other contents. */
  predicate Stepped(mem: Memory, c: nat, mem': Memory, i: nat, w: nat, s: set<nat>, x: set<nat>)
    requires i < PAGES
  {
    && IsDir(mem, c) && IsDir(mem', c) && |mem'| == |mem| && Skeleton(mem', c) == Skeleton(mem, c) + s
    && (forall v :: 0 <= v < PAGES ==> Entry(mem', c, v) == if v == i then w else Entry(mem, c, v))
    && (forall j :: 0 <= j < NENTRIES ==> Has(mem', c, j) == (Has(mem, c, j) || j == Dir(i)))
    && (forall f :: 0 <= f < |mem| && f !in Skeleton(mem, c) + s + x ==> mem'[f] == mem[f])
  }

  lemma StepShared(free: seq<nat>, mem: Memory, c: nat, free': seq<nat>, mem': Memory, i: nat, f: nat, perm: nat,
                   m: nat)
    requires MappedUpTo(free, mem, c, free', mem', i, i + 1, i, f, perm, m)
    ensures m <= |free| && Stepped(mem, c, mem', i, Make(f, perm), Taken(free, m), {})
  {
    hide Entry, Has, Skeleton, IsDir, Make, Missing;
  }

  lemma StepPrivate(free: seq<nat>, mem: Memory, c: nat, page: Page, free': seq<nat>, mem': Memory, i: nat, perm: nat,
                    m: nat)
    requires NoDup(free) && free != [] && free[0] < |mem| && IsDir(mem, c) && Apart(free, Skeleton(mem, c))
    requires MappedUpTo(free[1..], mem[free[0] := page], c, free', mem', i, i + 1, i, free[0], perm, m)
    ensures m <= |free| - 1 && Stepped(mem, c, mem', i, Make(free[0], perm), Taken(free[1..], m), {free[0]})
    ensures mem'[free[0]] == page
    ensures free' == free[1 + m..]
  {
    hide Entry, Has, Skeleton, IsDir, Make, Missing;
    OtherFrames(mem, c, mem[free[0] := page]);
    assert free[0] !in Taken(free[1..], m);
  }

  lemma StepFrames(free: seq<nat>, mem: Memory, shm: seq<Shm>, p: nat, free1: seq<nat>, mem1: Memory, c: nat, i: nat, k: nat,
                   free3: seq<nat>, mem3: Memory, w: nat, k1: nat, m: nat)
    requires i < USERPAGES && CopyFrames(free, mem, shm, p, free1, mem1, c, i, k) && k1 + m <= |free1|
    requires free3 == free1[k1 + m..]
    requires Stepped(mem1, c, mem3, i, w, Taken(free1[k1..], m), Taken(free1, k1))
    requires if PrivateAt(shm, mem, p, i) then k1 == 1 && FrameOf(w) == free1[0] else k1 == 0
    ensures CopyFrames(free, mem, shm, p, free3, mem3, c, i + 1, k + k1 + m)
  {
    hide PrivateAt, Entry, Has, Skeleton, IsDir, FrameOf, ChildFrames, Taken;
    TakenMore(free, k, k1 + m);
    TakenMore(free1, k1, m);
    TakenFew(free1);
    ChildStep(shm, mem, p, mem1, mem3, c, i, w);
    assert ChildFrames(shm, mem, p, mem3, c, i + 1) == ChildFrames(shm, mem, p, mem1, c, i) + Taken(free1, k1);
  }

  lemma TakenFew(free: seq<nat>)
    ensures Taken(free, 0) == {} && (free != [] ==> Taken(free, 1) == {free[0]})
  {
    assert free != [] ==> free[..1] == [free[0]];
  }

  lemma ChildStep(shm: seq<Shm>, mem: Memory, p: nat, mem1: Memory, mem3: Memory, c: nat, i: nat, w: nat)
    requires i < USERPAGES && IsDir(mem, p) && IsDir(mem1, c) && IsDir(mem3, c)
    requires forall v :: 0 <= v < PAGES ==> Entry(mem3, c, v) == if v == i then w else Entry(mem1, c, v)
    ensures ChildFrames(shm, mem, p, mem3, c, i + 1) == ChildFrames(shm, mem, p, mem1, c, i) + if PrivateAt(shm, mem, p, i) then {FrameOf(w)} else {}
  {
    hide PrivateAt, Entry, IsDir, FrameOf;
    assert PageFrame(mem3, c, i) == FrameOf(w);
    assert forall v :: 0 <= v < i ==> PageFrame(mem3, c, v) == PageFrame(mem1, c, v);
  }

  lemma StepOld(free: seq<nat>, mem: Memory, shm: seq<Shm>, p: nat, free1: seq<nat>, mem1: Memory, c: nat, data: nat, i: nat, k: nat,
                mem3: Memory, w: nat, s: set<nat>, x: set<nat>, v: nat)
    requires v < i < USERPAGES && CopyFrames(free, mem, shm, p, free1, mem1, c, i, k)
    requires CopyEntries(mem, shm, p, mem1, c, data, i)
    requires Stepped(mem1, c, mem3, i, w, s, x) && s + x !! Taken(free, k)
    ensures PageCopied(shm, mem, p, mem3, c, v)
    ensures PrivateAt(shm, mem, p, v) ==> PageFrame(mem3, c, v) == PageFrame(mem1, c, v)
    ensures PrivateAt(shm, mem, p, v) ==> PageFrame(mem3, c, v) in Taken(free, k) - Skeleton(mem3, c)
  {
    hide Entry, Has, Skeleton, IsDir, Find, Taken, Shared, ChildFrames, PrivateAt, FlagsOf, FrameOf, Present;
    assert Entry(mem3, c, v) == Entry(mem1, c, v);
    FlagsPresent(Entry(mem, p, v));
    FlagsPresent(Entry(mem1, c, v));
    assert PageCopied(shm, mem, p, mem1, c, v);
    PrivateIs(shm, mem, p, mem1, c, i, v);
    if PrivateAt(shm, mem, p, v) {
      var f := PageFrame(mem1, c, v);
      assert f in Taken(free, k) && f !in Skeleton(mem1, c);
      assert f !in s + x;
      assert mem3[f] == mem1[f];
    }
  }

  lemma PrivateIs(shm: seq<Shm>, mem: Memory, p: nat, mem1: Memory, c: nat, i: nat, v: nat)
    requires v < i <= USERPAGES && IsDir(mem, p) && IsDir(mem1, c)
    ensures PrivateAt(shm, mem, p, v) ==> !Shared(shm, PageFrame(mem, p, v))
    ensures PrivateAt(shm, mem, p, v) ==> PageFrame(mem1, c, v) in ChildFrames(shm, mem, p, mem1, c, i)
    ensures Present(Entry(mem, p, v)) && !Shared(shm, PageFrame(mem, p, v)) ==> PrivateAt(shm, mem, p, v)
  {
    hide Entry, IsDir, Find;
  }

  lemma StepEntries(free: seq<nat>, mem: Memory, shm: seq<Shm>, p: nat, free1: seq<nat>, mem1: Memory, c: nat, data: nat, i: nat, k: nat,
                    mem3: Memory, w: nat, s: set<nat>, x: set<nat>)
    requires i < USERPAGES && CopyFrames(free, mem, shm, p, free1, mem1, c, i, k)
    requires CopyEntries(mem, shm, p, mem1, c, data, i)
    requires Stepped(mem1, c, mem3, i, w, s, x) && s + x !! Taken(free, k) && s !! x
    requires PageCopied(shm, mem, p, mem3, c, i)
    requires PrivateAt(shm, mem, p, i) ==> FrameOf(w) in x
    ensures CopyEntries(mem, shm, p, mem3, c, data, i + 1)
  {
    hide Entry, Has, Skeleton, IsDir, Find, PageCopied, PrivateAt;
    forall v | 0 <= v < i
      ensures PageCopied(shm, mem, p, mem3, c, v)
      ensures PrivateAt(shm, mem, p, v) ==> PageFrame(mem3, c, v) == PageFrame(mem1, c, v)
      ensures PrivateAt(shm, mem, p, v) ==> PageFrame(mem3, c, v) in Taken(free, k) - Skeleton(mem3, c)
    {
      StepOld(free, mem, shm, p, free1, mem1, c, data, i, k, mem3, w, s, x, v);
    }
    assert PageFrame(mem3, c, i) == FrameOf(w);
  }

  lemma StepTables(mem: Memory, c: nat, mem': Memory, data: nat, i: nat, w: nat, s: set<nat>, x: set<nat>)
    requires KERNLINK < data < KERNTOP && i < USERPAGES && Stepped(mem, c, mem', i, w, s, x)
    requires CopyTables(mem, c, data, i)
    ensures CopyTables(mem', c, data, i + 1)
  {
    hide Entry, Has, Skeleton, IsDir, Served;
    assert Dir(i) * NENTRIES <= i < (Dir(i) + 1) * NENTRIES;
  }

  lemma CopyShared(free: seq<nat>, mem: Memory, shm: seq<Shm>, p: nat, n: nat, free1: seq<nat>, mem1: Memory, c: nat, data: nat, i: nat, k: nat,
                   free3: seq<nat>, mem3: Memory, m: nat)
    requires KERNLINK < data < KERNTOP && CopyReady(free, mem, shm, p, n) && i < n
    requires Copied(free, mem, shm, p, free1, mem1, c, data, i, k)
    requires !PrivateAt(shm, mem, p, i)
    requires MappedUpTo(free1, mem1, c, free3, mem3, i, i + 1, i, PageFrame(mem, p, i), FlagsOf(Entry(mem, p, i)), m)
    ensures Copied(free, mem, shm, p, free3, mem3, c, data, i + 1, k + m)
  {
    hide Entry, Has, Skeleton, IsDir, Make, Missing, CopyEntries, CopyTables;
    var f, perm := PageFrame(mem, p, i), FlagsOf(Entry(mem, p, i));
    StepShared(free1, mem1, c, free3, mem3, i, f, perm, m);
    MakeParts(f, perm);
    FlagsPresent(Entry(mem, p, i));
    assert free1[0..] == free1 && Taken(free1, 0) == {};
    TakenMore(free, k, m);
    StepFrames(free, mem, shm, p, free1, mem1, c, i, k, free3, mem3, Make(f, perm), 0, m);
    StepEntries(free, mem, shm, p, free1, mem1, c, data, i, k, mem3, Make(f, perm), Taken(free1, m), {});
    StepTables(mem1, c, mem3, data, i, Make(f, perm), Taken(free1, m), {});
  }

  lemma FlagsPresent(w: nat)
    ensures Present(FlagsOf(w)) == Present(w) && FlagsOf(w) < PGSIZE
  {
    var q, r := w / PGSIZE, w % PGSIZE;
    assert w == PGSIZE * q + r && r < PGSIZE;
    SameParity(r, w, 2048 * q);
  }

  lemma CopyPrivate(free: seq<nat>, mem: Memory, shm: seq<Shm>, p: nat, n: nat, free1: seq<nat>, mem1: Memory, c: nat, data: nat, i: nat, k: nat,
                    free3: seq<nat>, mem3: Memory, m: nat)
    requires KERNLINK < data < KERNTOP && CopyReady(free, mem, shm, p, n) && i < n
    requires Copied(free, mem, shm, p, free1, mem1, c, data, i, k)
    requires PrivateAt(shm, mem, p, i) && free1 != [] && free1[0] < |mem1|
    requires MappedUpTo(free1[1..], mem1[free1[0] := mem[PageFrame(mem, p, i)]], c, free3, mem3, i, i + 1, i, free1[0], FlagsOf(Entry(mem, p, i)), m)
    ensures Copied(free, mem, shm, p, free3, mem3, c, data, i + 1, k + 1 + m)
  {
    hide Entry, Has, Skeleton, IsDir, Make, Missing, CopyEntries, CopyTables, Find, CopyFrames, MappedUpTo, Grew;
    var f, perm := free1[0], FlagsOf(Entry(mem, p, i));
    CopyApart(free, mem, shm, p, free1, mem1, c, i, k);
    StepPrivate(free1, mem1, c, mem[PageFrame(mem, p, i)], free3, mem3, i, perm, m);
    MakeParts(f, perm);
    FlagsPresent(Entry(mem, p, i));
    assert free1[..1] == [f];
    TakenMore(free, k, 1 + m);
    TakenMore(free1, 1, m);
    StepFrames(free, mem, shm, p, free1, mem1, c, i, k, free3, mem3, Make(f, perm), 1, m);
    StepEntries(free, mem, shm, p, free1, mem1, c, data, i, k, mem3, Make(f, perm), Taken(free1[1..], m), {f});
    StepTables(mem1, c, mem3, data, i, Make(f, perm), Taken(free1[1..], m), {f});
  }

  lemma CopyApart(free: seq<nat>, mem: Memory, shm: seq<Shm>, p: nat, free1: seq<nat>, mem1: Memory, c: nat, i: nat,
                  k: nat)
    requires i <= USERPAGES && NoDup(free) && CopyFrames(free, mem, shm, p, free1, mem1, c, i, k)
    ensures k <= |free| && free1 == free[k..] && |mem1| == |mem| && IsDir(mem, p) && IsDir(mem1, c)
    ensures NoDup(free1) && Apart(free1, Skeleton(mem1, c)) && Apart(free1, ChildFrames(shm, mem, p, mem1, c, i))
  {
    hide Entry, Has, Skeleton, IsDir, ChildFrames;
  }

  /** What the loop over pages knows before page i. */
  lemma CopyFacts(free: seq<nat>, mem: Memory, shm: seq<Shm>, p: nat, n: nat, free1: seq<nat>, mem1: Memory, c: nat,
                  data: nat, i: nat, k: nat)
    requires KERNLINK < data < KERNTOP && CopyReady(free, mem, shm, p, n) && i < n
    requires Copied(free, mem, shm, p, free1, mem1, c, data, i, k)
    ensures IsDir(mem1, c) && Apart(free1, Skeleton(mem1, c)) && !Present(Entry(mem1, c, i)) && |free1| == |free| - k
    ensures SameSpace(mem, p, mem1) && Apart(free1, Skeleton(mem, p)) && Present(Entry(mem, p, i))
    ensures PrivateAt(shm, mem, p, i) ==> PageFrame(mem, p, i) < |mem1| == |mem|
    ensures PrivateAt(shm, mem, p, i) ==> mem1[PageFrame(mem, p, i)] == mem[PageFrame(mem, p, i)]
    ensures Missing(mem1, c, Dir(i), Dir(i)) == if i % NENTRIES == 0 then 1 else 0
  {
    hide Entry, Skeleton, IsDir, Has, Served, Make;
    CopyApart(free, mem, shm, p, free1, mem1, c, i, k);
    assert forall f :: f in Taken(free, k) ==> f in free;
    OtherFrames(mem, p, mem1);
    assert Missing(mem1, c, Dir(i) + 1, Dir(i)) == 0;
    NotServed(data, i);
    assert Dir(i) * NENTRIES < i <==> i % NENTRIES != 0;
  }

  lemma NotServed(data: nat, i: nat)
    requires KERNLINK < data < KERNTOP && i < USERPAGES
    ensures Dir(i) < NENTRIES && !Served(data, 4, Dir(i)) && KernelEntry(data, i) == 0
  {
  }

  /** The copy so far owns its frames, and its private frames are those it copied to. */
  lemma CopyOwns(first: nat, free: seq<nat>, mem: Memory, shm: seq<Shm>, p: nat, n: nat, free1: seq<nat>,
                 mem1: Memory, c: nat, data: nat, i: nat, k: nat)
    requires KERNLINK < data < KERNTOP && CopyReady(free, mem, shm, p, n) && i <= n
    requires Copied(free, mem, shm, p, free1, mem1, c, data, i, k)
    requires forall j :: 0 <= j < |free| ==> first <= free[j]
    ensures Owns(first, free1, shm, mem1, c)
    ensures PrivateFrames(shm, mem1, c, 0, USERPAGES) == ChildFrames(shm, mem, p, mem1, c, i)
  {
    hide Entry, Skeleton, IsDir, Has, Served, Find;
    CopyApart(free, mem, shm, p, free1, mem1, c, i, k);
    forall v | 0 <= v < USERPAGES
      ensures PrivateAt(shm, mem1, c, v) <==> v < i && PrivateAt(shm, mem, p, v)
      ensures v < i && PrivateAt(shm, mem, p, v) ==> PageFrame(mem1, c, v) in ChildFrames(shm, mem, p, mem1, c, i)
    {
      CopyPrivacy(free, mem, shm, p, n, free1, mem1, c, data, i, k, v);
    }
    assert forall f :: f in Taken(free, k) ==> f in free && first <= f < FRAMES;
  }

  lemma CopyPrivacy(free: seq<nat>, mem: Memory, shm: seq<Shm>, p: nat, n: nat, free1: seq<nat>, mem1: Memory, c: nat,
                    data: nat, i: nat, k: nat, v: nat)
    requires KERNLINK < data < KERNTOP && CopyReady(free, mem, shm, p, n) && i <= n
    requires Copied(free, mem, shm, p, free1, mem1, c, data, i, k) && v < USERPAGES
    ensures PrivateAt(shm, mem1, c, v) <==> v < i && PrivateAt(shm, mem, p, v)
    ensures v < i && PrivateAt(shm, mem, p, v) ==> PageFrame(mem1, c, v) in ChildFrames(shm, mem, p, mem1, c, i)
  {
    hide Entry, Skeleton, IsDir, Has, Served, Find;
    if v < i {
      assert PageCopied(shm, mem, p, mem1, c, v);
      if PrivateAt(shm, mem, p, v) {
        assert PageFrame(mem1, c, v) in ChildFrames(shm, mem, p, mem1, c, i);
        assert PageFrame(mem1, c, v) in Taken(free, k);
      }
    } else {
      NotServed(data, v);
    }
  }

  // ---------------------------------------------------------------- what a copy costs

  function Privates(shm: seq<Shm>, mem: Memory, p: nat, i: nat): nat
    requires IsDir(mem, p) && i <= PAGES
  {
    if i == 0 then 0 else Privates(shm, mem, p, i - 1) + (if PrivateAt(shm, mem, p, i - 1) then 1 else 0)
  }

  /** The frames a copy of the first i pages takes: the kernel part, one a private page, one a table. */
  function Need(shm: seq<Shm>, mem: Memory, p: nat, i: nat): nat
    requires IsDir(mem, p) && i <= PAGES
  {
    KERNELFRAMES + Privates(shm, mem, p, i) + (i + NENTRIES - 1) / NENTRIES
  }

  lemma NeedStep(shm: seq<Shm>, mem: Memory, p: nat, i: nat)
    requires IsDir(mem, p) && i < PAGES
    ensures Need(shm, mem, p, i + 1) == Need(shm, mem, p, i) + (if PrivateAt(shm, mem, p, i) then 1 else 0) + (if i % NENTRIES == 0 then 1 else 0)
  {
    hide PrivateAt, IsDir;
  }

  lemma {:induction false} NeedGrows(shm: seq<Shm>, mem: Memory, p: nat, i: nat, j: nat)
    requires IsDir(mem, p) && i <= j <= PAGES
    ensures Need(shm, mem, p, i) <= Need(shm, mem, p, j)
    decreases j - i
  {
    hide PrivateAt, IsDir, Need;
    if i < j {
      NeedStep(shm, mem, p, i);
      NeedGrows(shm, mem, p, i + 1, j);
    }
  }

  /**
   With this many free frames a failing copy of n pages loses frames: the kernel part could not
   be finished, or a private page had its frame but not the table to map it.
   */
  predicate Leaks(shm: seq<Shm>, mem: Memory, p: nat, n: nat, frames: nat)
    requires IsDir(mem, p) && n <= PAGES
  {
    || 0 < frames < KERNELFRAMES
    || exists i :: 0 <= i < n && PrivateAt(shm, mem, p, i) && i % NENTRIES == 0 && frames == Need(shm, mem, p, i) + 1
  }

  /** A copy that stops at page i for want of that page's own frame, or of a table for a shared page, is no leak. */
  lemma CleanFailure(shm: seq<Shm>, mem: Memory, p: nat, n: nat, i: nat)
    requires IsDir(mem, p) && i < n <= PAGES
    ensures !Leaks(shm, mem, p, n, Need(shm, mem, p, i))
  {
    hide PrivateAt, IsDir, Need;
    NeedGrows(shm, mem, p, 0, i);
    NeedZero(shm, mem, p);
    forall j | 0 <= j < n && PrivateAt(shm, mem, p, j) && j % NENTRIES == 0
      ensures Need(shm, mem, p, i) != Need(shm, mem, p, j) + 1
    {
      NeedStep(shm, mem, p, j);
      if j < i {
        NeedGrows(shm, mem, p, j + 1, i);
      } else {
        NeedGrows(shm, mem, p, i, j);
      }
    }
  }

  lemma NeedZero(shm: seq<Shm>, mem: Memory, p: nat)
    requires IsDir(mem, p)
    ensures Need(shm, mem, p, 0) == KERNELFRAMES
  {
  }

  // ---------------------------------------------------------------- the tables themselves

  function TablesBelow(mem: Memory, d: nat, i: nat): set<nat>
    requires i <= NENTRIES
  {
    set j | 0 <= j < i && Has(mem, d, j) :: Table(mem, d, j)
  }

  lemma TablesStep(mem: Memory, d: nat, i: nat)
    requires IsDir(mem, d) && i < NENTRIES
    ensures TablesBelow(mem, d, i + 1) == TablesBelow(mem, d, i) + if Has(mem, d, i) then {Table(mem, d, i)} else {}
    ensures Has(mem, d, i) ==> Table(mem, d, i) !in TablesBelow(mem, d, i)
    ensures Has(mem, d, i) ==> Table(mem, d, i) in Skeleton(mem, d) && Table(mem, d, i) != d
  {
  }

  lemma TablesAll(mem: Memory, d: nat)
    requires IsDir(mem, d)
    ensures Skeleton(mem, d) == {d} + TablesBelow(mem, d, NENTRIES) && d !in TablesBelow(mem, d, NENTRIES)
  {
  }

  /** No user page maps frame 0. */
  predicate NoNull(mem: Memory, d: nat, n: nat)
    requires IsDir(mem, d) && n <= PAGES
  {
    forall v :: 0 <= v < n && Present(Entry(mem, d, v)) ==> PageFrame(mem, d, v) != 0
  }

  lemma NotNull(mem: Memory, d: nat, n: nat, v: nat)
    requires IsDir(mem, d) && v < n <= PAGES && NoNull(mem, d, n) && Present(Entry(mem, d, v))
    ensures PageFrame(mem, d, v) != 0
  {
  }

  /** The user part is free, and so are the tables below directory index i; the directory is as it was. */
  predicate TornDown(free: seq<nat>, mem: Memory, shm: seq<Shm>, d: nat, free': seq<nat>, mem': Memory, i: nat)
    requires i <= NENTRIES
  {
    && IsDir(mem, d) && |mem'| == |mem| && NoDup(free') && mem'[d] == mem[d]
    && Elements(free') == Elements(free) + PrivateFrames(shm, mem, d, 0, USERPAGES) + TablesBelow(mem, d, i)
    && (forall f :: 0 <= f < |mem| && f !in Owned(shm, mem, d) ==> mem'[f] == mem[f])
  }

  /** All the frames of an address space. */
  function Owned(shm: seq<Shm>, mem: Memory, d: nat): set<nat>
    requires IsDir(mem, d)
  {
    Skeleton(mem, d) + PrivateFrames(shm, mem, d, 0, USERPAGES)
  }

  lemma TearStart(free: seq<nat>, mem: Memory, shm: seq<Shm>, d: nat, free': seq<nat>, mem': Memory)
    requires Freed(free, mem, shm, d, free', mem', 0, USERPAGES)
    ensures TornDown(free, mem, shm, d, free', mem', 0)
  {
    hide PrivateFrames, Entry, Skeleton, IsDir;
    assert TablesBelow(mem, d, 0) == {};
  }

  lemma TearTable(first: nat, free: seq<nat>, mem: Memory, shm: seq<Shm>, d: nat, free': seq<nat>, mem': Memory, i: nat)
    requires i < NENTRIES && Owns(first, free, shm, mem, d) && TornDown(free, mem, shm, d, free', mem', i)
    ensures !Has(mem, d, i) ==> TornDown(free, mem, shm, d, free', mem', i + 1)
    ensures Has(mem, d, i) ==> first <= Table(mem, d, i) < FRAMES && Table(mem, d, i) !in free'
    ensures Has(mem, d, i) ==> TornDown(free, mem, shm, d, [Table(mem, d, i)] + free', mem'[Table(mem, d, i) := JunkPage()], i + 1)
  {
    hide PrivateAt, Has, Table;
    TablesStep(mem, d, i);
    if Has(mem, d, i) {
      var t := Table(mem, d, i);
      assert t in Skeleton(mem, d) && t !in free;
      assert t !in PrivateFrames(shm, mem, d, 0, USERPAGES);
      assert t !in Elements(free');
      assert Elements([t] + free') == Elements(free') + {t};
    }
  }

  lemma TearDir(first: nat, free: seq<nat>, mem: Memory, shm: seq<Shm>, d: nat, free': seq<nat>, mem': Memory)
    requires Owns(first, free, shm, mem, d) && TornDown(free, mem, shm, d, free', mem', NENTRIES)
    ensures first <= d < FRAMES && d !in free' && NoDup([d] + free')
    ensures Elements([d] + free') == Elements(free) + Owned(shm, mem, d)
  {
    hide PrivateAt, Has, Table;
    TablesAll(mem, d);
    assert d in Skeleton(mem, d) && d !in free;
    assert d !in PrivateFrames(shm, mem, d, 0, USERPAGES);
    assert d !in Elements(free');
    assert Elements([d] + free') == Elements(free') + {d};
  }

  lemma TornFacts(free: seq<nat>, mem: Memory, shm: seq<Shm>, d: nat, free': seq<nat>, mem': Memory, i: nat)
    requires i <= NENTRIES && TornDown(free, mem, shm, d, free', mem', i)
    ensures IsDir(mem, d) && d < |mem| == |mem'| && mem'[d] == mem[d] && d in Owned(shm, mem, d)
    ensures forall f :: 0 <= f < |mem| && f !in Owned(shm, mem, d) ==> mem'[f] == mem[f]
  {
  }

  // ---------------------------------------------------------------- giving a copy back

  lemma OwnsAgain(first: nat, free: seq<nat>, shm: seq<Shm>, mem: Memory, d: nat, free': seq<nat>, shm': seq<Shm>,
                  mem': Memory)
    requires Owns(first, free, shm, mem, d) && SamePlaces(shm, shm') && SameSpace(mem, d, mem') && |mem'| == |mem|
    requires (free' == free || free' == [])
    ensures Owns(first, free', shm', mem', d)
    ensures PrivateFrames(shm', mem', d, 0, USERPAGES) == PrivateFrames(shm, mem, d, 0, USERPAGES)
  {
    hide Entry, Skeleton, IsDir, Find, Has;
    forall v | 0 <= v < USERPAGES
      ensures PageFrame(mem', d, v) == PageFrame(mem, d, v) && PrivateAt(shm', mem', d, v) == PrivateAt(shm, mem, d, v)
    {
      FindSame(shm, shm', PageFrame(mem, d, v) * PGSIZE);
    }
  }

  /** The copy so far, whatever became of frames outside it, owns exactly the frames it took. */
  lemma CopyWhole(first: nat, free: seq<nat>, mem: Memory, shm: seq<Shm>, p: nat, n: nat, free1: seq<nat>, mem1: Memory, c: nat, data: nat, i: nat, k: nat,
                  free2: seq<nat>, shm2: seq<Shm>, mem2: Memory)
    requires KERNLINK < data < KERNTOP && CopyReady(free, mem, shm, p, n) && i <= n
    requires Copied(free, mem, shm, p, free1, mem1, c, data, i, k)
    requires 0 < first && (forall j :: 0 <= j < |free| ==> first <= free[j]) && NoNull(mem, p, n)
    requires SamePlaces(shm, shm2) && Keeps(mem1, mem2, Taken(free, k)) && (free2 == free1 || free2 == [])
    ensures k <= |free| && IsDir(mem2, c) && Owns(first, free2, shm2, mem2, c)
    ensures Owned(shm2, mem2, c) == Taken(free, k) && NoNull(mem2, c, USERPAGES)
  {
    hide Entry, Skeleton, IsDir, Find, Has, Owns, PrivateFrames, ChildFrames, CopyEntries, CopyTables, NoNull;
    CopyOwns(first, free, mem, shm, p, n, free1, mem1, c, data, i, k);
    OtherFrames(mem1, c, mem2);
    OwnsAgain(first, free1, shm, mem1, c, free2, shm2, mem2);
    CopyNoNull(first, free, mem, shm, p, n, free1, mem1, c, data, i, k);
    NoNullSame(mem1, c, mem2);
  }

  lemma NoNullSame(mem: Memory, d: nat, mem': Memory)
    requires SameSpace(mem, d, mem') && NoNull(mem, d, USERPAGES)
    ensures NoNull(mem', d, USERPAGES)
  {
    hide Entry, Skeleton, IsDir, Has;
  }

  lemma CopyNoNull(first: nat, free: seq<nat>, mem: Memory, shm: seq<Shm>, p: nat, n: nat, free1: seq<nat>,
                   mem1: Memory, c: nat, data: nat, i: nat, k: nat)
    requires KERNLINK < data < KERNTOP && CopyReady(free, mem, shm, p, n) && i <= n
    requires Copied(free, mem, shm, p, free1, mem1, c, data, i, k)
    requires 0 < first && (forall j :: 0 <= j < |free| ==> first <= free[j]) && NoNull(mem, p, n)
    ensures NoNull(mem1, c, USERPAGES)
  {
    hide Entry, Skeleton, IsDir, Has, Find;
    forall v | 0 <= v < USERPAGES && Present(Entry(mem1, c, v))
      ensures PageFrame(mem1, c, v) != 0
    {
      CopyPrivacy(free, mem, shm, p, n, free1, mem1, c, data, i, k, v);
      NotServed(data, v);
      assert v < i;
      assert PageCopied(shm, mem, p, mem1, c, v);
      assert PrivateAt(shm, mem, p, v) ==> PageFrame(mem1, c, v) in Taken(free, k);
    }
  }

  lemma {:induction false} DriftZero(shm: seq<Shm>, mem: Memory, d: nat, r: nat, lo: nat, hi: nat)
    requires IsDir(mem, d) && hi <= PAGES
    ensures Drift(shm, mem, d, r, lo, hi, 0) == 0
    decreases hi
  {
    hide Entry, IsDir;
    if lo < hi {
      DriftZero(shm, mem, d, r, lo, hi - 1);
    }
  }

  lemma NoDrift(shm: seq<Shm>, shm': seq<Shm>, mem: Memory, d: nat)
    requires IsDir(mem, d) && Counted(shm, shm', mem, d, 0, USERPAGES, 0)
    ensures shm' == shm
  {
    hide Entry, IsDir, Drift;
    forall r | 0 <= r < |shm|
      ensures shm'[r] == shm[r]
    {
      DriftZero(shm, mem, d, r, 0, USERPAGES);
    }
  }

  /** Tearing a copy down takes from every count what making it added. */
  lemma {:induction false} DriftsBack(free: seq<nat>, mem: Memory, shm: seq<Shm>, p: nat, n: nat, free1: seq<nat>,
                                      mem1: Memory, c: nat, data: nat, k: nat, shm1: seq<Shm>, r: nat, i: nat)
    requires KERNLINK < data < KERNTOP && CopyReady(free, mem, shm, p, n)
    requires Copied(free, mem, shm, p, free1, mem1, c, data, n, k)
    requires SamePlaces(shm, shm1) && r < |shm| && i <= USERPAGES
    ensures Drift(shm1, mem1, c, r, 0, i, -1) == - Drift(shm, mem, p, r, 0, Lesser(i, n), 1)
  {
    hide Entry, IsDir, Find, Skeleton, Has, FrameOf, FlagsOf, CopyReady;
    if i > 0 {
      DriftsBack(free, mem, shm, p, n, free1, mem1, c, data, k, shm1, r, i - 1);
      CopyPrivacy(free, mem, shm, p, n, free1, mem1, c, data, n, k, i - 1);
      FindSame(shm, shm1, PageFrame(mem1, c, i - 1) * PGSIZE);
      NotServed(data, i - 1);
      if i <= n {
        assert PageCopied(shm, mem, p, mem1, c, i - 1);
        FlagsPresent(Entry(mem, p, i - 1));
        FlagsPresent(Entry(mem1, c, i - 1));
      }
    }
  }

  function Lesser(a: nat, b: nat): nat { if a < b then a else b }

  lemma TakenIn(free: seq<nat>, k: nat)
    requires k <= |free|
    ensures Taken(free, k) <= Elements(free) && (k == |free| ==> Taken(free, k) == Elements(free))
    ensures forall f :: f in Others(free) ==> f !in Taken(free, k)
    ensures NoDup(free) && k < |free| ==> free[k] in Elements(free) && free[k] !in Taken(free, k)
  {
    assert free[..|free|] == free;
  }

  lemma ReadyFacts(free: seq<nat>, mem: Memory, shm: seq<Shm>, p: nat, n: nat)
    requires CopyReady(free, mem, shm, p, n)
    ensures n <= USERPAGES && IsDir(mem, p) && |mem| == FRAMES && NoDup(free)
  {
  }

  lemma CopySize(free: seq<nat>, mem: Memory, shm: seq<Shm>, p: nat, free1: seq<nat>, mem1: Memory, c: nat, data: nat,
                 i: nat, k: nat)
    requires KERNLINK < data < KERNTOP && i <= USERPAGES && Copied(free, mem, shm, p, free1, mem1, c, data, i, k)
    ensures k <= |free|
  {
  }

  lemma PageAddress(i: nat)
    ensures i * PGSIZE / PGSIZE == i && (i * PGSIZE + PGSIZE - 1) / PGSIZE == i && i * PGSIZE % PGSIZE == 0
  {
  }

  // ---------------------------------------------------------------- the ways a copy fails

  /** A failing copy leaves the counts raised by the pages it looked at. */
  predicate CountedAt(shm: seq<Shm>, shm': seq<Shm>, mem: Memory, p: nat, n: nat, frames: nat)
    requires IsDir(mem, p) && n <= USERPAGES
  {
    && (frames < KERNELFRAMES ==> shm' == shm)
    && (forall i :: 0 <= i < n && Need(shm, mem, p, i) <= frames < Need(shm, mem, p, i + 1) ==> Counted(shm, shm', mem, p, 0, i + 1, 1))
  }

  lemma EarlyFailure(free: seq<nat>, mem: Memory, shm: seq<Shm>, p: nat, n: nat)
    requires IsDir(mem, p) && n <= USERPAGES && |free| < KERNELFRAMES
    ensures Elements([]) == Elements(free) <==> !Leaks(shm, mem, p, n, |free|)
    ensures Elements([]) <= Elements(free) && CountedAt(shm, shm, mem, p, n, |free|)
  {
    hide PrivateAt, IsDir, Drift;
    assert |free| > 0 ==> free[0] in Elements(free);
    assert forall i :: 0 <= i < n ==> Need(shm, mem, p, i) >= KERNELFRAMES;
  }

  lemma CountedWhere(shm: seq<Shm>, shm': seq<Shm>, mem: Memory, p: nat, n: nat, i: nat, frames: nat)
    requires IsDir(mem, p) && i < n <= USERPAGES && Need(shm, mem, p, i) <= frames < Need(shm, mem, p, i + 1)
    requires Counted(shm, shm', mem, p, 0, i + 1, 1)
    ensures CountedAt(shm, shm', mem, p, n, frames)
  {
    hide IsDir, Need, Counted;
    NeedZero(shm, mem, p);
    NeedGrows(shm, mem, p, 0, i);
    forall j | 0 <= j < n && Need(shm, mem, p, j) <= frames < Need(shm, mem, p, j + 1)
      ensures j == i
    {
      if j < i {
        NeedGrows(shm, mem, p, j + 1, i);
      } else if i < j {
        NeedGrows(shm, mem, p, i + 1, j);
      }
    }
  }

  /** The free list ran out before page i got its own frame, or the table for a shared page: nothing is lost. */
  lemma FailureAt(free: seq<nat>, mem: Memory, shm: seq<Shm>, p: nat, n: nat, free1: seq<nat>, mem1: Memory, c: nat,
                  data: nat, i: nat, k: nat, shm': seq<Shm>)
    requires KERNLINK < data < KERNTOP && CopyReady(free, mem, shm, p, n) && i < n
    requires Copied(free, mem, shm, p, free1, mem1, c, data, i, k)
    requires k == Need(shm, mem, p, i) == |free| < Need(shm, mem, p, n) && |free| < Need(shm, mem, p, i + 1)
    requires Counted(shm, shm', mem, p, 0, i + 1, 1)
    ensures k <= |free| && Taken(free, k) == Elements(free) && !Leaks(shm, mem, p, n, |free|)
    ensures CountedAt(shm, shm', mem, p, n, |free|) && SamePlaces(shm, shm') && Keeps(mem, mem1, Others(free))
    ensures Keeps(mem1, mem1, Taken(free, k))
  {
    hide Entry, Skeleton, IsDir, Has, Find, Need, Leaks, CountedAt, CopyEntries, CopyTables, ChildFrames;
    TakenIn(free, k);
    CleanFailure(shm, mem, p, n, i);
    CountedWhere(shm, shm', mem, p, n, i, |free|);
  }

  /** Page i has its frame but there is none left for the table to map it: the frame is lost. */
  lemma LeakAt(free: seq<nat>, mem: Memory, shm: seq<Shm>, p: nat, n: nat, free1: seq<nat>, mem1: Memory, c: nat,
               data: nat, i: nat, k: nat, shm': seq<Shm>, page: Page)
    requires KERNLINK < data < KERNTOP && CopyReady(free, mem, shm, p, n) && i < n
    requires Copied(free, mem, shm, p, free1, mem1, c, data, i, k)
    requires k == Need(shm, mem, p, i) && |free| == k + 1 && PrivateAt(shm, mem, p, i) && i % NENTRIES == 0
    requires Counted(shm, shm', mem, p, 0, i + 1, 1) && free1 != [] && free1[0] < |mem1|
    ensures k <= |free| && Taken(free, k) != Elements(free) && Taken(free, k) <= Elements(free)
    ensures Leaks(shm, mem, p, n, |free|)
    ensures CountedAt(shm, shm', mem, p, n, |free|) && SamePlaces(shm, shm')
    ensures Keeps(mem, mem1[free1[0] := page], Others(free)) && Keeps(mem1, mem1[free1[0] := page], Taken(free, k))
  {
    hide Entry, Skeleton, IsDir, Has, Find, Need, CountedAt, CopyEntries, CopyTables, ChildFrames, PrivateAt;
    TakenIn(free, k);
    NeedStep(shm, mem, p, i);
    CountedWhere(shm, shm', mem, p, n, i, |free|);
  }

  lemma PlaceApart(free: seq<nat>, mem: Memory, c: nat, i: nat, page: Page)
    requires free != [] && NoDup(free) && IsDir(mem, c) && Apart(free, Skeleton(mem, c)) && free[0] < |mem| && i < PAGES
    ensures SameSpace(mem, c, mem[free[0] := page]) && Apart(free[1..], Skeleton(mem[free[0] := page], c))
    ensures Entry(mem[free[0] := page], c, i) == Entry(mem, c, i)
    ensures Missing(mem[free[0] := page], c, Dir(i), Dir(i)) == Missing(mem, c, Dir(i), Dir(i))
  {
    OtherFrames(mem, c, mem[free[0] := page]);
    MissingSame(mem, mem[free[0] := page], c, Dir(i), Dir(i));
  }

  /** A copy shares no frame with its parent but the shared ones, and leaves the parent as it was. */
  lemma CopyDisjoint(first: nat, free: seq<nat>, mem: Memory, shm: seq<Shm>, p: nat, n: nat, free1: seq<nat>,
                     mem1: Memory, c: nat, data: nat, k: nat)
    requires KERNLINK < data < KERNTOP && CopyReady(free, mem, shm, p, n)
    requires Copied(free, mem, shm, p, free1, mem1, c, data, n, k)
    requires 0 < first && (forall j :: 0 <= j < |free| ==> first <= free[j]) && NoNull(mem, p, n)
    ensures IsDir(mem1, c) && Owned(shm, mem1, c) !! Skeleton(mem, p) + PrivateFrames(shm, mem, p, 0, n)
    ensures SameSpace(mem, p, mem1)
    ensures forall v :: 0 <= v < n && PrivateAt(shm, mem, p, v) ==> PageFrame(mem, p, v) < |mem1| && mem1[PageFrame(mem, p, v)] == mem[PageFrame(mem, p, v)]
    ensures forall v :: 0 <= v < n ==> PageCopied(shm, mem, p, mem1, c, v)
    ensures KernelPages(mem1, c, data, n)
  {
    hide Entry, Skeleton, IsDir, Has, Find, NoNull, ChildFrames, CopyTables, PageCopied, KernelPages, KernelEntry;
    CopiedKernel(free, mem, shm, p, free1, mem1, c, data, n, k);
    CopyWhole(first, free, mem, shm, p, n, free1, mem1, c, data, n, k, free1, shm, mem1);
    TakenIn(free, k);
    OtherFrames(mem, p, mem1);
    assert forall f :: f in Elements(free) ==> f in free;
  }

  lemma CountsReturn(free: seq<nat>, mem: Memory, shm: seq<Shm>, p: nat, n: nat, free1: seq<nat>, mem1: Memory,
                     c: nat, data: nat, k: nat, shm1: seq<Shm>, shm2: seq<Shm>)
    requires KERNLINK < data < KERNTOP && CopyReady(free, mem, shm, p, n)
    requires Copied(free, mem, shm, p, free1, mem1, c, data, n, k)
    requires Counted(shm, shm1, mem, p, 0, n, 1) && Counted(shm1, shm2, mem1, c, 0, USERPAGES, -1)
    ensures shm2 == shm
  {
    hide Entry, Skeleton, IsDir, Has, Find, CopyReady, Copied, Drift;
    forall r | 0 <= r < |shm|
      ensures shm2[r] == shm[r]
    {
      ReadyFacts(free, mem, shm, p, n);
      DriftsBack(free, mem, shm, p, n, free1, mem1, c, data, k, shm1, r, USERPAGES);
    }
  }

  lemma CountedPlaces(shm: seq<Shm>, shm': seq<Shm>, mem: Memory, p: nat, n: nat)
    requires IsDir(mem, p) && n <= PAGES && Counted(shm, shm', mem, p, 0, n, 1)
    ensures SamePlaces(shm, shm')
  {
  }

  lemma CopyLeft(free: seq<nat>, mem: Memory, shm: seq<Shm>, p: nat, n: nat, free1: seq<nat>, mem1: Memory, c: nat,
                 data: nat, k: nat)
    requires KERNLINK < data < KERNTOP && CopyReady(free, mem, shm, p, n)
    requires Copied(free, mem, shm, p, free1, mem1, c, data, n, k)
    ensures k <= |free| && Elements(free1) + Taken(free, k) == Elements(free) && Keeps(mem, mem1, Others(free))
    ensures forall f :: f in Others(free) ==> f !in Taken(free, k)
  {
    hide Entry, Skeleton, IsDir, Has, Find, CopyEntries, CopyTables, ChildFrames;
    TakenIn(free, k);
    assert free == free[..k] + free1;
  }
}
