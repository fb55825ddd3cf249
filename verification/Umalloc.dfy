/**
 The Kernighan and Ritchie allocator (umalloc.c; The C Programming Language, 2nd ed., section
 8.7).  Addresses count in units of sizeof(Header).  `base` is the empty header in the data
 segment, below everything sbrk returns.
 */
module Umalloc {
  import opened Common

  datatype Header = Header(ptr: nat, size: nat)

  /**
   The headers in memory, with a ghost account of them: `free` lists the free headers by
   address, starting with base; `live` are the allocated ones; `owner` maps every unit obtained
   from sbrk to the header of the block it lies in.
   */
  datatype Arena = Arena(mem: map<nat, Header>, free: seq<nat>, live: set<nat>, owner: map<nat, nat>)

  function Next(free: seq<nat>, i: nat): nat
    requires i < |free|
  {
    if i + 1 < |free| then free[i + 1] else free[0]
  }

  predicate IsBlock(base: nat, a: Arena, b: nat) { b in a.live || (b in a.free && b != base) }

  /** Circular, ordered by address with one wrap. */
  predicate ListOk(base: nat, a: Arena) {
    && |a.free| > 0 && a.free[0] == base
    && (forall i :: 0 <= i < |a.free| ==> a.free[i] in a.mem)
    && a.mem[base].size == 0
    && (forall i {:trigger Next(a.free, i)} :: 0 <= i < |a.free| ==> a.mem[a.free[i]].ptr == Next(a.free, i))
    && (forall i :: 1 <= i < |a.free| ==> a.mem[a.free[i]].size > 0)
    && (forall i, j :: 0 <= i < j < |a.free| ==> a.free[i] < a.free[j] && a.free[i] + a.mem[a.free[i]].size <= a.free[j])
  }

  predicate LiveOk(base: nat, a: Arena) {
    forall b :: b in a.live ==> b in a.mem && a.mem[b].size > 0 && b > base && b !in a.free
  }

  /** Unit u lies in the block with header b. */
  predicate Inside(a: Arena, b: nat, u: nat) { b in a.mem && b <= u < b + a.mem[b].size }

  /** The blocks partition the units obtained from sbrk. */
  ghost predicate Partition(base: nat, a: Arena) {
    && (forall u :: u in a.owner ==> IsBlock(base, a, a.owner[u]) && Inside(a, a.owner[u], u))
    && (forall b, u :: IsBlock(base, a, b) && Inside(a, b, u) ==> u in a.owner && a.owner[u] == b)
  }

  /** No two free blocks are adjacent. */
  predicate Spread(a: Arena)
    requires forall i :: 0 <= i < |a.free| ==> a.free[i] in a.mem
  {
    forall i :: 0 <= i < |a.free| - 1 ==> !Touch(a, i)
  }

  predicate Touch(a: Arena, i: nat)
    requires i + 1 < |a.free| && a.free[i] in a.mem
  {
    a.free[i] + a.mem[a.free[i]].size == a.free[i + 1]
  }

  ghost predicate Valid(base: nat, a: Arena) {
    ListOk(base, a) && LiveOk(base, a) && Partition(base, a)
  }

  /** Two blocks do not overlap. */
  lemma Apart(base: nat, a: Arena, b: nat, c: nat)
    requires Valid(base, a) && IsBlock(base, a, b) && IsBlock(base, a, c) && b < c
    ensures b in a.mem && c in a.mem && a.mem[c].size > 0 && b + a.mem[b].size <= c
  {
    assert Inside(a, c, c);
    assert Inside(a, b, c) ==> b == c;
  }

  // ---------------------------------------------------------------- free

  /** The free block after which a block at bp belongs. */
  predicate Before(free: seq<nat>, k: nat, bp: nat) {
    k < |free| && free[k] < bp && (k + 1 < |free| ==> bp < free[k + 1])
  }

  /** bp put back into the list after position k, not merged with anything. */
  function Inserted(a: Arena, k: nat, bp: nat): Arena
    requires k < |a.free| && a.free[k] in a.mem && bp in a.mem
  {
    var p := a.free[k];
    Arena(a.mem[bp := Header(Next(a.free, k), a.mem[bp].size)][p := Header(bp, a.mem[p].size)],
          a.free[..k + 1] + [bp] + a.free[k + 1..], a.live - {bp}, a.owner)
  }

  lemma InsertedAt(a: Arena, k: nat, bp: nat, i: nat)
    requires k < |a.free| && a.free[k] in a.mem && bp in a.mem && i <= |a.free|
    ensures var f := Inserted(a, k, bp).free;
            |f| == |a.free| + 1 && f[i] == if i <= k then a.free[i] else if i == k + 1 then bp else a.free[i - 1]
  {
  }

  lemma InsertedMem(a: Arena, k: nat, bp: nat, b: nat)
    requires k < |a.free| && a.free[k] in a.mem && bp in a.mem && bp != a.free[k] && b in a.mem
    ensures var m := Inserted(a, k, bp).mem;
            && b in m && m[b].size == a.mem[b].size
            && m[b].ptr == if b == a.free[k] then bp else if b == bp then Next(a.free, k) else a.mem[b].ptr
  {
  }

  lemma InsertedOrder(base: nat, a: Arena, k: nat, bp: nat, i: nat, j: nat)
    requires ListOk(base, a) && Before(a.free, k, bp) && bp in a.mem && bp !in a.free
    requires a.free[k] + a.mem[a.free[k]].size <= bp
    requires k + 1 < |a.free| ==> bp + a.mem[bp].size <= a.free[k + 1]
    requires 0 <= i < j <= |a.free|
    ensures var a' := Inserted(a, k, bp);
            a'.free[i] in a'.mem && a'.free[i] < a'.free[j] && a'.free[i] + a'.mem[a'.free[i]].size <= a'.free[j]
  {
    hide Inserted;
    InsertedAt(a, k, bp, i);
    InsertedAt(a, k, bp, j);
    InsertedMem(a, k, bp, if i <= k then a.free[i] else if i == k + 1 then bp else a.free[i - 1]);
    assert k + 1 < |a.free| && j >= k + 2 ==> a.free[k + 1] <= a.free[j - 1];
  }

  lemma InsertedNext(base: nat, a: Arena, k: nat, bp: nat, i: nat)
    requires ListOk(base, a) && Before(a.free, k, bp) && bp in a.mem && a.mem[bp].size > 0 && bp !in a.free
    requires i <= |a.free|
    ensures var a' := Inserted(a, k, bp);
            && a'.free[i] in a'.mem && a'.mem[a'.free[i]].ptr == Next(a'.free, i)
            && (i >= 1 ==> a'.mem[a'.free[i]].size > 0)
  {
    hide Inserted;
    InsertedAt(a, k, bp, i);
    InsertedAt(a, k, bp, 0);
    InsertedMem(a, k, bp, if i <= k then a.free[i] else if i == k + 1 then bp else a.free[i - 1]);
    if i < |a.free| { InsertedAt(a, k, bp, i + 1); }
    if i <= k {
      assert a.mem[a.free[i]].ptr == Next(a.free, i) && (a.free[i] == a.free[k] <==> i == k);
    } else if i >= k + 2 {
      assert a.mem[a.free[i - 1]].ptr == Next(a.free, i - 1) && a.free[i - 1] != a.free[k];
    }
  }

  lemma InsertedList(base: nat, a: Arena, k: nat, bp: nat)
    requires ListOk(base, a) && Before(a.free, k, bp) && bp in a.mem && a.mem[bp].size > 0 && bp !in a.free
    requires a.free[k] + a.mem[a.free[k]].size <= bp
    requires k + 1 < |a.free| ==> bp + a.mem[bp].size <= a.free[k + 1]
    ensures ListOk(base, Inserted(a, k, bp))
  {
    var a' := Inserted(a, k, bp);
    InsertedAt(a, k, bp, 0);
    forall i | 0 <= i < |a'.free|
      ensures a'.free[i] in a'.mem && a'.mem[a'.free[i]].ptr == Next(a'.free, i)
      ensures (i >= 1 ==> a'.mem[a'.free[i]].size > 0)
    {
      InsertedNext(base, a, k, bp, i);
    }
    forall i, j | 0 <= i < j < |a'.free|
      ensures a'.free[i] < a'.free[j] && a'.free[i] + a'.mem[a'.free[i]].size <= a'.free[j]
    {
      InsertedOrder(base, a, k, bp, i, j);
    }
    assert a'.mem[base].size == 0;
  }

  lemma InsertedOk(base: nat, a: Arena, k: nat, bp: nat)
    requires Valid(base, a) && bp in a.live && Before(a.free, k, bp)
    ensures Valid(base, Inserted(a, k, bp))
  {
    var a' := Inserted(a, k, bp);
    if k > 0 { Apart(base, a, a.free[k], bp); }
    if k + 1 < |a.free| { Apart(base, a, bp, a.free[k + 1]); }
    InsertedList(base, a, k, bp);
    InsertedBlocks(base, a, k, bp);
  }

  lemma InsertedBlocks(base: nat, a: Arena, k: nat, bp: nat)
    requires Valid(base, a) && bp in a.live && Before(a.free, k, bp)
    ensures LiveOk(base, Inserted(a, k, bp)) && Partition(base, Inserted(a, k, bp))
  {
    var a' := Inserted(a, k, bp);
    assert a.free == a.free[..k + 1] + a.free[k + 1..];
    assert forall b :: b in a'.free <==> b in a.free || b == bp;
    SameBlocks(base, a, a');
  }

  /** Blocks and sizes as before: the partition is as before. */
  lemma SameBlocks(base: nat, a: Arena, a': Arena)
    requires LiveOk(base, a) && Partition(base, a) && a'.owner == a.owner
    requires forall b :: IsBlock(base, a', b) <==> IsBlock(base, a, b)
    requires forall b :: b in a'.live ==> b in a.live && b !in a'.free
    requires forall b :: b in a.mem <==> b in a'.mem
    requires forall b :: b in a.mem ==> a'.mem[b].size == a.mem[b].size
    ensures LiveOk(base, a') && Partition(base, a')
  {
  }

  /** The list without position j, its predecessor now of the given size. */
  function Removed(a: Arena, j: nat, size: nat): Arena
    requires 1 <= j < |a.free| && a.free[j] in a.mem && a.free[j - 1] in a.mem
  {
    a.(mem := a.mem[a.free[j - 1] := Header(a.mem[a.free[j]].ptr, size)], free := a.free[..j] + a.free[j + 1..])
  }

  lemma RemovedAt(a: Arena, j: nat, size: nat, i: nat)
    requires 1 <= j < |a.free| && a.free[j] in a.mem && a.free[j - 1] in a.mem && i < |a.free| - 1
    ensures var f := Removed(a, j, size).free; |f| == |a.free| - 1 && f[i] == if i < j then a.free[i] else a.free[i + 1]
  {
  }

  lemma RemovedMem(a: Arena, j: nat, size: nat, b: nat)
    requires 1 <= j < |a.free| && a.free[j] in a.mem && a.free[j - 1] in a.mem && b in a.mem
    ensures var m := Removed(a, j, size).mem;
            b in m && m[b] == if b == a.free[j - 1] then Header(a.mem[a.free[j]].ptr, size) else a.mem[b]
  {
  }

  lemma RemovedNext(base: nat, a: Arena, j: nat, size: nat, i: nat)
    requires ListOk(base, a) && 1 <= j < |a.free| && i < |a.free| - 1 && (j > 1 ==> size > 0)
    ensures var a' := Removed(a, j, size);
            && a'.free[i] in a'.mem && a'.mem[a'.free[i]].ptr == Next(a'.free, i)
            && (i >= 1 ==> a'.mem[a'.free[i]].size > 0)
  {
    hide Removed;
    RemovedAt(a, j, size, i);
    RemovedAt(a, j, size, 0);
    var b := if i < j then a.free[i] else a.free[i + 1];
    RemovedMem(a, j, size, b);
    if i + 1 < |a.free| - 1 { RemovedAt(a, j, size, i + 1); }
    if i < j - 1 {
      assert b == a.free[i] < a.free[j - 1] && a.mem[b].ptr == Next(a.free, i);
    } else if i == j - 1 {
      assert a.mem[a.free[j]].ptr == Next(a.free, j);
    } else {
      assert b == a.free[i + 1] > a.free[j - 1] && a.mem[b].ptr == Next(a.free, i + 1);
    }
  }

  lemma RemovedOrder(base: nat, a: Arena, j: nat, size: nat, i: nat, l: nat)
    requires ListOk(base, a) && 1 <= j < |a.free| && 0 <= i < l < |a.free| - 1
    requires j + 1 < |a.free| ==> a.free[j - 1] + size <= a.free[j + 1]
    ensures var a' := Removed(a, j, size);
            a'.free[i] in a'.mem && a'.free[i] < a'.free[l] && a'.free[i] + a'.mem[a'.free[i]].size <= a'.free[l]
  {
    hide Removed;
    RemovedAt(a, j, size, i);
    RemovedAt(a, j, size, l);
    var b := if i < j then a.free[i] else a.free[i + 1];
    RemovedMem(a, j, size, b);
    assert b == a.free[j - 1] <==> i == j - 1;
    assert j + 1 < |a.free| && l >= j ==> a.free[j + 1] <= a.free[l + 1];
  }

  lemma RemovedList(base: nat, a: Arena, j: nat, size: nat)
    requires ListOk(base, a) && 1 <= j < |a.free|
    requires if j == 1 then size == 0 else size > 0
    requires j + 1 < |a.free| ==> a.free[j - 1] + size <= a.free[j + 1]
    ensures ListOk(base, Removed(a, j, size))
  {
    var a' := Removed(a, j, size);
    RemovedAt(a, j, size, 0);
    forall i | 0 <= i < |a'.free|
      ensures a'.free[i] in a'.mem && a'.mem[a'.free[i]].ptr == Next(a'.free, i)
      ensures (i >= 1 ==> a'.mem[a'.free[i]].size > 0)
    {
      RemovedNext(base, a, j, size, i);
    }
    forall i, l | 0 <= i < l < |a'.free|
      ensures a'.free[i] < a'.free[l] && a'.free[i] + a'.mem[a'.free[i]].size <= a'.free[l]
    {
      RemovedOrder(base, a, j, size, i, l);
    }
    assert a'.mem[base].size == 0;
  }

  lemma RemovedIn(a: Arena, j: nat, size: nat, b: nat)
    requires 1 <= j < |a.free| && a.free[j] in a.mem && a.free[j - 1] in a.mem
    requires forall i :: 0 <= i < |a.free| && i != j ==> a.free[i] != a.free[j]
    ensures b in Removed(a, j, size).free <==> b in a.free && b != a.free[j]
  {
    var f := Removed(a, j, size).free;
    assert a.free == a.free[..j] + [a.free[j]] + a.free[j + 1..];
    if b in f {
      var i :| 0 <= i < |f| && f[i] == b;
      RemovedAt(a, j, size, i);
    }
  }

  /** Position i absorbs its successor, which it touches. */
  function Merged(a: Arena, i: nat): Arena
    requires i + 1 < |a.free| && a.free[i] in a.mem && a.free[i + 1] in a.mem
  {
    var p, q := a.free[i], a.free[i + 1];
    Removed(a, i + 1, a.mem[p].size + a.mem[q].size)
      .(owner := map u | u in a.owner :: if a.owner[u] == q then p else a.owner[u])
  }

  lemma MergedOk(base: nat, a: Arena, i: nat)
    requires Valid(base, a) && i + 1 < |a.free| && Touch(a, i)
    ensures Valid(base, Merged(a, i)) && Merged(a, i).owner.Keys == a.owner.Keys
  {
    hide LiveOk, Partition, IsBlock, ListOk, Merged;
    MergedList(base, a, i);
    MergedBlocks(base, a, i);
    MergedPartition(base, a, Merged(a, i), a.free[i], a.free[i + 1]);
  }

  lemma MergedList(base: nat, a: Arena, i: nat)
    requires ListOk(base, a) && i + 1 < |a.free| && Touch(a, i)
    ensures i >= 1 && ListOk(base, Merged(a, i)) && Merged(a, i).owner.Keys == a.owner.Keys
    ensures var p, q, a' := a.free[i], a.free[i + 1], Merged(a, i);
            && p in a.mem && q in a.mem && p + a.mem[p].size == q && a'.live == a.live && a'.mem.Keys == a.mem.Keys
            && (forall b :: b in a.mem ==> a'.mem[b].size == if b == p then a.mem[p].size + a.mem[q].size else a.mem[b].size)
            && a'.owner == map u | u in a.owner :: if a.owner[u] == q then p else a.owner[u]
  {
    hide ListOk;
    MergeRoom(base, a, i);
    var size := a.mem[a.free[i]].size + a.mem[a.free[i + 1]].size;
    RemovedList(base, a, i + 1, size);
    SameList(base, Removed(a, i + 1, size), Merged(a, i));
  }

  lemma MergeRoom(base: nat, a: Arena, i: nat)
    requires ListOk(base, a) && i + 1 < |a.free| && Touch(a, i)
    ensures i >= 1 && a.free[i] in a.mem && a.free[i + 1] in a.mem && a.mem[a.free[i]].size > 0
    ensures i + 2 < |a.free| ==> a.free[i] + (a.mem[a.free[i]].size + a.mem[a.free[i + 1]].size) <= a.free[i + 2]
  {
  }

  lemma SameList(base: nat, a: Arena, a': Arena)
    requires ListOk(base, a) && a'.mem == a.mem && a'.free == a.free
    ensures ListOk(base, a')
  {
  }

  lemma MergedBlocks(base: nat, a: Arena, i: nat)
    requires ListOk(base, a) && LiveOk(base, a) && 1 <= i < |a.free| - 1
    ensures var p, q, a' := a.free[i], a.free[i + 1], Merged(a, i);
            && IsBlock(base, a, p) && IsBlock(base, a, q) && p < q && p !in a.live && q !in a.live
            && forall b :: (b in a'.free ==> b in a.free) && (IsBlock(base, a', b) <==> IsBlock(base, a, b) && b != q)
  {
    var p, q, a' := a.free[i], a.free[i + 1], Merged(a, i);
    forall b
      ensures b in a'.free <==> b in a.free && b != q
    {
      RemovedIn(a, i + 1, a.mem[p].size + a.mem[q].size, b);
    }
  }

  lemma MergedPartition(base: nat, a: Arena, a': Arena, p: nat, q: nat)
    requires LiveOk(base, a) && Partition(base, a) && IsBlock(base, a, p) && IsBlock(base, a, q) && p < q
    requires p in a.mem && q in a.mem && p + a.mem[p].size == q && a'.live == a.live && p !in a.live && q !in a.live
    requires forall b :: (b in a'.free ==> b in a.free) && (IsBlock(base, a', b) <==> IsBlock(base, a, b) && b != q)
    requires a'.mem.Keys == a.mem.Keys
    requires forall b :: b in a.mem ==> a'.mem[b].size == if b == p then a.mem[p].size + a.mem[q].size else a.mem[b].size
    requires a'.owner == map u | u in a.owner :: if a.owner[u] == q then p else a.owner[u]
    ensures LiveOk(base, a') && Partition(base, a')
  {
    assert forall b, u :: Inside(a', b, u) <==> Inside(a, b, u) || (b == p && Inside(a, q, u));
  }

  /** What free makes of the arena: insert, then merge with the upper and the lower neighbour. */
  function Freed(a: Arena, k: nat, bp: nat): Arena
    requires k < |a.free| && (forall i :: 0 <= i < |a.free| ==> a.free[i] in a.mem) && bp in a.mem
  {
    var a1 := Inserted(a, k, bp);
    var a2 := if k + 2 < |a1.free| && Touch(a1, k + 1) then Merged(a1, k + 1) else a1;
    if Touch(a2, k) then Merged(a2, k) else a2
  }

  lemma FreedOk(base: nat, a: Arena, k: nat, bp: nat)
    requires Valid(base, a) && bp in a.live && Before(a.free, k, bp)
    ensures Valid(base, Freed(a, k, bp))
    ensures Freed(a, k, bp).live == a.live - {bp} && Freed(a, k, bp).owner.Keys == a.owner.Keys
  {
    hide ListOk, Partition, Merged;
    ListIn(base, a);
    InsertedOk(base, a, k, bp);
    var a1 := Inserted(a, k, bp);
    ListIn(base, a1);
    if k + 2 < |a1.free| && Touch(a1, k + 1) { MergedOk(base, a1, k + 1); MergedLive(a1, k + 1); }
    var a2 := if k + 2 < |a1.free| && Touch(a1, k + 1) then Merged(a1, k + 1) else a1;
    ListIn(base, a2);
    if Touch(a2, k) { MergedOk(base, a2, k); MergedLive(a2, k); }
  }

  lemma ListIn(base: nat, a: Arena)
    requires ListOk(base, a)
    ensures forall i :: 0 <= i < |a.free| ==> a.free[i] in a.mem
  {
  }

  lemma MergedLive(a: Arena, i: nat)
    requires i + 1 < |a.free| && a.free[i] in a.mem && a.free[i + 1] in a.mem
    ensures Merged(a, i).live == a.live && |Merged(a, i).free| == |a.free| - 1
  {
  }

  lemma SpreadAt(a: Arena, l: nat)
    requires (forall i :: 0 <= i < |a.free| ==> a.free[i] in a.mem) && Spread(a) && l + 1 < |a.free|
    ensures !Touch(a, l)
  {
  }

  lemma InsertedTouch(base: nat, a: Arena, k: nat, bp: nat, i: nat)
    requires ListOk(base, a) && Spread(a) && Before(a.free, k, bp) && bp in a.mem && bp !in a.free
    requires i < |a.free| && i != k && i != k + 1
    ensures var a' := Inserted(a, k, bp); a'.free[i] in a'.mem && !Touch(a', i)
  {
    hide ListOk, Inserted, Spread;
    ListAscends(base, a);
    InsertedAt(a, k, bp, i);
    InsertedAt(a, k, bp, i + 1);
    var l := if i < k then i else i - 1;
    SpreadAt(a, l);
    InsertedMem(a, k, bp, a.free[l]);
  }

  lemma MergedTouch(base: nat, a: Arena, i: nat, l: nat)
    requires ListOk(base, a) && i + 1 < |a.free| && Touch(a, i) && l + 2 < |a.free|
    ensures var a' := Merged(a, i);
            && |a'.free| == |a.free| - 1 && a'.free[l] in a'.mem
            && (Touch(a', l) ==> Touch(a, if l < i then l else l + 1))
  {
    hide ListOk, Removed;
    ListAscends(base, a);
    var size := a.mem[a.free[i]].size + a.mem[a.free[i + 1]].size;
    RemovedAt(a, i + 1, size, l);
    RemovedAt(a, i + 1, size, l + 1);
    RemovedMem(a, i + 1, size, if l <= i then a.free[l] else a.free[l + 1]);
    assert l < i ==> a.free[l] != a.free[i];
    assert l > i ==> a.free[l + 1] != a.free[i];
  }

  lemma ListAscends(base: nat, a: Arena)
    requires ListOk(base, a)
    ensures forall i :: 0 <= i < |a.free| ==> a.free[i] in a.mem
    ensures forall i, j :: 0 <= i < j < |a.free| ==> a.free[i] < a.free[j]
  {
  }

  /** After free no two free blocks are adjacent, if none were before. */
  lemma FreedSpread(base: nat, a: Arena, k: nat, bp: nat)
    requires Valid(base, a) && Spread(a) && bp in a.live && Before(a.free, k, bp)
    ensures Valid(base, Freed(a, k, bp)) && Spread(Freed(a, k, bp))
  {
    hide ListOk, Partition, Merged, Inserted;
    ListIn(base, a);
    FreedOk(base, a, k, bp);
    InsertedOk(base, a, k, bp);
    InsertedAt(a, k, bp, 0);
    var a1 := Inserted(a, k, bp);
    ListIn(base, a1);
    var up := k + 2 < |a1.free| && Touch(a1, k + 1);
    if up { MergedOk(base, a1, k + 1); MergedLive(a1, k + 1); }
    var a2 := if up then Merged(a1, k + 1) else a1;
    ListIn(base, a2);
    forall l | 0 <= l < |a2.free| - 1 && l != k
      ensures !Touch(a2, l)
    {
      if up { MergedTouch(base, a1, k + 1, l); }
      var l1 := if up && l >= k + 1 then l + 1 else l;
      if l1 != k + 1 { InsertedTouch(base, a, k, bp, l1); }
    }
    if Touch(a2, k) {
      var a3 := Merged(a2, k);
      MergedOk(base, a2, k);
      MergedLive(a2, k);
      ListIn(base, a3);
      forall l | 0 <= l < |a3.free| - 1
        ensures !Touch(a3, l)
      {
        MergedTouch(base, a2, k, l);
      }
    }
  }

  // ---------------------------------------------------------------- malloc and morecore

  /** A block of exactly the right size leaves the list. */
  function Unlinked(a: Arena, j: nat): Arena
    requires 1 <= j < |a.free| && a.free[j] in a.mem && a.free[j - 1] in a.mem
  {
    Removed(a, j, a.mem[a.free[j - 1]].size).(live := a.live + {a.free[j]})
  }

  lemma UnlinkedOk(base: nat, a: Arena, j: nat)
    requires Valid(base, a) && Spread(a) && 1 <= j < |a.free|
    ensures Valid(base, Unlinked(a, j)) && Spread(Unlinked(a, j))
  {
    hide ListOk, LiveOk, Partition, Touch;
    ListIn(base, a);
    var a' := Unlinked(a, j);
    UnlinkedList(base, a, j);
    UnlinkedBlocks(base, a, j);
    ListIn(base, a');
    forall l | 0 <= l < |a'.free| - 1
      ensures !Touch(a', l)
    {
      UnlinkedTouch(base, a, j, l);
    }
  }

  lemma UnlinkedList(base: nat, a: Arena, j: nat)
    requires ListOk(base, a) && 1 <= j < |a.free|
    ensures ListOk(base, Unlinked(a, j)) && |Unlinked(a, j).free| == |a.free| - 1
  {
    var size := a.mem[a.free[j - 1]].size;
    RemovedList(base, a, j, size);
    SameList(base, Removed(a, j, size), Unlinked(a, j));
  }

  lemma UnlinkedTouch(base: nat, a: Arena, j: nat, l: nat)
    requires ListOk(base, a) && Spread(a) && 1 <= j < |a.free| && l + 2 < |a.free|
    ensures var a' := Unlinked(a, j); l + 1 < |a'.free| && a'.free[l] in a'.mem && !Touch(a', l)
  {
    var size := a.mem[a.free[j - 1]].size;
    RemovedAt(a, j, size, l);
    RemovedAt(a, j, size, l + 1);
    RemovedMem(a, j, size, if l < j then a.free[l] else a.free[l + 1]);
    assert l + 1 < j ==> !Touch(a, l);
    assert l >= j ==> !Touch(a, l + 1);
    assert a.free[l] < a.free[l + 1] < a.free[l + 2];
  }

  lemma UnlinkedBlocks(base: nat, a: Arena, j: nat)
    requires Valid(base, a) && 1 <= j < |a.free|
    ensures LiveOk(base, Unlinked(a, j)) && Partition(base, Unlinked(a, j))
  {
    var a' := Unlinked(a, j);
    forall b
      ensures b in a'.free <==> b in a.free && b != a.free[j]
    {
      RemovedIn(a, j, a.mem[a.free[j - 1]].size, b);
    }
    UnlinkedPartition(base, a, a', a.free[j]);
  }

  lemma UnlinkedPartition(base: nat, a: Arena, a': Arena, p: nat)
    requires LiveOk(base, a) && Partition(base, a) && p in a.free && p > base && p in a.mem && a.mem[p].size > 0
    requires a'.live == a.live + {p} && a'.owner == a.owner && a'.mem.Keys == a.mem.Keys
    requires forall b :: b in a'.free <==> b in a.free && b != p
    requires forall b :: b in a.mem ==> a'.mem[b].size == a.mem[b].size
    ensures LiveOk(base, a') && Partition(base, a')
  {
    assert forall b :: IsBlock(base, a', b) <==> IsBlock(base, a, b);
  }

  /** The tail end of a larger block becomes a live block. */
  function Carved(a: Arena, j: nat, n: nat): Arena
    requires j < |a.free| && a.free[j] in a.mem && n < a.mem[a.free[j]].size
  {
    var p := a.free[j];
    var q := p + (a.mem[p].size - n);
    Arena(a.mem[p := Header(a.mem[p].ptr, a.mem[p].size - n)][q := Header(if q in a.mem then a.mem[q].ptr else 0, n)],
          a.free, a.live + {q}, map u | u in a.owner :: if a.owner[u] == p && u >= q then q else a.owner[u])
  }

  lemma CarvedOk(base: nat, a: Arena, j: nat, n: nat)
    requires Valid(base, a) && Spread(a) && 1 <= j < |a.free| && 0 < n < a.mem[a.free[j]].size
    ensures Valid(base, Carved(a, j, n)) && Spread(Carved(a, j, n))
    ensures Carved(a, j, n).owner.Keys == a.owner.Keys
    ensures a.free[j] + (a.mem[a.free[j]].size - n) !in a.live
  {
    var p, a' := a.free[j], Carved(a, j, n);
    var q := p + (a.mem[p].size - n);
    assert Inside(a, p, q);
    CarvedFresh(base, a, p, q);
    CarvedList(base, a, j, n);
    CarvedPartition(base, a, a', p, q, n);
  }

  lemma CarvedFresh(base: nat, a: Arena, p: nat, q: nat)
    requires Valid(base, a) && q in a.owner && a.owner[q] == p && p != q
    ensures !IsBlock(base, a, q) && q !in a.live && q !in a.free
  {
    assert q in a.mem && a.mem[q].size > 0 ==> Inside(a, q, q);
    assert p > base && Inside(a, p, q);
  }

  lemma CarvedList(base: nat, a: Arena, j: nat, n: nat)
    requires ListOk(base, a) && Spread(a) && 1 <= j < |a.free| && 0 < n < a.mem[a.free[j]].size
    requires a.free[j] + (a.mem[a.free[j]].size - n) !in a.free
    ensures ListOk(base, Carved(a, j, n)) && Spread(Carved(a, j, n))
  {
    hide Spread;
    var a' := Carved(a, j, n);
    assert a'.free == a.free;
    assert forall i :: 0 <= i < |a.free| ==> a.free[i] in a'.mem;
    assert forall i :: 0 <= i < |a.free| ==> a'.mem[a.free[i]].ptr == a.mem[a.free[i]].ptr;
    assert forall i :: 0 <= i < |a.free| ==> a'.mem[a.free[i]].size <= a.mem[a.free[i]].size;
    CarvedSpread(base, a, j, n);
  }

  lemma CarvedSpread(base: nat, a: Arena, j: nat, n: nat)
    requires ListOk(base, a) && Spread(a) && 1 <= j < |a.free| && 0 < n < a.mem[a.free[j]].size
    requires a.free[j] + (a.mem[a.free[j]].size - n) !in a.free
    ensures (forall i :: 0 <= i < |a.free| ==> a.free[i] in Carved(a, j, n).mem) && Carved(a, j, n).free == a.free
    ensures Spread(Carved(a, j, n))
  {
    var a' := Carved(a, j, n);
    assert a'.free == a.free;
    forall i | 0 <= i < |a.free| - 1
      ensures !Touch(a', i)
    {
      assert !Touch(a, i);
      assert a.free[i] < a.free[i + 1];
    }
  }

  lemma CarvedPartition(base: nat, a: Arena, a': Arena, p: nat, q: nat, n: nat)
    requires LiveOk(base, a) && Partition(base, a) && p in a.free && p > base && p in a.mem && p !in a.live
    requires 0 < n < a.mem[p].size && q == p + (a.mem[p].size - n) && q !in a.live && q !in a.free
    requires a'.free == a.free && a'.live == a.live + {q} && a'.mem.Keys == a.mem.Keys + {q}
    requires a'.mem[p].size == a.mem[p].size - n && a'.mem[q].size == n
    requires forall b :: b in a.mem && b != p && b != q ==> a'.mem[b].size == a.mem[b].size
    requires a'.owner == map u | u in a.owner :: if a.owner[u] == p && u >= q then q else a.owner[u]
    ensures LiveOk(base, a') && Partition(base, a')
  {
    assert forall b :: IsBlock(base, a', b) <==> IsBlock(base, a, b) || b == q;
    assert forall b: nat, u: nat :: b != q ==> (Inside(a', b, u) <==> Inside(a, b, u) && !(b == p && u >= q));
    assert forall u: nat :: Inside(a', q, u) <==> Inside(a, p, u) && u >= q;
  }

  function Region(r: nat, n: nat): (m: map<nat, nat>)
    ensures forall u :: u in m <==> r <= u < r + n
    ensures forall u :: u in m ==> m[u] == r
  {
    if n == 0 then map[] else Region(r, n - 1)[r + n - 1 := r]
  }

  /** A region fresh from sbrk, as a live block that morecore then frees. */
  function Supplied(a: Arena, r: nat, n: nat): Arena {
    a.(mem := a.mem[r := Header(if r in a.mem then a.mem[r].ptr else 0, n)], live := a.live + {r}, owner := a.owner + Region(r, n))
  }

  lemma SuppliedOk(base: nat, a: Arena, r: nat, n: nat)
    requires Valid(base, a) && n > 0 && r > base && r !in a.free && (forall u :: r <= u < r + n ==> u !in a.owner)
    ensures Valid(base, Supplied(a, r, n)) && (Spread(a) ==> Spread(Supplied(a, r, n))) && r !in a.live
  {
    hide Region;
    var a' := Supplied(a, r, n);
    assert r in a.live ==> Inside(a, r, r);
    assert forall b :: b in a.mem && b != r ==> b in a'.mem && a'.mem[b] == a.mem[b];
    assert Spread(a) ==> forall i :: 0 <= i < |a.free| - 1 ==> (Touch(a', i) <==> Touch(a, i));
    SuppliedPartition(base, a, a', r, n);
  }

  lemma SuppliedPartition(base: nat, a: Arena, a': Arena, r: nat, n: nat)
    requires Partition(base, a) && r !in a.live && r !in a.free && (forall u :: r <= u < r + n ==> u !in a.owner)
    requires a'.free == a.free && a'.live == a.live + {r} && r in a'.mem && a'.mem[r].size == n
    requires forall b :: b != r ==> (b in a.mem <==> b in a'.mem)
    requires forall b :: b in a.mem && b != r ==> a'.mem[b] == a.mem[b]
    requires a'.owner == a.owner + Region(r, n) && base != r
    ensures Partition(base, a')
  {
    hide Region;
    assert forall b :: IsBlock(base, a', b) <==> IsBlock(base, a, b) || b == r;
    assert forall b, u :: b != r ==> (Inside(a', b, u) <==> Inside(a, b, u));
    assert forall u :: Inside(a', r, u) <==> u in Region(r, n);
    assert !IsBlock(base, a, r);
  }

  // ---------------------------------------------------------------- sizes

  const UINT: nat := 0x1_0000_0000
  const HEADER: nat := 8

  /** (nbytes + sizeof(Header) - 1) / sizeof(Header) + 1, in unsigned 32-bit arithmetic. */
  function Units(nbytes: nat): nat {
    (nbytes + HEADER - 1) % UINT / HEADER + 1
  }

  /** The units behind the header hold nbytes exactly when the rounding up does not wrap. */
  lemma UnitsEnough(nbytes: nat)
    requires nbytes < UINT
    ensures Units(nbytes) >= 1
    ensures (Units(nbytes) - 1) * HEADER >= nbytes <==> nbytes <= UINT - HEADER
  {
  }

  /** The byte count of the block is a positive signed 32-bit number. */
  predicate Askable(nbytes: nat) { Units(nbytes) * HEADER < UINT / 2 }

  /** What sbrk receives for nu units: nu * sizeof(Header) in 32 bits, read as a signed number. */
  function SbrkArg(nu: nat): int {
    var w := nu * HEADER % UINT;
    if w < UINT / 2 then w else w - UINT
  }

  lemma ArgSign(nu: nat)
    requires 0 < nu * HEADER <= UINT
    ensures SbrkArg(nu) == if nu * HEADER < UINT / 2 then nu * HEADER else nu * HEADER - UINT
    ensures SbrkArg(nu) > 0 <==> nu * HEADER < UINT / 2
    ensures SbrkArg(nu) % HEADER == 0
  {
    if nu * HEADER < UINT {
      assert nu * HEADER % UINT == nu * HEADER;
    }
    assert nu * HEADER - UINT == HEADER * (nu - UINT / HEADER);
  }

  lemma UnitsBound(nbytes: nat)
    requires nbytes < UINT
    ensures Units(nbytes) * HEADER <= UINT
  {
    var x := (nbytes + HEADER - 1) % UINT;
    assert x < UINT;
    assert x == HEADER * (x / HEADER) + x % HEADER;
  }

  /** A wrapped request: for 4294967290 bytes the block is a header and nothing behind it. */
  lemma WrappedRequest()
    ensures Units(0xffff_fffa) == 1 && Askable(0xffff_fffa)
  {
  }

  /** A request of half the address space: sbrk is asked for -2147483648 bytes. */
  lemma NegativeRequest()
    ensures !Askable(0x7fff_fff8) && SbrkArg(Units(0x7fff_fff8)) == -0x8000_0000
  {
    assert Units(0x7fff_fff8) == 0x1000_0000;
  }

  class Heap {
    const base: nat
    var mem: map<nat, Header>
    var freep: nat
    var started: bool           // freep != 0 in the source
    var brk: nat                // the program break, proc->sz
    ghost var free: seq<nat>
    ghost var live: set<nat>
    ghost var owner: map<nat, nat>
    ghost var supplied: set<nat>    // every unit sbrk has granted
    ghost var lost: bool            // sbrk has taken memory away
    ghost var refusals: nat         // how often sbrk has failed

    ghost function Now(): Arena
      reads this
    {
      Arena(mem, free, live, owner)
    }

    /** Circular, ordered, coalesced list; disjoint blocks. */
    ghost predicate Shape()
      reads this
    {
      started && UmallocOk(base, Now(), freep)
    }

    /** The blocks make up exactly what sbrk supplied, and all of it is still there. */
    ghost predicate Ok()
      reads this
    {
      && base < brk && (forall u :: u in owner ==> u < brk) && owner.Keys == supplied && !lost
      && (started ==> Shape())
      && (!started ==> mem == map[] && free == [] && live == {} && owner == map[])
    }

    constructor (base: nat, brk: nat)
      requires base < brk
      ensures Ok() && !started && this.base == base
    {
      this.base, this.brk, mem, freep, started := base, brk, map[], 0, false;
      free, live, owner, supplied, lost, refusals := [], {}, map[], {}, false, 0;
    }

    /** The walk of free round the ring: to the free block after which bp belongs. */
    method FindPlace(bp: nat) returns (p: nat, ghost k: nat)
      requires Shape() && bp in live
      ensures Before(free, k, bp) && p == free[k]
    {
      ghost var at := PlaceOf(base, Now(), bp);
      p := freep;
      k := IndexOf(free, freep);
      while !(bp > p && bp < mem[p].ptr) && !(p >= mem[p].ptr && (bp > p || bp < mem[p].ptr))
        invariant k < |free| && p == free[k]
        decreases Distance(k, at, |free|)
      {
        Walk(base, Now(), bp, at, k);
        p := mem[p].ptr;
        k := if k + 1 < |free| then k + 1 else 0;
      }
      Walk(base, Now(), bp, at, k);
    }

    /** Give a live block back. */
    method Free(ap: nat)
      requires Shape() && ap >= 1 && ap - 1 in live
      modifies this`mem, this`freep, this`free, this`live, this`owner
      ensures Shape() && owner.Keys == old(owner).Keys && (old(Ok()) ==> Ok())
      ensures live == old(live) - {ap - 1 as nat}
      ensures forall b :: b in live ==> b in mem && b in old(mem) && mem[b] == old(mem)[b]
      ensures forall n :: 0 < n <= old(mem)[ap - 1].size ==> Fits(Now(), n)
    {
      hide Valid, Spread, Freed;
      var bp := ap - 1;
      ghost var a := Now();
      var p; ghost var k;
      p, k := FindPlace(bp);
      FreeCode(base, a, k, bp);
      if bp + mem[bp].size == mem[p].ptr {
        mem := mem[bp := Header(mem[mem[p].ptr].ptr, mem[bp].size + mem[mem[p].ptr].size)];
      } else {
        mem := mem[bp := Header(mem[p].ptr, mem[bp].size)];
      }
      if p + mem[p].size == bp {
        mem := mem[p := Header(mem[bp].ptr, mem[p].size + mem[bp].size)];
      } else {
        mem := mem[p := Header(bp, mem[p].size)];
      }
      freep := p;
      ghost var a' := Freed(a, k, bp);
      free, live, owner := a'.free, a'.live, a'.owner;
    }

    /** Other code of the process has called sbrk: the break is higher. */
    method Elsewhere(n: nat)
      requires Ok()
      modifies this`brk
      ensures Ok() && brk == old(brk) + n
    {
      brk := brk + n;
    }

    /**
     sbrk(n).  A positive n is granted or refused.  A negative one that would take the size below
     zero wraps to a larger size, and deallocuvm reports success for nothing; otherwise the memory
     goes, and only if all of it went does the call fail.
     */
    method Sbrk(n: int) returns (r: Option<nat>)
      requires n % HEADER == 0
      modifies this`brk, this`supplied, this`lost, this`refusals
      ensures r.None? <==> refusals == old(refusals) + 1
      ensures r.Some? ==> r.value == old(brk) && refusals == old(refusals)
      ensures n > 0 ==> lost == old(lost) && (r.None? ==> brk == old(brk) && supplied == old(supplied))
      ensures n > 0 && r.Some? ==> brk == old(brk) + n / HEADER && supplied == old(supplied) + Region(old(brk), n / HEADER).Keys
      ensures n <= 0 ==> (r.None? <==> n < 0 && old(brk) * HEADER + n == 0)
      ensures n <= 0 ==> supplied == old(supplied) && (lost <==> old(lost) || (n < 0 && old(brk) * HEADER + n >= 0))
    {
      if n > 0 {
        var granted: bool := *;
        if granted {
          r := Some(brk);
          supplied := supplied + Region(brk, n / HEADER).Keys;
          brk := brk + n / HEADER;
        } else {
          r, refusals := None, refusals + 1;
        }
      } else if n == 0 || brk * HEADER + n < 0 {
        r := Some(brk);
      } else {
        lost := true;
        if brk * HEADER + n == 0 {
          r, refusals := None, refusals + 1;
        } else {
          r := Some(brk);
          brk := (brk * HEADER + n) / HEADER;
        }
      }
    }

    /**
     Ask for at least nu units and put them on the list; false when sbrk fails.  What is put on
     the list is what sbrk supplied exactly if its argument was positive.
     */
    method Morecore(nu: nat) returns (ok: bool)
      requires Ok() && started && nu > 0 && nu * HEADER <= UINT
      modifies this`mem, this`freep, this`free, this`live, this`owner, this`brk, this`supplied, this`lost, this`refusals
      ensures Shape() && (Ok() <==> nu * HEADER < UINT / 2)
      ensures live == old(live) && old(owner).Keys <= owner.Keys && refusals == old(refusals) + if ok then 0 else 1
      ensures forall b :: b in live ==> b in mem && b in old(mem) && mem[b] == old(mem)[b]
      ensures ok ==> Fits(Now(), if nu < 4096 then 4096 else nu) && Fits(Now(), nu)
      ensures ok ==> owner.Keys == old(owner).Keys + Region(old(brk), if nu < 4096 then 4096 else nu).Keys
      ensures !ok ==> Now() == old(Now()) && freep == old(freep) && supplied == old(supplied)
    {
      hide Valid, Spread, Region, Fits, SbrkArg;
      LiveIn(base, Now());
      var n := if nu < 4096 then 4096 else nu;
      ArgSign(n);
      var r := Sbrk(SbrkArg(n));
      if r.None? {
        return false;
      }
      RegionStart(r.value, n);
      Join(r.value, n);
      FitsLess(Now(), n, nu);
      return true;
    }

    /** A region above all blocks, given to free. */
    method Join(at: nat, n: nat)
      requires Shape() && base < at && n > 0 && (forall u :: u in owner ==> u < at)
      modifies this`mem, this`freep, this`free, this`live, this`owner
      ensures Shape() && live == old(live) && Fits(Now(), n) && owner.Keys == old(owner).Keys + Region(at, n).Keys
      ensures forall b :: b in live ==> b in mem && b in old(mem) && mem[b] == old(mem)[b]
    {
      hide Valid, Spread, Region, Fits;
      ghost var a := Now();
      LiveIn(base, a);
      Above(base, a, at);
      SuppliedOk(base, a, at, n);
      SuppliedHeaders(base, a, at, n);
      mem := mem[at := Header(if at in mem then mem[at].ptr else 0, n)];
      live, owner := live + {at}, owner + Region(at, n);
      RegionEnds(at, n);
      Free(at + 1);
    }

    /** Take n units off the block at position j of the list, which has at least as many. */
    method Take(prevp: nat, p0: nat, n: nat, ghost j: nat) returns (p: nat)
      requires Shape() && 1 <= j < |free| && p0 == free[j] && prevp == free[j - 1]
      requires p0 in mem && mem[p0].size >= n > 0
      modifies this`mem, this`freep, this`free, this`live, this`owner
      ensures Shape() && (old(Ok()) <==> Ok()) && p !in old(live) && live == old(live) + {p} && p in mem && mem[p].size == n
      ensures forall b :: b in old(live) ==> b in mem && b in old(mem) && mem[b] == old(mem)[b]
      ensures owner.Keys == old(owner).Keys
    {
      hide Valid, Spread, Unlinked, Carved;
      ghost var a := Now();
      p := p0;
      TakeOk(base, a, j, n);
      if mem[p].size == n {
        mem := mem[prevp := Header(mem[p].ptr, mem[prevp].size)];
        ghost var a' := Unlinked(a, j);
        free, live := a'.free, a'.live;
      } else {
        mem := mem[p := Header(mem[p].ptr, mem[p].size - n)];
        p := p + mem[p].size;
        mem := mem[p := Header(if p in mem then mem[p].ptr else 0, n)];
        ghost var a' := Carved(a, j, n);
        live, owner := a'.live, a'.owner;
      }
      freep := prevp;
    }

    /**
     A fresh block of Units(nbytes) units, or None when sbrk fails.  The walk round the list ends,
     calling morecore at most once, wherever free puts or merges the new region.  The heap is in
     order afterwards exactly if the block was there or sbrk could be asked for it.
     */
    method Malloc(nbytes: nat) returns (r: Option<nat>)
      requires Ok() && nbytes < UINT
      modifies this
      ensures Shape() && old(owner).Keys <= owner.Keys
      ensures Ok() <==> Askable(nbytes) || old(started && Fits(Now(), Units(nbytes)))
      ensures forall b :: b in old(live) ==> b in live && b in mem && b in old(mem) && mem[b] == old(mem)[b]
      ensures r.None? ==> live == old(live) && supplied == old(supplied)
      ensures r.None? <==> refusals != old(refusals)
      ensures old(started) && old(Fits(Now(), Units(nbytes))) ==> r.Some? && supplied == old(supplied)
      ensures r.Some? ==>
        && r.value >= 1 && r.value - 1 !in old(live) && live == old(live) + {r.value - 1 as nat}
        && r.value - 1 in mem && mem[r.value - 1].size == Units(nbytes)
    {
      hide Valid, Spread, Tried, Fits, Units, IndexOf;
      UnitsEnough(nbytes);
      UnitsBound(nbytes);
      var n := Units(nbytes);
      if !started {
        mem := map[base := Header(base, 0)];
        freep, started := base, true;
        free := [base];
        FirstOk(base);
      }
      LiveIn(base, Now());
      var prevp := freep;
      ghost var i: nat, grown: bool := IndexOf(free, freep), false;
      Links(base, Now(), i);
      NoneTried(Now(), i, n);
      var p := mem[prevp].ptr;
      while true
        invariant Shape() && live == old(live) && old(owner).Keys <= owner.Keys
        invariant Ok() <==> !grown || Askable(nbytes)
        invariant forall b :: b in live ==> b in mem && b in old(mem) && mem[b] == old(mem)[b]
        invariant refusals == old(refusals)
        invariant (!grown ==> supplied == old(supplied) && (old(started) ==> Now() == old(Now())))
        invariant !grown && !old(started) ==> free == [base]
        invariant grown && old(started) ==> !old(Fits(Now(), Units(nbytes)))
        invariant i < |free| && prevp == free[i] && p == Next(free, i)
        invariant Tried(Now(), IndexOf(free, freep), i, n)
        invariant grown ==> Fits(Now(), n)
        decreases !grown, |free| - Distance(IndexOf(free, freep), i, |free|)
      {
        ghost var f := IndexOf(free, freep);
        ghost var j: nat := if i + 1 < |free| then i + 1 else 0;
        Links(base, Now(), j);
        if mem[p].size >= n {
          FitsHere(Now(), j, n);
          p := Take(prevp, p, n, j);
          return Some(p + 1);
        }
        OneMore(base, Now(), f, i, j, n);
        if p == freep {
          WentRound(base, Now(), f, i, n);
          var ok := Morecore(n);
          if !ok {
            return None;
          }
          grown := true;
          p := freep;
          j := IndexOf(free, freep);
          Links(base, Now(), j);
          NoneTried(Now(), j, n);
        }
        prevp := p;
        p := mem[p].ptr;
        i := j;
      }
    }
  }

  lemma RegionStart(at: nat, n: nat)
    requires n > 0
    ensures at in Region(at, n)
  {
  }

  lemma RegionEnds(at: nat, n: nat)
    ensures forall u :: u in Region(at, n) ==> at <= u < at + n
  {
  }

  lemma FitsHere(a: Arena, j: nat, n: nat)
    requires 0 < n && 1 <= j < |a.free| && a.free[j] in a.mem && a.mem[a.free[j]].size >= n
    ensures Fits(a, n)
  {
  }

  lemma FitsLess(a: Arena, n: nat, m: nat)
    requires Fits(a, n) && m <= n
    ensures Fits(a, m)
  {
  }

  ghost predicate UmallocOk(base: nat, a: Arena, freep: nat) {
    Valid(base, a) && Spread(a) && freep in a.free
  }

  function IndexOf(s: seq<nat>, x: nat): (k: nat)
    requires x in s
    ensures k < |s| && s[k] == x
  {
    if s[0] == x then 0 else 1 + IndexOf(s[1..], x)
  }

  /** Steps from position k round the circle to position at. */
  function Distance(k: nat, at: nat, n: nat): nat
    requires k < n && at < n
  {
    if k <= at then at - k else at - k + n
  }

  lemma PlaceOf(base: nat, a: Arena, bp: nat) returns (k: nat)
    requires Valid(base, a) && bp in a.live
    ensures Before(a.free, k, bp)
  {
    k := 0;
    while k + 1 < |a.free| && a.free[k + 1] < bp
      invariant k < |a.free| && a.free[k] < bp
    {
      k := k + 1;
    }
  }

  /** The walk stops at position k exactly when k is the place for bp. */
  lemma Walk(base: nat, a: Arena, bp: nat, at: nat, k: nat)
    requires Valid(base, a) && bp in a.live && Before(a.free, at, bp) && k < |a.free|
    ensures a.free[k] in a.mem && a.mem[a.free[k]].ptr == Next(a.free, k)
    ensures var p, n := a.free[k], Next(a.free, k);
            (bp > p && bp < n) || (p >= n && (bp > p || bp < n)) <==> k == at
  {
    assert a.mem[a.free[k]].ptr == Next(a.free, k);
    assert bp > base;
  }

  /** Some free block has at least n units. */
  ghost predicate Fits(a: Arena, n: nat) {
    exists i :: 0 <= i < |a.free| && a.free[i] in a.mem && a.mem[a.free[i]].size >= n
  }

  /** The header of the block being freed, after the first conditional of free. */
  function UpperMem(a: Arena, p: nat, bp: nat): map<nat, Header>
    requires p in a.mem && bp in a.mem && a.mem[p].ptr in a.mem
  {
    a.mem[bp := if bp + a.mem[bp].size == a.mem[p].ptr
                then Header(a.mem[a.mem[p].ptr].ptr, a.mem[bp].size + a.mem[a.mem[p].ptr].size)
                else Header(a.mem[p].ptr, a.mem[bp].size)]
  }

  /** The header of its predecessor, after the second. */
  function LowerMem(m: map<nat, Header>, p: nat, bp: nat): map<nat, Header>
    requires p in m && bp in m
  {
    m[p := if p + m[p].size == bp then Header(m[bp].ptr, m[p].size + m[bp].size) else Header(bp, m[p].size)]
  }

  /** The arena after the merge with the upper neighbour, if that is adjacent. */
  function Upper(a: Arena, k: nat, bp: nat): Arena
    requires k < |a.free| && (forall i :: 0 <= i < |a.free| ==> a.free[i] in a.mem) && bp in a.mem
  {
    var a1 := Inserted(a, k, bp);
    if k + 2 < |a1.free| && Touch(a1, k + 1) then Merged(a1, k + 1) else a1
  }

  lemma UpperIs(base: nat, a: Arena, k: nat, bp: nat)
    requires Valid(base, a) && bp in a.live && Before(a.free, k, bp)
    ensures var p := a.free[k];
            && p in a.mem && bp in a.mem && p != bp && a.mem[p].ptr in a.mem
            && (forall i :: 0 <= i < |a.free| ==> a.free[i] in a.mem)
            && Upper(a, k, bp).mem == UpperMem(a, p, bp)[p := Header(bp, a.mem[p].size)]
            && k + 1 < |Upper(a, k, bp).free| && Upper(a, k, bp).free[k] == p && Upper(a, k, bp).free[k + 1] == bp
  {
    hide Valid, Inserted;
    PlaceFacts(base, a, k, bp);
    InsertedAt(a, k, bp, k);
    InsertedAt(a, k, bp, k + 1);
    if k + 1 < |a.free| { InsertedAt(a, k, bp, k + 2); }
    InsertedHeaders(a, k, bp);
  }

  lemma PlaceFacts(base: nat, a: Arena, k: nat, bp: nat)
    requires Valid(base, a) && bp in a.live && Before(a.free, k, bp)
    ensures a.free[k] in a.mem && bp in a.mem && a.free[k] != bp && a.mem[a.free[k]].ptr == Next(a.free, k)
    ensures a.mem[a.free[k]].ptr in a.mem && forall i :: 0 <= i < |a.free| ==> a.free[i] in a.mem
    ensures k + 1 < |a.free| ==> Next(a.free, k) == a.free[k + 1] != a.free[k] && a.free[k + 1] != bp
    ensures k + 1 == |a.free| ==> Next(a.free, k) < bp
  {
    hide Partition;
    assert a.mem[a.free[k]].ptr == Next(a.free, k);
  }

  lemma InsertedHeaders(a: Arena, k: nat, bp: nat)
    requires k < |a.free| && a.free[k] in a.mem && bp in a.mem
    ensures Inserted(a, k, bp).mem == a.mem[bp := Header(Next(a.free, k), a.mem[bp].size)][a.free[k] := Header(bp, a.mem[a.free[k]].size)]
    ensures |Inserted(a, k, bp).free| == |a.free| + 1
  {
  }

  lemma FreedMem(base: nat, a: Arena, k: nat, bp: nat)
    requires Valid(base, a) && bp in a.live && Before(a.free, k, bp)
    ensures var p := a.free[k];
            && p in a.mem && bp in a.mem && p != bp && a.mem[p].ptr in a.mem
            && (forall i :: 0 <= i < |a.free| ==> a.free[i] in a.mem)
            && Freed(a, k, bp).mem == LowerMem(UpperMem(a, p, bp), p, bp)
  {
    hide Valid, Upper, Freed;
    UpperIs(base, a, k, bp);
    FreedFromUpper(a, k, bp);
  }

  lemma FreedFromUpper(a: Arena, k: nat, bp: nat)
    requires k < |a.free| && (forall i :: 0 <= i < |a.free| ==> a.free[i] in a.mem) && bp in a.mem
    ensures k + 1 < |Upper(a, k, bp).free| && Upper(a, k, bp).free[k] in Upper(a, k, bp).mem
    ensures Upper(a, k, bp).free[k + 1] in Upper(a, k, bp).mem
    ensures Freed(a, k, bp) == if Touch(Upper(a, k, bp), k) then Merged(Upper(a, k, bp), k) else Upper(a, k, bp)
  {
  }

  lemma FreedHas(base: nat, a: Arena, k: nat, bp: nat)
    requires Valid(base, a) && bp in a.live && Before(a.free, k, bp)
    requires forall i :: 0 <= i < |a.free| ==> a.free[i] in a.mem
    ensures var a' := Freed(a, k, bp);
            && a.free[k] in a'.free
            && (forall b :: b in a.live && b != bp ==> b in a.mem && b in a'.mem && a'.mem[b] == a.mem[b])
            && (forall n :: 0 < n <= a.mem[bp].size ==> Fits(a', n))
  {
    hide Partition;
    var p, a' := a.free[k], Freed(a, k, bp);
    InsertedAt(a, k, bp, k);
    InsertedAt(a, k, bp, k + 1);
    FreedMem(base, a, k, bp);
    assert a'.free[k] == p && p in a'.mem;
    if !(p + a.mem[p].size == bp) {
      assert a'.free[k + 1] == bp && bp in a'.mem && a'.mem[bp].size >= a.mem[bp].size;
    } else {
      assert a'.mem[p].size >= a.mem[bp].size;
    }
  }

  /** The assignments of free lead to the arena Freed describes. */
  lemma FreeCode(base: nat, a: Arena, k: nat, bp: nat)
    requires Valid(base, a) && Spread(a) && bp in a.live && Before(a.free, k, bp)
    ensures var p := a.free[k];
            && p in a.mem && bp in a.mem && p != bp && a.mem[p].ptr in a.mem
            && (forall i :: 0 <= i < |a.free| ==> a.free[i] in a.mem)
            && var a' := Freed(a, k, bp);
            && a'.mem == LowerMem(UpperMem(a, p, bp), p, bp)
            && UmallocOk(base, a', p) && a'.live == a.live - {bp} && a'.owner.Keys == a.owner.Keys
            && (forall b :: b in a'.live ==> b in a.mem && b in a'.mem && a'.mem[b] == a.mem[b])
            && (forall n :: 0 < n <= a.mem[bp].size ==> Fits(a', n))
  {
    hide Valid, Freed;
    FreedMem(base, a, k, bp);
    FreedSpread(base, a, k, bp);
    FreedOk(base, a, k, bp);
    FreedHas(base, a, k, bp);
  }

  lemma Above(base: nat, a: Arena, r: nat)
    requires Valid(base, a) && base < r && (forall u :: u in a.owner ==> u < r)
    ensures r !in a.free && r !in a.live
  {
    assert r in a.mem && a.mem[r].size > 0 ==> Inside(a, r, r);
  }

  lemma SuppliedHeaders(base: nat, a: Arena, r: nat, n: nat)
    requires Valid(base, a) && r !in a.live && r !in a.free
    ensures forall b :: b in a.live ==> b in a.mem && Supplied(a, r, n).mem[b] == a.mem[b]
    ensures forall b :: b in a.free ==> b in Supplied(a, r, n).free
  {
  }

  /** What malloc does to the arena when the block at position j fits. */
  lemma TakeOk(base: nat, a: Arena, j: nat, n: nat)
    requires Valid(base, a) && Spread(a) && 1 <= j < |a.free| && a.free[j] in a.mem && a.mem[a.free[j]].size >= n > 0
    ensures var p, q := a.free[j], a.free[j - 1];
            && q in a.mem && p !in a.live
            && (a.mem[p].size == n ==>
                 var a' := Unlinked(a, j);
                 && UmallocOk(base, a', q) && a'.live == a.live + {p} && a'.owner == a.owner
                 && a'.mem == a.mem[q := Header(a.mem[p].ptr, a.mem[q].size)]
                 && p != q && forall b :: b in a.live ==> b in a.mem && b != q)
            && (a.mem[p].size > n ==>
                 var a', c := Carved(a, j, n), p + (a.mem[p].size - n);
                 && UmallocOk(base, a', q) && c !in a.live && a'.live == a.live + {c} && a'.owner.Keys == a.owner.Keys
                 && a'.free == a.free && c != p
                 && a'.mem == a.mem[p := Header(a.mem[p].ptr, a.mem[p].size - n)][c := Header(if c in a.mem then a.mem[c].ptr else 0, n)]
                 && forall b :: b in a.live ==> b in a.mem && b != p && b != c)
  {
    if a.mem[a.free[j]].size == n {
      UnlinkedOk(base, a, j);
      RemovedAt(a, j, a.mem[a.free[j - 1]].size, j - 1);
      assert Unlinked(a, j).free[j - 1] == a.free[j - 1];
    } else {
      CarvedOk(base, a, j, n);
    }
  }

  lemma LiveIn(base: nat, a: Arena)
    requires Valid(base, a)
    ensures forall b :: b in a.live ==> b in a.mem
  {
  }

  lemma FirstOk(base: nat)
    ensures UmallocOk(base, Arena(map[base := Header(base, 0)], [base], {}, map[]), base)
  {
  }

  /** The header at position i: it is in memory, names the next one, and only base is empty. */
  lemma Links(base: nat, a: Arena, i: nat)
    requires Valid(base, a) && i < |a.free|
    ensures a.free[i] in a.mem && a.mem[a.free[i]].ptr == Next(a.free, i)
    ensures a.mem[a.free[i]].size > 0 ==> i >= 1
  {
    assert a.mem[a.free[i]].ptr == Next(a.free, i);
  }

  /** No block after position f, up to and including position i, has n units. */
  predicate Tried(a: Arena, f: nat, i: nat, n: nat) {
    && f < |a.free| && i < |a.free|
    && forall l :: 0 <= l < |a.free| && 0 < Distance(f, l, |a.free|) <= Distance(f, i, |a.free|) ==>
         a.free[l] in a.mem && a.mem[a.free[l]].size < n
  }

  lemma NoneTried(a: Arena, f: nat, n: nat)
    requires f < |a.free|
    ensures Tried(a, f, f, n)
  {
  }

  lemma OneMore(base: nat, a: Arena, f: nat, i: nat, j: nat, n: nat)
    requires Valid(base, a) && Tried(a, f, i, n) && j == if i + 1 < |a.free| then i + 1 else 0
    requires a.free[j] in a.mem && a.mem[a.free[j]].size < n
    ensures j == f <==> a.free[j] == a.free[f]
    ensures j != f ==> Tried(a, f, j, n) && Distance(f, j, |a.free|) == Distance(f, i, |a.free|) + 1
    ensures j == f ==> Distance(f, i, |a.free|) == |a.free| - 1
  {
    hide Partition, LiveOk;
  }

  /** Back at freep: nothing fits, so this is the first time round. */
  lemma WentRound(base: nat, a: Arena, f: nat, i: nat, n: nat)
    requires Valid(base, a) && Tried(a, f, i, n) && Distance(f, i, |a.free|) == |a.free| - 1
    requires a.free[f] in a.mem && a.mem[a.free[f]].size < n
    ensures !Fits(a, n)
  {
    hide Partition, LiveOk;
  }
}
