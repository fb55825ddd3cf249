/**
 The buffer cache's list (bio.c): all buffers on one doubly linked ring through a head, most
 recently released first, searched forwards for a cached block and backwards for a buffer to
 recycle.  Pointers are indices; the head has index NBUF.
 */
module Bio {
  const NBUF: nat := 30
  const HEAD: nat := NBUF
  const NODEV: nat := 0xFFFF_FFFF        // (uint)-1, before first use

  datatype Buf = Buf(busy: bool, valid: bool, dirty: bool, dev: nat, blockno: nat)
  datatype Outcome = Got(b: nat) | MustSleep(b: nat) | NoBuffers

  // ---------------------------------------------------------------- the ring

  function Ring(order: seq<nat>): seq<nat> { [HEAD] + order + [HEAD] }

  predicate Linked(next: seq<nat>, prev: seq<nat>, order: seq<nat>) {
    && |next| == |prev| == NBUF + 1 && Distinct(order)
    && (forall i :: 0 <= i <= |order| ==> next[Ring(order)[i]] == Ring(order)[i + 1])
    && (forall i :: 0 < i <= |order| + 1 ==> prev[Ring(order)[i]] == Ring(order)[i - 1])
  }

  /** Buffers, no two alike. */
  predicate Distinct(order: seq<nat>) {
    (forall i :: 0 <= i < |order| ==> order[i] < NBUF) && (forall i, j :: 0 <= i < j < |order| ==> order[i] != order[j])
  }

  function Without(order: seq<nat>, k: nat): seq<nat>
    requires k < |order|
  {
    order[..k] + order[k + 1..]
  }

  /** The first half of brelse: the two neighbours of a buffer are linked to each other. */
  lemma Unlink(next: seq<nat>, prev: seq<nat>, order: seq<nat>, k: nat)
    requires Linked(next, prev, order) && k < |order|
    ensures next[order[k]] <= NBUF && prev[order[k]] <= NBUF
    ensures Linked(next[prev[order[k]] := next[order[k]]], prev[next[order[k]] := prev[order[k]]], Without(order, k))
  {
    var b, rest := order[k], Without(order, k);
    var r, r' := Ring(order), Ring(rest);
    assert r[k + 1] == b && next[b] == r[k + 2] && prev[b] == r[k];
    var n, p := next[prev[b] := next[b]], prev[next[b] := prev[b]];
    assert forall i :: 0 <= i <= k ==> r'[i] == r[i];
    assert forall i :: k < i <= |rest| + 1 ==> r'[i] == r[i + 1];
    forall i | 0 <= i <= |rest|
      ensures n[r'[i]] == r'[i + 1]
    {
      if i != k {
        assert r'[i] != r[k];
      }
    }
    forall i | 0 < i <= |rest| + 1
      ensures p[r'[i]] == r'[i - 1]
    {
      if i != k + 1 {
        assert r'[i] != r[k + 2];
      }
    }
  }

  /** The second half, and a turn of binit's loop: a buffer is linked in behind the head. */
  lemma PushFront(next: seq<nat>, prev: seq<nat>, order: seq<nat>, b: nat)
    requires Linked(next, prev, order) && b < NBUF && b !in order
    ensures next[HEAD] <= NBUF
    ensures Linked(next[b := next[HEAD]][HEAD := b], prev[b := HEAD][next[HEAD] := b], [b] + order)
  {
    var r, r' := Ring(order), Ring([b] + order);
    assert r[0] == HEAD && next[HEAD] == r[1];
    assert r'[0] == HEAD && r'[1] == b && forall i :: 1 < i <= |order| + 2 ==> r'[i] == r[i - 1];
  }

  // ---------------------------------------------------------------- what holds between operations

  predicate Caches(b: Buf, dev: nat, blockno: nat) { b.dev == dev && b.blockno == blockno }

  /** No block is cached twice. */
  predicate Unique(bufs: seq<Buf>) {
    forall i, j :: 0 <= i < j < |bufs| && bufs[i].dev != NODEV ==> !Caches(bufs[j], bufs[i].dev, bufs[i].blockno)
  }

  /** The busy buffers are the held ones, each held by one process. */
  ghost predicate HeldOk(bufs: seq<Buf>, held: set<(nat, nat)>) {
    && (forall h :: h in held ==> h.1 < |bufs| && bufs[h.1].busy)
    && (forall h, g :: h in held && g in held && h.1 == g.1 ==> h == g)
    && (forall b :: 0 <= b < |bufs| && bufs[b].busy ==> exists pid: nat :: (pid, b) in held)
  }

  /** The order is the order of last releases, latest first; 0 is never. */
  predicate ByRelease(order: seq<nat>, released: seq<nat>, clock: nat) {
    && Distinct(order) && |released| == NBUF && (forall b :: 0 <= b < NBUF ==> released[b] <= clock)
    && (forall i, j :: 0 <= i < j < |order| ==> released[order[i]] > released[order[j]] || released[order[i]] == released[order[j]] == 0)
  }

  predicate Idle(b: Buf) { !b.busy && !b.dirty }

  lemma Recycled(bufs: seq<Buf>, held: set<(nat, nat)>, b: nat, pid: nat, dev: nat, blockno: nat)
    requires b < |bufs| && Unique(bufs) && HeldOk(bufs, held) && !bufs[b].busy && forall i :: 0 <= i < |bufs| ==> !Caches(bufs[i], dev, blockno)
    ensures Unique(bufs[b := Buf(true, false, false, dev, blockno)])
    ensures HeldOk(bufs[b := Buf(true, false, false, dev, blockno)], held + {(pid, b)})
  {
    var now, h := bufs[b := Buf(true, false, false, dev, blockno)], held + {(pid, b)};
    forall i | 0 <= i < |now| && now[i].busy
      ensures exists q: nat :: (q, i) in h
    {
      if i == b {
        assert (pid, b) in h;
      } else {
        var q: nat :| (q, i) in held;
        assert (q, i) in h;
      }
    }
  }

  lemma Marked(bufs: seq<Buf>, held: set<(nat, nat)>, b: nat, pid: nat)
    requires b < |bufs| && Unique(bufs) && HeldOk(bufs, held) && !bufs[b].busy
    ensures Unique(bufs[b := bufs[b].(busy := true)]) && HeldOk(bufs[b := bufs[b].(busy := true)], held + {(pid, b)})
  {
    var now, h := bufs[b := bufs[b].(busy := true)], held + {(pid, b)};
    forall i | 0 <= i < |now| && now[i].busy
      ensures exists q: nat :: (q, i) in h
    {
      if i == b {
        assert (pid, b) in h;
      } else {
        var q: nat :| (q, i) in held;
        assert (q, i) in h;
      }
    }
  }

  lemma Unmarked(bufs: seq<Buf>, held: set<(nat, nat)>, b: nat, pid: nat)
    requires b < |bufs| && Unique(bufs) && HeldOk(bufs, held) && (pid, b) in held
    ensures Unique(bufs[b := bufs[b].(busy := false)]) && HeldOk(bufs[b := bufs[b].(busy := false)], held - {(pid, b)})
  {
    var now, h := bufs[b := bufs[b].(busy := false)], held - {(pid, b)};
    forall i | 0 <= i < |now| && now[i].busy
      ensures exists q: nat :: (q, i) in h
    {
      var q: nat :| (q, i) in held;
      assert (q, i) in h;
    }
  }

  lemma MovedToFront(order: seq<nat>, released: seq<nat>, clock: nat, k: nat)
    requires ByRelease(order, released, clock) && k < |order|
    ensures ByRelease([order[k]] + Without(order, k), released[order[k] := clock + 1], clock + 1)
    ensures forall b :: b in order ==> b in [order[k]] + Without(order, k)
  {
    var b, rest := order[k], Without(order, k);
    assert forall i :: 0 <= i < |rest| ==> rest[i] == order[if i < k then i else i + 1];
    forall x | x in order
      ensures x in [b] + rest
    {
      var i :| 0 <= i < |order| && order[i] == x;
      if i < k {
        assert rest[i] == x;
      } else if i > k {
        assert rest[i - 1] == x;
      }
    }
  }

  class BufferCache {
    const next: array<nat>
    const prev: array<nat>
    const bufs: array<Buf>
    ghost var order: seq<nat>            // head.next onwards
    ghost var held: set<(nat, nat)>      // which process holds which buffer
    ghost var released: seq<nat>         // when each buffer was last released
    ghost var clock: nat

    ghost predicate Valid()
      reads this, next, prev, bufs
    {
      && next.Length == prev.Length == NBUF + 1 && bufs.Length == NBUF && next != prev
      && Linked(next[..], prev[..], order) && |order| == NBUF && (forall b :: 0 <= b < NBUF ==> b in order)
      && Unique(bufs[..]) && HeldOk(bufs[..], held) && ByRelease(order, released, clock)
    }

    /** binit */
    constructor ()
      ensures Valid() && fresh(next) && fresh(prev) && fresh(bufs) && held == {}
      ensures forall b :: 0 <= b < NBUF ==> bufs[b].dev == NODEV && Idle(bufs[b])
    {
      next := new nat[NBUF + 1](_ => HEAD);
      prev := new nat[NBUF + 1](_ => HEAD);
      bufs := new Buf[NBUF](_ => Buf(false, false, false, NODEV, 0));
      order, held, released, clock := [], {}, seq(NBUF, _ => 0), 0;
      new;
      var b := 0;
      while b < NBUF
        invariant 0 <= b <= NBUF && Linked(next[..], prev[..], order) && |order| == b && forall i :: 0 <= i < b ==> order[i] == b - 1 - i
        modifies this`order, next, prev
      {
        PushFront(next[..], prev[..], order, b);
        next[b] := next[HEAD];
        prev[b] := HEAD;
        prev[next[HEAD]] := b;
        next[HEAD] := b;
        order := [b] + order;
        b := b + 1;
      }
      forall x | 0 <= x < NBUF
        ensures x in order
      {
        assert order[NBUF - 1 - x] == x;
      }
    }

    /** The first loop of bget: the buffer that caches the block, or the head. */
    method FindCached(dev: nat, blockno: nat) returns (b: nat)
      requires Valid()
      ensures b <= NBUF && (b < NBUF ==> Caches(bufs[b], dev, blockno))
      ensures b == HEAD ==> forall i :: 0 <= i < NBUF ==> !Caches(bufs[i], dev, blockno)
    {
      ghost var k := 0;
      assert Ring(order)[0] == HEAD;
      b := next[HEAD];
      while b != HEAD
        invariant 0 <= k <= NBUF && b == Ring(order)[k + 1]
        invariant forall i :: 0 <= i < k ==> !Caches(bufs[order[i]], dev, blockno)
        decreases NBUF - k
      {
        if bufs[b].dev == dev && bufs[b].blockno == blockno {
          return;
        }
        b := next[b];
        k := k + 1;
      }
      forall i | 0 <= i < NBUF
        ensures !Caches(bufs[i], dev, blockno)
      {
        assert i in order;
        var j :| 0 <= j < |order| && order[j] == i;
      }
    }

    /** The second loop of bget: the last idle clean buffer of the order, or the head. */
    method FindIdle() returns (b: nat)
      requires Valid()
      ensures b <= NBUF
      ensures (b < NBUF ==> Idle(bufs[b]) && forall i :: 0 <= i < NBUF && Idle(bufs[i]) ==> released[b] <= released[i])
      ensures b == HEAD ==> forall i :: 0 <= i < NBUF ==> !Idle(bufs[i])
    {
      ghost var k := NBUF;
      assert Ring(order)[NBUF + 1] == HEAD;
      b := prev[HEAD];
      while b != HEAD
        invariant 0 <= k <= NBUF && b == Ring(order)[k]
        invariant forall i :: k <= i < NBUF ==> !Idle(bufs[order[i]])
        decreases k
      {
        if !bufs[b].busy && !bufs[b].dirty {
          forall i | 0 <= i < NBUF && Idle(bufs[i])
            ensures released[b] <= released[i]
          {
            assert i in order;
            var j :| 0 <= j < |order| && order[j] == i;
            assert order[k - 1] == b && j <= k - 1;
          }
          return;
        }
        b := prev[b];
        k := k - 1;
      }
      forall i | 0 <= i < NBUF
        ensures !Idle(bufs[i])
      {
        assert i in order;
        var j :| 0 <= j < |order| && order[j] == i;
      }
    }

    /**
     bget by process pid, from `loop:` on; where it sleeps, the process starts over when the holder
     of b has released it.
     */
    method Bget(ghost pid: nat, dev: nat, blockno: nat) returns (r: Outcome)
      requires Valid()
      modifies this`held, bufs
      ensures Valid()
      ensures r.NoBuffers? <==> forall i :: 0 <= i < NBUF ==> !Caches(old(bufs[i]), dev, blockno) && !Idle(old(bufs[i]))
      ensures r.MustSleep? <==> exists i :: 0 <= i < NBUF && Caches(old(bufs[i]), dev, blockno) && old(bufs[i].busy) && r == MustSleep(i)
      ensures !r.Got? ==> bufs[..] == old(bufs[..]) && held == old(held)
      ensures r.Got? ==> r.b < NBUF && Caches(bufs[r.b], dev, blockno) && bufs[r.b].busy && !old(bufs[r.b].busy)
      ensures r.Got? ==> held == old(held) + {(pid, r.b)}
      ensures r.Got? ==> forall i :: 0 <= i < NBUF && i != r.b ==> bufs[i] == old(bufs[i])
      ensures r.Got? && (exists i :: 0 <= i < NBUF && Caches(old(bufs[i]), dev, blockno)) ==> bufs[r.b] == old(bufs[r.b]).(busy := true)
      ensures r.Got? && !(exists i :: 0 <= i < NBUF && Caches(old(bufs[i]), dev, blockno)) ==>
        && Idle(old(bufs[r.b])) && !bufs[r.b].valid && !bufs[r.b].dirty
        && forall i :: 0 <= i < NBUF && Idle(old(bufs[i])) ==> released[r.b] <= released[i]
    {
      hide Linked, Unique, HeldOk, ByRelease;
      var b := FindCached(dev, blockno);
      if b != HEAD {
        if !bufs[b].busy {
          Marked(bufs[..], held, b, pid);
          bufs[b] := bufs[b].(busy := true);
          held := held + {(pid, b)};
          return Got(b);
        }
        return MustSleep(b);
      }
      b := FindIdle();
      if b != HEAD {
        Recycled(bufs[..], held, b, pid, dev, blockno);
        bufs[b] := Buf(true, false, false, dev, blockno);
        held := held + {(pid, b)};
        return Got(b);
      }
      return NoBuffers;
    }

    /** Unlink b from the ring and link it in behind the head. */
    method MoveToFront(b: nat, ghost k: nat)
      requires next.Length == prev.Length == NBUF + 1 && next != prev && Linked(next[..], prev[..], order)
      requires k < |order| && order[k] == b
      modifies this`order, next, prev
      ensures Linked(next[..], prev[..], order) && order == [b] + Without(old(order), k)
    {
      hide Linked;
      BelowHead(next[..], prev[..], order, k);
      Unlink(next[..], prev[..], order, k);
      prev[next[b]] := prev[b];
      next[prev[b]] := next[b];
      LeftOut(order, k);
      PushFront(next[..], prev[..], Without(order, k), b);
      next[b] := next[HEAD];
      prev[b] := HEAD;
      prev[next[HEAD]] := b;
      next[HEAD] := b;
      order := [b] + Without(order, k);
    }

    /** brelse */
    method Brelse(ghost pid: nat, b: nat)
      requires Valid() && (pid, b) in held
      modifies this`order, this`held, this`released, this`clock, next, prev, bufs
      ensures Valid() && held == old(held) - {(pid, b)} && b < NBUF
      ensures bufs[..] == old(bufs[..])[b := old(bufs[b]).(busy := false)]
      ensures order[0] == b && released[b] == clock == old(clock) + 1 && released == old(released)[b := clock]
    {
      hide Linked, Unique, ByRelease;
      assert bufs[b].busy && b in order;
      ghost var k :| 0 <= k < |order| && order[k] == b;
      ByReleaseLength(order, released, clock);
      MovedToFront(order, released, clock, k);
      Unmarked(bufs[..], held, b, pid);
      MoveToFront(b, k);
      released, clock := released[b := clock + 1], clock + 1;
      bufs[b] := bufs[b].(busy := false);
      held := held - {(pid, b)};
    }
  }

  lemma BelowHead(next: seq<nat>, prev: seq<nat>, order: seq<nat>, k: nat)
    requires Linked(next, prev, order) && k < |order|
    ensures order[k] < NBUF && next[order[k]] <= NBUF && prev[order[k]] <= NBUF && Distinct(order)
    ensures prev[order[k]] != order[k] && next[order[k]] != order[k]
  {
    var r := Ring(order);
    assert r[k + 1] == order[k] && next[r[k + 1]] == r[k + 2] && prev[r[k + 1]] == r[k];
  }

  lemma LeftOut(order: seq<nat>, k: nat)
    requires Distinct(order) && k < |order|
    ensures order[k] !in Without(order, k)
  {
  }

  lemma ByReleaseLength(order: seq<nat>, released: seq<nat>, clock: nat)
    requires ByRelease(order, released, clock)
    ensures |released| == NBUF
  {
  }
}
