/**
 The inode cache (fs.c): a fixed table of slots.  A slot is in use while its reference count is
 positive; the count is the number of references that are out, and no inode has two slots.
 */
module Icache {
  import opened Common
  import opened InodeMap

  /** The part of struct inode that the cache is about. */
  datatype Slot = Slot(dev: nat, inum: nat, ref: nat, busy: bool, valid: bool)

  function Key(s: Slot): (nat, nat) { (s.dev, s.inum) }

  /** The references that are out are exactly the counts, in one slot each. */
  predicate Represents(slots: seq<Slot>, refs: multiset<(nat, nat)>) {
    && (forall i :: 0 <= i < |slots| && slots[i].ref > 0 ==> slots[i].ref == refs[Key(slots[i])])
    && (forall i, j :: 0 <= i < j < |slots| && slots[i].ref > 0 && slots[j].ref > 0 ==> Key(slots[i]) != Key(slots[j]))
    && (forall k :: k in refs ==> exists i :: 0 <= i < |slots| && slots[i].ref > 0 && Key(slots[i]) == k)
  }

  lemma Added(slots: seq<Slot>, refs: multiset<(nat, nat)>, p: nat, s: Slot)
    requires Represents(slots, refs) && p < |slots| && s.ref == refs[Key(s)] + 1
    requires if slots[p].ref > 0 then Key(slots[p]) == Key(s) else forall i :: 0 <= i < |slots| && slots[i].ref > 0 ==> Key(slots[i]) != Key(s)
    ensures Represents(slots[p := s], refs + multiset{Key(s)})
  {
    hide Key;
    var refs' := refs + multiset{Key(s)};
    assert forall k :: refs'[k] == refs[k] + if k == Key(s) then 1 else 0;
    Replaced(slots, refs, p, s, refs');
  }

  lemma Removed(slots: seq<Slot>, refs: multiset<(nat, nat)>, p: nat, s: Slot)
    requires Represents(slots, refs) && p < |slots| && slots[p].ref > 0 && Key(s) == Key(slots[p])
    requires s.ref == slots[p].ref - 1
    ensures Represents(slots[p := s], refs - multiset{Key(s)})
  {
    hide Key;
    var refs' := refs - multiset{Key(s)};
    assert forall k :: k != Key(s) ==> refs'[k] == refs[k];
    Replaced(slots, refs, p, s, refs');
  }

  /** Slot p changes, and with it the count of its inode alone. */
  lemma Replaced(slots: seq<Slot>, refs: multiset<(nat, nat)>, p: nat, s: Slot, refs': multiset<(nat, nat)>)
    requires Represents(slots, refs) && p < |slots| && s.ref == refs'[Key(s)] && forall k :: k != Key(s) ==> refs'[k] == refs[k]
    requires if slots[p].ref > 0 then Key(slots[p]) == Key(s) else forall i :: 0 <= i < |slots| && slots[i].ref > 0 ==> Key(slots[i]) != Key(s)
    ensures Represents(slots[p := s], refs')
  {
    hide Key;
    var slots' := slots[p := s];
    forall k | k in refs'
      ensures exists i :: 0 <= i < |slots'| && slots'[i].ref > 0 && Key(slots'[i]) == k
    {
      ReplacedHas(slots, slots', refs, p, s, refs', k);
    }
    forall i | 0 <= i < |slots'| && slots'[i].ref > 0
      ensures slots'[i].ref == refs'[Key(slots'[i])]
    {
      if i != p { assert slots'[i] == slots[i] && Key(slots[i]) != Key(s); }
    }
  }

  lemma ReplacedHas(slots: seq<Slot>, slots': seq<Slot>, refs: multiset<(nat, nat)>, p: nat, s: Slot,
                    refs': multiset<(nat, nat)>, k: (nat, nat))
    requires Represents(slots, refs) && p < |slots| && slots' == slots[p := s] && s.ref == refs'[Key(s)] && (k != Key(s) ==> refs'[k] == refs[k])
    requires slots[p].ref > 0 ==> Key(slots[p]) == Key(s)
    requires k in refs'
    ensures exists i :: 0 <= i < |slots'| && slots'[i].ref > 0 && Key(slots'[i]) == k
  {
    hide Key;
    assert refs'[k] > 0;
    if k == Key(s) {
      assert slots'[p].ref > 0 && Key(slots'[p]) == k;
    } else {
      assert k in refs;
      var i :| 0 <= i < |slots| && slots[i].ref > 0 && Key(slots[i]) == k;
      assert slots'[i] == slots[i];
    }
  }

  lemma CountIs(slots: seq<Slot>, refs: multiset<(nat, nat)>, p: nat)
    requires Represents(slots, refs) && p < |slots| && slots[p].ref > 0
    ensures slots[p].ref == refs[Key(slots[p])]
  {
  }

  lemma NotOut(slots: seq<Slot>, refs: multiset<(nat, nat)>, k: (nat, nat))
    requires Represents(slots, refs) && forall i :: 0 <= i < |slots| && slots[i].ref > 0 ==> Key(slots[i]) != k
    ensures k !in refs && refs[k] == 0
  {
  }

  // ---------------------------------------------------------------- the map the slots stand for

  predicate Uses(s: Slot, dev: nat, inum: nat) { s.ref > 0 && s.dev == dev && s.inum == inum }

  predicate Apart(slots: seq<Slot>) {
    forall i, j :: 0 <= i < j < |slots| && slots[i].ref > 0 && slots[j].ref > 0 ==> Key(slots[i]) != Key(slots[j])
  }

  /** The slots of one device, as a map from inode numbers. */
  function MapOf(slots: seq<Slot>, dev: nat): Cache {
    if slots == [] then map[] else
    var s := slots[|slots| - 1];
    var m := MapOf(slots[..|slots| - 1], dev);
    if s.ref > 0 && s.dev == dev then m[s.inum := Held(s.ref, s.busy, s.valid)] else m
  }

  /** An inode is in the map exactly if a slot holds it, and the map shows that slot. */
  lemma {:induction false} MapAt(slots: seq<Slot>, dev: nat, inum: nat, p: nat)
    requires Apart(slots)
    ensures inum in MapOf(slots, dev) ==> exists q :: 0 <= q < |slots| && Uses(slots[q], dev, inum)
    ensures p < |slots| && Uses(slots[p], dev, inum) ==>
              inum in MapOf(slots, dev) && MapOf(slots, dev)[inum] == Held(slots[p].ref, slots[p].busy, slots[p].valid)
    decreases |slots|
  {
    if slots != [] {
      var n := |slots| - 1;
      MapAt(slots[..n], dev, inum, p);
      if inum in MapOf(slots, dev) {
        if Uses(slots[n], dev, inum) {
          assert Uses(slots[n], dev, inum);
        } else {
          var q :| 0 <= q < n && Uses(slots[..n][q], dev, inum);
          assert Uses(slots[q], dev, inum);
        }
      }
    }
  }

  /** One slot changes: the map changes at its inode only. */
  lemma MapChanged(slots: seq<Slot>, p: nat, s: Slot, dev: nat, inum: nat)
    requires p < |slots| && Apart(slots) && Apart(slots[p := s]) && Key(s) == (dev, inum)
    requires slots[p].ref > 0 ==> Key(slots[p]) == Key(s)
    requires s.ref > 0 || slots[p].ref > 0
    ensures MapOf(slots[p := s], dev) ==
            if s.ref > 0 then MapOf(slots, dev)[inum := Held(s.ref, s.busy, s.valid)] else MapOf(slots, dev) - {inum}
    ensures forall e: nat :: e != dev ==> MapOf(slots[p := s], e) == MapOf(slots, e)
  {
    hide MapOf;
    var m', m := MapOf(slots[p := s], dev), MapOf(slots, dev);
    var want := if s.ref > 0 then m[inum := Held(s.ref, s.busy, s.valid)] else m - {inum};
    forall j: nat
      ensures (j in m' <==> j in want) && (j in m' ==> m'[j] == want[j])
    {
      MapSame(slots, p, s, dev, j);
    }
    EqualMaps(m', want);
    forall e: nat | e != dev
      ensures MapOf(slots[p := s], e) == MapOf(slots, e)
    {
      forall j: nat
        ensures (j in MapOf(slots[p := s], e) <==> j in MapOf(slots, e))
        ensures j in MapOf(slots, e) ==> MapOf(slots[p := s], e)[j] == MapOf(slots, e)[j]
      {
        MapSame(slots, p, s, e, j);
      }
      EqualMaps(MapOf(slots[p := s], e), MapOf(slots, e));
    }
  }

  lemma EqualMaps(a: Cache, b: Cache)
    requires forall j: nat :: (j in a <==> j in b) && (j in a ==> a[j] == b[j])
    ensures a == b
  {
    assert a.Keys == b.Keys;
  }

  lemma MapSame(slots: seq<Slot>, p: nat, s: Slot, e: nat, j: nat)
    requires p < |slots| && Apart(slots) && Apart(slots[p := s]) && (slots[p].ref > 0 ==> Key(slots[p]) == Key(s))
    requires s.ref > 0 || slots[p].ref > 0
    ensures (j in MapOf(slots[p := s], e)) == (if Key(s) == (e, j) then s.ref > 0 else j in MapOf(slots, e))
    ensures j in MapOf(slots[p := s], e) ==>
              MapOf(slots[p := s], e)[j] == if Key(s) == (e, j) then Held(s.ref, s.busy, s.valid) else MapOf(slots, e)[j]
  {
    hide MapOf;
    var slots' := slots[p := s];
    if Key(s) == (e, j) {
      MapAt(slots', e, j, p);
      if s.ref == 0 {
        assert forall q :: 0 <= q < |slots| && q != p ==> slots'[q] == slots[q] && !Uses(slots[q], e, j);
      }
    } else {
      MapAt(slots, e, j, 0);
      MapAt(slots', e, j, 0);
      if j in MapOf(slots', e) {
        var q :| 0 <= q < |slots'| && Uses(slots'[q], e, j);
        assert slots'[q] == slots[q];
        MapAt(slots, e, j, q);
        MapAt(slots', e, j, q);
      }
      if j in MapOf(slots, e) {
        var q :| 0 <= q < |slots| && Uses(slots[q], e, j);
        assert slots'[q] == slots[q];
        MapAt(slots', e, j, q);
      }
    }
  }

  /** Slots all taken by one device are as many inodes. */
  lemma {:induction false} FullMap(slots: seq<Slot>, dev: nat)
    requires Apart(slots) && forall q :: 0 <= q < |slots| ==> slots[q].ref > 0 && slots[q].dev == dev
    ensures |MapOf(slots, dev)| == |slots|
    decreases |slots|
  {
    if slots != [] {
      var n := |slots| - 1;
      FullMap(slots[..n], dev);
      MapAt(slots[..n], dev, slots[n].inum, 0);
      assert slots[n].inum !in MapOf(slots[..n], dev);
      assert MapOf(slots, dev).Keys == MapOf(slots[..n], dev).Keys + {slots[n].inum};
    }
  }

  lemma ApartOf(slots: seq<Slot>, refs: multiset<(nat, nat)>)
    requires Represents(slots, refs)
    ensures Apart(slots)
  {
  }

  /** From slots to slots', one slot of the inode has become s. */
  lemma Shows(slots: seq<Slot>, p: nat, s: Slot, refs: multiset<(nat, nat)>, refs': multiset<(nat, nat)>)
    requires p < |slots| && Represents(slots, refs) && Represents(slots[p := s], refs')
    requires slots[p].ref > 0 ==> Key(slots[p]) == Key(s)
    requires slots[p].ref == 0 ==> forall q :: 0 <= q < |slots| && slots[q].ref > 0 ==> Key(slots[q]) != Key(s)
    ensures s == slots[p].(ref := slots[p].ref + 1) && slots[p].ref > 0 ==>
              MapOf(slots[p := s], s.dev) == Gotten(MapOf(slots, s.dev), s.inum)
    ensures s == Slot(s.dev, s.inum, 1, false, false) && slots[p].ref == 0 ==>
              MapOf(slots[p := s], s.dev) == Gotten(MapOf(slots, s.dev), s.inum)
    ensures slots[p].ref > 0 && s == slots[p].(ref := slots[p].ref - 1) ==>
              s.inum in MapOf(slots, s.dev) && MapOf(slots[p := s], s.dev) == Dropped(MapOf(slots, s.dev), s.inum)
    ensures s.ref > 0 || slots[p].ref > 0 ==> forall e :: e != s.dev ==> MapOf(slots[p := s], e) == MapOf(slots, e)
  {
    hide MapOf, Represents;
    ApartOf(slots, refs);
    ApartOf(slots[p := s], refs');
    if s.ref > 0 || slots[p].ref > 0 {
      MapChanged(slots, p, s, s.dev, s.inum);
      MapAt(slots, s.dev, s.inum, p);
    }
  }

  class InodeCache {
    const slots: array<Slot>
    ghost var refs: multiset<(nat, nat)>     // the references that are out

    ghost predicate Valid()
      reads this, slots
    {
      slots.Length == NINODE && Represents(slots[..], refs)
    }

    constructor ()
      ensures Valid() && fresh(slots) && refs == multiset{}
    {
      slots := new Slot[NINODE](_ => Slot(0, 0, 0, false, false));
      refs := multiset{};
    }

    /** iget; None is the panic "no inodes". */
    method Iget(dev: nat, inum: nat) returns (r: Option<nat>)
      requires Valid()
      modifies this`refs, slots
      ensures Valid()
      ensures r.None? ==> refs == old(refs) && slots[..] == old(slots[..]) && (dev, inum) !in refs && forall i :: 0 <= i < NINODE ==> slots[i].ref > 0
      ensures r.Some? ==> r.value < NINODE && Key(slots[r.value]) == (dev, inum)
      ensures r.Some? ==> refs == old(refs) + multiset{(dev, inum)}
      ensures r.Some? ==> MapOf(slots[..], dev) == Gotten(old(MapOf(slots[..], dev)), inum)
      ensures r.Some? ==> forall e :: e != dev ==> MapOf(slots[..], e) == old(MapOf(slots[..], e))
      ensures r.Some? ==> forall i :: 0 <= i < NINODE && i != r.value ==> slots[i] == old(slots[i])
      ensures r.Some? && (dev, inum) !in old(refs) ==> old(slots[r.value].ref) == 0 && !slots[r.value].busy
      ensures r.Some? && (dev, inum) !in old(refs) ==> !slots[r.value].valid
      ensures r.Some? && (dev, inum) in old(refs) ==> slots[r.value] == old(slots[r.value]).(ref := old(slots[r.value].ref) + 1)
    {
      hide Represents, MapOf, Gotten;
      var empty: nat := NINODE;
      var p := 0;
      while p < NINODE
        invariant 0 <= p <= NINODE && slots[..] == old(slots[..]) && refs == old(refs)
        invariant forall i :: 0 <= i < p && slots[i].ref > 0 ==> Key(slots[i]) != (dev, inum)
        invariant empty <= NINODE && (empty < NINODE ==> slots[empty].ref == 0)
        invariant (empty == NINODE ==> forall i :: 0 <= i < p ==> slots[i].ref > 0)
      {
        if slots[p].ref > 0 && slots[p].dev == dev && slots[p].inum == inum {
          CountIs(slots[..], refs, p);
          Added(slots[..], refs, p, slots[p].(ref := slots[p].ref + 1));
          Shows(slots[..], p, slots[p].(ref := slots[p].ref + 1), refs, refs + multiset{(dev, inum)});
          slots[p] := slots[p].(ref := slots[p].ref + 1);
          refs := refs + multiset{(dev, inum)};
          return Some(p);
        }
        if empty == NINODE && slots[p].ref == 0 {
          empty := p;
        }
        p := p + 1;
      }
      NotOut(slots[..], refs, (dev, inum));
      if empty == NINODE {
        return None;
      }
      Added(slots[..], refs, empty, Slot(dev, inum, 1, false, false));
      Shows(slots[..], empty, Slot(dev, inum, 1, false, false), refs, refs + multiset{(dev, inum)});
      slots[empty] := Slot(dev, inum, 1, false, false);
      refs := refs + multiset{(dev, inum)};
      return Some(empty);
    }

    /** idup */
    method Idup(p: nat)
      requires Valid() && p < NINODE && slots[p].ref > 0
      modifies this`refs, slots
      ensures Valid() && refs == old(refs) + multiset{old(Key(slots[p]))}
      ensures slots[..] == old(slots[..])[p := old(slots[p]).(ref := old(slots[p].ref) + 1)]
      ensures var s := slots[p]; MapOf(slots[..], s.dev) == Gotten(old(MapOf(slots[..], slots[p].dev)), s.inum)
    {
      hide MapOf, Gotten, Represents;
      CountIs(slots[..], refs, p);
      Added(slots[..], refs, p, slots[p].(ref := slots[p].ref + 1));
      Shows(slots[..], p, slots[p].(ref := slots[p].ref + 1), refs, refs + multiset{Key(slots[p])});
      refs := refs + multiset{Key(slots[p])};
      slots[p] := slots[p].(ref := slots[p].ref + 1);
    }

    /** The end of iput: one reference less, and a free slot after the last. */
    method Drop(p: nat)
      requires Valid() && p < NINODE && slots[p].ref > 0
      modifies this`refs, slots
      ensures Valid() && refs == old(refs) - multiset{old(Key(slots[p]))}
      ensures slots[..] == old(slots[..])[p := old(slots[p]).(ref := old(slots[p].ref) - 1)]
      ensures var s := slots[p];
              && s.inum in old(MapOf(slots[..], slots[p].dev))
              && MapOf(slots[..], s.dev) == Dropped(old(MapOf(slots[..], slots[p].dev)), s.inum)
    {
      hide MapOf, Dropped, Represents;
      Removed(slots[..], refs, p, slots[p].(ref := slots[p].ref - 1));
      Shows(slots[..], p, slots[p].(ref := slots[p].ref - 1), refs, refs - multiset{Key(slots[p])});
      refs := refs - multiset{Key(slots[p])};
      slots[p] := slots[p].(ref := slots[p].ref - 1);
    }
  }
}
