/** The inode cache as a map: what the slots of Icache stand for and Syscalls works with. */
module InodeMap {
  datatype Held = Held(ref: nat, busy: bool, valid: bool)
  type Cache = map<nat, Held>

  function Refs(c: Cache, i: nat): nat { if i in c then c[i].ref else 0 }

  /** iget */
  function Gotten(c: Cache, i: nat): Cache {
    c[i := if i in c then c[i].(ref := c[i].ref + 1) else Held(1, false, false)]
  }

  /** ilock, with the inode read in. */
  function Locked(c: Cache, i: nat): Cache
    requires i in c
  {
    c[i := Held(c[i].ref, true, true)]
  }

  /** iunlock */
  function Unlocked(c: Cache, i: nat): Cache
    requires i in c
  {
    c[i := c[i].(busy := false)]
  }

  /** The end of iput. */
  function Dropped(c: Cache, i: nat): Cache
    requires i in c
  {
    if c[i].ref <= 1 then c - {i} else c[i := c[i].(ref := c[i].ref - 1)]
  }
}
