/** proc.c's scans of the table, as loops over the array, proved against ProcTable. */
module Procs {
  import opened Common
  import opened ProcTable

  datatype WaitResult = Reap(slot: nat, pid: nat) | NoChildren | MustSleep

  /** The table after exit has treated the first k slots: those children moved, init woken for a zombie among them. */
  function ExitSoFar(ps: seq<Proc>, me: nat, init: nat, k: nat): (r: seq<Proc>)
    requires k <= |ps|
    ensures |r| == |ps|
  {
    var woken := if HasZombie(ps[..k], me) then Wakeup1(ps, OnProc(init)) else ps;
    seq(|ps|, i requires 0 <= i < |ps| => if i < k && ps[i].parent == Some(me) then woken[i].(parent := Some(init)) else woken[i])
  }

  /**
   A slot after exit of `me`: me is a zombie, its children are init's, and its parent is woken
   if it waits, and init if it waits and has been given a zombie.
   */
  predicate AfterExit(ps: seq<Proc>, me: nat, init: nat, i: nat, p': Proc)
    requires me < |ps| && i < |ps| && ps[me].parent.Some?
  {
    var p := ps[i];
    && p'.pid == p.pid && p'.chan == p.chan && p'.killed == p.killed
    && p'.parent == (if p.parent == Some(me) then Some(init) else p.parent)
    && (p'.state == if i == me then ZOMBIE
                    else if p.state == SLEEPING
                            && (p.chan == OnProc(ps[me].parent.value) || (p.chan == OnProc(init) && HasZombie(ps, me))) then RUNNABLE
                    else p.state)
  }

  class PTable {
    const proc: array<Proc>
    var nextpid: nat

    constructor ()
      ensures fresh(proc) && proc.Length == NPROC && nextpid == 1
      ensures forall i :: 0 <= i < NPROC ==> proc[i] == Proc(UNUSED, 0, None, Nothing, false)
    {
      proc := new Proc[NPROC](_ => Proc(UNUSED, 0, None, Nothing, false));
      nextpid := 1;
    }

    /** The first UNUSED slot becomes an embryo with a new pid; None exactly when there is none. */
    method AllocProc() returns (r: Option<nat>)
      modifies proc, this`nextpid
      ensures r.None? ==> proc[..] == old(proc[..]) && nextpid == old(nextpid)
                          && forall i :: 0 <= i < proc.Length ==> proc[i].state != UNUSED
      ensures r.Some? ==>
        && r.value < proc.Length && old(proc[r.value].state) == UNUSED && nextpid == old(nextpid) + 1
        && (forall i :: 0 <= i < r.value ==> old(proc[i].state) != UNUSED)
        && proc[..] == old(proc[..])[r.value := old(proc[r.value]).(state := EMBRYO, pid := old(nextpid))]
    {
      var i := 0;
      while i < proc.Length
        invariant 0 <= i <= proc.Length && proc[..] == old(proc[..]) && nextpid == old(nextpid)
        invariant forall j :: 0 <= j < i ==> proc[j].state != UNUSED
      {
        if proc[i].state == UNUSED {
          proc[i] := proc[i].(state := EMBRYO, pid := nextpid);
          nextpid := nextpid + 1;
          return Some(i);
        }
        i := i + 1;
      }
      return None;
    }

    method WakeupAll(chan: Chan)
      modifies proc
      ensures proc[..] == Wakeup1(old(proc[..]), chan)
      ensures forall i :: 0 <= i < proc.Length ==>
                proc[i] == if old(proc[i].state) == SLEEPING && old(proc[i].chan) == chan then old(proc[i]).(state := RUNNABLE) else old(proc[i])
    {
      var i := 0;
      while i < proc.Length
        invariant 0 <= i <= proc.Length
        invariant forall j :: 0 <= j < proc.Length ==> proc[j] == if j < i then Woken(old(proc[j]), chan) else old(proc[j])
      {
        if proc[i].state == SLEEPING && proc[i].chan == chan {
          proc[i] := proc[i].(state := RUNNABLE);
        }
        i := i + 1;
      }
    }

    /** exit's section under ptable.lock. */
    method Exit(me: nat, init: nat)
      requires me < proc.Length && proc[me].parent.Some? && proc[me].state == RUNNING
      modifies proc
      ensures proc[..] == Exited(old(proc[..]), me, init)
      ensures forall i :: 0 <= i < proc.Length ==> AfterExit(old(proc[..]), me, init, i, proc[i])
    {
      WakeupAll(OnProc(proc[me].parent.value));
      ghost var ps := proc[..];
      var i := 0;
      assert ExitSoFar(ps, me, init, 0) == ps;
      while i < proc.Length
        invariant 0 <= i <= proc.Length && proc[..] == ExitSoFar(ps, me, init, i)
      {
        ExitOneMore(ps, me, init, i);
        if proc[i].parent == Some(me) {
          proc[i] := proc[i].(parent := Some(init));
          if proc[i].state == ZOMBIE {
            WakeupAll(OnProc(init));
          }
        }
        i := i + 1;
      }
      ExitDone(ps, me, init);
      proc[me] := proc[me].(state := ZOMBIE);
      EachSlot(old(proc[..]), me, init);
    }

    /** One scan of wait's loop: reap a zombie child, give up, or go to sleep. */
    method Wait(me: nat) returns (r: WaitResult)
      requires me < proc.Length
      modifies proc
      ensures r.Reap? ==>
        && r.slot < proc.Length && old(proc[r.slot].parent) == Some(me) && old(proc[r.slot].state) == ZOMBIE
        && r.pid == old(proc[r.slot].pid) && proc[..] == old(proc[..])[r.slot := Reaped(old(proc[r.slot]))]
        && proc[r.slot] == Proc(UNUSED, 0, None, old(proc[r.slot].chan), false)
        && (forall i :: 0 <= i < r.slot ==> old(proc[i].parent) != Some(me) || old(proc[i].state) != ZOMBIE)
      ensures !r.Reap? ==> proc[..] == old(proc[..]) && !HasZombie(old(proc[..]), me)
      ensures r.NoChildren? <==> !HasZombie(old(proc[..]), me) && (!HasChild(old(proc[..]), me) || old(proc[me].killed))
    {
      var havekids, i := false, 0;
      while i < proc.Length
        invariant 0 <= i <= proc.Length && proc[..] == old(proc[..])
        invariant havekids <==> exists j :: 0 <= j < i && old(proc[..])[j].parent == Some(me)
        invariant forall j :: 0 <= j < i && old(proc[..])[j].parent == Some(me) ==> old(proc[..])[j].state != ZOMBIE
      {
        if proc[i].parent == Some(me) {
          havekids := true;
          assert old(proc[..])[i].parent == Some(me);
          if proc[i].state == ZOMBIE {
            var pid := proc[i].pid;
            proc[i] := Proc(UNUSED, 0, None, proc[i].chan, false);
            return Reap(i, pid);
          }
        }
        i := i + 1;
      }
      return if !havekids || proc[me].killed then NoChildren else MustSleep;
    }

    method Kill(pid: nat) returns (found: bool)
      modifies proc
      ensures proc[..] == Killed(old(proc[..]), pid)
      ensures found <==> exists i :: 0 <= i < proc.Length && old(proc[..])[i].pid == pid
      ensures forall i :: 0 <= i < proc.Length ==>
                if old(proc[i].pid) == pid && (forall j :: 0 <= j < i ==> old(proc[j].pid) != pid)
                then proc[i] == old(proc[i]).(killed := true, state := proc[i].state)
                     && proc[i].state == (if old(proc[i].state) == SLEEPING then RUNNABLE else old(proc[i].state))
                else proc[i] == old(proc[i])
    {
      var i := 0;
      while i < proc.Length
        invariant 0 <= i <= proc.Length && proc[..] == old(proc[..])
        invariant forall j :: 0 <= j < i ==> old(proc[..])[j].pid != pid
      {
        if proc[i].pid == pid {
          KilledFirst(old(proc[..]), pid, i);
          assert old(proc[..])[i].pid == pid;
          proc[i] := proc[i].(killed := true, state := if proc[i].state == SLEEPING then RUNNABLE else proc[i].state);
          return true;
        }
        i := i + 1;
      }
      KilledNone(old(proc[..]), pid);
      return false;
    }
  }

  lemma {:induction false} KilledFirst(ps: seq<Proc>, pid: nat, i: nat)
    requires i < |ps| && ps[i].pid == pid && forall j :: 0 <= j < i ==> ps[j].pid != pid
    ensures Killed(ps, pid) == ps[i := ps[i].(killed := true, state := if ps[i].state == SLEEPING then RUNNABLE else ps[i].state)]
  {
    if i > 0 {
      KilledFirst(ps[1..], pid, i - 1);
    }
  }

  lemma {:induction false} KilledNone(ps: seq<Proc>, pid: nat)
    requires forall j :: 0 <= j < |ps| ==> ps[j].pid != pid
    ensures Killed(ps, pid) == ps
  {
    if ps != [] {
      KilledNone(ps[1..], pid);
    }
  }

  lemma ExitOneMore(ps: seq<Proc>, me: nat, init: nat, k: nat)
    requires k < |ps|
    ensures var p := ExitSoFar(ps, me, init, k);
            ExitSoFar(ps, me, init, k + 1) ==
            if p[k].parent != Some(me) then p
            else if p[k].state != ZOMBIE then p[k := p[k].(parent := Some(init))]
            else Wakeup1(p[k := p[k].(parent := Some(init))], OnProc(init))
  {
    assert ps[..k + 1] == ps[..k] + [ps[k]];
    assert HasZombie(ps[..k + 1], me) <==> HasZombie(ps[..k], me) || (ps[k].parent == Some(me) && ps[k].state == ZOMBIE) by {
      if HasZombie(ps[..k], me) {
        var i :| 0 <= i < k && ps[..k][i].parent == Some(me) && ps[..k][i].state == ZOMBIE;
        assert ps[..k + 1][i] == ps[..k][i];
      }
      if ps[k].parent == Some(me) && ps[k].state == ZOMBIE { assert ps[..k + 1][k] == ps[k]; }
    }
    var p, q := ExitSoFar(ps, me, init, k), ExitSoFar(ps, me, init, k + 1);
    forall i | 0 <= i < |ps|
      ensures q[i] == (if p[k].parent != Some(me) then p
                       else if p[k].state != ZOMBIE then p[k := p[k].(parent := Some(init))]
                       else Wakeup1(p[k := p[k].(parent := Some(init))], OnProc(init)))[i]
    {
    }
  }

  lemma EachSlot(ps: seq<Proc>, me: nat, init: nat)
    requires me < |ps| && ps[me].parent.Some?
    ensures forall i :: 0 <= i < |ps| ==> AfterExit(ps, me, init, i, Exited(ps, me, init)[i])
  {
    var ps1 := Wakeup1(ps, OnProc(ps[me].parent.value));
    assert HasZombie(ps1, me) <==> HasZombie(ps, me) by {
      if HasZombie(ps, me) {
        var j :| 0 <= j < |ps| && ps[j].parent == Some(me) && ps[j].state == ZOMBIE;
        assert ps1[j].parent == Some(me) && ps1[j].state == ZOMBIE;
      }
      if HasZombie(ps1, me) {
        var j :| 0 <= j < |ps1| && ps1[j].parent == Some(me) && ps1[j].state == ZOMBIE;
        assert ps[j].parent == Some(me) && ps[j].state == ZOMBIE;
      }
    }
  }

  lemma ExitDone(ps: seq<Proc>, me: nat, init: nat)
    ensures ExitSoFar(ps, me, init, |ps|) == Orphaned(if HasZombie(ps, me) then Wakeup1(ps, OnProc(init)) else ps, me, init)
  {
    assert ps[..|ps|] == ps;
  }
}
