/**
 The process table (proc.c) as a step system: one step is one section under ptable.lock, or
 one unlocked write of fork to a slot that only it can reach.
 */
module ProcTable {
  import opened Common

  datatype State = UNUSED | EMBRYO | SLEEPING | RUNNABLE | RUNNING | ZOMBIE

  /** What a process sleeps on: a process structure (wait sleeps on its own) or anything else. */
  datatype Chan = Nothing | OnProc(slot: nat) | Other(addr: nat)

  datatype Proc = Proc(state: State, pid: nat, parent: Option<nat>, chan: Chan, killed: bool)

  /**
   `forking`: processes inside fork, with the slot each has taken; `cpus`: what each cpu runs;
   `reaped`: the pids wait has returned, in order.
   */
  datatype Table = Table(procs: seq<Proc>, nextpid: nat, init: nat, forking: map<nat, nat>, cpus: map<nat, nat>, reaped: seq<nat>)
  {
    predicate Shape() { |procs| == NPROC && init < NPROC }
    predicate Running(c: nat) { c in cpus && cpus[c] < |procs| && procs[cpus[c]].state.RUNNING? }
  }

  // ---------------------------------------------------------------- what the loops over the table compute

  function Wakeup1(ps: seq<Proc>, chan: Chan): (r: seq<Proc>)
    ensures |r| == |ps|
  {
    seq(|ps|, i requires 0 <= i < |ps| => Woken(ps[i], chan))
  }

  function Woken(p: Proc, chan: Chan): Proc {
    if p.state == SLEEPING && p.chan == chan then p.(state := RUNNABLE) else p
  }

  /** exit: wake the parent, hand the children to init waking it for a zombie, become a zombie. */
  function Exited(ps: seq<Proc>, me: nat, init: nat): (r: seq<Proc>)
    requires me < |ps|
    ensures |r| == |ps|
  {
    var ps1 := match ps[me].parent { case Some(q) => Wakeup1(ps, OnProc(q)) case None => ps };
    var ps2 := if HasZombie(ps1, me) then Wakeup1(ps1, OnProc(init)) else ps1;
    Orphaned(ps2, me, init)[me := Orphaned(ps2, me, init)[me].(state := ZOMBIE)]
  }

  predicate HasZombie(ps: seq<Proc>, me: nat) {
    exists i :: 0 <= i < |ps| && ps[i].parent == Some(me) && ps[i].state == ZOMBIE
  }

  predicate HasChild(ps: seq<Proc>, me: nat) {
    exists i :: 0 <= i < |ps| && ps[i].parent == Some(me)
  }

  function Orphaned(ps: seq<Proc>, me: nat, init: nat): (r: seq<Proc>)
    ensures |r| == |ps|
  {
    seq(|ps|, i requires 0 <= i < |ps| => if ps[i].parent == Some(me) then ps[i].(parent := Some(init)) else ps[i])
  }

  function Reaped(p: Proc): Proc { Proc(UNUSED, 0, None, p.chan, false) }

  // ---------------------------------------------------------------- steps

  datatype Step =
    | AllocProc(c: nat, slot: nat)        // fork on cpu c takes a free slot
    | AllocFail(c: nat)                   // no memory: the slot is given back
    | SetParent(c: nat)
    | StartChild(c: nat)
    | Exit(c: nat)
    | WaitReap(c: nat, slot: nat)
    | WaitSleep(c: nat)
    | Sleep(c: nat, addr: nat)
    | Wakeup(addr: nat)
    | Kill(pid: nat)
    | Yield(c: nat)
    | Dispatch(c: nat, slot: nat)

  predicate Enabled(t: Table, step: Step)
    requires t.Shape()
  {
    match step
    case AllocProc(c, slot) =>
      t.Running(c) && t.cpus[c] !in t.forking && slot < NPROC && t.procs[slot].state == UNUSED
    case AllocFail(c) => t.Running(c) && InFork(t, c) && t.procs[t.forking[t.cpus[c]]].parent.None?
    case SetParent(c) => t.Running(c) && InFork(t, c) && t.procs[t.forking[t.cpus[c]]].parent.None?
    case StartChild(c) => t.Running(c) && InFork(t, c) && t.procs[t.forking[t.cpus[c]]].parent == Some(t.cpus[c])
    case Exit(c) => t.Running(c) && t.cpus[c] !in t.forking && t.cpus[c] != t.init
    case WaitReap(c, slot) =>
      && t.Running(c) && t.cpus[c] !in t.forking && slot < NPROC
      && t.procs[slot].parent == Some(t.cpus[c]) && t.procs[slot].state == ZOMBIE
    case WaitSleep(c) =>
      && t.Running(c) && t.cpus[c] !in t.forking
      && !HasZombie(t.procs, t.cpus[c]) && HasChild(t.procs, t.cpus[c]) && !t.procs[t.cpus[c]].killed
    case Sleep(c, _) => t.Running(c)
    case Wakeup(_) => true
    case Kill(pid) => true
    case Yield(c) => t.Running(c)
    case Dispatch(c, slot) => c !in t.cpus && slot < NPROC && t.procs[slot].state == RUNNABLE
  }

  predicate InFork(t: Table, c: nat) {
    c in t.cpus && t.cpus[c] in t.forking && t.forking[t.cpus[c]] < |t.procs|
  }

  /** The first process with this pid is marked killed and woken. */
  function Killed(ps: seq<Proc>, pid: nat): (r: seq<Proc>)
    ensures |r| == |ps|
  {
    if ps == [] then [] else
    if ps[0].pid == pid then [ps[0].(killed := true, state := if ps[0].state == SLEEPING then RUNNABLE else ps[0].state)] + ps[1..]
    else [ps[0]] + Killed(ps[1..], pid)
  }

  function Apply(t: Table, step: Step): Table
    requires t.Shape() && Enabled(t, step)
  {
    match step
    case AllocProc(c, slot) =>
      t.(procs := t.procs[slot := t.procs[slot].(state := EMBRYO, pid := t.nextpid)], nextpid := t.nextpid + 1,
         forking := t.forking[t.cpus[c] := slot])
    case AllocFail(c) => Update(t, t.forking[t.cpus[c]], t.procs[t.forking[t.cpus[c]]].(state := UNUSED)).(forking := t.forking - {t.cpus[c]})
    case SetParent(c) => Update(t, t.forking[t.cpus[c]], t.procs[t.forking[t.cpus[c]]].(parent := Some(t.cpus[c])))
    case StartChild(c) => Update(t, t.forking[t.cpus[c]], t.procs[t.forking[t.cpus[c]]].(state := RUNNABLE)).(forking := t.forking - {t.cpus[c]})
    case Exit(c) => t.(procs := Exited(t.procs, t.cpus[c], t.init), cpus := t.cpus - {c})
    case WaitReap(c, slot) => Update(t, slot, Reaped(t.procs[slot])).(reaped := t.reaped + [t.procs[slot].pid])
    case WaitSleep(c) => Update(t, t.cpus[c], t.procs[t.cpus[c]].(state := SLEEPING, chan := OnProc(t.cpus[c]))).(cpus := t.cpus - {c})
    case Sleep(c, addr) => Update(t, t.cpus[c], t.procs[t.cpus[c]].(state := SLEEPING, chan := Other(addr))).(cpus := t.cpus - {c})
    case Wakeup(addr) => t.(procs := Wakeup1(t.procs, Other(addr)))
    case Kill(pid) => t.(procs := Killed(t.procs, pid))
    case Yield(c) => Update(t, t.cpus[c], t.procs[t.cpus[c]].(state := RUNNABLE)).(cpus := t.cpus - {c})
    case Dispatch(c, slot) => Update(t, slot, t.procs[slot].(state := RUNNING)).(cpus := t.cpus[c := slot])
  }

  function Update(t: Table, i: nat, p: Proc): Table
    requires i < |t.procs|
  {
    t.(procs := t.procs[i := p])
  }

  // ---------------------------------------------------------------- invariants

  predicate Active(s: State) { s == SLEEPING || s == RUNNABLE || s == RUNNING }

  /** A live process: it has been started and has not exited. */
  predicate Alive(t: Table, i: nat) { i < |t.procs| && Active(t.procs[i].state) }

  /** A parent is alive; every process but init has one, once it is started. */
  predicate ParentOk(t: Table, i: nat)
    requires i < |t.procs|
  {
    && (t.procs[i].parent.Some? ==> Alive(t, t.procs[i].parent.value) && t.procs[i].parent.value != i && t.procs[i].state != UNUSED)
    && (i != t.init && t.procs[i].state != UNUSED && t.procs[i].state != EMBRYO ==> t.procs[i].parent.Some?)
  }

  predicate ParentsOk(t: Table) {
    && Alive(t, t.init) && t.procs[t.init].parent.None?
    && (forall i :: 0 <= i < |t.procs| ==> ParentOk(t, i))
  }

  /** It does not sleep in wait over a zombie child. */
  predicate WaiterOk(t: Table, i: nat)
    requires i < |t.procs|
  {
    t.procs[i].state == SLEEPING && t.procs[i].chan == OnProc(i) ==> !HasZombie(t.procs, i)
  }

  predicate WaitersOk(t: Table) { forall i :: 0 <= i < |t.procs| ==> WaiterOk(t, i) }

  /** An embryo belongs to the one process that is forking it. */
  predicate ForkingOk(t: Table) {
    && (forall p :: p in t.forking ==> ForkOk(t, p))
    && (forall p, q :: p in t.forking && q in t.forking && t.forking[p] == t.forking[q] ==> p == q)
    && (forall i :: 0 <= i < |t.procs| ==> EmbryoOk(t, i))
  }

  predicate ForkOk(t: Table, p: nat)
    requires p in t.forking
  {
    var i := t.forking[p];
    && Alive(t, p)
    && i < |t.procs| && t.procs[i].state == EMBRYO && (t.procs[i].parent.None? || t.procs[i].parent.value == p)
  }

  predicate EmbryoOk(t: Table, i: nat)
    requires i < |t.procs|
  {
    t.procs[i].state == EMBRYO ==> exists p :: p in t.forking && t.forking[p] == i
  }

  /** Pids are never shared, and a reaped pid never comes back. */
  predicate PidsOk(t: Table) {
    && (forall i :: 0 <= i < |t.procs| ==> PidOk(t, i))
    && (forall i, j :: 0 <= i < j < |t.procs| ==> PidsDiffer(t.procs[i], t.procs[j]))
    && (forall k :: 0 <= k < |t.reaped| ==> t.reaped[k] < t.nextpid)
    && (forall j, k :: 0 <= j < k < |t.reaped| ==> t.reaped[j] != t.reaped[k])
  }

  predicate PidOk(t: Table, i: nat)
    requires i < |t.procs|
  {
    t.procs[i].state != UNUSED ==> t.procs[i].pid < t.nextpid && t.procs[i].pid !in t.reaped
  }

  predicate PidsDiffer(p: Proc, q: Proc) { p.state != UNUSED && q.state != UNUSED ==> p.pid != q.pid }

  /** A process is RUNNING exactly while one cpu runs it, and then only one. */
  predicate CpusOk(t: Table) {
    && (forall c :: c in t.cpus ==> t.Running(c))
    && (forall c, e :: c in t.cpus && e in t.cpus && t.cpus[c] == t.cpus[e] ==> c == e)
    && (forall i :: 0 <= i < |t.procs| ==> CpuOk(t, i))
  }

  predicate CpuOk(t: Table, i: nat)
    requires i < |t.procs|
  {
    t.procs[i].state == RUNNING ==> exists c :: c in t.cpus && t.cpus[c] == i
  }

  predicate Inv(t: Table) {
    t.Shape() && ParentsOk(t) && WaitersOk(t) && ForkingOk(t) && PidsOk(t) && CpusOk(t)
  }

  // ---------------------------------------------------------------- steps that only move a process between
  // ---------------------------------------------------------------- sleeping, runnable and running

  predicate SameMode(p: Proc, q: Proc) {
    p.parent == q.parent && p.pid == q.pid && (p.state == q.state || (Active(p.state) && Active(q.state)))
  }

  predicate Benign(t: Table, t': Table) {
    && |t'.procs| == |t.procs| && t'.init == t.init && t'.nextpid == t.nextpid && t'.forking == t.forking
    && t'.reaped == t.reaped
    && forall i :: 0 <= i < |t.procs| ==> SameMode(t.procs[i], t'.procs[i])
  }

  lemma BenignKeeps(t: Table, t': Table)
    requires Inv(t) && Benign(t, t')
    ensures t'.Shape() && ParentsOk(t') && ForkingOk(t') && PidsOk(t')
    ensures forall i :: HasZombie(t'.procs, i) <==> HasZombie(t.procs, i)
  {
    hide WaitersOk, CpusOk;
    forall i | 0 <= i < |t.procs|
      ensures ParentOk(t', i) && EmbryoOk(t', i) && PidOk(t', i)
    {
      assert SameMode(t.procs[i], t'.procs[i]);
      assert ParentOk(t, i) && EmbryoOk(t, i) && PidOk(t, i);
    }
    forall p | p in t.forking
      ensures ForkOk(t', p)
    {
      assert ForkOk(t, p);
    }
  }

  /** Nobody starts or stops running. */
  predicate SameCpus(t: Table, t': Table) {
    && t'.cpus == t.cpus && |t'.procs| == |t.procs|
    && forall i :: 0 <= i < |t.procs| ==> (t'.procs[i].state == RUNNING <==> t.procs[i].state == RUNNING)
  }

  lemma SameCpusKeeps(t: Table, t': Table)
    requires CpusOk(t) && SameCpus(t, t')
    ensures CpusOk(t')
  {
    assert forall c :: c in t.cpus ==> t.Running(c);
    forall i | 0 <= i < |t.procs|
      ensures CpuOk(t', i)
    {
      assert CpuOk(t, i);
    }
  }

  /** The process on cpu c gives it up. */
  lemma OffCpu(t: Table, t': Table, c: nat)
    requires CpusOk(t) && c in t.cpus && t'.cpus == t.cpus - {c} && |t'.procs| == |t.procs|
    requires t.cpus[c] < |t.procs| && t'.procs[t.cpus[c]].state != RUNNING
    requires forall i :: 0 <= i < |t.procs| && i != t.cpus[c] ==> (t'.procs[i].state == RUNNING <==> t.procs[i].state == RUNNING)
    ensures CpusOk(t')
  {
    forall e | e in t'.cpus
      ensures t'.Running(e)
    {
      assert t.Running(e);
    }
    forall i | 0 <= i < |t.procs|
      ensures CpuOk(t', i)
    {
      assert CpuOk(t, i);
      if t'.procs[i].state == RUNNING {
        var e :| e in t.cpus && t.cpus[e] == i;
        assert e in t'.cpus;
      }
    }
  }

  /** Waiters stay fine when nobody new goes to sleep in wait. */
  lemma WaitersKept(t: Table, t': Table)
    requires WaitersOk(t) && |t'.procs| == |t.procs|
    requires forall i :: HasZombie(t'.procs, i) ==> HasZombie(t.procs, i)
    requires forall i :: 0 <= i < |t.procs| && t'.procs[i].state == SLEEPING && t'.procs[i].chan == OnProc(i) ==>
      (t.procs[i].state == SLEEPING && t.procs[i].chan == OnProc(i)) || !HasZombie(t.procs, i)
    ensures WaitersOk(t')
  {
    forall i | 0 <= i < |t.procs|
      ensures WaiterOk(t', i)
    {
      assert WaiterOk(t, i);
    }
  }

  lemma SleepStep(t: Table, step: Step)
    requires Inv(t) && Enabled(t, step) && (step.Sleep? || step.WaitSleep? || step.Yield?)
    ensures Inv(Apply(t, step))
  {
    hide ParentsOk, ForkingOk, PidsOk, WaitersOk, CpusOk, HasZombie;
    var t' := Apply(t, step);
    assert Benign(t, t');
    BenignKeeps(t, t');
    OffCpu(t, t', step.c);
    WaitersKept(t, t');
  }

  lemma DispatchStep(t: Table, step: Step)
    requires Inv(t) && Enabled(t, step) && step.Dispatch?
    ensures Inv(Apply(t, step))
  {
    hide ParentsOk, ForkingOk, PidsOk, WaitersOk, HasZombie;
    var t' := Apply(t, step);
    assert Benign(t, t');
    BenignKeeps(t, t');
    WaitersKept(t, t');
    forall c | c in t'.cpus
      ensures t'.Running(c)
    {
      if c != step.c { assert t.Running(c); }
    }
    forall i | 0 <= i < |t.procs|
      ensures CpuOk(t', i)
    {
      assert CpuOk(t, i);
      if i == step.slot {
        assert step.c in t'.cpus && t'.cpus[step.c] == i;
      } else if t'.procs[i].state == RUNNING {
        var c :| c in t.cpus && t.cpus[c] == i;
        assert c in t'.cpus && t'.cpus[c] == i;
      }
    }
  }

  lemma {:induction false} KilledAt(ps: seq<Proc>, pid: nat, i: nat)
    requires i < |ps|
    ensures Killed(ps, pid)[i] == ps[i] || Killed(ps, pid)[i] == ps[i].(killed := true)
            || (ps[i].state == SLEEPING && Killed(ps, pid)[i] == ps[i].(killed := true, state := RUNNABLE))
  {
    if ps[0].pid != pid && i > 0 {
      KilledAt(ps[1..], pid, i - 1);
    }
  }

  lemma WakeStep(t: Table, step: Step)
    requires Inv(t) && Enabled(t, step) && (step.Wakeup? || step.Kill?)
    ensures Inv(Apply(t, step))
  {
    hide ParentsOk, ForkingOk, PidsOk, WaitersOk, CpusOk, HasZombie, Killed;
    var t' := Apply(t, step);
    forall i | 0 <= i < |t.procs|
      ensures SameMode(t.procs[i], t'.procs[i]) && (t'.procs[i].state == RUNNING <==> t.procs[i].state == RUNNING)
      ensures t'.procs[i].chan == t.procs[i].chan && (t'.procs[i].state == SLEEPING ==> t.procs[i].state == SLEEPING)
    {
      if step.Kill? { KilledAt(t.procs, step.pid, i); }
    }
    BenignKeeps(t, t');
    WaitersKept(t, t');
    SameCpusKeeps(t, t');
  }

  // ---------------------------------------------------------------- fork

  lemma AllocSlots(t: Table, step: Step, i: nat)
    requires Inv(t) && Enabled(t, step) && step.AllocProc? && i < |t.procs|
    ensures var t' := Apply(t, step); |t'.procs| == |t.procs| && ParentOk(t', i) && EmbryoOk(t', i) && PidOk(t', i)
  {
    hide HasZombie, CpusOk, WaitersOk;
    var t', me, slot := Apply(t, step), t.cpus[step.c], step.slot;
    assert ParentOk(t, slot) && EmbryoOk(t, slot) && PidOk(t, slot);
    assert ParentOk(t, i) && EmbryoOk(t, i) && PidOk(t, i);
    if i == slot {
      assert me in t'.forking && t'.forking[me] == i;
    } else if t.procs[i].state == EMBRYO {
      var p :| p in t.forking && t.forking[p] == i;
      assert p in t'.forking && t'.forking[p] == i;
    }
  }

  lemma AllocForks(t: Table, step: Step, p: nat)
    requires Inv(t) && Enabled(t, step) && step.AllocProc? && p in Apply(t, step).forking
    ensures ForkOk(Apply(t, step), p)
    ensures p != t.cpus[step.c] ==> Apply(t, step).forking[p] != step.slot
  {
    hide HasZombie, CpusOk, WaitersOk;
    var me := t.cpus[step.c];
    assert ParentOk(t, step.slot);
    if p != me { assert ForkOk(t, p); }
  }

  lemma AllocPids(t: Table, step: Step, i: nat, j: nat)
    requires Inv(t) && Enabled(t, step) && step.AllocProc? && i < j < |t.procs|
    ensures var t' := Apply(t, step); |t'.procs| == |t.procs| && PidsDiffer(t'.procs[i], t'.procs[j])
  {
    hide HasZombie, CpusOk, WaitersOk, ForkingOk, ParentsOk;
    assert PidsDiffer(t.procs[i], t.procs[j]) && PidOk(t, i) && PidOk(t, j);
  }

  lemma AllocStep(t: Table, step: Step)
    requires Inv(t) && Enabled(t, step) && step.AllocProc?
    ensures Inv(Apply(t, step))
  {
    hide HasZombie, CpusOk, WaitersOk, ParentOk, EmbryoOk, PidOk, ForkOk, PidsDiffer;
    var t' := Apply(t, step);
    SameZombies(t, t');
    WaitersKept(t, t');
    SameCpusKeeps(t, t');
    forall i | 0 <= i < |t'.procs|
      ensures ParentOk(t', i) && EmbryoOk(t', i) && PidOk(t', i)
    {
      AllocSlots(t, step, i);
    }
    forall p | p in t'.forking
      ensures ForkOk(t', p) && (p != t.cpus[step.c] ==> t'.forking[p] != step.slot)
    {
      AllocForks(t, step, p);
    }
    forall i, j | 0 <= i < j < |t'.procs|
      ensures PidsDiffer(t'.procs[i], t'.procs[j])
    {
      AllocPids(t, step, i, j);
    }
  }

  lemma SameZombies(t: Table, t': Table)
    requires |t'.procs| == |t.procs|
    requires forall i :: 0 <= i < |t.procs| && t'.procs[i].state == ZOMBIE ==>
      t.procs[i].state == ZOMBIE && t'.procs[i].parent == t.procs[i].parent
    ensures forall i :: HasZombie(t'.procs, i) ==> HasZombie(t.procs, i)
  {
  }

  /** The slot fork holds: nobody's parent, and reached through `forking` only by its owner. */
  lemma EmbryoAlone(t: Table, me: nat)
    requires Inv(t) && me in t.forking
    ensures ForkOk(t, me) && forall i :: 0 <= i < |t.procs| ==> t.procs[i].parent != Some(t.forking[me])
  {
    hide WaitersOk, PidsOk, CpusOk;
    var slot := t.forking[me];
    assert ForkOk(t, me);
    forall i | 0 <= i < |t.procs|
      ensures t.procs[i].parent != Some(slot)
    {
      assert ParentOk(t, i);
    }
  }

  /** No slot becomes used, and used slots keep their pids. */
  lemma PidsKept(t: Table, t': Table)
    requires PidsOk(t) && |t'.procs| == |t.procs| && t'.nextpid == t.nextpid && t'.reaped == t.reaped
    requires forall i :: 0 <= i < |t.procs| && t'.procs[i].state != UNUSED ==> t.procs[i].state != UNUSED && t'.procs[i].pid == t.procs[i].pid
    ensures PidsOk(t')
  {
    forall i | 0 <= i < |t.procs|
      ensures PidOk(t', i)
    {
      assert PidOk(t, i);
    }
    forall i, j | 0 <= i < j < |t.procs|
      ensures PidsDiffer(t'.procs[i], t'.procs[j])
    {
      assert PidsDiffer(t.procs[i], t.procs[j]);
    }
  }

  lemma ForkingWithout(t: Table, t': Table, me: nat)
    requires ForkingOk(t) && me in t.forking && t'.forking == t.forking - {me} && |t'.procs| == |t.procs|
    requires forall i :: 0 <= i < |t.procs| && i != t.forking[me] ==> t'.procs[i] == t.procs[i]
    requires t.forking[me] < |t.procs|
    requires (Active(t'.procs[t.forking[me]].state) || t'.procs[t.forking[me]].state == UNUSED)
    ensures ForkingOk(t')
  {
    assert ForkOk(t, me);
    forall p | p in t'.forking
      ensures ForkOk(t', p)
    {
      assert ForkOk(t, p);
    }
    forall i | 0 <= i < |t.procs|
      ensures EmbryoOk(t', i)
    {
      assert EmbryoOk(t, i);
      if t'.procs[i].state == EMBRYO {
        var p :| p in t.forking && t.forking[p] == i;
        assert p in t'.forking && t'.forking[p] == i;
      }
    }
  }

  /** StartChild and AllocFail: the slot leaves the fork, in a state other than EMBRYO. */
  lemma ForkDone(t: Table, t': Table, me: nat)
    requires Inv(t) && me in t.forking && t.forking[me] < |t.procs|
    requires |t'.procs| == |t.procs|
    requires t' == Update(t, t.forking[me], t'.procs[t.forking[me]]).(forking := t.forking - {me})
    requires t'.procs[t.forking[me]].parent == t.procs[t.forking[me]].parent
    requires t'.procs[t.forking[me]].pid == t.procs[t.forking[me]].pid
    requires t'.procs[t.forking[me]].state == if t.procs[t.forking[me]].parent.None? then UNUSED else RUNNABLE
    ensures Inv(t')
  {
    hide HasZombie, CpusOk, WaitersOk, PidsOk, ForkingOk;
    var slot := t.forking[me];
    EmbryoAlone(t, me);
    SameZombies(t, t');
    WaitersKept(t, t');
    SameCpusKeeps(t, t');
    PidsKept(t, t');
    ForkingWithout(t, t', me);
    forall i | 0 <= i < |t.procs|
      ensures ParentOk(t', i)
    {
      assert ParentOk(t, i);
    }
  }

  lemma SetParentSlots(t: Table, step: Step, i: nat)
    requires Inv(t) && Enabled(t, step) && step.SetParent? && i < |t.procs|
    ensures var t' := Apply(t, step); |t'.procs| == |t.procs| && ParentOk(t', i) && EmbryoOk(t', i)
  {
    hide HasZombie, CpusOk, WaitersOk, PidsOk;
    EmbryoAlone(t, t.cpus[step.c]);
    assert ParentOk(t, i) && EmbryoOk(t, i);
  }

  lemma SetParentStep(t: Table, step: Step)
    requires Inv(t) && Enabled(t, step) && step.SetParent?
    ensures Inv(Apply(t, step))
  {
    hide HasZombie, CpusOk, WaitersOk, PidsOk, ParentOk, EmbryoOk;
    var t' := Apply(t, step);
    EmbryoAlone(t, t.cpus[step.c]);
    SameZombies(t, t');
    WaitersKept(t, t');
    SameCpusKeeps(t, t');
    PidsKept(t, t');
    forall i | 0 <= i < |t'.procs|
      ensures ParentOk(t', i) && EmbryoOk(t', i)
    {
      SetParentSlots(t, step, i);
    }
    forall p | p in t'.forking
      ensures ForkOk(t', p)
    {
      assert ForkOk(t, p);
    }
  }

  lemma ForkStep(t: Table, step: Step)
    requires Inv(t) && Enabled(t, step) && (step.AllocFail? || step.StartChild?)
    ensures Inv(Apply(t, step))
  {
    hide ParentsOk, ForkingOk, PidsOk, WaitersOk, CpusOk;
    ForkDone(t, Apply(t, step), t.cpus[step.c]);
  }

  // ---------------------------------------------------------------- wait and exit

  lemma ReapStep(t: Table, step: Step)
    requires Inv(t) && Enabled(t, step) && step.WaitReap?
    ensures Inv(Apply(t, step))
  {
    hide HasZombie, CpusOk, WaitersOk;
    var t', slot := Apply(t, step), step.slot;
    SameZombies(t, t');
    WaitersKept(t, t');
    SameCpusKeeps(t, t');
    forall i | 0 <= i < |t.procs|
      ensures ParentOk(t', i) && EmbryoOk(t', i) && PidOk(t', i)
    {
      assert ParentOk(t, i) && EmbryoOk(t, i) && PidOk(t, i) && PidOk(t, slot);
      assert i < slot ==> PidsDiffer(t.procs[i], t.procs[slot]);
      assert slot < i ==> PidsDiffer(t.procs[slot], t.procs[i]);
    }
    forall p | p in t'.forking
      ensures ForkOk(t', p)
    {
      assert ForkOk(t, p);
    }
    forall i, j | 0 <= i < j < |t.procs|
      ensures PidsDiffer(t'.procs[i], t'.procs[j])
    {
      assert PidsDiffer(t.procs[i], t.procs[j]);
    }
    assert PidOk(t, slot);
  }

  /** exit, slot by slot. */
  lemma ExitedAt(ps: seq<Proc>, me: nat, init: nat, i: nat)
    requires me < |ps| && i < |ps| && ps[me].parent.Some?
    ensures var p, q := ps[i], Exited(ps, me, init)[i];
            && q.pid == p.pid && q.chan == p.chan
            && q.parent == (if p.parent == Some(me) then Some(init) else p.parent)
            && (i == me ==> q.state == ZOMBIE)
            && (i != me ==> q.state == p.state || (p.state == SLEEPING && q.state == RUNNABLE))
            && (i != me && q.state == SLEEPING ==>
                  p.chan != OnProc(ps[me].parent.value) && (HasZombie(ps, me) ==> p.chan != OnProc(init)))
  {
    var ps1 := Wakeup1(ps, OnProc(ps[me].parent.value));
    assert HasZombie(ps1, me) <==> HasZombie(ps, me) by {
      if HasZombie(ps, me) {
        var j :| 0 <= j < |ps| && ps[j].parent == Some(me) && ps[j].state == ZOMBIE;
        assert ps1[j] == ps[j];
      }
      if HasZombie(ps1, me) {
        var j :| 0 <= j < |ps1| && ps1[j].parent == Some(me) && ps1[j].state == ZOMBIE;
        assert ps[j] == ps1[j];
      }
    }
  }

  /** What ExitedAt says of every slot. */
  predicate ExitSlots(t: Table, t': Table, me: nat) {
    && me < |t.procs| == |t'.procs| && t.procs[me].parent.Some?
    && forall i :: 0 <= i < |t.procs| ==> ExitSlot(t, t'.procs[i], me, i)
  }

  predicate ExitSlot(t: Table, q: Proc, me: nat, i: nat)
    requires me < |t.procs| && t.procs[me].parent.Some? && i < |t.procs|
  {
    var p := t.procs[i];
    && q.pid == p.pid && q.chan == p.chan
    && q.parent == (if p.parent == Some(me) then Some(t.init) else p.parent)
    && (i == me ==> q.state == ZOMBIE)
    && (i != me ==> q.state == p.state || (p.state == SLEEPING && q.state == RUNNABLE))
    && (i != me && q.state == SLEEPING ==>
          p.chan != OnProc(t.procs[me].parent.value) && (HasZombie(t.procs, me) ==> p.chan != OnProc(t.init)))
  }

  lemma ExitParents(t: Table, t': Table, me: nat)
    requires t.Shape() && ParentsOk(t) && ExitSlots(t, t', me) && me != t.init && t'.init == t.init
    requires Active(t.procs[me].state)
    ensures ParentsOk(t')
  {
    hide HasZombie;
    assert ExitSlot(t, t'.procs[t.init], me, t.init);
    forall i | 0 <= i < |t.procs|
      ensures ParentOk(t', i)
    {
      assert ParentOk(t, i) && ExitSlot(t, t'.procs[i], me, i);
      if t.procs[i].parent.Some? && t.procs[i].parent.value != me {
        var q := t.procs[i].parent.value;
        assert ExitSlot(t, t'.procs[q], me, q);
      }
    }
  }

  lemma ExitWaiters(t: Table, t': Table, me: nat)
    requires t.Shape() && ParentsOk(t) && WaitersOk(t) && ExitSlots(t, t', me) && t'.init == t.init
    requires Active(t.procs[me].state)
    ensures WaitersOk(t')
  {
    forall i | 0 <= i < |t.procs|
      ensures WaiterOk(t', i)
    {
      assert ExitSlot(t, t'.procs[i], me, i) && WaiterOk(t, i);
      forall j | 0 <= j < |t.procs| && t'.procs[j].parent == Some(i) && t'.procs[j].state == ZOMBIE
        ensures !(t'.procs[i].state == SLEEPING && t'.procs[i].chan == OnProc(i))
      {
        assert ExitSlot(t, t'.procs[j], me, j) && ParentOk(t, me) && ParentOk(t, j);
        if j != me {
          assert t.procs[j].state == ZOMBIE;
          if t.procs[j].parent == Some(me) {
            assert HasZombie(t.procs, me);
          } else {
            assert HasZombie(t.procs, i);
          }
        }
      }
    }
  }

  lemma ExitForking(t: Table, t': Table, me: nat)
    requires ForkingOk(t) && ExitSlots(t, t', me) && t'.forking == t.forking && me !in t.forking
    requires t.procs[me].state == RUNNING
    ensures ForkingOk(t')
  {
    hide HasZombie;
    forall p | p in t.forking
      ensures ForkOk(t', p)
    {
      assert ForkOk(t, p);
      assert ExitSlot(t, t'.procs[p], me, p) && ExitSlot(t, t'.procs[t.forking[p]], me, t.forking[p]);
    }
    forall i | 0 <= i < |t.procs|
      ensures EmbryoOk(t', i)
    {
      assert EmbryoOk(t, i) && ExitSlot(t, t'.procs[i], me, i);
    }
  }

  lemma ExitStep(t: Table, step: Step)
    requires Inv(t) && Enabled(t, step) && step.Exit?
    ensures Inv(Apply(t, step))
  {
    hide HasZombie, ForkingOk, WaitersOk, PidsOk, CpusOk, Exited;
    var t', me := Apply(t, step), t.cpus[step.c];
    assert ParentOk(t, me);
    forall i | 0 <= i < |t.procs|
      ensures ExitSlot(t, t'.procs[i], me, i)
    {
      ExitedAt(t.procs, me, t.init, i);
    }
    ExitParents(t, t', me);
    ExitWaiters(t, t', me);
    ExitForking(t, t', me);
    PidsKept(t, t');
    OffCpu(t, t', step.c);
  }

  lemma AnyStep(t: Table, step: Step)
    requires Inv(t) && Enabled(t, step)
    ensures Inv(Apply(t, step))
  {
    hide Inv, Apply, Enabled;
    match step
    case AllocProc(_, _) => AllocStep(t, step);
    case AllocFail(_) => ForkStep(t, step);
    case SetParent(_) => SetParentStep(t, step);
    case StartChild(_) => ForkStep(t, step);
    case Exit(_) => ExitStep(t, step);
    case WaitReap(_, _) => ReapStep(t, step);
    case WaitSleep(_) => SleepStep(t, step);
    case Sleep(_, _) => SleepStep(t, step);
    case Wakeup(_) => WakeStep(t, step);
    case Kill(_) => WakeStep(t, step);
    case Yield(_) => SleepStep(t, step);
    case Dispatch(_, _) => DispatchStep(t, step);
  }

  // ---------------------------------------------------------------- every run

  /** After userinit: init alone, runnable. */
  predicate Init(t: Table) {
    && t.Shape() && t.forking == map[] && t.cpus == map[] && t.reaped == []
    && t.procs[t.init] == Proc(RUNNABLE, t.procs[t.init].pid, None, t.procs[t.init].chan, false)
    && t.procs[t.init].pid < t.nextpid
    && forall i :: 0 <= i < NPROC && i != t.init ==> t.procs[i].state == UNUSED && t.procs[i].parent.None?
  }

  lemma InitInv(t: Table)
    requires Init(t)
    ensures Inv(t)
  {
  }

  /** Run a schedule; None when a step is not enabled. */
  function Exec(t: Table, steps: seq<Step>): (r: Option<Table>)
    requires Inv(t)
    ensures r.Some? ==> Inv(r.value)
    decreases |steps|
  {
    if steps == [] then Some(t)
    else if !Enabled(t, steps[0]) then None
    else
      AnyStep(t, steps[0]);
      Exec(Apply(t, steps[0]), steps[1..])
  }

  lemma OneCpuEach(t: Table)
    requires Inv(t)
    ensures forall c :: c in t.cpus ==> t.cpus[c] < |t.procs| && t.procs[t.cpus[c]].state == RUNNING
    ensures forall c, e :: c in t.cpus && e in t.cpus && t.cpus[c] == t.cpus[e] ==> c == e
    ensures forall i :: 0 <= i < |t.procs| && t.procs[i].state == RUNNING ==> exists c :: c in t.cpus && t.cpus[c] == i
  {
    hide WaitersOk, ParentsOk, ForkingOk, PidsOk;
    forall c | c in t.cpus
      ensures t.cpus[c] < |t.procs| && t.procs[t.cpus[c]].state == RUNNING
    {
      assert t.Running(c);
    }
    forall i | 0 <= i < |t.procs| && t.procs[i].state == RUNNING
      ensures exists c :: c in t.cpus && t.cpus[c] == i
    {
      assert CpuOk(t, i);
    }
  }

  /**
   In every reachable table: nobody sleeps in wait over a zombie child, a zombie has no
   children, every parent is alive, and no pid is reaped twice or while its process is there.
   */
  lemma FamilyAlways(t0: Table, steps: seq<Step>)
    requires Init(t0) && Inv(t0) && Exec(t0, steps).Some?
    ensures var t := Exec(t0, steps).value;
            && (forall i, j :: 0 <= i < |t.procs| && 0 <= j < |t.procs| && t.procs[j].parent == Some(i) ==>
                  && Active(t.procs[i].state)
                  && !(t.procs[j].state == ZOMBIE && t.procs[i].state == SLEEPING && t.procs[i].chan == OnProc(i)))
            && (forall j, k :: 0 <= j < k < |t.reaped| ==> t.reaped[j] != t.reaped[k])
            && (forall i :: 0 <= i < |t.procs| && t.procs[i].state != UNUSED ==> t.procs[i].pid !in t.reaped)
            && (forall c :: c in t.cpus ==> t.cpus[c] < |t.procs| && t.procs[t.cpus[c]].state == RUNNING)
            && (forall c, e :: c in t.cpus && e in t.cpus && t.cpus[c] == t.cpus[e] ==> c == e)
            && (forall i :: 0 <= i < |t.procs| && t.procs[i].state == RUNNING ==> exists c :: c in t.cpus && t.cpus[c] == i)
  {
    hide Exec;
    var t := Exec(t0, steps).value;
    OneCpuEach(t);
    forall i, j | 0 <= i < |t.procs| && 0 <= j < |t.procs| && t.procs[j].parent == Some(i)
      ensures Active(t.procs[i].state)
      ensures !(t.procs[j].state == ZOMBIE && t.procs[i].state == SLEEPING && t.procs[i].chan == OnProc(i))
    {
      assert ParentOk(t, j) && WaiterOk(t, i);
      assert t.procs[j].state == ZOMBIE ==> HasZombie(t.procs, i);
    }
    forall i | 0 <= i < |t.procs| && t.procs[i].state != UNUSED
      ensures t.procs[i].pid !in t.reaped
    {
      assert PidOk(t, i);
    }
  }

  /** wait returns the pid of a child of the caller, once: it was never returned before. */
  lemma ReapsOwnChildOnce(t: Table, c: nat, slot: nat)
    requires Inv(t) && Enabled(t, WaitReap(c, slot))
    ensures var t' := Apply(t, WaitReap(c, slot));
            && t'.reaped == t.reaped + [t.procs[slot].pid] && t.procs[slot].pid !in t.reaped
            && t.procs[slot].parent == Some(t.cpus[c]) && t'.procs[slot].state == UNUSED && t'.procs[slot].parent.None?
  {
    assert PidOk(t, slot);
  }

  // ---------------------------------------------------------------- sleep and wakeup

  /** wakeup makes every sleeper on the channel runnable, and changes nothing else. */
  lemma WakesAll(t: Table, addr: nat, i: nat)
    requires t.Shape() && i < NPROC
    ensures var p, p' := t.procs[i], Apply(t, Wakeup(addr)).procs[i];
            && (p.state == SLEEPING && p.chan == Other(addr) ==> p' == p.(state := RUNNABLE))
            && (p.state != SLEEPING || p.chan != Other(addr) ==> p' == p)
  {
  }

  /** Process p is asleep now and after every step. */
  predicate AsleepThroughout(t: Table, steps: seq<Step>, p: nat)
    requires Inv(t) && Exec(t, steps).Some? && p < |t.procs|
    decreases |steps|
  {
    && t.procs[p].state == SLEEPING
    && if steps == [] then true else AnyStep(t, steps[0]); AsleepThroughout(Apply(t, steps[0]), steps[1..], p)
  }

  lemma SameChannel(t: Table, step: Step, p: nat)
    requires t.Shape() && Enabled(t, step) && p < NPROC
    requires t.procs[p].state == SLEEPING && Apply(t, step).procs[p].state == SLEEPING
    ensures Apply(t, step).procs[p].chan == t.procs[p].chan
  {
    if step.Kill? { KilledChan(t.procs, step.pid, p); }
  }

  lemma {:induction false} KilledChan(ps: seq<Proc>, pid: nat, i: nat)
    requires i < |ps|
    ensures Killed(ps, pid)[i].chan == ps[i].chan && Killed(ps, pid)[i].pid == ps[i].pid && Killed(ps, pid)[i].parent == ps[i].parent
    ensures ps[i].killed ==> Killed(ps, pid)[i].killed
  {
    if i > 0 { KilledChan(ps[1..], pid, i - 1); }
  }

  lemma {:induction false} KeepsChannel(t: Table, steps: seq<Step>, p: nat)
    requires Inv(t) && Exec(t, steps).Some? && p < |t.procs| && AsleepThroughout(t, steps, p)
    ensures var t' := Exec(t, steps).value; t'.Shape() && t'.procs[p].state == SLEEPING && t'.procs[p].chan == t.procs[p].chan
    decreases |steps|
  {
    hide Apply, Enabled, Inv;
    InvShape(t);
    if steps != [] {
      AnyStep(t, steps[0]);
      var t1 := Apply(t, steps[0]);
      InvShape(t1);
      assert AsleepThroughout(t1, steps[1..], p);
      SameChannel(t, steps[0], p);
      KeepsChannel(t1, steps[1..], p);
    }
  }

  lemma InvShape(t: Table)
    requires Inv(t)
    ensures t.Shape()
  {
  }

  /** Whoever went to sleep on a channel and has slept since is made runnable by a wakeup on it. */
  lemma SleepThenWakeup(t: Table, c: nat, addr: nat, steps: seq<Step>)
    requires Inv(t) && Enabled(t, Sleep(c, addr)) && Inv(Apply(t, Sleep(c, addr)))
    requires Exec(Apply(t, Sleep(c, addr)), steps).Some? && AsleepThroughout(Apply(t, Sleep(c, addr)), steps, t.cpus[c])
    ensures var t' := Exec(Apply(t, Sleep(c, addr)), steps).value;
            t'.Shape() && Apply(t', Wakeup(addr)).procs[t.cpus[c]] == t'.procs[t.cpus[c]].(state := RUNNABLE)
  {
    hide Exec, Inv, AsleepThroughout;
    InvShape(t);
    KeepsChannel(Apply(t, Sleep(c, addr)), steps, t.cpus[c]);
    WakesAll(Exec(Apply(t, Sleep(c, addr)), steps).value, addr, t.cpus[c]);
  }

  /** A kill is not forgotten until the process has been waited for. */
  lemma KillSticks(t: Table, step: Step, i: nat)
    requires t.Shape() && Enabled(t, step) && i < NPROC && t.procs[i].killed && !(step.WaitReap? && step.slot == i)
    ensures Apply(t, step).procs[i].killed
  {
    if step.Kill? { KilledChan(t.procs, step.pid, i); }
  }
}
