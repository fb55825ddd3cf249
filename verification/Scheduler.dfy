/**
 The two-tier scheduler of proc.c on one cpu.  Between two looks at the table the processes may
 change it in any way; the theorems say which dispatches follow all the same.
 */
module Scheduler {
  import opened Common
  import opened ProcTable

  /** Top: about to look for the high-priority process.  At(i): about to look at slot i in the plain pass. */
  datatype Pos = Top | At(i: nat)

  datatype Snap = Snap(pos: Pos, procs: seq<Proc>, highpid: nat)

  predicate IsHigh(p: Proc, highpid: nat) { highpid != 0 && p.state == RUNNABLE && p.pid == highpid }

  /** The first RUNNABLE slot with the high pid. */
  function FirstHigh(ps: seq<Proc>, highpid: nat): (r: Option<nat>)
    ensures r.Some? ==> r.value < |ps| && IsHigh(ps[r.value], highpid) && forall i :: 0 <= i < r.value ==> !IsHigh(ps[i], highpid)
    ensures r.None? ==> forall i :: 0 <= i < |ps| ==> !IsHigh(ps[i], highpid)
  {
    if ps == [] then None
    else if IsHigh(ps[0], highpid) then Some(0)
    else match FirstHigh(ps[1..], highpid) { case None => None case Some(i) => Some(i + 1) }
  }

  /** The slot the scheduler switches to at this point, if any. */
  function Dispatched(s: Snap): Option<nat> {
    match s.pos
    case Top => FirstHigh(s.procs, s.highpid)
    case At(i) => if i < |s.procs| && s.procs[i].state == RUNNABLE then Some(i) else None
  }

  function NextPos(s: Snap): Pos {
    match s.pos
    case Top => if FirstHigh(s.procs, s.highpid).Some? then Top else At(0)
    case At(i) => if i < |s.procs| then At(i + 1) else Top
  }

  predicate Run(ss: seq<Snap>) {
    && (forall k :: 0 <= k < |ss| ==> |ss[k].procs| == NPROC)
    && (forall k :: 0 <= k < |ss| - 1 ==> ss[k + 1].pos == NextPos(ss[k]))
  }

  function Dispatches(ss: seq<Snap>): nat {
    if |ss| <= 1 then 0 else (if Dispatched(ss[0]).Some? then 1 else 0) + Dispatches(ss[1..])
  }

  /** Slot h is RUNNABLE, has the high pid, and no other slot has it. */
  predicate Waiting(s: Snap, h: nat, highpid: nat) {
    && |s.procs| == NPROC && h < NPROC && s.highpid == highpid != 0 && IsHigh(s.procs[h], highpid)
    && forall i :: 0 <= i < NPROC && i != h ==> s.procs[i].pid != highpid
  }

  /** Nobody has switched to slot h before moment k. */
  predicate NotYet(ss: seq<Snap>, h: nat, k: nat)
    requires k <= |ss|
  {
    forall i :: 0 <= i < k ==> Dispatched(ss[i]) != Some(h)
  }

  /** Slot h waits until it is dispatched. */
  predicate WaitsUntil(ss: seq<Snap>, h: nat, highpid: nat) {
    forall k :: 0 <= k < |ss| && NotYet(ss, h, k) ==> Waiting(ss[k], h, highpid)
  }

  /** How many others can still come before slot h. */
  function Ahead(pos: Pos, h: nat): nat {
    match pos
    case Top => 0
    case At(i) => if i <= h then h - i else if i <= NPROC then NPROC - i else 0
  }

  /** After how many looks at the table at the latest slot h is dispatched. */
  function Distance(pos: Pos): nat {
    match pos
    case Top => 0
    case At(i) => if i <= NPROC then NPROC - i + 1 else 1
  }

  lemma WaitsOn(ss: seq<Snap>, h: nat, highpid: nat)
    requires ss != [] && WaitsUntil(ss, h, highpid) && Dispatched(ss[0]) != Some(h)
    ensures Waiting(ss[0], h, highpid) && WaitsUntil(ss[1..], h, highpid)
  {
    assert NotYet(ss, h, 0);
    forall k | 0 <= k < |ss[1..]| && NotYet(ss[1..], h, k)
      ensures Waiting(ss[1..][k], h, highpid)
    {
      forall i | 0 <= i < k + 1
        ensures Dispatched(ss[i]) != Some(h)
      {
        if i > 0 { assert ss[1..][i - 1] == ss[i]; }
      }
      assert NotYet(ss, h, k + 1) && ss[1..][k] == ss[k + 1];
    }
  }

  lemma {:induction false} DispatchedSoon(ss: seq<Snap>, h: nat, highpid: nat) returns (k: nat)
    requires Run(ss) && ss != [] && h < NPROC && WaitsUntil(ss, h, highpid) && |ss| > Distance(ss[0].pos)
    ensures k <= Distance(ss[0].pos) && Dispatched(ss[k]) == Some(h) && NotYet(ss, h, k)
    ensures Dispatches(ss[..k + 1]) <= Ahead(ss[0].pos, h)
    decreases |ss|
  {
    assert NotYet(ss, h, 0);
    if Dispatched(ss[0]) == Some(h) {
      return 0;
    }
    WaitsOn(ss, h, highpid);
    assert ss[0].pos != Top;
    var rest := ss[1..];
    assert forall i :: 0 <= i < |rest| ==> rest[i] == ss[i + 1];
    assert ss[0 + 1].pos == NextPos(ss[0]);
    var j := DispatchedSoon(rest, h, highpid);
    k := j + 1;
    forall i | 0 <= i < k
      ensures Dispatched(ss[i]) != Some(h)
    {
      if i > 0 { assert Dispatched(rest[i - 1]) != Some(h); }
    }
    assert ss[..k + 1][1..] == rest[..j + 1];
  }

  /**
   A high-priority process that is RUNNABLE from some moment on is dispatched within NPROC + 2
   looks at the table, after at most NPROC - 1 other dispatches, wherever the scheduler stood.
   */
  lemma HighSoon(ss: seq<Snap>, h: nat, highpid: nat) returns (k: nat)
    requires Run(ss) && h < NPROC && WaitsUntil(ss, h, highpid) && |ss| >= NPROC + 2
    ensures k < NPROC + 2 && Dispatched(ss[k]) == Some(h) && NotYet(ss, h, k)
    ensures Dispatches(ss[..k + 1]) <= NPROC - 1
  {
    k := DispatchedSoon(ss, h, highpid);
  }

  lemma {:induction false} PassAt(ss: seq<Snap>, k: nat)
    requires Run(ss) && |ss| == NPROC + 2 && ss[0].pos == Top && FirstHigh(ss[0].procs, ss[0].highpid).None?
    requires k <= NPROC
    ensures ss[k + 1].pos == At(k)
  {
    assert ss[k + 1].pos == NextPos(ss[k]);
    if k > 0 {
      PassAt(ss, k - 1);
    }
  }

  /**
   When the high-priority process is not RUNNABLE, one pass looks at every slot once, in order:
   a slot that stays RUNNABLE is dispatched exactly once, and the pass then ends.
   */
  lemma OnePass(ss: seq<Snap>, j: nat)
    requires Run(ss) && |ss| == NPROC + 2 && ss[0].pos == Top && FirstHigh(ss[0].procs, ss[0].highpid).None?
    requires j < NPROC
    requires forall k :: 0 <= k < |ss| ==> ss[k].procs[j].state == RUNNABLE
    ensures Dispatched(ss[j + 1]) == Some(j)
    ensures forall k :: 0 <= k < |ss| && k != j + 1 ==> Dispatched(ss[k]) != Some(j)
    ensures NextPos(ss[NPROC + 1]) == Top
  {
    PassAt(ss, j);
    PassAt(ss, NPROC);
    forall k | 0 <= k < |ss| && k != j + 1
      ensures Dispatched(ss[k]) != Some(j)
    {
      if k > 0 { PassAt(ss, k - 1); }
    }
  }

  /** Only runnable processes are dispatched, in the first loop only those with the high pid. */
  lemma DispatchesRunnable(s: Snap, i: nat)
    requires Dispatched(s) == Some(i)
    ensures i < |s.procs| && s.procs[i].state == RUNNABLE
    ensures s.pos.Top? ==> s.highpid != 0 && s.procs[i].pid == s.highpid
    ensures s.pos.At? ==> s.pos.i == i
  {
  }

  /** While the high-priority process is RUNNABLE at every turn, nothing else is dispatched. */
  lemma {:induction false} HighMonopolises(ss: seq<Snap>, k: nat)
    requires Run(ss) && k < |ss| && ss[0].pos == Top
    requires forall i :: 0 <= i < |ss| ==> FirstHigh(ss[i].procs, ss[i].highpid).Some?
    ensures ss[k].pos == Top && Dispatched(ss[k]) == FirstHigh(ss[k].procs, ss[k].highpid)
    ensures IsHigh(ss[k].procs[Dispatched(ss[k]).value], ss[k].highpid)
  {
    if k > 0 {
      HighMonopolises(ss, k - 1);
      assert ss[k - 1 + 1].pos == NextPos(ss[k - 1]);
    }
  }

  /** The scheduler's first loop. */
  method FindHigh(proc: array<Proc>, highpid: nat) returns (r: Option<nat>)
    ensures r == FirstHigh(proc[..], highpid)
    ensures r.Some? ==> highpid != 0 && r.value < proc.Length && proc[r.value].state == RUNNABLE && proc[r.value].pid == highpid
    ensures r.None? ==> highpid == 0 || forall i :: 0 <= i < proc.Length ==> proc[i].state != RUNNABLE || proc[i].pid != highpid
  {
    if highpid == 0 {
      return None;
    }
    var p := 0;
    while p < proc.Length
      invariant 0 <= p <= proc.Length && forall i :: 0 <= i < p ==> !IsHigh(proc[..][i], highpid)
      invariant forall i :: 0 <= i < p ==> proc[i].state != RUNNABLE || proc[i].pid != highpid
    {
      if proc[p].state == RUNNABLE && proc[p].pid == highpid {
        assert IsHigh(proc[..][p], highpid);
        return Some(p);
      }
      p := p + 1;
    }
    return None;
  }
}
