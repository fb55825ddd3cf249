/** What holds over every run of the log, crashes and repeated recoveries included. */
module LogRuns {
  import opened Common
  import opened Blocks
  import opened LogMachine

  /** After mkfs, or after any clean shutdown: nothing logged, nothing cached, nobody inside. */
  predicate Init(c: Config, s: State)
    requires c.Valid()
  {
    && |s.disk| == c.blocks && HeadCount(s.disk[c.start]) == 0
    && s == State(s.disk, map[], [], map[], map[], {}, Running, false, false)
  }

  lemma InitInv(c: Config, s: State)
    requires c.Valid() && Init(c, s)
    ensures Inv(c, s) && Committed(c, s) == Current(c, s)
  {
    CleanBetweenOperations(c, s);
  }

  /** Run a schedule; None when one of its steps is not enabled. */
  function Exec(c: Config, s: State, steps: seq<Step>): (r: Option<State>)
    requires c.Valid() && Inv(c, s)
    ensures r.Some? ==> Inv(c, r.value)
    decreases |steps|
  {
    if steps == [] then Some(s)
    else if !Enabled(c, s, steps[0]) then None
    else
      AnyStep(c, s, steps[0]);
      Exec(c, Apply(c, s, steps[0]), steps[1..])
  }

  lemma {:induction false} ExecConcat(c: Config, s: State, xs: seq<Step>, ys: seq<Step>)
    requires c.Valid() && Inv(c, s)
    ensures Exec(c, s, xs + ys) ==
            match Exec(c, s, xs) { case None => None case Some(m) => Exec(c, m, ys) }
    decreases |xs|
  {
    if xs == [] {
      assert xs + ys == ys;
    } else {
      assert (xs + ys)[0] == xs[0] && (xs + ys)[1..] == xs[1..] + ys;
      if Enabled(c, s, xs[0]) {
        AnyStep(c, s, xs[0]);
        ExecConcat(c, Apply(c, s, xs[0]), xs[1..], ys);
      }
    }
  }

  lemma PrefixRuns(c: Config, s: State, steps: seq<Step>, j: nat)
    requires c.Valid() && Inv(c, s) && Exec(c, s, steps).Some? && j <= |steps|
    ensures Exec(c, s, steps[..j]).Some?
  {
    hide Inv, Exec;
    assert steps == steps[..j] + steps[j..];
    ExecConcat(c, s, steps[..j], steps[j..]);
  }

  /** A run goes on by any step enabled at its end. */
  lemma Extend(c: Config, s0: State, steps: seq<Step>, s: State, step: Step)
    requires c.Valid() && Inv(c, s0) && Exec(c, s0, steps) == Some(s) && Enabled(c, s, step)
    ensures Inv(c, s) && Inv(c, Apply(c, s, step)) && DiskOk(c, Apply(c, s, step).disk)
    ensures Exec(c, s0, steps + [step]) == Some(Apply(c, s, step))
    ensures SpecStep(c, s, Apply(c, s, step), step)
  {
    AnyStep(c, s, step);
    ExecConcat(c, s0, steps, [step]);
    assert [step][1..] == [];
    assert Exec(c, Apply(c, s, step), []) == Some(Apply(c, s, step));
  }

  /** The last step of a run, taken from the state the others lead to. */
  lemma LastStep(c: Config, s0: State, steps: seq<Step>) returns (s: State)
    requires c.Valid() && Inv(c, s0) && steps != [] && Exec(c, s0, steps).Some?
    ensures Exec(c, s0, steps[..|steps| - 1]) == Some(s) && Inv(c, s) && Enabled(c, s, steps[|steps| - 1])
    ensures Exec(c, s0, steps) == Some(Apply(c, s, steps[|steps| - 1])) && GoodStep(c, s, steps[|steps| - 1])
  {
    var front, last := steps[..|steps| - 1], steps[|steps| - 1];
    assert steps == front + [last];
    ExecConcat(c, s0, front, [last]);
    s := Exec(c, s0, front).value;
    assert Enabled(c, s, last) by { assert Exec(c, s, [last]).Some?; }
    AnyStep(c, s, last);
    assert Exec(c, s, [last]) == Some(Apply(c, s, last)) by {
      assert Exec(c, Apply(c, s, last), [last][1..]) == Some(Apply(c, s, last));
    }
  }

  /**
   Whatever recovery would produce after any run is what the file system saw, at some moment
   of that run, with no operation in progress: never part of an operation, never a mixture.
   */
  lemma {:induction false} RecoversToQuiescentState(c: Config, s0: State, steps: seq<Step>) returns (k: nat)
    requires c.Valid() && Inv(c, s0) && s0.ops == map[] && Committed(c, s0) == Current(c, s0)
    requires Exec(c, s0, steps).Some?
    ensures k <= |steps| && Exec(c, s0, steps[..k]).Some?
    ensures Exec(c, s0, steps[..k]).value.ops == map[]
    ensures Committed(c, Exec(c, s0, steps).value) == Current(c, Exec(c, s0, steps[..k]).value)
    decreases |steps|
  {
    if steps == [] {
      return 0;
    }
    var front, last := steps[..|steps| - 1], steps[|steps| - 1];
    var s := LastStep(c, s0, steps);
    if last.WriteHead? {
      k := |steps| - 1;
    } else {
      k := RecoversToQuiescentState(c, s0, front);
      assert steps[..k] == front[..k];
    }
  }

  predicate CommitOrRecoveryStep(step: Step) {
    !step.Modify? && !step.BeginOp? && !step.LogTest? && !step.LogAppend?
  }

  predicate RecoveryStep(step: Step) {
    step.Crash? || step.ReadHead? || step.Install? || step.ClearHead?
  }

  /** From the start of a commit on, through any crashes and recoveries: all old or all new. */
  lemma {:induction false} CommitIsAtomic(c: Config, s: State, steps: seq<Step>)
    requires c.Valid() && Inv(c, s) && Exec(c, s, steps).Some?
    requires forall i :: 0 <= i < |steps| ==> CommitOrRecoveryStep(steps[i])
    ensures var s' := Exec(c, s, steps).value;
            && Committed(c, s') in {Committed(c, s), Current(c, s)}
            && Current(c, s') in {Committed(c, s), Current(c, s)}
    decreases |steps|
  {
    if steps != [] {
      AnyStep(c, s, steps[0]);
      CommitIsAtomic(c, Apply(c, s, steps[0]), steps[1..]);
    }
  }

  /** Crashing again during recovery, any number of times, does not change its result. */
  lemma {:induction false} RecoveryIsIdempotent(c: Config, s: State, steps: seq<Step>)
    requires c.Valid() && Inv(c, s) && Exec(c, s, [Crash] + steps).Some?
    requires forall i :: 0 <= i < |steps| ==> RecoveryStep(steps[i])
    ensures var s' := Exec(c, s, [Crash] + steps).value;
            Committed(c, s') == Committed(c, s) == Current(c, s')
  {
    AnyStep(c, s, Crash);
    assert ([Crash] + steps)[1..] == steps;
    RecoveryKeeps(c, Apply(c, s, Crash), steps);
  }

  lemma {:induction false} RecoveryKeeps(c: Config, s: State, steps: seq<Step>)
    requires c.Valid() && Inv(c, s) && Exec(c, s, steps).Some? && Current(c, s) == Committed(c, s)
    requires forall i :: 0 <= i < |steps| ==> RecoveryStep(steps[i])
    ensures var s' := Exec(c, s, steps).value;
            Committed(c, s') == Committed(c, s) == Current(c, s')
    decreases |steps|
  {
    if steps != [] {
      AnyStep(c, s, steps[0]);
      RecoveryKeeps(c, Apply(c, s, steps[0]), steps[1..]);
    }
  }

  /** Write-ahead: a home block changes on disk only while the header on disk names it. */
  lemma WriteAhead(c: Config, s: State, step: Step, b: nat)
    requires c.Valid() && Inv(c, s) && Enabled(c, s, step) && c.Home(b)
    requires Apply(c, s, step).disk[b] != s.disk[b]
    ensures b in HeaderOf(s.disk[c.start])
  {
  }

  /** The value of the last Modify of block b, or v if there is none. */
  function LastWritten(steps: seq<Step>, b: nat, v: Block): Block {
    if steps == [] then v else
    var last := steps[|steps| - 1];
    if last.Modify? && last.b == b then last.v else LastWritten(steps[..|steps| - 1], b, v)
  }

  predicate CrashFree(steps: seq<Step>) { forall i :: 0 <= i < |steps| ==> !steps[i].Crash? }

  lemma StaysUp(c: Config, s: State, step: Step)
    requires c.Valid() && Inv(c, s) && Enabled(c, s, step) && !step.Crash? && !s.InRecovery()
    ensures !Apply(c, s, step).InRecovery()
  {
    hide RunInv, DiskOk;
  }

  lemma {:induction false} CurrentIsLatest(c: Config, s: State, steps: seq<Step>, b: nat)
    requires c.Valid() && Inv(c, s) && Exec(c, s, steps).Some? && CrashFree(steps) && c.Home(b) && !s.InRecovery()
    ensures !Exec(c, s, steps).value.InRecovery()
    ensures Current(c, Exec(c, s, steps).value)[b] == LastWritten(steps, b, Current(c, s)[b])
    decreases |steps|
  {
    hide RunInv, LoggedOk, Apply, Enabled, Committed;
    if steps != [] {
      var m := LastStep(c, s, steps);
      CurrentIsLatest(c, s, steps[..|steps| - 1], b);
      StaysUp(c, m, steps[|steps| - 1]);
    }
  }

  /**
   bread hands out the latest contents: through any evictions, commits and reads back from the
   disk, what the last change of the block left in it, or else what it held at the start.
   */
  lemma BreadIsLatest(c: Config, s: State, steps: seq<Step>, p: Proc, b: nat)
    requires c.Valid() && Inv(c, s) && CrashFree(steps) && c.Home(b) && !s.InRecovery()
    requires Exec(c, s, steps + [Bread(p, b)]).Some?
    ensures var s' := Exec(c, s, steps + [Bread(p, b)]).value;
            b in s'.cache && s'.cache[b].data == LastWritten(steps, b, Current(c, s)[b])
  {
    var m := LastStep(c, s, steps + [Bread(p, b)]);
    assert (steps + [Bread(p, b)])[..|steps|] == steps;
    CurrentIsLatest(c, s, steps, b);
  }

  /** Between commits and operations no buffer is dirty and cache and disk agree. */
  lemma CleanBetweenOperations(c: Config, s: State)
    requires c.Valid() && Inv(c, s) && !s.overrun
    requires s.phase.Finishing? || (s.phase.Running? && s.ops == map[])
    ensures forall b :: b in s.cache ==> !s.cache[b].dirty && b < c.blocks && s.cache[b].data == s.disk[b]
    ensures Current(c, s) == Committed(c, s)
  {
    assert Current(c, s) == Committed(c, s);
  }

  /** The operation of p is in progress in every state of the schedule. */
  predicate ActiveThroughout(c: Config, s: State, steps: seq<Step>, p: Proc)
    requires c.Valid() && Inv(c, s)
    decreases |steps|
  {
    p in s.ops &&
    (steps != [] && Enabled(c, s, steps[0]) ==>
       (AnyStep(c, s, steps[0]); ActiveThroughout(c, Apply(c, s, steps[0]), steps[1..], p)))
  }

  /** No operation is split across two commits: nothing commits while it is in progress. */
  lemma {:induction false} OperationNotSplit(c: Config, s: State, steps: seq<Step>, p: Proc)
    requires c.Valid() && Inv(c, s) && Exec(c, s, steps).Some? && ActiveThroughout(c, s, steps, p)
    ensures Committed(c, Exec(c, s, steps).value) == Committed(c, s)
    decreases |steps|
  {
    if steps != [] {
      AnyStep(c, s, steps[0]);
      OperationNotSplit(c, Apply(c, s, steps[0]), steps[1..], p);
    }
  }

  /** A commit never overlaps an operation, so end_op never panics. */
  lemma EndOpNeverPanics(c: Config, s: State, p: Proc)
    requires c.Valid() && Inv(c, s) && Enabled(c, s, EndOp(p))
    ensures !s.Committing() && !Apply(c, s, EndOp(p)).panicked
  {
  }

  /**
   No lost wakeup: while anyone sleeps in begin_op, a commit is running whose end wakes all
   sleepers, or an operation is open whose end_op wakes them or starts such a commit.
   */
  lemma SleeperHasWaker(c: Config, s: State)
    requires c.Valid() && Inv(c, s) && s.asleep != {} && !s.panicked && !s.overrun
    ensures s.Committing() || s.ops != map[]
    ensures Enabled(c, s, Finish) ==> Apply(c, s, Finish).asleep == {}
    ensures forall p :: Enabled(c, s, EndOp(p)) ==>
              Apply(c, s, EndOp(p)).asleep == {} || Apply(c, s, EndOp(p)).Committing()
  {
  }
}
