/**
 Log space.  begin_op admits an operation against MAXOPBLOCKS and LOGSIZE, log_write panics
 against LOGSIZE and log.size - 1, it tests before it absorbs, and it tests before it takes the
 lock.  With at most k distinct blocks logged by each operation and a log of n =
 min(LOGSIZE, log.size - 1) blocks, no schedule panics exactly when MAXOPBLOCKS + 2 * k < n, and
 no schedule overruns the log exactly when MAXOPBLOCKS + 2 * k <= n or n == 0.
 */
module LogBudget {
  import opened Common
  import opened Blocks
  import opened LogMachine
  import opened LogRuns

  /** The budget the open operations have not spent. */
  ghost function Slack(ops: map<Proc, set<nat>>, k: int): int {
    if ops == map[] then 0 else
    var p :| p in ops;
    k - |ops[p]| + Slack(ops - {p}, k)
  }

  lemma {:induction false} SlackWithout(ops: map<Proc, set<nat>>, k: int, p: Proc)
    requires p in ops
    ensures Slack(ops, k) == k - |ops[p]| + Slack(ops - {p}, k)
    decreases |ops|
  {
    var q :| q in ops && Slack(ops, k) == k - |ops[q]| + Slack(ops - {q}, k);
    if q != p {
      SlackWithout(ops - {q}, k, p);
      SlackWithout(ops - {p}, k, q);
      assert ops - {p} - {q} == ops - {q} - {p};
    }
  }

  lemma SlackUpdate(ops: map<Proc, set<nat>>, k: int, p: Proc, bs: set<nat>)
    ensures Slack(ops[p := bs], k) == Slack(ops - {p}, k) + k - |bs|
  {
    SlackWithout(ops[p := bs], k, p);
    assert ops[p := bs] - {p} == ops - {p};
  }

  predicate InBudget(s: State, k: nat) {
    forall p :: p in s.ops ==> |s.ops[p]| <= k
  }

  lemma {:induction false} SlackNonNegative(ops: map<Proc, set<nat>>, k: nat)
    requires forall p :: p in ops ==> |ops[p]| <= k
    ensures 0 <= Slack(ops, k)
    decreases |ops|
  {
    if ops != map[] {
      var p :| p in ops && Slack(ops, k) == k - |ops[p]| + Slack(ops - {p}, k);
      SlackNonNegative(ops - {p}, k);
    }
  }

  lemma {:induction false} SlackBound(ops: map<Proc, set<nat>>, k: nat)
    ensures Slack(ops, k) <= k * |ops|
    decreases |ops|
  {
    if ops != map[] {
      var p :| p in ops && Slack(ops, k) == k - |ops[p]| + Slack(ops - {p}, k);
      SlackBound(ops - {p}, k);
      assert k * |ops| == k * |ops - {p}| + k;
    }
  }

  predicate Recorded(s: State) {
    forall p, b :: p in s.ops && b in s.ops[p] ==> b in s.lh
  }

  /** Blocks logged plus unspent budgets; for k == MAXOPBLOCKS the bound is LOGSIZE. */
  ghost predicate Fits(s: State, k: nat) {
    && Recorded(s)
    && (s.InRecovery() || |s.lh| + Slack(s.ops, k) <= MAXOPBLOCKS + 2 * k)
  }

  lemma IdleLogEmpty(c: Config, s: State)
    requires c.Valid() && Inv(c, s) && !s.overrun && !s.InRecovery() && s.ops == map[] && !s.Committing()
    ensures s.lh == []
  {
  }

  lemma SlackAdmit(ops: map<Proc, set<nat>>, k: nat, p: Proc)
    requires p !in ops
    ensures Slack(ops[p := {}], k) == Slack(ops, k) + k
  {
    SlackUpdate(ops, k, p, {});
    assert ops - {p} == ops;
  }

  lemma FitsBeginOp(c: Config, s: State, p: Proc, k: nat)
    requires c.Valid() && Inv(c, s) && Enabled(c, s, BeginOp(p)) && k <= MAXOPBLOCKS && Fits(s, k)
    ensures Fits(Apply(c, s, BeginOp(p)), k)
  {
    hide RunInv, DiskOk, Slack, Config.Valid;
    if !MustWait(s) {
      if |s.ops| == 0 { IdleLogEmpty(c, s); }
      SlackAdmit(s.ops, k, p);
      SlackBound(s.ops, k);
      AdmittedFits(|s.lh|, |s.ops|, k, Slack(s.ops, k));
    }
  }

  lemma AdmittedFits(n: nat, open: nat, k: nat, slack: int)
    requires k <= MAXOPBLOCKS && n + (open + 1) * MAXOPBLOCKS <= LOGSIZE && slack <= k * open && (open == 0 ==> n == 0)
    ensures n + slack + k <= MAXOPBLOCKS + 2 * k
  {
    assert open <= 2;
    if open == 1 {
      assert k * open == k;
    } else if open == 2 {
      assert k * open == 2 * k;
    } else {
      assert k * open == 0;
    }
  }

  lemma FitsAppend(c: Config, s: State, p: Proc, b: nat, k: nat)
    requires c.Valid() && Inv(c, s) && Enabled(c, s, LogAppend(p, b)) && Fits(s, k)
    ensures Fits(Apply(c, s, LogAppend(p, b)), k)
  {
    AppenderHolds(c, s, p, b);
    SlackWithout(s.ops, k, p);
    SlackUpdate(s.ops, k, p, s.ops[p] + {b});
    if b in s.ops[p] { assert s.ops[p] + {b} == s.ops[p]; }
  }

  lemma NobodyInside(c: Config, s: State)
    requires c.Valid() && Inv(c, s) && !s.overrun && !s.phase.Running?
    ensures s.ops == map[]
  {
  }

  lemma FitsEndOp(c: Config, s: State, p: Proc, k: nat)
    requires c.Valid() && Inv(c, s) && Enabled(c, s, EndOp(p)) && InBudget(s, k) && Fits(s, k)
    ensures Fits(Apply(c, s, EndOp(p)), k)
  {
    hide RunInv, DiskOk;
    RunningWhenOpen(c, s, EndOp(p));
    SlackWithout(s.ops, k, p);
    if s.ops.Keys == {p} { assert s.ops - {p} == map[]; }
  }

  lemma FitsOther(c: Config, s: State, step: Step, k: nat)
    requires c.Valid() && Inv(c, s) && Enabled(c, s, step) && Fits(s, k)
    requires !step.BeginOp? && !step.EndOp? && !step.LogAppend?
    ensures Fits(Apply(c, s, step), k)
  {
    hide RunInv, DiskOk;
    if !s.phase.Running? { NobodyInside(c, s); }
  }

  lemma FitsStep(c: Config, s: State, step: Step, k: nat)
    requires c.Valid() && Inv(c, s) && Enabled(c, s, step) && k <= MAXOPBLOCKS
    requires InBudget(s, k) && Fits(s, k)
    ensures Fits(Apply(c, s, step), k)
  {
    hide Inv, Apply, Enabled, Fits, InBudget;
    match step
    case BeginOp(p) => FitsBeginOp(c, s, p, k);
    case EndOp(p) => FitsEndOp(c, s, p, k);
    case LogAppend(p, b) => FitsAppend(c, s, p, b, k);
    case _ => FitsOther(c, s, step, k);
  }

  /** Every state of the schedule keeps each operation within k blocks. */
  predicate InBudgetThroughout(c: Config, s: State, steps: seq<Step>, k: nat)
    requires c.Valid() && Inv(c, s)
    decreases |steps|
  {
    InBudget(s, k) &&
    (steps != [] && Enabled(c, s, steps[0]) ==>
       (AnyStep(c, s, steps[0]); InBudgetThroughout(c, Apply(c, s, steps[0]), steps[1..], k)))
  }

  lemma FitsCapacity(c: Config, s: State, step: Step, k: nat)
    requires c.Valid() && Inv(c, s) && Enabled(c, s, step) && InBudget(s, k) && Fits(s, k)
    requires InBudget(Apply(c, s, step), k) && Fits(Apply(c, s, step), k)
    ensures MAXOPBLOCKS + 2 * k < c.Capacity() && !s.panicked ==> !Apply(c, s, step).panicked
    ensures MAXOPBLOCKS + 2 * k <= c.Capacity() ==> !Apply(c, s, step).overrun
  {
    hide RunInv, Slack, Recorded, LoggedOk;
    SlackNonNegative(s.ops, k);
    SlackNonNegative(Apply(c, s, step).ops, k);
    RunningWhenOpen(c, s, step);
  }

  lemma RunningWhenOpen(c: Config, s: State, step: Step)
    requires c.Valid() && Inv(c, s) && Enabled(c, s, step)
    ensures step.LogTest? || step.LogAppend? || step.EndOp? ==> s.phase.Running?
  {
  }

  lemma {:induction false} FitsThroughout(c: Config, s: State, steps: seq<Step>, k: nat)
    requires c.Valid() && Inv(c, s) && k <= MAXOPBLOCKS && Fits(s, k) && Exec(c, s, steps).Some?
    requires InBudgetThroughout(c, s, steps, k)
    ensures Fits(Exec(c, s, steps).value, k)
    ensures MAXOPBLOCKS + 2 * k < c.Capacity() && !s.panicked ==> !Exec(c, s, steps).value.panicked
    ensures MAXOPBLOCKS + 2 * k <= c.Capacity() && !s.overrun ==> !Exec(c, s, steps).value.overrun
    decreases |steps|
  {
    hide RunInv, DiskOk, Apply, Enabled, GoodStep, Fits, InBudget;
    if steps != [] {
      var s' := Apply(c, s, steps[0]);
      AnyStep(c, s, steps[0]);
      assert InBudget(s, k) && InBudgetThroughout(c, s', steps[1..], k);
      assert InBudget(s', k);
      FitsStep(c, s, steps[0], k);
      FitsCapacity(c, s, steps[0], k);
      FitsThroughout(c, s', steps[1..], k);
    }
  }

  /** lh.n plus the unspent budgets never exceeds LOGSIZE. */
  lemma LogNeverOverfills(c: Config, s0: State, steps: seq<Step>)
    requires c.Valid() && Init(c, s0) && Inv(c, s0) && Exec(c, s0, steps).Some?
    requires InBudgetThroughout(c, s0, steps, MAXOPBLOCKS)
    ensures var s := Exec(c, s0, steps).value; !s.InRecovery() ==> |s.lh| + Slack(s.ops, MAXOPBLOCKS) <= LOGSIZE
  {
    FitsThroughout(c, s0, steps, MAXOPBLOCKS);
  }

  // ---------------------------------------------------------------- a schedule that panics

  /** An in-budget schedule from s to s'. */
  predicate Reaches(c: Config, s: State, steps: seq<Step>, k: nat, s': State)
    requires c.Valid() && Inv(c, s)
  {
    Exec(c, s, steps) == Some(s') && InBudgetThroughout(c, s, steps, k)
  }

  lemma {:induction false} ReachesTrans(c: Config, s: State, xs: seq<Step>, m: State, ys: seq<Step>, s': State, k: nat)
    requires c.Valid() && Inv(c, s) && Inv(c, m) && Reaches(c, s, xs, k, m) && Reaches(c, m, ys, k, s')
    ensures Reaches(c, s, xs + ys, k, s')
    decreases |xs|
  {
    if xs == [] {
      assert xs + ys == ys;
    } else {
      assert (xs + ys)[0] == xs[0] && (xs + ys)[1..] == xs[1..] + ys;
      AnyStep(c, s, xs[0]);
      ReachesTrans(c, Apply(c, s, xs[0]), xs[1..], m, ys, s', k);
    }
  }

  lemma ReachesOne(c: Config, s: State, step: Step, k: nat)
    requires c.Valid() && Inv(c, s) && Enabled(c, s, step)
    requires InBudget(s, k) && InBudget(Apply(c, s, step), k)
    ensures Inv(c, Apply(c, s, step)) && Reaches(c, s, [step], k, Apply(c, s, step))
  {
    AnyStep(c, s, step);
    var s' := Apply(c, s, step);
    assert [step][1..] == [];
    assert Exec(c, s', []) == Some(s');
  }

  /** The i-th block outside the log. */
  function HomeBlock(c: Config, i: nat): nat { if i < c.start then i else i + c.size }

  /** Running, nobody holds a buffer, and exactly the first n home blocks are logged. */
  predicate Filled(c: Config, s: State, n: nat)
    requires c.Valid()
  {
    && Inv(c, s) && s.phase.Running? && !s.panicked && !s.overrun && s.asleep == {} && s.passed == map[]
    && (forall b :: b in s.cache ==> s.cache[b].holder.None?)
    && s.lh == seq(n, i requires 0 <= i < n => HomeBlock(c, i))
  }

  function Held(s: State, p: Proc, b: nat): Buf
    requires b < |s.disk|
  {
    if b in s.cache then s.cache[b].(holder := Some(p)) else Buf(s.disk[b], false, false, Some(p))
  }

  /** p reads block b and passes log_write's test. */
  lemma Pass(c: Config, s: State, p: Proc, b: nat, k: nat) returns (steps: seq<Step>, s': State)
    requires c.Valid() && Inv(c, s) && !s.panicked && !s.overrun && InBudget(s, k)
    requires p in s.ops && p !in s.passed && c.Home(b) && s.Idle(b) && |s.lh| < c.Capacity()
    ensures Reaches(c, s, steps, k, s') && Inv(c, s') && b < |s.disk|
    ensures s' == s.(cache := s.cache[b := Held(s, p, b)], passed := s.passed[p := b])
  {
    hide RunInv, LoggedOk, Reaches;
    ReachesOne(c, s, Bread(p, b), k);
    var s1 := Apply(c, s, Bread(p, b));
    ReachesOne(c, s1, LogTest(p, b), k);
    s' := Apply(c, s1, LogTest(p, b));
    ReachesTrans(c, s, [Bread(p, b)], s1, [LogTest(p, b)], s', k);
    steps := [Bread(p, b)] + [LogTest(p, b)];
  }

  /** The state after p's append of block b. */
  function Appended(c: Config, s: State, p: Proc, b: nat): State
    requires c.Valid() && p in s.ops && b in s.cache
  {
    s.(lh := if b in s.lh then s.lh else s.lh + [b],
       cache := s.cache[b := s.cache[b].(dirty := true, touched := false)],
       ops := s.ops[p := s.ops[p] + {b}],
       passed := s.passed - {p},
       overrun := b !in s.lh && |s.lh| >= c.Capacity())
  }

  lemma Append(c: Config, s: State, p: Proc, b: nat, k: nat)
    requires c.Valid() && Inv(c, s) && !s.panicked && !s.overrun && p in s.passed && s.passed[p] == b
    requires InBudget(s, k) && p in s.ops && b in s.cache && |s.ops[p] + {b}| <= k
    ensures Reaches(c, s, [LogAppend(p, b)], k, Appended(c, s, p, b)) && Inv(c, Appended(c, s, p, b))
  {
    hide RunInv, LoggedOk, Reaches;
    ReachesOne(c, s, LogAppend(p, b), k);
  }

  lemma LogOne(c: Config, s: State, n: nat, p: Proc, k: nat) returns (steps: seq<Step>, s': State)
    requires c.Valid() && Filled(c, s, n) && n < c.Capacity() && n < c.blocks - c.size
    requires p in s.ops && InBudget(s, k) && |s.ops[p]| < k
    ensures Inv(c, s) && Reaches(c, s, steps, k, s') && Filled(c, s', n + 1)
    ensures s'.ops == s.ops[p := s.ops[p] + {HomeBlock(c, n)}]
  {
    hide RunInv, LoggedOk, Reaches;
    var b := HomeBlock(c, n);
    assert c.Home(b) && b !in s.lh;
    var xs, s1 := Pass(c, s, p, b, k);
    Append(c, s1, p, b, k);
    var s2 := Appended(c, s1, p, b);
    ReachesOne(c, s2, Brelse(p, b), k);
    s' := Apply(c, s2, Brelse(p, b));
    ReachesTrans(c, s, xs, s1, [LogAppend(p, b)], s2, k);
    ReachesTrans(c, s, xs + [LogAppend(p, b)], s2, [Brelse(p, b)], s', k);
    steps := xs + [LogAppend(p, b)] + [Brelse(p, b)];
  }

  lemma Admit(c: Config, s: State, n: nat, p: Proc, k: nat)
    requires c.Valid() && Filled(c, s, n) && p !in s.ops && n + (|s.ops| + 1) * MAXOPBLOCKS <= LOGSIZE && InBudget(s, k)
    ensures Inv(c, s) && Enabled(c, s, BeginOp(p))
    ensures var s' := Apply(c, s, BeginOp(p));
            Reaches(c, s, [BeginOp(p)], k, s') && Filled(c, s', n) && s'.ops == s.ops[p := {}] && InBudget(s', k)
  {
    hide RunInv, LoggedOk, Reaches;
    ReachesOne(c, s, BeginOp(p), k);
  }

  /** p logs m more blocks and stays within j of them. */
  lemma {:induction false} LogMany(c: Config, s: State, n: nat, p: Proc, m: nat, j: nat, k: nat)
    returns (steps: seq<Step>, s': State)
    requires c.Valid() && Filled(c, s, n) && n + m <= c.Capacity() && n + m <= c.blocks - c.size
    requires p in s.ops && InBudget(s, j) && |s.ops[p]| + m <= j <= k
    ensures Inv(c, s) && Reaches(c, s, steps, k, s') && Filled(c, s', n + m)
    ensures s'.ops.Keys == s.ops.Keys && InBudget(s', j)
    ensures forall q :: q in s.ops && q != p ==> s'.ops[q] == s.ops[q]
    decreases m
  {
    hide RunInv, LoggedOk;
    if m == 0 {
      return [], s;
    }
    var xs, s1 := LogOne(c, s, n, p, k);
    var ys, s2 := LogMany(c, s1, n + 1, p, m - 1, j, k);
    ReachesTrans(c, s, xs, s1, ys, s2, k);
    return xs + ys, s2;
  }

  lemma Leave(c: Config, s: State, n: nat, k: nat)
    requires c.Valid() && Filled(c, s, n) && s.ops.Keys == {0, 1} && InBudget(s, k)
    ensures Inv(c, s) && Enabled(c, s, EndOp(1))
    ensures var s' := Apply(c, s, EndOp(1));
            Reaches(c, s, [EndOp(1)], k, s') && Filled(c, s', n) && s'.ops == map[0 := s.ops[0]]
  {
    hide RunInv, LoggedOk, Reaches;
    assert 0 in s.ops && 1 in s.ops;
    ReachesOne(c, s, EndOp(1), k);
    assert s.ops - {1} == map[0 := s.ops[0]];
  }

  lemma SmallOp(c: Config, s: State, n: nat, k: nat) returns (steps: seq<Step>, s': State)
    requires c.Valid() && Filled(c, s, n) && n < c.Capacity() && n < c.blocks - c.size
    requires s.ops == map[0 := {}] && 1 <= k && n < MAXOPBLOCKS
    ensures Inv(c, s) && Reaches(c, s, steps, k, s') && Filled(c, s', n + 1) && s'.ops == map[0 := {}]
  {
    hide Inv, Apply, Enabled, Reaches;
    Admit(c, s, n, 1, k);
    var s1 := Apply(c, s, BeginOp(1));
    var xs, s2 := LogOne(c, s1, n, 1, k);
    Leave(c, s2, n + 1, k);
    s' := Apply(c, s2, EndOp(1));
    ReachesTrans(c, s, [BeginOp(1)], s1, xs, s2, k);
    ReachesTrans(c, s, [BeginOp(1)] + xs, s2, [EndOp(1)], s', k);
    steps := [BeginOp(1)] + xs + [EndOp(1)];
  }

  /** While process 0 stays inside an operation, process 1 runs m one-block operations. */
  lemma {:induction false} SmallOps(c: Config, s: State, n: nat, m: nat, k: nat)
    returns (steps: seq<Step>, s': State)
    requires c.Valid() && Filled(c, s, n) && n + m <= c.Capacity() && n + m <= c.blocks - c.size
    requires s.ops == map[0 := {}] && 1 <= k && n + m <= MAXOPBLOCKS
    ensures Inv(c, s) && Reaches(c, s, steps, k, s') && Filled(c, s', n + m) && s'.ops == map[0 := {}]
    decreases m
  {
    hide RunInv, LoggedOk;
    if m == 0 {
      return [], s;
    }
    var xs, s1 := SmallOp(c, s, n, k);
    var ys, s2 := SmallOps(c, s1, n + 1, m - 1, k);
    ReachesTrans(c, s, xs, s1, ys, s2, k);
    return xs + ys, s2;
  }

  /** Once the log is full, logging any block again panics, although it would be absorbed. */
  lemma PanicWhenFull(c: Config, s: State, k: nat) returns (steps: seq<Step>, s': State)
    requires c.Valid() && Filled(c, s, c.Capacity()) && 0 in s.ops && InBudget(s, k) && c.size < c.blocks
    ensures Inv(c, s) && Reaches(c, s, steps, k, s') && s'.panicked
  {
    hide RunInv, LoggedOk, Reaches;
    var b := HomeBlock(c, 0);
    ReachesOne(c, s, Bread(0, b), k);
    var s1 := Apply(c, s, Bread(0, b));
    ReachesOne(c, s1, LogTest(0, b), k);
    s' := Apply(c, s1, LogTest(0, b));
    ReachesTrans(c, s, [Bread(0, b)], s1, [LogTest(0, b)], s', k);
    steps := [Bread(0, b)] + [LogTest(0, b)];
  }

  /** Process 0 stays inside an operation while the first n blocks are logged by others. */
  lemma Fill(c: Config, s0: State, n: nat, k: nat) returns (steps: seq<Step>, s': State)
    requires c.Valid() && Init(c, s0) && Inv(c, s0) && 1 <= k
    requires n <= MAXOPBLOCKS && n <= c.Capacity() && n <= c.blocks - c.size
    ensures Reaches(c, s0, steps, k, s') && Filled(c, s', n) && s'.ops == map[0 := {}]
  {
    hide Inv, Apply, Enabled, Reaches, HomeBlock;
    Admit(c, s0, 0, 0, k);
    var s1 := Apply(c, s0, BeginOp(0));
    var xs, s2 := SmallOps(c, s1, 0, n, k);
    ReachesTrans(c, s0, [BeginOp(0)], s1, xs, s2, k);
    return [BeginOp(0)] + xs, s2;
  }

  /** Processes 0 and 1 are inside and bring the log to n blocks with at most m blocks each. */
  lemma FillBoth(c: Config, s0: State, n: nat, m: nat, k: nat) returns (steps: seq<Step>, s': State)
    requires c.Valid() && Init(c, s0) && Inv(c, s0) && 1 <= k && m <= k
    requires n <= c.Capacity() && n <= c.blocks - c.size && n <= MAXOPBLOCKS + 2 * m
    ensures Reaches(c, s0, steps, k, s') && Filled(c, s', n) && InBudget(s', m) && s'.ops.Keys == {0, 1}
  {
    hide Inv, Apply, Enabled, Reaches, HomeBlock;
    var base := if n <= MAXOPBLOCKS then n else MAXOPBLOCKS;
    var xs, s1 := Fill(c, s0, base, k);
    Admit(c, s1, base, 1, k);
    var s2 := Apply(c, s1, BeginOp(1));
    ReachesTrans(c, s0, xs, s1, [BeginOp(1)], s2, k);
    var rest := n - base;
    var half := if rest <= m then rest else m;
    var ys, s3 := LogMany(c, s2, base, 0, half, m, k);
    var zs, s4 := LogMany(c, s3, base + half, 1, rest - half, m, k);
    ReachesTrans(c, s0, xs + [BeginOp(1)], s2, ys, s3, k);
    ReachesTrans(c, s0, xs + [BeginOp(1)] + ys, s3, zs, s4, k);
    return xs + [BeginOp(1)] + ys + zs, s4;
  }

  lemma PanicRun(c: Config, s0: State, k: nat) returns (steps: seq<Step>, s': State)
    requires c.Valid() && Init(c, s0) && Inv(c, s0) && 1 <= k
    requires c.Capacity() < c.blocks - c.size && c.Capacity() <= MAXOPBLOCKS + 2 * k
    ensures Reaches(c, s0, steps, k, s') && s'.panicked
  {
    var xs, s1 := FillBoth(c, s0, c.Capacity(), k, k);
    var ys, s2 := PanicWhenFull(c, s1, k);
    ReachesTrans(c, s0, xs, s1, ys, s2, k);
    return xs + ys, s2;
  }

  /** With one log block left, two processes pass the test, and both append. */
  lemma BothPass(c: Config, s: State, k: nat) returns (steps: seq<Step>, s': State)
    requires c.Valid() && 1 <= c.Capacity() < c.blocks - c.size && Filled(c, s, c.Capacity() - 1)
    requires 1 <= k && InBudget(s, k - 1) && InBudget(s, k) && s.ops.Keys == {0, 1}
    ensures Inv(c, s) && Reaches(c, s, steps, k, s') && s'.overrun && |s'.lh| == c.Capacity() + 1
  {
    hide RunInv, LoggedOk, Reaches;
    var n := c.Capacity() - 1;
    var b0, b1 := HomeBlock(c, n), HomeBlock(c, n + 1);
    assert c.Home(b0) && c.Home(b1) && b0 !in s.lh && b1 !in s.lh && b0 != b1;
    assert 0 in s.ops && 1 in s.ops;
    var xs, s1 := Pass(c, s, 0, b0, k);
    var ys, s2 := Pass(c, s1, 1, b1, k);
    ReachesTrans(c, s, xs, s1, ys, s2, k);
    Append(c, s2, 0, b0, k);
    var s3 := Appended(c, s2, 0, b0);
    ReachesTrans(c, s, xs + ys, s2, [LogAppend(0, b0)], s3, k);
    Append(c, s3, 1, b1, k);
    s' := Appended(c, s3, 1, b1);
    ReachesTrans(c, s, xs + ys + [LogAppend(0, b0)], s3, [LogAppend(1, b1)], s', k);
    steps := xs + ys + [LogAppend(0, b0)] + [LogAppend(1, b1)];
  }

  /** The last block appended has no place: beyond the header array, or beyond the log area. */
  lemma OverrunRun(c: Config, s0: State, k: nat) returns (steps: seq<Step>, s': State)
    requires c.Valid() && Init(c, s0) && Inv(c, s0) && 1 <= k
    requires 1 <= c.Capacity() < c.blocks - c.size && c.Capacity() < MAXOPBLOCKS + 2 * k
    ensures Reaches(c, s0, steps, k, s') && s'.overrun
    ensures |s'.lh| == c.Capacity() + 1 && (|s'.lh| > LOGSIZE || !c.InLog(c.Slot(|s'.lh| - 1)))
  {
    var xs, s1 := FillBoth(c, s0, c.Capacity() - 1, k - 1, k);
    var ys, s2 := BothPass(c, s1, k);
    ReachesTrans(c, s0, xs, s1, ys, s2, k);
    return xs + ys, s2;
  }

  ghost predicate SomeRunPanics(c: Config, s0: State, k: nat)
    requires c.Valid() && Inv(c, s0)
  {
    exists steps, s' :: Reaches(c, s0, steps, k, s') && s'.panicked
  }

  ghost predicate SomeRunOverruns(c: Config, s0: State, k: nat)
    requires c.Valid() && Inv(c, s0)
  {
    exists steps, s' :: Reaches(c, s0, steps, k, s') && s'.overrun
  }

  /**
   Exactly when the log is large enough for operations of at most k blocks.  With the layout
   mkfs writes (log.size == 30) k == 9 is safe and k == MAXOPBLOCKS is not; no log.size makes
   MAXOPBLOCKS safe.
   */
  lemma PanicIff(c: Config, s0: State, k: nat)
    requires c.Valid() && Init(c, s0) && Inv(c, s0) && 1 <= k <= MAXOPBLOCKS
    requires c.Capacity() < c.blocks - c.size
    ensures SomeRunPanics(c, s0, k) <==> c.Capacity() <= MAXOPBLOCKS + 2 * k
  {
    if c.Capacity() <= MAXOPBLOCKS + 2 * k {
      var steps, s' := PanicRun(c, s0, k);
    } else {
      forall steps, s' | Reaches(c, s0, steps, k, s')
        ensures !s'.panicked
      {
        FitsThroughout(c, s0, steps, k);
      }
    }
  }

  lemma NobodyPassesStep(c: Config, s: State, step: Step)
    requires c.Valid() && Inv(c, s) && Enabled(c, s, step) && c.Capacity() == 0 && s.passed == map[]
    ensures Apply(c, s, step).passed == map[] && !Apply(c, s, step).overrun
  {
    hide RunInv, DiskOk;
  }

  /** A log of size 1 lets nobody pass the test. */
  lemma {:induction false} NobodyPasses(c: Config, s: State, steps: seq<Step>)
    requires c.Valid() && Inv(c, s) && c.Capacity() == 0 && s.passed == map[] && !s.overrun
    requires Exec(c, s, steps).Some?
    ensures !Exec(c, s, steps).value.overrun
    decreases |steps|
  {
    hide Inv, Apply, Enabled, GoodStep;
    if steps != [] {
      AnyStep(c, s, steps[0]);
      NobodyPassesStep(c, s, steps[0]);
      NobodyPasses(c, Apply(c, s, steps[0]), steps[1..]);
    }
  }

  /**
   Exactly when operations of at most k blocks can append past the end of the log, although
   each append was preceded by a test that passed.  mkfs's layout is safe for k == 9 and not
   for MAXOPBLOCKS; for MAXOPBLOCKS a log of LOGSIZE + 1 blocks is needed.
   */
  lemma OverrunIff(c: Config, s0: State, k: nat)
    requires c.Valid() && Init(c, s0) && Inv(c, s0) && 1 <= k <= MAXOPBLOCKS
    requires c.Capacity() < c.blocks - c.size
    ensures SomeRunOverruns(c, s0, k) <==> 1 <= c.Capacity() < MAXOPBLOCKS + 2 * k
  {
    if 1 <= c.Capacity() < MAXOPBLOCKS + 2 * k {
      var steps, s' := OverrunRun(c, s0, k);
    } else {
      forall steps, s' | Reaches(c, s0, steps, k, s')
        ensures !s'.overrun
      {
        if c.Capacity() == 0 {
          NobodyPasses(c, s0, steps);
        } else {
          FitsThroughout(c, s0, steps, k);
        }
      }
    }
  }
}
