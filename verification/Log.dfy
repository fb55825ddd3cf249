/**
 log.c as it is written: a global log updated in place, loops over the logged blocks.  The
 ghost `schedule` records which steps of LogMachine each method takes, so everything proved
 over runs of that machine holds of these methods.
 */
module Log {
  import opened Common
  import opened Blocks
  import opened LogMachine
  import opened LogRuns

  /** A clean block may be brought into the cache at any time. */
  lemma ExtendBread(c: Config, s0: State, steps: seq<Step>, s: State, b: nat)
    requires c.Valid() && Inv(c, s0) && Exec(c, s0, steps) == Some(s) && b < c.blocks && b !in s.cache && s.Alive() && s.passed == map[]
    ensures Exec(c, s0, steps + [Step.Bread(0, b), Brelse(0, b)])
            == Some(s.(cache := s.cache[b := Buf(s.disk[b], false, false, None)]))
    ensures DiskOk(c, s.disk)
    ensures var s' := s.(cache := s.cache[b := Buf(s.disk[b], false, false, None)]);
            Committed(c, s') == Committed(c, s) && Current(c, s') == Current(c, s)
  {
    hide Inv, Exec, Committed, Current, LoggedOk, DiskOk;
    ExtendTake(c, s0, steps, s, b);
    var held := s.(cache := s.cache[b := Buf(s.disk[b], false, false, Some(0))]);
    ExtendGive(c, s0, steps + [Step.Bread(0, b)], held, b);
    assert steps + [Step.Bread(0, b)] + [Brelse(0, b)] == steps + [Step.Bread(0, b), Brelse(0, b)];
    assert held.cache[b := held.cache[b].(holder := None)] == s.cache[b := Buf(s.disk[b], false, false, None)];
  }

  lemma ExtendTake(c: Config, s0: State, steps: seq<Step>, s: State, b: nat)
    requires c.Valid() && Inv(c, s0) && Exec(c, s0, steps) == Some(s) && b < c.blocks && b !in s.cache && s.Alive() && s.passed == map[]
    ensures DiskOk(c, s.disk) && b < |s.disk| && Inv(c, s)
    ensures var s' := s.(cache := s.cache[b := Buf(s.disk[b], false, false, Some(0))]);
            Exec(c, s0, steps + [Step.Bread(0, b)]) == Some(s') && Inv(c, s') && Committed(c, s') == Committed(c, s) && Current(c, s') == Current(c, s)
  {
    Extend(c, s0, steps, s, Step.Bread(0, b));
  }

  lemma ExtendGive(c: Config, s0: State, steps: seq<Step>, s: State, b: nat)
    requires c.Valid() && Inv(c, s0) && Exec(c, s0, steps) == Some(s) && s.Alive() && s.passed == map[] && Holds(s, 0, b)
    requires !s.cache[b].touched && Inv(c, s)
    ensures var s' := s.(cache := s.cache[b := s.cache[b].(holder := None)]);
            Exec(c, s0, steps + [Brelse(0, b)]) == Some(s') && Inv(c, s') && Committed(c, s') == Committed(c, s) && Current(c, s') == Current(c, s)
  {
    Extend(c, s0, steps, s, Brelse(0, b));
  }

  /** Extend, with the state a block write leads to spelled out. */
  lemma ExtendWriteLog(c: Config, s0: State, steps: seq<Step>, s: State, t: nat)
    requires c.Valid() && Inv(c, s0) && Exec(c, s0, steps) == Some(s) && s.Alive()
    requires s.phase == Logging(t) && t < |s.lh| && s.Idle(s.lh[t]) && s.Idle(c.Slot(t))
    ensures c.Slot(t) < |s.disk| && s.lh[t] < |s.disk| && DiskOk(c, s.disk)
    ensures var s' := LogMachine.Bwrite(s, c.Slot(t), s.View(s.lh[t])).(phase := Logging(t + 1));
            && Exec(c, s0, steps + [WriteLog]) == Some(s') && DiskOk(c, s'.disk)
            && Committed(c, s') == Committed(c, s) && Current(c, s') == Current(c, s)
  {
    hide Inv, Exec, Committed, Current, DiskOk, LoggedOk;
    RunsInv(c, s0, steps, s);
    LoggedBounds(c, s.lh, t);
    Extend(c, s0, steps, s, WriteLog);
  }

  lemma ExtendInstall(c: Config, s0: State, steps: seq<Step>, s: State, t: nat, booting: bool)
    requires c.Valid() && Inv(c, s0) && Exec(c, s0, steps) == Some(s) && s.Alive()
    requires s.phase == Installing(t, booting) && t < |s.lh| && s.Idle(s.lh[t]) && s.Idle(c.Slot(t))
    ensures c.Slot(t) < |s.disk| && s.lh[t] < |s.disk| && DiskOk(c, s.disk)
    ensures var s' := LogMachine.Bwrite(s, s.lh[t], s.View(c.Slot(t))).(phase := Installing(t + 1, booting));
            && Exec(c, s0, steps + [Install]) == Some(s') && DiskOk(c, s'.disk)
            && Committed(c, s') == Committed(c, s) && Current(c, s') == Current(c, s)
  {
    hide Inv, Exec, Committed, Current, DiskOk, LoggedOk;
    RunsInv(c, s0, steps, s);
    LoggedBounds(c, s.lh, t);
    Extend(c, s0, steps, s, Install);
  }

  lemma RunsInv(c: Config, s0: State, steps: seq<Step>, s: State)
    requires c.Valid() && Inv(c, s0) && Exec(c, s0, steps) == Some(s)
    ensures Inv(c, s) && |s.disk| == c.blocks && DiskOk(c, s.disk) && (!s.overrun ==> LoggedOk(c, s.lh))
  {
    ExecConcat(c, s0, steps, []);
  }

  lemma ExtendLogTest(c: Config, s0: State, steps: seq<Step>, s: State, p: Proc, b: nat)
    requires c.Valid() && Inv(c, s0) && Exec(c, s0, steps) == Some(s) && s.Alive()
    requires p !in s.passed && p in s.ops && Holds(s, p, b) && c.Home(b)
    ensures Inv(c, s) && Enabled(c, s, LogTest(p, b))
    ensures var s' := if |s.lh| >= LOGSIZE || |s.lh| >= c.size - 1 then s.(panicked := true)
                      else s.(passed := s.passed[p := b]);
            Apply(c, s, LogTest(p, b)) == s' && Exec(c, s0, steps + [LogTest(p, b)]) == Some(s') && Inv(c, s')
  {
    hide RunInv, Exec;
    RunsInv(c, s0, steps, s);
    Extend(c, s0, steps, s, LogTest(p, b));
  }

  /** The state after p's append of block b. */
  function Appended(c: Config, s: State, p: Proc, b: nat): State
    requires c.Valid() && p in s.ops && b in s.cache
  {
    s.(lh := if b in s.lh then s.lh else s.lh + [b],
       cache := s.cache[b := s.cache[b].(dirty := true, touched := false)],
       ops := s.ops[p := s.ops[p] + {b}],
       passed := s.passed - {p},
       overrun := b !in s.lh && |s.lh| >= c.Capacity())
  }

  lemma AppendRepresents(c: Config, s0: State, steps: seq<Step>, s: State, p: Proc, b: nat,
                         room: nat, room': nat, outstanding: int, committing: bool)
    requires Represents(c, s0, steps, s, room, outstanding, committing) && s.Alive()
    requires p in s.passed && s.passed[p] == b
    requires room' == if b !in s.lh && |s.lh| == room then room + 1 else room
    ensures Inv(c, s) && Enabled(c, s, LogAppend(p, b)) && p in s.ops && b in s.cache && c.Valid()
    ensures Apply(c, s, LogAppend(p, b)) == Appended(c, s, p, b)
    ensures Represents(c, s0, steps + [LogAppend(p, b)], Appended(c, s, p, b), room', outstanding, committing)
  {
    hide RunInv, Exec, DiskOk, LoggedOk;
    RunsInv(c, s0, steps, s);
    AppenderHolds(c, s, p, b);
    Extend(c, s0, steps, s, LogAppend(p, b));
    LastIn(s.ops, p, s.ops[p] + {b});
    var s' := Appended(c, s, p, b);
    LoggedWhenAlive(c, s);
    LogFits(c, s.lh);
    if !s'.overrun {
      LoggedWhenAlive(c, s');
      LogFits(c, s'.lh);
    }
  }

  lemma LogFits(c: Config, lh: seq<nat>)
    requires c.Valid() && LoggedOk(c, lh)
    ensures |lh| <= c.Capacity() <= LOGSIZE
  {
  }

  lemma LoggedWhenAlive(c: Config, s: State)
    requires c.Valid() && Inv(c, s) && !s.overrun
    ensures LoggedOk(c, s.lh)
  {
  }

  lemma ExtendWriteHead(c: Config, s0: State, steps: seq<Step>, s: State)
    requires c.Valid() && Inv(c, s0) && Exec(c, s0, steps) == Some(s) && s.Alive()
    requires s.phase == Logging(|s.lh|) && s.Idle(c.start)
    ensures c.start < |s.disk| && |s.lh| <= LOGSIZE && Words(s.lh) && DiskOk(c, s.disk)
    ensures var s' := LogMachine.Bwrite(s, c.start, EncodeHead(s.View(c.start), s.lh)).(phase := Installing(0, false));
            && Exec(c, s0, steps + [WriteHead]) == Some(s') && DiskOk(c, s'.disk)
            && Committed(c, s') == Current(c, s) == Current(c, s')
  {
    Extend(c, s0, steps, s, WriteHead);
  }

  lemma ExtendClearHead(c: Config, s0: State, steps: seq<Step>, s: State, booting: bool)
    requires c.Valid() && Inv(c, s0) && Exec(c, s0, steps) == Some(s) && s.Alive()
    requires s.phase == Installing(|s.lh|, booting) && s.Idle(c.start)
    ensures c.start < |s.disk| && DiskOk(c, s.disk)
    ensures var s' := LogMachine.Bwrite(s, c.start, EncodeHead(s.View(c.start), []))
                        .(lh := [], phase := if booting then Running else Finishing);
            && Exec(c, s0, steps + [ClearHead]) == Some(s') && DiskOk(c, s'.disk)
            && Committed(c, s') == Committed(c, s) && Current(c, s') == Current(c, s)
  {
    Extend(c, s0, steps, s, ClearHead);
  }

  lemma ExtendReadHead(c: Config, s0: State, steps: seq<Step>, s: State)
    requires c.Valid() && Inv(c, s0) && Exec(c, s0, steps) == Some(s) && s.Alive() && s.phase == Booting
    ensures c.start < |s.disk| && DiskOk(c, s.disk) && s.View(c.start) == s.disk[c.start]
    ensures HeadCount(s.disk[c.start]) <= LOGSIZE && LoggedOk(c, HeaderOf(s.disk[c.start]))
    ensures var s' := s.(lh := HeaderOf(s.disk[c.start]), phase := Installing(0, true));
            && Exec(c, s0, steps + [ReadHead]) == Some(s')
            && Committed(c, s') == Committed(c, s) && Current(c, s') == Current(c, s)
  {
    Extend(c, s0, steps, s, ReadHead);
  }

  lemma ExtendEndOp(c: Config, s0: State, steps: seq<Step>, s: State, p: Proc)
    requires c.Valid() && Inv(c, s0) && Exec(c, s0, steps) == Some(s) && s.Alive() && p in s.ops && HoldsNothing(s, p)
    ensures !s.Committing() && DiskOk(c, s.disk)
    ensures var s' := if s.ops.Keys == {p} then s.(ops := map[], phase := if s.lh == [] then Finishing else Logging(0))
                      else s.(ops := s.ops - {p}, asleep := {});
            && Exec(c, s0, steps + [EndOp(p)]) == Some(s')
            && Committed(c, s') == Committed(c, s) && Current(c, s') == Current(c, s)
  {
    Extend(c, s0, steps, s, EndOp(p));
    EndOpNeverPanics(c, s, p);
  }

  lemma ExtendFinish(c: Config, s0: State, steps: seq<Step>, s: State)
    requires c.Valid() && Inv(c, s0) && Exec(c, s0, steps) == Some(s) && s.Alive() && s.phase == Finishing
    ensures DiskOk(c, s.disk)
    ensures var s' := s.(phase := Running, asleep := {});
            && Exec(c, s0, steps + [Finish]) == Some(s')
            && Committed(c, s') == Committed(c, s) && Current(c, s') == Current(c, s)
  {
    Extend(c, s0, steps, s, Finish);
  }

  lemma ExtendBeginOp(c: Config, s0: State, steps: seq<Step>, s: State, p: Proc)
    requires c.Valid() && Inv(c, s0) && Exec(c, s0, steps) == Some(s) && s.Alive()
    requires !s.InRecovery() && p !in s.ops && p !in s.asleep
    ensures Inv(c, s) && Enabled(c, s, BeginOp(p))
    ensures var s' := if MustWait(s) then s.(asleep := s.asleep + {p}) else s.(ops := s.ops[p := {}]);
            Apply(c, s, BeginOp(p)) == s' && Exec(c, s0, steps + [BeginOp(p)]) == Some(s')
  {
    Extend(c, s0, steps, s, BeginOp(p));
  }

  /** If the machine stops after `steps`, recovery yields the old or the new contents of `start`. */
  ghost predicate AllOrNothing(c: Config, s0: State, steps: seq<Step>, start: State)
    requires c.Valid() && Inv(c, s0) && Inv(c, start)
  {
    Exec(c, s0, steps).Some? && Committed(c, Exec(c, s0, steps).value) in {Committed(c, start), Current(c, start)}
  }

  lemma CrashAnywhere(c: Config, s0: State, xs: seq<Step>, steps: seq<Step>, start: State, k: nat)
    requires c.Valid() && Inv(c, s0) && Exec(c, s0, xs) == Some(start) && Exec(c, s0, steps).Some?
    requires |xs| <= k <= |steps| && steps[..|xs|] == xs
    requires forall i :: |xs| <= i < |steps| ==> CommitOrRecoveryStep(steps[i])
    ensures AllOrNothing(c, s0, steps[..k], start)
  {
    hide Inv, Exec, Committed, Current;
    var ys := steps[|xs|..k];
    PrefixRuns(c, s0, steps, k);
    assert steps[..k] == xs + ys;
    ExecConcat(c, s0, xs, ys);
    assert forall i :: 0 <= i < |ys| ==> ys[i] == steps[|xs| + i];
    CommitIsAtomic(c, start, ys);
  }

  lemma LoggedBounds(c: Config, lh: seq<nat>, t: nat)
    requires c.Valid() && LoggedOk(c, lh) && t < |lh|
    ensures c.Slot(t) < c.blocks && lh[t] < c.blocks && c.Slot(t) != lh[t]
  {
  }

  /** lh.block after the store at position i, which may be one past the end of the array. */
  function Stored(block: seq<nat>, i: nat, b: nat): seq<nat>
    requires i <= |block|
  {
    if i < |block| then block[i := b] else block + [b]
  }

  lemma Logged(block: seq<nat>, n: nat, i: nat, b: nat)
    requires i <= n <= |block| && (i < n ==> block[i] == b) && b !in block[..i]
    ensures |Stored(block, i, b)| == if i == |block| then n + 1 else |block|
    ensures i == n ==> Stored(block, i, b)[..n + 1] == block[..n] + [b] && b !in block[..n]
    ensures i < n ==> Stored(block, i, b)[..n] == block[..n] && b in block[..n]
  {
    assert i < n ==> block[..n][i] == b;
  }

  lemma StartInRange(c: Config)
    requires c.Valid()
    ensures c.start < c.blocks
  {
  }

  lemma NothingLogged(c: Config, block: seq<nat>)
    requires c.Valid()
    ensures block[..0] == [] && LoggedOk(c, []) && Words([])
  {
  }

  lemma EmptyCommit(c: Config, s: State)
    requires c.Valid() && Inv(c, s) && !s.overrun && s.phase.Finishing?
    ensures Committed(c, s) == Current(c, s)
  {
    CleanBetweenOperations(c, s);
  }

  lemma LastIn(ops: map<Proc, set<nat>>, p: Proc, bs: set<nat>)
    requires p in ops
    ensures |ops[p := bs]| == |ops|
  {
    assert ops[p := bs].Keys == ops.Keys;
  }

  lemma LastOut(ops: map<Proc, set<nat>>, p: Proc)
    requires p in ops
    ensures |ops - {p}| == |ops| - 1
    ensures |ops| == 1 <==> ops.Keys == {p}
  {
    assert (ops - {p}).Keys == ops.Keys - {p};
    if |ops| == 1 { assert |ops.Keys - {p}| == 0; assert ops.Keys - {p} == {}; }
  }

  /** The schedule leads to s, which the class shows as an array of `room` words, a count and a flag. */
  ghost predicate Represents(c: Config, s0: State, schedule: seq<Step>, s: State, room: nat, outstanding: int, committing: bool) {
    && c.Valid() && Inv(c, s0)
    && Exec(c, s0, schedule) == Some(s)
    && |s.disk| == c.blocks && DiskOk(c, s.disk)
    && (!s.overrun ==> |s.lh| <= LOGSIZE == room && LoggedOk(c, s.lh))
    && outstanding == |s.ops|
    && committing == s.Committing()
  }

  class Log {
    const c: Config
    var disk: Disk
    var cache: map<nat, Buf>
    var n: nat                  // log.lh.n
    var block: seq<nat>         // log.lh.block
    var outstanding: int
    var committing: bool
    var panicked: bool

    ghost const s0: State       // the state in which the machine was first started
    ghost var schedule: seq<Step>
    ghost var ops: map<Proc, set<nat>>
    ghost var passed: map<Proc, nat>
    ghost var overrun: bool     // an append went beyond the log's capacity
    ghost var asleep: set<Proc>
    ghost var phase: Phase

    ghost function Now(): State
      reads this
      requires n <= |block|
    {
      State(disk, cache, block[..n], ops, passed, asleep, phase, panicked, overrun)
    }

    ghost predicate Valid()
      reads this
    {
      n <= |block| && Represents(c, s0, schedule, Now(), |block|, outstanding, committing)
    }

    ghost predicate Alive()
      reads this
    {
      !panicked && !overrun
    }

    /** Power on: only the disk survives. */
    constructor (c: Config, disk: Disk)
      requires c.Valid() && DiskOk(c, disk)
      ensures Valid() && AllIdle() && Alive() && phase == Booting
      ensures this.c == c && this.disk == disk && Committed(c, Now()) == Committed(c, s0) && schedule == []
    {
      this.c, this.disk, cache, n, block := c, disk, map[], 0, seq(LOGSIZE, _ => 0);
      outstanding, committing, panicked := 0, false, false;
      s0 := State(disk, map[], [], map[], map[], {}, Booting, false, false);
      schedule, ops, passed, overrun, asleep, phase := [], map[], map[], false, {}, Booting;
    }

    /** What a process sees in block b. */
    function View(b: nat): Block
      reads this
      requires b < |disk|
    {
      if b in cache then cache[b].data else disk[b]
    }

    /** Nobody holds a buffer.  (Waiting for a holder is covered by the machine, not by these methods.) */
    ghost predicate AllIdle()
      reads this
    {
      passed == map[] && forall b :: b in cache ==> cache[b].holder.None?
    }

    /** Only commit or recovery steps were added. */
    static ghost predicate Grows(xs: seq<Step>, ys: seq<Step>) {
      xs <= ys && forall i :: |xs| <= i < |ys| ==> CommitOrRecoveryStep(ys[i])
    }

    // ------------------------------------------------------------ the buffer cache, as log.c uses it

    /** bread then brelse by the committing process, which keeps the data. */
    method Bread(b: nat) returns (data: Block)
      requires Valid() && b < c.blocks && Now().Idle(b) && Alive() && passed == map[]
      modifies this`cache, this`schedule
      ensures Valid() && data == View(b)
      ensures Now() == old(Now()).(cache := cache)
      ensures cache == old(cache) || cache == old(cache)[b := Buf(disk[b], false, false, None)]
      ensures Grows(old(schedule), schedule) && (old(AllIdle()) ==> AllIdle())
      ensures Committed(c, Now()) == old(Committed(c, Now())) && Current(c, Now()) == old(Current(c, Now()))
    {
      hide Inv, Exec, DiskOk, Committed, Current, Apply, Enabled, SpecStep;
      if b !in cache {
        ExtendBread(c, s0, schedule, Now(), b);
        cache := cache[b := Buf(disk[b], false, false, None)];
        schedule := schedule + [LogMachine.Step.Bread(0, b), Brelse(0, b)];
      }
      data := cache[b].data;
    }

    /** bwrite of a block just read, then brelse. */
    method Bwrite(b: nat, data: Block)
      requires b < |disk|
      modifies this`disk, this`cache
      ensures disk == old(disk)[b := data] && cache == old(cache)[b := Buf(data, false, false, None)]
    {
      disk := disk[b := data];
      cache := cache[b := Buf(data, false, false, None)];
    }

    /** Write block b, which is a step of the machine. */
    method Record(b: nat, data: Block, ghost step: Step, ghost next: Phase)
      requires Valid() && Alive() && AllIdle() && b < |disk| && CommitOrRecoveryStep(step)
      requires Exec(c, s0, schedule + [step]) == Some(LogMachine.Bwrite(Now(), b, data).(phase := next))
      requires DiskOk(c, disk[b := data])
      requires LogMachine.Bwrite(Now(), b, data).(phase := next).Committing() == committing
      modifies this`disk, this`cache, this`schedule, this`phase
      ensures Valid() && AllIdle() && schedule == old(schedule) + [step] && phase == next
      ensures Now() == LogMachine.Bwrite(old(Now()), b, data).(phase := next)
    {
      hide Inv, Exec, DiskOk, Apply, Enabled, SpecStep, LoggedOk, Config.Slot, Config.Valid;
      Bwrite(b, data);
      phase, schedule := next, schedule + [step];
    }

    // ------------------------------------------------------------ commit

    /** One turn of write_log's loop. */
    method WriteLogBlock(tail: nat)
      requires Valid() && AllIdle() && Alive() && phase == Logging(tail) && tail < n
      modifies this`disk, this`cache, this`schedule, this`phase
      ensures Valid() && AllIdle() && phase == Logging(tail + 1) && Grows(old(schedule), schedule)
      ensures Committed(c, Now()) == old(Committed(c, Now())) && Current(c, Now()) == old(Current(c, Now()))
    {
      hide Inv, Exec, DiskOk, Committed, Current, Apply, Enabled, SpecStep, LoggedOk, Config.Slot, Config.Valid;
      LoggedBounds(c, block[..n], tail);
      var to := Bread(c.Slot(tail));
      var from := Bread(block[tail]);
      ExtendWriteLog(c, s0, schedule, Now(), tail);
      Record(c.Slot(tail), from, LogMachine.Step.WriteLog, Logging(tail + 1));
    }

    /** Copy the logged blocks from the cache to the log. */
    method WriteLog()
      requires Valid() && AllIdle() && Alive() && phase == Logging(0)
      modifies this`disk, this`cache, this`schedule, this`phase
      ensures Valid() && AllIdle() && phase == Logging(n) && Grows(old(schedule), schedule)
      ensures Committed(c, Now()) == old(Committed(c, Now())) && Current(c, Now()) == old(Current(c, Now()))
    {
      hide Inv, Exec, DiskOk, Committed, Current, Apply, Enabled, SpecStep;
      var tail := 0;
      while tail < n
        invariant tail <= n && Valid() && AllIdle() && phase == Logging(tail) && Grows(old(schedule), schedule)
        invariant Committed(c, Now()) == old(Committed(c, Now())) && Current(c, Now()) == old(Current(c, Now()))
      {
        WriteLogBlock(tail);
        tail := tail + 1;
      }
    }

    /** The bytes write_head puts into the header block, written word by word. */
    method EncodeHeader(buf: Block) returns (hb: Block)
      requires n <= LOGSIZE == |block| && Words(block[..n])
      ensures hb == EncodeHead(buf, block[..n])
    {
      hb := PutWord(buf, 0, n);
      var i := 0;
      while i < n
        invariant i <= n && hb == PutBlocks(PutWord(buf, 0, n), block[..i])
      {
        assert block[..i + 1][..i] == block[..i] && Words(block[..i + 1]);
        hb := PutWord(hb, 1 + i, block[i]);
        i := i + 1;
      }
    }

    /** write_head when all logged blocks are in the log: the commit point. */
    method WriteHead()
      requires Valid() && AllIdle() && Alive() && phase == Logging(n)
      modifies this`disk, this`cache, this`schedule, this`phase
      ensures Valid() && AllIdle() && phase == Installing(0, false) && Grows(old(schedule), schedule)
      ensures Committed(c, Now()) == old(Current(c, Now())) == Current(c, Now())
    {
      hide Inv, Exec, DiskOk, Committed, Current, Apply, Enabled, SpecStep;
      var buf := Bread(c.start);
      var hb := EncodeHeader(buf);
      ExtendWriteHead(c, s0, schedule, Now());
      Record(c.start, hb, LogMachine.Step.WriteHead, Installing(0, false));
    }

    /** One turn of install_trans's loop. */
    method InstallBlock(tail: nat)
      requires Valid() && AllIdle() && Alive() && phase.Installing? && phase.tail == tail < n
      modifies this`disk, this`cache, this`schedule, this`phase
      ensures Valid() && AllIdle() && phase == Installing(tail + 1, old(phase).booting)
      ensures Grows(old(schedule), schedule)
      ensures Committed(c, Now()) == old(Committed(c, Now())) && Current(c, Now()) == old(Current(c, Now()))
    {
      hide Inv, Exec, DiskOk, Committed, Current, Apply, Enabled, SpecStep, LoggedOk, Config.Slot, Config.Valid;
      LoggedBounds(c, block[..n], tail);
      var lbuf := Bread(c.Slot(tail));
      var dbuf := Bread(block[tail]);
      ExtendInstall(c, s0, schedule, Now(), tail, phase.booting);
      Record(block[tail], lbuf, Install, Installing(tail + 1, phase.booting));
    }

    /** Copy committed blocks from the log to their home locations. */
    method InstallTrans()
      requires Valid() && AllIdle() && Alive() && phase.Installing? && phase.tail == 0
      modifies this`disk, this`cache, this`schedule, this`phase
      ensures Valid() && AllIdle() && phase == Installing(n, old(phase).booting) && Grows(old(schedule), schedule)
      ensures Committed(c, Now()) == old(Committed(c, Now())) && Current(c, Now()) == old(Current(c, Now()))
    {
      hide Inv, Exec, DiskOk, Committed, Current, Apply, Enabled, SpecStep;
      var tail := 0;
      while tail < n
        invariant tail <= n && Valid() && AllIdle() && Grows(old(schedule), schedule)
        invariant phase == Installing(tail, old(phase).booting)
        invariant Committed(c, Now()) == old(Committed(c, Now())) && Current(c, Now()) == old(Current(c, Now()))
      {
        InstallBlock(tail);
        tail := tail + 1;
      }
    }

    /** The empty header is written: the transaction is erased. */
    method ClearHead()
      requires Valid() && AllIdle() && Alive() && phase.Installing? && phase.tail == n
      modifies this`disk, this`cache, this`schedule, this`phase, this`n, this`committing
      ensures Valid() && AllIdle() && n == 0 && Grows(old(schedule), schedule)
      ensures phase == if old(phase).booting then Running else Finishing
      ensures Committed(c, Now()) == old(Committed(c, Now())) && Current(c, Now()) == old(Current(c, Now()))
    {
      hide Inv, Exec, DiskOk, Committed, Current, Apply, Enabled, SpecStep, LoggedOk, Config.Valid, Words, EncodeHead;
      StartInRange(c);
      var buf := Bread(c.start);
      Erase(buf);
    }

    method Erase(buf: Block)
      requires Valid() && AllIdle() && Alive() && phase.Installing? && phase.tail == n && c.start < |disk|
      requires buf == View(c.start)
      modifies this`disk, this`cache, this`schedule, this`phase, this`n, this`committing
      ensures Valid() && AllIdle() && n == 0 && schedule == old(schedule) + [LogMachine.Step.ClearHead]
      ensures phase == if old(phase).booting then Running else Finishing
      ensures Committed(c, Now()) == old(Committed(c, Now())) && Current(c, Now()) == old(Current(c, Now()))
    {
      hide Inv, Exec, DiskOk, Committed, Current, Apply, Enabled, SpecStep, LoggedOk, Config.Valid, Words, EncodeHead;
      ExtendClearHead(c, s0, schedule, Now(), phase.booting);
      NothingLogged(c, block);
      n := 0;
      var hb := EncodeHeader(buf);
      Bwrite(c.start, hb);
      phase, schedule := if phase.booting then Running else Finishing, schedule + [LogMachine.Step.ClearHead];
    }

    /** A machine stop at any point of commit leaves, after recovery, all old or all new contents. */
    method Commit()
      requires Valid() && AllIdle() && Alive() && phase == if n > 0 then Logging(0) else Finishing
      modifies this`disk, this`cache, this`schedule, this`phase, this`n, this`committing
      ensures Valid() && AllIdle() && phase == Finishing && n == 0
      ensures Committed(c, Now()) == old(Current(c, Now())) == Current(c, Now())
      ensures Grows(old(schedule), schedule)
      ensures forall k :: |old(schedule)| <= k <= |schedule| ==>
                AllOrNothing(c, s0, schedule[..k], old(Now()))
    {
      hide Inv, Exec, DiskOk, Committed, Current, Apply, Enabled, SpecStep;
      if n > 0 {
        WriteLog();
        WriteHead();
        InstallTrans();
        ClearHead();
      } else {
        EmptyCommit(c, Now());
      }
      forall k | |old(schedule)| <= k <= |schedule|
        ensures AllOrNothing(c, s0, schedule[..k], old(Now()))
      {
        CrashAnywhere(c, s0, old(schedule), schedule, old(Now()), k);
      }
    }

    // ------------------------------------------------------------ recovery

    /** The block numbers in a header block, copied word by word. */
    method LoadHeader(buf: Block)
      requires HeadCount(buf) <= LOGSIZE == |block|
      modifies this`n, this`block
      ensures n <= LOGSIZE == |block| && block[..n] == HeaderOf(buf)
    {
      n := HeadCount(buf);
      var i := 0;
      while i < n
        modifies this`block
        invariant i <= n <= LOGSIZE == |block|
        invariant forall j :: 0 <= j < i ==> block[j] == WordAt(buf, 1 + j)
      {
        block := block[i := WordAt(buf, 1 + i)];
        i := i + 1;
      }
      assert block[..n] == HeaderOf(buf);
    }

    method ReadHead()
      requires Valid() && Alive() && phase == Booting && AllIdle()
      modifies this`cache, this`schedule, this`phase, this`n, this`block
      ensures Valid() && AllIdle() && phase == Installing(0, true) && Grows(old(schedule), schedule)
      ensures HeadCount(disk[c.start]) <= LOGSIZE && block[..n] == HeaderOf(disk[c.start])
      ensures Committed(c, Now()) == old(Committed(c, Now())) && Current(c, Now()) == old(Current(c, Now()))
    {
      hide Inv, Exec, DiskOk, Committed, Current, Apply, Enabled, SpecStep;
      var buf := Bread(c.start);
      ExtendReadHead(c, s0, schedule, Now());
      LoadHeader(buf);
      phase, schedule := Installing(0, true), schedule + [LogMachine.Step.ReadHead];
    }

    /** Recovery puts the committed contents back, and a stop in the middle of it changes nothing. */
    method RecoverFromLog()
      requires Valid() && Alive() && phase == Booting && AllIdle()
      modifies this`disk, this`cache, this`schedule, this`phase, this`n, this`block, this`committing
      ensures Valid() && AllIdle() && phase == Running && n == 0
      ensures Current(c, Now()) == Committed(c, Now()) == old(Committed(c, Now()))
      ensures forall k :: |old(schedule)| <= k <= |schedule| ==>
                AllOrNothing(c, s0, schedule[..k], old(Now()))
      ensures old(Current(c, Now())) == old(Committed(c, Now()))
    {
      hide Inv, Exec, DiskOk, Committed;
      ReadHead();
      InstallTrans();
      ClearHead();
      forall k | |old(schedule)| <= k <= |schedule|
        ensures AllOrNothing(c, s0, schedule[..k], old(Now()))
      {
        CrashAnywhere(c, s0, old(schedule), schedule, old(Now()), k);
      }
    }

    // ------------------------------------------------------------ operations

    /** One pass of begin_op's loop: admitted, or asleep until a wakeup. */
    method BeginOp(p: Proc) returns (admitted: bool)
      requires Valid() && Alive() && !Now().InRecovery() && p !in ops && p !in asleep
      modifies this`outstanding, this`schedule, this`ops, this`asleep
      ensures Valid() && admitted == !old(MustWait(Now()))
      ensures Inv(c, old(Now())) && Now() == Apply(c, old(Now()), LogMachine.Step.BeginOp(p))
    {
      hide Inv, Exec, DiskOk, Committed, Current, Apply, Enabled, SpecStep;
      ExtendBeginOp(c, s0, schedule, Now(), p);
      if committing {
        admitted := false;
      } else if n + (outstanding + 1) * MAXOPBLOCKS > LOGSIZE {
        admitted := false;
      } else {
        admitted := true;
        outstanding := outstanding + 1;
      }
      if admitted { ops := ops[p := {}]; } else { asleep := asleep + {p}; }
      schedule := schedule + [LogMachine.Step.BeginOp(p)];
    }

    /** The position of block b among the logged ones, or n. */
    method FindLogged(b: nat) returns (i: nat)
      requires n <= |block|
      ensures i <= n && b !in block[..i] && (i < n ==> block[i] == b)
    {
      i := 0;
      while i < n && block[i] != b
        invariant i <= n && b !in block[..i]
      {
        i := i + 1;
      }
    }

    /** log_write's test for room, made before the lock is taken. */
    method LogTest(p: Proc, b: nat)
      requires Valid() && Alive() && p !in passed && p in ops && Holds(Now(), p, b) && c.Home(b)
      modifies this`schedule, this`passed, this`panicked
      ensures Valid() && Inv(c, old(Now())) && Now() == Apply(c, old(Now()), LogMachine.Step.LogTest(p, b))
      ensures !panicked ==> p in passed && passed[p] == b && n < c.Capacity()
    {
      hide Inv, Exec, DiskOk, Committed, Current, Apply, Enabled, SpecStep, LoggedOk, Holds;
      ExtendLogTest(c, s0, schedule, Now(), p, b);
      schedule := schedule + [LogMachine.Step.LogTest(p, b)];
      if n >= LOGSIZE || n >= c.size - 1 {
        panicked := true;
      } else {
        passed := passed[p := b];
      }
    }

    /** Put block b in lh.block unless it is there; the store may be one past the end of the array. */
    method Absorb(b: nat) returns (added: bool)
      requires n <= |block|
      modifies this`n, this`block
      ensures added <==> b !in old(block[..n])
      ensures n <= |block| && block[..n] == if added then old(block[..n]) + [b] else old(block[..n])
      ensures |block| == if added && old(n) == old(|block|) then n else old(|block|)
    {
      var i := FindLogged(b);
      Logged(block, n, i, b);
      added := i == n;
      block := Stored(block, i, b);
      if i == n {
        n := n + 1;
      }
    }

    /** Under the lock: record the block, absorbing a block already logged, and pin its buffer. */
    method LogAppend(p: Proc, b: nat)
      requires Valid() && Alive() && p in passed && passed[p] == b
      modifies this`cache, this`schedule, this`ops, this`passed, this`n, this`block, this`overrun
      ensures Valid() && schedule == old(schedule) + [LogMachine.Step.LogAppend(p, b)]
      ensures c.Valid() && p in old(ops) && b in old(cache) && Now() == Appended(c, old(Now()), p, b)
    {
      hide Inv, Apply, Enabled, Represents, Config.Valid, Config.Capacity;
      ghost var s := Now();
      AppendRepresents(c, s0, schedule, s, p, b, |block|, if b !in s.lh && |s.lh| == |block| then |block| + 1 else |block|,
                       outstanding, committing);
      var added := Absorb(b);
      cache := cache[b := cache[b].(dirty := true, touched := false)];
      ghost var s' := Appended(c, s, p, b);
      ops, passed, overrun, schedule := s'.ops, s'.passed, s'.overrun, schedule + [LogMachine.Step.LogAppend(p, b)];
      assert Now() == s';
    }

    /** log_write with nobody in between: a block is recorded or the kernel panics, and nothing overruns. */
    method LogWrite(p: Proc, b: nat)
      requires Valid() && Alive() && p !in passed && p in ops && Holds(Now(), p, b) && c.Home(b)
      modifies this`cache, this`schedule, this`ops, this`passed, this`n, this`block, this`panicked, this`overrun
      ensures Valid() && !overrun && disk == old(disk) && passed == old(passed)
      ensures panicked <==> old(n) >= c.Capacity()
      ensures !panicked ==> block[..n] == if b in old(block[..n]) then old(block[..n]) else old(block[..n]) + [b]
      ensures Committed(c, Now()) == old(Committed(c, Now())) && Current(c, Now()) == old(Current(c, Now()))
    {
      hide Inv, Exec, DiskOk, Committed, Current, LoggedOk, Holds;
      Extend(c, s0, schedule, Now(), LogMachine.Step.LogTest(p, b));
      LogTest(p, b);
      if !panicked {
        Extend(c, s0, schedule, Now(), LogMachine.Step.LogAppend(p, b));
        LogAppend(p, b);
        assert passed == old(passed);
      }
    }

    /** The last operation is out: commit without holding the lock, then let everybody in again. */
    method CommitAndWake()
      requires Valid() && AllIdle() && Alive() && phase == if n > 0 then Logging(0) else Finishing
      modifies this
      ensures Valid() && Alive() && ops == old(ops) && asleep == {} && phase == Running && n == 0
      ensures Committed(c, Now()) == old(Current(c, Now())) == Current(c, Now())
    {
      hide Inv, Exec, DiskOk, Committed, Current, Apply, Enabled, SpecStep, AllOrNothing;
      Commit();
      ExtendFinish(c, s0, schedule, Now());
      committing := false;
      asleep, phase, schedule := {}, Running, schedule + [Finish];
    }

    /** end_op: the last operation out commits; everybody waiting in begin_op is woken. */
    method EndOp(p: Proc)
      requires Valid() && Alive() && p in ops && HoldsNothing(Now(), p) && (ops.Keys == {p} ==> AllIdle())
      modifies this
      ensures Valid() && Alive() && ops == old(ops) - {p} && asleep == {}
      ensures old(ops).Keys == {p} ==>
                n == 0 && Committed(c, Now()) == old(Current(c, Now())) == Current(c, Now())
      ensures old(ops).Keys != {p} ==>
                disk == old(disk) && Committed(c, Now()) == old(Committed(c, Now())) && Current(c, Now()) == old(Current(c, Now()))
    {
      hide Inv, Exec, DiskOk, Committed, Current, Apply, Enabled, SpecStep;
      ExtendEndOp(c, s0, schedule, Now(), p);
      LastOut(ops, p);
      schedule := schedule + [LogMachine.Step.EndOp(p)];
      ops := ops - {p};
      outstanding := outstanding - 1;
      if outstanding == 0 {
        committing := true;
        phase := if n == 0 then Finishing else Logging(0);
        assert ops == map[];
        assert n == 0 <==> block[..n] == [];
        CommitAndWake();
      } else {
        asleep := {};
      }
    }
  }
}
