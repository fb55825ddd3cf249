/**
 The write-ahead log with group commit (log.c) over the buffer cache (bio.c), as a step
 system.  One step is one section of code that no other process can observe half-done:
 a section under log.lock, one use of a BUSY buffer, one block write, or the one read of
 log.lh.n with which log_write tests for room before it takes the lock.  A crash may come
 between any two steps, also in the middle of recovery.

 Because that test is outside the lock, two processes can pass it together and both append.
 An append beyond the log's capacity sets `overrun`, and the machine goes no further: the
 code would write past the header array, or past the log area.
 */
module LogMachine {
  import opened Common
  import opened Blocks

  type Proc = nat

  /** log.start, log.size (header included) and the number of blocks on the disk. */
  datatype Config = Config(start: nat, size: nat, blocks: nat) {
    predicate Valid() {
      1 <= size && start + size <= blocks <= WORD_LIMIT
    }

    predicate InLog(b: nat) {
      start <= b < start + size
    }

    /** The log block that holds the i-th logged block. */
    function Slot(i: nat): nat { start + 1 + i }

    predicate Home(b: nat) {
      b < blocks && !InLog(b)
    }

    /** The bound log_write tests, besides the array bound LOGSIZE. */
    function Capacity(): nat
      requires Valid()
    {
      if LOGSIZE <= size - 1 then LOGSIZE else size - 1
    }
  }

  /** A valid cached block.  `touched`: changed by its holder, not yet passed to log_write. */
  datatype Buf = Buf(data: Block, dirty: bool, touched: bool, holder: Option<Proc>)

  /** `Logging(t)`, `Installing(t, _)`: t blocks have been copied; `booting`: run by recovery. */
  datatype Phase =
    | Running
    | Logging(tail: nat)
    | Installing(tail: nat, booting: bool)
    | Finishing
    | Booting

  datatype State = State(
    disk: Disk,
    cache: map<nat, Buf>,
    lh: seq<nat>,                 // log.lh.block[..log.lh.n]
    ops: map<Proc, set<nat>>,     // operations between begin_op and end_op, with the blocks each has logged
    passed: map<Proc, nat>,       // processes between log_write's test and its append, with the block
    asleep: set<Proc>,            // processes asleep in begin_op
    phase: Phase,
    panicked: bool,
    overrun: bool)
  {
    predicate Alive() { !panicked && !overrun }
    predicate Committing() { phase.Logging? || phase.Finishing? || (phase.Installing? && !phase.booting) }
    predicate InRecovery() { phase.Booting? || (phase.Installing? && phase.booting) }

    /** What bread returns for block b. */
    function View(b: nat): Block
      requires b < |disk|
    {
      if b in cache then cache[b].data else disk[b]
    }

    predicate Idle(b: nat) { b in cache ==> cache[b].holder.None? }
  }

  // ---------------------------------------------------------------- the on-disk header

  function HeadCount(b: Block): nat { WordAt(b, 0) }

  function HeaderOf(b: Block): seq<nat>
    requires HeadCount(b) <= LOGSIZE
  {
    seq(HeadCount(b), i requires 0 <= i < HeadCount(b) => WordAt(b, 1 + i) as nat)
  }

  predicate Words(s: seq<nat>) { forall i :: 0 <= i < |s| ==> s[i] < WORD_LIMIT }

  /** The block write_head writes: the first |lh| + 1 words of `b` replaced. */
  function EncodeHead(b: Block, lh: seq<nat>): Block
    requires |lh| <= LOGSIZE && Words(lh)
  {
    PutBlocks(PutWord(b, 0, |lh|), lh)
  }

  function PutBlocks(b: Block, lh: seq<nat>): Block
    requires |lh| <= LOGSIZE && Words(lh)
  {
    if lh == [] then b else PutWord(PutBlocks(b, lh[..|lh| - 1]), |lh|, lh[|lh| - 1])
  }

  lemma {:induction false} PutBlocksWords(b: Block, lh: seq<nat>)
    requires |lh| <= LOGSIZE && Words(lh)
    ensures WordAt(PutBlocks(b, lh), 0) == WordAt(b, 0)
    ensures forall i :: 0 <= i < |lh| ==> WordAt(PutBlocks(b, lh), 1 + i) == lh[i]
  {
    if lh != [] {
      var front := lh[..|lh| - 1];
      PutBlocksWords(b, front);
      forall j | 0 <= j <= |lh| {
        WordOfPut(PutBlocks(b, front), |lh|, lh[|lh| - 1], j);
      }
    }
  }

  /** read_head undoes write_head, whatever the header block held before. */
  lemma HeaderRoundTrip(b: Block, lh: seq<nat>)
    requires |lh| <= LOGSIZE && Words(lh)
    ensures HeadCount(EncodeHead(b, lh)) == |lh|
    ensures HeaderOf(EncodeHead(b, lh)) == lh
    ensures WordAt(EncodeHead(b, lh), 0) == |lh| && forall i :: 0 <= i < |lh| ==> WordAt(EncodeHead(b, lh), 1 + i) == lh[i]
  {
    PutBlocksWords(PutWord(b, 0, |lh|), lh);
    WordOfPut(b, 0, |lh|, 0);
  }

  // ---------------------------------------------------------------- what recovery yields

  predicate Distinct(s: seq<nat>) { forall i, j :: 0 <= i < j < |s| ==> s[i] != s[j] }

  predicate LoggedOk(c: Config, lh: seq<nat>)
    requires c.Valid()
  {
    && |lh| <= c.Capacity()
    && Distinct(lh)
    && forall i :: 0 <= i < |lh| ==> c.Home(lh[i])
  }

  predicate DiskOk(c: Config, d: Disk)
    requires c.Valid()
  {
    && |d| == c.blocks
    && HeadCount(d[c.start]) <= LOGSIZE
    && LoggedOk(c, HeaderOf(d[c.start]))
  }

  function IndexOf(s: seq<nat>, b: nat): (k: nat)
    requires b in s
    ensures k < |s| && s[k] == b
  {
    if s[|s| - 1] == b then |s| - 1 else IndexOf(s[..|s| - 1], b)
  }

  /** Block b as recovery leaves it when the header on disk names `lh`. */
  function RecoveredBlock(c: Config, d: Disk, lh: seq<nat>, b: nat): Block
    requires c.Valid() && |d| == c.blocks && LoggedOk(c, lh) && b < c.blocks
  {
    if c.InLog(b) then ZeroBlock()
    else if b in lh then d[c.Slot(IndexOf(lh, b))]
    else d[b]
  }

  /** The home blocks as recovery will leave them if the machine stops now. */
  function Committed(c: Config, s: State): Disk
    requires c.Valid() && DiskOk(c, s.disk)
  {
    seq(c.blocks, b requires 0 <= b < c.blocks => RecoveredBlock(c, s.disk, HeaderOf(s.disk[c.start]), b))
  }

  /** The home blocks as the running system sees them through bread. */
  function Current(c: Config, s: State): Disk
    requires c.Valid() && DiskOk(c, s.disk)
  {
    if s.InRecovery() then Committed(c, s)
    else seq(c.blocks, b requires 0 <= b < c.blocks => if c.InLog(b) then ZeroBlock() else s.View(b))
  }

  // ---------------------------------------------------------------- steps

  datatype Step =
    | Bread(p: Proc, b: nat)
    | Modify(p: Proc, b: nat, v: Block)
    | LogTest(p: Proc, b: nat)
    | LogAppend(p: Proc, b: nat)
    | Brelse(p: Proc, b: nat)
    | Evict(b: nat)
    | BeginOp(p: Proc)
    | EndOp(p: Proc)
    | WriteLog
    | WriteHead
    | Install
    | ClearHead
    | Finish
    | Crash
    | ReadHead

  predicate Holds(s: State, p: Proc, b: nat) { b in s.cache && s.cache[b].holder == Some(p) }

  predicate HoldsNothing(s: State, p: Proc) { forall b :: b in s.cache ==> s.cache[b].holder != Some(p) }

  /** begin_op must wait: a commit is running, or the log might not hold another operation. */
  predicate MustWait(s: State) {
    s.Committing() || |s.lh| + (|s.ops| + 1) * MAXOPBLOCKS > LOGSIZE
  }

  predicate Enabled(c: Config, s: State, step: Step)
    requires c.Valid()
  {
    && |s.disk| == c.blocks
    && !s.overrun && (s.panicked ==> step.Crash?)
    && match step
       case Bread(p, b) => p !in s.passed && b < c.blocks && s.Idle(b)
       case Modify(p, b, v) => p !in s.passed && p in s.ops && Holds(s, p, b) && c.Home(b)
       case LogTest(p, b) => p !in s.passed && p in s.ops && Holds(s, p, b) && c.Home(b)
       case LogAppend(p, b) => p in s.passed && s.passed[p] == b
       case Brelse(p, b) => p !in s.passed && Holds(s, p, b) && !s.cache[b].touched
       case Evict(b) => b in s.cache && s.Idle(b) && !s.cache[b].dirty
       case BeginOp(p) => !s.InRecovery() && p !in s.ops && p !in s.asleep
       case EndOp(p) => p in s.ops && HoldsNothing(s, p)
       case WriteLog => s.phase.Logging? && s.phase.tail < |s.lh|
                        && s.Idle(s.lh[s.phase.tail]) && s.Idle(c.Slot(s.phase.tail))
       case WriteHead => s.phase.Logging? && s.phase.tail == |s.lh| && s.Idle(c.start)
       case Install => s.phase.Installing? && s.phase.tail < |s.lh|
                       && s.Idle(s.lh[s.phase.tail]) && s.Idle(c.Slot(s.phase.tail))
       case ClearHead => s.phase.Installing? && s.phase.tail == |s.lh| && s.Idle(c.start)
       case Finish => s.phase.Finishing?
       case Crash => true
       case ReadHead => s.phase.Booting?
  }

  /** bread, change the data, bwrite, brelse: disk and cache both hold v, and the buffer is clean. */
  function Bwrite(s: State, b: nat, v: Block): State
    requires b < |s.disk|
  {
    s.(disk := s.disk[b := v], cache := s.cache[b := Buf(v, false, false, None)])
  }

  function Apply(c: Config, s: State, step: Step): State
    requires c.Valid() && Enabled(c, s, step) && Inv(c, s)
  {
    match step
    case Bread(p, b) =>
      if b in s.cache then s.(cache := s.cache[b := s.cache[b].(holder := Some(p))])
      else s.(cache := s.cache[b := Buf(s.disk[b], false, false, Some(p))])
    case Modify(p, b, v) => s.(cache := s.cache[b := s.cache[b].(data := v, touched := true)])
    case LogTest(p, b) =>
      if |s.lh| >= LOGSIZE || |s.lh| >= c.size - 1 then s.(panicked := true)
      else s.(passed := s.passed[p := b])
    case LogAppend(p, b) =>
      s.(lh := if b in s.lh then s.lh else s.lh + [b],
         cache := s.cache[b := s.cache[b].(dirty := true, touched := false)],
         ops := s.ops[p := s.ops[p] + {b}],
         passed := s.passed - {p},
         overrun := b !in s.lh && |s.lh| >= c.Capacity())
    case Brelse(p, b) => s.(cache := s.cache[b := s.cache[b].(holder := None)])
    case Evict(b) => s.(cache := s.cache - {b})
    case BeginOp(p) =>
      if MustWait(s) then s.(asleep := s.asleep + {p}) else s.(ops := s.ops[p := {}])
    case EndOp(p) =>
      if s.Committing() then s.(ops := s.ops - {p}, panicked := true)
      else if s.ops.Keys == {p} then s.(ops := map[], phase := if s.lh == [] then Finishing else Logging(0))
      else s.(ops := s.ops - {p}, asleep := {})
    case WriteLog =>
      var t := s.phase.tail;
      Bwrite(s, c.Slot(t), s.View(s.lh[t])).(phase := Logging(t + 1))
    case WriteHead =>
      Bwrite(s, c.start, EncodeHead(s.View(c.start), s.lh)).(phase := Installing(0, false))
    case Install =>
      var t := s.phase.tail;
      Bwrite(s, s.lh[t], s.View(c.Slot(t))).(phase := Installing(t + 1, s.phase.booting))
    case ClearHead =>
      Bwrite(s, c.start, EncodeHead(s.View(c.start), [])).(lh := [], phase := if s.phase.booting then Running else Finishing)
    case Finish => s.(phase := Running, asleep := {})
    case Crash => State(s.disk, map[], [], map[], map[], {}, Booting, false, false)
    case ReadHead => s.(lh := HeaderOf(s.View(c.start)), phase := Installing(0, true))
  }

  // ---------------------------------------------------------------- the invariant

  /** Every buffer that is neither dirty nor held half-changed equals its disk block. */
  predicate CacheOk(c: Config, s: State)
    requires |s.disk| == c.blocks
  {
    forall b :: b in s.cache ==>
      && b < c.blocks
      && (!s.cache[b].dirty && !s.cache[b].touched ==> s.cache[b].data == s.disk[b])
      && (s.cache[b].touched ==> c.Home(b) && s.cache[b].holder.Some? && s.cache[b].holder.value in s.ops)
      && (s.cache[b].dirty ==> b in s.lh)
  }

  /** Logged blocks from position t on are pinned in the cache. */
  predicate Pinned(s: State, t: nat) {
    forall i :: t <= i < |s.lh| ==> s.lh[i] in s.cache && s.cache[s.lh[i]].dirty
  }

  predicate Clean(s: State) { forall b :: b in s.cache ==> !s.cache[b].dirty }

  /** The first t logged blocks have been copied to the log. */
  predicate LogHolds(c: Config, s: State, t: nat)
    requires |s.disk| == c.blocks && c.Valid() && LoggedOk(c, s.lh)
  {
    forall i :: 0 <= i < t && i < |s.lh| ==> s.disk[c.Slot(i)] == s.View(s.lh[i])
  }

  /** The first t log blocks have reached their home locations. */
  predicate Installed(c: Config, s: State, t: nat)
    requires |s.disk| == c.blocks && c.Valid() && LoggedOk(c, s.lh)
  {
    forall i :: 0 <= i < t && i < |s.lh| ==>
      && s.disk[s.lh[i]] == s.disk[c.Slot(i)]
      && (s.lh[i] in s.cache ==> !s.cache[s.lh[i]].dirty)
  }

  predicate PhaseOk(c: Config, s: State)
    requires c.Valid() && DiskOk(c, s.disk) && LoggedOk(c, s.lh)
  {
    match s.phase
    case Running => HeadCount(s.disk[c.start]) == 0 && Pinned(s, 0) && (s.ops == map[] ==> s.lh == [])
    case Logging(t) =>
      HeadCount(s.disk[c.start]) == 0 && Pinned(s, 0) && t <= |s.lh| && LogHolds(c, s, t)
    case Installing(t, booting) =>
      && HeaderOf(s.disk[c.start]) == s.lh && t <= |s.lh| && Installed(c, s, t)
      && (if booting then Clean(s)
          else Pinned(s, t) && LogHolds(c, s, |s.lh|))
    case Finishing => HeadCount(s.disk[c.start]) == 0 && s.lh == []
    case Booting => s.lh == []
  }

  /** A process between the test and the append holds the block it is about to append. */
  predicate PassedOk(c: Config, s: State) {
    forall p :: p in s.passed ==> p in s.ops && Holds(s, p, s.passed[p]) && c.Home(s.passed[p])
  }

  predicate RunInv(c: Config, s: State)
    requires c.Valid() && DiskOk(c, s.disk)
  {
    && LoggedOk(c, s.lh)
    && CacheOk(c, s)
    && PhaseOk(c, s)
    && PassedOk(c, s)
    && (!s.phase.Running? ==> s.ops == map[])
    && (s.asleep != {} ==> s.ops != map[] || s.Committing())
  }

  predicate Inv(c: Config, s: State)
    requires c.Valid()
  {
    DiskOk(c, s.disk) && (s.overrun || RunInv(c, s))
  }

  // ---------------------------------------------------------------- every step keeps it

  /**
   What a step does to the pair (Committed, Current).  Only Modify changes what the system
   sees, only write_head changes what a crash would leave, and it does so at once and for
   whole operations.
   */
  predicate SpecStep(c: Config, s: State, s': State, step: Step)
    requires c.Valid() && DiskOk(c, s.disk) && DiskOk(c, s'.disk)
  {
    match step
    case Modify(p, b, v) =>
      b < c.blocks && Current(c, s') == Current(c, s)[b := v] && Committed(c, s') == Committed(c, s)
    case WriteHead =>
      s.ops == map[] && Committed(c, s') == Current(c, s) && Current(c, s') == Current(c, s)
    case Crash => Committed(c, s') == Committed(c, s) && Current(c, s') == Committed(c, s)
    case _ => Committed(c, s') == Committed(c, s) && Current(c, s') == Current(c, s)
  }

  predicate GoodStep(c: Config, s: State, step: Step)
    requires c.Valid() && Inv(c, s) && Enabled(c, s, step)
  {
    var s' := Apply(c, s, step);
    Inv(c, s') && SpecStep(c, s, s', step)
  }

  lemma SameView(c: Config, s: State, s': State)
    requires c.Valid() && DiskOk(c, s.disk) && s'.disk == s.disk && s'.InRecovery() == s.InRecovery()
    requires forall b :: 0 <= b < c.blocks ==> s'.View(b) == s.View(b)
    ensures Committed(c, s') == Committed(c, s) && Current(c, s') == Current(c, s)
  {
  }

  /** Installing a log block at home leaves what recovery yields as it was. */
  lemma InstallKeepsRecovered(c: Config, d: Disk, lh: seq<nat>, t: nat, b: nat)
    requires c.Valid() && |d| == c.blocks && LoggedOk(c, lh) && t < |lh| && b < c.blocks
    ensures RecoveredBlock(c, d[lh[t] := d[c.Slot(t)]], lh, b) == RecoveredBlock(c, d, lh, b)
  {
  }

  /** Holders may change, clean copies may come and go: nothing else depends on them. */
  lemma SameContents(c: Config, s: State, s': State)
    requires c.Valid() && Inv(c, s) && !s.overrun && s' == s.(cache := s'.cache)
    requires forall b :: 0 <= b < c.blocks ==> s'.View(b) == s.View(b)
    requires forall b :: b in s'.cache && s'.cache[b].dirty <==> b in s.cache && s.cache[b].dirty
    requires CacheOk(c, s') && PassedOk(c, s')
    ensures Inv(c, s')
  {
    hide WordAt, CacheOk, PassedOk;
  }

  lemma BreadCache(c: Config, s: State, step: Step)
    requires c.Valid() && Inv(c, s) && Enabled(c, s, step) && step.Bread?
    ensures var s' := Apply(c, s, step);
            && CacheOk(c, s') && PassedOk(c, s') && forall b :: 0 <= b < c.blocks ==> s'.View(b) == s.View(b)
  {
    hide PhaseOk, DiskOk, LoggedOk;
  }

  lemma BreadStep(c: Config, s: State, step: Step)
    requires c.Valid() && Inv(c, s) && Enabled(c, s, step) && step.Bread?
    ensures GoodStep(c, s, step)
  {
    hide RunInv, DiskOk, CacheOk, PassedOk;
    BreadCache(c, s, step);
    SameContents(c, s, Apply(c, s, step));
    SameView(c, s, Apply(c, s, step));
  }

  lemma BrelseCache(c: Config, s: State, step: Step)
    requires c.Valid() && Inv(c, s) && Enabled(c, s, step) && step.Brelse?
    ensures CacheOk(c, Apply(c, s, step)) && PassedOk(c, Apply(c, s, step))
  {
    hide PhaseOk, DiskOk, LoggedOk;
  }

  lemma BrelseStep(c: Config, s: State, step: Step)
    requires c.Valid() && Inv(c, s) && Enabled(c, s, step) && step.Brelse?
    ensures GoodStep(c, s, step)
  {
    hide RunInv, DiskOk, CacheOk, PassedOk;
    BrelseCache(c, s, step);
    SameContents(c, s, Apply(c, s, step));
    SameView(c, s, Apply(c, s, step));
  }

  lemma EvictCache(c: Config, s: State, step: Step)
    requires c.Valid() && Inv(c, s) && Enabled(c, s, step) && step.Evict?
    ensures var s' := Apply(c, s, step);
            && CacheOk(c, s') && PassedOk(c, s') && forall b :: 0 <= b < c.blocks ==> s'.View(b) == s.View(b)
  {
    hide PhaseOk, DiskOk, LoggedOk;
  }

  /** Dropping a clean buffer loses nothing: the disk has the same contents. */
  lemma EvictStep(c: Config, s: State, step: Step)
    requires c.Valid() && Inv(c, s) && Enabled(c, s, step) && step.Evict?
    ensures GoodStep(c, s, step)
  {
    hide RunInv, DiskOk, CacheOk, PassedOk;
    EvictCache(c, s, step);
    SameContents(c, s, Apply(c, s, step));
    SameView(c, s, Apply(c, s, step));
  }

  lemma ModifyInv(c: Config, s: State, step: Step)
    requires c.Valid() && Inv(c, s) && Enabled(c, s, step) && step.Modify?
    ensures Inv(c, Apply(c, s, step))
  {
    hide DiskOk, LoggedOk;
    assert s.phase.Running?;
  }

  lemma ModifyStep(c: Config, s: State, step: Step)
    requires c.Valid() && Inv(c, s) && Enabled(c, s, step) && step.Modify?
    ensures GoodStep(c, s, step)
  {
    hide DiskOk, LoggedOk, CacheOk, PassedOk;
    ModifyInv(c, s, step);
    var s' := Apply(c, s, step);
    assert s.phase.Running?;
    assert Committed(c, s') == Committed(c, s);
    assert Current(c, s') == Current(c, s)[step.b := step.v];
  }

  lemma LogTestStep(c: Config, s: State, step: Step)
    requires c.Valid() && Inv(c, s) && Enabled(c, s, step) && step.LogTest?
    ensures GoodStep(c, s, step)
  {
    hide PhaseOk, DiskOk, LoggedOk, CacheOk, WordAt;
    var s' := Apply(c, s, step);
    LogTestPhase(c, s, s');
    SameView(c, s, s');
  }

  lemma LogTestPhase(c: Config, s: State, s': State)
    requires c.Valid() && DiskOk(c, s.disk) && RunInv(c, s)
    requires s' == s.(passed := s'.passed, panicked := s'.panicked)
    ensures CacheOk(c, s') && PhaseOk(c, s')
  {
    hide DiskOk, LoggedOk;
  }

  lemma AppendedLog(c: Config, s: State, b: nat)
    requires c.Valid() && LoggedOk(c, s.lh) && c.Home(b) && |s.lh| < c.Capacity()
    ensures LoggedOk(c, if b in s.lh then s.lh else s.lh + [b])
  {
  }

  lemma AppendedCache(c: Config, s: State, p: Proc, b: nat)
    requires c.Valid() && DiskOk(c, s.disk) && RunInv(c, s) && Enabled(c, s, LogAppend(p, b))
    ensures CacheOk(c, Apply(c, s, LogAppend(p, b))) && PassedOk(c, Apply(c, s, LogAppend(p, b)))
  {
    hide PhaseOk, LoggedOk, DiskOk;
  }

  lemma AppenderHolds(c: Config, s: State, p: Proc, b: nat)
    requires c.Valid() && Inv(c, s) && Enabled(c, s, LogAppend(p, b))
    ensures RunInv(c, s) && s.phase.Running? && p in s.ops && Holds(s, p, b) && c.Home(b)
  {
  }

  lemma AppendInv(c: Config, s: State, p: Proc, b: nat)
    requires c.Valid() && Inv(c, s) && Enabled(c, s, LogAppend(p, b))
    ensures Inv(c, Apply(c, s, LogAppend(p, b)))
  {
    hide CacheOk, PassedOk, LoggedOk, DiskOk;
    var s' := Apply(c, s, LogAppend(p, b));
    AppenderHolds(c, s, p, b);
    if !s'.overrun {
      AppendedCache(c, s, p, b);
      if |s.lh| < c.Capacity() { AppendedLog(c, s, b); }
      assert Pinned(s', 0);
    }
  }

  lemma LogAppendStep(c: Config, s: State, p: Proc, b: nat)
    requires c.Valid() && Inv(c, s) && Enabled(c, s, LogAppend(p, b))
    ensures GoodStep(c, s, LogAppend(p, b))
  {
    AppendInv(c, s, p, b);
    SameView(c, s, Apply(c, s, LogAppend(p, b)));
  }

  lemma SleepInv(c: Config, s: State, step: Step)
    requires c.Valid() && Inv(c, s) && Enabled(c, s, step) && step.BeginOp? && MustWait(s)
    ensures Inv(c, Apply(c, s, step))
  {
    hide DiskOk, LoggedOk;
    assert s.phase.Running? && s.ops == map[] ==> |s.lh| == 0 && |s.ops| == 0;
  }

  lemma AdmitInv(c: Config, s: State, step: Step)
    requires c.Valid() && Inv(c, s) && Enabled(c, s, step) && step.BeginOp? && !MustWait(s)
    ensures Inv(c, Apply(c, s, step))
  {
    hide DiskOk, LoggedOk;
    var s' := Apply(c, s, step);
    assert s.phase.Running?;
    assert step.p in s'.ops;
    assert CacheOk(c, s');
  }

  lemma BeginOpStep(c: Config, s: State, step: Step)
    requires c.Valid() && Inv(c, s) && Enabled(c, s, step) && step.BeginOp?
    ensures GoodStep(c, s, step)
  {
    if MustWait(s) {
      SleepInv(c, s, step);
    } else {
      AdmitInv(c, s, step);
    }
    SameView(c, s, Apply(c, s, step));
  }

  lemma FinishStep(c: Config, s: State)
    requires c.Valid() && Inv(c, s) && Enabled(c, s, Finish)
    ensures GoodStep(c, s, Finish)
  {
    SameView(c, s, Apply(c, s, Finish));
  }

  lemma EndOpInv(c: Config, s: State, step: Step)
    requires c.Valid() && Inv(c, s) && Enabled(c, s, step) && step.EndOp?
    ensures Inv(c, Apply(c, s, step))
  {
    hide DiskOk, LoggedOk;
    var s' := Apply(c, s, step);
    if s'.ops == map[] {
      assert forall p :: p in s.ops ==> p == step.p || p in s'.ops;
      assert s.ops.Keys == {step.p};
    }
    assert CacheOk(c, s');
  }

  lemma EndOpStep(c: Config, s: State, step: Step)
    requires c.Valid() && Inv(c, s) && Enabled(c, s, step) && step.EndOp?
    ensures GoodStep(c, s, step)
  {
    EndOpInv(c, s, step);
    SameView(c, s, Apply(c, s, step));
  }

  lemma WriteLogCache(c: Config, s: State)
    requires c.Valid() && Inv(c, s) && Enabled(c, s, WriteLog)
    ensures CacheOk(c, Apply(c, s, WriteLog)) && PassedOk(c, Apply(c, s, WriteLog))
  {
    hide WordAt, DiskOk, LogHolds;
  }

  lemma WriteLogInv(c: Config, s: State)
    requires c.Valid() && Inv(c, s) && Enabled(c, s, WriteLog)
    ensures Inv(c, Apply(c, s, WriteLog))
  {
    hide WordAt, CacheOk, PassedOk;
    WriteLogCache(c, s);
    var s' := Apply(c, s, WriteLog);
    assert s'.disk[c.start] == s.disk[c.start];
    assert forall i :: 0 <= i < |s.lh| ==> s'.View(s.lh[i]) == s.View(s.lh[i]);
  }

  lemma WriteLogStep(c: Config, s: State)
    requires c.Valid() && Inv(c, s) && Enabled(c, s, WriteLog)
    ensures GoodStep(c, s, WriteLog)
  {
    hide WordAt, CacheOk, LogHolds, Pinned;
    WriteLogInv(c, s);
    var s' := Apply(c, s, WriteLog);
    assert s'.disk[c.start] == s.disk[c.start];
    assert Committed(c, s') == Committed(c, s);
    assert Current(c, s') == Current(c, s);
  }

  lemma WriteHeadInv(c: Config, s: State)
    requires c.Valid() && Inv(c, s) && Enabled(c, s, WriteHead)
    ensures Inv(c, Apply(c, s, WriteHead))
  {
    hide WordAt, EncodeHead, Clean;
    HeaderRoundTrip(s.View(c.start), s.lh);
  }

  /** The commit point: what a crash would leave jumps to what the system sees. */
  lemma WriteHeadStep(c: Config, s: State)
    requires c.Valid() && Inv(c, s) && Enabled(c, s, WriteHead)
    ensures GoodStep(c, s, WriteHead)
  {
    var s' := Apply(c, s, WriteHead);
    WriteHeadInv(c, s);
    HeaderRoundTrip(s.View(c.start), s.lh);
    forall b | 0 <= b < c.blocks
      ensures RecoveredBlock(c, s'.disk, s.lh, b) == Current(c, s)[b] == Current(c, s')[b]
    {
      WriteHeadAt(c, s, b);
    }
    assert Committed(c, s') == Current(c, s) == Current(c, s');
  }

  lemma WriteHeadAt(c: Config, s: State, b: nat)
    requires c.Valid() && Inv(c, s) && Enabled(c, s, WriteHead) && b < c.blocks
    ensures RecoveredBlock(c, Apply(c, s, WriteHead).disk, s.lh, b) == if c.InLog(b) then ZeroBlock() else s.View(b)
    ensures !c.InLog(b) ==> Apply(c, s, WriteHead).View(b) == s.View(b)
  {
  }

  lemma InstallCacheOk(c: Config, s: State)
    requires c.Valid() && Inv(c, s) && Enabled(c, s, Install)
    ensures var t := s.phase.tail; s.View(c.Slot(t)) == s.disk[c.Slot(t)]
    ensures CacheOk(c, Apply(c, s, Install))
  {
  }

  lemma InstallCopies(c: Config, s: State)
    requires c.Valid() && Inv(c, s) && Enabled(c, s, Install)
    ensures Installed(c, Apply(c, s, Install), s.phase.tail + 1)
  {
    hide DiskOk, PassedOk, Pinned, LogHolds, Clean, WordAt;
    var s' := Apply(c, s, Install);
    InstallCacheOk(c, s);
    assert forall i :: 0 <= i < |s.lh| ==> s'.disk[c.Slot(i)] == s.disk[c.Slot(i)];
  }

  lemma InstallPins(c: Config, s: State)
    requires c.Valid() && Inv(c, s) && Enabled(c, s, Install)
    ensures var s' := Apply(c, s, Install);
            if s.phase.booting then Clean(s') else Pinned(s', s.phase.tail + 1) && LogHolds(c, s', |s.lh|)
  {
    hide DiskOk, PassedOk, WordAt, Installed;
    var s' := Apply(c, s, Install);
    InstallCacheOk(c, s);
    assert forall i :: 0 <= i < |s.lh| ==> s'.disk[c.Slot(i)] == s.disk[c.Slot(i)];
  }

  lemma InstallInv(c: Config, s: State)
    requires c.Valid() && Inv(c, s) && Enabled(c, s, Install)
    ensures Inv(c, Apply(c, s, Install))
  {
    InstallCacheOk(c, s);
    InstallCopies(c, s);
    InstallPins(c, s);
    assert Apply(c, s, Install).disk[c.start] == s.disk[c.start];
  }

  lemma InstallStep(c: Config, s: State)
    requires c.Valid() && Inv(c, s) && Enabled(c, s, Install)
    ensures GoodStep(c, s, Install)
  {
    hide WordAt, CacheOk, PassedOk, Pinned, Installed, Clean;
    var t := s.phase.tail;
    var s' := Apply(c, s, Install);
    InstallInv(c, s);
    InstallCacheOk(c, s);
    forall b | 0 <= b < c.blocks
      ensures RecoveredBlock(c, s'.disk, s.lh, b) == RecoveredBlock(c, s.disk, s.lh, b)
    {
      InstallKeepsRecovered(c, s.disk, s.lh, t, b);
    }
    assert s'.disk[c.start] == s.disk[c.start];
    assert Committed(c, s') == Committed(c, s);
    assert Current(c, s') == Current(c, s);
  }

  lemma ClearHeadInv(c: Config, s: State)
    requires c.Valid() && Inv(c, s) && Enabled(c, s, ClearHead)
    ensures Inv(c, Apply(c, s, ClearHead))
  {
    hide WordAt, EncodeHead;
    HeaderRoundTrip(s.View(c.start), []);
  }

  /** Erasing the header loses nothing: every logged block is at home. */
  lemma ClearHeadStep(c: Config, s: State)
    requires c.Valid() && Inv(c, s) && Enabled(c, s, ClearHead)
    ensures GoodStep(c, s, ClearHead)
  {
    hide WordAt, EncodeHead;
    ClearHeadInv(c, s);
    var s' := Apply(c, s, ClearHead);
    HeaderRoundTrip(s.View(c.start), []);
    assert Committed(c, s') == Committed(c, s);
    assert Current(c, s') == Current(c, s);
  }

  lemma BootStep(c: Config, s: State, step: Step)
    requires c.Valid() && Inv(c, s) && Enabled(c, s, step) && (step.Crash? || step.ReadHead?)
    ensures GoodStep(c, s, step)
  {
    var s' := Apply(c, s, step);
    assert Committed(c, s') == Committed(c, s);
  }

  lemma AnyStep(c: Config, s: State, step: Step)
    requires c.Valid() && Inv(c, s) && Enabled(c, s, step)
    ensures GoodStep(c, s, step)
  {
    match step
    case Bread(_, _) => BreadStep(c, s, step);
    case Modify(_, _, _) => ModifyStep(c, s, step);
    case LogTest(_, _) => LogTestStep(c, s, step);
    case LogAppend(p, b) => LogAppendStep(c, s, p, b);
    case Brelse(_, _) => BrelseStep(c, s, step);
    case Evict(_) => EvictStep(c, s, step);
    case BeginOp(_) => BeginOpStep(c, s, step);
    case EndOp(_) => EndOpStep(c, s, step);
    case WriteLog => WriteLogStep(c, s);
    case WriteHead => WriteHeadStep(c, s);
    case Install => InstallStep(c, s);
    case ClearHead => ClearHeadStep(c, s);
    case Finish => FinishStep(c, s);
    case Crash => BootStep(c, s, step);
    case ReadHead => BootStep(c, s, step);
  }
}
