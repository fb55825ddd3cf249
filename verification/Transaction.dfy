/**
 One operation alone in the log: begin_op, a list of block changes passed to log_write one
 after the other, end_op and the commit it starts.  What the operation does is the list; what
 the machine does with it, and where it can stop, follows from the list.
 */
module Transaction {
  import opened Common
  import opened Blocks
  import opened LogMachine
  import opened LogRuns

  /** bread of block b, its contents set to v, log_write, brelse. */
  datatype Write = Write(b: nat, v: Block)

  /** The disk after the writes. */
  function Play(d: Disk, ws: seq<Write>): (r: Disk)
    ensures |r| == |d|
  {
    if ws == [] then d else
    var r, w := Play(d, ws[..|ws| - 1]), ws[|ws| - 1];
    if w.b < |r| then r[w.b := w.v] else r
  }

  /** The blocks the writes put in the log. */
  function BlocksOf(ws: seq<Write>): set<nat> { set w | w in ws :: w.b }

  /** log_write's test succeeds at every write. */
  predicate RoomFor(c: Config, ws: seq<Write>)
    requires c.Valid()
  {
    forall i :: 0 <= i < |ws| ==> |BlocksOf(ws[..i])| < c.Capacity()
  }

  /** The operation has led from `base` to `d` and has put `logged` in the log. */
  predicate Ran(c: Config, base: Disk, ws: seq<Write>, d: Disk, logged: set<nat>) {
    && c.Valid() && |base| == c.blocks
    && (forall w :: w in ws ==> c.Home(w.b))
    && RoomFor(c, ws)
    && d == Play(base, ws) && logged == BlocksOf(ws)
  }

  lemma RanNothing(c: Config, d: Disk)
    requires c.Valid() && |d| == c.blocks
    ensures Ran(c, d, [], d, {})
  {
  }

  lemma RanMore(c: Config, base: Disk, ws: seq<Write>, d: Disk, logged: set<nat>, w: Write)
    requires Ran(c, base, ws, d, logged) && c.Home(w.b) && |logged| < c.Capacity()
    ensures w.b < |d| && Ran(c, base, ws + [w], d[w.b := w.v], logged + {w.b})
  {
    var ws' := ws + [w];
    assert ws'[..|ws|] == ws && ws'[|ws|] == w;
    assert forall x :: x in ws' <==> x in ws || x == w;
    assert BlocksOf(ws') == BlocksOf(ws) + {w.b};
    forall i | 0 <= i < |ws'|
      ensures |BlocksOf(ws'[..i])| < c.Capacity()
    {
      assert ws'[..i] == ws[..i];
      if i == |ws| { assert ws[..i] == ws; }
    }
  }

  // ---------------------------------------------------------------- the steps of an operation

  function WriteSteps(p: Proc, w: Write): seq<Step> {
    [Bread(p, w.b), Modify(p, w.b, w.v), LogTest(p, w.b), LogAppend(p, w.b), Brelse(p, w.b)]
  }

  /** begin_op and the writes. */
  function OpenSteps(p: Proc, ws: seq<Write>): seq<Step> {
    if ws == [] then [BeginOp(p)] else OpenSteps(p, ws[..|ws| - 1]) + WriteSteps(p, ws[|ws| - 1])
  }

  function Repeat(step: Step, n: nat): seq<Step> { seq(n, _ => step) }

  /** end_op and the commit of n blocks. */
  function CloseSteps(p: Proc, n: nat): seq<Step> {
    if n == 0 then [EndOp(p), Finish]
    else [EndOp(p)] + Repeat(WriteLog, n) + [WriteHead] + Repeat(Install, n) + [ClearHead, Finish]
  }

  function OpSteps(p: Proc, ws: seq<Write>): seq<Step> {
    OpenSteps(p, ws) + CloseSteps(p, |BlocksOf(ws)|)
  }

  predicate NobodyHolds(s: State) { forall b :: b in s.cache ==> s.cache[b].holder.None? }

  /** Nobody is inside an operation and nobody holds a buffer. */
  predicate Quiet(c: Config, s: State) {
    c.Valid() && Inv(c, s) && s.Alive() && s.phase.Running? && s.ops == map[] && NobodyHolds(s)
  }

  /** p is alone inside an operation that has made the writes ws to the disk `base`. */
  ghost predicate Inside(c: Config, s: State, p: Proc, base: Disk, ws: seq<Write>) {
    && c.Valid() && Inv(c, s) && s.Alive() && s.phase.Running? && NobodyHolds(s)
    && s.ops.Keys == {p} && s.passed == map[] && s.asleep == {}
    && (forall b :: b in s.lh <==> b in BlocksOf(ws))
    && Current(c, s) == Play(base, ws)
  }

  function Elems(s: seq<nat>): set<nat> { set x | x in s }

  lemma {:induction false} DistinctCount(s: seq<nat>)
    requires Distinct(s)
    ensures |Elems(s)| == |s|
  {
    if s != [] {
      var front, last := s[..|s| - 1], s[|s| - 1];
      DistinctCount(front);
      assert s == front + [last] && last !in Elems(front);
      assert Elems(s) == Elems(front) + {last};
    }
  }

  lemma LoggedCount(c: Config, s: State, p: Proc, base: Disk, ws: seq<Write>)
    requires Inside(c, s, p, base, ws)
    ensures |s.lh| == |BlocksOf(ws)| && DiskOk(c, s.disk) && LoggedOk(c, s.lh)
  {
    DistinctCount(s.lh);
    assert Elems(s.lh) == BlocksOf(ws);
  }

  lemma Begin(c: Config, s: State, p: Proc)
    requires Quiet(c, s)
    ensures Exec(c, s, [BeginOp(p)]).Some? && Inside(c, Exec(c, s, [BeginOp(p)]).value, p, Current(c, s), [])
  {
    assert s.lh == [] && s.passed == map[] && s.asleep == {};
    Extend(c, s, [], s, BeginOp(p));
    assert [] + [BeginOp(p)] == [BeginOp(p)];
  }

  /** bread and the change of the data. */
  lemma Change(c: Config, s: State, p: Proc, base: Disk, ws: seq<Write>, w: Write) returns (m: State)
    requires Inside(c, s, p, base, ws) && c.Home(w.b)
    ensures Exec(c, s, [Bread(p, w.b), Modify(p, w.b, w.v)]) == Some(m) && Inv(c, m) && w.b < |s.disk|
    ensures w.b in m.cache && m.cache[w.b].holder == Some(p)
    ensures (forall b :: b in m.cache && b != w.b ==> m.cache[b].holder.None?)
    ensures m == s.(cache := m.cache)
    ensures w.b < |Current(c, s)| && Current(c, m) == Current(c, s)[w.b := w.v]
  {
    hide RunInv, LoggedOk, Exec;
    assert Exec(c, s, []) == Some(s) by { Nothing(c, s); }
    Extend(c, s, [], s, Bread(p, w.b));
    var s1 := Apply(c, s, Bread(p, w.b));
    Extend(c, s, [] + [Bread(p, w.b)], s1, Modify(p, w.b, w.v));
    assert [] + [Bread(p, w.b)] + [Modify(p, w.b, w.v)] == [Bread(p, w.b), Modify(p, w.b, w.v)];
    m := Apply(c, s1, Modify(p, w.b, w.v));
  }

  lemma Nothing(c: Config, s: State)
    requires c.Valid() && Inv(c, s)
    ensures Exec(c, s, []) == Some(s)
  {
  }

  /** log_write and brelse of a buffer p holds. */
  lemma Record(c: Config, s: State, p: Proc, b: nat) returns (m: State)
    requires c.Valid() && Inv(c, s) && s.Alive() && s.ops.Keys == {p} && s.passed == map[] && c.Home(b)
    requires b in s.cache && s.cache[b].holder == Some(p) && |s.lh| < c.Capacity()
    ensures Exec(c, s, [LogTest(p, b), LogAppend(p, b), Brelse(p, b)]) == Some(m) && Inv(c, m)
    ensures m.Alive() && m.ops.Keys == {p} && m.passed == map[] && m.asleep == s.asleep && m.phase == s.phase
    ensures m.lh == if b in s.lh then s.lh else s.lh + [b]
    ensures m.cache == s.cache[b := s.cache[b].(dirty := true, touched := false, holder := None)]
    ensures DiskOk(c, s.disk) && DiskOk(c, m.disk) && Current(c, m) == Current(c, s)
  {
    hide RunInv, LoggedOk, Exec;
    assert p in s.ops;
    assert Exec(c, s, []) == Some(s) by { Nothing(c, s); }
    Extend(c, s, [], s, LogTest(p, b));
    var s1 := Apply(c, s, LogTest(p, b));
    Extend(c, s, [] + [LogTest(p, b)], s1, LogAppend(p, b));
    var s2 := Apply(c, s1, LogAppend(p, b));
    Extend(c, s, [] + [LogTest(p, b)] + [LogAppend(p, b)], s2, Brelse(p, b));
    m := Apply(c, s2, Brelse(p, b));
    assert [] + [LogTest(p, b)] + [LogAppend(p, b)] + [Brelse(p, b)] == [LogTest(p, b), LogAppend(p, b), Brelse(p, b)];
  }

  lemma OneMore(ws: seq<Write>, w: Write, base: Disk)
    requires w.b < |base|
    ensures BlocksOf(ws + [w]) == BlocksOf(ws) + {w.b} && Play(base, ws + [w]) == Play(base, ws)[w.b := w.v]
  {
    assert (ws + [w])[..|ws|] == ws && (ws + [w])[|ws|] == w;
    assert forall x :: x in ws + [w] <==> x in ws || x == w;
  }

  lemma OneWrite(c: Config, s: State, p: Proc, base: Disk, ws: seq<Write>, w: Write)
    requires Inside(c, s, p, base, ws) && c.Home(w.b) && |BlocksOf(ws)| < c.Capacity()
    ensures Exec(c, s, WriteSteps(p, w)).Some? && Inside(c, Exec(c, s, WriteSteps(p, w)).value, p, base, ws + [w])
  {
    hide Inv, Exec, Apply, Enabled, BlocksOf, Play, Current, LoggedOk, DiskOk;
    LoggedCount(c, s, p, base, ws);
    var m := Change(c, s, p, base, ws, w);
    var s' := Record(c, m, p, w.b);
    ExecConcat(c, s, [Bread(p, w.b), Modify(p, w.b, w.v)], [LogTest(p, w.b), LogAppend(p, w.b), Brelse(p, w.b)]);
    assert WriteSteps(p, w) == [Bread(p, w.b), Modify(p, w.b, w.v)] + [LogTest(p, w.b), LogAppend(p, w.b), Brelse(p, w.b)];
    OneMore(ws, w, base);
  }

  lemma RoomForFront(c: Config, ws: seq<Write>)
    requires c.Valid() && RoomFor(c, ws) && ws != []
    ensures RoomFor(c, ws[..|ws| - 1]) && |BlocksOf(ws[..|ws| - 1])| < c.Capacity()
  {
    hide BlocksOf;
    var front := ws[..|ws| - 1];
    assert forall i :: 0 <= i < |front| ==> front[..i] == ws[..i];
  }

  /** The operation up to end_op. */
  lemma {:induction false} OpenRun(c: Config, s: State, p: Proc, ws: seq<Write>)
    requires Quiet(c, s) && RoomFor(c, ws) && forall w :: w in ws ==> c.Home(w.b)
    ensures Exec(c, s, OpenSteps(p, ws)).Some?
    ensures Inside(c, Exec(c, s, OpenSteps(p, ws)).value, p, Current(c, s), ws)
    decreases |ws|
  {
    hide RunInv, LoggedOk, Exec, Current, Inside, RoomFor, BlocksOf, WriteSteps;
    if ws == [] {
      Begin(c, s, p);
    } else {
      var front, w := ws[..|ws| - 1], ws[|ws| - 1];
      RoomForFront(c, ws);
      OpenRun(c, s, p, front);
      OneWrite(c, Exec(c, s, OpenSteps(p, front)).value, p, Current(c, s), front, w);
      ExecConcat(c, s, OpenSteps(p, front), WriteSteps(p, w));
      assert front + [w] == ws;
    }
  }

  // ---------------------------------------------------------------- its commit

  /** A commit is under way and nobody holds a buffer. */
  predicate Sealed(c: Config, s: State, lh: seq<nat>) {
    c.Valid() && Inv(c, s) && s.Alive() && !s.phase.Running? && s.ops == map[] && NobodyHolds(s) && s.lh == lh
  }

  lemma {:induction false} LogRun(c: Config, s: State, t: nat) returns (m: State)
    requires Sealed(c, s, s.lh) && s.phase == Logging(t) && t <= |s.lh|
    ensures Exec(c, s, Repeat(WriteLog, |s.lh| - t)) == Some(m)
    ensures Sealed(c, m, s.lh) && m.phase == Logging(|s.lh|) && m.asleep == s.asleep
    ensures DiskOk(c, s.disk) && DiskOk(c, m.disk) && Current(c, m) == Current(c, s)
    decreases |s.lh| - t
  {
    hide RunInv, LoggedOk;
    if t == |s.lh| {
      return s;
    }
    AnyStep(c, s, WriteLog);
    var s1 := Apply(c, s, WriteLog);
    m := LogRun(c, s1, t + 1);
    assert Repeat(WriteLog, |s.lh| - t)[1..] == Repeat(WriteLog, |s.lh| - t - 1);
  }

  lemma {:induction false} InstallRun(c: Config, s: State, t: nat) returns (m: State)
    requires Sealed(c, s, s.lh) && s.phase == Installing(t, false) && t <= |s.lh|
    ensures Exec(c, s, Repeat(Install, |s.lh| - t)) == Some(m)
    ensures Sealed(c, m, s.lh) && m.phase == Installing(|s.lh|, false) && m.asleep == s.asleep
    ensures DiskOk(c, s.disk) && DiskOk(c, m.disk) && Current(c, m) == Current(c, s)
    decreases |s.lh| - t
  {
    hide RunInv, LoggedOk;
    if t == |s.lh| {
      return s;
    }
    AnyStep(c, s, Install);
    var s1 := Apply(c, s, Install);
    m := InstallRun(c, s1, t + 1);
    assert Repeat(Install, |s.lh| - t)[1..] == Repeat(Install, |s.lh| - t - 1);
  }

  /** From the first block copied to the log to the end of the commit. */
  lemma CommitRun(c: Config, s: State) returns (m: State)
    requires Sealed(c, s, s.lh) && s.phase == Logging(0)
    ensures Exec(c, s, Repeat(WriteLog, |s.lh|) + [WriteHead] + Repeat(Install, |s.lh|) + [ClearHead, Finish]) == Some(m)
    ensures Quiet(c, m) && DiskOk(c, s.disk) && DiskOk(c, m.disk) && Current(c, m) == Current(c, s)
  {
    hide RunInv, LoggedOk, Exec, Repeat;
    var n := |s.lh|;
    var xs := Repeat(WriteLog, n);
    var s1 := LogRun(c, s, 0);
    Extend(c, s, xs, s1, WriteHead);
    var s2 := Apply(c, s1, WriteHead);
    var s3 := InstallRun(c, s2, 0);
    ExecConcat(c, s, xs + [WriteHead], Repeat(Install, n));
    var ys := xs + [WriteHead] + Repeat(Install, n);
    Extend(c, s, ys, s3, ClearHead);
    var s4 := Apply(c, s3, ClearHead);
    Extend(c, s, ys + [ClearHead], s4, Finish);
    m := Apply(c, s4, Finish);
    assert ys + [ClearHead] + [Finish] == ys + [ClearHead, Finish];
  }

  /** end_op of the only operation, and its commit. */
  lemma CloseRun(c: Config, s: State, p: Proc, base: Disk, ws: seq<Write>) returns (m: State)
    requires Inside(c, s, p, base, ws)
    ensures Exec(c, s, CloseSteps(p, |BlocksOf(ws)|)) == Some(m)
    ensures Quiet(c, m) && DiskOk(c, m.disk) && Current(c, m) == Play(base, ws)
  {
    hide RunInv, LoggedOk, Exec;
    LoggedCount(c, s, p, base, ws);
    var n := |s.lh|;
    assert Exec(c, s, []) == Some(s) by { Nothing(c, s); }
    assert p in s.ops;
    Extend(c, s, [], s, EndOp(p));
    var s1 := Apply(c, s, EndOp(p));
    if n == 0 {
      Extend(c, s, [] + [EndOp(p)], s1, Finish);
      m := Apply(c, s1, Finish);
      assert [] + [EndOp(p)] + [Finish] == [EndOp(p), Finish];
    } else {
      m := CommitRun(c, s1);
      var rest := Repeat(WriteLog, n) + [WriteHead] + Repeat(Install, n) + [ClearHead, Finish];
      ExecConcat(c, s, [] + [EndOp(p)], rest);
      assert [] + [EndOp(p)] + rest == CloseSteps(p, n);
    }
  }

  /** The whole operation: the disk is the old one with all the writes, and the log is empty again. */
  lemma LoneOp(c: Config, s: State, p: Proc, ws: seq<Write>) returns (m: State)
    requires Quiet(c, s) && RoomFor(c, ws) && forall w :: w in ws ==> c.Home(w.b)
    ensures Exec(c, s, OpSteps(p, ws)) == Some(m)
    ensures Quiet(c, m) && Current(c, m) == Play(Current(c, s), ws)
  {
    hide RunInv, LoggedOk, Exec;
    OpenRun(c, s, p, ws);
    var s1 := Exec(c, s, OpenSteps(p, ws)).value;
    m := CloseRun(c, s1, p, Current(c, s), ws);
    ExecConcat(c, s, OpenSteps(p, ws), CloseSteps(p, |BlocksOf(ws)|));
  }

  // ---------------------------------------------------------------- stopping in the middle

  predicate NoHead(steps: seq<Step>) { forall i :: 0 <= i < |steps| ==> !steps[i].WriteHead? }

  /** Without a header write nothing becomes durable. */
  lemma {:induction false} NothingCommitted(c: Config, s: State, steps: seq<Step>)
    requires c.Valid() && Inv(c, s) && Exec(c, s, steps).Some? && NoHead(steps)
    ensures Committed(c, Exec(c, s, steps).value) == Committed(c, s)
    decreases |steps|
  {
    hide RunInv, LoggedOk, Apply, Enabled, Current, Committed;
    if steps != [] {
      AnyStep(c, s, steps[0]);
      NothingCommitted(c, Apply(c, s, steps[0]), steps[1..]);
    }
  }

  lemma {:induction false} OpenHasNoHead(p: Proc, ws: seq<Write>)
    ensures NoHead(OpenSteps(p, ws))
    decreases |ws|
  {
    if ws != [] {
      OpenHasNoHead(p, ws[..|ws| - 1]);
    }
  }

  /** Every prefix of `steps` runs from s, and recovery after it yields one of the images. */
  ghost predicate Recovers(c: Config, s: State, steps: seq<Step>, images: set<Disk>)
    requires c.Valid() && Inv(c, s)
  {
    forall j :: 0 <= j <= |steps| ==>
      Exec(c, s, steps[..j]).Some? && Committed(c, Exec(c, s, steps[..j]).value) in images
  }

  lemma QuietIsCommitted(c: Config, s: State)
    requires Quiet(c, s)
    ensures Committed(c, s) == Current(c, s)
  {
    CleanBetweenOperations(c, s);
  }

  /** An operation stopped before its end_op has left nothing behind. */
  lemma OpenRecovers(c: Config, s: State, p: Proc, ws: seq<Write>)
    requires Quiet(c, s) && RoomFor(c, ws) && forall w :: w in ws ==> c.Home(w.b)
    ensures Recovers(c, s, OpenSteps(p, ws), {Current(c, s)})
  {
    hide RunInv, LoggedOk, Exec, Current, Committed;
    OpenRun(c, s, p, ws);
    OpenHasNoHead(p, ws);
    QuietIsCommitted(c, s);
    var steps := OpenSteps(p, ws);
    forall j | 0 <= j <= |steps|
      ensures Exec(c, s, steps[..j]).Some? && Committed(c, Exec(c, s, steps[..j]).value) == Current(c, s)
    {
      PrefixRuns(c, s, steps, j);
      NothingCommitted(c, s, steps[..j]);
    }
  }

  /** An operation alone in the log is atomic: stopped anywhere, all of its writes are there or none. */
  lemma LoneOpRecovers(c: Config, s: State, p: Proc, ws: seq<Write>)
    requires Quiet(c, s) && RoomFor(c, ws) && forall w :: w in ws ==> c.Home(w.b)
    ensures Recovers(c, s, OpSteps(p, ws), {Current(c, s), Play(Current(c, s), ws)})
  {
    hide RunInv, LoggedOk, Exec, Current, Committed, Play;
    var m := LoneOp(c, s, p, ws);
    OpenRecovers(c, s, p, ws);
    OpenRun(c, s, p, ws);
    var xs, ys := OpenSteps(p, ws), CloseSteps(p, |BlocksOf(ws)|);
    var s1 := Exec(c, s, xs).value;
    assert xs[..|xs|] == xs;
    forall j | 0 <= j <= |xs + ys|
      ensures Exec(c, s, (xs + ys)[..j]).Some?
      ensures Committed(c, Exec(c, s, (xs + ys)[..j]).value) in {Current(c, s), Play(Current(c, s), ws)}
    {
      if j <= |xs| {
        assert (xs + ys)[..j] == xs[..j];
      } else {
        PrefixRuns(c, s, xs + ys, j);
        assert (xs + ys)[..j] == xs + ys[..j - |xs|];
        ExecConcat(c, s, xs, ys[..j - |xs|]);
        CommitIsAtomic(c, s1, ys[..j - |xs|]);
      }
    }
  }

  /** One more operation after a run: one more image. */
  lemma RecoversMore(c: Config, s: State, xs: seq<Step>, m: State, ys: seq<Step>, images: set<Disk>, more: set<Disk>)
    requires c.Valid() && Inv(c, s) && Exec(c, s, xs) == Some(m) && Inv(c, m)
    requires Recovers(c, s, xs, images) && Recovers(c, m, ys, more)
    ensures Recovers(c, s, xs + ys, images + more)
  {
    hide RunInv, LoggedOk, Exec, Committed;
    forall j | 0 <= j <= |xs + ys|
      ensures Exec(c, s, (xs + ys)[..j]).Some?
      ensures Committed(c, Exec(c, s, (xs + ys)[..j]).value) in images + more
    {
      if j <= |xs| {
        assert (xs + ys)[..j] == xs[..j];
      } else {
        assert (xs + ys)[..j] == xs + ys[..j - |xs|];
        ExecConcat(c, s, xs, ys[..j - |xs|]);
      }
    }
  }

  // ---------------------------------------------------------------- one operation after another

  function ImageSet(images: seq<Disk>): set<Disk> { set d | d in images }

  /** The schedule leads through the images, one operation each, and recovery never yields anything else. */
  ghost predicate Tied(c: Config, s: State, steps: seq<Step>, images: seq<Disk>) {
    && c.Valid() && Inv(c, s) && images != []
    && Exec(c, s, steps).Some? && Quiet(c, Exec(c, s, steps).value)
    && Current(c, Exec(c, s, steps).value) == images[|images| - 1]
    && Recovers(c, s, steps, ImageSet(images))
  }

  lemma TiedStart(c: Config, s: State)
    requires Quiet(c, s)
    ensures Tied(c, s, [], [Current(c, s)])
  {
    hide RunInv, LoggedOk, Current, Committed;
    QuietIsCommitted(c, s);
    var none: seq<Step> := [];
    assert none[..0] == none;
  }

  lemma RecoversWider(c: Config, s: State, steps: seq<Step>, images: set<Disk>, more: set<Disk>)
    requires c.Valid() && Inv(c, s) && Recovers(c, s, steps, images) && images <= more
    ensures Recovers(c, s, steps, more)
  {
    hide RunInv, LoggedOk, Exec, Committed;
  }

  /** One more operation, from the last image to d. */
  lemma TiedOp(c: Config, s: State, steps: seq<Step>, images: seq<Disk>, p: Proc, ws: seq<Write>, d: Disk, logged: set<nat>)
    requires Tied(c, s, steps, images) && Ran(c, images[|images| - 1], ws, d, logged)
    ensures Tied(c, s, steps + OpSteps(p, ws), images + [d])
    ensures d == images[|images| - 1] ==> Tied(c, s, steps + OpSteps(p, ws), images)
  {
    hide RunInv, LoggedOk, Exec, Current, Committed, Play, OpSteps, RoomFor, BlocksOf, Recovers, Quiet;
    var m := Exec(c, s, steps).value;
    assert Inv(c, m) by { QuietInv(c, m); }
    var m' := LoneOp(c, m, p, ws);
    assert Inv(c, m') by { QuietInv(c, m'); }
    ExecConcat(c, s, steps, OpSteps(p, ws));
    LoneOpRecovers(c, m, p, ws);
    RecoversMore(c, s, steps, m, OpSteps(p, ws), ImageSet(images), {Current(c, m), d});
    assert images[|images| - 1] in images && d in images + [d];
    RecoversWider(c, s, steps + OpSteps(p, ws), ImageSet(images) + {Current(c, m), d}, ImageSet(images + [d]));
    if d == images[|images| - 1] {
      RecoversWider(c, s, steps + OpSteps(p, ws), ImageSet(images) + {Current(c, m), d}, ImageSet(images));
    }
  }

  lemma QuietInv(c: Config, s: State)
    requires Quiet(c, s)
    ensures c.Valid() && Inv(c, s) && DiskOk(c, s.disk)
  {
  }

  /** An operation that never reaches its end_op adds no image. */
  lemma TiedStop(c: Config, s: State, steps: seq<Step>, images: seq<Disk>, p: Proc, ws: seq<Write>, d: Disk, logged: set<nat>)
    requires Tied(c, s, steps, images) && Ran(c, images[|images| - 1], ws, d, logged)
    ensures c.Valid() && Inv(c, s) && Recovers(c, s, steps + OpenSteps(p, ws), ImageSet(images))
  {
    hide RunInv, LoggedOk, Exec, Current, Committed, Play, OpenSteps, RoomFor, BlocksOf, Recovers, Quiet;
    var m := Exec(c, s, steps).value;
    assert Inv(c, m) by { QuietInv(c, m); }
    OpenRecovers(c, m, p, ws);
    RecoversMore(c, s, steps, m, OpenSteps(p, ws), ImageSet(images), {Current(c, m)});
    assert images[|images| - 1] in images;
    RecoversWider(c, s, steps + OpenSteps(p, ws), ImageSet(images) + {Current(c, m)}, ImageSet(images));
  }
}
