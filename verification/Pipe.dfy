/**
 pipe.c: a ring buffer over two 32-bit counters that wrap.  A method is one stretch of pipewrite
 or piperead under p->lock, up to its return or its next sleep.
 */
module Pipe {
  const PIPESIZE: nat := 512
  const UINT: nat := 0x1_0000_0000

  type Proc = nat

  datatype Outcome = Failed | Asleep | Finished

  // ---------------------------------------------------------------- on the bytes in flight

  function Min(a: nat, b: nat): nat { if a < b then a else b }

  /** How many of the bytes a stretch of pipewrite stores. */
  function Stored(inFlight: nat, n: nat): nat
    requires inFlight <= PIPESIZE
  {
    Min(n, PIPESIZE - inFlight)
  }

  function WriteOutcome(inFlight: nat, n: nat, readopen: bool, killed: bool): Outcome
    requires inFlight <= PIPESIZE
  {
    if n <= PIPESIZE - inFlight then Finished else if !readopen || killed then Failed else Asleep
  }

  function ReadOutcome(inFlight: nat, writeopen: bool, killed: bool): Outcome {
    if inFlight > 0 || !writeopen then Finished else if killed then Failed else Asleep
  }

  // ---------------------------------------------------------------- the ring buffer

  class Pipe {
    const data: array<char>
    var nread: nat
    var nwrite: nat
    var readopen: bool
    var writeopen: bool
    ghost var sent: seq<char>        // every byte ever appended
    ghost var delivered: seq<char>   // every byte ever taken out

    /** What is delivered is a prefix of what was sent; the rest, at most PIPESIZE bytes, is in the ring. */
    ghost predicate Valid()
      reads this, data
    {
      && data.Length == PIPESIZE
      && nwrite == |sent| % UINT && nread == |delivered| % UINT
      && delivered <= sent && |sent| - |delivered| <= PIPESIZE
      && forall i :: |delivered| <= i < |sent| ==> data[i % PIPESIZE] == sent[i]
    }

    ghost function InFlight(): nat
      reads this
      requires |delivered| <= |sent|
    {
      |sent| - |delivered|
    }

    constructor ()
      ensures Valid() && fresh(data) && sent == [] && delivered == [] && readopen && writeopen
    {
      data := new char[PIPESIZE](_ => '\0');
      nread, nwrite, readopen, writeopen := 0, 0, true, true;
      sent, delivered := [], [];
    }

    /** pipewrite from position i on: store until done or full. */
    method Write(addr: seq<char>, i: nat, killed: bool) returns (j: nat, outcome: Outcome, wakesReaders: bool)
      requires Valid() && i <= |addr|
      modifies this`nwrite, this`sent, data
      ensures Valid()
      ensures j == i + Stored(old(InFlight()), |addr| - i) && sent == old(sent) + addr[i..j]
      ensures outcome == WriteOutcome(old(InFlight()), |addr| - i, readopen, killed)
      ensures outcome == Finished <==> j == |addr|
      ensures outcome == Failed <==> j < |addr| && (!readopen || killed)
      ensures outcome == Asleep <==> j < |addr| && readopen && !killed
      ensures j < |addr| ==> InFlight() == PIPESIZE
      ensures wakesReaders == (outcome != Failed)
    {
      j := i;
      while j < |addr|
        invariant i <= j <= |addr| && Valid() && sent == old(sent) + addr[i..j]
      {
        FullTest(|sent|, |delivered|);
        if nwrite == (nread + PIPESIZE) % UINT {
          return j, if !readopen || killed then Failed else Asleep, readopen && !killed;
        }
        Store(addr[j]);
        j := j + 1;
      }
      return j, Finished, true;
    }

    /** One byte goes into the ring. */
    method Store(c: char)
      requires Valid() && |sent| - |delivered| < PIPESIZE
      modifies this`nwrite, this`sent, data
      ensures Valid() && sent == old(sent) + [c]
    {
      RingIndex(|sent|);
      forall i | |delivered| <= i < |sent|
        ensures i % PIPESIZE != |sent| % PIPESIZE
      {
        RingDistinct(i, |sent|);
      }
      data[nwrite % PIPESIZE] := c;
      nwrite := (nwrite + 1) % UINT;
      sent := sent + [c];
      Increment(|sent| - 1);
    }

    /** piperead: fail, go to sleep, or take out up to n bytes. */
    method Read(n: int, killed: bool) returns (bytes: seq<char>, outcome: Outcome, wakesWriters: bool)
      requires Valid()
      modifies this`nread, this`delivered
      ensures Valid() && delivered == old(delivered) + bytes
      ensures outcome == ReadOutcome(old(InFlight()), writeopen, killed) && wakesWriters == (outcome == Finished)
      ensures outcome == Failed <==> old(InFlight()) == 0 && writeopen && killed
      ensures outcome == Asleep <==> old(InFlight()) == 0 && writeopen && !killed
      ensures |bytes| == if outcome == Finished && n > 0 then Min(n, old(InFlight())) else 0
    {
      bytes := [];
      FullTest(|sent|, |delivered|);
      if nread == nwrite && writeopen {
        return bytes, if killed then Failed else Asleep, false;
      }
      while |bytes| < n
        invariant Valid() && |bytes| <= |sent| - |old(delivered)| && (|bytes| <= n || bytes == [])
        invariant delivered == old(delivered) + bytes
      {
        FullTest(|sent|, |delivered|);
        if nread == nwrite {
          break;
        }
        RingIndex(|delivered|);
        Increment(|delivered|);
        var c := data[nread % PIPESIZE];
        assert c == sent[|delivered|];
        bytes := bytes + [c];
        delivered := delivered + [c];
        nread := (nread + 1) % UINT;
      }
      return bytes, Finished, true;
    }

    method Close(writable: bool)
      requires Valid()
      modifies this`readopen, this`writeopen
      ensures Valid() && readopen == (old(readopen) && writable) && writeopen == (old(writeopen) && !writable)
    {
      if writable {
        writeopen := false;
      } else {
        readopen := false;
      }
    }
  }

  /** On wrapped counters the tests for full and empty are right, because at most PIPESIZE bytes are in flight. */
  lemma FullTest(sent: nat, delivered: nat)
    requires delivered <= sent <= delivered + PIPESIZE
    ensures sent % UINT == (delivered % UINT + PIPESIZE) % UINT <==> sent - delivered == PIPESIZE
    ensures sent % UINT == delivered % UINT <==> sent == delivered
  {
  }

  /** The wrapped counter finds the right place in the ring, because PIPESIZE divides 2^32. */
  lemma RingIndex(n: nat)
    ensures n % UINT % PIPESIZE == n % PIPESIZE
  {
    var q, r := n / UINT, n % UINT;
    assert UINT == PIPESIZE * 8388608;
    assert n == UINT * q + r;
    assert r == PIPESIZE * (r / PIPESIZE) + r % PIPESIZE;
    RingRemainder(n, 8388608 * q + r / PIPESIZE, r % PIPESIZE);
  }

  lemma RingRemainder(n: nat, k: nat, r: nat)
    requires n == PIPESIZE * k + r && r < PIPESIZE
    ensures n % PIPESIZE == r
  {
  }

  lemma Increment(n: nat)
    ensures (n % UINT + 1) % UINT == (n + 1) % UINT
  {
  }

  lemma RingDistinct(i: nat, j: nat)
    requires i < j < i + PIPESIZE
    ensures i % PIPESIZE != j % PIPESIZE
  {
  }

  // ---------------------------------------------------------------- who sleeps, over every run

  /** `readers` sleep on nread, `writers` on nwrite. */
  datatype System = System(inFlight: nat, readopen: bool, writeopen: bool, readers: set<Proc>, writers: set<Proc>)

  /**
   Write(p, n, killed): process p has n bytes left; `killed` is what its test of proc->killed saw.
   An end is closed only when nobody is inside a call on it.
   */
  datatype Step =
    | Write(p: Proc, n: nat, killed: bool)
    | Read(p: Proc, n: nat, killed: bool)
    | CloseWrite
    | CloseRead
    | Kill(p: Proc)

  predicate Awake(s: System, p: Proc) { p !in s.readers && p !in s.writers }

  predicate Enabled(s: System, step: Step) {
    s.inFlight <= PIPESIZE &&
    match step
    case Write(p, _, _) => Awake(s, p) && s.writeopen
    case Read(p, _, _) => Awake(s, p) && s.readopen
    case CloseWrite => s.writers == {}
    case CloseRead => s.readers == {}
    case Kill(_) => true
  }

  function AfterWrite(s: System, p: Proc, n: nat, killed: bool): System
    requires s.inFlight <= PIPESIZE
  {
    var s' := s.(inFlight := s.inFlight + Stored(s.inFlight, n));
    match WriteOutcome(s.inFlight, n, s.readopen, killed)
    case Finished => s'.(readers := {})
    case Failed => s'
    case Asleep => s'.(readers := {}, writers := s.writers + {p})
  }

  function AfterRead(s: System, p: Proc, n: nat, killed: bool): System {
    match ReadOutcome(s.inFlight, s.writeopen, killed)
    case Finished => s.(inFlight := s.inFlight - Min(n, s.inFlight), writers := {})
    case Failed => s
    case Asleep => s.(readers := s.readers + {p})
  }

  function Apply(s: System, step: Step): System
    requires Enabled(s, step)
  {
    match step
    case Write(p, n, killed) => AfterWrite(s, p, n, killed)
    case Read(p, n, killed) => AfterRead(s, p, n, killed)
    case CloseWrite => s.(writeopen := false, readers := {})
    case CloseRead => s.(readopen := false, writers := {})
    case Kill(p) => s.(readers := s.readers - {p}, writers := s.writers - {p})
  }

  predicate WritersOk(s: System) { s.inFlight <= PIPESIZE && (s.writers != {} ==> s.inFlight == PIPESIZE && s.readopen) }

  predicate ReadersOk(s: System) {
    s.readers != {} ==> s.inFlight == 0 && s.writeopen && s.readopen
  }

  /** A killed writer that fills an empty pipe under a sleeping reader and leaves without a wakeup. */
  predicate LeavesReaderAsleep(s: System, step: Step) {
    step.Write? && step.killed && s.readers != {} && step.n > PIPESIZE
  }

  function Result(s: System, step: Step): Outcome
    requires Enabled(s, step)
  {
    match step
    case Write(_, n, killed) => WriteOutcome(s.inFlight, n, s.readopen, killed)
    case Read(_, _, killed) => ReadOutcome(s.inFlight, s.writeopen, killed)
    case _ => Finished
  }

  predicate Sleeps(s: System, p: Proc) { p in s.readers || p in s.writers }

  /**
   A read fails exactly on an empty pipe with its write end open if the reader is killed, and
   sleeps exactly there if it is not; a write the same on a full pipe with its read end open,
   and it also fails if that is closed.  Who fails or finishes is awake, and who sleeps had no kill.
   */
  lemma WhoFails(s: System, step: Step)
    requires Enabled(s, step) && (step.Read? || step.Write?)
    ensures Result(s, step) == Asleep <==> Sleeps(Apply(s, step), step.p)
    ensures step.killed ==> !Sleeps(Apply(s, step), step.p)
    ensures step.Read? ==> (Result(s, step) == Failed <==> s.inFlight == 0 && s.writeopen && step.killed)
    ensures step.Read? ==> (Sleeps(Apply(s, step), step.p) <==> s.inFlight == 0 && s.writeopen && !step.killed)
    ensures step.Write? ==> (Result(s, step) == Failed <==> s.inFlight + step.n > PIPESIZE && (!s.readopen || step.killed))
    ensures step.Write? ==> (Sleeps(Apply(s, step), step.p) <==> s.inFlight + step.n > PIPESIZE && s.readopen && !step.killed)
  {
  }

  /** Step i put p to sleep, unkilled, and it was not killed from then to moment k. */
  predicate FellAsleep(steps: seq<Step>, p: Proc, i: nat, k: nat) {
    && i < k <= |steps| && (steps[i].Read? || steps[i].Write?) && steps[i].p == p && !steps[i].killed
    && forall j :: i < j < k ==> steps[j] != Kill(p)
  }

  /** Over every run, whoever sleeps went to sleep unkilled and has not been killed since. */
  lemma {:induction false} SleeperNotKilled(s: System, steps: seq<Step>, k: nat, p: Proc) returns (i: nat)
    requires k < |Exec(s, steps)| && !Sleeps(s, p) && Sleeps(Exec(s, steps)[k], p)
    ensures FellAsleep(steps, p, i, k)
    decreases k
  {
    hide Apply, Enabled, Result;
    ExecLast(s, steps, k);
    var before, step := Exec(s, steps)[k - 1], steps[k - 1];
    StaysAsleep(before, step, p);
    if Sleeps(before, p) {
      i := SleeperNotKilled(s, steps, k - 1, p);
    } else {
      i := k - 1;
    }
  }

  lemma StaysAsleep(s: System, step: Step, p: Proc)
    requires Enabled(s, step) && Sleeps(Apply(s, step), p)
    ensures step != Kill(p)
    ensures Sleeps(s, p) || ((step.Read? || step.Write?) && step.p == p && !step.killed)
  {
  }

  lemma {:induction false} ExecLast(s: System, steps: seq<Step>, k: nat)
    requires k < |Exec(s, steps)|
    ensures Exec(s, steps)[0] == s && k <= |steps|
    ensures k > 0 ==> Enabled(Exec(s, steps)[k - 1], steps[k - 1]) && Exec(s, steps)[k] == Apply(Exec(s, steps)[k - 1], steps[k - 1])
    decreases k
  {
    hide Apply, Enabled, Exec;
    ExecNext(s, steps);
    if k > 0 {
      ExecNext(Apply(s, steps[0]), steps[1..]);
      ExecLast(Apply(s, steps[0]), steps[1..], k - 1);
    }
  }

  /** A sleeping writer always faces a full pipe with its read end open. */
  lemma WritersStep(s: System, step: Step)
    requires WritersOk(s) && Enabled(s, step)
    ensures WritersOk(Apply(s, step))
  {
  }

  /** The same for readers and an empty pipe, exactly as long as no killed writer leaves one asleep. */
  lemma ReadersStep(s: System, step: Step)
    requires WritersOk(s) && ReadersOk(s) && Enabled(s, step)
    ensures ReadersOk(Apply(s, step)) <==> !LeavesReaderAsleep(s, step)
  {
  }

  function Exec(s: System, steps: seq<Step>): seq<System>
    decreases |steps|
  {
    if steps == [] || !Enabled(s, steps[0]) then [s] else [s] + Exec(Apply(s, steps[0]), steps[1..])
  }

  lemma ExecNext(s: System, steps: seq<Step>)
    ensures |Exec(s, steps)| > 0 && Exec(s, steps)[0] == s
    ensures |Exec(s, steps)| > 1 ==> steps != [] && Enabled(s, steps[0])
    ensures |Exec(s, steps)| > 1 ==> Exec(s, steps)[1..] == Exec(Apply(s, steps[0]), steps[1..])
  {
  }

  /** No step up to moment k is a killed writer that leaves a reader asleep. */
  predicate NoneLeft(s: System, steps: seq<Step>, k: nat)
    requires k <= |Exec(s, steps)|
  {
    forall i :: 0 <= i < k && i < |steps| ==> !LeavesReaderAsleep(Exec(s, steps)[i], steps[i])
  }

  /** Over every run: writers are always fine, and readers up to the first killed writer that leaves one asleep. */
  lemma SleepersAlways(s: System, steps: seq<Step>, k: nat)
    requires WritersOk(s) && ReadersOk(s) && k < |Exec(s, steps)|
    ensures WritersOk(Exec(s, steps)[k])
    ensures NoneLeft(s, steps, k) ==> ReadersOk(Exec(s, steps)[k])
  {
    WritersAlways(s, steps, k);
    if NoneLeft(s, steps, k) {
      ReadersAlways(s, steps, k);
    }
  }

  lemma {:induction false} ReadersAlways(s: System, steps: seq<Step>, k: nat)
    requires WritersOk(s) && ReadersOk(s) && k < |Exec(s, steps)| && NoneLeft(s, steps, k)
    ensures ReadersOk(Exec(s, steps)[k])
    decreases k
  {
    hide Exec, WritersOk, ReadersOk, LeavesReaderAsleep, Apply, Enabled;
    ExecNext(s, steps);
    if k > 0 {
      var s1, rest := Apply(s, steps[0]), steps[1..];
      assert !LeavesReaderAsleep(Exec(s, steps)[0], steps[0]);
      WritersStep(s, steps[0]);
      ReadersStep(s, steps[0]);
      assert forall i :: 0 <= i < |rest| ==> rest[i] == steps[i + 1];
      assert forall i :: 0 <= i < |Exec(s1, rest)| ==> Exec(s1, rest)[i] == Exec(s, steps)[i + 1];
      assert NoneLeft(s1, rest, k - 1);
      ReadersAlways(s1, rest, k - 1);
    }
  }

  lemma {:induction false} WritersAlways(s: System, steps: seq<Step>, k: nat)
    requires WritersOk(s) && k < |Exec(s, steps)|
    ensures WritersOk(Exec(s, steps)[k])
    decreases k
  {
    if k > 0 {
      WritersStep(s, steps[0]);
      WritersAlways(Apply(s, steps[0]), steps[1..], k - 1);
    }
  }

  /** The failing case: a reader sleeps, a killed writer of 513 bytes comes and goes, the pipe is full. */
  lemma ReaderLeftAsleep()
    ensures var s := System(0, true, true, {1}, {});
            ReadersOk(s) && Apply(s, Write(2, 513, true)) == System(PIPESIZE, true, true, {1}, {})
  {
  }
}
