/**
 * Group commit and admission (begin_op, end_op, log_write in log.c).
 *
 * Every function below is one critical section of log.lock; processes interleave them freely.
 */
module LogAdmission {
  import opened LogCrash
  import opened Params

  /** The fields of struct log that the lock protects; lh is lh.block[..lh.n]. */
  datatype Log = Log(lh: seq<int>, outstanding: int, committing: bool)

  datatype Outcome = Fine(log: Log) | Panic(msg: string)

  // ---------------------------------------------------------------- the critical sections

  /** begin_op() admits an operation only if its budget fits; otherwise it sleeps. */
  predicate Admits(s: Log) {
    !s.committing && |s.lh| + (s.outstanding + 1) * MAXOPBLOCKS <= LOGSIZE
  }

  function Begin(s: Log): Log {
    s.(outstanding := s.outstanding + 1)
  }

  function TooBig(size: int, s: Log): bool {
    |s.lh| >= LOGSIZE || |s.lh| >= size - 1
  }

  /** log_write(): the size check comes before absorption. */
  function Record(size: int, s: Log, b: int): Outcome {
    if TooBig(size, s) then Panic("too big a transaction")
    else if s.outstanding < 1 then Panic("log_write outside of trans")
    else if b in s.lh then Fine(s)
    else Fine(s.(lh := s.lh + [b]))
  }

  /** end_op() up to its first release: the last operation out starts the commit. */
  function End(s: Log): Outcome {
    var s' := s.(outstanding := s.outstanding - 1);
    if s.committing then Panic("log.committing")
    else Fine(s'.(committing := s'.outstanding == 0))
  }

  // ---------------------------------------------------------------- processes

  /** Where a process is: outside, inside an operation that logged these blocks, or committing. */
  datatype Op = Outside | Inside(blocks: set<int>) | Committer(cleared: bool)

  datatype Sys = Sys(log: Log, ops: seq<Op>)

  datatype Step =
    | BeginOp(p: nat)
    | LogWrite(p: nat, b: int)
    | EndOp(p: nat)
    | Clear(p: nat)       // commit() empties the header
    | Finish(p: nat)      // end_op() drops `committing`

  /** Process p may take this step; an operation logs at most MAXOPBLOCKS distinct blocks. */
  ghost predicate Enabled(s: Sys, step: Step) {
    && step.p < |s.ops|
    && match step
       case BeginOp(p) => s.ops[p].Outside? && Admits(s.log)
       case LogWrite(p, b) => s.ops[p].Inside? && |s.ops[p].blocks + {b}| <= MAXOPBLOCKS
       case EndOp(p) => s.ops[p].Inside?
       case Clear(p) => s.ops[p] == Committer(false)
       case Finish(p) => s.ops[p] == Committer(true)
  }

  /** The step runs into a panic(). */
  ghost predicate Panics(size: int, s: Sys, step: Step) {
    match step
    case LogWrite(p, b) => Record(size, s.log, b).Panic?
    case EndOp(p) => End(s.log).Panic?
    case _ => false
  }

  ghost function Do(size: int, s: Sys, step: Step): Sys
    requires Enabled(s, step) && !Panics(size, s, step)
  {
    match step
    case BeginOp(p) => Sys(Begin(s.log), s.ops[p := Inside({})])
    case LogWrite(p, b) => Sys(Record(size, s.log, b).log, s.ops[p := Inside(s.ops[p].blocks + {b})])
    case EndOp(p) =>
      var log := End(s.log).log;
      Sys(log, s.ops[p := if log.committing then Committer(false) else Outside])
    case Clear(p) => Sys(s.log.(lh := []), s.ops[p := Committer(true)])
    case Finish(p) => Sys(s.log.(committing := false), s.ops[p := Outside])
  }

  ghost predicate Initial(s: Sys) {
    s.log == Log([], 0, false) && forall p | 0 <= p < |s.ops| :: s.ops[p].Outside?
  }

  /** A run: an initial state, and steps, none of which panics, leading from state to state. */
  ghost predicate IsRun(size: int, states: seq<Sys>, steps: seq<Step>) {
    && |states| == |steps| + 1
    && Initial(states[0])
    && forall i | 0 <= i < |steps| :: StepTo(size, states[i], steps[i], states[i + 1])
  }

  /** t is a state that some run reaches. */
  ghost predicate Reachable(size: int, t: Sys) {
    exists states, steps :: IsRun(size, states, steps) && states[|steps|] == t
  }

  ghost predicate StepTo(size: int, s: Sys, step: Step, t: Sys) {
    Enabled(s, step) && !Panics(size, s, step) && t == Do(size, s, step)
  }

  // ---------------------------------------------------------------- the budget

  function Active(op: Op): int { if op.Inside? then 1 else 0 }

  ghost function Unused(op: Op): int { if op.Inside? then MAXOPBLOCKS - |op.blocks| else 0 }

  ghost function Actives(ops: seq<Op>): int {
    if ops == [] then 0 else Active(ops[0]) + Actives(ops[1..])
  }

  /** The blocks that admitted operations may still add. */
  ghost function Budget(ops: seq<Op>): int {
    if ops == [] then 0 else Unused(ops[0]) + Budget(ops[1..])
  }

  lemma {:induction false} Replace(ops: seq<Op>, p: nat, op: Op)
    requires p < |ops|
    ensures Actives(ops[p := op]) == Actives(ops) - Active(ops[p]) + Active(op)
    ensures Budget(ops[p := op]) == Budget(ops) - Unused(ops[p]) + Unused(op)
  {
    if p > 0 {
      Replace(ops[1..], p - 1, op);
      assert ops[p := op][1..] == ops[1..][p - 1 := op];
    } else {
      assert ops[p := op][1..] == ops[1..];
    }
  }

  /** Every operation inside counts for at least one, and its unused budget is part of the sum. */
  lemma {:induction false} Bounds(ops: seq<Op>)
    requires forall p | 0 <= p < |ops| && ops[p].Inside? :: |ops[p].blocks| <= MAXOPBLOCKS
    ensures 0 <= Budget(ops) <= Actives(ops) * MAXOPBLOCKS
    ensures forall p | 0 <= p < |ops| && ops[p].Inside? :: Actives(ops) >= 1 && Budget(ops) >= Unused(ops[p])
  {
    if ops != [] {
      Bounds(ops[1..]);
      forall p | 0 <= p < |ops| && ops[p].Inside?
        ensures Actives(ops) >= 1 && Budget(ops) >= Unused(ops[p])
      {
        if p > 0 { assert ops[p] == ops[1..][p - 1]; }
      }
    }
  }

  lemma {:induction false} AllOutside(ops: seq<Op>)
    requires forall p | 0 <= p < |ops| :: ops[p].Outside?
    ensures Actives(ops) == 0 && Budget(ops) == 0
  {
    if ops != [] { AllOutside(ops[1..]); }
  }

  ghost predicate Inv(s: Sys) {
    && NoDup(s.log.lh)
    && s.log.outstanding == Actives(s.ops)
    && |s.log.lh| + Budget(s.ops) <= LOGSIZE
    && (forall p | 0 <= p < |s.ops| && s.ops[p].Inside? ::
          && |s.ops[p].blocks| <= MAXOPBLOCKS
          && (forall b | b in s.ops[p].blocks :: b in s.log.lh))
    && (s.log.committing ==> s.log.outstanding == 0)
    && (!s.log.committing ==> forall p | 0 <= p < |s.ops| :: !s.ops[p].Committer?)
    && (forall p | 0 <= p < |s.ops| && s.ops[p] == Committer(true) :: s.log.lh == [])
    && (forall p, q | 0 <= p < q < |s.ops| && s.ops[p].Committer? :: !s.ops[q].Committer?)
  }

  lemma InitialInv(s: Sys)
    requires Initial(s)
    ensures Inv(s)
  {
    AllOutside(s.ops);
  }

  lemma LogWriteKeepsInv(size: int, s: Sys, p: nat, b: int)
    requires Inv(s) && Enabled(s, LogWrite(p, b)) && !Panics(size, s, LogWrite(p, b))
    ensures Inv(Do(size, s, LogWrite(p, b)))
  {
    var blocks := s.ops[p].blocks;
    Bounds(s.ops);
    Replace(s.ops, p, Inside(blocks + {b}));
    assert b in blocks ==> blocks + {b} == blocks;
    assert b !in blocks ==> |blocks + {b}| == |blocks| + 1;
  }

  lemma EndOpKeepsInv(size: int, s: Sys, p: nat)
    requires Inv(s) && Enabled(s, EndOp(p)) && !Panics(size, s, EndOp(p))
    ensures Inv(Do(size, s, EndOp(p)))
  {
    Bounds(s.ops);
    Replace(s.ops, p, Do(size, s, EndOp(p)).ops[p]);
  }

  lemma StepKeepsInv(size: int, s: Sys, step: Step)
    requires Inv(s) && Enabled(s, step) && !Panics(size, s, step)
    ensures Inv(Do(size, s, step))
  {
    if step.LogWrite? {
      LogWriteKeepsInv(size, s, step.p, step.b);
    } else if step.EndOp? {
      EndOpKeepsInv(size, s, step.p);
    } else {
      Bounds(s.ops);
      Replace(s.ops, step.p, Do(size, s, step).ops[step.p]);
    }
  }

  lemma {:induction false} RunsKeepInv(size: int, states: seq<Sys>, steps: seq<Step>, i: nat)
    requires IsRun(size, states, steps) && i <= |steps|
    ensures Inv(states[i])
  {
    if i == 0 {
      InitialInv(states[0]);
    } else {
      RunsKeepInv(size, states, steps, i - 1);
      assert StepTo(size, states[i - 1], steps[i - 1], states[i - 1 + 1]);
      StepKeepsInv(size, states[i - 1], steps[i - 1]);
    }
  }

  /** What holds in every state of every run. */
  lemma ReachableInv(size: int, t: Sys)
    requires Reachable(size, t)
    ensures Inv(t)
  {
    var states, steps :| IsRun(size, states, steps) && states[|steps|] == t;
    RunsKeepInv(size, states, steps, |steps|);
  }

  // ---------------------------------------------------------------- panics

  /** end_op() never finds a commit in progress. */
  lemma EndOpNeverPanics(size: int, t: Sys, p: nat)
    requires Reachable(size, t) && Enabled(t, EndOp(p))
    ensures !Panics(size, t, EndOp(p)) && !t.log.committing
  {
    ReachableInv(size, t);
    Bounds(t.ops);
  }

  /** With room for LOGSIZE blocks after the header, a log_write that appends never panics. */
  lemma AppendNeverPanics(size: int, t: Sys, p: nat, b: int)
    requires size > LOGSIZE
    requires Reachable(size, t) && Enabled(t, LogWrite(p, b)) && b !in t.log.lh
    ensures !Panics(size, t, LogWrite(p, b))
  {
    ReachableInv(size, t);
    Bounds(t.ops);
    assert |t.ops[p].blocks + {b}| == |t.ops[p].blocks| + 1;
  }

  /** In general log_write panics exactly when the log is full, whether it would append or not. */
  lemma WhenLogWritePanics(size: int, t: Sys, p: nat, b: int)
    requires Reachable(size, t) && Enabled(t, LogWrite(p, b))
    ensures Panics(size, t, LogWrite(p, b)) <==> TooBig(size, t.log)
    ensures size > LOGSIZE && Panics(size, t, LogWrite(p, b)) ==> |t.log.lh| == LOGSIZE && b in t.log.lh
  {
    ReachableInv(size, t);
    Bounds(t.ops);
    if size > LOGSIZE && b !in t.log.lh { AppendNeverPanics(size, t, p, b); }
  }

  // ---------------------------------------------------------------- a run that fills the log

  const START: Sys := Sys(Log([], 0, false), [Outside, Outside, Outside, Outside])

  ghost function Numbers(k: nat): seq<int> { seq(k, i => i) }

  /** Three operations are inside; the first k of these blocks are logged, ten by each operation. */
  ghost function Filled(lh: seq<int>, k: nat): Sys
    requires k <= |lh|
  {
    Sys(Log(lh[..k], 3, false), [Inside(Slice(lh, 0, k)), Inside(Slice(lh, 1, k)), Inside(Slice(lh, 2, k)), Outside])
  }

  /** The blocks that operation p has logged among the first k. */
  ghost function Slice(lh: seq<int>, p: int, k: int): set<int>
    requires k <= |lh|
  {
    set i | 0 <= i < k && i / 10 == p :: lh[i]
  }

  lemma {:induction false} SliceSize(lh: seq<int>, p: nat, k: nat)
    requires NoDup(lh) && k <= |lh|
    ensures |Slice(lh, p, k)| == if k < p * 10 then 0 else if k < p * 10 + 10 then k - p * 10 else 10
  {
    if k == 0 {
      assert Slice(lh, p, k) == {};
    } else {
      SliceSize(lh, p, k - 1);
      SliceNext(lh, p, k - 1);
    }
  }

  lemma SliceNext(lh: seq<int>, p: int, k: nat)
    requires NoDup(lh) && k < |lh|
    ensures lh[k] !in Slice(lh, p, k)
    ensures Slice(lh, p, k + 1) == if p == k / 10 then Slice(lh, p, k) + {lh[k]} else Slice(lh, p, k)
  {
  }

  /** Logging block k is within the budget of operation k / 10. */
  lemma NextFits(lh: seq<int>, k: nat)
    requires NoDup(lh) && k < |lh| <= LOGSIZE
    ensures Enabled(Filled(lh, k), LogWrite(k / 10, lh[k])) && lh[k] !in Filled(lh, k).log.lh
  {
    SliceSize(lh, k / 10, k);
  }

  lemma Initially(size: int, s: Sys)
    requires Initial(s)
    ensures Reachable(size, s)
  {
    assert IsRun(size, [s], []);
  }

  lemma Extend(size: int, s: Sys, step: Step, t: Sys)
    requires Reachable(size, s) && StepTo(size, s, step, t)
    ensures Reachable(size, t)
  {
    var states, steps :| IsRun(size, states, steps) && states[|steps|] == s;
    assert IsRun(size, states + [t], steps + [step]);
  }

  lemma ThreeBegin(size: int, lh: seq<int>)
    ensures Reachable(size, Filled(lh, 0))
  {
    var a := Sys(Log([], 1, false), [Inside({}), Outside, Outside, Outside]);
    var b := Sys(Log([], 2, false), [Inside({}), Inside({}), Outside, Outside]);
    Initially(size, START);
    Extend(size, START, BeginOp(0), a);
    Extend(size, a, BeginOp(1), b);
    assert Slice(lh, 0, 0) == {} && Slice(lh, 1, 0) == {} && Slice(lh, 2, 0) == {};
    Extend(size, b, BeginOp(2), Filled(lh, 0));
  }

  lemma FillStep(size: int, lh: seq<int>, k: nat)
    requires NoDup(lh) && k < |lh| <= LOGSIZE && k < size - 1
    ensures StepTo(size, Filled(lh, k), LogWrite(k / 10, lh[k]), Filled(lh, k + 1))
  {
    hide Slice, NoDup;
    NextFits(lh, k);
    assert lh[..k] + [lh[k]] == lh[..k + 1];
    SliceNext(lh, 0, k);
    SliceNext(lh, 1, k);
    SliceNext(lh, 2, k);
  }

  lemma {:induction false} FillRuns(size: int, lh: seq<int>, k: nat)
    requires NoDup(lh) && k <= |lh| <= LOGSIZE && (k == 0 || k <= size - 1)
    ensures Reachable(size, Filled(lh, k))
  {
    hide StepTo, Reachable, Filled, NoDup;
    if k == 0 {
      ThreeBegin(size, lh);
    } else {
      FillRuns(size, lh, k - 1);
      FillStep(size, lh, k - 1);
      Extend(size, Filled(lh, k - 1), LogWrite((k - 1) / 10, lh[k - 1]), Filled(lh, k));
    }
  }

  ghost predicate AppendPanicReachable(size: int) {
    exists t, p, b :: Reachable(size, t) && Enabled(t, LogWrite(p, b)) && b !in t.log.lh && Panics(size, t, LogWrite(p, b))
  }

  /**
   * "No appending log_write panics" holds if and only if the log has more than LOGSIZE blocks.
   * mkfs makes nlog == LOGSIZE, so three operations within their budgets can reach the panic.
   */
  lemma AppendPanicsIff(size: int)
    ensures AppendPanicReachable(size) <==> size <= LOGSIZE
  {
    if size <= LOGSIZE {
      var k := if size <= 1 then 0 else size - 1;
      var lh := Numbers(LOGSIZE);
      FillRuns(size, lh, k);
      NextFits(lh, k);
      assert Panics(size, Filled(lh, k), LogWrite(k / 10, k));
    } else if AppendPanicReachable(size) {
      var t, p, b :| Reachable(size, t) && Enabled(t, LogWrite(p, b)) && b !in t.log.lh && Panics(size, t, LogWrite(p, b));
      AppendNeverPanics(size, t, p, b);
      assert false;
    }
  }

  /** However large the log, an absorbed log_write can panic: the check precedes absorption. */
  lemma AbsorbedWriteCanPanic(size: int)
    requires size > LOGSIZE
    ensures var t := Filled(Numbers(LOGSIZE), LOGSIZE);
            Reachable(size, t) && Enabled(t, LogWrite(0, 0)) && 0 in t.log.lh && Panics(size, t, LogWrite(0, 0))
  {
    var lh := Numbers(LOGSIZE);
    FillRuns(size, lh, LOGSIZE);
    SliceSize(lh, 0, LOGSIZE);
    assert lh[0] == 0 && Slice(lh, 0, LOGSIZE) + {0} == Slice(lh, 0, LOGSIZE);
  }
}
