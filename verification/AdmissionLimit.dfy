/**
 * How good the test in begin_op() (log.c) is: of the tests that look at the log alone, it lets in the
 * most operations that never need more than LOGSIZE blocks; with what each operation has logged so far,
 * more could be let in.
 */
module AdmissionLimit {
  import opened LogCrash
  import opened Params
  import opened LogAdmission

  /** Process p begins an operation, whatever the test says. */
  ghost function Joined(s: Sys, p: nat): Sys
    requires p < |s.ops|
  {
    Sys(Begin(s.log), s.ops[p := Inside({})])
  }

  /** These steps are log_write() calls within the budgets, one after the other. */
  ghost predicate Writes(size: int, states: seq<Sys>, steps: seq<Step>) {
    && |states| == |steps| + 1
    && forall i | 0 <= i < |steps| :: steps[i].LogWrite? && StepTo(size, states[i], steps[i], states[i + 1])
  }

  /** The log holds LOGSIZE blocks, and this operation may log one more. */
  ghost predicate Past(s: Sys, p: nat, b: int) {
    |s.log.lh| == LOGSIZE && b !in s.log.lh && Enabled(s, LogWrite(p, b))
  }

  /** Operations within their budgets can need more than LOGSIZE blocks. */
  ghost predicate Overflows(size: int, s: Sys) {
    exists states, steps, p, b :: Writes(size, states, steps) && states[0] == s && Past(states[|steps|], p, b)
  }

  // ---------------------------------------------------------------- in terms of the budgets

  ghost predicate Sound(s: Sys) {
    && |s.log.lh| <= LOGSIZE && s.log.outstanding == Actives(s.ops)
    && forall p | 0 <= p < |s.ops| && s.ops[p].Inside? ::
         |s.ops[p].blocks| <= MAXOPBLOCKS && forall b | b in s.ops[p].blocks :: b in s.log.lh
  }

  /** The blocks logged, and the ones that may still be. */
  ghost function Need(s: Sys): int { |s.log.lh| + Budget(s.ops) }

  lemma WriteKeeps(size: int, s: Sys, p: nat, b: int)
    requires size > LOGSIZE && Sound(s) && Enabled(s, LogWrite(p, b)) && !Panics(size, s, LogWrite(p, b))
    ensures var t := Do(size, s, LogWrite(p, b));
            Sound(t) && Need(t) <= Need(s) && (b !in s.log.lh ==> Need(t) == Need(s) && |t.log.lh| == |s.log.lh| + 1)
  {
    var blocks := s.ops[p].blocks;
    Replace(s.ops, p, Inside(blocks + {b}));
    assert b in blocks ==> blocks + {b} == blocks;
    assert b !in blocks ==> |blocks + {b}| == |blocks| + 1;
  }

  /** A budget that is left is left to some operation. */
  lemma {:induction false} Spare(ops: seq<Op>) returns (p: nat)
    requires Budget(ops) > 0
    ensures p < |ops| && ops[p].Inside? && |ops[p].blocks| < MAXOPBLOCKS
  {
    if Unused(ops[0]) > 0 { return 0; }
    p := Spare(ops[1..]);
    p := p + 1;
  }

  lemma {:induction false} Above(lh: seq<int>) returns (b: int)
    ensures forall x | x in lh :: x < b
  {
    if lh == [] { return 0; }
    b := Above(lh[1..]);
    if b <= lh[0] { b := lh[0] + 1; }
    assert lh == [lh[0]] + lh[1..];
  }

  lemma MayLog(s: Sys) returns (p: nat, b: int)
    requires Sound(s) && Budget(s.ops) > 0
    ensures b !in s.log.lh && Enabled(s, LogWrite(p, b)) && s.log.outstanding > 0
  {
    p := Spare(s.ops);
    b := Above(s.log.lh);
    assert |s.ops[p].blocks + {b}| == |s.ops[p].blocks| + 1;
    Bounds(s.ops);
  }

  lemma OneMoreWrite(size: int, s: Sys, step: Step, t: Sys)
    requires step.LogWrite? && StepTo(size, s, step, t) && Overflows(size, t)
    ensures Overflows(size, s)
  {
    var states: seq<Sys>, steps: seq<Step>, p: nat, b: int :| Writes(size, states, steps) && states[0] == t && Past(states[|steps|], p, b);
    var more, all := [s] + states, [step] + steps;
    forall i | 0 <= i < |all| ensures all[i].LogWrite? && StepTo(size, more[i], all[i], more[i + 1]) {
      if i > 0 { assert steps[i - 1].LogWrite? && StepTo(size, states[i - 1], steps[i - 1], states[i - 1 + 1]); }
    }
    assert Writes(size, more, all) && more[|all|] == states[|steps|];
  }

  lemma {:induction false} WriteOn(size: int, s: Sys)
    requires size > LOGSIZE && Sound(s) && Need(s) > LOGSIZE
    ensures Overflows(size, s)
    decreases LOGSIZE - |s.log.lh|
  {
    var p, b := MayLog(s);
    if |s.log.lh| == LOGSIZE {
      assert Writes(size, [s], []) && Past([s][0], p, b);
    } else {
      var step := LogWrite(p, b);
      WriteKeeps(size, s, p, b);
      WriteOn(size, Do(size, s, step));
      OneMoreWrite(size, s, step, Do(size, s, step));
    }
  }

  lemma {:induction false} WritesKeep(size: int, states: seq<Sys>, steps: seq<Step>, i: nat)
    requires size > LOGSIZE && Writes(size, states, steps) && Sound(states[0]) && i <= |steps|
    ensures Sound(states[i]) && Need(states[i]) <= Need(states[0])
  {
    if i > 0 {
      WritesKeep(size, states, steps, i - 1);
      assert steps[i - 1].LogWrite? && StepTo(size, states[i - 1], steps[i - 1], states[i - 1 + 1]);
      WriteKeeps(size, states[i - 1], steps[i - 1].p, steps[i - 1].b);
    }
  }

  lemma PastNeeds(s: Sys, p: nat, b: int)
    requires Sound(s) && Past(s, p, b)
    ensures Need(s) > LOGSIZE
  {
    Bounds(s.ops);
    assert |s.ops[p].blocks + {b}| == |s.ops[p].blocks| + 1;
  }

  /** Operations can need more than LOGSIZE blocks if and only if their budgets add up to more. */
  lemma OverflowsIff(size: int, s: Sys)
    requires size > LOGSIZE && Sound(s)
    ensures Overflows(size, s) <==> Need(s) > LOGSIZE
  {
    if Need(s) > LOGSIZE { WriteOn(size, s); }
    if Overflows(size, s) {
      var states: seq<Sys>, steps: seq<Step>, p: nat, b: int :| Writes(size, states, steps) && states[0] == s && Past(states[|steps|], p, b);
      WritesKeep(size, states, steps, |steps|);
      PastNeeds(states[|steps|], p, b);
    }
  }

  lemma JoinedIff(size: int, s: Sys, p: nat)
    requires size > LOGSIZE && Reachable(size, s) && p < |s.ops| && s.ops[p].Outside?
    ensures Overflows(size, Joined(s, p)) <==> Need(s) + MAXOPBLOCKS > LOGSIZE
  {
    ReachableInv(size, s);
    Bounds(s.ops);
    Replace(s.ops, p, Inside({}));
    OverflowsIff(size, Joined(s, p));
  }

  // ---------------------------------------------------------------- what the log alone tells

  ghost predicate Idle(s: Sys) {
    && s.log.outstanding * MAXOPBLOCKS <= LOGSIZE
    && (s.log.outstanding == 0 && !s.log.committing ==> s.log.lh == [])
  }

  lemma {:induction false} RunsKeepIdle(size: int, states: seq<Sys>, steps: seq<Step>, i: nat)
    requires IsRun(size, states, steps) && i <= |steps|
    ensures Idle(states[i])
  {
    if i > 0 {
      RunsKeepIdle(size, states, steps, i - 1);
      RunsKeepInv(size, states, steps, i - 1);
      assert StepTo(size, states[i - 1], steps[i - 1], states[i - 1 + 1]);
      Bounds(states[i - 1].ops);
    }
  }

  lemma ReachableIdle(size: int, s: Sys)
    requires Reachable(size, s)
    ensures Idle(s)
  {
    var states, steps :| IsRun(size, states, steps) && states[|steps|] == s;
    RunsKeepIdle(size, states, steps, |steps|);
  }

  /** Of the three operations that filled the log, the first ones have ended. */
  ghost function Ended(lh: seq<int>, out: int): Sys {
    var full := Filled(lh, |lh|);
    Sys(Log(lh, out, false), [if out < 3 then Outside else full.ops[0], if out < 2 then Outside else full.ops[1], full.ops[2], Outside])
  }

  lemma EndedRuns(size: int, lh: seq<int>, out: int)
    requires size > LOGSIZE && NoDup(lh) && |lh| <= LOGSIZE && 1 <= out <= 3
    ensures Reachable(size, Ended(lh, out))
    decreases 3 - out
  {
    if out == 3 {
      FillRuns(size, lh, |lh|);
      assert lh[..|lh|] == lh;
    } else {
      EndedRuns(size, lh, out + 1);
      Extend(size, Ended(lh, out + 1), EndOp(2 - out), Ended(lh, out));
    }
  }

  lemma EndedNeed(lh: seq<int>, out: int)
    requires NoDup(lh) && |lh| <= LOGSIZE && 1 <= out <= 3 && !Admits(Log(lh, out, false))
    ensures Need(Ended(lh, out)) + MAXOPBLOCKS > LOGSIZE
  {
    var n, ops := |lh|, Ended(lh, out).ops;
    SliceSize(lh, 0, n);
    SliceSize(lh, 1, n);
    SliceSize(lh, 2, n);
    BudgetOfFour(ops);
    assert Unused(ops[2]) == if n < 20 then 10 else 30 - n;
    assert out >= 2 ==> Unused(ops[1]) == if n < 10 then 10 else if n < 20 then 20 - n else 0;
    assert out == 3 ==> Unused(ops[0]) == if n < 10 then 10 - n else 0;
  }

  lemma BudgetOfFour(ops: seq<Op>)
    requires |ops| == 4
    ensures Budget(ops) == Unused(ops[0]) + Unused(ops[1]) + Unused(ops[2]) + Unused(ops[3])
  {
    hide Unused;
    var a, b, c, d := ops[0], ops[1], ops[2], ops[3];
    assert ops == [a, b, c, d];
    BudgetFrom(d, []);
    assert [d] + [] == [d];
    BudgetFrom(c, [d]);
    assert [c] + [d] == [c, d];
    BudgetFrom(b, [c, d]);
    assert [b] + [c, d] == [b, c, d];
    BudgetFrom(a, [b, c, d]);
    assert [a] + [b, c, d] == ops;
  }

  lemma BudgetFrom(op: Op, ops: seq<Op>)
    ensures Budget([op] + ops) == Unused(op) + Budget(ops) && Budget([]) == 0
  {
    assert ([op] + ops)[1..] == ops;
  }

  /**
   * begin_op() lets an operation in exactly when, from every state with this log, the operations inside
   * and the new one can never need more than LOGSIZE blocks.
   */
  lemma AdmitsIff(size: int, s: Sys)
    requires size > LOGSIZE && Reachable(size, s) && !s.log.committing
    ensures Admits(s.log) <==>
            forall t, p: nat | Reachable(size, t) && t.log == s.log && p < |t.ops| && t.ops[p].Outside? :: !Overflows(size, Joined(t, p))
  {
    ReachableInv(size, s);
    ReachableIdle(size, s);
    var lh, out := s.log.lh, s.log.outstanding;
    if Admits(s.log) {
      forall t, p: nat | Reachable(size, t) && t.log == s.log && p < |t.ops| && t.ops[p].Outside? ensures !Overflows(size, Joined(t, p)) {
        JoinedIff(size, t, p);
        ReachableInv(size, t);
        Bounds(t.ops);
      }
    } else {
      Bounds(s.ops);
      EndedRuns(size, lh, out);
      EndedNeed(lh, out);
      JoinedIff(size, Ended(lh, out), 3);
      assert Overflows(size, Joined(Ended(lh, out), 3));
    }
  }

  /** Two operations that have logged all they may: a third would fit, and begin_op() lets it wait. */
  lemma WaitsInVain(size: int)
    requires size > LOGSIZE
    ensures exists t :: Reachable(size, t) && !t.log.committing && !Admits(t.log) && |t.ops| > 3 && t.ops[3].Outside? && !Overflows(size, Joined(t, 3))
  {
    var lh := Numbers(20);
    FillRuns(size, lh, 20);
    var full := Filled(lh, 20);
    var t := Sys(Log(lh, 2, false), full.ops[2 := Outside]);
    assert lh[..20] == lh;
    Extend(size, full, EndOp(2), t);
    SliceSize(lh, 0, 20);
    SliceSize(lh, 1, 20);
    BudgetOfFour(t.ops);
    JoinedIff(size, t, 3);
  }
}
