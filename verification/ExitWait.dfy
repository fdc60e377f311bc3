/**
 * fork, exit, reparent, wait and kill under every interleaving (proc.c).
 *
 * Each process is a program counter over the steps of these functions.  A stretch that runs
 * under one process lock only (kill, one test of wakeup, setting RUNNABLE in fork) is one step,
 * taken when that lock is free; locks held across steps are explicit.
 */
module ExitWait {
  const INIT: int := 0      // initproc
  const NONE: int := -1

  datatype State = Unused | Used | Runnable | Running | Sleeping | Zombie

  datatype Pc =
    | Idle                            // in other code
    // fork(), after allocproc() and uvmcopy()
    | ForkLock(np: int)               // acquire(&wait_lock)
    | ForkParent(np: int)             // np->parent = p
    | ForkDrop(np: int)               // release(&wait_lock)
    | ForkStart(np: int)              // np->state = RUNNABLE
    // exit()
    | ExitLock                        // acquire(&wait_lock)
    | Reparent(k: int)                // if(pp->parent == p) pp->parent = initproc
    | ReparentWake(k: int)            // wakeup(initproc)
    | WakeParent                      // wakeup(p->parent)
    | ExitSelf                        // acquire(&p->lock)
    | SetZombie                       // p->state = ZOMBIE
    | ExitDrop                        // release(&wait_lock)
    | ExitSwitch                      // sched()
    | Dead
    // wait()
    | WaitLock                        // acquire(&wait_lock)
    | Scan(k: int, kids: bool)        // if(pp->parent == p) acquire(&pp->lock)
    | Check(k: int)                   // if(pp->state == ZOMBIE) ...
    | ReapDrop(k: int)                // release(&pp->lock)
    | WaitDrop                        // release(&wait_lock); return
    // sleep(p, &wait_lock)
    | SleepSelf                       // acquire(&p->lock)
    | SleepDrop                       // release(&wait_lock)
    | SleepSet                        // p->chan = p; p->state = SLEEPING
    | SleepSwitch                     // sched()
    | Asleep

  /** What this wait() has found: nothing yet, a child that it has freed, or a zombie whose status could not be copied. */
  datatype Found = Nothing | Got(pid: int) | NotCopied(k: int)

  /**
   * `status` is the argument of exit(), `found` a local variable of wait(), and `maker` is the process
   * that forked this one (an auxiliary variable).
   */
  datatype Process = Process(pc: Pc, state: State, parent: int, pid: int, killed: bool, xstate: int, status: int, found: Found, maker: int)

  /** The wait() by process `who` that returned `pid` and copied `xstate` out. */
  datatype Waited = Waited(who: int, pid: int, xstate: int)

  /** Locks hold the index of their holder or NONE; `exited` (pid to status) and `waits` record what has happened. */
  datatype System = System(procs: seq<Process>, locks: seq<int>, wait: int, nextpid: int, exited: map<int, int>, waits: seq<Waited>)

  datatype Call = Fork(np: int, ok: bool) | Exit(status: int) | Wait | Kill(t: int) | Go(copied: bool)
  datatype Action = Run(p: int, call: Call) | Preempt(p: int) | Dispatch(p: int)

  const FREE: Process := Process(Idle, Unused, NONE, 0, false, 0, 0, Nothing, NONE)

  predicate Init(s: System) {
    && |s.procs| > 0 && |s.locks| == |s.procs| && s.wait == NONE && s.nextpid == 2 && s.exited == map[] && s.waits == []
    && s.procs[INIT] == Process(Idle, Running, NONE, 1, false, 0, 0, Nothing, NONE)
    && (forall p | 0 <= p < |s.procs| :: s.locks[p] == NONE && (p != INIT ==> s.procs[p] == FREE))
  }

  // ---------------------------------------------------------------- steps

  predicate IsProc(s: System, p: int) { 0 <= p < |s.procs| && p < |s.locks| }

  predicate Interruptible(pc: Pc) { pc.Idle? || pc.ForkLock? || pc.ForkStart? || pc.ExitLock? || pc.WaitLock? }

  predicate OnCpu(pr: Process) { pr.state.Running? || pr.pc.SleepSwitch? || pr.pc.ExitDrop? || pr.pc.ExitSwitch? }

  predicate Enabled(s: System, a: Action) {
    IsProc(s, a.p) &&
    match a
    case Run(p, call) => OnCpu(s.procs[p]) && (if s.procs[p].pc.Idle? then CanCall(s, p, call) else call.Go? && CanGo(s, p))
    case Preempt(p) => s.procs[p].state.Running? && Interruptible(s.procs[p].pc) && s.locks[p] == NONE
    case Dispatch(p) => s.procs[p].state.Runnable? && s.locks[p] == NONE
  }

  predicate CanCall(s: System, p: int, call: Call)
    requires IsProc(s, p)
  {
    match call
    case Fork(np, ok) => IsProc(s, np) && s.procs[np].state.Unused? && s.locks[np] == NONE
    case Exit(_) => p != INIT
    case Wait => true
    case Kill(t) => IsProc(s, t) && s.locks[t] == NONE && !s.procs[t].state.Unused?
    case Go(_) => false
  }

  predicate CanGo(s: System, p: int)
    requires IsProc(s, p)
  {
    var pr := s.procs[p];
    match pr.pc
    case ForkLock(_) => s.wait == NONE
    case ExitLock => s.wait == NONE
    case WaitLock => s.wait == NONE
    case ForkParent(np) => IsProc(s, np)
    case ForkStart(np) => IsProc(s, np) && s.locks[np] == NONE
    case ReparentWake(k) => IsProc(s, INIT) && s.locks[INIT] == NONE
    case WakeParent => IsProc(s, pr.parent) ==> s.locks[pr.parent] == NONE
    case ExitSelf => s.locks[p] == NONE
    case SleepSelf => s.locks[p] == NONE
    case Scan(k, _) => IsProc(s, k) && s.procs[k].parent == p ==> s.locks[k] == NONE
    case Check(k) => IsProc(s, k)
    case ReapDrop(k) => IsProc(s, k)
    case Dead => false
    case Asleep => false
    case _ => true
  }

  /** wakeup(q), for a q that may sleep in wait(). */
  function Awake(pr: Process): Process {
    if pr.state.Sleeping? then pr.(state := Runnable) else pr
  }

  /** The other process that a step of p changes, or NONE. */
  function Touches(s: System, p: int, call: Call): int
    requires IsProc(s, p)
  {
    match s.procs[p].pc
    case Idle => if call.Fork? && call.ok then call.np else if call.Kill? then call.t else NONE
    case ForkParent(np) => np
    case ForkStart(np) => np
    case Reparent(k) => k
    case ReparentWake(_) => INIT
    case WakeParent => s.procs[p].parent
    case Check(k) => k
    case _ => NONE
  }

  /** ... and what becomes of it. */
  function Touched(s: System, p: int, call: Call, t: int): Process
    requires IsProc(s, p) && IsProc(s, t)
  {
    var pr := s.procs[t];
    match s.procs[p].pc
    case Idle => if call.Fork? then Process(Idle, Used, NONE, s.nextpid, false, 0, 0, Nothing, p) else Awake(pr.(killed := true))
    case ForkParent(_) => pr.(parent := p)
    case ForkStart(_) => pr.(state := Runnable)
    case Reparent(_) => if pr.parent == p then pr.(parent := INIT) else pr
    case ReparentWake(_) => Awake(pr)
    case WakeParent => Awake(pr)
    case Check(_) => if Reaps(s, p, call, t) then FREE else pr
    case _ => pr
  }

  /** wait() finds the zombie k, and freeproc()s it unless copying its status out fails. */
  predicate Reaps(s: System, p: int, call: Call, k: int)
    requires IsProc(s, p) && IsProc(s, k)
  {
    s.procs[p].pc == Check(k) && s.procs[k].state.Zombie? && (call.Go? ==> call.copied)
  }

  function NextPc(s: System, p: int, call: Call): Pc
    requires IsProc(s, p)
  {
    var n := |s.procs|;
    match s.procs[p].pc
    case Idle => (match call
      case Fork(np, ok) => if ok then ForkLock(np) else Idle
      case Exit(_) => ExitLock
      case Wait => WaitLock
      case Kill(_) => Idle
      case Go(_) => Idle)
    case ForkLock(np) => ForkParent(np)
    case ForkParent(np) => ForkDrop(np)
    case ForkDrop(np) => ForkStart(np)
    case ForkStart(_) => Idle
    case ExitLock => Reparent(0)
    case Reparent(k) => if k >= n then WakeParent else if k >= 0 && s.procs[k].parent == p then ReparentWake(k) else Reparent(k + 1)
    case ReparentWake(k) => Reparent(k + 1)
    case WakeParent => ExitSelf
    case ExitSelf => SetZombie
    case SetZombie => ExitDrop
    case ExitDrop => ExitSwitch
    case ExitSwitch => Dead
    case Dead => Dead
    case WaitLock => Scan(0, false)
    case Scan(k, kids) =>
      if k >= n then (if !kids || s.procs[p].killed then WaitDrop else SleepSelf)
      else if k >= 0 && s.procs[k].parent == p then Check(k) else Scan(k + 1, kids)
    case Check(k) => if 0 <= k < n && s.procs[k].state.Zombie? then ReapDrop(k) else Scan(k + 1, true)
    case ReapDrop(_) => WaitDrop
    case WaitDrop => Idle
    case SleepSelf => SleepDrop
    case SleepDrop => SleepSet
    case SleepSet => SleepSwitch
    case SleepSwitch => Asleep
    case Asleep => Asleep
  }

  function NextSelf(s: System, p: int, call: Call): Process
    requires IsProc(s, p)
  {
    var pr := s.procs[p];
    var killed := pr.killed || (pr.pc.Idle? && call == Kill(p));
    pr.(pc := NextPc(s, p, call), killed := killed, state := if pr.pc.SleepSet? then Sleeping else if pr.pc.SetZombie? then Zombie else pr.state,
        xstate := if pr.pc.SetZombie? then pr.status else pr.xstate,
        status := if pr.pc.Idle? && call.Exit? then call.status else pr.status,
        found := NextFound(s, p, call))
  }

  function NextFound(s: System, p: int, call: Call): Found
    requires IsProc(s, p)
  {
    match s.procs[p].pc
    case WaitLock => Nothing
    case Check(k) => if !IsProc(s, k) || !s.procs[k].state.Zombie? then s.procs[p].found
                     else if Reaps(s, p, call, k) then Got(s.procs[k].pid) else NotCopied(k)
    case _ => s.procs[p].found
  }

  function NextProcs(s: System, p: int, call: Call): (procs: seq<Process>)
    requires IsProc(s, p)
    ensures |procs| == |s.procs|
  {
    var t := Touches(s, p, call);
    (if IsProc(s, t) then s.procs[t := Touched(s, p, call, t)] else s.procs)[p := NextSelf(s, p, call)]
  }

  function NextLocks(s: System, p: int): (locks: seq<int>)
    requires IsProc(s, p)
    ensures |locks| == |s.locks|
  {
    match s.procs[p].pc
    case ExitSelf | SleepSelf => s.locks[p := p]
    case ExitSwitch | SleepSwitch => s.locks[p := NONE]
    case Scan(k, _) => if IsProc(s, k) && s.procs[k].parent == p then s.locks[k := p] else s.locks
    case Check(k) => if IsProc(s, k) && !s.procs[k].state.Zombie? then s.locks[k := NONE] else s.locks
    case ReapDrop(k) => if IsProc(s, k) then s.locks[k := NONE] else s.locks
    case _ => s.locks
  }

  function NextWait(s: System, p: int): int
    requires IsProc(s, p)
  {
    match s.procs[p].pc
    case ForkLock(_) | ExitLock | WaitLock => p
    case ForkDrop(_) | ExitDrop | WaitDrop | SleepDrop => NONE
    case _ => s.wait
  }

  function Do(s: System, a: Action): System
    requires Enabled(s, a)
  {
    match a
    case Run(p, call) => Step(s, p, call)
    case Preempt(p) => s.(procs := s.procs[p := s.procs[p].(state := Runnable)])
    case Dispatch(p) => s.(procs := s.procs[p := s.procs[p].(state := Running, pc := if s.procs[p].pc.Asleep? then WaitLock else s.procs[p].pc)])
  }

  function Step(s: System, p: int, call: Call): System
    requires IsProc(s, p)
  {
    var pr := s.procs[p];
    System(NextProcs(s, p, call), NextLocks(s, p), NextWait(s, p),
           if pr.pc.Idle? && call.Fork? then s.nextpid + 1 else s.nextpid,
           if pr.pc.SetZombie? then s.exited[pr.pid := pr.status] else s.exited,
           if pr.pc.Check? && IsProc(s, pr.pc.k) && Reaps(s, p, call, pr.pc.k) then s.waits + [Waited(p, s.procs[pr.pc.k].pid, s.procs[pr.pc.k].xstate)] else s.waits)
  }

  // ---------------------------------------------------------------- the invariant

  predicate HoldsWait(pc: Pc) {
    || pc.ForkParent? || pc.ForkDrop? || pc.Reparent? || pc.ReparentWake? || pc.WakeParent? || pc.ExitSelf? || pc.SetZombie? || pc.ExitDrop?
    || pc.Scan? || pc.Check? || pc.ReapDrop? || pc.WaitDrop? || pc.SleepSelf? || pc.SleepDrop?
  }

  predicate HoldsSelf(pc: Pc) {
    pc.SetZombie? || pc.ExitDrop? || pc.ExitSwitch? || pc.SleepDrop? || pc.SleepSet? || pc.SleepSwitch?
  }

  predicate LocksOk(s: System, p: int)
    requires IsProc(s, p)
  {
    var pc := s.procs[p].pc;
    && (HoldsWait(pc) ==> s.wait == p)
    && (HoldsSelf(pc) ==> s.locks[p] == p)
    && (pc.Check? || pc.ReapDrop? ==> IsProc(s, pc.k) && s.locks[pc.k] == p && pc.k != p)
    && (pc.Check? ==> s.procs[pc.k].parent == p)
    && (pc.Reparent? || pc.ReparentWake? || pc.Scan? ==> pc.k >= 0)
  }

  predicate Forking(pc: Pc) { pc.ForkLock? || pc.ForkParent? || pc.ForkDrop? || pc.ForkStart? }

  predicate Exiting(pc: Pc) { pc.ExitLock? || pc.Reparent? || pc.ReparentWake? || pc.WakeParent? || pc.ExitSelf? || pc.SetZombie? }

  /** State and place of a process agree. */
  predicate StateOk(p: int, pr: Process) {
    && (pr.state.Unused? ==> pr == FREE)
    && (pr.state.Used? ==> pr.pc.Idle?)
    && (pr.state.Zombie? <==> pr.pc.ExitDrop? || pr.pc.ExitSwitch? || pr.pc.Dead?)
    && (pr.state.Sleeping? ==> pr.pc.SleepSwitch? || pr.pc.Asleep?)
    && (pr.pc.SleepSwitch? ==> pr.state.Sleeping?)
    && (pr.pc.Asleep? ==> pr.state.Sleeping? || pr.state.Runnable?)
    && (pr.state.Runnable? ==> Interruptible(pr.pc) || pr.pc.Asleep?)
    && (p == INIT ==> !pr.state.Unused? && !pr.state.Used? && !pr.state.Zombie? && !Exiting(pr.pc) && pr.parent == NONE)
  }

  /** A process being made is known to its maker only. */
  predicate ForkOk(s: System, p: int)
    requires IsProc(s, p)
  {
    var pc := s.procs[p].pc;
    Forking(pc) ==> && IsProc(s, pc.np) && pc.np != p && s.procs[pc.np].state.Used? && s.procs[pc.np].maker == p
                    && s.procs[pc.np].parent == if pc.ForkLock? || pc.ForkParent? then NONE else p
  }

  predicate Live(state: State) { state.Runnable? || state.Running? || state.Sleeping? || state.Zombie? }

  predicate HasParent(s: System, k: int)
    requires IsProc(s, k)
  {
    Live(s.procs[k].state) && k != INIT ==> IsProc(s, s.procs[k].parent)
  }

  /** Process k cannot be, or no longer be, a child of a process like this. */
  predicate Childless(pr: Process, k: int) {
    || pr.state.Unused? || pr.state.Used? || pr.state.Zombie? || pr.pc.WakeParent? || pr.pc.ExitSelf? || pr.pc.SetZombie?
    || (pr.pc.Reparent? && k < pr.pc.k) || (pr.pc.ReparentWake? && k <= pr.pc.k)
  }

  /** SLEEPING in wait(), or bound to be. */
  predicate Bound(pr: Process) {
    pr.pc.SleepSelf? || pr.pc.SleepDrop? || pr.pc.SleepSet? || pr.pc.SleepSwitch? || (pr.pc.Asleep? && pr.state.Sleeping?)
  }

  /** This wait() has found, or will go to sleep believing, that child k is no zombie. */
  predicate Overlooks(pr: Process, k: int) {
    Bound(pr) || (pr.pc.Scan? && k < pr.pc.k) || (pr.pc.Check? && k < pr.pc.k)
  }

  /** A zombie, or past the last wakeup of its parent. */
  predicate Exited(pr: Process) { pr.state.Zombie? || pr.pc.ExitSelf? || pr.pc.SetZombie? }

  /** A process that gives its children to initproc is about to wake it. */
  predicate InitComing(s: System) { IsProc(s, s.wait) && s.procs[s.wait].pc.ReparentWake? }

  /** A child and its parent. */
  predicate PairOk(s: System, p: int, k: int)
    requires IsProc(s, p) && IsProc(s, k)
  {
    s.procs[k].parent == p ==>
      && k != p && k != INIT && !Childless(s.procs[p], k)
      && (Exited(s.procs[k]) && Overlooks(s.procs[p], k) ==> p == INIT && InitComing(s))
  }

  /** Pids are unique, and those of living processes are not among the exited. */
  predicate PidOk(s: System, p: int)
    requires IsProc(s, p)
  {
    var pr := s.procs[p];
    !pr.state.Unused? ==> 0 < pr.pid < s.nextpid && (pr.pid in s.exited <==> pr.state.Zombie?)
  }

  predicate PidsApart(s: System, p: int, q: int)
    requires IsProc(s, p) && IsProc(s, q)
  {
    p != q && !s.procs[p].state.Unused? && !s.procs[q].state.Unused? ==> s.procs[p].pid != s.procs[q].pid
  }

  ghost predicate IsZombie(s: System, pid: int) {
    exists p :: IsProc(s, p) && s.procs[p].state.Zombie? && s.procs[p].pid == pid
  }

  ghost predicate IsReaped(waits: seq<Waited>, pid: int) {
    exists i :: 0 <= i < |waits| && waits[i].pid == pid
  }

  /** Every exited process is a zombie, or was returned by exactly one wait(). */
  ghost predicate HistoryOk(s: System) {
    && (forall i, j | 0 <= i < j < |s.waits| :: s.waits[i].pid != s.waits[j].pid)
    && (forall i | 0 <= i < |s.waits| :: s.waits[i].pid in s.exited && s.waits[i].xstate == s.exited[s.waits[i].pid])
    && (forall pid | pid in s.exited :: pid < s.nextpid && (IsZombie(s, pid) || IsReaped(s.waits, pid)))
    && (forall p | IsProc(s, p) && s.procs[p].state.Zombie? ::
          !IsReaped(s.waits, s.procs[p].pid) && s.procs[p].pid in s.exited && s.exited[s.procs[p].pid] == s.procs[p].xstate)
  }

  predicate IsKid(s: System, p: int, k: int) { IsProc(s, k) && s.procs[k].parent == p }

  /** Process p has a child in one of the first n slots. */
  ghost predicate KidBelow(s: System, p: int, n: int) { exists k :: 0 <= k < n && IsKid(s, p, k) }

  /** Process p has a child. */
  ghost predicate HasKid(s: System, p: int) { KidBelow(s, p, |s.procs|) }

  /** No child of p has exited, nor will it before wait_lock is free. */
  ghost predicate NoneExited(s: System, p: int) { forall k | IsKid(s, p, k) :: !Exited(s.procs[k]) }

  /** What wait() has found out so far, and why it ends or sleeps. */
  ghost predicate WaitOk(s: System, p: int)
    requires IsProc(s, p)
  {
    var pr := s.procs[p];
    && (pr.pc.Scan? ==> (pr.pc.kids <==> KidBelow(s, p, pr.pc.k)) && pr.found == Nothing)
    && (pr.pc.Check? ==> pr.found == Nothing)
    && (Bound(pr) ==> HasKid(s, p))
    && (pr.pc.ReapDrop? ==> pr.found != Nothing)
    && (pr.pc.ReapDrop? || pr.pc.WaitDrop? ==>
          match pr.found
          case Nothing => NoneExited(s, p) && (pr.killed || !HasKid(s, p))
          case Got(pid) => s.waits != [] && s.waits[|s.waits| - 1].who == p && s.waits[|s.waits| - 1].pid == pid
          case NotCopied(k) => IsKid(s, p, k) && s.procs[k].state.Zombie?)
  }

  predicate ProcOk(s: System, p: int)
    requires IsProc(s, p)
  {
    LocksOk(s, p) && StateOk(p, s.procs[p]) && ForkOk(s, p) && HasParent(s, p) && PidOk(s, p)
  }

  /** wait_lock is held only by a process at a place where it should hold it. */
  predicate WaitHeld(s: System) { s.wait != NONE ==> IsProc(s, s.wait) && HoldsWait(s.procs[s.wait].pc) }

  /** ... and so is the lock of process k. */
  predicate LockHeld(s: System, k: int)
    requires IsProc(s, k)
  {
    s.locks[k] != NONE ==> IsProc(s, s.locks[k]) && HoldsLock(s.procs[s.locks[k]].pc, s.locks[k], k)
  }

  /** A process p at pc holds the lock of process k. */
  predicate HoldsLock(pc: Pc, p: int, k: int) { (HoldsSelf(pc) && p == k) || pc == Check(k) || pc == ReapDrop(k) }

  ghost predicate Inv(s: System) {
    && |s.locks| == |s.procs| && |s.procs| > 0
    && WaitHeld(s) && (forall k | IsProc(s, k) :: LockHeld(s, k))
    && (forall p | IsProc(s, p) :: ProcOk(s, p))
    && (forall p, k | IsProc(s, p) && IsProc(s, k) :: PairOk(s, p, k))
    && (forall p, k | IsProc(s, p) && IsProc(s, k) :: PidsApart(s, p, k))
    && HistoryOk(s) && (forall p | IsProc(s, p) :: WaitOk(s, p))
  }

  lemma InitInv(s: System)
    requires Init(s)
    ensures Inv(s)
  {
  }

  // ---------------------------------------------------------------- one process after a step

  ghost predicate Runs(s: System, p: int, call: Call) {
    IsProc(s, p) && Enabled(s, Run(p, call)) && |s.locks| == |s.procs| && |s.procs| > 0
  }

  /** Process q after a step of p: unchanged, or touched, or p itself. */
  function After(s: System, p: int, call: Call, q: int): Process
    requires IsProc(s, p) && IsProc(s, q)
  {
    if q == p then NextSelf(s, p, call) else if q == Touches(s, p, call) then Touched(s, p, call, q) else s.procs[q]
  }

  lemma AfterIs(s: System, p: int, call: Call, q: int)
    requires IsProc(s, p) && IsProc(s, q)
    ensures NextProcs(s, p, call)[q] == After(s, p, call, q)
  {
    hide Touched, NextSelf, Touches;
  }

  lemma StateKept(s: System, p: int, call: Call, q: int)
    requires Runs(s, p, call) && IsProc(s, q) && ProcOk(s, p) && ProcOk(s, q) && PairOk(s, p, q)
    ensures StateOk(q, After(s, p, call, q))
  {
    hide PidOk;
  }

  lemma LocksSelf(s: System, p: int, call: Call)
    requires Runs(s, p, call) && LocksOk(s, p) && StateOk(p, s.procs[p]) && PairAll(s, p)
    ensures LocksOk(Step(s, p, call), p)
  {
    hide NextProcs;
    AfterIs(s, p, call, p);
    if s.procs[p].pc.Scan? && IsProc(s, s.procs[p].pc.k) { AfterIs(s, p, call, s.procs[p].pc.k); }
    assert s.procs[p].pc.Scan? && IsProc(s, s.procs[p].pc.k) ==> PairOk(s, p, s.procs[p].pc.k);
  }

  ghost predicate PairAll(s: System, p: int)
    requires IsProc(s, p)
  {
    forall k | IsProc(s, k) :: PairOk(s, p, k)
  }

  lemma LocksOther(s: System, p: int, call: Call, q: int)
    requires Runs(s, p, call) && LocksOk(s, p) && IsProc(s, q) && LocksOk(s, q) && q != p && ForkOk(s, p) && StateOk(q, s.procs[q])
    ensures LocksOk(Step(s, p, call), q)
  {
    hide NextProcs, NextPc;
    AfterIs(s, p, call, q);
    if s.procs[q].pc.Check? { AfterIs(s, p, call, s.procs[q].pc.k); }
  }

  lemma ForkSelf(s: System, p: int, call: Call)
    requires Runs(s, p, call) && ForkOk(s, p) && StateOk(p, s.procs[p])
    ensures ForkOk(Step(s, p, call), p)
  {
    hide NextProcs, NextLocks, NextWait;
    AfterIs(s, p, call, p);
    var pc := NextPc(s, p, call);
    if Forking(pc) { AfterIs(s, p, call, pc.np); }
  }

  lemma ForkOther(s: System, p: int, call: Call, q: int)
    requires Runs(s, p, call) && ProcOk(s, p) && IsProc(s, q) && ProcOk(s, q) && q != p
    requires Forking(s.procs[q].pc) ==> ProcOk(s, s.procs[q].pc.np) && PairOk(s, s.procs[q].pc.np, p)
    ensures ForkOk(Step(s, p, call), q)
  {
    AfterIs(s, p, call, q);
    if Forking(s.procs[q].pc) { AfterIs(s, p, call, s.procs[q].pc.np); }
    hide NextProcs, NextLocks, NextWait, NextPc, PidOk;
  }

  lemma ParentKept(s: System, p: int, call: Call, q: int)
    requires Runs(s, p, call) && ProcOk(s, p) && IsProc(s, q) && ProcOk(s, q)
    ensures HasParent(Step(s, p, call), q)
  {
    hide NextProcs, NextLocks, NextWait, NextPc, PidOk, LocksOk;
    AfterIs(s, p, call, q);
  }

  lemma PidKept(s: System, p: int, call: Call, q: int)
    requires Runs(s, p, call) && ProcOk(s, p) && IsProc(s, q) && ProcOk(s, q) && PidsApart(s, p, q)
    requires s.nextpid !in s.exited && s.nextpid > 0
    ensures PidOk(Step(s, p, call), q)
  {
    hide NextProcs, NextLocks, NextWait, NextPc, LocksOk;
    AfterIs(s, p, call, q);
  }

  lemma PidsKept(s: System, p: int, call: Call, q: int, r: int)
    requires Runs(s, p, call) && ProcOk(s, p) && IsProc(s, q) && ProcOk(s, q) && IsProc(s, r) && ProcOk(s, r) && PidsApart(s, q, r)
    ensures PidsApart(Step(s, p, call), q, r)
  {
    hide NextProcs, NextLocks, NextWait, NextPc, LocksOk, NextFound, HasParent, Reaps;
    AfterIs(s, p, call, q);
    AfterIs(s, p, call, r);
  }

  // ---------------------------------------------------------------- parents and children after a step

  /** A child gets a parent from fork() or reparent() only. */
  lemma ParentWas(s: System, p: int, call: Call, a: int, b: int)
    requires Runs(s, p, call) && IsProc(s, a) && IsProc(s, b) && After(s, p, call, b).parent == a && ForkOk(s, p)
    ensures s.procs[b].parent == a || (s.procs[p].pc == ForkParent(b) && a == p)
            || (s.procs[p].pc == Reparent(b) && s.procs[b].parent == p && a == INIT)
  {
    hide NextPc;
  }

  lemma StillParent(s: System, p: int, call: Call, a: int, b: int)
    requires Runs(s, p, call) && ProcOk(s, p) && IsProc(s, a) && ProcOk(s, a) && IsProc(s, b) && ProcOk(s, b)
    requires s.procs[b].parent == a && PairOk(s, a, b) && After(s, p, call, b).parent == a
    ensures !Childless(After(s, p, call, a), b)
  {
    hide PidOk;
  }

  lemma NewParent(s: System, p: int, call: Call, a: int, b: int)
    requires Runs(s, p, call) && ProcOk(s, p) && IsProc(s, a) && ProcOk(s, a) && IsProc(s, b) && ProcOk(s, b) && PairOk(s, p, b)
    requires (s.procs[p].pc == ForkParent(b) && a == p) || (s.procs[p].pc == Reparent(b) && s.procs[b].parent == p && a == INIT)
    ensures !Childless(After(s, p, call, a), b) && b != a && b != INIT
    ensures s.procs[p].pc.ForkParent? ==> !Exited(After(s, p, call, b))
    ensures s.procs[p].pc.Reparent? ==> NextWait(s, p) == p && NextPc(s, p, call).ReparentWake?
  {
    hide PidOk;
  }

  /** A parent's own step: it overlooks no zombie. */
  lemma ParentSteps(s: System, p: int, call: Call, b: int)
    requires Runs(s, p, call) && ProcOk(s, p) && IsProc(s, b) && ProcOk(s, b) && s.procs[b].parent == p && PairOk(s, p, b)
    requires Exited(After(s, p, call, b)) && Overlooks(NextSelf(s, p, call), b)
    ensures Exited(s.procs[b]) && Overlooks(s.procs[p], b) && s.wait != p
  {
    hide PidOk;
  }

  /** A child's own step: it wakes its parent before it is a zombie. */
  lemma ChildSteps(s: System, p: int, call: Call, a: int)
    requires Runs(s, p, call) && ProcOk(s, p) && IsProc(s, a) && ProcOk(s, a) && s.procs[p].parent == a && PairOk(s, a, p)
    requires Exited(NextSelf(s, p, call)) && Overlooks(After(s, p, call, a), p)
    ensures Exited(s.procs[p]) && Overlooks(s.procs[a], p) && s.wait != p
  {
    hide PidOk;
  }

  /** A third process's step. */
  lemma ThirdSteps(s: System, p: int, call: Call, a: int, b: int)
    requires Runs(s, p, call) && ProcOk(s, p) && IsProc(s, a) && ProcOk(s, a) && IsProc(s, b) && ProcOk(s, b) && p != a && p != b
    requires s.procs[b].parent == a && PairOk(s, a, b) && After(s, p, call, b).parent == a
    requires Exited(After(s, p, call, b)) && Overlooks(After(s, p, call, a), b)
    ensures Exited(s.procs[b]) && Overlooks(s.procs[a], b) && (s.wait == p && a == INIT ==> !s.procs[p].pc.ReparentWake?)
  {
    hide PidOk, NextPc;
  }

  lemma ComingStays(s: System, p: int, call: Call)
    requires Runs(s, p, call) && ProcOk(s, p) && InitComing(s) && s.wait != p && ProcOk(s, s.wait)
    ensures InitComing(Step(s, p, call))
  {
    hide NextProcs, NextPc, NextLocks, PidOk, NextSelf;
    AfterIs(s, p, call, s.wait);
  }

  lemma PairKept(s: System, p: int, call: Call, a: int, b: int)
    requires Inv(s) && Runs(s, p, call) && IsProc(s, a) && IsProc(s, b)
    ensures PairOk(Step(s, p, call), a, b)
  {
    assert ProcOk(s, p) && ProcOk(s, a) && ProcOk(s, b) && PairOk(s, a, b) && PairOk(s, p, b);
    assert IsProc(s, s.wait) ==> ProcOk(s, s.wait);
    AfterIs(s, p, call, a);
    AfterIs(s, p, call, b);
    AfterIs(s, p, call, p);
    if After(s, p, call, b).parent == a {
      ParentWas(s, p, call, a, b);
      if s.procs[b].parent == a {
        StillParent(s, p, call, a, b);
        if Exited(After(s, p, call, b)) && Overlooks(After(s, p, call, a), b) { WasOverlooked(s, p, call, a, b); }
      } else {
        NewParent(s, p, call, a, b);
        hide Inv, ProcOk, NextPc, NextLocks, NextProcs, After, Childless, Exited, Overlooks;
      }
    }
  }

  lemma WasOverlooked(s: System, p: int, call: Call, a: int, b: int)
    requires Runs(s, p, call) && ProcOk(s, p) && IsProc(s, a) && ProcOk(s, a) && IsProc(s, b) && ProcOk(s, b)
    requires s.procs[b].parent == a && PairOk(s, a, b) && After(s, p, call, b).parent == a && (IsProc(s, s.wait) ==> ProcOk(s, s.wait))
    requires Exited(After(s, p, call, b)) && Overlooks(After(s, p, call, a), b)
    ensures a == INIT && InitComing(Step(s, p, call))
  {
    if p == a { ParentSteps(s, p, call, b); } else if p == b { ChildSteps(s, p, call, a); } else { ThirdSteps(s, p, call, a, b); }
    hide ProcOk, NextPc, NextLocks, NextProcs, NextWait, After, Childless, Exited, Overlooks;
    ComingStays(s, p, call);
  }

  lemma ZombieStep(s: System, p: int, call: Call, q: int)
    requires Runs(s, p, call) && ProcOk(s, p) && IsProc(s, q) && ProcOk(s, q)
    ensures var pr := Step(s, p, call).procs[q];
            && (pr.state.Zombie? <==> (s.procs[q].state.Zombie? && !Reaps(s, p, call, q)) || (q == p && s.procs[p].pc.SetZombie?))
            && (s.procs[q].state.Zombie? || q == p ==> !Reaps(s, p, call, q) ==> pr.pid == s.procs[q].pid)
            && (s.procs[q].state.Zombie? && !Reaps(s, p, call, q) ==> pr.xstate == s.procs[q].xstate)
            && (q == p && s.procs[p].pc.SetZombie? ==> pr.xstate == s.procs[q].status)
  {
    hide NextProcs, NextPc, NextLocks, PidOk;
    AfterIs(s, p, call, q);
  }

  /** The zombies of s' are those of s, without `gone` and with `come` (NONE: no such process). */
  ghost predicate ZombiesBut(s: System, s': System, gone: int, come: int) {
    && |s'.procs| == |s.procs| && |s'.locks| == |s.locks| && s.nextpid <= s'.nextpid
    && forall q | IsProc(s, q) ::
         && (s'.procs[q].state.Zombie? <==> (s.procs[q].state.Zombie? && q != gone) || q == come)
         && ((s.procs[q].state.Zombie? && q != gone) || q == come ==> s'.procs[q].pid == s.procs[q].pid)
         && (s.procs[q].state.Zombie? && q != gone && q != come ==> s'.procs[q].xstate == s.procs[q].xstate)
  }

  lemma HistorySame(s: System, s': System)
    requires HistoryOk(s) && ZombiesBut(s, s', NONE, NONE) && s'.exited == s.exited && s'.waits == s.waits
    ensures HistoryOk(s')
  {
    forall pid | IsZombie(s, pid) ensures IsZombie(s', pid) {
      var q :| IsProc(s, q) && s.procs[q].state.Zombie? && s.procs[q].pid == pid;
      assert IsProc(s', q);
    }
  }

  lemma HistoryExit(s: System, s': System, p: int)
    requires HistoryOk(s) && ZombiesBut(s, s', NONE, p) && IsProc(s, p) && s'.waits == s.waits
    requires s'.exited == s.exited[s.procs[p].pid := s'.procs[p].xstate] && s.procs[p].pid < s.nextpid && s.procs[p].pid !in s.exited
    ensures HistoryOk(s')
  {
    forall q | IsProc(s', q) && s'.procs[q].state.Zombie? && q != p ensures s'.procs[q].pid != s.procs[p].pid { assert s.procs[q].pid in s.exited; }
    forall pid | pid in s'.exited ensures IsZombie(s', pid) || IsReaped(s.waits, pid) {
      if pid == s.procs[p].pid { assert IsProc(s', p); } else if IsZombie(s, pid) {
        var q :| IsProc(s, q) && s.procs[q].state.Zombie? && s.procs[q].pid == pid;
        assert IsProc(s', q);
      }
    }
    assert !IsReaped(s.waits, s.procs[p].pid);
  }

  lemma HistoryReap(s: System, s': System, p: int, k: int)
    requires HistoryOk(s) && ZombiesBut(s, s', k, NONE) && IsProc(s, k) && s.procs[k].state.Zombie? && s'.exited == s.exited
    requires s'.waits == s.waits + [Waited(p, s.procs[k].pid, s.procs[k].xstate)] && s.procs[k].pid in s.exited
    requires forall q | IsProc(s, q) && q != k && s.procs[q].state.Zombie? :: s.procs[q].pid != s.procs[k].pid
    ensures HistoryOk(s')
  {
    var pid0, n := s.procs[k].pid, |s.waits|;
    assert !IsReaped(s.waits, pid0);
    forall pid ensures IsReaped(s'.waits, pid) <==> IsReaped(s.waits, pid) || pid == pid0 { ReapedOneMore(s.waits, s'.waits[n], pid); }
    forall pid | pid in s'.exited ensures IsZombie(s', pid) || IsReaped(s'.waits, pid) {
      if pid != pid0 && IsZombie(s, pid) {
        var q :| IsProc(s, q) && s.procs[q].state.Zombie? && s.procs[q].pid == pid;
        assert IsProc(s', q);
      }
    }
    forall i, j | 0 <= i < j < |s'.waits| ensures s'.waits[i].pid != s'.waits[j].pid {
      assert j == n && s.waits[i].pid == pid0 ==> IsReaped(s.waits, pid0);
    }
  }

  lemma ReapedOneMore(waits: seq<Waited>, w: Waited, pid: int)
    ensures IsReaped(waits + [w], pid) <==> IsReaped(waits, pid) || pid == w.pid
  {
    var waits' := waits + [w];
    if pid == w.pid { assert waits'[|waits|].pid == pid; }
    if IsReaped(waits, pid) {
      var i :| 0 <= i < |waits| && waits[i].pid == pid;
      assert waits'[i].pid == pid;
    }
  }

  /** The child that this step of wait() reaps, or NONE. */
  function Reaped(s: System, p: int, call: Call): int
    requires IsProc(s, p)
  {
    var pc := s.procs[p].pc;
    if pc.Check? && IsProc(s, pc.k) && Reaps(s, p, call, pc.k) then pc.k else NONE
  }

  lemma ZombiesAfter(s: System, p: int, call: Call)
    requires Runs(s, p, call) && forall q | IsProc(s, q) :: ProcOk(s, q)
    ensures ZombiesBut(s, Step(s, p, call), Reaped(s, p, call), if s.procs[p].pc.SetZombie? then p else NONE)
  {
    var s' := Step(s, p, call);
    var gone, come := Reaped(s, p, call), if s.procs[p].pc.SetZombie? then p else NONE;
    forall q | IsProc(s, q)
      ensures (s'.procs[q].state.Zombie? <==> (s.procs[q].state.Zombie? && q != gone) || q == come)
      ensures (s.procs[q].state.Zombie? && q != gone) || q == come ==> s'.procs[q].pid == s.procs[q].pid
      ensures s.procs[q].state.Zombie? && q != gone && q != come ==> s'.procs[q].xstate == s.procs[q].xstate
    {
      assert ProcOk(s, p) && ProcOk(s, q);
      ZombieStep(s, p, call, q);
    }
  }

  lemma HistoryKept(s: System, p: int, call: Call)
    requires Inv(s) && Runs(s, p, call)
    ensures HistoryOk(Step(s, p, call))
  {
    var s', k := Step(s, p, call), Reaped(s, p, call);
    ZombiesAfter(s, p, call);
    assert ProcOk(s, p);
    hide NextProcs, NextLocks, NextPc, NextWait, PairOk, HistoryOk, ZombiesBut;
    if s.procs[p].pc.SetZombie? {
      HistoryExit(s, s', p);
    } else if k != NONE {
      assert ProcOk(s, k);
      forall q | IsProc(s, q) && q != k && s.procs[q].state.Zombie? ensures s.procs[q].pid != s.procs[k].pid { assert PidsApart(s, q, k); }
      HistoryReap(s, s', p, k);
    } else {
      HistorySame(s, s');
    }
  }

  // ---------------------------------------------------------------- who holds which lock after a step

  /** No other process's step moves a process that holds a lock. */
  lemma HolderStays(s: System, p: int, call: Call, q: int, k: int)
    requires Runs(s, p, call) && ProcOk(s, p) && IsProc(s, q) && ProcOk(s, q) && q != p && (HoldsWait(s.procs[q].pc) || HoldsLock(s.procs[q].pc, q, k))
    ensures After(s, p, call, q).pc == s.procs[q].pc
  {
    hide NextProcs, NextPc, NextLocks, NextWait, PidOk, NextSelf;
  }

  lemma WaitStaysHeld(s: System, p: int, call: Call)
    requires Runs(s, p, call) && ProcOk(s, p) && WaitHeld(s) && (IsProc(s, s.wait) ==> ProcOk(s, s.wait))
    ensures WaitHeld(Step(s, p, call))
  {
    hide NextProcs, NextLocks, PidOk, StateOk, ForkOk, HasParent, NextFound;
    SameSize(s, p, call);
    AfterIs(s, p, call, p);
    if IsProc(s, s.wait) && s.wait != p {
      AfterIs(s, p, call, s.wait);
      HolderStays(s, p, call, s.wait, 0);
    }
  }

  lemma LockStaysHeld(s: System, p: int, call: Call, k: int)
    requires Runs(s, p, call) && ProcOk(s, p) && IsProc(s, k) && LockHeld(s, k) && (IsProc(s, s.locks[k]) ==> ProcOk(s, s.locks[k]))
    ensures IsProc(Step(s, p, call), k) && LockHeld(Step(s, p, call), k)
  {
    hide NextProcs, NextWait, PidOk, ForkOk, HasParent, NextFound;
    SameSize(s, p, call);
    AfterIs(s, p, call, p);
    if IsProc(s, s.locks[k]) && s.locks[k] != p {
      AfterIs(s, p, call, s.locks[k]);
      HolderStays(s, p, call, s.locks[k], k);
    }
  }

  lemma LocksStayHeld(s: System, p: int, call: Call)
    requires Inv(s) && Runs(s, p, call)
    ensures WaitHeld(Step(s, p, call)) && forall k | IsProc(Step(s, p, call), k) :: LockHeld(Step(s, p, call), k)
  {
    assert ProcOk(s, p) && (IsProc(s, s.wait) ==> ProcOk(s, s.wait));
    hide Step, WaitHeld, LockHeld, ProcOk;
    WaitStaysHeld(s, p, call);
    SameSize(s, p, call);
    forall k | IsProc(s, k) ensures LockHeld(Step(s, p, call), k) {
      assert LockHeld(s, k) && (IsProc(s, s.locks[k]) ==> ProcOk(s, s.locks[k]));
      LockStaysHeld(s, p, call, k);
    }
  }

  // ---------------------------------------------------------------- wait() after a step

  /** Only a parent's own step takes a child from it. */
  lemma KidStays(s: System, p: int, call: Call, a: int, b: int)
    requires Runs(s, p, call) && ProcOk(s, p) && IsProc(s, b) && ProcOk(s, b) && IsKid(s, a, b) && a != p && a != NONE
    ensures IsKid(Step(s, p, call), a, b)
  {
    hide NextProcs, NextPc, NextLocks, NextWait, PidOk;
    AfterIs(s, p, call, b);
  }

  /** ... and while a process holds wait_lock, nobody gives it one. */
  lemma NoNewKid(s: System, p: int, call: Call, a: int, b: int)
    requires Runs(s, p, call) && ProcOk(s, p) && IsProc(s, a) && s.wait == a && a != p && IsKid(Step(s, p, call), a, b)
    ensures IsKid(s, a, b)
  {
    hide NextProcs, NextPc, NextLocks, NextWait, PidOk, NextSelf;
    AfterIs(s, p, call, b);
    ParentWas(s, p, call, a, b);
  }

  lemma KidsStay(s: System, p: int, call: Call, a: int, n: int)
    requires Inv(s) && Runs(s, p, call) && IsProc(s, a) && a != p
    ensures KidBelow(s, a, n) ==> KidBelow(Step(s, p, call), a, n)
    ensures s.wait == a ==> (KidBelow(s, a, n) <==> KidBelow(Step(s, p, call), a, n))
  {
    hide Step, ProcOk;
    assert ProcOk(s, p);
    if KidBelow(s, a, n) {
      var k :| 0 <= k < n && IsKid(s, a, k);
      assert ProcOk(s, k);
      KidStays(s, p, call, a, k);
    }
    if s.wait == a && KidBelow(Step(s, p, call), a, n) {
      var k :| 0 <= k < n && IsKid(Step(s, p, call), a, k);
      NoNewKid(s, p, call, a, k);
    }
  }

  /** Another process's step: what a wait() has found out stays true. */
  lemma WaitOther(s: System, p: int, call: Call, q: int)
    requires Inv(s) && Runs(s, p, call) && IsProc(s, q) && q != p
    ensures WaitOk(Step(s, p, call), q)
  {
    assert ProcOk(s, p) && ProcOk(s, q) && WaitOk(s, q);
    AfterIs(s, p, call, q);
    SameWait(s, p, call, q);
    var s', pr := Step(s, p, call), s.procs[q];
    SameSize(s, p, call);
    KidsStay(s, p, call, q, |s.procs|);
    if pr.pc.Scan? { KidsStay(s, p, call, q, pr.pc.k); }
    if pr.pc.WaitDrop? && pr.found == Nothing { NoneExitedStays(s, p, call, q); }
    if (pr.pc.WaitDrop? || pr.pc.ReapDrop?) && pr.found.NotCopied? {
      assert ProcOk(s, pr.found.k);
      ZombieStays(s, p, call, q, pr.found.k);
    }
    hide Inv, ProcOk, NextProcs, NextPc, NextLocks, NextWait, After, Step, KidBelow, NoneExited, IsKid;
  }

  lemma SameSize(s: System, p: int, call: Call)
    requires IsProc(s, p)
    ensures |Step(s, p, call).procs| == |s.procs| && |Step(s, p, call).locks| == |s.locks|
  {
    hide NextProcs, NextLocks;
  }

  /** What another process's step leaves alone of a process in wait(). */
  lemma SameWait(s: System, p: int, call: Call, q: int)
    requires Runs(s, p, call) && ProcOk(s, p) && IsProc(s, q) && ProcOk(s, q) && q != p
    ensures var pr, pr' := s.procs[q], After(s, p, call, q);
            && (Bound(pr') ==> Bound(pr))
            && (HoldsWait(pr.pc) || HoldsWait(pr'.pc) ==> pr'.pc == pr.pc && pr'.found == pr.found && (pr.killed ==> pr'.killed) && s.wait == q
                                                          && !HoldsWait(s.procs[p].pc) && Step(s, p, call).waits == s.waits)
  {
    hide NextProcs, NextPc, NextLocks, NextWait, PidOk, NextSelf;
  }

  lemma NoneExitedStays(s: System, p: int, call: Call, q: int)
    requires Inv(s) && Runs(s, p, call) && IsProc(s, q) && q != p && s.wait == q && NoneExited(s, q)
    ensures NoneExited(Step(s, p, call), q)
  {
    hide Step, ProcOk;
    assert ProcOk(s, p);
    SameSize(s, p, call);
    forall k | IsKid(Step(s, p, call), q, k) ensures !Exited(Step(s, p, call).procs[k]) {
      assert ProcOk(s, k);
      NoNewKid(s, p, call, q, k);
      NotExited(s, p, call, k);
    }
  }

  lemma NotExited(s: System, p: int, call: Call, k: int)
    requires Runs(s, p, call) && ProcOk(s, p) && IsProc(s, k) && ProcOk(s, k) && !Exited(s.procs[k]) && s.wait != p
    ensures IsProc(Step(s, p, call), k) && !Exited(Step(s, p, call).procs[k])
  {
    hide NextProcs, NextLocks, NextWait, PidOk;
    AfterIs(s, p, call, k);
  }

  lemma ZombieStays(s: System, p: int, call: Call, q: int, k: int)
    requires Runs(s, p, call) && ProcOk(s, p) && IsProc(s, k) && ProcOk(s, k) && IsKid(s, q, k) && s.procs[k].state.Zombie? && q != p && q != NONE
    ensures IsKid(Step(s, p, call), q, k) && Step(s, p, call).procs[k].state.Zombie?
  {
    hide NextProcs, NextPc, NextLocks, NextWait, PidOk;
    AfterIs(s, p, call, k);
  }

  /** A step of the process itself. */
  lemma WaitSelf(s: System, p: int, call: Call)
    requires Inv(s) && Runs(s, p, call)
    ensures WaitOk(Step(s, p, call), p)
  {
    assert ProcOk(s, p) && WaitOk(s, p);
    hide Step, ProcOk, WaitOk, NoneExited;
    var pc := s.procs[p].pc;
    if pc.Scan? {
      if pc.k >= |s.procs| { NoneSeen(s, p); }
      WaitScans(s, p, call);
    } else if pc.Check? {
      WaitChecks(s, p, call);
    } else if pc.WaitLock? {
      NoKidsYet(s, p, call);
    } else {
      WaitGoesOn(s, p, call);
    }
  }

  lemma NoKidsYet(s: System, p: int, call: Call)
    requires Runs(s, p, call) && s.procs[p].pc.WaitLock?
    ensures WaitOk(Step(s, p, call), p)
  {
    hide NextProcs, NextLocks, NextWait;
    SameSize(s, p, call);
    AfterIs(s, p, call, p);
  }

  /** A step that touches no other process. */
  lemma OnlySelf(s: System, p: int, call: Call)
    requires IsProc(s, p) && |s.locks| == |s.procs| && !IsProc(s, Touches(s, p, call))
    ensures Step(s, p, call).procs == s.procs[p := NextSelf(s, p, call)]
    ensures forall a, k :: IsKid(Step(s, p, call), a, k) <==> IsKid(s, a, k)
    ensures forall a, n :: KidBelow(Step(s, p, call), a, n) <==> KidBelow(s, a, n)
  {
    hide NextPc, NextLocks, NextWait, Touches, NextFound;
    SameSize(s, p, call);
    var s' := Step(s, p, call);
    assert forall a, k :: IsKid(s', a, k) <==> IsKid(s, a, k);
    forall a, n ensures KidBelow(s', a, n) <==> KidBelow(s, a, n) {
      if KidBelow(s, a, n) { var k :| 0 <= k < n && IsKid(s, a, k); assert IsKid(s', a, k); }
      if KidBelow(s', a, n) { var k :| 0 <= k < n && IsKid(s', a, k); assert IsKid(s, a, k); }
    }
  }

  /** wait() outside its scan, and all other code: children stay. */
  lemma WaitGoesOn(s: System, p: int, call: Call)
    requires Runs(s, p, call) && ProcOk(s, p) && WaitOk(s, p) && !s.procs[p].pc.Scan? && !s.procs[p].pc.Check? && !s.procs[p].pc.WaitLock?
    ensures WaitOk(Step(s, p, call), p)
  {
    hide NextProcs, NextLocks, NextWait, KidBelow, PidOk, LocksOk, ForkOk, HasParent, IsKid;
    SameSize(s, p, call);
    AfterIs(s, p, call, p);
    if s.procs[p].pc.ReapDrop? { FoundStays(s, p, call); } else if Bound(s.procs[p]) { OnlySelf(s, p, call); }
  }

  lemma FoundStays(s: System, p: int, call: Call)
    requires IsProc(s, p) && |s.locks| == |s.procs| && s.procs[p].pc.ReapDrop? && WaitOk(s, p)
    ensures WaitOk(Step(s, p, call), p)
  {
    hide KidBelow, NextLocks, NextWait;
    OnlySelf(s, p, call);
  }

  /** At the end of the scan, no child has exited. */
  lemma NoneSeen(s: System, p: int)
    requires Inv(s) && IsProc(s, p) && s.procs[p].pc.Scan? && s.procs[p].pc.k >= |s.procs|
    ensures NoneExited(s, p)
  {
    assert ProcOk(s, p);
    forall k | IsKid(s, p, k) ensures !Exited(s.procs[k]) { assert PairOk(s, p, k); }
  }

  lemma KidNext(s: System, p: int, k: int)
    requires 0 <= k && |s.locks| == |s.procs|
    ensures KidBelow(s, p, k + 1) <==> KidBelow(s, p, k) || IsKid(s, p, k)
    ensures k >= |s.procs| ==> (KidBelow(s, p, k) <==> HasKid(s, p))
  {
    if KidBelow(s, p, k + 1) { var j :| 0 <= j < k + 1 && IsKid(s, p, j); assert j < k ==> KidBelow(s, p, k); }
    if KidBelow(s, p, k) { var j :| 0 <= j < k && IsKid(s, p, j); assert 0 <= j < k + 1; assert j < |s.procs|; }
  }

  /** The scan itself. */
  lemma WaitScans(s: System, p: int, call: Call)
    requires Runs(s, p, call) && ProcOk(s, p) && WaitOk(s, p) && s.procs[p].pc.Scan? && (s.procs[p].pc.k >= |s.procs| ==> NoneExited(s, p))
    ensures WaitOk(Step(s, p, call), p)
  {
    hide NextProcs, NextLocks, NextWait, KidBelow, PidOk, StateOk, ForkOk, HasParent;
    OnlySelf(s, p, call);
    KidNext(s, p, s.procs[p].pc.k);
    SameSize(s, p, call);
  }

  /** Its look at one child. */
  lemma WaitChecks(s: System, p: int, call: Call)
    requires Runs(s, p, call) && ProcOk(s, p) && WaitOk(s, p) && s.procs[p].pc.Check?
    ensures WaitOk(Step(s, p, call), p)
  {
    hide NextProcs, NextLocks, NextWait, KidBelow, PidOk, StateOk, ForkOk, HasParent;
    var k := s.procs[p].pc.k;
    AfterIs(s, p, call, p);
    AfterIs(s, p, call, k);
    SameSize(s, p, call);
    KidNext(Step(s, p, call), p, k);
  }

  // ---------------------------------------------------------------- every step keeps the invariant

  lemma StepInv(s: System, p: int, call: Call)
    requires Inv(s) && Runs(s, p, call)
    ensures Inv(Step(s, p, call))
  {
    var s' := Step(s, p, call);
    forall q | IsProc(s', q) ensures ProcOk(s', q) { StepOne(s, p, call, q); }
    forall q, r | IsProc(s', q) && IsProc(s', r) ensures PairOk(s', q, r) { PairKept(s, p, call, q, r); }
    forall q, r | IsProc(s', q) && IsProc(s', r) ensures PidsApart(s', q, r) {
      assert ProcOk(s, p) && ProcOk(s, q) && ProcOk(s, r) && PidsApart(s, q, r);
      PidsKept(s, p, call, q, r);
    }
    HistoryKept(s, p, call);
    LocksStayHeld(s, p, call);
    forall q | IsProc(s', q) ensures WaitOk(s', q) { if q == p { WaitSelf(s, p, call); } else { WaitOther(s, p, call, q); } }
    hide NextProcs, NextLocks, NextPc, NextWait, PairOk, HistoryOk, ProcOk, PidsApart, WaitOk, WaitHeld, LockHeld;
  }

  lemma StepOne(s: System, p: int, call: Call, q: int)
    requires Inv(s) && Runs(s, p, call) && IsProc(s, q)
    ensures ProcOk(Step(s, p, call), q)
  {
    assert ProcOk(s, p) && ProcOk(s, q) && PairOk(s, p, q) && PidsApart(s, p, q);
    AfterIs(s, p, call, q);
    StateKept(s, p, call, q);
    ParentKept(s, p, call, q);
    PidKept(s, p, call, q);
    if q == p {
      assert PairAll(s, p);
      LocksSelf(s, p, call);
      ForkSelf(s, p, call);
    } else {
      LocksOther(s, p, call, q);
      if Forking(s.procs[q].pc) { assert ProcOk(s, s.procs[q].pc.np) && PairOk(s, s.procs[q].pc.np, p); }
      ForkOther(s, p, call, q);
    }
    hide NextProcs, NextLocks, NextPc, NextWait, LocksOk, StateOk, ForkOk, HasParent, PidOk, Inv;
  }

  /** A process is preempted or resumed: RUNNING and RUNNABLE change places. */
  lemma SchedulerInv(s: System, a: Action)
    requires Inv(s) && Enabled(s, a) && !a.Run?
    ensures Inv(Do(s, a))
  {
    var s' := Do(s, a);
    forall q | IsProc(s', q) ensures ProcOk(s', q) {
      assert ProcOk(s, a.p) && ProcOk(s, q);
      if Forking(s.procs[q].pc) { assert ProcOk(s, s.procs[q].pc.np); }
      SchedulerOne(s, a, q);
    }
    forall q, r | IsProc(s', q) && IsProc(s', r) ensures PairOk(s', q, r) && PidsApart(s', q, r) {
      assert ProcOk(s, a.p) && PairOk(s, q, r) && PidsApart(s, q, r);
      SchedulerPair(s, a, q, r);
    }
    assert ProcOk(s, a.p);
    assert ZombiesBut(s, s', NONE, NONE);
    HistorySame(s, s');
    forall q | IsProc(s', q) ensures WaitOk(s', q) {
      assert ProcOk(s, a.p) && WaitOk(s, q);
      SchedulerWait(s, a, q);
    }
    SchedulerHeld(s, a);
    hide PairOk, HistoryOk, ProcOk, PidsApart, WaitOk, WaitHeld, LockHeld;
  }

  lemma SchedulerHeld(s: System, a: Action)
    requires Enabled(s, a) && !a.Run? && ProcOk(s, a.p) && WaitHeld(s) && |s.locks| == |s.procs| && forall k | IsProc(s, k) :: LockHeld(s, k)
    ensures WaitHeld(Do(s, a)) && |Do(s, a).locks| == |Do(s, a).procs| && forall k | IsProc(Do(s, a), k) :: LockHeld(Do(s, a), k)
  {
    hide Step, PidOk, ForkOk, HasParent;
    var s' := Do(s, a);
    forall k | IsProc(s', k) ensures LockHeld(s', k) { assert LockHeld(s, k); }
  }

  lemma SchedulerWait(s: System, a: Action, q: int)
    requires Enabled(s, a) && !a.Run? && IsProc(s, q) && ProcOk(s, a.p) && WaitOk(s, q)
    ensures WaitOk(Do(s, a), q)
  {
    hide Step;
    var s' := Do(s, a);
    assert forall k :: IsKid(s', q, k) <==> IsKid(s, q, k);
  }

  lemma SchedulerOne(s: System, a: Action, q: int)
    requires Enabled(s, a) && !a.Run? && IsProc(s, q) && ProcOk(s, a.p) && ProcOk(s, q)
    ensures ProcOk(Do(s, a), q)
  {
    hide Step;
  }

  lemma SchedulerPair(s: System, a: Action, q: int, r: int)
    requires Enabled(s, a) && !a.Run? && IsProc(s, q) && IsProc(s, r) && ProcOk(s, a.p) && PairOk(s, q, r) && PidsApart(s, q, r)
    ensures PairOk(Do(s, a), q, r) && PidsApart(Do(s, a), q, r)
  {
    hide Step;
  }

  // ---------------------------------------------------------------- over all runs

  ghost predicate IsRun(states: seq<System>, actions: seq<Action>) {
    && |states| == |actions| + 1 && Init(states[0])
    && forall i | 0 <= i < |actions| :: Enabled(states[i], actions[i]) && states[i + 1] == Do(states[i], actions[i])
  }

  lemma {:induction false} RunInv(states: seq<System>, actions: seq<Action>, i: int)
    requires IsRun(states, actions) && 0 <= i < |states|
    ensures Inv(states[i])
  {
    if i == 0 { InitInv(states[0]); } else {
      RunInv(states, actions, i - 1);
      var s, a := states[i - 1], actions[i - 1];
      assert Enabled(s, a) && states[i - 1 + 1] == Do(s, a);
      hide Inv, Step;
      if a.Run? { NotEmpty(s); StepInv(s, a.p, a.call); } else { SchedulerInv(s, a); }
    }
  }

  lemma NotEmpty(s: System)
    requires Inv(s)
    ensures |s.locks| == |s.procs| && |s.procs| > 0
  {
  }

  /**
   * In every run, every process but initproc that is RUNNABLE, RUNNING, SLEEPING or a ZOMBIE has
   * a parent that is neither UNUSED nor a ZOMBIE (whether or not wait_lock is free).
   */
  lemma ParentsLive(states: seq<System>, actions: seq<Action>, i: int, k: int)
    requires IsRun(states, actions) && 0 <= i < |states| && IsProc(states[i], k) && k != INIT && Live(states[i].procs[k].state)
    ensures var s := states[i];
            var p := s.procs[k].parent;
            IsProc(s, p) && !s.procs[p].state.Unused? && !s.procs[p].state.Used? && !s.procs[p].state.Zombie?
  {
    RunInv(states, actions, i);
    assert ProcOk(states[i], k);
    assert PairOk(states[i], states[i].procs[k].parent, k);
  }

  /**
   * In every run, the processes that have exited are exactly the zombies and those that some
   * wait() has returned; no two wait() calls return the same one.
   */
  lemma ReapedOnce(states: seq<System>, actions: seq<Action>, i: int, pid: int)
    requires IsRun(states, actions) && 0 <= i < |states|
    ensures var s := states[i];
            && (pid in s.exited <==> IsZombie(s, pid) || IsReaped(s.waits, pid))
            && !(IsZombie(s, pid) && IsReaped(s.waits, pid))
            && forall a, b | 0 <= a < b < |s.waits| :: s.waits[a].pid != s.waits[b].pid
  {
    RunInv(states, actions, i);
    var s := states[i];
    if IsZombie(s, pid) {
      var p :| IsProc(s, p) && s.procs[p].state.Zombie? && s.procs[p].pid == pid;
      assert ProcOk(s, p);
    }
  }

  /** A wait() that returns a pid has just freed its own child with that pid, a zombie off the CPU. */
  lemma WaitReturnsChild(states: seq<System>, actions: seq<Action>, i: int)
    requires IsRun(states, actions) && 0 <= i < |actions| && states[i + 1].waits != states[i].waits
    ensures var s, s', a := states[i], states[i + 1], actions[i];
            && a.Run? && IsProc(s, a.p) && s.procs[a.p].pc.Check? && IsProc(s, s.procs[a.p].pc.k) && a.call == Go(true)
            && var k := s.procs[a.p].pc.k;
               && s.procs[k].parent == a.p && s.procs[k].pc.Dead? && s'.procs[k] == FREE
               && s'.waits == s.waits + [Waited(a.p, s.procs[k].pid, s.procs[k].xstate)]
  {
    RunInv(states, actions, i);
    var s, a := states[i], actions[i];
    assert Enabled(s, a) && states[i + 1] == Do(s, a);
    assert ProcOk(s, a.p);
    var k := s.procs[a.p].pc.k;
    assert ProcOk(s, k);
    AfterIs(s, a.p, a.call, k);
  }

  /** A zombie child that wait() comes to ends it: with the pid if the status can be copied, and with the zombie kept if not. */
  lemma WaitTakesZombie(states: seq<System>, actions: seq<Action>, i: int, p: int, k: int)
    requires IsRun(states, actions) && 0 <= i < |actions| && actions[i].Run? && actions[i].p == p && IsProc(states[i], k)
    requires states[i].procs[p].pc == Check(k) && states[i].procs[k].state.Zombie?
    ensures actions[i].call.Go? && IsProc(states[i + 1], p) && states[i + 1].procs[p].pc == ReapDrop(k)
    ensures var s, s' := states[i], states[i + 1];
            if actions[i].call.copied then s'.waits == s.waits + [Waited(p, s.procs[k].pid, s.procs[k].xstate)] && s'.procs[p].found == Got(s.procs[k].pid)
            else s'.waits == s.waits && s'.procs[p].found == NotCopied(k) && IsKid(s', p, k) && s'.procs[k] == s.procs[k]
  {
    RunInv(states, actions, i);
    var s, a := states[i], actions[i];
    assert Enabled(s, a) && states[i + 1] == Do(s, a);
    assert ProcOk(s, p);
    SameSize(s, p, a.call);
    AfterIs(s, p, a.call, p);
    AfterIs(s, p, a.call, k);
  }

  predicate InWait(pc: Pc) {
    || pc.WaitLock? || pc.Scan? || pc.Check? || pc.ReapDrop? || pc.WaitDrop? || pc.SleepSelf? || pc.SleepDrop? || pc.SleepSet? || pc.SleepSwitch?
    || pc.Asleep?
  }

  /** wait() and fork() end where they should, and exit() does not: a process is in other code again only when it is another one. */
  lemma CallsEnd(states: seq<System>, actions: seq<Action>, i: int, p: int)
    requires IsRun(states, actions) && 0 <= i < |actions| && IsProc(states[i], p) && !states[i].procs[p].pc.Idle?
    requires IsProc(states[i + 1], p) && states[i + 1].procs[p].pc.Idle?
    ensures var pc := states[i].procs[p].pc;
            && (InWait(pc) ==> pc.WaitDrop?) && (Forking(pc) ==> pc.ForkStart?) && !Exiting(pc)
            && (!InWait(pc) && !Forking(pc) ==> pc.Dead? && states[i + 1].procs[p] == FREE)
  {
    RunInv(states, actions, i);
    var s, a := states[i], actions[i];
    assert Enabled(s, a) && states[i + 1] == Do(s, a);
    assert ProcOk(s, p) && ProcOk(s, a.p);
    if a.Run? {
      AfterIs(s, a.p, a.call, p);
      CallEnds(s, a.p, a.call, p);
    }
    hide Step, PidOk, ForkOk, HasParent, LocksOk;
  }

  lemma CallEnds(s: System, p: int, call: Call, q: int)
    requires Runs(s, p, call) && ProcOk(s, p) && IsProc(s, q) && ProcOk(s, q) && !s.procs[q].pc.Idle? && After(s, p, call, q).pc.Idle?
    ensures var pc := s.procs[q].pc;
            && (InWait(pc) ==> pc.WaitDrop?) && (Forking(pc) ==> pc.ForkStart?) && !Exiting(pc)
            && (!InWait(pc) && !Forking(pc) ==> pc.Dead? && After(s, p, call, q) == FREE)
  {
    hide NextProcs, NextLocks, NextWait, PidOk, HasParent;
  }

  /** The same process as at s, killed, and not in the sleep of wait(). */
  predicate KilledAwake(s: System, p: int, pid: int) {
    IsProc(s, p) && (s.procs[p].pid == pid && !s.procs[p].state.Unused? ==> s.procs[p].killed && !Bound(s.procs[p]))
  }

  /** Once killed, a process does not go to sleep in wait(). */
  lemma {:induction false} KilledStaysAwake(states: seq<System>, actions: seq<Action>, i: int, j: int, p: int)
    requires IsRun(states, actions) && 0 <= i <= j < |states| && IsProc(states[i], p) && !states[i].procs[p].state.Unused?
    requires states[i].procs[p].killed && !Bound(states[i].procs[p])
    ensures KilledAwake(states[j], p, states[i].procs[p].pid) && states[i].procs[p].pid < states[j].nextpid
    decreases j
  {
    hide Inv, Do, Enabled;
    RunInv(states, actions, i);
    if j == i {
      PidBelow(states[i], p);
    } else {
      RunInv(states, actions, j - 1);
      assert Enabled(states[j - 1], actions[j - 1]) && states[j - 1 + 1] == Do(states[j - 1], actions[j - 1]);
      KilledStaysAwake(states, actions, i, j - 1, p);
      KilledStep(states[j - 1], actions[j - 1], p, states[i].procs[p].pid);
    }
  }

  lemma PidBelow(s: System, p: int)
    requires Inv(s) && IsProc(s, p) && !s.procs[p].state.Unused?
    ensures s.procs[p].pid < s.nextpid
  {
    assert ProcOk(s, p);
  }

  lemma KilledStep(s: System, a: Action, p: int, pid: int)
    requires Inv(s) && Enabled(s, a) && KilledAwake(s, p, pid) && pid < s.nextpid
    ensures KilledAwake(Do(s, a), p, pid) && pid < Do(s, a).nextpid
  {
    assert ProcOk(s, a.p) && ProcOk(s, p);
    if a.Run? {
      SameSize(s, a.p, a.call);
      AfterIs(s, a.p, a.call, p);
      KilledGoesOn(s, a.p, a.call, p, pid);
    }
    hide Step, PidOk, ForkOk, HasParent, LocksOk, Inv;
  }

  lemma KilledGoesOn(s: System, p: int, call: Call, q: int, pid: int)
    requires Runs(s, p, call) && ProcOk(s, p) && KilledAwake(s, q, pid) && ProcOk(s, q) && pid < s.nextpid
    ensures var pr := After(s, p, call, q); pr.pid == pid && !pr.state.Unused? ==> pr.killed && !Bound(pr)
    ensures pid < Step(s, p, call).nextpid
  {
    hide NextProcs, NextLocks, NextWait, HasParent;
  }

  /** No lock is left behind: a process in other code, asleep or interruptible holds none. */
  lemma NothingHeld(states: seq<System>, actions: seq<Action>, i: int, p: int, k: int)
    requires IsRun(states, actions) && 0 <= i < |states| && IsProc(states[i], p) && IsProc(states[i], k)
    requires Interruptible(states[i].procs[p].pc) || states[i].procs[p].pc.Asleep? || states[i].procs[p].pc.Dead?
    ensures states[i].wait != p && states[i].locks[k] != p
  {
    RunInv(states, actions, i);
    assert LockHeld(states[i], k);
  }

  /** A process that sleeps in wait(), or is on its way to, has a child. */
  lemma SleepsForChild(states: seq<System>, actions: seq<Action>, i: int, p: int)
    requires IsRun(states, actions) && 0 <= i < |states| && IsProc(states[i], p) && Bound(states[i].procs[p])
    ensures exists k :: IsKid(states[i], p, k)
  {
    RunInv(states, actions, i);
    assert WaitOk(states[i], p);
  }

  /**
   * How wait() ends.  With the pid and the status of a child that it has freed, when it found a zombie
   * and could copy the status; with -1, when it could not, or when no child has exited and the process is
   * killed or has no child at all.
   */
  lemma WaitReturns(states: seq<System>, actions: seq<Action>, i: int, p: int)
    requires IsRun(states, actions) && 0 <= i < |states| && IsProc(states[i], p) && states[i].procs[p].pc.WaitDrop?
    ensures var s := states[i];
            match s.procs[p].found
            case Got(pid) => s.waits != [] && s.waits[|s.waits| - 1].who == p && s.waits[|s.waits| - 1].pid == pid
                             && pid in s.exited && s.waits[|s.waits| - 1].xstate == s.exited[pid]
            case NotCopied(k) => IsKid(s, p, k) && s.procs[k].state.Zombie?
            case Nothing => && (s.procs[p].killed || !exists k :: IsKid(s, p, k))
                            && forall k | IsKid(s, p, k) :: !s.procs[k].state.Zombie?
  {
    RunInv(states, actions, i);
    var s := states[i];
    assert WaitOk(s, p);
    if s.procs[p].found.Nothing? && !s.procs[p].killed {
      forall k ensures !IsKid(s, p, k) { assert !KidBelow(s, p, |s.procs|); }
    }
  }

  /** The process with this pid is in exit(status), or has exited with it. */
  ghost predicate Ending(s: System, p: int, pid: int, status: int) {
    if pid in s.exited then s.exited[pid] == status
    else IsProc(s, p) && s.procs[p].pid == pid && Exiting(s.procs[p].pc) && s.procs[p].status == status && s.procs[p].state != Unused
  }

  /** An exit is recorded once. */
  lemma OldExits(s: System, p: int, call: Call, pid: int)
    requires Runs(s, p, call) && ProcOk(s, p) && pid in s.exited
    ensures pid in Step(s, p, call).exited && Step(s, p, call).exited[pid] == s.exited[pid]
  {
    hide NextProcs, NextPc, NextLocks, NextWait;
  }

  lemma ExitGoesOn(s: System, p: int, call: Call, q: int)
    requires Runs(s, p, call) && ProcOk(s, p) && IsProc(s, q) && ProcOk(s, q) && Exiting(s.procs[q].pc) && s.procs[q].pid !in s.exited && PidsApart(s, p, q)
    requires s.procs[q].state != Unused
    ensures var s', pr, pr' := Step(s, p, call), s.procs[q], After(s, p, call, q);
            if q == p && pr.pc.SetZombie? then pr.pid in s'.exited && s'.exited[pr.pid] == pr.status
            else pr.pid !in s'.exited && pr'.pid == pr.pid && Exiting(pr'.pc) && pr'.status == pr.status && pr'.state != Unused
  {
    hide NextProcs, NextLocks, NextWait;
  }

  lemma EndingStep(s: System, a: Action, p: int, pid: int, status: int)
    requires Inv(s) && Enabled(s, a) && Ending(s, p, pid, status)
    ensures Ending(Do(s, a), p, pid, status)
  {
    assert ProcOk(s, a.p);
    if pid !in s.exited { assert ProcOk(s, p); }
    if a.Run? {
      SameSize(s, a.p, a.call);
      if pid in s.exited {
        OldExits(s, a.p, a.call, pid);
      } else {
        AfterIs(s, a.p, a.call, p);
        assert PidsApart(s, a.p, p);
        ExitGoesOn(s, a.p, a.call, p);
      }
    }
    hide Inv, ProcOk, NextProcs, NextPc, NextLocks, NextWait, After;
  }

  /** The status that wait() hands out is the one that the child gave to exit(). */
  lemma {:induction false} StatusHandedOver(states: seq<System>, actions: seq<Action>, i: int, j: int, p: int, status: int)
    requires IsRun(states, actions) && 0 <= i < |actions| && i < j < |states| && actions[i] == Run(p, Exit(status)) && IsProc(states[i], p) && states[i].procs[p].pc.Idle?
    ensures Ending(states[j], p, states[i].procs[p].pid, status)
    ensures forall k | 0 <= k < |states[j].waits| && states[j].waits[k].pid == states[i].procs[p].pid :: states[j].waits[k].xstate == status
    decreases j
  {
    hide Inv, Do, Enabled, Ending;
    RunInv(states, actions, j - 1);
    RunInv(states, actions, j);
    assert Enabled(states[j - 1], actions[j - 1]) && states[j - 1 + 1] == Do(states[j - 1], actions[j - 1]);
    if j == i + 1 {
      ExitBegins(states[i], p, status);
    } else {
      StatusHandedOver(states, actions, i, j - 1, p, status);
      EndingStep(states[j - 1], actions[j - 1], p, states[i].procs[p].pid, status);
    }
    WaitsMatch(states[j], p, states[i].procs[p].pid, status);
  }

  lemma ExitBegins(s: System, p: int, status: int)
    requires Inv(s) && Enabled(s, Run(p, Exit(status))) && s.procs[p].pc.Idle?
    ensures Ending(Do(s, Run(p, Exit(status))), p, s.procs[p].pid, status)
  {
    assert ProcOk(s, p);
    SameSize(s, p, Exit(status));
    AfterIs(s, p, Exit(status), p);
    hide Inv;
  }

  lemma WaitsMatch(s: System, p: int, pid: int, status: int)
    requires Inv(s) && Ending(s, p, pid, status)
    ensures forall k | 0 <= k < |s.waits| && s.waits[k].pid == pid :: s.waits[k].xstate == status
  {
  }

  /** kill() marks its victim, and wakes it if it sleeps. */
  lemma KillMarks(states: seq<System>, actions: seq<Action>, i: int, p: int, t: int)
    requires IsRun(states, actions) && 0 <= i < |actions| && actions[i] == Run(p, Kill(t)) && states[i].procs[p].pc.Idle?
    ensures IsProc(states[i + 1], t) && states[i + 1].procs[t].killed && !states[i + 1].procs[t].state.Sleeping?
  {
    RunInv(states, actions, i);
    var s := states[i];
    assert Enabled(s, actions[i]) && states[i + 1] == Do(s, actions[i]);
    assert ProcOk(s, p) && ProcOk(s, t);
    AfterIs(s, p, Kill(t), t);
  }

  /** fork() returns with its child RUNNABLE, a child of its own, with a pid that no process has had. */
  lemma ForkReturns(states: seq<System>, actions: seq<Action>, i: int, p: int, q: int)
    requires IsRun(states, actions) && 0 <= i < |actions| && actions[i].Run? && actions[i].p == p && states[i].procs[p].pc.ForkStart?
    requires IsProc(states[i], q)
    ensures var s', np := states[i + 1], states[i].procs[p].pc.np;
            && IsProc(s', np) && IsProc(s', q) && s'.procs[np].state.Runnable? && IsKid(s', p, np) && s'.procs[p].pc.Idle?
            && s'.procs[np].pid !in s'.exited && (q != np && !s'.procs[q].state.Unused? ==> s'.procs[q].pid != s'.procs[np].pid)
  {
    RunInv(states, actions, i);
    RunInv(states, actions, i + 1);
    var s, a, np := states[i], actions[i], states[i].procs[p].pc.np;
    assert Enabled(s, a) && states[i + 1] == Do(s, a);
    assert ProcOk(s, p);
    SameSize(s, p, a.call);
    AfterIs(s, p, a.call, np);
    AfterIs(s, p, a.call, p);
    assert ProcOk(states[i + 1], np) && PidsApart(states[i + 1], q, np);
  }

  /** When wait_lock is free, no process sleeps in wait(), or is on its way to, while it has a zombie child. */
  lemma NoLostExit(states: seq<System>, actions: seq<Action>, i: int, p: int, k: int)
    requires IsRun(states, actions) && 0 <= i < |states| && states[i].wait == NONE
    requires IsProc(states[i], p) && IsProc(states[i], k) && states[i].procs[k].parent == p && states[i].procs[k].state.Zombie?
    ensures !Bound(states[i].procs[p])
  {
    RunInv(states, actions, i);
    assert PairOk(states[i], p, k);
  }
}
