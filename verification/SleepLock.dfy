/**
 * One sleep lock under every interleaving (sleeplock.c; sleep, wakeup, kill, yield, sched and the
 * scheduler in proc.c).
 *
 * Each process is a program counter over the steps of these functions, one step per access to
 * shared state; the spinlock of the sleep lock and the lock of every process are explicit.
 */
module SleepLock {
  const NOPID: int := -1                     // lk->pid == 0

  datatype RunState = Running | Runnable | Sleeping

  datatype Pc =
    | Idle                                   // in other code
    // acquiresleep()
    | AcquireSpin                            // acquire(&lk->lk)
    | Test                                   // while (lk->locked)
    | SetLocked                              // lk->locked = 1
    | SetPid                                 // lk->pid = myproc()->pid
    | AcquireDone                            // release(&lk->lk)
    // sleep(lk, &lk->lk)
    | LockSelf                               // acquire(&p->lock)
    | DropSpin                               // release(lk)
    | SetChan                                // p->chan = chan
    | SetSleeping                            // p->state = SLEEPING
    | SwitchAway                             // sched()
    | Asleep                                 // not on a CPU
    | ClearChan                              // p->chan = 0
    | DropSelf                               // release(&p->lock)
    | SpinAgain                              // acquire(lk)
    // releasesleep()
    | ReleaseSpin                            // acquire(&lk->lk)
    | Unlock                                 // lk->locked = 0
    | ClearPid                               // lk->pid = 0
    | ReleaseDone                            // release(&lk->lk)
    // wakeup(lk), at process w
    | Wake(w: int)                           // acquire(&w->lock)
    | WakeTest(w: int)                       // if w sleeps on lk, it becomes RUNNABLE
    | WakeDrop(w: int)                       // release(&w->lock)
    // kill(t)
    | Kill(t: int)                           // acquire(&t->lock)
    | KillTest(t: int)                       // if t sleeps, it becomes RUNNABLE
    | KillDrop(t: int)                       // release(&t->lock)
    // yield()
    | YieldLock                              // acquire(&p->lock)
    | YieldSet                               // p->state = RUNNABLE
    | YieldSwitch                            // sched()
    | YieldOff                               // not on a CPU
    | YieldDrop                              // release(&p->lock)

  /**
   * `back` is where a process goes on after yield(); `holds`: between lk->locked = 1 and lk->locked = 0;
   * `doing` is the call that it is in, or was in last.  The last two are auxiliary variables.
   */
  datatype Process = Process(pc: Pc, back: Pc, state: RunState, onChan: bool, holds: bool, doing: Call)

  /** Who holds a lock; the scheduler holds p->lock on the way in (Picking) and out (Leaving). */
  datatype Holder = Free | By(p: int) | Picking | Leaving

  /** `taker` is the process that last set `locked`, an auxiliary variable. */
  datatype System = System(procs: seq<Process>, locks: seq<Holder>, spin: Holder, locked: bool, pid: int, taker: int)

  datatype Call = Acquire | Release | SendKill(t: int) | Preempt
  datatype Action = Run(p: int, call: Call) | Pick(p: int) | Resume(p: int) | Drop(p: int)

  predicate Init(s: System) {
    && |s.locks| == |s.procs| && s.spin == Free && !s.locked && s.pid == NOPID
    && (forall p | 0 <= p < |s.procs| :: s.procs[p] == Process(Idle, Idle, Running, false, false, Preempt) && s.locks[p] == Free)
  }

  // ---------------------------------------------------------------- steps

  predicate Interruptible(pc: Pc) { pc.Idle? || pc.AcquireSpin? || pc.SpinAgain? || pc.ReleaseSpin? }

  predicate IsProc(s: System, p: int) { 0 <= p < |s.procs| && p < |s.locks| }

  predicate Enabled(s: System, a: Action) {
    match a
    case Run(p, call) => IsProc(s, p) && RunEnabled(s, p, call)
    case Pick(p) => IsProc(s, p) && s.locks[p] == Free
    case Resume(p) => IsProc(s, p) && s.locks[p] == Picking && s.procs[p].state == Runnable
    case Drop(p) => IsProc(s, p) && (s.locks[p].Picking? || s.locks[p].Leaving?)
  }

  predicate RunEnabled(s: System, p: int, call: Call)
    requires IsProc(s, p)
  {
    var pc := s.procs[p].pc;
    if call == Preempt then Interruptible(pc) else
    match pc
    case Idle => (call.Release? ==> s.procs[p].holds) && (call.SendKill? ==> IsProc(s, call.t))
    case AcquireSpin | SpinAgain | ReleaseSpin => s.spin == Free
    case LockSelf | YieldLock => s.locks[p] == Free
    case Wake(w) => w == p || w >= |s.procs| || w < 0 || w >= |s.locks| || s.locks[w] == Free
    case Kill(t) => IsProc(s, t) && s.locks[t] == Free
    case WakeTest(w) => IsProc(s, w)
    case WakeDrop(w) => IsProc(s, w)
    case KillTest(t) => IsProc(s, t)
    case KillDrop(t) => IsProc(s, t)
    case Asleep | YieldOff => false
    case _ => true
  }

  function Do(s: System, a: Action): System
    requires Enabled(s, a)
  {
    match a
    case Run(p, call) => if call == Preempt then s.(procs := s.procs[p := s.procs[p].(pc := YieldLock, back := s.procs[p].pc)])
                         else if s.procs[p].pc == Idle then s.(procs := s.procs[p := s.procs[p].(pc := Entry(call), doing := call)])
                         else Advance(s, p)
    case Pick(p) => s.(locks := s.locks[p := Picking])
    case Resume(p) => s.(procs := s.procs[p := s.procs[p].(state := Running, pc := if s.procs[p].pc == YieldOff then YieldDrop else ClearChan)],
                         locks := s.locks[p := By(p)])
    case Drop(p) => s.(locks := s.locks[p := Free])
  }

  function Entry(call: Call): Pc {
    match call
    case Acquire => AcquireSpin
    case Release => ReleaseSpin
    case SendKill(t) => Kill(t)
    case Preempt => Idle
  }

  /** One step of process p: what becomes of each part of the state. */
  function Advance(s: System, p: int): System
    requires IsProc(s, p) && RunEnabled(s, p, Acquire)
  {
    System(Woken(s, p)[p := NextSelf(s, p)], NextLocks(s, p), NextSpin(s, p), NextLocked(s, p), NextPid(s, p),
           if s.procs[p].pc.SetLocked? then p else s.taker)
  }

  function NextPc(s: System, p: int): Pc
    requires IsProc(s, p)
  {
    match s.procs[p].pc
    case AcquireSpin => Test
    case Test => if s.locked then LockSelf else SetLocked
    case SetLocked => SetPid
    case SetPid => AcquireDone
    case AcquireDone => Idle
    case LockSelf => DropSpin
    case DropSpin => SetChan
    case SetChan => SetSleeping
    case SetSleeping => SwitchAway
    case SwitchAway => Asleep
    case ClearChan => DropSelf
    case DropSelf => SpinAgain
    case SpinAgain => Test
    case ReleaseSpin => Unlock
    case Unlock => ClearPid
    case ClearPid => Wake(0)
    case Wake(w) => if w >= |s.procs| then ReleaseDone else if w == p then Wake(w + 1) else WakeTest(w)
    case WakeTest(w) => WakeDrop(w)
    case WakeDrop(w) => Wake(w + 1)
    case ReleaseDone => Idle
    case Kill(t) => KillTest(t)
    case KillTest(t) => KillDrop(t)
    case KillDrop(t) => Idle
    case YieldLock => YieldSet
    case YieldSet => YieldSwitch
    case YieldSwitch => YieldOff
    case YieldDrop => s.procs[p].back
    case Idle => Idle
    case Asleep => Asleep
    case YieldOff => YieldOff
  }

  function NextSelf(s: System, p: int): Process
    requires IsProc(s, p)
  {
    var pr := s.procs[p];
    Process(NextPc(s, p), pr.back,
            if pr.pc.SetSleeping? then Sleeping else if pr.pc.YieldSet? then Runnable else pr.state,
            pr.pc.SetChan? || (pr.onChan && !pr.pc.ClearChan?),
            pr.pc.SetLocked? || (pr.holds && !pr.pc.Unlock?), pr.doing)
  }

  /** wakeup() wakes w if it sleeps on this channel; kill() wakes t from any sleep. */
  predicate Wakes(s: System, p: int, q: int)
    requires IsProc(s, p) && IsProc(s, q)
  {
    s.procs[q].state == Sleeping && (s.procs[p].pc == KillTest(q) || (s.procs[p].pc == WakeTest(q) && s.procs[q].onChan))
  }

  function Woken(s: System, p: int): (procs: seq<Process>)
    requires IsProc(s, p)
    ensures |procs| == |s.procs|
  {
    var q := Target(s.procs[p].pc);
    if IsProc(s, q) && Wakes(s, p, q) then s.procs[q := s.procs[q].(state := Runnable)] else s.procs
  }

  function NextLocks(s: System, p: int): (locks: seq<Holder>)
    requires IsProc(s, p) && RunEnabled(s, p, Acquire)
    ensures |locks| == |s.locks|
  {
    match s.procs[p].pc
    case LockSelf | YieldLock => s.locks[p := By(p)]
    case SwitchAway | YieldSwitch => s.locks[p := Leaving]
    case DropSelf | YieldDrop => s.locks[p := Free]
    case Wake(w) => if 0 <= w < |s.locks| && w < |s.procs| && w != p then s.locks[w := By(p)] else s.locks
    case WakeDrop(w) => s.locks[w := Free]
    case Kill(t) => s.locks[t := By(p)]
    case KillDrop(t) => s.locks[t := Free]
    case _ => s.locks
  }

  function NextSpin(s: System, p: int): Holder
    requires IsProc(s, p)
  {
    match s.procs[p].pc
    case AcquireSpin | SpinAgain | ReleaseSpin => By(p)
    case AcquireDone | DropSpin | ReleaseDone => Free
    case _ => s.spin
  }

  predicate NextLocked(s: System, p: int)
    requires IsProc(s, p)
  {
    s.procs[p].pc.SetLocked? || (s.locked && !s.procs[p].pc.Unlock?)
  }

  function NextPid(s: System, p: int): int
    requires IsProc(s, p)
  {
    if s.procs[p].pc.SetPid? then p else if s.procs[p].pc.ClearPid? then NOPID else s.pid
  }

  // ---------------------------------------------------------------- the invariant

  predicate HoldsSpin(pc: Pc) {
    || pc.Test? || pc.SetLocked? || pc.SetPid? || pc.AcquireDone? || pc.LockSelf? || pc.DropSpin? || pc.Unlock?
    || pc.ClearPid? || pc.ReleaseDone? || pc.Wake? || pc.WakeTest? || pc.WakeDrop?
  }

  /** pc holds the process's own lock. */
  predicate HoldsSelf(pc: Pc) {
    || pc.DropSpin? || pc.SetChan? || pc.SetSleeping? || pc.SwitchAway? || pc.ClearChan? || pc.DropSelf?
    || pc.YieldSet? || pc.YieldSwitch? || pc.YieldDrop?
  }

  /** The process whose lock pc holds for wakeup() or kill(), or -1. */
  function Target(pc: Pc): int {
    match pc
    case WakeTest(w) => w
    case WakeDrop(w) => w
    case KillTest(t) => t
    case KillDrop(t) => t
    case _ => -1
  }

  /** State and channel of a process, from where it is. */
  predicate StateOk(pr: Process) {
    && (pr.state == Running <==> !(pr.pc.SwitchAway? || pr.pc.Asleep? || pr.pc.YieldSwitch? || pr.pc.YieldOff?))
    && (pr.pc == SwitchAway ==> pr.state == Sleeping)
    && ((pr.pc.YieldSwitch? || pr.pc.YieldOff?) ==> pr.state == Runnable)
    && (pr.onChan <==> (pr.pc.SetSleeping? || pr.pc.SwitchAway? || pr.pc.Asleep? || pr.pc.ClearChan?))
    && Interruptible(pr.back)
    && ((pr.pc.ReleaseSpin? || pr.pc.Unlock?) ==> pr.holds)
    && ((pr.pc.YieldLock? || pr.pc.YieldSet? || pr.pc.YieldSwitch? || pr.pc.YieldOff? || pr.pc.YieldDrop?) && pr.back == ReleaseSpin ==> pr.holds)
    && (pr.pc == SetPid ==> pr.holds)
  }

  /** SLEEPING on the lock, or bound to be: nothing stops it from here. */
  predicate Bound(pr: Process) {
    (pr.pc.LockSelf? || pr.pc.DropSpin? || pr.pc.SetChan? || pr.pc.SetSleeping? || pr.pc.SwitchAway?) || (pr.pc == Asleep && pr.state == Sleeping)
  }

  /** A wakeup() at pc is still to come to process q. */
  predicate Coming(pc: Pc, q: int) {
    match pc
    case ClearPid => true
    case Wake(w) => w <= q
    case WakeTest(w) => w <= q
    case WakeDrop(w) => w < q
    case _ => false
  }

  /** Nobody is left asleep: the lock is taken, or a wakeup is on its way. */
  ghost predicate Attended(s: System, q: int)
    requires IsProc(s, q)
  {
    Bound(s.procs[q]) ==> s.locked || (s.spin.By? && IsProc(s, s.spin.p) && Coming(s.procs[s.spin.p].pc, q))
  }

  /** A process at pc holds the locks that it should. */
  predicate LocksOk(s: System, p: int)
    requires IsProc(s, p)
  {
    var pc := s.procs[p].pc;
    && (HoldsSpin(pc) ==> s.spin == By(p))
    && (HoldsSelf(pc) ==> s.locks[p] == By(p))
    && (HasTarget(pc) ==> IsProc(s, Target(pc)) && s.locks[Target(pc)] == By(p))
    && (pc.WakeTest? || pc.WakeDrop? ==> Target(pc) != p)
    && (pc.Wake? ==> pc.w >= 0)
  }

  predicate Yielding(pc: Pc) { pc.YieldLock? || pc.YieldSet? || pc.YieldSwitch? || pc.YieldOff? || pc.YieldDrop? }

  /** Where a process is, or will be again after yield(). */
  function At(pr: Process): Pc { if Yielding(pr.pc) then pr.back else pr.pc }

  predicate InAcquire(pc: Pc) {
    || pc.AcquireSpin? || pc.Test? || pc.SetLocked? || pc.SetPid? || pc.AcquireDone? || pc.LockSelf? || pc.DropSpin? || pc.SetChan?
    || pc.SetSleeping? || pc.SwitchAway? || pc.Asleep? || pc.ClearChan? || pc.DropSelf? || pc.SpinAgain?
  }

  predicate InRelease(pc: Pc) {
    pc.ReleaseSpin? || pc.Unlock? || pc.ClearPid? || pc.ReleaseDone? || pc.Wake? || pc.WakeTest? || pc.WakeDrop?
  }

  predicate InKill(pc: Pc) { pc.Kill? || pc.KillTest? || pc.KillDrop? }

  /** A process is inside the call that it is doing, and at the end of the call its work is done. */
  predicate CallOk(s: System, p: int)
    requires IsProc(s, p)
  {
    var pr := s.procs[p];
    var pc := At(pr);
    && (pc.Idle? || (pr.doing.Acquire? && InAcquire(pc)) || (pr.doing.Release? && InRelease(pc)) || (pr.doing.SendKill? && InKill(pc)))
    && (pc.SetPid? || pc.AcquireDone? ==> pr.holds)
    && (InRelease(pc) && !pc.ReleaseSpin? && !pc.Unlock? ==> !pr.holds && !s.locked)
    && (pr.pc.Kill? || pr.pc.KillTest? || pr.pc.KillDrop? ==> pr.doing == SendKill(pr.pc.t))
    && (pr.pc.KillDrop? ==> IsProc(s, pr.pc.t) && s.procs[pr.pc.t].state != Sleeping)
  }

  predicate HasTarget(pc: Pc) { pc.WakeTest? || pc.WakeDrop? || pc.KillTest? || pc.KillDrop? }

  predicate HoldOk(s: System, p: int)
    requires IsProc(s, p)
  {
    var pr := s.procs[p];
    && (pr.holds ==> s.locked && s.taker == p && (pr.pc.SetPid? || s.pid == p))
    && (pr.pc.SetLocked? || pr.pc.ClearPid? ==> !s.locked)
  }

  predicate ProcOk(s: System, p: int)
    requires IsProc(s, p)
  {
    LocksOk(s, p) && StateOk(s.procs[p]) && HoldOk(s, p) && CallOk(s, p)
  }

  /** A lock is held only by a process at a place where it should hold it, or by the scheduler. */
  predicate Held(s: System, q: int)
    requires IsProc(s, q)
  {
    s.locks[q].By? ==> IsProc(s, s.locks[q].p) && HoldsLock(s.procs[s.locks[q].p].pc, s.locks[q].p, q)
  }

  /** A process p at pc holds the lock of process q. */
  predicate HoldsLock(pc: Pc, p: int, q: int) { (HoldsSelf(pc) && p == q) || (HasTarget(pc) && Target(pc) == q) }

  predicate SpinHeld(s: System) {
    s.spin.Free? || (s.spin.By? && IsProc(s, s.spin.p) && HoldsSpin(s.procs[s.spin.p].pc))
  }

  /** A lock that is not taken has no pid, once its last holder has let go of the spinlock. */
  predicate PidOk(s: System) {
    !s.locked ==> s.pid == NOPID || (s.spin.By? && IsProc(s, s.spin.p) && s.procs[s.spin.p].pc.ClearPid?)
  }

  ghost predicate Inv(s: System) {
    && SpinHeld(s) && PidOk(s) && (forall q | IsProc(s, q) :: Held(s, q))
    && |s.locks| == |s.procs| && (s.locked ==> IsProc(s, s.taker) && s.procs[s.taker].holds)
    && (forall p | IsProc(s, p) :: ProcOk(s, p))
    && (forall q | IsProc(s, q) :: Attended(s, q))
  }

  lemma InitInv(s: System)
    requires Init(s)
    ensures Inv(s)
  {
  }

  // ---------------------------------------------------------------- every step keeps it

  ghost predicate Advances(s: System, p: int) {
    IsProc(s, p) && !s.procs[p].pc.Idle? && RunEnabled(s, p, Acquire) && |s.locks| == |s.procs|
  }

  lemma SelfLocks(s: System, p: int)
    requires Advances(s, p) && LocksOk(s, p) && StateOk(s.procs[p])
    ensures LocksOk(Advance(s, p), p)
  {
    SelfSpin(s, p);
    SelfOwn(s, p);
    SelfTarget(s, p);
    hide Woken, NextLocked, NextPid, NextLocks, NextSpin, NextPc, HoldsSpin, HoldsSelf, HasTarget, Target, StateOk;
  }

  lemma SelfSpin(s: System, p: int)
    requires Advances(s, p) && LocksOk(s, p) && StateOk(s.procs[p])
    ensures HoldsSpin(NextPc(s, p)) ==> NextSpin(s, p) == By(p)
  {
    hide HasTarget, Target, HoldsSelf;
  }

  lemma SelfOwn(s: System, p: int)
    requires Advances(s, p) && LocksOk(s, p) && StateOk(s.procs[p])
    ensures HoldsSelf(NextPc(s, p)) ==> NextLocks(s, p)[p] == By(p)
  {
    hide HasTarget, Target, HoldsSpin;
  }

  lemma SelfTarget(s: System, p: int)
    requires Advances(s, p) && LocksOk(s, p) && StateOk(s.procs[p])
    ensures var pc := NextPc(s, p);
            && (HasTarget(pc) ==> IsProc(s, Target(pc)) && NextLocks(s, p)[Target(pc)] == By(p))
            && (pc.WakeTest? || pc.WakeDrop? ==> Target(pc) != p)
            && (pc.Wake? ==> pc.w >= 0)
  {
    hide HoldsSelf, HoldsSpin;
  }

  lemma SelfState(s: System, p: int)
    requires Advances(s, p) && StateOk(s.procs[p])
    ensures StateOk(NextSelf(s, p))
  {
  }

  lemma SelfHold(s: System, p: int)
    requires Advances(s, p) && ProcOk(s, p)
    ensures HoldOk(Advance(s, p), p)
  {
    hide Woken, NextLocks, NextSpin, LocksOk;
  }

  lemma SelfCall(s: System, p: int)
    requires Advances(s, p) && LocksOk(s, p) && StateOk(s.procs[p]) && HoldOk(s, p) && CallOk(s, p)
    ensures CallOk(Advance(s, p), p)
  {
    hide NextLocks, NextSpin, NextPid, Woken, LocksOk, HoldOk;
    SelfKill(s, p);
    SelfHas(s, p);
  }

  lemma SelfKill(s: System, p: int)
    requires Advances(s, p) && LocksOk(s, p) && StateOk(s.procs[p]) && CallOk(s, p)
    ensures var pr := NextSelf(s, p); pr.pc.KillDrop? ==> IsProc(s, pr.pc.t) && Advance(s, p).procs[pr.pc.t].state != Sleeping
  {
    hide NextLocks, NextSpin, NextPid;
  }

  lemma SelfHas(s: System, p: int)
    requires Advances(s, p) && StateOk(s.procs[p]) && HoldOk(s, p) && CallOk(s, p)
    ensures var pr := NextSelf(s, p);
            && (pr.pc.SetPid? || pr.pc.AcquireDone? ==> pr.holds)
            && (InRelease(pr.pc) && !pr.pc.ReleaseSpin? && !pr.pc.Unlock? ==> !pr.holds && !NextLocked(s, p))
  {
    hide NextLocks, NextSpin, NextPid, Woken;
  }

  lemma OtherCall(s: System, p: int, q: int)
    requires Advances(s, p) && LocksOk(s, p) && IsProc(s, q) && LocksOk(s, q) && p != q && StateOk(s.procs[q]) && CallOk(s, q)
    ensures CallOk(Advance(s, p), q)
  {
    hide NextLocks, NextSpin, NextPid, NextPc;
  }

  lemma OtherLocks(s: System, p: int, q: int)
    requires Advances(s, p) && LocksOk(s, p) && IsProc(s, q) && LocksOk(s, q) && p != q
    ensures LocksOk(Advance(s, p), q)
  {
    hide NextSelf, NextLocked, NextPid, NextPc;
  }

  lemma OtherState(s: System, p: int, q: int)
    requires Advances(s, p) && LocksOk(s, p) && IsProc(s, q) && LocksOk(s, q) && p != q && StateOk(s.procs[q])
    ensures StateOk(Advance(s, p).procs[q])
  {
    hide NextSelf, NextLocks, NextLocked, NextPid, NextPc, NextSpin;
  }

  lemma OtherHold(s: System, p: int, q: int)
    requires Advances(s, p) && ProcOk(s, p) && IsProc(s, q) && ProcOk(s, q) && p != q
    ensures HoldOk(Advance(s, p), q)
  {
    hide NextSelf, NextLocks, NextPc, NextSpin;
  }

  /** A process becomes bound for sleep only by finding the lock taken. */
  lemma BecomesBound(s: System, p: int, q: int)
    requires Advances(s, p) && IsProc(s, q) && StateOk(s.procs[p]) && !Bound(s.procs[q]) && Bound(Advance(s, p).procs[q])
    ensures q == p && s.procs[p].pc == Test && s.locked
  {
    hide NextLocks, NextSpin, NextPid;
  }

  /** The waker's next step: it is still to come to q, unless it has just woken q. */
  lemma WakerSteps(s: System, h: int, q: int)
    requires Advances(s, h) && IsProc(s, q) && ProcOk(s, h) && ProcOk(s, q) && Bound(s.procs[q]) && Coming(s.procs[h].pc, q)
    ensures NextSpin(s, h) == By(h)
    ensures Bound(Advance(s, h).procs[q]) ==> Coming(NextPc(s, h), q)
  {
    hide NextLocks, NextPid, HoldOk;
    assert s.spin == By(h);
    if s.procs[h].pc == WakeTest(q) { assert Wakes(s, h, q); }
  }

  /** A process that does not hold the spinlock cannot disturb the one that does. */
  lemma SpinStays(s: System, p: int, h: int)
    requires Advances(s, p) && LocksOk(s, p) && s.spin == By(h) && IsProc(s, h) && h != p
    ensures NextSpin(s, p) == By(h) && Advance(s, p).procs[h].pc == s.procs[h].pc
  {
    hide NextLocks, NextPid, NextPc, NextSelf;
  }

  /** Whoever is bound for sleep stays attended through every step. */
  lemma StaysAttended(s: System, p: int, q: int)
    requires Inv(s) && Advances(s, p) && IsProc(s, q)
    ensures Attended(Advance(s, p), q)
  {
    assert ProcOk(s, p) && ProcOk(s, q) && Attended(s, q);
    if Bound(Advance(s, p).procs[q]) {
      if !Bound(s.procs[q]) {
        BecomesBound(s, p, q);
      } else if s.locked {
        UnlockComes(s, p, q);
      } else {
        var h := s.spin.p;
        assert ProcOk(s, h);
        hide Inv, ProcOk, Bound, NextPc, NextLocks, NextSpin, NextPid, Woken, Coming;
        if p == h { WakerSteps(s, h, q); } else { SpinStays(s, p, h); }
      }
    }
  }

  lemma UnlockComes(s: System, p: int, q: int)
    requires Advances(s, p) && LocksOk(s, p) && IsProc(s, q) && s.locked
    ensures NextLocked(s, p) || (NextSpin(s, p) == By(p) && Coming(NextPc(s, p), q))
  {
    hide NextLocks, NextPid;
  }

  lemma TakerHolds(s: System, p: int)
    requires Advances(s, p) && (s.locked ==> IsProc(s, s.taker) && s.procs[s.taker].holds) && HoldOk(s, p)
    ensures var s' := Advance(s, p); s'.locked ==> IsProc(s', s'.taker) && s'.procs[s'.taker].holds
  {
    hide NextPc, NextLocks, NextSpin, NextPid;
  }

  lemma SpinStaysHeld(s: System, p: int)
    requires Advances(s, p) && LocksOk(s, p) && StateOk(s.procs[p]) && SpinHeld(s)
    ensures SpinHeld(Advance(s, p))
  {
    hide NextLocks, NextPid, NextLocked;
  }

  lemma StaysHeld(s: System, p: int, q: int)
    requires Advances(s, p) && LocksOk(s, p) && StateOk(s.procs[p]) && IsProc(s, q) && Held(s, q)
    ensures Held(Advance(s, p), q)
  {
    hide NextSpin, NextPid, NextLocked;
  }

  lemma PidStays(s: System, p: int)
    requires Advances(s, p) && LocksOk(s, p) && StateOk(s.procs[p]) && HoldOk(s, p) && SpinHeld(s) && PidOk(s)
    requires s.locked ==> IsProc(s, s.taker) && s.procs[s.taker].holds && HoldOk(s, s.taker) && LocksOk(s, s.taker)
    ensures PidOk(Advance(s, p))
  {
    hide NextLocks;
  }

  lemma AdvanceInv(s: System, p: int)
    requires Inv(s) && Advances(s, p)
    ensures Inv(Advance(s, p))
  {
    assert ProcOk(s, p) && (s.locked ==> ProcOk(s, s.taker));
    TakerHolds(s, p);
    SpinStaysHeld(s, p);
    PidStays(s, p);
    forall q | IsProc(s, q) ensures Held(Advance(s, p), q) { StaysHeld(s, p, q); }
    hide SpinHeld, PidOk, Held, ProcOk, Attended, NextPc, NextLocks, NextSpin, NextPid, NextLocked, Woken, NextSelf;
    var s' := Advance(s, p);
    forall q | IsProc(s', q) ensures ProcOk(s', q) && Attended(s', q) {
      assert ProcOk(s, p) && ProcOk(s, q);
      if q == p { SelfOk(s, p); } else { OtherOk(s, p, q); }
      StaysAttended(s, p, q);
    }
  }

  lemma SelfOk(s: System, p: int)
    requires Advances(s, p) && ProcOk(s, p)
    ensures ProcOk(Advance(s, p), p)
  {
    SelfLocks(s, p); SelfState(s, p); SelfHold(s, p); SelfCall(s, p);
    hide LocksOk, StateOk, HoldOk, CallOk, NextPc, NextLocks, NextSpin, NextPid, NextLocked, NextSelf;
  }

  lemma OtherOk(s: System, p: int, q: int)
    requires Advances(s, p) && ProcOk(s, p) && IsProc(s, q) && ProcOk(s, q) && p != q
    ensures ProcOk(Advance(s, p), q)
  {
    OtherLocks(s, p, q); OtherState(s, p, q); OtherHold(s, p, q); OtherCall(s, p, q);
    hide LocksOk, StateOk, HoldOk, CallOk, NextPc, NextLocks, NextSpin, NextPid, NextLocked, NextSelf, Woken;
  }

  /** A call or preemption begins: only the pc moves. */
  lemma BeginInv(s: System, p: int, call: Call)
    requires Inv(s) && IsProc(s, p) && RunEnabled(s, p, call) && (call == Preempt || s.procs[p].pc == Idle)
    ensures Inv(Do(s, Run(p, call)))
  {
    hide SpinHeld, PidOk, Held, ProcOk, Attended, Do;
    var s' := Do(s, Run(p, call));
    BeginSpin(s, p, call);
    forall q | IsProc(s, q) ensures Held(s', q) { BeginHeld(s, p, call, q); }
    forall q | IsProc(s', q) ensures ProcOk(s', q) && Attended(s', q) {
      assert ProcOk(s, p) && ProcOk(s, q) && Attended(s, q);
      BeginOne(s, p, call, q);
      BeginAttended(s, p, call, q);
    }
  }

  lemma BeginSpin(s: System, p: int, call: Call)
    requires IsProc(s, p) && RunEnabled(s, p, call) && (call == Preempt || s.procs[p].pc == Idle) && |s.locks| == |s.procs| && SpinHeld(s) && PidOk(s)
    requires s.locked ==> IsProc(s, s.taker) && s.procs[s.taker].holds
    ensures var s' := Do(s, Run(p, call));
            && SpinHeld(s') && PidOk(s') && |s'.procs| == |s.procs| && s'.locks == s.locks
            && (s'.locked ==> IsProc(s', s'.taker) && s'.procs[s'.taker].holds)
  {
    hide Advance;
  }

  lemma BeginHeld(s: System, p: int, call: Call, q: int)
    requires IsProc(s, p) && RunEnabled(s, p, call) && (call == Preempt || s.procs[p].pc == Idle) && |s.locks| == |s.procs| && IsProc(s, q) && Held(s, q)
    ensures IsProc(Do(s, Run(p, call)), q) && Held(Do(s, Run(p, call)), q)
  {
    hide Advance;
  }

  lemma BeginOne(s: System, p: int, call: Call, q: int)
    requires IsProc(s, p) && RunEnabled(s, p, call) && (call == Preempt || s.procs[p].pc == Idle) && IsProc(s, q)
    requires ProcOk(s, p) && ProcOk(s, q)
    ensures ProcOk(Do(s, Run(p, call)), q)
  {
    hide Advance, LocksOk, StateOk, HoldOk, CallOk;
    BeginLocks(s, p, call, q);
    BeginRest(s, p, call, q);
    BeginCall(s, p, call, q);
  }

  lemma BeginCall(s: System, p: int, call: Call, q: int)
    requires IsProc(s, p) && RunEnabled(s, p, call) && (call == Preempt || s.procs[p].pc == Idle) && IsProc(s, q) && CallOk(s, q)
    ensures CallOk(Do(s, Run(p, call)), q)
  {
    hide Advance;
  }

  lemma BeginLocks(s: System, p: int, call: Call, q: int)
    requires IsProc(s, p) && RunEnabled(s, p, call) && (call == Preempt || s.procs[p].pc == Idle) && IsProc(s, q) && LocksOk(s, q)
    ensures LocksOk(Do(s, Run(p, call)), q)
  {
    hide Advance;
  }

  lemma BeginRest(s: System, p: int, call: Call, q: int)
    requires IsProc(s, p) && RunEnabled(s, p, call) && (call == Preempt || s.procs[p].pc == Idle) && IsProc(s, q)
    requires StateOk(s.procs[q]) && HoldOk(s, q)
    ensures StateOk(Do(s, Run(p, call)).procs[q]) && HoldOk(Do(s, Run(p, call)), q)
  {
    hide Advance;
  }

  lemma BeginAttended(s: System, p: int, call: Call, q: int)
    requires IsProc(s, p) && RunEnabled(s, p, call) && (call == Preempt || s.procs[p].pc == Idle) && IsProc(s, q) && Attended(s, q)
    ensures Attended(Do(s, Run(p, call)), q)
  {
    hide Advance;
  }

  /** The scheduler takes and drops process locks, and resumes RUNNABLE processes. */
  lemma SchedulerInv(s: System, a: Action)
    requires Inv(s) && Enabled(s, a) && !a.Run?
    ensures Inv(Do(s, a))
  {
    hide SpinHeld, PidOk, Held, ProcOk, Attended, Do;
    var s' := Do(s, a);
    assert ProcOk(s, a.p);
    SchedulerSpin(s, a);
    forall q | IsProc(s, q) ensures Held(s', q) { SchedulerHeld(s, a, q); }
    forall q | IsProc(s', q) ensures ProcOk(s', q) && Attended(s', q) {
      assert ProcOk(s, a.p) && ProcOk(s, q) && Attended(s, q);
      SchedulerOne(s, a, q);
    }
  }

  lemma SchedulerSpin(s: System, a: Action)
    requires Enabled(s, a) && !a.Run? && |s.locks| == |s.procs| && ProcOk(s, a.p) && SpinHeld(s) && PidOk(s)
    requires s.locked ==> IsProc(s, s.taker) && s.procs[s.taker].holds
    ensures var s' := Do(s, a);
            && SpinHeld(s') && PidOk(s') && |s'.procs| == |s.procs| && |s'.locks| == |s.locks|
            && (s'.locked ==> IsProc(s', s'.taker) && s'.procs[s'.taker].holds)
  {
    hide Advance, CallOk;
  }

  lemma SchedulerHeld(s: System, a: Action, q: int)
    requires Enabled(s, a) && !a.Run? && |s.locks| == |s.procs| && ProcOk(s, a.p) && IsProc(s, q) && Held(s, q)
    ensures IsProc(Do(s, a), q) && Held(Do(s, a), q)
  {
    hide Advance, CallOk, HoldOk;
  }

  lemma SchedulerOne(s: System, a: Action, q: int)
    requires Enabled(s, a) && !a.Run? && IsProc(s, q) && |s.locks| == |s.procs|
    requires ProcOk(s, a.p) && ProcOk(s, q) && Attended(s, q)
    ensures ProcOk(Do(s, a), q) && Attended(Do(s, a), q)
  {
    hide Advance, LocksOk, StateOk, HoldOk, CallOk, Do;
    SchedulerLocks(s, a, q);
    SchedulerState(s, a, q);
    SchedulerCall(s, a, q);
    SchedulerAttended(s, a, q);
  }

  lemma SchedulerLocks(s: System, a: Action, q: int)
    requires Enabled(s, a) && !a.Run? && IsProc(s, q) && |s.locks| == |s.procs| && StateOk(s.procs[a.p]) && LocksOk(s, a.p) && LocksOk(s, q)
    ensures |Do(s, a).procs| == |s.procs| && |Do(s, a).locks| == |s.locks| && LocksOk(Do(s, a), q)
  {
    hide Advance;
  }

  lemma SchedulerState(s: System, a: Action, q: int)
    requires Enabled(s, a) && !a.Run? && IsProc(s, q) && |s.locks| == |s.procs| && StateOk(s.procs[q]) && HoldOk(s, q) && LocksOk(s, q)
    ensures |Do(s, a).procs| == |s.procs| && StateOk(Do(s, a).procs[q]) && |Do(s, a).locks| == |s.locks| && HoldOk(Do(s, a), q)
  {
    hide Advance;
  }

  lemma SchedulerCall(s: System, a: Action, q: int)
    requires Enabled(s, a) && !a.Run? && IsProc(s, q) && |s.locks| == |s.procs| && StateOk(s.procs[q]) && LocksOk(s, q) && CallOk(s, q)
    ensures |Do(s, a).procs| == |s.procs| && |Do(s, a).locks| == |s.locks| && CallOk(Do(s, a), q)
  {
    hide Advance, HoldOk;
  }

  lemma SchedulerAttended(s: System, a: Action, q: int)
    requires Enabled(s, a) && !a.Run? && IsProc(s, q) && |s.locks| == |s.procs| && StateOk(s.procs[a.p]) && Attended(s, q)
    ensures |Do(s, a).procs| == |s.procs| && |Do(s, a).locks| == |s.locks| && Attended(Do(s, a), q)
  {
    hide Advance, LocksOk, HoldOk, CallOk;
  }

  lemma StepInv(s: System, a: Action)
    requires Inv(s) && Enabled(s, a)
    ensures Inv(Do(s, a))
  {
    hide ProcOk, Attended, Advance;
    if a.Run? {
      if a.call == Preempt || s.procs[a.p].pc == Idle { BeginInv(s, a.p, a.call); } else {
        assert Advances(s, a.p);
        AdvanceInv(s, a.p);
      }
    } else {
      SchedulerInv(s, a);
    }
  }

  // ---------------------------------------------------------------- over all runs

  ghost predicate IsRun(states: seq<System>, actions: seq<Action>) {
    && |states| == |actions| + 1 && Init(states[0])
    && forall i | 0 <= i < |actions| :: Enabled(states[i], actions[i]) && states[i + 1] == Do(states[i], actions[i])
  }

  lemma {:induction false} RunInv(states: seq<System>, actions: seq<Action>, i: int)
    requires IsRun(states, actions) && 0 <= i < |states|
    ensures Inv(states[i])
  {
    if i == 0 { InitInv(states[0]); } else {
      RunInv(states, actions, i - 1);
      StepInv(states[i - 1], actions[i - 1]);
      assert states[i - 1 + 1] == Do(states[i - 1], actions[i - 1]);
    }
  }

  /**
   * No lost wakeup: in every interleaving, when the spinlock is free and the lock is not taken,
   * no process sleeps on the lock or is on its way to sleep.
   */
  lemma NoLostWakeup(states: seq<System>, actions: seq<Action>, i: int, q: int)
    requires IsRun(states, actions) && 0 <= i < |states| && IsProc(states[i], q)
    requires states[i].spin == Free && !states[i].locked
    ensures !Bound(states[i].procs[q]) && !(states[i].procs[q].state == Sleeping && states[i].procs[q].onChan)
  {
    RunInv(states, actions, i);
    assert Attended(states[i], q) && ProcOk(states[i], q);
  }

  /** Mutual exclusion: at most one process holds the lock, which is then taken and carries its pid. */
  lemma MutualExclusion(states: seq<System>, actions: seq<Action>, i: int, p: int, q: int)
    requires IsRun(states, actions) && 0 <= i < |states| && IsProc(states[i], p) && IsProc(states[i], q) && states[i].procs[p].holds
    ensures states[i].locked && (states[i].procs[q].holds ==> p == q)
    ensures states[i].spin == Free ==> states[i].pid == p
  {
    RunInv(states, actions, i);
    assert ProcOk(states[i], p) && ProcOk(states[i], q);
  }

  /** acquiresleep() returns, in every interleaving, only with the lock. */
  lemma AcquireReturns(states: seq<System>, actions: seq<Action>, i: int, p: int)
    requires IsRun(states, actions) && 0 <= i < |actions| && IsProc(states[i], p) && states[i].procs[p].doing == Acquire
    requires !At(states[i].procs[p]).Idle? && IsProc(states[i + 1], p) && At(states[i + 1].procs[p]).Idle?
    ensures states[i + 1].procs[p].holds && states[i + 1].locked && states[i + 1].pid == p
  {
    CallEnds(states, actions, i, p);
  }

  /** releasesleep() returns without it, and has let go of it once; whoever was asleep has been woken. */
  lemma ReleaseReturns(states: seq<System>, actions: seq<Action>, i: int, p: int, q: int)
    requires IsRun(states, actions) && 0 <= i < |actions| && IsProc(states[i], p) && states[i].procs[p].doing == Release
    requires !At(states[i].procs[p]).Idle? && IsProc(states[i + 1], p) && At(states[i + 1].procs[p]).Idle? && IsProc(states[i + 1], q)
    ensures !states[i + 1].procs[p].holds && !states[i + 1].locked && !Bound(states[i + 1].procs[q])
  {
    CallEnds(states, actions, i, p);
    hide Inv, LocksOk, StateOk, HoldOk, NextLocks, NextPid, Woken, NextSelf, InAcquire, InKill, Coming, Bound;
    assert Attended(states[i + 1], q) by { AllAttended(states[i + 1], q); }
  }

  lemma AllAttended(s: System, q: int)
    requires Inv(s) && IsProc(s, q)
    ensures Attended(s, q)
  {
  }

  /** When kill() is about to return, its victim is not SLEEPING. */
  lemma KillWakes(states: seq<System>, actions: seq<Action>, i: int, p: int)
    requires IsRun(states, actions) && 0 <= i < |actions| && IsProc(states[i], p) && states[i].procs[p].doing.SendKill?
    requires !At(states[i].procs[p]).Idle? && IsProc(states[i + 1], p) && At(states[i + 1].procs[p]).Idle?
    ensures var t := states[i].procs[p].doing.t; IsProc(states[i], t) && states[i].procs[t].state != Sleeping
  {
    CallEnds(states, actions, i, p);
  }

  lemma CallEnds(states: seq<System>, actions: seq<Action>, i: int, p: int)
    requires IsRun(states, actions) && 0 <= i < |actions| && IsProc(states[i], p)
    requires !At(states[i].procs[p]).Idle? && IsProc(states[i + 1], p) && At(states[i + 1].procs[p]).Idle?
    ensures Inv(states[i]) && Inv(states[i + 1]) && ProcOk(states[i], p) && ProcOk(states[i + 1], p)
    ensures actions[i].Run? && actions[i].p == p && Advances(states[i], p) && states[i + 1] == Advance(states[i], p)
    ensures var pc := states[i].procs[p].pc; pc.AcquireDone? || pc.ReleaseDone? || pc.KillDrop?
  {
    hide Inv, ProcOk, At, Advance, LocksOk;
    RunInv(states, actions, i);
    RunInv(states, actions, i + 1);
    AllOk(states[i], p);
    AllOk(states[i + 1], p);
    assert Enabled(states[i], actions[i]) && states[i + 1] == Do(states[i], actions[i]);
    if actions[i].Run? && actions[i].p == p {
      OwnStepEnds(states[i], p, actions[i].call);
    } else {
      OtherStepStays(states[i], actions[i], p);
    }
  }

  lemma AllOk(s: System, p: int)
    requires Inv(s) && IsProc(s, p)
    ensures ProcOk(s, p) && |s.locks| == |s.procs|
  {
    hide ProcOk;
  }

  /** A call ends with its own last step. */
  lemma OwnStepEnds(s: System, p: int, call: Call)
    requires IsProc(s, p) && ProcOk(s, p) && |s.locks| == |s.procs| && RunEnabled(s, p, call)
    requires !At(s.procs[p]).Idle? && At(Do(s, Run(p, call)).procs[p]).Idle?
    ensures Advances(s, p) && Do(s, Run(p, call)) == Advance(s, p)
    ensures var pc := s.procs[p].pc; pc.AcquireDone? || pc.ReleaseDone? || pc.KillDrop?
  {
    hide NextLocks, NextSpin, NextPid, NextLocked, LocksOk, HoldOk, CallOk;
  }

  /** No step of another process, or of the scheduler, ends it. */
  lemma OtherStepStays(s: System, a: Action, p: int)
    requires Enabled(s, a) && IsProc(s, p) && ProcOk(s, p) && !At(s.procs[p]).Idle? && !(a.Run? && a.p == p) && (a.Run? ==> IsProc(s, a.p))
    ensures IsProc(Do(s, a), p) ==> !At(Do(s, a).procs[p]).Idle?
  {
    hide NextLocks, NextSpin, NextPid, NextLocked, LocksOk, HoldOk, CallOk, NextSelf;
  }

  /** holdingsleep() is right: with the spinlock, a process sees the lock taken with its pid exactly when it holds it. */
  lemma HoldingSleep(states: seq<System>, actions: seq<Action>, i: int, p: int)
    requires IsRun(states, actions) && 0 <= i < |states| && IsProc(states[i], p) && states[i].spin == Free
    ensures states[i].locked && states[i].pid == p <==> states[i].procs[p].holds
    ensures !states[i].locked ==> states[i].pid == NOPID
  {
    RunInv(states, actions, i);
    var s := states[i];
    assert ProcOk(s, p);
    if s.locked { assert ProcOk(s, s.taker); }
  }

  /** No lock is left behind: a process in other code, asleep or off the CPU holds no spinlock. */
  lemma NothingHeld(states: seq<System>, actions: seq<Action>, i: int, p: int, q: int)
    requires IsRun(states, actions) && 0 <= i < |states| && IsProc(states[i], p) && IsProc(states[i], q)
    requires var pc := states[i].procs[p].pc; pc.Idle? || pc.Asleep? || pc.YieldOff? || Interruptible(pc)
    ensures states[i].spin != By(p) && states[i].locks[q] != By(p)
  {
    RunInv(states, actions, i);
    assert Held(states[i], q);
  }

  /** ... and when it is taken, some process holds it. */
  lemma TakenIsHeld(states: seq<System>, actions: seq<Action>, i: int)
    requires IsRun(states, actions) && 0 <= i < |states| && states[i].locked
    ensures exists p | IsProc(states[i], p) :: states[i].procs[p].holds
  {
    RunInv(states, actions, i);
  }
}
