/**
  Processes, CPUs and their locks as interleaved steps.

  Every process has a kernel thread that stands at a `PC`; every CPU either runs its scheduler or the
  thread of the process it switched to. Spinlocks are held by CPUs. Critical sections that
  touch one other process (a turn of wakeup, kill, a turn of wait's scan) are one step, enabled when
  that process's lock is free. Sections during which a lock is handed on or another is taken (scheduler, yield,
  sleep, exit, fork) are split at every acquire, release and swtch.
 */
module Proc {
  import opened Options

  datatype PState = Unused | Used | Sleeping | Runnable | Running | Zombie

  /** A sleep channel: the address of a process (wait), or of anything else. */
  datatype Chan = NoChan | ProcChan(p: nat) | Other(addr: nat)

  /** What a switched-out thread does when it is resumed. */
  datatype Resume = AfterYield | AfterSleep(inWait: bool) | AfterForkret | AfterExit

  /** Where wakeup returns to. */
  datatype Caller = Code | FromReparent(next: nat) | FromExit

  datatype PC =
    | Free                                        // kernel or user code that holds neither kind of lock
    | Wake(i: nat, chan: Chan, caller: Caller)    // wakeup, about to look at process i
    | ForkHold(np: nat)                           // allocproc returned np with its lock held
    | ForkLink(np: nat)                           // about to set np->parent under wait_lock
    | ForkReady(np: nat)                          // about to make np RUNNABLE
    | Reparent(i: nat)                            // exit, under wait_lock
    | ExitLock                                    // exit, about to acquire its own lock
    | ExitMark                                    // exit, about to become ZOMBIE
    | ExitUnlock                                  // exit, about to release wait_lock
    | WaitAgain                                   // woken up in wait, about to reacquire wait_lock
    | WaitScan(i: nat)                            // wait, under wait_lock
    | WaitLock                                    // wait calls sleep, about to acquire its own lock
    | WaitUnlock                                  // sleep, about to release wait_lock
    | SleepMark(chan: Chan)                       // sleep, about to become SLEEPING
    | YieldMark                                   // yield, about to become RUNNABLE
    | Switch(k: Resume)                           // sched, about to swtch
    | Parked(k: Resume)                           // switched out
    | Resumed(k: Resume)                          // switched in, own lock still held

  datatype Cpu =
    | Idle                  // scheduler between two processes
    | SchedHold(p: nat)     // acquired p->lock
    | SchedGo(p: nat)       // p is RUNNING and c->proc is p, about to swtch
    | OnProc(p: nat)        // runs p's kernel thread
    | SchedBack(p: nat)     // p switched back, about to clear c->proc
    | SchedRelease(p: nat)  // about to release p->lock

  /** `maker` and `on` are history: who is forking a USED process, and which CPU has c->proc = p. */
  datatype State = State(
    state: seq<PState>,
    chan: seq<Chan>,
    parent: seq<Option<nat>>,
    pc: seq<PC>,
    ret: seq<PC>,
    plock: seq<Option<nat>>,
    waitLock: Option<nat>,
    cpus: seq<Cpu>,
    cproc: seq<Option<nat>>,
    init: nat,
    maker: seq<Option<nat>>,
    on: seq<Option<nat>>)

  predicate WF(s: State) {
    && |s.chan| == |s.state| && |s.parent| == |s.state| && |s.pc| == |s.state| && |s.ret| == |s.state|
    && |s.plock| == |s.state| && |s.maker| == |s.state| && |s.on| == |s.state| && s.init < |s.state|
    && |s.cproc| == |s.cpus|
  }

  /** The process table after userinit. */
  predicate Init(s: State) {
    && WF(s) && s.waitLock == None
    && (forall c :: 0 <= c < |s.cpus| ==> s.cpus[c] == Idle && s.cproc[c] == None)
    && (forall p :: 0 <= p < |s.state| ==>
          && s.state[p] == (if p == s.init then Runnable else Unused) && s.chan[p] == NoChan && s.parent[p] == None
          && s.pc[p] == Parked(AfterForkret) && s.plock[p] == None && s.maker[p] == None && s.on[p] == None)
  }

  datatype Step =
    | SAcquire(c: nat, p: nat) | SSkip(c: nat) | SPick(c: nat) | SSwitch(c: nat) | SBack(c: nat) | SRelease(c: nat)
    | Preempt(c: nat) | YieldNow(c: nat) | SleepOther(c: nat, addr: nat) | FallAsleep(c: nat) | Swtch(c: nat)
    | Return(c: nat)
    | StartWake(c: nat, addr: nat) | WakeOne(c: nat) | WakeEnd(c: nat) | Rouse(v: nat)
    | ForkAlloc(c: nat, np: nat) | ForkFail(c: nat) | ForkRelease(c: nat) | ForkSetParent(c: nat) | ForkRunnable(c: nat)
    | ExitBegin(c: nat) | ReparentOne(c: nat) | ReparentEnd(c: nat)
    | ExitAcquire(c: nat) | ExitZombie(c: nat) | ExitRelease(c: nat)
    | WaitBegin(c: nat) | WaitOne(c: nat) | WaitReap(c: nat)
    | WaitLeave(c: nat) | WaitSleep(c: nat) | WaitRelease(c: nat)

  /** CPU c runs the thread of p, which stands at pc. */
  predicate At(s: State, c: nat, p: nat) {
    c < |s.cpus| && p < |s.state| && s.cpus[c] == OnProc(p)
  }

  function SetPc(s: State, p: nat, pc: PC): State
    requires p < |s.pc|
  {
    s.(pc := s.pc[p := pc])
  }

  function SetLock(s: State, p: nat, holder: Option<nat>): State
    requires p < |s.plock|
  {
    s.(plock := s.plock[p := holder])
  }

  function SetState(s: State, p: nat, st: PState): State
    requires p < |s.state|
  {
    s.(state := s.state[p := st])
  }

  function SetCpu(s: State, c: nat, x: Cpu): State
    requires c < |s.cpus|
  {
    s.(cpus := s.cpus[c := x])
  }

  /** Code in which a timer interrupt may call yield: no spinlock is held. */
  predicate Interruptible(pc: PC) {
    pc.Free? || (pc.Wake? && pc.caller.Code?) || pc.ForkLink? || pc.ForkReady? || pc.WaitAgain?
  }

  // ----- scheduler -----

  predicate NextSched(s: State, step: Step, s': State)
    requires WF(s)
  {
    match step
    case SAcquire(c, p) =>
      && c < |s.cpus| && p < |s.state| && s.cpus[c] == Idle && s.plock[p] == None
      && s' == SetCpu(SetLock(s, p, Some(c)), c, SchedHold(p))
    case SSkip(c) =>
      && c < |s.cpus| && s.cpus[c].SchedHold? && s.cpus[c].p < |s.state|
      && var p := s.cpus[c].p;
      && s.state[p] != Runnable
      && s' == SetCpu(SetLock(s, p, None), c, Idle)
    case SPick(c) =>
      && c < |s.cpus| && s.cpus[c].SchedHold? && s.cpus[c].p < |s.state|
      && var p := s.cpus[c].p;
      && s.state[p] == Runnable
      && s' == SetCpu(SetState(s, p, Running), c, SchedGo(p)).(cproc := s.cproc[c := Some(p)], on := s.on[p := Some(c)])
    case SSwitch(c) =>
      && c < |s.cpus| && s.cpus[c].SchedGo? && s.cpus[c].p < |s.state|
      && var p := s.cpus[c].p;
      && s.pc[p].Parked?
      && s' == SetCpu(SetPc(s, p, Resumed(s.pc[p].k)), c, OnProc(p))
    case SBack(c) =>
      && c < |s.cpus| && s.cpus[c].SchedBack? && s.cpus[c].p < |s.state|
      && var p := s.cpus[c].p;
      && s' == SetCpu(s, c, SchedRelease(p)).(cproc := s.cproc[c := None], on := s.on[p := None])
    case SRelease(c) =>
      && c < |s.cpus| && s.cpus[c].SchedRelease? && s.cpus[c].p < |s.state|
      && var p := s.cpus[c].p;
      && s' == SetCpu(SetLock(s, p, None), c, Idle)
    case _ => false
  }

  // ----- yield, sleep, sched -----

  predicate NextSwitch(s: State, step: Step, s': State, c: nat, p: nat)
    requires WF(s) && At(s, c, p)
  {
    match step
    case Preempt(_) =>
      && Interruptible(s.pc[p]) && s.plock[p] == None
      && s' == SetPc(SetLock(s, p, Some(c)), p, YieldMark).(ret := s.ret[p := s.pc[p]])
    case YieldNow(_) =>
      s.pc[p] == YieldMark && s' == SetPc(SetState(s, p, Runnable), p, Switch(AfterYield))
    case SleepOther(_, addr) =>
      && s.pc[p] == Free && s.plock[p] == None
      && s' == SetPc(SetLock(s, p, Some(c)), p, SleepMark(Other(addr)))
    case FallAsleep(_) =>
      && s.pc[p].SleepMark?
      && var s1 := SetPc(SetState(s, p, Sleeping), p, Switch(AfterSleep(s.pc[p].chan.ProcChan?)));
      && s' == s1.(chan := s.chan[p := s.pc[p].chan])
    case Swtch(_) =>
      s.pc[p].Switch? && s' == SetCpu(SetPc(s, p, Parked(s.pc[p].k)), c, SchedBack(p))
    case Return(_) =>
      && s.pc[p].Resumed? && s.pc[p].k != AfterExit
      && var k, s1 := s.pc[p].k, SetLock(s, p, None);
      && s' == if k.AfterYield? then SetPc(s1, p, s.ret[p])
               else if k.AfterSleep? then SetPc(s1, p, if k.inWait then WaitAgain
               else Free).(chan := s.chan[p := NoChan])
               else SetPc(s1, p, Free)
    case _ => false
  }

  // ----- wakeup -----

  predicate NextWake(s: State, step: Step, s': State, c: nat, p: nat)
    requires WF(s) && At(s, c, p)
  {
    match step
    case StartWake(_, addr) =>
      s.pc[p] == Free && s' == SetPc(s, p, Wake(0, Other(addr), Code))
    case WakeOne(_) =>
      && s.pc[p].Wake? && s.pc[p].i < |s.state|
      && var i := s.pc[p].i;
      && var s1 := SetPc(s, p, s.pc[p].(i := i + 1));
      && if i == p then s' == s1
         else && s.plock[i] == None
              && s' == if s.state[i] == Sleeping && s.chan[i] == s.pc[p].chan then SetState(s1, i, Runnable) else s1
    case WakeEnd(_) =>
      && s.pc[p].Wake? && s.pc[p].i == |s.state|
      && var k := s.pc[p].caller;
      && s' == SetPc(s, p, if k.Code? then Free else if k.FromReparent? then Reparent(k.next) else ExitLock)
    case _ => false
  }

  // ----- fork -----

  predicate NextFork(s: State, step: Step, s': State, c: nat, p: nat)
    requires WF(s) && At(s, c, p)
  {
    match step
    case ForkAlloc(_, np) =>
      && s.pc[p] == Free && np < |s.state| && s.plock[np] == None && s.state[np] == Unused
      && s' == s.(state := s.state[np := Used], pc := s.pc[np := Parked(AfterForkret)][p := ForkHold(np)],
                  plock := s.plock[np := Some(c)], maker := s.maker[np := Some(p)])
    case ForkFail(_) =>
      && s.pc[p].ForkHold? && s.pc[p].np < |s.state|
      && var np := s.pc[p].np;
      && s' == SetPc(SetLock(SetState(s, np, Unused), np, None), p, Free).(
                 chan := s.chan[np := NoChan], parent := s.parent[np := None], maker := s.maker[np := None])
    case ForkRelease(_) =>
      && s.pc[p].ForkHold? && s.pc[p].np < |s.state|
      && s' == SetPc(SetLock(s, s.pc[p].np, None), p, ForkLink(s.pc[p].np))
    case ForkSetParent(_) =>
      && s.pc[p].ForkLink? && s.pc[p].np < |s.state| && s.waitLock == None
      && s' == SetPc(s, p, ForkReady(s.pc[p].np)).(parent := s.parent[s.pc[p].np := Some(p)])
    case ForkRunnable(_) =>
      && s.pc[p].ForkReady? && s.pc[p].np < |s.state| && s.plock[s.pc[p].np] == None
      && s' == SetPc(SetState(s, s.pc[p].np, Runnable), p, Free).(maker := s.maker[s.pc[p].np := None])
    case _ => false
  }

  // ----- exit -----

  predicate NextExit(s: State, step: Step, s': State, c: nat, p: nat)
    requires WF(s) && At(s, c, p)
  {
    match step
    case ExitBegin(_) =>
      s.pc[p] == Free && p != s.init && s.waitLock == None && s' == SetPc(s, p, Reparent(0)).(waitLock := Some(c))
    case ReparentOne(_) =>
      && s.pc[p].Reparent? && s.pc[p].i < |s.state|
      && var i := s.pc[p].i;
      && s' == if s.parent[i] == Some(p)
               then SetPc(s, p, Wake(0, ProcChan(s.init), FromReparent(i + 1))).(parent := s.parent[i := Some(s.init)])
               else SetPc(s, p, Reparent(i + 1))
    case ReparentEnd(_) =>
      && s.pc[p].Reparent? && s.pc[p].i == |s.state|
      && s' == SetPc(s, p, Wake(0, if s.parent[p].Some? then ProcChan(s.parent[p].value) else NoChan, FromExit))
    case ExitAcquire(_) =>
      s.pc[p] == ExitLock && s.plock[p] == None && s' == SetPc(SetLock(s, p, Some(c)), p, ExitMark)
    case ExitZombie(_) =>
      s.pc[p] == ExitMark && s' == SetPc(SetState(s, p, Zombie), p, ExitUnlock)
    case ExitRelease(_) =>
      s.pc[p] == ExitUnlock && s' == SetPc(s, p, Switch(AfterExit)).(waitLock := None)
    case _ => false
  }

  // ----- wait -----

  predicate NextWait(s: State, step: Step, s': State, c: nat, p: nat)
    requires WF(s) && At(s, c, p)
  {
    match step
    case WaitBegin(_) =>
      (s.pc[p] == Free || s.pc[p] == WaitAgain) && s.waitLock == None
      && s' == SetPc(s, p, WaitScan(0)).(waitLock := Some(c))
    case WaitOne(_) =>
      && s.pc[p].WaitScan? && s.pc[p].i < |s.state|
      && var i := s.pc[p].i;
      && (s.parent[i] == Some(p) ==> s.plock[i] == None && s.state[i] != Zombie)
      && s' == SetPc(s, p, WaitScan(i + 1))
    case WaitReap(_) =>
      && s.pc[p].WaitScan? && s.pc[p].i < |s.state|
      && var i := s.pc[p].i;
      && s.parent[i] == Some(p) && s.plock[i] == None && s.state[i] == Zombie
      && s' == SetPc(SetState(s, i, Unused), p, Free).(
                 chan := s.chan[i := NoChan], parent := s.parent[i := None], waitLock := None)
    case WaitLeave(_) =>
      s.pc[p].WaitScan? && s' == SetPc(s, p, Free).(waitLock := None)
    case WaitSleep(_) =>
      s.pc[p].WaitScan? && s.pc[p].i == |s.state| && s' == SetPc(s, p, WaitLock)
    case WaitRelease(_) =>
      if s.pc[p] == WaitLock then s.plock[p] == None && s' == SetPc(SetLock(s, p, Some(c)), p, WaitUnlock)
      else s.pc[p] == WaitUnlock && s' == SetPc(s, p, SleepMark(ProcChan(p))).(waitLock := None)
    case _ => false
  }

  /** kill, or a wakeup from an interrupt handler: a sleeping process becomes runnable under its lock. */
  predicate NextRouse(s: State, v: nat, s': State)
    requires WF(s)
  {
    v < |s.state| && s.plock[v] == None && s.state[v] == Sleeping && s' == SetState(s, v, Runnable)
  }

  predicate ProcStep(s: State, step: Step, s': State, c: nat, p: nat)
    requires WF(s) && At(s, c, p)
  {
    NextSwitch(s, step, s', c, p) || NextWake(s, step, s', c, p) || NextFork(s, step, s', c, p)
    || NextExit(s, step, s', c, p)
    || NextWait(s, step, s', c, p)
  }

  predicate Next(s: State, step: Step, s': State) {
    WF(s) &&
    if step.Rouse? then NextRouse(s, step.v, s')
    else NextSched(s, step, s') ||
         (&& step.c < |s.cpus| && s.cpus[step.c].OnProc? && s.cpus[step.c].p < |s.state|
          && ProcStep(s, step, s', step.c, s.cpus[step.c].p))
  }
}
