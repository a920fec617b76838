/**
  One CPU per process: the invariant that ties c->proc, process states, kernel threads and
  spinlocks together, proved for every step and hence for every run.
 */
module ProcSafety {
  import opened Options
  import opened Proc

  // ----- what a thread's position says about locks and states -----

  /** The thread's CPU holds the thread's own p->lock. */
  predicate OwnLock(pc: PC) {
    pc.ExitMark? || pc.ExitUnlock? || pc.WaitUnlock? || pc.SleepMark? || pc.YieldMark? || pc.Switch? || pc.Resumed?
  }

  predicate WaitHeld(pc: PC) {
    || (pc.Wake? && !pc.caller.Code?) || pc.Reparent? || pc.ExitLock? || pc.ExitMark? || pc.ExitUnlock?
    || pc.WaitScan? || pc.WaitLock? || pc.WaitUnlock?
  }

  function StateAfter(k: Resume): PState {
    match k
    case AfterYield => Runnable
    case AfterSleep(_) => Sleeping
    case AfterForkret => Used
    case AfterExit => Zombie
  }

  /** The state of a process while its thread is on a CPU. */
  function StateAt(pc: PC): PState {
    if pc.Switch? then StateAfter(pc.k) else if pc.ExitUnlock? then Zombie else Running
  }

  /** The thread is in yield, on its way out or back. */
  predicate Yielding(pc: PC) {
    pc.YieldMark? || ((pc.Switch? || pc.Parked? || pc.Resumed?) && pc.k.AfterYield?)
  }

  /** Where the thread stands, seeing through a yield. */
  function Logical(s: State, p: nat): PC
    requires WF(s) && p < |s.state|
  {
    if Yielding(s.pc[p]) then s.ret[p] else s.pc[p]
  }

  /** The process that a thread in fork has allocated and not yet made runnable. */
  function Making(pc: PC): Option<nat> {
    if pc.ForkHold? || pc.ForkLink? || pc.ForkReady? then Some(pc.np) else None
  }

  /** CPU c holds the lock of process x. */
  predicate Holds(s: State, c: nat, x: nat)
    requires WF(s) && c < |s.cpus| && x < |s.state|
  {
    match s.cpus[c]
    case Idle => false
    case SchedHold(p) => x == p
    case SchedGo(p) => x == p
    case SchedBack(p) => x == p
    case SchedRelease(p) => x == p
    case OnProc(p) => p < |s.state| && ((x == p && OwnLock(s.pc[p])) || s.pc[p] == ForkHold(x))
  }

  // ----- the invariant -----

  predicate InvCpu(s: State, c: nat)
    requires WF(s) && c < |s.cpus|
  {
    match s.cpus[c]
    case Idle => s.cproc[c] == None
    case SchedHold(p) => p < |s.state| && s.cproc[c] == None && s.plock[p] == Some(c)
    case SchedGo(p) =>
      && p < |s.state| && s.cproc[c] == Some(p) && s.on[p] == Some(c) && s.plock[p] == Some(c)
      && s.state[p] == Running && s.pc[p].Parked? && s.pc[p].k != AfterExit
    case OnProc(p) =>
      && p < |s.state| && s.cproc[c] == Some(p) && s.on[p] == Some(c)
      && !s.pc[p].Parked? && s.state[p] == StateAt(s.pc[p]) && s.pc[p] != Resumed(AfterExit)
      && s.pc[p] != Switch(AfterForkret)
      && (OwnLock(s.pc[p]) ==> s.plock[p] == Some(c))
      && (WaitHeld(s.pc[p]) ==> s.waitLock == Some(c))
      && (s.pc[p].ForkHold? ==> s.pc[p].np < |s.state| && s.plock[s.pc[p].np] == Some(c))
    case SchedBack(p) =>
      && p < |s.state| && s.cproc[c] == Some(p) && s.on[p] == Some(c) && s.plock[p] == Some(c)
      && s.pc[p].Parked? && s.pc[p].k != AfterForkret && s.state[p] == StateAfter(s.pc[p].k)
    case SchedRelease(p) => p < |s.state| && s.cproc[c] == None && s.plock[p] == Some(c) && s.on[p] == None
  }

  /** A process that no CPU has: it is switched out and its state fits how it left. */
  predicate OffCpu(st: PState, pc: PC) {
    && pc.Parked? && st != Running
    && (st == Runnable ==> pc.k != AfterExit) && (st == Sleeping ==> pc.k.AfterSleep?)
    && (st == Zombie ==> pc.k == AfterExit)
    && (st == Used ==> pc.k == AfterForkret) && (st == Unused ==> pc.k == AfterForkret || pc.k == AfterExit)
  }

  predicate InvProc(s: State, p: nat)
    requires WF(s) && p < |s.state|
  {
    && (s.plock[p].Some? ==> s.plock[p].value < |s.cpus| && Holds(s, s.plock[p].value, p))
    && (s.on[p].Some? ==> s.on[p].value < |s.cpus| && s.cproc[s.on[p].value] == Some(p))
    && (s.on[p].None? ==> OffCpu(s.state[p], s.pc[p]))
    && (Yielding(s.pc[p]) ==> Interruptible(s.ret[p]))
  }

  /** A thread in fork and the USED process it makes belong to each other alone. */
  predicate InvMake(s: State, p: nat)
    requires WF(s) && p < |s.state|
  {
    var mk := Making(Logical(s, p));
    && (mk.Some? ==> && mk.value < |s.state| && mk.value != p && s.state[mk.value] == Used
                     && s.maker[mk.value] == Some(p) && s.on[mk.value] == None)
    && (s.state[p] == Used ==>
           s.maker[p].Some? && s.maker[p].value < |s.state| && Making(Logical(s, s.maker[p].value)) == Some(p))
  }

  predicate InvWait(s: State)
    requires WF(s)
  {
    s.waitLock.Some? ==>
      && s.waitLock.value < |s.cpus| && s.cpus[s.waitLock.value].OnProc?
      && s.cpus[s.waitLock.value].p < |s.state| && WaitHeld(s.pc[s.cpus[s.waitLock.value].p])
  }

  predicate Inv(s: State) {
    && WF(s) && InvWait(s)
    && (forall c {:trigger InvCpu(s, c)} :: 0 <= c < |s.cpus| ==> InvCpu(s, c))
    && (forall p {:trigger InvProc(s, p)} :: 0 <= p < |s.state| ==> InvProc(s, p))
    && (forall p {:trigger InvMake(s, p)} :: 0 <= p < |s.state| ==> InvMake(s, p))
  }

  lemma InitInv(s: State)
    requires Init(s)
    ensures Inv(s)
  {
  }

  // ----- steps of a thread that touch only itself and its locks -----

  predicate OwnStep(s: State, c: nat, p: nat, s': State)
    requires WF(s) && At(s, c, p)
  {
    && |s'.pc| == |s.pc| && |s'.ret| == |s.ret| && |s'.chan| == |s.chan| && |s'.parent| == |s.parent|
    && var k, k' := s.pc[p], s'.pc[p];
    && s'.pc == s.pc[p := k'] && s'.ret == s.ret[p := s'.ret[p]] && s'.state == s.state[p := StateAt(k')]
    && s'.cpus == s.cpus && s'.cproc == s.cproc && s'.on == s.on && s'.maker == s.maker && s'.init == s.init
    && !k'.Parked? && k' != Resumed(AfterExit) && k' != Switch(AfterForkret) && !k.ForkHold? && !k'.ForkHold?
    && (if OwnLock(k') then s'.plock == s.plock[p := Some(c)] && (OwnLock(k) || s.plock[p] == None)
        else if OwnLock(k) then s'.plock == s.plock[p := None] else s'.plock == s.plock)
    && (if WaitHeld(k') then s'.waitLock == Some(c) && (WaitHeld(k) || s.waitLock == None)
        else if WaitHeld(k) then s'.waitLock == None else s'.waitLock == s.waitLock)
    && (Yielding(k') ==> Interruptible(s'.ret[p]))
    && Making(if Yielding(k') then s'.ret[p] else k') == Making(if Yielding(k) then s.ret[p] else k)
  }

  lemma OwnCpu(s: State, c: nat, p: nat, s': State, d: nat)
    requires Inv(s) && At(s, c, p) && OwnStep(s, c, p, s') && d < |s.cpus|
    ensures WF(s') && InvCpu(s', d)
  {
    assert InvCpu(s, c) && InvCpu(s, d);
    if d != c {
      match s.cpus[d]
      case Idle =>
      case SchedHold(q) => assert InvProc(s, p);
      case SchedGo(q) => assert InvProc(s, p);
      case SchedBack(q) => assert InvProc(s, p);
      case SchedRelease(q) => assert InvProc(s, p);
      case OnProc(q) => assert InvProc(s, p);
    }
  }

  lemma OwnProc(s: State, c: nat, p: nat, s': State, q: nat)
    requires Inv(s) && At(s, c, p) && OwnStep(s, c, p, s') && q < |s.state|
    ensures WF(s') && InvProc(s', q)
  {
    assert InvCpu(s, c) && InvProc(s, q) && InvProc(s, p);
  }

  lemma OwnMake(s: State, c: nat, p: nat, s': State, q: nat)
    requires Inv(s) && At(s, c, p) && OwnStep(s, c, p, s') && q < |s.state|
    ensures WF(s') && InvMake(s', q)
  {
    assert InvCpu(s, c) && InvMake(s, q) && InvMake(s, p);
  }

  lemma OwnInv(s: State, c: nat, p: nat, s': State)
    requires Inv(s) && At(s, c, p) && OwnStep(s, c, p, s')
    ensures Inv(s')
  {
    forall d | 0 <= d < |s.cpus| ensures WF(s') && InvCpu(s', d) { OwnCpu(s, c, p, s', d); }
    forall q | 0 <= q < |s.state| ensures InvProc(s', q) { OwnProc(s, c, p, s', q); }
    forall q | 0 <= q < |s.state| ensures InvMake(s', q) { OwnMake(s, c, p, s', q); }
    assert InvCpu(s, c);
  }

  // ----- a switched-out process changed by somebody else -----

  /** While p->lock is free and p is on a CPU, p is RUNNING. */
  lemma LockFree(s: State, p: nat)
    requires Inv(s) && p < |s.state| && s.plock[p] == None
    ensures s.on[p].Some? ==> s.on[p].value < |s.cpus| && s.state[p] == Running && s.cpus[s.on[p].value] == OnProc(p)
    ensures s.on[p].None? ==> OffCpu(s.state[p], s.pc[p])
  {
    assert InvProc(s, p);
    if s.on[p].Some? {
      assert InvCpu(s, s.on[p].value);
    }
  }

  /** wakeup and kill (SLEEPING to RUNNABLE), and freeproc in wait (ZOMBIE to UNUSED). */
  predicate AwayStep(s: State, v: nat, s': State)
    requires WF(s)
  {
    && v < |s.state| && s.plock[v] == None && |s'.chan| == |s.chan| && |s'.parent| == |s.parent|
    && (|| (s.state[v] == Sleeping && s'.state == s.state[v := Runnable])
        || (s.state[v] == Zombie && s'.state == s.state[v := Unused]))
    && s' == s.(state := s'.state, chan := s'.chan, parent := s'.parent)
  }

  lemma AwayInv(s: State, v: nat, s': State)
    requires Inv(s) && AwayStep(s, v, s')
    ensures Inv(s')
  {
    LockFree(s, v);
    forall d | 0 <= d < |s.cpus| ensures InvCpu(s', d) { assert InvCpu(s, d); }
    forall q | 0 <= q < |s.state| ensures InvProc(s', q) { assert InvProc(s, q) && InvProc(s, v); }
    forall q | 0 <= q < |s.state| ensures InvMake(s', q) { assert InvMake(s, q); }
  }

  // ----- every step of a thread -----

  lemma SwitchOwn(s: State, step: Step, s': State, c: nat, p: nat)
    requires Inv(s) && At(s, c, p) && NextSwitch(s, step, s', c, p) && !step.Swtch? && !step.Return?
    ensures OwnStep(s, c, p, s')
  {
    assert InvCpu(s, c) && InvProc(s, p);
  }

  lemma ReturnOwn(s: State, s': State, c: nat, p: nat)
    requires Inv(s) && At(s, c, p) && NextSwitch(s, Return(c), s', c, p)
    ensures OwnStep(s, c, p, s')
  {
    assert InvCpu(s, c) && InvProc(s, p);
  }

  lemma ExitScanOwn(s: State, step: Step, s': State, c: nat, p: nat)
    requires Inv(s) && At(s, c, p) && NextExit(s, step, s', c, p)
    requires (step.ExitBegin? || step.ReparentOne? || step.ReparentEnd?)
    ensures OwnStep(s, c, p, s')
  {
    assert InvCpu(s, c) && InvProc(s, p);
  }

  lemma ExitLastOwn(s: State, step: Step, s': State, c: nat, p: nat)
    requires Inv(s) && At(s, c, p) && NextExit(s, step, s', c, p)
    requires (step.ExitAcquire? || step.ExitZombie? || step.ExitRelease?)
    ensures OwnStep(s, c, p, s')
  {
    assert InvCpu(s, c) && InvProc(s, p);
  }

  lemma ExitOwn(s: State, step: Step, s': State, c: nat, p: nat)
    requires Inv(s) && At(s, c, p) && NextExit(s, step, s', c, p)
    ensures OwnStep(s, c, p, s')
  {
    if step.ExitBegin? || step.ReparentOne? || step.ReparentEnd? {
      ExitScanOwn(s, step, s', c, p);
    } else {
      ExitLastOwn(s, step, s', c, p);
    }
  }

  lemma WaitScanOwn(s: State, step: Step, s': State, c: nat, p: nat)
    requires Inv(s) && At(s, c, p) && NextWait(s, step, s', c, p) && !step.WaitReap? && !step.WaitRelease?
    ensures OwnStep(s, c, p, s')
  {
    assert InvCpu(s, c) && InvProc(s, p);
  }

  lemma WaitReleaseOwn(s: State, s': State, c: nat, p: nat)
    requires Inv(s) && At(s, c, p) && NextWait(s, WaitRelease(c), s', c, p)
    ensures OwnStep(s, c, p, s')
  {
    assert InvCpu(s, c) && InvProc(s, p);
  }

  lemma WaitReapOwn(s: State, s': State, c: nat, p: nat)
    requires Inv(s) && At(s, c, p) && NextWait(s, WaitReap(c), s', c, p)
    ensures OwnStep(s, c, p, SetPc(s, p, Free).(waitLock := None))
  {
    assert InvCpu(s, c) && InvProc(s, p);
  }

  lemma WaitReapInv(s: State, s': State, c: nat, p: nat)
    requires Inv(s) && At(s, c, p) && NextWait(s, WaitReap(c), s', c, p)
    ensures Inv(s')
  {
    var s1 := SetPc(s, p, Free).(waitLock := None);
    WaitReapOwn(s, s', c, p);
    OwnInv(s, c, p, s1);
    assert AwayStep(s1, s.pc[p].i, s');
    AwayInv(s1, s.pc[p].i, s');
  }

  /** A turn of wakeup is a move of the thread, and perhaps a change of the process it looks at. */
  lemma WakeOwn(s: State, step: Step, s': State, c: nat, p: nat)
    requires Inv(s) && At(s, c, p) && NextWake(s, step, s', c, p)
    ensures |s'.pc| == |s.pc| && OwnStep(s, c, p, SetPc(s, p, s'.pc[p]))
  {
    assert InvCpu(s, c) && InvProc(s, p);
  }

  lemma WakeInv(s: State, step: Step, s': State, c: nat, p: nat)
    requires Inv(s) && At(s, c, p) && NextWake(s, step, s', c, p)
    ensures Inv(s')
  {
    WakeOwn(s, step, s', c, p);
    var s1 := SetPc(s, p, s'.pc[p]);
    OwnInv(s, c, p, s1);
    if s' != s1 {
      assert AwayStep(s1, s.pc[p].i, s');
      AwayInv(s1, s.pc[p].i, s');
    }
  }

  lemma SwtchCpu(s: State, s': State, c: nat, p: nat, d: nat)
    requires Inv(s) && At(s, c, p) && NextSwitch(s, Swtch(c), s', c, p) && d < |s.cpus|
    ensures WF(s') && InvCpu(s', d)
  {
    assert InvCpu(s, c) && InvProc(s, p) && InvCpu(s, d);
  }

  lemma SwtchInv(s: State, s': State, c: nat, p: nat)
    requires Inv(s) && At(s, c, p) && NextSwitch(s, Swtch(c), s', c, p)
    ensures Inv(s')
  {
    assert InvCpu(s, c);
    forall d | 0 <= d < |s.cpus| ensures InvCpu(s', d) { SwtchCpu(s, s', c, p, d); }
    forall q | 0 <= q < |s.state| ensures InvProc(s', q) { SwtchProc(s, s', c, p, q); }
    forall q | 0 <= q < |s.state| ensures InvMake(s', q) { SwtchMake(s, s', c, p, q); }
  }

  lemma SwtchProc(s: State, s': State, c: nat, p: nat, q: nat)
    requires Inv(s) && At(s, c, p) && NextSwitch(s, Swtch(c), s', c, p) && q < |s.state|
    ensures WF(s') && InvProc(s', q)
  {
    assert InvCpu(s, c) && InvProc(s, p) && InvProc(s, q);
  }

  lemma SwtchMake(s: State, s': State, c: nat, p: nat, q: nat)
    requires Inv(s) && At(s, c, p) && NextSwitch(s, Swtch(c), s', c, p) && q < |s.state|
    ensures WF(s') && InvMake(s', q)
  {
    assert InvCpu(s, c) && InvMake(s, p) && InvMake(s, q);
  }

  // ----- fork -----

  lemma ForkSetParentOwn(s: State, s': State, c: nat, p: nat)
    requires Inv(s) && At(s, c, p) && NextFork(s, ForkSetParent(c), s', c, p)
    ensures OwnStep(s, c, p, s')
  {
    assert InvCpu(s, c);
  }

  /** The process a fork step works on is switched out. */
  lemma ForkOff(s: State, step: Step, s': State, c: nat, p: nat) returns (np: nat)
    requires Inv(s) && At(s, c, p) && NextFork(s, step, s', c, p) && !step.ForkSetParent?
    ensures np < |s.state| && np != p && s.on[np] == None && s.on[p] == Some(c) && s.cproc[c] == Some(p)
    ensures np == if step.ForkAlloc? then step.np else s.pc[p].np
    ensures s.state[p] == Running && OffCpu(s.state[np], s.pc[np])
    ensures s.plock[np] == if step.ForkAlloc? || step.ForkRunnable? then None else Some(c)
    ensures !step.ForkAlloc? ==> s.state[np] == Used && s.maker[np] == Some(p)
  {
    np := if step.ForkAlloc? then step.np else s.pc[p].np;
    assert InvCpu(s, c) && InvProc(s, p) && InvMake(s, p);
    if step.ForkAlloc? {
      LockFree(s, np);
    }
    assert InvProc(s, np);
  }

  /**
    What the steps of fork other than the link to the parent have in common: p moves on, and np, off every CPU,
    changes.
   */
  predicate ForkEffect(s: State, c: nat, p: nat, np: nat, s': State)
    requires WF(s) && p < |s.state|
  {
    && np < |s.state| && np != p && WF(s')
    && s'.cpus == s.cpus && s'.cproc == s.cproc && s'.on == s.on && s'.waitLock == s.waitLock && s'.ret == s.ret
    && s'.pc == s.pc[np := s'.pc[np]][p := s'.pc[p]] && s'.state == s.state[np := s'.state[np]]
    && s'.plock == s.plock[np := s'.plock[np]] && OffCpu(s'.state[np], s'.pc[np]) && !Yielding(s'.pc[np])
    && (s'.pc[p] == Free || s'.pc[p] == ForkHold(np) || s'.pc[p] == ForkLink(np))
    && s'.plock[np] == if s'.pc[p] == ForkHold(np) then Some(c) else None
  }

  lemma ForkAllocEffect(s: State, s': State, c: nat, p: nat, np: nat)
    requires Inv(s) && At(s, c, p) && NextFork(s, ForkAlloc(c, np), s', c, p)
    ensures ForkEffect(s, c, p, np, s')
  {
    var np' := ForkOff(s, ForkAlloc(c, np), s', c, p);
  }

  lemma ForkIsEffect(s: State, step: Step, s': State, c: nat, p: nat) returns (np: nat)
    requires Inv(s) && At(s, c, p) && NextFork(s, step, s', c, p) && !step.ForkSetParent?
    ensures ForkEffect(s, c, p, np, s') && s.on[np] == None && (s.plock[np] == None || s.plock[np] == Some(c))
    ensures !OwnLock(s.pc[p]) && !WaitHeld(s.pc[p]) && (s.pc[p].ForkHold? ==> s.pc[p].np == np)
  {
    np := ForkOff(s, step, s', c, p);
    assert InvProc(s, np);
    if step.ForkAlloc? {
      ForkAllocEffect(s, s', c, p, np);
    }
  }

  lemma ForkCpu(s: State, step: Step, s': State, c: nat, p: nat, d: nat)
    requires Inv(s) && At(s, c, p) && NextFork(s, step, s', c, p) && !step.ForkSetParent? && d < |s.cpus|
    ensures WF(s') && InvCpu(s', d)
  {
    var np := ForkIsEffect(s, step, s', c, p);
    ForkEffectCpu(s, c, p, np, s', d);
  }

  lemma ForkEffectCpu(s: State, c: nat, p: nat, np: nat, s': State, d: nat)
    requires Inv(s) && At(s, c, p) && ForkEffect(s, c, p, np, s') && s.on[np] == None && d < |s.cpus|
    requires s.plock[np] == None || s.plock[np] == Some(c)
    requires !OwnLock(s.pc[p]) && !WaitHeld(s.pc[p])
    ensures WF(s') && InvCpu(s', d)
  {
    assert InvCpu(s, c) && InvCpu(s, d);
  }

  lemma ForkEffectProc(s: State, c: nat, p: nat, np: nat, s': State, q: nat)
    requires Inv(s) && At(s, c, p) && ForkEffect(s, c, p, np, s') && s.on[np] == None && q < |s.state|
    requires !OwnLock(s.pc[p]) && (s.pc[p].ForkHold? ==> s.pc[p].np == np)
    ensures WF(s') && InvProc(s', q)
  {
    assert InvProc(s, q) && InvCpu(s, c);
    if s.plock[q].Some? {
      assert InvCpu(s, s.plock[q].value);
    }
  }

  lemma ForkProc(s: State, step: Step, s': State, c: nat, p: nat, q: nat)
    requires Inv(s) && At(s, c, p) && NextFork(s, step, s', c, p) && !step.ForkSetParent? && q < |s.state|
    ensures WF(s') && InvProc(s', q)
  {
    var np := ForkIsEffect(s, step, s', c, p);
    ForkEffectProc(s, c, p, np, s', q);
  }

  lemma ForkStartMake(s: State, s': State, c: nat, p: nat, np: nat, q: nat)
    requires Inv(s) && At(s, c, p) && NextFork(s, ForkAlloc(c, np), s', c, p) && q < |s.state|
    ensures WF(s') && InvMake(s', q)
  {
    var np' := ForkOff(s, ForkAlloc(c, np), s', c, p);
    assert InvMake(s, p) && InvMake(s, q) && InvMake(s, np);
  }

  lemma ForkKeepMake(s: State, s': State, c: nat, p: nat, q: nat)
    requires Inv(s) && At(s, c, p) && NextFork(s, ForkRelease(c), s', c, p) && q < |s.state|
    ensures WF(s') && InvMake(s', q)
  {
    assert InvMake(s, p) && InvMake(s, q);
  }

  lemma ForkFailMake(s: State, s': State, c: nat, p: nat, q: nat)
    requires Inv(s) && At(s, c, p) && NextFork(s, ForkFail(c), s', c, p) && q < |s.state|
    ensures WF(s') && InvMake(s', q)
  {
    var np := ForkOff(s, ForkFail(c), s', c, p);
    assert InvMake(s, p) && InvMake(s, q) && InvMake(s, np);
  }

  lemma ForkRunnableMake(s: State, s': State, c: nat, p: nat, q: nat)
    requires Inv(s) && At(s, c, p) && NextFork(s, ForkRunnable(c), s', c, p) && q < |s.state|
    ensures WF(s') && InvMake(s', q)
  {
    var np := ForkOff(s, ForkRunnable(c), s', c, p);
    assert InvMake(s, p) && InvMake(s, q) && InvMake(s, np);
  }

  lemma ForkMake(s: State, step: Step, s': State, c: nat, p: nat, q: nat)
    requires Inv(s) && At(s, c, p) && NextFork(s, step, s', c, p) && !step.ForkSetParent? && q < |s.state|
    ensures WF(s') && InvMake(s', q)
  {
    match step
    case ForkAlloc(_, np) => ForkStartMake(s, s', c, p, np, q);
    case ForkRelease(_) => ForkKeepMake(s, s', c, p, q);
    case ForkFail(_) => ForkFailMake(s, s', c, p, q);
    case ForkRunnable(_) => ForkRunnableMake(s, s', c, p, q);
  }

  lemma ForkInv(s: State, step: Step, s': State, c: nat, p: nat)
    requires Inv(s) && At(s, c, p) && NextFork(s, step, s', c, p)
    ensures Inv(s')
  {
    if step.ForkSetParent? {
      ForkSetParentOwn(s, s', c, p);
      OwnInv(s, c, p, s');
    } else {
      var np := ForkOff(s, step, s', c, p);
      assert s.waitLock.Some? ==> InvCpu(s, s.waitLock.value);
      forall d | 0 <= d < |s.cpus| ensures WF(s') && InvCpu(s', d) { ForkCpu(s, step, s', c, p, d); }
      forall q | 0 <= q < |s.state| ensures InvProc(s', q) { ForkProc(s, step, s', c, p, q); }
      forall q | 0 <= q < |s.state| ensures InvMake(s', q) { ForkMake(s, step, s', c, p, q); }
    }
  }

  // ----- the scheduler -----

  /** The scheduler that holds p->lock and finds p RUNNABLE has it to itself. */
  lemma PickedOff(s: State, c: nat, p: nat)
    requires Inv(s) && c < |s.cpus| && s.cpus[c] == SchedHold(p) && p < |s.state| && s.state[p] == Runnable
    ensures s.on[p] == None && OffCpu(s.state[p], s.pc[p])
  {
    assert InvCpu(s, c) && InvProc(s, p);
    OnCpu(s, p);
  }

  /** A process on a CPU is RUNNING unless that very CPU holds its lock. */
  lemma OnCpu(s: State, p: nat)
    requires Inv(s) && p < |s.state|
    ensures s.on[p].Some? ==> s.state[p] == Running || s.plock[p] == s.on[p]
  {
    assert InvProc(s, p);
    if s.on[p].Some? {
      assert InvCpu(s, s.on[p].value);
    }
  }

  lemma SchedOwnCpu(s: State, step: Step, s': State)
    requires Inv(s) && NextSched(s, step, s')
    ensures WF(s') && step.c < |s'.cpus| && InvCpu(s', step.c)
  {
    assert InvCpu(s, step.c);
    if step.SPick? {
      PickedOff(s, step.c, s.cpus[step.c].p);
    }
  }

  lemma SchedOtherCpu(s: State, step: Step, s': State, d: nat)
    requires Inv(s) && NextSched(s, step, s') && d < |s.cpus| && d != step.c
    ensures WF(s') && InvCpu(s', d)
  {
    assert InvCpu(s, step.c) && InvCpu(s, d);
    if step.SPick? {
      PickedOff(s, step.c, s.cpus[step.c].p);
    }
  }

  lemma SchedCpu(s: State, step: Step, s': State, d: nat)
    requires Inv(s) && NextSched(s, step, s') && d < |s.cpus|
    ensures WF(s') && InvCpu(s', d)
  {
    if d == step.c {
      SchedOwnCpu(s, step, s');
    } else {
      SchedOtherCpu(s, step, s', d);
    }
  }

  /** The process that a step of the scheduler is about. */
  function Scheduled(s: State, step: Step): nat
    requires step.SAcquire? || (step.SSkip? || step.SPick? || step.SSwitch? || step.SBack? || step.SRelease?)
    requires !step.SAcquire? ==> step.c < |s.cpus| && !s.cpus[step.c].Idle?
  {
    if step.SAcquire? then step.p else s.cpus[step.c].p
  }

  lemma SchedOwnProc(s: State, step: Step, s': State)
    requires Inv(s) && NextSched(s, step, s')
    ensures WF(s') && Scheduled(s, step) < |s'.state| && InvProc(s', Scheduled(s, step))
  {
    assert InvCpu(s, step.c) && InvProc(s, Scheduled(s, step));
    if step.SPick? {
      PickedOff(s, step.c, s.cpus[step.c].p);
    }
  }

  lemma SchedOtherProc(s: State, step: Step, s': State, q: nat)
    requires Inv(s) && NextSched(s, step, s') && q < |s.state| && q != Scheduled(s, step)
    ensures WF(s') && InvProc(s', q)
  {
    assert InvCpu(s, step.c) && InvProc(s, q);
  }

  lemma SchedProc(s: State, step: Step, s': State, q: nat)
    requires Inv(s) && NextSched(s, step, s') && q < |s.state|
    ensures WF(s') && InvProc(s', q)
  {
    if q == Scheduled(s, step) {
      SchedOwnProc(s, step, s');
    } else {
      SchedOtherProc(s, step, s', q);
    }
  }

  /** The scheduler never touches a process that is being made. */
  lemma SchedMake(s: State, step: Step, s': State, q: nat)
    requires Inv(s) && NextSched(s, step, s') && q < |s.state|
    ensures WF(s') && InvMake(s', q)
  {
    assert InvMake(s, q);
    if step.SPick? {
      SchedPickMake(s, s', step.c, q);
    } else if step.SSwitch? {
      SchedSwitchMake(s, s', step.c, q);
    } else if step.SBack? {
      SchedBackMake(s, s', step.c, q);
    }
  }

  lemma SchedPickMake(s: State, s': State, c: nat, q: nat)
    requires Inv(s) && NextSched(s, SPick(c), s') && q < |s.state|
    ensures WF(s') && InvMake(s', q)
  {
    assert InvMake(s, q);
  }

  lemma SchedSwitchMake(s: State, s': State, c: nat, q: nat)
    requires Inv(s) && NextSched(s, SSwitch(c), s') && q < |s.state|
    ensures WF(s') && InvMake(s', q)
  {
    assert InvCpu(s, c) && InvMake(s, q);
  }

  lemma SchedBackMake(s: State, s': State, c: nat, q: nat)
    requires Inv(s) && NextSched(s, SBack(c), s') && q < |s.state|
    ensures WF(s') && InvMake(s', q)
  {
    assert InvMake(s, q);
  }

  lemma SchedInv(s: State, step: Step, s': State)
    requires Inv(s) && NextSched(s, step, s')
    ensures Inv(s')
  {
    assert InvCpu(s, step.c);
    forall d | 0 <= d < |s.cpus| ensures WF(s') && InvCpu(s', d) { SchedCpu(s, step, s', d); }
    forall q | 0 <= q < |s.state| ensures InvProc(s', q) { SchedProc(s, step, s', q); }
    forall q | 0 <= q < |s.state| ensures InvMake(s', q) { SchedMake(s, step, s', q); }
  }

  lemma NextInv(s: State, step: Step, s': State)
    requires Inv(s) && Next(s, step, s')
    ensures Inv(s')
  {
    if step.Rouse? {
      AwayInv(s, step.v, s');
    } else if NextSched(s, step, s') {
      SchedInv(s, step, s');
    } else {
      var c := step.c;
      var p := s.cpus[c].p;
      if NextWake(s, step, s', c, p) {
        WakeInv(s, step, s', c, p);
      } else if NextFork(s, step, s', c, p) {
        ForkInv(s, step, s', c, p);
      } else if NextSwitch(s, step, s', c, p) {
        SwitchInv(s, step, s', c, p);
      } else if NextExit(s, step, s', c, p) {
        ExitOwn(s, step, s', c, p);
        OwnInv(s, c, p, s');
      } else {
        WaitInv(s, step, s', c, p);
      }
    }
  }

  lemma SwitchInv(s: State, step: Step, s': State, c: nat, p: nat)
    requires Inv(s) && At(s, c, p) && NextSwitch(s, step, s', c, p)
    ensures Inv(s')
  {
    if step.Swtch? {
      SwtchInv(s, s', c, p);
    } else {
      if step.Return? {
        ReturnOwn(s, s', c, p);
      } else {
        SwitchOwn(s, step, s', c, p);
      }
      OwnInv(s, c, p, s');
    }
  }

  lemma WaitInv(s: State, step: Step, s': State, c: nat, p: nat)
    requires Inv(s) && At(s, c, p) && NextWait(s, step, s', c, p)
    ensures Inv(s')
  {
    if step.WaitReap? {
      WaitReapInv(s, s', c, p);
    } else {
      if step.WaitRelease? {
        WaitReleaseOwn(s, s', c, p);
      } else {
        WaitScanOwn(s, step, s', c, p);
      }
      OwnInv(s, c, p, s');
    }
  }

  // ----- runs -----

  ghost predicate IsRun(run: seq<State>, steps: seq<Step>) {
    && |run| == |steps| + 1 && Init(run[0])
    && forall i :: 0 <= i < |steps| ==> Next(run[i], steps[i], run[i + 1])
  }

  lemma {:induction false} RunInv(run: seq<State>, steps: seq<Step>, i: nat)
    requires IsRun(run, steps) && i < |run|
    ensures Inv(run[i])
  {
    if i == 0 {
      InitInv(run[0]);
    } else {
      RunInv(run, steps, i - 1);
      NextInv(run[i - 1], steps[i - 1], run[i]);
    }
  }

  /**
    One CPU per process. No two CPUs have the same c->proc, so none run on the same kernel stack; and whenever
    p->lock is free, p is RUNNING exactly when some CPU has c->proc = p.
   */
  lemma OneCpuPerProcess(run: seq<State>, steps: seq<Step>, i: nat, p: nat)
    requires IsRun(run, steps) && i < |run| && p < |run[i].state|
    ensures var s := run[i];
            && WF(s)
            && (forall c, d :: 0 <= c < d < |s.cpus| && s.cproc[c] == Some(p) ==> s.cproc[d] != Some(p))
            && (forall c, d :: 0 <= c < d < |s.cpus| && s.cpus[c] == OnProc(p) ==> s.cpus[d] != OnProc(p))
            && (s.plock[p] == None ==>
                   (s.state[p] == Running <==> exists c :: 0 <= c < |s.cpus| && s.cproc[c] == Some(p)))
  {
    var s := run[i];
    RunInv(run, steps, i);
    forall c | 0 <= c < |s.cpus| ensures (s.cproc[c] == Some(p) ==> s.on[p] == Some(c)) && (s.cpus[c] == OnProc(p) ==>
        s.on[p] == Some(c)) {
      assert InvCpu(s, c);
    }
    assert InvProc(s, p);
    if s.plock[p] == None {
      LockFree(s, p);
    }
  }

  /** The panics of sched, and "zombie exit", are out of reach. */
  lemma SchedNeverPanics(run: seq<State>, steps: seq<Step>, i: nat, c: nat, p: nat)
    requires IsRun(run, steps) && i < |run| && At(run[i], c, p)
    ensures var s := run[i];
            && WF(s)
            && (s.pc[p].Switch? ==>
                  && s.plock[p] == Some(c) && s.state[p] != Running && s.waitLock != Some(c)
                  && forall x :: 0 <= x < |s.state| && x != p ==> s.plock[x] != Some(c))
            && s.pc[p] != Resumed(AfterExit)
  {
    var s := run[i];
    RunInv(run, steps, i);
    assert InvCpu(s, c);
    if s.pc[p].Switch? {
      forall x | 0 <= x < |s.state| && x != p ensures s.plock[x] != Some(c) { assert InvProc(s, x); }
    }
  }
}
