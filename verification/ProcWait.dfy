/**
  No stranded zombie: a parent asleep in wait never has a ZOMBIE child while wait_lock is free, although
  exit wakes the parent before it becomes a ZOMBIE.
 */
module ProcWait {
  import opened Options
  import opened Proc
  import opened ProcSafety

  /** q is asleep in wait, or has finished its scan in wait and will fall asleep without looking again. */
  predicate Committed(s: State, q: nat)
    requires WF(s) && q < |s.state|
  {
    || s.pc[q] == WaitLock || s.pc[q] == WaitUnlock || s.pc[q] == SleepMark(ProcChan(q))
    || (s.state[q] == Sleeping && s.chan[q] == ProcChan(q))
  }

  /** The holder of wait_lock is on its way to wake q for a child it has just handed over. */
  predicate Waking(s: State, q: nat)
    requires WF(s)
  {
    && s.waitLock.Some? && s.waitLock.value < |s.cpus| && s.cpus[s.waitLock.value].OnProc?
    && s.cpus[s.waitLock.value].p < |s.state|
    && var k := s.pc[s.cpus[s.waitLock.value].p];
    && k.Wake? && k.chan == ProcChan(q) && k.caller.FromReparent? && k.i <= q
  }

  /** The thread is in exit. */
  predicate Exiting(pc: PC) {
    || pc.Reparent? || pc.ExitLock? || pc.ExitMark? || pc.ExitUnlock? || (pc.Wake? && !pc.caller.Code?)
    || ((pc.Switch? || pc.Parked? || pc.Resumed?) && pc.k == AfterExit)
  }

  predicate NoZombieBelow(s: State, q: nat, i: nat)
    requires WF(s)
  {
    forall x {:trigger s.parent[x]} :: 0 <= x < i && x < |s.state| && s.parent[x] == Some(q) ==> s.state[x] != Zombie
  }

  // ----- the invariant -----

  /** A zombie child of a committed parent is about to be announced. */
  predicate Announced(s: State, q: nat, x: nat)
    requires WF(s) && q < |s.state| && x < |s.state|
  {
    s.parent[x] == Some(q) && s.state[x] == Zombie && Committed(s, q) ==> Waking(s, q)
  }

  predicate ZProc(s: State, q: nat)
    requires WF(s) && q < |s.state|
  {
    ZLocal(s, q) && (s.pc[q].WaitScan? ==> NoZombieBelow(s, q, s.pc[q].i))
  }

  predicate ZLocal(s: State, q: nat)
    requires WF(s) && q < |s.state|
  {
    && (s.parent[q].Some? ==> s.parent[q].value < |s.state| && s.parent[q].value != q)
    && (s.pc[q].SleepMark? && s.pc[q].chan.ProcChan? ==> s.pc[q].chan == ProcChan(q))
    && (s.state[q] == Sleeping && s.chan[q].ProcChan? ==> s.chan[q] == ProcChan(q))
    && (Exiting(s.pc[q]) ==> q != s.init)
    && (q == s.init ==> s.parent[q] == None && s.state[q] != Unused && s.state[q] != Used && s.state[q] != Zombie)
  }

  /** How far an exiting thread's wakeups have got. */
  predicate ZExit(s: State, e: nat)
    requires WF(s) && e < |s.state|
  {
    var k := s.pc[e];
    && (k.Wake? && !k.caller.Code? ==>
          && (k.caller.FromReparent? ==> k.chan == ProcChan(s.init))
          && (k.caller.FromExit? && s.parent[e].Some? ==> k.chan == ProcChan(s.parent[e].value))
          && (k.chan.ProcChan? && k.chan.p < k.i && k.chan.p < |s.state| ==> !Committed(s, k.chan.p)))
    && ((k.ExitLock? || k.ExitMark?) && s.parent[e].Some? && s.parent[e].value < |s.state| ==>
           !Committed(s, s.parent[e].value))
  }

  predicate InvZ(s: State)
    requires WF(s)
  {
    && (forall q {:trigger ZProc(s, q)} :: 0 <= q < |s.state| ==> ZProc(s, q))
    && (forall e {:trigger ZExit(s, e)} :: 0 <= e < |s.state| ==> ZExit(s, e))
    && (forall q, x {:trigger Announced(s, q, x)} :: 0 <= q < |s.state| && 0 <= x < |s.state| ==> Announced(s, q, x))
  }

  lemma InitZ(s: State)
    requires Init(s)
    ensures InvZ(s)
  {
  }

  // ----- what a step can change -----

  /** CPU c, which holds wait_lock, runs thread p. */
  predicate Locked(s: State, step: Step, p: nat)
    requires WF(s)
  {
    !step.Rouse? && step.c < |s.cpus| && p < |s.state| && s.cpus[step.c] == OnProc(p) && s.waitLock == Some(step.c)
  }

  /** Only the end of a scan commits a process, and it does so under wait_lock. */
  predicate CommitRule(s: State, step: Step, s': State, q: nat)
    requires WF(s) && WF(s') && q < |s.state| && |s'.state| == |s.state|
  {
    Committed(s', q) && !Committed(s, q) ==>
      Locked(s, step, q) && s.pc[q] == WaitScan(|s.state|) && s'.parent == s.parent && s'.state == s.state
  }

  /** Only exit makes a zombie, of itself, under wait_lock. */
  predicate ZombieRule(s: State, step: Step, s': State, x: nat)
    requires WF(s) && WF(s') && x < |s.state| && |s'.state| == |s.state|
  {
    s'.state[x] == Zombie && s.state[x] != Zombie ==> Locked(s, step, x) && s.pc[x] == ExitMark && s'.parent == s.parent
  }

  /** A process gets a parent only when fork links it, still USED, or when an exiting parent hands it to init. */
  predicate ParentRule(s: State, step: Step, s': State, x: nat)
    requires WF(s) && WF(s') && x < |s.state| && |s'.state| == |s.state|
  {
    s'.parent[x].Some? && s'.parent[x] != s.parent[x] ==>
      && !step.Rouse? && step.c < |s.cpus| && s.cpus[step.c].OnProc? && s.cpus[step.c].p < |s.state|
      && var p := s.cpus[step.c].p;
      || (s.waitLock == None && s'.state[x] == Used && s.state[x] == Used && s'.parent[x] == Some(p) && x != p)
      || (&& s.waitLock == Some(step.c) && s.parent[x] == Some(p)
          && s'.parent[x] == Some(s.init) && s'.waitLock == Some(step.c)
          && s'.cpus == s.cpus && s'.pc[p].Wake? && s'.pc[p].chan == ProcChan(s.init) && s'.pc[p].i == 0
          && s'.pc[p].caller.FromReparent?)
  }

  /** The holder of wait_lock keeps it, and stays where it is, through everybody else's steps. */
  predicate HolderRule(s: State, step: Step, s': State)
    requires WF(s) && WF(s')
  {
    s.waitLock.Some? ==>
      && s.waitLock.value < |s.cpus| && s.cpus[s.waitLock.value].OnProc? && s.cpus[s.waitLock.value].p < |s.state|
      && var c := s.waitLock.value;
      && var e := s.cpus[c].p;
      && (step.Rouse? || step.c != c ==>
            s'.waitLock == s.waitLock && |s'.cpus| == |s.cpus| && |s'.pc| == |s.pc| && s'.cpus[c] == s.cpus[c]
            && s'.pc[e] == s.pc[e])
  }

  predicate Rules(s: State, step: Step, s': State, q: nat)
    requires WF(s) && q < |s.state|
  {
    && WF(s') && |s'.state| == |s.state| && s'.init == s.init
    && CommitRule(s, step, s', q) && ZombieRule(s, step, s', q) && ParentRule(s, step, s', q) && HolderRule(s, step, s')
  }

  lemma SchedRules(s: State, step: Step, s': State, q: nat)
    requires Inv(s) && NextSched(s, step, s') && q < |s.state|
    ensures Rules(s, step, s', q)
  {
    assert InvCpu(s, step.c);
    assert s.waitLock.Some? ==> InvCpu(s, s.waitLock.value);
  }

  lemma ReturnRules(s: State, s': State, c: nat, p: nat, q: nat)
    requires Inv(s) && At(s, c, p) && NextSwitch(s, Return(c), s', c, p) && q < |s.state|
    ensures Rules(s, Return(c), s', q)
  {
    assert InvCpu(s, c) && InvProc(s, p);
    assert s.waitLock.Some? ==> InvCpu(s, s.waitLock.value);
  }

  lemma SwitchRules(s: State, step: Step, s': State, c: nat, p: nat, q: nat)
    requires Inv(s) && At(s, c, p) && NextSwitch(s, step, s', c, p) && !step.Rouse? && step.c == c && q < |s.state|
    ensures Rules(s, step, s', q)
  {
    if step.Return? {
      ReturnRules(s, s', c, p, q);
    } else {
      assert InvCpu(s, c) && InvProc(s, p);
      assert s.waitLock.Some? ==> InvCpu(s, s.waitLock.value);
    }
  }

  lemma WakeRules(s: State, step: Step, s': State, c: nat, p: nat, q: nat)
    requires Inv(s) && At(s, c, p) && NextWake(s, step, s', c, p) && !step.Rouse? && step.c == c && q < |s.state|
    ensures Rules(s, step, s', q)
  {
    assert InvCpu(s, c);
    assert s.waitLock.Some? ==> InvCpu(s, s.waitLock.value);
  }

  lemma ForkLinkRules(s: State, s': State, c: nat, p: nat, q: nat)
    requires Inv(s) && At(s, c, p) && NextFork(s, ForkSetParent(c), s', c, p) && q < |s.state|
    ensures Rules(s, ForkSetParent(c), s', q)
  {
    assert InvCpu(s, c) && InvMake(s, p);
  }

  lemma ForkAllocRules(s: State, s': State, c: nat, p: nat, np: nat, q: nat)
    requires Inv(s) && At(s, c, p) && NextFork(s, ForkAlloc(c, np), s', c, p) && q < |s.state|
    ensures Rules(s, ForkAlloc(c, np), s', q)
  {
    var np' := ForkOff(s, ForkAlloc(c, np), s', c, p);
    assert InvCpu(s, c);
    assert s.waitLock.Some? ==> InvCpu(s, s.waitLock.value);
  }

  lemma ForkRules(s: State, step: Step, s': State, c: nat, p: nat, q: nat)
    requires Inv(s) && At(s, c, p) && NextFork(s, step, s', c, p) && !step.Rouse? && step.c == c && q < |s.state|
    ensures Rules(s, step, s', q)
  {
    if step.ForkSetParent? {
      ForkLinkRules(s, s', c, p, q);
    } else if step.ForkAlloc? {
      ForkAllocRules(s, s', c, p, step.np, q);
    } else {
      var np := ForkOff(s, step, s', c, p);
      assert InvCpu(s, c);
      assert s.waitLock.Some? ==> InvCpu(s, s.waitLock.value);
    }
  }

  lemma ExitRules(s: State, step: Step, s': State, c: nat, p: nat, q: nat)
    requires Inv(s) && At(s, c, p) && NextExit(s, step, s', c, p) && !step.Rouse? && step.c == c && q < |s.state|
    ensures Rules(s, step, s', q)
  {
    assert InvCpu(s, c);
    assert s.waitLock.Some? ==> InvCpu(s, s.waitLock.value);
  }

  lemma WaitRules(s: State, step: Step, s': State, c: nat, p: nat, q: nat)
    requires Inv(s) && At(s, c, p) && NextWait(s, step, s', c, p) && !step.Rouse? && step.c == c && q < |s.state|
    ensures Rules(s, step, s', q)
  {
    assert InvCpu(s, c);
    assert s.waitLock.Some? ==> InvCpu(s, s.waitLock.value);
  }

  lemma NextRules(s: State, step: Step, s': State, q: nat)
    requires Inv(s) && Next(s, step, s') && q < |s.state|
    ensures Rules(s, step, s', q)
  {
    if step.Rouse? {
      assert s.waitLock.Some? ==> InvCpu(s, s.waitLock.value);
    } else if NextSched(s, step, s') {
      SchedRules(s, step, s', q);
    } else {
      var c, p := step.c, s.cpus[step.c].p;
      if NextSwitch(s, step, s', c, p) {
        SwitchRules(s, step, s', c, p, q);
      } else if NextWake(s, step, s', c, p) {
        WakeRules(s, step, s', c, p, q);
      } else if NextFork(s, step, s', c, p) {
        ForkRules(s, step, s', c, p, q);
      } else if NextExit(s, step, s', c, p) {
        ExitRules(s, step, s', c, p, q);
      } else {
        WaitRules(s, step, s', c, p, q);
      }
    }
  }

  // ----- wakeup reaches a committed parent -----

  /** While somebody else holds wait_lock, a committed process is asleep or about to be, with its own lock held. */
  lemma CommittedAway(s: State, q: nat, c: nat, e: nat)
    requires Inv(s) && q < |s.state| && Committed(s, q) && At(s, c, e) && s.waitLock == Some(c) && WaitHeld(s.pc[e])
    requires s.pc[e] != WaitLock && s.pc[e] != WaitUnlock
    ensures e != q && (s.plock[q] == None ==> s.state[q] == Sleeping && s.chan[q] == ProcChan(q) && s.pc[q].Parked?)
  {
    assert InvCpu(s, c) && InvProc(s, q) && InvProc(s, e);
    if s.on[q].Some? {
      assert InvCpu(s, s.on[q].value);
    }
  }

  /** A turn of wakeup for q's channel leaves q not committed when it reaches q, and is on its way before that. */
  lemma WakeOneReaches(s: State, s': State, c: nat, e: nat, q: nat)
    requires Inv(s) && At(s, c, e) && NextWake(s, WakeOne(c), s', c, e) && q < |s.state|
    requires s.pc[e].Wake? && !s.pc[e].caller.Code? && s.pc[e].chan == ProcChan(q) && s.pc[e].i == q
    ensures WF(s') && !Committed(s', q)
  {
    assert InvCpu(s, c);
    if Committed(s, q) {
      CommittedAway(s, q, c, e);
    } else {
      assert s'.pc[q] == s.pc[q] || q == e;
    }
  }

  lemma WakingNext(s: State, step: Step, s': State, q: nat)
    requires Inv(s) && Next(s, step, s') && q < |s.state| && Rules(s, step, s', q)
    requires Waking(s, q) && Committed(s', q)
    ensures Waking(s', q)
  {
    var c := s.waitLock.value;
    var e := s.cpus[c].p;
    if !step.Rouse? && step.c == c {
      HolderWakes(s, step, s', c, e);
      if s.pc[e].i == q {
        WakeOneReaches(s, s', c, e, q);
      }
    }
  }

  /** A thread inside wakeup with wait_lock held can only go on with wakeup. */
  lemma HolderWakes(s: State, step: Step, s': State, c: nat, e: nat)
    requires Inv(s) && Next(s, step, s') && !step.Rouse? && step.c == c && At(s, c, e)
    requires s.pc[e].Wake? && !s.pc[e].caller.Code?
    ensures NextWake(s, step, s', c, e)
    ensures s.pc[e].i < |s.state| ==> step == WakeOne(c) && s'.pc[e] == s.pc[e].(i := s.pc[e].i + 1)
    ensures s.pc[e].i < |s.state| ==> s'.cpus == s.cpus && s'.waitLock == s.waitLock
  {
    NotElsewhere(s, step, s', c, e);
  }

  lemma NotElsewhere(s: State, step: Step, s': State, c: nat, e: nat)
    requires WF(s) && !step.Rouse? && step.c == c && At(s, c, e) && s.pc[e].Wake? && !s.pc[e].caller.Code?
    ensures !NextSched(s, step, s') && !NextSwitch(s, step, s', c, e) && !NextFork(s, step, s', c, e)
    ensures !NextExit(s, step, s', c, e) && !NextWait(s, step, s', c, e)
  {
  }

  /** A zombie gets a parent only when it is handed to init, and then init is about to be woken. */
  lemma AnnouncedAdopted(s: State, step: Step, s': State, q: nat, x: nat)
    requires Inv(s) && q < |s.state| && x < |s.state| && Rules(s, step, s', x)
    requires s'.parent[x] == Some(q) && s.parent[x] != Some(q) && s'.state[x] == Zombie
    ensures Waking(s', q)
  {
  }

  /** A child of q becomes a zombie, or q commits, only when the other has not. */
  lemma AnnouncedBefore(s: State, step: Step, s': State, q: nat, x: nat)
    requires Inv(s) && InvZ(s) && q < |s.state| && x < |s.state|
    requires Rules(s, step, s', q) && Rules(s, step, s', x)
    requires s'.parent[x] == Some(q) && s.parent[x] == Some(q) && s'.state[x] == Zombie && Committed(s', q)
    ensures Committed(s, q) && s.state[x] == Zombie
  {
    assert ZProc(s, q) && ZProc(s, x) && ZExit(s, x);
  }

  lemma AnnouncedNext(s: State, step: Step, s': State, q: nat, x: nat)
    requires Inv(s) && InvZ(s) && Next(s, step, s') && q < |s.state| && x < |s.state|
    requires Rules(s, step, s', q) && Rules(s, step, s', x)
    ensures Announced(s', q, x)
  {
    if s'.parent[x] == Some(q) && s'.state[x] == Zombie && Committed(s', q) {
      if s.parent[x] == Some(q) {
        AnnouncedBefore(s, step, s', q, x);
        assert Announced(s, q, x);
        WakingNext(s, step, s', q);
      } else {
        AnnouncedAdopted(s, step, s', q, x);
      }
    }
  }

  // ----- the rest of the invariant -----

  /** How a scan in wait goes on. */
  predicate ScanRule(s: State, s': State, q: nat)
    requires WF(s) && WF(s') && q < |s.state| && |s'.state| == |s.state|
  {
    s'.pc[q].WaitScan? ==>
      || s'.pc[q].i == 0
      || s'.pc[q] == s.pc[q]
      || (&& s.pc[q].WaitScan? && s'.pc[q].i == s.pc[q].i + 1
          && s.pc[q].i < |s.state| && s'.parent == s.parent && s'.state == s.state
          && (s.parent[s.pc[q].i] == Some(q) ==> s.state[s.pc[q].i] != Zombie))
  }

  /** How an exit goes on. */
  predicate ExitRule(s: State, step: Step, s': State, e: nat)
    requires WF(s) && WF(s') && e < |s.state| && |s'.state| == |s.state|
  {
    var k, k' := s.pc[e], s'.pc[e];
    && (k'.Wake? && !k'.caller.Code? && k' != k ==>
          Locked(s, step, e) &&
          if k.Wake? then !k.caller.Code? && k' == k.(i := k.i + 1) && NextWake(s, step, s', step.c, e)
          else k'.i == 0 && (if k'.caller.FromReparent? then k'.chan == ProcChan(s.init)
                             else s.parent[e].Some? ==> k'.chan == ProcChan(s.parent[e].value)))
    && (k'.ExitLock? && k' != k ==> k.Wake? && k.caller.FromExit? && k.i == |s.state|)
    && (k'.ExitMark? && k' != k ==> k.ExitLock?)
  }

  predicate Rules2(s: State, step: Step, s': State, q: nat)
    requires WF(s) && q < |s.state|
  {
    WF(s') && |s'.state| == |s.state| && s'.init == s.init && ZLocal(s', q) && ScanRule(s, s', q)
    && ExitRule(s, step, s', q)
  }

  lemma SchedRules2(s: State, step: Step, s': State, q: nat)
    requires Inv(s) && NextSched(s, step, s') && q < |s.state| && ZLocal(s, q)
    ensures Rules2(s, step, s', q)
  {
    assert InvCpu(s, step.c);
    SchedLocal(s, step, s', q);
  }

  lemma SchedLocal(s: State, step: Step, s': State, q: nat)
    requires Inv(s) && NextSched(s, step, s') && q < |s.state| && ZLocal(s, q)
    ensures WF(s') && ZLocal(s', q)
  {
    assert InvCpu(s, step.c);
  }

  lemma SwitchLocal(s: State, step: Step, s': State, c: nat, p: nat, q: nat)
    requires Inv(s) && At(s, c, p) && NextSwitch(s, step, s', c, p) && q < |s.state| && ZLocal(s, q)
    ensures WF(s') && |s'.state| == |s.state| && s'.init == s.init && ZLocal(s', q)
  {
    if q != p {
      assert s'.pc[q] == s.pc[q] && s'.state[q] == s.state[q] && s'.chan[q] == s.chan[q] && s'.parent[q] == s.parent[q];
    } else {
      SwitchLocalOwn(s, step, s', c, p);
    }
  }

  lemma SwitchLocalOwn(s: State, step: Step, s': State, c: nat, p: nat)
    requires Inv(s) && At(s, c, p) && NextSwitch(s, step, s', c, p) && ZLocal(s, p)
    ensures WF(s') && |s'.state| == |s.state| && s'.init == s.init && ZLocal(s', p)
  {
    if step.Return? {
      ReturnLocal(s, s', c, p);
    } else if step.Preempt? || step.SleepOther? {
      LeaveLocal(s, step, s', c, p);
    } else {
      ParkLocal(s, step, s', c, p);
    }
  }

  lemma LeaveLocal(s: State, step: Step, s': State, c: nat, p: nat)
    requires Inv(s) && At(s, c, p) && NextSwitch(s, step, s', c, p) && (step.Preempt? || step.SleepOther?)
    requires ZLocal(s, p)
    ensures WF(s') && |s'.state| == |s.state| && s'.init == s.init && ZLocal(s', p)
  {
  }

  lemma ParkLocal(s: State, step: Step, s': State, c: nat, p: nat)
    requires Inv(s) && At(s, c, p) && NextSwitch(s, step, s', c, p)
    requires (step.YieldNow? || step.FallAsleep? || step.Swtch?)
    requires ZLocal(s, p)
    ensures WF(s') && |s'.state| == |s.state| && s'.init == s.init && ZLocal(s', p)
  {
    assert InvCpu(s, c);
  }

  lemma ReturnLocal(s: State, s': State, c: nat, p: nat)
    requires Inv(s) && At(s, c, p) && NextSwitch(s, Return(c), s', c, p) && ZLocal(s, p)
    ensures WF(s') && |s'.state| == |s.state| && s'.init == s.init && ZLocal(s', p)
  {
    assert InvCpu(s, c) && InvProc(s, p);
  }

  lemma SwitchRules2(s: State, step: Step, s': State, c: nat, p: nat, q: nat)
    requires Inv(s) && At(s, c, p) && NextSwitch(s, step, s', c, p) && !step.Rouse? && step.c == c && q < |s.state|
    requires ZLocal(s, q)
    ensures Rules2(s, step, s', q)
  {
    SwitchLocal(s, step, s', c, p, q);
    assert InvProc(s, p);
  }

  lemma WakeOneLocal(s: State, s': State, c: nat, p: nat, q: nat)
    requires Inv(s) && At(s, c, p) && NextWake(s, WakeOne(c), s', c, p) && q < |s.state| && ZLocal(s, q)
    ensures WF(s') && |s'.state| == |s.state| && s'.init == s.init && ZLocal(s', q)
  {
    assert InvCpu(s, c);
    if q != p {
      assert s'.pc[q] == s.pc[q] && s'.chan[q] == s.chan[q] && s'.parent[q] == s.parent[q];
    }
  }

  lemma WakeOneRules2(s: State, s': State, c: nat, p: nat, q: nat)
    requires Inv(s) && At(s, c, p) && NextWake(s, WakeOne(c), s', c, p) && q < |s.state| && ZLocal(s, q)
    ensures Rules2(s, WakeOne(c), s', q)
  {
    WakeOneLocal(s, s', c, p, q);
    assert InvCpu(s, c);
    assert q != p ==> s'.pc[q] == s.pc[q];
  }

  lemma WakeRules2(s: State, step: Step, s': State, c: nat, p: nat, q: nat)
    requires Inv(s) && At(s, c, p) && NextWake(s, step, s', c, p) && !step.Rouse? && step.c == c && q < |s.state|
    requires ZLocal(s, q)
    ensures Rules2(s, step, s', q)
  {
    if step.WakeOne? {
      WakeOneRules2(s, s', c, p, q);
    } else {
      assert InvCpu(s, c);
    }
  }

  lemma ForkLinkLocal(s: State, s': State, c: nat, p: nat, q: nat)
    requires Inv(s) && At(s, c, p) && NextFork(s, ForkSetParent(c), s', c, p) && q < |s.state| && ZLocal(s, q)
    ensures WF(s') && |s'.state| == |s.state| && s'.init == s.init && ZLocal(s', q)
  {
    assert InvCpu(s, c) && InvMake(s, p);
  }

  lemma ForkAllocLocal(s: State, s': State, c: nat, p: nat, np: nat, q: nat)
    requires Inv(s) && At(s, c, p) && NextFork(s, ForkAlloc(c, np), s', c, p) && q < |s.state| && ZLocal(s, q)
    ensures WF(s') && |s'.state| == |s.state| && s'.init == s.init && ZLocal(s', q)
  {
  }

  lemma ForkLocal(s: State, step: Step, s': State, c: nat, p: nat, q: nat)
    requires Inv(s) && At(s, c, p) && NextFork(s, step, s', c, p) && q < |s.state| && ZLocal(s, q)
    ensures WF(s') && |s'.state| == |s.state| && s'.init == s.init && ZLocal(s', q)
  {
    if step.ForkSetParent? {
      ForkLinkLocal(s, s', c, p, q);
    } else if step.ForkAlloc? {
      ForkAllocLocal(s, s', c, p, step.np, q);
    } else {
      ForkEndLocal(s, step, s', c, p, q);
    }
  }

  lemma ForkEndLocal(s: State, step: Step, s': State, c: nat, p: nat, q: nat)
    requires Inv(s) && At(s, c, p) && NextFork(s, step, s', c, p)
    requires (step.ForkFail? || step.ForkRelease? || step.ForkRunnable?)
    requires q < |s.state| && ZLocal(s, q)
    ensures WF(s') && |s'.state| == |s.state| && s'.init == s.init && ZLocal(s', q)
  {
    var np := ForkOff(s, step, s', c, p);
    if q != p && q != np {
      assert s'.pc[q] == s.pc[q] && s'.state[q] == s.state[q];
    }
  }

  lemma ForkRules2(s: State, step: Step, s': State, c: nat, p: nat, q: nat)
    requires Inv(s) && At(s, c, p) && NextFork(s, step, s', c, p) && !step.Rouse? && step.c == c && q < |s.state|
    requires ZLocal(s, q)
    ensures Rules2(s, step, s', q)
  {
    ForkLocal(s, step, s', c, p, q);
    if !step.ForkSetParent? {
      var np := ForkOff(s, step, s', c, p);
    }
  }

  lemma ExitRules2(s: State, step: Step, s': State, c: nat, p: nat, q: nat)
    requires Inv(s) && At(s, c, p) && NextExit(s, step, s', c, p) && !step.Rouse? && step.c == c && q < |s.state|
    requires ZLocal(s, q)
    ensures Rules2(s, step, s', q)
  {
    assert InvCpu(s, c);
  }

  lemma ReapLocal(s: State, s': State, c: nat, p: nat, q: nat)
    requires Inv(s) && At(s, c, p) && NextWait(s, WaitReap(c), s', c, p) && q < |s.state| && ZLocal(s, q)
    ensures WF(s') && |s'.state| == |s.state| && s'.init == s.init && ZLocal(s', q)
  {
  }

  lemma WaitOwnLocal(s: State, step: Step, s': State, c: nat, p: nat)
    requires Inv(s) && At(s, c, p) && NextWait(s, step, s', c, p) && !step.WaitReap? && ZLocal(s, p)
    ensures WF(s') && |s'.state| == |s.state| && s'.init == s.init && ZLocal(s', p)
  {
    assert InvCpu(s, c);
  }

  lemma WaitOtherLocal(s: State, step: Step, s': State, c: nat, p: nat, q: nat)
    requires Inv(s) && At(s, c, p) && NextWait(s, step, s', c, p) && !step.WaitReap? && q < |s.state| && q != p
    requires ZLocal(s, q)
    ensures WF(s') && |s'.state| == |s.state| && s'.init == s.init && ZLocal(s', q)
  {
    assert s'.pc[q] == s.pc[q];
  }

  lemma WaitLocal(s: State, step: Step, s': State, c: nat, p: nat, q: nat)
    requires Inv(s) && At(s, c, p) && NextWait(s, step, s', c, p) && q < |s.state| && ZLocal(s, q)
    ensures WF(s') && |s'.state| == |s.state| && s'.init == s.init && ZLocal(s', q)
  {
    if step.WaitReap? {
      ReapLocal(s, s', c, p, q);
    } else if q == p {
      WaitOwnLocal(s, step, s', c, p);
    } else {
      WaitOtherLocal(s, step, s', c, p, q);
    }
  }

  lemma WaitRules2(s: State, step: Step, s': State, c: nat, p: nat, q: nat)
    requires Inv(s) && At(s, c, p) && NextWait(s, step, s', c, p) && !step.Rouse? && step.c == c && q < |s.state|
    requires ZLocal(s, q)
    ensures Rules2(s, step, s', q)
  {
    WaitLocal(s, step, s', c, p, q);
  }

  lemma NextRules2(s: State, step: Step, s': State, q: nat)
    requires Inv(s) && Next(s, step, s') && q < |s.state| && ZLocal(s, q)
    ensures Rules2(s, step, s', q)
  {
    if step.Rouse? {
    } else if NextSched(s, step, s') {
      SchedRules2(s, step, s', q);
    } else {
      var c, p := step.c, s.cpus[step.c].p;
      if NextSwitch(s, step, s', c, p) {
        SwitchRules2(s, step, s', c, p, q);
      } else if NextWake(s, step, s', c, p) {
        WakeRules2(s, step, s', c, p, q);
      } else if NextFork(s, step, s', c, p) {
        ForkRules2(s, step, s', c, p, q);
      } else if NextExit(s, step, s', c, p) {
        ExitRules2(s, step, s', c, p, q);
      } else {
        WaitRules2(s, step, s', c, p, q);
      }
    }
  }

  /** Whoever stands at a place that needs wait_lock is on the CPU that has it. */
  lemma HolderUnique(s: State, p: nat, c: nat, e: nat)
    requires Inv(s) && p < |s.state| && WaitHeld(s.pc[p]) && At(s, c, e) && s.waitLock == Some(c)
    ensures p == e
  {
    assert InvProc(s, p) && InvCpu(s, c);
    if s.on[p].Some? {
      assert InvCpu(s, s.on[p].value);
    }
  }

  lemma ScanNext(s: State, step: Step, s': State, q: nat)
    requires Inv(s) && InvZ(s) && q < |s.state| && Rules2(s, step, s', q)
    requires forall x {:trigger Rules(s, step, s', x)} :: 0 <= x < |s.state| ==> Rules(s, step, s', x)
    ensures ZProc(s', q)
  {
    assert ZProc(s, q);
    if s'.pc[q].WaitScan? && s'.pc[q].i != 0 {
      forall x | 0 <= x < s'.pc[q].i && x < |s.state| && s'.parent[x] == Some(q) ensures s'.state[x] != Zombie {
        assert Rules(s, step, s', x);
        ScanOne(s, step, s', q, x);
      }
    }
  }

  lemma ScanOne(s: State, step: Step, s': State, q: nat, x: nat)
    requires Inv(s) && InvZ(s) && q < |s.state| && x < |s.state| && Rules2(s, step, s', q) && Rules(s, step, s', x)
    requires s'.pc[q].WaitScan? && s'.pc[q].i != 0 && x < s'.pc[q].i && s'.parent[x] == Some(q)
    ensures s'.state[x] != Zombie
  {
    assert ZProc(s, q);
    if s.pc[q].WaitScan? {
      ScanParent(s, step, s', q, x);
    }
    if s'.state[x] == Zombie && s.state[x] != Zombie {
      HolderUnique(s, q, step.c, x);
    }
  }

  /** While q holds wait_lock, no process becomes its child. */
  lemma ScanParent(s: State, step: Step, s': State, q: nat, x: nat)
    requires Inv(s) && q < |s.state| && x < |s.state| && WF(s') && |s'.state| == |s.state| && WaitHeld(s.pc[q])
    requires ParentRule(s, step, s', x) && s'.parent[x] == Some(q)
    ensures s.parent[x] == Some(q)
  {
    if s.parent[x] != Some(q) {
      HolderExists(s, q);
      HolderUnique(s, q, step.c, s.cpus[step.c].p);
    }
  }

  lemma HolderExists(s: State, p: nat)
    requires Inv(s) && p < |s.state| && WaitHeld(s.pc[p])
    ensures s.waitLock.Some?
  {
    assert InvProc(s, p);
    if s.on[p].Some? {
      assert InvCpu(s, s.on[p].value);
    }
  }

  lemma ExitNext(s: State, step: Step, s': State, e: nat)
    requires Inv(s) && InvZ(s) && e < |s.state| && Rules2(s, step, s', e)
    requires forall x {:trigger Rules(s, step, s', x)} :: 0 <= x < |s.state| ==> Rules(s, step, s', x)
    ensures ZExit(s', e)
  {
    var k, k' := s.pc[e], s'.pc[e];
    if (k'.Wake? && !k'.caller.Code?) || k'.ExitLock? || k'.ExitMark? {
      assert ZExit(s, e) && ZProc(s, e) && Rules(s, step, s', e);
      ParentKept(s, step, s', e);
      if k'.Wake? {
        if k'.chan.ProcChan? && k'.chan.p < k'.i && k'.chan.p < |s.state| {
          WokenStays(s, step, s', e, k'.chan.p);
        }
      } else if s'.parent[e].Some? && s'.parent[e].value < |s.state| {
        WokenStays(s, step, s', e, s'.parent[e].value);
      }
    }
  }

  /** An exiting process keeps its parent. */
  lemma ParentKept(s: State, step: Step, s': State, e: nat)
    requires Inv(s) && InvZ(s) && e < |s.state| && Rules(s, step, s', e) && Rules2(s, step, s', e)
    requires var k' := s'.pc[e]; (k'.Wake? && !k'.caller.Code?) || k'.ExitLock? || k'.ExitMark?
    ensures s'.parent[e].Some? ==> s'.parent[e] == s.parent[e]
  {
    assert ZProc(s, e) && InvProc(s, e);
    if s'.parent[e].Some? && s'.parent[e] != s.parent[e] {
      if s.waitLock.Some? {
        if WaitHeld(s.pc[e]) {
          HolderUnique(s, e, step.c, s.cpus[step.c].p);
        }
      } else if WaitHeld(s.pc[e]) {
        HolderExists(s, e);
      }
    }
  }

  /** Once wakeup has passed r, r does not commit again before wait_lock is released. */
  lemma WokenStays(s: State, step: Step, s': State, e: nat, r: nat)
    requires Inv(s) && InvZ(s) && e < |s.state| && r < |s.state| && Rules2(s, step, s', e) && Rules(s, step, s', r)
    requires var k' := s'.pc[e];
             || (k'.Wake? && !k'.caller.Code? && k'.chan == ProcChan(r) && r < k'.i)
             || ((k'.ExitLock? || k'.ExitMark?) && s'.parent[e] == Some(r) && s.parent[e] == Some(r))
    ensures !Committed(s', r)
  {
    assert ZExit(s, e) && InvProc(s, e);
    if s'.pc[e].Wake? && s'.pc[e] != s.pc[e] && s.pc[e].Wake? && s.pc[e].i == r {
      WakeOneReaches(s, s', step.c, e, r);
    } else if Committed(s', r) && !Committed(s, r) {
      HolderUnique(s, e, step.c, r);
    }
  }

  lemma NextZ(s: State, step: Step, s': State)
    requires Inv(s) && InvZ(s) && Next(s, step, s')
    ensures WF(s') && InvZ(s')
  {
    forall x | 0 <= x < |s.state| ensures Rules(s, step, s', x) && Rules2(s, step, s', x) {
      NextRules(s, step, s', x);
      assert ZProc(s, x);
      NextRules2(s, step, s', x);
    }
    assert Rules(s, step, s', s.init);
    forall q | 0 <= q < |s.state| ensures ZProc(s', q) { ScanNext(s, step, s', q); }
    forall e | 0 <= e < |s.state| ensures ZExit(s', e) { ExitNext(s, step, s', e); }
    forall q, x | 0 <= q < |s.state| && 0 <= x < |s.state| ensures Announced(s', q, x) {
      AnnouncedNext(s, step, s', q, x);
    }
  }

  lemma {:induction false} RunZ(run: seq<State>, steps: seq<Step>, i: nat)
    requires IsRun(run, steps) && i < |run|
    ensures Inv(run[i]) && InvZ(run[i])
  {
    RunInv(run, steps, i);
    if i == 0 {
      InitZ(run[0]);
    } else {
      RunZ(run, steps, i - 1);
      NextZ(run[i - 1], steps[i - 1], run[i]);
    }
  }

  /**
    In every interleaving of fork, exit, reparent, wait, sleep, wakeup, kill and the schedulers: whenever
    wait_lock is free, a process asleep in wait has no ZOMBIE child.
   */
  lemma NoStrandedZombie(run: seq<State>, steps: seq<Step>, i: nat, q: nat, x: nat)
    requires IsRun(run, steps) && i < |run| && run[i].waitLock == None
    requires q < |run[i].state| && x < |run[i].state|
    ensures var s := run[i];
            WF(s)
            && !(s.state[q] == Sleeping && s.chan[q] == ProcChan(q) && s.parent[x] == Some(q) && s.state[x] == Zombie)
  {
    RunZ(run, steps, i);
    assert Announced(run[i], q, x);
  }

  /** Only wait sleeps on a process address, and on the sleeper's own; init never exits and is never reaped. */
  lemma WaitChannels(run: seq<State>, steps: seq<Step>, i: nat, q: nat)
    requires IsRun(run, steps) && i < |run| && q < |run[i].state|
    ensures var s := run[i];
            && WF(s) && (s.state[q] == Sleeping && s.chan[q].ProcChan? ==> s.chan[q] == ProcChan(q))
            && s.state[s.init] != Zombie && s.state[s.init] != Unused
  {
    RunZ(run, steps, i);
    assert ZProc(run[i], q) && ZProc(run[i], run[i].init);
  }
}
