/**
  The process tree: whoever has a parent has a living one. An exiting process hands its children to init before it
  becomes a ZOMBIE, all under wait_lock, so that every ZOMBIE has somebody who can reap it.
 */
module ProcTree {
  import opened Options
  import opened Proc
  import opened ProcSafety
  import opened ProcWait

  predicate Alive(st: PState) { st == Sleeping || st == Runnable || st == Running }

  /** The children below this number are no longer those of a thread in exit that stands at pc, of n processes. */
  function Handed(pc: PC, n: nat): nat {
    if pc.Reparent? then pc.i
    else if pc.Wake? && pc.caller.FromReparent? then pc.caller.next
    else if pc.ExitLock? || pc.ExitMark? || (pc.Wake? && pc.caller.FromExit?) then n
    else 0
  }

  // ----- the invariant -----

  predicate TreeProc(s: State, x: nat)
    requires WF(s) && x < |s.state|
  {
    && (s.parent[x].Some? ==> s.parent[x].value < |s.state| && Alive(s.state[s.parent[x].value]))
    && (x != s.init && (Alive(s.state[x]) || s.state[x] == Zombie) ==> s.parent[x].Some?)
    && (s.state[x] == Unused ==> s.parent[x] == None)
  }

  predicate TreeMake(s: State, p: nat)
    requires WF(s) && p < |s.state|
  {
    var k := Logical(s, p);
    && ((k.ForkHold? || k.ForkLink?) && k.np < |s.state| ==> s.parent[k.np] == None)
    && (k.ForkReady? && k.np < |s.state| ==> s.parent[k.np] == Some(p))
  }

  predicate TreeExit(s: State, e: nat, x: nat)
    requires WF(s) && e < |s.state| && x < |s.state|
  {
    x < Handed(s.pc[e], |s.state|) ==> s.parent[x] != Some(e)
  }

  predicate InvT(s: State)
    requires WF(s)
  {
    && (forall x {:trigger TreeProc(s, x)} :: 0 <= x < |s.state| ==> TreeProc(s, x))
    && (forall p {:trigger TreeMake(s, p)} :: 0 <= p < |s.state| ==> TreeMake(s, p))
    && (forall e, x {:trigger TreeExit(s, e, x)} :: 0 <= e < |s.state| && 0 <= x < |s.state| ==> TreeExit(s, e, x))
  }

  lemma InitT(s: State)
    requires Init(s)
    ensures InvT(s)
  {}

  // ----- steps that change no parent and nobody's being alive -----

  /** The stages of a process's life. */
  datatype Stage = Absent | Made | Living | Dead

  function StageOf(st: PState): Stage {
    match st
    case Unused => Absent
    case Used => Made
    case Zombie => Dead
    case _ => Living
  }

  predicate SameStage(s: State, s': State, x: nat)
    requires WF(s) && WF(s') && x < |s.state| && x < |s'.state|
  {
    && StageOf(s'.state[x]) == StageOf(s.state[x])
    && (Making(Logical(s', x)).Some? ==> Logical(s', x) == Logical(s, x))
    && Handed(s'.pc[x], |s.state|) <= Handed(s.pc[x], |s.state|)
  }

  predicate Quiet(s: State, s': State)
    requires WF(s)
  {
    && WF(s') && |s'.state| == |s.state| && s'.init == s.init && s'.parent == s.parent
    && forall x {:trigger SameStage(s, s', x)} :: 0 <= x < |s.state| ==> SameStage(s, s', x)
  }

  lemma QuietInv(s: State, s': State)
    requires WF(s) && InvT(s) && Quiet(s, s')
    ensures InvT(s')
  {
    forall x | 0 <= x < |s.state|
      ensures TreeProc(s', x)
    {
      assert TreeProc(s, x) && SameStage(s, s', x);
      assert s.parent[x].Some? ==> SameStage(s, s', s.parent[x].value);
    }
    forall p | 0 <= p < |s.state|
      ensures TreeMake(s', p)
    {
      assert TreeMake(s, p) && SameStage(s, s', p);
    }
    forall e, x | 0 <= e < |s.state| && 0 <= x < |s.state|
      ensures TreeExit(s', e, x)
    {
      assert TreeExit(s, e, x) && SameStage(s, s', e);
    }
  }

  lemma SchedQuiet(s: State, step: Step, s': State)
    requires Inv(s) && NextSched(s, step, s')
    ensures Quiet(s, s')
  {
    assert InvCpu(s, step.c);
    forall x | 0 <= x < |s.state|
      ensures SameStage(s, s', x)
    {}
  }

  lemma ReturnStage(s: State, s': State, c: nat, p: nat)
    requires Inv(s) && At(s, c, p) && NextSwitch(s, Return(c), s', c, p)
    ensures WF(s') && |s'.state| == |s.state| && SameStage(s, s', p)
  {
    assert InvCpu(s, c) && InvProc(s, p);
  }

  lemma SwitchStage(s: State, step: Step, s': State, c: nat, p: nat)
    requires Inv(s) && At(s, c, p) && NextSwitch(s, step, s', c, p)
    ensures WF(s') && |s'.state| == |s.state| && SameStage(s, s', p)
  {
    if step.Return? {
      ReturnStage(s, s', c, p);
    } else {
      assert InvCpu(s, c) && InvProc(s, p);
    }
  }

  lemma SwitchQuiet(s: State, step: Step, s': State, c: nat, p: nat)
    requires Inv(s) && At(s, c, p) && NextSwitch(s, step, s', c, p)
    ensures Quiet(s, s')
  {
    SwitchStage(s, step, s', c, p);
    forall x | 0 <= x < |s.state|
      ensures SameStage(s, s', x)
    {
      assert x != p ==> s'.pc[x] == s.pc[x] && s'.ret[x] == s.ret[x] && s'.state[x] == s.state[x];
    }
  }

  lemma WakeQuiet(s: State, step: Step, s': State, c: nat, p: nat)
    requires Inv(s) && At(s, c, p) && NextWake(s, step, s', c, p)
    ensures Quiet(s, s')
  {
    assert InvCpu(s, c);
    forall x | 0 <= x < |s.state|
      ensures SameStage(s, s', x)
    {}
  }

  lemma RouseQuiet(s: State, v: nat, s': State)
    requires Inv(s) && NextRouse(s, v, s')
    ensures Quiet(s, s')
  {
    forall x | 0 <= x < |s.state|
      ensures SameStage(s, s', x)
    {}
  }

  lemma WaitStage(s: State, step: Step, s': State, c: nat, p: nat)
    requires Inv(s) && At(s, c, p) && NextWait(s, step, s', c, p) && !step.WaitReap?
    ensures WF(s') && |s'.state| == |s.state| && SameStage(s, s', p)
  {
    assert InvCpu(s, c);
  }

  lemma WaitQuiet(s: State, step: Step, s': State, c: nat, p: nat)
    requires Inv(s) && At(s, c, p) && NextWait(s, step, s', c, p) && !step.WaitReap?
    ensures Quiet(s, s')
  {
    WaitStage(s, step, s', c, p);
    forall x | 0 <= x < |s.state|
      ensures SameStage(s, s', x)
    {
      assert x != p ==> s'.pc[x] == s.pc[x] && s'.ret[x] == s.ret[x] && s'.state[x] == s.state[x];
    }
  }

  lemma ExitQuiet(s: State, step: Step, s': State, c: nat, p: nat)
    requires Inv(s) && At(s, c, p) && NextExit(s, step, s', c, p) && !step.ReparentOne? && !step.ExitZombie?
    ensures Quiet(s, s')
  {
    assert InvCpu(s, c);
    forall x | 0 <= x < |s.state|
      ensures SameStage(s, s', x)
    {}
  }

  // ----- fork -----

  predicate KeptByFork(s: State, s': State, p: nat, np: nat, x: nat)
    requires WF(s) && WF(s') && |s'.state| == |s.state| && x < |s.state|
  {
    && (x != np ==> s'.state[x] == s.state[x] && s'.parent[x] == s.parent[x])
    && (x != np && x != p ==> s'.pc[x] == s.pc[x])
  }

  /** The maker p is alive and in no exit, before and after, and np is switched out. */
  predicate Maker(s: State, s': State, p: nat, np: nat)
    requires WF(s) && WF(s') && |s'.state| == |s.state| && p < |s.state| && np < |s.state|
  {
    && p != np && s'.ret == s.ret && s'.state[p] == s.state[p] && Alive(s.state[p])
    && Handed(s.pc[p], |s.state|) == 0 == Handed(s'.pc[p], |s.state|) && Handed(s'.pc[np], |s.state|) == 0
    && !Yielding(s.pc[p]) && !Yielding(s'.pc[p]) && s'.pc[np].Parked? && !s'.pc[np].k.AfterYield?
  }

  /** What a step of fork leaves alone: everything of other processes than the maker p and the made np. */
  predicate OnlyMakes(s: State, s': State, p: nat, np: nat)
    requires WF(s)
  {
    && WF(s') && |s'.state| == |s.state| && s'.init == s.init && p < |s.state| && np < |s.state| && Maker(s, s', p, np)
    && forall x {:trigger KeptByFork(s, s', p, np, x)} :: 0 <= x < |s.state| ==> KeptByFork(s, s', p, np, x)
  }

  /** What each step of fork does to the process being made. */
  predicate MakesStep(s: State, step: Step, s': State, p: nat, np: nat)
    requires WF(s) && WF(s') && |s'.state| == |s.state| && p < |s.state| && np < |s.state|
  {
    match step
    case ForkAlloc(_, _) =>
      s.state[np] == Unused && s'.state[np] == Used && s'.parent[np] == s.parent[np] && s'.pc[p] == ForkHold(np)
    case ForkFail(_) => s.state[np] == Used && s'.state[np] == Unused && s'.parent[np] == None && s'.pc[p] == Free
    case ForkRelease(_) =>
      && s.state[np] == Used && s.pc[p] == ForkHold(np) && s'.state[np] == Used && s'.parent[np] == s.parent[np]
      && s'.pc[p] == ForkLink(np)
    case ForkSetParent(_) =>
      s.state[np] == Used && s'.state[np] == Used && s'.parent[np] == Some(p) && s'.pc[p] == ForkReady(np)
    case ForkRunnable(_) =>
      && s.state[np] == Used && s.pc[p] == ForkReady(np) && s'.state[np] == Runnable
      && s'.parent[np] == s.parent[np] && s'.pc[p] == Free
    case _ => false
  }

  lemma ForkMakesStep(s: State, step: Step, s': State, c: nat, p: nat) returns (np: nat)
    requires Inv(s) && At(s, c, p) && NextFork(s, step, s', c, p)
    ensures WF(s') && |s'.state| == |s.state| && np < |s.state| && np != p && s.on[np] == None
    ensures MakesStep(s, step, s', p, np) && (step.ForkAlloc? || Making(s.pc[p]) == Some(np))
    ensures step.ForkAlloc? ==> np == step.np
  {
    assert InvCpu(s, c) && InvMake(s, p);
    if step.ForkSetParent? {
      np := s.pc[p].np;
    } else {
      np := ForkOff(s, step, s', c, p);
    }
  }

  lemma ForkMaker(s: State, step: Step, s': State, c: nat, p: nat, np: nat)
    requires Inv(s) && At(s, c, p) && NextFork(s, step, s', c, p) && WF(s') && |s'.state| == |s.state|
    requires np < |s.state| && np != p && s.on[np] == None && MakesStep(s, step, s', p, np)
    requires if step.ForkAlloc? then np == step.np else Making(s.pc[p]) == Some(np)
    ensures Maker(s, s', p, np) && s'.init == s.init
  {
    MakerAlive(s, c, p);
    MadeParked(s, np);
  }

  lemma MakerAlive(s: State, c: nat, p: nat)
    requires Inv(s) && At(s, c, p) && (s.pc[p] == Free || Making(s.pc[p]).Some?)
    ensures Alive(s.state[p])
  {
    assert InvCpu(s, c);
  }

  lemma MadeParked(s: State, np: nat)
    requires Inv(s) && np < |s.state| && s.on[np] == None && (s.state[np] == Used || s.state[np] == Unused)
    ensures s.pc[np].Parked? && !s.pc[np].k.AfterYield?
  {
    assert InvProc(s, np);
  }

  lemma ForkOnlyMakes(s: State, step: Step, s': State, c: nat, p: nat) returns (np: nat)
    requires Inv(s) && At(s, c, p) && NextFork(s, step, s', c, p)
    ensures WF(s') && |s'.state| == |s.state| && np < |s.state| && s.on[np] == None
    ensures OnlyMakes(s, s', p, np) && MakesStep(s, step, s', p, np)
    ensures step.ForkAlloc? || Making(s.pc[p]) == Some(np)
  {
    np := ForkMakesStep(s, step, s', c, p);
    ForkMaker(s, step, s', c, p, np);
    forall x | 0 <= x < |s.state|
      ensures KeptByFork(s, s', p, np, x)
    {}
  }

  lemma ForkProc(s: State, step: Step, s': State, p: nat, np: nat, x: nat)
    requires WF(s) && InvT(s) && OnlyMakes(s, s', p, np) && MakesStep(s, step, s', p, np) && x < |s.state|
    requires step.ForkRunnable? ==> s.parent[np].Some?
    ensures TreeProc(s', x)
  {
    assert TreeProc(s, x) && TreeProc(s, np) && KeptByFork(s, s', p, np, x);
    if s'.parent[x].Some? && s'.parent[x].value < |s.state| {
      assert KeptByFork(s, s', p, np, s'.parent[x].value);
    }
  }

  lemma ForkExit(s: State, s': State, p: nat, np: nat, e: nat, x: nat)
    requires WF(s) && InvT(s) && OnlyMakes(s, s', p, np) && e < |s.state| && x < |s.state|
    requires s'.parent[np] == s.parent[np] || s'.parent[np] == None || s'.parent[np] == Some(p)
    ensures TreeExit(s', e, x)
  {
    assert TreeExit(s, e, x) && KeptByFork(s, s', p, np, x) && KeptByFork(s, s', p, np, e);
  }

  /** Another thread in fork makes another process. */
  lemma ForkOther(s: State, s': State, p: nat, np: nat, q: nat)
    requires Inv(s) && InvT(s) && OnlyMakes(s, s', p, np) && q < |s.state| && q != p
    requires s.state[np] == Unused || Making(s.pc[p]) == Some(np)
    requires s.on[np] == None
    ensures TreeMake(s', q)
  {
    assert TreeMake(s, q) && InvMake(s, q) && InvMake(s, p) && InvProc(s, np) && KeptByFork(s, s', p, np, q);
    var mk := Making(Logical(s, q));
    if mk.Some? {
      assert KeptByFork(s, s', p, np, mk.value);
    }
  }

  lemma ForkInv(s: State, step: Step, s': State, c: nat, p: nat)
    requires Inv(s) && InvT(s) && At(s, c, p) && NextFork(s, step, s', c, p)
    ensures WF(s') && InvT(s')
  {
    var np := ForkOnlyMakes(s, step, s', c, p);
    assert TreeMake(s, p) && TreeProc(s, np);
    forall x | 0 <= x < |s.state|
      ensures TreeProc(s', x)
    {
      ForkProc(s, step, s', p, np, x);
    }
    forall q | 0 <= q < |s.state|
      ensures TreeMake(s', q)
    {
      if q != p {
        ForkOther(s, s', p, np, q);
      }
    }
    forall e, x | 0 <= e < |s.state| && 0 <= x < |s.state|
      ensures TreeExit(s', e, x)
    {
      ForkExit(s, s', p, np, e, x);
    }
  }

  // ----- exit -----

  /** One turn of reparent: the child at i, if it is one, is init's. */
  lemma ReparentInv(s: State, s': State, c: nat, p: nat)
    requires Inv(s) && InvZ(s) && InvT(s) && At(s, c, p) && NextExit(s, ReparentOne(c), s', c, p)
    ensures WF(s') && InvT(s')
  {
    var i := s.pc[p].i;
    assert InvCpu(s, c) && ZProc(s, p) && ZProc(s, s.init);
    forall x | 0 <= x < |s.state|
      ensures TreeProc(s', x)
    {
      assert TreeProc(s, x);
    }
    forall q | 0 <= q < |s.state|
      ensures TreeMake(s', q)
    {
      ReparentMake(s, s', c, p, q);
    }
    forall e, x | 0 <= e < |s.state| && 0 <= x < |s.state|
      ensures TreeExit(s', e, x)
    {
      ReparentExit(s, s', c, p, e, x);
    }
  }

  lemma ReparentMake(s: State, s': State, c: nat, p: nat, q: nat)
    requires Inv(s) && InvT(s) && At(s, c, p) && NextExit(s, ReparentOne(c), s', c, p) && q < |s.state|
    ensures WF(s') && TreeMake(s', q)
  {
    assert InvCpu(s, c) && TreeMake(s, q);
  }

  lemma ReparentExit(s: State, s': State, c: nat, p: nat, e: nat, x: nat)
    requires Inv(s) && InvZ(s) && InvT(s) && At(s, c, p) && NextExit(s, ReparentOne(c), s', c, p)
    requires e < |s.state| && x < |s.state|
    ensures WF(s') && TreeExit(s', e, x)
  {
    assert TreeExit(s, e, x) && ZProc(s, e) && ZProc(s, p);
  }

  /** By then it has no children left. */
  lemma ZombieInv(s: State, s': State, c: nat, p: nat)
    requires Inv(s) && InvT(s) && At(s, c, p) && NextExit(s, ExitZombie(c), s', c, p)
    ensures WF(s') && InvT(s')
  {
    assert InvCpu(s, c);
    forall x | 0 <= x < |s.state|
      ensures TreeProc(s', x)
    {
      assert TreeProc(s, x) && TreeExit(s, p, x);
    }
    forall q | 0 <= q < |s.state|
      ensures TreeMake(s', q)
    {
      assert TreeMake(s, q);
    }
    forall e, x | 0 <= e < |s.state| && 0 <= x < |s.state|
      ensures TreeExit(s', e, x)
    {
      assert TreeExit(s, e, x);
    }
  }

  // ----- wait -----

  lemma ReapInv(s: State, s': State, c: nat, p: nat)
    requires Inv(s) && InvT(s) && At(s, c, p) && NextWait(s, WaitReap(c), s', c, p)
    ensures WF(s') && InvT(s')
  {
    var i := s.pc[p].i;
    assert InvCpu(s, c) && TreeProc(s, i);
    forall x | 0 <= x < |s.state|
      ensures TreeProc(s', x)
    {
      assert TreeProc(s, x);
    }
    forall q | 0 <= q < |s.state|
      ensures TreeMake(s', q)
    {
      assert TreeMake(s, q) && InvMake(s, q);
    }
    forall e, x | 0 <= e < |s.state| && 0 <= x < |s.state|
      ensures TreeExit(s', e, x)
    {
      assert TreeExit(s, e, x);
    }
  }

  // ----- runs -----

  lemma NextT(s: State, step: Step, s': State)
    requires Inv(s) && InvZ(s) && InvT(s) && Next(s, step, s')
    ensures WF(s') && InvT(s')
  {
    if step.Rouse? {
      RouseQuiet(s, step.v, s');
      QuietInv(s, s');
    } else if NextSched(s, step, s') {
      SchedQuiet(s, step, s');
      QuietInv(s, s');
    } else {
      ProcNextT(s, step, s', step.c, s.cpus[step.c].p);
    }
  }

  lemma ProcNextT(s: State, step: Step, s': State, c: nat, p: nat)
    requires Inv(s) && InvZ(s) && InvT(s) && !step.Rouse? && step.c == c && At(s, c, p) && ProcStep(s, step, s', c, p)
    ensures WF(s') && InvT(s')
  {
    if NextSwitch(s, step, s', c, p) {
      SwitchQuiet(s, step, s', c, p);
      QuietInv(s, s');
    } else if NextWake(s, step, s', c, p) {
      WakeQuiet(s, step, s', c, p);
      QuietInv(s, s');
    } else if NextFork(s, step, s', c, p) {
      ForkInv(s, step, s', c, p);
    } else if NextExit(s, step, s', c, p) {
      ExitNextT(s, step, s', c, p);
    } else if step.WaitReap? {
      ReapInv(s, s', c, p);
    } else {
      WaitQuiet(s, step, s', c, p);
      QuietInv(s, s');
    }
  }

  lemma ExitNextT(s: State, step: Step, s': State, c: nat, p: nat)
    requires Inv(s) && InvZ(s) && InvT(s) && !step.Rouse? && step.c == c && At(s, c, p) && NextExit(s, step, s', c, p)
    ensures WF(s') && InvT(s')
  {
    if step.ReparentOne? {
      ReparentInv(s, s', c, p);
    } else if step.ExitZombie? {
      ZombieInv(s, s', c, p);
    } else {
      ExitQuiet(s, step, s', c, p);
      QuietInv(s, s');
    }
  }

  lemma {:induction false} RunT(run: seq<State>, steps: seq<Step>, i: nat)
    requires IsRun(run, steps) && i < |run|
    ensures Inv(run[i]) && InvZ(run[i]) && InvT(run[i])
  {
    RunZ(run, steps, i);
    if i == 0 {
      InitT(run[0]);
    } else {
      RunT(run, steps, i - 1);
      NextT(run[i - 1], steps[i - 1], run[i]);
    }
  }

  /**
    In every state of every run: whoever is a parent is alive, and every process that runs or is a ZOMBIE, other than
    init, has a parent. So no ZOMBIE is left to nobody.
   */
  lemma NoOrphans(run: seq<State>, steps: seq<Step>, i: nat, x: nat)
    requires IsRun(run, steps) && i < |run| && x < |run[i].state|
    ensures var s := run[i];
            && WF(s)
            && (forall q :: s.parent[x] == Some(q) ==> q < |s.state| && Alive(s.state[q]))
            && (x != s.init && (Alive(s.state[x]) || s.state[x] == Zombie) ==> s.parent[x].Some?)
            && (s.state[x] == Zombie ==> exists q :: 0 <= q < |s.state| && s.parent[x] == Some(q) && Alive(s.state[q]))
  {
    RunT(run, steps, i);
    assert TreeProc(run[i], x) && ZProc(run[i], x);
    if run[i].state[x] == Zombie {
      var q := run[i].parent[x].value;
      assert run[i].parent[x] == Some(q);
    }
  }

  // ----- what becomes of the children -----

  /** The thread is in exit and holds wait_lock. */
  predicate InExit(pc: PC) {
    pc.Reparent? || pc.ExitLock? || pc.ExitMark? || pc.ExitUnlock? || (pc.Wake? && !pc.caller.Code?)
  }

  lemma ExitHolder(s: State, p: nat)
    requires Inv(s) && p < |s.state| && InExit(s.pc[p])
    ensures s.waitLock.Some? && At(s, s.waitLock.value, p)
  {
    assert InvProc(s, p);
    assert InvCpu(s, s.on[p].value);
  }

  lemma QuietParents(s: State, step: Step, s': State, c: nat, p: nat)
    requires Inv(s) && At(s, c, p) && (NextSwitch(s, step, s', c, p) || NextWake(s, step, s', c, p))
    ensures s'.parent == s.parent
  {}

  lemma ForkParents(s: State, step: Step, s': State, c: nat, p: nat, x: nat)
    requires Inv(s) && InvT(s) && At(s, c, p) && NextFork(s, step, s', c, p) && x < |s.state| && s.parent[x].Some?
    ensures WF(s') && x < |s'.state| && s'.parent[x].Some?
  {
    assert InvCpu(s, c) && TreeMake(s, p);
  }

  lemma ExitParents(s: State, step: Step, s': State, c: nat, p: nat, x: nat)
    requires Inv(s) && At(s, c, p) && NextExit(s, step, s', c, p) && x < |s.state| && s.parent[x].Some?
    ensures x < |s'.parent| && s'.parent[x].Some?
  {}

  lemma WaitParents(s: State, step: Step, s': State, c: nat, p: nat)
    requires Inv(s) && At(s, c, p) && NextWait(s, step, s', c, p)
    ensures s'.parent == s.parent || (s.pc[p].WaitScan? && s.waitLock == Some(c))
  {
    assert InvCpu(s, c);
  }

  /** A parent is lost only to a reaper, who holds wait_lock. */
  lemma ParentLost(s: State, step: Step, s': State, x: nat)
    requires Inv(s) && InvT(s) && Next(s, step, s') && x < |s.state| && x < |s'.parent|
    requires s.parent[x].Some? && s'.parent[x] == None
    ensures s.waitLock.Some? && s.waitLock.value < |s.cpus| && s.cpus[s.waitLock.value].OnProc?
    ensures s.cpus[s.waitLock.value].p < |s.state| && s.pc[s.cpus[s.waitLock.value].p].WaitScan?
  {
    var c, p := step.c, s.cpus[step.c].p;
    if NextSwitch(s, step, s', c, p) || NextWake(s, step, s', c, p) {
      QuietParents(s, step, s', c, p);
    } else if NextFork(s, step, s', c, p) {
      ForkParents(s, step, s', c, p, x);
    } else if NextExit(s, step, s', c, p) {
      ExitParents(s, step, s', c, p, x);
    } else {
      WaitParents(s, step, s', c, p);
    }
  }

  predicate Exits(s: State, p: nat) { p < |s.pc| && InExit(s.pc[p]) }

  predicate ItsOrInits(s: State, p: nat, x: nat) {
    WF(s) && x < |s.state| && (s.parent[x] == Some(p) || s.parent[x] == Some(s.init))
  }

  lemma ExitKeepsParent(s: State, step: Step, s': State, p: nat, x: nat)
    requires Inv(s) && InvT(s) && Next(s, step, s') && Exits(s, p) && ItsOrInits(s, p, x)
    ensures ItsOrInits(s', p, x) && |s'.state| == |s.state| && s'.init == s.init
  {
    ExitHolder(s, p);
    NextRules(s, step, s', x);
    if s'.parent[x] == None {
      ParentLost(s, step, s', x);
    }
  }

  lemma ExitRunKeeps(run: seq<State>, steps: seq<Step>, k: nat, p: nat, x: nat)
    requires IsRun(run, steps) && k < |steps| && Exits(run[k], p) && ItsOrInits(run[k], p, x)
    ensures ItsOrInits(run[k + 1], p, x)
  {
    RunT(run, steps, k);
    ExitKeepsParent(run[k], steps[k], run[k + 1], p, x);
  }

  /** What step k of the run means for the parent of x. */
  ghost predicate HandsOn(run: seq<State>, k: nat, p: nat, x: nat) {
    k + 1 < |run| && (ItsOrInits(run[k], p, x) ==> ItsOrInits(run[k + 1], p, x))
  }

  lemma {:induction false} HandedOn(run: seq<State>, i: nat, j: nat, p: nat, x: nat)
    requires i <= j < |run| && ItsOrInits(run[i], p, x)
    requires forall k {:trigger HandsOn(run, k, p, x)} :: i <= k < j ==> HandsOn(run, k, p, x)
    ensures ItsOrInits(run[j], p, x)
  {
    if i < j {
      HandedOn(run, i, j - 1, p, x);
      assert HandsOn(run, j - 1, p, x);
    }
  }

  lemma ExitKeepsParents(run: seq<State>, steps: seq<Step>, i: nat, j: nat, p: nat, x: nat)
    requires IsRun(run, steps) && i <= j < |run| && ItsOrInits(run[i], p, x)
    requires forall k {:trigger Exits(run[k], p)} :: i <= k <= j ==> Exits(run[k], p)
    ensures ItsOrInits(run[j], p, x)
  {
    forall k: nat {:trigger HandsOn(run, k, p, x)} | i <= k < j
      ensures HandsOn(run, k, p, x)
    {
      assert Exits(run[k], p);
      if ItsOrInits(run[k], p, x) {
        ExitRunKeeps(run, steps, k, p, x);
      }
    }
    HandedOn(run, i, j, p, x);
  }

  /**
    From the moment an exit takes wait_lock to the moment it releases it: a child of the exiting process becomes a child
    of init.
   */
  lemma ChildrenToInit(run: seq<State>, steps: seq<Step>, i: nat, j: nat, p: nat, x: nat)
    requires IsRun(run, steps) && i <= j < |run| && WF(run[i]) && x < |run[i].state| && run[i].parent[x] == Some(p)
    requires forall k {:trigger Exits(run[k], p)} :: i <= k <= j ==> Exits(run[k], p)
    requires p < |run[j].pc| && run[j].pc[p] == ExitUnlock
    ensures WF(run[j]) && x < |run[j].state| && run[j].parent[x] == Some(run[j].init)
  {
    ExitKeepsParents(run, steps, i, j, p, x);
    RunT(run, steps, j);
    ExitHolder(run[j], p);
    assert InvCpu(run[j], run[j].waitLock.value) && TreeProc(run[j], x);
  }
}
