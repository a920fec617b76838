/**
  What wakeup is for: nobody sleeps through it. Whoever is asleep on the channel when a wakeup begins has been awake at
  some moment before it ends, whatever else runs meanwhile.
 */
module ProcWake {
  import opened Options
  import opened Proc
  import opened ProcSafety

  predicate Asleep(s: State, q: nat, chan: Chan) {
    q < |s.state| && q < |s.chan| && s.state[q] == Sleeping && s.chan[q] == chan
  }

  /** The thread of p is in a wakeup of chan that has looked at the first i processes; it may have yielded there. */
  predicate WakesAt(s: State, p: nat, chan: Chan, i: nat) {
    WF(s) && p < |s.state| && Logical(s, p).Wake? && Logical(s, p).chan == chan && Logical(s, p).i == i
  }

  predicate Wakes(s: State, p: nat, chan: Chan) { WF(s) && p < |s.state| && WakesAt(s, p, chan, LookedAt(s, p)) }

  function LookedAt(s: State, p: nat): nat
    requires WF(s) && p < |s.state|
  {
    if Logical(s, p).Wake? then Logical(s, p).i else 0
  }

  /** A turn of wakeup at q's place takes q out of its sleep. */
  lemma TurnWakes(s: State, s': State, c: nat, p: nat, q: nat, chan: Chan)
    requires Inv(s) && At(s, c, p) && NextWake(s, WakeOne(c), s', c, p) && q != p
    requires s.pc[p].Wake? && s.pc[p].chan == chan && s.pc[p].i == q
    ensures !Asleep(s', q, chan)
  {}

  lemma SchedStill(s: State, step: Step, s': State, p: nat, chan: Chan)
    requires Inv(s) && NextSched(s, step, s') && Wakes(s, p, chan) && Wakes(s', p, chan)
    ensures LookedAt(s', p) == LookedAt(s, p)
  {
    assert InvCpu(s, step.c);
  }

  lemma SwitchStill(s: State, step: Step, s': State, c: nat, q: nat, p: nat, chan: Chan)
    requires Inv(s) && At(s, c, q) && NextSwitch(s, step, s', c, q) && Wakes(s, p, chan) && Wakes(s', p, chan)
    ensures LookedAt(s', p) == LookedAt(s, p)
  {
    assert InvProc(s, q);
  }

  lemma OtherStill(s: State, step: Step, s': State, c: nat, q: nat, p: nat, chan: Chan)
    requires Inv(s) && At(s, c, q) && Wakes(s, p, chan) && Wakes(s', p, chan)
    requires NextFork(s, step, s', c, q) || NextExit(s, step, s', c, q) || NextWait(s, step, s', c, q)
    ensures LookedAt(s', p) == LookedAt(s, p)
  {
    assert InvCpu(s, c);
  }

  /** A wakeup goes on only by its own turns. */
  lemma WakeTurns(s: State, step: Step, s': State, c: nat, p: nat, chan: Chan)
    requires Inv(s) && At(s, c, p) && NextWake(s, step, s', c, p) && !step.Rouse? && step.c == c
    requires Wakes(s, p, chan) && Wakes(s', p, chan)
    ensures step == WakeOne(c) && s.pc[p].Wake? && s.pc[p].chan == chan && LookedAt(s, p) == s.pc[p].i
    ensures LookedAt(s', p) == LookedAt(s, p) + 1
  {}

  /** While q sleeps on, the wakeup has not got past it. */
  lemma StillBefore(s: State, step: Step, s': State, p: nat, q: nat, chan: Chan)
    requires Inv(s) && Next(s, step, s') && Wakes(s, p, chan) && Wakes(s', p, chan) && q != p
    requires Asleep(s', q, chan) && LookedAt(s, p) <= q
    ensures LookedAt(s', p) <= q
  {
    if !step.Rouse? && !NextSched(s, step, s') {
      var c, r := step.c, s.cpus[step.c].p;
      if NextSwitch(s, step, s', c, r) {
        SwitchStill(s, step, s', c, r, p, chan);
      } else if !NextWake(s, step, s', c, r) {
        OtherStill(s, step, s', c, r, p, chan);
      } else if r == p {
        WakeTurns(s, step, s', c, p, chan);
        if LookedAt(s, p) == q {
          TurnWakes(s, s', c, p, q, chan);
        }
      }
    } else if !step.Rouse? {
      SchedStill(s, step, s', p, chan);
    }
  }

  lemma RunStillBefore(run: seq<State>, steps: seq<Step>, k: nat, p: nat, q: nat, chan: Chan)
    requires IsRun(run, steps) && k < |steps| && Wakes(run[k], p, chan) && Wakes(run[k + 1], p, chan) && q != p
    requires Asleep(run[k + 1], q, chan) && LookedAt(run[k], p) <= q
    ensures LookedAt(run[k + 1], p) <= q
  {
    RunInv(run, steps, k);
    StillBefore(run[k], steps[k], run[k + 1], p, q, chan);
  }

  ghost predicate NotPast(s: State, p: nat, q: nat) { WF(s) && p < |s.state| && LookedAt(s, p) <= q }

  ghost predicate Carries(run: seq<State>, k: nat, p: nat, q: nat) {
    k + 1 < |run| && NotPast(run[k], p, q) ==> NotPast(run[k + 1], p, q)
  }

  lemma {:induction false} AsleepAhead(run: seq<State>, i: nat, j: nat, p: nat, q: nat)
    requires i <= j < |run| && NotPast(run[i], p, q)
    requires forall k {:trigger Carries(run, k, p, q)} :: i <= k < j ==> Carries(run, k, p, q)
    ensures NotPast(run[j], p, q)
  {
    if i < j {
      AsleepAhead(run, i, j - 1, p, q);
      assert Carries(run, j - 1, p, q);
    }
  }

  /**
    A process asleep on the channel when a wakeup of it begins is not asleep there all the time until the wakeup has
    looked at everybody.
   */
  lemma WakeupReaches(run: seq<State>, steps: seq<Step>, i: nat, j: nat, p: nat, q: nat, chan: Chan)
    requires IsRun(run, steps) && i <= j < |run| && q != p && q < |run[j].state|
    requires WakesAt(run[i], p, chan, 0) && WakesAt(run[j], p, chan, |run[j].state|)
    requires forall k {:trigger Wakes(run[k], p, chan)} :: i <= k <= j ==> Wakes(run[k], p, chan)
    ensures exists k :: i <= k <= j && !Asleep(run[k], q, chan)
  {
    if forall k {:trigger Asleep(run[k], q, chan)} :: i <= k <= j ==> Asleep(run[k], q, chan) {
      forall k | i <= k < j
        ensures Carries(run, k, p, q)
      {
        assert Wakes(run[k], p, chan) && Wakes(run[k + 1], p, chan) && Asleep(run[k + 1], q, chan);
        if NotPast(run[k], p, q) {
          RunStillBefore(run, steps, k, p, q, chan);
        }
      }
      AsleepAhead(run, i, j, p, q);
    }
  }
}
