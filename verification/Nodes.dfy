/**
 Backups and prunes on any number of nodes: the handover with each run inside the lock. The two protocols run side by side;
 a step of one that is no step of the other leaves the other as it is.
 */
module Nodes {
  import opened Bytes
  import opened Store
  import opened Repos
  import opened Consumer
  import opened Backup
  import Handover
  import Lock

  type Node = nat

  datatype State = State(work: Handover.State, lock: Lock.State)

  /**
   `Enter`: a backup tries the lock and begins if it gets it; `Abort`: an exception ends it, and the lock is released on the
   way out; `Die`: its process is gone, and the lock stays until its time is over. A prune enters, leaves, aborts or dies
   without a run.
   */
  datatype Step =
    | Enter(node: Node, backup: bool)
    | Work(step: Handover.Step)
    | Leave(node: Node)
    | Abort(node: Node)
    | Die(node: Node)
    | Elapse(seconds: nat)

  const NOTHING: Handover.Step := Handover.Flush([])

  ghost predicate Enabled(cfg: Config, s: State, step: Step) {
    match step
    case Enter(node, _) => node !in s.lock.inside
    case Work(step) => !step.Begin? && !step.Crash? && Handover.Enabled(cfg, s.work, step)
    case Leave(node) => node in s.lock.inside && node !in s.work.runs
    case Abort(node) => node in s.lock.inside
    case Die(node) => node in s.lock.inside
    case Elapse(_) => true
  }

  function LockStep(step: Step): Lock.Step {
    match step
    case Enter(node, _) => Lock.Acquire(node)
    case Work(_) => Lock.Elapse(0)
    case Leave(node) => Lock.Release(node)
    case Abort(node) => Lock.Release(node)
    case Die(node) => Lock.Die(node)
    case Elapse(seconds) => Lock.Elapse(seconds)
  }

  function WorkStep(s: State, step: Step): Handover.Step {
    match step
    case Enter(node, backup) => if backup && !Lock.Held(s.lock) then Handover.Begin(node) else NOTHING
    case Work(step) => step
    case Leave(_) => NOTHING
    case Abort(node) => if node in s.work.runs then Handover.Crash(node) else NOTHING
    case Die(node) => if node in s.work.runs then Handover.Crash(node) else NOTHING
    case Elapse(_) => NOTHING
  }

  /** Every run is inside the lock. */
  ghost predicate Inside(s: State) {
    s.work.runs.Keys <= s.lock.inside.Keys
  }

  ghost function Next(cfg: Config, s: State, step: Step): State
    requires Enabled(cfg, s, step) && Inside(s)
  {
    State(Handover.Next(cfg, s.work, WorkStep(s, step)), Lock.Next(s.lock, LockStep(step)))
  }

  lemma StepStaysInside(cfg: Config, s: State, step: Step)
    requires Enabled(cfg, s, step) && Inside(s)
    ensures Handover.Enabled(cfg, s.work, WorkStep(s, step)) && Lock.Enabled(s.lock, LockStep(step))
    ensures Inside(Next(cfg, s, step))
  {}

  ghost predicate IsRun(cfg: Config, states: seq<State>, steps: seq<Step>) {
    && |states| == |steps| + 1
    && states[0].work.runs == map[] && states[0].lock.inside == map[]
    && forall n :: 0 <= n < |steps| && Inside(states[n]) ==>
         Enabled(cfg, states[n], steps[n]) && states[n + 1] == Next(cfg, states[n], steps[n])
  }

  lemma {:induction false} RunStaysInside(cfg: Config, states: seq<State>, steps: seq<Step>, n: nat)
    requires IsRun(cfg, states, steps) && n < |states|
    ensures Inside(states[n])
  {
    if n > 0 {
      RunStaysInside(cfg, states, steps, n - 1);
      StepStaysInside(cfg, states[n - 1], steps[n - 1]);
    }
  }

  // ----- The two protocols apart -----

  function Works(states: seq<State>): (works: seq<Handover.State>)
    ensures |works| == |states|
  {
    seq(|states|, n requires 0 <= n < |states| => states[n].work)
  }

  function WorkSteps(states: seq<State>, steps: seq<Step>): (works: seq<Handover.Step>)
    requires |steps| <= |states|
    ensures |works| == |steps|
  {
    seq(|steps|, n requires 0 <= n < |steps| => WorkStep(states[n], steps[n]))
  }

  function Locks(states: seq<State>): (locks: seq<Lock.State>)
    ensures |locks| == |states|
  {
    seq(|states|, n requires 0 <= n < |states| => states[n].lock)
  }

  function LockSteps(steps: seq<Step>): (locks: seq<Lock.Step>)
    ensures |locks| == |steps|
  {
    seq(|steps|, n requires 0 <= n < |steps| => LockStep(steps[n]))
  }

  lemma RunsApart(cfg: Config, states: seq<State>, steps: seq<Step>)
    requires IsRun(cfg, states, steps)
    ensures Handover.IsRun(cfg, Works(states), WorkSteps(states, steps))
    ensures Lock.IsRun(Locks(states), LockSteps(steps))
  {
    forall n: nat | n < |steps|
      ensures Inside(states[n]) && Handover.Enabled(cfg, states[n].work, WorkStep(states[n], steps[n]))
      ensures Lock.Enabled(states[n].lock, LockStep(steps[n])) && states[n + 1] == Next(cfg, states[n], steps[n])
    {
      RunStaysInside(cfg, states, steps, n);
      StepStaysInside(cfg, states[n], steps[n]);
    }
  }

  // ----- Together -----

  /** Nobody tries the lock while a node inside has outlived it. */
  ghost predicate Guarded(states: seq<State>, steps: seq<Step>)
    requires |states| == |steps| + 1
  {
    forall k :: 0 <= k < |steps| && steps[k].Enter? ==> Lock.Timely(states[k].lock)
  }

  lemma GuardedIsExclusive(cfg: Config, states: seq<State>, steps: seq<Step>, n: nat)
    requires IsRun(cfg, states, steps) && Guarded(states, steps) && n < |states|
    ensures Handover.Exclusive(states[n].work)
  {
    RunsApart(cfg, states, steps);
    RunStaysInside(cfg, states, steps, n);
    assert Lock.Guarded(Locks(states), LockSteps(steps), n) by {
      forall k | 0 <= k < n && LockSteps(steps)[k].Acquire? ensures Lock.Timely(Locks(states)[k]) {
        assert steps[k].Enter?;
      }
    }
    Lock.GuardedKeepsInv(Locks(states), LockSteps(steps), n);
  }

  /**
   With the lock, on any number of nodes: as long as nobody tries it while a node has outlived it, every marking of a path
   without a line break is pending, set aside, or settled since, whatever flushes, failures and deaths there are.
   */
  lemma LockedMarkingsAccountedFor(cfg: Config, states: seq<State>, steps: seq<Step>, p: Path, i: nat, n: nat)
    requires IsRun(cfg, states, steps) && Guarded(states, steps) && i <= n < |states|
    requires p in states[i].work.pending && NEWLINE !in p
    ensures Handover.IsRun(cfg, Works(states), WorkSteps(states, steps))
    ensures p in states[n].work.pending || p in states[n].work.processing
         || Handover.SettledWithin(cfg, Works(states), WorkSteps(states, steps), p, i, n)
  {
    RunsApart(cfg, states, steps);
    forall k: nat | k <= n ensures Handover.Exclusive(Works(states)[k]) {
      GuardedIsExclusive(cfg, states, steps, k);
    }
    Handover.MarkingsAccountedFor(cfg, Works(states), WorkSteps(states, steps), p, i, n);
  }
}
