/**
 Shutting down: inShutdown is set, then all nodes are given back.  The check of
 inShutdown in the node loop is not under the lock, so one round can still slip through.
 */
module Shutdown {
  import opened Listings
  import opened Nodes
  import opened Balance
  import opened PodSpec
  import opened ControlPlane
  import opened Ledger
  import opened Convergence
  import T = Tails

  /** Rounds run in steps k up to n. */
  function RoundsBetween(steps: seq<Step>, k: nat, n: nat): nat
    requires k <= n <= |steps|
    decreases n
  {
    if n == k then 0 else RoundsBetween(steps, k, n - 1) + if steps[n - 1].RoundBody? then 1 else 0
  }

  lemma ShutdownIsForGood(s: Sys, step: Step, s': Sys)
    requires Next(s, step, s') && s.pod.inShutdown
    ensures s'.pod.inShutdown
    ensures s'.watching ==> s.watching && !step.RoundBody?
    ensures step.RoundBody? ==> s.watching
  {
  }

  /** Rounds that can still run once inShutdown is set. */
  function InFlight(s: Sys): nat {
    if s.watching then 1 else 0
  }

  lemma LateStep(run: seq<Sys>, steps: seq<Step>, i: nat)
    requires IsRun(run, steps) && i < |steps|
    ensures run[i].pod.inShutdown ==>
              run[i + 1].pod.inShutdown
              && InFlight(run[i + 1]) + (if steps[i].RoundBody? then 1 else 0) <= InFlight(run[i])
    ensures steps[i].ReleaseAll? ==> run[i].pod.inShutdown && !steps[i].RoundBody?
  {
    RunStep(run, steps, i);
    if run[i].pod.inShutdown {
      ShutdownIsForGood(run[i], steps[i], run[i + 1]);
    }
  }

  /**
   After releaseAllNodes at most one more round runs, and only if one had already passed
   the check when the nodes were released.
   */
  lemma {:induction false} AtMostOneLateRound(run: seq<Sys>, steps: seq<Step>, k: nat, n: nat)
    requires IsRun(run, steps) && k < n < |run| && steps[k].ReleaseAll?
    ensures run[n].pod.inShutdown
    ensures RoundsBetween(steps, k + 1, n) + InFlight(run[n]) <= InFlight(run[k])
    decreases n
  {
    LateStep(run, steps, n - 1);
    if n > k + 1 {
      AtMostOneLateRound(run, steps, k, n - 1);
    }
  }

  predicate Idle(p: Pod) {
    p.held.Names() == {} && p.tails.threads.Keys == {}
  }

  lemma ReleaseAllEmpties(s: Sys, step: Step, s': Sys)
    requires Next(s, step, s') && step.ReleaseAll? && s.pod.tails.threads.Keys <= s.pod.held.Names()
    ensures Idle(s'.pod)
  {
    T.StopEachEffect(s.pod.tails, NamesOf(step.rn));
  }

  lemma IdleStaysIdle(s: Sys, step: Step, s': Sys)
    requires Next(s, step, s') && Idle(s.pod) && !step.RoundBody?
    ensures Idle(s'.pod)
  {
    match step
    case Heartbeat(reply) =>
      DropAllShrinks(s.pod.held, Dropped(reply));
      SubOfKeepsShape(s.pod.held, s'.pod.held);
      T.StopEachEffect(s.pod.tails, Dropped(reply));
    case Configure(order, _, _) =>
      T.StartEachEffect(s.pod.tails, NamesOf(order));
    case ReleaseAll(rn) =>
      T.StopEachEffect(s.pod.tails, NamesOf(rn));
    case _ =>
  }

  lemma EmptiedStep(run: seq<Sys>, steps: seq<Step>, i: nat)
    requires IsRun(run, steps) && i < |steps| && steps[i].ReleaseAll?
    ensures Idle(run[i + 1].pod)
  {
    WatchersTrackHeld(run, steps, i);
    RunStep(run, steps, i);
    ReleaseAllEmpties(run[i], steps[i], run[i + 1]);
  }

  lemma IdleStep(run: seq<Sys>, steps: seq<Step>, i: nat)
    requires IsRun(run, steps) && i < |steps| && !steps[i].RoundBody? && Idle(run[i].pod)
    ensures Idle(run[i + 1].pod)
  {
    RunStep(run, steps, i);
    IdleStaysIdle(run[i], steps[i], run[i + 1]);
  }

  /** Until a late round runs, no node is held and no log is followed. */
  lemma {:induction false} EmptyUntilLateRound(run: seq<Sys>, steps: seq<Step>, k: nat, n: nat)
    requires IsRun(run, steps) && k < n < |run| && steps[k].ReleaseAll?
    requires RoundsBetween(steps, k + 1, n) == 0
    ensures Idle(run[n].pod)
    decreases n
  {
    if n == k + 1 {
      EmptiedStep(run, steps, k);
    } else {
      EmptyUntilLateRound(run, steps, k, n - 1);
      IdleStep(run, steps, n - 1);
    }
  }

  /** If no round was in flight at the release, the pod stays empty for good. */
  lemma EmptyForGood(run: seq<Sys>, steps: seq<Step>, k: nat, n: nat)
    requires IsRun(run, steps) && k < n < |run| && steps[k].ReleaseAll?
    requires !run[k].watching
    ensures Idle(run[n].pod)
  {
    AtMostOneLateRound(run, steps, k, n);
    EmptyUntilLateRound(run, steps, k, n);
  }

  /** Nothing that a pool of no nodes is compared with asks for a release. */
  predicate NoNegativeTotals(input: RoundInput) {
    input.totals.Some? ==> input.totals.value.rvr >= 0 && input.totals.value.mtn >= 0
  }

  lemma EmptyPodAsks(p: Pod, input: RoundInput)
    requires p.held.rvr == map[] && p.held.mtn == map[] && p.limits.Positive() && NoNegativeTotals(input)
    ensures RoundDeltas(p, input).rvr >= 1 && RoundDeltas(p, input).mtn >= 0 && Asks(p, input)
  {
    if input.numPods.Some? && input.totals.Some? {
      IdealIsPositive(input.totals.value.rvr, input.numPods.value);
      IdealIsPositive(input.totals.value.mtn, input.numPods.value);
    } else {
      FallbackIsSafe(input.numPods, input.totals, UpdatedTargets(p.targets, input.fileTargets), p.limits, 0, 0);
    }
  }

  lemma EmptyPodTakesAll(p: Pod, input: RoundInput, rs: seq<Removal>, p': Pod)
    requires Round(p, input, rs, p') && p.held.Names() == {} && p.limits.Positive() && NoNegativeTotals(input)
    ensures p'.held.Names() == Elems(NamesOf(Known(input.newNodes)))
  {
    assert p.held.rvr.Keys == {} && p.held.mtn.Keys == {};
    EmptyPodAsks(p, input);
    SameSizeNothingTaken(WithArrivals(p, input), rs);
    InsertAllNames(p.held, input.newNodes);
  }

  /**
   If one was, every node of known class that it is handed is held again after all nodes
   have been given back -- whichever round it is and whatever the services answer.
   */
  lemma LateRoundTakesAll(run: seq<Sys>, steps: seq<Step>, k: nat, n: nat)
    requires IsRun(run, steps) && k < n < |steps| && steps[k].ReleaseAll?
    requires RoundsBetween(steps, k + 1, n) == 0 && steps[n].RoundBody? && NoNegativeTotals(steps[n].input)
    ensures run[n + 1].pod.held.Names() == Elems(NamesOf(Known(steps[n].input.newNodes)))
    ensures RoundsBetween(steps, k + 1, n + 1) == 1 && !run[n + 1].watching
  {
    EmptyUntilLateRound(run, steps, k, n);
    AlwaysValid(run, steps, n);
    RunStep(run, steps, n);
    EmptyPodTakesAll(run[n].pod, steps[n].input, steps[n].rs, run[n + 1].pod);
  }
}
