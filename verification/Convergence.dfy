/**
 The balancing controller over runs: with steady targets, answering services and no
 nodes taken away, the counts of a pod settle as Balance predicts, whatever the other
 threads do in between.
 */
module Convergence {
  import opened Wrappers
  import opened Nodes
  import opened Balance
  import opened PodSpec
  import opened ControlPlane

  /** Both services answer, and this is the pod's share of Mountain and of River nodes. */
  predicate Answered(input: RoundInput, idealMtn: int, idealRvr: int) {
    && input.numPods.Some? && input.totals.Some?
    && Ideal(input.totals.value.mtn, input.numPods.value) == idealMtn
    && Ideal(input.totals.value.rvr, input.numPods.value) == idealRvr
  }

  /** With both services answering, the deltas are those of the band, with one river node forced. */
  lemma DeltasFromBand(p: Pod, input: RoundInput, idealMtn: int, idealRvr: int)
    requires Answered(input, idealMtn, idealRvr)
    ensures RoundDeltas(p, input).mtn == BandDelta(|p.held.mtn|, idealMtn)
    ensures RoundDeltas(p, input).rvr == ForcedDelta(|p.held.rvr|, idealRvr)
  {
  }

  /** How much the pools have grown once the arrivals are in. */
  lemma ArrivalSizes(p: Pod, input: RoundInput, h: Held)
    requires p.held.Partitioned() && Honest(p, input) && h == WithArrivals(p, input)
    ensures |p.held.rvr| <= |h.rvr| <= |p.held.rvr| + Nat(RoundAsk(p, input).rvr)
    ensures |p.held.mtn| <= |h.mtn| && |p.held.pds| <= |h.pds|
    ensures |h.mtn| + |h.pds| <= |p.held.mtn| + |p.held.pds| + Nat(RoundAsk(p, input).mtn)
  {
    InsertAllPartitions(p.held, Arrivals(p, input));
  }

  lemma MtnOnCounts(p: Pod, input: RoundInput, rs: seq<Removal>, p': Pod, idealMtn: int, idealRvr: int)
    requires Round(p, input, rs, p') && p.held.Partitioned() && Honest(p, input)
    requires Answered(input, idealMtn, idealRvr) && p.limits.Positive()
    ensures MtnRound(idealMtn, p.limits.mtn, |p.held.mtn|, |p.held.pds|, |p'.held.mtn|, |p'.held.pds|)
  {
    DeltasFromBand(p, input, idealMtn, idealRvr);
    ArrivalSizes(p, input, WithArrivals(p, input));
  }

  lemma RvrOnCounts(p: Pod, input: RoundInput, rs: seq<Removal>, p': Pod, idealMtn: int, idealRvr: int)
    requires Round(p, input, rs, p') && p.held.Partitioned() && Honest(p, input)
    requires Answered(input, idealMtn, idealRvr) && p.limits.Positive()
    ensures RvrRound(idealRvr, p.limits.rvr, |p.held.rvr|, |p'.held.rvr|)
  {
    DeltasFromBand(p, input, idealMtn, idealRvr);
    ArrivalSizes(p, input, WithArrivals(p, input));
  }

  /** What a round does to the pools is what Balance says it does to their sizes. */
  lemma RoundOnCounts(p: Pod, input: RoundInput, rs: seq<Removal>, p': Pod, idealMtn: int, idealRvr: int)
    requires Round(p, input, rs, p') && p.held.Partitioned() && Honest(p, input)
    requires Answered(input, idealMtn, idealRvr) && p.limits.Positive()
    ensures MtnRound(idealMtn, p.limits.mtn, |p.held.mtn|, |p.held.pds|, |p'.held.mtn|, |p'.held.pds|)
    ensures RvrRound(idealRvr, p.limits.rvr, |p.held.rvr|, |p'.held.rvr|)
  {
    MtnOnCounts(p, input, rs, p', idealMtn, idealRvr);
    RvrOnCounts(p, input, rs, p', idealMtn, idealRvr);
  }

  /** Steady conditions: fixed shares, honest answers, no drops, no shutdown. */
  ghost predicate Steady(run: seq<Sys>, steps: seq<Step>, idealMtn: int, idealRvr: int) {
    && IsStretch(run, steps)
    && run[0].pod.held.Partitioned() && run[0].pod.limits.Positive()
    && forall i :: 0 <= i < |steps| ==> SteadyAt(run, steps, idealMtn, idealRvr, i)
  }

  predicate SteadyAt(run: seq<Sys>, steps: seq<Step>, idealMtn: int, idealRvr: int, i: nat)
    requires i < |steps| && |run| == |steps| + 1
  {
    SteadyStep(run[i], steps[i], idealMtn, idealRvr)
  }

  predicate SteadyStep(s: Sys, step: Step, idealMtn: int, idealRvr: int) {
    match step
    case RoundBody(input, _) => Answered(input, idealMtn, idealRvr) && Honest(s.pod, input)
    case Heartbeat(reply) => reply.None? || reply.value == []
    case ReleaseAll(_) => false
    case _ => true
  }

  function Rounds(steps: seq<Step>, n: nat): nat
    requires n <= |steps|
  {
    if n == 0 then 0 else Rounds(steps, n - 1) + if steps[n - 1].RoundBody? then 1 else 0
  }

  lemma OtherStepsKeepCounts(s: Sys, step: Step, s': Sys, idealMtn: int, idealRvr: int)
    requires Next(s, step, s') && SteadyStep(s, step, idealMtn, idealRvr) && !step.RoundBody?
    ensures s'.pod.held == s.pod.held && s'.pod.limits == s.pod.limits
  {
  }

  lemma SteadyIsHonest(s: Sys, step: Step, idealMtn: int, idealRvr: int)
    requires SteadyStep(s, step, idealMtn, idealRvr)
    ensures HonestStep(s, step)
  {
  }

  lemma LimitsStay(s: Sys, step: Step, s': Sys)
    requires Next(s, step, s')
    ensures s'.pod.limits == s.pod.limits
  {
  }

  /** The pools are a partition by class, and the limits are those given. */
  predicate InShape(p: Pod, limits: Limits) {
    p.held.Partitioned() && p.limits == limits && limits.Positive()
  }

  lemma ShapeStep(run: seq<Sys>, steps: seq<Step>, idealMtn: int, idealRvr: int, limits: Limits, i: nat)
    requires Steady(run, steps, idealMtn, idealRvr) && i < |steps| && InShape(run[i].pod, limits)
    ensures InShape(run[i + 1].pod, limits)
  {
    RunStep(run, steps, i);
    assert SteadyAt(run, steps, idealMtn, idealRvr, i);
    SteadyIsHonest(run[i], steps[i], idealMtn, idealRvr);
    NextKeepsPartition(run[i], steps[i], run[i + 1]);
    LimitsStay(run[i], steps[i], run[i + 1]);
  }

  lemma SteadyKeepsShape(run: seq<Sys>, steps: seq<Step>, idealMtn: int, idealRvr: int, n: nat)
    requires Steady(run, steps, idealMtn, idealRvr) && n < |run|
    ensures InShape(run[n].pod, run[0].pod.limits)
  {
    for i := 0 to n
      invariant InShape(run[i].pod, run[0].pod.limits)
    {
      ShapeStep(run, steps, idealMtn, idealRvr, run[0].pod.limits, i);
    }
  }

  /** One step under steady conditions, on counts. */
  lemma SteadyCounts(run: seq<Sys>, steps: seq<Step>, idealMtn: int, idealRvr: int, n: nat)
    requires Steady(run, steps, idealMtn, idealRvr) && n < |steps|
    ensures var h, h', limits := run[n].pod.held, run[n + 1].pod.held, run[0].pod.limits;
            && limits.Positive() && run[n].pod.limits == limits
            && if steps[n].RoundBody? then
                 && MtnRound(idealMtn, limits.mtn, |h.mtn|, |h.pds|, |h'.mtn|, |h'.pds|)
                 && RvrRound(idealRvr, limits.rvr, |h.rvr|, |h'.rvr|)
               else
                 h' == h
  {
    SteadyKeepsShape(run, steps, idealMtn, idealRvr, n);
    RunStep(run, steps, n);
    assert SteadyAt(run, steps, idealMtn, idealRvr, n);
    if steps[n].RoundBody? {
      RoundOnCounts(run[n].pod, steps[n].input, steps[n].rs, run[n + 1].pod, idealMtn, idealRvr);
    } else {
      OtherStepsKeepCounts(run[n], steps[n], run[n + 1], idealMtn, idealRvr);
    }
  }

  function MtnTotal(h: Held): nat {
    |h.mtn| + |h.pds|
  }

  /** Settled: the Mountain count is in its band and Paradise does not outnumber it. */
  predicate Settled(h: Held, ideal: int) {
    InBand(|h.mtn|, ideal) && |h.pds| <= |h.mtn|
  }

  /** Settled, or still above the band with `gone` of the nodes there were at first taken away. */
  predicate Descended(h: Held, ideal: int, gone: int, atFirst: nat) {
    && |h.mtn| >= ideal
    && (Settled(h, ideal) || (OverBand(|h.mtn|, ideal) && MtnTotal(h) + gone <= atFirst))
  }

  lemma DescendStep(run: seq<Sys>, steps: seq<Step>, idealMtn: int, idealRvr: int, i: nat, gone: int, atFirst: nat)
    requires Steady(run, steps, idealMtn, idealRvr) && i < |steps| && idealMtn >= 1
    requires Descended(run[i].pod.held, idealMtn, gone, atFirst)
    ensures Descended(run[i + 1].pod.held, idealMtn,
                      gone + if steps[i].RoundBody? then idealMtn / 10 + 1 else 0, atFirst)
  {
    SteadyCounts(run, steps, idealMtn, idealRvr, i);
    var h, h', limit := run[i].pod.held, run[i + 1].pod.held, run[i].pod.limits.mtn;
    if steps[i].RoundBody? {
      if OverBand(|h.mtn|, idealMtn) {
        MtnRoundFromAbove(idealMtn, limit, |h.mtn|, |h.pds|, |h'.mtn|, |h'.pds|);
      } else {
        MtnBandAbsorbs(idealMtn, limit, |h.mtn|, |h.pds|, |h'.mtn|, |h'.pds|);
      }
    }
  }

  /** Nodes that n steps have taken away at least, as long as the count is above the band. */
  function Gone(steps: seq<Step>, n: nat, idealMtn: nat): nat
    requires n <= |steps|
  {
    Rounds(steps, n) * (idealMtn / 10 + 1)
  }

  lemma GoneStep(steps: seq<Step>, n: nat, idealMtn: nat)
    requires n < |steps|
    ensures Gone(steps, n + 1, idealMtn) ==
            Gone(steps, n, idealMtn) + if steps[n].RoundBody? then idealMtn / 10 + 1 else 0
  {
    var unit := idealMtn / 10 + 1;
    assert (Rounds(steps, n) + 1) * unit == Rounds(steps, n) * unit + unit;
  }

  /**
   From any Mountain count above the band: at every later moment the Mountain side has
   settled, or it is still above the band and every round so far has taken more than a
   tenth of the share away.  The Mountain count never goes below its share.
   */
  lemma MountainDescends(run: seq<Sys>, steps: seq<Step>, idealMtn: int, idealRvr: int, n: nat)
    requires Steady(run, steps, idealMtn, idealRvr) && n < |run|
    requires idealMtn >= 1 && OverBand(|run[0].pod.held.mtn|, idealMtn)
    ensures Descended(run[n].pod.held, idealMtn, Gone(steps, n, idealMtn), MtnTotal(run[0].pod.held))
  {
    var atFirst := MtnTotal(run[0].pod.held);
    assert Gone(steps, 0, idealMtn) == 0;
    for i := 0 to n
      invariant Descended(run[i].pod.held, idealMtn, Gone(steps, i, idealMtn), atFirst)
    {
      DescendStep(run, steps, idealMtn, idealRvr, i, Gone(steps, i, idealMtn), atFirst);
      GoneStep(steps, i, idealMtn);
    }
  }

  lemma OutOfNodes(rounds: nat, unit: nat, atFirst: nat, ideal: nat, total: nat)
    requires (rounds + 1) * unit > atFirst - ideal && total + rounds * unit <= atFirst
    ensures total < ideal + unit
  {
    assert (rounds + 1) * unit == rounds * unit + unit;
  }

  /**
   Convergence: with one round for every idealMtn/10 + 1 nodes in excess of the share, the
   Mountain side has settled between its share and ten percent above it.
   */
  lemma MountainConverges(run: seq<Sys>, steps: seq<Step>, idealMtn: int, idealRvr: int, n: nat)
    requires Steady(run, steps, idealMtn, idealRvr) && n < |run|
    requires idealMtn >= 1 && OverBand(|run[0].pod.held.mtn|, idealMtn)
    requires (Rounds(steps, n) + 1) * (idealMtn / 10 + 1) > MtnTotal(run[0].pod.held) - idealMtn
    ensures idealMtn <= |run[n].pod.held.mtn| <= 11 * idealMtn / 10
    ensures |run[n].pod.held.pds| <= |run[n].pod.held.mtn|
  {
    MountainDescends(run, steps, idealMtn, idealRvr, n);
    ConvergedCounts(run[n].pod.held, idealMtn, Rounds(steps, n), MtnTotal(run[0].pod.held));
  }

  lemma ConvergedCounts(h: Held, ideal: nat, rounds: nat, atFirst: nat)
    requires ideal >= 1 && Descended(h, ideal, rounds * (ideal / 10 + 1), atFirst)
    requires (rounds + 1) * (ideal / 10 + 1) > atFirst - ideal
    ensures ideal <= |h.mtn| <= 11 * ideal / 10 && |h.pds| <= |h.mtn|
  {
    var unit := ideal / 10 + 1;
    if MtnTotal(h) + rounds * unit <= atFirst {
      OutOfNodes(rounds, unit, atFirst, ideal, MtnTotal(h));
    }
  }

  predicate SameMountain(a: Held, b: Held) {
    |a.mtn| == |b.mtn| && |a.pds| == |b.pds|
  }

  lemma BandStep(run: seq<Sys>, steps: seq<Step>, idealMtn: int, idealRvr: int, n: nat)
    requires Steady(run, steps, idealMtn, idealRvr) && n < |steps|
    requires InBand(|run[n].pod.held.mtn|, idealMtn)
    ensures SameMountain(run[n].pod.held, run[n + 1].pod.held)
  {
    SteadyCounts(run, steps, idealMtn, idealRvr, n);
    var h, h', limit := run[n].pod.held, run[n + 1].pod.held, run[n].pod.limits.mtn;
    if steps[n].RoundBody? {
      MtnBandAbsorbs(idealMtn, limit, |h.mtn|, |h.pds|, |h'.mtn|, |h'.pds|);
    }
  }

  lemma BandStepFrom(run: seq<Sys>, steps: seq<Step>, idealMtn: int, idealRvr: int, h: Held, n: nat)
    requires Steady(run, steps, idealMtn, idealRvr) && n < |steps|
    requires InBand(|h.mtn|, idealMtn) && SameMountain(h, run[n].pod.held)
    ensures SameMountain(h, run[n + 1].pod.held)
  {
    BandStep(run, steps, idealMtn, idealRvr, n);
  }

  lemma BandFromStart(run: seq<Sys>, steps: seq<Step>, idealMtn: int, idealRvr: int, n: nat)
    requires Steady(run, steps, idealMtn, idealRvr) && n < |run|
    requires InBand(|run[0].pod.held.mtn|, idealMtn)
    ensures SameMountain(run[0].pod.held, run[n].pod.held)
  {
    for i := 0 to n
      invariant SameMountain(run[0].pod.held, run[i].pod.held)
    {
      BandStepFrom(run, steps, idealMtn, idealRvr, run[0].pod.held, i);
    }
  }

  lemma SteadySuffix(run: seq<Sys>, steps: seq<Step>, idealMtn: int, idealRvr: int, k: nat)
    requires Steady(run, steps, idealMtn, idealRvr) && k < |run|
    ensures Steady(run[k..], steps[k..], idealMtn, idealRvr)
  {
    SteadyKeepsShape(run, steps, idealMtn, idealRvr, k);
    forall i | 0 <= i < |steps[k..]|
      ensures StepAt(run[k..], steps[k..], i) && SteadyAt(run[k..], steps[k..], idealMtn, idealRvr, i)
    {
      assert StepAt(run, steps, k + i) && SteadyAt(run, steps, idealMtn, idealRvr, k + i);
    }
  }

  /** Once in the band, neither count of the Mountain side ever changes again. */
  lemma MountainBandIsFinal(run: seq<Sys>, steps: seq<Step>, idealMtn: int, idealRvr: int, k: nat, n: nat)
    requires Steady(run, steps, idealMtn, idealRvr) && k <= n < |run|
    requires InBand(|run[k].pod.held.mtn|, idealMtn)
    ensures SameMountain(run[k].pod.held, run[n].pod.held)
  {
    SteadySuffix(run, steps, idealMtn, idealRvr, k);
    BandFromStart(run[k..], steps[k..], idealMtn, idealRvr, n - k);
  }

  lemma BelowStep(run: seq<Sys>, steps: seq<Step>, idealMtn: int, idealRvr: int, i: nat)
    requires Steady(run, steps, idealMtn, idealRvr) && i < |steps|
    requires |run[i].pod.held.mtn| <= idealMtn
    ensures |run[i].pod.held.mtn| <= |run[i + 1].pod.held.mtn| <= idealMtn
  {
    SteadyCounts(run, steps, idealMtn, idealRvr, i);
    var h, h', limit := run[i].pod.held, run[i + 1].pod.held, run[i].pod.limits.mtn;
    if steps[i].RoundBody? {
      if |h.mtn| < idealMtn {
        MtnRoundFromBelow(idealMtn, limit, |h.mtn|, |h.pds|, |h'.mtn|, |h'.pds|);
      } else {
        MtnBandAbsorbs(idealMtn, limit, |h.mtn|, |h.pds|, |h'.mtn|, |h'.pds|);
      }
    }
  }

  /** From below, the Mountain count never overshoots its share. */
  lemma MountainNeverOvershoots(run: seq<Sys>, steps: seq<Step>, idealMtn: int, idealRvr: int, n: nat)
    requires Steady(run, steps, idealMtn, idealRvr) && n < |run|
    requires |run[0].pod.held.mtn| <= idealMtn
    ensures |run[0].pod.held.mtn| <= |run[n].pod.held.mtn| <= idealMtn
  {
    for i := 0 to n
      invariant |run[0].pod.held.mtn| <= |run[i].pod.held.mtn| <= idealMtn
    {
      BelowStep(run, steps, idealMtn, idealRvr, i);
    }
  }

  /** At its share or above, with no more Mountain and Paradise nodes together than at first. */
  predicate Contained(h: Held, ideal: int, atFirst: nat) {
    |h.mtn| >= ideal && MtnTotal(h) <= atFirst
  }

  lemma ContainedStep(run: seq<Sys>, steps: seq<Step>, idealMtn: int, idealRvr: int, atFirst: nat, i: nat)
    requires Steady(run, steps, idealMtn, idealRvr) && i < |steps| && idealMtn >= 1
    requires Contained(run[i].pod.held, idealMtn, atFirst)
    ensures Contained(run[i + 1].pod.held, idealMtn, atFirst)
  {
    SteadyCounts(run, steps, idealMtn, idealRvr, i);
    var h, h', limit := run[i].pod.held, run[i + 1].pod.held, run[i].pod.limits.mtn;
    if steps[i].RoundBody? {
      if OverBand(|h.mtn|, idealMtn) {
        MtnRoundFromAbove(idealMtn, limit, |h.mtn|, |h.pds|, |h'.mtn|, |h'.pds|);
      } else {
        MtnBandAbsorbs(idealMtn, limit, |h.mtn|, |h.pds|, |h'.mtn|, |h'.pds|);
      }
    }
  }

  /**
   A pod with its share of Mountain nodes keeps it, and never holds more Mountain and
   Paradise nodes together than it did, whatever console-data hands out.
   */
  lemma TotalNeverGrows(run: seq<Sys>, steps: seq<Step>, idealMtn: int, idealRvr: int, n: nat)
    requires Steady(run, steps, idealMtn, idealRvr) && n < |run|
    requires idealMtn >= 1 && |run[0].pod.held.mtn| >= idealMtn
    ensures |run[n].pod.held.mtn| >= idealMtn
    ensures MtnTotal(run[n].pod.held) <= MtnTotal(run[0].pod.held)
  {
    for i := 0 to n
      invariant Contained(run[i].pod.held, idealMtn, MtnTotal(run[0].pod.held))
    {
      ContainedStep(run, steps, idealMtn, idealRvr, MtnTotal(run[0].pod.held), i);
    }
  }

  /** River after `rounds` rounds, from r0: in reach, and at its share or above if it was to begin with. */
  predicate InReach(r: nat, ideal: int, r0: nat, rounds: nat) {
    (rounds >= 1 ==> r <= RvrCeiling(ideal)) && (r0 >= ideal ==> r >= ideal)
  }

  lemma ReachStep(run: seq<Sys>, steps: seq<Step>, idealMtn: int, idealRvr: int, r0: nat, i: nat)
    requires Steady(run, steps, idealMtn, idealRvr) && i < |steps| && idealRvr >= 1
    requires InReach(|run[i].pod.held.rvr|, idealRvr, r0, Rounds(steps, i))
    ensures InReach(|run[i + 1].pod.held.rvr|, idealRvr, r0, Rounds(steps, i + 1))
  {
    SteadyCounts(run, steps, idealMtn, idealRvr, i);
    if steps[i].RoundBody? {
      RvrRoundBand(idealRvr, run[i].pod.limits.rvr, |run[i].pod.held.rvr|, |run[i + 1].pod.held.rvr|);
    }
  }

  /**
   River, from any count: after one round the count stays at or below one more than the
   top of its band, and once it has reached its share it never falls below it.
   */
  lemma RiverStaysInReach(run: seq<Sys>, steps: seq<Step>, idealMtn: int, idealRvr: int, n: nat)
    requires Steady(run, steps, idealMtn, idealRvr) && n < |run| && idealRvr >= 1
    ensures Rounds(steps, n) >= 1 ==> |run[n].pod.held.rvr| <= RvrCeiling(idealRvr)
    ensures |run[0].pod.held.rvr| >= idealRvr ==> |run[n].pod.held.rvr| >= idealRvr
  {
    for i := 0 to n
      invariant InReach(|run[i].pod.held.rvr|, idealRvr, |run[0].pod.held.rvr|, Rounds(steps, i))
    {
      ReachStep(run, steps, idealMtn, idealRvr, |run[0].pod.held.rvr|, i);
    }
  }

  /* ---------- when every request is granted ---------- */

  /** A round at i is given every River node it asks for. */
  predicate GrantedAt(run: seq<Sys>, steps: seq<Step>, i: nat)
    requires i < |steps| && |run| == |steps| + 1
  {
    steps[i].RoundBody? ==>
      CountRvr(Arrivals(run[i].pod, steps[i].input)) == RoundAsk(run[i].pod, steps[i].input).rvr
  }

  lemma GrantedOnCounts(p: Pod, input: RoundInput, rs: seq<Removal>, p': Pod, idealMtn: int, idealRvr: int)
    requires Round(p, input, rs, p') && p.held.Partitioned() && Honest(p, input)
    requires Answered(input, idealMtn, idealRvr) && p.limits.Positive()
    requires CountRvr(Arrivals(p, input)) == RoundAsk(p, input).rvr
    ensures GrantedRvrRound(idealRvr, p.limits.rvr, |p.held.rvr|, |p'.held.rvr|)
  {
    DeltasFromBand(p, input, idealMtn, idealRvr);
    InsertAllPartitions(p.held, Arrivals(p, input));
  }

  /** One step of a run with River requests granted, on the River count. */
  lemma GrantedCounts(run: seq<Sys>, steps: seq<Step>, idealMtn: int, idealRvr: int, i: nat)
    requires Steady(run, steps, idealMtn, idealRvr) && i < |steps| && GrantedAt(run, steps, i)
    ensures run[0].pod.limits.rvr >= 1
    ensures var r, r' := |run[i].pod.held.rvr|, |run[i + 1].pod.held.rvr|;
            if steps[i].RoundBody? then GrantedRvrRound(idealRvr, run[0].pod.limits.rvr, r, r') else r' == r
  {
    SteadyCounts(run, steps, idealMtn, idealRvr, i);
    if steps[i].RoundBody? {
      SteadyKeepsShape(run, steps, idealMtn, idealRvr, i);
      RunStep(run, steps, i);
      assert SteadyAt(run, steps, idealMtn, idealRvr, i);
      GrantedOnCounts(run[i].pod, steps[i].input, steps[i].rs, run[i + 1].pod, idealMtn, idealRvr);
    }
  }

  /** The count after k rounds of the sawtooth. */
  function Tooth(ideal: nat, k: nat): nat {
    ideal + k % SawtoothPeriod(ideal)
  }

  /**
   River after k granted rounds from r0: filling up to the share by a full request a round
   for `fill` rounds, or coming down to it in one, and then the sawtooth.
   */
  predicate RiverPlace(r: nat, ideal: nat, limit: nat, r0: nat, fill: nat, k: nat) {
    if k >= fill then r == Tooth(ideal, k - fill)
    else if r0 > ideal then r == r0
    else r == r0 + k * limit
  }

  /** Rounds from r0 until the count is on its share for the first time. */
  predicate RoundsToShare(ideal: nat, limit: nat, r0: nat, fill: nat) {
    if OverBand(r0, ideal) then fill == 1
    else r0 <= ideal && fill * limit >= ideal - r0 && (fill > 0 ==> (fill - 1) * limit < ideal - r0)
  }

  lemma PlaceStep(ideal: nat, limit: nat, r0: nat, fill: nat, k: nat, r: nat, r': nat)
    requires ideal >= 1 && limit >= 1 && RoundsToShare(ideal, limit, r0, fill)
    requires RiverPlace(r, ideal, limit, r0, fill, k) && GrantedRvrRound(ideal, limit, r, r')
    ensures RiverPlace(r', ideal, limit, r0, fill, k + 1)
  {
    if k >= fill {
      SawtoothStep(ideal, limit, k - fill, r, r');
    } else if r0 > ideal {
      FirstTooth(ideal);
    } else {
      FillStep(ideal, limit, r0, fill, k);
      FirstTooth(ideal);
    }
  }

  lemma FirstTooth(ideal: nat)
    ensures Tooth(ideal, 0) == ideal
  {
  }

  lemma MulLe(a: nat, b: nat, unit: nat)
    requires a <= b
    ensures a * unit <= b * unit
  {
    assert (b - a) * unit >= 0;
    assert b * unit == a * unit + (b - a) * unit;
  }

  lemma MulNext(a: nat, unit: nat)
    ensures (a + 1) * unit == a * unit + unit
  {
  }

  /** Before its last round a pool that fills up is a full request short, and then it is not. */
  lemma FillStep(ideal: nat, limit: nat, r0: nat, fill: nat, k: nat)
    requires limit >= 1 && k < fill && r0 <= ideal
    requires fill * limit >= ideal - r0 && (fill - 1) * limit < ideal - r0
    ensures (k + 1) * limit == k * limit + limit
    ensures r0 + k * limit < ideal
    ensures if k + 1 < fill then r0 + k * limit + limit < ideal else r0 + k * limit + limit >= ideal
  {
    MulNext(k, limit);
    MulLe(k, fill - 1, limit);
    if k + 1 < fill {
      MulLe(k + 1, fill - 1, limit);
    } else {
      assert k + 1 == fill;
    }
  }

  lemma PlaceRunStep(run: seq<Sys>, steps: seq<Step>, idealMtn: int, idealRvr: nat, r0: nat, fill: nat, i: nat)
    requires Steady(run, steps, idealMtn, idealRvr) && i < |steps| && GrantedAt(run, steps, i) && idealRvr >= 1
    requires run[0].pod.limits.rvr >= 1 && RoundsToShare(idealRvr, run[0].pod.limits.rvr, r0, fill)
    requires RiverPlace(|run[i].pod.held.rvr|, idealRvr, run[0].pod.limits.rvr, r0, fill, Rounds(steps, i))
    ensures RiverPlace(|run[i + 1].pod.held.rvr|, idealRvr, run[0].pod.limits.rvr, r0, fill, Rounds(steps, i + 1))
  {
    GrantedCounts(run, steps, idealMtn, idealRvr, i);
    if steps[i].RoundBody? {
      PlaceStep(idealRvr, run[0].pod.limits.rvr, r0, fill, Rounds(steps, i),
                |run[i].pod.held.rvr|, |run[i + 1].pod.held.rvr|);
    }
  }

  lemma PlacedAtStart(ideal: nat, limit: nat, r0: nat, fill: nat)
    requires ideal >= 1 && limit >= 1 && RoundsToShare(ideal, limit, r0, fill)
    ensures RiverPlace(r0, ideal, limit, r0, fill, 0)
  {
    FirstTooth(ideal);
  }

  /**
   River with every request granted, from below its band or above it: the share is reached
   in one round from above and in (share - count)/limit rounds, rounded up, from below.
   From then on the count is a sawtooth, not a fixed point: it climbs by one a round and is
   back on the share after every share/10 + 2 rounds, for ever, whatever other threads do.
   */
  lemma RiverReachesShare(run: seq<Sys>, steps: seq<Step>, idealMtn: int, idealRvr: nat, fill: nat, n: nat)
    requires Steady(run, steps, idealMtn, idealRvr) && n < |run| && idealRvr >= 1
    requires forall i :: 0 <= i < n ==> GrantedAt(run, steps, i)
    requires run[0].pod.limits.rvr >= 1
    requires RoundsToShare(idealRvr, run[0].pod.limits.rvr, |run[0].pod.held.rvr|, fill)
    ensures RiverPlace(|run[n].pod.held.rvr|, idealRvr, run[0].pod.limits.rvr, |run[0].pod.held.rvr|, fill,
                       Rounds(steps, n))
  {
    PlacedAtStart(idealRvr, run[0].pod.limits.rvr, |run[0].pod.held.rvr|, fill);
    for i := 0 to n
      invariant RiverPlace(|run[i].pod.held.rvr|, idealRvr, run[0].pod.limits.rvr, |run[0].pod.held.rvr|, fill,
                           Rounds(steps, i))
    {
      PlaceRunStep(run, steps, idealMtn, idealRvr, |run[0].pod.held.rvr|, fill, i);
    }
  }

  predicate OnTooth(h: Held, ideal: nat, k: nat) {
    |h.rvr| == Tooth(ideal, k)
  }

  predicate OnToothAt(run: seq<Sys>, steps: seq<Step>, ideal: nat, k: nat, n: nat)
    requires n < |run| == |steps| + 1
  {
    OnTooth(run[n].pod.held, ideal, k + Rounds(steps, n))
  }

  lemma ToothRunStep(run: seq<Sys>, steps: seq<Step>, idealMtn: int, idealRvr: nat, k: nat, i: nat)
    requires Steady(run, steps, idealMtn, idealRvr) && i < |steps| && GrantedAt(run, steps, i) && idealRvr >= 1
    requires OnToothAt(run, steps, idealRvr, k, i)
    ensures OnToothAt(run, steps, idealRvr, k, i + 1)
  {
    GrantedCounts(run, steps, idealMtn, idealRvr, i);
    if steps[i].RoundBody? {
      SawtoothStep(idealRvr, run[0].pod.limits.rvr, k + Rounds(steps, i),
                   |run[i].pod.held.rvr|, |run[i + 1].pod.held.rvr|);
    }
  }

  /** From anywhere in its band, k above the share, River goes on from there. */
  lemma RiverSawtooth(run: seq<Sys>, steps: seq<Step>, idealMtn: int, idealRvr: nat, k: nat, n: nat)
    requires Steady(run, steps, idealMtn, idealRvr) && n < |run| && idealRvr >= 1
    requires forall i :: 0 <= i < n ==> GrantedAt(run, steps, i)
    requires OnTooth(run[0].pod.held, idealRvr, k)
    ensures OnTooth(run[n].pod.held, idealRvr, k + Rounds(steps, n))
  {
    assert OnToothAt(run, steps, idealRvr, k, 0);
    for i := 0 to n
      invariant OnToothAt(run, steps, idealRvr, k, i)
    {
      ToothRunStep(run, steps, idealMtn, idealRvr, k, i);
    }
  }

  /** Mountain and Hill nodes alone. */
  function CountOnlyMtn(nodes: seq<NodeInfo>): nat {
    if nodes == [] then 0
    else CountOnlyMtn(nodes[..|nodes| - 1]) + if nodes[|nodes| - 1].IsMountain() then 1 else 0
  }

  lemma {:induction false} MountainTakenIn(h: Held, nodes: seq<NodeInfo>)
    requires FreshNames(h, nodes)
    ensures |h.InsertAll(nodes).mtn| == |h.mtn| + CountOnlyMtn(nodes)
  {
    if nodes != [] {
      MountainTakenIn(h, nodes[..|nodes| - 1]);
      LastIsFresh(h, nodes);
      InsertGrowsOnePool(h.InsertAll(nodes[..|nodes| - 1]), nodes[|nodes| - 1]);
    }
  }

  /** A round at i is given every Mountain node it asks for, and no Paradise node instead. */
  predicate MtnGrantedAt(run: seq<Sys>, steps: seq<Step>, i: nat)
    requires i < |steps| && |run| == |steps| + 1
  {
    steps[i].RoundBody? ==>
      CountOnlyMtn(Arrivals(run[i].pod, steps[i].input)) == RoundAsk(run[i].pod, steps[i].input).mtn
  }

  lemma MtnGrantedOnCounts(p: Pod, input: RoundInput, rs: seq<Removal>, p': Pod, idealMtn: int, idealRvr: int)
    requires Round(p, input, rs, p') && Honest(p, input)
    requires Answered(input, idealMtn, idealRvr) && p.limits.Positive() && |p.held.mtn| <= idealMtn
    requires CountOnlyMtn(Arrivals(p, input)) == RoundAsk(p, input).mtn
    ensures |p'.held.mtn| == |p.held.mtn| + PinNumNodes(idealMtn - |p.held.mtn|, p.limits.mtn)
  {
    DeltasFromBand(p, input, idealMtn, idealRvr);
    MountainTakenIn(p.held, Arrivals(p, input));
  }

  /** Mountain after k granted rounds from m0: a full request a round for `fill` rounds, then the share. */
  predicate MtnPlace(m: nat, ideal: nat, limit: nat, m0: nat, fill: nat, k: nat) {
    m == if k < fill then m0 + k * limit else ideal
  }

  lemma MtnPlaceStep(ideal: nat, limit: nat, m0: nat, fill: nat, k: nat, m: nat)
    requires limit >= 1 && m0 <= ideal && RoundsToShare(ideal, limit, m0, fill)
    requires MtnPlace(m, ideal, limit, m0, fill, k)
    ensures m <= ideal && MtnPlace(m + PinNumNodes(ideal - m, limit), ideal, limit, m0, fill, k + 1)
  {
    if k < fill {
      FillStep(ideal, limit, m0, fill, k);
    }
  }

  lemma MtnGrantedCounts(run: seq<Sys>, steps: seq<Step>, idealMtn: nat, idealRvr: int, i: nat)
    requires Steady(run, steps, idealMtn, idealRvr) && i < |steps| && MtnGrantedAt(run, steps, i)
    requires |run[i].pod.held.mtn| <= idealMtn
    ensures var m, m' := |run[i].pod.held.mtn|, |run[i + 1].pod.held.mtn|;
            m' == if steps[i].RoundBody? then m + PinNumNodes(idealMtn - m, run[0].pod.limits.mtn) else m
  {
    SteadyCounts(run, steps, idealMtn, idealRvr, i);
    if steps[i].RoundBody? {
      RunStep(run, steps, i);
      assert SteadyAt(run, steps, idealMtn, idealRvr, i);
      MtnGrantedOnCounts(run[i].pod, steps[i].input, steps[i].rs, run[i + 1].pod, idealMtn, idealRvr);
    }
  }

  lemma MtnPlaceRunStep(run: seq<Sys>, steps: seq<Step>, idealMtn: nat, idealRvr: int, m0: nat, fill: nat, i: nat)
    requires Steady(run, steps, idealMtn, idealRvr) && i < |steps| && MtnGrantedAt(run, steps, i)
    requires m0 <= idealMtn && run[0].pod.limits.mtn >= 1 && RoundsToShare(idealMtn, run[0].pod.limits.mtn, m0, fill)
    requires MtnPlace(|run[i].pod.held.mtn|, idealMtn, run[0].pod.limits.mtn, m0, fill, Rounds(steps, i))
    ensures MtnPlace(|run[i + 1].pod.held.mtn|, idealMtn, run[0].pod.limits.mtn, m0, fill, Rounds(steps, i + 1))
  {
    MtnPlaceStep(idealMtn, run[0].pod.limits.mtn, m0, fill, Rounds(steps, i), |run[i].pod.held.mtn|);
    MtnGrantedCounts(run, steps, idealMtn, idealRvr, i);
  }

  /**
   Mountain from below with every request granted in Mountain nodes: the share is reached in
   (share - count)/limit rounds, rounded up, by a full request a round, and then kept.
   */
  lemma MountainReachesShare(run: seq<Sys>, steps: seq<Step>, idealMtn: nat, idealRvr: int, fill: nat, n: nat)
    requires Steady(run, steps, idealMtn, idealRvr) && n < |run| && |run[0].pod.held.mtn| <= idealMtn
    requires forall i :: 0 <= i < n ==> MtnGrantedAt(run, steps, i)
    requires run[0].pod.limits.mtn >= 1
    requires RoundsToShare(idealMtn, run[0].pod.limits.mtn, |run[0].pod.held.mtn|, fill)
    ensures MtnPlace(|run[n].pod.held.mtn|, idealMtn, run[0].pod.limits.mtn, |run[0].pod.held.mtn|, fill,
                     Rounds(steps, n))
  {
    for i := 0 to n
      invariant MtnPlace(|run[i].pod.held.mtn|, idealMtn, run[0].pod.limits.mtn, |run[0].pod.held.mtn|, fill,
                         Rounds(steps, i))
    {
      MtnPlaceRunStep(run, steps, idealMtn, idealRvr, |run[0].pod.held.mtn|, fill, i);
    }
  }

  /* ---------- fair share ---------- */

  function MtnNames(pods: seq<Pod>): (names: seq<set<Name>>)
    ensures |names| == |pods|
    ensures forall i :: 0 <= i < |pods| ==> names[i] == pods[i].held.mtn.Keys
  {
    seq(|pods|, i requires 0 <= i < |pods| => pods[i].held.mtn.Keys)
  }

  function RvrNames(pods: seq<Pod>): (names: seq<set<Name>>)
    ensures |names| == |pods|
    ensures forall i :: 0 <= i < |pods| ==> names[i] == pods[i].held.rvr.Keys
  {
    seq(|pods|, i requires 0 <= i < |pods| => pods[i].held.rvr.Keys)
  }

  /** No two pods hold the same node, and all nodes they hold are in the system. */
  predicate SharesOut(names: seq<set<Name>>, system: set<Name>) {
    && (forall i, j :: 0 <= i < j < |names| ==> names[i] !! names[j])
    && (forall i :: 0 <= i < |names| ==> names[i] <= system)
  }

  /** The services answer with the number of pods and the sizes of the system. */
  predicate Reports(input: RoundInput, numPods: int, mtn: int, rvr: int) {
    input.numPods == Some(numPods) && input.totals == Some(Totals(rvr, mtn))
  }

  /**
   No Mountain node starves: however the pods share out a system's Mountain nodes, some pod
   is below its share and asks for nodes in its next round.
   */
  lemma SomePodAsksForMountain(pods: seq<Pod>, system: set<Name>, rvr: int, input: RoundInput) returns (i: nat)
    requires pods != [] && SharesOut(MtnNames(pods), system) && Reports(input, |pods|, |system|, rvr)
    requires forall i :: 0 <= i < |pods| ==> pods[i].limits.Positive()
    ensures i < |pods| && |pods[i].held.mtn| < Ideal(|system|, |pods|)
    ensures RoundAsk(pods[i], input).mtn > 0
  {
    i := SomePodAsksForMore(MtnNames(pods), system);
    DeltasFromBand(pods[i], input, Ideal(|system|, |pods|), Ideal(rvr, |pods|));
  }

  /** Nor does a River node: some pod asks on account of its share, not only for the one node always asked for. */
  lemma SomePodAsksForRiver(pods: seq<Pod>, system: set<Name>, mtn: int, input: RoundInput) returns (i: nat)
    requires pods != [] && SharesOut(RvrNames(pods), system) && Reports(input, |pods|, mtn, |system|)
    requires forall i :: 0 <= i < |pods| ==> pods[i].limits.Positive()
    ensures i < |pods| && |pods[i].held.rvr| < Ideal(|system|, |pods|)
    ensures RoundAsk(pods[i], input).rvr ==
            PinNumNodes(Ideal(|system|, |pods|) - |pods[i].held.rvr|, pods[i].limits.rvr)
    ensures RoundAsk(pods[i], input).rvr > 0
  {
    i := SomePodAsksForMore(RvrNames(pods), system);
    DeltasFromBand(pods[i], input, Ideal(mtn, |pods|), Ideal(|system|, |pods|));
  }

  /* ---------- consecutive rounds ---------- */

  /** Steps i and j are rounds with none in between. */
  predicate Consecutive(steps: seq<Step>, i: nat, j: nat) {
    && i < j < |steps| && steps[i].RoundBody? && steps[j].RoundBody?
    && forall k :: i < k < j ==> !steps[k].RoundBody?
  }

  lemma {:induction false} HeldKeptBetween(run: seq<Sys>, steps: seq<Step>, idealMtn: int, idealRvr: int,
                                           i: nat, j: nat)
    requires Steady(run, steps, idealMtn, idealRvr) && i <= j < |run|
    requires forall k :: i <= k < j ==> !steps[k].RoundBody?
    ensures run[j].pod.held == run[i].pod.held
    decreases j
  {
    if i < j {
      HeldKeptBetween(run, steps, idealMtn, idealRvr, i, j - 1);
      SteadyCounts(run, steps, idealMtn, idealRvr, j - 1);
    }
  }

  /**
   No bouncing on the Mountain side: if it grew in one round it does not shrink in the
   next, and if it shrank in one round nothing is asked for in the next.
   */
  lemma MountainNeverBounces(run: seq<Sys>, steps: seq<Step>, idealMtn: int, idealRvr: int, i: nat, j: nat)
    requires Steady(run, steps, idealMtn, idealRvr) && Consecutive(steps, i, j) && idealMtn >= 1
    ensures MtnTotal(run[i + 1].pod.held) > MtnTotal(run[i].pod.held) ==>
              MtnTotal(run[j + 1].pod.held) >= MtnTotal(run[j].pod.held)
    ensures MtnTotal(run[i + 1].pod.held) < MtnTotal(run[i].pod.held) ==>
              RoundAsk(run[j].pod, steps[j].input).mtn == 0
  {
    HeldKeptBetween(run, steps, idealMtn, idealRvr, i + 1, j);
    SteadyCounts(run, steps, idealMtn, idealRvr, i);
    SteadyCounts(run, steps, idealMtn, idealRvr, j);
    AskFromBand(run, steps, idealMtn, idealRvr, j);
    var h, h', h'' := run[i].pod.held, run[j].pod.held, run[j + 1].pod.held;
    MtnNeverBounces(idealMtn, run[i].pod.limits.mtn, run[j].pod.limits.mtn,
                    |h.mtn|, |h.pds|, |h'.mtn|, |h'.pds|, |h''.mtn|, |h''.pds|);
  }

  lemma AskFromBand(run: seq<Sys>, steps: seq<Step>, idealMtn: int, idealRvr: int, j: nat)
    requires Steady(run, steps, idealMtn, idealRvr) && j < |steps| && steps[j].RoundBody?
    ensures RoundAsk(run[j].pod, steps[j].input).mtn ==
            PinNumNodes(BandDelta(|run[j].pod.held.mtn|, idealMtn), run[j].pod.limits.mtn)
    ensures RoundAsk(run[j].pod, steps[j].input).rvr ==
            PinNumNodes(ForcedDelta(|run[j].pod.held.rvr|, idealRvr), run[j].pod.limits.rvr)
  {
    assert SteadyAt(run, steps, idealMtn, idealRvr, j);
    DeltasFromBand(run[j].pod, steps[j].input, idealMtn, idealRvr);
  }

  /**
   River does bounce: a pool that grew in one round shrinks in the next if and only if it
   had been at the very top of its band.  One that shrank asks for a single node.
   */
  lemma RiverBouncesAtBandTop(run: seq<Sys>, steps: seq<Step>, idealMtn: int, idealRvr: int, i: nat, j: nat)
    requires Steady(run, steps, idealMtn, idealRvr) && Consecutive(steps, i, j) && idealRvr >= 1
    ensures |run[i + 1].pod.held.rvr| > |run[i].pod.held.rvr| ==>
              (|run[j + 1].pod.held.rvr| < |run[j].pod.held.rvr| <==> |run[i].pod.held.rvr| == 11 * idealRvr / 10)
    ensures |run[i + 1].pod.held.rvr| < |run[i].pod.held.rvr| ==> RoundAsk(run[j].pod, steps[j].input).rvr == 1
  {
    HeldKeptBetween(run, steps, idealMtn, idealRvr, i + 1, j);
    SteadyCounts(run, steps, idealMtn, idealRvr, i);
    SteadyCounts(run, steps, idealMtn, idealRvr, j);
    AskFromBand(run, steps, idealMtn, idealRvr, j);
    RvrBouncesExactlyAtBandTop(
      idealRvr, run[i].pod.limits.rvr, run[j].pod.limits.rvr,
      |run[i].pod.held.rvr|, |run[j].pod.held.rvr|, |run[j + 1].pod.held.rvr|);
  }

  /* ---------- fallback ---------- */

  /**
   When either service fails to answer, the round releases nothing and asks for no more
   than the limits, whatever the backup targets say and whatever console-data answers.
   */
  lemma FallbackReleasesNothing(s: Sys, step: Step, s': Sys)
    requires step.RoundBody? && Next(s, step, s') && s.pod.limits.Positive()
    requires step.input.numPods.None? || step.input.totals.None?
    ensures 1 <= RoundAsk(s.pod, step.input).rvr <= s.pod.limits.rvr
    ensures 0 <= RoundAsk(s.pod, step.input).mtn <= s.pod.limits.mtn
    ensures s'.pod.held == WithArrivals(s.pod, step.input) && s'.pod.sent == s.pod.sent
  {
    var input := step.input;
    FallbackIsSafe(input.numPods, input.totals, UpdatedTargets(s.pod.targets, input.fileTargets), s.pod.limits,
                   |s.pod.held.rvr|, |s.pod.held.mtn|);
    SameSizeNothingTaken(WithArrivals(s.pod, input), step.rs);
  }

  /** If the pools are as large as before, nothing was removed. */
  lemma SameSizeNothingTaken(h: Held, rs: seq<Removal>)
    requires h.HasAll(rs)
    requires |h.TakeAll(rs).rvr| == |h.rvr| && |h.TakeAll(rs).mtn| == |h.mtn| && |h.TakeAll(rs).pds| == |h.pds|
    ensures rs == []
  {
    TakeAllSize(h, rs);
  }

  lemma {:induction false} TakeAllSize(h: Held, rs: seq<Removal>)
    requires h.HasAll(rs)
    ensures h.TakeAll(rs).Size() == h.Size() - |rs|
  {
    if rs != [] {
      TakeAllSize(h, rs[..|rs| - 1]);
      TakeSize(h.TakeAll(rs[..|rs| - 1]), rs[|rs| - 1]);
    }
  }

  lemma TakeSize(h: Held, r: Removal)
    requires h.Has(r)
    ensures h.Take(r).Size() == h.Size() - 1
  {
  }
}
