/**
 Runs from start-up that show what can happen: with console-data keeping its contract and
 both services answering, yet the River pool bounces and the Paradise pool grows without
 bound; conman runs on a stale configuration; a pod holds nodes after its shutdown.
 */
module Scenarios {
  import opened Wrappers
  import opened Listings
  import opened Nodes
  import opened Balance
  import opened Credentials
  import opened PodSpec
  import opened ControlPlane
  import opened Convergence
  import opened CredentialLoop
  import opened Freshness
  import T = Tails

  /* ---------- building runs ---------- */

  function StartUp(limits: Limits): (s: Sys)
    requires limits.Positive()
    ensures Init(s) && s.pod.limits == limits
  {
    Sys(Pod(NOTHING_HELD, T.Tails(map[], map[], 0), Targets(-1, -1), limits, NoCommand, [], None, [], [], false),
        false, ToConfigure, true, false, map[], false)
  }

  function Last(run: seq<Sys>): Sys
    requires run != []
  {
    run[|run| - 1]
  }

  /** An honest run under steady conditions, from start-up. */
  ghost predicate SteadyRun(run: seq<Sys>, steps: seq<Step>, idealMtn: int, idealRvr: int) {
    IsRun(run, steps) && Steady(run, steps, idealMtn, idealRvr)
  }

  lemma StartUpIsSteady(limits: Limits, idealMtn: int, idealRvr: int)
    requires limits.Positive()
    ensures SteadyRun([StartUp(limits)], [], idealMtn, idealRvr)
  {
  }

  lemma StepAtExtended(run: seq<Sys>, steps: seq<Step>, step: Step, s: Sys, i: nat)
    requires IsStretch(run, steps) && Next(Last(run), step, s) && i <= |steps|
    ensures StepAt(run + [s], steps + [step], i)
  {
    if i < |steps| {
      assert StepAt(run, steps, i);
    }
  }

  lemma ExtendStretch(run: seq<Sys>, steps: seq<Step>, step: Step, s: Sys)
    requires IsStretch(run, steps) && Next(Last(run), step, s)
    ensures IsStretch(run + [s], steps + [step])
  {
    forall i | 0 <= i < |steps + [step]|
      ensures StepAt(run + [s], steps + [step], i)
    {
      StepAtExtended(run, steps, step, s, i);
    }
  }

  lemma SteadyAtExtended(run: seq<Sys>, steps: seq<Step>, step: Step, s: Sys, idealMtn: int, idealRvr: int, i: nat)
    requires Steady(run, steps, idealMtn, idealRvr) && i <= |steps|
    requires SteadyStep(Last(run), step, idealMtn, idealRvr)
    ensures SteadyAt(run + [s], steps + [step], idealMtn, idealRvr, i)
  {
    if i < |steps| {
      assert SteadyAt(run, steps, idealMtn, idealRvr, i);
    }
  }

  lemma ExtendSteady(run: seq<Sys>, steps: seq<Step>, step: Step, s: Sys, idealMtn: int, idealRvr: int)
    requires Steady(run, steps, idealMtn, idealRvr) && Next(Last(run), step, s)
    requires SteadyStep(Last(run), step, idealMtn, idealRvr)
    ensures Steady(run + [s], steps + [step], idealMtn, idealRvr)
  {
    ExtendStretch(run, steps, step, s);
    forall i | 0 <= i < |steps + [step]|
      ensures SteadyAt(run + [s], steps + [step], idealMtn, idealRvr, i)
    {
      SteadyAtExtended(run, steps, step, s, idealMtn, idealRvr, i);
    }
  }

  /* ---------- building rounds ---------- */

  lemma {:induction false} SomeOrder<A>(s: set<A>) returns (order: seq<A>)
    ensures IsOrder(order, s)
  {
    if s == {} {
      order := [];
    } else {
      var x :| x in s;
      var rest := SomeOrder(s - {x});
      OrderSnoc(rest, s - {x}, x);
      order := rest + [x];
      assert (s - {x}) + {x} == s;
    }
  }

  /** There is a listing for any pools. */
  lemma SomeListing(h: Held) returns (names: seq<Name>)
    ensures ListsHeld(names, h)
  {
    var r := SomeOrder(h.rvr.Keys);
    var p := SomeOrder(h.pds.Keys);
    var m := SomeOrder(h.mtn.Keys);
    names := r + p + m;
    ElemsConcat(r, p);
    ElemsConcat(r + p, m);
  }

  /** Removals rs are as many as the deltas of this round want. */
  predicate Fits(p: Pod, input: RoundInput, rs: seq<Removal>) {
    var h, d := WithArrivals(p, input), RoundDeltas(p, input);
    var h' := h.TakeAll(rs);
    && h.HasAll(rs) && |h'.rvr| == RvrLeft(|h.rvr|, d)
    && MtnLeft(|h.mtn|, |h.pds|, d, |h'.mtn|, |h'.pds|)
  }

  /** Any fitting removals can be what a round does. */
  lemma SomeRound(p: Pod, input: RoundInput, rs: seq<Removal>) returns (p': Pod)
    requires Fits(p, input, rs)
    ensures Round(p, input, rs, p') && p'.held == WithArrivals(p, input).TakeAll(rs)
  {
    var held := WithArrivals(p, input).TakeAll(rs);
    var names := SomeListing(held);
    var changes := Changes(Arrivals(p, input), rs);
    p' := WithTargets(p, input.fileTargets).(
      held := held,
      tails := p.tails.StopEach(NamesOf(NodesOf(rs))),
      sent := if rs == [] then p.sent else p.sent + [NodesOf(rs)],
      command := if changes then Terminated(p.command) else p.command,
      rotConf := if changes then names else p.rotConf);
  }

  /** The node loop has found no shutdown and runs a round. */
  lemma JustRound(run: seq<Sys>, steps: seq<Step>, input: RoundInput, rs: seq<Removal>, idealMtn: int, idealRvr: int)
    returns (s: Sys)
    requires Steady(run, steps, idealMtn, idealRvr) && Last(run).watching
    requires Answered(input, idealMtn, idealRvr) && Honest(Last(run).pod, input) && Fits(Last(run).pod, input, rs)
    ensures Steady(run + [s], steps + [RoundBody(input, rs)], idealMtn, idealRvr)
    ensures !s.watching && s.pod.inShutdown == Last(run).pod.inShutdown
    ensures s.pod.held == WithArrivals(Last(run).pod, input).TakeAll(rs) && s.pod.limits == Last(run).pod.limits
  {
    var p := SomeRound(Last(run).pod, input, rs);
    s := Last(run).(watching := false, pod := p);
    ExtendSteady(run, steps, RoundBody(input, rs), s, idealMtn, idealRvr);
  }

  lemma JustCheck(run: seq<Sys>, steps: seq<Step>, idealMtn: int, idealRvr: int) returns (s: Sys)
    requires Steady(run, steps, idealMtn, idealRvr) && !Last(run).watching && !Last(run).pod.inShutdown
    ensures Steady(run + [s], steps + [CheckShutdown], idealMtn, idealRvr)
    ensures s.watching && s.pod == Last(run).pod
  {
    s := Last(run).(watching := true);
    ExtendSteady(run, steps, CheckShutdown, s, idealMtn, idealRvr);
  }

  /** The node loop checks for a shutdown, finds none, and runs a round. */
  lemma CheckAndRound(run: seq<Sys>, steps: seq<Step>, input: RoundInput, rs: seq<Removal>,
                      idealMtn: int, idealRvr: int)
    returns (run': seq<Sys>, steps': seq<Step>)
    requires Steady(run, steps, idealMtn, idealRvr) && !Last(run).watching && !Last(run).pod.inShutdown
    requires Answered(input, idealMtn, idealRvr) && Honest(Last(run).pod, input) && Fits(Last(run).pod, input, rs)
    ensures Steady(run', steps', idealMtn, idealRvr) && !Last(run').watching && !Last(run').pod.inShutdown
    ensures steps' == steps + [CheckShutdown, RoundBody(input, rs)]
    ensures |run'| == |run| + 2 && run'[..|run|] == run && run'[|run|].pod == Last(run).pod
    ensures Last(run').pod.held == WithArrivals(Last(run).pod, input).TakeAll(rs)
    ensures Last(run').pod.limits == Last(run).pod.limits
  {
    var s := JustCheck(run, steps, idealMtn, idealRvr);
    var s' := JustRound(run + [s], steps + [CheckShutdown], input, rs, idealMtn, idealRvr);
    run', steps' := run + [s] + [s'], steps + [CheckShutdown] + [RoundBody(input, rs)];
  }

  /** The node loop can still run a round: it has passed its check, or will. */
  predicate CanRound(s: Sys) {
    s.watching || !s.pod.inShutdown
  }

  /* ---------- taking nodes of one class ---------- */

  lemma {:induction false} InsertAllConcat(h: Held, a: seq<NodeInfo>, b: seq<NodeInfo>)
    ensures h.InsertAll(a + b) == h.InsertAll(a).InsertAll(b)
  {
    if b == [] {
      assert a + b == a;
    } else {
      InsertAllConcat(h, a, b[..|b| - 1]);
      assert (a + b)[..|a + b| - 1] == a + b[..|b| - 1];
    }
  }

  lemma StillFresh(h: Held, a: seq<NodeInfo>, b: seq<NodeInfo>)
    requires FreshNames(h, a + b)
    ensures FreshNames(h, a) && FreshNames(h.InsertAll(a), b)
  {
    var nodes := a + b;
    assert forall i :: 0 <= i < |a| ==> nodes[i] == a[i];
    assert forall i :: 0 <= i < |b| ==> nodes[|a| + i] == b[i];
    InsertAllNames(h, a);
    KnownNames(a);
    forall i | 0 <= i < |b|
      ensures b[i].nodeName !in h.InsertAll(a).Names()
    {
      assert b[i].nodeName !in NamesOf(a);
    }
  }

  predicate AllBelong(nodes: seq<NodeInfo>, pool: Pool) {
    forall n :: n in nodes ==> Belongs(n, pool)
  }

  lemma {:induction false} ParadiseOnly(h: Held, nodes: seq<NodeInfo>)
    requires AllBelong(nodes, PdsPool)
    ensures CountRvr(nodes) == 0 && CountMtn(nodes) == |nodes|
    ensures h.InsertAll(nodes).rvr == h.rvr && h.InsertAll(nodes).mtn == h.mtn
  {
    if nodes != [] {
      ParadiseOnly(h, nodes[..|nodes| - 1]);
      assert Belongs(nodes[|nodes| - 1], PdsPool);
    }
  }

  lemma {:induction false} RiverOnly(h: Held, nodes: seq<NodeInfo>)
    requires AllBelong(nodes, RvrPool)
    ensures CountRvr(nodes) == |nodes| && CountMtn(nodes) == 0
    ensures h.InsertAll(nodes).mtn == h.mtn && h.InsertAll(nodes).pds == h.pds
  {
    if nodes != [] {
      RiverOnly(h, nodes[..|nodes| - 1]);
      assert Belongs(nodes[|nodes| - 1], RvrPool);
    }
  }

  lemma NothingTaken(h: Held)
    ensures h.TakeAll([]) == h && h.HasAll([])
  {
  }

  /** The services report one pod and one node less of each kind than makes these shares. */
  function ShareInput(idealMtn: int, idealRvr: int, nodes: seq<NodeInfo>): RoundInput {
    RoundInput(Some(1), Some(Totals(idealRvr - 1, idealMtn - 1)), Targets(-1, -1), nodes)
  }

  lemma ShareInputIsAnswer(idealMtn: int, idealRvr: int, nodes: seq<NodeInfo>)
    requires idealMtn >= 1 && idealRvr >= 1
    ensures Answered(ShareInput(idealMtn, idealRvr, nodes), idealMtn, idealRvr)
  {
  }

  /** Only River nodes are removed, n of them. */
  predicate RemovesRiver(h: Held, rs: seq<Removal>, n: nat) {
    && h.HasAll(rs) && |h.TakeAll(rs).rvr| == |h.rvr| - n
    && h.TakeAll(rs).mtn == h.mtn && h.TakeAll(rs).pds == h.pds
  }

  lemma OneMoreRemoval(h: Held, front: seq<Removal>, n: nat) returns (rs: seq<Removal>)
    requires h.Keyed() && n < |h.rvr| && RemovesRiver(h, front, n)
    ensures RemovesRiver(h, rs, n + 1)
  {
    var rest := h.TakeAll(front);
    RemovalsKeepKeys(h, front);
    var key :| key in rest.rvr;
    var r := Removal(RvrPool, rest.rvr[key]);
    rs := front + [r];
    ReleaseSnoc(h, T.Tails(map[], map[], 0), front, r);
    TakeSize(rest, r);
  }

  lemma {:induction false} SomeRemovals(h: Held, n: nat) returns (rs: seq<Removal>)
    requires h.Keyed() && n <= |h.rvr|
    ensures RemovesRiver(h, rs, n)
  {
    if n == 0 {
      rs := [];
      NothingTaken(h);
    } else {
      rs := SomeRemovals(h, n - 1);
      rs := OneMoreRemoval(h, rs, n - 1);
    }
  }

  lemma RemovalsKeepKeys(h: Held, rs: seq<Removal>)
    requires h.Keyed()
    ensures h.TakeAll(rs).Keyed()
  {
    TakeAllIsSub(h, rs);
    SubOfKeepsShape(h, h.TakeAll(rs));
  }

  /* ---------- the Mountain side grows exactly below its share ---------- */

  /** Nodes asked for by the Mountain side of a pod. */
  function MtnRequest(p: Pod, idealMtn: int): int {
    PinNumNodes(idealMtn - |p.held.mtn|, p.limits.mtn)
  }

  /** River nodes a round gives back. */
  function RiverExcess(count: nat, idealRvr: int): nat {
    if ForcedDelta(count, idealRvr) < 0 then Min(count, -ForcedDelta(count, idealRvr)) else 0
  }

  /**
   A pod below its Mountain share can be handed Paradise nodes in answer to its request, up
   to all of it; the River pool is brought back into its band as it may be.
   */
  lemma ParadiseRound(p: Pod, idealMtn: int, idealRvr: int, nodes: seq<NodeInfo>) returns (rs: seq<Removal>)
    requires idealMtn >= 1 && idealRvr >= 1 && p.limits.Positive() && p.held.Partitioned()
    requires |p.held.mtn| < idealMtn && |nodes| <= MtnRequest(p, idealMtn)
    requires AllBelong(nodes, PdsPool) && FreshNames(p.held, nodes)
    ensures Honest(p, ShareInput(idealMtn, idealRvr, nodes)) && Fits(p, ShareInput(idealMtn, idealRvr, nodes), rs)
    ensures WithArrivals(p, ShareInput(idealMtn, idealRvr, nodes)) == p.held.InsertAll(nodes)
    ensures RemovesRiver(p.held.InsertAll(nodes), rs, RiverExcess(|p.held.rvr|, idealRvr))
  {
    ParadiseRequest(p, idealMtn, idealRvr, nodes);
    ParadiseOnly(p.held, nodes);
    InsertAllPartitions(p.held, nodes);
    rs := SomeRemovals(p.held.InsertAll(nodes), RiverExcess(|p.held.rvr|, idealRvr));
    ExcessFits(|p.held.rvr|, idealRvr, RoundDeltas(p, ShareInput(idealMtn, idealRvr, nodes)));
  }

  lemma ExcessFits(count: nat, idealRvr: int, d: Deltas)
    requires d.rvr == ForcedDelta(count, idealRvr)
    ensures RiverExcess(count, idealRvr) <= count
    ensures RvrLeft(count, d) == count - RiverExcess(count, idealRvr)
  {
  }

  /** The request of a pod below its share, and that these nodes are an honest answer to it. */
  lemma ParadiseRequest(p: Pod, idealMtn: int, idealRvr: int, nodes: seq<NodeInfo>)
    requires idealMtn >= 1 && idealRvr >= 1 && p.limits.Positive()
    requires |p.held.mtn| < idealMtn && |nodes| <= MtnRequest(p, idealMtn)
    requires AllBelong(nodes, PdsPool) && FreshNames(p.held, nodes)
    ensures Honest(p, ShareInput(idealMtn, idealRvr, nodes))
    ensures Arrivals(p, ShareInput(idealMtn, idealRvr, nodes)) == nodes
    ensures RoundDeltas(p, ShareInput(idealMtn, idealRvr, nodes)).mtn > 0
    ensures RoundDeltas(p, ShareInput(idealMtn, idealRvr, nodes)).rvr == ForcedDelta(|p.held.rvr|, idealRvr)
  {
    ShareInputIsAnswer(idealMtn, idealRvr, nodes);
    DeltasFromBand(p, ShareInput(idealMtn, idealRvr, nodes), idealMtn, idealRvr);
    ParadiseOnly(p.held, nodes);
  }

  lemma RoundOrCheckAndRound(run: seq<Sys>, steps: seq<Step>, input: RoundInput, rs: seq<Removal>,
                             idealMtn: int, idealRvr: int)
    returns (run': seq<Sys>, steps': seq<Step>)
    requires Steady(run, steps, idealMtn, idealRvr) && CanRound(Last(run))
    requires Answered(input, idealMtn, idealRvr) && Honest(Last(run).pod, input) && Fits(Last(run).pod, input, rs)
    ensures Steady(run', steps', idealMtn, idealRvr) && run'[0] == run[0]
    ensures Last(run').pod.inShutdown == Last(run).pod.inShutdown
    ensures Last(run').pod.held == WithArrivals(Last(run).pod, input).TakeAll(rs)
    ensures Last(run').pod.limits == Last(run).pod.limits
    ensures Rounds(steps', |steps'|) == Rounds(steps, |steps|) + 1
  {
    if Last(run).watching {
      var s := JustRound(run, steps, input, rs, idealMtn, idealRvr);
      run', steps' := run + [s], steps + [RoundBody(input, rs)];
      RoundsOneMore(steps, RoundBody(input, rs));
    } else {
      run', steps' := CheckAndRound(run, steps, input, rs, idealMtn, idealRvr);
      RoundsTwoMore(steps, CheckShutdown, RoundBody(input, rs));
      SameBefore(run, run', 0);
    }
  }

  lemma SameBefore<A>(a: seq<A>, b: seq<A>, i: nat)
    requires |a| <= |b| && b[..|a|] == a && i < |a|
    ensures b[i] == a[i]
  {
    assert b[..|a|][i] == b[i];
  }

  lemma FreshForFewer(h: Held, rest: Held, nodes: seq<NodeInfo>)
    requires FreshNames(h, nodes) && rest.SubOf(h)
    ensures FreshNames(rest, nodes)
  {
    SubOfKeepsShape(h, rest);
  }

  /** One more round in which the pod is handed these Paradise nodes. */
  lemma OneMoreBatch(run: seq<Sys>, steps: seq<Step>, nodes: seq<NodeInfo>, rest: seq<NodeInfo>,
                     idealMtn: int, idealRvr: int)
    returns (run': seq<Sys>, steps': seq<Step>)
    requires idealMtn >= 1 && idealRvr >= 1 && Steady(run, steps, idealMtn, idealRvr) && CanRound(Last(run))
    requires |Last(run).pod.held.mtn| < idealMtn && |nodes| <= MtnRequest(Last(run).pod, idealMtn)
    requires AllBelong(nodes, PdsPool) && FreshNames(Last(run).pod.held, nodes + rest)
    ensures Steady(run', steps', idealMtn, idealRvr) && run'[0] == run[0]
    ensures Last(run').pod.inShutdown == Last(run).pod.inShutdown && Last(run').pod.limits == Last(run).pod.limits
    ensures Last(run').pod.held.mtn == Last(run).pod.held.mtn
    ensures |Last(run').pod.held.pds| == |Last(run).pod.held.pds| + |nodes|
    ensures FreshNames(Last(run').pod.held, rest)
    ensures Rounds(steps', |steps'|) == Rounds(steps, |steps|) + 1
  {
    var p, input := Last(run).pod, ShareInput(idealMtn, idealRvr, nodes);
    SteadyKeepsShape(run, steps, idealMtn, idealRvr, |steps|);
    StillFresh(p.held, nodes, rest);
    var rs := ParadiseRound(p, idealMtn, idealRvr, nodes);
    ShareInputIsAnswer(idealMtn, idealRvr, nodes);
    run', steps' := RoundOrCheckAndRound(run, steps, input, rs, idealMtn, idealRvr);
    InsertAllPartitions(p.held, nodes);
    ParadiseOnly(p.held, nodes);
    TakeAllIsSub(p.held.InsertAll(nodes), rs);
    FreshForFewer(p.held.InsertAll(nodes), Last(run').pod.held, rest);
  }

  function Flatten(batches: seq<seq<NodeInfo>>): seq<NodeInfo> {
    if batches == [] then [] else batches[0] + Flatten(batches[1..])
  }

  /** Batches of Paradise nodes, each of the size of a request. */
  predicate FullRequests(batches: seq<seq<NodeInfo>>, request: int) {
    forall b :: b in batches ==> AllBelong(b, PdsPool) && |b| == request
  }

  lemma {:induction false} GrowFrom(run: seq<Sys>, steps: seq<Step>, batches: seq<seq<NodeInfo>>,
                                    idealMtn: int, idealRvr: int)
    returns (run': seq<Sys>, steps': seq<Step>)
    requires idealMtn >= 1 && idealRvr >= 1 && Steady(run, steps, idealMtn, idealRvr)
    requires |Last(run).pod.held.mtn| < idealMtn && (batches != [] ==> CanRound(Last(run)))
    requires !Last(run).pod.inShutdown && FreshNames(Last(run).pod.held, Flatten(batches))
    requires FullRequests(batches, MtnRequest(Last(run).pod, idealMtn))
    ensures Steady(run', steps', idealMtn, idealRvr) && run'[0] == run[0]
    ensures Last(run').pod.held.mtn == Last(run).pod.held.mtn
    ensures |Last(run').pod.held.pds| ==
            |Last(run).pod.held.pds| + |batches| * MtnRequest(Last(run).pod, idealMtn)
    ensures Rounds(steps', |steps'|) == Rounds(steps, |steps|) + |batches|
    decreases |batches|
  {
    if batches == [] {
      run', steps' := run, steps;
    } else {
      var request := MtnRequest(Last(run).pod, idealMtn);
      assert batches[0] in batches;
      run', steps' := OneMoreBatch(run, steps, batches[0], Flatten(batches[1..]), idealMtn, idealRvr);
      run', steps' := GrowFrom(run', steps', batches[1..], idealMtn, idealRvr);
      Times(|batches| - 1, request);
    }
  }

  lemma Times(n: nat, unit: int)
    ensures (n + 1) * unit == n * unit + unit
  {
  }

  /**
   The sum of both pools need not converge: from any state below its Mountain share, a pod
   that is only ever given Paradise nodes takes a full request in every round.  For any
   batches of different Paradise nodes, each as large as a request, there is a run from
   that state that takes in all of them and no Mountain node.
   */
  lemma ParadiseGrowsWithoutBound(s: Sys, batches: seq<seq<NodeInfo>>, idealMtn: int, idealRvr: int)
    returns (run: seq<Sys>, steps: seq<Step>)
    requires idealMtn >= 1 && idealRvr >= 1 && s.pod.limits.Positive() && s.pod.held.Partitioned()
    requires !s.pod.inShutdown && |s.pod.held.mtn| < idealMtn
    requires FreshNames(s.pod.held, Flatten(batches)) && FullRequests(batches, MtnRequest(s.pod, idealMtn))
    ensures Steady(run, steps, idealMtn, idealRvr) && run[0] == s && Rounds(steps, |steps|) == |batches|
    ensures Last(run).pod.held.mtn == s.pod.held.mtn
    ensures |Last(run).pod.held.pds| == |s.pod.held.pds| + |batches| * MtnRequest(s.pod, idealMtn)
    ensures MtnRequest(s.pod, idealMtn) >= 1
  {
    run, steps := GrowFrom([s], [], batches, idealMtn, idealRvr);
  }

  /** In particular from start-up. */
  lemma ParadiseGrowsFromStartUp(batches: seq<seq<NodeInfo>>, idealMtn: int, limits: Limits)
    returns (run: seq<Sys>, steps: seq<Step>)
    requires idealMtn >= 1 && limits.Positive() && FreshNames(NOTHING_HELD, Flatten(batches))
    requires FullRequests(batches, PinNumNodes(idealMtn, limits.mtn))
    ensures SteadyRun(run, steps, idealMtn, 1) && Rounds(steps, |steps|) == |batches|
    ensures |Last(run).pod.held.mtn| == 0
    ensures |Last(run).pod.held.pds| == |batches| * PinNumNodes(idealMtn, limits.mtn)
  {
    run, steps := ParadiseGrowsWithoutBound(StartUp(limits), batches, idealMtn, 1);
  }

  /** Under steady conditions this run leads from s to more Mountain and Paradise nodes together. */
  ghost predicate GrowsFrom(s: Sys, run: seq<Sys>, steps: seq<Step>, idealMtn: int, idealRvr: int) {
    && Steady(run, steps, idealMtn, idealRvr) && run[0] == s
    && MtnTotal(Last(run).pod.held) > MtnTotal(s.pod.held)
  }

  /**
   Exactly when the total can grow: while a pod has its share of Mountain nodes, no run takes
   the sum of its Mountain and Paradise nodes above what it is; below its share, some run
   does, for want of nothing but a single Paradise node to be handed.
   */
  lemma TotalCanGrowIffBelowShare(s: Sys, node: NodeInfo, idealMtn: int, idealRvr: int)
    requires idealMtn >= 1 && idealRvr >= 1 && s.pod.limits.Positive() && s.pod.held.Partitioned()
    requires CanRound(s) && node.IsParadise() && node.nodeName !in s.pod.held.Names()
    ensures (exists run, steps :: GrowsFrom(s, run, steps, idealMtn, idealRvr)) <==> |s.pod.held.mtn| < idealMtn
  {
    if |s.pod.held.mtn| < idealMtn {
      var run, steps := OneMoreBatch([s], [], [node], [], idealMtn, idealRvr);
      assert GrowsFrom(s, run, steps, idealMtn, idealRvr);
    } else if run, steps :| GrowsFrom(s, run, steps, idealMtn, idealRvr) {
      TotalNeverGrows(run, steps, idealMtn, idealRvr, |steps|);
      assert false;
    }
  }

  lemma {:induction false} RoundsOfPrefix(steps: seq<Step>, more: seq<Step>, n: nat)
    requires n <= |steps|
    ensures Rounds(steps + more, n) == Rounds(steps, n)
  {
    if n > 0 {
      RoundsOfPrefix(steps, more, n - 1);
    }
  }

  lemma RoundsTwoMore(steps: seq<Step>, a: Step, b: Step)
    ensures Rounds(steps + [a, b], |steps| + 2) ==
            Rounds(steps, |steps|) + (if a.RoundBody? then 1 else 0) + (if b.RoundBody? then 1 else 0)
  {
    RoundsOfPrefix(steps, [a, b], |steps|);
    assert Rounds(steps + [a, b], |steps| + 1) == Rounds(steps + [a, b], |steps|) + if a.RoundBody? then 1 else 0;
  }

  lemma RoundsOneMore(steps: seq<Step>, a: Step)
    ensures Rounds(steps + [a], |steps| + 1) == Rounds(steps, |steps|) + if a.RoundBody? then 1 else 0
  {
    RoundsOfPrefix(steps, [a], |steps|);
  }

  /* ---------- River bounces ---------- */

  lemma RiverRound(p: Pod, ideal: int, nodes: seq<NodeInfo>)
    requires ideal >= 1 && p.limits.Positive() && p.held.Partitioned() && p.held.mtn == map[]
    requires AllBelong(nodes, RvrPool) && FreshNames(p.held, nodes)
    requires ForcedDelta(|p.held.rvr|, ideal) > 0
    requires |nodes| == PinNumNodes(ForcedDelta(|p.held.rvr|, ideal), p.limits.rvr)
    ensures Honest(p, ShareInput(1, ideal, nodes)) && Fits(p, ShareInput(1, ideal, nodes), [])
    ensures WithArrivals(p, ShareInput(1, ideal, nodes)) == p.held.InsertAll(nodes)
  {
    ShareInputIsAnswer(1, ideal, nodes);
    DeltasFromBand(p, ShareInput(1, ideal, nodes), 1, ideal);
    RiverOnly(p.held, nodes);
    NothingTaken(p.held.InsertAll(nodes));
  }

  /** Only River nodes are held: these, `count` of them. */
  predicate OnlyRiver(s: Sys, nodes: seq<NodeInfo>, count: nat) {
    && !s.watching && !s.pod.inShutdown
    && s.pod.held == NOTHING_HELD.InsertAll(nodes) && s.pod.held.Partitioned()
    && s.pod.held.mtn == map[] && s.pod.held.pds == map[] && |s.pod.held.rvr| == count
  }

  /** The last step was a round, and it found `count` River nodes. */
  predicate GrewFrom(run: seq<Sys>, steps: seq<Step>, count: nat) {
    && |steps| >= 2 && |run| == |steps| + 1
    && steps[|steps| - 1].RoundBody? && |run[|run| - 2].pod.held.rvr| == count
  }

  lemma MoreRiver(run: seq<Sys>, steps: seq<Step>, before: seq<NodeInfo>, nodes: seq<NodeInfo>, ideal: int, count: nat)
    returns (run': seq<Sys>, steps': seq<Step>)
    requires ideal >= 1 && SteadyRun(run, steps, 1, ideal) && OnlyRiver(Last(run), before, count)
    requires Last(run).pod.limits.Positive() && ForcedDelta(count, ideal) > 0
    requires |nodes| == PinNumNodes(ForcedDelta(count, ideal), Last(run).pod.limits.rvr)
    requires AllBelong(nodes, RvrPool) && FreshNames(Last(run).pod.held, nodes)
    ensures SteadyRun(run', steps', 1, ideal) && Last(run').pod.limits == Last(run).pod.limits
    ensures OnlyRiver(Last(run'), before + nodes, count + |nodes|)
    ensures GrewFrom(run', steps', count)
  {
    var p, input := Last(run).pod, ShareInput(1, ideal, nodes);
    ShareInputIsAnswer(1, ideal, nodes);
    RiverRound(p, ideal, nodes);
    run', steps' := CheckAndRound(run, steps, input, [], 1, ideal);
    NothingTaken(WithArrivals(p, input));
    InsertAllConcat(NOTHING_HELD, before, nodes);
    InsertAllPartitions(p.held, nodes);
    RiverOnly(p.held, nodes);
  }

  lemma PartsBelong(a: seq<NodeInfo>, b: seq<NodeInfo>, pool: Pool)
    requires AllBelong(a + b, pool)
    ensures AllBelong(a, pool) && AllBelong(b, pool)
  {
  }

  /** So many River nodes have been taken in, the last of them -- above the share -- in a round of its own. */
  predicate Climbed(run: seq<Sys>, steps: seq<Step>, nodes: seq<NodeInfo>, ideal: nat) {
    && run != [] && Last(run).pod.limits == Limits(ideal, 1)
    && OnlyRiver(Last(run), nodes, |nodes|)
    && GrewFrom(run, steps, if |nodes| > ideal then |nodes| - 1 else 0)
  }

  lemma FillsUp(nodes: seq<NodeInfo>, ideal: int) returns (run: seq<Sys>, steps: seq<Step>)
    requires ideal >= 1 && |nodes| == ideal && AllBelong(nodes, RvrPool) && FreshNames(NOTHING_HELD, nodes)
    ensures SteadyRun(run, steps, 1, ideal) && Climbed(run, steps, nodes, ideal)
  {
    run, steps := [StartUp(Limits(ideal, 1))], [];
    StartUpIsSteady(Limits(ideal, 1), 1, ideal);
    assert NOTHING_HELD.InsertAll([]) == NOTHING_HELD && [] + nodes == nodes;
    run, steps := MoreRiver(run, steps, [], nodes, ideal, 0);
  }

  lemma InBandAsksOne(count: nat, ideal: int)
    requires ideal >= 1 && ideal <= count < RvrCeiling(ideal)
    ensures ForcedDelta(count, ideal) == 1 && PinNumNodes(1, ideal) == 1
  {
  }

  lemma ClimbsOne(run: seq<Sys>, steps: seq<Step>, front: seq<NodeInfo>, last: seq<NodeInfo>, ideal: int)
    returns (run': seq<Sys>, steps': seq<Step>)
    requires ideal >= 1 && ideal <= |front| < RvrCeiling(ideal) && |last| == 1
    requires SteadyRun(run, steps, 1, ideal) && Climbed(run, steps, front, ideal)
    requires AllBelong(last, RvrPool) && FreshNames(Last(run).pod.held, last)
    ensures SteadyRun(run', steps', 1, ideal) && Climbed(run', steps', front + last, ideal)
  {
    InBandAsksOne(|front|, ideal);
    run', steps' := MoreRiver(run, steps, front, last, ideal, |front|);
  }

  /** A pod fills up to its share in one round and then takes one node a round, to one above the top of its band. */
  lemma {:induction false} RiverClimbs(nodes: seq<NodeInfo>, ideal: int) returns (run: seq<Sys>, steps: seq<Step>)
    requires ideal >= 1 && AllBelong(nodes, RvrPool) && FreshNames(NOTHING_HELD, nodes)
    requires ideal <= |nodes| <= RvrCeiling(ideal)
    ensures SteadyRun(run, steps, 1, ideal) && Climbed(run, steps, nodes, ideal)
    decreases |nodes|
  {
    if |nodes| == ideal {
      run, steps := FillsUp(nodes, ideal);
    } else {
      var front, last := nodes[..|nodes| - 1], nodes[|nodes| - 1..];
      Split(nodes, |nodes| - 1);
      PartsBelong(front, last, RvrPool);
      StillFresh(NOTHING_HELD, front, last);
      run, steps := RiverClimbs(front, ideal);
      run, steps := ClimbsOne(run, steps, front, last, ideal);
    }
  }

  lemma Split<A>(s: seq<A>, i: nat)
    requires i <= |s|
    ensures s[..i] + s[i..] == s
  {
  }

  lemma ReleaseRound(p: Pod, ideal: int, rs: seq<Removal>)
    requires ideal >= 1 && p.limits.Positive() && p.held.mtn == map[] && p.held.pds == map[]
    requires |p.held.rvr| == RvrCeiling(ideal)
    requires RemovesRiver(p.held, rs, RvrCeiling(ideal) - ideal)
    ensures Honest(p, ShareInput(1, ideal, [])) && Fits(p, ShareInput(1, ideal, []), rs)
    ensures WithArrivals(p, ShareInput(1, ideal, [])) == p.held
  {
    ShareInputIsAnswer(1, ideal, []);
    DeltasFromBand(p, ShareInput(1, ideal, []), 1, ideal);
  }

  lemma ComesDown(run: seq<Sys>, steps: seq<Step>, nodes: seq<NodeInfo>, ideal: int)
    returns (run': seq<Sys>, steps': seq<Step>)
    requires ideal >= 1 && |nodes| == RvrCeiling(ideal)
    requires SteadyRun(run, steps, 1, ideal) && Climbed(run, steps, nodes, ideal)
    ensures SteadyRun(run', steps', 1, ideal) && |Last(run').pod.held.rvr| == ideal
    ensures |run'| == |run| + 2 && run'[..|run|] == run
    ensures |steps'| == |steps| + 2 && Consecutive(steps', |steps| - 1, |steps| + 1)
  {
    var p := Last(run).pod;
    var rs := SomeRemovals(p.held, |nodes| - ideal);
    ShareInputIsAnswer(1, ideal, []);
    ReleaseRound(p, ideal, rs);
    run', steps' := CheckAndRound(run, steps, ShareInput(1, ideal, []), rs, 1, ideal);
  }

  /** The last two rounds: from the top of the band to one more, and down to the share. */
  predicate Bounced(run: seq<Sys>, steps: seq<Step>, ideal: int) {
    var n := |steps|;
    && n >= 4 && |run| == n + 1 && Consecutive(steps, n - 3, n - 1)
    && |run[n - 3].pod.held.rvr| == 11 * ideal / 10
    && |run[n - 2].pod.held.rvr| == 11 * ideal / 10 + 1
    && |run[n].pod.held.rvr| == ideal
  }

  lemma UpAndDown(run0: seq<Sys>, steps0: seq<Step>, run: seq<Sys>, steps: seq<Step>, nodes: seq<NodeInfo>, ideal: int)
    requires ideal >= 1 && |nodes| == RvrCeiling(ideal) && Climbed(run0, steps0, nodes, ideal)
    requires |run| == |run0| + 2 && run[..|run0|] == run0 && |Last(run).pod.held.rvr| == ideal
    requires |steps| == |steps0| + 2 && Consecutive(steps, |steps0| - 1, |steps0| + 1)
    ensures Bounced(run, steps, ideal)
  {
    SameBefore(run0, run, |run0| - 2);
    SameBefore(run0, run, |run0| - 1);
  }

  /**
   The bounce does happen, for every share: given enough River nodes there is a run from
   start-up in which one round takes the pool from the top of its band to one more, and
   the next round down to the share.
   */
  lemma RiverBounces(nodes: seq<NodeInfo>, ideal: int) returns (run: seq<Sys>, steps: seq<Step>)
    requires ideal >= 1 && |nodes| == RvrCeiling(ideal)
    requires AllBelong(nodes, RvrPool) && FreshNames(NOTHING_HELD, nodes)
    ensures SteadyRun(run, steps, 1, ideal) && Bounced(run, steps, ideal)
  {
    var run0, steps0 := RiverClimbs(nodes, ideal);
    run, steps := ComesDown(run0, steps0, nodes, ideal);
    UpAndDown(run0, steps0, run, steps, nodes, ideal);
  }

  /* ---------- one node ---------- */

  /** A run from start-up in which console-data keeps its contract. */
  ghost predicate FairRun(run: seq<Sys>, steps: seq<Step>) {
    IsRun(run, steps) && HonestRun(run, steps)
  }

  lemma HonestAtExtended(run: seq<Sys>, steps: seq<Step>, step: Step, s: Sys, i: nat)
    requires HonestRun(run, steps) && i <= |steps| && HonestStep(Last(run), step)
    ensures HonestAt(run + [s], steps + [step], i)
  {
    if i < |steps| {
      assert HonestAt(run, steps, i);
    }
  }

  lemma ExtendFair(run: seq<Sys>, steps: seq<Step>, step: Step, s: Sys)
    requires FairRun(run, steps) && Next(Last(run), step, s) && HonestStep(Last(run), step)
    ensures FairRun(run + [s], steps + [step]) && Last(run + [s]) == s
  {
    ExtendStretch(run, steps, step, s);
    forall i | 0 <= i < |steps + [step]|
      ensures HonestAt(run + [s], steps + [step], i)
    {
      HonestAtExtended(run, steps, step, s, i);
    }
  }

  function JustOne(node: NodeInfo): Held {
    Held(map[node.nodeName := node], map[], map[])
  }

  lemma OneIsListed(node: NodeInfo)
    requires node.IsRiver()
    ensures NOTHING_HELD.InsertAll([node]) == JustOne(node) && JustOne(node).Partitioned()
    ensures Visits([node], JustOne(node).rvr) && Visits([], JustOne(node).pds) && Visits([], JustOne(node).mtn)
    ensures Listing([node], JustOne(node)) && NamesOf([node]) == [node.nodeName]
  {
    assert [node][..0] == [] && NOTHING_HELD.InsertAll([]) == NOTHING_HELD;
    assert NamesOf([]) == [] && NamesOf([node]) == [node.nodeName];
    assert Visits([node], JustOne(node).rvr);
    ListingFromVisits([node], [], [], JustOne(node));
    assert [node] + [] + [] == [node];
  }

  /** An empty pod in the middle of its node loop takes in a River node. */
  lemma FirstNode(s: Sys, node: NodeInfo) returns (s': Sys)
    requires s.watching && s.pod.held == NOTHING_HELD && s.pod.limits.Positive() && node.IsRiver()
    ensures Next(s, RoundBody(ShareInput(1, 1, [node]), []), s')
    ensures HonestStep(s, RoundBody(ShareInput(1, 1, [node]), []))
    ensures s'.pod.held == JustOne(node) && s' == s.(watching := false, pod := s'.pod)
    ensures s'.pod.command == Terminated(s.pod.command) && s'.pod.inShutdown == s.pod.inShutdown
  {
    OneIsListed(node);
    RiverRound(s.pod, 1, [node]);
    var p := SomeRound(s.pod, ShareInput(1, 1, [node]), []);
    NothingTaken(JustOne(node));
    OneIsKnown(node);
    s' := s.(watching := false, pod := p);
  }

  lemma OneIsKnown(node: NodeInfo)
    requires node.IsRiver()
    ensures Known([node]) == [node]
  {
    assert [node][..0] == [] && Known([]) == [];
  }

  /** Any pod that holds just this node can be configured for it. */
  lemma SomePass(p: Pod, node: NodeInfo, write: bool, vault: Vault) returns (p': Pod)
    requires p.held == JustOne(node) && node.IsRiver()
    ensures Configured(p, [node], write, vault, p')
    ensures p'.held == p.held && p'.command == p.command && p'.inShutdown == p.inShutdown
  {
    OneIsListed(node);
    var passwords := GetPasswords(vault, BmcNames(p.held));
    var conf := Lines([node], passwords) + Lines([], passwords) + Lines([], passwords);
    assert ThreeSections(conf, p.held, passwords, [node], [], []);
    p' := p.(tails := p.tails.StartEach([node.nodeName]),
             conf := if write then conf else p.conf,
             previousPasswords := if write then Some(passwords) else p.previousPasswords);
  }

  /** Configured for its one node and about to start conman. */
  ghost predicate Ready(s: Sys, node: NodeInfo, vault: Vault) {
    && s.pod.held == JustOne(node) && s.pc == ToStart(true) && s.pod.command == NoCommand
    && !s.firstPass && !s.termDue && !s.released && s.vault == vault
    && s.pod.previousPasswords == Some(GetPasswords(vault, BmcNames(s.pod.held)))
    && ConfFor(s.pod.conf, s.pod.held, s.pod.previousPasswords.value)
  }

  lemma GetsFirstNode(node: NodeInfo, limits: Limits) returns (run: seq<Sys>, steps: seq<Step>)
    requires limits.Positive() && node.IsRiver()
    ensures FairRun(run, steps) && |steps| == 2
    ensures var s := Last(run);
            && s.pod.held == JustOne(node) && s.pc == ToConfigure && s.pod.command == NoCommand
            && !s.termDue && !s.released
  {
    var s0 := StartUp(limits);
    var s1 := s0.(watching := true);
    ExtendFair([s0], [], CheckShutdown, s1);
    var s2 := FirstNode(s1, node);
    var round := RoundBody(ShareInput(1, 1, [node]), []);
    ExtendFair([s0] + [s1], [] + [CheckShutdown], round, s2);
    run, steps := [s0] + [s1] + [s2], [] + [CheckShutdown] + [round];
  }

  lemma GetsReady(node: NodeInfo, vault: Vault, limits: Limits) returns (run: seq<Sys>, steps: seq<Step>)
    requires limits.Positive() && node.IsRiver()
    ensures FairRun(run, steps) && Ready(Last(run), node, vault)
    ensures |steps| == 3 && steps[2].Configure?
  {
    run, steps := GetsFirstNode(node, limits);
    var s := ReadyFor(Last(run), node, vault);
    ExtendFair(run, steps, Configure([node], true, vault), s);
    run, steps := run + [s], steps + [Configure([node], true, vault)];
  }

  lemma ReadyFor(s: Sys, node: NodeInfo, vault: Vault) returns (s': Sys)
    requires s.pod.held == JustOne(node) && node.IsRiver() && s.pc == ToConfigure && s.pod.command == NoCommand
    requires !s.termDue && !s.released
    ensures Next(s, Configure([node], true, vault), s') && Ready(s', node, vault)
  {
    var p := SomePass(s.pod, node, true, vault);
    s' := s.(pod := p, pc := ToStart(true), firstPass := false, vault := vault);
    assert s.pod.held.Size() == 1;
  }

  /* ---------- conman on a stale configuration ---------- */

  lemma DropThenStart(run: seq<Sys>, steps: seq<Step>, node: NodeInfo, vault: Vault)
    returns (run': seq<Sys>, steps': seq<Step>)
    requires FairRun(run, steps) && Ready(Last(run), node, vault) && node.IsRiver()
    ensures FairRun(run', steps') && !Last(run').released && Last(run').pod.command == Alive(false)
    ensures Last(run').pod.held.Names() == {} && Elems(EntryNames(Last(run').pod.conf)) == {node.nodeName}
    ensures steps' == steps + [Heartbeat(Some([node.nodeName]))] + [StartConman]
  {
    var s1, s2 := DropsAndStarts(Last(run), node, vault);
    var drop := Heartbeat(Some([node.nodeName]));
    ExtendFair(run, steps, drop, s1);
    ExtendFair(run + [s1], steps + [drop], StartConman, s2);
    run', steps' := run + [s1] + [s2], steps + [drop] + [StartConman];
  }

  /**
   A SIGTERM lost between configuration and start: the node is dropped by a heartbeat just
   then, and conman comes up, unsignalled, watching a node that is not held.
   */
  lemma LostTermLeavesStaleConfig(node: NodeInfo, vault: Vault, limits: Limits)
    returns (run: seq<Sys>, steps: seq<Step>)
    requires limits.Positive() && node.IsRiver()
    ensures FairRun(run, steps) && !Last(run).released && Last(run).pod.command == Alive(false)
    ensures Last(run).pod.held.Names() == {} && Elems(EntryNames(Last(run).pod.conf)) == {node.nodeName}
    ensures !WatchesHeld(Last(run).pod)
    ensures |steps| == 5 && steps[2].Configure?
    ensures steps[3] == Heartbeat(Some([node.nodeName])) && steps[4] == StartConman
  {
    var run0, steps0 := GetsReady(node, vault, limits);
    run, steps := DropThenStart(run0, steps0, node, vault);
    StaysWatching(Last(run), node);
  }

  lemma StaysWatching(s: Sys, node: NodeInfo)
    requires s.pod.held.Names() == {} && Elems(EntryNames(s.pod.conf)) == {node.nodeName}
    ensures !WatchesHeld(s.pod)
  {
    assert node.nodeName in Elems(EntryNames(s.pod.conf));
  }

  lemma DropsAndStarts(s: Sys, node: NodeInfo, vault: Vault) returns (s1: Sys, s2: Sys)
    requires Ready(s, node, vault) && node.IsRiver()
    ensures Next(s, Heartbeat(Some([node.nodeName])), s1) && Next(s1, StartConman, s2)
    ensures s2.pod.command == Alive(false) && !s2.released && s2.pod.held.Names() == {}
    ensures Elems(EntryNames(s2.pod.conf)) == {node.nodeName}
  {
    var reply := Some([node.nodeName]);
    OneIsListed(node);
    DropAllIsWithout(s.pod.held, [node.nodeName]);
    ConfNames(s.pod.conf, s.pod.held, s.pod.previousPasswords.value);
    s1 := s.(pod := AfterHeartbeat(s.pod, reply));
    s2 := s1.(pod := s1.pod.(command := Alive(false)), pc := Executing);
  }

  /* ---------- nodes held after shutdown ---------- */

  /** Shut down before any round, with one on its way. */
  lemma ShutsDown(limits: Limits) returns (run: seq<Sys>, steps: seq<Step>)
    requires limits.Positive()
    ensures FairRun(run, steps) && |steps| == 3 && steps[1].BeginShutdown? && steps[2].ReleaseAll?
    ensures Last(run).released && Last(run).watching && Last(run).pod.inShutdown
    ensures Last(run).pod.held == NOTHING_HELD && Last(run).pod.limits == limits
  {
    var s0 := StartUp(limits);
    var s1 := s0.(watching := true);
    ExtendFair([s0], [], CheckShutdown, s1);
    var s2 := s1.(pod := s1.pod.(inShutdown := true));
    ExtendFair([s0] + [s1], [] + [CheckShutdown], BeginShutdown, s2);
    var s3 := NothingToRelease(s2);
    ExtendFair([s0] + [s1] + [s2], [] + [CheckShutdown] + [BeginShutdown], ReleaseAll([]), s3);
    run, steps := [s0] + [s1] + [s2] + [s3], [] + [CheckShutdown] + [BeginShutdown] + [ReleaseAll([])];
  }

  /** A round that had passed the check of inShutdown takes in a node after all nodes have been given back. */
  lemma LateRoundRefills(node: NodeInfo, limits: Limits) returns (run: seq<Sys>, steps: seq<Step>)
    requires limits.Positive() && node.IsRiver()
    ensures FairRun(run, steps)
    ensures |steps| == 4 && steps[1].BeginShutdown? && steps[2].ReleaseAll? && steps[3].RoundBody?
    ensures Last(run).released && Last(run).pod.inShutdown && Last(run).pod.held.Names() == {node.nodeName}
  {
    run, steps := ShutsDown(limits);
    var s := FirstNode(Last(run), node);
    var round := RoundBody(ShareInput(1, 1, [node]), []);
    ExtendFair(run, steps, round, s);
    run, steps := run + [s], steps + [round];
  }

  lemma NothingToRelease(s: Sys) returns (s': Sys)
    requires s.pod.held == NOTHING_HELD && s.pod.inShutdown && !s.released
    ensures Next(s, ReleaseAll([]), s') && s'.released && s'.watching == s.watching
    ensures s'.pod.held == NOTHING_HELD && s'.pod.inShutdown && s'.pod.limits == s.pod.limits
  {
    assert NamesOf([]) == [] && Listing([], NOTHING_HELD);
    s' := s.(released := true,
             pod := s.pod.(held := NOTHING_HELD, tails := s.pod.tails.StopEach([]), sent := s.pod.sent + [[]]));
  }

  /* ---------- restarts for ever ---------- */

  /** Conman runs for its one node, whose BMC's credentials in the vault are no longer the recorded ones. */
  ghost predicate RunsOutdated(s: Sys, node: NodeInfo) {
    && s.pod.held == JustOne(node) && s.pc == Executing && s.pod.command == Alive(false)
    && !s.firstPass && !s.termDue && !s.released && Seen(s)
  }

  /** The monitor notices, signals, and conman is restarted without its file being written. */
  function Cycle(node: NodeInfo, vault: Vault): seq<Step> {
    [MonitorCheck(false), MonitorTerm, ConmanExits, CollectConman, Configure([node], false, vault), StartConman]
  }

  lemma Stops(s: Sys, node: NodeInfo) returns (s1: Sys, s2: Sys, s3: Sys, s4: Sys)
    requires RunsOutdated(s, node)
    ensures Next(s, MonitorCheck(false), s1) && Next(s1, MonitorTerm, s2)
    ensures Next(s2, ConmanExits, s3) && Next(s3, CollectConman, s4)
    ensures s4 == s.(pod := s.pod.(command := NoCommand), pc := ToConfigure)
  {
    s1 := s.(termDue := true);
    s2 := s.(pod := s.pod.(command := Alive(true)));
    s3 := s.(pod := s.pod.(command := Dead));
    s4 := s.(pod := s.pod.(command := NoCommand), pc := ToConfigure);
  }

  lemma ComesBack(s: Sys, s4: Sys, node: NodeInfo) returns (s5: Sys, s6: Sys)
    requires RunsOutdated(s, node) && node.IsRiver()
    requires s4 == s.(pod := s.pod.(command := NoCommand), pc := ToConfigure)
    ensures Next(s4, Configure([node], false, s.vault), s5) && Next(s5, StartConman, s6)
    ensures RunsOutdated(s6, node) && s6.vault == s.vault
  {
    var p := SomePass(s4.pod, node, false, s.vault);
    assert s4.pod.held.Size() == 1;
    s5 := s4.(pod := p, pc := ToStart(true));
    s6 := s5.(pod := p.(command := Alive(false)), pc := Executing);
  }

  lemma OneCycle(run: seq<Sys>, steps: seq<Step>, node: NodeInfo) returns (run': seq<Sys>)
    requires FairRun(run, steps) && RunsOutdated(Last(run), node) && node.IsRiver()
    ensures FairRun(run', steps + Cycle(node, Last(run).vault))
    ensures RunsOutdated(Last(run'), node) && Last(run').vault == Last(run).vault
  {
    var s := Last(run);
    var s1, s2, s3, s4 := Stops(s, node);
    var s5, s6 := ComesBack(s, s4, node);
    var configure := Configure([node], false, s.vault);
    run' := ExtendFour(run, steps, s1, s2, s3, s4);
    var steps' := steps + [MonitorCheck(false)] + [MonitorTerm] + [ConmanExits] + [CollectConman];
    ExtendFair(run', steps', configure, s5);
    ExtendFair(run' + [s5], steps' + [configure], StartConman, s6);
    run' := run' + [s5] + [s6];
    SixMore(steps, MonitorCheck(false), MonitorTerm, ConmanExits, CollectConman, configure, StartConman);
  }

  lemma SixMore<A>(s: seq<A>, a: A, b: A, c: A, d: A, e: A, f: A)
    ensures s + [a, b, c, d, e, f] == s + [a] + [b] + [c] + [d] + [e] + [f]
  {
  }

  lemma ExtendFour(run: seq<Sys>, steps: seq<Step>, s1: Sys, s2: Sys, s3: Sys, s4: Sys) returns (run': seq<Sys>)
    requires FairRun(run, steps)
    requires Next(Last(run), MonitorCheck(false), s1) && Next(s1, MonitorTerm, s2)
    requires Next(s2, ConmanExits, s3) && Next(s3, CollectConman, s4)
    ensures FairRun(run', steps + [MonitorCheck(false)] + [MonitorTerm] + [ConmanExits] + [CollectConman])
    ensures Last(run') == s4
  {
    ExtendFair(run, steps, MonitorCheck(false), s1);
    ExtendFair(run + [s1], steps + [MonitorCheck(false)], MonitorTerm, s2);
    ExtendFair(run + [s1] + [s2], steps + [MonitorCheck(false)] + [MonitorTerm], ConmanExits, s3);
    ExtendFair(run + [s1] + [s2] + [s3], steps + [MonitorCheck(false)] + [MonitorTerm] + [ConmanExits],
               CollectConman, s4);
    run' := run + [s1] + [s2] + [s3] + [s4];
  }

  function Repeat(cycle: seq<Step>, n: nat): seq<Step> {
    if n == 0 then [] else Repeat(cycle, n - 1) + cycle
  }

  /** Configure once, start, and let the credentials of the node's BMC change in the vault. */
  lemma ChangesOnce(node: NodeInfo, before: Creds, after: Creds, limits: Limits)
    returns (run: seq<Sys>, steps: seq<Step>)
    requires limits.Positive() && node.IsRiver() && before != after
    ensures FairRun(run, steps) && RunsOutdated(Last(run), node) && Last(run).vault == map[node.bmcName := after]
    ensures |steps| == 5 && steps[4] == VaultChange(map[node.bmcName := after])
  {
    var vault0, vault1 := map[node.bmcName := before], map[node.bmcName := after];
    run, steps := GetsReady(node, vault0, limits);
    var s := Last(run);
    var s1 := s.(pod := s.pod.(command := Alive(false)), pc := Executing);
    var s2 := s1.(vault := vault1);
    ExtendFair(run, steps, StartConman, s1);
    ExtendFair(run + [s1], steps + [StartConman], VaultChange(vault1), s2);
    run, steps := run + [s1] + [s2], steps + [StartConman] + [VaultChange(vault1)];
    SeesChange(s2, node, before, after);
  }

  lemma SeesChange(s: Sys, node: NodeInfo, before: Creds, after: Creds)
    requires s.pod.held == JustOne(node) && before != after && s.vault == map[node.bmcName := after]
    requires s.pod.previousPasswords == Some(GetPasswords(map[node.bmcName := before], BmcNames(s.pod.held)))
    ensures Seen(s)
  {
    assert s.pod.held.rvr[node.nodeName].bmcName in BmcNames(s.pod.held);
    assert Lookup(s.pod.previousPasswords.value, node.bmcName) == before;
  }

  /**
   One change of credentials and a base file that forbids updates: for every n there is a
   run in which the monitor has conman restarted n times, with nothing else happening.
   */
  lemma {:induction false} EndlessRestarts(node: NodeInfo, before: Creds, after: Creds, limits: Limits, n: nat)
    returns (run: seq<Sys>, steps: seq<Step>, start: seq<Step>)
    requires limits.Positive() && node.IsRiver() && before != after
    ensures FairRun(run, steps) && RunsOutdated(Last(run), node) && Last(run).vault == map[node.bmcName := after]
    ensures |start| == 5 && steps == start + Repeat(Cycle(node, map[node.bmcName := after]), n)
  {
    if n == 0 {
      run, steps := ChangesOnce(node, before, after, limits);
      start := steps;
      assert start + [] == steps;
    } else {
      run, steps, start := EndlessRestarts(node, before, after, limits, n - 1);
      var cycle := Cycle(node, map[node.bmcName := after]);
      run := OneCycle(run, steps, node);
      Append(start, Repeat(cycle, n - 1), cycle);
      steps := steps + cycle;
    }
  }

  lemma Append<A>(a: seq<A>, b: seq<A>, c: seq<A>)
    ensures (a + b) + c == a + (b + c)
  {
  }
}
