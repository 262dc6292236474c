/**
 What the locked sections do to the shared state, told on their inputs alone: the nodes
 and replies as they come in, the pools, and plain arithmetic on the numbers.
 */
module Sections {
  import opened Wrappers
  import opened Listings
  import opened Nodes
  import opened Balance
  import opened Credentials
  import opened PodSpec
  import opened ControlPlane
  import T = Tails

  /* ---------- taking nodes in ---------- */

  /** A node is filed as it is, under its name, in the pool of its class. */
  predicate Filed(h: Held, node: NodeInfo) {
    var k := node.nodeName;
    && (node.hwClass == River ==> k in h.rvr && h.rvr[k] == node)
    && (node.hwClass == Mountain ==> k in h.mtn && h.mtn[k] == node)
    && (node.hwClass == Hill ==> k in h.mtn && h.mtn[k] == node)
    && (node.hwClass == Paradise ==> k in h.pds && h.pds[k] == node)
  }

  /** Whatever arrives, the last node of each name is held as it arrived. */
  lemma {:induction false} LastOfNameIsFiled(h: Held, nodes: seq<NodeInfo>, i: nat)
    requires i < |nodes| && forall j :: i < j < |nodes| ==> nodes[j].nodeName != nodes[i].nodeName
    ensures Filed(h.InsertAll(nodes), nodes[i])
  {
    var front, last := nodes[..|nodes| - 1], nodes[|nodes| - 1];
    if i < |front| {
      LastOfNameIsFiled(h, front, i);
      assert last.nodeName != front[i].nodeName;
    }
  }

  /** Under the acquire contract that is every node. */
  lemma ArrivalsAreFiled(h: Held, nodes: seq<NodeInfo>)
    requires FreshNames(h, nodes)
    ensures forall n :: n in nodes ==> Filed(h.InsertAll(nodes), n)
  {
    forall n | n in nodes
      ensures Filed(h.InsertAll(nodes), n)
    {
      var i :| 0 <= i < |nodes| && nodes[i] == n;
      LastOfNameIsFiled(h, nodes, i);
    }
  }

  lemma {:induction false} HeldOrArrived(h: Held, nodes: seq<NodeInfo>, node: NodeInfo)
    requires WasHeld(h.InsertAll(nodes), node)
    ensures WasHeld(h, node) || node in nodes
  {
    if nodes != [] && node != nodes[|nodes| - 1] {
      HeldOrArrived(h, nodes[..|nodes| - 1], node);
    }
  }

  lemma StillWasHeld(h: Held, rest: Held, node: NodeInfo)
    requires rest.SubOf(h) && WasHeld(rest, node)
    ensures WasHeld(h, node)
  {
  }

  /** One step: what is held afterwards was held before, or has just arrived. */
  lemma StepOrigin(s: Sys, step: Step, s': Sys, node: NodeInfo)
    requires Next(s, step, s') && WasHeld(s'.pod.held, node)
    ensures WasHeld(s.pod.held, node) || (step.RoundBody? && node in step.input.newNodes)
  {
    match step
    case RoundBody(input, rs) =>
      TakeAllIsSub(WithArrivals(s.pod, input), rs);
      StillWasHeld(WithArrivals(s.pod, input), s'.pod.held, node);
      HeldOrArrived(s.pod.held, Arrivals(s.pod, input), node);
    case Heartbeat(reply) =>
      DropAllShrinks(s.pod.held, Dropped(reply));
      StillWasHeld(s.pod.held, s'.pod.held, node);
    case _ =>
  }

  /** The node was among those that console-data handed out in one of the first n steps. */
  predicate Arrived(steps: seq<Step>, n: nat, node: NodeInfo)
    requires n <= |steps|
  {
    exists i :: 0 <= i < n && steps[i].RoundBody? && node in steps[i].input.newNodes
  }

  lemma {:induction false} HeldHasArrived(run: seq<Sys>, steps: seq<Step>, n: nat, node: NodeInfo)
    requires IsRun(run, steps) && n < |run| && WasHeld(run[n].pod.held, node)
    ensures Arrived(steps, n, node)
  {
    if n > 0 {
      RunStep(run, steps, n - 1);
      StepOrigin(run[n - 1], steps[n - 1], run[n], node);
      if WasHeld(run[n - 1].pod.held, node) {
        HeldHasArrived(run, steps, n - 1, node);
      }
    }
  }

  /** In every reachable state, every entry of every pool is a node just as it was handed out. */
  lemma HeldAsHandedOut(run: seq<Sys>, steps: seq<Step>, n: nat, k: Name)
    requires IsRun(run, steps) && n < |run|
    ensures k in run[n].pod.held.rvr ==> Arrived(steps, n, run[n].pod.held.rvr[k])
    ensures k in run[n].pod.held.mtn ==> Arrived(steps, n, run[n].pod.held.mtn[k])
    ensures k in run[n].pod.held.pds ==> Arrived(steps, n, run[n].pod.held.pds[k])
  {
    AlwaysValid(run, steps, n);
    var h := run[n].pod.held;
    if k in h.rvr {
      HeldHasArrived(run, steps, n, h.rvr[k]);
    }
    if k in h.mtn {
      HeldHasArrived(run, steps, n, h.mtn[k]);
    }
    if k in h.pds {
      HeldHasArrived(run, steps, n, h.pds[k]);
    }
  }

  /* ---------- asking for nodes ---------- */

  /** n forced into the range from low to high. */
  function Clamp(n: int, low: int, high: int): int {
    if n < low then low else if n > high then high else n
  }

  /**
   With either service silent, the request is the distance to the backup target, which the
   shared file overrides with any non-negative value: within 1 and the limit for River,
   within 0 and the limit for Mountain.  The targets are kept for the next round.
   */
  lemma FallbackAsksExactly(p: Pod, input: RoundInput)
    requires input.numPods.None? || input.totals.None?
    requires p.limits.rvr >= 1 && p.limits.mtn >= 1
    ensures var target := if input.fileTargets.rvr >= 0 then input.fileTargets.rvr else p.targets.rvr;
            RoundAsk(p, input).rvr == Clamp(target - |p.held.rvr|, 1, p.limits.rvr)
    ensures var target := if input.fileTargets.mtn >= 0 then input.fileTargets.mtn else p.targets.mtn;
            RoundAsk(p, input).mtn == Clamp(target - |p.held.mtn|, 0, p.limits.mtn)
  {
  }

  /** The share of one pod: for a total that is not negative, the least number above total/pods. */
  predicate IsShare(ideal: int, total: int, numPods: int) {
    var pods := if numPods < 1 then 1 else numPods;
    if total >= 0 then (ideal - 1) * pods <= total < ideal * pods
    else total <= (ideal - 1) * pods < total + pods
  }

  lemma IdealIsShare(total: int, numPods: int)
    ensures IsShare(Ideal(total, numPods), total, numPods)
  {
    var pods := Max(numPods, 1);
    if total >= 0 {
      QuotientBounds(total, pods);
    } else {
      QuotientBounds(-total, pods);
    }
  }

  lemma QuotientBounds(total: nat, pods: int)
    requires pods >= 1
    ensures (total / pods) * pods <= total < (total / pods + 1) * pods
    ensures 0 - total <= (0 - total / pods) * pods < 0 - total + pods
  {
    var q := total / pods;
    assert total == pods * q + total % pods;
    assert (q + 1) * pods == q * pods + pods;
    assert (0 - q) * pods == 0 - q * pods;
  }

  lemma ShareIsUnique(a: int, b: int, total: int, numPods: int)
    requires IsShare(a, total, numPods) && IsShare(b, total, numPods)
    ensures a == b
  {
    var pods := if numPods < 1 then 1 else numPods;
    ProductAtLeast(pods, a - b);
    assert pods * (a - b) == (a - 1) * pods - (b - 1) * pods;
    assert a * pods == (a - 1) * pods + pods && b * pods == (b - 1) * pods + pods;
  }

  /** Both services answer, and these are the shares of one pod. */
  predicate Shares(input: RoundInput, idealRvr: int, idealMtn: int) {
    && input.numPods.Some? && input.totals.Some?
    && IsShare(idealRvr, input.totals.value.rvr, input.numPods.value)
    && IsShare(idealMtn, input.totals.value.mtn, input.numPods.value)
  }

  lemma SharesAre(input: RoundInput, idealRvr: int, idealMtn: int)
    requires Shares(input, idealRvr, idealMtn)
    ensures Ideal(input.totals.value.rvr, input.numPods.value) == idealRvr
    ensures Ideal(input.totals.value.mtn, input.numPods.value) == idealMtn
  {
    var totals, pods := input.totals.value, input.numPods.value;
    IdealIsShare(totals.rvr, pods);
    IdealIsShare(totals.mtn, pods);
    ShareIsUnique(idealRvr, Ideal(totals.rvr, pods), totals.rvr, pods);
    ShareIsUnique(idealMtn, Ideal(totals.mtn, pods), totals.mtn, pods);
  }

  /**
   With both services answering, a kind that is short of its share is asked for up to the
   share or the limit; River is asked for one node inside the band; else nothing is.
   */
  lemma AnsweredAsksExactly(p: Pod, input: RoundInput, idealRvr: int, idealMtn: int)
    requires Shares(input, idealRvr, idealMtn) && p.limits.rvr >= 1 && p.limits.mtn >= 1
    ensures RoundAsk(p, input).rvr ==
            if |p.held.rvr| < idealRvr then Clamp(idealRvr - |p.held.rvr|, 0, p.limits.rvr)
            else if 10 * |p.held.rvr| > 11 * idealRvr then 0 else 1
    ensures RoundAsk(p, input).mtn ==
            if |p.held.mtn| < idealMtn then Clamp(idealMtn - |p.held.mtn|, 0, p.limits.mtn) else 0
  {
    SharesAre(input, idealRvr, idealMtn);
  }

  /* ---------- what a round takes in ---------- */

  predicate AsksForAny(p: Pod, input: RoundInput) {
    RoundAsk(p, input).rvr > 0 || RoundAsk(p, input).mtn > 0
  }

  /** A round that asks for nothing takes nothing in, whatever is offered. */
  lemma NothingAskedNothingTaken(p: Pod, input: RoundInput, rs: seq<Removal>, p': Pod)
    requires Round(p, input, rs, p') && !AsksForAny(p, input)
    ensures p'.held.SubOf(p.held)
  {
    TakeAllIsSub(p.held, rs);
  }

  /** A round that asks holds, but for what it gives back, what it held and what it was handed. */
  lemma AskedAndTaken(p: Pod, input: RoundInput, rs: seq<Removal>, p': Pod)
    requires Round(p, input, rs, p') && AsksForAny(p, input) && p'.sent == p.sent
    requires FreshNames(p.held, input.newNodes)
    ensures forall n :: n in input.newNodes ==> Filed(p'.held, n)
    ensures forall n :: WasHeld(p'.held, n) ==> WasHeld(p.held, n) || n in input.newNodes
  {
    NothingSentNothingTaken(p, input, rs, p');
    ArrivalsAreFiled(p.held, input.newNodes);
    forall n | WasHeld(p'.held, n)
      ensures WasHeld(p.held, n) || n in input.newNodes
    {
      HeldOrArrived(p.held, input.newNodes, n);
    }
  }

  lemma NothingSentNothingTaken(p: Pod, input: RoundInput, rs: seq<Removal>, p': Pod)
    requires Round(p, input, rs, p') && p'.sent == p.sent
    ensures rs == [] && p'.held == WithArrivals(p, input) && p'.tails == p.tails
  {
    assert rs != [] ==> |p'.sent| == |p.sent| + 1;
  }

  /* ---------- what a round gives back ---------- */

  lemma SizesLeft(p: Pod, input: RoundInput, rs: seq<Removal>, p': Pod)
    requires Round(p, input, rs, p')
    ensures |p'.held.rvr| == RvrLeft(|WithArrivals(p, input).rvr|, RoundDeltas(p, input))
    ensures MtnLeft(|WithArrivals(p, input).mtn|, |WithArrivals(p, input).pds|, RoundDeltas(p, input),
                    |p'.held.mtn|, |p'.held.pds|)
  {
  }

  lemma MtnLeftExactly(m: nat, p: nat, d: Deltas, m': nat, p': nat)
    requires MtnLeft(m, p, d, m', p')
    ensures d.mtn >= 0 ==> m' == m && p' == p
    ensures d.mtn < 0 ==>
              var left := Max(0, m + p + d.mtn);
              m' == Min(m, Max(left - p, (left + 1) / 2)) && p' == left - m'
  {
    if d.mtn < 0 {
      FairCutClosedForm(m, p, m', p');
    }
  }

  /** The pools once the nodes are in that were handed out in answer to a request. */
  function PoolsWithNew(p: Pod, input: RoundInput): Held {
    p.held.InsertAll(if AsksForAny(p, input) then input.newNodes else [])
  }

  lemma NewAreArrivals(p: Pod, input: RoundInput)
    ensures PoolsWithNew(p, input) == WithArrivals(p, input)
  {
  }

  /** A delta is negative from a tenth over the share, and then it is what is over. */
  lemma DeltasBelowZero(p: Pod, input: RoundInput, idealRvr: int, idealMtn: int)
    requires Shares(input, idealRvr, idealMtn)
    ensures var d, r := RoundDeltas(p, input), |p.held.rvr|;
            if 10 * r > 11 * idealRvr then d.rvr < 0 && d.rvr == idealRvr - r else d.rvr >= 0
    ensures var d, m := RoundDeltas(p, input), |p.held.mtn|;
            if 10 * m > 11 * idealMtn then d.mtn < 0 && d.mtn == idealMtn - m else d.mtn >= 0
  {
    SharesAre(input, idealRvr, idealMtn);
  }

  /**
   With both services answering, what is over the share is given back, River nodes if River
   is more than a tenth over and Mountain and Paradise nodes if Mountain is; else none are.
   Mountain is left with half of the two, rounded up, as far as the pools allow.
   */
  lemma ReleasesExactly(p: Pod, input: RoundInput, rs: seq<Removal>, p': Pod, idealRvr: int, idealMtn: int)
    requires Round(p, input, rs, p') && Shares(input, idealRvr, idealMtn)
    ensures var h, over := PoolsWithNew(p, input), |p.held.rvr| - idealRvr;
            |p'.held.rvr| == if 10 * |p.held.rvr| > 11 * idealRvr then Max(0, |h.rvr| - over) else |h.rvr|
    ensures var h, over := PoolsWithNew(p, input), |p.held.mtn| - idealMtn;
            if 10 * |p.held.mtn| > 11 * idealMtn then
              var left := Max(0, |h.mtn| + |h.pds| - over);
              && |p'.held.mtn| == Min(|h.mtn|, Max(left - |h.pds|, (left + 1) / 2))
              && |p'.held.pds| == left - |p'.held.mtn|
            else
              |p'.held.mtn| == |h.mtn| && |p'.held.pds| == |h.pds|
  {
    DeltasBelowZero(p, input, idealRvr, idealMtn);
    SizesLeft(p, input, rs, p');
    NewAreArrivals(p, input);
    var h := PoolsWithNew(p, input);
    MtnLeftExactly(|h.mtn|, |h.pds|, RoundDeltas(p, input), |p'.held.mtn|, |p'.held.pds|);
  }

  /** The targets in force after a round are those of the file, where it gives any. */
  lemma TargetsAfterRound(p: Pod, input: RoundInput, rs: seq<Removal>, p': Pod)
    requires Round(p, input, rs, p')
    ensures p'.targets.rvr == if input.fileTargets.rvr >= 0 then input.fileTargets.rvr else p.targets.rvr
    ensures p'.targets.mtn == if input.fileTargets.mtn >= 0 then input.fileTargets.mtn else p.targets.mtn
  {
  }

  /* ---------- signal and rewrite exactly on a change ---------- */

  /** The round takes in a node: one of the four classes, in answer to a request. */
  predicate TakesNode(p: Pod, input: RoundInput) {
    AsksForAny(p, input) && exists n :: n in input.newNodes && !n.hwClass.Other?
  }

  lemma {:induction false} KnownExactly(nodes: seq<NodeInfo>)
    ensures Known(nodes) != [] <==> exists n :: n in nodes && !n.hwClass.Other?
  {
    if nodes != [] {
      var front, last := nodes[..|nodes| - 1], nodes[|nodes| - 1];
      KnownExactly(front);
      assert nodes == front + [last];
    }
  }

  lemma ChangesExactly(p: Pod, input: RoundInput, rs: seq<Removal>)
    ensures Changes(Arrivals(p, input), rs) <==> TakesNode(p, input) || rs != []
  {
    KnownExactly(input.newNodes);
  }

  /** A round that takes nothing in and gives nothing back leaves everything but the targets alone. */
  lemma IdleRoundChangesNothing(p: Pod, input: RoundInput, rs: seq<Removal>, p': Pod)
    requires Round(p, input, rs, p') && !TakesNode(p, input) && p'.sent == p.sent
    ensures p'.command == p.command && p'.rotConf == p.rotConf && p'.held == p.held && p'.tails == p.tails
  {
    ChangesExactly(p, input, rs);
    NothingSentNothingTaken(p, input, rs, p');
    NoneKnown(p.held, Arrivals(p, input));
  }

  lemma {:induction false} NoneKnown(h: Held, nodes: seq<NodeInfo>)
    requires Known(nodes) == []
    ensures h.InsertAll(nodes) == h
  {
    if nodes != [] {
      NoneKnown(h, nodes[..|nodes| - 1]);
    }
  }

  /** Any other has conman told to stop and the rotation listing rewritten. */
  lemma BusyRoundReconfigures(p: Pod, input: RoundInput, rs: seq<Removal>, p': Pod)
    requires Round(p, input, rs, p') && (TakesNode(p, input) || p'.sent != p.sent)
    ensures p.command.Alive? ==> p'.command == Alive(true)
    ensures !p.command.Alive? ==> p'.command == p.command
    ensures ListsHeld(p'.rotConf, p'.held)
  {
    ChangesExactly(p, input, rs);
  }

  /* ---------- heartbeats ---------- */

  /** A reply that names nodes: just these leave the pools and the registry, and conman is told to stop. */
  lemma HeartbeatOnReply(p: Pod, names: seq<Name>)
    requires p.held.Partitioned()
    ensures var p' := AfterHeartbeat(p, Some(names));
            && p'.held.rvr == p.held.rvr - Elems(names)
            && p'.held.mtn == p.held.mtn - Elems(names)
            && p'.held.pds == p.held.pds - Elems(names)
            && p'.tails.threads == p.tails.threads - Elems(names)
            && (p'.command == if names != [] && p.command.Alive? then Alive(true) else p.command)
            && p'.targets == p.targets && p'.limits == p.limits && p'.conf == p.conf && p'.rotConf == p.rotConf
            && p'.previousPasswords == p.previousPasswords && p'.sent == p.sent && p'.inShutdown == p.inShutdown
  {
    DropAllIsWithout(p.held, names);
    T.StopEachEffect(p.tails, names);
  }

  /** A name in more than one pool goes one pool at a time: River first, then Mountain, Paradise last. */
  lemma OnePoolAtATime(h: Held, k: Name)
    ensures k !in h.Drop(k).rvr
    ensures k in h.Drop(k).mtn <==> k in h.mtn && k in h.rvr
    ensures k in h.Drop(k).pds <==> k in h.pds && (k in h.rvr || k in h.mtn)
  {
  }

  lemma NamesWithout(h: Held, h': Held, names: set<Name>)
    requires h'.rvr == h.rvr - names && h'.mtn == h.mtn - names && h'.pds == h.pds - names
    ensures h'.Names() == h.Names() - names
  {
  }

  /** So the names that are left are those that were not in the reply. */
  lemma NamesAfterReply(p: Pod, names: seq<Name>)
    requires p.held.Partitioned()
    ensures AfterHeartbeat(p, Some(names)).held.Names() == p.held.Names() - Elems(names)
    ensures AfterHeartbeat(p, Some(names)).tails.threads == p.tails.threads - Elems(names)
  {
    HeartbeatOnReply(p, names);
    NamesWithout(p.held, AfterHeartbeat(p, Some(names)).held, Elems(names));
  }

  /** Without a usable reply nothing changes. */
  lemma NoReplyNoChange(p: Pod)
    ensures AfterHeartbeat(p, None) == p
  {
    assert p.held.DropAll([]) == p.held && p.tails.StopEach([]) == p.tails;
  }

  /** The same in runs. */
  lemma HeartbeatInRun(run: seq<Sys>, steps: seq<Step>, n: nat, names: seq<Name>)
    requires IsRun(run, steps) && HonestRun(run, steps) && n < |steps| && steps[n] == Heartbeat(Some(names))
    ensures var h, h' := run[n].pod.held, run[n + 1].pod.held;
            h'.rvr == h.rvr - Elems(names) && h'.mtn == h.mtn - Elems(names) && h'.pds == h.pds - Elems(names)
    ensures run[n + 1].pod.tails.threads == run[n].pod.tails.threads - Elems(names)
    ensures names != [] && run[n].pod.command.Alive? ==> run[n + 1].pod.command == Alive(true)
  {
    AlwaysPartitioned(run, steps, n);
    RunStep(run, steps, n);
    HeartbeatOnReply(run[n].pod, names);
  }

  /* ---------- the written configuration ---------- */

  /** Credentials of a BMC, empty if there are none. */
  function CredsOf(passwords: Passwords, bmc: Name): Creds {
    if bmc in passwords then passwords[bmc] else Creds("", "")
  }

  lemma {:induction false} LineAt(nodes: seq<NodeInfo>, passwords: Passwords, i: nat)
    requires i < |nodes|
    ensures Lines(nodes, passwords)[i] == EntryFor(nodes[i], passwords)
  {
    if i < |nodes| - 1 {
      LineAt(nodes[..|nodes| - 1], passwords, i);
    }
  }

  /** The place of a node in a pass over its pool. */
  lemma VisitedAt(nodes: seq<NodeInfo>, m: NodeMap, k: Name) returns (i: nat)
    requires Visits(nodes, m) && k in m
    ensures i < |nodes| && nodes[i] == m[k] && nodes[i].nodeName == k
  {
    assert k in Elems(NamesOf(nodes));
    i :| 0 <= i < |nodes| && NamesOf(nodes)[i] == k;
  }

  lemma InThree<A>(s: seq<A>, a: seq<A>, b: seq<A>, c: seq<A>, x: A)
    requires s == a + b + c && (x in a || x in b || x in c)
    ensures x in s
  {
  }

  lemma RvrLine(conf: seq<ConfEntry>, h: Held, passwords: Passwords,
                r: seq<NodeInfo>, p: seq<NodeInfo>, m: seq<NodeInfo>, k: Name)
    requires ThreeSections(conf, h, passwords, r, p, m) && k in h.rvr
    ensures EntryFor(h.rvr[k], passwords) in conf
  {
    var i := VisitedAt(r, h.rvr, k);
    LineAt(r, passwords, i);
    InThree(conf, Lines(r, passwords), Lines(p, passwords), Lines(m, passwords), EntryFor(h.rvr[k], passwords));
  }

  lemma PdsLine(conf: seq<ConfEntry>, h: Held, passwords: Passwords,
                r: seq<NodeInfo>, p: seq<NodeInfo>, m: seq<NodeInfo>, k: Name)
    requires ThreeSections(conf, h, passwords, r, p, m) && k in h.pds
    ensures EntryFor(h.pds[k], passwords) in conf
  {
    var i := VisitedAt(p, h.pds, k);
    LineAt(p, passwords, i);
    InThree(conf, Lines(r, passwords), Lines(p, passwords), Lines(m, passwords), EntryFor(h.pds[k], passwords));
  }

  lemma MtnLine(conf: seq<ConfEntry>, h: Held, passwords: Passwords,
                r: seq<NodeInfo>, p: seq<NodeInfo>, m: seq<NodeInfo>, k: Name)
    requires ThreeSections(conf, h, passwords, r, p, m) && k in h.mtn
    ensures EntryFor(h.mtn[k], passwords) in conf
  {
    var i := VisitedAt(m, h.mtn, k);
    LineAt(m, passwords, i);
    InThree(conf, Lines(r, passwords), Lines(p, passwords), Lines(m, passwords), EntryFor(h.mtn[k], passwords));
  }

  /** What stands on the line of a node, by its class. */
  lemma LineSays(node: NodeInfo, passwords: Passwords)
    ensures node.hwClass == River ==>
              EntryFor(node, passwords) == Ipmi(node.nodeName, node.bmcFqdn, CredsOf(passwords, node.bmcName))
    ensures node.hwClass == Paradise ==>
              EntryFor(node, passwords) == SshPwd(node.nodeName, node.bmcFqdn, CredsOf(passwords, node.bmcName))
    ensures node.hwClass == Mountain || node.hwClass == Hill ==> EntryFor(node, passwords) == SshKey(node.nodeName)
  {
  }

  /**
   Each held node has its line: River by ipmi to its BMC's address, Paradise by ssh to it,
   both with the credentials of its BMC, and Mountain by ssh with a key.
   */
  lemma LineOfNode(conf: seq<ConfEntry>, h: Held, passwords: Passwords, k: Name)
    requires ConfFor(conf, h, passwords) && h.Keyed() && h.Classed()
    ensures k in h.rvr ==> Ipmi(k, h.rvr[k].bmcFqdn, CredsOf(passwords, h.rvr[k].bmcName)) in conf
    ensures k in h.pds ==> SshPwd(k, h.pds[k].bmcFqdn, CredsOf(passwords, h.pds[k].bmcName)) in conf
    ensures k in h.mtn ==> SshKey(k) in conf
  {
    var r, p, m :| ThreeSections(conf, h, passwords, r, p, m);
    if k in h.rvr {
      RvrLine(conf, h, passwords, r, p, m, k);
      LineSays(h.rvr[k], passwords);
    }
    if k in h.pds {
      PdsLine(conf, h, passwords, r, p, m, k);
      LineSays(h.pds[k], passwords);
    }
    if k in h.mtn {
      MtnLine(conf, h, passwords, r, p, m, k);
      LineSays(h.mtn[k], passwords);
    }
  }

  lemma VisitsSize(nodes: seq<NodeInfo>, m: NodeMap)
    requires Visits(nodes, m)
    ensures |nodes| == |m|
  {
  }

  /** First nr lines for ipmi, then np for ssh with a password, then nm for ssh with a key. */
  predicate PoolByPool(conf: seq<ConfEntry>, nr: nat, np: nat, nm: nat) {
    && |conf| == nr + np + nm
    && forall i :: 0 <= i < |conf| ==>
         if i < nr then conf[i].Ipmi? else if i < nr + np then conf[i].SshPwd? else conf[i].SshKey?
  }

  lemma ByPool(conf: seq<ConfEntry>, r: seq<ConfEntry>, p: seq<ConfEntry>, m: seq<ConfEntry>)
    requires conf == r + p + m
    requires forall i :: 0 <= i < |r| ==> r[i].Ipmi?
    requires forall i :: 0 <= i < |p| ==> p[i].SshPwd?
    requires forall i :: 0 <= i < |m| ==> m[i].SshKey?
    ensures PoolByPool(conf, |r|, |p|, |m|)
  {
  }

  lemma RvrKind(r: seq<NodeInfo>, h: Held, passwords: Passwords)
    requires Visits(r, h.rvr) && h.Classed()
    ensures forall i :: 0 <= i < |r| ==> Lines(r, passwords)[i].Ipmi?
  {
    forall i | 0 <= i < |r|
      ensures Lines(r, passwords)[i].Ipmi?
    {
      LineAt(r, passwords, i);
    }
  }

  lemma PdsKind(p: seq<NodeInfo>, h: Held, passwords: Passwords)
    requires Visits(p, h.pds) && h.Classed()
    ensures forall i :: 0 <= i < |p| ==> Lines(p, passwords)[i].SshPwd?
  {
    forall i | 0 <= i < |p|
      ensures Lines(p, passwords)[i].SshPwd?
    {
      LineAt(p, passwords, i);
    }
  }

  lemma MtnKind(m: seq<NodeInfo>, h: Held, passwords: Passwords)
    requires Visits(m, h.mtn) && h.Classed()
    ensures forall i :: 0 <= i < |m| ==> Lines(m, passwords)[i].SshKey?
  {
    forall i | 0 <= i < |m|
      ensures Lines(m, passwords)[i].SshKey?
    {
      LineAt(m, passwords, i);
    }
  }

  /** There is one line per held node, and they come pool by pool. */
  lemma SectionsInOrder(conf: seq<ConfEntry>, h: Held, passwords: Passwords)
    requires ConfFor(conf, h, passwords) && h.Classed()
    ensures PoolByPool(conf, |h.rvr|, |h.pds|, |h.mtn|)
  {
    var r, p, m :| ThreeSections(conf, h, passwords, r, p, m);
    SectionKinds(conf, h, passwords, r, p, m);
  }

  lemma SectionKinds(conf: seq<ConfEntry>, h: Held, passwords: Passwords,
                     r: seq<NodeInfo>, p: seq<NodeInfo>, m: seq<NodeInfo>)
    requires ThreeSections(conf, h, passwords, r, p, m) && h.Classed()
    ensures PoolByPool(conf, |h.rvr|, |h.pds|, |h.mtn|)
  {
    RvrKind(r, h, passwords);
    PdsKind(p, h, passwords);
    MtnKind(m, h, passwords);
    ByPool(conf, Lines(r, passwords), Lines(p, passwords), Lines(m, passwords));
    VisitsSize(r, h.rvr);
    VisitsSize(p, h.pds);
    VisitsSize(m, h.mtn);
  }

  /** Passwords are fetched for the BMCs of River and Paradise nodes, and of no others. */
  lemma BmcNamesExactly(h: Held, bmc: Name)
    ensures bmc in BmcNames(h) <==>
            (exists k :: k in h.rvr && h.rvr[k].bmcName == bmc) || (exists k :: k in h.pds && h.pds[k].bmcName == bmc)
  {
  }

  /* ---------- the conman process ---------- */

  /** An exited process stays so, whatever signals it is sent, until it is collected. */
  lemma DeadUntilCollected(s: Sys, step: Step, s': Sys)
    requires Next(s, step, s') && s.pod.command == Dead && s.pc == Executing
    ensures s'.pod.command == if step.CollectConman? then NoCommand else Dead
  {
  }

  /** A signalled process stays signalled until it exits. */
  lemma SignalledUntilExit(s: Sys, step: Step, s': Sys)
    requires Next(s, step, s') && s.pod.command == Alive(true) && s.pc == Executing
    ensures s'.pod.command == if step.ConmanExits? then Dead else Alive(true)
  {
  }
}
