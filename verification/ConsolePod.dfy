/**
 The console pod itself: the globals of the service as fields, and the functions
 that change them, each proved against the relation PodSpec gives for it.

 Every method here runs while the lock on the current nodes is held, except
 SignalConmanTERM, StartConman and the two steps of a conman exit.  What the outside
 world answers is passed in: service replies, vault contents, file contents.
 */
module ConsolePod {
  import opened Wrappers
  import opened Listings
  import opened Nodes
  import opened Balance
  import opened Credentials
  import opened PodSpec
  import T = Tails

  /** An environment value forced into its range, or the default if it is not given. */
  function EnvInt(value: Option<int>, fallback: int, minVal: int, maxVal: int): int {
    match value
    case None => fallback
    case Some(v) => if v > maxVal then maxVal else if v < minVal then minVal else v
  }

  /** The order in which one pass over a map meets its keys; any order can come up. */
  method RangeOver(keys: set<Name>) returns (order: seq<Name>)
    ensures IsOrder(order, keys)
  {
    order := [];
    var left := keys;
    while left != {}
      invariant left <= keys
      invariant IsOrder(order, keys - left)
      decreases left
    {
      var k :| k in left;
      OrderSnoc(order, keys - left, k);
      assert (keys - left) + {k} == keys - (left - {k});
      order := order + [k];
      left := left - {k};
    }
    assert keys - left == keys;
  }

  /** The values of a map, met in the order of one pass over it. */
  method RangeNodes(m: NodeMap) returns (nodes: seq<NodeInfo>)
    requires KeyedByName(m)
    ensures Visits(nodes, m)
  {
    var order := RangeOver(m.Keys);
    assert forall i :: 0 <= i < |order| ==> order[i] in Elems(order);
    nodes := [];
    for i := 0 to |order|
      invariant NamesOf(nodes) == order[..i]
      invariant forall j :: 0 <= j < i ==> nodes[j] == m[order[j]]
    {
      NamesOfSnoc(nodes, m[order[i]]);
      nodes := nodes + [m[order[i]]];
    }
    assert order[..|order|] == order;
  }

  /** The lines of one pool: an ipmi console, ssh with a password, or ssh with a key. */
  method PoolLines(pool: Pool, nodes: seq<NodeInfo>, passwords: Passwords) returns (lines: seq<ConfEntry>)
    requires forall n :: n in nodes ==> Belongs(n, pool)
    ensures lines == Lines(nodes, passwords)
  {
    lines := [];
    for i := 0 to |nodes|
      invariant lines == Lines(nodes[..i], passwords)
    {
      TakeOneMore(nodes, i);
      var node := nodes[i];
      var entry;
      match pool {
        case RvrPool => entry := Ipmi(node.nodeName, node.bmcFqdn, Lookup(passwords, node.bmcName));
        case PdsPool => entry := SshPwd(node.nodeName, node.bmcFqdn, Lookup(passwords, node.bmcName));
        case MtnPool => entry := SshKey(node.nodeName);
      }
      assert node in nodes;
      lines := lines + [entry];
    }
    assert nodes[..|nodes|] == nodes;
  }

  class ConsolePod {
    var currentRvrNodes: NodeMap
    var currentMtnNodes: NodeMap
    var currentPdsNodes: NodeMap
    var tailThreads: map<Name, nat>
    var watchers: map<nat, Name>
    var nextWatcher: nat
    var targetRvrNodes: int
    var targetMtnNodes: int
    var maxAcquireRvr: int
    var maxAcquireMtn: int
    var command: Command
    var confFile: seq<ConfEntry>
    var previousPasswords: Option<Passwords>
    var logRotConf: seq<Name>
    var sentReleases: seq<seq<NodeInfo>>
    var inShutdown: bool

    ghost function HeldNow(): Held
      reads this
    {
      Held(currentRvrNodes, currentMtnNodes, currentPdsNodes)
    }

    ghost function TailsNow(): T.Tails
      reads this
    {
      T.Tails(tailThreads, watchers, nextWatcher)
    }

    /** The shared state as a value. */
    ghost function View(): Pod
      reads this
    {
      Pod(HeldNow(), TailsNow(), Targets(targetRvrNodes, targetMtnNodes), Limits(maxAcquireRvr, maxAcquireMtn),
          command, confFile, previousPasswords, logRotConf, sentReleases, inShutdown)
    }

    ghost predicate Valid()
      reads this
    {
      View().Valid()
    }

    /** A pod at start-up, with the limits taken from the environment and an empty logrotate listing. */
    constructor (envAcquireMtn: Option<int>, envAcquireRvr: Option<int>)
      ensures Valid()
      ensures View() == Pod(NOTHING_HELD, T.Tails(map[], map[], 0), Targets(-1, -1), View().limits,
                            NoCommand, [], None, [], [], false)
      ensures 5 <= maxAcquireMtn <= 2000 && 5 <= maxAcquireRvr <= 4000
      ensures envAcquireMtn.None? ==> maxAcquireMtn == 200
      ensures envAcquireRvr.None? ==> maxAcquireRvr == 500
      ensures envAcquireMtn.Some? ==>
                var v := envAcquireMtn.value; maxAcquireMtn == if v < 5 then 5 else if v > 2000 then 2000 else v
      ensures envAcquireRvr.Some? ==>
                var v := envAcquireRvr.value; maxAcquireRvr == if v < 5 then 5 else if v > 4000 then 4000 else v
    {
      currentRvrNodes, currentMtnNodes, currentPdsNodes := map[], map[], map[];
      tailThreads, watchers, nextWatcher := map[], map[], 0;
      targetRvrNodes, targetMtnNodes := -1, -1;
      maxAcquireMtn := EnvInt(envAcquireMtn, 200, 5, 2000);
      maxAcquireRvr := EnvInt(envAcquireRvr, 500, 5, 4000);
      command := NoCommand;
      confFile := [];
      previousPasswords := None;
      logRotConf := [];
      sentReleases := [];
      inShutdown := false;
    }

    /* ---------- logAggregation.go ---------- */

    method AggregateFile(xname: Name) returns (newFile: bool)
      modifies `tailThreads, `watchers, `nextWatcher
      ensures TailsNow() == old(TailsNow()).Start(xname)
      ensures newFile <==> xname !in old(tailThreads)
    {
      newFile := false;
      if xname !in tailThreads {
        newFile := true;
        tailThreads := tailThreads[xname := nextWatcher];
        watchers := watchers[nextWatcher := xname];
        nextWatcher := nextWatcher + 1;
      }
    }

    method StopTailing(xname: Name)
      modifies `tailThreads, `watchers
      ensures TailsNow() == old(TailsNow()).Stop(xname)
    {
      if xname in tailThreads {
        watchers := watchers - {tailThreads[xname]};
        tailThreads := tailThreads - {xname};
      }
    }

    /* ---------- conman.go, signals ---------- */

    method SignalConmanTERM()
      modifies `command
      ensures command == Terminated(old(command))
    {
      if command.Alive? {
        command := Alive(true);
      }
    }

    /* ---------- nodes.go ---------- */

    method CalcChangeInNodes(input: RoundInput) returns (d: Deltas)
      modifies `targetRvrNodes, `targetMtnNodes
      ensures Targets(targetRvrNodes, targetMtnNodes) == UpdatedTargets(old(View()).targets, input.fileTargets)
      ensures d == CalcChange(input.numPods, input.totals, UpdatedTargets(old(View()).targets, input.fileTargets),
                              old(View()).limits, |currentRvrNodes|, |currentMtnNodes|)
    {
      if input.fileTargets.rvr >= 0 {
        targetRvrNodes := input.fileTargets.rvr;
      }
      if input.fileTargets.mtn >= 0 {
        targetMtnNodes := input.fileTargets.mtn;
      }
      var currNumRvr, currNumMtn := |currentRvrNodes|, |currentMtnNodes|;
      var deltaRvr, deltaMtn := 0, 0;
      if input.totals.Some? && input.numPods.Some? {
        var safeNumPods := Max(input.numPods.value, 1);
        var idealNumRvr := TruncDiv(input.totals.value.rvr, safeNumPods) + 1;
        var idealNumMtn := TruncDiv(input.totals.value.mtn, safeNumPods) + 1;
        if currNumRvr < idealNumRvr || 10 * currNumRvr > 11 * idealNumRvr {
          deltaRvr := idealNumRvr - currNumRvr;
        }
        if currNumMtn < idealNumMtn || 10 * currNumMtn > 11 * idealNumMtn {
          deltaMtn := idealNumMtn - currNumMtn;
        }
      } else {
        deltaRvr := PinNumNodes(targetRvrNodes - currNumRvr, maxAcquireRvr);
        deltaMtn := PinNumNodes(targetMtnNodes - currNumMtn, maxAcquireMtn);
      }
      d := Deltas(deltaRvr, deltaMtn);
    }

    /** Take the acquired nodes into the pools; changed tells whether any was of known class. */
    method TakeIn(newNodes: seq<NodeInfo>) returns (changed: bool)
      modifies `currentRvrNodes, `currentMtnNodes, `currentPdsNodes
      ensures HeldNow() == old(HeldNow()).InsertAll(newNodes)
      ensures changed <==> Known(newNodes) != []
    {
      changed := false;
      for i := 0 to |newNodes|
        invariant HeldNow() == old(HeldNow()).InsertAll(newNodes[..i])
        invariant changed <==> Known(newNodes[..i]) != []
      {
        var node := newNodes[i];
        assert newNodes[..i + 1][..i] == newNodes[..i];
        if node.IsRiver() {
          currentRvrNodes := currentRvrNodes[node.nodeName := node];
          changed := true;
        } else if node.IsMountain() {
          currentMtnNodes := currentMtnNodes[node.nodeName := node];
          changed := true;
        } else if node.IsParadise() {
          currentPdsNodes := currentPdsNodes[node.nodeName := node];
          changed := true;
        }
      }
      assert newNodes[..|newNodes|] == newNodes;
    }

    /**
     If there are too many nodes, release some: River nodes in the order the map is
     ranged over, then Mountain and Paradise nodes, each time a random one of
     whichever pool is larger.
     */
    method RebalanceNodes(d: Deltas) returns (changed: bool, ghost rs: seq<Removal>)
      requires HeldNow().Keyed()
      modifies `currentRvrNodes, `currentMtnNodes, `currentPdsNodes, `tailThreads, `watchers, `sentReleases
      ensures Rebalanced(old(HeldNow()), old(TailsNow()), d, rs, HeldNow(), TailsNow())
      ensures changed <==> rs != []
      ensures sentReleases == if rs == [] then old(sentReleases) else old(sentReleases) + [NodesOf(rs)]
    {
      var rn;
      rn, rs := RebalanceRvr(d, HeldNow(), TailsNow());
      rn, rs := RebalanceMtn(d, old(HeldNow()), old(TailsNow()), rn, rs);
      changed := |rn| > 0;
      if changed {
        ReleaseNodes(rn);
      }
    }

    /** Notify console-data that nodes are no longer watched here. */
    method ReleaseNodes(nodes: seq<NodeInfo>)
      modifies `sentReleases
      ensures sentReleases == old(sentReleases) + [nodes]
    {
      sentReleases := sentReleases + [nodes];
    }

    ghost predicate Released(h: Held, t: T.Tails, rs: seq<Removal>)
      reads this
    {
      h.HasAll(rs) && HeldNow() == h.TakeAll(rs) && TailsNow() == t.StopEach(NamesOf(NodesOf(rs)))
    }

    method RebalanceRvr(d: Deltas, ghost h: Held, ghost t: T.Tails)
      returns (rn: seq<NodeInfo>, ghost rs: seq<Removal>)
      requires HeldNow() == h && TailsNow() == t && h.Keyed()
      modifies `currentRvrNodes, `currentMtnNodes, `currentPdsNodes, `tailThreads, `watchers
      ensures Released(h, t, rs) && rn == NodesOf(rs)
      ensures |currentRvrNodes| == RvrLeft(|h.rvr|, d)
      ensures HeldNow().Keyed() && currentMtnNodes == h.mtn && currentPdsNodes == h.pds
    {
      rn, rs := [], [];
      if d.rvr < 0 {
        var endNumRvr := |currentRvrNodes| + d.rvr;
        while currentRvrNodes != map[]
          invariant HeldNow().Keyed() && currentMtnNodes == h.mtn && currentPdsNodes == h.pds
          invariant Released(h, t, rs) && rn == NodesOf(rs)
          invariant endNumRvr <= |currentRvrNodes|
          decreases |currentRvrNodes|
        {
          var key :| key in currentRvrNodes;
          if |currentRvrNodes| > endNumRvr {
            var r := Removal(RvrPool, currentRvrNodes[key]);
            TakeKeepsKeys(HeldNow(), r);
            RemoveNode(r, h, t, rs);
            rn, rs := rn + [r.node], rs + [r];
          } else {
            break;
          }
        }
      }
    }

    /** One node leaves its pool, and its watcher is stopped. */
    method RemoveNode(r: Removal, ghost h: Held, ghost t: T.Tails, ghost rs: seq<Removal>)
      requires HeldNow().Has(r) && Released(h, t, rs)
      modifies `currentRvrNodes, `currentMtnNodes, `currentPdsNodes, `tailThreads, `watchers
      ensures HeldNow() == old(HeldNow()).Take(r)
      ensures Released(h, t, rs + [r]) && NodesOf(rs + [r]) == NodesOf(rs) + [r.node]
    {
      ReleaseSnoc(h, t, rs, r);
      var key := r.node.nodeName;
      match r.pool {
        case RvrPool => currentRvrNodes := currentRvrNodes - {key};
        case MtnPool => currentMtnNodes := currentMtnNodes - {key};
        case PdsPool => currentPdsNodes := currentPdsNodes - {key};
      }
      StopTailing(key);
    }

    /** Remove one random node of the larger pool. */
    method ReleaseFromLarger(ghost h: Held, ghost t: T.Tails, ghost rs: seq<Removal>) returns (r: Removal)
      requires HeldNow().Keyed()
      requires Released(h, t, rs) && (currentMtnNodes != map[] || currentPdsNodes != map[])
      modifies `currentRvrNodes, `currentMtnNodes, `currentPdsNodes, `tailThreads, `watchers
      ensures HeldNow().Keyed() && currentRvrNodes == old(currentRvrNodes)
      ensures Released(h, t, rs + [r]) && NodesOf(rs + [r]) == NodesOf(rs) + [r.node]
      ensures if |old(currentMtnNodes)| > |old(currentPdsNodes)|
              then |currentMtnNodes| == |old(currentMtnNodes)| - 1 && |currentPdsNodes| == |old(currentPdsNodes)|
              else |currentMtnNodes| == |old(currentMtnNodes)| && |currentPdsNodes| == |old(currentPdsNodes)| - 1
    {
      if |currentMtnNodes| > |currentPdsNodes| {
        var key :| key in currentMtnNodes;
        r := Removal(MtnPool, currentMtnNodes[key]);
      } else {
        var key :| key in currentPdsNodes;
        r := Removal(PdsPool, currentPdsNodes[key]);
      }
      TakeKeepsKeys(HeldNow(), r);
      RemoveNode(r, h, t, rs);
    }

    method RebalanceMtn(d: Deltas, ghost h: Held, ghost t: T.Tails, rn0: seq<NodeInfo>, ghost rs0: seq<Removal>)
      returns (rn: seq<NodeInfo>, ghost rs: seq<Removal>)
      requires HeldNow().Keyed()
      requires Released(h, t, rs0) && rn0 == NodesOf(rs0)
      modifies `currentRvrNodes, `currentMtnNodes, `currentPdsNodes, `tailThreads, `watchers
      ensures Released(h, t, rs) && rn == NodesOf(rs)
      ensures currentRvrNodes == old(currentRvrNodes)
      ensures MtnLeft(|old(currentMtnNodes)|, |old(currentPdsNodes)|, d, |currentMtnNodes|, |currentPdsNodes|)
    {
      rn, rs := rn0, rs0;
      if d.mtn < 0 {
        ghost var m, p := |currentMtnNodes|, |currentPdsNodes|;
        var endNumMtn := |currentMtnNodes| + |currentPdsNodes| + d.mtn;
        while |currentMtnNodes| + |currentPdsNodes| > endNumMtn
          invariant HeldNow().Keyed() && currentRvrNodes == old(currentRvrNodes)
          invariant Released(h, t, rs) && rn == NodesOf(rs)
          invariant FairCut(m, p, |currentMtnNodes|, |currentPdsNodes|)
          invariant |currentMtnNodes| + |currentPdsNodes| >= endNumMtn
          decreases |currentMtnNodes| + |currentPdsNodes|
        {
          if |currentMtnNodes| <= |currentPdsNodes| && |currentPdsNodes| == 0 {
            break;
          }
          NextCutIsFair(m, p, |currentMtnNodes|, |currentPdsNodes|);
          var r := ReleaseFromLarger(h, t, rs);
          rn, rs := rn + [r.node], rs + [r];
        }
      }
    }

    /** First part of the round: work out the change and ask for nodes. */
    method AskForNodes(input: RoundInput) returns (d: Deltas, arrivals: seq<NodeInfo>)
      modifies `targetRvrNodes, `targetMtnNodes
      ensures d == RoundDeltas(old(View()), input)
      ensures arrivals == Arrivals(old(View()), input)
      ensures View() == WithTargets(old(View()), input.fileTargets)
    {
      d := CalcChangeInNodes(input);
      if d.rvr == 0 {
        d := Deltas(1, d.mtn);
      }
      var numAcqRvr := PinNumNodes(d.rvr, maxAcquireRvr);
      var numAcqMtn := PinNumNodes(d.mtn, maxAcquireMtn);
      arrivals := [];
      if numAcqRvr > 0 || numAcqMtn > 0 {
        arrivals := input.newNodes;
      }
    }

    /** Last part of the round: have conman reconfigured, and rewrite the rotation configuration. */
    method Reconfigure(changed: bool)
      requires HeldNow().Keyed()
      modifies `command, `logRotConf
      ensures command == if changed then Terminated(old(command)) else old(command)
      ensures if changed then ListsHeld(logRotConf, HeldNow()) else logRotConf == old(logRotConf)
    {
      if changed {
        SignalConmanTERM();
        UpdateLogRotateConf();
      }
    }

    method TakeInAndRebalance(d: Deltas, arrivals: seq<NodeInfo>) returns (changed: bool, ghost rs: seq<Removal>)
      requires HeldNow().Keyed() && HeldNow().Classed()
      modifies `currentRvrNodes, `currentMtnNodes, `currentPdsNodes, `tailThreads, `watchers, `sentReleases
      ensures Rebalanced(old(HeldNow()).InsertAll(arrivals), old(TailsNow()), d, rs, HeldNow(), TailsNow())
      ensures sentReleases == if rs == [] then old(sentReleases) else old(sentReleases) + [NodesOf(rs)]
      ensures changed <==> Changes(arrivals, rs)
      ensures HeldNow().Keyed()
    {
      ghost var h := HeldNow().InsertAll(arrivals);
      InsertAllKeyed(HeldNow(), arrivals);
      changed := TakeIn(arrivals);
      var rebalanced;
      rebalanced, rs := RebalanceNodes(d);
      RemovalsKeepShape(h, rs);
      changed := changed || rebalanced;
    }

    /** Second part: take in the arrivals, release nodes if there are too many, reconfigure if anything changed. */
    method ExchangeNodes(d: Deltas, arrivals: seq<NodeInfo>) returns (ghost rs: seq<Removal>)
      requires HeldNow().Keyed() && HeldNow().Classed()
      modifies `currentRvrNodes, `currentMtnNodes, `currentPdsNodes,
               `tailThreads, `watchers, `sentReleases, `command, `logRotConf
      ensures Rebalanced(old(HeldNow()).InsertAll(arrivals), old(TailsNow()), d, rs, HeldNow(), TailsNow())
      ensures sentReleases == if rs == [] then old(sentReleases) else old(sentReleases) + [NodesOf(rs)]
      ensures command == if Changes(arrivals, rs) then Terminated(old(command)) else old(command)
      ensures if Changes(arrivals, rs) then ListsHeld(logRotConf, HeldNow()) else logRotConf == old(logRotConf)
    {
      var changed;
      changed, rs := TakeInAndRebalance(d, arrivals);
      Reconfigure(changed);
    }

    /** The locked body of doGetNewNodes. */
    method DoGetNewNodes(input: RoundInput) returns (ghost rs: seq<Removal>)
      requires Valid()
      modifies `targetRvrNodes, `targetMtnNodes, `currentRvrNodes, `currentMtnNodes, `currentPdsNodes,
               `tailThreads, `watchers, `sentReleases, `command, `logRotConf
      ensures Round(old(View()), input, rs, View()) && Valid()
    {
      var d, arrivals := AskForNodes(input);
      ghost var p := View();
      rs := ExchangeNodes(d, arrivals);
      ExchangeKeepsValid(p, d, arrivals, rs, View());
    }

    /* ---------- logRotation.go ---------- */

    /** One entry per held node in the log rotation configuration. */
    method UpdateLogRotateConf()
      requires HeldNow().Keyed()
      modifies `logRotConf
      ensures ListsHeld(logRotConf, HeldNow())
    {
      var nodes := AllNodes();
      logRotConf := NamesOf(nodes);
    }

    /** All held nodes: one pass over the River pool, then Paradise, then Mountain. */
    method AllNodes() returns (nodes: seq<NodeInfo>)
      requires HeldNow().Keyed()
      ensures Listing(nodes, HeldNow())
    {
      var r := RangeNodes(currentRvrNodes);
      var p := RangeNodes(currentPdsNodes);
      var m := RangeNodes(currentMtnNodes);
      nodes := r + p + m;
      ListingFromVisits(r, p, m, HeldNow());
    }

    /* ---------- data.go ---------- */

    /** Drop one node by name; its watcher is stopped whether or not the node was held. */
    method ReleaseNode(xname: Name) returns (found: bool)
      modifies `currentRvrNodes, `currentMtnNodes, `currentPdsNodes, `tailThreads, `watchers
      ensures HeldNow() == old(HeldNow()).Drop(xname)
      ensures TailsNow() == old(TailsNow()).Stop(xname)
      ensures found <==> xname in old(HeldNow()).Names()
    {
      found := true;
      if xname in currentRvrNodes {
        currentRvrNodes := currentRvrNodes - {xname};
      } else if xname in currentMtnNodes {
        currentMtnNodes := currentMtnNodes - {xname};
      } else if xname in currentPdsNodes {
        currentPdsNodes := currentPdsNodes - {xname};
      } else {
        found := false;
        assert currentPdsNodes - {xname} == currentPdsNodes;
      }
      StopTailing(xname);
    }

    /** Drop a list of nodes, one by one. */
    method DropNodes(dropped: seq<Name>)
      modifies `currentRvrNodes, `currentMtnNodes, `currentPdsNodes, `tailThreads, `watchers
      ensures HeldNow() == old(HeldNow()).DropAll(dropped)
      ensures TailsNow() == old(TailsNow()).StopEach(dropped)
    {
      for i := 0 to |dropped|
        invariant HeldNow() == old(HeldNow()).DropAll(dropped[..i])
        invariant TailsNow() == old(TailsNow()).StopEach(dropped[..i])
      {
        TakeOneMore(dropped, i);
        DropSnoc(old(HeldNow()), dropped[..i], dropped[i]);
        T.StopSnoc(old(TailsNow()), dropped[..i], dropped[i]);
        var _ := ReleaseNode(dropped[i]);
      }
      assert dropped[..|dropped|] == dropped;
    }

    /** The heartbeat: report the held nodes, then drop those named in the reply. */
    method ReportAndDrop(reply: Option<seq<Name>>) returns (payload: seq<NodeInfo>)
      requires HeldNow().Keyed()
      modifies `currentRvrNodes, `currentMtnNodes, `currentPdsNodes, `tailThreads, `watchers, `command
      ensures Listing(payload, old(HeldNow()))
      ensures HeldNow() == old(HeldNow()).DropAll(Dropped(reply))
      ensures TailsNow() == old(TailsNow()).StopEach(Dropped(reply))
      ensures command == if Dropped(reply) == [] then old(command) else Terminated(old(command))
    {
      payload := AllNodes();
      if reply.Some? && |reply.value| > 0 {
        DropNodes(reply.value);
        SignalConmanTERM();
      }
    }

    /** One heartbeat, as a change of the whole shared state. */
    method SendSingleHeartbeat(reply: Option<seq<Name>>) returns (payload: seq<NodeInfo>)
      requires Valid()
      modifies `currentRvrNodes, `currentMtnNodes, `currentPdsNodes, `tailThreads, `watchers, `command
      ensures Listing(payload, old(HeldNow()))
      ensures View() == AfterHeartbeat(old(View()), reply) && Valid()
    {
      ghost var p := View();
      payload := ReportAndDrop(reply);
      HeartbeatKeepsValid(p, reply);
    }

    /* ---------- conman.go, configuration ---------- */

    /** The BMCs of the River and Paradise nodes, in the order the maps are ranged over. */
    method PasswordBmcs() returns (bmcs: seq<Name>)
      requires HeldNow().Keyed()
      ensures Elems(bmcs) == BmcNames(HeldNow())
    {
      var r := RangeNodes(currentRvrNodes);
      var p := RangeNodes(currentPdsNodes);
      bmcs := BmcsOf(r) + BmcsOf(p);
      BmcsListed(r, p, HeldNow());
    }

    /** Fetch and record the credentials of the River and Paradise nodes' BMCs. */
    method RecordPasswords(vaults: seq<Vault>) returns (last: nat, ghost bmcs: seq<Name>)
      requires HeldNow().Keyed() && vaults != []
      modifies `previousPasswords
      ensures Elems(bmcs) == BmcNames(HeldNow()) && IsLastTry(vaults, bmcs, last)
      ensures previousPasswords == Some(GetPasswords(vaults[last], BmcNames(HeldNow())))
    {
      var xnames := PasswordBmcs();
      bmcs := xnames;
      var passwords;
      passwords, last := GetPasswordsWithRetries(xnames, vaults);
      previousPasswords := Some(passwords);
    }

    /**
     Write the configuration file, unless the base file says not to: the credentials
     of all River and Paradise BMCs are fetched with retries and recorded, then one
     line per node is written.
     */
    method UpdateConfigFile(write: bool, vaults: seq<Vault>) returns (last: nat, ghost seen: Vault)
      requires HeldNow().Keyed() && HeldNow().Classed() && vaults != []
      modifies `confFile, `previousPasswords
      ensures write ==> last < |vaults| && seen == vaults[last]
      ensures Written(HeldNow(), write, seen, old(confFile), old(previousPasswords), confFile, previousPasswords)
    {
      last, seen := 0, map[];
      if write {
        ghost var bmcs;
        last, bmcs := RecordPasswords(vaults);
        seen := vaults[last];
        var r := RangeNodes(currentRvrNodes);
        var p := RangeNodes(currentPdsNodes);
        var m := RangeNodes(currentMtnNodes);
        var rvrLines := PoolLines(RvrPool, r, previousPasswords.value);
        var pdsLines := PoolLines(PdsPool, p, previousPasswords.value);
        var mtnLines := PoolLines(MtnPool, m, previousPasswords.value);
        confFile := rvrLines + pdsLines + mtnLines;
        assert ThreeSections(confFile, HeldNow(), previousPasswords.value, r, p, m);
      }
    }

    /** Make sure every held node is being followed; no-op for those that already are. */
    method AggregateAll() returns (ghost order: seq<NodeInfo>)
      requires HeldNow().Keyed()
      modifies `tailThreads, `watchers, `nextWatcher
      ensures Listing(order, HeldNow()) && TailsNow() == old(TailsNow()).StartEach(NamesOf(order))
    {
      var nodes := AllNodes();
      order := nodes;
      for i := 0 to |nodes|
        invariant TailsNow() == old(TailsNow()).StartEach(NamesOf(nodes[..i]))
      {
        TakeOneMore(nodes, i);
        NamesOfSnoc(nodes[..i], nodes[i]);
        T.StopSnoc(old(TailsNow()), NamesOf(nodes[..i]), nodes[i].nodeName);
        var _ := AggregateFile(nodes[i].nodeName);
      }
      assert nodes[..|nodes|] == nodes;
    }

    method Configure(write: bool, vaults: seq<Vault>)
      returns (hasNodes: bool, last: nat, ghost order: seq<NodeInfo>, ghost seen: Vault)
      requires HeldNow().Keyed() && HeldNow().Classed() && vaults != []
      modifies `confFile, `previousPasswords, `tailThreads, `watchers, `nextWatcher
      ensures hasNodes <==> HeldNow().Size() > 0
      ensures Listing(order, HeldNow()) && TailsNow() == old(TailsNow()).StartEach(NamesOf(order))
      ensures write ==> last < |vaults| && seen == vaults[last]
      ensures Written(HeldNow(), write, seen, old(confFile), old(previousPasswords), confFile, previousPasswords)
    {
      last, seen := UpdateConfigFile(write, vaults);
      order := AggregateAll();
      hasNodes := |currentMtnNodes| + |currentRvrNodes| + |currentPdsNodes| > 0;
    }

    /** A configuration pass of the conman loop; tells whether there is any node to watch. */
    method ConfigConman(write: bool, vaults: seq<Vault>)
      returns (hasNodes: bool, last: nat, ghost order: seq<NodeInfo>, ghost seen: Vault)
      requires Valid() && vaults != []
      modifies `confFile, `previousPasswords, `tailThreads, `watchers, `nextWatcher
      ensures hasNodes <==> HeldNow().Size() > 0
      ensures write ==> last < |vaults| && seen == vaults[last]
      ensures Configured(old(View()), order, write, seen, View())
      ensures Valid()
    {
      ghost var p := View();
      hasNodes, last, order, seen := Configure(write, vaults);
      ConfiguredFromParts(p, order, write, seen, View());
    }

    /* ---------- conman.go, the process ---------- */

    /** Start conmand: from here on there is a command that can be signalled. */
    method StartConman()
      modifies `command
      ensures command == Alive(false)
    {
      command := Alive(false);
    }

    /** conmand has exited; until CollectConman signals still go to the dead process. */
    method ConmanExits()
      requires command.Alive?
      modifies `command
      ensures command == Dead
    {
      command := Dead;
    }

    method CollectConman()
      requires command.Dead?
      modifies `command
      ensures command == NoCommand
    {
      command := NoCommand;
    }

    /* ---------- monitor.go ---------- */

    /** Have the credentials of any River or Paradise BMC changed since conman was configured? */
    method CheckIfRiverPasswordsChanged(vault: Vault) returns (changed: bool)
      requires HeldNow().Keyed()
      ensures changed <==> CredsChanged(HeldNow(), vault, previousPasswords)
    {
      if previousPasswords.None? {
        return false;
      }
      var xnames := PasswordBmcs();
      changed := AnyDiffers(xnames, vault, previousPasswords.value);
      DifferenceIsChange(HeldNow(), vault, xnames, previousPasswords.value);
    }

    /* ---------- consoleNodeMain.go ---------- */

    method BeginShutdown()
      modifies `inShutdown
      ensures inShutdown
    {
      inShutdown := true;
    }

    method StopTailingAll(nodes: seq<NodeInfo>)
      modifies `tailThreads, `watchers
      ensures TailsNow() == old(TailsNow()).StopEach(NamesOf(nodes))
    {
      for i := 0 to |nodes|
        invariant TailsNow() == old(TailsNow()).StopEach(NamesOf(nodes[..i]))
      {
        TakeOneMore(nodes, i);
        NamesOfSnoc(nodes[..i], nodes[i]);
        T.StopSnoc(old(TailsNow()), NamesOf(nodes[..i]), nodes[i].nodeName);
        StopTailing(nodes[i].nodeName);
      }
      assert nodes[..|nodes|] == nodes;
    }

    /** Stop following all nodes, empty the pools, tell console-data. */
    method GiveAllBack() returns (rn: seq<NodeInfo>)
      requires HeldNow().Keyed()
      modifies `currentRvrNodes, `currentMtnNodes, `currentPdsNodes, `tailThreads, `watchers, `sentReleases
      ensures Listing(rn, old(HeldNow())) && HeldNow() == NOTHING_HELD
      ensures TailsNow() == old(TailsNow()).StopEach(NamesOf(rn))
      ensures sentReleases == old(sentReleases) + [rn]
    {
      rn := AllNodes();
      StopTailingAll(rn);
      currentRvrNodes := map[];
      currentPdsNodes := map[];
      currentMtnNodes := map[];
      ReleaseNodes(rn);
    }

    /** Give every node back at once, as a change of the whole shared state. */
    method ReleaseAllNodes() returns (rn: seq<NodeInfo>)
      requires HeldNow().Keyed()
      modifies `currentRvrNodes, `currentMtnNodes, `currentPdsNodes, `tailThreads, `watchers, `sentReleases
      ensures ReleasedAll(old(View()), rn, View())
    {
      rn := GiveAllBack();
    }
  }

  lemma TakeKeepsKeys(h: Held, r: Removal)
    requires h.Keyed() && h.Has(r)
    ensures h.Take(r).Keyed() && |h.Take(r).PoolOf(r.pool)| == |h.PoolOf(r.pool)| - 1
  {
    var m, key := h.PoolOf(r.pool), r.node.nodeName;
    assert m.Keys == (m - {key}).Keys + {key};
  }
}
