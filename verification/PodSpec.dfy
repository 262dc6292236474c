/**
 The state shared by the threads of a console pod, as a value, and what each
 locked section of the service does to it.  ConsolePod implements these relations;
 ControlPlane runs them against each other.
 */
module PodSpec {
  import opened Wrappers
  import opened Listings
  import opened Nodes
  import opened Balance
  import opened Credentials
  import T = Tails

  /** nodes are the values of m, each once. */
  predicate Visits(nodes: seq<NodeInfo>, m: NodeMap) {
    && IsOrder(NamesOf(nodes), m.Keys)
    && forall i :: 0 <= i < |nodes| ==> nodes[i].nodeName in m && m[nodes[i].nodeName] == nodes[i]
  }

  predicate WasHeld(h: Held, node: NodeInfo) {
    || (node.nodeName in h.rvr && h.rvr[node.nodeName] == node)
    || (node.nodeName in h.pds && h.pds[node.nodeName] == node)
    || (node.nodeName in h.mtn && h.mtn[node.nodeName] == node)
  }

  /** names lists the held nodes: all of them, and as many names as there are entries. */
  predicate ListsHeld(names: seq<Name>, h: Held) {
    Elems(names) == h.Names() && |names| == h.Size()
  }

  /** nodes lists the held nodes, each as it is held. */
  predicate Listing(nodes: seq<NodeInfo>, h: Held) {
    ListsHeld(NamesOf(nodes), h) && forall n :: n in nodes ==> WasHeld(h, n)
  }

  lemma PoolSizes(h: Held)
    requires h.Disjoint()
    ensures |h.Names()| == h.Size()
  {
  }

  /** On a partition such a listing names every held node exactly once. */
  lemma ListsHeldOnce(names: seq<Name>, h: Held)
    requires h.Disjoint() && ListsHeld(names, h)
    ensures IsOrder(names, h.Names()) && NoDup(names)
  {
    PoolSizes(h);
    OrderHasNoDup(names, h.Names());
  }

  /** One pass over each of the three pools lists the held nodes. */
  lemma ListingFromVisits(r: seq<NodeInfo>, p: seq<NodeInfo>, m: seq<NodeInfo>, h: Held)
    requires Visits(r, h.rvr) && Visits(p, h.pds) && Visits(m, h.mtn)
    ensures Listing(r + p + m, h)
  {
    PartNames(r, p, m);
    forall n | n in r + p + m
      ensures WasHeld(h, n)
    {
      VisitedWasHeld(r, p, m, h, n);
    }
  }

  lemma PartNames(r: seq<NodeInfo>, p: seq<NodeInfo>, m: seq<NodeInfo>)
    ensures Elems(NamesOf(r + p + m)) == Elems(NamesOf(r)) + Elems(NamesOf(p)) + Elems(NamesOf(m))
  {
    NamesOfConcat(r, p);
    NamesOfConcat(r + p, m);
    ElemsConcat(NamesOf(r), NamesOf(p));
    ElemsConcat(NamesOf(r) + NamesOf(p), NamesOf(m));
  }

  lemma VisitedWasHeld(r: seq<NodeInfo>, p: seq<NodeInfo>, m: seq<NodeInfo>, h: Held, n: NodeInfo)
    requires Visits(r, h.rvr) && Visits(p, h.pds) && Visits(m, h.mtn)
    requires n in r + p + m
    ensures WasHeld(h, n)
  {
  }

  /* ---------- conman ---------- */

  /** One console line of the conman configuration. */
  datatype ConfEntry =
    | Ipmi(name: Name, fqdn: Name, creds: Creds)
    | SshPwd(name: Name, fqdn: Name, creds: Creds)
    | SshKey(name: Name)

  /** River nodes are reached by ipmi, Paradise nodes by ssh with a password, Mountain nodes with a key. */
  function EntryFor(node: NodeInfo, passwords: Passwords): ConfEntry {
    if node.IsRiver() then Ipmi(node.nodeName, node.bmcFqdn, Lookup(passwords, node.bmcName))
    else if node.IsParadise() then SshPwd(node.nodeName, node.bmcFqdn, Lookup(passwords, node.bmcName))
    else SshKey(node.nodeName)
  }

  function Lines(nodes: seq<NodeInfo>, passwords: Passwords): (lines: seq<ConfEntry>)
    ensures |lines| == |nodes|
  {
    if nodes == [] then []
    else Lines(nodes[..|nodes| - 1], passwords) + [EntryFor(nodes[|nodes| - 1], passwords)]
  }

  /** The lines of conf: one for each node of r, of p and of m, which visit the pools of h. */
  predicate ThreeSections(conf: seq<ConfEntry>, h: Held, passwords: Passwords,
                     r: seq<NodeInfo>, p: seq<NodeInfo>, m: seq<NodeInfo>)
  {
    && Visits(r, h.rvr) && Visits(p, h.pds) && Visits(m, h.mtn)
    && conf == Lines(r, passwords) + Lines(p, passwords) + Lines(m, passwords)
  }

  /**
   The configuration has one line per held node, each with its BMC's credentials: first
   the River nodes, then Paradise, then Mountain, each pool in some order.
   */
  ghost predicate ConfFor(conf: seq<ConfEntry>, h: Held, passwords: Passwords) {
    exists r, p, m :: ThreeSections(conf, h, passwords, r, p, m)
  }

  function EntryNames(conf: seq<ConfEntry>): (names: seq<Name>)
    ensures |names| == |conf|
  {
    if conf == [] then [] else EntryNames(conf[..|conf| - 1]) + [conf[|conf| - 1].name]
  }

  lemma {:induction false} LineNames(nodes: seq<NodeInfo>, passwords: Passwords)
    ensures EntryNames(Lines(nodes, passwords)) == NamesOf(nodes)
  {
    if nodes != [] {
      LineNames(nodes[..|nodes| - 1], passwords);
      assert Lines(nodes, passwords)[..|nodes| - 1] == Lines(nodes[..|nodes| - 1], passwords);
    }
  }

  lemma {:induction false} LinesConcat(a: seq<NodeInfo>, b: seq<NodeInfo>, passwords: Passwords)
    ensures Lines(a + b, passwords) == Lines(a, passwords) + Lines(b, passwords)
  {
    if b == [] {
      assert a + b == a;
    } else {
      LinesConcat(a, b[..|b| - 1], passwords);
      assert (a + b)[..|a + b| - 1] == a + b[..|b| - 1];
    }
  }

  /** The nodes conman watches are exactly the held ones, each configured once. */
  lemma ConfNames(conf: seq<ConfEntry>, h: Held, passwords: Passwords)
    requires ConfFor(conf, h, passwords)
    ensures ListsHeld(EntryNames(conf), h)
  {
    var r, p, m :| ThreeSections(conf, h, passwords, r, p, m);
    LinesConcat(r, p, passwords);
    LinesConcat(r + p, m, passwords);
    LineNames(r + p + m, passwords);
    ListingFromVisits(r, p, m, h);
  }

  /**
   The command global: nil, or a conmand process that is alive -- and perhaps has
   been sent SIGTERM -- or has exited but not been collected yet.
   */
  datatype Command = NoCommand | Alive(signalled: bool) | Dead

  /** Sending SIGTERM: lost when there is no command, of no effect on a dead process. */
  function Terminated(command: Command): Command {
    if command.Alive? then Alive(true) else command
  }

  /* ---------- the shared state ---------- */

  datatype Pod = Pod(
    held: Held,                           // currentRvrNodes, currentMtnNodes, currentPdsNodes
    tails: T.Tails,                       // tailThreads and the watchers behind it
    targets: Targets,                     // targetRvrNodes, targetMtnNodes
    limits: Limits,                       // maxAcquireRvr, maxAcquireMtn
    command: Command,
    conf: seq<ConfEntry>,                 // node lines of the conman configuration file
    previousPasswords: Option<Passwords>,
    rotConf: seq<Name>,                 // nodes with an entry in the logrotate configuration file
    sent: seq<seq<NodeInfo>>,             // release messages sent to console-data
    inShutdown: bool)
  {
    predicate Valid() {
      held.Keyed() && held.Classed() && tails.Valid() && limits.Positive()
    }
  }

  /* ---------- doGetNewNodes ---------- */

  /** What one round hears from outside; newNodes is only read if nodes are asked for. */
  datatype RoundInput = RoundInput(
    numPods: Option<int>,
    totals: Option<Totals>,
    fileTargets: Targets, // from the shared target file, -1 where it gives none
    newNodes: seq<NodeInfo>)

  function UpdatedTargets(current: Targets, file: Targets): Targets {
    Targets(if file.rvr >= 0 then file.rvr else current.rvr,
            if file.mtn >= 0 then file.mtn else current.mtn)
  }

  /** The deltas the round works with, the forced river node included. */
  function RoundDeltas(p: Pod, input: RoundInput): Deltas {
    ForceOneRvr(CalcChange(input.numPods, input.totals, UpdatedTargets(p.targets, input.fileTargets), p.limits,
                           |p.held.rvr|, |p.held.mtn|))
  }

  /** The numbers of nodes asked for. */
  function RoundAsk(p: Pod, input: RoundInput): Deltas {
    var d := RoundDeltas(p, input);
    Deltas(PinNumNodes(d.rvr, p.limits.rvr), PinNumNodes(d.mtn, p.limits.mtn))
  }

  predicate Asks(p: Pod, input: RoundInput) {
    RoundAsk(p, input).rvr > 0 || RoundAsk(p, input).mtn > 0
  }

  /** The nodes that arrive: none if none were asked for. */
  function Arrivals(p: Pod, input: RoundInput): seq<NodeInfo> {
    if Asks(p, input) then input.newNodes else []
  }

  /** The pools once the arrivals are in and before any are released. */
  function WithArrivals(p: Pod, input: RoundInput): Held {
    p.held.InsertAll(Arrivals(p, input))
  }

  /** console-data keeps its contract in this round. */
  predicate Honest(p: Pod, input: RoundInput) {
    AcquireContract(p.held, RoundAsk(p, input).mtn, RoundAsk(p, input).rvr, Arrivals(p, input))
  }

  /**
   What rebalanceNodes does with deltas d: the removals rs happen one after another,
   rn lists the nodes that left and their watchers are cancelled.  The River pool
   shrinks by -d.rvr, and the other two together by -d.mtn, taken fairly from
   whichever is larger.
   */
  predicate Rebalanced(h: Held, t: T.Tails, d: Deltas, rs: seq<Removal>, h': Held, t': T.Tails) {
    && h.HasAll(rs) && h' == h.TakeAll(rs)
    && t' == t.StopEach(NamesOf(NodesOf(rs)))
    && |h'.rvr| == RvrLeft(|h.rvr|, d)
    && MtnLeft(|h.mtn|, |h.pds|, d, |h'.mtn|, |h'.pds|)
  }

  /** One more removal, with its watcher. */
  lemma ReleaseSnoc(h: Held, t: T.Tails, rs: seq<Removal>, r: Removal)
    requires h.HasAll(rs) && h.TakeAll(rs).Has(r)
    ensures h.HasAll(rs + [r]) && h.TakeAll(rs + [r]) == h.TakeAll(rs).Take(r)
    ensures NodesOf(rs + [r]) == NodesOf(rs) + [r.node]
    ensures t.StopEach(NamesOf(NodesOf(rs + [r]))) == t.StopEach(NamesOf(NodesOf(rs))).Stop(r.node.nodeName)
  {
  }

  function RvrLeft(count: nat, d: Deltas): int {
    if d.rvr < 0 then Max(0, count + d.rvr) else count
  }

  predicate MtnLeft(m: nat, p: nat, d: Deltas, m': nat, p': nat) {
    if d.mtn < 0 then FairCutTo(m, p, m + p + d.mtn, m', p') else m' == m && p' == p
  }

  predicate Changes(arrivals: seq<NodeInfo>, rs: seq<Removal>) {
    Known(arrivals) != [] || rs != []
  }

  /**
   The node part of a round, with deltas d: the arrivals are taken in and the removals
   rs made; if that changed anything, conman is told to stop and the rotation
   configuration is rewritten.
   */
  ghost predicate Exchange(p: Pod, d: Deltas, arrivals: seq<NodeInfo>, rs: seq<Removal>, p': Pod) {
    && Rebalanced(p.held.InsertAll(arrivals), p.tails, d, rs, p'.held, p'.tails)
    && p'.sent == (if rs == [] then p.sent else p.sent + [NodesOf(rs)])
    && p'.command == (if Changes(arrivals, rs) then Terminated(p.command) else p.command)
    && (if Changes(arrivals, rs) then ListsHeld(p'.rotConf, p'.held) else p'.rotConf == p.rotConf)
    && p'.targets == p.targets && p'.limits == p.limits && p'.conf == p.conf
    && p'.previousPasswords == p.previousPasswords && p'.inShutdown == p.inShutdown
  }

  function WithTargets(p: Pod, file: Targets): Pod {
    p.(targets := UpdatedTargets(p.targets, file))
  }

  /** The locked body of doGetNewNodes, with removals rs. */
  ghost predicate Round(p: Pod, input: RoundInput, rs: seq<Removal>, p': Pod) {
    Exchange(WithTargets(p, input.fileTargets), RoundDeltas(p, input), Arrivals(p, input), rs, p')
  }

  lemma RemovalsKeepShape(h: Held, rs: seq<Removal>)
    requires h.Keyed() && h.Classed()
    ensures h.TakeAll(rs).Keyed() && h.TakeAll(rs).Classed()
  {
  }

  lemma ExchangeKeepsValid(p: Pod, d: Deltas, arrivals: seq<NodeInfo>, rs: seq<Removal>, p': Pod)
    requires p.Valid() && Exchange(p, d, arrivals, rs, p')
    ensures p'.Valid()
  {
    InsertAllKeyed(p.held, arrivals);
    RemovalsKeepShape(p.held.InsertAll(arrivals), rs);
    T.StopEachEffect(p.tails, NamesOf(NodesOf(rs)));
  }

  /* ---------- sendSingleHeartbeat ---------- */

  /** The nodes a heartbeat reply says are no longer controlled by this pod; None if there is no usable reply. */
  function Dropped(reply: Option<seq<Name>>): seq<Name> {
    match reply
    case None => []
    case Some(names) => names
  }

  function AfterHeartbeat(p: Pod, reply: Option<seq<Name>>): Pod {
    p.(held := p.held.DropAll(Dropped(reply)),
       tails := p.tails.StopEach(Dropped(reply)),
       command := if Dropped(reply) == [] then p.command else Terminated(p.command))
  }

  lemma HeartbeatKeepsValid(p: Pod, reply: Option<seq<Name>>)
    requires p.Valid()
    ensures AfterHeartbeat(p, reply).Valid()
  {
    DropAllShrinks(p.held, Dropped(reply));
    SubOfKeepsShape(p.held, p.held.DropAll(Dropped(reply)));
    T.StopEachEffect(p.tails, Dropped(reply));
  }

  /* ---------- configConman ---------- */

  /**
   A written file has a line for every held node, with the credentials the vault had for
   its BMC, and these are recorded; otherwise file and record stay.
   */
  ghost predicate Written(h: Held, write: bool, vault: Vault, conf: seq<ConfEntry>, passwords: Option<Passwords>,
                          conf': seq<ConfEntry>, passwords': Option<Passwords>)
  {
    if write then
      && passwords' == Some(GetPasswords(vault, BmcNames(h)))
      && ConfFor(conf', h, passwords'.value)
    else
      conf' == conf && passwords' == passwords
  }

  /**
   A configuration pass.  The watchers are started for the held nodes in some order;
   if the file is written, it is written with what the vault held at the last try.
   */
  ghost predicate Configured(p: Pod, order: seq<NodeInfo>, write: bool, vault: Vault, p': Pod) {
    && Listing(order, p.held)
    && p'.tails == p.tails.StartEach(NamesOf(order))
    && Written(p.held, write, vault, p.conf, p.previousPasswords, p'.conf, p'.previousPasswords)
    && p'.held == p.held && p'.targets == p.targets && p'.limits == p.limits && p'.command == p.command
    && p'.rotConf == p.rotConf && p'.sent == p.sent && p'.inShutdown == p.inShutdown
  }

  lemma ConfiguredFromParts(p: Pod, order: seq<NodeInfo>, write: bool, vault: Vault, p': Pod)
    requires p.Valid()
    requires Listing(order, p.held) && p'.tails == p.tails.StartEach(NamesOf(order))
    requires Written(p.held, write, vault, p.conf, p.previousPasswords, p'.conf, p'.previousPasswords)
    requires p'.held == p.held && p'.targets == p.targets && p'.limits == p.limits && p'.command == p.command
    requires p'.rotConf == p.rotConf && p'.sent == p.sent && p'.inShutdown == p.inShutdown
    ensures Configured(p, order, write, vault, p') && p'.Valid()
  {
    T.StartEachEffect(p.tails, NamesOf(order));
  }

  function BmcsOf(nodes: seq<NodeInfo>): (bmcs: seq<Name>)
    ensures |bmcs| == |nodes|
    ensures forall i :: 0 <= i < |nodes| ==> bmcs[i] == nodes[i].bmcName
  {
    if nodes == [] then [] else BmcsOf(nodes[..|nodes| - 1]) + [nodes[|nodes| - 1].bmcName]
  }

  /** The BMCs gathered from the River and Paradise pools are those conman needs passwords for. */
  lemma BmcsListed(r: seq<NodeInfo>, p: seq<NodeInfo>, h: Held)
    requires Visits(r, h.rvr) && Visits(p, h.pds)
    ensures Elems(BmcsOf(r) + BmcsOf(p)) == BmcNames(h)
  {
    ElemsConcat(BmcsOf(r), BmcsOf(p));
    BmcsOfPool(r, h.rvr);
    BmcsOfPool(p, h.pds);
  }

  lemma BmcsOfPool(nodes: seq<NodeInfo>, m: NodeMap)
    requires Visits(nodes, m)
    ensures Elems(BmcsOf(nodes)) == set k | k in m :: m[k].bmcName
  {
  }

  /* ---------- releaseAllNodes ---------- */

  ghost predicate ReleasedAll(p: Pod, rn: seq<NodeInfo>, p': Pod) {
    && Listing(rn, p.held)
    && p' == p.(held := NOTHING_HELD, tails := p.tails.StopEach(NamesOf(rn)), sent := p.sent + [rn])
  }
}
