/**
 The nodes a pod watches: three pools keyed by node name, and the two changes
 made to them -- taking in acquired nodes and dropping nodes by name.
 */
module Nodes {
  import opened Listings

  /** Node, BMC and host names: text that is only copied and compared. */
  type Name(==, !new)

  /** The class strings the service tells apart; every other string is some Other. */
  datatype HwClass = River | Mountain | Hill | Paradise | Other(name: Name)

  /** What the service reads of a node; the NID and the role are only carried along. */
  datatype NodeInfo = NodeInfo(nodeName: Name, bmcName: Name, bmcFqdn: Name, hwClass: HwClass)
  {
    predicate IsMountain() {
      hwClass == Mountain || hwClass == Hill
    }

    predicate IsRiver() {
      hwClass == River
    }

    predicate IsParadise() {
      hwClass == Paradise
    }

    predicate IsKnown() {
      IsMountain() || IsRiver() || IsParadise()
    }
  }

  type NodeMap = map<Name, NodeInfo>

  predicate SubMap(a: NodeMap, b: NodeMap) {
    a.Keys <= b.Keys && forall k :: k in a ==> a[k] == b[k]
  }

  /** Every entry is filed under its node's own name. */
  predicate KeyedByName(m: NodeMap) {
    forall k :: k in m ==> m[k].nodeName == k
  }

  /** The three pools of nodes currently watched by this pod. */
  datatype Held = Held(rvr: NodeMap, mtn: NodeMap, pds: NodeMap) {

    function Names(): set<Name> {
      rvr.Keys + pds.Keys + mtn.Keys
    }

    function Size(): nat {
      |rvr| + |pds| + |mtn|
    }

    predicate Keyed() {
      KeyedByName(rvr) && KeyedByName(mtn) && KeyedByName(pds)
    }

    /** Each value's class matches the pool it is in. */
    predicate Classed() {
      && (forall k :: k in rvr ==> rvr[k].IsRiver())
      && (forall k :: k in mtn ==> mtn[k].IsMountain())
      && (forall k :: k in pds ==> pds[k].IsParadise())
    }

    predicate Disjoint() {
      rvr.Keys !! mtn.Keys && rvr.Keys !! pds.Keys && mtn.Keys !! pds.Keys
    }

    /** The three pools split the held nodes by class. */
    predicate Partitioned() {
      Keyed() && Classed() && Disjoint()
    }

    /** Take in one acquired node; a node of unknown class is not taken. */
    function Insert(node: NodeInfo): Held {
      if node.IsRiver() then this.(rvr := rvr[node.nodeName := node])
      else if node.IsMountain() then this.(mtn := mtn[node.nodeName := node])
      else if node.IsParadise() then this.(pds := pds[node.nodeName := node])
      else this
    }

    function InsertAll(nodes: seq<NodeInfo>): Held {
      if nodes == [] then this
      else InsertAll(nodes[..|nodes| - 1]).Insert(nodes[|nodes| - 1])
    }

    /** Drop one node by name from the first pool that has it. */
    function Drop(name: Name): Held {
      if name in rvr then this.(rvr := rvr - {name})
      else if name in mtn then this.(mtn := mtn - {name})
      else this.(pds := pds - {name})
    }

    function DropAll(names: seq<Name>): Held {
      if names == [] then this
      else DropAll(names[..|names| - 1]).Drop(names[|names| - 1])
    }

    /** All pools without the given names. */
    function Without(names: set<Name>): Held {
      Held(rvr - names, mtn - names, pds - names)
    }

    /** The pools' Mountain and Paradise entries all come from `other`, as do the River ones. */
    predicate SubOf(other: Held) {
      SubMap(rvr, other.rvr) && SubMap(mtn, other.mtn) && SubMap(pds, other.pds)
    }

    function PoolOf(pool: Pool): NodeMap {
      match pool
      case RvrPool => rvr
      case MtnPool => mtn
      case PdsPool => pds
    }

    predicate Has(r: Removal) {
      r.node.nodeName in PoolOf(r.pool) && PoolOf(r.pool)[r.node.nodeName] == r.node
    }

    /** One entry leaves its pool. */
    function Take(r: Removal): Held {
      match r.pool
      case RvrPool => this.(rvr := rvr - {r.node.nodeName})
      case MtnPool => this.(mtn := mtn - {r.node.nodeName})
      case PdsPool => this.(pds := pds - {r.node.nodeName})
    }

    function TakeAll(rs: seq<Removal>): Held {
      if rs == [] then this else TakeAll(rs[..|rs| - 1]).Take(rs[|rs| - 1])
    }

    /** Each removal finds its node still in its pool. */
    predicate HasAll(rs: seq<Removal>) {
      rs == [] || (HasAll(rs[..|rs| - 1]) && TakeAll(rs[..|rs| - 1]).Has(rs[|rs| - 1]))
    }
  }

  datatype Pool = RvrPool | MtnPool | PdsPool

  /** One node leaving one pool. */
  datatype Removal = Removal(pool: Pool, node: NodeInfo)

  function NodesOf(rs: seq<Removal>): (nodes: seq<NodeInfo>)
    ensures |nodes| == |rs|
  {
    if rs == [] then [] else NodesOf(rs[..|rs| - 1]) + [rs[|rs| - 1].node]
  }

  /** The node's class is the one the pool is for. */
  predicate Belongs(node: NodeInfo, pool: Pool) {
    match pool
    case RvrPool => node.IsRiver()
    case MtnPool => node.IsMountain()
    case PdsPool => node.IsParadise()
  }

  const NOTHING_HELD := Held(map[], map[], map[])

  function NamesOf(nodes: seq<NodeInfo>): (names: seq<Name>)
    ensures |names| == |nodes|
    ensures forall i :: 0 <= i < |nodes| ==> names[i] == nodes[i].nodeName
  {
    if nodes == [] then [] else NamesOf(nodes[..|nodes| - 1]) + [nodes[|nodes| - 1].nodeName]
  }

  lemma NamesOfSnoc(nodes: seq<NodeInfo>, node: NodeInfo)
    ensures NamesOf(nodes + [node]) == NamesOf(nodes) + [node.nodeName]
  {
  }

  lemma NamesOfConcat(a: seq<NodeInfo>, b: seq<NodeInfo>)
    ensures NamesOf(a + b) == NamesOf(a) + NamesOf(b)
  {
  }

  function Known(nodes: seq<NodeInfo>): seq<NodeInfo> {
    if nodes == [] then []
    else
      var last := nodes[|nodes| - 1];
      Known(nodes[..|nodes| - 1]) + if last.IsKnown() then [last] else []
  }

  function CountRvr(nodes: seq<NodeInfo>): nat {
    if nodes == [] then 0
    else CountRvr(nodes[..|nodes| - 1]) + if nodes[|nodes| - 1].IsRiver() then 1 else 0
  }

  /** Mountain, Hill and Paradise nodes: console-data counts all of them as Mountain. */
  function CountMtn(nodes: seq<NodeInfo>): nat {
    if nodes == [] then 0
    else
      var last := nodes[|nodes| - 1];
      CountMtn(nodes[..|nodes| - 1]) + if last.IsMountain() || last.IsParadise() then 1 else 0
  }

  /** Acquired nodes are all different, and none is already watched here. */
  predicate FreshNames(h: Held, nodes: seq<NodeInfo>) {
    && (forall i, j :: 0 <= i < j < |nodes| ==> nodes[i].nodeName != nodes[j].nodeName)
    && (forall i :: 0 <= i < |nodes| ==> nodes[i].nodeName !in h.Names())
  }

  /**
   What console-data answers to a request for nodes: fresh ones, and no more of either
   kind than asked for.
   */
  predicate AcquireContract(h: Held, numMtn: int, numRvr: int, nodes: seq<NodeInfo>) {
    FreshNames(h, nodes) && CountRvr(nodes) <= Nat(numRvr) && CountMtn(nodes) <= Nat(numMtn)
  }

  function Nat(n: int): nat {
    if n < 0 then 0 else n
  }

  /* ---------- taking nodes in ---------- */

  lemma {:induction false} InsertAllKeyed(h: Held, nodes: seq<NodeInfo>)
    requires h.Keyed() && h.Classed()
    ensures h.InsertAll(nodes).Keyed() && h.InsertAll(nodes).Classed()
  {
    if nodes != [] {
      InsertAllKeyed(h, nodes[..|nodes| - 1]);
    }
  }

  lemma InsertNames(h: Held, node: NodeInfo)
    ensures h.Insert(node).Names() == h.Names() + if node.IsKnown() then {node.nodeName} else {}
  {
  }

  /** Nothing held is lost by taking nodes in, and only nodes of known class come in. */
  lemma {:induction false} InsertAllNames(h: Held, nodes: seq<NodeInfo>)
    ensures h.InsertAll(nodes).Names() == h.Names() + Elems(NamesOf(Known(nodes)))
  {
    if nodes != [] {
      var front, last := nodes[..|nodes| - 1], nodes[|nodes| - 1];
      InsertAllNames(h, front);
      InsertNames(h.InsertAll(front), last);
      if last.IsKnown() {
        NamesOfSnoc(Known(front), last);
        ElemsSnoc(NamesOf(Known(front)), last.nodeName);
      } else {
        assert Known(nodes) == Known(front);
      }
    }
  }

  lemma {:induction false} KnownNames(nodes: seq<NodeInfo>)
    ensures forall n :: n in NamesOf(Known(nodes)) ==> n in NamesOf(nodes)
  {
    if nodes != [] {
      var front, last := nodes[..|nodes| - 1], nodes[|nodes| - 1];
      KnownNames(front);
      assert NamesOf(nodes) == NamesOf(front) + [last.nodeName];
      if last.IsKnown() {
        NamesOfSnoc(Known(front), last);
      } else {
        assert Known(nodes) == Known(front);
      }
    }
  }

  /** The name of the last acquired node is not yet in any pool. */
  lemma LastIsFresh(h: Held, nodes: seq<NodeInfo>)
    requires nodes != [] && FreshNames(h, nodes)
    ensures nodes[|nodes| - 1].nodeName !in h.InsertAll(nodes[..|nodes| - 1]).Names()
  {
    var front, last := nodes[..|nodes| - 1], nodes[|nodes| - 1];
    InsertAllNames(h, front);
    KnownNames(front);
    assert last.nodeName !in NamesOf(front);
  }

  lemma AddEntry(m: NodeMap, node: NodeInfo)
    requires node.nodeName !in m
    ensures var m' := m[node.nodeName := node];
            SubMap(m, m') && |m'| == |m| + 1 && m'.Keys == m.Keys + {node.nodeName}
  {
  }

  /** One fresh node: the partition is kept ... */
  lemma InsertKeepsPartition(h: Held, node: NodeInfo)
    requires h.Partitioned() && node.nodeName !in h.Names()
    ensures h.Insert(node).Partitioned()
  {
    assert node.nodeName !in h.rvr && node.nodeName !in h.mtn && node.nodeName !in h.pds;
  }

  /** ... and exactly its own pool grows, by one entry. */
  lemma InsertGrowsOnePool(h: Held, node: NodeInfo)
    requires node.nodeName !in h.Names()
    ensures h.SubOf(h.Insert(node))
    ensures |h.Insert(node).rvr| == |h.rvr| + (if node.IsRiver() then 1 else 0)
    ensures |h.Insert(node).mtn| == |h.mtn| + (if node.IsMountain() then 1 else 0)
    ensures |h.Insert(node).pds| == |h.pds| + (if node.IsParadise() then 1 else 0)
  {
    assert node.nodeName !in h.rvr && node.nodeName !in h.mtn && node.nodeName !in h.pds;
    AddEntry(h.rvr, node);
    AddEntry(h.mtn, node);
    AddEntry(h.pds, node);
  }

  lemma SubOfTransitive(a: Held, b: Held, c: Held)
    requires a.SubOf(b) && b.SubOf(c)
    ensures a.SubOf(c)
  {
  }

  /** Under the contract the pools stay a partition and grow by exactly what came in. */
  lemma {:induction false} InsertAllPartitions(h: Held, nodes: seq<NodeInfo>)
    requires h.Partitioned() && FreshNames(h, nodes)
    ensures var h' := h.InsertAll(nodes);
            && h'.Partitioned()
            && h.SubOf(h')
            && |h'.rvr| == |h.rvr| + CountRvr(nodes)
            && |h'.mtn| + |h'.pds| == |h.mtn| + |h.pds| + CountMtn(nodes)
            && |h'.mtn| >= |h.mtn| && |h'.pds| >= |h.pds|
  {
    if nodes != [] {
      var front, last := nodes[..|nodes| - 1], nodes[|nodes| - 1];
      InsertAllPartitions(h, front);
      LastIsFresh(h, nodes);
      InsertKeepsPartition(h.InsertAll(front), last);
      InsertGrowsOnePool(h.InsertAll(front), last);
      SubOfTransitive(h, h.InsertAll(front), h.InsertAll(nodes));
    }
  }

  lemma InsertLedger(h: Held, node: NodeInfo)
    requires node.nodeName !in h.Names()
    ensures multiset(h.Insert(node).Names()) ==
            multiset(h.Names()) + if node.IsKnown() then multiset{node.nodeName} else multiset{}
  {
  }

  /** The names of the nodes of known class, counted. */
  function KnownCount(nodes: seq<NodeInfo>): multiset<Name> {
    if nodes == [] then multiset{}
    else
      var last := nodes[|nodes| - 1];
      KnownCount(nodes[..|nodes| - 1]) + if last.IsKnown() then multiset{last.nodeName} else multiset{}
  }

  /** As multisets of names: held after == held before plus the known nodes that came in. */
  lemma {:induction false} InsertAllLedger(h: Held, nodes: seq<NodeInfo>)
    requires FreshNames(h, nodes)
    ensures multiset(h.InsertAll(nodes).Names()) == multiset(h.Names()) + KnownCount(nodes)
  {
    if nodes == [] {
      assert multiset(h.Names()) + multiset{} == multiset(h.Names());
    } else {
      var front, last := nodes[..|nodes| - 1], nodes[|nodes| - 1];
      var mid := h.InsertAll(front);
      InsertAllLedger(h, front);
      LastIsFresh(h, nodes);
      assert h.InsertAll(nodes) == mid.Insert(last);
      InsertLedger(mid, last);
    }
  }

  /* ---------- dropping nodes ---------- */

  lemma DropSnoc(h: Held, names: seq<Name>, name: Name)
    ensures h.DropAll(names + [name]) == h.DropAll(names).Drop(name)
  {
  }

  /** On a partition, dropping a list of names, in any order and with repeats, removes exactly those names. */
  lemma {:induction false} DropAllIsWithout(h: Held, names: seq<Name>)
    requires h.Partitioned()
    ensures h.DropAll(names) == h.Without(Elems(names))
  {
    if names == [] {
      assert h.Without({}) == h;
    } else {
      var front, last := names[..|names| - 1], names[|names| - 1];
      DropAllIsWithout(h, front);
      assert names == front + [last];
      ElemsSnoc(front, last);
      DropIsWithout(h.Without(Elems(front)), last);
      WithoutTwice(h, Elems(front), {last});
    }
  }

  lemma DropIsWithout(h: Held, name: Name)
    requires h.Disjoint()
    ensures h.Drop(name) == h.Without({name})
  {
  }

  lemma WithoutTwice(h: Held, a: set<Name>, b: set<Name>)
    ensures h.Without(a).Without(b) == h.Without(a + b)
  {
  }

  lemma DropShrinks(h: Held, name: Name)
    ensures h.Drop(name).SubOf(h)
    ensures h.Names() <= h.Drop(name).Names() + {name}
  {
  }

  /** In any case dropping only removes, and only removes named nodes. */
  lemma {:induction false} DropAllShrinks(h: Held, names: seq<Name>)
    ensures h.DropAll(names).SubOf(h)
    ensures h.Names() <= h.DropAll(names).Names() + Elems(names)
  {
    if names != [] {
      var front, last := names[..|names| - 1], names[|names| - 1];
      DropAllShrinks(h, front);
      DropShrinks(h.DropAll(front), last);
      assert names == front + [last];
      ElemsSnoc(front, last);
      SubOfTransitive(h.DropAll(names), h.DropAll(front), h);
    }
  }

  lemma SubOfKeepsShape(h: Held, rest: Held)
    requires rest.SubOf(h)
    ensures h.Keyed() ==> rest.Keyed()
    ensures h.Classed() ==> rest.Classed()
    ensures h.Partitioned() ==> rest.Partitioned()
    ensures rest.Names() <= h.Names()
  {
  }

  /* ---------- giving nodes back ---------- */

  lemma {:induction false} TakeAllIsSub(h: Held, rs: seq<Removal>)
    ensures h.TakeAll(rs).SubOf(h)
  {
    if rs != [] {
      TakeAllIsSub(h, rs[..|rs| - 1]);
    }
  }

  lemma TakeLedger(h: Held, r: Removal)
    requires h.Disjoint() && h.Has(r)
    ensures multiset(h.Take(r).Names()) + multiset{r.node.nodeName} == multiset(h.Names())
  {
  }

  /** On a partition, what was given back and what is left make up what was held. */
  lemma {:induction false} TakeAllLedger(h: Held, rs: seq<Removal>)
    requires h.Disjoint() && h.HasAll(rs)
    ensures multiset(h.TakeAll(rs).Names()) + multiset(NamesOf(NodesOf(rs))) == multiset(h.Names())
  {
    if rs != [] {
      var front, last := rs[..|rs| - 1], rs[|rs| - 1];
      TakeAllLedger(h, front);
      TakeAllIsSub(h, front);
      TakeLedger(h.TakeAll(front), last);
      NamesOfSnoc(NodesOf(front), last.node);
    }
  }

  /** So a release list has no duplicates, and names exactly what left the pools. */
  lemma ReleaseListExact(h: Held, rs: seq<Removal>)
    requires h.Disjoint() && h.HasAll(rs)
    ensures NoDup(NamesOf(NodesOf(rs)))
    ensures Elems(NamesOf(NodesOf(rs))) == h.Names() - h.TakeAll(rs).Names()
  {
    var names, rest := NamesOf(NodesOf(rs)), h.TakeAll(rs).Names();
    TakeAllLedger(h, rs);
    TakeAllIsSub(h, rs);
    var gone := h.Names() - rest;
    assert rest <= h.Names();
    AddDisjoint(rest, gone);
    assert rest + gone == h.Names();
    assert multiset(names) == multiset(gone);
    MultisetNoDup(names, gone);
  }

  /** Every released node is sent back as it was held. */
  lemma {:induction false} ReleasedWereHeld(h: Held, rs: seq<Removal>)
    requires h.HasAll(rs)
    ensures forall i :: 0 <= i < |rs| ==> h.Has(rs[i])
  {
    if rs != [] {
      ReleasedWereHeld(h, rs[..|rs| - 1]);
      TakeAllIsSub(h, rs[..|rs| - 1]);
    }
  }
}
