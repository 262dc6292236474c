/**
 The balancing controller of nodes.go, on node counts.

 A round looks at how many River and Mountain nodes the pod watches, compares
 them with this pod's fair share, and either asks for more nodes or gives some
 back.  The deltas depend on counts alone, so the control argument is made here
 and carried over to the node maps in PodSpec and ControlPlane.
 */
module Balance {
  import opened Wrappers

  /* ---------- helpers of nodes.go ---------- */

  function Max(a: int, b: int): int {
    if a > b then a else b
  }

  /** Number of nodes to ask for: numAsk forced into [0, numMax]. */
  function PinNumNodes(numAsk: int, numMax: int): int {
    if numAsk < 0 then 0 else if numAsk > numMax then numMax else numAsk
  }

  /** Integer division truncated toward zero: the sign is taken off before dividing and put back after. */
  function TruncDiv(a: int, b: int): int
    requires b > 0
  {
    if a >= 0 then a / b else -((-a) / b)
  }

  /** Fair share of one pod: one more than the quotient, so there is always slack. */
  function Ideal(total: int, numPods: int): int {
    TruncDiv(total, Max(numPods, 1)) + 1
  }

  lemma ProductAtLeast(b: int, q: int)
    requires b > 0
    ensures q >= 1 ==> b * q >= b
    ensures q <= -1 ==> b * q <= -b
    ensures q == 0 ==> b * q == 0
  {
    if q >= 1 {
      assert b * (q - 1) >= 0;
    } else if q <= -1 {
      assert b * (-1 - q) >= 0;
    }
  }

  lemma QuotientAtLeastOne(a: nat, b: int)
    requires b > 0
    ensures a / b >= 0 && (a / b >= 1 <==> a >= b)
  {
    var q, r := a / b, a % b;
    assert a == b * q + r;
    ProductAtLeast(b, q);
  }

  /** The ideal is at least one exactly if the total is not as negative as the number of pods. */
  lemma IdealIsPositive(total: int, numPods: int)
    ensures Ideal(total, numPods) >= 1 <==> total > -Max(numPods, 1)
  {
    if total < 0 {
      QuotientAtLeastOne(-total, Max(numPods, 1));
    } else {
      QuotientAtLeastOne(total, Max(numPods, 1));
    }
  }

  /** More than ten percent over the ideal. */
  predicate OverBand(count: int, ideal: int) {
    10 * count > 11 * ideal
  }

  /** Neither short of the ideal nor more than ten percent over it. */
  predicate InBand(count: int, ideal: int) {
    ideal <= count && !OverBand(count, ideal)
  }

  function BandDelta(count: int, ideal: int): int {
    if count < ideal || OverBand(count, ideal) then ideal - count else 0
  }

  /** The River delta, with a zero raised to one. */
  function ForcedDelta(count: int, ideal: int): int {
    if BandDelta(count, ideal) == 0 then 1 else BandDelta(count, ideal)
  }

  /** What the services report: totals over the whole system. */
  datatype Totals = Totals(rvr: int, mtn: int)

  /** Backup targets, one per class, read from the shared target file. */
  datatype Targets = Targets(rvr: int, mtn: int)

  /** Most nodes to ask for in one acquisition, one per class. */
  datatype Limits = Limits(rvr: int, mtn: int) {
    predicate Positive() {
      rvr >= 1 && mtn >= 1
    }
  }

  datatype Deltas = Deltas(rvr: int, mtn: int)

  /** The change computed by calcChangeInNodes. */
  function CalcChange(numPods: Option<int>, totals: Option<Totals>, targets: Targets, limits: Limits,
                      numRvr: int, numMtn: int): Deltas
  {
    if numPods.Some? && totals.Some? then
      Deltas(BandDelta(numRvr, Ideal(totals.value.rvr, numPods.value)),
             BandDelta(numMtn, Ideal(totals.value.mtn, numPods.value)))
    else
      Deltas(PinNumNodes(targets.rvr - numRvr, limits.rvr),
             PinNumNodes(targets.mtn - numMtn, limits.mtn))
  }

  /** One river node can always be taken, so that a worker node can move. */
  function ForceOneRvr(d: Deltas): Deltas {
    if d.rvr == 0 then d.(rvr := 1) else d
  }

  /* ---------- fallback ---------- */

  /**
   With either query failing the round releases nothing and asks for no more than
   the limits, whatever the backup targets are -- and that needs only limits that
   are not negative.
   */
  lemma FallbackIsSafe(numPods: Option<int>, totals: Option<Totals>, targets: Targets, limits: Limits,
                       numRvr: nat, numMtn: nat)
    requires numPods.None? || totals.None?
    requires limits.Positive()
    ensures var d := ForceOneRvr(CalcChange(numPods, totals, targets, limits, numRvr, numMtn));
            && 1 <= d.rvr <= limits.rvr && 0 <= d.mtn <= limits.mtn
            && PinNumNodes(d.rvr, limits.rvr) == d.rvr
            && PinNumNodes(d.mtn, limits.mtn) == d.mtn
  {
  }

  /** A negative limit is turned into a release: the limits must be checked where they are read. */
  lemma NegativeLimitReleases(targets: Targets, limits: Limits, numRvr: nat, numMtn: nat)
    ensures var d := CalcChange(None, None, targets, limits, numRvr, numMtn);
            d.mtn < 0 <==> limits.mtn < 0 && targets.mtn >= numMtn
  {
  }

  /* ---------- two-pool removal ---------- */

  function Min(a: int, b: int): int {
    if a < b then a else b
  }

  /**
   What removals from whichever pool is larger, one at a time and Paradise on a tie,
   leave of m Mountain and p Paradise nodes: no pool grows; if Mountain shrank it is
   still at least as large as Paradise, and if Paradise shrank it is at most one behind.
   */
  predicate FairCut(m: nat, p: nat, m': nat, p': nat) {
    && m' <= m && p' <= p
    && (m' < m ==> m' >= p')
    && (p' < p ==> p' + 1 >= m')
  }

  /** A fair cut down to `end` nodes in all, or to none if `end` is negative. */
  predicate FairCutTo(m: nat, p: nat, end: int, m': nat, p': nat) {
    FairCut(m, p, m', p') && m' + p' == if m + p <= end then m + p else Max(0, end)
  }

  /** One turn of the removal loop keeps the cut fair; both pools empty is the only way it can stall. */
  lemma NextCutIsFair(m: nat, p: nat, m': nat, p': nat)
    requires FairCut(m, p, m', p')
    ensures m' > p' ==> FairCut(m, p, m' - 1, p')
    ensures m' <= p' && p' > 0 ==> FairCut(m, p, m', p' - 1)
    ensures m' <= p' && p' == 0 ==> m' == 0
  {
  }

  /** How many nodes are left in each pool is determined by how many are left in all ... */
  lemma FairCutIsUnique(m: nat, p: nat, m': nat, p': nat, m'': nat, p'': nat)
    requires FairCut(m, p, m', p') && FairCut(m, p, m'', p'') && m' + p' == m'' + p''
    ensures m' == m'' && p' == p''
  {
  }

  /** ... namely half of them each, as far as the pools allow. */
  lemma FairCutClosedForm(m: nat, p: nat, m': nat, p': nat)
    requires FairCut(m, p, m', p')
    ensures m' == Min(m, Max(m' + p' - p, (m' + p' + 1) / 2))
  {
  }

  /** No other removal of the same size leaves a smaller larger-pool. */
  lemma FairCutIsOptimal(m: nat, p: nat, m': nat, p': nat, otherM: nat, otherP: nat)
    requires FairCut(m, p, m', p')
    requires otherM <= m && otherP <= p && otherM + otherP == m' + p'
    ensures Max(m', p') <= Max(otherM, otherP)
  {
  }

  /** More nodes are left than wanted only if fewer than none were wanted, and then none are left. */
  lemma StopsEarlyOnlyWhenEmpty(m: nat, p: nat, end: int, m': nat, p': nat)
    requires FairCutTo(m, p, end, m', p')
    ensures m' + p' > end <==> end < 0
    ensures m' + p' > end ==> m' == 0 && p' == 0
  {
  }

  /* ---------- one round, on counts ---------- */

  /**
   Mountain side of a round when both services answer, m Mountain and p Paradise
   nodes before: the acquire contract decides how many of the requested nodes arrive
   and of which kind.  The share is compared with the Mountain pool alone, while the
   release counts both pools.
   */
  predicate MtnRound(ideal: int, limit: int, m: nat, p: nat, m': nat, p': nat) {
    if BandDelta(m, ideal) < 0 then
      FairCutTo(m, p, m + p + BandDelta(m, ideal), m', p')
    else
      m <= m' && p <= p' && m' + p' <= m + p + PinNumNodes(BandDelta(m, ideal), limit)
  }

  /** River side of a round when both services answer. */
  predicate RvrRound(ideal: int, limit: int, r: nat, r': nat) {
    var d := ForcedDelta(r, ideal);
    if d < 0 then
      r' == Max(0, r + d)
    else
      r <= r' <= r + PinNumNodes(d, limit)
  }

  /**
   What one round does to the Mountain side: from above the band the total shrinks by
   more than a tenth of the ideal, the Mountain pool never drops below its ideal, and if
   it came down to the band then Paradise no longer outnumbers it.
   */
  lemma MtnRoundFromAbove(ideal: int, limit: int, m: nat, p: nat, m': nat, p': nat)
    requires ideal >= 1 && OverBand(m, ideal)
    requires MtnRound(ideal, limit, m, p, m', p')
    ensures m' + p' + ideal / 10 + 1 <= m + p
    ensures ideal <= m' <= m && p' <= p
    ensures InBand(m', ideal) || OverBand(m', ideal)
    ensures InBand(m', ideal) ==> p' <= m'
  {
  }

  /** The band is absorbing: nothing is asked for and nothing released. */
  lemma MtnBandAbsorbs(ideal: int, limit: int, m: nat, p: nat, m': nat, p': nat)
    requires limit >= 0 && InBand(m, ideal)
    requires MtnRound(ideal, limit, m, p, m', p')
    ensures m' == m && p' == p
  {
  }

  /** From below, a round never overshoots the ideal. */
  lemma MtnRoundFromBelow(ideal: int, limit: int, m: nat, p: nat, m': nat, p': nat)
    requires m < ideal && limit >= 0
    requires MtnRound(ideal, limit, m, p, m', p')
    ensures m <= m' <= ideal && p <= p'
  {
  }

  /**
   The share is compared with Mountain nodes alone, so Paradise nodes alone never
   trigger a release however many there are: a release happens exactly when the
   Mountain pool itself is over the band.
   */
  lemma OnlyMountainCountReleases(ideal: int, limit: int, m: nat, p: nat, m': nat, p': nat)
    requires ideal >= 1 && limit >= 0
    requires MtnRound(ideal, limit, m, p, m', p')
    ensures m' + p' < m + p <==> OverBand(m, ideal)
  {
  }

  /* ---------- river band ---------- */

  /** Largest river count a round can leave behind: one more than the top of the band. */
  function RvrCeiling(ideal: int): int {
    11 * ideal / 10 + 1
  }

  /**
   One round from any starting count: the count ends at or below the ceiling, a
   count at or above the ideal does not fall below it, and a count over the band
   lands exactly on the ideal.
   */
  lemma RvrRoundBand(ideal: int, limit: int, r: nat, r': nat)
    requires ideal >= 1 && limit >= 1
    requires RvrRound(ideal, limit, r, r')
    ensures r' <= RvrCeiling(ideal)
    ensures r >= ideal ==> r' >= ideal
    ensures OverBand(r, ideal) ==> r' == ideal
    ensures r < ideal ==> r <= r' <= ideal
    ensures InBand(r, ideal) ==> r' == r || r' == r + 1
  {
  }

  /** River side of a round that is given every node it asks for. */
  predicate GrantedRvrRound(ideal: int, limit: int, r: nat, r': nat) {
    var d := ForcedDelta(r, ideal);
    r' == if d < 0 then Max(0, r + d) else r + PinNumNodes(d, limit)
  }

  /** Rounds from one visit to the ideal to the next. */
  function SawtoothPeriod(ideal: nat): nat {
    ideal / 10 + 2
  }

  lemma NextInPeriod(k: nat, period: nat)
    requires period >= 1
    ensures (k + 1) % period == if k % period == period - 1 then 0 else k % period + 1
  {
    var q, r := k / period, k % period;
    assert k == q * period + r;
    assert (q + 1) * period == q * period + period;
    if r == period - 1 {
      ModUnique(q + 1, 0, period);
    } else {
      ModUnique(q, r + 1, period);
    }
  }

  lemma ModUnique(q: int, r: nat, period: nat)
    requires r < period
    ensures (q * period + r) % period == r
  {
    var n := q * period + r;
    var q', r' := n / period, n % period;
    assert n == period * q' + r';
    assert period * (q' - q) == period * q' - period * q;
    ProductAtLeast(period, q' - q);
  }

  /** One granted round moves the River count one tooth position on. */
  lemma SawtoothStep(ideal: nat, limit: int, k: nat, r: nat, r': nat)
    requires ideal >= 1 && limit >= 1
    requires r == ideal + k % SawtoothPeriod(ideal) && GrantedRvrRound(ideal, limit, r, r')
    ensures r' == ideal + (k + 1) % SawtoothPeriod(ideal)
  {
    NextInPeriod(k, SawtoothPeriod(ideal));
  }

  /* ---------- no bouncing between consecutive rounds ---------- */

  /**
   A Mountain side that acquired does not release in the next round, and one that
   released does not ask for nodes in the next round.
   */
  lemma MtnNeverBounces(ideal: int, limit: int, limit': int, m: nat, p: nat, m': nat, p': nat, m'': nat, p'': nat)
    requires ideal >= 1 && limit >= 1 && limit' >= 1
    requires MtnRound(ideal, limit, m, p, m', p') && MtnRound(ideal, limit', m', p', m'', p'')
    ensures m' + p' > m + p ==> m'' >= m' && p'' >= p'
    ensures m' + p' < m + p ==> PinNumNodes(BandDelta(m', ideal), limit') == 0
  {
  }

  /**
   A river pool that acquired CAN release in the next round, because of the forced
   single request.  It does so exactly when the count before the acquisition was
   already the largest count inside the band.  One that released is on its ideal and
   asks for exactly one node.
   */
  lemma RvrBouncesExactlyAtBandTop(ideal: int, limit: int, limit': int, r: nat, r': nat, r'': nat)
    requires ideal >= 1 && limit >= 1 && limit' >= 1
    requires RvrRound(ideal, limit, r, r') && RvrRound(ideal, limit', r', r'')
    ensures r' > r ==> (r'' < r' <==> r == 11 * ideal / 10)
    ensures r' < r ==> r' == ideal && PinNumNodes(ForcedDelta(r', ideal), limit') == 1
  {
  }

  /* ---------- fair share over several pods ---------- */

  /** The shares of all pods together cover every node, with at most one spare per pod. */
  lemma SharesCoverSystem(total: nat, pods: nat)
    requires pods >= 1
    ensures total < pods * Ideal(total, pods) <= total + pods
  {
  }

  function Sum(counts: seq<nat>): nat {
    if counts == [] then 0 else counts[0] + Sum(counts[1..])
  }

  lemma {:induction false} SumAtLeast(counts: seq<nat>, low: int)
    requires forall i :: 0 <= i < |counts| ==> counts[i] >= low
    ensures Sum(counts) >= |counts| * low
  {
    if counts != [] {
      SumAtLeast(counts[1..], low);
      assert |counts| * low == (|counts| - 1) * low + low;
    }
  }

  /** Union of the sets of node names held by the pods. */
  function Union<T>(held: seq<set<T>>): set<T> {
    if held == [] then {} else held[0] + Union(held[1..])
  }

  function Sizes<T>(held: seq<set<T>>): (sizes: seq<nat>)
    ensures |sizes| == |held|
  {
    seq(|held|, i requires 0 <= i < |held| => |held[i]|)
  }

  lemma {:induction false} InUnion<T>(held: seq<set<T>>, x: T)
    ensures x in Union(held) <==> exists i :: 0 <= i < |held| && x in held[i]
  {
    if held != [] {
      InUnion(held[1..], x);
      if x in held[0] {
        assert held[0] == held[0];
      } else if exists i :: 0 <= i < |held| && x in held[i] {
        var i :| 0 <= i < |held| && x in held[i];
        assert x in held[1..][i - 1];
      }
    }
  }

  lemma {:induction false} DisjointSizes<T>(held: seq<set<T>>)
    requires forall i, j :: 0 <= i < j < |held| ==> held[i] !! held[j]
    ensures Sum(Sizes(held)) == |Union(held)|
  {
    if held != [] {
      DisjointSizes(held[1..]);
      assert Sizes(held)[1..] == Sizes(held[1..]);
      forall x | x in held[0]
        ensures x !in Union(held[1..])
      {
        InUnion(held[1..], x);
      }
      assert held[0] !! Union(held[1..]);
    }
  }

  /**
   No node starves: whatever disjoint sets the pods hold out of a system of
   `total` nodes, some pod is strictly below its share, so its next round computes
   a positive change and asks for nodes.
   */
  lemma SomePodAsksForMore<T>(held: seq<set<T>>, system: set<T>) returns (pod: nat)
    requires held != []
    requires forall i, j :: 0 <= i < j < |held| ==> held[i] !! held[j]
    requires forall i :: 0 <= i < |held| ==> held[i] <= system
    ensures pod < |held|
    ensures |held[pod]| < Ideal(|system|, |held|)
    ensures BandDelta(|held[pod]|, Ideal(|system|, |held|)) > 0
  {
    var ideal := Ideal(|system|, |held|);
    if forall i :: 0 <= i < |held| ==> |held[i]| >= ideal {
      forall x | x in Union(held)
        ensures x in system
      {
        InUnion(held, x);
      }
      SubsetSize(Union(held), system);
      DisjointSizes(held);
      SumAtLeast(Sizes(held), ideal);
      SharesCoverSystem(|system|, |held|);
      assert false;
    }
    pod :| 0 <= pod < |held| && |held[pod]| < ideal;
  }

  lemma SubsetSize<T>(a: set<T>, b: set<T>)
    requires a <= b
    ensures |a| <= |b|
  {
    assert b == a + (b - a);
  }
}
