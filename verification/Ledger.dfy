/**
 Bookkeeping over whole runs: every node taken over from console-data is held, has been
 given back, or has been dropped, and the derived records -- watchers, log rotation --
 follow the held nodes.
 */
module Ledger {
  import opened Listings
  import opened Nodes
  import opened PodSpec
  import opened ControlPlane
  import opened Sections
  import opened Wrappers
  import T = Tails

  /* ---------- conservation ---------- */

  function CameIn(s: Sys, step: Step): multiset<Name> {
    match step
    case RoundBody(input, _) => KnownCount(Arrivals(s.pod, input))
    case _ => multiset{}
  }

  /** Names in a release message sent by this step. */
  function SentBack(step: Step): multiset<Name> {
    match step
    case RoundBody(_, rs) => multiset(NamesOf(NodesOf(rs)))
    case ReleaseAll(rn) => multiset(NamesOf(rn))
    case _ => multiset{}
  }

  /** Held nodes dropped on the word of a heartbeat reply. */
  function DroppedHere(s: Sys, step: Step): multiset<Name> {
    match step
    case Heartbeat(reply) => if reply.Some? then multiset(s.pod.held.Names() * Elems(reply.value)) else multiset{}
    case _ => multiset{}
  }

  /** All known-class names taken over from console-data in the first n steps. */
  function Acquired(run: seq<Sys>, steps: seq<Step>, n: nat): multiset<Name>
    requires n <= |steps| && |run| == |steps| + 1
  {
    if n == 0 then multiset{} else Acquired(run, steps, n - 1) + CameIn(run[n - 1], steps[n - 1])
  }

  function GivenBack(steps: seq<Step>, n: nat): multiset<Name>
    requires n <= |steps|
  {
    if n == 0 then multiset{} else GivenBack(steps, n - 1) + SentBack(steps[n - 1])
  }

  function DroppedByHeartbeat(run: seq<Sys>, steps: seq<Step>, n: nat): multiset<Name>
    requires n <= |steps| && |run| == |steps| + 1
  {
    if n == 0 then multiset{} else DroppedByHeartbeat(run, steps, n - 1) + DroppedHere(run[n - 1], steps[n - 1])
  }

  lemma RoundLedger(s: Sys, step: Step, s': Sys)
    requires s.pod.held.Partitioned() && step.RoundBody? && Next(s, step, s') && HonestStep(s, step)
    ensures multiset(s'.pod.held.Names()) + SentBack(step) == multiset(s.pod.held.Names()) + CameIn(s, step)
  {
    InsertAllPartitions(s.pod.held, Arrivals(s.pod, step.input));
    InsertAllLedger(s.pod.held, Arrivals(s.pod, step.input));
    TakeAllLedger(WithArrivals(s.pod, step.input), step.rs);
  }

  lemma DropNames(h: Held, names: seq<Name>)
    requires h.Partitioned()
    ensures h.DropAll(names).Names() == h.Names() - Elems(names)
  {
    DropAllIsWithout(h, names);
  }

  lemma HeartbeatLedger(s: Sys, step: Step, s': Sys)
    requires s.pod.held.Partitioned() && step.Heartbeat? && Next(s, step, s')
    ensures multiset(s'.pod.held.Names()) + DroppedHere(s, step) == multiset(s.pod.held.Names())
  {
    var names, gone := s.pod.held.Names(), s.pod.held.Names() * Elems(Dropped(step.reply));
    DropNames(s.pod.held, Dropped(step.reply));
    AddDisjoint(names - Elems(Dropped(step.reply)), gone);
    assert names == (names - Elems(Dropped(step.reply))) + gone;
  }

  lemma ReleaseAllLedger(s: Sys, step: Step, s': Sys)
    requires s.pod.held.Partitioned() && step.ReleaseAll? && Next(s, step, s')
    ensures s'.pod.held.Names() == {} && SentBack(step) == multiset(s.pod.held.Names())
  {
    ListsHeldOnce(NamesOf(step.rn), s.pod.held);
    OrderMultiset(NamesOf(step.rn), s.pod.held.Names());
  }

  /** One step of any kind: what was held plus what came in is what is held plus what went out. */
  lemma StepLedger(s: Sys, step: Step, s': Sys)
    requires s.pod.held.Partitioned() && Next(s, step, s') && HonestStep(s, step)
    ensures multiset(s'.pod.held.Names()) + SentBack(step) + DroppedHere(s, step) ==
            multiset(s.pod.held.Names()) + CameIn(s, step)
  {
    match step
    case RoundBody(_, _) => RoundLedger(s, step, s');
    case Heartbeat(_) => HeartbeatLedger(s, step, s');
    case ReleaseAll(_) => ReleaseAllLedger(s, step, s');
    case _ =>
  }

  lemma BookStep(run: seq<Sys>, steps: seq<Step>, i: nat)
    requires IsRun(run, steps) && HonestRun(run, steps) && i < |steps|
    ensures multiset(run[i + 1].pod.held.Names()) + SentBack(steps[i]) + DroppedHere(run[i], steps[i]) ==
            multiset(run[i].pod.held.Names()) + CameIn(run[i], steps[i])
  {
    AlwaysPartitioned(run, steps, i);
    RunStep(run, steps, i);
    assert HonestAt(run, steps, i);
    StepLedger(run[i], steps[i], run[i + 1]);
  }

  /** The books after n steps: held, given back and dropped make up what was acquired. */
  predicate Balanced(run: seq<Sys>, steps: seq<Step>, n: nat)
    requires n < |run| == |steps| + 1
  {
    multiset(run[n].pod.held.Names()) + GivenBack(steps, n) + DroppedByHeartbeat(run, steps, n) ==
    Acquired(run, steps, n)
  }

  /** One more step in each of the books. */
  lemma NextEntries(run: seq<Sys>, steps: seq<Step>, i: nat)
    requires i < |steps| && |run| == |steps| + 1
    ensures GivenBack(steps, i + 1) == GivenBack(steps, i) + SentBack(steps[i])
    ensures DroppedByHeartbeat(run, steps, i + 1) == DroppedByHeartbeat(run, steps, i) + DroppedHere(run[i], steps[i])
    ensures Acquired(run, steps, i + 1) == Acquired(run, steps, i) + CameIn(run[i], steps[i])
  {
  }

  lemma BalancedNext(run: seq<Sys>, steps: seq<Step>, i: nat)
    requires IsRun(run, steps) && HonestRun(run, steps) && i < |steps| && Balanced(run, steps, i)
    ensures Balanced(run, steps, i + 1)
  {
    BookStep(run, steps, i);
    NextEntries(run, steps, i);
    Carry(multiset(run[i + 1].pod.held.Names()), SentBack(steps[i]), DroppedHere(run[i], steps[i]),
          multiset(run[i].pod.held.Names()), CameIn(run[i], steps[i]),
          GivenBack(steps, i), DroppedByHeartbeat(run, steps, i), Acquired(run, steps, i));
  }

  lemma BalancedAtStart(run: seq<Sys>, steps: seq<Step>)
    requires IsRun(run, steps)
    ensures Balanced(run, steps, 0)
  {
    assert run[0].pod.held.Names() == {};
  }

  lemma {:induction false} BooksBalance(run: seq<Sys>, steps: seq<Step>, n: nat)
    requires IsRun(run, steps) && HonestRun(run, steps) && n < |run|
    ensures Balanced(run, steps, n)
  {
    BalancedAtStart(run, steps);
    for i := 0 to n
      invariant Balanced(run, steps, i)
    {
      BalancedNext(run, steps, i);
    }
  }

  /** The names in all release messages sent, counted. */
  function SentNames(sent: seq<seq<NodeInfo>>): multiset<Name> {
    if sent == [] then multiset{}
    else SentNames(sent[..|sent| - 1]) + multiset(NamesOf(sent[|sent| - 1]))
  }

  lemma SentOneMore(sent: seq<seq<NodeInfo>>, message: seq<NodeInfo>)
    ensures SentNames(sent + [message]) == SentNames(sent) + multiset(NamesOf(message))
  {
    assert (sent + [message])[..|sent|] == sent;
  }

  lemma MessageStep(run: seq<Sys>, steps: seq<Step>, i: nat)
    requires IsRun(run, steps) && i < |steps|
    ensures SentNames(run[i + 1].pod.sent) == SentNames(run[i].pod.sent) + SentBack(steps[i])
  {
    RunStep(run, steps, i);
    match steps[i]
    case RoundBody(_, rs) => SentOneMore(run[i].pod.sent, NodesOf(rs));
    case ReleaseAll(rn) => SentOneMore(run[i].pod.sent, rn);
    case _ =>
  }

  predicate Accounted(run: seq<Sys>, steps: seq<Step>, n: nat)
    requires n < |run| == |steps| + 1
  {
    SentNames(run[n].pod.sent) == GivenBack(steps, n)
  }

  lemma AccountedAtStart(run: seq<Sys>, steps: seq<Step>)
    requires IsRun(run, steps)
    ensures Accounted(run, steps, 0)
  {
  }

  lemma AccountedNext(run: seq<Sys>, steps: seq<Step>, i: nat)
    requires IsRun(run, steps) && i < |steps| && Accounted(run, steps, i)
    ensures Accounted(run, steps, i + 1)
  {
    MessageStep(run, steps, i);
    NextEntries(run, steps, i);
  }

  lemma {:induction false} AlwaysAccounted(run: seq<Sys>, steps: seq<Step>, n: nat)
    requires IsRun(run, steps) && n < |run|
    ensures Accounted(run, steps, n)
  {
    AccountedAtStart(run, steps);
    for i := 0 to n
      invariant Accounted(run, steps, i)
    {
      AccountedNext(run, steps, i);
    }
  }

  /** What the books call given back is what the messages to console-data say. */
  lemma MessagesGiveBack(run: seq<Sys>, steps: seq<Step>, n: nat)
    requires IsRun(run, steps) && n < |run|
    ensures SentNames(run[n].pod.sent) == GivenBack(steps, n)
  {
    AlwaysAccounted(run, steps, n);
  }

  /** Adding one step to the books. */
  lemma Carry<T>(after: multiset<T>, sent: multiset<T>, lost: multiset<T>, before: multiset<T>, came: multiset<T>,
                 given: multiset<T>, dropped: multiset<T>, acquired: multiset<T>)
    requires after + sent + lost == before + came
    requires before + given + dropped == acquired
    ensures after + (given + sent) + (dropped + lost) == acquired + came
  {
    assert after + (given + sent) + (dropped + lost) == (after + sent + lost) + (given + dropped);
    assert (before + came) + (given + dropped) == (before + given + dropped) + came;
  }

  /**
   Every release message has no duplicates and names exactly the nodes that left the
   pools, each as it was held just before.
   */
  lemma ReleaseMessagesExact(run: seq<Sys>, steps: seq<Step>, n: nat)
    requires IsRun(run, steps) && HonestRun(run, steps) && n < |steps| && steps[n].RoundBody?
    ensures var h, rs := WithArrivals(run[n].pod, steps[n].input), steps[n].rs;
            && NoDup(NamesOf(NodesOf(rs)))
            && Elems(NamesOf(NodesOf(rs))) == h.Names() - run[n + 1].pod.held.Names()
            && (forall node :: node in NodesOf(rs) ==> WasHeld(h, node))
            && run[n + 1].pod.sent == run[n].pod.sent + (if rs == [] then [] else [NodesOf(rs)])
  {
    AlwaysPartitioned(run, steps, n);
    RunStep(run, steps, n);
    assert HonestAt(run, steps, n);
    InsertAllPartitions(run[n].pod.held, Arrivals(run[n].pod, steps[n].input));
    ReleaseListExact(WithArrivals(run[n].pod, steps[n].input), steps[n].rs);
    MessageWasHeld(WithArrivals(run[n].pod, steps[n].input), steps[n].rs);
  }

  lemma {:induction false} MessageWasHeld(h: Held, rs: seq<Removal>)
    requires h.HasAll(rs)
    ensures forall node :: node in NodesOf(rs) ==> WasHeld(h, node)
  {
    if rs != [] {
      MessageWasHeld(h, rs[..|rs| - 1]);
      TakeAllIsSub(h, rs[..|rs| - 1]);
    }
  }

  /** The message sent at shutdown names every node that was held, once, as it was held. */
  lemma FinalReleaseExact(run: seq<Sys>, steps: seq<Step>, n: nat)
    requires IsRun(run, steps) && HonestRun(run, steps) && n < |steps| && steps[n].ReleaseAll?
    ensures var rn := steps[n].rn;
            && NoDup(NamesOf(rn)) && Elems(NamesOf(rn)) == run[n].pod.held.Names()
            && (forall i :: 0 <= i < |rn| ==> WasHeld(run[n].pod.held, rn[i]))
            && run[n + 1].pod.sent == run[n].pod.sent + [rn]
    ensures run[n + 1].pod.held.Names() == {}
  {
    AlwaysPartitioned(run, steps, n);
    RunStep(run, steps, n);
    ReleasedExactly(run[n].pod, steps[n].rn, run[n + 1].pod);
  }

  lemma ReleasedExactly(p: Pod, rn: seq<NodeInfo>, p': Pod)
    requires p.held.Partitioned() && ReleasedAll(p, rn, p')
    ensures NoDup(NamesOf(rn)) && Elems(NamesOf(rn)) == p.held.Names()
    ensures forall i :: 0 <= i < |rn| ==> WasHeld(p.held, rn[i])
    ensures p'.sent == p.sent + [rn] && p'.held.Names() == {}
  {
    ListsHeldOnce(NamesOf(rn), p.held);
  }

  /**
   Conservation: at every moment of every run, the nodes acquired are those held, those
   named in the release messages sent and those dropped by heartbeats, each counted once.
   */
  lemma Conservation(run: seq<Sys>, steps: seq<Step>, n: nat)
    requires IsRun(run, steps) && HonestRun(run, steps) && n < |run|
    ensures multiset(run[n].pod.held.Names()) + SentNames(run[n].pod.sent) + DroppedByHeartbeat(run, steps, n) ==
            Acquired(run, steps, n)
  {
    BooksBalance(run, steps, n);
    MessagesGiveBack(run, steps, n);
  }

  /* ---------- heartbeats ---------- */

  /**
   On a partition the payload names every held node exactly once, and whatever the reply
   names -- repeats and unknown names included -- exactly those nodes and watchers go.
   */
  lemma HeartbeatAgrees(p: Pod, payload: seq<NodeInfo>, names: seq<Name>)
    requires p.held.Partitioned() && Listing(payload, p.held)
    ensures |payload| == |p.held.rvr| + |p.held.mtn| + |p.held.pds|
    ensures IsOrder(NamesOf(payload), p.held.Names()) && NoDup(NamesOf(payload))
    ensures var p' := AfterHeartbeat(p, Some(names));
            p'.held.Names() == p.held.Names() - Elems(names) && p'.tails.threads == p.tails.threads - Elems(names)
  {
    ListsHeldOnce(NamesOf(payload), p.held);
    NamesAfterReply(p, names);
  }

  /* ---------- watchers ---------- */

  function LastAfter(last: set<Name>, s: Sys, step: Step): set<Name> {
    if step.Configure? then s.pod.held.Names() else last
  }

  /** The nodes held at the last configuration pass. */
  function LastConfigured(run: seq<Sys>, steps: seq<Step>, n: nat): set<Name>
    requires n < |run| == |steps| + 1
  {
    if n == 0 then {} else LastAfter(LastConfigured(run, steps, n - 1), run[n - 1], steps[n - 1])
  }

  /** Only held nodes are followed, and only nodes of the last configuration pass. */
  predicate Follows(s: Sys, last: set<Name>) {
    s.pod.tails.threads.Keys <= s.pod.held.Names() && s.pod.tails.threads.Keys <= last
  }

  lemma ConfigureFollowsAll(s: Sys, step: Step, s': Sys)
    requires step.Configure? && Next(s, step, s')
    ensures s'.pod.tails.threads.Keys == s.pod.tails.threads.Keys + s.pod.held.Names()
    ensures s'.pod.held == s.pod.held
  {
    T.StartEachEffect(s.pod.tails, NamesOf(step.order));
  }

  lemma RoundDropsWatchers(s: Sys, step: Step, s': Sys)
    requires step.RoundBody? && Next(s, step, s')
    requires s.pod.tails.threads.Keys <= s.pod.held.Names()
    ensures s'.pod.tails.threads.Keys <= s.pod.tails.threads.Keys
    ensures s'.pod.tails.threads.Keys <= s'.pod.held.Names()
  {
    var h := WithArrivals(s.pod, step.input);
    InsertAllNames(s.pod.held, Arrivals(s.pod, step.input));
    TakenOrNamed(h, step.rs);
    T.StopEachEffect(s.pod.tails, NamesOf(NodesOf(step.rs)));
  }

  lemma {:induction false} TakenOrNamed(h: Held, rs: seq<Removal>)
    ensures h.Names() <= h.TakeAll(rs).Names() + Elems(NamesOf(NodesOf(rs)))
  {
    if rs != [] {
      var front, last := rs[..|rs| - 1], rs[|rs| - 1];
      TakenOrNamed(h, front);
      TakeLosesOne(h.TakeAll(front), last);
      NamesOfSnoc(NodesOf(front), last.node);
      ElemsSnoc(NamesOf(NodesOf(front)), last.node.nodeName);
    }
  }

  lemma TakeLosesOne(h: Held, r: Removal)
    ensures h.Names() <= h.Take(r).Names() + {r.node.nodeName}
  {
  }

  lemma HeartbeatDropsWatchers(s: Sys, step: Step, s': Sys)
    requires step.Heartbeat? && Next(s, step, s')
    requires s.pod.tails.threads.Keys <= s.pod.held.Names()
    ensures s'.pod.tails.threads.Keys <= s.pod.tails.threads.Keys
    ensures s'.pod.tails.threads.Keys <= s'.pod.held.Names()
  {
    DropAllShrinks(s.pod.held, Dropped(step.reply));
    T.StopEachEffect(s.pod.tails, Dropped(step.reply));
  }

  lemma ReleaseAllDropsWatchers(s: Sys, step: Step, s': Sys)
    requires step.ReleaseAll? && Next(s, step, s')
    requires s.pod.tails.threads.Keys <= s.pod.held.Names()
    ensures s'.pod.tails.threads.Keys == {}
  {
    T.StopEachEffect(s.pod.tails, NamesOf(step.rn));
  }

  lemma OtherStepsKeepWatchers(s: Sys, step: Step, s': Sys)
    requires Next(s, step, s')
    requires !step.Configure? && !step.RoundBody? && !step.Heartbeat? && !step.ReleaseAll?
    ensures s'.pod.tails == s.pod.tails && s'.pod.held == s.pod.held && s'.pod.rotConf == s.pod.rotConf
  {
  }

  lemma WatcherStep(s: Sys, step: Step, s': Sys, last: set<Name>)
    requires Next(s, step, s') && Follows(s, last)
    ensures Follows(s', LastAfter(last, s, step))
    ensures step.Configure? ==> s'.pod.tails.threads.Keys == s'.pod.held.Names()
  {
    match step
    case Configure(_, _, _) => ConfigureFollowsAll(s, step, s');
    case RoundBody(_, _) => RoundDropsWatchers(s, step, s');
    case Heartbeat(_) => HeartbeatDropsWatchers(s, step, s');
    case ReleaseAll(_) => ReleaseAllDropsWatchers(s, step, s');
    case _ => OtherStepsKeepWatchers(s, step, s');
  }

  lemma WatcherRunStep(run: seq<Sys>, steps: seq<Step>, i: nat, last: set<Name>)
    requires IsRun(run, steps) && i < |steps| && Follows(run[i], last)
    ensures Follows(run[i + 1], LastAfter(last, run[i], steps[i]))
    ensures steps[i].Configure? ==> run[i + 1].pod.tails.threads.Keys == run[i + 1].pod.held.Names()
  {
    RunStep(run, steps, i);
    WatcherStep(run[i], steps[i], run[i + 1], last);
  }

  /**
   Only held nodes are ever followed, and only those that were there at the last
   configuration pass -- which leaves exactly the held nodes followed.  No assumption on
   console-data is needed.
   */
  lemma WatchersTrackHeld(run: seq<Sys>, steps: seq<Step>, n: nat)
    requires IsRun(run, steps) && n < |run|
    ensures run[n].pod.tails.threads.Keys <= run[n].pod.held.Names()
    ensures run[n].pod.tails.threads.Keys <= LastConfigured(run, steps, n)
    ensures n > 0 && steps[n - 1].Configure? ==> run[n].pod.tails.threads.Keys == run[n].pod.held.Names()
  {
    for i := 0 to n
      invariant Follows(run[i], LastConfigured(run, steps, i))
      invariant i > 0 && steps[i - 1].Configure? ==> run[i].pod.tails.threads.Keys == run[i].pod.held.Names()
    {
      WatcherRunStep(run, steps, i, LastConfigured(run, steps, i));
    }
  }

  /** After this step exactly the still held of the followed nodes are followed, by the same watchers. */
  predicate KeepsHeldWatchers(s: Sys, s': Sys) {
    && s'.pod.tails.threads.Keys == s.pod.tails.threads.Keys * s'.pod.held.Names()
    && forall x :: x in s'.pod.tails.threads ==> s'.pod.tails.threads[x] == s.pod.tails.threads[x]
  }

  lemma StillFollowed(threads: map<Name, nat>, threads': map<Name, nat>,
                      held: set<Name>, held': set<Name>, gone: set<Name>)
    requires threads' == threads - gone && threads.Keys <= held && held' == held - gone
    ensures threads'.Keys == threads.Keys * held'
    ensures forall x :: x in threads' ==> threads'[x] == threads[x]
  {
  }

  lemma RoundKeepsHeldWatchers(s: Sys, step: Step, s': Sys)
    requires step.RoundBody? && Next(s, step, s') && s.pod.held.Partitioned() && HonestStep(s, step)
    requires s.pod.tails.threads.Keys <= s.pod.held.Names()
    ensures KeepsHeldWatchers(s, s')
  {
    var h, gone := WithArrivals(s.pod, step.input), Elems(NamesOf(NodesOf(step.rs)));
    InsertAllPartitions(s.pod.held, Arrivals(s.pod, step.input));
    InsertAllNames(s.pod.held, Arrivals(s.pod, step.input));
    ReleaseListExact(h, step.rs);
    TakeAllIsSub(h, step.rs);
    SubOfKeepsShape(h, s'.pod.held);
    LeftOver(h.Names(), s'.pod.held.Names(), gone);
    T.StopEachEffect(s.pod.tails, NamesOf(NodesOf(step.rs)));
    StillFollowed(s.pod.tails.threads, s'.pod.tails.threads, h.Names(), s'.pod.held.Names(), gone);
  }

  lemma LeftOver<A>(all: set<A>, left: set<A>, gone: set<A>)
    requires left <= all && gone == all - left
    ensures left == all - gone
  {
  }

  lemma HeartbeatKeepsHeldWatchers(s: Sys, step: Step, s': Sys)
    requires step.Heartbeat? && Next(s, step, s') && s.pod.held.Partitioned()
    requires s.pod.tails.threads.Keys <= s.pod.held.Names()
    ensures KeepsHeldWatchers(s, s')
  {
    match step.reply
    case None => NoReplyNoChange(s.pod);
    case Some(names) =>
      NamesAfterReply(s.pod, names);
      StillFollowed(s.pod.tails.threads, s'.pod.tails.threads, s.pod.held.Names(), s'.pod.held.Names(), Elems(names));
  }

  lemma HeldWatchersStep(s: Sys, step: Step, s': Sys)
    requires Next(s, step, s') && !step.Configure? && HonestStep(s, step) && s.pod.held.Partitioned()
    requires s.pod.tails.threads.Keys <= s.pod.held.Names()
    ensures KeepsHeldWatchers(s, s')
  {
    if step.RoundBody? {
      RoundKeepsHeldWatchers(s, step, s');
    } else if step.Heartbeat? {
      HeartbeatKeepsHeldWatchers(s, step, s');
    } else if step.ReleaseAll? {
      ReleaseAllDropsWatchers(s, step, s');
    } else {
      OtherStepsKeepWatchers(s, step, s');
    }
  }

  /**
   Between configuration passes a watcher is cancelled exactly when its node is no longer
   held, and none is restarted.
   */
  lemma WatchersOfHeldStay(run: seq<Sys>, steps: seq<Step>, n: nat)
    requires IsRun(run, steps) && HonestRun(run, steps) && n < |steps| && !steps[n].Configure?
    ensures KeepsHeldWatchers(run[n], run[n + 1])
  {
    AlwaysPartitioned(run, steps, n);
    WatchersTrackHeld(run, steps, n);
    RunStep(run, steps, n);
    assert HonestAt(run, steps, n);
    HeldWatchersStep(run[n], steps[n], run[n + 1]);
  }

  /** The loop goes on to start conman exactly if the last pass found a node. */
  predicate KnowsNodes(s: Sys, last: set<Name>) {
    s.pc.ToStart? ==> (s.pc.hasNodes <==> last != {})
  }

  lemma NamesOrNone(h: Held)
    ensures h.Size() > 0 <==> h.Names() != {}
  {
    assert h.rvr.Keys != {} || h.pds.Keys != {} || h.mtn.Keys != {} <==> h.Names() != {};
  }

  lemma KnowsNodesStep(run: seq<Sys>, steps: seq<Step>, i: nat)
    requires IsRun(run, steps) && i < |steps| && KnowsNodes(run[i], LastConfigured(run, steps, i))
    ensures KnowsNodes(run[i + 1], LastConfigured(run, steps, i + 1))
  {
    RunStep(run, steps, i);
    NamesOrNone(run[i].pod.held);
  }

  /** Conman is started exactly if there is a node to watch: the pass before it has found one. */
  lemma StartedWithNodes(run: seq<Sys>, steps: seq<Step>, n: nat)
    requires IsRun(run, steps) && n < |steps|
    ensures steps[n].StartConman? ==> LastConfigured(run, steps, n) != {}
    ensures steps[n].NothingToWatch? ==> LastConfigured(run, steps, n) == {}
  {
    for i := 0 to n
      invariant KnowsNodes(run[i], LastConfigured(run, steps, i))
    {
      KnowsNodesStep(run, steps, i);
    }
    RunStep(run, steps, n);
  }

  /** At no time does any node have two running watchers, and the running ones are all for held nodes. */
  lemma WatchersAreUnique(run: seq<Sys>, steps: seq<Step>, n: nat, a: nat, b: nat)
    requires IsRun(run, steps) && n < |run|
    requires a in run[n].pod.tails.live && b in run[n].pod.tails.live
    ensures run[n].pod.tails.live[a] == run[n].pod.tails.live[b] ==> a == b
    ensures run[n].pod.tails.live[a] in run[n].pod.held.Names()
  {
    AlwaysValid(run, steps, n);
    WatchersTrackHeld(run, steps, n);
    T.OneWatcherPerNode(run[n].pod.tails);
  }

  /* ---------- log rotation ---------- */

  /** A round that changes anything rewrites the configuration; other steps only let nodes leave. */
  function LeftAfter(left: set<Name>, s: Sys, step: Step, s': Sys): set<Name> {
    match step
    case RoundBody(input, rs) => if Changes(Arrivals(s.pod, input), rs) then {} else left
    case _ => left + (s.pod.held.Names() - s'.pod.held.Names())
  }

  /** Nodes that left by heartbeat or shutdown since the rotation configuration was last written. */
  function LeftSince(run: seq<Sys>, steps: seq<Step>, n: nat): set<Name>
    requires n < |run| == |steps| + 1
  {
    if n == 0 then {} else LeftAfter(LeftSince(run, steps, n - 1), run[n - 1], steps[n - 1], run[n])
  }

  lemma UnchangedRound(s: Sys, step: Step, s': Sys)
    requires step.RoundBody? && Next(s, step, s') && !Changes(Arrivals(s.pod, step.input), step.rs)
    ensures s'.pod.held.Names() == s.pod.held.Names() && s'.pod.rotConf == s.pod.rotConf
  {
    InsertAllNames(s.pod.held, Arrivals(s.pod, step.input));
  }

  lemma DropsOnlyShrink(s: Sys, step: Step, s': Sys)
    requires Next(s, step, s') && !step.RoundBody?
    ensures s'.pod.held.Names() <= s.pod.held.Names() && s'.pod.rotConf == s.pod.rotConf
  {
    match step
    case Heartbeat(reply) => DropAllShrinks(s.pod.held, Dropped(reply)); SubOfKeepsShape(s.pod.held, s'.pod.held);
    case _ =>
  }

  /** `listed` is the disjoint union of `held` and `left`. */
  predicate Splits(listed: set<Name>, held: set<Name>, left: set<Name>) {
    listed == held + left && held !! left
  }

  lemma LeavingKeepsSplit(listed: set<Name>, held: set<Name>, left: set<Name>, held': set<Name>)
    requires Splits(listed, held, left) && held' <= held
    ensures Splits(listed, held', left + (held - held'))
  {
  }

  lemma RotationStep(s: Sys, step: Step, s': Sys, left: set<Name>)
    requires Next(s, step, s') && Splits(Elems(s.pod.rotConf), s.pod.held.Names(), left)
    ensures Splits(Elems(s'.pod.rotConf), s'.pod.held.Names(), LeftAfter(left, s, step, s'))
  {
    if step.RoundBody? {
      if !Changes(Arrivals(s.pod, step.input), step.rs) {
        UnchangedRound(s, step, s');
      }
    } else {
      DropsOnlyShrink(s, step, s');
      LeavingKeepsSplit(Elems(s.pod.rotConf), s.pod.held.Names(), left, s'.pod.held.Names());
    }
  }

  lemma ExactIfNoneLeft(listed: set<Name>, held: set<Name>, left: set<Name>)
    requires Splits(listed, held, left)
    ensures listed == held <==> left == {}
  {
  }

  lemma RotationRunStep(run: seq<Sys>, steps: seq<Step>, n: nat, left: set<Name>)
    requires IsRun(run, steps) && n < |steps|
    requires Splits(Elems(run[n].pod.rotConf), run[n].pod.held.Names(), left)
    ensures Splits(Elems(run[n + 1].pod.rotConf), run[n + 1].pod.held.Names(),
                   LeftAfter(left, run[n], steps[n], run[n + 1]))
  {
    RunStep(run, steps, n);
    RotationStep(run[n], steps[n], run[n + 1], left);
  }

  lemma RotationSplits(run: seq<Sys>, steps: seq<Step>, n: nat)
    requires IsRun(run, steps) && n < |run|
    ensures Splits(Elems(run[n].pod.rotConf), run[n].pod.held.Names(), LeftSince(run, steps, n))
  {
    for i := 0 to n
      invariant Splits(Elems(run[i].pod.rotConf), run[i].pod.held.Names(), LeftSince(run, steps, i))
    {
      RotationRunStep(run, steps, i, LeftSince(run, steps, i));
    }
  }

  /**
   The rotation configuration covers every held node.  It names exactly the held nodes and
   those that have left without it being rewritten, and no name is in both groups; so it
   is exact if and only if no node has left since the last rewrite.
   */
  lemma RotationCoversHeld(run: seq<Sys>, steps: seq<Step>, n: nat)
    requires IsRun(run, steps) && n < |run|
    ensures Splits(Elems(run[n].pod.rotConf), run[n].pod.held.Names(), LeftSince(run, steps, n))
    ensures Elems(run[n].pod.rotConf) == run[n].pod.held.Names() <==> LeftSince(run, steps, n) == {}
  {
    RotationSplits(run, steps, n);
    ExactIfNoneLeft(Elems(run[n].pod.rotConf), run[n].pod.held.Names(), LeftSince(run, steps, n));
  }

  lemma NoDupStep(run: seq<Sys>, steps: seq<Step>, i: nat)
    requires IsRun(run, steps) && HonestRun(run, steps) && i < |steps| && NoDup(run[i].pod.rotConf)
    ensures NoDup(run[i + 1].pod.rotConf)
  {
    RunStep(run, steps, i);
    if steps[i].RoundBody? {
      if Changes(Arrivals(run[i].pod, steps[i].input), steps[i].rs) {
        AlwaysPartitioned(run, steps, i + 1);
        ListsHeldOnce(run[i + 1].pod.rotConf, run[i + 1].pod.held);
      }
    } else {
      DropsOnlyShrink(run[i], steps[i], run[i + 1]);
    }
  }

  /** With an honest console-data, the rotation configuration has one entry per name. */
  lemma RotationHasNoDup(run: seq<Sys>, steps: seq<Step>, n: nat)
    requires IsRun(run, steps) && HonestRun(run, steps) && n < |run|
    ensures NoDup(run[n].pod.rotConf)
  {
    for i := 0 to n
      invariant NoDup(run[i].pod.rotConf)
    {
      NoDupStep(run, steps, i);
    }
  }
}
