/**
 The registry of log-file watchers of logAggregation.go.  A watcher is a started
 thread following one console log; it is gone once it has been cancelled.
 */
module Tails {
  import opened Listings
  import opened Nodes

  datatype Tails = Tails(
    threads: map<Name, nat>, // node name -> watcher that can be cancelled through the registry
    live: map<nat, Name>,    // watchers started and not cancelled -> node they follow
    next: nat)                 // number of the next watcher to start
  {
    /** The registry is exactly the inverse of the running watchers. */
    predicate Valid() {
      && (forall x {:trigger threads[x]} :: x in threads ==> threads[x] in live)
      && (forall id {:trigger live[id]} :: id in live ==> id < next && live[id] in threads)
      && (forall x, id {:trigger threads[x], live[id]} ::
            x in threads && id in live ==> (threads[x] == id <==> live[id] == x))
    }

    /** Start following a node, unless that is already being done. */
    function Start(xname: Name): Tails {
      if xname in threads then this
      else Tails(threads[xname := next], live[next := xname], next + 1)
    }

    /** Cancel the watcher of a node, if there is one. */
    function Stop(xname: Name): Tails {
      if xname in threads then Tails(threads - {xname}, live - {threads[xname]}, next) else this
    }

    function StartEach(xnames: seq<Name>): Tails {
      if xnames == [] then this else StartEach(xnames[..|xnames| - 1]).Start(xnames[|xnames| - 1])
    }

    function StopEach(xnames: seq<Name>): Tails {
      if xnames == [] then this else StopEach(xnames[..|xnames| - 1]).Stop(xnames[|xnames| - 1])
    }
  }

  /** No console log is ever followed twice, and the followed logs are those in the registry. */
  lemma OneWatcherPerNode(t: Tails)
    requires t.Valid()
    ensures forall a, b :: a in t.live && b in t.live && t.live[a] == t.live[b] ==> a == b
    ensures forall x :: x in t.threads <==> exists id :: id in t.live && t.live[id] == x
    ensures |t.live| == |t.threads|
  {
    forall x | x in t.threads
      ensures exists id :: id in t.live && t.live[id] == x
    {
      assert t.live[t.threads[x]] == x;
    }
    SameSize(t);
  }

  lemma {:induction false} SameSize(t: Tails)
    requires t.Valid()
    ensures |t.live| == |t.threads|
    decreases |t.threads|
  {
    if t.threads == map[] {
      assert t.live == map[];
    } else {
      var x :| x in t.threads;
      StopValid(t, x);
      SameSize(t.Stop(x));
      assert t.threads.Keys == t.Stop(x).threads.Keys + {x};
      assert t.live.Keys == t.Stop(x).live.Keys + {t.threads[x]};
    }
  }

  lemma StartValid(t: Tails, xname: Name)
    requires t.Valid()
    ensures t.Start(xname).Valid()
  {
  }

  lemma StopValid(t: Tails, xname: Name)
    requires t.Valid()
    ensures t.Stop(xname).Valid()
  {
  }

  lemma StopSnoc(t: Tails, xnames: seq<Name>, xname: Name)
    ensures t.StopEach(xnames + [xname]) == t.StopEach(xnames).Stop(xname)
    ensures t.StartEach(xnames + [xname]) == t.StartEach(xnames).Start(xname)
  {
  }

  /** Cancelling a list of nodes, in any order and with repeats, leaves the others alone. */
  lemma {:induction false} StopEachEffect(t: Tails, xnames: seq<Name>)
    ensures t.StopEach(xnames).threads == t.threads - Elems(xnames)
    ensures t.Valid() ==> t.StopEach(xnames).Valid()
  {
    if xnames == [] {
      assert t.threads - {} == t.threads;
    } else {
      var front, last := xnames[..|xnames| - 1], xnames[|xnames| - 1];
      StopEachEffect(t, front);
      assert xnames == front + [last];
      ElemsSnoc(front, last);
      assert (t.threads - Elems(front)) - {last} == t.threads - Elems(xnames);
      assert last !in t.threads - Elems(front) ==> t.threads - Elems(front) == t.threads - Elems(xnames);
      if t.Valid() {
        StopValid(t.StopEach(front), last);
      }
    }
  }

  /** Starting a list of nodes follows each of them, without restarting any already followed. */
  lemma {:induction false} StartEachEffect(t: Tails, xnames: seq<Name>)
    ensures t.StartEach(xnames).threads.Keys == t.threads.Keys + Elems(xnames)
    ensures forall x :: x in t.threads ==>
              x in t.StartEach(xnames).threads && t.StartEach(xnames).threads[x] == t.threads[x]
    ensures t.Valid() ==> t.StartEach(xnames).Valid()
  {
    if xnames != [] {
      var front, last := xnames[..|xnames| - 1], xnames[|xnames| - 1];
      StartEachEffect(t, front);
      assert xnames == front + [last];
      ElemsSnoc(front, last);
      var mid := t.StartEach(front);
      assert mid.Start(last).threads.Keys == mid.threads.Keys + {last};
      if t.Valid() {
        StartValid(mid, last);
      }
    }
  }
}
