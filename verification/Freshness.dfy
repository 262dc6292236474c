/**
 Does conman watch what the pod holds?  Over every interleaving of the node loop, the
 heartbeat, the configuration passes, the monitor and the life of the conman process.
 */
module Freshness {
  import opened Wrappers
  import opened Listings
  import opened Nodes
  import opened PodSpec
  import opened ControlPlane
  import opened Sections

  /** The configuration file lists the held nodes, with the credentials last recorded. */
  ghost predicate Fresh(p: Pod) {
    ConfFor(p.conf, p.held, if p.previousPasswords.Some? then p.previousPasswords.value else map[])
  }

  /**
   Steps that try to have conman reconfigured: a round that takes a node in or gives one
   back, a heartbeat reply that names nodes, the monitor's signal.
   */
  predicate SendsTerm(s: Sys, step: Step) {
    match step
    case RoundBody(input, rs) => TakesNode(s.pod, input) || rs != []
    case Heartbeat(reply) => reply.Some? && reply.value != []
    case MonitorTerm => true
    case _ => false
  }

  /** Outside shutdown, the pools only change in steps that signal conman. */
  lemma PoolsChangeOnlyWithTerm(s: Sys, step: Step, s': Sys)
    requires Next(s, step, s') && !SendsTerm(s, step) && !step.ReleaseAll?
    ensures s'.pod.held == s.pod.held
  {
    match step
    case RoundBody(input, rs) =>
      ChangesExactly(s.pod, input, rs);
      NoneKnown(s.pod.held, Arrivals(s.pod, input));
    case _ =>
  }

  lemma TermReachesCommand(s: Sys, step: Step, s': Sys)
    requires Next(s, step, s') && SendsTerm(s, step)
    ensures s'.pod.command == Terminated(s.pod.command)
  {
    if step.RoundBody? {
      ChangesExactly(s.pod, step.input, step.rs);
    }
  }

  lemma OnlyConfigureWrites(s: Sys, step: Step, s': Sys)
    requires Next(s, step, s') && !step.Configure?
    ensures s'.pod.conf == s.pod.conf && s'.pod.previousPasswords == s.pod.previousPasswords
  {
  }

  /* ---------- what happened since the last configuration pass ---------- */

  /** A SIGTERM has been attempted since the last configuration pass. */
  predicate TermSince(run: seq<Sys>, steps: seq<Step>, n: nat)
    requires n < |run| == |steps| + 1
  {
    n > 0 && !steps[n - 1].Configure? && (SendsTerm(run[n - 1], steps[n - 1]) || TermSince(run, steps, n - 1))
  }

  /** The last configuration pass left the file alone, as the base file told it to. */
  predicate Skipped(steps: seq<Step>, n: nat)
    requires n <= |steps|
  {
    n > 0 && if steps[n - 1].Configure? then !steps[n - 1].write else Skipped(steps, n - 1)
  }

  lemma ReleasedIsForGood(s: Sys, step: Step, s': Sys)
    requires Next(s, step, s') && !s'.released
    ensures !s.released && !step.ReleaseAll?
  {
  }

  lemma ConfigureMakesFresh(s: Sys, step: Step, s': Sys)
    requires Next(s, step, s') && step.Configure? && step.write
    ensures Fresh(s'.pod)
  {
  }

  /** One step: a written configuration is fresh, and it stays so until a step that signals conman. */
  lemma FreshStep(s: Sys, step: Step, s': Sys)
    requires Next(s, step, s') && !s'.released
    ensures !s.released
    ensures step.Configure? && step.write ==> Fresh(s'.pod)
    ensures !step.Configure? && !SendsTerm(s, step) ==> (Fresh(s'.pod) <==> Fresh(s.pod))
  {
    ReleasedIsForGood(s, step, s');
    if step.Configure? {
      if step.write {
        ConfigureMakesFresh(s, step, s');
      }
    } else {
      OnlyConfigureWrites(s, step, s');
      if !SendsTerm(s, step) {
        PoolsChangeOnlyWithTerm(s, step, s');
      }
    }
  }

  lemma FreshRunStep(run: seq<Sys>, steps: seq<Step>, i: nat)
    requires IsRun(run, steps) && i < |steps| && !run[i + 1].released
    ensures !run[i].released
    ensures steps[i].Configure? && steps[i].write ==> Fresh(run[i + 1].pod)
    ensures !steps[i].Configure? && !SendsTerm(run[i], steps[i]) ==> (Fresh(run[i + 1].pod) <==> Fresh(run[i].pod))
  {
    RunStep(run, steps, i);
    FreshStep(run[i], steps[i], run[i + 1]);
  }

  /**
   In every reachable state before shutdown, the configuration lists exactly the held
   nodes with the recorded credentials, or a SIGTERM has been attempted since the last
   configuration pass -- unless that pass was told not to write.
   */
  lemma {:induction false} FreshOrTermAttempted(run: seq<Sys>, steps: seq<Step>, n: nat)
    requires IsRun(run, steps) && n < |run|
    requires !run[n].released && !Skipped(steps, n)
    ensures Fresh(run[n].pod) || TermSince(run, steps, n)
  {
    if n == 0 {
      NothingIsListed();
    } else {
      FreshRunStep(run, steps, n - 1);
      if !steps[n - 1].Configure? {
        FreshOrTermAttempted(run, steps, n - 1);
      }
    }
  }

  lemma NothingIsListed()
    ensures ConfFor([], NOTHING_HELD, map[])
  {
    assert ThreeSections([], NOTHING_HELD, map[], [], [], []);
  }

  /* ---------- while conman is running ---------- */

  /** The step at which the current conman process was started. */
  function LastStart(steps: seq<Step>, n: nat): int
    requires n <= |steps|
  {
    if n == 0 then -1 else if steps[n - 1].StartConman? then n - 1 else LastStart(steps, n - 1)
  }

  lemma AliveStaysSo(s: Sys, step: Step, s': Sys)
    requires Next(s, step, s') && !step.StartConman? && s'.pod.command == Alive(false)
    ensures s.pod.command == Alive(false) && !SendsTerm(s, step)
  {
    if SendsTerm(s, step) {
      TermReachesCommand(s, step, s');
    }
  }

  lemma NoConfigureWhileAlive(s: Sys, step: Step, s': Sys)
    requires Next(s, step, s') && s.pod.command.Alive? && s.pc == Executing
    ensures !step.Configure?
  {
  }

  /** There is a command exactly while the loop waits for the process. */
  predicate InStep(s: Sys) {
    s.pod.command == NoCommand <==> s.pc != Executing
  }

  lemma CommandFollowsLoop(s: Sys, step: Step, s': Sys)
    requires InStep(s) && Next(s, step, s')
    ensures InStep(s')
  {
  }

  lemma CommandRunStep(run: seq<Sys>, steps: seq<Step>, i: nat)
    requires IsRun(run, steps) && i < |steps| && InStep(run[i])
    ensures InStep(run[i + 1])
  {
    RunStep(run, steps, i);
    CommandFollowsLoop(run[i], steps[i], run[i + 1]);
  }

  /** The loop waits for the process exactly while there is a command ... */
  lemma CommandExactlyWhileExecuting(run: seq<Sys>, steps: seq<Step>, n: nat)
    requires IsRun(run, steps) && n < |run|
    ensures run[n].pod.command == NoCommand <==> run[n].pc != Executing
  {
    for i := 0 to n
      invariant InStep(run[i])
    {
      CommandRunStep(run, steps, i);
    }
  }

  /** ... so conman is never started over a command that is still there. */
  lemma NeverStartedTwice(run: seq<Sys>, steps: seq<Step>, n: nat)
    requires IsRun(run, steps) && n < |steps| && steps[n].StartConman?
    ensures run[n].pod.command == NoCommand
  {
    CommandExactlyWhileExecuting(run, steps, n);
    RunStep(run, steps, n);
  }

  /** Nothing that conman is configured from or with differs between the two states. */
  predicate SameSetup(a: Pod, b: Pod) {
    a.held == b.held && a.conf == b.conf && a.previousPasswords == b.previousPasswords
  }

  lemma UnsignalledStep(s: Sys, step: Step, s': Sys)
    requires Next(s, step, s') && InStep(s) && !step.StartConman?
    requires s'.pod.command == Alive(false) && !s'.released
    ensures s.pod.command == Alive(false) && !s.released && SameSetup(s.pod, s'.pod)
  {
    ReleasedIsForGood(s, step, s');
    AliveStaysSo(s, step, s');
    NoConfigureWhileAlive(s, step, s');
    PoolsChangeOnlyWithTerm(s, step, s');
    OnlyConfigureWrites(s, step, s');
  }

  lemma StartChangesNoSetup(s: Sys, step: Step, s': Sys)
    requires Next(s, step, s') && step.StartConman?
    ensures SameSetup(s.pod, s'.pod) && s.released == s'.released
  {
  }

  lemma UnsignalledRunStep(run: seq<Sys>, steps: seq<Step>, i: nat)
    requires IsRun(run, steps) && i < |steps|
    requires run[i + 1].pod.command == Alive(false) && !run[i + 1].released
    ensures !run[i].released && SameSetup(run[i].pod, run[i + 1].pod)
    ensures !steps[i].StartConman? ==> run[i].pod.command == Alive(false)
  {
    RunStep(run, steps, i);
    CommandExactlyWhileExecuting(run, steps, i);
    if steps[i].StartConman? {
      StartChangesNoSetup(run[i], steps[i], run[i + 1]);
    } else {
      UnsignalledStep(run[i], steps[i], run[i + 1]);
    }
  }

  /** A running process is signalled by exactly those steps. */
  lemma SignalledExactly(s: Sys, step: Step, s': Sys)
    requires Next(s, step, s') && s.pod.command.Alive? && s.pc == Executing && !step.ConmanExits?
    ensures s'.pod.command == Alive(s.pod.command.signalled || SendsTerm(s, step))
  {
    if step.RoundBody? {
      ChangesExactly(s.pod, step.input, step.rs);
    }
  }

  lemma SignalledRunStep(run: seq<Sys>, steps: seq<Step>, i: nat)
    requires IsRun(run, steps) && i < |steps| && run[i].pod.command.Alive? && !steps[i].ConmanExits?
    ensures run[i + 1].pod.command == Alive(run[i].pod.command.signalled || SendsTerm(run[i], steps[i]))
  {
    RunStep(run, steps, i);
    CommandExactlyWhileExecuting(run, steps, i);
    SignalledExactly(run[i], steps[i], run[i + 1]);
  }

  /** Some step from a up to n sends a SIGTERM. */
  predicate Disturbed(run: seq<Sys>, steps: seq<Step>, a: nat, n: nat)
    requires a <= n < |run| == |steps| + 1
  {
    exists i :: a <= i < n && SendsTerm(run[i], steps[i])
  }

  /**
   A process that has not exited is signalled if and only if a round has taken a node in or
   given one back, a heartbeat reply has named nodes or the monitor has signalled since.
   */
  lemma {:induction false} SignalledIffDisturbed(run: seq<Sys>, steps: seq<Step>, a: nat, n: nat)
    requires IsRun(run, steps) && a <= n < |run| && run[a].pod.command == Alive(false)
    requires forall i :: a <= i < n ==> !steps[i].ConmanExits?
    ensures run[n].pod.command == Alive(Disturbed(run, steps, a, n))
    decreases n
  {
    if a < n {
      SignalledIffDisturbed(run, steps, a, n - 1);
      SignalledRunStep(run, steps, n - 1);
    }
  }

  /**
   While a conman process runs and has not been signalled, the pools, the configuration
   and the recorded credentials are what they were when it was started.
   */
  lemma {:induction false} NothingChangesUnsignalled(run: seq<Sys>, steps: seq<Step>, n: nat)
    requires IsRun(run, steps) && n < |run|
    requires run[n].pod.command == Alive(false) && !run[n].released
    ensures var k := LastStart(steps, n);
            0 <= k < n && steps[k].StartConman? && !run[k].released && SameSetup(run[k].pod, run[n].pod)
  {
    if n > 0 {
      UnsignalledRunStep(run, steps, n - 1);
      if !steps[n - 1].StartConman? {
        NothingChangesUnsignalled(run, steps, n - 1);
      }
    }
  }

  /**
   So a running, unsignalled conman is configured for exactly the held nodes, with the
   recorded credentials -- unless the file was not written or a SIGTERM was lost before
   the start.
   */
  lemma RunningIsFresh(run: seq<Sys>, steps: seq<Step>, n: nat)
    requires IsRun(run, steps) && n < |run|
    requires run[n].pod.command == Alive(false) && !run[n].released
    ensures var k := LastStart(steps, n);
            0 <= k < n && (!Skipped(steps, k) && !TermSince(run, steps, k) ==> Fresh(run[n].pod))
  {
    NothingChangesUnsignalled(run, steps, n);
    var k := LastStart(steps, n);
    if !Skipped(steps, k) && !TermSince(run, steps, k) {
      FreshOrTermAttempted(run, steps, k);
    }
  }

  /* ---------- exactly when conman runs on a stale configuration ---------- */

  /** The file and the record are those of a pass that found the pools h, or of no pass at all. */
  ghost predicate FromPass(p: Pod, h: Option<Held>) {
    match h
    case None => p.conf == [] && p.previousPasswords == None
    case Some(held) => p.previousPasswords.Some? && ConfFor(p.conf, held, p.previousPasswords.value)
  }

  function PassAfter(h: Option<Held>, s: Sys, step: Step): Option<Held> {
    if step.Configure? && step.write then Some(s.pod.held) else h
  }

  lemma PassStep(s: Sys, step: Step, s': Sys, h: Option<Held>)
    requires Next(s, step, s') && FromPass(s.pod, h)
    ensures FromPass(s'.pod, PassAfter(h, s, step))
  {
    if !step.Configure? {
      OnlyConfigureWrites(s, step, s');
    }
  }

  lemma PassRunStep(run: seq<Sys>, steps: seq<Step>, i: nat, h: Option<Held>)
    requires IsRun(run, steps) && i < |steps| && FromPass(run[i].pod, h)
    ensures FromPass(run[i + 1].pod, PassAfter(h, run[i], steps[i]))
  {
    RunStep(run, steps, i);
    PassStep(run[i], steps[i], run[i + 1], h);
  }

  /** The pools found by the last written pass. */
  function LastWritten(run: seq<Sys>, steps: seq<Step>, n: nat): Option<Held>
    requires n < |run| == |steps| + 1
  {
    if n == 0 then None else PassAfter(LastWritten(run, steps, n - 1), run[n - 1], steps[n - 1])
  }

  lemma {:induction false} LastWrittenIsAtLastWrite(run: seq<Sys>, steps: seq<Step>, n: nat)
    requires n < |run| == |steps| + 1
    ensures -1 <= LastWrite(steps, n) < n
    ensures LastWritten(run, steps, n) ==
            if LastWrite(steps, n) == -1 then None else Some(run[LastWrite(steps, n)].pod.held)
  {
    if n > 0 {
      LastWrittenIsAtLastWrite(run, steps, n - 1);
    }
  }

  ghost predicate FileAt(run: seq<Sys>, steps: seq<Step>, n: nat)
    requires n < |run| == |steps| + 1
  {
    FromPass(run[n].pod, LastWritten(run, steps, n))
  }

  lemma FileAtStart(run: seq<Sys>, steps: seq<Step>)
    requires IsRun(run, steps)
    ensures FileAt(run, steps, 0)
  {
  }

  lemma FileStep(run: seq<Sys>, steps: seq<Step>, i: nat)
    requires IsRun(run, steps) && i < |steps| && FileAt(run, steps, i)
    ensures FileAt(run, steps, i + 1)
  {
    PassRunStep(run, steps, i, LastWritten(run, steps, i));
  }

  /** In every reachable state the file lists the pools that the last written pass found. */
  lemma FileIsFromLastWrite(run: seq<Sys>, steps: seq<Step>, n: nat)
    requires IsRun(run, steps) && n < |run|
    ensures FileAt(run, steps, n)
  {
    FileAtStart(run, steps);
    for i := 0 to n
      invariant FileAt(run, steps, i)
    {
      FileStep(run, steps, i);
    }
  }

  /** Before the first pass the loop can only configure. */
  predicate FirstIsToConfigure(s: Sys) {
    s.firstPass ==> s.pc == ToConfigure
  }

  lemma FirstPassStep(run: seq<Sys>, steps: seq<Step>, i: nat)
    requires IsRun(run, steps) && i < |steps| && FirstIsToConfigure(run[i])
    ensures FirstIsToConfigure(run[i + 1])
    ensures run[i].firstPass && !run[i + 1].firstPass ==> steps[i].Configure? && steps[i].write
  {
    RunStep(run, steps, i);
  }

  lemma {:induction false} FirstPassWrites(run: seq<Sys>, steps: seq<Step>, n: nat)
    requires IsRun(run, steps) && n < |run|
    ensures FirstIsToConfigure(run[n])
    ensures LastWrite(steps, n) == -1 ==> run[n].firstPass
  {
    if n > 0 {
      FirstPassWrites(run, steps, n - 1);
      FirstPassStep(run, steps, n - 1);
    }
  }

  /** The names conman is configured to watch are the held ones. */
  predicate WatchesHeld(p: Pod) {
    Elems(EntryNames(p.conf)) == p.held.Names()
  }

  /** Conman is only ever started on a file that some pass has written. */
  lemma StartedOnAWrittenFile(run: seq<Sys>, steps: seq<Step>, k: nat)
    requires IsRun(run, steps) && k < |steps| && steps[k].StartConman?
    ensures 0 <= LastWrite(steps, k) < k
    ensures FromPass(run[k].pod, Some(run[LastWrite(steps, k)].pod.held))
  {
    RunStep(run, steps, k);
    FirstPassWrites(run, steps, k);
    FileIsFromLastWrite(run, steps, k);
    LastWrittenIsAtLastWrite(run, steps, k);
  }

  /**
   A running, unsignalled conman watches exactly the held nodes if and only if the names
   held when it was started were those held at the last written pass before.  So it is
   stale exactly when the names had changed by the time of the start, by however many
   steps of whatever threads, and whether or not later passes were skipped.
   */
  lemma StaleExactlyIfChangedBeforeStart(run: seq<Sys>, steps: seq<Step>, n: nat)
    requires IsRun(run, steps) && n < |run|
    requires run[n].pod.command == Alive(false) && !run[n].released
    ensures var k := LastStart(steps, n);
            && 0 <= k < n
            && var w := LastWrite(steps, k);
               && 0 <= w < k
               && (WatchesHeld(run[n].pod) <==> run[k].pod.held.Names() == run[w].pod.held.Names())
               && (run[k].pod.held == run[w].pod.held ==> Fresh(run[n].pod))
  {
    NothingChangesUnsignalled(run, steps, n);
    var k := LastStart(steps, n);
    StartedOnAWrittenFile(run, steps, k);
    var p, w := run[k].pod, LastWrite(steps, k);
    ConfNames(p.conf, run[w].pod.held, p.previousPasswords.value);
  }
}
