/**
 The threads of the service as a transition system.  Each step is one locked section
 of PodSpec, or one of the moments that are not under the lock: looking at inShutdown,
 starting, losing and collecting the conman process, and the monitor's signal, which it
 sends some time after its check.  Steps of different threads interleave freely.
 */
module ControlPlane {
  import opened Wrappers
  import opened Nodes
  import opened Credentials
  import opened PodSpec
  import T = Tails

  /** Where the conman loop is: about to configure, about to start (or not), or waiting for the process. */
  datatype ConmanPc = ToConfigure | ToStart(hasNodes: bool) | Executing

  datatype Sys = Sys(
    pod: Pod,
    watching: bool,  // the node loop has found no shutdown and is about to run a round
    pc: ConmanPc,
    firstPass: bool, // the first configuration is always written
    termDue: bool,   // the monitor has seen a change and is about to signal
    vault: Vault,
    released: bool)  // releaseAllNodes has run

  datatype Step =
    | CheckShutdown
    | RoundBody(input: RoundInput, rs: seq<Removal>)
    | Heartbeat(reply: Option<seq<Name>>)
    | Configure(order: seq<NodeInfo>, write: bool, seen: Vault)
    | NothingToWatch
    | StartConman
    | ConmanExits
    | CollectConman
    | MonitorCheck(keysChanged: bool)
    | MonitorTerm
    | VaultChange(vault: Vault)
    | BeginShutdown
    | ReleaseAll(rn: seq<NodeInfo>)

  predicate Init(s: Sys) {
    && s.pod.held == NOTHING_HELD
    && s.pod.tails == T.Tails(map[], map[], 0)
    && s.pod.limits.Positive()
    && s.pod.command == NoCommand
    && s.pod.conf == [] && s.pod.rotConf == [] && s.pod.sent == []
    && s.pod.previousPasswords == None
    && !s.pod.inShutdown && !s.watching && !s.termDue && !s.released
    && s.pc == ToConfigure && s.firstPass
  }

  ghost predicate Next(s: Sys, step: Step, s': Sys) {
    match step
    case CheckShutdown =>
      !s.watching && s' == s.(watching := !s.pod.inShutdown)
    case RoundBody(input, rs) =>
      s.watching && Round(s.pod, input, rs, s'.pod) && s' == s.(pod := s'.pod, watching := false)
    case Heartbeat(reply) =>
      s' == s.(pod := AfterHeartbeat(s.pod, reply))
    case Configure(order, write, seen) =>
      && s.pc == ToConfigure && (s.firstPass ==> write)
      && Configured(s.pod, order, write, seen, s'.pod)
      && s' == s.(pod := s'.pod, pc := ToStart(s.pod.held.Size() > 0), firstPass := false, vault := seen)
    case NothingToWatch =>
      s.pc == ToStart(false) && s' == s.(pc := ToConfigure)
    case StartConman =>
      s.pc == ToStart(true) && s' == s.(pod := s.pod.(command := Alive(false)), pc := Executing)
    case ConmanExits =>
      s.pod.command.Alive? && s' == s.(pod := s.pod.(command := Dead))
    case CollectConman =>
      s.pc == Executing && s.pod.command.Dead? && s' == s.(pod := s.pod.(command := NoCommand), pc := ToConfigure)
    case MonitorCheck(keysChanged) =>
      !s.termDue && s' == s.(termDue := keysChanged || CredsChanged(s.pod.held, s.vault, s.pod.previousPasswords))
    case MonitorTerm =>
      s.termDue && s' == s.(termDue := false, pod := s.pod.(command := Terminated(s.pod.command)))
    case VaultChange(vault) =>
      s' == s.(vault := vault)
    case BeginShutdown =>
      !s.pod.inShutdown && s' == s.(pod := s.pod.(inShutdown := true))
    case ReleaseAll(rn) =>
      && s.pod.inShutdown && !s.released
      && ReleasedAll(s.pod, rn, s'.pod) && s' == s.(pod := s'.pod, released := true)
  }

  ghost predicate StepAt(run: seq<Sys>, steps: seq<Step>, i: nat)
    requires i < |steps| && |run| == |steps| + 1
  {
    Next(run[i], steps[i], run[i + 1])
  }

  /** A stretch of a run: any interleaving of steps, from any state. */
  ghost predicate IsStretch(run: seq<Sys>, steps: seq<Step>) {
    && |run| == |steps| + 1
    && forall i :: 0 <= i < |steps| ==> StepAt(run, steps, i)
  }

  /** A run: a stretch from start-up. */
  ghost predicate IsRun(run: seq<Sys>, steps: seq<Step>) {
    IsStretch(run, steps) && Init(run[0])
  }

  lemma RunStep(run: seq<Sys>, steps: seq<Step>, i: nat)
    requires IsStretch(run, steps) && i < |steps|
    ensures Next(run[i], steps[i], run[i + 1])
  {
    assert StepAt(run, steps, i);
  }

  /** The last configuration pass that wrote the file. */
  function LastWrite(steps: seq<Step>, n: nat): int
    requires n <= |steps|
  {
    if n == 0 then -1
    else if steps[n - 1].Configure? && steps[n - 1].write then n - 1
    else LastWrite(steps, n - 1)
  }

  /* ---------- shape: every pool holds the right nodes under the right names ---------- */

  lemma NextKeepsValid(s: Sys, step: Step, s': Sys)
    requires s.pod.Valid() && Next(s, step, s')
    ensures s'.pod.Valid()
  {
    match step
    case RoundBody(input, rs) =>
      ExchangeKeepsValid(WithTargets(s.pod, input.fileTargets), RoundDeltas(s.pod, input), Arrivals(s.pod, input),
                         rs, s'.pod);
    case Heartbeat(reply) => HeartbeatKeepsValid(s.pod, reply);
    case Configure(order, write, seen) => T.StartEachEffect(s.pod.tails, NamesOf(order));
    case ReleaseAll(rn) => T.StopEachEffect(s.pod.tails, NamesOf(rn));
    case _ =>
  }

  lemma ValidStep(run: seq<Sys>, steps: seq<Step>, i: nat)
    requires IsRun(run, steps) && i < |steps| && run[i].pod.Valid()
    ensures run[i + 1].pod.Valid()
  {
    RunStep(run, steps, i);
    NextKeepsValid(run[i], steps[i], run[i + 1]);
  }

  /** Whatever console-data answers: names and classes match, and the watcher registry is exact. */
  lemma AlwaysValid(run: seq<Sys>, steps: seq<Step>, n: nat)
    requires IsRun(run, steps) && n < |run|
    ensures run[n].pod.Valid()
  {
    for i := 0 to n
      invariant run[i].pod.Valid()
    {
      ValidStep(run, steps, i);
    }
  }

  /** console-data only hands out nodes not watched here, each once. */
  predicate HonestStep(s: Sys, step: Step) {
    step.RoundBody? ==> FreshNames(s.pod.held, Arrivals(s.pod, step.input))
  }

  predicate HonestAt(run: seq<Sys>, steps: seq<Step>, i: nat)
    requires i < |steps| && |run| == |steps| + 1
  {
    HonestStep(run[i], steps[i])
  }

  ghost predicate HonestRun(run: seq<Sys>, steps: seq<Step>) {
    |run| == |steps| + 1 && forall i :: 0 <= i < |steps| ==> HonestAt(run, steps, i)
  }

  lemma NextKeepsPartition(s: Sys, step: Step, s': Sys)
    requires s.pod.held.Partitioned() && Next(s, step, s') && HonestStep(s, step)
    ensures s'.pod.held.Partitioned()
  {
    match step
    case RoundBody(input, rs) =>
      InsertAllPartitions(s.pod.held, Arrivals(s.pod, input));
      TakeAllIsSub(WithArrivals(s.pod, input), rs);
      SubOfKeepsShape(WithArrivals(s.pod, input), s'.pod.held);
    case Heartbeat(reply) =>
      DropAllShrinks(s.pod.held, Dropped(reply));
      SubOfKeepsShape(s.pod.held, s'.pod.held);
    case _ =>
  }

  lemma PartitionStep(run: seq<Sys>, steps: seq<Step>, i: nat)
    requires IsRun(run, steps) && HonestRun(run, steps) && i < |steps| && run[i].pod.held.Partitioned()
    ensures run[i + 1].pod.held.Partitioned()
  {
    RunStep(run, steps, i);
    assert HonestAt(run, steps, i);
    NextKeepsPartition(run[i], steps[i], run[i + 1]);
  }

  /** The three pools are always a partition of the held nodes by class. */
  lemma AlwaysPartitioned(run: seq<Sys>, steps: seq<Step>, n: nat)
    requires IsRun(run, steps) && HonestRun(run, steps) && n < |run|
    ensures run[n].pod.held.Partitioned()
  {
    for i := 0 to n
      invariant run[i].pod.held.Partitioned()
    {
      PartitionStep(run, steps, i);
    }
  }
}
