/**
 Credential changes and restarts: the monitor compares the vault with what was recorded
 at the last written configuration, so a restart that writes the configuration ends the
 matter, and one that does not write it starts over.
 */
module CredentialLoop {
  import opened Wrappers
  import opened Nodes
  import opened Credentials
  import opened PodSpec
  import opened ControlPlane
  import opened Sections
  import opened Freshness

  lemma RecordStays(s: Sys, step: Step, s': Sys)
    requires Next(s, step, s') && !(step.Configure? && step.write)
    ensures s'.pod.previousPasswords == s.pod.previousPasswords
  {
  }

  lemma RecordStep(run: seq<Sys>, steps: seq<Step>, i: nat)
    requires IsRun(run, steps) && i < |steps|
    ensures run[i + 1].pod.previousPasswords ==
            if steps[i].Configure? && steps[i].write
            then Some(GetPasswords(run[i + 1].vault, BmcNames(run[i].pod.held)))
            else run[i].pod.previousPasswords
  {
    RunStep(run, steps, i);
    if !(steps[i].Configure? && steps[i].write) {
      RecordStays(run[i], steps[i], run[i + 1]);
    }
  }

  /** The record is what the vault held for the BMCs of that moment, and there is none before. */
  lemma {:induction false} RecordIsFromLastWrite(run: seq<Sys>, steps: seq<Step>, n: nat)
    requires IsRun(run, steps) && n < |run|
    ensures var k := LastWrite(steps, n);
            && -1 <= k < n
            && run[n].pod.previousPasswords ==
               if k == -1 then None else Some(GetPasswords(run[k + 1].vault, BmcNames(run[k].pod.held)))
  {
    if n > 0 {
      RecordIsFromLastWrite(run, steps, n - 1);
      RecordStep(run, steps, n - 1);
    }
  }

  /** The node has its line, by its pool, with what the vault has for its BMC. */
  predicate HasLine(conf: seq<ConfEntry>, h: Held, vault: Vault, k: Name) {
    && (k in h.rvr ==> Ipmi(k, h.rvr[k].bmcFqdn, CredsOf(vault, h.rvr[k].bmcName)) in conf)
    && (k in h.pds ==> SshPwd(k, h.pds[k].bmcFqdn, CredsOf(vault, h.pds[k].bmcName)) in conf)
    && (k in h.mtn ==> SshKey(k) in conf)
  }

  /**
   In every reachable state, each node of the last written pass has its line in the file,
   with what the vault held for its BMC at that pass.
   */
  lemma FileHasVaultCredentials(run: seq<Sys>, steps: seq<Step>, n: nat, k: Name)
    requires IsRun(run, steps) && n < |run| && LastWrite(steps, n) >= 0
    ensures LastWrite(steps, n) < n
    ensures var w := LastWrite(steps, n); HasLine(run[n].pod.conf, run[w].pod.held, run[w + 1].vault, k)
  {
    LastWriteIsBefore(steps, n);
    LineAtWrite(run, steps, n, LastWrite(steps, n), k);
  }

  lemma LastWriteIsBefore(steps: seq<Step>, n: nat)
    requires n <= |steps|
    ensures LastWrite(steps, n) < n
  {
  }

  lemma LineAtWrite(run: seq<Sys>, steps: seq<Step>, n: nat, w: nat, k: Name)
    requires IsRun(run, steps) && n < |run| && w == LastWrite(steps, n) && w < n
    ensures HasLine(run[n].pod.conf, run[w].pod.held, run[w + 1].vault, k)
  {
    RecordAtWrite(run, steps, n, w);
    FromLastWrite(run, steps, n, w);
    ShapeAtWrite(run, steps, w);
    LineWithVault(run[n].pod, run[w].pod.held, run[w + 1].vault, k);
  }

  lemma RecordAtWrite(run: seq<Sys>, steps: seq<Step>, n: nat, w: nat)
    requires IsRun(run, steps) && n < |run| && w == LastWrite(steps, n) && w < n
    ensures run[n].pod.previousPasswords == Some(GetPasswords(run[w + 1].vault, BmcNames(run[w].pod.held)))
  {
    RecordIsFromLastWrite(run, steps, n);
  }

  lemma ShapeAtWrite(run: seq<Sys>, steps: seq<Step>, w: nat)
    requires IsRun(run, steps) && w < |run|
    ensures run[w].pod.held.Keyed() && run[w].pod.held.Classed()
  {
    AlwaysValid(run, steps, w);
  }

  lemma FromLastWrite(run: seq<Sys>, steps: seq<Step>, n: nat, w: nat)
    requires IsRun(run, steps) && n < |run| && w == LastWrite(steps, n) && w < n
    ensures FromPass(run[n].pod, Some(run[w].pod.held))
  {
    FileIsFromLastWrite(run, steps, n);
    LastWrittenIsAtLastWrite(run, steps, n);
  }

  lemma LineWithVault(p: Pod, h: Held, vault: Vault, k: Name)
    requires FromPass(p, Some(h)) && p.previousPasswords == Some(GetPasswords(vault, BmcNames(h)))
    requires h.Keyed() && h.Classed()
    ensures HasLine(p.conf, h, vault, k)
  {
    LineOfNode(p.conf, h, p.previousPasswords.value, k);
    RecordedCreds(h, vault, k);
  }

  lemma RecordedCreds(h: Held, vault: Vault, k: Name)
    ensures k in h.rvr ==>
              CredsOf(GetPasswords(vault, BmcNames(h)), h.rvr[k].bmcName) == CredsOf(vault, h.rvr[k].bmcName)
    ensures k in h.pds ==>
              CredsOf(GetPasswords(vault, BmcNames(h)), h.pds[k].bmcName) == CredsOf(vault, h.pds[k].bmcName)
  {
    if k in h.rvr {
      BmcNamesExactly(h, h.rvr[k].bmcName);
    }
    if k in h.pds {
      BmcNamesExactly(h, h.pds[k].bmcName);
    }
  }

  /** What conman was configured with for a BMC: nothing if it was not held or not in the vault then. */
  function ConfiguredWith(bmc: Name, bmcs: set<Name>, vault: Vault): Creds {
    if bmc in bmcs && bmc in vault then vault[bmc] else Creds("", "")
  }

  /**
   Some held River or Paradise BMC is in the vault with other credentials than conman was
   configured with by the last written pass.
   */
  ghost predicate Outdated(run: seq<Sys>, steps: seq<Step>, n: nat)
    requires n < |run| == |steps| + 1
  {
    var k := LastWrite(steps, n);
    && 0 <= k < n
    && exists b :: b in BmcNames(run[n].pod.held) && b in run[n].vault &&
                   run[n].vault[b] != ConfiguredWith(b, BmcNames(run[k].pod.held), run[k + 1].vault)
  }

  /** The monitor's check is exact: it sees a change if and only if conman's credentials are outdated. */
  lemma CheckIsExact(run: seq<Sys>, steps: seq<Step>, n: nat)
    requires IsRun(run, steps) && n < |run|
    ensures CredsChanged(run[n].pod.held, run[n].vault, run[n].pod.previousPasswords) <==> Outdated(run, steps, n)
  {
    RecordIsFromLastWrite(run, steps, n);
    var k := LastWrite(steps, n);
    if k >= 0 {
      SameLookups(run[k + 1].vault, BmcNames(run[k].pod.held));
    }
  }

  lemma SameLookups(vault: Vault, bmcs: set<Name>)
    ensures forall b {:trigger ConfiguredWith(b, bmcs, vault)} {:trigger Lookup(GetPasswords(vault, bmcs), b)} ::
              Lookup(GetPasswords(vault, bmcs), b) == ConfiguredWith(b, bmcs, vault)
  {
  }

  /* ---------- the monitor's signals ---------- */

  /** Signals sent by the monitor in steps k up to n. */
  function MonitorTerms(steps: seq<Step>, k: nat, n: nat): nat
    requires k <= n <= |steps|
    decreases n
  {
    if n == k then 0 else MonitorTerms(steps, k, n - 1) + if steps[n - 1].MonitorTerm? then 1 else 0
  }

  /** Checks run by the monitor in steps k up to n. */
  function MonitorChecks(steps: seq<Step>, k: nat, n: nat): nat
    requires k <= n <= |steps|
    decreases n
  {
    if n == k then 0 else MonitorChecks(steps, k, n - 1) + if steps[n - 1].MonitorCheck? then 1 else 0
  }

  /** A check with a reason to signal: changed keys, or outdated credentials. */
  ghost predicate Alarm(run: seq<Sys>, steps: seq<Step>, i: nat)
    requires i < |steps| && |run| == |steps| + 1
  {
    steps[i].MonitorCheck? && (steps[i].keysChanged || Outdated(run, steps, i))
  }

  ghost function Alarms(run: seq<Sys>, steps: seq<Step>, k: nat, n: nat): nat
    requires k <= n <= |steps| && |run| == |steps| + 1
    decreases n
  {
    if n == k then 0 else Alarms(run, steps, k, n - 1) + if Alarm(run, steps, n - 1) then 1 else 0
  }

  /** A signal the monitor has decided on and not sent yet. */
  function Due(s: Sys): nat {
    if s.termDue then 1 else 0
  }

  lemma MonitorStep(run: seq<Sys>, steps: seq<Step>, i: nat)
    requires IsRun(run, steps) && i < |steps|
    ensures (if steps[i].MonitorTerm? then 1 else 0) + Due(run[i + 1]) ==
            (if Alarm(run, steps, i) then 1 else 0) + Due(run[i])
  {
    RunStep(run, steps, i);
    CheckIsExact(run, steps, i);
  }

  /**
   Over any stretch of any run, the monitor sends one signal for each of its checks that
   had a reason, and no other -- but for the one it may have yet to send.
   */
  lemma {:induction false} SignalsMatchAlarms(run: seq<Sys>, steps: seq<Step>, k: nat, n: nat)
    requires IsRun(run, steps) && k <= n < |run|
    ensures MonitorTerms(steps, k, n) + Due(run[n]) == Alarms(run, steps, k, n) + Due(run[k])
    decreases n
  {
    if k < n {
      SignalsMatchAlarms(run, steps, k, n - 1);
      MonitorStep(run, steps, n - 1);
    }
  }

  /* ---------- no restart loop ---------- */

  /** At i, the vault is as the pass k found it, no BMC has come in since, and no changed keys are reported. */
  predicate QuietAt(run: seq<Sys>, steps: seq<Step>, k: nat, i: nat)
    requires k < |steps| && i < |steps| && |run| == |steps| + 1
  {
    && run[i].vault == run[k + 1].vault
    && BmcNames(run[i].pod.held) <= BmcNames(run[k].pod.held)
    && steps[i] != MonitorCheck(true)
  }

  lemma NoAlarmWhenQuiet(run: seq<Sys>, steps: seq<Step>, k: nat, i: nat)
    requires IsRun(run, steps) && k < i < |steps| && LastWrite(steps, i) == k && QuietAt(run, steps, k, i)
    ensures !Alarm(run, steps, i)
  {
    RecordIsFromLastWrite(run, steps, i);
    NoChangeSinceRecorded(run[i].pod.held, run[i].vault, BmcNames(run[k].pod.held), run[k + 1].vault);
    CheckIsExact(run, steps, i);
  }

  lemma {:induction false} LastWriteIs(steps: seq<Step>, k: nat, i: nat, n: nat)
    requires k < i <= n <= |steps| && LastWrite(steps, n) == k
    ensures LastWrite(steps, i) == k
    decreases n
  {
    if i < n {
      LastWriteIs(steps, k, i, n - 1);
    }
  }

  lemma {:induction false} NoAlarms(run: seq<Sys>, steps: seq<Step>, k: nat, n: nat)
    requires IsRun(run, steps) && k < n < |run| && LastWrite(steps, n) == k
    requires forall i :: k < i < n ==> QuietAt(run, steps, k, i)
    ensures Alarms(run, steps, k + 1, n) == 0
    decreases n
  {
    if k + 1 < n {
      LastWriteIs(steps, k, n - 1, n);
      NoAlarms(run, steps, k, n - 1);
      NoAlarmWhenQuiet(run, steps, k, n - 1);
    }
  }

  /**
   No restart loop: while the vault stays as the last written pass found it, no BMC has
   come in and no keys have changed, the monitor sends no signal, however often it checks
   -- except the one it may have decided on before the pass.
   */
  lemma NoRestartLoop(run: seq<Sys>, steps: seq<Step>, k: nat, n: nat)
    requires IsRun(run, steps) && k < n < |run| && LastWrite(steps, n) == k
    requires forall i :: k < i < n ==> QuietAt(run, steps, k, i)
    ensures MonitorTerms(steps, k + 1, n) + Due(run[n]) == Due(run[k + 1])
  {
    NoAlarms(run, steps, k, n);
    SignalsMatchAlarms(run, steps, k + 1, n);
  }

  /* ---------- restarts for ever ---------- */

  /** The vault and the set of held BMCs stay what they are from a up to n. */
  predicate AtRest(run: seq<Sys>, a: nat, n: nat)
    requires a <= n < |run|
  {
    forall i :: a <= i <= n ==> RestsAt(run, a, i)
  }

  predicate RestsAt(run: seq<Sys>, a: nat, i: nat)
    requires a < |run| && i < |run|
  {
    run[i].vault == run[a].vault && BmcNames(run[i].pod.held) == BmcNames(run[a].pod.held)
  }

  /** The check would see a change. */
  ghost predicate Seen(s: Sys) {
    CredsChanged(s.pod.held, s.vault, s.pod.previousPasswords)
  }

  lemma SeenStep(run: seq<Sys>, steps: seq<Step>, i: nat)
    requires IsRun(run, steps) && i < |steps|
    requires run[i + 1].vault == run[i].vault && BmcNames(run[i + 1].pod.held) == BmcNames(run[i].pod.held)
    ensures Seen(run[i + 1]) <==> Seen(run[i]) && !(steps[i].Configure? && steps[i].write)
  {
    RecordStep(run, steps, i);
    if steps[i].Configure? && steps[i].write {
      NoChangeSinceRecorded(run[i + 1].pod.held, run[i + 1].vault, BmcNames(run[i].pod.held), run[i + 1].vault);
    }
  }

  /** At i, conman is outdated exactly if it was at a and no pass has written since. */
  ghost predicate LoopsTo(run: seq<Sys>, steps: seq<Step>, a: nat, i: nat)
    requires a < |run| == |steps| + 1 && i < |run|
  {
    Outdated(run, steps, i) <==> Outdated(run, steps, a) && LastWrite(steps, i) < a
  }

  lemma LoopStep(run: seq<Sys>, steps: seq<Step>, a: nat, i: nat)
    requires IsRun(run, steps) && a <= i < |steps| && LoopsTo(run, steps, a, i)
    requires RestsAt(run, a, i) && RestsAt(run, a, i + 1)
    ensures LoopsTo(run, steps, a, i + 1)
  {
    CheckIsExact(run, steps, i);
    CheckIsExact(run, steps, i + 1);
    SeenStep(run, steps, i);
  }

  lemma {:induction false} LastWriteInRange(steps: seq<Step>, n: nat)
    requires n <= |steps|
    ensures -1 <= LastWrite(steps, n) < n
  {
    if n > 0 {
      LastWriteInRange(steps, n - 1);
    }
  }

  /**
   With vault and BMCs at rest, a change that is seen goes on being seen, through any number
   of restarts and whatever other threads do, if and only if no pass writes the file.
   */
  lemma RestartLoopsIffNotWritten(run: seq<Sys>, steps: seq<Step>, a: nat, n: nat)
    requires IsRun(run, steps) && a <= n < |run| && AtRest(run, a, n)
    ensures Outdated(run, steps, n) <==> Outdated(run, steps, a) && LastWrite(steps, n) < a
  {
    LastWriteInRange(steps, a);
    for i := a to n
      invariant LoopsTo(run, steps, a, i)
    {
      assert RestsAt(run, a, i) && RestsAt(run, a, i + 1);
      LoopStep(run, steps, a, i);
    }
  }

  lemma {:induction false} LastWriteBefore(steps: seq<Step>, a: nat, i: nat, n: nat)
    requires a <= i <= n <= |steps| && LastWrite(steps, n) < a
    ensures LastWrite(steps, i) < a
    decreases n
  {
    if i < n {
      LastWriteBefore(steps, a, i, n - 1);
    }
  }

  lemma {:induction false} EveryCheckAlarms(run: seq<Sys>, steps: seq<Step>, a: nat, n: nat)
    requires IsRun(run, steps) && a <= n < |run| && AtRest(run, a, n)
    requires Outdated(run, steps, a) && LastWrite(steps, n) < a
    ensures Alarms(run, steps, a, n) == MonitorChecks(steps, a, n)
    decreases n
  {
    if a < n {
      LastWriteBefore(steps, a, n - 1, n);
      assert forall i :: a <= i <= n - 1 ==> RestsAt(run, a, i);
      EveryCheckAlarms(run, steps, a, n - 1);
      RestartLoopsIffNotWritten(run, steps, a, n - 1);
    }
  }

  /**
   So a base file that forbids updates turns one change into restarts for ever: as long as
   no pass writes the file, every single check of the monitor leads to a signal.
   */
  lemma UnwrittenChangeSignalsForEver(run: seq<Sys>, steps: seq<Step>, a: nat, n: nat)
    requires IsRun(run, steps) && a <= n < |run| && AtRest(run, a, n)
    requires Outdated(run, steps, a) && LastWrite(steps, n) < a
    ensures MonitorTerms(steps, a, n) + Due(run[n]) == MonitorChecks(steps, a, n) + Due(run[a])
  {
    EveryCheckAlarms(run, steps, a, n);
    SignalsMatchAlarms(run, steps, a, n);
  }
}
