/**
 The reader of the log rotation state file: it keeps, for every log file, the time last
 seen, and tells whether anything is new.
 */
module RotationReader {
  import opened Wrappers
  import opened Text
  import opened LogRotation

  /** One usable line: a log file, its time, and whether it is a console log. */
  datatype Entry<K, V> = Entry(name: K, time: V, isCon: bool)

  /* ---------- what a list of entries does to the times seen ---------- */

  /** The file is not known yet, or with another time. */
  predicate Differs<K, V(==)>(m: map<K, V>, e: Entry<K, V>) {
    e.name !in m || m[e.name] != e.time
  }

  function Overlay<K, V>(m: map<K, V>, es: seq<Entry<K, V>>): map<K, V>
    decreases |es|
  {
    if es == [] then m else Overlay(m[es[0].name := es[0].time], es[1..])
  }

  /** Some entry of the given kind differs from what is known when it is read. */
  predicate Changes<K, V(==)>(m: map<K, V>, es: seq<Entry<K, V>>, isCon: bool)
    decreases |es|
  {
    es != [] &&
    ((es[0].isCon == isCon && Differs(m, es[0])) || Changes(m[es[0].name := es[0].time], es[1..], isCon))
  }

  /** Some entry differs from what is known at the start. */
  ghost predicate SomeDiffers<K, V>(m: map<K, V>, es: seq<Entry<K, V>>) {
    exists e :: e in es && Differs(m, e)
  }

  /** Every name comes with one time only. */
  ghost predicate Consistent<K, V>(es: seq<Entry<K, V>>) {
    forall a, b :: a in es && b in es && a.name == b.name ==> a.time == b.time
  }

  /** No name is used for both kinds of file. */
  ghost predicate KindsApart<K, V>(es: seq<Entry<K, V>>) {
    forall a, b :: a in es && b in es && a.name == b.name ==> a.isCon == b.isCon
  }

  lemma SameEntry<K, V>(m: map<K, V>, e: Entry<K, V>)
    requires !Differs(m, e)
    ensures m[e.name := e.time] == m
  {
  }

  lemma InRest<T>(s: seq<T>)
    requires s != []
    ensures forall x :: x in s <==> x == s[0] || x in s[1..]
  {
  }

  /** Something is reported as changed exactly if some entry was absent or different before. */
  lemma {:induction false} ChangeSeenExactly<K, V>(m: map<K, V>, es: seq<Entry<K, V>>)
    ensures Changes(m, es, true) || Changes(m, es, false) <==> SomeDiffers(m, es)
    decreases |es|
  {
    if es != [] {
      InRest(es);
      if !Differs(m, es[0]) {
        SameEntry(m, es[0]);
        ChangeSeenExactly(m, es[1..]);
      }
    }
  }

  /**
   By kind of file: console (or aggregation) logs are reported as changed exactly if some
   entry of that kind was absent or different before.  Repeated and even contradictory
   entries do not matter for this.
   */
  lemma {:induction false} ChangeSeenByKind<K, V>(m: map<K, V>, es: seq<Entry<K, V>>, isCon: bool)
    requires KindsApart(es)
    ensures Changes(m, es, isCon) <==> exists e :: e in es && e.isCon == isCon && Differs(m, e)
    decreases |es|
  {
    if es != [] {
      InRest(es);
      if es[0].isCon != isCon || !Differs(m, es[0]) {
        ChangeSeenByKind(m[es[0].name := es[0].time], es[1..], isCon);
        OthersUntouched(m, es, isCon);
      }
    }
  }

  lemma OthersUntouched<K, V>(m: map<K, V>, es: seq<Entry<K, V>>, isCon: bool)
    requires KindsApart(es) && es != []
    requires es[0].isCon != isCon || !Differs(m, es[0])
    ensures forall e :: e in es[1..] && e.isCon == isCon ==>
              (Differs(m[es[0].name := es[0].time], e) <==> Differs(m, e))
  {
  }

  /* ---------- the times kept ---------- */

  /** Files without an entry keep their time, and no file is forgotten. */
  lemma {:induction false} OverlayKeepsOthers<K, V>(m: map<K, V>, es: seq<Entry<K, V>>, name: K)
    requires forall e :: e in es ==> e.name != name
    ensures name in Overlay(m, es) <==> name in m
    ensures name in m ==> Overlay(m, es)[name] == m[name]
    decreases |es|
  {
    if es != [] {
      InRest(es);
      OverlayKeepsOthers(m[es[0].name := es[0].time], es[1..], name);
    }
  }

  /** A file with entries gets the time of its last one. */
  lemma {:induction false} LastEntryWins<K, V>(m: map<K, V>, es: seq<Entry<K, V>>, i: nat)
    requires i < |es|
    requires forall j :: i < j < |es| ==> es[j].name != es[i].name
    ensures es[i].name in Overlay(m, es) && Overlay(m, es)[es[i].name] == es[i].time
    decreases |es|
  {
    var m' := m[es[0].name := es[0].time];
    if i == 0 {
      OverlayKeepsOthers(m', es[1..], es[0].name);
    } else {
      LastEntryWins(m', es[1..], i - 1);
    }
  }

  /** The last entry for a name that has one. */
  lemma {:induction false} LastOf<K, V>(es: seq<Entry<K, V>>, e: Entry<K, V>) returns (i: nat)
    requires e in es
    ensures i < |es| && es[i].name == e.name
    ensures forall j :: i < j < |es| ==> es[j].name != e.name
  {
    i := |es| - 1;
    while es[i].name != e.name
      invariant i < |es|
      invariant forall j :: i < j < |es| ==> es[j].name != e.name
      decreases i
    {
      assert exists k :: 0 <= k < |es| && es[k] == e;
      i := i - 1;
    }
  }

  /** After reading, nothing differs any more, if and only if the file does not contradict itself. */
  lemma AgreesAfterwards<K, V>(m: map<K, V>, es: seq<Entry<K, V>>)
    ensures !SomeDiffers(Overlay(m, es), es) <==> Consistent(es)
  {
    var m' := Overlay(m, es);
    forall e | e in es
      ensures e.name in m' && (Consistent(es) ==> m'[e.name] == e.time)
    {
      var i := LastOf(es, e);
      LastEntryWins(m, es, i);
    }
    if !SomeDiffers(m', es) {
      forall a, b | a in es && b in es && a.name == b.name
        ensures a.time == b.time
      {
        assert !Differs(m', a) && !Differs(m', b);
      }
    }
  }

  /** Reading the same entries again reports no change if and only if they do not contradict each other. */
  lemma RereadIsQuiet<K, V>(m: map<K, V>, es: seq<Entry<K, V>>)
    ensures (!Changes(Overlay(m, es), es, true) && !Changes(Overlay(m, es), es, false)) <==> Consistent(es)
  {
    ChangeSeenExactly(Overlay(m, es), es);
    AgreesAfterwards(m, es);
  }

  /** The times kept are the same after reading the same entries again, contradictory or not. */
  lemma OverlayIsIdempotent<K, V>(m: map<K, V>, es: seq<Entry<K, V>>)
    ensures Overlay(Overlay(m, es), es) == Overlay(m, es)
  {
    var once, twice := Overlay(m, es), Overlay(Overlay(m, es), es);
    forall name | name in twice.Keys + once.Keys
      ensures name in twice && name in once && twice[name] == once[name]
    {
      SameTwice(m, es, name);
    }
    assert twice.Keys == once.Keys;
  }

  lemma SameTwice<K, V>(m: map<K, V>, es: seq<Entry<K, V>>, name: K)
    ensures var once, twice := Overlay(m, es), Overlay(Overlay(m, es), es);
            (name in twice <==> name in once) && (name in once ==> twice[name] == once[name])
  {
    if e :| e in es && e.name == name {
      var i := LastOf(es, e);
      LastEntryWins(m, es, i);
      LastEntryWins(Overlay(m, es), es, i);
    } else {
      OverlayKeepsOthers(Overlay(m, es), es, name);
    }
  }

  /** A contradictory file goes on being reported, and the smallest one has two lines. */
  lemma ContradictionKeepsReporting<K, V>(m: map<K, V>, name: K, t: V, u: V)
    requires t != u
    ensures var es := [Entry(name, t, true), Entry(name, u, true)];
            Changes(Overlay(m, es), es, true)
  {
  }

  /* ---------- lines to entries ---------- */

  /** The usable lines, up to the first one that makes the parser panic. */
  function Entries(lines: seq<string>, aggFile: string, clock: Clock): seq<Entry<string, Time>> {
    if lines == [] then []
    else
      match ParseTimestamp(lines[0], aggFile, clock)
      case Panics => []
      case Nothing(_) => Entries(lines[1..], aggFile, clock)
      case Found(name, time, isCon) => [Entry(name, time, isCon)] + Entries(lines[1..], aggFile, clock)
  }

  predicate Crashes(lines: seq<string>, aggFile: string, clock: Clock) {
    lines != [] && (ParseTimestamp(lines[0], aggFile, clock).Panics? || Crashes(lines[1..], aggFile, clock))
  }

  lemma {:induction false} CrashesIffSomeLinePanics(lines: seq<string>, aggFile: string, clock: Clock)
    ensures Crashes(lines, aggFile, clock) <==>
            exists l :: l in lines && ParseTimestamp(l, aggFile, clock).Panics?
    decreases |lines|
  {
    if lines != [] {
      InRest(lines);
      CrashesIffSomeLinePanics(lines[1..], aggFile, clock);
    }
  }

  /** Up to a crash, the entries are those of the lines that are read as one, and no others. */
  lemma {:induction false} EntriesExact(lines: seq<string>, aggFile: string, clock: Clock, e: Entry<string, Time>)
    requires !Crashes(lines, aggFile, clock)
    ensures e in Entries(lines, aggFile, clock) <==>
            exists l :: l in lines && ParseTimestamp(l, aggFile, clock) == Found(e.name, e.time, e.isCon)
    decreases |lines|
  {
    if lines != [] {
      InRest(lines);
      EntriesExact(lines[1..], aggFile, clock, e);
    }
  }

  /** A read of a state file crashes exactly if some line ends right after the aggregation file's name. */
  lemma ReadCrashesExactly(content: string, aggFile: string, clock: Clock)
    requires '\n' !in aggFile
    ensures Crashes(Lines(content), aggFile, clock) <==> exists l :: l in Lines(content) && EndsAtAggFile(l, aggFile)
  {
    CrashesIffSomeLinePanics(Lines(content), aggFile, clock);
    LinesAreTerminated(content);
    forall l | l in Lines(content)
      ensures ParseTimestamp(l, aggFile, clock).Panics? <==> EndsAtAggFile(l, aggFile)
    {
      PanicsExactly(l, aggFile, clock);
    }
  }

  /** So a file with the aggregation file's bare name on a line crashes the reader, for any pod name without a slash. */
  lemma BareNameCrashes(podName: string, clock: Clock)
    requires SlashFree(podName) && '\n' !in podName
    ensures Crashes(Lines(AggFile(podName) + "\n"), AggFile(podName), clock)
  {
    var line := AggFile(podName) + "\n";
    BareNameEnds(podName);
    assert line[..|line| - 1] == AggFile(podName);
    LinesCons(line, "");
    assert line + "" == line;
    ReadCrashesExactly(line, AggFile(podName), clock);
    assert line in Lines(line);
  }

  lemma BareNameEnds(podName: string)
    requires SlashFree(podName)
    ensures EndsAtAggFile(AggFile(podName) + "\n", AggFile(podName))
  {
    var tail := podName + ".log" + "\n";
    NoPrefixAcross(AGG_FILE_BASE, tail);
    assert AGG_FILE_BASE + tail == AggFile(podName) + "\n";
    assert At(AggFile(podName) + "\n", AggFile(podName), 0);
  }

  /** A state file: a first line that names no log, then one line per rotated log. */
  function StateFile(header: string, rs: seq<Rotated>, podName: string): string
    requires forall r :: r in rs ==> Writable(r)
  {
    header + StateLines(rs, podName)
  }

  function StateLines(rs: seq<Rotated>, podName: string): string
    requires forall r :: r in rs ==> Writable(r)
  {
    if rs == [] then "" else LineOf(rs[0], podName) + StateLines(rs[1..], podName)
  }

  function EntryOf(r: Rotated, clock: Clock): Entry<string, Time> {
    match r
    case ConsoleLog(xname, stamp) => Entry(xname, clock(stamp), true)
    case AggregationLog(stamp) => Entry(AGG_NODE_NAME, clock(stamp), false)
  }

  function EntriesOf(rs: seq<Rotated>, clock: Clock): (es: seq<Entry<string, Time>>)
    ensures |es| == |rs|
    ensures forall i :: 0 <= i < |rs| ==> es[i] == EntryOf(rs[i], clock)
  {
    if rs == [] then [] else [EntryOf(rs[0], clock)] + EntriesOf(rs[1..], clock)
  }

  lemma {:induction false} StateLinesRoundTrip(rs: seq<Rotated>, podName: string, clock: Clock)
    requires forall r :: r in rs ==> Writable(r)
    requires SlashFree(podName) && '\n' !in podName
    ensures Entries(Lines(StateLines(rs, podName)), AggFile(podName), clock) == EntriesOf(rs, clock)
    ensures !Crashes(Lines(StateLines(rs, podName)), AggFile(podName), clock)
    decreases |rs|
  {
    if rs == [] {
      NoLines();
    } else {
      var line, rest := LineOf(rs[0], podName), StateLines(rs[1..], podName);
      PathHasNoNewline(rs[0], podName);
      LineIsTerminated(PathOf(rs[0], podName), rs[0].stamp);
      LinesCons(line, rest);
      LineRoundTrip(rs[0], podName, clock);
      StateLinesRoundTrip(rs[1..], podName, clock);
      FirstEntry(line, Lines(rest), AggFile(podName), clock);
    }
  }

  lemma NoLines()
    ensures Lines("") == []
  {
  }

  lemma FirstEntry(line: string, rest: seq<string>, aggFile: string, clock: Clock)
    requires !ParseTimestamp(line, aggFile, clock).Panics?
    ensures Crashes([line] + rest, aggFile, clock) == Crashes(rest, aggFile, clock)
    ensures var p := ParseTimestamp(line, aggFile, clock);
            Entries([line] + rest, aggFile, clock) ==
            (if p.Found? then [Entry(p.nodeName, p.time, p.isCon)] else []) + Entries(rest, aggFile, clock)
  {
  }

  /** Round trip of a whole state file: the reader sees exactly the rotated logs, in their order. */
  lemma StateFileRoundTrip(header: string, rs: seq<Rotated>, podName: string, clock: Clock)
    requires forall r :: r in rs ==> Writable(r)
    requires SlashFree(podName) && '\n' !in podName
    requires Terminated(header) && Index(header, FILE_PREFIX) == -1 && Index(header, AggFile(podName)) == -1
    ensures Entries(Lines(StateFile(header, rs, podName)), AggFile(podName), clock) == EntriesOf(rs, clock)
    ensures !Crashes(Lines(StateFile(header, rs, podName)), AggFile(podName), clock)
  {
    LinesCons(header, StateLines(rs, podName));
    StateLinesRoundTrip(rs, podName, clock);
    FirstEntry(header, Lines(StateLines(rs, podName)), AggFile(podName), clock);
  }

  /** How a read ends: in a crash, or with whether console and aggregation logs have changed. */
  datatype Outcome = Crashed | Done(conChanged: bool, aggChanged: bool)

  class RotationReader {
    var fileStamp: map<string, Time>
    const conAggLogFile: string
    const clock: Clock

    constructor (aggFile: string, clock: Clock)
      ensures fileStamp == map[] && this.conAggLogFile == aggFile && this.clock == clock
    {
      fileStamp := map[];
      conAggLogFile := aggFile;
      this.clock := clock;
    }

    /** Compare one entry with the time seen before, and keep its time. */
    method Note(name: string, time: Time) returns (changed: bool)
      modifies `fileStamp
      ensures fileStamp == old(fileStamp)[name := time]
      ensures changed <==> name !in old(fileStamp) || old(fileStamp)[name] != time
    {
      if name in fileStamp {
        if fileStamp[name] != time {
          fileStamp := fileStamp[name := time];
          return true;
        }
        return false;
      }
      fileStamp := fileStamp[name := time];
      return true;
    }

    /** Read the state file; content is None if it cannot be opened. */
    method ReadLogRotTimestamps(content: Option<string>) returns (outcome: Outcome)
      modifies `fileStamp
      ensures content.None? ==> fileStamp == old(fileStamp) && outcome == Done(false, false)
      ensures content.Some? ==>
                var lines := Lines(content.value);
                var es := Entries(lines, conAggLogFile, clock);
                && fileStamp == Overlay(old(fileStamp), es)
                && outcome == if Crashes(lines, conAggLogFile, clock) then Crashed
                              else Done(Changes(old(fileStamp), es, true), Changes(old(fileStamp), es, false))
    {
      if content.None? {
        return Done(false, false);
      }
      var conChanged, aggChanged := false, false;
      var rest := content.value;
      ghost var lines := Lines(rest);
      ghost var es := Entries(lines, conAggLogFile, clock);
      while Index(rest, "\n") != -1
        invariant Crashes(lines, conAggLogFile, clock) == Crashes(Lines(rest), conAggLogFile, clock)
        invariant Overlay(old(fileStamp), es) == Overlay(fileStamp, Entries(Lines(rest), conAggLogFile, clock))
        invariant Changes(old(fileStamp), es, true) ==
                  (conChanged || Changes(fileStamp, Entries(Lines(rest), conAggLogFile, clock), true))
        invariant Changes(old(fileStamp), es, false) ==
                  (aggChanged || Changes(fileStamp, Entries(Lines(rest), conAggLogFile, clock), false))
        decreases |rest|
      {
        var end := Index(rest, "\n") + 1;
        var line := rest[..end];
        rest := rest[end..];
        match ParseTimestamp(line, conAggLogFile, clock) {
          case Panics =>
            return Crashed;
          case Nothing(_) =>
          case Found(name, time, isCon) =>
            var changed := Note(name, time);
            if changed {
              if isCon {
                conChanged := true;
              } else {
                aggChanged := true;
              }
            }
        }
      }
      return Done(conChanged, aggChanged);
    }
  }
}
