/**
 Noticing rotated logs, from logRotation.go: each line of logrotate's state file gives
 a log file and the time it was last rotated, and these are compared with the times
 seen before.
 */
module LogRotation {
  import opened Wrappers
  import opened Text

  /** A moment in local time. */
  type Time(==, !new)

  /** Year, month, day, hour, minute and second taken to a moment; out-of-range fields carry over. */
  type Clock = seq<int> -> Time

  const FILE_PREFIX := "/var/log/conman/console."
  const AGG_FILE_BASE := "/tmp/consoleAgg/consoleAgg-"
  const AGG_NODE_NAME := "consoleAgg.log"
  const STAMP_SEPS := "---::"

  /* ---------- one line ---------- */

  /** What becomes of one line: a slice out of range, nothing to note, or a log file and its time. */
  datatype Parsed = Panics | Nothing(nodeName: string) | Found(nodeName: string, time: Time, isCon: bool)

  function ParseTimestamp(line: string, aggFile: string, clock: Clock): Parsed {
    var pos := Index(line, FILE_PREFIX);
    if pos != -1 then ParseConsole(line[pos + |FILE_PREFIX|..], clock)
    else ParseAggregate(line, aggFile, clock)
  }

  /** The part of the line after the prefix: node name, quote, one more character, time stamp. */
  function ParseConsole(s: string, clock: Clock): Parsed {
    var q := Index(s, "\"");
    if q == -1 then Nothing("")
    else if q + 2 > |s| then Panics
    else ParseStamp(s[..q], s[q + 2..], true, clock)
  }

  function ParseAggregate(line: string, aggFile: string, clock: Clock): Parsed {
    var pos := Index(line, aggFile);
    if pos == -1 then Nothing("")
    else if pos + |aggFile| + 2 > |line| then Panics
    else ParseStamp(AGG_NODE_NAME, line[pos + |aggFile| + 2..], false, clock)
  }

  function ScanStamp(text: string): Option<seq<int>> {
    ScanInts(text, STAMP_SEPS)
  }

  function ParseStamp(nodeName: string, text: string, isCon: bool, clock: Clock): Parsed {
    match ScanStamp(text)
    case None => Nothing(nodeName)
    case Some(stamp) => Found(nodeName, clock(stamp), isCon)
  }

  /* ---------- slices stay in range ---------- */

  /** No newline-terminated line that names a console log makes the parser slice out of range. */
  lemma ConsoleLineNeverPanics(line: string, aggFile: string, clock: Clock)
    requires Terminated(line) && Index(line, FILE_PREFIX) != -1
    ensures !ParseTimestamp(line, aggFile, clock).Panics?
  {
  }

  /** The line ends right after the first mention of the aggregation file, and names no console. */
  predicate EndsAtAggFile(line: string, aggFile: string) {
    && Index(line, FILE_PREFIX) == -1 && Index(line, aggFile) != -1
    && Index(line, aggFile) + |aggFile| == |line| - 1
  }

  /** The other kind of line does, exactly when the first mention of the aggregation file is the last thing on it. */
  lemma PanicsExactly(line: string, aggFile: string, clock: Clock)
    requires Terminated(line) && '\n' !in aggFile
    ensures ParseTimestamp(line, aggFile, clock).Panics? <==> EndsAtAggFile(line, aggFile)
  {
  }

  /* ---------- what a line is read as ---------- */

  lemma AggregateLineParts(before: string, c: string, text: string, aggFile: string, clock: Clock)
    requires |c| == 2
    requires Index(before + aggFile + c + text, FILE_PREFIX) == -1
    requires Index(before + aggFile + c + text, aggFile) == |before|
    ensures ParseTimestamp(before + aggFile + c + text, aggFile, clock) == ParseStamp(AGG_NODE_NAME, text, false, clock)
  {
  }

  lemma SplitAround(s: string, q: nat)
    requires q + 2 <= |s|
    ensures s == s[..q] + [s[q]] + ([s[q + 1]] + s[q + 2..])
  {
  }

  lemma SplitAtSub(s: string, sub: string, i: int)
    requires At(s, sub, i)
    ensures s == s[..i] + sub + s[i + |sub|..]
  {
  }

  lemma ParseConsoleParts(s: string, clock: Clock) returns (c: char, text: string)
    requires ParseConsole(s, clock).Found?
    ensures var p := ParseConsole(s, clock);
            && p.isCon && '\"' !in p.nodeName && s == p.nodeName + "\"" + ([c] + text)
            && p == ParseStamp(p.nodeName, text, true, clock)
  {
    var q := Index(s, "\"");
    NoQuoteBefore(s, q);
    SplitAround(s, q);
    c, text := s[q + 1], s[q + 2..];
    SameStamp(s[..q], text, clock);
  }

  lemma SameStamp(nodeName: string, text: string, clock: Clock)
    ensures var p := ParseStamp(nodeName, text, true, clock);
            p.Found? ==> p.nodeName == nodeName && p.isCon
    ensures var p := ParseStamp(nodeName, text, true, clock);
            p.Found? ==> ScanStamp(text).Some? && p.time == clock(ScanStamp(text).value)
  {
  }

  /** The line up to the first prefix, the prefix, and the rest; the rest is name, quote, a character, text. */
  predicate ConsoleParts(line: string, before: string, xname: string, c: char, text: string) {
    && Index(line, FILE_PREFIX) == |before|
    && line == before + FILE_PREFIX + (xname + "\"" + ([c] + text))
  }

  /** The line names the console in quotes after the first prefix, and vs can be scanned after that. */
  ghost predicate ScannedEntry(line: string, xname: string, vs: seq<int>) {
    && '\"' !in xname
    && exists before, c, text :: ConsoleParts(line, before, xname, c, text) && ScanStamp(text) == Some(vs)
  }

  /** Taken apart at the first prefix and the quote after it, a line is read as name and stamp. */
  lemma ConsoleLineParts(line: string, before: string, xname: string, c: char, text: string,
                         aggFile: string, clock: Clock)
    requires '\"' !in xname && ConsoleParts(line, before, xname, c, text)
    ensures ParseTimestamp(line, aggFile, clock) == ParseStamp(xname, text, true, clock)
  {
    var s := xname + "\"" + ([c] + text);
    assert line[|before| + |FILE_PREFIX|..] == s;
    AfterQuote(xname, c, text, clock);
  }

  lemma AfterQuote(xname: string, c: char, text: string, clock: Clock)
    requires '\"' !in xname
    ensures ParseConsole(xname + "\"" + ([c] + text), clock) == ParseStamp(xname, text, true, clock)
  {
    var s := xname + "\"" + ([c] + text);
    IndexOfChar(xname, '\"', [c] + text);
    assert s[..|xname|] == xname && s[|xname| + 2..] == text;
  }

  lemma FoundConsole(line: string, aggFile: string, clock: Clock) returns (vs: seq<int>)
    requires var p := ParseTimestamp(line, aggFile, clock); p.Found? && p.isCon
    ensures var p := ParseTimestamp(line, aggFile, clock);
            ScannedEntry(line, p.nodeName, vs) && p.time == clock(vs)
  {
    var at := Index(line, FILE_PREFIX);
    FoundAfterPrefix(line, aggFile, clock);
    var s := line[at + |FILE_PREFIX|..];
    var c, text := ParseConsoleParts(s, clock);
    var xname := ParseConsole(s, clock).nodeName;
    SameStamp(xname, text, clock);
    vs := ScanStamp(text).value;
    EntryFromRest(line, xname, c, text, vs);
  }

  lemma EntryFromRest(line: string, xname: string, c: char, text: string, vs: seq<int>)
    requires Index(line, FILE_PREFIX) != -1 && '\"' !in xname && ScanStamp(text) == Some(vs)
    requires line[Index(line, FILE_PREFIX) + |FILE_PREFIX|..] == xname + "\"" + ([c] + text)
    ensures ScannedEntry(line, xname, vs)
  {
    var at := Index(line, FILE_PREFIX);
    SplitAtSub(line, FILE_PREFIX, at);
    assert ConsoleParts(line, line[..at], xname, c, text);
  }

  lemma FoundAfterPrefix(line: string, aggFile: string, clock: Clock)
    requires var p := ParseTimestamp(line, aggFile, clock); p.Found? && p.isCon
    ensures var at := Index(line, FILE_PREFIX);
            at != -1 && ParseTimestamp(line, aggFile, clock) == ParseConsole(line[at + |FILE_PREFIX|..], clock)
  {
  }

  lemma ScannedEntryFound(line: string, xname: string, vs: seq<int>, aggFile: string, clock: Clock)
    requires ScannedEntry(line, xname, vs)
    ensures ParseTimestamp(line, aggFile, clock) == Found(xname, clock(vs), true)
  {
    var before, c, text :| ConsoleParts(line, before, xname, c, text) && ScanStamp(text) == Some(vs);
    ConsoleLineParts(line, before, xname, c, text, aggFile, clock);
  }

  /** The text starts with six numbers separated as in a time stamp, and they are vs. */
  ghost predicate StampText(text: string, vs: seq<int>) {
    Spells(text, STAMP_SEPS, vs)
  }

  lemma StampExact(text: string, vs: seq<int>)
    ensures ScanStamp(text) == Some(vs) <==> StampText(text, vs)
  {
    SeparatedExact(text, STAMP_SEPS, vs);
  }

  lemma SeparatedExact(text: string, seps: string, vs: seq<int>)
    requires seps == STAMP_SEPS
    ensures ScanInts(text, seps) == Some(vs) <==> Spells(text, seps, vs)
  {
    ScanIntsExact(text, seps, vs);
  }

  /**
   The line names the console between the first prefix and the next quote, and past one
   more character spells out vs.
   */
  ghost predicate ConsoleEntry(line: string, xname: string, vs: seq<int>) {
    && '\"' !in xname
    && exists before, c, text :: ConsoleParts(line, before, xname, c, text) && StampText(text, vs)
  }

  lemma ScannedIsSpelled(line: string, xname: string, vs: seq<int>)
    ensures ScannedEntry(line, xname, vs) <==> ConsoleEntry(line, xname, vs)
  {
    forall before, c, text | ConsoleParts(line, before, xname, c, text)
      ensures ScanStamp(text) == Some(vs) <==> StampText(text, vs)
    {
      StampExact(text, vs);
    }
  }

  /**
   A line is taken to report a console's time exactly if it names that console in quotes
   and spells out that time.
   */
  lemma ConsoleLineExact(line: string, xname: string, time: Time, aggFile: string, clock: Clock)
    ensures ParseTimestamp(line, aggFile, clock) == Found(xname, time, true) <==>
            exists vs :: ConsoleEntry(line, xname, vs) && time == clock(vs)
  {
    if ParseTimestamp(line, aggFile, clock) == Found(xname, time, true) {
      var vs := FoundConsole(line, aggFile, clock);
      ScannedIsSpelled(line, xname, vs);
    }
    if vs :| ConsoleEntry(line, xname, vs) && time == clock(vs) {
      ScannedIsSpelled(line, xname, vs);
      ScannedEntryFound(line, xname, vs, aggFile, clock);
    }
  }

  lemma NoQuoteBefore(s: string, q: int)
    requires q == Index(s, "\"") && q != -1
    ensures q < |s| && s[q] == '\"' && '\"' !in s[..q]
  {
    AtChar(s, '\"', q);
    if '\"' in s[..q] {
      var j :| 0 <= j < q && s[j] == '\"';
      AtChar(s, '\"', j);
      assert false;
    }
  }

  /* ---------- round trips ---------- */

  predicate IsStamp(stamp: seq<nat>) {
    |stamp| == 6 && forall i :: 0 <= i < |stamp| ==> stamp[i] <= MAX_INT64
  }

  /** The line logrotate writes for a file. */
  function StateLine(path: string, stamp: seq<nat>): string
    requires IsStamp(stamp)
  {
    "\"" + path + "\" " + (DecAll(stamp, STAMP_SEPS) + "\n")
  }

  lemma StampRoundTrip(nodeName: string, stamp: seq<nat>, isCon: bool, clock: Clock)
    requires IsStamp(stamp)
    ensures ParseStamp(nodeName, DecAll(stamp, STAMP_SEPS) + "\n", isCon, clock) == Found(nodeName, clock(stamp), isCon)
  {
    DecAllRoundTrip(stamp, STAMP_SEPS, "\n");
  }

  /** A substring that starts with another character than the text does not occur at its start. */
  lemma IndexAfterFirst(c: char, sub: string, rest: string)
    requires sub != "" && sub[0] != c
    ensures Index([c] + sub + rest, sub) == 1
  {
    var s := [c] + sub + rest;
    assert s[1..1 + |sub|] == sub;
    assert At(s, sub, 1);
    assert s[0] == c;
    assert s[0..|sub|][0] == c;
  }

  /** A console's line is read as that console and that time. */
  lemma ConsoleRoundTrip(xname: string, stamp: seq<nat>, aggFile: string, clock: Clock)
    requires '\"' !in xname && IsStamp(stamp)
    ensures ParseTimestamp(StateLine(FILE_PREFIX + xname, stamp), aggFile, clock) == Found(xname, clock(stamp), true)
  {
    var text := DecAll(stamp, STAMP_SEPS) + "\n";
    var line := "\"" + FILE_PREFIX + (xname + "\"" + ([' '] + text));
    assert StateLine(FILE_PREFIX + xname, stamp) == line;
    IndexAfterFirst('\"', FILE_PREFIX, xname + "\"" + ([' '] + text));
    ConsoleLineParts(line, "\"", xname, ' ', text, aggFile, clock);
    StampRoundTrip(xname, stamp, true, clock);
  }

  /* ---------- the aggregation file ---------- */

  function AggFile(podName: string): string {
    AGG_FILE_BASE + podName + ".log"
  }

  /** The second character of a prefix occurrence would have to follow a slash. */
  lemma PrefixNeeds(s: string, i: int)
    requires At(s, FILE_PREFIX, i)
    ensures 0 <= i && i + 1 < |s| && s[i] == '/' && s[i + 1] == 'v'
  {
    var found := s[i..i + |FILE_PREFIX|];
    assert found[0] == s[i] && found[1] == s[i + 1];
  }

  predicate SlashFree(s: string) {
    '/' !in s
  }

  predicate NoSlashV(s: string) {
    && (forall i :: 0 <= i < |s| - 1 && s[i] == '/' ==> s[i + 1] != 'v')
    && (s != "" ==> s[|s| - 1] != '/')
  }

  lemma NoPrefixAcross(head: string, tail: string)
    requires NoSlashV(head) && SlashFree(tail)
    ensures Index(head + tail, FILE_PREFIX) == -1
  {
    var s := head + tail;
    var i := Index(s, FILE_PREFIX);
    assert forall j :: |head| <= j < |s| ==> s[j] == tail[j - |head|];
    if i != -1 {
      PrefixNeeds(s, i);
      assert false;
    }
  }

  lemma NoPrefixIn(podName: string, rest: string)
    requires SlashFree(podName) && SlashFree(rest)
    ensures Index("\"" + AGG_FILE_BASE + (podName + ".log" + rest), FILE_PREFIX) == -1
  {
    NoPrefixAcross("\"" + AGG_FILE_BASE, podName + ".log" + rest);
  }

  /** Written numbers contain digits and separators only. */
  lemma {:induction false} NumbersLack(vs: seq<nat>, seps: string, c: char)
    requires |vs| == |seps| + 1 && c !in seps && !IsDigit(c)
    ensures c !in DecAll(vs, seps)
    decreases |seps|
  {
    if seps != "" {
      NumbersLack(vs[1..], seps[1..], c);
    }
  }

  lemma AggLineShape(podName: string, text: string)
    ensures "\"" + AGG_FILE_BASE + (podName + ".log" + ("\" " + text)) == "\"" + AggFile(podName) + "\" " + text
    ensures "\"" + AggFile(podName) + ("\" " + text) == "\"" + AggFile(podName) + "\" " + text
  {
  }

  /** The aggregation file's line is read as such, for any pod name without a slash. */
  lemma AggregateRoundTrip(podName: string, stamp: seq<nat>, clock: Clock)
    requires SlashFree(podName) && IsStamp(stamp)
    ensures ParseTimestamp(StateLine(AggFile(podName), stamp), AggFile(podName), clock) ==
            Found(AGG_NODE_NAME, clock(stamp), false)
  {
    var text := DecAll(stamp, STAMP_SEPS) + "\n";
    NumbersLack(stamp, STAMP_SEPS, '/');
    NoPrefixIn(podName, "\" " + text);
    AggLineShape(podName, text);
    IndexAfterFirst('\"', AggFile(podName), "\" " + text);
    AggregateLineParts("\"", "\" ", text, AggFile(podName), clock);
    StampRoundTrip(AGG_NODE_NAME, stamp, false, clock);
  }

  /** The line names no console but the aggregation file, and past two more characters spells out vs. */
  predicate AggregateParts(line: string, aggFile: string, before: string, c: string, text: string) {
    && |c| == 2 && line == before + aggFile + c + text
    && Index(line, FILE_PREFIX) == -1 && Index(line, aggFile) == |before|
  }

  ghost predicate AggregateEntry(line: string, aggFile: string, vs: seq<int>) {
    exists before, c, text :: AggregateParts(line, aggFile, before, c, text) && StampText(text, vs)
  }

  lemma AggregatePartsOf(line: string, aggFile: string)
    requires Index(line, FILE_PREFIX) == -1 && Index(line, aggFile) != -1
    requires Index(line, aggFile) + |aggFile| + 2 <= |line|
    ensures var i := Index(line, aggFile);
            var k := i + |aggFile|;
            AggregateParts(line, aggFile, line[..i], line[k..k + 2], line[k + 2..])
  {
    var i := Index(line, aggFile);
    SplitAtSub(line, aggFile, i);
    SplitTwo(line[..i] + aggFile, line[i + |aggFile|..]);
  }

  lemma SplitTwo(head: string, s: string)
    requires |s| >= 2
    ensures head + s == head + s[..2] + s[2..]
  {
  }

  lemma FoundAggregate(line: string, aggFile: string, clock: Clock) returns (vs: seq<int>)
    requires var p := ParseTimestamp(line, aggFile, clock); p.Found? && !p.isCon
    ensures ParseTimestamp(line, aggFile, clock) == Found(AGG_NODE_NAME, clock(vs), false)
    ensures AggregateEntry(line, aggFile, vs)
  {
    NoPrefixIfAggregate(line, aggFile, clock);
    var text := line[Index(line, aggFile) + |aggFile| + 2..];
    StampOf(text, clock);
    vs := ScanStamp(text).value;
    StampExact(text, vs);
    AggregateEntryOf(line, aggFile, text, vs);
  }

  lemma AggregateEntryOf(line: string, aggFile: string, text: string, vs: seq<int>)
    requires Index(line, FILE_PREFIX) == -1 && Index(line, aggFile) != -1
    requires Index(line, aggFile) + |aggFile| + 2 <= |line|
    requires text == line[Index(line, aggFile) + |aggFile| + 2..] && StampText(text, vs)
    ensures AggregateEntry(line, aggFile, vs)
  {
    AggregatePartsOf(line, aggFile);
  }

  lemma StampOf(text: string, clock: Clock)
    ensures var p := ParseStamp(AGG_NODE_NAME, text, false, clock);
            p.Found? ==> ScanStamp(text).Some? && p == Found(AGG_NODE_NAME, clock(ScanStamp(text).value), false)
  {
  }

  lemma NoPrefixIfAggregate(line: string, aggFile: string, clock: Clock)
    requires var p := ParseTimestamp(line, aggFile, clock); p.Found? && !p.isCon
    ensures Index(line, FILE_PREFIX) == -1 && Index(line, aggFile) != -1
    ensures Index(line, aggFile) + |aggFile| + 2 <= |line|
    ensures var text := line[Index(line, aggFile) + |aggFile| + 2..];
            ParseTimestamp(line, aggFile, clock) == ParseStamp(AGG_NODE_NAME, text, false, clock)
  {
  }

  /** A line is taken to report the aggregation file's time exactly if it is such a line. */
  lemma AggregateLineExact(line: string, time: Time, aggFile: string, clock: Clock)
    ensures ParseTimestamp(line, aggFile, clock) == Found("consoleAgg.log", time, false) <==>
            exists vs :: AggregateEntry(line, aggFile, vs) && time == clock(vs)
  {
    if ParseTimestamp(line, aggFile, clock) == Found("consoleAgg.log", time, false) {
      var vs := FoundAggregate(line, aggFile, clock);
    }
    if vs :| AggregateEntry(line, aggFile, vs) && time == clock(vs) {
      AggregateEntryFound(line, aggFile, vs, clock);
    }
  }

  lemma AggregateEntryFound(line: string, aggFile: string, vs: seq<int>, clock: Clock)
    requires AggregateEntry(line, aggFile, vs)
    ensures ParseTimestamp(line, aggFile, clock) == Found(AGG_NODE_NAME, clock(vs), false)
  {
    var before, c, text :| AggregateParts(line, aggFile, before, c, text) && StampText(text, vs);
    AggregateLineParts(before, c, text, aggFile, clock);
    StampExact(text, vs);
  }

  /* ---------- lines written out ---------- */

  /** Date and time as logrotate writes them. */
  function WrittenStamp(y: nat, mo: nat, d: nat, h: nat, mi: nat, s: nat): string {
    Dec(y) + "-" + Dec(mo) + "-" + Dec(d) + "-" + Dec(h) + ":" + Dec(mi) + ":" + Dec(s)
  }

  lemma DecAllCons(v: nat, vs: seq<nat>, sep: char, seps: string)
    requires |vs| == |seps| + 1
    ensures DecAll([v] + vs, [sep] + seps) == Dec(v) + [sep] + DecAll(vs, seps)
  {
    assert ([v] + vs)[1..] == vs && ([sep] + seps)[1..] == seps;
  }

  lemma StampWrittenOut(y: nat, mo: nat, d: nat, h: nat, mi: nat, s: nat)
    ensures DecAll([y, mo, d, h, mi, s], STAMP_SEPS) == WrittenStamp(y, mo, d, h, mi, s)
  {
    DecAllCons(mi, [s], ':', "");
    DecAllCons(h, [mi, s], ':', ":");
    DecAllCons(d, [h, mi, s], '-', "::");
    DecAllCons(mo, [d, h, mi, s], '-', "-::");
    DecAllCons(y, [mo, d, h, mi, s], '-', "--::");
    assert [y] + [mo, d, h, mi, s] == [y, mo, d, h, mi, s] && ['-'] + "--::" == STAMP_SEPS;
    Flat(Dec(y), "-", Dec(mo), "-", Dec(d), "-", Dec(h), ":", Dec(mi), ":", Dec(s));
  }

  lemma Flat(a: string, b: string, c: string, d: string, e: string, f: string,
             g: string, h: string, i: string, j: string, k: string)
    ensures a + b + (c + d + (e + f + (g + h + (i + j + k)))) == a + b + c + d + e + f + g + h + i + j + k
  {
  }

  lemma SmallStamp(y: nat, mo: nat, d: nat, h: nat, mi: nat, s: nat)
    requires y <= 9999 && mo <= 9999 && d <= 9999 && h <= 9999 && mi <= 9999 && s <= 9999
    ensures IsStamp([y, mo, d, h, mi, s])
  {
  }

  /** A console's line as it stands in the state file is read as that console and that time. */
  lemma ConsoleLineRead(x: string, y: nat, mo: nat, d: nat, h: nat, mi: nat, s: nat, aggFile: string, clock: Clock)
    requires '\"' !in x && y <= 9999 && mo <= 9999 && d <= 9999 && h <= 9999 && mi <= 9999 && s <= 9999
    ensures ParseTimestamp("\"/var/log/conman/console." + x + "\" " + WrittenStamp(y, mo, d, h, mi, s) + "\n",
                           aggFile, clock) == Found(x, clock([y, mo, d, h, mi, s]), true)
  {
    SmallStamp(y, mo, d, h, mi, s);
    ConsoleRoundTrip(x, [y, mo, d, h, mi, s], aggFile, clock);
    StampWrittenOut(y, mo, d, h, mi, s);
    ConsoleLineWrittenOut(x, WrittenStamp(y, mo, d, h, mi, s));
  }

  lemma ConsoleLineWrittenOut(x: string, stamp: string)
    ensures "\"" + (FILE_PREFIX + x) + "\" " + (stamp + "\n") ==
            "\"/var/log/conman/console." + x + "\" " + stamp + "\n"
  {
    assert "\"" + FILE_PREFIX == "\"/var/log/conman/console.";
  }

  /** And so is the line of the aggregation file of a pod. */
  lemma AggregateLineRead(pod: string, y: nat, mo: nat, d: nat, h: nat, mi: nat, s: nat, clock: Clock)
    requires '/' !in pod && y <= 9999 && mo <= 9999 && d <= 9999 && h <= 9999 && mi <= 9999 && s <= 9999
    ensures ParseTimestamp("\"/tmp/consoleAgg/consoleAgg-" + pod + ".log\" " + WrittenStamp(y, mo, d, h, mi, s) + "\n",
                           "/tmp/consoleAgg/consoleAgg-" + pod + ".log", clock) ==
            Found("consoleAgg.log", clock([y, mo, d, h, mi, s]), false)
  {
    SmallStamp(y, mo, d, h, mi, s);
    AggregateRoundTrip(pod, [y, mo, d, h, mi, s], clock);
    StampWrittenOut(y, mo, d, h, mi, s);
    AggregateLineWrittenOut(pod, WrittenStamp(y, mo, d, h, mi, s));
  }

  lemma AggregateLineWrittenOut(pod: string, stamp: string)
    ensures "\"" + AggFile(pod) + "\" " + (stamp + "\n") ==
            "\"/tmp/consoleAgg/consoleAgg-" + pod + ".log\" " + stamp + "\n"
    ensures AggFile(pod) == "/tmp/consoleAgg/consoleAgg-" + pod + ".log"
  {
    assert "\"" + AGG_FILE_BASE == "\"/tmp/consoleAgg/consoleAgg-";
    assert ".log" + "\" " == ".log\" ";
  }

  /* ---------- whole state files ---------- */

  /** One rotated log, as logrotate reports it. */
  datatype Rotated = ConsoleLog(xname: string, stamp: seq<nat>) | AggregationLog(stamp: seq<nat>)

  predicate Writable(r: Rotated) {
    IsStamp(r.stamp) && (r.ConsoleLog? ==> '\"' !in r.xname && '\n' !in r.xname)
  }

  function PathOf(r: Rotated, podName: string): string {
    match r
    case ConsoleLog(xname, _) => FILE_PREFIX + xname
    case AggregationLog(_) => AggFile(podName)
  }

  function LineOf(r: Rotated, podName: string): string
    requires Writable(r)
  {
    StateLine(PathOf(r, podName), r.stamp)
  }

  function ReadBack(r: Rotated, clock: Clock): Parsed {
    match r
    case ConsoleLog(xname, stamp) => Found(xname, clock(stamp), true)
    case AggregationLog(stamp) => Found(AGG_NODE_NAME, clock(stamp), false)
  }

  lemma LineRoundTrip(r: Rotated, podName: string, clock: Clock)
    requires Writable(r) && SlashFree(podName)
    ensures ParseTimestamp(LineOf(r, podName), AggFile(podName), clock) == ReadBack(r, clock)
  {
    match r
    case ConsoleLog(xname, stamp) => ConsoleRoundTrip(xname, stamp, AggFile(podName), clock);
    case AggregationLog(stamp) => AggregateRoundTrip(podName, stamp, clock);
  }

  lemma PathHasNoNewline(r: Rotated, podName: string)
    requires Writable(r) && '\n' !in podName
    ensures '\n' !in PathOf(r, podName)
  {
  }

  lemma LineIsTerminated(path: string, stamp: seq<nat>)
    requires IsStamp(stamp) && '\n' !in path
    ensures Terminated(StateLine(path, stamp))
  {
  }
}
