/**
 The text functions the log rotation reader is built on: finding a substring, cutting
 text into lines, and scanning integers between fixed separators.
 */
module Text {
  import opened Wrappers

  /* ---------- searching ---------- */

  /** `sub` occurs in `s` at position i. */
  predicate At(s: string, sub: string, i: int) {
    0 <= i && i + |sub| <= |s| && s[i..i + |sub|] == sub
  }

  /** Position of the first occurrence of `sub`, or -1 if there is none. */
  function Index(s: string, sub: string): (i: int)
    ensures i == -1 || At(s, sub, i)
    ensures forall j :: At(s, sub, j) ==> 0 <= i <= j
  {
    IndexFrom(s, sub, 0)
  }

  function IndexFrom(s: string, sub: string, from: nat): (i: int)
    ensures i == -1 || (from <= i && At(s, sub, i))
    ensures forall j :: from <= j && At(s, sub, j) ==> 0 <= i <= j
    decreases |s| - from
  {
    if from + |sub| > |s| then -1
    else if At(s, sub, from) then from
    else IndexFrom(s, sub, from + 1)
  }

  lemma AtChar(s: string, c: char, i: int)
    ensures At(s, [c], i) <==> 0 <= i < |s| && s[i] == c
  {
  }

  /** The first occurrence of a character is right after a stretch without it. */
  lemma IndexOfChar(a: string, c: char, rest: string)
    requires c !in a
    ensures Index(a + [c] + rest, [c]) == |a|
  {
    var s := a + [c] + rest;
    AtChar(s, c, |a|);
    var i := Index(s, [c]);
    AtChar(s, c, i);
    assert forall j :: 0 <= j < |a| ==> s[j] == a[j];
  }

  /* ---------- lines ---------- */

  /** The newline-terminated lines; a last line without its newline is not one of them. */
  function Lines(content: string): seq<string>
    decreases |content|
  {
    var i := Index(content, "\n");
    if i == -1 then [] else [content[..i + 1]] + Lines(content[i + 1..])
  }

  /** A newline at the end and nowhere else. */
  predicate Terminated(line: string) {
    line != "" && line[|line| - 1] == '\n' && '\n' !in line[..|line| - 1]
  }

  lemma FirstLine(content: string)
    requires Index(content, "\n") != -1
    ensures Terminated(content[..Index(content, "\n") + 1])
  {
    var i := Index(content, "\n");
    AtChar(content, '\n', i);
    if '\n' in content[..i] {
      var j :| 0 <= j < i && content[j] == '\n';
      AtChar(content, '\n', j);
      assert false;
    }
    assert content[..i + 1][..i] == content[..i];
  }

  lemma {:induction false} LinesAreTerminated(content: string)
    ensures forall l :: l in Lines(content) ==> Terminated(l)
    decreases |content|
  {
    var i := Index(content, "\n");
    if i != -1 {
      FirstLine(content);
      LinesAreTerminated(content[i + 1..]);
    }
  }

  lemma LinesCons(line: string, rest: string)
    requires Terminated(line)
    ensures Lines(line + rest) == [line] + Lines(rest)
  {
    var body := line[..|line| - 1];
    assert line == body + ['\n'];
    IndexOfChar(body, '\n', rest);
    assert line + rest == body + ['\n'] + rest;
    assert (line + rest)[..|line|] == line && (line + rest)[|line|..] == rest;
  }

  /* ---------- numerals ---------- */

  predicate IsDigit(c: char) {
    '0' <= c <= '9'
  }

  /** Tab, vertical tab, form feed, carriage return, space; a newline is not skipped. */
  predicate IsBlank(c: char) {
    c == ' ' || c == '\t' || c == '\r' || c as int == 11 || c as int == 12
  }

  predicate AllDigits(s: string) {
    forall i :: 0 <= i < |s| ==> IsDigit(s[i])
  }

  predicate AllBlank(s: string) {
    forall i :: 0 <= i < |s| ==> IsBlank(s[i])
  }

  predicate IsSign(s: string) {
    s == "" || s == "+" || s == "-"
  }

  predicate NoDigitNext(s: string) {
    s == "" || !IsDigit(s[0])
  }

  /** The number a string of digits stands for. */
  function Value(s: string): (n: nat)
    requires AllDigits(s)
  {
    if s == "" then 0
    else 10 * Value(s[..|s| - 1]) + (s[|s| - 1] as int - '0' as int)
  }

  function Signed(sign: string, n: nat): int {
    if sign == "-" then 0 - n else n
  }

  const MAX_INT64 := 0x7fff_ffff_ffff_ffff

  predicate FitsInt64(n: int) {
    -MAX_INT64 - 1 <= n <= MAX_INT64
  }

  /** Decimal numeral without leading zeros. */
  function Dec(n: nat): (s: string)
    ensures s != "" && AllDigits(s)
    ensures Value(s) == n
  {
    if n < 10 then [DigitChar(n)]
    else
      var s := Dec(n / 10) + [DigitChar(n % 10)];
      assert s[..|s| - 1] == Dec(n / 10);
      s
  }

  function DigitChar(d: nat): (c: char)
    requires d < 10
    ensures IsDigit(c) && c as int - '0' as int == d
  {
    ('0' as int + d) as char
  }

  /* ---------- scanning integers ---------- */

  /** Either a failure or a value and the text that is left. */
  datatype Scan = Fail | Got(value: int, rest: string)

  function BlankRun(s: string): (n: nat)
    ensures n <= |s| && AllBlank(s[..n]) && (n == |s| || !IsBlank(s[n]))
  {
    if s == "" || !IsBlank(s[0]) then 0 else 1 + BlankRun(s[1..])
  }

  function DigitRun(s: string): (n: nat)
    ensures n <= |s| && AllDigits(s[..n]) && NoDigitNext(s[n..])
  {
    if s == "" || !IsDigit(s[0]) then 0 else 1 + DigitRun(s[1..])
  }

  function SignOf(s: string): (sign: string)
    ensures IsSign(sign) && sign <= s
    ensures sign == "" ==> s == "" || (s[0] != '+' && s[0] != '-')
  {
    if s != "" && (s[0] == '+' || s[0] == '-') then [s[0]] else ""
  }

  /** The %d verb: blanks, an optional sign, digits; fails outside 64 bits. */
  function ScanInt(s: string): Scan {
    ScanSigned(s[BlankRun(s)..])
  }

  function ScanSigned(s: string): Scan {
    ScanDigits(SignOf(s), s[|SignOf(s)|..])
  }

  function ScanDigits(sign: string, s: string): Scan {
    var n := DigitRun(s);
    if n == 0 then Fail
    else
      var value := Signed(sign, Value(s[..n]));
      if FitsInt64(value) then Got(value, s[n..]) else Fail
  }

  /** A format of one %d more than there are separators, each separator one exact character. */
  function ScanInts(s: string, seps: string): (values: Option<seq<int>>)
    ensures values.Some? ==> |values.value| == |seps| + 1
    decreases |seps|
  {
    match ScanInt(s)
    case Fail => None
    case Got(v, rest) =>
      if seps == "" then Some([v])
      else if rest == "" || rest[0] != seps[0] then None
      else
        match ScanInts(rest[1..], seps[1..])
        case None => None
        case Some(vs) => Some([v] + vs)
  }

  /* ---------- what is accepted ---------- */

  /** One number as it may be written. */
  datatype Numeral = Numeral(blanks: string, sign: string, digits: string) {
    predicate Valid() {
      AllBlank(blanks) && IsSign(sign) && digits != "" && AllDigits(digits)
    }

    function Denotes(): int
      requires Valid()
    {
      Signed(sign, Value(digits))
    }

    function Show(): string {
      blanks + sign + digits
    }
  }

  lemma {:induction false} BlankRunIs(blanks: string, rest: string)
    requires AllBlank(blanks) && (rest == "" || !IsBlank(rest[0]))
    ensures BlankRun(blanks + rest) == |blanks|
  {
    if blanks == "" {
      assert blanks + rest == rest;
    } else {
      BlankRunIs(blanks[1..], rest);
      assert (blanks + rest)[1..] == blanks[1..] + rest;
    }
  }

  lemma {:induction false} DigitRunIs(digits: string, rest: string)
    requires AllDigits(digits) && NoDigitNext(rest)
    ensures DigitRun(digits + rest) == |digits|
  {
    if digits == "" {
      assert digits + rest == rest;
    } else {
      DigitRunIs(digits[1..], rest);
      assert (digits + rest)[1..] == digits[1..] + rest;
    }
  }

  /** What a numeral is read as. */
  function Reading(value: int, rest: string): Scan {
    if FitsInt64(value) then Got(value, rest) else Fail
  }

  lemma DigitsAccepted(sign: string, digits: string, rest: string)
    requires digits != "" && AllDigits(digits) && NoDigitNext(rest)
    ensures ScanDigits(sign, digits + rest) == Reading(Signed(sign, Value(digits)), rest)
  {
    DigitRunIs(digits, rest);
    assert (digits + rest)[..|digits|] == digits && (digits + rest)[|digits|..] == rest;
  }

  lemma SignAccepted(sign: string, number: string)
    requires IsSign(sign) && number != "" && IsDigit(number[0])
    ensures ScanSigned(sign + number) == ScanDigits(sign, number)
    ensures !IsBlank((sign + number)[0])
  {
    assert SignOf(sign + number) == sign;
    assert (sign + number)[|sign|..] == number;
  }

  lemma BlanksAccepted(blanks: string, s: string)
    requires AllBlank(blanks) && s != "" && !IsBlank(s[0])
    ensures ScanInt(blanks + s) == ScanSigned(s)
  {
    BlankRunIs(blanks, s);
    assert (blanks + s)[|blanks|..] == s;
  }

  /** Every well-formed numeral is read as the number it stands for, if that fits in 64 bits. */
  lemma ScanIntAccepts(n: Numeral, rest: string)
    requires n.Valid() && NoDigitNext(rest)
    ensures ScanInt(n.Show() + rest) == Reading(n.Denotes(), rest)
  {
    assert n.Show() + rest == n.blanks + (n.sign + (n.digits + rest));
    DigitsAccepted(n.sign, n.digits, rest);
    SignAccepted(n.sign, n.digits + rest);
    BlanksAccepted(n.blanks, n.sign + (n.digits + rest));
  }

  lemma DigitsSound(sign: string, s: string) returns (digits: string)
    requires ScanDigits(sign, s).Got?
    ensures digits != "" && AllDigits(digits) && s == digits + ScanDigits(sign, s).rest
    ensures NoDigitNext(ScanDigits(sign, s).rest)
    ensures ScanDigits(sign, s).value == Signed(sign, Value(digits)) && FitsInt64(ScanDigits(sign, s).value)
  {
    digits := s[..DigitRun(s)];
    assert s == digits + s[DigitRun(s)..];
  }

  lemma PrefixAndRest(s: string, a: string, b: string, c: string)
    requires a <= s && s[|a|..] == b + c
    ensures s == a + (b + c)
  {
  }

  lemma SignedSound(s: string) returns (sign: string, digits: string)
    requires ScanSigned(s).Got?
    ensures IsSign(sign) && digits != "" && AllDigits(digits) && s == sign + (digits + ScanSigned(s).rest)
    ensures NoDigitNext(ScanSigned(s).rest)
    ensures ScanSigned(s).value == Signed(sign, Value(digits)) && FitsInt64(ScanSigned(s).value)
  {
    sign := SignOf(s);
    digits := DigitsSound(sign, s[|sign|..]);
    PrefixAndRest(s, sign, digits, ScanSigned(s).rest);
  }

  lemma NumeralParts(blanks: string, sign: string, digits: string)
    requires AllBlank(blanks) && IsSign(sign) && digits != "" && AllDigits(digits)
    ensures var n := Numeral(blanks, sign, digits);
            n.Valid() && n.Denotes() == Signed(sign, Value(digits)) && n.Show() == blanks + sign + digits
  {
  }

  /** And nothing else is read. */
  lemma ScanIntSound(s: string) returns (n: Numeral)
    requires ScanInt(s).Got?
    ensures n.Valid() && s == n.Show() + ScanInt(s).rest
    ensures NoDigitNext(ScanInt(s).rest)
    ensures n.Denotes() == ScanInt(s).value && FitsInt64(n.Denotes())
  {
    var b := BlankRun(s);
    var sign, digits := SignedSound(s[b..]);
    n := Numeral(s[..b], sign, digits);
    NumeralParts(s[..b], sign, digits);
    Split(s, b);
    Reassociate(s, s[..b], sign, s[b..], digits, ScanInt(s).rest);
  }

  lemma Split(s: string, i: nat)
    requires i <= |s|
    ensures s == s[..i] + s[i..]
  {
  }

  /** Pieces of a text put together in another order. */
  lemma Reassociate(s: string, a: string, b: string, c: string, d: string, e: string)
    requires s == a + c && c == b + (d + e)
    ensures s == (a + b + d) + e
  {
  }

  /** Numerals with separators between them. */
  function ShowAll(ns: seq<Numeral>, seps: string): string
    requires |ns| == |seps| + 1
    decreases |seps|
  {
    if seps == "" then ns[0].Show() else ns[0].Show() + [seps[0]] + ShowAll(ns[1..], seps[1..])
  }

  predicate AllReadable(ns: seq<Numeral>) {
    forall i :: 0 <= i < |ns| ==> ns[i].Valid() && FitsInt64(ns[i].Denotes())
  }

  /** vs are the numbers ns stand for. */
  predicate Denote(ns: seq<Numeral>, vs: seq<int>) {
    AllReadable(ns) && |ns| == |vs| && forall i :: 0 <= i < |ns| ==> ns[i].Denotes() == vs[i]
  }

  predicate AllSeparators(seps: string) {
    forall i :: 0 <= i < |seps| ==> !IsDigit(seps[i])
  }

  lemma ScanIntsAfter(s: string, seps: string, v: int, rest: string)
    requires seps != "" && rest != "" && rest[0] == seps[0] && ScanInt(s) == Got(v, rest)
    ensures var more := ScanInts(rest[1..], seps[1..]);
            ScanInts(s, seps) == if more.Some? then Some([v] + more.value) else None
  {
  }

  lemma ScanIntsStep(n: Numeral, sep: char, seps: string, tail: string)
    requires n.Valid() && FitsInt64(n.Denotes()) && !IsDigit(sep)
    ensures var more := ScanInts(tail, seps);
            ScanInts(n.Show() + ([sep] + tail), [sep] + seps) ==
            if more.Some? then Some([n.Denotes()] + more.value) else None
  {
    ScanIntAccepts(n, [sep] + tail);
    assert ([sep] + tail)[1..] == tail && ([sep] + seps)[1..] == seps;
    ScanIntsAfter(n.Show() + ([sep] + tail), [sep] + seps, n.Denotes(), [sep] + tail);
  }

  lemma Uncons<T>(s: seq<T>)
    requires s != []
    ensures s == [s[0]] + s[1..]
  {
  }

  lemma ShowAllUncons(ns: seq<Numeral>, seps: string, rest: string)
    requires |ns| == |seps| + 1 && seps != ""
    ensures ShowAll(ns, seps) + rest == ns[0].Show() + ([seps[0]] + (ShowAll(ns[1..], seps[1..]) + rest))
  {
  }

  lemma DenoteUncons(ns: seq<Numeral>, vs: seq<int>)
    requires Denote(ns, vs) && ns != []
    ensures ns[0].Valid() && FitsInt64(ns[0].Denotes()) && ns[0].Denotes() == vs[0]
    ensures Denote(ns[1..], vs[1..])
  {
  }

  lemma {:induction false} ScanIntsAccepts(ns: seq<Numeral>, seps: string, vs: seq<int>, rest: string)
    requires |ns| == |seps| + 1 && AllSeparators(seps) && Denote(ns, vs) && NoDigitNext(rest)
    ensures ScanInts(ShowAll(ns, seps) + rest, seps) == Some(vs)
    decreases |seps|
  {
    DenoteUncons(ns, vs);
    if seps == "" {
      ScanIntAccepts(ns[0], rest);
      assert vs == [vs[0]];
    } else {
      ScanIntsAccepts(ns[1..], seps[1..], vs[1..], rest);
      ScanIntsStep(ns[0], seps[0], seps[1..], ShowAll(ns[1..], seps[1..]) + rest);
      Uncons(seps);
      ShowAllUncons(ns, seps, rest);
      Uncons(vs);
    }
  }

  lemma DenoteCons(n: Numeral, ns: seq<Numeral>, v: int, vs: seq<int>)
    requires n.Valid() && FitsInt64(n.Denotes()) && n.Denotes() == v && Denote(ns, vs)
    ensures Denote([n] + ns, [v] + vs)
  {
  }

  lemma ShowAllCons(n: Numeral, sep: char, ns: seq<Numeral>, seps: string)
    requires |ns| == |seps| + 1
    ensures ShowAll([n] + ns, [sep] + seps) == n.Show() + [sep] + ShowAll(ns, seps)
  {
  }

  /** A successful scan, taken apart: its first number and the scan of what follows the separator. */
  lemma ScanIntsUnfold(s: string, seps: string)
    requires ScanInts(s, seps).Some? && seps != ""
    ensures ScanInt(s).Got? && ScanInt(s).rest != "" && ScanInt(s).rest[0] == seps[0]
    ensures ScanInts(ScanInt(s).rest[1..], seps[1..]).Some?
    ensures ScanInts(s, seps).value == [ScanInt(s).value] + ScanInts(ScanInt(s).rest[1..], seps[1..]).value
  {
  }

  lemma {:induction false} ScanIntsSound(s: string, seps: string) returns (ns: seq<Numeral>, rest: string)
    requires ScanInts(s, seps).Some?
    ensures |ns| == |seps| + 1 && Denote(ns, ScanInts(s, seps).value) && NoDigitNext(rest)
    ensures s == ShowAll(ns, seps) + rest
    decreases |seps|
  {
    var n := ScanIntSound(s);
    var v, left := ScanInt(s).value, ScanInt(s).rest;
    if seps == "" {
      ns, rest := [n], left;
    } else {
      ScanIntsUnfold(s, seps);
      var ns';
      ns', rest := ScanIntsSound(left[1..], seps[1..]);
      ns := [n] + ns';
      DenoteCons(n, ns', v, ScanInts(left[1..], seps[1..]).value);
      ShowAllCons(n, seps[0], ns', seps[1..]);
      Uncons(seps);
      Uncons(left);
      Reassociate(s, n.Show(), [left[0]], left, ShowAll(ns', seps[1..]), rest);
    }
  }

  /** `s` starts with numerals for vs, separated by seps. */
  ghost predicate Spells(s: string, seps: string, vs: seq<int>) {
    exists ns, rest ::
      |ns| == |seps| + 1 && Denote(ns, vs) && NoDigitNext(rest) && s == ShowAll(ns, seps) + rest
  }

  /** The scan succeeds with vs exactly on the texts that start with numerals for vs. */
  lemma ScanIntsExact(s: string, seps: string, vs: seq<int>)
    requires AllSeparators(seps)
    ensures ScanInts(s, seps) == Some(vs) <==> Spells(s, seps, vs)
  {
    if ScanInts(s, seps) == Some(vs) {
      var ns, rest := ScanIntsSound(s, seps);
    }
    if Spells(s, seps, vs) {
      var ns, rest :| |ns| == |seps| + 1 && Denote(ns, vs) && NoDigitNext(rest) && s == ShowAll(ns, seps) + rest;
      ScanIntsAccepts(ns, seps, vs, rest);
    }
  }

  /** Plain decimal numerals with separators between them. */
  function DecAll(vs: seq<nat>, seps: string): string
    requires |vs| == |seps| + 1
    decreases |seps|
  {
    if seps == "" then Dec(vs[0]) else Dec(vs[0]) + [seps[0]] + DecAll(vs[1..], seps[1..])
  }

  function Plain(n: nat): (m: Numeral)
    ensures m.Valid() && m.Denotes() == n && m.Show() == Dec(n)
  {
    Numeral("", "", Dec(n))
  }

  lemma DecAllUncons(vs: seq<nat>, seps: string, rest: string)
    requires |vs| == |seps| + 1 && seps != ""
    ensures DecAll(vs, seps) + rest == Dec(vs[0]) + ([seps[0]] + (DecAll(vs[1..], seps[1..]) + rest))
  {
  }

  /** Round trip: what is written in plain decimals is read back. */
  lemma {:induction false} DecAllRoundTrip(vs: seq<nat>, seps: string, rest: string)
    requires |vs| == |seps| + 1 && AllSeparators(seps) && NoDigitNext(rest)
    requires forall i :: 0 <= i < |vs| ==> vs[i] <= MAX_INT64
    ensures ScanInts(DecAll(vs, seps) + rest, seps) == Some(vs)
    decreases |seps|
  {
    Uncons(vs);
    if seps == "" {
      assert vs == [vs[0]];
      ScanIntAccepts(Plain(vs[0]), rest);
    } else {
      DecAllRoundTrip(vs[1..], seps[1..], rest);
      ScanIntsStep(Plain(vs[0]), seps[0], seps[1..], DecAll(vs[1..], seps[1..]) + rest);
      Uncons(seps);
      DecAllUncons(vs, seps, rest);
    }
  }

  /* ---------- digit by digit, character by character ---------- */

  /** Decimal notation: the digits of n/10, and then n's last digit. */
  lemma DecIsDecimal(n: nat)
    ensures n < 10 ==> Dec(n) == ["0123456789"[n]]
    ensures n >= 10 ==> Dec(n) == Dec(n / 10) + ["0123456789"[n % 10]]
  {
    DigitIs(n % 10);
  }

  lemma DigitIs(d: nat)
    requires d < 10
    ensures DigitChar(d) == "0123456789"[d]
  {
  }

  lemma EmptyParts(a: string, b: string)
    ensures "" + a + b == a + b && a + "" + b == a + b
  {
  }

  /** A number in plain decimals after blanks and a sign. */
  lemma Signedly(s: string, blanks: string, sign: string, n: nat) returns (m: Numeral)
    requires AllBlank(blanks) && IsSign(sign) && s == blanks + sign + Dec(n)
    ensures m.Valid() && m.Denotes() == Signed(sign, n) && m.Show() + "" == s
  {
    m := Numeral(blanks, sign, Dec(n));
    NumeralParts(blanks, sign, Dec(n));
  }

  lemma NumberRead(n: nat, sign: string)
    requires IsSign(sign)
    ensures ScanInt(sign + Dec(n)) == Reading(Signed(sign, n), "")
  {
    EmptyParts(sign, Dec(n));
    var m := Signedly(sign + Dec(n), "", sign, n);
    ScanIntAccepts(m, "");
  }

  /** Numbers are read up to the ends of the 64-bit range, and no further. */
  lemma RangeRead(n: nat)
    ensures ScanInt(Dec(n)) == if n <= 9223372036854775807 then Got(n, "") else Fail
    ensures ScanInt("-" + Dec(n)) == if n <= 9223372036854775808 then Got(0 - n, "") else Fail
  {
    NumberRead(n, "");
    assert "" + Dec(n) == Dec(n);
    NumberRead(n, "-");
  }

  lemma BlankThenNumber(c: char, n: nat)
    requires IsBlank(c)
    ensures ScanInt([c] + Dec(n)) == Reading(n, "")
  {
    EmptyParts([c], Dec(n));
    var m := Signedly([c] + Dec(n), [c], "", n);
    ScanIntAccepts(m, "");
  }

  lemma OtherThenNumber(c: char, n: nat)
    requires !IsBlank(c) && c != '+' && c != '-' && !IsDigit(c)
    ensures ScanInt([c] + Dec(n)) == Fail
  {
    var s := [c] + Dec(n);
    assert s[0] == c && BlankRun(s) == 0 && s[0..] == s;
    assert SignOf(s) == "" && DigitRun(s) == 0;
  }

  /**
   Of the characters that are not digits, a number may follow a sign, a blank or another
   white character but a newline.
   */
  lemma CharBeforeNumber(c: char, n: nat)
    requires n <= 9223372036854775807 && (c < '0' || c > '9')
    ensures ScanInt([c] + Dec(n)) ==
            if c == '-' then Got(0 - n, "")
            else if c == '+' || c == ' ' || c as int in {9, 11, 12, 13} then Got(n, "")
            else Fail
  {
    if c == '-' {
      NumberRead(n, "-");
    } else if c == '+' {
      NumberRead(n, "+");
    } else if IsBlank(c) {
      BlankThenNumber(c, n);
    } else {
      OtherThenNumber(c, n);
    }
  }

  function Joined(lines: seq<string>): string {
    if lines == [] then "" else lines[0] + Joined(lines[1..])
  }

  lemma JoinedCons(line: string, lines: seq<string>, rest: string)
    ensures Joined([line] + lines) + rest == line + (Joined(lines) + rest)
  {
    assert ([line] + lines)[1..] == lines;
  }

  lemma LinesUncons(content: string)
    requires Index(content, "\n") != -1
    ensures var k := Index(content, "\n") + 1;
            content == content[..k] + content[k..] && Lines(content) == [content[..k]] + Lines(content[k..])
  {
  }

  lemma LinesOfNone(content: string)
    requires Index(content, "\n") == -1
    ensures content == Joined(Lines(content)) + content && '\n' !in content
  {
    NoNewline(content);
  }

  /** The lines are the whole text, but for what follows the last newline. */
  lemma {:induction false} LinesExact(content: string) returns (rest: string)
    ensures content == Joined(Lines(content)) + rest && '\n' !in rest
    decreases |content|
  {
    var k := Index(content, "\n") + 1;
    if k == 0 {
      LinesOfNone(content);
      rest := content;
    } else {
      rest := LinesExact(content[k..]);
      LinesUncons(content);
      JoinedCons(content[..k], Lines(content[k..]), rest);
    }
  }

  lemma NoNewline(content: string)
    requires Index(content, "\n") == -1
    ensures '\n' !in content
  {
    if '\n' in content {
      var j :| 0 <= j < |content| && content[j] == '\n';
      AtChar(content, '\n', j);
      assert false;
    }
  }
}
