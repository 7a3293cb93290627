/** Collapsed stacks: the text a profile report is printed as, and what the viewer reads. */
module CollapsedSpec {
  import opened Wrappers
  import opened Text

  /** A report entry: frames innermost first, each with the symbols found at it. */
  datatype Entry = Entry(frames: seq<seq<string>>, count: int)

  /** What one line says: names outermost first. */
  datatype Record = Record(stack: seq<string>, count: nat)

  // ----- Decimal numbers -----

  predicate IsDigit(c: char) {
    '0' <= c <= '9'
  }

  predicate AllDigits(s: string) {
    forall i :: 0 <= i < |s| ==> IsDigit(s[i])
  }

  function Decimal(n: nat): string {
    (if n < 10 then "" else Decimal(n / 10)) + [('0' as int + n % 10) as char]
  }

  function ValueOf(s: string): nat
    requires AllDigits(s)
  {
    if s == "" then 0 else ValueOf(s[..|s| - 1]) * 10 + (s[|s| - 1] as int - '0' as int)
  }

  lemma {:induction false} DecimalRoundTrip(n: nat)
    ensures Decimal(n) != "" && AllDigits(Decimal(n)) && ValueOf(Decimal(n)) == n
  {
    var s := Decimal(n);
    if n >= 10 {
      DecimalRoundTrip(n / 10);
    }
    assert s[..|s| - 1] == if n < 10 then "" else Decimal(n / 10);
  }

  function Printed(n: int): string {
    if n < 0 then "-" + Decimal(-n) else Decimal(n)
  }

  // ----- Printing -----

  /** The first symbol of each frame that has one, outermost first. */
  function Names(frames: seq<seq<string>>): seq<string> {
    if frames == [] then []
    else
      var last := frames[|frames| - 1];
      (if last == [] then [] else [last[0]]) + Names(frames[..|frames| - 1])
  }

  /** Positionally: the last frame comes first and the innermost, which is the first, last. */
  lemma {:induction false} NamesAt(frames: seq<seq<string>>, i: nat)
    requires i < |frames| && forall j :: 0 <= j < |frames| ==> frames[j] != []
    ensures |Names(frames)| == |frames| && Names(frames)[i] == frames[|frames| - 1 - i][0]
  {
    var n := |frames| - 1;
    if n > 0 {
      NamesAt(frames[..n], if i == 0 then 0 else i - 1);
    }
  }

  /** Frames without symbols leave no trace, wherever they are. */
  lemma {:induction false} NamesWithout(outer: seq<seq<string>>, inner: seq<seq<string>>)
    ensures Names(inner + [[]] + outer) == Names(inner + outer)
  {
    if outer == [] {
      assert inner + [[]] + outer == inner + [[]] && inner + outer == inner;
    } else {
      var n := |outer| - 1;
      NamesWithout(outer[..n], inner);
      assert (inner + [[]] + outer)[..|inner| + 1 + n] == inner + [[]] + outer[..n];
      assert (inner + outer)[..|inner| + n] == inner + outer[..n];
    }
  }

  function Line(e: Entry): string {
    Join(Names(e.frames), ';') + " " + Printed(e.count)
  }

  function Document(report: seq<Entry>): string {
    if report == [] then ""
    else (if Names(report[0].frames) == [] then "" else Line(report[0]) + "\n") + Document(report[1..])
  }

  /** Two frames, of which the first is the innermost, and a count. */
  lemma {:induction false} PrintedLine(inner: string, outer: string, digit: nat)
    requires 0 < digit < 10
    ensures Document([Entry([[inner], [outer]], 10 * digit)])
      == outer + ";" + inner + " " + [('0' as int + digit) as char] + "0" + "\n"
  {
    var frames := [[inner], [outer]];
    assert frames[..1] == [[inner]] && [[inner]][..0] == [];
    assert Names([[inner]]) == [inner] && Names(frames) == [outer, inner];
    assert [outer, inner][1..] == [inner];
    assert (10 * digit) / 10 == digit && (10 * digit) % 10 == 0;
    assert Decimal(digit) == [('0' as int + digit) as char];
    assert Decimal(10 * digit) == [('0' as int + digit) as char] + "0";
    var report := [Entry(frames, 10 * digit)];
    assert report[1..] == [];
    assert Document(report) == Line(report[0]) + "\n" + "";
    assert Join([outer, inner], ';') == outer + [';'] + inner;
  }

  // ----- Reading -----

  predicate IsTerminator(c: char) {
    c == '\n' || c == '\r' || c == '\U{2028}' || c == '\U{2029}'
  }

  predicate OneLine(s: string) {
    forall i :: 0 <= i < |s| ==> !IsTerminator(s[i])
  }

  /** The expression's two groups on one line: anything, a space, and digits up to the end. */
  ghost predicate Groups(s: string, head: string, digits: string) {
    s == head + " " + digits && digits != "" && AllDigits(digits)
  }

  /** Where the trailing digits of a line begin. */
  function DigitsFrom(s: string): (k: nat)
    ensures k <= |s| && AllDigits(s[k..])
    ensures k > 0 ==> !IsDigit(s[k - 1])
  {
    if s == "" || !IsDigit(s[|s| - 1]) then |s| else DigitsFrom(s[..|s| - 1])
  }

  lemma {:induction false} DigitsBegin(s: string, n: nat)
    requires 0 < n <= |s| && AllDigits(s[n..]) && !IsDigit(s[n - 1])
    ensures DigitsFrom(s) == n
  {
    if n < |s| {
      var shorter := s[..|s| - 1];
      assert s[|s| - 1] == s[n..][|s| - 1 - n];
      assert shorter[n..] == s[n..][..|s| - 1 - n];
      DigitsBegin(shorter, n);
    }
  }

  function ReadLine(s: string): Option<Record> {
    var k := DigitsFrom(s);
    if 0 < k < |s| && s[k - 1] == ' ' then Some(Record(Split(s[..k - 1], ';'), ValueOf(s[k..]))) else None
  }

  /** A line is read exactly when the expression matches it, and then in the only way it can. */
  lemma {:induction false} ReadLineIff(s: string, head: string, digits: string)
    ensures Groups(s, head, digits) ==> ReadLine(s) == Some(Record(Split(head, ';'), ValueOf(digits)))
    ensures ReadLine(s).Some? ==> exists h, d :: Groups(s, h, d)
  {
    var k := DigitsFrom(s);
    if Groups(s, head, digits) {
      var n := |head| + 1;
      assert s[n..] == digits && s[n - 1] == ' ' && s[..n - 1] == head;
      DigitsBegin(s, n);
    }
    if ReadLine(s).Some? {
      assert s == s[..k - 1] + " " + s[k..];
      assert Groups(s, s[..k - 1], s[k..]);
    }
  }

  /** The first position of a line terminator, or the length. */
  function LineEnd(s: string): (k: nat)
    ensures k <= |s| && OneLine(s[..k]) && (k < |s| ==> IsTerminator(s[k]))
  {
    if s == "" || IsTerminator(s[0]) then 0
    else
      var k := LineEnd(s[1..]);
      assert s[..k + 1] == [s[0]] + s[1..][..k];
      k + 1
  }

  /** The expression is applied per line terminator, of which the line feed is only one: the
      first part that matches counts. */
  function Scan(s: string): Option<Record>
    decreases |s|
  {
    var k := LineEnd(s);
    if ReadLine(s[..k]).Some? || k == |s| then ReadLine(s[..k]) else Scan(s[k + 1..])
  }

  function Records(lines: seq<string>): seq<Record> {
    if lines == [] then []
    else (match Scan(lines[0]) case Some(r) => [r] case None => []) + Records(lines[1..])
  }

  /** What the viewer makes of a text. */
  function Read(text: string): seq<Record> {
    Records(Split(text, '\n'))
  }
}

/** Reading back what was printed. */
module CollapsedRoundTrip {
  import opened Wrappers
  import opened Text
  import opened CollapsedSpec

  predicate CleanName(name: string) {
    ';' !in name && OneLine(name)
  }

  predicate Clean(names: seq<string>) {
    forall i :: 0 <= i < |names| ==> CleanName(names[i])
  }

  /** What the report says, entry by entry: stacks without any symbol are left out, and so,
      once printed and read, are negative counts. */
  function Told(e: Entry): seq<Record> {
    if Names(e.frames) == [] || e.count < 0 then [] else [Record(Names(e.frames), e.count)]
  }

  function Expected(report: seq<Entry>): seq<Record> {
    if report == [] then [] else Told(report[0]) + Expected(report[1..])
  }

  lemma PrintedPlain(n: int)
    ensures OneLine(Printed(n))
  {
    var m := if n < 0 then -n else n;
    DecimalRoundTrip(m);
    forall i | 0 <= i < |Decimal(m)| ensures !IsTerminator(Decimal(m)[i]) {
      assert IsDigit(Decimal(m)[i]);
    }
  }

  lemma OneLineConcat(x: string, y: string)
    requires OneLine(x) && OneLine(y)
    ensures OneLine(x + y)
  {
  }

  lemma {:induction false} JoinOneLine(names: seq<string>)
    requires Clean(names)
    ensures OneLine(Join(names, ';'))
  {
    if |names| > 1 {
      assert CleanName(names[0]);
      JoinOneLine(names[1..]);
      OneLineConcat(names[0], ";");
      OneLineConcat(names[0] + ";", Join(names[1..], ';'));
    } else if |names| == 1 {
      assert CleanName(names[0]);
    }
  }

  lemma LineOneLine(e: Entry)
    requires Clean(Names(e.frames))
    ensures OneLine(Line(e))
  {
    JoinOneLine(Names(e.frames));
    PrintedPlain(e.count);
    OneLineConcat(Join(Names(e.frames), ';'), " ");
    OneLineConcat(Join(Names(e.frames), ';') + " ", Printed(e.count));
  }

  lemma {:induction false} ScanOneLine(s: string)
    requires OneLine(s)
    ensures LineEnd(s) == |s| && Scan(s) == ReadLine(s)
  {
    assert s[..|s|] == s;
  }

  /** A negative count keeps its line from being read. */
  lemma {:induction false} NegativeUnread(head: string, n: nat)
    ensures ReadLine(head + " " + ("-" + Decimal(n))) == None
  {
    var s := head + " " + ("-" + Decimal(n));
    DecimalRoundTrip(n);
    assert s[|head| + 2..] == Decimal(n);
    DigitsBegin(s, |head| + 2);
  }

  lemma LineRoundTrip(e: Entry)
    requires Names(e.frames) != [] && Clean(Names(e.frames))
    ensures Scan(Line(e)) == if e.count < 0 then None else Some(Record(Names(e.frames), e.count))
  {
    var names := Names(e.frames);
    LineOneLine(e);
    ScanOneLine(Line(e));
    if e.count < 0 {
      NegativeUnread(Join(names, ';'), -e.count);
    } else {
      DecimalRoundTrip(e.count);
      ReadLineIff(Line(e), Join(names, ';'), Decimal(e.count));
      assert Without(names, ';') by {
        forall i | 0 <= i < |names| ensures ';' !in names[i] { assert CleanName(names[i]); }
      }
      SplitJoin(names, ';');
    }
  }

  ghost predicate CleanReport(report: seq<Entry>) {
    forall i :: 0 <= i < |report| ==> Clean(Names(report[i].frames))
  }

  /** Reading a printed report returns its stacks and counts, in order. */
  lemma {:induction false} RoundTrip(report: seq<Entry>)
    requires CleanReport(report)
    ensures Read(Document(report)) == Expected(report)
  {
    if report == [] {
      assert Scan("") == None;
    } else {
      var e, rest := report[0], report[1..];
      assert Clean(Names(e.frames)) && CleanReport(rest);
      RoundTrip(rest);
      if Names(e.frames) == [] {
        assert "" + Document(rest) == Document(rest);
      } else {
        LineOneLine(e);
        assert '\n' !in Line(e);
        SplitAt(Line(e), '\n', Document(rest));
        LineRoundTrip(e);
        ReadCons(Line(e), Document(rest));
      }
    }
  }

  lemma ReadCons(line: string, rest: string)
    requires '\n' !in line
    ensures Read(line + "\n" + rest) == (match Scan(line) case Some(r) => [r] case None => []) + Read(rest)
  {
    SplitAt(line, '\n', rest);
    assert ([line] + Split(rest, '\n'))[1..] == Split(rest, '\n');
  }

  // ----- Only such names come back -----

  lemma {:induction false} SplitOneLine(s: string, c: char)
    requires OneLine(s)
    ensures forall i :: 0 <= i < |Split(s, c)| ==> OneLine(Split(s, c)[i])
  {
    if s != "" {
      SplitOneLine(s[1..], c);
      OneLineConcat([s[0]], Split(s[1..], c)[0]);
    }
  }

  lemma LineClean(s: string)
    requires OneLine(s) && ReadLine(s).Some?
    ensures Clean(ReadLine(s).value.stack)
  {
    var head := s[..DigitsFrom(s) - 1];
    SplitWithout(head, ';');
    SplitOneLine(head, ';');
  }

  lemma {:induction false} ScanClean(s: string)
    requires Scan(s).Some?
    ensures Clean(Scan(s).value.stack)
    decreases |s|
  {
    var k := LineEnd(s);
    if ReadLine(s[..k]).Some? {
      LineClean(s[..k]);
    } else {
      ScanClean(s[k + 1..]);
    }
  }

  /** No record that was read, from any text, has a name that printing would spoil. */
  lemma {:induction false} RecordsClean(lines: seq<string>, r: Record)
    requires r in Records(lines)
    ensures Clean(r.stack)
  {
    if Scan(lines[0]) == Some(r) {
      ScanClean(lines[0]);
    } else {
      RecordsClean(lines[1..], r);
    }
  }

  lemma {:induction false} ExpectedHas(report: seq<Entry>, i: nat)
    requires i < |report| && report[i].count >= 0 && Names(report[i].frames) != []
    ensures Record(Names(report[i].frames), report[i].count) in Expected(report)
  {
    if i > 0 {
      ExpectedHas(report[1..], i - 1);
    }
  }

  /** With counts that are not negative, exactly the reports whose names have no semicolon
      and no line terminator survive printing and reading. */
  lemma {:induction false} RoundTripIff(report: seq<Entry>)
    requires forall i :: 0 <= i < |report| ==> report[i].count >= 0
    ensures Read(Document(report)) == Expected(report) <==> CleanReport(report)
  {
    if CleanReport(report) {
      RoundTrip(report);
    }
    if Read(Document(report)) == Expected(report) {
      ReadBackClean(report);
    }
  }

  lemma {:induction false} ReadBackClean(report: seq<Entry>)
    requires forall i :: 0 <= i < |report| ==> report[i].count >= 0
    requires Read(Document(report)) == Expected(report)
    ensures CleanReport(report)
  {
    forall i | 0 <= i < |report| ensures Clean(Names(report[i].frames)) {
      if Names(report[i].frames) != [] {
        var r := Record(Names(report[i].frames), report[i].count);
        ExpectedHas(report, i);
        RecordsClean(Split(Document(report), '\n'), r);
      }
    }
  }

  /** A frame named "a;b" comes back as two frames. */
  lemma {:induction false} SemicolonSplits()
    ensures Read(Document([Entry([["a;b"]], 1)])) == [Record(["a", "b"], 1)]
    ensures Expected([Entry([["a;b"]], 1)]) == [Record(["a;b"], 1)]
  {
    hide Read, Line, Split, Scan, ReadLine;
    var e := Entry([["a;b"]], 1);
    NamesOfOne("a;b");
    LineOfOne(e);
    var line := "a;b 1";
    assert Document([e]) == line + "\n" + "" by {
      assert [e][1..] == [];
      assert line + "\n" + "" == line + "\n";
    }
    ReadCons(line, "");
    ScanOneLine(line);
    ReadSplitName();
    ReadNothing();
    assert [Record(["a", "b"], 1)] + [] == [Record(["a", "b"], 1)];
    assert [e][1..] == [] && Told(e) + [] == Told(e);
  }

  lemma NamesOfOne(name: string)
    ensures Names([[name]]) == [name]
  {
    assert [[name]][..0] == [] && [name] + [] == [name];
  }

  lemma LineOfOne(e: Entry)
    requires e == Entry([["a;b"]], 1)
    ensures Line(e) == "a;b 1"
  {
    NamesOfOne("a;b");
    assert Decimal(1) == "" + ['1'];
    assert "a;b" + " " + "1" == "a;b 1";
  }

  lemma ReadSplitName()
    ensures ReadLine("a;b 1") == Some(Record(["a", "b"], 1))
  {
    hide Split, ReadLine;
    assert "a;b 1" == "a;b" + " " + "1";
    DecimalRoundTrip(1);
    assert Decimal(1) == "" + ['1'] == "1";
    assert Groups("a;b 1", "a;b", "1");
    ReadLineIff("a;b 1", "a;b", "1");
    assert "a;b" == "a" + [';'] + "b";
    SplitAt("a", ';', "b");
    SplitPlain("b", ';');
    assert ["a"] + ["b"] == ["a", "b"];
  }

  lemma ReadNothing()
    ensures Read("") == []
  {
    assert Scan("") == None;
  }
}

/** The printer's and the reader's own loops. */
module CollapsedStacks {
  import opened Wrappers
  import opened Text
  import opened CollapsedSpec
  import opened CollapsedRoundTrip
  import opened SampleSums
  import opened ProfileBuilders

  method CollectStacks(report: seq<Entry>) returns (output: string)
    ensures output == Document(report)
  {
    hide Document, Printed, Join, Names;
    output := "";
    assert report[0..] == report && "" + Document(report) == Document(report);
    for i := 0 to |report|
      invariant output + Document(report[i..]) == Document(report)
    {
      var stack := CollectNames(report[i].frames);
      DocumentStep(report, i);
      ghost var before := output;
      if stack != [] {
        output := output + Join(stack, ';');
        output := output + " ";
        output := output + Printed(report[i].count);
        output := output + "\n";
        Associative(before, Line(report[i]) + "\n", Document(report[i + 1..]));
        assert output == before + (Line(report[i]) + "\n");
      } else {
        assert "" + Document(report[i + 1..]) == Document(report[i + 1..]);
      }
    }
    DocumentEnd(report[|report|..]);
    assert output + "" == output;
  }

  lemma DocumentStep(report: seq<Entry>, i: nat)
    requires i < |report|
    ensures var rest := Document(report[i + 1..]);
      Document(report[i..]) == (if Names(report[i].frames) == [] then "" else Line(report[i]) + "\n") + rest
  {
    assert report[i..][1..] == report[i + 1..];
  }

  lemma DocumentEnd(report: seq<Entry>)
    requires report == []
    ensures Document(report) == ""
  {
  }

  method CollectNames(frames: seq<seq<string>>) returns (stack: seq<string>)
    ensures stack == Names(frames)
  {
    stack := [];
    var i := |frames|;
    assert frames[..i] == frames;
    while i > 0
      invariant 0 <= i <= |frames| && stack + Names(frames[..i]) == Names(frames)
    {
      i := i - 1;
      assert frames[..i + 1][..i] == frames[..i];
      if frames[i] != [] {
        assert stack + ([frames[i][0]] + Names(frames[..i])) == stack + [frames[i][0]] + Names(frames[..i]);
        stack := stack + [frames[i][0]];
      }
    }
  }

  function Concat(chunks: seq<string>): string {
    if chunks == [] then "" else Concat(chunks[..|chunks| - 1]) + chunks[|chunks| - 1]
  }

  /** The last piece of the first text and the first piece of the second are one piece. */
  function Glue(a: seq<string>, b: seq<string>): (g: seq<string>)
    requires a != [] && b != []
    ensures g != []
  {
    a[..|a| - 1] + [a[|a| - 1] + b[0]] + b[1..]
  }

  lemma GlueHead(t: seq<string>, b: seq<string>, h: char)
    requires t != [] && b != []
    ensures Glue([""] + t, b) == [""] + Glue(t, b)
    ensures Glue([[h] + t[0]] + t[1..], b) == [[h] + Glue(t, b)[0]] + Glue(t, b)[1..]
  {
    var a := [[h] + t[0]] + t[1..];
    if |t| == 1 {
      Associative([h], t[0], b[0]);
    } else {
      assert a[..|a| - 1] == [[h] + t[0]] + t[1..|t| - 1];
      assert t[..|t| - 1] == [t[0]] + t[1..|t| - 1];
    }
    var e := [""] + t;
    assert e[..|e| - 1] == [""] + t[..|t| - 1];
  }

  lemma {:induction false} SplitConcat(x: string, y: string, c: char)
    ensures Split(x + y, c) == Glue(Split(x, c), Split(y, c))
  {
    if x == "" {
      var b := Split(y, c);
      assert x + y == y && "" + b[0] == b[0];
    } else {
      SplitConcat(x[1..], y, c);
      assert (x + y)[1..] == x[1..] + y;
      GlueHead(Split(x[1..], c), Split(y, c), x[0]);
    }
  }

  lemma LinesStep(chunks: seq<string>, i: nat, lines: seq<string>, pending: string)
    requires i < |chunks| && lines + [pending] == Split(Concat(chunks[..i]), '\n')
    ensures var parts := Split(chunks[i], '\n');
      Split(Concat(chunks[..i + 1]), '\n') == lines + [pending + parts[0]] + parts[1..]
  {
    hide Split;
    assert chunks[..i + 1][..i] == chunks[..i];
    SplitConcat(Concat(chunks[..i]), chunks[i], '\n');
    assert (lines + [pending])[..|lines|] == lines;
  }

  /** The lines of a text that arrives in chunks, wherever the chunks were cut. */
  method SplitLines(chunks: seq<string>) returns (lines: seq<string>)
    ensures lines == Split(Concat(chunks), '\n')
  {
    hide Split, Concat;
    lines := [];
    var pending := "";
    NoChunks();
    for i := 0 to |chunks|
      invariant lines + [pending] == Split(Concat(chunks[..i]), '\n')
    {
      LinesStep(chunks, i, lines, pending);
      var parts := Split(chunks[i], '\n');
      pending := pending + parts[0];
      ghost var head := lines + [pending];
      for k := 1 to |parts|
        invariant lines + [pending] == head + parts[1..k]
      {
        assert parts[1..k + 1] == parts[1..k] + [parts[k]];
        Associative(head, parts[1..k], [parts[k]]);
        lines := lines + [pending];
        pending := parts[k];
      }
      assert parts[1..|parts|] == parts[1..];
    }
    assert chunks[..|chunks|] == chunks;
    lines := lines + [pending];
  }

  lemma NoChunks()
    ensures [] + [""] == Split(Concat([]), '\n')
  {
  }

  lemma RecordsStep(lines: seq<string>, i: nat)
    requires i < |lines|
    ensures Records(lines[i..]) ==
      (match Scan(lines[i]) case Some(r) => [r] case None => []) + Records(lines[i + 1..])
  {
    hide Scan;
    assert lines[i..][1..] == lines[i + 1..];
  }

  method Parse(chunks: seq<string>) returns (records: seq<Record>)
    ensures records == Read(Concat(chunks))
  {
    hide Records, Scan, Split, Concat;
    var lines := SplitLines(chunks);
    records := [];
    assert lines[0..] == lines;
    for i := 0 to |lines|
      invariant records + Records(lines[i..]) == Records(lines)
    {
      RecordsStep(lines, i);
      var m := Scan(lines[i]);
      if m.Some? {
        Associative(records, [m.value], Records(lines[i + 1..]));
        records := records + [m.value];
      } else {
        assert [] + Records(lines[i + 1..]) == Records(lines[i + 1..]);
      }
    }
    NoRecords(lines[|lines|..]);
  }

  lemma NoRecords(lines: seq<string>)
    requires lines == []
    ensures Records(lines) == []
  {
  }

  /** The samples of a profile built from records; zero counts add none. */
  ghost function SamplesOf(records: seq<Record>): seq<Sample> {
    if records == [] then []
    else
      var last := records[|records| - 1];
      SamplesOf(records[..|records| - 1]) + if last.count > 0 then [Sample(last.stack, last.count as real)] else []
  }

  function SumOf(records: seq<Record>): nat {
    if records == [] then 0 else SumOf(records[..|records| - 1]) + records[|records| - 1].count
  }

  lemma {:induction false} SumIsTotal(records: seq<Record>)
    ensures TotalOf(SamplesOf(records)) == SumOf(records) as real
  {
    if records != [] {
      var before, last := records[..|records| - 1], records[|records| - 1];
      SumIsTotal(before);
      if last.count > 0 {
        var h := SamplesOf(before) + [Sample(last.stack, last.count as real)];
        assert h[..|h| - 1] == SamplesOf(before);
      } else {
        assert SamplesOf(records) == SamplesOf(before);
      }
    }
  }

  /** No profile without records; otherwise one whose samples are the records and whose total
      is the sum of their counts. */
  method ImportFromBGFlameGraph(chunks: seq<string>) returns (profile: StackListProfileBuilder?)
    ensures profile == null <==> Read(Concat(chunks)) == []
    ensures profile != null ==>
      && fresh(profile) && profile.Valid() && profile.history == SamplesOf(Read(Concat(chunks)))
      && profile.totalWeight == SumOf(Read(Concat(chunks))) as real
  {
    hide StackListProfileBuilder.Valid, SamplesOf, TotalOf, SumOf, Read, Concat;
    var records := Parse(chunks);
    NoSamples();
    var sum := 0;
    for i := 0 to |records|
      invariant sum == SumOf(records[..i])
    {
      SamplesStep(records, i);
      sum := sum + records[i].count;
    }
    assert records[..|records|] == records;
    var builder := new StackListProfileBuilder(sum as real);
    if |records| == 0 {
      return null;
    }
    for i := 0 to |records|
      invariant fresh(builder) && builder.Valid() && builder.totalWeight == sum as real && builder.pendingSample == None
      invariant builder.history == SamplesOf(records[..i])
    {
      SamplesStep(records, i);
      var _ := builder.AppendSampleWithWeight(records[i].stack, records[i].count as real);
    }
    SumIsTotal(records);
    builder.Build();
    profile := builder;
  }

  lemma NoSamples()
    ensures SamplesOf([]) == [] && SumOf([]) == 0
  {
  }

  lemma SamplesStep(records: seq<Record>, i: nat)
    requires i < |records|
    ensures SumOf(records[..i + 1]) == SumOf(records[..i]) + records[i].count
    ensures SamplesOf(records[..i + 1]) ==
      SamplesOf(records[..i])
        + if records[i].count > 0 then [Sample(records[i].stack, records[i].count as real)] else []
  {
    assert records[..i + 1][..i] == records[..i];
  }

  // ----- From the report to the weights on screen -----

  /** How often the report saw a name, counting an entry once however often it recurs there. */
  function TimesSeen(report: seq<Entry>, name: string): nat {
    if report == [] then 0
    else
      (if name in Names(report[0].frames) && report[0].count > 0 then report[0].count else 0)
      + TimesSeen(report[1..], name)
  }

  lemma {:induction false} FrameTotalConcat(a: seq<Sample>, b: seq<Sample>, name: string)
    ensures FrameTotal(a + b, name) == FrameTotal(a, name) + FrameTotal(b, name)
  {
    if b == [] {
      assert a + b == a;
    } else {
      FrameTotalConcat(a, b[..|b| - 1], name);
      assert (a + b)[..|a + b| - 1] == a + b[..|b| - 1];
    }
  }

  lemma {:induction false} SamplesConcat(a: seq<Record>, b: seq<Record>)
    ensures SamplesOf(a + b) == SamplesOf(a) + SamplesOf(b)
  {
    hide SamplesOf;
    NoSamples();
    if b == [] {
      assert a + b == a;
    } else {
      var n := |b| - 1;
      SamplesConcat(a, b[..n]);
      SamplesStep(b, n);
      SamplesStep(a + b, |a| + n);
      assert (a + b)[..|a| + n] == a + b[..n] && (a + b)[..|a| + n + 1] == a + b && b[..n + 1] == b;
    }
  }

  /** For a clean report, a name's total in the profile read back from the printed text is the
      number of times the report saw it. */
  lemma {:induction false} WeightsSurvive(report: seq<Entry>, name: string)
    requires CleanReport(report)
    ensures FrameTotal(SamplesOf(Read(Document(report))), name) == TimesSeen(report, name) as real
  {
    RoundTrip(report);
    ExpectedTotal(report, name);
  }

  lemma {:induction false} ExpectedTotal(report: seq<Entry>, name: string)
    ensures FrameTotal(SamplesOf(Expected(report)), name) == TimesSeen(report, name) as real
  {
    if report != [] {
      ExpectedTotal(report[1..], name);
      SamplesConcat(Told(report[0]), Expected(report[1..]));
      FrameTotalConcat(SamplesOf(Told(report[0])), SamplesOf(Expected(report[1..])), name);
      ToldTotal(report[0], name);
    }
  }

  lemma ToldTotal(e: Entry, name: string)
    ensures FrameTotal(SamplesOf(Told(e)), name) ==
      (if name in Names(e.frames) && e.count > 0 then e.count else 0) as real
  {
    hide Names;
    var told := Told(e);
    if told != [] {
      assert told[..0] == [] && SamplesOf(told[..0]) == [];
      var h := SamplesOf(told);
      assert h == if e.count > 0 then [Sample(Names(e.frames), e.count as real)] else [];
      if e.count > 0 {
        assert h[..0] == [];
      }
    }
  }
}
