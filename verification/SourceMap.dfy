/** The `mappings` text of a source map: lists of mappings written as differences. */
module SourceMapSpec {
  import opened Wrappers
  import opened Vlq

  datatype Original = Original(source: int, line: int, column: int, name: Option<int>)

  datatype Mapping = Mapping(generatedLine: int, generatedColumn: int, original: Option<Original>)

  /** The last values written or read; `originalLine` counts from zero. */
  datatype Deltas = Deltas(
    line: int, column: int, source: int, originalLine: int, originalColumn: int, name: int)

  const START := Deltas(1, 0, 0, 0, 0, 0)

  /** The numbers of a segment: everything relative to the previous values. */
  function Fields(d: Deltas, m: Mapping): (v: seq<int>)
    ensures |v| in {1, 4, 5}
  {
    [m.generatedColumn - d.column] +
    match m.original
    case None => []
    case Some(o) =>
      [o.source - d.source, o.line - 1 - d.originalLine, o.column - d.originalColumn] +
      if o.name.None? then [] else [o.name.value - d.name]
  }

  function Advance(d: Deltas, m: Mapping): Deltas {
    match m.original
    case None => d.(column := m.generatedColumn)
    case Some(o) =>
      Deltas(d.line, m.generatedColumn, o.source, o.line - 1, o.column, if o.name.None? then d.name else o.name.value)
  }

  /** The mapping a segment stands for. */
  function Resolve(d: Deltas, v: seq<int>): Mapping
    requires |v| == 1 || |v| >= 4
  {
    Mapping(d.line, d.column + v[0],
            if |v| == 1 then None
            else Some(Original(d.source + v[1], d.originalLine + v[2] + 1, d.originalColumn + v[3],
                               if |v| > 4 then Some(d.name + v[4]) else None)))
  }

  lemma ResolveFields(d: Deltas, m: Mapping)
    requires m.generatedLine == d.line
    ensures Resolve(d, Fields(d, m)) == m
  {
  }

  predicate IsSeparator(c: char) {
    c == ';' || c == ','
  }

  function SegmentLength(text: string): (n: nat)
    ensures n <= |text| && (n < |text| ==> IsSeparator(text[n]))
    ensures forall i :: 0 <= i < n ==> !IsSeparator(text[i])
  {
    if text == "" || IsSeparator(text[0]) then 0 else 1 + SegmentLength(text[1..])
  }

  /** What a segment of its own decodes to. */
  function SegmentValues(segment: string): Result<seq<int>> {
    var r := DecodeUntil(segment, 0, |segment|);
    if r.Error? then Error else Ok(r.value.values)
  }

  function NewLine(d: Deltas): Deltas {
    d.(line := d.line + 1, column := 0)
  }

  /** Reading the rest of the text after the values `d`. */
  function ParseFrom(text: string, d: Deltas): Result<seq<Mapping>>
    decreases |text|
  {
    if text == "" then Ok([])
    else if text[0] == ';' then ParseFrom(text[1..], NewLine(d))
    else if text[0] == ',' then ParseFrom(text[1..], d)
    else
      var n := SegmentLength(text);
      var v := SegmentValues(text[..n]);
      SegmentHasValue(text[..n]);
      if v.Error? || |v.value| == 2 || |v.value| == 3 then Error
      else
        var m := Resolve(d, v.value);
        var tail := ParseFrom(text[n..], Advance(d, m));
        if tail.Error? then Error else Ok([m] + tail.value)
  }

  lemma SegmentHasValue(segment: string)
    ensures segment != "" && SegmentValues(segment).Ok? ==> |SegmentValues(segment).value| > 0
  {
  }

  function Lines(n: nat): string {
    if n == 0 then "" else ";" + Lines(n - 1)
  }

  /** Writing the mappings `ms` after `prev`, of which `d` holds the values. */
  function SerializeFrom(prev: Option<Mapping>, ms: seq<Mapping>, d: Deltas): string
    decreases |ms|, 1
  {
    if ms == [] then ""
    else
      var m := ms[0];
      if m.generatedLine > d.line then
        Lines(m.generatedLine - d.line) + Written(m, ms[1..], d.(line := m.generatedLine, column := 0))
      else if prev == Some(m) then SerializeFrom(prev, ms[1..], d)
      else (if prev.Some? then "," else "") + Written(m, ms[1..], d)
  }

  function Written(m: Mapping, rest: seq<Mapping>, d: Deltas): string
    decreases |rest| + 1, 0
  {
    EncodingAll(Fields(d, m)) + SerializeFrom(Some(m), rest, Advance(d, m))
  }

  /** The mappings without immediate repetitions. */
  function Dedup(prev: Option<Mapping>, ms: seq<Mapping>): seq<Mapping>
    decreases |ms|
  {
    if ms == [] then []
    else if prev == Some(ms[0]) then Dedup(prev, ms[1..])
    else [ms[0]] + Dedup(Some(ms[0]), ms[1..])
  }

  /** Mappings by generated line and column, as the mapping list hands them out. */
  predicate InOrder(ms: seq<Mapping>) {
    && (forall i :: 0 <= i < |ms| ==> ms[i].generatedLine >= 1 && ms[i].generatedColumn >= 0)
    && (forall i, j :: 0 <= i < j < |ms| ==> NotAfter(ms[i], ms[j]))
  }

  predicate NotAfter(a: Mapping, b: Mapping) {
    || a.generatedLine < b.generatedLine
    || (a.generatedLine == b.generatedLine && a.generatedColumn <= b.generatedColumn)
  }

  /** Everything still to be written lies at or behind the position of `d`. */
  predicate Ahead(d: Deltas, ms: seq<Mapping>) {
    forall i :: 0 <= i < |ms| ==>
      d.line < ms[i].generatedLine || (d.line == ms[i].generatedLine && d.column <= ms[i].generatedColumn)
  }

  /** Every number that is written lies strictly between -2^30 and 2^30. */
  ghost predicate Fits(prev: Option<Mapping>, ms: seq<Mapping>, d: Deltas)
    decreases |ms|
  {
    ms == [] ||
    var m := ms[0];
    if m.generatedLine > d.line then
      var d' := d.(line := m.generatedLine, column := 0);
      InRange(Fields(d', m)) && Fits(Some(m), ms[1..], Advance(d', m))
    else if prev == Some(m) then Fits(prev, ms[1..], d)
    else InRange(Fields(d, m)) && Fits(Some(m), ms[1..], Advance(d, m))
  }
}

/** What the differences add up to. */
module SourceMapMeaning {
  import opened Wrappers
  import opened SourceMapSpec

  /** The numbers of one segment, and the generated line that it is on. */
  datatype Piece = Piece(line: int, values: seq<int>)

  /** The segments in order: a semicolon begins the next line, a comma nothing. */
  function Pieces(text: string, line: int): seq<Piece>
    decreases |text|
  {
    if text == "" then []
    else if text[0] == ';' then Pieces(text[1..], line + 1)
    else if text[0] == ',' then Pieces(text[1..], line)
    else
      var n := SegmentLength(text);
      var v := SegmentValues(text[..n]);
      [Piece(line, if v.Ok? then v.value else [])] + Pieces(text[n..], line)
  }

  function Nth(values: seq<int>, i: nat): int {
    if i < |values| then values[i] else 0
  }

  /** The sum of the i-th numbers of the first k pieces. */
  function Sum(ps: seq<Piece>, i: nat, k: nat): int
    requires k <= |ps|
  {
    if k == 0 then 0 else Sum(ps, i, k - 1) + Nth(ps[k - 1].values, i)
  }

  /** The same over those on one line only. */
  function SumOnLine(ps: seq<Piece>, line: int, k: nat): int
    requires k <= |ps|
  {
    if k == 0 then 0
    else SumOnLine(ps, line, k - 1) + if ps[k - 1].line == line then Nth(ps[k - 1].values, 0) else 0
  }

  /** The mapping that the k-th piece stands for, after the values `d`: its column adds up along its
      line, everything else along the whole text. */
  ghost predicate Means(m: Mapping, ps: seq<Piece>, d: Deltas, k: nat)
    requires k < |ps|
  {
    var v := ps[k].values;
    && m.generatedLine == ps[k].line
    && m.generatedColumn == (if ps[k].line == d.line then d.column else 0) + SumOnLine(ps, ps[k].line, k + 1)
    && (m.original.Some? <==> |v| >= 4)
    && (m.original.Some? ==>
         var o := m.original.value;
         && o.source == d.source + Sum(ps, 1, k + 1)
         && o.line == d.originalLine + 1 + Sum(ps, 2, k + 1)
         && o.column == d.originalColumn + Sum(ps, 3, k + 1)
         && (o.name.Some? <==> |v| > 4)
         && (o.name.Some? ==> o.name.value == d.name + Sum(ps, 4, k + 1)))
  }

  lemma {:induction false} SumCons(p: Piece, ps: seq<Piece>, i: nat, line: int, k: nat)
    requires k <= |ps|
    ensures Sum([p] + ps, i, k + 1) == Nth(p.values, i) + Sum(ps, i, k)
    ensures SumOnLine([p] + ps, line, k + 1)
      == (if p.line == line then Nth(p.values, 0) else 0) + SumOnLine(ps, line, k)
  {
    if k > 0 {
      SumCons(p, ps, i, line, k - 1);
    } else {
      assert Sum([p] + ps, i, 0) == 0 && SumOnLine([p] + ps, line, 0) == 0;
    }
  }

  lemma {:induction false} PiecesOnward(text: string, line: int, k: nat)
    requires k < |Pieces(text, line)|
    ensures Pieces(text, line)[k].line >= line
    decreases |text|
  {
    if text[0] == ';' {
      PiecesOnward(text[1..], line + 1, k);
    } else if text[0] == ',' {
      PiecesOnward(text[1..], line, k);
    } else if k > 0 {
      PiecesOnward(text[SegmentLength(text)..], line, k - 1);
    }
  }

  /** The sums go on from one piece to the next. */
  lemma {:induction false} MeansCons(m: Mapping, p: Piece, ps: seq<Piece>, d: Deltas, k: nat)
    requires k < |ps| && p.line == d.line && (|p.values| == 1 || |p.values| >= 4) && ps[k].line >= d.line
    requires Means(m, ps, Advance(d, Resolve(d, p.values)), k)
    ensures Means(m, [p] + ps, d, k + 1)
  {
    assert ([p] + ps)[k + 1] == ps[k];
    SumCons(p, ps, 1, ps[k].line, k + 1);
    SumCons(p, ps, 2, ps[k].line, k + 1);
    SumCons(p, ps, 3, ps[k].line, k + 1);
    SumCons(p, ps, 4, ps[k].line, k + 1);
  }

  lemma {:induction false} MeansFirst(p: Piece, ps: seq<Piece>, d: Deltas)
    requires p.line == d.line && (|p.values| == 1 || |p.values| >= 4)
    ensures Means(Resolve(d, p.values), [p] + ps, d, 0)
  {
    SumCons(p, ps, 1, p.line, 0);
    SumCons(p, ps, 2, p.line, 0);
    SumCons(p, ps, 3, p.line, 0);
    SumCons(p, ps, 4, p.line, 0);
  }

  /** A mapping of a later line means the same whatever the column reached on this one. */
  lemma MeansNextLine(m: Mapping, ps: seq<Piece>, d: Deltas, k: nat)
    requires k < |ps| && ps[k].line > d.line && Means(m, ps, NewLine(d), k)
    ensures Means(m, ps, d, k)
  {
  }

  /** Every text that can be read: its mappings are the running sums of its segments' numbers, the
      generated column along the line and the rest along the text. */
  lemma {:induction false} ReadsSums(text: string, d: Deltas, k: nat)
    requires ParseFrom(text, d).Ok? && k < |ParseFrom(text, d).value|
    ensures var ms, ps := ParseFrom(text, d).value, Pieces(text, d.line);
      |ms| == |ps| && Means(ms[k], ps, d, k)
    decreases |text|
  {
    hide SegmentValues, SegmentLength, Means, Resolve, Advance;
    if text[0] == ';' {
      ReadsSums(text[1..], NewLine(d), k);
      PiecesOnward(text[1..], d.line + 1, k);
      MeansNextLine(ParseFrom(text, d).value[k], Pieces(text, d.line), d, k);
    } else if text[0] == ',' {
      ReadsSums(text[1..], d, k);
    } else {
      var n := SegmentLength(text);
      var v := SegmentValues(text[..n]).value;
      SegmentHasValue(text[..n]);
      var d' := Advance(d, Resolve(d, v));
      assert d'.line == d.line by { AdvanceStays(d, v); }
      var rest := Pieces(text[n..], d.line);
      var tail := ParseFrom(text[n..], d').value;
      PiecesCount(text[n..], d');
      if k == 0 {
        MeansFirst(Piece(d.line, v), rest, d);
      } else {
        ReadsSums(text[n..], d', k - 1);
        PiecesOnward(text[n..], d.line, k - 1);
        MeansCons(tail[k - 1], Piece(d.line, v), rest, d, k - 1);
      }
    }
  }

  lemma AdvanceStays(d: Deltas, v: seq<int>)
    requires |v| == 1 || |v| >= 4
    ensures Advance(d, Resolve(d, v)).line == d.line
  {
  }

  lemma {:induction false} PiecesCount(text: string, d: Deltas)
    requires ParseFrom(text, d).Ok?
    ensures |ParseFrom(text, d).value| == |Pieces(text, d.line)|
    decreases |text|
  {
    hide SegmentValues, SegmentLength, Resolve, Advance;
    if text != "" {
      if text[0] == ';' {
        PiecesCount(text[1..], NewLine(d));
      } else if text[0] == ',' {
        PiecesCount(text[1..], d);
      } else {
        var n := SegmentLength(text);
        var v := SegmentValues(text[..n]).value;
        SegmentHasValue(text[..n]);
        AdvanceStays(d, v);
        PiecesCount(text[n..], Advance(d, Resolve(d, v)));
      }
    }
  }
}

module SourceMapRoundTrip {
  import opened Wrappers
  import opened Text
  import opened Vlq
  import opened SourceMapSpec

  lemma {:induction false} DigitsNoSeparator(u: nat)
    ensures forall i :: 0 <= i < |Digits(u)| ==> !IsSeparator(Digits(u)[i])
  {
    DigitNoSeparator(if u < 32 then u else u % 32 + 32);
    if u >= 32 {
      DigitsNoSeparator(u / 32);
    }
  }

  lemma DigitNoSeparator(d: nat)
    requires d < 64
    ensures !IsSeparator(EncodeDigit(d))
  {
    DigitRoundTrip(d);
    hide EncodeDigit;
  }

  lemma {:induction false} EncodingNoSeparator(xs: seq<int>)
    ensures forall i :: 0 <= i < |EncodingAll(xs)| ==> !IsSeparator(EncodingAll(xs)[i])
    decreases |xs|
  {
    hide Digits;
    if xs != [] {
      DigitsNoSeparator(Int32.ToUint32(ToVlqSigned(xs[0])));
      EncodingNoSeparator(xs[1..]);
    }
  }

  lemma {:induction false} SegmentOf(segment: string, rest: string)
    requires forall i :: 0 <= i < |segment| ==> !IsSeparator(segment[i])
    requires rest == "" || IsSeparator(rest[0])
    ensures SegmentLength(segment + rest) == |segment|
  {
    if segment != "" {
      assert (segment + rest)[1..] == segment[1..] + rest;
      SegmentOf(segment[1..], rest);
    } else {
      assert segment + rest == rest;
    }
  }

  lemma {:induction false} NoSeparators(s: string, c: char)
    requires IsSeparator(c) && forall i :: 0 <= i < |s| ==> !IsSeparator(s[i])
    ensures Count(s, c) == 0
  {
    CountZero(s, c);
  }

  lemma {:induction false} LinesCount(n: nat)
    ensures Count(Lines(n), ';') == n && Count(Lines(n), ',') == 0
  {
    if n > 0 {
      LinesCount(n - 1);
      assert (";" + Lines(n - 1))[1..] == Lines(n - 1);
    }
  }

  /** How many of the mappings follow another one on their line. */
  function Followers(prev: Option<Mapping>, ms: seq<Mapping>): nat
    decreases |ms|
  {
    if ms == [] then 0
    else
      (if prev.Some? && prev.value.generatedLine == ms[0].generatedLine then 1 else 0) + Followers(Some(ms[0]), ms[1..])
  }

  /** What is written has no separator to spare: a semicolon for every line begun, and a comma for
      every mapping that follows another on its line, repetitions left out. */
  lemma {:induction false} SeparatorsWritten(prev: Option<Mapping>, ms: seq<Mapping>, d: Deltas)
    requires forall i :: 0 <= i < |ms| ==> ms[i].generatedLine >= d.line
    requires forall i, j :: 0 <= i < j < |ms| ==> ms[i].generatedLine <= ms[j].generatedLine
    requires prev.Some? ==> prev.value.generatedLine == d.line
    ensures var t := SerializeFrom(prev, ms, d);
      && Count(t, ';') == (if ms == [] then 0 else ms[|ms| - 1].generatedLine - d.line)
      && Count(t, ',') == Followers(prev, Dedup(prev, ms))
    decreases |ms|, 0
  {
    hide EncodingAll, Fields, Advance, Written, Count, Lines;
    if ms == [] {
      assert Count("", ';') == 0 && Count("", ',') == 0 by { NoSeparators("", ';'); NoSeparators("", ','); }
    } else {
      var m, rest := ms[0], ms[1..];
      if m.generatedLine > d.line {
        var d' := d.(line := m.generatedLine, column := 0);
        SeparatorsAfter(m, rest, d');
        LinesCount(m.generatedLine - d.line);
        CountConcat(Lines(m.generatedLine - d.line), Written(m, rest, d'), ';');
        CountConcat(Lines(m.generatedLine - d.line), Written(m, rest, d'), ',');
      } else if prev == Some(m) {
        SeparatorsWritten(prev, rest, d);
      } else {
        SeparatorsAfter(m, rest, d);
        CountConcat(if prev.Some? then "," else "", Written(m, rest, d), ';');
        CountConcat(if prev.Some? then "," else "", Written(m, rest, d), ',');
        OneComma();
      }
      DedupHead(prev, m, rest);
      assert ms == [m] + rest;
    }
  }

  lemma OneComma()
    ensures Count(",", ',') == 1 && Count(",", ';') == 0 && Count("", ',') == 0 && Count("", ';') == 0
  {
  }

  lemma DedupHead(prev: Option<Mapping>, m: Mapping, rest: seq<Mapping>)
    ensures prev == Some(m) ==> Dedup(prev, [m] + rest) == Dedup(prev, rest)
    ensures prev != Some(m) ==>
      Followers(prev, Dedup(prev, [m] + rest))
      == (if prev.Some? && prev.value.generatedLine == m.generatedLine then 1 else 0)
         + Followers(Some(m), Dedup(Some(m), rest))
  {
    assert ([m] + rest)[1..] == rest;
    var more := [m] + Dedup(Some(m), rest);
    assert more[1..] == Dedup(Some(m), rest);
  }

  lemma {:induction false} SeparatorsAfter(m: Mapping, rest: seq<Mapping>, d: Deltas)
    requires m.generatedLine == d.line && forall i :: 0 <= i < |rest| ==> rest[i].generatedLine >= d.line
    requires forall i, j :: 0 <= i < j < |rest| ==> rest[i].generatedLine <= rest[j].generatedLine
    ensures var t := Written(m, rest, d);
      && Count(t, ';') == (if rest == [] then 0 else rest[|rest| - 1].generatedLine - d.line)
      && Count(t, ',') == Followers(Some(m), Dedup(Some(m), rest))
    decreases |rest|, 1
  {
    hide EncodingAll, Fields;
    var segment := EncodingAll(Fields(d, m));
    var after := SerializeFrom(Some(m), rest, Advance(d, m));
    EncodingNoSeparator(Fields(d, m));
    NoSeparators(segment, ';');
    NoSeparators(segment, ',');
    CountConcat(segment, after, ';');
    CountConcat(segment, after, ',');
    SeparatorsWritten(Some(m), rest, Advance(d, m));
  }

  /** Behind the first mapping, what follows is nothing or starts with a separator. */
  lemma {:induction false} SeparatorFollows(prev: Mapping, ms: seq<Mapping>, d: Deltas)
    ensures var t := SerializeFrom(Some(prev), ms, d); t == "" || IsSeparator(t[0])
    decreases |ms|
  {
    hide Written;
    if ms != [] && ms[0].generatedLine <= d.line && ms[0] == prev {
      SeparatorFollows(prev, ms[1..], d);
    }
  }

  lemma {:induction false} ParseLines(n: nat, rest: string, d: Deltas)
    ensures ParseFrom(Lines(n) + rest, d)
            == ParseFrom(rest, if n == 0 then d else d.(line := d.line + n, column := 0))
    decreases n
  {
    if n > 0 {
      assert (Lines(n) + rest)[1..] == Lines(n - 1) + rest;
      ParseLines(n - 1, rest, NewLine(d));
    } else {
      assert Lines(n) + rest == rest;
    }
  }

  lemma ParseStep(segment: string, rest: string, d: Deltas, v: seq<int>)
    requires segment != "" && (|v| == 1 || |v| >= 4)
    requires !IsSeparator(segment[0]) && SegmentLength(segment + rest) == |segment|
    requires SegmentValues(segment) == Ok(v)
    ensures var m := Resolve(d, v); var tail := ParseFrom(rest, Advance(d, m));
      ParseFrom(segment + rest, d) == if tail.Error? then Error else Ok([m] + tail.value)
  {
    hide SegmentLength, SegmentValues, Advance, Resolve;
    var text := segment + rest;
    assert text[..|segment|] == segment && text[|segment|..] == rest;
    assert text[0] == segment[0];
  }

  /** One segment and what follows it: each number comes back as the codec returns it. */
  lemma ParseSegment(m: Mapping, rest: string, d: Deltas)
    requires rest == "" || IsSeparator(rest[0])
    ensures var back := Resolve(d, WrapAll(Fields(d, m)));
      var tail := ParseFrom(rest, Advance(d, back));
      ParseFrom(EncodingAll(Fields(d, m)) + rest, d) == if tail.Error? then Error else Ok([back] + tail.value)
  {
    hide EncodingAll, Fields, SegmentLength, Advance, Resolve, ParseFrom, DecodeUntil, WrapAll;
    var v := Fields(d, m);
    var segment := EncodingAll(v);
    EncodingNoSeparator(v);
    SegmentOf(segment, rest);
    ListDecode("", v, "");
    assert "" + segment + "" == segment;
    NonemptySegment(v);
    ParseStep(segment, rest, d, WrapAll(v));
  }

  lemma ResolveInjective(d: Deltas, v: seq<int>, w: seq<int>)
    requires |v| == |w| && |v| in {1, 4, 5} && Resolve(d, v) == Resolve(d, w)
    ensures v == w
  {
  }

  /** A mapping comes back as itself exactly when all its numbers are in range. */
  lemma BackIff(d: Deltas, m: Mapping)
    requires m.generatedLine == d.line
    ensures Resolve(d, WrapAll(Fields(d, m))) == m <==> InRange(Fields(d, m))
  {
    hide Fields, WrapAll, Resolve;
    var v := Fields(d, m);
    WrapAllIff(v);
    ResolveFields(d, m);
    if Resolve(d, WrapAll(v)) == m {
      ResolveInjective(d, WrapAll(v), v);
    }
  }

  lemma NonemptySegment(v: seq<int>)
    requires v != []
    ensures EncodingAll(v) != ""
  {
    EncodingNonempty(v[0]);
  }

  lemma ParseComma(text: string, d: Deltas)
    ensures ParseFrom("," + text, d) == ParseFrom(text, d) && "" + text == text
  {
    assert ("," + text)[1..] == text;
  }

  /** Parsing a serialised list gives the list back, less immediate repetitions, exactly when
      every number written fits. */
  lemma {:induction false} ParseSerializedIff(prev: Option<Mapping>, ms: seq<Mapping>, d: Deltas)
    requires forall i :: 0 <= i < |ms| ==> d.line <= ms[i].generatedLine
    requires forall i, j :: 0 <= i < j < |ms| ==> ms[i].generatedLine <= ms[j].generatedLine
    requires prev.Some? ==> prev.value.generatedLine == d.line
    ensures ParseFrom(SerializeFrom(prev, ms, d), d) == Ok(Dedup(prev, ms)) <==> Fits(prev, ms, d)
    decreases |ms|, 1
  {
    hide Written, SegmentLength, SegmentValues, Resolve, Advance, Fields;
    if ms == [] {
      return;
    }
    var m, rest := ms[0], ms[1..];
    if m.generatedLine > d.line {
      var d' := d.(line := m.generatedLine, column := 0);
      ParseWrittenIff(m, rest, d');
      ParseLines(m.generatedLine - d.line, Written(m, rest, d'), d);
    } else if prev == Some(m) {
      ParseSerializedIff(prev, rest, d);
    } else {
      ParseWrittenIff(m, rest, d);
      ParseComma(Written(m, rest, d), d);
    }
  }

  lemma {:induction false} ParseWrittenIff(m: Mapping, rest: seq<Mapping>, d: Deltas)
    requires m.generatedLine == d.line
    requires forall i :: 0 <= i < |rest| ==> d.line <= rest[i].generatedLine
    requires forall i, j :: 0 <= i < j < |rest| ==> rest[i].generatedLine <= rest[j].generatedLine
    ensures ParseFrom(Written(m, rest, d), d) == Ok([m] + Dedup(Some(m), rest))
       <==> InRange(Fields(d, m)) && Fits(Some(m), rest, Advance(d, m))
    decreases |rest| + 1, 0
  {
    hide ParseFrom, SerializeFrom, EncodingAll, Fields, Advance, Resolve, WrapAll, Fits, InRange, Dedup;
    var d' := Advance(d, m);
    AdvanceLine(d, m);
    SeparatorFollows(m, rest, d');
    ParseSegment(m, SerializeFrom(Some(m), rest, d'), d);
    BackIff(d, m);
    ParseSerializedIff(Some(m), rest, d');
    var back := Resolve(d, WrapAll(Fields(d, m)));
    var tail := ParseFrom(SerializeFrom(Some(m), rest, d'), Advance(d, back));
    if tail.Ok? {
      ConsEqual(back, tail.value, m, Dedup(Some(m), rest));
    }
  }

  lemma ConsEqual<T>(a: T, s: seq<T>, b: T, t: seq<T>)
    ensures [a] + s == [b] + t <==> a == b && s == t
  {
    if [a] + s == [b] + t {
      assert ([a] + s)[0] == a && ([b] + t)[0] == b;
      assert ([a] + s)[1..] == s && ([b] + t)[1..] == t;
    }
  }

  lemma AdvanceLine(d: Deltas, m: Mapping)
    ensures Advance(d, m).line == d.line
  {
  }

  // ----- Values that always fit -----

  predicate Small(x: int) {
    0 <= x < 0x4000_0000
  }

  predicate MappingOk(m: Mapping) {
    && m.generatedLine >= 1 && Small(m.generatedColumn)
    && (m.original.Some? ==>
          var o := m.original.value;
          Small(o.source) && Small(o.line - 1) && Small(o.column) && (o.name.Some? ==> Small(o.name.value)))
  }

  predicate DeltasOk(d: Deltas) {
    Small(d.column) && Small(d.source) && Small(d.originalLine) && Small(d.originalColumn) && Small(d.name)
  }

  lemma MappingFits(d: Deltas, m: Mapping)
    requires DeltasOk(d) && MappingOk(m)
    ensures InRange(Fields(d, m)) && DeltasOk(Advance(d, m))
    ensures DeltasOk(d.(line := m.generatedLine, column := 0))
  {
  }

  /** Columns, lines and indices below 2^30 always fit. */
  lemma {:induction false} SmallFits(prev: Option<Mapping>, ms: seq<Mapping>, d: Deltas)
    requires DeltasOk(d) && forall i :: 0 <= i < |ms| ==> MappingOk(ms[i])
    ensures Fits(prev, ms, d)
    decreases |ms|
  {
    hide Fields, Advance, MappingOk, DeltasOk, InRange;
    if ms != [] {
      var m, rest := ms[0], ms[1..];
      MappingFits(d, m);
      if m.generatedLine > d.line {
        var d' := d.(line := m.generatedLine, column := 0);
        MappingFits(d', m);
        SmallFits(Some(m), rest, Advance(d', m));
      } else {
        SmallFits(prev, rest, d);
        SmallFits(Some(m), rest, Advance(d, m));
      }
    }
  }
}

/** The generator's writer. */
module SourceMapWriter {
  import opened Wrappers
  import opened Text
  import opened Int32
  import opened Vlq
  import opened SourceMapSpec
  import opened SourceMapRoundTrip

  function Prev(ms: seq<Mapping>, i: nat): Option<Mapping>
    requires i <= |ms|
  {
    if i == 0 then None else Some(ms[i - 1])
  }

  method SerializeMappings(ms: seq<Mapping>) returns (text: string)
    requires InOrder(ms)
    ensures text == SerializeFrom(None, ms, START)
  {
    hide EncodingAll, Fields, Advance, SerializeFrom, Lines, InOrder;
    text := "";
    var d := START;
    SortedFrom(ms, 0);
    assert ms[0..] == ms;
    ConcatEmpty(SerializeFrom(None, ms, d));
    for i := 0 to |ms|
      invariant forall j :: i <= j < |ms| ==> d.line <= ms[j].generatedLine
      invariant text + SerializeFrom(Prev(ms, i), ms[i..], d) == SerializeFrom(None, ms, START)
    {
      var m, out := ms[i], "";
      ghost var rest, d0 := ms[i + 1..], d;
      assert ms[i..] == [m] + rest;
      SerializeStep(Prev(ms, i), m, rest, d);
      SortedFrom(ms, i);
      if m.generatedLine != d.line {
        out := WriteLines(m.generatedLine - d.line);
        d := d.(line := m.generatedLine, column := 0);
      } else if i > 0 {
        if m == ms[i - 1] {
          continue;
        }
        out := ",";
      }
      var fields := EncodeFields(d, m);
      AdvanceLine(d, m);
      d := Advance(d, m);
      Associative(text, out + fields, SerializeFrom(Some(m), rest, d));
      text := text + (out + fields);
    }
    assert ms[|ms|..] == [];
    SerializeNothing(Prev(ms, |ms|), d);
    ConcatEmpty(text);
  }

  lemma ConcatEmpty(a: string)
    ensures a + "" == a && "" + a == a
  {
  }

  lemma SortedFrom(ms: seq<Mapping>, i: nat)
    requires InOrder(ms)
    ensures forall j :: i <= j < |ms| ==> 1 <= ms[i].generatedLine <= ms[j].generatedLine
  {
  }

  lemma SerializeNothing(prev: Option<Mapping>, d: Deltas)
    ensures SerializeFrom(prev, [], d) == ""
  {
  }

  lemma SerializeStep(prev: Option<Mapping>, m: Mapping, rest: seq<Mapping>, d: Deltas)
    ensures var newLine := m.generatedLine > d.line;
      var d1 := if newLine then d.(line := m.generatedLine, column := 0) else d;
      var sep := if newLine then Lines(m.generatedLine - d.line) else if prev.Some? then "," else "";
      SerializeFrom(prev, [m] + rest, d)
      == if !newLine && prev == Some(m) then SerializeFrom(prev, rest, d)
         else sep + EncodingAll(Fields(d1, m)) + SerializeFrom(Some(m), rest, Advance(d1, m))
  {
    assert ([m] + rest)[1..] == rest;
  }

  method WriteLines(n: nat) returns (out: string)
    ensures out == Lines(n)
  {
    out := "";
    var left := n;
    while left > 0
      invariant out + Lines(left) == Lines(n)
    {
      assert out + (";" + Lines(left - 1)) == out + ";" + Lines(left - 1);
      out := out + ";";
      left := left - 1;
    }
  }

  method EncodeFields(d: Deltas, m: Mapping) returns (out: string)
    ensures out == EncodingAll(Fields(d, m))
  {
    var v := Fields(d, m);
    out := "";
    for i := 0 to |v|
      invariant out + EncodingAll(v[i..]) == EncodingAll(v)
    {
      var e := Encode(v[i]);
      assert v[i..][1..] == v[i + 1..];
      assert out + (e + EncodingAll(v[i + 1..])) == out + e + EncodingAll(v[i + 1..]);
      out := out + e;
    }
    assert v[|v|..] == [];
  }
}
