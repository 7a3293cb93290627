/** What the consumer reads.  It remembers decoded segments in a plain object, so that a segment
    spelled like a property every object inherits is never decoded: the property is taken for
    its list of numbers. */
module SourceMapReading {
  import opened Wrappers
  import opened Vlq
  import opened SourceMapSpec
  import opened SourceMapRoundTrip

  /** A number, or the result of adding something undefined to one. */
  datatype Number = NaN | Num(value: int)

  function Plus(a: Number, b: Number): Number {
    if a.NaN? || b.NaN? then NaN else Num(a.value + b.value)
  }

  /** The `length` of each property that objects inherit; absent for the last. */
  function Inherited(s: string): Option<nat> {
    if s == "constructor" || s == "hasOwnProperty" || s == "isPrototypeOf" || s == "propertyIsEnumerable" then Some(1)
    else if s == "toString" || s == "toLocaleString" || s == "valueOf" then Some(0)
    else if s == "__defineGetter__" || s == "__defineSetter__" then Some(2)
    else if s == "__lookupGetter__" || s == "__lookupSetter__" then Some(1)
    else if s == "__proto__" then Some(0)
    else None
  }

  /** What looking a segment up can give: a list of numbers, or an inherited property. */
  datatype Entry = Values(values: seq<int>) | Property(length: nat)

  function Length(u: Entry): nat {
    match u case Values(v) => |v| case Property(n) => n
  }

  function Item(u: Entry, i: nat): Number {
    if u.Values? && i < |u.values| then Num(u.values[i]) else NaN
  }

  datatype RawOriginal = RawOriginal(source: Number, line: Number, column: Number, name: Option<Number>)

  datatype RawMapping = RawMapping(generatedLine: int, generatedColumn: Number, original: Option<RawOriginal>)

  datatype RawDeltas = RawDeltas(
    line: int, column: Number, source: Number, originalLine: Number, originalColumn: Number, name: Number)

  function RawResolve(d: RawDeltas, u: Entry): RawMapping {
    RawMapping(d.line, Plus(d.column, Item(u, 0)),
               if Length(u) <= 1 then None
               else Some(RawOriginal(Plus(d.source, Item(u, 1)), Plus(Plus(d.originalLine, Item(u, 2)), Num(1)),
                                     Plus(d.originalColumn, Item(u, 3)),
                                     if Length(u) > 4 then Some(Plus(d.name, Item(u, 4))) else None)))
  }

  function RawAdvance(d: RawDeltas, u: Entry): RawDeltas {
    var column := Plus(d.column, Item(u, 0));
    if Length(u) <= 1 then d.(column := column)
    else RawDeltas(d.line, column, Plus(d.source, Item(u, 1)), Plus(d.originalLine, Item(u, 2)),
                   Plus(d.originalColumn, Item(u, 3)), if Length(u) > 4 then Plus(d.name, Item(u, 4)) else d.name)
  }

  /** A segment decodes to one, or at least four, numbers. */
  predicate Good(segment: string) {
    var v := SegmentValues(segment);
    v.Ok? && (|v.value| == 1 || |v.value| >= 4)
  }

  /** What stands for a segment, if it can be read at all. */
  function EntryOf(segment: string): Option<Entry> {
    if Inherited(segment).Some? then Some(Property(Inherited(segment).value))
    else if Good(segment) then Some(Values(SegmentValues(segment).value))
    else None
  }

  function RawNewLine(d: RawDeltas): RawDeltas {
    d.(line := d.line + 1, column := Num(0))
  }

  /** Reading the rest of the text after the values `d`, as the consumer does. */
  function RawFrom(text: string, d: RawDeltas): Result<seq<RawMapping>>
    decreases |text|
  {
    if text == "" then Ok([])
    else if text[0] == ';' then RawFrom(text[1..], RawNewLine(d))
    else if text[0] == ',' then RawFrom(text[1..], d)
    else
      var n := SegmentLength(text);
      var u := EntryOf(text[..n]);
      if u.None? then Error else RawCons(RawResolve(d, u.value), RawFrom(text[n..], RawAdvance(d, u.value)))
  }

  function RawCons(m: RawMapping, tail: Result<seq<RawMapping>>): Result<seq<RawMapping>> {
    if tail.Error? then Error else Ok([m] + tail.value)
  }

  // ----- The same numbers, when they are numbers -----

  function Lift(d: Deltas): RawDeltas {
    RawDeltas(d.line, Num(d.column), Num(d.source), Num(d.originalLine), Num(d.originalColumn), Num(d.name))
  }

  function LiftMapping(m: Mapping): RawMapping {
    RawMapping(m.generatedLine, Num(m.generatedColumn),
               match m.original
               case None => None
               case Some(o) =>
                 Some(RawOriginal(Num(o.source), Num(o.line), Num(o.column),
                                  if o.name.None? then None else Some(Num(o.name.value)))))
  }

  function LiftAll(ms: seq<Mapping>): (r: seq<RawMapping>)
    ensures |r| == |ms| && forall i :: 0 <= i < |ms| ==> r[i] == LiftMapping(ms[i])
  {
    if ms == [] then [] else [LiftMapping(ms[0])] + LiftAll(ms[1..])
  }

  function LiftResult(r: Result<seq<Mapping>>): Result<seq<RawMapping>> {
    if r.Error? then Error else Ok(LiftAll(r.value))
  }

  lemma LiftStep(d: Deltas, v: seq<int>)
    requires |v| == 1 || |v| >= 4
    ensures RawResolve(Lift(d), Values(v)) == LiftMapping(Resolve(d, v))
    ensures RawAdvance(Lift(d), Values(v)) == Lift(Advance(d, Resolve(d, v)))
  {
  }

  // ----- When the consumer reads what the text says -----

  /** The pieces between separators. */
  function Segments(text: string): seq<string>
    decreases |text|
  {
    if text == "" then []
    else if IsSeparator(text[0]) then Segments(text[1..])
    else [text[..SegmentLength(text)]] + Segments(text[SegmentLength(text)..])
  }

  predicate IsInherited(s: string) {
    Inherited(s).Some?
  }

  /** A piece that is looked up in vain and cannot be decoded. */
  ghost predicate Unreadable(text: string) {
    exists s :: s in Segments(text) && !IsInherited(s) && !Good(s)
  }

  ghost predicate HasInherited(text: string) {
    exists s :: s in Segments(text) && IsInherited(s)
  }

  ghost predicate Malformed(text: string) {
    exists s :: s in Segments(text) && !Good(s)
  }

  lemma SegmentsStep(text: string)
    requires text != ""
    ensures IsSeparator(text[0]) ==> Segments(text) == Segments(text[1..])
    ensures !IsSeparator(text[0]) ==>
      var n := SegmentLength(text); n > 0 && Segments(text) == [text[..n]] + Segments(text[n..])
  {
  }

  lemma {:induction false} ParseErrorIff(text: string, d: Deltas)
    ensures ParseFrom(text, d).Error? <==> Malformed(text)
    decreases |text|
  {
    hide SegmentValues, Resolve, Advance, SegmentLength, Segments;
    NoSegments();
    if text != "" {
      SegmentsStep(text);
      if IsSeparator(text[0]) {
        ParseErrorIff(text[1..], if text[0] == ';' then NewLine(d) else d);
      } else {
        var n := SegmentLength(text);
        SegmentHasValue(text[..n]);
        if Good(text[..n]) {
          ParseErrorIff(text[n..], Advance(d, Resolve(d, SegmentValues(text[..n]).value)));
        } else {
          assert text[..n] in Segments(text);
        }
      }
    }
  }

  lemma NoSegments()
    ensures Segments("") == []
  {
  }

  lemma {:induction false} RawErrorIff(text: string, d: RawDeltas)
    ensures RawFrom(text, d).Error? <==> Unreadable(text)
    decreases |text|
  {
    hide Good, Inherited, RawResolve, RawAdvance, SegmentLength, Segments;
    NoSegments();
    if text != "" {
      SegmentsStep(text);
      if IsSeparator(text[0]) {
        RawErrorIff(text[1..], if text[0] == ';' then RawNewLine(d) else d);
      } else {
        var n := SegmentLength(text);
        var u := EntryOf(text[..n]);
        if u.Some? {
          RawErrorIff(text[n..], RawAdvance(d, u.value));
        } else {
          assert text[..n] in Segments(text);
        }
      }
    }
  }

  /** An inherited property has no numbers in it. */
  lemma {:induction false} RawNaN(text: string, d: RawDeltas)
    requires HasInherited(text) && RawFrom(text, d).Ok?
    ensures exists i :: 0 <= i < |RawFrom(text, d).value| && RawFrom(text, d).value[i].generatedColumn == NaN
    decreases |text|
  {
    hide Good, Inherited, RawAdvance, SegmentLength, Segments;
    NoSegments();
    SegmentsStep(text);
    if IsSeparator(text[0]) {
      RawNaN(text[1..], if text[0] == ';' then RawNewLine(d) else d);
    } else {
      var n := SegmentLength(text);
      var u := EntryOf(text[..n]).value;
      var tail := RawFrom(text[n..], RawAdvance(d, u));
      assert RawFrom(text, d).value == [RawResolve(d, u)] + tail.value;
      if IsInherited(text[..n]) {
        assert RawFrom(text, d).value[0].generatedColumn == NaN;
      } else {
        RawNaN(text[n..], RawAdvance(d, u));
        var i :| 0 <= i < |tail.value| && tail.value[i].generatedColumn == NaN;
        assert RawFrom(text, d).value[i + 1] == tail.value[i];
      }
    }
  }

  lemma {:induction false} RawPlain(text: string, d: Deltas)
    requires !HasInherited(text)
    ensures RawFrom(text, Lift(d)) == LiftResult(ParseFrom(text, d))
    decreases |text|
  {
    hide Inherited, Resolve, Advance, RawResolve, RawAdvance, SegmentLength, Segments, SegmentValues;
    if text != "" {
      SegmentsStep(text);
      if IsSeparator(text[0]) {
        RawPlain(text[1..], if text[0] == ';' then NewLine(d) else d);
      } else {
        var n := SegmentLength(text);
        SegmentHasValue(text[..n]);
        assert text[..n] in Segments(text);
        if Good(text[..n]) {
          var v := SegmentValues(text[..n]).value;
          LiftStep(d, v);
          RawPlain(text[n..], Advance(d, Resolve(d, v)));
        }
      }
    }
  }

  /** The consumer reads what the text says exactly when no piece is an inherited name, or some
      other piece makes both give up. */
  lemma {:induction false} ReadsIff(text: string, d: Deltas)
    ensures RawFrom(text, Lift(d)) == LiftResult(ParseFrom(text, d)) <==> !HasInherited(text) || Unreadable(text)
  {
    hide Segments, Inherited, RawFrom, ParseFrom, Good;
    ParseErrorIff(text, d);
    RawErrorIff(text, Lift(d));
    if !HasInherited(text) {
      RawPlain(text, d);
    } else if RawFrom(text, Lift(d)).Ok? {
      RawNaN(text, Lift(d));
    }
  }

  lemma OneSegment(text: string)
    requires text != "" && forall i :: 0 <= i < |text| ==> !IsSeparator(text[i])
    ensures SegmentLength(text) == |text| && text[..|text|] == text && text[|text|..] == ""
  {
    SegmentOf(text, "");
    assert text + "" == text;
  }

  lemma ReadOn(t: string, i: nat, n: int, rest: nat, tail: seq<int>)
    requires i < rest <= |t| && DecodeFrom(t, i, 0, 0) == Ok(Decoded(n, rest))
    requires DecodeUntil(t, rest, |t|) == Ok(Segment(tail, |t|))
    ensures DecodeUntil(t, i, |t|) == Ok(Segment([n] + tail, |t|))
  {
    hide DecodeFrom;
  }

  lemma ReadValueOf()
    ensures SegmentValues("valueOf") == Ok([-423, -15586, 7, -15])
  {
    hide DecodeFrom;
    var t := "valueOf";
    assert Int32.Pow2(0) == 1 && Int32.Pow2(5) == 32 && Int32.Pow2(10) == 1024 by { Powers(); }
    ReadDigit(t, 0, 0, 0, 47, 15);
    ReadDigit(t, 1, 15, 5, 26, 847);
    ReadDigit(t, 2, 0, 0, 37, 5);
    ReadDigit(t, 3, 5, 5, 46, 453);
    ReadDigit(t, 4, 453, 10, 30, 31173);
    ReadDigit(t, 5, 0, 0, 14, 14);
    ReadDigit(t, 6, 0, 0, 31, 31);
    assert FromVlqSigned(847) == -423 && FromVlqSigned(31173) == -15586;
    assert FromVlqSigned(14) == 7 && FromVlqSigned(31) == -15;
    ReadOn(t, 6, -15, 7, []);
    assert [-15] + [] == [-15];
    ReadOn(t, 5, 7, 6, [-15]);
    assert [7] + [-15] == [7, -15];
    ReadOn(t, 2, -15586, 5, [7, -15]);
    assert [-15586] + [7, -15] == [-15586, 7, -15];
    ReadOn(t, 0, -423, 2, [-15586, 7, -15]);
    assert [-423] + [-15586, 7, -15] == [-423, -15586, 7, -15];
  }

  /** A text of one segment on which they differ: four numbers, read as a column that is none. */
  lemma {:induction false} ValueOf()
    ensures ParseFrom("valueOf", START) == Ok([Mapping(1, -423, Some(Original(-15586, 8, -15, None)))])
    ensures RawFrom("valueOf", Lift(START)) == Ok([RawMapping(1, NaN, None)])
  {
    hide SegmentLength, SegmentValues;
    ReadValueOf();
    OneSegment("valueOf");
    var m, raw := Mapping(1, -423, Some(Original(-15586, 8, -15, None))), RawMapping(1, NaN, None);
    assert [m] + [] == [m] && [raw] + [] == [raw];
  }

  lemma ReadConstructor()
    ensures SegmentValues("constructor") == Error
  {
    hide DecodeFrom;
    var t := "constructor";
    Span(t, 0, 0, 0, 0);
    Span(t, 1, 7, 0, 0);
    RunsOut(t, 8, 0, 0);
    assert DecodeUntil(t, 8, 11) == Error;
    assert DecodeUntil(t, 1, 11) == Error;
  }

  /** A text that cannot be decoded and is read without an error. */
  lemma {:induction false} Constructor()
    ensures ParseFrom("constructor", START) == Error
    ensures RawFrom("constructor", Lift(START)) == Ok([RawMapping(1, NaN, None)])
  {
    hide SegmentLength, SegmentValues;
    ReadConstructor();
    OneSegment("constructor");
    var raw := RawMapping(1, NaN, None);
    assert [raw] + [] == [raw];
  }

  /** Every inherited name stands for a column that is no number; the two functions of two parameters
      stand for an original position that is none either. */
  lemma {:induction false} InheritedMeans(s: string, d: RawDeltas)
    ensures s in {"constructor", "hasOwnProperty", "isPrototypeOf", "propertyIsEnumerable", "toString",
                  "toLocaleString", "valueOf", "__proto__", "__lookupGetter__", "__lookupSetter__"} ==>
      EntryOf(s).Some? && RawResolve(d, EntryOf(s).value) == RawMapping(d.line, NaN, None)
    ensures s in {"__defineGetter__", "__defineSetter__"} ==>
      EntryOf(s).Some?
      && RawResolve(d, EntryOf(s).value) == RawMapping(d.line, NaN, Some(RawOriginal(NaN, NaN, NaN, None)))
  {
    hide SegmentValues;
  }

  // ----- What the generator writes is never an inherited name -----

  lemma FirstNumber(v: seq<int>)
    requires v != []
    ensures var t := EncodingAll(v); var n := |Encoding(v[0])|;
      && 0 < n <= 7 && n <= |t| && t[0] == Encoding(v[0])[0] && t[n..] == EncodingAll(v[1..])
      && DecodeFrom(t, 0, 0, 0).Ok? && DecodeFrom(t, 0, 0, 0).value.rest == n
  {
    hide DecodeFrom, Wrap, Encoding, EncodingAll;
    FirstThenRest(v);
    EncodingLength(v[0]);
    DecodeHead(v[0], EncodingAll(v[1..]));
  }

  lemma FirstThenRest(v: seq<int>)
    requires v != []
    ensures EncodingAll(v) == Encoding(v[0]) + EncodingAll(v[1..])
  {
    hide Encoding;
  }

  lemma DecodeHead(n: int, rest: string)
    ensures var t := Encoding(n) + rest;
      DecodeFrom(t, 0, 0, 0) == Ok(Decoded(Wrap(n), |Encoding(n)|)) && t[|Encoding(n)|..] == rest
  {
    hide DecodeFrom, Wrap, Encoding;
    DecodeOne("", n, rest);
    assert "" + Encoding(n) == Encoding(n);
  }

  lemma EncodingLength(n: int)
    ensures 0 < |Encoding(n)| <= 7
  {
    SevenDigits(Int32.ToUint32(ToVlqSigned(n)));
  }

  /** All but two of the names begin with an odd digit, or none. */
  lemma EvenNames(s: string)
    requires IsInherited(s) && s != "" && DecodeDigit(s[0]) % 2 == 0
    ensures s == "constructor" || s == "isPrototypeOf"
  {
  }

  /** The second number of "isPrototypeOf" would have eight digits. */
  lemma TooLong(v: seq<int>)
    ensures EncodingAll(v) != "isPrototypeOf"
  {
    hide Encoding, DecodeFrom;
    if v != [] && |v| > 1 {
      FirstNumber(v);
      FirstNumber(v[1..]);
      Span("isPrototypeOf", 0, 2, 0, 0);
      assert "isPrototypeOf"[3..] == "rototypeOf";
      Span("rototypeOf", 0, 7, 0, 0);
    } else if v != [] {
      FirstNumber(v);
    }
  }

  lemma {:induction false} NotInherited(v: seq<int>)
    requires v != [] && v[0] >= 0
    ensures !IsInherited(EncodingAll(v))
  {
    hide Encoding, DecodeFrom, EncodingAll, Inherited, DecodeUntil;
    var s := EncodingAll(v);
    FirstNumber(v);
    FirstDigitSign(v[0]);
    ListDecode("", v, "");
    assert "" + s + "" == s;
    ReadConstructor();
    TooLong(v);
    if IsInherited(s) {
      EvenNames(s);
    }
  }

  lemma SegmentsHead(segment: string, rest: string)
    requires segment != "" && forall i :: 0 <= i < |segment| ==> !IsSeparator(segment[i])
    requires rest == "" || IsSeparator(rest[0])
    ensures Segments(segment + rest) == [segment] + Segments(rest)
  {
    hide Segments;
    var text := segment + rest;
    SegmentOf(segment, rest);
    SegmentsStep(text);
    assert text[..|segment|] == segment && text[|segment|..] == rest;
  }

  lemma {:induction false} SegmentsLines(n: nat, rest: string)
    ensures Segments(Lines(n) + rest) == Segments(rest)
  {
    if n == 0 {
      assert Lines(n) + rest == rest;
    } else {
      SegmentsLines(n - 1, rest);
      assert (Lines(n) + rest)[1..] == Lines(n - 1) + rest;
    }
  }

  lemma SegmentsComma(rest: string)
    ensures Segments("," + rest) == Segments(rest) && "" + rest == rest
  {
    assert ("," + rest)[1..] == rest;
  }

  /** Behind a mapping, everything later in order still lies ahead. */
  lemma StillAhead(d: Deltas, m: Mapping, rest: seq<Mapping>)
    requires InOrder([m] + rest) && d.line == m.generatedLine
    ensures Ahead(Advance(d, m), rest) && InOrder(rest)
  {
    var ms := [m] + rest;
    forall i | 0 <= i < |rest| ensures ms[i + 1] == rest[i] && NotAfter(m, rest[i]) {
      assert NotAfter(ms[0], ms[i + 1]);
    }
    forall i, j | 0 <= i < j < |rest| ensures NotAfter(rest[i], rest[j]) {
      assert NotAfter(ms[i + 1], ms[j + 1]);
    }
  }

  /** No piece written for mappings in order is an inherited name. */
  lemma {:induction false} WrittenPlain(prev: Option<Mapping>, ms: seq<Mapping>, d: Deltas)
    requires InOrder(ms) && Ahead(d, ms)
    ensures !HasInherited(SerializeFrom(prev, ms, d))
    decreases |ms|, 1
  {
    hide Written, Segments, Inherited, InOrder, Advance;
    if ms == [] {
      NoSegments();
      return;
    }
    var m, rest := ms[0], ms[1..];
    assert ms == [m] + rest;
    HeadInOrder(m, rest);
    if m.generatedLine > d.line {
      var d' := d.(line := m.generatedLine, column := 0);
      OnePlain(m, rest, d');
      SegmentsLines(m.generatedLine - d.line, Written(m, rest, d'));
    } else if prev == Some(m) {
      WrittenPlain(prev, rest, d);
    } else {
      OnePlain(m, rest, d);
      SegmentsComma(Written(m, rest, d));
    }
  }

  lemma HeadInOrder(m: Mapping, rest: seq<Mapping>)
    requires InOrder([m] + rest)
    ensures m.generatedColumn >= 0 && InOrder(rest)
  {
    StillAhead(START.(line := m.generatedLine), m, rest);
    assert ([m] + rest)[0] == m;
  }

  lemma {:induction false} OnePlain(m: Mapping, rest: seq<Mapping>, d: Deltas)
    requires InOrder([m] + rest) && d.line == m.generatedLine && d.column <= m.generatedColumn
    ensures !HasInherited(Written(m, rest, d))
    decreases |rest| + 1, 0
  {
    hide SerializeFrom, EncodingAll, Segments, Inherited, InOrder, Advance;
    var d' := Advance(d, m);
    var v := Fields(d, m);
    StillAhead(d, m, rest);
    WrittenPlain(Some(m), rest, d');
    SeparatorFollows(m, rest, d');
    EncodingNoSeparator(v);
    NonemptySegment(v);
    NotInherited(v);
    SegmentsHead(EncodingAll(v), SerializeFrom(Some(m), rest, d'));
  }

  /** Whatever mappings in order are written, the consumer reads them back, less immediate
      repetitions, exactly when every number written lies strictly between -2^30 and 2^30. */
  lemma {:induction false} RoundTripIff(ms: seq<Mapping>)
    requires InOrder(ms)
    ensures RawFrom(SerializeFrom(None, ms, START), Lift(START)) == Ok(LiftAll(Dedup(None, ms)))
       <==> Fits(None, ms, START)
  {
    hide RawFrom, SerializeFrom, ParseFrom, Dedup, Fits, Segments, LiftMapping;
    var text := SerializeFrom(None, ms, START);
    WrittenPlain(None, ms, START);
    ReadsIff(text, START);
    ParseSerializedIff(None, ms, START);
    if ParseFrom(text, START).Ok? {
      LiftInjective(ParseFrom(text, START).value, Dedup(None, ms));
    }
  }

  lemma LiftInjective(a: seq<Mapping>, b: seq<Mapping>)
    ensures LiftAll(a) == LiftAll(b) <==> a == b
  {
    if LiftAll(a) == LiftAll(b) {
      forall i | 0 <= i < |a| ensures a[i] == b[i] {
        assert LiftAll(a)[i] == LiftMapping(a[i]) && LiftAll(b)[i] == LiftMapping(b[i]);
      }
    }
  }

  /** Columns, lines and indices below 2^30 always come back. */
  lemma {:induction false} RoundTrip(ms: seq<Mapping>)
    requires InOrder(ms) && forall i :: 0 <= i < |ms| ==> MappingOk(ms[i])
    ensures RawFrom(SerializeFrom(None, ms, START), Lift(START)) == Ok(LiftAll(Dedup(None, ms)))
  {
    hide RawFrom, SerializeFrom, Dedup, Fits;
    SmallFits(None, ms, START);
    RoundTripIff(ms);
  }
}

/** The consumer's own loops. */
module SourceMaps {
  import opened Wrappers
  import opened Text
  import opened Int32
  import opened Vlq
  import opened SourceMapSpec
  import opened SourceMapRoundTrip
  import opened SourceMapReading

  /** Reading within a segment never looks past it: the decoder stops at a separator. */
  lemma {:induction false} DecodeLocal(pre: string, segment: string, post: string, i: nat, s: int, shift: nat)
    requires post == "" || IsSeparator(post[0])
    requires i <= |segment|
    ensures var inside := DecodeFrom(segment, i, s, shift);
      DecodeFrom(pre + segment + post, |pre| + i, s, shift)
      == if inside.Error? then Error else Ok(Decoded(inside.value.value, |pre| + inside.value.rest))
    decreases |segment| - i
  {
    hide ShiftLeft, FromVlqSigned;
    var text := pre + segment + post;
    if i < |segment| {
      assert text[|pre| + i] == segment[i];
      DecodeLocal(pre, segment, post, i + 1, s + ShiftLeft(DecodeDigit(segment[i]) % 32, shift), shift + 5);
    } else if post != "" {
      assert text[|pre| + i] == post[0];
    }
  }

  lemma {:induction false} DecodeUntilLocal(pre: string, segment: string, post: string, i: nat)
    requires post == "" || IsSeparator(post[0])
    requires i <= |segment|
    ensures var inside := DecodeUntil(segment, i, |segment|);
      DecodeUntil(pre + segment + post, |pre| + i, |pre| + |segment|)
      == if inside.Error? then Error else Ok(Segment(inside.value.values, |pre| + |segment|))
    decreases |segment| - i
  {
    hide DecodeFrom;
    if i < |segment| {
      DecodeLocal(pre, segment, post, i, 0, 0);
      var r := DecodeFrom(segment, i, 0, 0);
      if r.Ok? {
        DecodeAdvances(segment, i, 0, 0);
        DecodeUntilLocal(pre, segment, post, r.value.rest);
      }
    }
  }

  method FindSegmentEnd(text: string, start: nat) returns (end: nat)
    requires start <= |text|
    ensures end == start + SegmentLength(text[start..])
  {
    end := start;
    while end < |text| && !IsSeparator(text[end])
      invariant start <= end <= |text|
      invariant end + SegmentLength(text[end..]) == start + SegmentLength(text[start..])
    {
      assert text[end..][1..] == text[end + 1..];
      end := end + 1;
    }
  }

  /** Every remembered segment is remembered with its own values, and none is inherited. */
  ghost predicate CacheOk(cache: map<string, seq<int>>) {
    forall s | s in cache :: EntryOf(s) == Some(Values(cache[s]))
  }

  /** A property of the cache object: its own before an inherited one. */
  function Lookup(cache: map<string, seq<int>>, s: string): Option<Entry> {
    if s in cache then Some(Values(cache[s]))
    else if Inherited(s).Some? then Some(Property(Inherited(s).value))
    else None
  }

  /** What stands for the segment text[start..end], decoded once per distinct segment. */
  method SegmentAt(text: string, start: nat, end: nat, cache: map<string, seq<int>>)
    returns (r: Option<Entry>, cursor: nat, cache': map<string, seq<int>>)
    requires CacheOk(cache) && start <= |text| && start < end == start + SegmentLength(text[start..])
    ensures CacheOk(cache')
    ensures r == EntryOf(text[start..end])
    ensures r.Some? ==> cursor == end
  {
    hide DecodeUntil, Inherited;
    var segment := text[start..end];
    ghost var pre, post := text[..start], text[end..];
    assert text == pre + segment + post;
    assert text[start..][end - start..] == post;
    DecodeUntilLocal(pre, segment, post, 0);
    SegmentHasValue(segment);
    var u := Lookup(cache, segment);
    if u.Some? {
      return u, start + |segment|, cache;
    }
    var d := DecodeSegment(text, start, end);
    if d.Error? || |d.value.values| == 2 || |d.value.values| == 3 {
      return None, start, cache;
    }
    r, cursor, cache' := Some(Values(d.value.values)), d.value.cursor, cache[segment := d.value.values];
  }

  method ParseMappings(text: string) returns (r: Result<seq<RawMapping>>)
    ensures r == RawFrom(text, Lift(START))
  {
    hide SegmentLength, EntryOf, RawResolve, RawAdvance, CacheOk;
    var cursor: nat := 0;
    var d := Lift(START);
    var cache: map<string, seq<int>> := map[];
    var out: seq<RawMapping> := [];
    EmptyCache();
    assert text[0..] == text;
    assert forall t: seq<RawMapping> :: [] + t == t;
    while cursor < |text|
      invariant cursor <= |text| && CacheOk(cache)
      invariant RawFrom(text, Lift(START)) == Prepend(out, RawFrom(text[cursor..], d))
      decreases |text| - cursor
    {
      var c := text[cursor];
      assert text[cursor..][0] == c && text[cursor..][1..] == text[cursor + 1..];
      if c == ';' {
        cursor, d := cursor + 1, RawNewLine(d);
      } else if c == ',' {
        cursor := cursor + 1;
      } else {
        var end := FindSegmentEnd(text, cursor);
        ReadAt(text, cursor, end, d);
        var u;
        u, cursor, cache := SegmentAt(text, cursor, end, cache);
        if u.None? {
          return Error;
        }
        var m := RawResolve(d, u.value);
        PrependPush(out, m, RawFrom(text[end..], RawAdvance(d, u.value)));
        d := RawAdvance(d, u.value);
        out := out + [m];
      }
    }
    assert out + [] == out;
    r := Ok(out);
  }

  ghost function Prepend(out: seq<RawMapping>, tail: Result<seq<RawMapping>>): Result<seq<RawMapping>> {
    if tail.Error? then Error else Ok(out + tail.value)
  }

  lemma PrependPush(out: seq<RawMapping>, m: RawMapping, tail: Result<seq<RawMapping>>)
    ensures Prepend(out, RawCons(m, tail)) == Prepend(out + [m], tail)
  {
    if tail.Ok? {
      assert out + ([m] + tail.value) == out + [m] + tail.value;
    }
  }

  lemma EmptyCache()
    ensures CacheOk(map[])
  {
  }

  lemma ReadAt(text: string, cursor: nat, end: nat, d: RawDeltas)
    requires cursor < |text| && !IsSeparator(text[cursor]) && end == cursor + SegmentLength(text[cursor..])
    ensures cursor < end <= |text|
    ensures var u := EntryOf(text[cursor..end]);
      RawFrom(text[cursor..], d)
      == if u.None? then Error else RawCons(RawResolve(d, u.value), RawFrom(text[end..], RawAdvance(d, u.value)))
  {
    hide EntryOf, RawResolve, RawAdvance, RawCons;
    var rest := text[cursor..];
    assert rest[..end - cursor] == text[cursor..end] && rest[end - cursor..] == text[end..];
  }
}
