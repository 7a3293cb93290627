/** What a fuzzy match is: an embedding of the pattern into the text, its runs and its score. */
module FuzzySpec {

  datatype CharClass = NonWord | Lower | Upper | Number

  function ClassOf(c: char): CharClass {
    if 'a' <= c <= 'z' then Lower
    else if 'A' <= c <= 'Z' then Upper
    else if '0' <= c <= '9' then Number
    else NonWord
  }

  /** A lower-case pattern letter also accepts its capital; any other character only itself. */
  predicate Accepts(t: char, p: char) {
    t == p || ('a' <= p <= 'z' && t as int == p as int - 'a' as int + 'A' as int)
  }

  ghost predicate Increasing(pos: seq<nat>) {
    forall i, j :: 0 <= i < j < |pos| ==> pos[i] < pos[j]
  }

  /** `pos` places the first |pos| characters of the pattern, in order, within text[lo..hi]. */
  ghost predicate Places(text: string, pat: string, pos: seq<nat>, lo: nat, hi: nat) {
    && |pos| <= |pat| && hi <= |text| && Increasing(pos)
    && (forall i :: 0 <= i < |pos| ==> lo <= pos[i] < hi && Accepts(text[pos[i]], pat[i]))
  }

  ghost predicate Embeds(text: string, pat: string, pos: seq<nat>) {
    |pos| == |pat| && Places(text, pat, pos, 0, |text|)
  }

  /** The positions a left-to-right greedy scan of text[lo..hi] consumes. */
  function Greedy(text: string, pat: string, lo: nat, hi: nat): (pos: seq<nat>)
    requires hi <= |text|
    ensures |pos| <= |pat|
  {
    if hi <= lo then []
    else
      var before := Greedy(text, pat, lo, hi - 1);
      if |before| < |pat| && Accepts(text[hi - 1], pat[|before|]) then before + [hi - 1] else before
  }

  lemma {:induction false} GreedyPlaces(text: string, pat: string, lo: nat, hi: nat)
    requires hi <= |text|
    ensures Places(text, pat, Greedy(text, pat, lo, hi), lo, hi)
  {
    hide Places;
    if hi > lo {
      GreedyPlaces(text, pat, lo, hi - 1);
      PlacesOneMore(text, pat, Greedy(text, pat, lo, hi - 1), lo, hi);
    } else {
      NothingPlaced(text, pat, lo, hi);
    }
  }

  lemma NothingPlaced(text: string, pat: string, lo: nat, hi: nat)
    requires hi <= |text|
    ensures Places(text, pat, [], lo, hi) && PlacesEnd(text, pat, [], lo, hi)
  {
  }

  lemma PlacesOneMore(text: string, pat: string, pos: seq<nat>, lo: nat, hi: nat)
    requires lo < hi <= |text| && Places(text, pat, pos, lo, hi - 1)
    ensures Places(text, pat, pos, lo, hi)
    ensures |pos| < |pat| && Accepts(text[hi - 1], pat[|pos|]) ==> Places(text, pat, pos + [hi - 1], lo, hi)
  {
    hide Accepts;
  }

  /** The greedy scan gets at least as far as any other placement, and no later at any character. */
  lemma {:induction false} GreedyEarliest(text: string, pat: string, pos: seq<nat>, lo: nat, hi: nat)
    requires Places(text, pat, pos, lo, hi)
    ensures |pos| <= |Greedy(text, pat, lo, hi)|
    ensures forall i :: 0 <= i < |pos| ==> Greedy(text, pat, lo, hi)[i] <= pos[i]
    decreases hi
  {
    hide Accepts;
    if pos != [] {
      var last := pos[|pos| - 1];
      if last < hi - 1 {
        assert Places(text, pat, pos, lo, hi - 1);
        GreedyEarliest(text, pat, pos, lo, hi - 1);
      } else {
        assert Places(text, pat, pos[..|pos| - 1], lo, hi - 1);
        GreedyEarliest(text, pat, pos[..|pos| - 1], lo, hi - 1);
        GreedyPlaces(text, pat, lo, hi);
      }
    }
  }

  lemma {:induction false} GreedyPrefix(text: string, pat: string, lo: nat, mid: nat, hi: nat)
    requires mid <= hi <= |text|
    ensures Greedy(text, pat, lo, mid) <= Greedy(text, pat, lo, hi)
    decreases hi
  {
    if mid < hi && lo < hi {
      GreedyPrefix(text, pat, lo, mid, hi - 1);
    }
  }

  /** `pos` places the last |pos| characters of the pattern, in order, within text[lo..hi]. */
  ghost predicate PlacesEnd(text: string, pat: string, pos: seq<nat>, lo: nat, hi: nat) {
    && |pos| <= |pat| && hi <= |text| && Increasing(pos)
    && (forall i :: 0 <= i < |pos| ==> lo <= pos[i] < hi && Accepts(text[pos[i]], pat[|pat| - |pos| + i]))
  }

  /** The positions a right-to-left greedy scan of text[lo..hi] consumes. */
  function GreedyBack(text: string, pat: string, lo: nat, hi: nat): (pos: seq<nat>)
    requires hi <= |text|
    ensures |pos| <= |pat|
    decreases hi - lo
  {
    if hi <= lo then []
    else
      var after := GreedyBack(text, pat, lo + 1, hi);
      if |after| < |pat| && Accepts(text[lo], pat[|pat| - 1 - |after|]) then [lo] + after else after
  }

  lemma {:induction false} GreedyBackPlaces(text: string, pat: string, lo: nat, hi: nat)
    requires hi <= |text|
    ensures PlacesEnd(text, pat, GreedyBack(text, pat, lo, hi), lo, hi)
    decreases hi - lo
  {
    hide PlacesEnd;
    if hi > lo {
      GreedyBackPlaces(text, pat, lo + 1, hi);
      PlacesOneBefore(text, pat, GreedyBack(text, pat, lo + 1, hi), lo, hi);
    } else {
      NothingPlaced(text, pat, lo, hi);
    }
  }

  lemma PlacesOneBefore(text: string, pat: string, pos: seq<nat>, lo: nat, hi: nat)
    requires lo < hi <= |text| && PlacesEnd(text, pat, pos, lo + 1, hi)
    ensures PlacesEnd(text, pat, pos, lo, hi)
    ensures |pos| < |pat| && Accepts(text[lo], pat[|pat| - 1 - |pos|]) ==> PlacesEnd(text, pat, [lo] + pos, lo, hi)
  {
    hide Accepts;
    if |pos| < |pat| && Accepts(text[lo], pat[|pat| - 1 - |pos|]) {
      var more := [lo] + pos;
      forall i | 0 <= i < |more| ensures lo <= more[i] < hi && Accepts(text[more[i]], pat[|pat| - |more| + i]) {
        if i > 0 {
          assert more[i] == pos[i - 1];
          assert |pat| - |more| + i == |pat| - |pos| + (i - 1);
        }
      }
    }
  }

  lemma {:induction false} GreedyBackLatest(text: string, pat: string, pos: seq<nat>, lo: nat, hi: nat)
    requires PlacesEnd(text, pat, pos, lo, hi)
    ensures |pos| <= |GreedyBack(text, pat, lo, hi)|
    decreases hi - lo
  {
    if pos != [] {
      if pos[0] > lo {
        assert PlacesEnd(text, pat, pos, lo + 1, hi);
        GreedyBackLatest(text, pat, pos, lo + 1, hi);
      } else {
        assert PlacesEnd(text, pat, pos[1..], lo + 1, hi);
        GreedyBackLatest(text, pat, pos[1..], lo + 1, hi);
      }
    }
  }

  datatype Range = Range(lo: nat, hi: nat)

  /** Nonempty half-open ranges in order, with a gap between any two. */
  ghost predicate Separated(ranges: seq<Range>) {
    && (forall i :: 0 <= i < |ranges| ==> ranges[i].lo < ranges[i].hi)
    && (forall i, j :: 0 <= i < j < |ranges| ==> ranges[i].hi < ranges[j].lo)
  }

  function Interval(lo: nat, hi: nat): seq<nat> {
    if hi <= lo then [] else Interval(lo, hi - 1) + [hi - 1]
  }

  /** All positions covered by the ranges, in order. */
  ghost function Covered(ranges: seq<Range>): seq<nat> {
    if ranges == [] then []
    else
      var last := ranges[|ranges| - 1];
      Covered(ranges[..|ranges| - 1]) + Interval(last.lo, last.hi)
  }

  const MATCH := 16
  const GAP_START := 3
  const GAP_EXTEND := 1
  const BOUNDARY := 8
  const NON_WORD := 8
  const CAMEL := 7
  const CONSECUTIVE := 4

  /** The bonus of matching a character of class `cur` right after one of class `prev`. */
  function ClassBonus(prev: CharClass, cur: CharClass): nat {
    if prev == NonWord && cur != NonWord then BOUNDARY
    else if (prev == Lower && cur == Upper) || (prev != Number && cur == Number) then CAMEL
    else if cur == NonWord then NON_WORD
    else 0
  }

  function BonusAt(text: string, i: nat): nat
    requires i < |text|
  {
    ClassBonus(if i == 0 then NonWord else ClassOf(text[i - 1]), ClassOf(text[i]))
  }

  function Max(a: int, b: int): int {
    if a < b then b else a
  }

  /** Skipping n characters costs 3 for the first and 1 for each further one. */
  function GapCost(n: nat): nat {
    if n == 0 then 0 else GAP_START + n - 1
  }

  predicate Adjacent(pos: seq<nat>)
    requires pos != []
  {
    |pos| > 1 && pos[|pos| - 2] + 1 == pos[|pos| - 1]
  }

  ghost predicate InText(text: string, pos: seq<nat>) {
    Increasing(pos) && forall i :: 0 <= i < |pos| ==> pos[i] < |text|
  }

  /** The bonus the current run of adjacent matches carries along. */
  ghost function RunBonus(text: string, pos: seq<nat>): int
    requires InText(text, pos) && pos != []
  {
    var own := BonusAt(text, pos[|pos| - 1]);
    if !Adjacent(pos) || own == BOUNDARY then own else RunBonus(text, pos[..|pos| - 1])
  }

  /** The score of an embedding, from its positions alone: every match is worth 16 and a
      bonus, twice that bonus at the first; the gaps between matches cost. */
  ghost function Score(text: string, pos: seq<nat>): int
    requires InText(text, pos)
  {
    if pos == [] then 0
    else
      var init, last := pos[..|pos| - 1], pos[|pos| - 1];
      var own := BonusAt(text, last);
      var bonus := if Adjacent(pos) then Max(Max(own, RunBonus(text, pos)), CONSECUTIVE) else own;
      var gap := if init == [] then 0 else last - init[|init| - 1] - 1;
      Score(text, init) - GapCost(gap) + MATCH + if init == [] then 2 * bonus else bonus
  }
}

/** What the case rule, the bonuses and the score come to. */
module FuzzyLaws {
  import opened FuzzySpec

  predicate Capital(c: char) {
    'A' <= c <= 'Z'
  }

  /** Letter by letter: capitals become small, everything else stays. */
  function Small(c: char): char {
    if Capital(c) then (c as int + 32) as char else c
  }

  function LowerCase(s: string): (r: string)
    ensures |r| == |s| && forall i :: 0 <= i < |s| ==> r[i] == Small(s[i])
  {
    if s == "" then "" else [Small(s[0])] + LowerCase(s[1..])
  }

  /** For a pattern without capitals the case of the text makes no difference to any embedding. */
  lemma {:induction false} CaseRelaxed(text: string, pat: string, q: seq<nat>)
    requires forall i :: 0 <= i < |pat| ==> !Capital(pat[i])
    ensures Embeds(text, pat, q) <==> Embeds(LowerCase(text), pat, q)
  {
    hide Accepts, LowerCase;
    var lower := LowerCase(text);
    forall t, p | !Capital(p) ensures Accepts(t, p) <==> Accepts(Small(t), p) {
      AcceptsSmall(t, p);
    }
    if |q| == |pat| && forall i :: 0 <= i < |q| ==> q[i] < |text| {
      forall i | 0 <= i < |q| ensures Accepts(text[q[i]], pat[i]) <==> Accepts(lower[q[i]], pat[i]) {
      }
    }
  }

  lemma AcceptsSmall(t: char, p: char)
    requires !Capital(p)
    ensures Accepts(t, p) <==> Accepts(Small(t), p)
  {
  }

  /** So whether such a pattern matches does not depend on the case of the text, and every pattern
      of small letters matches its own capitals. */
  lemma {:induction false} CaseOfTextIrrelevant(text: string, other: string, pat: string)
    requires LowerCase(text) == LowerCase(other) && forall i :: 0 <= i < |pat| ==> !Capital(pat[i])
    ensures (exists q :: Embeds(text, pat, q)) <==> (exists q :: Embeds(other, pat, q))
  {
    hide Embeds, LowerCase;
    if q :| Embeds(text, pat, q) {
      CaseRelaxed(text, pat, q);
      CaseRelaxed(other, pat, q);
    }
    if q :| Embeds(other, pat, q) {
      CaseRelaxed(text, pat, q);
      CaseRelaxed(other, pat, q);
    }
  }

  /** A pattern character that is not a small letter falls on itself, a small letter on itself or
      its capital. */
  lemma PlacedOn(text: string, pat: string, q: seq<nat>, i: nat)
    requires Embeds(text, pat, q) && i < |pat|
    ensures !('a' <= pat[i] <= 'z') ==> text[q[i]] == pat[i]
    ensures Small(text[q[i]]) == Small(pat[i])
  {
  }

  // ----- Bonuses -----

  predicate Letter(c: char) {
    'a' <= c <= 'z' || Capital(c)
  }

  predicate Digit(c: char) {
    '0' <= c <= '9'
  }

  predicate Word(c: char) {
    Letter(c) || Digit(c)
  }

  /** A word that begins is worth 8, as is anything else than a word character; a hump or the start
      of a number inside a word 7; inside a word nothing. */
  lemma BonusOf(text: string, i: nat)
    requires i < |text|
    ensures BonusAt(text, i) ==
      if !Word(text[i]) || i == 0 || !Word(text[i - 1]) then 8
      else if Digit(text[i]) && !Digit(text[i - 1]) then 7
      else if Capital(text[i]) && 'a' <= text[i - 1] <= 'z' then 7
      else 0
  {
  }

  // ----- The score -----

  /** The i-th match follows its predecessor directly. */
  predicate Joined(pos: seq<nat>, i: nat)
    requires i < |pos|
  {
    i > 0 && pos[i - 1] + 1 == pos[i]
  }

  /** The first match of the run that `i` belongs to, or a later one at the start of a word. */
  ghost predicate Anchors(text: string, pos: seq<nat>, k: nat, i: nat)
    requires InText(text, pos) && k <= i < |pos|
  {
    && (forall j :: k < j <= i ==> Joined(pos, j) && BonusAt(text, pos[j]) != 8)
    && (!Joined(pos, k) || BonusAt(text, pos[k]) == 8)
  }

  /** The carried bonus is that of the last such match. */
  lemma {:induction false} CarriedFrom(text: string, pos: seq<nat>, k: nat)
    requires InText(text, pos) && k < |pos| && Anchors(text, pos, k, |pos| - 1)
    ensures RunBonus(text, pos) == BonusAt(text, pos[k])
  {
    hide BonusAt;
    if k < |pos| - 1 {
      var init := pos[..|pos| - 1];
      assert Joined(pos, |pos| - 1);
      forall j | k < j <= |init| - 1 ensures Joined(init, j) && BonusAt(text, init[j]) != 8 {
        assert Joined(pos, j);
      }
      assert Joined(init, k) == Joined(pos, k);
      CarriedFrom(text, init, k);
    }
  }

  /** What the i-th match adds beyond its 16. */
  ghost function BonusOfMatch(text: string, pos: seq<nat>, i: nat): int
    requires InText(text, pos) && i < |pos|
  {
    var own := BonusAt(text, pos[i]);
    if Joined(pos, i) then Max(Max(own, RunBonus(text, pos[..i + 1])), 4) else own
  }

  /** Behind another match it is the largest of its own bonus, the carried one and 4. */
  lemma BonusIs(text: string, pos: seq<nat>, i: nat)
    requires InText(text, pos) && i < |pos| && InText(text, pos[..i + 1])
    ensures var own, carried, b := BonusAt(text, pos[i]), RunBonus(text, pos[..i + 1]), BonusOfMatch(text, pos, i);
      if i > 0 && pos[i] - pos[i - 1] == 1
      then b >= own && b >= carried && b >= 4 && (b == own || b == carried || b == 4)
      else b == own
  {
    hide RunBonus, BonusAt;
  }

  ghost function BonusSum(text: string, pos: seq<nat>, n: nat): int
    requires InText(text, pos) && n <= |pos|
  {
    if n == 0 then 0 else BonusSum(text, pos, n - 1) + BonusOfMatch(text, pos, n - 1)
  }

  /** The number of gaps between matches. */
  ghost function Gaps(pos: seq<nat>, n: nat): nat
    requires n <= |pos|
  {
    if n <= 1 then 0 else Gaps(pos, n - 1) + if Joined(pos, n - 1) then 0 else 1
  }

  lemma {:induction false} BonusSumPrefix(text: string, pos: seq<nat>, n: nat, k: nat)
    requires InText(text, pos) && k <= n <= |pos|
    ensures InText(text, pos[..n]) && BonusSum(text, pos[..n], k) == BonusSum(text, pos, k)
    ensures Gaps(pos[..n], k) == Gaps(pos, k)
  {
    hide RunBonus, BonusAt;
    if k > 0 {
      BonusSumPrefix(text, pos, n, k - 1);
      assert pos[..n][..k] == pos[..k];
    }
  }

  /** The score of an embedding in closed form: 16 a match, its bonuses with the first counted
      twice, less one for every character skipped between matches and two more for every gap. */
  lemma {:induction false} ScoreIs(text: string, pos: seq<nat>)
    requires InText(text, pos) && pos != []
    ensures Score(text, pos) ==
      16 * |pos| + BonusSum(text, pos, |pos|) + BonusAt(text, pos[0])
      - (pos[|pos| - 1] + 1 - pos[0] - |pos|) - 2 * Gaps(pos, |pos|)
  {
    hide RunBonus, BonusAt;
    var n := |pos| - 1;
    assert pos[..|pos|] == pos;
    if n > 0 {
      ScoreIs(text, pos[..n]);
      BonusSumPrefix(text, pos, n, n);
      assert Joined(pos, n) == Adjacent(pos);
    }
  }
}

/** The matcher: a forward scan for the earliest end, a backward scan for the latest
    start before it, and a scoring pass over that window. */
module FuzzyMatcher {
  import opened FuzzySpec

  datatype Outcome =
    | NoMatch
    | Match(matchedRanges: seq<Range>, score: int)
    | ImplementationError

  /** No embedding ends earlier, and none with the same end starts later. */
  ghost predicate TightestWindow(text: string, pat: string, pos: seq<nat>)
    requires Embeds(text, pat, pos) && pat != []
  {
    forall q | Embeds(text, pat, q) ::
      && pos[|pos| - 1] <= q[|q| - 1]
      && (pos[|pos| - 1] == q[|q| - 1] ==> q[0] <= pos[0])
  }

  ghost predicate Describes(text: string, pat: string, r: Outcome, pos: seq<nat>)
    requires r.Match? && Embeds(text, pat, pos) && pat != []
  {
    && Separated(r.matchedRanges)
    && Covered(r.matchedRanges) == pos
    && r.score == Score(text, pos)
    && TightestWindow(text, pat, pos)
  }

  method CalculateScore(text: string, pat: string, sidx: nat, eidx: nat) returns (r: Outcome, ghost pos: seq<nat>)
    requires pat != [] && sidx < eidx <= |text|
    requires |Greedy(text, pat, sidx, eidx)| == |pat| && |Greedy(text, pat, sidx, eidx - 1)| < |pat|
    requires Accepts(text[sidx], pat[0])
    ensures pos == Greedy(text, pat, sidx, eidx)
    ensures r.Match? && Separated(r.matchedRanges) && Covered(r.matchedRanges) == pos
    ensures InText(text, pos) && r.score == Score(text, pos)
  {
    hide InText, Score, Separated, Covered, Greedy;
    var positions, score := ScanWindow(text, pat, sidx, eidx);
    pos := positions;
    if |positions| != |pat| {
      return ImplementationError, pos;
    }
    var ranges := RangesOf(positions);
    r := Match(ranges, score);
  }

  /** The scorer's running variables. */
  datatype Scan = Scan(score: int, inGap: bool, consecutive: nat, firstBonus: int)

  function OnMatch(scan: Scan, first: bool, own: nat): Scan {
    var carried := if scan.consecutive == 0 || own == BOUNDARY then own else scan.firstBonus;
    var bonus := if scan.consecutive == 0 then own else Max(Max(own, carried), CONSECUTIVE);
    Scan(scan.score + MATCH + (if first then 2 * bonus else bonus), false, scan.consecutive + 1, carried)
  }

  function OnSkip(scan: Scan): Scan {
    Scan(scan.score - (if scan.inGap then GAP_EXTEND else GAP_START), true, 0, 0)
  }

  /** The scoring loop: where the pattern falls in the window and what that is worth. */
  method ScanWindow(text: string, pat: string, sidx: nat, eidx: nat) returns (positions: seq<nat>, score: int)
    requires pat != [] && sidx < eidx <= |text|
    requires |Greedy(text, pat, sidx, eidx)| == |pat| && |Greedy(text, pat, sidx, eidx - 1)| < |pat|
    requires Accepts(text[sidx], pat[0])
    ensures positions == Greedy(text, pat, sidx, eidx) && Increasing(positions)
    ensures InText(text, positions) && score == Score(text, positions)
  {
    hide Greedy, ScanState, InText, Score, BonusAt, OnMatch, OnSkip, Accepts, ClassBonus, ClassOf, Increasing;
    positions := [];
    var scan := Scan(0, false, 0, 0);
    var prevClass := if sidx > 0 then ClassOf(text[sidx - 1]) else NonWord;
    ScanStart(text, pat, sidx);
    for h := sidx to eidx
      invariant prevClass == if h == 0 then NonWord else ClassOf(text[h - 1])
      invariant positions == Greedy(text, pat, sidx, h)
      invariant ScanState(text, sidx, h, positions, scan)
    {
      WindowStep(text, pat, sidx, h, eidx);
      var cls := ClassOf(text[h]);
      if Accepts(text[h], pat[|positions|]) {
        ScanMatch(text, sidx, h, positions, scan);
        scan := OnMatch(scan, |positions| == 0, ClassBonus(prevClass, cls));
        positions := positions + [h];
      } else {
        ScanSkip(text, sidx, h, positions, scan);
        scan := OnSkip(scan);
      }
      prevClass := cls;
    }
    score := scan.score;
    ScanEnd(text, pat, sidx, eidx, positions, scan);
  }

  /** The scorer's variables after scanning text[lo..h] with the matches `pos`. */
  ghost predicate ScanState(text: string, lo: nat, h: nat, pos: seq<nat>, scan: Scan) {
    && lo <= h <= |text| && InText(text, pos)
    && (h == lo ==> pos == [] && scan.score == 0 && !scan.inGap && scan.consecutive == 0)
    && (h > lo ==>
          && pos != [] && pos[0] == lo && pos[|pos| - 1] < h
          && var skipped := h - 1 - pos[|pos| - 1];
          && scan.score == Score(text, pos) - GapCost(skipped)
          && scan.inGap == (skipped > 0)
          && (scan.consecutive > 0 <==> skipped == 0)
          && (scan.consecutive > 0 ==> scan.firstBonus == RunBonus(text, pos)))
  }

  /** Inside the window the scan has characters of the pattern left to place. */
  lemma WindowStep(text: string, pat: string, lo: nat, h: nat, hi: nat)
    requires lo <= h < hi <= |text| && |Greedy(text, pat, lo, hi - 1)| < |pat|
    ensures var before := Greedy(text, pat, lo, h);
      && |before| < |pat|
      && (h == lo ==> before == [])
      && Greedy(text, pat, lo, h + 1) == (if Accepts(text[h], pat[|before|]) then before + [h] else before)
      && BonusAt(text, h) == ClassBonus(if h == 0 then NonWord else ClassOf(text[h - 1]), ClassOf(text[h]))
  {
    GreedyPrefix(text, pat, lo, h, hi - 1);
  }

  lemma ScanStart(text: string, pat: string, lo: nat)
    requires lo <= |text|
    ensures Greedy(text, pat, lo, lo) == []
    ensures ScanState(text, lo, lo, [], Scan(0, false, 0, 0))
  {
  }

  lemma ScanMatch(text: string, lo: nat, h: nat, pos: seq<nat>, scan: Scan)
    requires h < |text| && ScanState(text, lo, h, pos, scan)
    ensures ScanState(text, lo, h + 1, pos + [h], OnMatch(scan, |pos| == 0, BonusAt(text, h)))
  {
    var longer := pos + [h];
    assert longer[..|longer| - 1] == pos;
    if pos != [] {
      assert longer[|longer| - 2] == pos[|pos| - 1];
    }
    assert InText(text, longer);
    assert Adjacent(longer) == (scan.consecutive > 0);
    assert RunBonus(text, longer) == OnMatch(scan, |pos| == 0, BonusAt(text, h)).firstBonus;
  }

  lemma ScanSkip(text: string, lo: nat, h: nat, pos: seq<nat>, scan: Scan)
    requires lo < h < |text| && ScanState(text, lo, h, pos, scan)
    ensures ScanState(text, lo, h + 1, pos, OnSkip(scan))
  {
  }

  lemma ScanEnd(text: string, pat: string, lo: nat, hi: nat, pos: seq<nat>, scan: Scan)
    requires lo < hi <= |text| && pat != [] && pos == Greedy(text, pat, lo, hi)
    requires |Greedy(text, pat, lo, hi)| == |pat| && |Greedy(text, pat, lo, hi - 1)| < |pat|
    requires ScanState(text, lo, hi, pos, scan)
    ensures InText(text, pos) && scan.score == Score(text, pos) && Increasing(pos)
  {
    assert pos[|pos| - 1] == hi - 1;
  }

  /** Merges adjacent positions into maximal ranges. */
  method RangesOf(pos: seq<nat>) returns (ranges: seq<Range>)
    requires pos != [] && Increasing(pos)
    ensures Separated(ranges) && Covered(ranges) == pos
  {
    hide Separated, Covered, Increasing;
    ranges := [Range(pos[0], pos[0] + 1)];
    FirstRange(pos[0]);
    for h := 1 to |pos|
      invariant ranges != [] && ranges[|ranges| - 1].hi == pos[h - 1] + 1
      invariant Separated(ranges) && Covered(ranges) == pos[..h]
    {
      var p, last := pos[h], ranges[|ranges| - 1];
      assert pos[..h + 1] == pos[..h] + [p];
      NextIsLater(pos, h);
      if last.hi == p {
        ExtendRange(ranges);
        ranges := ranges[..|ranges| - 1] + [Range(last.lo, p + 1)];
      } else {
        AppendRange(ranges, p);
        ranges := ranges + [Range(p, p + 1)];
      }
    }
    assert pos[..|pos|] == pos;
  }

  lemma FirstRange(p: nat)
    ensures Separated([Range(p, p + 1)]) && Covered([Range(p, p + 1)]) == [p]
  {
    assert Interval(p, p + 1) == [p];
  }

  lemma NextIsLater(pos: seq<nat>, h: nat)
    requires Increasing(pos) && 1 <= h < |pos|
    ensures pos[h - 1] < pos[h]
  {
  }

  lemma AppendRange(ranges: seq<Range>, p: nat)
    requires Separated(ranges) && ranges != [] && ranges[|ranges| - 1].hi < p
    ensures var more := ranges + [Range(p, p + 1)];
      Separated(more) && Covered(more) == Covered(ranges) + [p]
  {
    var more := ranges + [Range(p, p + 1)];
    assert more[..|more| - 1] == ranges;
    assert Interval(p, p + 1) == [p];
    forall i | 0 <= i < |ranges| ensures ranges[i].hi < p {
      assert i < |ranges| - 1 ==> ranges[i].hi < ranges[|ranges| - 1].lo;
    }
  }

  lemma ExtendRange(ranges: seq<Range>)
    requires Separated(ranges) && ranges != []
    ensures var last := ranges[|ranges| - 1];
      var longer := ranges[..|ranges| - 1] + [Range(last.lo, last.hi + 1)];
      Separated(longer) && Covered(longer) == Covered(ranges) + [last.hi]
  {
    var last := ranges[|ranges| - 1];
    var longer := ranges[..|ranges| - 1] + [Range(last.lo, last.hi + 1)];
    assert longer[..|longer| - 1] == ranges[..|ranges| - 1];
  }

  /** Fuzzy search of a pattern: no match exactly when the pattern cannot be embedded;
      otherwise the ranges spell the pattern inside the tightest window. */
  method FuzzyMatchStrings(text: string, pat: string) returns (r: Outcome, ghost pos: seq<nat>)
    ensures r != ImplementationError
    ensures pat == "" ==> r == Match([], 0)
    ensures r.NoMatch? <==> !exists q :: Embeds(text, pat, q)
    ensures r.Match? && pat != "" ==> Embeds(text, pat, pos) && Describes(text, pat, r, pos)
  {
    if |pat| == 0 {
      assert Embeds(text, pat, []);
      return Match([], 0), [];
    }
    var sidx, eidx := FindEnd(text, pat);
    if eidx == -1 {
      NoEmbedding(text, pat);
      return NoMatch, [];
    }
    var pidx, h := |pat| - 1, eidx - 1;
    while h >= sidx
      invariant sidx - 1 <= h < eidx && 0 <= pidx < |pat|
      invariant |GreedyBack(text, pat, h + 1, eidx)| == |pat| - 1 - pidx
    {
      if Accepts(text[h], pat[pidx]) {
        pidx := pidx - 1;
        if pidx < 0 {
          WindowIsTight(text, pat, h, eidx);
          r, pos := CalculateScore(text, pat, h, eidx);
          return;
        }
      }
      h := h - 1;
    }
    BackScanSucceeds(text, pat, sidx, eidx);
    assert false;
  }

  /** The forward scan: `eidx` is one past the earliest position where an embedding can end. */
  method FindEnd(text: string, pat: string) returns (sidx: int, eidx: int)
    requires pat != ""
    ensures eidx == -1 ==> |Greedy(text, pat, 0, |text|)| < |pat|
    ensures eidx != -1 ==>
              && 0 <= sidx < eidx <= |text|
              && |Greedy(text, pat, 0, eidx)| == |pat| && |Greedy(text, pat, 0, eidx - 1)| < |pat|
              && Greedy(text, pat, 0, eidx)[0] == sidx
  {
    var pidx := 0;
    sidx, eidx := -1, -1;
    for h := 0 to |text|
      invariant eidx == -1 && |Greedy(text, pat, 0, h)| == pidx < |pat|
      invariant if pidx == 0 then sidx == -1 else sidx == Greedy(text, pat, 0, h)[0] < h
    {
      if Accepts(text[h], pat[pidx]) {
        if sidx < 0 {
          sidx := h;
        }
        pidx := pidx + 1;
        if pidx == |pat| {
          eidx := h + 1;
          return;
        }
      }
    }
  }

  lemma {:induction false} NoEmbedding(text: string, pat: string)
    requires |Greedy(text, pat, 0, |text|)| < |pat|
    ensures !exists q :: Embeds(text, pat, q)
  {
    hide Greedy;
    forall q | Embeds(text, pat, q) ensures false {
      GreedyEarliest(text, pat, q, 0, |text|);
    }
  }

  lemma {:induction false} BackScanSucceeds(text: string, pat: string, sidx: nat, eidx: nat)
    requires pat != "" && sidx <= eidx <= |text|
    requires |Greedy(text, pat, 0, eidx)| == |pat| && Greedy(text, pat, 0, eidx)[0] == sidx
    ensures |GreedyBack(text, pat, sidx, eidx)| == |pat|
  {
    hide Greedy, GreedyBack;
    var pos := Greedy(text, pat, 0, eidx);
    GreedyPlaces(text, pat, 0, eidx);
    assert forall i :: 0 < i < |pos| ==> pos[0] < pos[i];
    assert Places(text, pat, pos, sidx, eidx);
    WholePlacesEnd(text, pat, pos, sidx, eidx);
    GreedyBackLatest(text, pat, pos, sidx, eidx);
  }

  lemma WholePlacesEnd(text: string, pat: string, pos: seq<nat>, lo: nat, hi: nat)
    requires |pos| == |pat|
    ensures PlacesEnd(text, pat, pos, lo, hi) <==> Places(text, pat, pos, lo, hi)
  {
    assert forall i :: 0 <= i < |pos| ==> pat[|pat| - |pos| + i] == pat[i];
  }

  lemma WindowHoldsPattern(text: string, pat: string, h: nat, eidx: nat)
    requires pat != "" && h < eidx <= |text|
    requires |Greedy(text, pat, 0, eidx - 1)| < |pat| && |GreedyBack(text, pat, h, eidx)| == |pat|
    ensures |Greedy(text, pat, h, eidx)| == |pat| && |Greedy(text, pat, h, eidx - 1)| < |pat|
  {
    hide Greedy, GreedyBack;
    GreedyBackPlaces(text, pat, h, eidx);
    WholePlacesEnd(text, pat, GreedyBack(text, pat, h, eidx), h, eidx);
    GreedyEarliest(text, pat, GreedyBack(text, pat, h, eidx), h, eidx);
    GreedyPlaces(text, pat, h, eidx - 1);
    assert Places(text, pat, Greedy(text, pat, h, eidx - 1), 0, |text|);
    EndsInWindow(text, pat, Greedy(text, pat, h, eidx - 1), eidx);
  }

  lemma NoTighterWindow(text: string, pat: string, h: nat, eidx: nat, q: seq<nat>)
    requires pat != "" && h < eidx <= |text|
    requires |Greedy(text, pat, 0, eidx - 1)| < |pat| && |GreedyBack(text, pat, h + 1, eidx)| < |pat|
    requires Embeds(text, pat, q)
    ensures eidx - 1 <= q[|q| - 1] && (eidx - 1 == q[|q| - 1] ==> q[0] <= h)
  {
    hide Greedy, GreedyBack;
    EndsInWindow(text, pat, q, eidx);
    if q[|q| - 1] == eidx - 1 && q[0] > h {
      assert Places(text, pat, q, h + 1, eidx);
      WholePlacesEnd(text, pat, q, h + 1, eidx);
      GreedyBackLatest(text, pat, q, h + 1, eidx);
    }
  }

  /** From the latest start, the greedy scan consumes the last pattern character exactly
      at the last index of the window, and no other window is tighter. */
  lemma {:induction false} WindowIsTight(text: string, pat: string, h: nat, eidx: nat)
    requires pat != "" && h < eidx <= |text|
    requires |Greedy(text, pat, 0, eidx - 1)| < |pat|
    requires |GreedyBack(text, pat, h + 1, eidx)| == |pat| - 1 && Accepts(text[h], pat[0])
    ensures |Greedy(text, pat, h, eidx)| == |pat| && |Greedy(text, pat, h, eidx - 1)| < |pat|
    ensures Embeds(text, pat, Greedy(text, pat, h, eidx))
    ensures TightestWindow(text, pat, Greedy(text, pat, h, eidx))
  {
    WindowHoldsPattern(text, pat, h, eidx);
    GreedyPlaces(text, pat, h, eidx);
    var pos := Greedy(text, pat, h, eidx);
    assert pos[|pos| - 1] == eidx - 1 && h <= pos[0];
    assert Embeds(text, pat, pos);
    hide Embeds, Greedy, GreedyBack;
    forall q | Embeds(text, pat, q)
      ensures |q| == |pat| && pos[|pos| - 1] <= q[|q| - 1] && (pos[|pos| - 1] == q[|q| - 1] ==> q[0] <= pos[0])
    {
      assert |q| == |pat| by { EmbedsLength(text, pat, q); }
      NoTighterWindow(text, pat, h, eidx, q);
    }
  }

  lemma EmbedsLength(text: string, pat: string, q: seq<nat>)
    requires Embeds(text, pat, q)
    ensures |q| == |pat|
  {
  }

  lemma EndsInWindow(text: string, pat: string, q: seq<nat>, eidx: nat)
    requires pat != "" && 0 < eidx <= |text| && |Greedy(text, pat, 0, eidx - 1)| < |pat|
    requires Places(text, pat, q, 0, |text|)
    ensures |q| < |pat| || q[|q| - 1] >= eidx - 1
  {
    if |q| == |pat| && q[|q| - 1] < eidx - 1 {
      assert Places(text, pat, q, 0, eidx - 1);
      GreedyEarliest(text, pat, q, 0, eidx - 1);
    }
  }
}
