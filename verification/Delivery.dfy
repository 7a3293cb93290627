/** Which topic names and filters the broker accepts. */
module TopicValidation {
  import opened Wrappers
  import opened Text
  import opened TopicMatch
  import opened SubscriptionSpec

  const MAX_BYTES := 65535

  /** The length of a character in UTF-8. */
  function Utf8(c: char): (n: nat)
    ensures 1 <= n <= 4
  {
    if c as int < 0x80 then 1 else if c as int < 0x800 then 2 else if c as int < 0x1_0000 then 3 else 4
  }

  /** How many code points `n` bytes can tell apart: seven bits in one, 5n + 1 in more. */
  function Payload(n: nat): nat {
    if n <= 1 then 128 else if n == 2 then 2048 else 32 * Payload(n - 1)
  }

  /** It is the least number of bytes whose payload has room for the code point. */
  lemma Utf8Least(c: char, n: nat)
    requires 1 <= n <= 4
    ensures (c as int) < Payload(n) <==> Utf8(c) <= n
  {
    assert Payload(3) == 32 * Payload(2) && Payload(4) == 32 * Payload(3);
  }

  function Bytes(s: string): nat {
    if s == "" then 0 else Utf8(s[0]) + Bytes(s[1..])
  }

  predicate WithinLevels(s: string, maxLevels: nat) {
    maxLevels == 0 || |LevelsOf(s)| <= maxLevels
  }

  predicate ValidName(topic: string, maxLevels: nat) {
    && topic != "" && Bytes(topic) <= MAX_BYTES && '\0' !in topic
    && '+' !in topic && '#' !in topic && WithinLevels(topic, maxLevels)
  }

  /** A wildcard fills its level, and "#" the last one. */
  predicate LevelOk(level: string, last: bool) {
    ('#' in level ==> level == "#" && last) && ('+' in level ==> level == "+")
  }

  predicate WildcardsOk(f: Levels) {
    forall i :: 0 <= i < |f| ==> LevelOk(f[i], i == |f| - 1)
  }

  // ----- The same character by character -----

  predicate Starts(s: string, i: nat) {
    i == 0 || (i <= |s| && s[i - 1] == '/')
  }

  predicate Ends(s: string, i: nat) {
    i + 1 >= |s| || s[i + 1] == '/'
  }

  /** Section 4.7.1: "#" is the last character and "+" ends its level, and both begin one. */
  predicate Placed(s: string) {
    forall i :: 0 <= i < |s| ==>
      && (s[i] == '#' ==> Starts(s, i) && i == |s| - 1)
      && (s[i] == '+' ==> Starts(s, i) && Ends(s, i))
  }

  lemma PlacedPlain(s: string)
    requires '/' !in s
    ensures Placed(s) <==> LevelOk(s, true)
  {
  }

  lemma {:induction false} PlacedBehind(x: string, y: string)
    requires '/' !in x
    ensures Placed(x + ['/'] + y) <==> LevelOk(x, false) && Placed(y)
  {
    var s := x + ['/'] + y;
    forall i | 0 <= i < |y| ensures s[|x| + 1 + i] == y[i] {
    }
    if Placed(s) {
      forall i | 0 <= i < |y|
        ensures y[i] == '#' ==> Starts(y, i) && i == |y| - 1
        ensures y[i] == '+' ==> Starts(y, i) && Ends(y, i) {
        assert s[|x| + 1 + i] == y[i];
      }
      forall i | 0 <= i < |x| ensures x[i] != '#' && (x[i] == '+' ==> |x| == 1) {
        assert s[i] == x[i];
      }
    }
    if LevelOk(x, false) && Placed(y) {
      forall i | 0 <= i < |s|
        ensures s[i] == '#' ==> Starts(s, i) && i == |s| - 1
        ensures s[i] == '+' ==> Starts(s, i) && Ends(s, i) {
        if i < |x| {
          assert s[i] == x[i] && x[i] in x;
        } else if i > |x| {
          assert s[i] == y[i - |x| - 1];
        }
      }
    }
  }

  lemma WildcardsCons(x: string, f: Levels)
    requires f != []
    ensures WildcardsOk([x] + f) <==> LevelOk(x, false) && WildcardsOk(f)
  {
    var g := [x] + f;
    assert g[0] == x && forall i :: 0 <= i < |f| ==> g[i + 1] == f[i];
    if WildcardsOk(g) {
      forall i | 0 <= i < |f| ensures LevelOk(f[i], i == |f| - 1) {
        assert LevelOk(g[i + 1], i + 1 == |g| - 1);
      }
      assert LevelOk(g[0], 0 == |g| - 1);
    }
  }

  /** The level by level test is the rule about characters, for all texts. */
  lemma {:induction false} WildcardsPlaced(s: string)
    ensures WildcardsOk(LevelsOf(s)) <==> Placed(s)
    decreases |s|
  {
    hide Placed, LevelOk, WildcardsOk;
    var x := LevelsOf(s)[0];
    FirstPiece(s, '/');
    if |x| == |s| {
      assert x == s;
      SplitPlain(s, '/');
      PlacedPlain(s);
      OneWildcard(s);
    } else {
      var y := s[|x| + 1..];
      assert s == x + ['/'] + y;
      SplitAt(x, '/', y);
      WildcardsPlaced(y);
      PlacedBehind(x, y);
      WildcardsCons(x, LevelsOf(y));
    }
  }

  lemma OneWildcard(s: string)
    ensures WildcardsOk([s]) <==> LevelOk(s, true)
  {
    assert [s][0] == s;
  }

  /** What the store keeps of a filter: not the group of a shared subscription. */
  function Stored(filter: string): string {
    match ParseShared(filter) case Some((group, actual)) => actual case None => filter
  }

  /** It is what subscriptions are filed under. */
  lemma StoredIsFiled(filter: string, sub: Subscription)
    ensures Request(filter, sub).0 == Stored(filter)
  {
  }

  predicate GroupOk(filter: string) {
    SHARE_PREFIX <= filter ==>
      var shared := ParseShared(filter);
      shared.Some? && '+' !in shared.value.0 && '#' !in shared.value.0
  }

  predicate ValidFilter(filter: string, maxLevels: nat) {
    && filter != "" && Bytes(filter) <= MAX_BYTES && '\0' !in filter && GroupOk(filter)
    && WithinLevels(Stored(filter), maxLevels) && WildcardsOk(LevelsOf(Stored(filter)))
  }

  /** An accepted filter, spelled out: not empty, at most 65535 bytes, no null character, the
      wildcards placed by the rule, within the limit of levels; a shared one by its filter proper,
      and with a group of its own that has no wildcard. */
  lemma {:induction false} AcceptedIff(filter: string, maxLevels: nat)
    ensures !("$share/" <= filter) ==>
      (ValidFilter(filter, maxLevels) <==>
        && filter != "" && Bytes(filter) <= 65535 && '\0' !in filter && Placed(filter)
        && (maxLevels == 0 || |LevelsOf(filter)| <= maxLevels))
    ensures forall group, actual :: filter == "$share/" + group + "/" + actual && '/' !in group ==>
      (ValidFilter(filter, maxLevels) <==>
        && group != "" && actual != "" && Bytes(filter) <= 65535 && '\0' !in filter
        && '+' !in group && '#' !in group && Placed(actual)
        && (maxLevels == 0 || |LevelsOf(actual)| <= maxLevels))
    ensures "$share/" <= filter && ValidFilter(filter, maxLevels) ==>
      exists group, actual :: filter == "$share/" + group + "/" + actual && '/' !in group
  {
    hide ParseShared, Placed, LevelsOf, Bytes, WildcardsOk;
    if !("$share/" <= filter) {
      NotShared(filter);
      WildcardsPlaced(filter);
    }
    forall group, actual | filter == "$share/" + group + "/" + actual && '/' !in group
      ensures ParseShared(filter) == if group != "" && actual != "" then Some((group, actual)) else None
      ensures "$share/" <= filter {
      GroupIs(filter, group, actual);
    }
    forall group, actual | filter == "$share/" + group + "/" + actual && '/' !in group
      ensures WildcardsOk(LevelsOf(actual)) <==> Placed(actual) {
      WildcardsPlaced(actual);
    }
    if ParseShared(filter).Some? {
      ParseSharedIff(filter, ParseShared(filter).value.0, ParseShared(filter).value.1);
    }
  }

  lemma {:induction false} GroupIs(filter: string, group: string, actual: string)
    requires filter == "$share/" + group + "/" + actual && '/' !in group
    ensures "$share/" <= filter
    ensures ParseShared(filter) == if group != "" && actual != "" then Some((group, actual)) else None
  {
    hide ParseShared;
    if ParseShared(filter).Some? {
      var (g, a) := ParseShared(filter).value;
      ParseSharedIff(filter, g, a);
      SameGroup(g, a, group, actual);
    }
    ParseSharedIff(filter, group, actual);
  }

  lemma SameGroup(g: string, a: string, group: string, actual: string)
    requires "$share/" + g + "/" + a == "$share/" + group + "/" + actual && '/' !in g && '/' !in group
    ensures g == group && a == actual
  {
    assert "$share/" + g + "/" + a == "$share/" + (g + ['/'] + a);
    assert "$share/" + group + "/" + actual == "$share/" + (group + ['/'] + actual);
    var x, y := g + ['/'] + a, group + ['/'] + actual;
    assert ("$share/" + x)[7..] == x && ("$share/" + y)[7..] == y;
    SplitAt(g, '/', a);
    SplitAt(group, '/', actual);
    assert Split(x, '/')[0] == g && Split(y, '/')[0] == group;
    assert x[|g| + 1..] == a && y[|group| + 1..] == actual;
  }

  method ValidateTopicFilter(filter: string, maxLevels: nat) returns (ok: bool)
    ensures ok == ValidFilter(filter, maxLevels)
  {
    hide ParseShared, LevelsOf, Bytes;
    if filter == "" || Bytes(filter) > MAX_BYTES || '\0' in filter {
      return false;
    }
    var actual := filter;
    if SHARE_PREFIX <= filter {
      var shared := ParseShared(filter);
      if shared.None? || '+' in shared.value.0 || '#' in shared.value.0 {
        return false;
      }
      actual := shared.value.1;
    } else {
      NotShared(filter);
    }
    var levels := LevelsOf(actual);
    if maxLevels > 0 && |levels| > maxLevels {
      return false;
    }
    for i := 0 to |levels|
      invariant forall j :: 0 <= j < i ==> LevelOk(levels[j], j == |levels| - 1)
    {
      if '#' in levels[i] {
        if levels[i] != "#" || i != |levels| - 1 {
          return false;
        }
      }
      if '+' in levels[i] && levels[i] != "+" {
        return false;
      }
    }
    ok := true;
  }

  lemma NotShared(filter: string)
    requires !(SHARE_PREFIX <= filter)
    ensures ParseShared(filter) == None
  {
  }
}

/** When permission to subscribe covers every message that the subscription brings in. */
module Delivery {
  import opened Wrappers
  import opened Text
  import opened TopicMatch
  import opened SubscriptionSpec
  import opened TopicValidation

  /** A pattern level that allows whatever a filter level lets in. */
  predicate Allows(p: string, f: string) {
    p == "+" || (f != "+" && p == f)
  }

  /** Every list of at least one level, or of just one. */
  predicate Open(p: Levels, one: bool) {
    p != [] && (p[0] == "#" || (one && p == ["+"]))
  }

  /** Below the first level a "#" of the filter also lets in its parent level, which no pattern
      with a "#" there allows. */
  predicate CoversRest(p: Levels, f: Levels) {
    if f == [] then p == []
    else f[0] != "#" && p != [] && (p[0] == "#" || (Allows(p[0], f[0]) && CoversRest(p[1..], f[1..])))
  }

  /** No topic is empty, so that a first "#", and one behind an empty first level, has no parent
      level. */
  predicate Covers(p: Levels, f: Levels, maxLevels: nat)
    requires p != [] && f != []
  {
    if f[0] == "#" then Open(p, maxLevels == 1)
    else if p[0] == "#" then true
    else
      Allows(p[0], f[0]) &&
      if f == ["", "#"] then Open(p[1..], maxLevels == 2) else CoversRest(p[1..], f[1..])
  }

  // ----- A covered filter brings in nothing else -----

  lemma {:induction false} RestSound(p: Levels, f: Levels, t: Levels)
    requires CoversRest(p, f) && BrokerLevels(f, t)
    ensures AclLevels(p, t)
  {
    if f != [] && p[0] != "#" {
      RestSound(p[1..], f[1..], t[1..]);
    }
  }

  lemma OpenSound(p: Levels, one: bool, t: Levels)
    requires Open(p, one) && t != [] && (one ==> |t| == 1)
    ensures AclLevels(p, t)
  {
    if p[0] != "#" {
      assert AclLevels(p, t) == AclLevels(p[1..], t[1..]);
    }
  }

  lemma CoversSound(p: Levels, f: Levels, maxLevels: nat, t: Levels)
    requires p != [] && f != [] && t != [] && t != [""] && (maxLevels > 0 ==> |t| <= maxLevels)
    requires Covers(p, f, maxLevels) && BrokerLevels(f, t)
    ensures AclLevels(p, t)
  {
    if f[0] == "#" {
      OpenSound(p, maxLevels == 1, t);
    } else if p[0] != "#" {
      if f == ["", "#"] {
        assert t == [""] + t[1..];
        OpenSound(p[1..], maxLevels == 2, t[1..]);
      } else {
        RestSound(p[1..], f[1..], t[1..]);
      }
    }
  }

  // ----- Any other filter brings in a topic that can be published -----

  /** A level that a topic may have. */
  predicate PlainLevel(level: string) {
    '/' !in level && '+' !in level && '#' !in level && '\0' !in level
  }

  predicate PlainLevels(t: Levels) {
    forall i :: 0 <= i < |t| ==> PlainLevel(t[i])
  }

  /** A level of an accepted filter. */
  predicate FilterLevel(level: string, last: bool) {
    PlainLevel(level) || level == "+" || (level == "#" && last)
  }

  predicate FilterLevels(f: Levels) {
    forall i :: 0 <= i < |f| ==> FilterLevel(f[i], i == |f| - 1)
  }

  /** The bytes of the levels, each with a separator. */
  function Cost(t: Levels): nat {
    if t == [] then 0 else Bytes(t[0]) + 1 + Cost(t[1..])
  }

  function Instance(level: string): string {
    if level == "+" then "a" else level
  }

  /** A level other than the given one. */
  function Another(level: string): string {
    if level == "a" then "b" else "a"
  }

  /** The shortest topic a filter lets in. */
  function Shortest(f: Levels): Levels {
    if f == [] || f[0] == "#" then [] else [Instance(f[0])] + Shortest(f[1..])
  }

  function RestWitness(p: Levels, f: Levels): Levels {
    if f == [] then []
    else if f[0] == "#" then if p == [] then ["a"] else []
    else if p == [] then Shortest(f)
    else if !Allows(p[0], f[0]) then [if f[0] == "+" then Another(p[0]) else f[0]] + Shortest(f[1..])
    else [Instance(f[0])] + RestWitness(p[1..], f[1..])
  }

  /** The first level of such a witness. */
  function WitnessHead(p: Levels, level: string): string {
    if p != [] && level == "+" && !Allows(p[0], "+") then Another(p[0]) else Instance(level)
  }

  function OpenWitness(p: Levels): Levels {
    if p == [] then ["a"] else if p[0] == "+" then if |p| == 1 then ["a", "a"] else ["a"] else [Another(p[0])]
  }

  function Witness(p: Levels, f: Levels): Levels
    requires p != [] && f != []
  {
    if f[0] == "#" then OpenWitness(p)
    else if f == ["", "#"] then [""] + if Allows(p[0], "") then OpenWitness(p[1..]) else ["a"]
    else RestWitness(p, f)
  }

  /** What makes a list of levels a topic that the filter lets in and the limits allow. */
  ghost predicate LetIn(f: Levels, t: Levels) {
    BrokerLevels(f, t) && PlainLevels(t) && Cost(t) <= Cost(f) && |t| <= |f|
  }

  lemma TailOk(f: Levels)
    requires f != [] && FilterLevels(f)
    ensures FilterLevels(f[1..]) && (f[0] == "#" ==> f == ["#"])
    ensures f[0] != "#" ==> PlainLevel(Instance(f[0])) && Bytes(Instance(f[0])) == Bytes(f[0])
  {
    assert FilterLevel(f[0], 0 == |f| - 1);
    assert Bytes("a") == 1 && Bytes("+") == 1;
    forall i | 0 <= i < |f[1..]| ensures FilterLevel(f[1..][i], i == |f[1..]| - 1) {
      assert FilterLevel(f[i + 1], i + 1 == |f| - 1);
    }
  }

  lemma ConsLetIn(f: Levels, x: string, t: Levels)
    requires f != [] && f[0] != "#" && LetIn(f[1..], t)
    requires PlainLevel(x) && LevelFits(f[0], x) && Bytes(x) <= Bytes(f[0])
    ensures LetIn(f, [x] + t)
  {
    var w := [x] + t;
    assert w[1..] == t;
    forall i | 0 <= i < |w| ensures PlainLevel(w[i]) {
      if i > 0 {
        assert w[i] == t[i - 1];
      }
    }
  }

  lemma {:induction false} ShortestLetIn(f: Levels)
    requires FilterLevels(f)
    ensures LetIn(f, Shortest(f))
    ensures f != [] && f[0] != "#" ==> Shortest(f) != []
  {
    hide Bytes, PlainLevel;
    if f != [] && f[0] != "#" {
      TailOk(f);
      ShortestLetIn(f[1..]);
      ConsLetIn(f, Instance(f[0]), Shortest(f[1..]));
    }
  }

  lemma AnotherOk(level: string)
    ensures Another(level) != level && PlainLevel(Another(level)) && Bytes(Another(level)) == 1 == Bytes("+")
    ensures !StartsWith(Another(level), '$')
  {
    assert Bytes("a") == 1 && Bytes("b") == 1 && Bytes("+") == 1;
  }

  lemma {:induction false} RestComplete(p: Levels, f: Levels)
    requires FilterLevels(f) && !CoversRest(p, f)
    ensures LetIn(f, RestWitness(p, f)) && !AclLevels(p, RestWitness(p, f))
    ensures f != [] && f[0] != "#" ==>
      RestWitness(p, f) != [] && RestWitness(p, f)[0] == WitnessHead(p, f[0])
  {
    hide Bytes, PlainLevel;
    if f == [] {
    } else if f[0] == "#" {
      TailOk(f);
      OneLevel();
    } else if p == [] {
      ShortestLetIn(f);
    } else if !Allows(p[0], f[0]) {
      TailOk(f);
      ShortestLetIn(f[1..]);
      AnotherOk(p[0]);
      ConsLetIn(f, if f[0] == "+" then Another(p[0]) else f[0], Shortest(f[1..]));
    } else {
      TailOk(f);
      RestComplete(p[1..], f[1..]);
      ConsLetIn(f, Instance(f[0]), RestWitness(p[1..], f[1..]));
      assert RestWitness(p, f)[1..] == RestWitness(p[1..], f[1..]);
    }
  }

  lemma OneLevel()
    ensures PlainLevels(["a"]) && Cost(["a"]) == 2 == Cost(["#"]) && BrokerLevels(["#"], ["a"])
  {
    assert Bytes("a") == 1 && Bytes("#") == 1;
    assert ["a"][1..] == [] && ["#"][1..] == [];
  }

  lemma OpenComplete(p: Levels, one: bool)
    requires !Open(p, one)
    ensures var t := OpenWitness(p);
      && !AclLevels(p, t) && PlainLevels(t) && 0 < |t| <= 2 && (one ==> |t| == 1)
      && Cost(t) <= 4 && !StartsWith(t[0], '$') && t[0] != ""
  {
    assert Bytes("a") == 1 && Bytes("b") == 1;
    assert ["a", "a"][1..] == ["a"] && ["a"][1..] == [] && ["b"][1..] == [];
    if p != [] && p[0] == "+" {
      assert AclLevels(p, OpenWitness(p)) == AclLevels(p[1..], OpenWitness(p)[1..]);
    }
  }

  /** A list of levels that can be published. */
  ghost predicate Publishable(t: Levels, maxLevels: nat) {
    && t != [] && t != [""] && PlainLevels(t) && Cost(t) <= MAX_BYTES + 1
    && (maxLevels > 0 ==> |t| <= maxLevels)
  }

  lemma BehindEmpty(t: Levels)
    requires PlainLevels(t) && t != [] && BrokerLevels(["#"], t)
    ensures var w := [""] + t; PlainLevels(w) && BrokerLevels(["", "#"], w) && Cost(w) == 1 + Cost(t) && |w| == |t| + 1
  {
    var w := [""] + t;
    assert w[1..] == t && ["", "#"][1..] == ["#"];
    forall i | 0 <= i < |w| ensures PlainLevel(w[i]) {
      if i > 0 {
        assert w[i] == t[i - 1];
      }
    }
  }

  lemma {:induction false} CoversComplete(p: Levels, f: Levels, maxLevels: nat)
    requires p != [] && f != [] && f != [""] && FilterLevels(f) && !Covers(p, f, maxLevels)
    requires Cost(f) <= MAX_BYTES + 1 && (maxLevels > 0 ==> |f| <= maxLevels)
    ensures var t := Witness(p, f);
      && Publishable(t, maxLevels) && BrokerLevels(f, t) && !AclLevels(p, t)
      && (f[0] == "+" || f[0] == "#" ==> !StartsWith(t[0], '$'))
  {
    hide Bytes, PlainLevel, CoversRest, Cost;
    if f[0] == "#" {
      OpenComplete(p, maxLevels == 1);
    } else if f == ["", "#"] {
      OneLevel();
      if Allows(p[0], "") {
        OpenComplete(p[1..], maxLevels == 2);
        BehindEmpty(OpenWitness(p[1..]));
        assert Witness(p, f)[1..] == OpenWitness(p[1..]);
      } else {
        BehindEmpty(["a"]);
      }
    } else {
      NotCovered(p, f, maxLevels);
      RestComplete(p, f);
      AnotherOk(p[0]);
      NotJustEmpty(p, f);
    }
  }

  lemma NotCovered(p: Levels, f: Levels, maxLevels: nat)
    requires p != [] && f != [] && f[0] != "#" && f != ["", "#"] && !Covers(p, f, maxLevels)
    ensures !CoversRest(p, f)
  {
  }

  lemma NotJustEmpty(p: Levels, f: Levels)
    requires p != [] && f != [] && f[0] != "#" && f != [""] && f != ["", "#"] && FilterLevels(f) && !CoversRest(p, f)
    ensures RestWitness(p, f) != [""]
  {
    TailOk(f);
    if f[0] == "" {
      assert f == [""] + f[1..];
      TailOk(f[1..]);
      ShortestLetIn(f[1..]);
      if Allows(p[0], f[0]) {
        RestComplete(p[1..], f[1..]);
      }
    }
  }

  // ----- The same of texts -----

  lemma {:induction false} BytesConcat(x: string, y: string)
    ensures Bytes(x + y) == Bytes(x) + Bytes(y)
  {
    if x == "" {
      assert x + y == y;
    } else {
      assert (x + y)[1..] == x[1..] + y;
      BytesConcat(x[1..], y);
    }
  }

  lemma {:induction false} CostOfJoin(t: Levels)
    requires t != []
    ensures Bytes(Join(t, '/')) + 1 == Cost(t)
  {
    if |t| == 1 {
      assert t[1..] == [];
    } else {
      CostOfJoin(t[1..]);
      BytesConcat(t[0] + ['/'], Join(t[1..], '/'));
      BytesConcat(t[0], ['/']);
      assert Bytes("/") == 1;
    }
  }

  lemma {:induction false} InJoin(t: Levels, c: char)
    requires c != '/' && Without(t, c)
    ensures c !in Join(t, '/')
  {
    if |t| > 1 {
      assert c !in t[0];
      InJoin(t[1..], c);
    }
  }

  /** A piece of a text has no character that the text has not. */
  lemma {:induction false} PieceOf(s: string, sep: char, c: char)
    requires c !in s
    ensures Without(Split(s, sep), c)
  {
    if s != "" {
      PieceOf(s[1..], sep, c);
      var rest := Split(s[1..], sep);
      assert c !in rest[0];
    }
  }

  lemma PlainWithout(t: Levels)
    requires PlainLevels(t)
    ensures Without(t, '/') && Without(t, '+') && Without(t, '#') && Without(t, '\0')
  {
    forall i | 0 <= i < |t| ensures PlainLevel(t[i]) {
    }
  }

  lemma {:induction false} PublishedName(t: Levels, maxLevels: nat)
    requires Publishable(t, maxLevels)
    ensures ValidName(Join(t, '/'), maxLevels) && LevelsOf(Join(t, '/')) == t
  {
    hide Bytes, Cost, Split, Join;
    PlainWithout(t);
    SplitJoin(t, '/');
    CostOfJoin(t);
    InJoin(t, '+');
    InJoin(t, '#');
    InJoin(t, '\0');
    EmptyLevels();
  }

  lemma EmptyLevels()
    ensures LevelsOf("") == [""]
  {
  }

  lemma NameLevels(topic: string, maxLevels: nat)
    requires ValidName(topic, maxLevels)
    ensures var t := LevelsOf(topic); t != [] && t != [""] && (maxLevels > 0 ==> |t| <= maxLevels)
  {
    JoinSplit(topic, '/');
  }

  lemma AcceptedLevels(f: string, maxLevels: nat)
    requires f != "" && Bytes(f) <= MAX_BYTES && '\0' !in f && WildcardsOk(LevelsOf(f))
    ensures FilterLevels(LevelsOf(f)) && LevelsOf(f) != [""] && Cost(LevelsOf(f)) <= MAX_BYTES + 1
  {
    hide Bytes, Cost, Split;
    var levels := LevelsOf(f);
    SplitWithout(f, '/');
    PieceOf(f, '/', '\0');
    JoinSplit(f, '/');
    CostOfJoin(levels);
    assert Join([""], '/') == "";
    forall i | 0 <= i < |levels| ensures FilterLevel(levels[i], i == |levels| - 1) {
      assert LevelOk(levels[i], i == |levels| - 1) && '/' !in levels[i] && '\0' !in levels[i];
    }
  }

  /** The filter proper of a shared subscription is a suffix of the whole. */
  lemma StoredSuffix(filter: string)
    requires filter != ""
    ensures Stored(filter) != "" && Bytes(Stored(filter)) <= Bytes(filter)
    ensures forall c :: c !in filter ==> c !in Stored(filter)
  {
    var shared := ParseShared(filter);
    if shared.Some? {
      ParseSharedIff(filter, shared.value.0, shared.value.1);
      BytesConcat(SHARE_PREFIX + shared.value.0 + "/", shared.value.1);
    }
  }

  lemma WildStart(filter: string)
    requires FilterLevels(LevelsOf(filter))
    ensures var f := LevelsOf(filter)[0]; StartsWith(filter, '+') || StartsWith(filter, '#') <==> f == "+" || f == "#"
  {
    var f := LevelsOf(filter);
    FirstLevel(filter, '+');
    FirstLevel(filter, '#');
    assert FilterLevel(f[0], 0 == |f| - 1);
  }

  /** A subscription whose filter the broker accepts brings its client only messages that the
      pattern allows, over all topics that can be published, exactly when the pattern covers
      what the store keeps of the filter. */
  lemma {:induction false} DeliveryIff(pattern: string, filter: string, maxLevels: nat)
    requires ValidFilter(filter, maxLevels)
    ensures (forall topic :: ValidName(topic, maxLevels) && BrokerMatches(Stored(filter), topic) ==>
               AclMatches(pattern, topic))
            <==> Covers(LevelsOf(pattern), LevelsOf(Stored(filter)), maxLevels)
  {
    var stored := Stored(filter);
    var p, f := LevelsOf(pattern), LevelsOf(stored);
    if Covers(p, f, maxLevels) {
      forall topic | ValidName(topic, maxLevels) && BrokerMatches(stored, topic) ensures AclMatches(pattern, topic) {
        NameLevels(topic, maxLevels);
        CoversSound(p, f, maxLevels, LevelsOf(topic));
      }
    } else {
      var topic := Uncovered(pattern, filter, maxLevels);
      assert ValidName(topic, maxLevels) && BrokerMatches(stored, topic) && !AclMatches(pattern, topic);
    }
  }

  /** Otherwise here is a topic that can be published, is delivered and is not allowed. */
  lemma {:induction false} Uncovered(pattern: string, filter: string, maxLevels: nat) returns (topic: string)
    requires ValidFilter(filter, maxLevels) && !Covers(LevelsOf(pattern), LevelsOf(Stored(filter)), maxLevels)
    ensures ValidName(topic, maxLevels) && BrokerMatches(Stored(filter), topic) && !AclMatches(pattern, topic)
  {
    hide Bytes, Cost, Split, Join, BrokerLevels, AclLevels, Covers, Witness, ParseShared;
    var p, f := LevelsOf(pattern), LevelsOf(Stored(filter));
    StoredSuffix(filter);
    AcceptedLevels(Stored(filter), maxLevels);
    CoversComplete(p, f, maxLevels);
    var t := Witness(p, f);
    PublishedName(t, maxLevels);
    topic := Join(t, '/');
    WildStart(Stored(filter));
    FirstLevel(topic, '$');
  }

  /** A filter without "#" that is stored as it was asked for is covered once it is permitted. */
  lemma {:induction false} NoHashCovered(p: Levels, f: Levels, maxLevels: nat)
    requires p != [] && f != [] && AclLevels(p, f) && forall i :: 0 <= i < |f| ==> f[i] != "#"
    ensures Covers(p, f, maxLevels)
  {
    assert f[0] != "#" && (|f| > 1 ==> f[1] != "#");
    if p[0] != "#" {
      RestCovered(p[1..], f[1..]);
    }
  }

  lemma {:induction false} RestCovered(p: Levels, f: Levels)
    requires AclLevels(p, f) && forall i :: 0 <= i < |f| ==> f[i] != "#"
    ensures CoversRest(p, f)
  {
    if p != [] && p[0] != "#" {
      RestCovered(p[1..], f[1..]);
    }
  }

  // ----- Permitted and yet not covered -----

  lemma Split3(a: string, b: string, c: string)
    requires '/' !in a && '/' !in b && '/' !in c
    ensures LevelsOf(a + ['/'] + (b + ['/'] + c)) == [a, b, c]
  {
    SplitAt(a, '/', b + ['/'] + c);
    SplitAt(b, '/', c);
    SplitPlain(c, '/');
  }

  lemma SmallBytes(s: string)
    requires |s| <= 100
    ensures Bytes(s) <= 400
  {
    BytesBound(s);
  }

  lemma {:induction false} BytesBound(s: string)
    ensures Bytes(s) <= 4 * |s|
  {
    if s != "" {
      BytesBound(s[1..]);
    }
  }

  lemma SharedLevels()
    ensures LevelsOf("+/+/x") == ["+", "+", "x"] && LevelsOf("$share/g/x") == ["$share", "g", "x"]
    ensures LevelsOf("x") == ["x"] && ParseShared("$share/g/x") == Some(("g", "x"))
  {
    hide Split, ParseShared;
    assert "+/+/x" == "+" + ['/'] + ("+" + ['/'] + "x");
    assert "$share/g/x" == "$share" + ['/'] + ("g" + ['/'] + "x");
    Split3("+", "+", "x");
    Split3("$share", "g", "x");
    SplitPlain("x", '/');
    assert "$share/g/x" == SHARE_PREFIX + "g" + "/" + "x";
    ParseSharedIff("$share/g/x", "g", "x");
  }

  lemma SharedMatches()
    ensures AclLevels(["+", "+", "x"], ["$share", "g", "x"]) && !AclLevels(["+", "+", "x"], ["x"])
  {
    var p, f := ["+", "+", "x"], ["$share", "g", "x"];
    assert p[1..] == ["+", "x"] && f[1..] == ["g", "x"] && ["x"][1..] == [];
    assert p[1..][1..] == ["x"] && f[1..][1..] == ["x"];
  }

  /** The pattern "+/+/x" permits the shared filter "$share/g/x", which brings in the topic "x",
      which the pattern does not allow. */
  lemma {:induction false} SharedSlips()
    ensures AclMatches("+/+/x", "$share/g/x") && ValidFilter("$share/g/x", 0) && Stored("$share/g/x") == "x"
    ensures ValidName("x", 0) && BrokerMatches("x", "x") && !AclMatches("+/+/x", "x")
  {
    hide LevelsOf, ParseShared, Bytes, AclLevels;
    SharedLevels();
    SharedMatches();
    SmallBytes("$share/g/x");
    SmallBytes("x");
    assert BrokerLevels(["x"], ["x"]) && WildcardsOk(["x"]);
  }

  lemma UnsharedLevels()
    ensures LevelsOf("a/+") == ["a", "+"] && LevelsOf("a/#") == ["a", "#"] && LevelsOf("a/b/c") == ["a", "b", "c"]
  {
    hide Split;
    assert "a/+" == "a" + ['/'] + "+" && "a/#" == "a" + ['/'] + "#" && "a/b/c" == "a" + ['/'] + ("b" + ['/'] + "c");
    SplitAt("a", '/', "+");
    SplitPlain("+", '/');
    SplitAt("a", '/', "#");
    SplitPlain("#", '/');
    Split3("a", "b", "c");
  }

  lemma UnsharedMatches()
    ensures AclLevels(["a", "+"], ["a", "#"]) && BrokerLevels(["a", "#"], ["a", "b", "c"])
    ensures !AclLevels(["a", "+"], ["a", "b", "c"])
  {
    assert ["a", "+"][1..] == ["+"] && ["a", "#"][1..] == ["#"] && ["a", "b", "c"][1..] == ["b", "c"];
    assert ["+"][1..] == [] && ["#"][1..] == [] && ["b", "c"][1..] == ["c"];
  }

  /** The pattern "a/+" permits the filter "a/#", which brings in the topic "a/b/c". */
  lemma {:induction false} UnsharedSlips()
    ensures AclMatches("a/+", "a/#") && ValidFilter("a/#", 0) && Stored("a/#") == "a/#"
    ensures ValidName("a/b/c", 0) && BrokerMatches("a/#", "a/b/c") && !AclMatches("a/+", "a/b/c")
  {
    hide LevelsOf, ParseShared, Bytes, AclLevels, BrokerLevels;
    UnsharedLevels();
    UnsharedMatches();
    NotShared("a/#");
    SmallBytes("a/#");
    SmallBytes("a/b/c");
    assert WildcardsOk(["a", "#"]);
  }
}
