/** Topic matching: the access-control loop, the broker's loop, and what section 4.7.1 of
    MQTT Version 5.0 says about well-formed filters. */
module TopicMatch {
  import opened Text

  type Levels = seq<string>

  function LevelsOf(s: string): (l: Levels)
    ensures |l| >= 1
  {
    Split(s, '/')
  }

  /** Level by level, as access control understands a pattern. */
  predicate AclLevels(p: Levels, t: Levels) {
    if p == [] || t == [] then p == [] && t == []
    else if p[0] == "#" then true
    else (p[0] == "+" || p[0] == t[0]) && AclLevels(p[1..], t[1..])
  }

  /** Level by level, as the broker's own matcher understands a filter. */
  predicate BrokerLevels(f: Levels, t: Levels) {
    if f == [] then t == []
    else if f[0] == "#" then true
    else t != [] && (f[0] == "+" || f[0] == t[0]) && BrokerLevels(f[1..], t[1..])
  }

  predicate StartsWith(s: string, c: char) {
    s != "" && s[0] == c
  }

  predicate AclMatches(pattern: string, topic: string) {
    AclLevels(LevelsOf(pattern), LevelsOf(topic))
  }

  predicate BrokerMatches(filter: string, topic: string) {
    && !(StartsWith(topic, '$') && (StartsWith(filter, '+') || StartsWith(filter, '#')))
    && BrokerLevels(LevelsOf(filter), LevelsOf(topic))
  }

  /** The first level of a text begins as the text does. */
  lemma FirstLevel(s: string, c: char)
    requires c != '/'
    ensures StartsWith(s, c) <==> StartsWith(LevelsOf(s)[0], c)
  {
  }

  /** Only a filter that spells the first level of a "$" topic matches it. */
  lemma DollarSpelled(filter: string, topic: string)
    requires StartsWith(topic, '$') && BrokerMatches(filter, topic)
    ensures LevelsOf(filter)[0] == LevelsOf(topic)[0]
  {
    FirstLevel(filter, '+');
    FirstLevel(filter, '#');
  }

  /** On any other topic the levels alone decide. */
  lemma OtherTopics(filter: string, topic: string)
    requires !StartsWith(topic, '$') || LevelsOf(filter)[0] == LevelsOf(topic)[0]
    ensures BrokerMatches(filter, topic) <==> BrokerLevels(LevelsOf(filter), LevelsOf(topic))
  {
    FirstLevel(filter, '+');
    FirstLevel(filter, '#');
    FirstLevel(topic, '$');
  }

  method MqttPatternMatch(pattern: string, topic: string) returns (b: bool)
    ensures b == AclMatches(pattern, topic)
  {
    var patternParts, topicParts := Split(pattern, '/'), Split(topic, '/');
    var pIdx, tIdx := 0, 0;
    while pIdx < |patternParts| && tIdx < |topicParts|
      invariant 0 <= pIdx <= |patternParts| && 0 <= tIdx <= |topicParts|
      invariant AclMatches(pattern, topic) == AclLevels(patternParts[pIdx..], topicParts[tIdx..])
    {
      var p, t := patternParts[pIdx], topicParts[tIdx];
      if p == "#" {
        return true;
      } else if p == "+" {
        pIdx, tIdx := pIdx + 1, tIdx + 1;
      } else if p == t {
        pIdx, tIdx := pIdx + 1, tIdx + 1;
      } else {
        return false;
      }
    }
    b := pIdx == |patternParts| && tIdx == |topicParts|;
  }

  method TopicMatchesFilter(topic: string, filter: string) returns (b: bool)
    ensures b == BrokerMatches(filter, topic)
  {
    if StartsWith(topic, '$') && (StartsWith(filter, '+') || StartsWith(filter, '#')) {
      return false;
    }
    var topicLevels, filterLevels := Split(topic, '/'), Split(filter, '/');
    var ti, fi := 0, 0;
    while fi < |filterLevels|
      invariant 0 <= fi <= |filterLevels| && 0 <= ti <= |topicLevels|
      invariant BrokerMatches(filter, topic) == BrokerLevels(filterLevels[fi..], topicLevels[ti..])
    {
      var level := filterLevels[fi];
      if level == "#" {
        return true;
      }
      if ti >= |topicLevels| {
        return false;
      }
      if level == "+" {
        ti, fi := ti + 1, fi + 1;
      } else if level == topicLevels[ti] {
        ti, fi := ti + 1, fi + 1;
      } else {
        return false;
      }
    }
    b := ti == |topicLevels|;
  }

  // ----- What the standard says -----

  predicate LevelFits(f: string, t: string) {
    f == "+" || f == t
  }

  /** The multi-level wildcard, if any, is the last level. */
  predicate HashLast(f: Levels) {
    forall i :: 0 <= i < |f| - 1 ==> f[i] != "#"
  }

  predicate EndsInHash(f: Levels) {
    f != [] && f[|f| - 1] == "#"
  }

  /** Section 4.7.1: "+" stands for one level, a final "#" for the parent and any number of
      child levels. */
  predicate StandardMatches(f: Levels, t: Levels) {
    if EndsInHash(f)
    then |t| >= |f| - 1 && forall i :: 0 <= i < |f| - 1 ==> LevelFits(f[i], t[i])
    else |t| == |f| && forall i :: 0 <= i < |f| ==> LevelFits(f[i], t[i])
  }

  lemma {:induction false} BrokerIsStandard(f: Levels, t: Levels)
    requires HashLast(f)
    ensures BrokerLevels(f, t) <==> StandardMatches(f, t)
  {
    if f != [] && f[0] != "#" && t != [] {
      assert HashLast(f[1..]);
      BrokerIsStandard(f[1..], t[1..]);
      StandardStep(f, t);
    }
  }

  lemma StandardStep(f: Levels, t: Levels)
    requires f != [] && t != [] && f[0] != "#"
    ensures StandardMatches(f, t) <==> LevelFits(f[0], t[0]) && StandardMatches(f[1..], t[1..])
  {
    var g, u := f[1..], t[1..];
    if LevelFits(f[0], t[0]) && StandardMatches(g, u) {
      forall i | 0 <= i < |f| - (if EndsInHash(f) then 1 else 0) ensures LevelFits(f[i], t[i]) {
        if i > 0 {
          assert LevelFits(g[i - 1], u[i - 1]);
        }
      }
    }
    if StandardMatches(f, t) {
      forall i | 0 <= i < |g| - (if EndsInHash(g) then 1 else 0) ensures LevelFits(g[i], u[i]) {
        assert LevelFits(f[i + 1], t[i + 1]);
      }
    }
  }

  /** Access control and the broker disagree exactly on the parent level of a "#". */
  lemma {:induction false} AclVersusStandard(f: Levels, t: Levels)
    requires HashLast(f)
    ensures AclLevels(f, t) <==> StandardMatches(f, t) && !(EndsInHash(f) && |t| == |f| - 1)
  {
    if f != [] && t != [] && f[0] != "#" {
      assert HashLast(f[1..]);
      AclVersusStandard(f[1..], t[1..]);
      StandardStep(f, t);
    }
  }
}

/** When permission to subscribe to a filter covers every message the filter brings in. */
module Containment {
  import opened Text
  import opened TopicMatch

  /** `i` is the first level that is "#" in either list, and there the filter has it. */
  predicate HashAt(p: Levels, f: Levels, i: nat) {
    && i < |p| && i < |f| && f[i] == "#"
    && forall j :: 0 <= j < i ==> p[j] != "#" && f[j] != "#"
  }

  /** A "#" of the filter stands opposite a "+" of the pattern. */
  ghost predicate HashUnderPlus(p: Levels, f: Levels) {
    exists i: nat :: HashAt(p, f, i) && p[i] == "+"
  }

  lemma HashUnderPlusStep(p: Levels, f: Levels)
    requires p != [] && f != [] && p[0] != "#" && f[0] != "#"
    ensures HashUnderPlus(p, f) <==> HashUnderPlus(p[1..], f[1..])
  {
    var q, g := p[1..], f[1..];
    if HashUnderPlus(p, f) {
      var i: nat :| HashAt(p, f, i) && p[i] == "+";
      forall j | 0 <= j < i - 1 ensures q[j] != "#" && g[j] != "#" {
        assert p[j + 1] != "#" && f[j + 1] != "#";
      }
      assert HashAt(q, g, i - 1) && q[i - 1] == "+";
    }
    if HashUnderPlus(q, g) {
      var i: nat :| HashAt(q, g, i) && q[i] == "+";
      forall j | 0 <= j < i + 1 ensures p[j] != "#" && f[j] != "#" {
        if j > 0 {
          assert q[j - 1] != "#" && g[j - 1] != "#";
        }
      }
      assert HashAt(p, f, i + 1) && p[i + 1] == "+";
    }
  }

  lemma {:induction false} Contained(p: Levels, f: Levels, t: Levels)
    requires AclLevels(p, f) && AclLevels(f, t) && !HashUnderPlus(p, f)
    ensures AclLevels(p, t)
  {
    if p != [] && p[0] != "#" {
      if f[0] == "#" {
        assert HashAt(p, f, 0);
      } else {
        HashUnderPlusStep(p, f);
        Contained(p[1..], f[1..], t[1..]);
      }
    }
  }

  /** A topic level that fits a filter level. */
  function Instance(level: string): string {
    if level == "+" then "a" else level
  }

  /** A topic the filter lets in although the pattern does not: the filter's levels up to
      its "#", then as many levels as the pattern cannot digest. */
  ghost function Leak(p: Levels, f: Levels): (t: Levels)
    requires AclLevels(p, f) && HashUnderPlus(p, f)
    ensures t != []
  {
    if p != [] && f != [] && p[0] != "#" && f[0] != "#" then
      HashUnderPlusStep(p, f);
      [Instance(f[0])] + Leak(p[1..], f[1..])
    else if |p| == 1 then ["a", "a"]
    else ["a"]
  }

  lemma {:induction false} Leaks(p: Levels, f: Levels)
    requires AclLevels(p, f) && HashUnderPlus(p, f)
    ensures AclLevels(f, Leak(p, f)) && !AclLevels(p, Leak(p, f))
  {
    var i: nat :| HashAt(p, f, i) && p[i] == "+";
    if f[0] != "#" && p[0] != "#" {
      HashUnderPlusStep(p, f);
      Leaks(p[1..], f[1..]);
      var t := Leak(p, f);
      assert t[1..] == Leak(p[1..], f[1..]);
      assert f[0] == "+" ==> p[0] == "+";
    } else {
      assert i == 0;
    }
  }

  lemma {:induction false} LeakIsTopic(p: Levels, f: Levels)
    requires AclLevels(p, f) && HashUnderPlus(p, f) && Without(f, '/')
    ensures Without(Leak(p, f), '/')
  {
    if p != [] && f != [] && p[0] != "#" && f[0] != "#" {
      HashUnderPlusStep(p, f);
      assert '/' !in f[0];
      LeakIsTopic(p[1..], f[1..]);
    }
  }

  /** For access control's own matching: a permitted filter lets in only permitted topics
      exactly when none of its "#" levels was permitted by a "+". */
  lemma {:induction false} ContainmentIff(pattern: string, filter: string)
    requires AclMatches(pattern, filter)
    ensures (forall topic :: AclMatches(filter, topic) ==> AclMatches(pattern, topic))
            <==> !HashUnderPlus(LevelsOf(pattern), LevelsOf(filter))
  {
    var p, f := LevelsOf(pattern), LevelsOf(filter);
    if HashUnderPlus(p, f) {
      Leaks(p, f);
      SplitWithout(filter, '/');
      LeakIsTopic(p, f);
      var topic := Join(Leak(p, f), '/');
      SplitJoin(Leak(p, f), '/');
      assert AclMatches(filter, topic) && !AclMatches(pattern, topic);
    } else {
      forall topic | AclMatches(filter, topic) ensures AclMatches(pattern, topic) {
        Contained(p, f, LevelsOf(topic));
      }
    }
  }

  /** The topic "a/b" comes in through "#", which "+" permits, and "+" does not allow it. */
  lemma HashUnderPlusLeaks()
    ensures AclMatches("+", "#") && AclMatches("#", "a/b") && !AclMatches("+", "a/b")
  {
    SplitPlain("+", '/');
    SplitPlain("#", '/');
    SplitAt("a", '/', "b");
    SplitPlain("b", '/');
    assert "a" + ['/'] + "b" == "a/b";
    assert AclLevels(["+"], ["a", "b"]) == AclLevels([], ["b"]);
  }
}
