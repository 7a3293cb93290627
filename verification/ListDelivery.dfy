/** When the patterns in force together allow every message that a subscription brings in. */
module ListDelivery {
  import opened Wrappers
  import opened Text
  import opened TopicMatch
  import opened TopicValidation
  import opened PatternLists
  import opened AclSpec
  import Auth
  import Delivery
  import SubscriptionSpec

  function LevelLimit(maxLevels: nat): Limit {
    if maxLevels == 0 then None else Some(maxLevels)
  }

  /** No topic is empty, so that a first "#", and one behind an empty first level, has no parent
      level that could be missing. */
  predicate CoversTopics(ps: Patterns, f: Levels, room: Limit)
    requires f != []
  {
    if f[0] == "#" then Open(ps, room)
    else if f == ["", "#"] then HasHash(ps) || Open(Tails(ps, ""), Less(room))
    else CoversAny(ps, f, room, true)
  }

  lemma {:induction false} TopicsSound(ps: Patterns, f: Levels, room: Limit, t: Levels)
    requires f != [] && t != [] && t != [""] && Within(|t|, room)
    requires CoversTopics(ps, f, room) && BrokerLevels(f, t)
    ensures AnyLevels(ps, t)
  {
    hide AnyLevels, Open, HasHash, CoversAny;
    if f[0] == "#" {
      OpenSound(ps, room, t);
    } else if f == ["", "#"] {
      assert t == [""] + t[1..];
      if HasHash(ps) {
        AnyHash(ps, t);
      } else {
        OpenSound(Tails(ps, ""), Less(room), t[1..]);
        TailsTake(ps, t);
      }
    } else {
      CoversSound(ps, f, room, true, t);
    }
  }

  // ----- A topic that is let in and not allowed -----

  function TopicWitness(ps: Patterns, f: Levels): Levels
    requires f != []
  {
    if f[0] == "#" then OpenWitness(ps)
    else if f == ["", "#"] then [""] + OpenWitness(Tails(ps, ""))
    else Witness(ps, f, true)
  }

  lemma {:induction false} TopicsComplete(ps: Patterns, f: Levels, room: Limit)
    requires f != [] && f != [""] && Delivery.FilterLevels(f) && Within(|f|, room) && !CoversTopics(ps, f, room)
    ensures var t := TopicWitness(ps, f);
      && BrokerLevels(f, t) && MadeFrom(t, f) && !AnyLevels(ps, t) && Within(|t|, room)
      && t != [] && t != [""] && (f[0] == "+" ==> AllA(t[0])) && (f[0] == "#" ==> AllA(t[0]))
  {
    hide AnyLevels, Open, HasHash, CoversAny, Delivery.FilterLevels;
    var t := TopicWitness(ps, f);
    if f[0] == "#" {
      OpenComplete(ps, room);
    } else if f == ["", "#"] {
      OpenComplete(Tails(ps, ""), Less(room));
      var u := OpenWitness(Tails(ps, ""));
      assert t[1..] == u && f[1..] == ["#"];
      forall i | 0 <= i < |t| ensures AllA(t[i]) || t[i] == "" {
        assert i > 0 ==> t[i] == u[i - 1];
      }
      assert f[0] == "" && "" in f;
      TailsTake(ps, t);
    } else {
      CoversComplete(ps, f, room, true);
      UnspelledLong(ps);
      NotJustEmpty(f, t);
    }
  }

  lemma NotJustEmpty(f: Levels, t: Levels)
    requires f != [] && f != [""] && f[0] != "#" && f != ["", "#"] && Delivery.FilterLevels(f)
    requires BrokerLevels(f, t) && t != [] && (f[0] == "+" ==> AllA(t[0]))
    ensures t != [""]
  {
    if f[0] == "" {
      assert f == [""] + f[1..];
      Delivery.TailOk(f);
      Delivery.TailOk(f[1..]);
    }
  }

  // ----- Its length -----

  function CostAll(ps: Patterns): nat {
    if ps == [] then 0 else Delivery.Cost(ps[0]) + CostAll(ps[1..])
  }

  lemma {:induction false} BytesAtLeast(s: string)
    ensures Bytes(s) >= |s|
  {
    if s != "" {
      BytesAtLeast(s[1..]);
    }
  }

  lemma {:induction false} BytesOfA(level: string)
    requires forall i :: 0 <= i < |level| ==> level[i] == 'a'
    ensures Bytes(level) == |level|
  {
    if level != "" {
      BytesOfA(level[1..]);
    }
  }

  /** What a level costs the patterns pays for a level that none of them spells, with two to spare
      if one of them was just "+". */
  lemma {:induction false} TailsCost(ps: Patterns, head: string)
    ensures CostAll(Tails(ps, head)) + HeadSize(ps) <= CostAll(ps)
    ensures [] in Tails(ps, "+") ==> CostAll(Tails(ps, "+")) + HeadSize(ps) + 2 <= CostAll(ps)
  {
    hide Bytes;
    if ps != [] {
      TailsCost(ps[1..], head);
      TailsCost(ps[1..], "+");
      FirstCost(ps, head);
      FirstCost(ps, "+");
      if ps[0] != [] {
        BytesAtLeast(ps[0][0]);
      }
      if !Takes(ps[0], "+") {
        assert Tails(ps, "+") == Tails(ps[1..], "+");
      }
    }
  }

  lemma FirstCost(ps: Patterns, head: string)
    requires ps != []
    ensures CostAll(Tails(ps, head))
      == (if Takes(ps[0], head) then Delivery.Cost(ps[0][1..]) else 0) + CostAll(Tails(ps[1..], head))
  {
    if Takes(ps[0], head) {
      assert Tails(ps, head)[1..] == Tails(ps[1..], head);
    } else {
      assert Tails(ps, head) == Tails(ps[1..], head);
    }
  }

  lemma UnspelledCost(ps: Patterns, t: Levels)
    ensures Delivery.Cost([Unspelled(ps)] + t) == HeadSize(ps) + 2 + Delivery.Cost(t)
  {
    BytesOfA(Unspelled(ps));
    assert ([Unspelled(ps)] + t)[1..] == t;
  }

  lemma {:induction false} OpenCost(ps: Patterns)
    ensures Delivery.Cost(OpenWitness(ps)) <= 2 + CostAll(ps)
    decreases Total(ps)
  {
    hide Delivery.Cost, Unspelled, CostAll;
    var rest := Tails(ps, "+");
    TotalTails(ps, "+");
    TailsCost(ps, "+");
    if [] in rest {
      OpenCost(rest);
      UnspelledCost(ps, OpenWitness(rest));
    } else {
      UnspelledCost(ps, []);
      NoCost();
    }
  }

  lemma NoCost()
    ensures Delivery.Cost([]) == 0 && Delivery.Cost(["#"]) == 2 && Bytes("+") == 1
  {
    assert Bytes("+") == 1 && Bytes("#") == 1 && ["#"][1..] == [];
  }

  lemma {:induction false} WitnessCost(ps: Patterns, f: Levels, parent: bool)
    requires Delivery.FilterLevels(f)
    ensures Delivery.Cost(Witness(ps, f, parent)) <= Delivery.Cost(f) + CostAll(ps)
    decreases |f|
  {
    hide Unspelled, CostAll, Bytes, OpenWitness, Delivery.FilterLevels;
    if f != [] {
      Delivery.TailOk(f);
      NoCost();
      if f[0] == "#" {
        OpenCost(ps);
      } else {
        var u := Witness(Tails(ps, f[0]), f[1..], parent);
        WitnessCost(Tails(ps, f[0]), f[1..], parent);
        TailsCost(ps, f[0]);
        UnspelledCost(ps, u);
        assert ([f[0]] + u)[1..] == u;
      }
    }
  }

  lemma {:induction false} TopicCost(ps: Patterns, f: Levels)
    requires f != [] && Delivery.FilterLevels(f)
    ensures Delivery.Cost(TopicWitness(ps, f)) <= Delivery.Cost(f) + CostAll(ps)
  {
    hide CostAll, Bytes, OpenWitness, Delivery.FilterLevels;
    Delivery.TailOk(f);
    NoCost();
    if f[0] == "#" {
      OpenCost(ps);
    } else if f == ["", "#"] {
      OpenCost(Tails(ps, ""));
      TailsCost(ps, "");
      assert TopicWitness(ps, f)[1..] == OpenWitness(Tails(ps, "")) && f[1..] == ["#"];
    } else {
      WitnessCost(ps, f, true);
    }
  }

  // ----- The same of texts, and of the whole decision -----

  lemma {:induction false} WitnessPublishable(ps: Patterns, f: Levels, maxLevels: nat)
    requires f != [] && f != [""] && Delivery.FilterLevels(f) && Within(|f|, LevelLimit(maxLevels))
    requires !CoversTopics(ps, f, LevelLimit(maxLevels)) && Delivery.Cost(f) + CostAll(ps) <= MAX_BYTES + 1
    ensures Delivery.Publishable(TopicWitness(ps, f), maxLevels)
  {
    hide CostAll, Bytes, Delivery.Cost, TopicWitness, CoversTopics, AnyLevels, BrokerLevels;
    var t := TopicWitness(ps, f);
    TopicsComplete(ps, f, LevelLimit(maxLevels));
    TopicCost(ps, f);
    forall i | 0 <= i < |t| ensures Delivery.PlainLevel(t[i]) {
      if !AllA(t[i]) {
        var j :| 0 <= j < |f| && f[j] == t[i];
        assert Delivery.FilterLevel(f[j], j == |f| - 1);
      }
    }
  }

  /** A topic that can be published, is delivered, and that no pattern allows. */
  lemma {:induction false} UncoveredByAll(patterns: seq<string>, client: string, username: Option<string>,
                                          filter: string, maxLevels: nat) returns (topic: string)
    requires ValidFilter(filter, maxLevels)
    requires Bytes(filter) + CostAll(Filled(patterns, client, username)) <= MAX_BYTES
    requires !CoversTopics(Filled(patterns, client, username), LevelsOf(Stored(filter)), LevelLimit(maxLevels))
    ensures ValidName(topic, maxLevels) && BrokerMatches(Stored(filter), topic)
    ensures !AnyMatches(patterns, topic, client, username)
  {
    hide Bytes, Delivery.Cost, CostAll, Split, Join, BrokerLevels, AnyLevels, AnyMatches, Filled,
         CoversTopics, TopicWitness, SubscriptionSpec.ParseShared, WildcardsOk;
    var ps, f := Filled(patterns, client, username), LevelsOf(Stored(filter));
    Delivery.StoredSuffix(filter);
    Delivery.AcceptedLevels(Stored(filter), maxLevels);
    StoredCost(filter);
    TopicsComplete(ps, f, LevelLimit(maxLevels));
    WitnessPublishable(ps, f, maxLevels);
    var t := TopicWitness(ps, f);
    Delivery.PublishedName(t, maxLevels);
    topic := Join(t, '/');
    Delivery.WildStart(Stored(filter));
    FirstLevel(topic, '$');
    FilledAny(patterns, topic, client, username);
  }

  lemma StoredCost(filter: string)
    requires filter != ""
    ensures Delivery.Cost(LevelsOf(Stored(filter))) <= Bytes(filter) + 1
  {
    hide Bytes, Delivery.Cost, SubscriptionSpec.ParseShared;
    Delivery.StoredSuffix(filter);
    JoinSplit(Stored(filter), '/');
    Delivery.CostOfJoin(LevelsOf(Stored(filter)));
  }

  lemma {:induction false} CoveredByAll(patterns: seq<string>, client: string, username: Option<string>,
                                        filter: string, maxLevels: nat, topic: string)
    requires CoversTopics(Filled(patterns, client, username), LevelsOf(Stored(filter)), LevelLimit(maxLevels))
    requires ValidName(topic, maxLevels) && BrokerMatches(Stored(filter), topic)
    ensures AnyMatches(patterns, topic, client, username)
  {
    hide Bytes, Split, BrokerLevels, AnyLevels, AnyMatches, Filled, CoversTopics, SubscriptionSpec.ParseShared;
    Delivery.NameLevels(topic, maxLevels);
    TopicsSound(Filled(patterns, client, username), LevelsOf(Stored(filter)), LevelLimit(maxLevels), LevelsOf(topic));
    FilledAny(patterns, topic, client, username);
  }

  /** The patterns that decide a user's requests. */
  function InForce(rules: Rules, users: map<string, Auth.UserEntry>, who: Option<string>, action: Action): seq<string> {
    var role := RoleOf(rules, users, who);
    (if role.Some? then RolePatterns(role.value, action) else []) + DefaultPatterns(rules, action)
  }

  lemma {:induction false} DecidedByAll(rules: Rules, users: map<string, Auth.UserEntry>, bound: Option<string>,
                                        client: string, username: Option<string>, subject: string, action: Action)
    requires rules.enabled
    ensures var who := Effective(bound, username);
      Permits(rules, users, bound, client, username, subject, action)
      <==> AnyMatches(InForce(rules, users, who, action), subject, client, who)
  {
    hide MatchesPattern;
    var who := Effective(bound, username);
    var role, defaults := RoleOf(rules, users, who), DefaultPatterns(rules, action);
    var first := if role.Some? then RolePatterns(role.value, action) else [];
    var all := first + defaults;
    if i :| 0 <= i < |first| && MatchesPattern(first[i], subject, client, who) {
      assert all[i] == first[i];
    }
    if i :| 0 <= i < |defaults| && MatchesPattern(defaults[i], subject, client, who) {
      assert all[|first| + i] == defaults[i];
    }
    if i :| 0 <= i < |all| && MatchesPattern(all[i], subject, client, who) {
      assert if i < |first| then all[i] == first[i] else all[i] == defaults[i - |first|];
    }
  }

  /** A user's subscription, once the broker accepts its filter, brings in only messages that the
      user's own rules for subscribing allow, over all topics that can be published, exactly when
      the patterns in force together cover what the store keeps of the filter.  The filter and the
      patterns must leave room in a topic for levels that no pattern spells. */
  lemma {:induction false} PermittedDeliveryIff(rules: Rules, users: map<string, Auth.UserEntry>, bound: Option<string>,
                                                client: string, username: Option<string>,
                                                filter: string, maxLevels: nat)
    requires rules.enabled && ValidFilter(filter, maxLevels)
    requires var who := Effective(bound, username);
      Bytes(filter) + CostAll(Filled(InForce(rules, users, who, Subscribe), client, who)) <= MAX_BYTES
    ensures var who := Effective(bound, username);
      (forall topic :: ValidName(topic, maxLevels) && BrokerMatches(Stored(filter), topic) ==>
         Permits(rules, users, bound, client, username, topic, Subscribe))
      <==> CoversTopics(Filled(InForce(rules, users, who, Subscribe), client, who),
                        LevelsOf(Stored(filter)), LevelLimit(maxLevels))
  {
    hide Permits, AnyMatches, Filled, CoversTopics, InForce, ValidName, ValidFilter, BrokerMatches, Bytes, CostAll;
    var who := Effective(bound, username);
    var patterns := InForce(rules, users, who, Subscribe);
    if CoversTopics(Filled(patterns, client, who), LevelsOf(Stored(filter)), LevelLimit(maxLevels)) {
      forall topic | ValidName(topic, maxLevels) && BrokerMatches(Stored(filter), topic)
        ensures Permits(rules, users, bound, client, username, topic, Subscribe) {
        CoveredByAll(patterns, client, who, filter, maxLevels, topic);
        DecidedByAll(rules, users, bound, client, username, topic, Subscribe);
      }
    } else {
      var topic := UncoveredByAll(patterns, client, who, filter, maxLevels);
      DecidedByAll(rules, users, bound, client, username, topic, Subscribe);
      assert ValidName(topic, maxLevels) && BrokerMatches(Stored(filter), topic)
             && !Permits(rules, users, bound, client, username, topic, Subscribe);
    }
  }

  /** Accepted filters are well-formed in the sense of the standard, and of isolating patterns. */
  lemma AcceptedWellFormed(filter: string, maxLevels: nat)
    requires ValidFilter(filter, maxLevels)
    ensures HashLast(LevelsOf(Stored(filter))) && WholeWildcards(LevelsOf(Stored(filter)))
  {
    var f := LevelsOf(Stored(filter));
    forall i | 0 <= i < |f| ensures LevelOk(f[i], i == |f| - 1) {
    }
  }

  // ----- Lists of one pattern -----

  lemma OneTails(p: Levels, head: string)
    ensures Tails([p], head) == if Takes(p, head) then [p[1..]] else []
  {
    assert [p][1..] == [];
  }

  lemma OneHash(p: Levels)
    ensures HasHash([p]) <==> p != [] && p[0] == "#"
  {
    assert [p][0] == p;
  }

  lemma NonePatterns(f: Levels, room: Limit)
    ensures !CoversAny([], f, room, true)
    ensures room != Some(0) ==> !Open([], room)
    decreases |f|
  {
    if f != [] && f[0] != "#" {
      NonePatterns(f[1..], Less(room));
    }
  }

  lemma {:induction false} OneOpen(p: Levels, room: Limit)
    requires room != Some(0)
    ensures Open([p], room) <==> Delivery.Open(p, room == Some(1))
  {
    hide HasHash;
    OneTails(p, "+");
    OneHash(p);
    if p == ["+"] {
      assert p[1..] == [];
      NoLevelsOpen(Less(room));
    }
  }

  lemma NoLevelsOpen(room: Limit)
    ensures Open([[]], room) <==> room == Some(0)
  {
    OneTails([], "+");
    OneHash([]);
  }

  lemma {:induction false} OneRest(p: Levels, f: Levels, room: Limit)
    requires Within(|f|, room)
    ensures CoversAny([p], f, room, true) <==> Delivery.CoversRest(p, f)
    decreases |f|
  {
    hide HasHash, Open;
    if f != [] {
      if f[0] == "#" {
        NoLevelsOpen(room);
      } else {
        OneTails(p, f[0]);
        OneHash(p);
        if Takes(p, f[0]) {
          OneRest(p[1..], f[1..], Less(room));
        } else {
          NonePatterns(f[1..], Less(room));
        }
      }
    }
  }

  /** For a list of one pattern this is the condition on that pattern. */
  lemma {:induction false} OnePattern(p: Levels, f: Levels, maxLevels: nat)
    requires p != [] && f != [] && Within(|f|, LevelLimit(maxLevels))
    ensures CoversTopics([p], f, LevelLimit(maxLevels)) <==> Delivery.Covers(p, f, maxLevels)
  {
    hide HasHash, Open, CoversAny, Delivery.Open, Delivery.CoversRest;
    var room := LevelLimit(maxLevels);
    OneHash(p);
    if f[0] == "#" {
      OneOpen(p, room);
    } else if f == ["", "#"] {
      OneTails(p, "");
      if Takes(p, "") {
        OneOpen(p[1..], Less(room));
      } else {
        NonePatterns([], Less(room));
      }
    } else {
      OneRest(p, f, room);
      RestUnfolds(p, f);
    }
  }

  lemma RestUnfolds(p: Levels, f: Levels)
    requires p != [] && f != [] && f[0] != "#"
    ensures Delivery.CoversRest(p, f) <==>
      p[0] == "#" || (Delivery.Allows(p[0], f[0]) && Delivery.CoversRest(p[1..], f[1..]))
  {
  }

  /** The patterns "a" and "a/#" together cover the filter "a/#"; neither does alone. */
  lemma {:induction false} OnlyTogether()
    ensures var f := ["a", "#"];
      && CoversTopics([["a"], ["a", "#"]], f, None)
      && !Delivery.Covers(["a"], f, 0) && !Delivery.Covers(["a", "#"], f, 0)
  {
    var f := ["a", "#"];
    var ps := [["a"], ["a", "#"]];
    assert f[1..] == ["#"] && ["a"][1..] == [];
    assert ps[1..] == [["a", "#"]] && ps[1..][1..] == [];
    assert Tails(ps[1..], "a") == [["#"]];
    assert Tails(ps, "a") == [[], ["#"]];
    assert Tails(ps, "a")[1] == ["#"] && Tails(ps, "a")[0] == [];
  }
}
