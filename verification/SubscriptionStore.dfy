/** The store itself: the trie, its cache of answers and the turn counters of the groups. */
module SubscriptionStores {
  import opened Wrappers
  import opened Text
  import opened TopicMatch
  import opened TopicTries
  import opened RoundRobin
  import opened SubscriptionSpec

  const TOPIC_CACHE_MAX_SIZE := 1024

  datatype CachedMatch = CachedMatch(subscriptions: seq<Subscription>, generation: nat)

  /** Cached answers of the current generation are right, and have no group in them. */
  ghost predicate CacheOk(trie: Trie, cache: map<string, CachedMatch>, generation: nat) {
    forall topic :: topic in cache ==>
      && cache[topic].generation <= generation
      && (cache[topic].generation == generation ==>
           GroupsOf(Audience(trie, topic)) == {} && cache[topic].subscriptions == Audience(trie, topic))
  }

  lemma {:induction false} InsertSame<V>(n: Node<V>, f: Levels)
    requires Get(n, f).Some?
    ensures Insert(n, f, Get(n, f).value) == n
    decreases |f|
  {
    if f != [] && f[0] != "#" {
      var child := Child(n, f[0]).value;
      InsertSame(child, f[1..]);
      assert f[0] != "+" ==> n.children[f[0] := child] == n.children;
    }
  }

  /** Something was there to remove exactly when the list got shorter. */
  lemma RemovedIff(trie: Trie, table: Table, f: Levels, client: string, group: Option<string>)
    requires Holds(trie, table)
    ensures |Retain(At(trie, f), client, group)| != |At(trie, f)| <==> Key(Canon(f), client, group) in table
    ensures Key(Canon(f), client, group) !in table ==> Drop(trie, f, client, group) == trie
  {
    hide Get, Canon, Insert, Remove, Keep;
    var subs, k := At(trie, f), Key(Canon(f), client, group);
    KeepLength(subs, NotIn(client, group));
    RetainLaws(subs, client, group);
    if k in table {
      HoldsList(trie, table, f);
      CanonTwice(f);
      HoldsRow(trie, table, f, table[k]);
      assert table[k] in subs && table[k] !in Retain(subs, client, group);
    } else {
      AllRetained(trie, table, f, client, group);
      if Get(trie, f).Some? {
        InsertSame(trie, f);
      }
    }
  }

  lemma AllRetained(trie: Trie, table: Table, f: Levels, client: string, group: Option<string>)
    requires Holds(trie, table) && Key(Canon(f), client, group) !in table
    ensures Retain(At(trie, f), client, group) == At(trie, f) && Get(trie, f) != Some([])
  {
    hide Get, Canon;
    var subs := At(trie, f);
    forall i | 0 <= i < |subs| ensures NotIn(client, group)(subs[i]) {
      HoldsRow(trie, table, f, subs[i]);
    }
    KeepAll(subs, NotIn(client, group));
  }

  lemma {:induction false} KeepAll(subs: seq<Subscription>, keep: Subscription -> bool)
    requires forall i :: 0 <= i < |subs| ==> keep(subs[i])
    ensures Keep(subs, keep) == subs
  {
    if subs != [] {
      KeepAll(subs[..|subs| - 1], keep);
    }
  }

  class SubscriptionStore {
    var trie: Trie
    var shareCounters: map<string, nat>
    var topicCache: map<string, CachedMatch>
    var generation: nat
    ghost var changes: seq<Change>

    ghost function Rows(): Table
      reads this
    {
      TableAfter(changes)
    }

    ghost predicate Valid()
      reads this
    {
      && Holds(trie, Rows()) && CacheOk(trie, topicCache, generation)
      && forall g :: g in shareCounters ==> shareCounters[g] < USIZE
    }

    constructor ()
      ensures Valid() && changes == []
    {
      trie, shareCounters, topicCache, generation, changes := Empty(), map[], map[], 0, [];
      new;
      EmptyHolds();
    }

    /** Whatever was cached is out of date from here on. */
    method InvalidateCache()
      requires forall topic :: topic in topicCache ==> topicCache[topic].generation <= generation
      modifies this`generation, this`topicCache
      ensures CacheOk(trie, topicCache, generation) && generation == old(generation) + 1
      ensures topicCache == if |old(topicCache)| > 2048 then map[] else old(topicCache)
    {
      generation := generation + 1;
      if |topicCache| > TOPIC_CACHE_MAX_SIZE * 2 {
        topicCache := map[];
      }
    }

    /** The client's subscription at that filter and group is now this one; nothing else changes. */
    method Subscribe(filter: string, subscription: Subscription)
      requires Valid()
      modifies this
      ensures Valid()
      ensures changes == old(changes) + [Subscribed(filter, subscription)]
      ensures generation == old(generation) + 1
      ensures forall g :: Counter(shareCounters, g) == Counter(old(shareCounters), g)
    {
      hide Holds, TableAfter, Get, Put, LevelsOf, Insert, Retain, Audience;
      var target, sub := filter, subscription;
      var shared := ParseShared(filter);
      if shared.Some? {
        sub := sub.(shareGroup := Some(shared.value.0));
        if shared.value.0 !in shareCounters {
          shareCounters := shareCounters[shared.value.0 := 0];
        }
        target := shared.value.1;
      }
      TableStep(changes, Subscribed(filter, subscription));
      PutHolds(trie, Rows(), LevelsOf(target), sub);
      PutCases(trie, LevelsOf(target), sub);
      var subs := Get(trie, LevelsOf(target));
      if subs.Some? {
        trie := Insert(trie, LevelsOf(target), Retain(subs.value, sub.clientId, sub.shareGroup) + [sub]);
      } else {
        trie := Insert(trie, LevelsOf(target), [sub]);
      }
      changes := changes + [Subscribed(filter, subscription)];
      InvalidateCache();
    }

    /** True exactly when there was such a subscription, which is then gone. */
    method Unsubscribe(filter: string, client: string) returns (removed: bool)
      requires Valid()
      modifies this
      ensures Valid()
      ensures removed == (KeyFor(filter, client) in old(Rows()))
      ensures changes == old(changes) + [Unsubscribed(filter, client)] && shareCounters == old(shareCounters)
      ensures if removed then generation == old(generation) + 1
              else generation == old(generation) && topicCache == old(topicCache) && trie == old(trie)
    {
      hide Holds, TableAfter, Get, LevelsOf, Insert, Remove, Retain, Canon, Audience;
      var target, group := filter, None;
      var shared := ParseShared(filter);
      if shared.Some? {
        target, group := shared.value.1, Some(shared.value.0);
      }
      var f := LevelsOf(target);
      TableStep(changes, Unsubscribed(filter, client));
      DropHolds(trie, Rows(), f, client, group);
      RemovedIff(trie, Rows(), f, client, group);
      NothingRetained(client, group);
      var subs := Get(trie, f);
      removed := false;
      if subs.Some? {
        var kept := Retain(subs.value, client, group);
        removed := |kept| != |subs.value|;
        trie := if kept == [] then Remove(trie, f) else Insert(trie, f, kept);
      }
      changes := changes + [Unsubscribed(filter, client)];
      if removed {
        InvalidateCache();
      }
    }

    method UnsubscribeAll(client: string)
      requires Valid()
      modifies this
      ensures Valid() && changes == old(changes) + [ClientGone(client)] && shareCounters == old(shareCounters)
      ensures generation == old(generation) + 1
    {
      hide Holds, TableAfter, DropClient, Audience;
      TableStep(changes, ClientGone(client));
      DropClientHolds(trie, Rows(), client);
      trie, changes := DropClient(trie, client), changes + [ClientGone(client)];
      InvalidateCache();
    }

    /** The subscriptions outside groups that stand at matching filters, then one member of each
        group whose turn it is; the cache makes no difference to the answer. */
    method Matches(topic: string) returns (result: seq<Subscription>, ghost order: seq<string>)
      requires Valid()
      modifies this`topicCache, this`shareCounters
      ensures Valid()
      ensures var all := Audience(trie, topic);
        var plain := Keep(all, Unshared());
        plain <= result && OnePerGroup(all, order, old(shareCounters), result[|plain|..])
      ensures forall g ::
        Counter(shareCounters, g) == Advanced(old(shareCounters), g in GroupsOf(Audience(trie, topic)), g)
      ensures forall s :: s in result ==> Serves(changes, topic, s)
      ensures forall s :: Serves(changes, topic, s) && s.shareGroup.None? ==> s in result
      ensures forall s :: Serves(changes, topic, s) && s.shareGroup.Some? ==>
        exists i :: 0 <= i < |result| && result[i].shareGroup == s.shareGroup
      ensures topicCache ==
        if topic in old(topicCache) && old(topicCache)[topic].generation == generation then old(topicCache)
        else if GroupsOf(Audience(trie, topic)) == {} && |old(topicCache)| < 1024
        then old(topicCache)[topic := CachedMatch(result, generation)] else old(topicCache)
    {
      hide Serves, TableAfter, Holds, Audience, Keep, GroupsOf, Found, Values, Flat, OnePerGroup, Tick;
      ghost var all := Audience(trie, topic);
      if topic in topicCache && topicCache[topic].generation == generation {
        NoGroups(all, shareCounters);
        order := [];
        result := topicCache[topic].subscriptions;
        ServedAll(changes, trie, topic, order, shareCounters, result);
        return;
      }
      var lists := MatchesRecursive(trie, LevelsOf(topic), 0, StartsWith(topic, '$'));
      AudienceIsFlat(trie, topic);
      var groups, hasShared;
      result, groups, hasShared := Collect(lists);
      ghost var plain := result;
      var picks;
      picks, order := TakeTurns(all, groups);
      result := result + picks;
      assert result[|plain|..] == picks;
      if !hasShared && |topicCache| < TOPIC_CACHE_MAX_SIZE {
        NoGroups(all, old(shareCounters));
        topicCache := topicCache[topic := CachedMatch(result, generation)];
      }
      ServedAll(changes, trie, topic, order, old(shareCounters), result);
    }

    /** Messages on one topic with no change in between: in the k-th answer each group is served by
        its member at the slot that its counter has reached. */
    method MatchesRepeatedly(topic: string, n: nat) returns (results: seq<seq<Subscription>>)
      requires Valid()
      modifies this`topicCache, this`shareCounters
      ensures Valid() && |results| == n
      ensures forall k: nat, g :: k < n && g in GroupsOf(Audience(trie, topic)) ==>
        ServedBy(results[k], Audience(trie, topic), g, After(Counter(old(shareCounters), g), k))
    {
      hide Holds, TableAfter, CacheOk, Audience, Keep, GroupsOf, ServedBy, After, Tick, OnePerGroup, Serves;
      results := [];
      ghost var all := Audience(trie, topic);
      ghost var start := shareCounters;
      CountersBounded(start);
      for k := 0 to n
        invariant Valid() && |results| == k
        invariant forall g :: g in GroupsOf(all) ==> Counter(shareCounters, g) == After(Counter(start, g), k)
        invariant forall j: nat, g :: j < k && g in GroupsOf(all) ==>
          ServedBy(results[j], all, g, After(Counter(start, g), j))
      {
        ghost var before := shareCounters;
        ghost var order;
        var result;
        result, order := Matches(topic);
        forall g | g in GroupsOf(all)
          ensures ServedBy(result, all, g, Counter(before, g))
            && Counter(shareCounters, g) == After(Counter(start, g), k + 1)
        {
          ServedInTurn(all, order, before, result, g);
          AfterStep(Counter(start, g), k);
        }
        results := results + [result];
      }
    }

    /** A subscriber of each group, by round robin. */
    method TakeTurns(ghost all: seq<Subscription>, groups: map<string, seq<Subscription>>)
      returns (picks: seq<Subscription>, ghost order: seq<string>)
      requires groups.Keys == GroupsOf(all) && forall g :: g in groups ==> groups[g] == Keep(all, InGroup(g))
      modifies this`shareCounters
      ensures OnePerGroup(all, order, old(shareCounters), picks) && (GroupsOf(all) == {} ==> picks == [])
      ensures forall g :: Counter(shareCounters, g) == Advanced(old(shareCounters), g in GroupsOf(all), g)
      ensures forall g :: g in shareCounters ==> shareCounters[g] == Counter(shareCounters, g)
    {
      hide Keep, GroupsOf, Member, Tick;
      picks, order := [], [];
      var left := groups.Keys;
      while left != {}
        invariant |picks| == |order| && left <= groups.Keys && (groups.Keys == {} ==> order == [])
        invariant forall x :: x in order <==> x in groups && x !in left
        invariant forall i, j :: 0 <= i < j < |order| ==> order[i] != order[j]
        invariant forall i :: 0 <= i < |order| ==>
          Keep(all, InGroup(order[i])) != [] && picks[i] == Turn(all, order[i], Counter(old(shareCounters), order[i]))
        invariant forall x :: Counter(shareCounters, x) == Advanced(old(shareCounters), x in order, x)
        decreases left
      {
        var g :| g in left;
        var subs := groups[g];
        GroupNotEmpty(all, g);
        var count := Counter(shareCounters, g);
        shareCounters := shareCounters[g := Tick(count)];
        picks, order := picks + [Member(subs, count)], order + [g];
        left := left - {g};
      }
    }
  }

  lemma TableStep(changes: seq<Change>, change: Change)
    ensures TableAfter(changes + [change]) == Applied(TableAfter(changes), change)
  {
    assert (changes + [change])[..|changes|] == changes;
  }

  /** What a complete answer serves, in terms of the changes. */
  lemma ServedAll(changes: seq<Change>, trie: Trie, topic: string, order: seq<string>, counters: map<string, nat>,
                  result: seq<Subscription>)
    requires Holds(trie, TableAfter(changes))
    requires var all := Audience(trie, topic); var plain := Keep(all, Unshared());
      plain <= result && OnePerGroup(all, order, counters, result[|plain|..])
    ensures forall s :: s in result ==> Serves(changes, topic, s)
    ensures forall s :: Serves(changes, topic, s) && s.shareGroup.None? ==> s in result
    ensures forall s :: Serves(changes, topic, s) && s.shareGroup.Some? ==>
      exists i :: 0 <= i < |result| && result[i].shareGroup == s.shareGroup
  {
    hide Holds, TableAfter, Audience, Keep, Serves;
    var all := Audience(trie, topic);
    var plain := Keep(all, Unshared());
    var picks := result[|plain|..];
    assert result == plain + picks;
    forall s ensures s in all <==> Serves(changes, topic, s) {
      AudienceIff(changes, trie, topic, s);
    }
    forall s ensures s in plain <==> s in all && s.shareGroup.None? {
      KeepIn(all, Unshared(), s);
    }
    forall i | 0 <= i < |picks| ensures picks[i] in all && picks[i].shareGroup == Some(order[i]) {
      PickIsMember(all, order[i], Counter(counters, order[i]));
    }
    forall s | s in all && s.shareGroup.Some?
      ensures exists i :: 0 <= i < |result| && result[i].shareGroup == s.shareGroup {
      var n :| 0 <= n < |all| && all[n] == s;
      assert s.shareGroup.value in GroupsOf(all);
      var i :| 0 <= i < |order| && order[i] == s.shareGroup.value;
      assert result[|plain| + i] == picks[i];
    }
  }

  /** The group's one message goes to the member at the slot the count comes to. */
  ghost predicate ServedBy(result: seq<Subscription>, all: seq<Subscription>, group: string, count: nat) {
    var members := Keep(all, InGroup(group));
    members != [] &&
    exists i :: 0 <= i < |result| && result[i] == Member(members, count) &&
      forall j :: 0 <= j < |result| && result[j].shareGroup == Some(group) ==> j == i
  }

  lemma CountersBounded(counters: map<string, nat>)
    requires forall g :: g in counters ==> counters[g] < USIZE
    ensures forall g :: Counter(counters, g) < USIZE && After(Counter(counters, g), 0) == Counter(counters, g)
  {
  }

  lemma ServedInTurn(all: seq<Subscription>, order: seq<string>, counters: map<string, nat>, result: seq<Subscription>,
                     group: string)
    requires group in GroupsOf(all)
    requires var plain := Keep(all, Unshared()); plain <= result && OnePerGroup(all, order, counters, result[|plain|..])
    ensures ServedBy(result, all, group, Counter(counters, group))
  {
    hide Keep, GroupsOf, Member;
    var plain := Keep(all, Unshared());
    var picks := result[|plain|..];
    assert result == plain + picks;
    var n :| 0 <= n < |order| && order[n] == group;
    var i := |plain| + n;
    assert result[i] == picks[n] == Member(Keep(all, InGroup(group)), Counter(counters, group));
    forall j | 0 <= j < |result| && result[j].shareGroup == Some(group) ensures j == i {
      if j < |plain| {
        KeepIn(all, Unshared(), plain[j]);
      } else {
        assert result[j] == picks[j - |plain|];
        PickIsMember(all, order[j - |plain|], Counter(counters, order[j - |plain|]));
      }
    }
  }

  /** As many messages as a group has members, with no change in between, go to each member exactly
      once if and only if the counter does not wrap among them or the number divides 2^64. */
  lemma {:induction false} RoundServesAll(counters: map<string, nat>, all: seq<Subscription>, group: string)
    requires group in GroupsOf(all) && Counter(counters, group) < USIZE && |all| <= USIZE
    ensures var members := Keep(all, InGroup(group));
      && 0 < |members| <= USIZE
      && ((forall i: nat :: i < |members| ==> HasTurn(Counter(counters, group), |members|, i))
          <==> Even(Counter(counters, group), |members|))
  {
    hide Keep, HasTurn, Even;
    GroupNotEmpty(all, group);
    KeepLength(all, InGroup(group));
    EveryoneInTurnIff(Counter(counters, group), |Keep(all, InGroup(group))|);
  }

  lemma PickIsMember(all: seq<Subscription>, group: string, count: nat)
    requires Keep(all, InGroup(group)) != []
    ensures Turn(all, group, count) in all && Turn(all, group, count).shareGroup == Some(group)
  {
    KeepIn(all, InGroup(group), Turn(all, group, count));
  }

  function Advanced(counters: map<string, nat>, served: bool, g: string): nat {
    if served then Tick(Counter(counters, g)) else Counter(counters, g)
  }

  lemma NoGroups(subs: seq<Subscription>, counters: map<string, nat>)
    requires GroupsOf(subs) == {}
    ensures Keep(subs, Unshared()) == subs && OnePerGroup(subs, [], counters, subs[|subs|..])
  {
    forall i | 0 <= i < |subs| ensures Unshared()(subs[i]) {
      assert subs[i].shareGroup.Some? ==> subs[i].shareGroup.value in GroupsOf(subs);
    }
    KeepAll(subs, Unshared());
  }

  function Flat(lists: seq<seq<Subscription>>): seq<Subscription> {
    if lists == [] then [] else Flat(lists[..|lists| - 1]) + lists[|lists| - 1]
  }

  lemma {:induction false} FlatCons(list: seq<Subscription>, lists: seq<seq<Subscription>>)
    ensures Flat([list] + lists) == list + Flat(lists)
  {
    if lists == [] {
      assert ([list] + lists)[..0] == [];
    } else {
      var before, last := lists[..|lists| - 1], lists[|lists| - 1];
      FlatCons(list, before);
      assert ([list] + lists)[..|lists|] == [list] + before;
      Associative(list, Flat(before), last);
    }
  }

  lemma SubsOfEach(filter: Levels, subs: seq<Subscription>, rest: seq<Delivery>)
    ensures SubsOf(Each(filter, subs) + rest) == subs + SubsOf(rest)
  {
    hide SubsOf, Each;
    var ds := Each(filter, subs) + rest;
    forall i | 0 <= i < |ds| ensures SubsOf(ds)[i] == (subs + SubsOf(rest))[i] {
      assert ds[i] == if i < |subs| then Delivery(filter, subs[i]) else rest[i - |subs|];
    }
  }

  lemma {:induction false} SpreadIsFlat(hits: seq<Hit<seq<Subscription>>>)
    ensures SubsOf(Spread(hits)) == Flat(Values(hits))
  {
    if hits != [] {
      SpreadIsFlat(hits[1..]);
      SubsOfEach(hits[0].filter, hits[0].value, Spread(hits[1..]));
      FlatCons(hits[0].value, Values(hits[1..]));
    }
  }

  lemma AudienceIsFlat(trie: Trie, topic: string)
    ensures var levels := LevelsOf(topic);
      Audience(trie, topic) == Flat(Values(Found(trie, levels[0..], StartsWith(topic, '$') && 0 == 0)))
  {
    hide Found, Values, Flat, Spread;
    var levels := LevelsOf(topic);
    assert levels[0..] == levels;
    SpreadIsFlat(HitsOf(trie, topic));
  }

  /** Subscriptions sorted into those outside groups and the members of each group. */
  ghost predicate Sorted(seen: seq<Subscription>, plain: seq<Subscription>,
                         groups: map<string, seq<Subscription>>, hasShared: bool) {
    && plain == Keep(seen, Unshared()) && groups.Keys == GroupsOf(seen)
    && (forall g :: g in groups ==> groups[g] == Keep(seen, InGroup(g)))
    && hasShared == (GroupsOf(seen) != {})
  }

  lemma GroupsStep(seen: seq<Subscription>, sub: Subscription)
    ensures GroupsOf(seen + [sub]) == GroupsOf(seen) + if sub.shareGroup.Some? then {sub.shareGroup.value} else {}
  {
    var all := seen + [sub];
    forall g | g in GroupsOf(seen) ensures g in GroupsOf(all) {
      var i :| 0 <= i < |seen| && seen[i].shareGroup == Some(g);
      assert all[i].shareGroup == Some(g);
    }
    if sub.shareGroup.Some? {
      assert all[|seen|].shareGroup == sub.shareGroup;
    }
  }

  lemma KeepStep(seen: seq<Subscription>, sub: Subscription, keep: Subscription -> bool)
    ensures Keep(seen + [sub], keep) == Keep(seen, keep) + if keep(sub) then [sub] else []
  {
    assert (seen + [sub])[..|seen|] == seen;
  }

  method Collect(lists: seq<seq<Subscription>>)
    returns (plain: seq<Subscription>, groups: map<string, seq<Subscription>>, hasShared: bool)
    ensures Sorted(Flat(lists), plain, groups, hasShared)
  {
    hide Sorted, Flat;
    plain, groups, hasShared := [], map[], false;
    NothingSorted();
    for i := 0 to |lists|
      invariant Sorted(Flat(lists[..i]), plain, groups, hasShared)
    {
      ghost var seen := Flat(lists[..i]);
      assert seen + lists[i][..0] == seen;
      for j := 0 to |lists[i]|
        invariant Sorted(seen + lists[i][..j], plain, groups, hasShared)
      {
        assert seen + lists[i][..j + 1] == seen + lists[i][..j] + [lists[i][j]];
        plain, groups, hasShared := SortOne(seen + lists[i][..j], lists[i][j], plain, groups, hasShared);
      }
      FlatStep(lists, i);
      assert lists[i][..|lists[i]|] == lists[i];
    }
    assert lists[..|lists|] == lists;
  }

  lemma NothingSorted()
    ensures Sorted(Flat([]), [], map[], false)
  {
  }

  lemma FlatStep(lists: seq<seq<Subscription>>, i: nat)
    requires i < |lists|
    ensures Flat(lists[..i + 1]) == Flat(lists[..i]) + lists[i]
  {
    assert lists[..i + 1][..i] == lists[..i];
  }

  method SortOne(ghost seen: seq<Subscription>, sub: Subscription,
                 plain: seq<Subscription>, groups: map<string, seq<Subscription>>, hasShared: bool)
    returns (plain': seq<Subscription>, groups': map<string, seq<Subscription>>, hasShared': bool)
    requires Sorted(seen, plain, groups, hasShared)
    ensures Sorted(seen + [sub], plain', groups', hasShared')
  {
    hide Keep, GroupsOf;
    plain', groups', hasShared' := plain, groups, hasShared;
    GroupsStep(seen, sub);
    KeepStep(seen, sub, Unshared());
    forall g ensures Keep(seen + [sub], InGroup(g)) == Keep(seen, InGroup(g)) + if InGroup(g)(sub) then [sub] else [] {
      KeepStep(seen, sub, InGroup(g));
    }
    if sub.shareGroup.Some? {
      var group := sub.shareGroup.value;
      GroupNotEmpty(seen, group);
      hasShared' := true;
      groups' := groups[group := (if group in groups then groups[group] else []) + [sub]];
    } else {
      plain' := plain + [sub];
    }
  }

  lemma PutCases(trie: Trie, f: Levels, sub: Subscription)
    ensures Put(trie, f, sub) == Insert(trie, f,
      if Get(trie, f).Some? then Retain(Get(trie, f).value, sub.clientId, sub.shareGroup) + [sub] else [sub])
  {
    hide Insert, Get, Retain;
    NothingRetained(sub.clientId, sub.shareGroup);
    assert [] + [sub] == [sub];
  }
}
