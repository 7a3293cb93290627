/** The subscription store's content, as a table of who subscribed to what. */
module SubscriptionSpec {
  import opened Wrappers
  import opened Text
  import opened TopicMatch
  import opened TopicTries
  import opened RoundRobin

  datatype Options = Options(qos: nat, noLocal: bool, retainAsPublished: bool, subscriptionId: Option<nat>)

  datatype Subscription = Subscription(clientId: string, shareGroup: Option<string>, options: Options)

  type Trie = Node<seq<Subscription>>

  // ----- Shared subscriptions -----

  const SHARE_PREFIX := "$share/"

  /** The group and the filter proper, when the filter asks for a shared subscription. */
  function ParseShared(filter: string): Option<(string, string)> {
    if SHARE_PREFIX <= filter then
      var rest := filter[|SHARE_PREFIX|..];
      var group := LevelsOf(rest)[0];
      if |group| < |rest| && group != "" && rest[|group| + 1..] != "" then Some((group, rest[|group| + 1..]))
      else None
    else None
  }

  lemma {:induction false} FirstPiece(s: string, c: char)
    ensures var p := Split(s, c)[0]; p <= s && c !in p && (|p| < |s| ==> s[|p|] == c)
  {
    if s != "" && s[0] != c {
      FirstPiece(s[1..], c);
      assert s == [s[0]] + s[1..];
    }
  }

  /** Exactly "$share/", a group without a slash, a slash, and a filter, both not empty. */
  lemma {:induction false} ParseSharedIff(filter: string, group: string, actual: string)
    ensures ParseShared(filter) == Some((group, actual)) <==>
      && filter == SHARE_PREFIX + group + "/" + actual
      && group != "" && '/' !in group && actual != ""
  {
    if filter == SHARE_PREFIX + group + "/" + actual && '/' !in group && actual != "" && group != "" {
      ParsesBack(group, actual);
    }
    if ParseShared(filter) == Some((group, actual)) {
      var rest := filter[|SHARE_PREFIX|..];
      FirstPiece(rest, '/');
      assert rest == group + "/" + actual;
      assert filter == SHARE_PREFIX + rest;
    }
  }

  lemma ParsesBack(group: string, actual: string)
    requires group != "" && '/' !in group && actual != ""
    ensures ParseShared(SHARE_PREFIX + group + "/" + actual) == Some((group, actual))
  {
    var filter := SHARE_PREFIX + group + "/" + actual;
    var rest := filter[|SHARE_PREFIX|..];
    assert rest == group + "/" + actual;
    SplitAt(group, '/', actual);
    assert rest[|group| + 1..] == actual;
  }

  // ----- The lists in the trie -----

  function At(trie: Trie, f: Levels): seq<Subscription> {
    if Get(trie, f).Some? then Get(trie, f).value else []
  }

  /** The elements a condition keeps, in order. */
  function Keep(subs: seq<Subscription>, keep: Subscription -> bool): seq<Subscription> {
    if subs == [] then []
    else
      var last := subs[|subs| - 1];
      Keep(subs[..|subs| - 1], keep) + if keep(last) then [last] else []
  }

  /** All but a client's subscription in a group, or outside any. */
  function Retain(subs: seq<Subscription>, client: string, group: Option<string>): seq<Subscription> {
    Keep(subs, NotIn(client, group))
  }

  function NotIn(client: string, group: Option<string>): Subscription -> bool {
    (s: Subscription) => !(s.clientId == client && s.shareGroup == group)
  }

  function RetainOthers(subs: seq<Subscription>, client: string): seq<Subscription> {
    Keep(subs, NotBy(client))
  }

  function NotBy(client: string): Subscription -> bool {
    (s: Subscription) => s.clientId != client
  }

  ghost predicate Unique(subs: seq<Subscription>) {
    forall i, j :: 0 <= i < j < |subs| ==>
      !(subs[i].clientId == subs[j].clientId && subs[i].shareGroup == subs[j].shareGroup)
  }

  lemma {:induction false} KeepIn(subs: seq<Subscription>, keep: Subscription -> bool, s: Subscription)
    ensures s in Keep(subs, keep) <==> s in subs && keep(s)
  {
    if subs != [] {
      KeepIn(subs[..|subs| - 1], keep, s);
      assert subs == subs[..|subs| - 1] + [subs[|subs| - 1]];
    }
  }

  lemma {:induction false} KeepUnique(subs: seq<Subscription>, keep: Subscription -> bool)
    requires Unique(subs)
    ensures Unique(Keep(subs, keep))
  {
    if subs != [] {
      var before, last := subs[..|subs| - 1], subs[|subs| - 1];
      KeepUnique(before, keep);
      var kept := Keep(before, keep);
      forall i | 0 <= i < |kept| ensures kept[i].clientId != last.clientId || kept[i].shareGroup != last.shareGroup {
        KeepIn(before, keep, kept[i]);
        var j :| 0 <= j < |before| && before[j] == kept[i];
        assert subs[j] == kept[i];
      }
    }
  }

  lemma {:induction false} KeepLength(subs: seq<Subscription>, keep: Subscription -> bool)
    ensures |Keep(subs, keep)| <= |subs|
    ensures |Keep(subs, keep)| == |subs| <==> Keep(subs, keep) == subs
  {
    if subs != [] {
      KeepLength(subs[..|subs| - 1], keep);
      assert subs == subs[..|subs| - 1] + [subs[|subs| - 1]];
    }
  }

  lemma RetainLaws(subs: seq<Subscription>, client: string, group: Option<string>)
    ensures forall s :: s in Retain(subs, client, group) <==>
      s in subs && !(s.clientId == client && s.shareGroup == group)
    ensures Unique(subs) ==> Unique(Retain(subs, client, group))
  {
    hide Keep, Unique;
    var keep := NotIn(client, group);
    forall s ensures s in Keep(subs, keep) <==> s in subs && keep(s) {
      KeepIn(subs, keep, s);
    }
    if Unique(subs) {
      KeepUnique(subs, keep);
    }
  }

  lemma RetainOthersLaws(subs: seq<Subscription>, client: string)
    ensures forall s :: s in RetainOthers(subs, client) <==> s in subs && s.clientId != client
    ensures Unique(subs) ==> Unique(RetainOthers(subs, client))
  {
    hide Keep, Unique;
    var keep := NotBy(client);
    forall s ensures s in Keep(subs, keep) <==> s in subs && keep(s) {
      KeepIn(subs, keep, s);
    }
    if Unique(subs) {
      KeepUnique(subs, keep);
    }
  }

  // ----- The table -----

  datatype Key = Key(filter: Levels, clientId: string, shareGroup: Option<string>)

  type Table = map<Key, Subscription>

  function KeyOf(f: Levels, s: Subscription): Key {
    Key(Canon(f), s.clientId, s.shareGroup)
  }

  /** The trie holds just the table's rows, each once. */
  ghost predicate Holds(trie: Trie, table: Table) {
    && (forall g, s :: s in At(trie, g) <==> KeyOf(g, s) in table && table[KeyOf(g, s)] == s)
    && (forall g :: Unique(At(trie, g)))
    && (forall g :: Get(trie, g) != Some([]))
    && Rows(table)
  }

  ghost predicate Rows(table: Table) {
    forall k :: k in table ==> Canon(k.filter) == k.filter && KeyOf(k.filter, table[k]) == k
  }

  lemma HoldsRow(trie: Trie, table: Table, g: Levels, s: Subscription)
    requires Holds(trie, table)
    ensures s in At(trie, g) <==> KeyOf(g, s) in table && table[KeyOf(g, s)] == s
  {
  }

  lemma HoldsList(trie: Trie, table: Table, g: Levels)
    requires Holds(trie, table)
    ensures Unique(At(trie, g)) && Rows(table)
  {
  }

  lemma EmptyHolds()
    ensures Holds(Empty(), map[])
  {
    forall g ensures Get<seq<Subscription>>(Empty(), g) == None {
      GetEmpty<seq<Subscription>>(g);
    }
  }

  // ----- Changes -----

  /** A new subscription replaces the client's earlier one at the filter. */
  function Put(trie: Trie, f: Levels, sub: Subscription): Trie {
    Insert(trie, f, Retain(At(trie, f), sub.clientId, sub.shareGroup) + [sub])
  }

  function Drop(trie: Trie, f: Levels, client: string, group: Option<string>): Trie {
    if Get(trie, f).None? then trie
    else
      var kept := Retain(At(trie, f), client, group);
      if kept == [] then Remove(trie, f) else Insert(trie, f, kept)
  }

  function KeepOthers(client: string): seq<Subscription> -> Option<seq<Subscription>> {
    subs => Listed(RetainOthers(subs, client))
  }

  function DropClient(trie: Trie, client: string): Trie {
    Prune(trie, KeepOthers(client))
  }

  function Listed(subs: seq<Subscription>): Option<seq<Subscription>> {
    if subs == [] then None else Some(subs)
  }

  ghost predicate SameElsewhere(table: Table, table': Table, f: Levels) {
    forall k: Key :: k.filter != f ==> (k in table' <==> k in table) && (k in table ==> table'[k] == table[k])
  }

  /** One list replaced, the others kept: what that does to the table. */
  lemma Replaced(trie: Trie, table: Table, f: Levels, subs: seq<Subscription>, trie': Trie, table': Table)
    requires Holds(trie, table) && Unique(subs)
    requires forall g :: Get(trie', g) == (if Canon(f) == Canon(g) then Listed(subs) else Get(trie, g))
    requires forall s :: s in subs <==> KeyOf(f, s) in table' && table'[KeyOf(f, s)] == s
    requires SameElsewhere(table, table', Canon(f))
    requires Rows(table')
    ensures Holds(trie', table')
  {
    hide Get, Canon, Unique, Rows;
    forall g ensures Unique(At(trie', g)) && Get(trie', g) != Some([]) {
      HoldsList(trie, table, g);
    }
    forall g, s ensures s in At(trie', g) <==> KeyOf(g, s) in table' && table'[KeyOf(g, s)] == s {
      HoldsRow(trie, table, g, s);
      assert KeyOf(g, s).filter == Canon(g);
      assert Canon(f) == Canon(g) ==> KeyOf(f, s) == KeyOf(g, s);
    }
  }

  lemma {:induction false} PutHolds(trie: Trie, table: Table, f: Levels, sub: Subscription)
    requires Holds(trie, table)
    ensures Holds(Put(trie, f, sub), table[KeyOf(f, sub) := sub])
  {
    hide Retain, Insert, Get, Canon, Holds, At;
    var others := Retain(At(trie, f), sub.clientId, sub.shareGroup);
    var table' := table[KeyOf(f, sub) := sub];
    RetainLaws(At(trie, f), sub.clientId, sub.shareGroup);
    HoldsList(trie, table, f);
    forall g
      ensures Get(Put(trie, f, sub), g) == (if Canon(f) == Canon(g) then Listed(others + [sub]) else Get(trie, g)) {
      GetInsert(trie, f, others + [sub], g);
    }
    forall s ensures s in others + [sub] <==> KeyOf(f, s) in table' && table'[KeyOf(f, s)] == s {
      HoldsRow(trie, table, f, s);
    }
    CanonTwice(f);
    Replaced(trie, table, f, others + [sub], Put(trie, f, sub), table');
  }

  lemma CanonTwice(f: Levels)
    ensures Canon(Canon(f)) == Canon(f)
  {
    CanonLaws(Empty<bool>(), f, []);
  }

  lemma DropGet(trie: Trie, f: Levels, client: string, group: Option<string>, g: Levels)
    ensures Get(Drop(trie, f, client, group), g)
         == if Canon(f) == Canon(g) then Listed(Retain(At(trie, f), client, group)) else Get(trie, g)
  {
    hide Retain, Insert, Remove, Get, Canon;
    GetInsert(trie, f, Retain(At(trie, f), client, group), g);
    GetRemove(trie, f, g);
    NothingRetained(client, group);
    if Canon(f) == Canon(g) {
      SameCanon(trie, f, g);
    }
  }

  lemma {:induction false} DropHolds(trie: Trie, table: Table, f: Levels, client: string, group: Option<string>)
    requires Holds(trie, table)
    ensures Holds(Drop(trie, f, client, group), table - {Key(Canon(f), client, group)})
  {
    hide Retain, Get, Canon, Drop, Unique, Holds, At;
    var others := Retain(At(trie, f), client, group);
    var table' := table - {Key(Canon(f), client, group)};
    RetainLaws(At(trie, f), client, group);
    HoldsList(trie, table, f);
    forall g
      ensures Get(Drop(trie, f, client, group), g) == (if Canon(f) == Canon(g) then Listed(others) else Get(trie, g)) {
      DropGet(trie, f, client, group, g);
    }
    forall s ensures s in others <==> KeyOf(f, s) in table' && table'[KeyOf(f, s)] == s {
      HoldsRow(trie, table, f, s);
    }
    Replaced(trie, table, f, others, Drop(trie, f, client, group), table');
  }

  lemma SameCanon(trie: Trie, f: Levels, g: Levels)
    requires Canon(f) == Canon(g)
    ensures Get(trie, f) == Get(trie, g)
  {
    CanonLaws(trie, f, []);
    CanonLaws(trie, g, []);
  }

  lemma NothingRetained(client: string, group: Option<string>)
    ensures Retain([], client, group) == []
  {
  }

  ghost function WithoutClient(table: Table, client: string): Table {
    map k | k in table && k.clientId != client :: table[k]
  }

  lemma DropClientAt(trie: Trie, client: string, g: Levels)
    ensures At(DropClient(trie, client), g) == RetainOthers(At(trie, g), client)
    ensures Get(DropClient(trie, client), g) != Some([])
  {
    hide Get, Prune;
    GetPrune(trie, KeepOthers(client), g);
  }

  lemma {:induction false} DropClientHolds(trie: Trie, table: Table, client: string)
    requires Holds(trie, table)
    ensures Holds(DropClient(trie, client), WithoutClient(table, client))
  {
    hide Get, Canon, DropClient, RetainOthers, Unique, At;
    var trie', table' := DropClient(trie, client), WithoutClient(table, client);
    forall g ensures Unique(At(trie', g)) && Get(trie', g) != Some([]) {
      DropClientAt(trie, client, g);
      RetainOthersLaws(At(trie, g), client);
    }
    forall g, s ensures s in At(trie', g) <==> KeyOf(g, s) in table' && table'[KeyOf(g, s)] == s {
      DropClientAt(trie, client, g);
      RetainOthersLaws(At(trie, g), client);
      HoldsRow(trie, table, g, s);
    }
  }

  // ----- Who gets a message -----

  datatype Delivery = Delivery(filter: Levels, sub: Subscription)

  function Each(filter: Levels, subs: seq<Subscription>): (d: seq<Delivery>)
    ensures |d| == |subs| && forall i :: 0 <= i < |d| ==> d[i] == Delivery(filter, subs[i])
  {
    if subs == [] then [] else [Delivery(filter, subs[0])] + Each(filter, subs[1..])
  }

  function Spread(hits: seq<Hit<seq<Subscription>>>): seq<Delivery> {
    if hits == [] then [] else Each(hits[0].filter, hits[0].value) + Spread(hits[1..])
  }

  function HitsOf(trie: Trie, topic: string): seq<Hit<seq<Subscription>>> {
    Found(trie, LevelsOf(topic), StartsWith(topic, '$'))
  }

  function Deliveries(trie: Trie, topic: string): seq<Delivery> {
    Spread(HitsOf(trie, topic))
  }

  /** A stored filter and a topic, level by level, with wildcards barred from system topics. */
  predicate Reaches(f: Levels, topic: string) {
    BrokerLevels(f, LevelsOf(topic)) && !(StartsWith(topic, '$') && Wild(f))
  }

  lemma ReachesIsBroker(filter: string, topic: string)
    ensures Reaches(Canon(LevelsOf(filter)), topic) == BrokerMatches(filter, topic)
  {
    hide Canon, BrokerLevels, LevelsOf;
    CanonLaws(Empty<bool>(), LevelsOf(filter), LevelsOf(topic));
    if StartsWith(topic, '$') && BrokerLevels(LevelsOf(filter), LevelsOf(topic)) {
      SystemTopics(filter, topic);
    }
  }

  lemma {:induction false} SpreadIn(hits: seq<Hit<seq<Subscription>>>, d: Delivery)
    ensures d in Spread(hits) <==> exists i :: 0 <= i < |hits| && hits[i].filter == d.filter && d.sub in hits[i].value
  {
    if hits != [] {
      SpreadIn(hits[1..], d);
      var each := Each(hits[0].filter, hits[0].value);
      if d in each {
        assert hits[0].filter == d.filter && d.sub in hits[0].value;
      }
      if hits[0].filter == d.filter && d.sub in hits[0].value {
        var j :| 0 <= j < |hits[0].value| && hits[0].value[j] == d.sub;
        assert each[j] == d;
      }
      if i :| 0 <= i < |hits[1..]| && hits[1..][i].filter == d.filter && d.sub in hits[1..][i].value {
        assert hits[i + 1] == hits[1..][i];
      }
    }
  }

  /** A message goes out for exactly the table's rows whose filter matches the topic. */
  lemma {:induction false} DeliveriesIff(trie: Trie, table: Table, topic: string, d: Delivery)
    requires Holds(trie, table)
    ensures d in Deliveries(trie, topic) <==>
      Canon(d.filter) == d.filter && Reaches(d.filter, topic) && KeyOf(d.filter, d.sub) in table
        && table[KeyOf(d.filter, d.sub)] == d.sub
  {
    hide Found, Canon, BrokerLevels, Get, LevelsOf, Spread;
    var hits := HitsOf(trie, topic);
    SpreadIn(hits, d);
    assert d.sub in At(trie, d.filter) <==> KeyOf(d.filter, d.sub) in table && table[KeyOf(d.filter, d.sub)] == d.sub;
    if d in Deliveries(trie, topic) {
      var i :| 0 <= i < |hits| && hits[i].filter == d.filter && d.sub in hits[i].value;
      FoundIff(trie, LevelsOf(topic), StartsWith(topic, '$'), hits[i]);
    } else if Get(trie, d.filter).Some? {
      var hit := Hit(d.filter, Get(trie, d.filter).value);
      FoundIff(trie, LevelsOf(topic), StartsWith(topic, '$'), hit);
    }
  }

  ghost predicate SameRow(d: Delivery, e: Delivery) {
    d.filter == e.filter && d.sub.clientId == e.sub.clientId && d.sub.shareGroup == e.sub.shareGroup
  }

  lemma {:induction false} SpreadOnce(hits: seq<Hit<seq<Subscription>>>)
    requires Distinct(hits) && forall i :: 0 <= i < |hits| ==> Unique(hits[i].value)
    ensures forall i, j :: 0 <= i < j < |Spread(hits)| ==> !SameRow(Spread(hits)[i], Spread(hits)[j])
  {
    if hits != [] {
      SpreadOnce(hits[1..]);
      var each, rest := Each(hits[0].filter, hits[0].value), Spread(hits[1..]);
      forall j | 0 <= j < |rest| ensures rest[j].filter != hits[0].filter {
        SpreadIn(hits[1..], rest[j]);
      }
    }
  }

  /** No row of the table is served twice by one message. */
  lemma {:induction false} DeliveriesOnce(trie: Trie, table: Table, topic: string)
    requires Holds(trie, table)
    ensures var d := Deliveries(trie, topic); forall i, j :: 0 <= i < j < |d| ==> !SameRow(d[i], d[j])
  {
    hide Found, LevelsOf, Spread, Distinct, Unique;
    var hits, t, system := HitsOf(trie, topic), LevelsOf(topic), StartsWith(topic, '$');
    FoundOnce(trie, t, system);
    forall i | 0 <= i < |hits| ensures Unique(hits[i].value) {
      FoundIff(trie, t, system, hits[i]);
      HoldsList(trie, table, hits[i].filter);
    }
    SpreadOnce(hits);
  }

  // ----- Any sequence of changes -----

  datatype Change =
    | Subscribed(filter: string, sub: Subscription)
    | Unsubscribed(filter: string, client: string)
    | ClientGone(client: string)

  /** Where a request goes and what is stored there. */
  function Request(filter: string, sub: Subscription): (string, Subscription) {
    match ParseShared(filter)
    case Some((group, actual)) => (actual, sub.(shareGroup := Some(group)))
    case None => (filter, sub)
  }

  /** The row that a client's request to unsubscribe is about. */
  function KeyFor(filter: string, client: string): Key {
    match ParseShared(filter)
    case Some((group, actual)) => Key(Canon(LevelsOf(actual)), client, Some(group))
    case None => Key(Canon(LevelsOf(filter)), client, None)
  }

  ghost function Applied(table: Table, change: Change): Table {
    match change
    case Subscribed(filter, sub) => var (target, s) := Request(filter, sub); table[KeyOf(LevelsOf(target), s) := s]
    case Unsubscribed(filter, client) => table - {KeyFor(filter, client)}
    case ClientGone(client) => WithoutClient(table, client)
  }

  ghost function TableAfter(changes: seq<Change>): Table {
    if changes == [] then map[] else Applied(TableAfter(changes[..|changes| - 1]), changes[|changes| - 1])
  }

  ghost predicate Writes(change: Change, k: Key, s: Subscription) {
    change.Subscribed? &&
    var (target, t) := Request(change.filter, change.sub); KeyOf(LevelsOf(target), t) == k && t == s
  }

  ghost predicate Touches(change: Change, k: Key) {
    match change
    case Subscribed(filter, sub) => var (target, t) := Request(filter, sub); KeyOf(LevelsOf(target), t) == k
    case Unsubscribed(filter, client) => KeyFor(filter, client) == k
    case ClientGone(client) => client == k.clientId
  }

  /** The last change that touches the row wrote `s` there. */
  ghost predicate Standing(changes: seq<Change>, k: Key, s: Subscription) {
    exists i :: 0 <= i < |changes| && Writes(changes[i], k, s)
      && forall j :: i < j < |changes| ==> !Touches(changes[j], k)
  }

  lemma {:induction false} RowIff(changes: seq<Change>, k: Key, s: Subscription)
    ensures k in TableAfter(changes) && TableAfter(changes)[k] == s <==> Standing(changes, k, s)
  {
    hide ParseShared, LevelsOf, Canon;
    if changes != [] {
      var before, last := changes[..|changes| - 1], changes[|changes| - 1];
      RowIff(before, k, s);
      StandingStep(changes, k, s);
    }
  }

  lemma StandingStep(changes: seq<Change>, k: Key, s: Subscription)
    requires changes != []
    ensures var before, last := changes[..|changes| - 1], changes[|changes| - 1];
      Standing(changes, k, s) <==> Writes(last, k, s) || (Standing(before, k, s) && !Touches(last, k))
  {
    hide Writes, Touches;
    var before, last := changes[..|changes| - 1], changes[|changes| - 1];
    if Writes(last, k, s) {
      assert Writes(changes[|changes| - 1], k, s);
    }
    if Standing(before, k, s) && !Touches(last, k) {
      var i :| 0 <= i < |before| && Writes(before[i], k, s) && forall j :: i < j < |before| ==> !Touches(before[j], k);
      assert Writes(changes[i], k, s);
      forall j | i < j < |changes| ensures !Touches(changes[j], k) {
        assert changes[j] == if j < |before| then before[j] else last;
      }
    }
    if Standing(changes, k, s) && !Writes(last, k, s) {
      var i :| 0 <= i < |changes| && Writes(changes[i], k, s)
        && forall j :: i < j < |changes| ==> !Touches(changes[j], k);
      assert i < |before| && Writes(before[i], k, s);
      assert !Touches(changes[|changes| - 1], k);
      forall j | i < j < |before| ensures !Touches(before[j], k) {
        assert changes[j] == before[j];
      }
    }
  }

  /** After any sequence of subscribing and unsubscribing, a message on a topic is delivered for
      a filter and a subscription exactly when the filter matches the topic and the last change
      about that client, group and filter was the subscription. */
  lemma {:induction false} DeliveredIff(changes: seq<Change>, trie: Trie, filter: string, topic: string,
                                        s: Subscription)
    requires Holds(trie, TableAfter(changes))
    ensures Delivery(Canon(LevelsOf(filter)), s) in Deliveries(trie, topic)
       <==> BrokerMatches(filter, topic) && Standing(changes, KeyOf(LevelsOf(filter), s), s)
  {
    hide Canon, LevelsOf, Deliveries, Reaches, BrokerMatches, Standing, TableAfter, Holds;
    var f := LevelsOf(filter);
    DeliveriesIff(trie, TableAfter(changes), topic, Delivery(Canon(f), s));
    ReachesIsBroker(filter, topic);
    CanonTwice(f);
    RowIff(changes, KeyOf(f, s), s);
  }

  /** The i-th change is a subscription that nothing later touched. */
  ghost predicate Stands(changes: seq<Change>, i: int) {
    && 0 <= i < |changes| && changes[i].Subscribed?
    && var (target, s) := Request(changes[i].filter, changes[i].sub);
       forall j :: i < j < |changes| ==> !Touches(changes[j], KeyOf(LevelsOf(target), s))
  }

  /** Some subscription that stands is `s`, at a filter that matches the topic. */
  ghost predicate Serves(changes: seq<Change>, topic: string, s: Subscription) {
    exists i :: Stands(changes, i) &&
      var (target, t) := Request(changes[i].filter, changes[i].sub); t == s && BrokerMatches(target, topic)
  }

  lemma StandingAt(changes: seq<Change>, k: Key, s: Subscription) returns (i: int)
    requires Standing(changes, k, s)
    ensures Stands(changes, i)
    ensures var (target, t) := Request(changes[i].filter, changes[i].sub); t == s && KeyOf(LevelsOf(target), s) == k
  {
    hide ParseShared, LevelsOf, Canon;
    i :| 0 <= i < |changes| && Writes(changes[i], k, s) && forall j :: i < j < |changes| ==> !Touches(changes[j], k);
  }

  lemma StandsIsStanding(changes: seq<Change>, i: int)
    requires Stands(changes, i)
    ensures var (target, s) := Request(changes[i].filter, changes[i].sub);
      Standing(changes, KeyOf(LevelsOf(target), s), s)
  {
    hide ParseShared, LevelsOf, Canon;
    var (target, s) := Request(changes[i].filter, changes[i].sub);
    assert Writes(changes[i], KeyOf(LevelsOf(target), s), s);
  }

  /** After any sequence of changes the audience of a topic is exactly the subscriptions that
      stand at filters that match it. */
  lemma {:induction false} AudienceIff(changes: seq<Change>, trie: Trie, topic: string, s: Subscription)
    requires Holds(trie, TableAfter(changes))
    ensures s in Audience(trie, topic) <==> Serves(changes, topic, s)
  {
    hide Canon, LevelsOf, Deliveries, Reaches, BrokerMatches, Standing, TableAfter, Holds, Touches, Request;
    var ds := Deliveries(trie, topic);
    if s in Audience(trie, topic) {
      var n :| 0 <= n < |ds| && SubsOf(ds)[n] == s;
      DeliveriesIff(trie, TableAfter(changes), topic, ds[n]);
      RowIff(changes, KeyOf(ds[n].filter, s), s);
      var i := StandingAt(changes, KeyOf(ds[n].filter, s), s);
      ReachesIsBroker(Request(changes[i].filter, changes[i].sub).0, topic);
    }
    if Serves(changes, topic, s) {
      var i :| Stands(changes, i) &&
        var (target, t) := Request(changes[i].filter, changes[i].sub); t == s && BrokerMatches(target, topic);
      StandsIsStanding(changes, i);
      var target := Request(changes[i].filter, changes[i].sub).0;
      DeliveredIff(changes, trie, target, topic, s);
      var n :| 0 <= n < |ds| && ds[n] == Delivery(Canon(LevelsOf(target)), s);
      assert SubsOf(ds)[n] == s;
    }
  }

  // ----- What each request is about, spelled out -----

  lemma AfterOne(changes: seq<Change>, change: Change)
    ensures TableAfter(changes + [change]) == Applied(TableAfter(changes), change)
  {
    assert (changes + [change])[..|changes|] == changes;
  }

  /** A shared filter is about the one row of the client in that group at the filter proper; every
      other row, in other groups or in none, stays. */
  lemma {:induction false} SharedRow(changes: seq<Change>, group: string, actual: string, sub: Subscription)
    requires group != "" && '/' !in group && actual != ""
    ensures var filter := "$share/" + group + "/" + actual;
      var k := Key(Canon(LevelsOf(actual)), sub.clientId, Some(group));
      && TableAfter(changes + [Subscribed(filter, sub)])
         == TableAfter(changes)[k := Subscription(sub.clientId, Some(group), sub.options)]
      && TableAfter(changes + [Unsubscribed(filter, sub.clientId)]) == TableAfter(changes) - {k}
  {
    hide TableAfter, ParseShared;
    var filter := "$share/" + group + "/" + actual;
    ParseSharedIff(filter, group, actual);
    AfterOne(changes, Subscribed(filter, sub));
    AfterOne(changes, Unsubscribed(filter, sub.clientId));
  }

  ghost predicate SpelledShared(filter: string) {
    exists group, actual :: filter == "$share/" + group + "/" + actual && group != "" && '/' !in group && actual != ""
  }

  /** Any other filter is about the client's row outside groups at the filter itself. */
  lemma {:induction false} PlainRow(changes: seq<Change>, filter: string, sub: Subscription)
    requires sub.shareGroup.None?
    requires !SpelledShared(filter)
    ensures var k := Key(Canon(LevelsOf(filter)), sub.clientId, None);
      && TableAfter(changes + [Subscribed(filter, sub)]) == TableAfter(changes)[k := sub]
      && TableAfter(changes + [Unsubscribed(filter, sub.clientId)]) == TableAfter(changes) - {k}
  {
    hide TableAfter, ParseShared;
    NotSpelledShared(filter);
    AfterOne(changes, Subscribed(filter, sub));
    AfterOne(changes, Unsubscribed(filter, sub.clientId));
  }

  lemma NotSpelledShared(filter: string)
    requires !SpelledShared(filter)
    ensures ParseShared(filter) == None
  {
    hide ParseShared;
    if ParseShared(filter).Some? {
      var (group, actual) := ParseShared(filter).value;
      ParseSharedIff(filter, group, actual);
    }
  }

  /** A subscription as a client asks for it: the group is only in the filter. */
  predicate Asks(change: Change, filter: string, client: string) {
    change.Subscribed? && change.filter == filter && change.sub.clientId == client && change.sub.shareGroup.None?
  }

  /** Unsubscribing takes back subscribing, for every filter: it finds the row, no subscription that
      the client made under the filter stands any more, and no other row has changed. */
  lemma {:induction false} UnsubscribeUndoes(changes: seq<Change>, filter: string, sub: Subscription)
    requires sub.shareGroup.None?
    ensures var once := changes + [Subscribed(filter, sub)];
      var twice := once + [Unsubscribed(filter, sub.clientId)];
      && KeyFor(filter, sub.clientId) in TableAfter(once)
      && TableAfter(twice) == TableAfter(changes + [Unsubscribed(filter, sub.clientId)])
      && forall i :: 0 <= i < |twice| && Asks(twice[i], filter, sub.clientId) ==> !Stands(twice, i)
  {
    hide TableAfter, ParseShared, Canon, LevelsOf;
    var once := changes + [Subscribed(filter, sub)];
    var gone := Unsubscribed(filter, sub.clientId);
    var twice := once + [gone];
    AfterOne(changes, Subscribed(filter, sub));
    AfterOne(changes, gone);
    AfterOne(once, gone);
    assert twice[|twice| - 1] == gone;
    forall i | 0 <= i < |twice| && Asks(twice[i], filter, sub.clientId) ensures !Stands(twice, i) {
      assert Touches(gone, KeyFor(filter, sub.clientId));
    }
  }

  /** A subscription is served from then on. */
  lemma {:induction false} SubscribedServes(changes: seq<Change>, group: string, actual: string, sub: Subscription,
                                            topic: string)
    requires group != "" && '/' !in group && actual != "" && BrokerMatches(actual, topic)
    ensures Serves(changes + [Subscribed("$share/" + group + "/" + actual, sub)], topic,
                   Subscription(sub.clientId, Some(group), sub.options))
  {
    hide ParseShared, Canon, LevelsOf, BrokerMatches;
    var filter := "$share/" + group + "/" + actual;
    ParseSharedIff(filter, group, actual);
    var more := changes + [Subscribed(filter, sub)];
    assert Stands(more, |changes|);
  }

  /** When a client goes, it is served no more, and nobody else notices. */
  lemma {:induction false} GoneServed(changes: seq<Change>, client: string, topic: string, s: Subscription)
    ensures Serves(changes + [ClientGone(client)], topic, s) <==> Serves(changes, topic, s) && s.clientId != client
  {
    hide ParseShared, Canon, LevelsOf, BrokerMatches;
    var more := changes + [ClientGone(client)];
    assert more[|changes|] == ClientGone(client);
    forall i | 0 <= i < |changes| && changes[i].Subscribed?
      ensures more[i] == changes[i]
      ensures Stands(more, i) <==> Stands(changes, i) && changes[i].sub.clientId != client {
      StandsMore(changes, ClientGone(client), i);
    }
  }

  lemma StandsMore(changes: seq<Change>, change: Change, i: nat)
    requires i < |changes| && changes[i].Subscribed?
    ensures var (target, s) := Request(changes[i].filter, changes[i].sub);
      Stands(changes + [change], i) <==> Stands(changes, i) && !Touches(change, KeyOf(LevelsOf(target), s))
  {
    hide Touches, Request, Canon, LevelsOf;
    var more := changes + [change];
    assert more[i] == changes[i] && more[|changes|] == change;
    if Stands(more, i) {
      forall j | i < j < |changes| ensures changes[j] == more[j] {
      }
    }
  }

  // ----- Shared and other subscriptions -----

  function SubsOf(ds: seq<Delivery>): (subs: seq<Subscription>)
    ensures |subs| == |ds| && forall i :: 0 <= i < |ds| ==> subs[i] == ds[i].sub
  {
    if ds == [] then [] else [ds[0].sub] + SubsOf(ds[1..])
  }

  /** Everyone a message on the topic concerns. */
  function Audience(trie: Trie, topic: string): seq<Subscription> {
    SubsOf(Deliveries(trie, topic))
  }

  function Unshared(): Subscription -> bool {
    (s: Subscription) => s.shareGroup.None?
  }

  function InGroup(group: string): Subscription -> bool {
    (s: Subscription) => s.shareGroup == Some(group)
  }

  function GroupsOf(subs: seq<Subscription>): set<string> {
    set i | 0 <= i < |subs| && subs[i].shareGroup.Some? :: subs[i].shareGroup.value
  }

  function Counter(counters: map<string, nat>, group: string): nat {
    if group in counters then counters[group] else 0
  }

  /** The member of the group whose turn it is. */
  function Turn(subs: seq<Subscription>, group: string, count: nat): Subscription
    requires Keep(subs, InGroup(group)) != []
  {
    Member(Keep(subs, InGroup(group)), count)
  }

  /** One member per group, in some order of the groups. */
  ghost predicate OnePerGroup(subs: seq<Subscription>, order: seq<string>, counters: map<string, nat>,
                              picks: seq<Subscription>) {
    && |picks| == |order| && (forall g :: g in order <==> g in GroupsOf(subs))
    && (forall i, j :: 0 <= i < j < |order| ==> order[i] != order[j])
    && (forall i :: 0 <= i < |order| ==>
         Keep(subs, InGroup(order[i])) != [] && picks[i] == Turn(subs, order[i], Counter(counters, order[i])))
  }

  lemma GroupNotEmpty(subs: seq<Subscription>, group: string)
    ensures group in GroupsOf(subs) <==> Keep(subs, InGroup(group)) != []
  {
    if group in GroupsOf(subs) {
      var i :| 0 <= i < |subs| && subs[i].shareGroup == Some(group);
      KeepIn(subs, InGroup(group), subs[i]);
    }
    if Keep(subs, InGroup(group)) != [] {
      KeepIn(subs, InGroup(group), Keep(subs, InGroup(group))[0]);
    }
  }
}
