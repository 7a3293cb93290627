/** The subscription trie: filters are stored by level, and one walk over a topic's levels
    finds every filter that matches it. */
module TopicTries {
  import opened Wrappers
  import opened Text
  import opened TopicMatch

  /** A level that is not a wildcard; only these name children. */
  type Plain = s: string | s != "+" && s != "#" witness ""

  datatype Node<V> = Node(
    value: Option<V>, children: map<Plain, Node<V>>, single: Option<Node<V>>, multi: Option<V>)

  function Empty<V>(): Node<V> {
    Node(None, map[], None, None)
  }

  function Named<V>(n: Node<V>, level: string): Option<Node<V>> {
    if level in n.children then Some(n.children[level]) else None
  }

  function Child<V>(n: Node<V>, level: string): Option<Node<V>> {
    if level == "+" then n.single else Named(n, level)
  }

  function WithChild<V>(n: Node<V>, level: string, child: Node<V>): Node<V>
    requires level != "#"
  {
    if level == "+" then n.(single := Some(child)) else n.(children := n.children[level := child])
  }

  // ----- The operations, level by level -----

  function Insert<V>(n: Node<V>, f: Levels, v: V): Node<V>
    decreases |f|
  {
    if f == [] then n.(value := Some(v))
    else if f[0] == "#" then n.(multi := Some(v))
    else
      var child := if Child(n, f[0]).Some? then Child(n, f[0]).value else Empty();
      WithChild(n, f[0], Insert(child, f[1..], v))
  }

  function Get<V>(n: Node<V>, f: Levels): Option<V>
    decreases |f|
  {
    if f == [] then n.value
    else if f[0] == "#" then n.multi
    else if Child(n, f[0]).Some? then Get(Child(n, f[0]).value, f[1..])
    else None
  }

  function Remove<V>(n: Node<V>, f: Levels): Node<V>
    decreases |f|
  {
    if f == [] then n.(value := None)
    else if f[0] == "#" then n.(multi := None)
    else if Child(n, f[0]).Some? then WithChild(n, f[0], Remove(Child(n, f[0]).value, f[1..]))
    else n
  }

  /** Every value replaced by what `keep` makes of it, or removed. */
  function Prune<V>(n: Node<V>, keep: V -> Option<V>): Node<V> {
    Node(if n.value.Some? then keep(n.value.value) else None,
         map k | k in n.children :: Prune(n.children[k], keep),
         if n.single.Some? then Some(Prune(n.single.value, keep)) else None,
         if n.multi.Some? then keep(n.multi.value) else None)
  }

  // ----- The trie is a map from filters to values -----

  /** What a filter is stored under: nothing after a "#" is looked at. */
  function Canon(f: Levels): Levels {
    if f == [] then []
    else if f[0] == "#" then ["#"]
    else [f[0]] + Canon(f[1..])
  }

  lemma CanonStep(f: Levels, g: Levels)
    ensures f == [] ==> (Canon(f) == Canon(g) <==> g == [])
    ensures f != [] && f[0] == "#" ==> (Canon(f) == Canon(g) <==> g != [] && g[0] == "#")
    ensures f != [] && f[0] != "#" ==>
      (Canon(f) == Canon(g) <==> g != [] && g[0] == f[0] && Canon(f[1..]) == Canon(g[1..]))
  {
    if f != [] {
      assert Canon(f)[0] == f[0] && (f[0] != "#" ==> Canon(f)[1..] == Canon(f[1..]));
    }
    if g != [] {
      assert Canon(g)[0] == g[0] && (g[0] != "#" ==> Canon(g)[1..] == Canon(g[1..]));
    }
  }

  lemma ChildOfWith<V>(n: Node<V>, level: string, child: Node<V>, other: string)
    requires level != "#" && other != "#"
    ensures Child(WithChild(n, level, child), other) == if level == other then Some(child) else Child(n, other)
  {
  }

  lemma {:induction false} GetEmpty<V>(g: Levels)
    ensures Get(Empty<V>(), g) == None
  {
  }

  lemma {:induction false} GetInsert<V>(n: Node<V>, f: Levels, v: V, g: Levels)
    ensures Get(Insert(n, f, v), g) == if Canon(f) == Canon(g) then Some(v) else Get(n, g)
    decreases |f|
  {
    hide Canon;
    CanonStep(f, g);
    if f != [] && f[0] != "#" {
      var child := if Child(n, f[0]).Some? then Child(n, f[0]).value else Empty();
      if g != [] && g[0] != "#" {
        ChildOfWith(n, f[0], Insert(child, f[1..], v), g[0]);
        if g[0] == f[0] {
          GetInsert(child, f[1..], v, g[1..]);
          GetEmpty<V>(g[1..]);
        }
      }
    }
  }

  lemma {:induction false} GetRemove<V>(n: Node<V>, f: Levels, g: Levels)
    ensures Get(Remove(n, f), g) == if Canon(f) == Canon(g) then None else Get(n, g)
    decreases |f|
  {
    hide Canon;
    CanonStep(f, g);
    if f != [] && f[0] != "#" {
      if Child(n, f[0]).Some? && g != [] && g[0] != "#" {
        var child := Child(n, f[0]).value;
        ChildOfWith(n, f[0], Remove(child, f[1..]), g[0]);
        if g[0] == f[0] {
          GetRemove(child, f[1..], g[1..]);
        }
      }
    }
  }

  lemma {:induction false} GetPrune<V>(n: Node<V>, keep: V -> Option<V>, g: Levels)
    ensures Get(Prune(n, keep), g) == if Get(n, g).Some? then keep(Get(n, g).value) else None
    decreases |g|
  {
    if g != [] && g[0] != "#" && Child(n, g[0]).Some? {
      GetPrune(Child(n, g[0]).value, keep, g[1..]);
    }
  }

  // ----- Finding what matches a topic -----

  datatype Hit<V> = Hit(filter: Levels, value: V)

  function Under<V>(level: string, hits: seq<Hit<V>>): (r: seq<Hit<V>>)
    ensures |r| == |hits|
    ensures forall i :: 0 <= i < |r| ==> r[i] == Hit([level] + hits[i].filter, hits[i].value)
  {
    if hits == [] then []
    else [Hit([level] + hits[0].filter, hits[0].value)] + Under(level, hits[1..])
  }

  function AtNode<V>(filter: Levels, v: Option<V>): seq<Hit<V>> {
    if v.Some? then [Hit(filter, v.value)] else []
  }

  function Below<V>(level: string, child: Option<Node<V>>, t: Levels): seq<Hit<V>>
    decreases |t|, 1
  {
    if child.Some? then Under(level, Found(child.value, t, false)) else []
  }

  /** The walk: wildcards are passed over at the root of a system topic. */
  function Found<V>(n: Node<V>, t: Levels, system: bool): seq<Hit<V>>
    decreases |t|, 0
  {
    (if system then [] else AtNode(["#"], n.multi))
    + if t == [] then AtNode([], n.value)
      else
        (if system then [] else Below("+", n.single, t[1..]))
        + Below(t[0], Named(n, t[0]), t[1..])
  }

  predicate Wild(f: Levels) {
    f != [] && (f[0] == "+" || f[0] == "#")
  }

  /** What should be found: a filter as stored, with its value, that matches. */
  ghost predicate Wanted<V>(n: Node<V>, t: Levels, system: bool, hit: Hit<V>) {
    && Canon(hit.filter) == hit.filter && Get(n, hit.filter) == Some(hit.value)
    && BrokerLevels(hit.filter, t) && !(system && Wild(hit.filter))
  }

  lemma {:induction false} BelowIff<V>(level: string, child: Option<Node<V>>, t: Levels, hit: Hit<V>)
    requires level != "#"
    ensures hit in Below(level, child, t) <==>
      && child.Some? && hit.filter != [] && hit.filter[0] == level
      && Wanted(child.value, t, false, Hit(hit.filter[1..], hit.value))
    decreases |t|, 1
  {
    if child.Some? {
      var hits := Found(child.value, t, false);
      var under := Under(level, hits);
      if hit.filter != [] && hit.filter[0] == level {
        var inner := Hit(hit.filter[1..], hit.value);
        FoundIff(child.value, t, false, inner);
        assert hit == Hit([level] + inner.filter, inner.value);
        if inner in hits {
          var i :| 0 <= i < |hits| && hits[i] == inner;
          assert under[i] == hit;
        }
        if hit in under {
          var i :| 0 <= i < |under| && under[i] == hit;
          assert hits[i].filter == under[i].filter[1..];
        }
      }
    }
  }

  /** The walk finds exactly the stored filters that match. */
  lemma {:induction false} FoundIff<V>(n: Node<V>, t: Levels, system: bool, hit: Hit<V>)
    ensures hit in Found(n, t, system) <==> Wanted(n, t, system, hit)
    decreases |t|, 0
  {
    var f := hit.filter;
    if t != [] {
      BelowIff("+", n.single, t[1..], hit);
      if t[0] != "#" {
        BelowIff(t[0], Named(n, t[0]), t[1..], hit);
      }
    }
    if f != [] && f[0] != "#" {
      CanonStep(f, f);
      assert Canon(f) == f <==> Canon(f[1..]) == f[1..];
    }
  }

  // ----- Each of them once -----

  ghost predicate Distinct<V>(hits: seq<Hit<V>>) {
    forall i, j :: 0 <= i < j < |hits| ==> hits[i].filter != hits[j].filter
  }

  ghost predicate Headed<V>(hits: seq<Hit<V>>, level: string) {
    forall i :: 0 <= i < |hits| ==> hits[i].filter != [] && hits[i].filter[0] == level
  }

  lemma DistinctConcat<V>(a: seq<Hit<V>>, b: seq<Hit<V>>)
    requires Distinct(a) && Distinct(b)
    requires forall i, j :: 0 <= i < |a| && 0 <= j < |b| ==> a[i].filter != b[j].filter
    ensures Distinct(a + b)
  {
  }

  lemma {:induction false} BelowOnce<V>(level: string, child: Option<Node<V>>, t: Levels)
    ensures Headed(Below(level, child, t), level) && Distinct(Below(level, child, t))
    decreases |t|, 1
  {
    if child.Some? {
      FoundOnce(child.value, t, false);
      var hits := Found(child.value, t, false);
      var under := Under(level, hits);
      forall i, j | 0 <= i < j < |under| ensures under[i].filter != under[j].filter {
        assert under[i].filter[1..] == hits[i].filter && under[j].filter[1..] == hits[j].filter;
      }
    }
  }

  /** No stored filter is found twice. */
  lemma {:induction false} FoundOnce<V>(n: Node<V>, t: Levels, system: bool)
    ensures Distinct(Found(n, t, system))
    decreases |t|, 0
  {
    var many := if system then [] else AtNode(["#"], n.multi);
    if t == [] {
      DistinctConcat(many, AtNode([], n.value));
    } else {
      BelowOnce("+", n.single, t[1..]);
      BelowOnce(t[0], Named(n, t[0]), t[1..]);
      var plus := if system then [] else Below("+", n.single, t[1..]);
      var exact := Below(t[0], Named(n, t[0]), t[1..]);
      assert exact != [] ==> t[0] != "+" && t[0] != "#";
      DistinctConcat(plus, exact);
      DistinctConcat(many, plus + exact);
    }
  }

  // ----- The same answer as matching filter by filter -----

  lemma {:induction false} CanonLaws<V>(n: Node<V>, f: Levels, t: Levels)
    ensures Canon(Canon(f)) == Canon(f) && Wild(Canon(f)) == Wild(f)
    ensures Get(n, Canon(f)) == Get(n, f)
    ensures BrokerLevels(Canon(f), t) == BrokerLevels(f, t)
    decreases |f|
  {
    if f != [] && f[0] != "#" {
      assert Canon(f)[1..] == Canon(f[1..]);
      CanonLaws(if Child(n, f[0]).Some? then Child(n, f[0]).value else n, f[1..], if t == [] then [] else t[1..]);
    }
  }

  /** For a system topic the loop looks at the filter's first character and the walk at its
      first level; they exclude the same filters. */
  lemma SystemTopics(filter: string, topic: string)
    requires StartsWith(topic, '$') && BrokerLevels(LevelsOf(filter), LevelsOf(topic))
    ensures Wild(LevelsOf(filter)) <==> StartsWith(filter, '+') || StartsWith(filter, '#')
  {
    FirstLevel(filter, '+');
    FirstLevel(filter, '#');
    FirstLevel(topic, '$');
  }

  /** In any trie, walking a topic finds a filter's value exactly when the filter is stored and
      the filter-by-filter loop says it matches. */
  lemma {:induction false} FoundIsBroker<V>(n: Node<V>, topic: string, filter: string, v: V)
    ensures Hit(Canon(LevelsOf(filter)), v) in Found(n, LevelsOf(topic), StartsWith(topic, '$'))
       <==> Get(n, LevelsOf(filter)) == Some(v) && BrokerMatches(filter, topic)
  {
    var f, t := LevelsOf(filter), LevelsOf(topic);
    hide Found, Canon, BrokerLevels, Get, LevelsOf;
    FoundIff(n, t, StartsWith(topic, '$'), Hit(Canon(f), v));
    CanonLaws(n, f, t);
    if StartsWith(topic, '$') && BrokerLevels(f, t) {
      SystemTopics(filter, topic);
    }
  }

  // ----- The walk as it is coded -----

  function Values<V>(hits: seq<Hit<V>>): seq<V> {
    if hits == [] then [] else [hits[0].value] + Values(hits[1..])
  }

  lemma {:induction false} ValuesConcat<V>(a: seq<Hit<V>>, b: seq<Hit<V>>)
    ensures Values(a + b) == Values(a) + Values(b)
  {
    if a == [] {
      assert a + b == b;
    } else {
      assert (a + b)[1..] == a[1..] + b;
      ValuesConcat(a[1..], b);
    }
  }

  lemma {:induction false} ValuesUnder<V>(level: string, hits: seq<Hit<V>>)
    ensures Values(Under(level, hits)) == Values(hits)
  {
    if hits != [] {
      ValuesUnder(level, hits[1..]);
      assert Under(level, hits)[1..] == Under(level, hits[1..]);
    }
  }

  lemma BelowValues<V>(level: string, child: Node<V>, t: Levels)
    ensures Values(Below(level, Some(child), t)) == Values(Found(child, t, false))
  {
    ValuesUnder(level, Found(child, t, false));
  }

  method MatchesRecursive<V>(node: Node<V>, levels: Levels, index: nat, isSystem: bool) returns (out: seq<V>)
    requires index <= |levels|
    ensures out == Values(Found(node, levels[index..], isSystem && index == 0))
    decreases |levels| - index
  {
    hide Below;
    ghost var t, system := levels[index..], isSystem && index == 0;
    ghost var many := if system then [] else AtNode(["#"], node.multi);
    out := [];
    if !(isSystem && index == 0) && node.multi.Some? {
      out := out + [node.multi.value];
    }
    assert out == Values(many);
    if index >= |levels| {
      ValuesConcat(many, AtNode([], node.value));
      if node.value.Some? {
        out := out + [node.value.value];
      }
      return;
    }
    assert t[1..] == levels[index + 1..];
    ghost var plus := if system then [] else Below("+", node.single, t[1..]);
    ghost var exact := Below(t[0], Named(node, t[0]), t[1..]);
    ValuesConcat(many, plus + exact);
    ValuesConcat(plus, exact);
    NoneBelow<V>("+", t[1..]);
    NoneBelow<V>(t[0], t[1..]);
    if !(isSystem && index == 0) && node.single.Some? {
      var below := MatchesRecursive(node.single.value, levels, index + 1, isSystem);
      BelowValues("+", node.single.value, t[1..]);
      out := out + below;
    }
    assert out == Values(many) + Values(plus);
    var child := Named(node, levels[index]);
    if child.Some? {
      var below := MatchesRecursive(child.value, levels, index + 1, isSystem);
      BelowValues(t[0], child.value, t[1..]);
      out := out + below;
    }
    Associative(Values(many), Values(plus), Values(exact));
  }

  lemma NoneBelow<V>(level: string, t: Levels)
    ensures Below<V>(level, None, t) == []
  {
  }
}
