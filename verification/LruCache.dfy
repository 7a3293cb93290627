/** What a least-recently-used cache promises, over values: a recency order of
    distinct keys, most recent first, with one value per key. */
module RecencySpec {

  datatype Recency<K, V> = Recency(order: seq<K>, value: map<K, V>)

  datatype Op<K, V> = Get(key: K) | Insert(key: K, item: V) | RemoveLru | Clear

  datatype Inserted<V> = Never | Item(item: V)

  ghost predicate Distinct<K>(s: seq<K>) {
    forall i, j :: 0 <= i < j < |s| ==> s[i] != s[j]
  }

  ghost predicate WellFormed<K, V>(r: Recency<K, V>, capacity: nat) {
    && Distinct(r.order)
    && |r.order| <= capacity
    && (forall k | k in r.order :: k in r.value)
    && (forall k | k in r.value :: k in r.order)
  }

  function Without<K(==)>(s: seq<K>, k: K): (t: seq<K>)
    ensures forall x | x in t :: x in s && x != k
    ensures forall x | x in s :: x == k || x in t
    ensures |t| <= |s|
  {
    if s == [] then [] else if s[0] == k then Without(s[1..], k) else [s[0]] + Without(s[1..], k)
  }

  lemma {:induction false} WithoutAbsent<K>(s: seq<K>, k: K)
    requires k !in s
    ensures Without(s, k) == s
  {
    if s != [] {
      WithoutAbsent(s[1..], k);
    }
  }

  /** On distinct keys, `Without` cuts out the one position of `k`. */
  lemma {:induction false} WithoutAt<K>(s: seq<K>, i: nat)
    requires i < |s| && Distinct(s)
    ensures Without(s, s[i]) == s[..i] + s[i + 1..]
  {
    if i == 0 {
      assert s[0] !in s[1..];
      WithoutAbsent(s[1..], s[0]);
    } else {
      var t := s[1..];
      assert s[0] != s[i] && t[i - 1] == s[i];
      WithoutAt(t, i - 1);
      calc {
        Without(s, s[i]);
        [s[0]] + Without(t, t[i - 1]);
        [s[0]] + (t[..i - 1] + t[i..]);
        { assert t[i..] == s[i + 1..]; }
        { assert [s[0]] + t[..i - 1] == s[..i]; }
        s[..i] + s[i + 1..];
      }
    }
  }

  lemma WithoutDistinct<K>(s: seq<K>, k: K)
    requires Distinct(s)
    ensures Distinct(Without(s, k))
    ensures |Without(s, k)| == if k in s then |s| - 1 else |s|
  {
    if k in s {
      var i :| 0 <= i < |s| && s[i] == k;
      WithoutAt(s, i);
    } else {
      WithoutAbsent(s, k);
    }
  }

  function Empty<K, V>(): Recency<K, V> {
    Recency([], map[])
  }

  function Touch<K, V>(r: Recency<K, V>, k: K): Recency<K, V> {
    if k in r.value then r.(order := [k] + Without(r.order, k)) else r
  }

  function Evict<K, V>(r: Recency<K, V>): Recency<K, V> {
    if r.order == [] then r
    else Recency(r.order[..|r.order| - 1], r.value - {r.order[|r.order| - 1]})
  }

  function EvictTo<K, V>(r: Recency<K, V>, n: nat): Recency<K, V>
    decreases |r.order|
  {
    if |r.order| <= n then r else EvictTo(Evict(r), n)
  }

  /** Inserting drops an old binding of the key, makes room, and puts the key in front. */
  function Put<K, V>(r: Recency<K, V>, capacity: nat, k: K, v: V): Recency<K, V>
    requires capacity >= 1
  {
    var kept := EvictTo(Recency(Without(r.order, k), r.value), capacity - 1);
    Recency([k] + kept.order, kept.value[k := v])
  }

  function Apply<K, V>(r: Recency<K, V>, capacity: nat, op: Op<K, V>): Recency<K, V>
    requires capacity >= 1
  {
    match op
    case Get(k) => Touch(r, k)
    case Insert(k, v) => Put(r, capacity, k, v)
    case RemoveLru => Evict(r)
    case Clear => Empty()
  }

  function Run<K, V>(ops: seq<Op<K, V>>, capacity: nat): Recency<K, V>
    requires capacity >= 1
  {
    if ops == [] then Empty()
    else Apply(Run(ops[..|ops| - 1], capacity), capacity, ops[|ops| - 1])
  }

  lemma {:induction false} EvictToPrefix<K, V>(r: Recency<K, V>, n: nat)
    requires Distinct(r.order)
    ensures var e := EvictTo(r, n);
      && e.order == (if |r.order| <= n then r.order else r.order[..n])
      && (forall k | k in r.value :: k in e.value || k in r.order)
      && (forall k | k in e.value :: k in r.value && e.value[k] == r.value[k] && (k in e.order || k !in r.order))
      && (forall k | k in e.order && k in r.value :: k in e.value)
    decreases |r.order|
  {
    if |r.order| > n {
      var shorter := r.order[..|r.order| - 1];
      assert Evict(r).order == shorter && r.order == shorter + [r.order[|r.order| - 1]];
      EvictToPrefix(Evict(r), n);
      assert shorter[..n] == r.order[..n];
    }
  }

  lemma FrontDistinct<K>(k: K, s: seq<K>)
    requires Distinct(s) && k !in s
    ensures Distinct([k] + s)
  {
  }

  /** The closed form of an insertion: the new key, then what was there before it
      in the same order, cut to the capacity; only values of dropped keys disappear. */
  lemma {:induction false} PutOrder<K, V>(r: Recency<K, V>, capacity: nat, k: K, v: V)
    requires capacity >= 1 && WellFormed(r, capacity)
    ensures var p := Put(r, capacity, k, v); var rest := Without(r.order, k);
      && WellFormed(p, capacity)
      && p.order == [k] + (if |rest| < capacity then rest else rest[..capacity - 1])
      && p.value[k] == v
      && (forall x | x in p.order && x != k :: x in r.value && p.value[x] == r.value[x])
  {
    hide EvictTo, Without, Distinct;
    var rest := Without(r.order, k);
    WithoutDistinct(r.order, k);
    var e := EvictTo(Recency(rest, r.value), capacity - 1);
    EvictToPrefix(Recency(rest, r.value), capacity - 1);
    PrefixDistinct(rest, |e.order|);
    FrontDistinct(k, e.order);
    forall x | x in e.order ensures x in e.value && x != k && e.value[x] == r.value[x] {
      assert x in rest;
    }
  }

  lemma PrefixDistinct<K>(s: seq<K>, n: nat)
    requires Distinct(s) && n <= |s|
    ensures Distinct(s[..n])
  {
  }

  lemma TouchWellFormed<K, V>(r: Recency<K, V>, capacity: nat, k: K)
    requires WellFormed(r, capacity)
    ensures WellFormed(Touch(r, k), capacity)
  {
    if k in r.value {
      WithoutDistinct(r.order, k);
      FrontDistinct(k, Without(r.order, k));
    }
  }

  lemma EvictWellFormed<K, V>(r: Recency<K, V>, capacity: nat)
    requires WellFormed(r, capacity)
    ensures WellFormed(Evict(r), capacity)
  {
    if r.order != [] {
      var n := |r.order| - 1;
      assert forall k | k in r.order :: k in r.order[..n] || k == r.order[n];
    }
  }

  lemma ApplyWellFormed<K, V>(r: Recency<K, V>, capacity: nat, op: Op<K, V>)
    requires capacity >= 1 && WellFormed(r, capacity)
    ensures WellFormed(Apply(r, capacity, op), capacity)
  {
    match op
    case Get(k) => TouchWellFormed(r, capacity, k);
    case Insert(k, v) => PutOrder(r, capacity, k, v);
    case RemoveLru => EvictWellFormed(r, capacity);
    case Clear =>
  }

  /** Every run of the four operations keeps the keys distinct and within the capacity. */
  lemma {:induction false} RunWellFormed<K, V>(ops: seq<Op<K, V>>, capacity: nat)
    requires capacity >= 1
    ensures WellFormed(Run(ops, capacity), capacity)
  {
    if ops != [] {
      var before := ops[..|ops| - 1];
      RunWellFormed(before, capacity);
      ApplyWellFormed(Run(before, capacity), capacity, ops[|ops| - 1]);
    }
  }

  /** One past the position of the last operation of the run that names `k`; 0 if none does. */
  ghost function LastTouch<K, V>(ops: seq<Op<K, V>>, k: K): nat {
    if ops == [] then 0
    else
      var op := ops[|ops| - 1];
      if (op.Get? || op.Insert?) && op.key == k then |ops| else LastTouch(ops[..|ops| - 1], k)
  }

  lemma {:induction false} LastTouchBound<K, V>(ops: seq<Op<K, V>>, k: K)
    ensures LastTouch(ops, k) <= |ops|
  {
    if ops != [] {
      LastTouchBound(ops[..|ops| - 1], k);
    }
  }

  ghost predicate ByLastTouch<K, V>(order: seq<K>, ops: seq<Op<K, V>>) {
    && (forall i :: 0 <= i < |order| ==> LastTouch(ops, order[i]) > 0)
    && (forall i, j :: 0 <= i < j < |order| ==> LastTouch(ops, order[i]) > LastTouch(ops, order[j]))
  }

  lemma {:induction false} WithoutByLastTouch<K, V>(order: seq<K>, k: K, ops: seq<Op<K, V>>)
    requires ByLastTouch(order, ops)
    ensures ByLastTouch(Without(order, k), ops)
  {
    hide LastTouch;
    if order != [] {
      WithoutByLastTouch(order[1..], k, ops);
      forall x | x in Without(order[1..], k) ensures LastTouch(ops, order[0]) > LastTouch(ops, x) {
        var i :| 0 <= i < |order[1..]| && order[1..][i] == x;
        assert order[i + 1] == x;
      }
    }
  }

  lemma MoveToFrontByLastTouch<K, V>(ops: seq<Op<K, V>>, op: Op<K, V>, rest: seq<K>)
    requires (op.Get? || op.Insert?) && op.key !in rest
    requires ByLastTouch(rest, ops)
    ensures ByLastTouch([op.key] + rest, ops + [op])
  {
    var all := ops + [op];
    assert all[..|all| - 1] == ops;
    forall i | 0 <= i < |rest| ensures LastTouch(all, rest[i]) == LastTouch(ops, rest[i]) <= |ops| {
      LastTouchBound(ops, rest[i]);
    }
  }

  /** Over every run, the keys stand in the order in which they were last named by a
      get or an insert, so the key an eviction takes is the least recently touched one. */
  lemma {:induction false} OrderIsRecency<K, V>(ops: seq<Op<K, V>>, capacity: nat)
    requires capacity >= 1
    ensures ByLastTouch(Run(ops, capacity).order, ops)
  {
    if ops != [] {
      var before := ops[..|ops| - 1];
      OrderIsRecency(before, capacity);
      RunWellFormed(before, capacity);
      StepKeepsRecency(before, Run(before, capacity), capacity, ops[|ops| - 1]);
      assert ops == before + [ops[|ops| - 1]];
    }
  }

  lemma StepKeepsRecency<K, V>(ops: seq<Op<K, V>>, r: Recency<K, V>, capacity: nat, op: Op<K, V>)
    requires capacity >= 1 && WellFormed(r, capacity) && ByLastTouch(r.order, ops)
    ensures ByLastTouch(Apply(r, capacity, op).order, ops + [op])
  {
    match op
    case Get(k) =>
      if k in r.value {
        WithoutByLastTouch(r.order, k, ops);
        MoveToFrontByLastTouch(ops, op, Without(r.order, k));
      } else {
        UnnamedKeepRecency(ops, op, r.order);
      }
    case Insert(k, v) => PutKeepsRecency(ops, r, capacity, k, v);
    case RemoveLru => UnnamedKeepRecency(ops, op, Evict(r).order);
    case Clear =>
  }

  lemma FrontPrefixByLastTouch<K, V>(ops: seq<Op<K, V>>, k: K, v: V, rest: seq<K>, n: nat)
    requires n <= |rest| && k !in rest && ByLastTouch(rest, ops)
    ensures ByLastTouch([k] + rest[..n], ops + [Insert(k, v)])
  {
    assert ByLastTouch(rest[..n], ops);
    MoveToFrontByLastTouch(ops, Insert(k, v), rest[..n]);
  }

  lemma PutKeepsRecency<K, V>(ops: seq<Op<K, V>>, r: Recency<K, V>, capacity: nat, k: K, v: V)
    requires capacity >= 1 && WellFormed(r, capacity) && ByLastTouch(r.order, ops)
    ensures ByLastTouch(Put(r, capacity, k, v).order, ops + [Insert(k, v)])
  {
    var rest := Without(r.order, k);
    PutOrder(r, capacity, k, v);
    WithoutByLastTouch(r.order, k, ops);
    assert k !in rest;
    var n := if |rest| < capacity then |rest| else capacity - 1;
    assert Put(r, capacity, k, v).order == [k] + rest[..n];
    FrontPrefixByLastTouch(ops, k, v, rest, n);
  }

  lemma UnnamedKeepRecency<K, V>(ops: seq<Op<K, V>>, op: Op<K, V>, order: seq<K>)
    requires op.Get? || op.Insert? ==> op.key !in order
    requires ByLastTouch(order, ops)
    ensures ByLastTouch(order, ops + [op])
  {
    assert (ops + [op])[..|ops|] == ops;
    assert forall i :: 0 <= i < |order| ==> LastTouch(ops + [op], order[i]) == LastTouch(ops, order[i]);
  }

  /** The item that was inserted for the key last. */
  ghost function LastItem<K, V>(ops: seq<Op<K, V>>, k: K): Inserted<V> {
    if ops == [] then Never
    else
      var last := ops[|ops| - 1];
      if last.Insert? && last.key == k then Item(last.item) else LastItem(ops[..|ops| - 1], k)
  }

  /** In every run a resident key has the item inserted for it last. */
  lemma {:induction false} ValuesAreLatest<K, V>(ops: seq<Op<K, V>>, capacity: nat, k: K)
    requires capacity >= 1 && k in Run(ops, capacity).value
    ensures LastItem(ops, k) == Item(Run(ops, capacity).value[k])
  {
    hide Apply;
    var n := |ops| - 1;
    var before := Run(ops[..n], capacity);
    RunWellFormed(ops[..n], capacity);
    ValueStays(before, capacity, ops[n], k);
    if !(ops[n].Insert? && ops[n].key == k) {
      ValuesAreLatest(ops[..n], capacity, k);
    }
  }

  lemma {:induction false} ValueStays<K, V>(r: Recency<K, V>, capacity: nat, op: Op<K, V>, k: K)
    requires capacity >= 1 && Distinct(r.order) && k in Apply(r, capacity, op).value
    ensures if op.Insert? && op.key == k then Apply(r, capacity, op).value[k] == op.item
            else k in r.value && Apply(r, capacity, op).value[k] == r.value[k]
  {
    hide EvictTo;
    if op.Insert? {
      WithoutDistinct(r.order, op.key);
      EvictToPrefix(Recency(Without(r.order, op.key), r.value), capacity - 1);
    }
  }

  /** The victim of an eviction was touched strictly before every key that stays. */
  lemma {:induction false} EvictedIsLeastRecent<K, V>(ops: seq<Op<K, V>>, capacity: nat, k: K)
    requires capacity >= 1 && Run(ops, capacity).order != []
    requires k in Evict(Run(ops, capacity)).order
    ensures var order := Run(ops, capacity).order;
      LastTouch(ops, order[|order| - 1]) < LastTouch(ops, k)
  {
    OrderIsRecency(ops, capacity);
  }

  /** One `getOrInsert`: a hit is touched, a miss is computed and inserted. */
  function Access<K, V>(r: Recency<K, V>, capacity: nat, k: K, v: V): Recency<K, V>
    requires capacity >= 1
  {
    if k in r.value then Touch(r, k) else Put(r, capacity, k, v)
  }

  function AccessRun<K, V>(keys: seq<(K, V)>, capacity: nat): Recency<K, V>
    requires capacity >= 1
  {
    if keys == [] then Empty()
    else
      var (k, v) := keys[|keys| - 1];
      Access(AccessRun(keys[..|keys| - 1], capacity), capacity, k, v)
  }

  function Take<K>(s: seq<K>, n: nat): (t: seq<K>)
    ensures |t| <= n && t <= s
  {
    if |s| <= n then s else s[..n]
  }

  lemma AccessOrder<K, V>(r: Recency<K, V>, capacity: nat, k: K, v: V)
    requires capacity >= 1 && WellFormed(r, capacity)
    ensures WellFormed(Access(r, capacity, k, v), capacity)
    ensures Access(r, capacity, k, v).order == Take([k] + Without(r.order, k), capacity)
  {
    PutOrder(r, capacity, k, v);
    TouchWellFormed(r, capacity, k);
  }

  lemma {:induction false} WithoutTake<K>(s: seq<K>, n: nat, k: K)
    requires n >= 1 && Distinct(s)
    ensures Take(Without(Take(s, n), k), n - 1) == Take(Without(s, k), n - 1)
  {
    if |s| > n && n > 1 {
      assert Take(s, n) == [s[0]] + Take(s[1..], n - 1);
      if s[0] == k {
        WithoutAbsent(s[1..], k);
        WithoutAbsent(s[1..][..n - 1], k);
      } else {
        WithoutTake(s[1..], n - 1, k);
        assert Without(Take(s, n), k) == [s[0]] + Without(Take(s[1..], n - 1), k);
      }
    }
  }

  /** Over every run of `getOrInsert`, a smaller cache holds exactly the most recent
      keys of a larger one, so enlarging the cache never turns a hit into a miss. */
  lemma {:induction false} SmallerCacheIsPrefix<K, V>(keys: seq<(K, V)>, small: nat, large: nat)
    requires 1 <= small <= large
    ensures WellFormed(AccessRun(keys, small), small) && WellFormed(AccessRun(keys, large), large)
    ensures AccessRun(keys, small).order == Take(AccessRun(keys, large).order, small)
  {
    if keys != [] {
      var before := keys[..|keys| - 1];
      var (k, v) := keys[|keys| - 1];
      SmallerCacheIsPrefix(before, small, large);
      AccessOrder(AccessRun(before, small), small, k, v);
      AccessOrder(AccessRun(before, large), large, k, v);
      WithoutTake(AccessRun(before, large).order, small, k);
      TakeTake([k] + Without(AccessRun(before, large).order, k), small, large);
      TakeFront(k, Without(AccessRun(before, large).order, k), small);
      TakeFront(k, Without(AccessRun(before, small).order, k), small);
    }
  }

  lemma TakeTake<K>(s: seq<K>, m: nat, n: nat)
    requires m <= n
    ensures Take(Take(s, n), m) == Take(s, m)
  {
  }

  lemma TakeFront<K>(k: K, s: seq<K>, n: nat)
    requires n >= 1
    ensures Take([k] + s, n) == [k] + Take(s, n - 1)
  {
  }
}

/** The cache itself: a hash map into the nodes of a doubly linked list kept in
    recency order.  Each method is proved to be one step of `RecencySpec`. */
module LruCaches {
  import opened Wrappers
  import opened LinkedLists
  import opened RecencySpec

  datatype Entry<K, V> = Entry(value: V, listNode: ListNode<K>)

  /** Node sequence and hash map index each other, but for stale map entries under `stale` keys. */
  ghost predicate Indexed<K, V>(nodes: seq<ListNode<K>>, table: map<K, Entry<K, V>>, stale: set<K> := {}) {
    && (forall n | n in nodes :: n.data in table && n.data !in stale && table[n.data].listNode == n)
    && (forall k | k in table && k !in stale :: table[k].listNode in nodes && table[k].listNode.data == k)
  }

  ghost predicate DistinctNodes<K>(nodes: seq<ListNode<K>>) {
    forall i, j :: 0 <= i < j < |nodes| ==> nodes[i] != nodes[j]
  }

  ghost function ValuesOf<K, V>(table: map<K, Entry<K, V>>): map<K, V> {
    map k | k in table :: table[k].value
  }

  lemma {:induction false} IndexedWellFormed<K, V>(nodes: seq<ListNode<K>>, table: map<K, Entry<K, V>>)
    requires DistinctNodes(nodes) && Indexed(nodes, table)
    ensures WellFormed(Recency(DataOf(nodes), ValuesOf(table)), |nodes|)
  {
    var order := DataOf(nodes);
    forall i, j | 0 <= i < j < |order| ensures order[i] != order[j] {
      assert nodes[i] in nodes && nodes[j] in nodes;
    }
    forall k | k in table ensures k in order {
      var i :| 0 <= i < |nodes| && nodes[i] == table[k].listNode;
      assert order[i] == k;
    }
    forall k | k in order ensures k in table {
      var i :| 0 <= i < |order| && order[i] == k;
      assert nodes[i] in nodes;
    }
  }

  lemma CutData<K>(nodes: seq<ListNode<K>>, i: nat)
    requires i < |nodes| && Distinct(DataOf(nodes))
    ensures DataOf(nodes[..i] + nodes[i + 1..]) == Without(DataOf(nodes), nodes[i].data)
  {
    WithoutAt(DataOf(nodes), i);
  }

  lemma MoveToFrontIndexed<K, V>(nodes: seq<ListNode<K>>, i: nat, table: map<K, Entry<K, V>>, moved: seq<ListNode<K>>)
    requires i < |nodes| && Indexed(nodes, table)
    requires moved == [nodes[i]] + (nodes[..i] + nodes[i + 1..])
    ensures Indexed(moved, table)
  {
    assert forall n | n in moved :: n in nodes;
    forall n | n in nodes ensures n in moved {
      assert nodes == nodes[..i] + [nodes[i]] + nodes[i + 1..];
    }
  }

  /** Moving a node to the front is `Touch` on the view. */
  lemma MoveToFrontView<K, V>(nodes: seq<ListNode<K>>, i: nat, table: map<K, Entry<K, V>>, moved: seq<ListNode<K>>)
    requires i < |nodes| && DistinctNodes(nodes) && Indexed(nodes, table)
    requires moved == [nodes[i]] + (nodes[..i] + nodes[i + 1..])
    ensures Indexed(moved, table)
    ensures Recency(DataOf(moved), ValuesOf(table)) == Touch(Recency(DataOf(nodes), ValuesOf(table)), nodes[i].data)
  {
    assert nodes[i] in nodes;
    assert nodes[i].data in table;
    hide Indexed;
    MoveToFrontIndexed(nodes, i, table, moved);
    IndexedWellFormed(nodes, table);
    CutData(nodes, i);
    assert DataOf(moved) == [nodes[i].data] + DataOf(nodes[..i] + nodes[i + 1..]);
  }

  /** Dropping the last node and its map entry is `Evict` on the view, also while the
      map still holds a stale entry for the key `k` that is being inserted. */
  lemma PopView<K, V>(nodes: seq<ListNode<K>>, table: map<K, Entry<K, V>>, stale: set<K>)
    requires nodes != [] && DistinctNodes(nodes) && Indexed(nodes, table, stale)
    ensures var last := nodes[|nodes| - 1];
      && last.data in table
      && Indexed(nodes[..|nodes| - 1], table - {last.data}, stale)
      && Recency(DataOf(nodes[..|nodes| - 1]), ValuesOf(table - {last.data}))
         == Evict(Recency(DataOf(nodes), ValuesOf(table)))
  {
    var rest, last := nodes[..|nodes| - 1], nodes[|nodes| - 1];
    assert last in nodes;
    forall n | n in rest ensures n in nodes && n.data != last.data {
      assert n != last;
    }
    assert DataOf(rest) == DataOf(nodes)[..|nodes| - 1];
    forall k | k in table && k != last.data && k !in stale ensures table[k].listNode in rest {
      assert table[k].listNode in nodes && table[k].listNode != last;
    }
  }

  /** Prepending a fresh node for a key outside the list completes an insertion. */
  lemma PrependView<K, V>(nodes: seq<ListNode<K>>, table: map<K, Entry<K, V>>, n: ListNode<K>, v: V)
    requires Indexed(nodes, table, {n.data}) && n !in nodes
    ensures var table' := table[n.data := Entry(v, n)];
      && Indexed([n] + nodes, table')
      && Recency(DataOf([n] + nodes), ValuesOf(table'))
        == Recency([n.data] + DataOf(nodes), ValuesOf(table)[n.data := v])
  {
    assert DataOf([n] + nodes) == [n.data] + DataOf(nodes);
  }

  /** Unlinking the node of `k` leaves its map entry stale and nothing else changed. */
  lemma UnlinkView<K, V>(nodes: seq<ListNode<K>>, i: nat, table: map<K, Entry<K, V>>, rest: seq<ListNode<K>>)
    requires i < |nodes| && DistinctNodes(nodes) && Indexed(nodes, table)
    requires rest == nodes[..i] + nodes[i + 1..]
    ensures DataOf(rest) == Without(DataOf(nodes), nodes[i].data)
    ensures Indexed(rest, table, {nodes[i].data})
  {
    assert DataOf(rest) == Without(DataOf(nodes), nodes[i].data) by {
      IndexedWellFormed(nodes, table);
      CutData(nodes, i);
    }
    var n := nodes[i];
    assert n in nodes;
    forall m | m in rest ensures m in nodes && m.data != n.data {
      assert m in nodes[..i] || m in nodes[i + 1..];
      assert m != n;
    }
    forall m | m in nodes && m != n ensures m in rest {
      assert nodes == nodes[..i] + [n] + nodes[i + 1..];
    }
  }

  lemma UnlinkAbsent<K, V>(nodes: seq<ListNode<K>>, table: map<K, Entry<K, V>>, k: K)
    requires DistinctNodes(nodes) && Indexed(nodes, table) && k !in table
    ensures DataOf(nodes) == Without(DataOf(nodes), k) && Indexed(nodes, table, {k})
  {
    IndexedWellFormed(nodes, table);
    WithoutAbsent(DataOf(nodes), k);
  }

  lemma NodePosition<K, V>(nodes: seq<ListNode<K>>, table: map<K, Entry<K, V>>, k: K) returns (i: nat)
    requires Indexed(nodes, table) && k in table
    ensures i < |nodes| && nodes[i] == table[k].listNode && nodes[i].data == k
  {
    i :| 0 <= i < |nodes| && nodes[i] == table[k].listNode;
  }

  class LruCache<K(==), V> {
    const capacity: nat
    var list: List<K>
    var table: map<K, Entry<K, V>>

    /** Links consistent both ways, list keys equal to map keys, size within the capacity. */
    ghost predicate Valid()
      reads this, list, list.nodes
    {
      list.Valid() && Indexed(list.nodes, table) && |list.nodes| <= capacity
    }

    ghost function View(): (r: Recency<K, V>)
      reads this, list
    {
      Recency(DataOf(list.nodes), ValuesOf(table))
    }

    method GetSize() returns (size: nat)
      requires Valid()
      ensures size == |View().order| && size <= capacity
    {
      size := list.size;
    }

    constructor (capacity: nat)
      ensures Valid() && fresh(list)
      ensures this.capacity == capacity && View() == Empty()
    {
      this.capacity := capacity;
      list := new List();
      table := map[];
    }

    predicate Has(k: K)
      reads this
    {
      k in table
    }

    method Get(k: K) returns (r: Option<V>)
      requires Valid()
      modifies list, list.nodes
      ensures Valid()
      ensures forall i :: 0 <= i < |list.nodes| ==> list.nodes[i] in old(list.nodes)
      ensures r == if k in old(View().value) then Some(old(View().value)[k]) else None
      ensures View() == Touch(old(View()), k)
    {
      hide Indexed, DataOf, Without;
      if k !in table {
        return None;
      }
      var e := table[k];
      ghost var before := list.nodes;
      ghost var i := NodePosition(before, table, k);
      MoveToFront(e.listNode, i);
      MoveToFrontView(before, i, table, list.nodes);
      r := Some(e.value);
    }

    method MoveToFront(n: ListNode<K>, ghost i: nat)
      requires list.Valid() && i < |list.nodes| && list.nodes[i] == n
      modifies list, list.nodes
      ensures list.Valid()
      ensures list.nodes == [n] + (old(list.nodes)[..i] + old(list.nodes)[i + 1..])
    {
      list.Remove(n, i);
      list.Prepend(n);
    }

    method Insert(k: K, v: V)
      requires Valid() && capacity >= 1
      modifies this, list, list.nodes
      ensures Valid() && list == old(list)
      ensures forall i :: 0 <= i < |list.nodes| ==> list.nodes[i] in old(list.nodes) || fresh(list.nodes[i])
      ensures View() == Put(old(View()), capacity, k, v)
    {
      hide Indexed, DataOf, ValuesOf;
      UnlinkKey(k);
      MakeRoom(k);
      PutFront(k, v);
    }

    /** The last step of an insertion: a new node for the key at the head. */
    method PutFront(k: K, v: V)
      requires list.Valid() && Indexed(list.nodes, table, {k}) && |list.nodes| < capacity
      modifies this, list, list.nodes
      ensures Valid() && list == old(list)
      ensures forall i :: 0 <= i < |list.nodes| ==> list.nodes[i] in old(list.nodes) || fresh(list.nodes[i])
      ensures View() == Recency([k] + old(View().order), old(View().value)[k := v])
    {
      hide Indexed, DataOf, ValuesOf;
      var n := new ListNode(k);
      PrependView(list.nodes, table, n, v);
      table := table[k := Entry(v, n)];
      list.Prepend(n);
    }

    /** The loop of an insertion: evicts from the tail until one more key fits. */
    method MakeRoom(ghost k: K)
      requires list.Valid() && Indexed(list.nodes, table, {k}) && capacity >= 1
      modifies this, list, list.nodes
      ensures list.Valid() && Indexed(list.nodes, table, {k}) && list == old(list)
      ensures |list.nodes| < capacity
      ensures forall i :: 0 <= i < |list.nodes| ==> list.nodes[i] in old(list.nodes)
      ensures View() == EvictTo(old(View()), capacity - 1)
    {
      hide Indexed, DataOf, ValuesOf, Evict, Without;
      while list.size >= capacity
        invariant list.Valid() && Indexed(list.nodes, table, {k})
        invariant list == old(list)
        invariant list.nodes <= old(list.nodes)
        invariant EvictTo(View(), capacity - 1) == EvictTo(old(View()), capacity - 1)
        decreases list.size
      {
        PopView(list.nodes, table, {k});
        var last := list.Pop();
        table := table - {last.data};
      }
    }

    /** The first step of an insertion: a node already carrying the key leaves the list. */
    method UnlinkKey(k: K)
      requires Valid()
      modifies list, list.nodes
      ensures list.Valid() && Indexed(list.nodes, table, {k}) && |list.nodes| <= capacity
      ensures forall i :: 0 <= i < |list.nodes| ==> list.nodes[i] in old(list.nodes)
      ensures DataOf(list.nodes) == Without(old(DataOf(list.nodes)), k)
    {
      hide DataOf, Indexed, Without;
      if k in table {
        ghost var i := NodePosition(list.nodes, table, k);
        UnlinkView(list.nodes, i, table, list.nodes[..i] + list.nodes[i + 1..]);
        list.Remove(table[k].listNode, i);
      } else {
        UnlinkAbsent(list.nodes, table, k);
      }
    }

    method GetOrInsert(k: K, make: K -> V) returns (v: V)
      requires Valid() && capacity >= 1
      modifies this, list, list.nodes
      ensures Valid() && list == old(list)
      ensures forall i :: 0 <= i < |list.nodes| ==> list.nodes[i] in old(list.nodes) || fresh(list.nodes[i])
      ensures v == if k in old(View().value) then old(View().value)[k] else make(k)
      ensures View() == Access(old(View()), capacity, k, make(k))
    {
      hide Indexed, DataOf, ValuesOf;
      var hit := Get(k);
      if hit.Some? {
        return hit.value;
      }
      v := make(k);
      Insert(k, v);
    }

    method RemoveLru() returns (r: Option<(K, V)>)
      requires Valid()
      modifies this, list, list.nodes
      ensures Valid() && list == old(list)
      ensures forall i :: 0 <= i < |list.nodes| ==> list.nodes[i] in old(list.nodes)
      ensures View() == Evict(old(View()))
      ensures var before := old(View());
        if before.order == [] then r == None
        else var last := before.order[|before.order| - 1];
             last in before.value && r == Some((last, before.value[last]))
    {
      hide Indexed;
      if list.size > 0 {
        PopView(list.nodes, table, {});
      }
      var t := list.Pop();
      if t == null {
        return None;
      }
      var v := table[t.data].value;
      table := table - {t.data};
      r := Some((t.data, v));
    }

    method Clear()
      requires Valid()
      modifies this
      ensures Valid() && fresh(list) && View() == Empty()
    {
      list := new List();
      table := map[];
    }
  }
}
