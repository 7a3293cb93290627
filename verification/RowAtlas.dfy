/** Row allocation over a recency order, on values. */
module RowSpec {
  import opened RecencySpec

  /** No two keys share a row and every row lies below the number of keys. */
  ghost predicate RowsDense<K>(r: Recency<K, nat>) {
    && (forall k | k in r.value :: r.value[k] < |r.order|)
    && (forall j, k | j in r.value && k in r.value && j != k :: r.value[j] != r.value[k])
  }

  /** Every resident key's picture is the one last painted on its row. */
  ghost predicate Painted<K>(r: Recency<K, nat>, texture: map<nat, K>) {
    forall k | k in r.value :: r.value[k] in texture && texture[r.value[k]] == k
  }

  ghost predicate AtlasOk<K>(r: Recency<K, nat>, capacity: nat, texture: map<nat, K>) {
    WellFormed(r, capacity) && RowsDense(r) && Painted(r, texture)
  }

  function FreeRow<K>(r: Recency<K, nat>, capacity: nat): nat
    requires capacity >= 1 && WellFormed(r, capacity)
  {
    if |r.order| < capacity then |r.order| else r.value[r.order[|r.order| - 1]]
  }

  function Allocate<K>(r: Recency<K, nat>, capacity: nat, k: K): Recency<K, nat>
    requires capacity >= 1 && WellFormed(r, capacity)
  {
    Put(if |r.order| < capacity then r else Evict(r), capacity, k, FreeRow(r, capacity))
  }

  function Demand<K>(r: Recency<K, nat>, capacity: nat, k: K): Recency<K, nat>
    requires capacity >= 1 && WellFormed(r, capacity)
  {
    if k in r.value then Touch(r, k) else Allocate(r, capacity, k)
  }

  /** The closed form of an allocation: the rows of surviving keys do not move and
      the new key takes a row that none of them uses. */
  lemma AllocateClosed<K>(r: Recency<K, nat>, capacity: nat, k: K)
    requires capacity >= 1 && WellFormed(r, capacity) && k !in r.value
    ensures var a := Allocate(r, capacity, k);
      var kept := if |r.order| < capacity then r.order else r.order[..|r.order| - 1];
      && WellFormed(a, capacity)
      && a.order == [k] + kept
      && k in a.value && a.value[k] == FreeRow(r, capacity)
      && (forall x | x in kept :: x in r.value && x in a.value && a.value[x] == r.value[x])
      && (forall x | x in a.value :: x == k || x in kept)
  {
    hide Put, Distinct;
    var base := if |r.order| < capacity then r else Evict(r);
    EvictWellFormed(r, capacity);
    assert k !in r.order;
    assert base.order <= r.order && forall x | x in base.value :: x in r.value && base.value[x] == r.value[x];
    PutAbsent(base, capacity, k, FreeRow(r, capacity));
  }

  lemma PutAbsent<K>(r: Recency<K, nat>, capacity: nat, k: K, row: nat)
    requires WellFormed(r, capacity) && |r.order| < capacity && k !in r.order
    ensures var p := Put(r, capacity, k, row);
      && WellFormed(p, capacity)
      && p.order == [k] + r.order
      && p.value[k] == row
      && (forall x | x in r.order :: x in r.value && x in p.value && p.value[x] == r.value[x])
      && (forall x | x in p.value :: x == k || x in r.order)
  {
    WithoutAbsent(r.order, k);
    PutOrder(r, capacity, k, row);
    hide Put;
    assert forall x | x in r.order :: x in Put(r, capacity, k, row).order && x != k;
  }

  lemma DemandWellFormed<K>(r: Recency<K, nat>, capacity: nat, k: K)
    requires capacity >= 1 && WellFormed(r, capacity)
    ensures WellFormed(Demand(r, capacity, k), capacity)
  {
    if k in r.value {
      TouchWellFormed(r, capacity, k);
    } else {
      AllocateClosed(r, capacity, k);
    }
  }

  /** A batch: its keys are demanded one after the other. */
  ghost function DemandAll<K>(r: Recency<K, nat>, capacity: nat, keys: seq<K>): (d: Recency<K, nat>)
    requires capacity >= 1 && WellFormed(r, capacity)
    ensures WellFormed(d, capacity)
  {
    if keys == [] then r
    else
      var d, k := DemandAll(r, capacity, keys[..|keys| - 1]), keys[|keys| - 1];
      DemandWellFormed(d, capacity, k);
      Demand(d, capacity, k)
  }

  lemma NoDemand<K>(r: Recency<K, nat>, capacity: nat)
    requires capacity >= 1 && WellFormed(r, capacity)
    ensures DemandAll(r, capacity, []) == r
  {
  }

  lemma DemandNext<K>(r: Recency<K, nat>, capacity: nat, keys: seq<K>, i: nat)
    requires capacity >= 1 && WellFormed(r, capacity) && i < |keys|
    ensures DemandAll(r, capacity, keys[..i + 1]) == Demand(DemandAll(r, capacity, keys[..i]), capacity, keys[i])
  {
    assert keys[..i + 1][..i] == keys[..i];
  }

  lemma {:induction false} AllocateKeepsAtlas<K>(r: Recency<K, nat>, capacity: nat, texture: map<nat, K>, k: K)
    requires capacity >= 1 && AtlasOk(r, capacity, texture) && k !in r.value
    ensures AtlasOk(Allocate(r, capacity, k), capacity, texture[FreeRow(r, capacity) := k])
    ensures FreeRow(r, capacity) < capacity
  {
    AllocateClosed(r, capacity, k);
    var kept := if |r.order| < capacity then r.order else r.order[..|r.order| - 1];
    forall x | x in kept ensures r.value[x] != FreeRow(r, capacity) {
      assert |r.order| == capacity ==> x != r.order[|r.order| - 1];
    }
  }

  lemma TouchKeepsAtlas<K>(r: Recency<K, nat>, capacity: nat, texture: map<nat, K>, k: K)
    requires AtlasOk(r, capacity, texture)
    ensures AtlasOk(Touch(r, k), capacity, texture)
  {
    TouchWellFormed(r, capacity, k);
    WithoutDistinct(r.order, k);
  }

  /** The keys of `front` are resident and stand before all other keys. */
  ghost predicate Leads<K>(front: set<K>, order: seq<K>) {
    && (forall k | k in front :: k in order)
    && (forall i, j :: 0 <= i < j < |order| && order[j] in front ==> order[i] in front)
  }

  lemma EmptyLeads<K>(order: seq<K>)
    ensures Leads(SetOf([]), order)
  {
  }

  lemma PushLeads<K>(front: set<K>, k: K, kept: seq<K>)
    requires Leads(front - {k}, kept) && k !in kept
    ensures Leads(front + {k}, [k] + kept)
  {
    var order := [k] + kept;
    forall i, j | 0 <= i < j < |order| && order[j] in front + {k} ensures order[i] in front + {k} {
      assert order[j] == kept[j - 1];
      assert i > 0 ==> order[i] == kept[i - 1];
    }
  }

  lemma CutLeads<K>(front: set<K>, order: seq<K>, i: nat)
    requires i < |order| && Leads(front, order) && Distinct(order)
    ensures Leads(front - {order[i]}, order[..i] + order[i + 1..])
  {
    assert order == order[..i] + [order[i]] + order[i + 1..];
  }

  /** An allocation for one more key of a batch of at most `capacity` keys never
      evicts a key of the batch that was already served. */
  lemma {:induction false} VictimOutsideBatch<K>(front: set<K>, r: Recency<K, nat>, capacity: nat, k: K)
    requires WellFormed(r, capacity) && Leads(front, r.order) && k !in r.value
    requires |front + {k}| <= capacity == |r.order| && capacity >= 1
    ensures r.order[|r.order| - 1] !in front
  {
    assert front + {k} - {k} == front;
    if r.order[|r.order| - 1] in front {
      var resident := set x | x in r.order;
      assert resident <= front;
      DistinctCount(r.order);
      SubsetCount(resident, front);
    }
  }

  lemma {:induction false} DistinctCount<K>(s: seq<K>)
    requires Distinct(s)
    ensures |set x | x in s| == |s|
  {
    if s != [] {
      DistinctCount(s[1..]);
      assert (set x | x in s) == (set x | x in s[1..]) + {s[0]};
    }
  }

  lemma SubsetCount<K>(a: set<K>, b: set<K>)
    requires a <= b
    ensures |a| <= |b|
  {
    assert b == a + (b - a);
  }

  lemma TouchLeads<K>(front: set<K>, r: Recency<K, nat>, capacity: nat, k: K)
    requires WellFormed(r, capacity) && Leads(front, r.order) && k in r.value
    ensures Leads(front + {k}, Touch(r, k).order)
  {
    var i :| 0 <= i < |r.order| && r.order[i] == k;
    WithoutAt(r.order, i);
    CutLeads(front, r.order, i);
    PushLeads(front, k, Without(r.order, k));
  }

  lemma AllocateOrder<K>(r: Recency<K, nat>, capacity: nat, k: K)
    requires capacity >= 1 && WellFormed(r, capacity) && k !in r.value
    ensures Allocate(r, capacity, k).order
            == [k] + if |r.order| < capacity then r.order else r.order[..|r.order| - 1]
  {
    AllocateClosed(r, capacity, k);
  }

  lemma DropLastLeads<K>(front: set<K>, order: seq<K>)
    requires order != [] && Leads(front, order) && order[|order| - 1] !in front
    ensures Leads(front, order[..|order| - 1])
  {
    forall k | k in front ensures k in order[..|order| - 1] {
      assert k in order;
    }
  }

  lemma AllocateLeads<K>(front: set<K>, r: Recency<K, nat>, capacity: nat, k: K)
    requires capacity >= 1 && WellFormed(r, capacity) && Leads(front, r.order) && k !in r.value
    requires |front + {k}| <= capacity
    ensures Leads(front + {k}, Allocate(r, capacity, k).order)
  {
    assert k !in r.order;
    assert front - {k} == front by {
      assert forall x | x in front :: x in r.order;
    }
    assert |r.order| <= capacity;
    hide Leads, Allocate, WellFormed;
    AllocateOrder(r, capacity, k);
    if |r.order| < capacity {
      PushLeads(front, k, r.order);
    } else {
      VictimOutsideBatch(front, r, capacity, k);
      DropLastLeads(front, r.order);
      PushLeads(front, k, r.order[..capacity - 1]);
    }
  }

  lemma {:induction false} BatchLeads<K>(keys: seq<K>, i: nat, r: Recency<K, nat>, capacity: nat)
    requires capacity >= 1 && WellFormed(r, capacity)
    requires i < |keys| && |SetOf(keys)| <= capacity && Leads(SetOf(keys[..i]), r.order)
    ensures Leads(SetOf(keys[..i + 1]), Demand(r, capacity, keys[i]).order)
  {
    hide Leads, Allocate, Touch, WellFormed;
    var front, k := SetOf(keys[..i]), keys[i];
    assert front + {k} == SetOf(keys[..i + 1]) <= SetOf(keys);
    SubsetCount(front + {k}, SetOf(keys));
    if k in r.value {
      TouchLeads(front, r, capacity, k);
    } else {
      AllocateLeads(front, r, capacity, k);
    }
  }

  function SetOf<K>(s: seq<K>): set<K> {
    set k | k in s
  }

  lemma {:induction false} SetOfSize<K>(s: seq<K>)
    ensures |SetOf(s)| <= |s|
  {
    if s != [] {
      SetOfSize(s[1..]);
      assert SetOf(s) == SetOf(s[1..]) + {s[0]};
    }
  }

  lemma {:induction false} LeadsResident<K>(keys: seq<K>, r: Recency<K, nat>, capacity: nat)
    requires WellFormed(r, capacity) && Leads(SetOf(keys), r.order)
    ensures forall k | k in keys :: k in r.value
  {
    assert forall k | k in keys :: k in SetOf(keys);
  }

  function Below(n: nat): (s: set<nat>)
    ensures |s| == n && forall i :: i in s <==> 0 <= i < n
  {
    if n == 0 then {} else Below(n - 1) + {n - 1}
  }

  /** The rows in use are exactly 0 .. size-1. */
  lemma {:induction false} RowsInUse<K>(r: Recency<K, nat>, capacity: nat)
    requires WellFormed(r, capacity) && RowsDense(r)
    ensures (set k | k in r.value :: r.value[k]) == Below(|r.order|)
  {
    var keys := set k | k in r.order;
    var rows := set k | k in keys :: r.value[k];
    assert rows == set k | k in r.value :: r.value[k];
    DistinctCount(r.order);
    RowCount(r.value, keys);
    FullSubset(rows, Below(|r.order|));
  }

  lemma {:induction false} RowCount<K>(m: map<K, nat>, keys: set<K>)
    requires forall k | k in keys :: k in m
    requires forall j, k | j in keys && k in keys && j != k :: m[j] != m[k]
    ensures |set k | k in keys :: m[k]| == |keys|
  {
    if keys != {} {
      var k :| k in keys;
      RowCount(m, keys - {k});
      assert (set x | x in keys :: m[x]) == (set x | x in keys - {k} :: m[x]) + {m[k]};
    }
  }

  lemma TouchKeepsValues<K>(r: Recency<K, nat>, k: K)
    ensures Touch(r, k).value == r.value
  {
  }

  lemma FullSubset<T>(a: set<T>, b: set<T>)
    requires a <= b && |a| == |b|
    ensures a == b
  {
    assert b == a + (b - a);
  }
}

/** The texture rows that hold flame chart pictures, and a frame drawn through them. */
module RowAtlases {
  import opened Wrappers
  import opened RecencySpec
  import opened LruCaches
  import opened LinkedLists
  import opened RowSpec

  /** `texture[row]` is the key whose picture was last painted on the row. */
  class RowAtlas<K(==)> {
    var rowCache: LruCache<K, nat>
    var texture: map<nat, K>

    ghost predicate Valid()
      reads this, rowCache, rowCache.list, rowCache.list.nodes
    {
      && rowCache.Valid() && rowCache.capacity >= 1
      && AtlasOk(rowCache.View(), rowCache.capacity, texture)
    }

    ghost function View(): Recency<K, nat>
      reads this, rowCache, rowCache.list
    {
      rowCache.View()
    }

    constructor (height: nat)
      requires height >= 1
      ensures Valid() && rowCache.capacity == height
      ensures View() == Empty()
    {
      rowCache := new LruCache(height);
      texture := map[];
    }

    /** A lost graphics context empties the cache; the rows may hold anything. */
    method ContextReset(contents: map<nat, K>)
      requires Valid()
      modifies this, rowCache
      ensures Valid() && rowCache == old(rowCache)
      ensures View() == Empty()
    {
      rowCache.Clear();
      texture := contents;
    }

    /** Serves every key of the batch from its row, or paints it on a freed row.
        A batch of at most `capacity` keys ends wholly resident. */
    method WriteToAtlasIfNeeded(keys: seq<K>)
      requires Valid()
      modifies this, rowCache, rowCache.list, rowCache.list.nodes
      ensures Valid() && rowCache == old(rowCache) && rowCache.list == old(rowCache.list)
      ensures forall i :: 0 <= i < |rowCache.list.nodes| ==>
                rowCache.list.nodes[i] in old(rowCache.list.nodes) || fresh(rowCache.list.nodes[i])
      ensures View() == DemandAll(old(View()), rowCache.capacity, keys)
      ensures |SetOf(keys)| <= rowCache.capacity ==> Leads(SetOf(keys), View().order)
    {
      hide Indexed, DataOf, ValuesOf, RowsDense, Painted, Leads, Demand, DemandAll;
      NoDemand(View(), rowCache.capacity);
      EmptyLeads(View().order);
      for i := 0 to |keys|
        invariant Valid() && rowCache == old(rowCache) && rowCache.list == old(rowCache.list)
        invariant forall j :: 0 <= j < |rowCache.list.nodes| ==>
                    rowCache.list.nodes[j] in old(rowCache.list.nodes) || fresh(rowCache.list.nodes[j])
        invariant View() == DemandAll(old(View()), rowCache.capacity, keys[..i])
        invariant |SetOf(keys)| <= rowCache.capacity ==> Leads(SetOf(keys[..i]), View().order)
      {
        ghost var before := View();
        assert WellFormed(before, rowCache.capacity);
        DemandRow(keys[i]);
        DemandNext(old(View()), rowCache.capacity, keys, i);
        if |SetOf(keys)| <= rowCache.capacity {
          BatchLeads(keys, i, before, rowCache.capacity);
        }
      }
      assert keys[..|keys|] == keys;
    }

    method Has(k: K) returns (b: bool)
      requires Valid()
      ensures b == (k in View().value)
    {
      b := rowCache.Has(k);
    }

    method AllocateLine(k: K) returns (row: nat)
      requires Valid() && k !in View().value
      modifies rowCache, rowCache.list, rowCache.list.nodes
      ensures rowCache.Valid() && rowCache.list == old(rowCache.list)
      ensures forall i :: 0 <= i < |rowCache.list.nodes| ==>
                rowCache.list.nodes[i] in old(rowCache.list.nodes) || fresh(rowCache.list.nodes[i])
      ensures row == FreeRow(old(View()), rowCache.capacity)
      ensures View() == Allocate(old(View()), rowCache.capacity, k)
    {
      hide Indexed, DataOf, ValuesOf, LruCache.Valid, Put, Evict, FreeRow;
      row := TakeRow();
      rowCache.Insert(k, row);
    }

    /** The next unused row, or the row of the evicted key. */
    method TakeRow() returns (row: nat)
      requires Valid()
      modifies rowCache, rowCache.list, rowCache.list.nodes
      ensures rowCache.Valid() && rowCache.list == old(rowCache.list)
      ensures forall i :: 0 <= i < |rowCache.list.nodes| ==> rowCache.list.nodes[i] in old(rowCache.list.nodes)
      ensures row == FreeRow(old(View()), rowCache.capacity)
      ensures View() == if |old(View()).order| < rowCache.capacity then old(View()) else Evict(old(View()))
    {
      hide Indexed, DataOf, ValuesOf, LruCache.Valid, RowsDense, Painted, Evict;
      var size := rowCache.GetSize();
      if size < rowCache.capacity {
        return size;
      }
      var victim := rowCache.RemoveLru();
      row := victim.value.1;
    }

    /** One turn of the batch loop. */
    method DemandRow(k: K)
      requires Valid()
      modifies this, rowCache, rowCache.list, rowCache.list.nodes
      ensures Valid() && rowCache == old(rowCache) && rowCache.list == old(rowCache.list)
      ensures forall i :: 0 <= i < |rowCache.list.nodes| ==>
                rowCache.list.nodes[i] in old(rowCache.list.nodes) || fresh(rowCache.list.nodes[i])
      ensures View() == Demand(old(View()), rowCache.capacity, k)
      ensures texture == if k in old(View().value) then old(texture)
                         else old(texture)[FreeRow(old(View()), rowCache.capacity) := k]
    {
      hide Indexed, DataOf, ValuesOf, RowsDense, Painted, Allocate, LruCache.Valid;
      ghost var before := View();
      var row := rowCache.Get(k);
      if row.Some? {
        TouchKeepsAtlas(before, rowCache.capacity, texture, k);
      } else {
        AllocateKeepsAtlas(before, rowCache.capacity, texture, k);
        var line := AllocateLine(k);
        texture := texture[line := k];
      }
    }

    /** Draws the row of a resident key; false, drawing nothing, for any other key. */
    method RenderViaAtlas(k: K) returns (ok: bool, picture: K)
      requires Valid()
      modifies rowCache.list, rowCache.list.nodes
      ensures Valid()
      ensures forall i :: 0 <= i < |rowCache.list.nodes| ==> rowCache.list.nodes[i] in old(rowCache.list.nodes)
      ensures ok == (k in old(View().value))
      ensures ok ==> picture == k
      ensures View() == Touch(old(View()), k)
    {
      TouchKeepsAtlas(View(), rowCache.capacity, texture, k);
      hide Indexed, DataOf, ValuesOf, RowsDense, LruCache.Valid;
      var row := rowCache.Get(k);
      if row.None? {
        return false, k;
      }
      return true, texture[row.value];
    }

    /** A frame: as many keys as there are rows go through the atlas, the others are
        drawn directly.  The frame shows every key's own picture, once and in order,
        exactly as if all of them had been drawn directly. */
    method Render(keys: seq<K>) returns (shown: seq<K>)
      requires Valid()
      modifies this, rowCache, rowCache.list, rowCache.list.nodes
      ensures Valid() && rowCache == old(rowCache)
      ensures shown == keys
      ensures forall i :: 0 <= i < |keys| && i < rowCache.capacity ==> keys[i] in View().value
    {
      hide Indexed, DataOf, ValuesOf, RowsDense, Painted, LruCache.Valid, Leads, DemandAll, SetOf;
      var cut := if |keys| <= rowCache.capacity then |keys| else rowCache.capacity;
      var cached, rest := keys[..cut], keys[cut..];
      SetOfSize(cached);
      WriteToAtlasIfNeeded(cached);
      LeadsResident(cached, View(), rowCache.capacity);
      shown := DrawCached(cached);
      for i := 0 to |rest|
        invariant shown == keys[..cut + i]
      {
        shown := shown + [rest[i]];
      }
    }

    /** The first loop of a frame, over keys that are all resident. */
    method DrawCached(keys: seq<K>) returns (shown: seq<K>)
      requires Valid() && forall k | k in keys :: k in View().value
      modifies rowCache.list, rowCache.list.nodes
      ensures Valid() && shown == keys && View().value == old(View().value)
    {
      hide Indexed, DataOf, ValuesOf, LruCache.Valid, AtlasOk, Without, Touch;
      shown := [];
      for i := 0 to |keys|
        invariant Valid()
        invariant forall j :: 0 <= j < |rowCache.list.nodes| ==> rowCache.list.nodes[j] in old(rowCache.list.nodes)
        invariant View().value == old(View().value)
        invariant shown == keys[..i]
      {
        TouchKeepsValues(View(), keys[i]);
        var ok, picture := RenderViaAtlas(keys[i]);
        if ok {
          shown := shown + [picture];
        }
      }
    }
  }
}
