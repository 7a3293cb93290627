/** The order of a node's children in the finished profile: heaviest first. */
module ChildOrder {
  import opened CallTrees

  function Weight(total: seq<real>, c: nat): real {
    if c < |total| then total[c] else 0.0
  }

  /** Insertion behind everything at least as heavy. */
  function InsertKid(sorted: seq<nat>, c: nat, total: seq<real>): (r: seq<nat>) {
    if sorted == [] then [c]
    else
      var init, last := sorted[..|sorted| - 1], sorted[|sorted| - 1];
      if Weight(total, last) >= Weight(total, c) then sorted + [c] else InsertKid(init, c, total) + [last]
  }

  /** What a stable sort by descending total gives. */
  function SortKids(kids: seq<nat>, total: seq<real>): (r: seq<nat>) {
    if kids == [] then [] else InsertKid(SortKids(kids[..|kids| - 1], total), kids[|kids| - 1], total)
  }

  ghost predicate Descending(kids: seq<nat>, total: seq<real>) {
    forall i, j :: 0 <= i < j < |kids| ==> Weight(total, kids[i]) >= Weight(total, kids[j])
  }

  ghost predicate Before(s: seq<nat>, a: nat, b: nat) {
    exists i, j :: 0 <= i < j < |s| && s[i] == a && s[j] == b
  }

  lemma {:induction false} InsertKeeps(sorted: seq<nat>, c: nat, total: seq<real>)
    ensures multiset(InsertKid(sorted, c, total)) == multiset(sorted) + multiset{c}
  {
    if sorted != [] {
      var init, last := sorted[..|sorted| - 1], sorted[|sorted| - 1];
      assert sorted == init + [last];
      InsertKeeps(init, c, total);
    }
  }

  lemma InsertIn(sorted: seq<nat>, c: nat, total: seq<real>, x: nat)
    ensures x in InsertKid(sorted, c, total) <==> x in sorted || x == c
  {
    hide InsertKid;
    InsertKeeps(sorted, c, total);
    assert x in InsertKid(sorted, c, total) <==> x in multiset(InsertKid(sorted, c, total));
    assert x in sorted <==> x in multiset(sorted);
  }

  lemma {:induction false} InsertDescending(sorted: seq<nat>, c: nat, total: seq<real>)
    requires Descending(sorted, total)
    ensures Descending(InsertKid(sorted, c, total), total)
  {
    hide Weight;
    if sorted != [] {
      var init, last := sorted[..|sorted| - 1], sorted[|sorted| - 1];
      assert sorted == init + [last];
      if Weight(total, last) < Weight(total, c) {
        InsertDescending(init, c, total);
        var inner := InsertKid(init, c, total);
        forall i | 0 <= i < |inner| ensures Weight(total, inner[i]) >= Weight(total, last) {
          InsertIn(init, c, total, inner[i]);
        }
      }
    }
  }

  lemma BelowInit(s: seq<nat>, n: nat)
    requires Below(s, n) && s != []
    ensures Below(s[..|s| - 1], n) && s[|s| - 1] < n && s == s[..|s| - 1] + [s[|s| - 1]]
  {
    var init := s[..|s| - 1];
    forall c | c in init ensures c in s {
      var i :| 0 <= i < |init| && init[i] == c;
      assert s[i] == c;
    }
    assert s[|s| - 1] in s;
  }

  lemma {:induction false} InsertSum(sorted: seq<nat>, c: nat, total: seq<real>)
    requires c < |total| && Below(sorted, |total|)
    ensures Below(InsertKid(sorted, c, total), |total|)
    ensures ChildSum(InsertKid(sorted, c, total), total) == ChildSum(sorted, total) + total[c]
  {
    hide ChildSum;
    NoKids(total);
    ChildSumAppend([], c, total);
    assert [] + [c] == [c];
    if sorted != [] {
      var init, last := sorted[..|sorted| - 1], sorted[|sorted| - 1];
      BelowInit(sorted, |total|);
      ChildSumAppend(sorted, c, total);
      ChildSumAppend(init, last, total);
      InsertSum(init, c, total);
      ChildSumAppend(InsertKid(init, c, total), last, total);
    }
  }

  lemma NoKids(total: seq<real>)
    ensures ChildSum([], total) == 0.0
  {
  }

  /** The sorted children are the children, heaviest first. */
  lemma {:induction false} SortSorts(kids: seq<nat>, total: seq<real>)
    ensures Descending(SortKids(kids, total), total)
    ensures multiset(SortKids(kids, total)) == multiset(kids)
  {
    hide InsertKid, Weight;
    if kids != [] {
      var init, last := kids[..|kids| - 1], kids[|kids| - 1];
      assert kids == init + [last];
      SortSorts(init, total);
      InsertDescending(SortKids(init, total), last, total);
      InsertKeeps(SortKids(init, total), last, total);
    }
  }

  lemma {:induction false} SortSum(kids: seq<nat>, total: seq<real>)
    requires Below(kids, |total|)
    ensures Below(SortKids(kids, total), |total|)
    ensures ChildSum(SortKids(kids, total), total) == ChildSum(kids, total)
  {
    hide InsertKid, ChildSum;
    if kids != [] {
      var init, last := kids[..|kids| - 1], kids[|kids| - 1];
      BelowInit(kids, |total|);
      SortSum(init, total);
      InsertSum(SortKids(init, total), last, total);
      ChildSumAppend(init, last, total);
    }
  }

  lemma SortIn(kids: seq<nat>, total: seq<real>, x: nat)
    ensures x in SortKids(kids, total) <==> x in kids
  {
    hide SortKids;
    SortSorts(kids, total);
    assert x in SortKids(kids, total) <==> x in multiset(SortKids(kids, total));
    assert x in kids <==> x in multiset(kids);
  }

  lemma BeforeAppend(s: seq<nat>, c: nat, a: nat, b: nat)
    ensures Before(s, a, b) ==> Before(s + [c], a, b)
    ensures a in s ==> Before(s + [c], a, c)
    ensures Before(s + [c], a, b) && b != c ==> Before(s, a, b)
  {
    var more := s + [c];
    if i, j :| 0 <= i < j < |s| && s[i] == a && s[j] == b {
      assert more[i] == a && more[j] == b;
    }
    if i :| 0 <= i < |s| && s[i] == a {
      assert more[i] == a && more[|s|] == c;
    }
  }

  lemma {:induction false} InsertStable(sorted: seq<nat>, c: nat, total: seq<real>, a: nat, b: nat)
    ensures Before(sorted, a, b) ==> Before(InsertKid(sorted, c, total), a, b)
    ensures a in sorted && Weight(total, a) == Weight(total, c) ==> Before(InsertKid(sorted, c, total), a, c)
  {
    hide Weight, Before;
    NothingBefore(a, b);
    if sorted != [] {
      var init, last := sorted[..|sorted| - 1], sorted[|sorted| - 1];
      assert sorted == init + [last];
      BeforeAppend(sorted, c, a, b);
      if Weight(total, last) < Weight(total, c) {
        var inner := InsertKid(init, c, total);
        InsertStable(init, c, total, a, b);
        BeforeAppend(init, last, a, b);
        BeforeAppend(inner, last, a, b);
        BeforeAppend(inner, last, a, c);
        if Before(sorted, a, b) && b == last {
          InInit(init, last, a);
          InsertIn(init, c, total, a);
        }
      }
    }
  }

  lemma NothingBefore(a: nat, b: nat)
    ensures !Before([], a, b)
  {
  }

  lemma InInit(init: seq<nat>, last: nat, a: nat)
    requires Before(init + [last], a, last)
    ensures a in init
  {
    var i, j :| 0 <= i < j < |init + [last]| && (init + [last])[i] == a && (init + [last])[j] == last;
    assert init[i] == a;
  }

  /** Children of equal weight keep their order. */
  lemma {:induction false} SortStable(kids: seq<nat>, total: seq<real>, a: nat, b: nat)
    requires Before(kids, a, b) && Weight(total, a) == Weight(total, b)
    ensures Before(SortKids(kids, total), a, b)
  {
    hide Weight, Before, InsertKid;
    NothingBefore(a, b);
    var init, last := kids[..|kids| - 1], kids[|kids| - 1];
    assert kids == init + [last];
    InsertStable(SortKids(init, total), last, total, a, b);
    if b == last {
      InInit(init, last, a);
      SortIn(init, total, a);
    } else {
      BeforeAppend(init, last, a, b);
      SortStable(init, total, a, b);
    }
  }

  lemma {:induction false} InsertDistinct(sorted: seq<nat>, c: nat, total: seq<real>)
    requires Distinct(sorted) && c !in sorted
    ensures Distinct(InsertKid(sorted, c, total))
  {
    if sorted != [] {
      var init, last := sorted[..|sorted| - 1], sorted[|sorted| - 1];
      assert sorted == init + [last];
      if Weight(total, last) < Weight(total, c) {
        InsertDistinct(init, c, total);
        InsertIn(init, c, total, last);
      }
    }
  }

  lemma {:induction false} SortDistinct(kids: seq<nat>, total: seq<real>)
    requires Distinct(kids)
    ensures Distinct(SortKids(kids, total))
  {
    hide InsertKid;
    if kids != [] {
      var init, last := kids[..|kids| - 1], kids[|kids| - 1];
      assert kids == init + [last];
      SortDistinct(init, total);
      SortIn(init, total, last);
      InsertDistinct(SortKids(init, total), last, total);
    }
  }

  /** Every node's children sorted; nothing else of the tree changes. */
  ghost predicate SortedTree(t: Tree, u: Tree) {
    && u == t.(children := u.children) && |u.children| == |t.children|
    && forall n :: 0 <= n < |t.children| ==> u.children[n] == SortKids(t.children[n], t.total)
  }

  lemma {:induction false} SortedWellFormed(t: Tree, u: Tree)
    requires WellFormed(t) && SortedTree(t, u)
    ensures WellFormed(u)
  {
    hide SortKids;
    forall p | 0 <= p < |u.parent| ensures Distinct(u.children[p]) {
      SortDistinct(t.children[p], t.total);
    }
    forall p, c | 0 <= p < |u.parent| ensures c in u.children[p] <==> c in t.children[p] {
      SortIn(t.children[p], t.total, c);
    }
  }

  lemma {:induction false} SortedBalanced(t: Tree, u: Tree)
    requires WellFormed(t) && WellFormed(u) && SortedTree(t, u) && Balanced(t, 0, 0.0)
    ensures Balanced(u, 0, 0.0)
  {
    hide SortKids, ChildSum;
    forall n | 0 < n < |u.parent| ensures u.total[n] == u.self[n] + ChildSum(u.children[n], u.total) {
      SortSum(t.children[n], t.total);
    }
  }
}
