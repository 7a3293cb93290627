/** Call trees as an arena: node 0 is the root and the columns hold one entry per
    node in order of creation. */
module CallTrees {
  import opened Wrappers

  type Frame = string

  datatype Tree = Tree(
    frame: seq<Frame>, parent: seq<nat>, children: seq<seq<nat>>, frozen: seq<bool>,
    self: seq<real>, total: seq<real>)

  const EmptyTree := Tree(["(speedscope root)"], [0], [[]], [false], [0.0], [0.0])

  /** Parents are created before their children. */
  ghost predicate Parents(parent: seq<nat>) {
    forall i {:trigger parent[i]} :: 0 < i < |parent| ==> parent[i] < i
  }

  ghost predicate Distinct(s: seq<nat>) {
    forall i, j :: 0 <= i < j < |s| ==> s[i] != s[j]
  }

  predicate Below(kids: seq<nat>, n: nat) {
    forall c | c in kids :: c < n
  }

  ghost predicate WellFormed(t: Tree) {
    && |t.parent| >= 1 && Parents(t.parent)
    && |t.frame| == |t.children| == |t.frozen| == |t.self| == |t.total| == |t.parent|
    && (forall c {:trigger t.parent[c]} :: 0 < c < |t.parent| ==> c in t.children[t.parent[c]])
    && (forall p, c {:trigger c in t.children[p]} :: 0 <= p < |t.parent| && c in t.children[p] ==>
          0 < c < |t.parent| && t.parent[c] == p)
    && (forall p :: 0 <= p < |t.parent| ==> Distinct(t.children[p]))
  }

  /** The nodes from below the root down to `n`. */
  ghost function Path(parent: seq<nat>, n: nat): seq<nat>
    requires Parents(parent) && n < |parent|
  {
    if n == 0 then [] else Path(parent, parent[n]) + [n]
  }

  /** The call stack a node stands for, outermost frame first. */
  ghost function StackOf(frame: seq<Frame>, parent: seq<nat>, n: nat): seq<Frame>
    requires Parents(parent) && |frame| == |parent| && n < |parent|
  {
    if n == 0 then [] else StackOf(frame, parent, parent[n]) + [frame[n]]
  }

  ghost function Stack(t: Tree, n: nat): seq<Frame>
    requires WellFormed(t) && n < |t.parent|
  {
    StackOf(t.frame, t.parent, n)
  }

  lemma {:induction false} PathIncreasing(parent: seq<nat>, n: nat)
    requires Parents(parent) && n < |parent|
    ensures forall x | x in Path(parent, n) :: 0 < x <= n
    ensures forall i, j :: 0 <= i < j < |Path(parent, n)| ==> Path(parent, n)[i] < Path(parent, n)[j]
  {
    if n != 0 {
      PathIncreasing(parent, parent[n]);
      var p := Path(parent, parent[n]);
      assert forall i :: 0 <= i < |p| ==> p[i] in p;
    }
  }

  lemma {:induction false} PathExtend(parent: seq<nat>, longer: seq<nat>, n: nat)
    requires Parents(parent) && Parents(longer) && parent <= longer && n < |parent|
    ensures Path(longer, n) == Path(parent, n)
  {
    if n != 0 {
      PathExtend(parent, longer, parent[n]);
    }
  }

  /** Every prefix of a path is the path of its last node. */
  lemma {:induction false} PathPrefix(parent: seq<nat>, n: nat, i: nat)
    requires Parents(parent) && n < |parent| && i < |Path(parent, n)|
    ensures Path(parent, n)[i] < |parent| && Path(parent, Path(parent, n)[i]) == Path(parent, n)[..i + 1]
  {
    var p := Path(parent, n);
    if i < |p| - 1 {
      PathPrefix(parent, parent[n], i);
      assert p[..i + 1] == Path(parent, parent[n])[..i + 1];
    } else {
      assert p[..i + 1] == p;
    }
  }

  lemma {:induction false} StackOfLength(frame: seq<Frame>, parent: seq<nat>, n: nat)
    requires Parents(parent) && |frame| == |parent| && n < |parent|
    ensures |StackOf(frame, parent, n)| == |Path(parent, n)|
  {
    if n != 0 {
      StackOfLength(frame, parent, parent[n]);
    }
  }

  /** Stacks depend only on the frame and parent columns, which only grow. */
  lemma {:induction false} StackOfExtend(frame: seq<Frame>, parent: seq<nat>, frame': seq<Frame>, parent': seq<nat>,
                                         n: nat)
    requires Parents(parent) && |frame| == |parent| && Parents(parent') && |frame'| == |parent'|
    requires parent <= parent' && frame <= frame' && n < |parent|
    ensures StackOf(frame', parent', n) == StackOf(frame, parent, n)
  {
    if n != 0 {
      StackOfExtend(frame, parent, frame', parent', parent[n]);
    }
  }

  function AddChild(t: Tree, p: nat, f: Frame): Tree
    requires p < |t.children|
  {
    Tree(t.frame + [f], t.parent + [p], t.children[p := t.children[p] + [|t.parent|]] + [[]],
         t.frozen + [false], t.self + [0.0], t.total + [0.0])
  }

  function AddTotal(t: Tree, n: nat, w: real): Tree
    requires n < |t.total|
  {
    t.(total := t.total[n := t.total[n] + w])
  }

  function AddSelf(t: Tree, n: nat, w: real): Tree
    requires n < |t.self|
  {
    t.(self := t.self[n := t.self[n] + w])
  }

  lemma AddChildWellFormed(t: Tree, p: nat, f: Frame)
    requires WellFormed(t) && p < |t.parent|
    ensures WellFormed(AddChild(t, p, f))
    ensures Path(AddChild(t, p, f).parent, |t.parent|) == Path(t.parent, p) + [|t.parent|]
    ensures Stack(AddChild(t, p, f), |t.parent|) == Stack(t, p) + [f]
  {
    hide Path, StackOf;
    AddChildPath(t, p, f);
    var u := AddChild(t, p, f);
    var n := |t.parent|;
    forall c | 0 < c < |u.parent| ensures c in u.children[u.parent[c]] {
      if c < n {
        assert c in t.children[t.parent[c]];
      }
    }
    forall q, c | 0 <= q < |u.parent| && c in u.children[q] ensures 0 < c < |u.parent| && u.parent[c] == q {
      if q < n && c != n {
        assert c in t.children[q];
      }
    }
    forall q | 0 <= q < |u.parent| ensures Distinct(u.children[q]) {
      if q == p {
        assert forall i :: 0 <= i < |t.children[p]| ==> t.children[p][i] in t.children[p];
      }
    }
  }

  lemma AddChildPath(t: Tree, p: nat, f: Frame)
    requires WellFormed(t) && p < |t.parent|
    ensures var u := AddChild(t, p, f); var n := |t.parent|;
      && Parents(u.parent) && Path(u.parent, n) == Path(t.parent, p) + [n]
      && |u.frame| == |u.parent| && StackOf(u.frame, u.parent, n) == StackOf(t.frame, t.parent, p) + [f]
  {
    var u := AddChild(t, p, f);
    PathExtend(t.parent, u.parent, p);
    StackOfExtend(t.frame, t.parent, u.frame, u.parent, p);
  }

  datatype Order = AppendOrder | Grouped

  function FirstWithFrame(frame: seq<Frame>, kids: seq<nat>, f: Frame): (r: Option<nat>)
    requires Below(kids, |frame|)
    ensures r.Some? ==> r.value in kids && frame[r.value] == f
    ensures r.None? ==> forall c | c in kids :: frame[c] != f
  {
    if kids == [] then None
    else
      assert kids[0] in kids && forall c | c in kids[1..] :: c in kids;
      if frame[kids[0]] == f then Some(kids[0])
    else FirstWithFrame(frame, kids[1..], f)
  }

  /** The child a sample may continue into: the newest one in append order, the one
      for the frame in the grouped tree. */
  function Candidate(t: Tree, node: nat, f: Frame, order: Order): (r: Option<nat>)
    requires WellFormed(t) && node < |t.parent|
    ensures r.Some? ==> r.value in t.children[node]
  {
    var kids := t.children[node];
    match order
    case AppendOrder => if kids == [] then None else Some(kids[|kids| - 1])
    case Grouped => FirstWithFrame(t.frame, kids, f)
  }

  predicate Continues(t: Tree, node: nat, f: Frame, order: Order)
    requires WellFormed(t) && node < |t.parent|
  {
    var c := Candidate(t, node, f, order);
    c.Some? && !t.frozen[c.value] && t.frame[c.value] == f
  }

  function EnterTree(t: Tree, node: nat, f: Frame, order: Order): Tree
    requires WellFormed(t) && node < |t.parent|
  {
    if Continues(t, node, f, order) then t else AddChild(t, node, f)
  }

  function EnterNode(t: Tree, node: nat, f: Frame, order: Order): nat
    requires WellFormed(t) && node < |t.parent|
  {
    if Continues(t, node, f, order) then Candidate(t, node, f, order).value else |t.parent|
  }

  ghost predicate Extends(t: Tree, u: Tree) {
    t.frame <= u.frame && t.parent <= u.parent
  }

  lemma EnterStep(t: Tree, node: nat, f: Frame, order: Order)
    requires WellFormed(t) && node < |t.parent|
    ensures var u, m := EnterTree(t, node, f, order), EnterNode(t, node, f, order);
      && WellFormed(u) && Extends(t, u) && 0 < m < |u.parent| && u.parent[m] == node
      && Path(u.parent, m) == Path(t.parent, node) + [m]
      && Stack(u, m) == Stack(t, node) + [f]
  {
    AddChildWellFormed(t, node, f);
  }

  ghost function ChildSum(kids: seq<nat>, total: seq<real>): real
    requires Below(kids, |total|)
  {
    if kids == [] then 0.0
    else
      assert kids[0] in kids && forall c | c in kids[1..] :: c in kids;
      total[kids[0]] + ChildSum(kids[1..], total)
  }

  /** Every non-root node weighs its own samples plus its children, but for the
      weight `w` still owed to the inside of `node`. */
  ghost predicate Balanced(t: Tree, node: nat, w: real)
    requires WellFormed(t)
  {
    forall n :: 0 < n < |t.parent| ==>
      t.total[n] == t.self[n] + ChildSum(t.children[n], t.total) + if n == node then w else 0.0
  }

  lemma {:induction false} ChildSumAppend(kids: seq<nat>, c: nat, total: seq<real>)
    requires c < |total| && Below(kids, |total|)
    ensures ChildSum(kids + [c], total) == ChildSum(kids, total) + total[c]
  {
    if kids != [] {
      assert forall c | c in kids[1..] :: c in kids;
      assert (kids + [c])[1..] == kids[1..] + [c];
      ChildSumAppend(kids[1..], c, total);
    }
  }

  lemma {:induction false} ChildSumAdd(kids: seq<nat>, total: seq<real>, m: nat, w: real)
    requires m < |total| && Below(kids, |total|) && Distinct(kids)
    ensures ChildSum(kids, total[m := total[m] + w]) == ChildSum(kids, total) + if m in kids then w else 0.0
  {
    if kids != [] {
      var rest := kids[1..];
      assert kids == [kids[0]] + rest;
      assert forall i :: 0 <= i < |rest| ==> rest[i] == kids[i + 1];
      assert kids[0] in kids && forall c | c in rest :: c in kids;
      assert kids[0] !in rest;
      ChildSumAdd(rest, total, m, w);
    }
  }

  lemma {:induction false} ChildSumExtend(kids: seq<nat>, total: seq<real>, more: seq<real>)
    requires Below(kids, |total|)
    ensures ChildSum(kids, total + more) == ChildSum(kids, total)
  {
    if kids != [] {
      assert kids[0] in kids && forall c | c in kids[1..] :: c in kids;
      ChildSumExtend(kids[1..], total, more);
    }
  }

  lemma AddChildBalanced(t: Tree, node: nat, f: Frame, w: real)
    requires WellFormed(t) && node < |t.parent| && Balanced(t, node, w)
    ensures WellFormed(AddChild(t, node, f)) && Balanced(AddChild(t, node, f), node, w)
  {
    AddChildWellFormed(t, node, f);
    var u := AddChild(t, node, f);
    forall n | 0 < n < |u.parent|
      ensures u.total[n] == u.self[n] + ChildSum(u.children[n], u.total) + if n == node then w else 0.0
    {
      if n < |t.parent| {
        ChildSumExtend(t.children[n], t.total, [0.0]);
        if n == node {
          ChildSumAppend(t.children[node], |t.parent|, u.total);
        }
      }
    }
  }

  /** Passing the owed weight from a node to one of its children. */
  lemma PassWeight(t: Tree, node: nat, m: nat, w: real)
    requires WellFormed(t) && 0 < m < |t.parent| && t.parent[m] == node && Balanced(t, node, w)
    ensures WellFormed(AddTotal(t, m, w)) && Balanced(AddTotal(t, m, w), m, w)
  {
    var u := AddTotal(t, m, w);
    forall n | 0 < n < |t.parent|
      ensures u.total[n] == u.self[n] + ChildSum(u.children[n], u.total) + if n == m then w else 0.0
    {
      ChildSumAdd(t.children[n], t.total, m, w);
      assert m in t.children[n] <==> n == node;
    }
  }

  lemma SettleWeight(t: Tree, node: nat, w: real)
    requires WellFormed(t) && node < |t.parent| && Balanced(t, node, w)
    ensures WellFormed(AddSelf(t, node, w)) && Balanced(AddSelf(t, node, w), 0, 0.0)
  {
  }

  /** The sum of a weight column over the nodes below `k` that stand for the stack `p`. */
  ghost function SumAt(frame: seq<Frame>, parent: seq<nat>, column: seq<real>, p: seq<Frame>, k: nat): real
    requires Parents(parent) && |frame| == |column| == |parent| && k <= |parent|
  {
    if k == 0 then 0.0
    else SumAt(frame, parent, column, p, k - 1) + if StackOf(frame, parent, k - 1) == p then column[k - 1] else 0.0
  }

  ghost function TotalAt(t: Tree, p: seq<Frame>): real
    requires WellFormed(t)
  {
    SumAt(t.frame, t.parent, t.total, p, |t.parent|)
  }

  ghost function SelfAt(t: Tree, p: seq<Frame>): real
    requires WellFormed(t)
  {
    SumAt(t.frame, t.parent, t.self, p, |t.parent|)
  }

  lemma {:induction false} SumAtAdd(frame: seq<Frame>, parent: seq<nat>, column: seq<real>, p: seq<Frame>, k: nat,
                                    m: nat, w: real)
    requires Parents(parent) && |frame| == |column| == |parent| && k <= |parent| && m < |parent|
    ensures SumAt(frame, parent, column[m := column[m] + w], p, k)
            == SumAt(frame, parent, column, p, k) + if m < k && StackOf(frame, parent, m) == p then w else 0.0
  {
    if k > 0 {
      SumAtAdd(frame, parent, column, p, k - 1, m, w);
    }
  }

  lemma {:induction false} SumAtExtend(frame: seq<Frame>, parent: seq<nat>, column: seq<real>,
                                       frame': seq<Frame>, parent': seq<nat>, column': seq<real>, p: seq<Frame>, k: nat)
    requires Parents(parent) && |frame| == |column| == |parent| && k <= |parent|
    requires Parents(parent') && |frame'| == |column'| == |parent'|
    requires frame <= frame' && parent <= parent' && column <= column'
    ensures SumAt(frame', parent', column', p, k) == SumAt(frame, parent, column, p, k)
  {
    if k > 0 {
      SumAtExtend(frame, parent, column, frame', parent', column', p, k - 1);
      StackOfExtend(frame, parent, frame', parent', k - 1);
    }
  }

  lemma EnterSums(t: Tree, node: nat, f: Frame, order: Order, w: real, p: seq<Frame>)
    requires WellFormed(t) && node < |t.parent|
    ensures var u, m := EnterTree(t, node, f, order), EnterNode(t, node, f, order);
      && WellFormed(u) && m < |u.parent| && WellFormed(AddTotal(u, m, w))
      && TotalAt(AddTotal(u, m, w), p) == TotalAt(t, p) + (if p == Stack(t, node) + [f] then w else 0.0)
      && SelfAt(AddTotal(u, m, w), p) == SelfAt(t, p)
  {
    hide Path, StackOf;
    EnterStep(t, node, f, order);
    var u, m := EnterTree(t, node, f, order), EnterNode(t, node, f, order);
    SumAtExtend(t.frame, t.parent, t.total, u.frame, u.parent, u.total, p, |t.parent|);
    SumAtExtend(t.frame, t.parent, t.self, u.frame, u.parent, u.self, p, |t.parent|);
    SumAtAdd(u.frame, u.parent, u.total, p, |u.parent|, m, w);
  }

  /** Distinct nodes stand for distinct stacks. */
  ghost predicate Unique(t: Tree)
    requires WellFormed(t)
  {
    forall a, b :: 0 <= a < b < |t.parent| ==> Stack(t, a) != Stack(t, b)
  }

  ghost predicate NoneFrozen(t: Tree) {
    forall n :: 0 <= n < |t.frozen| ==> !t.frozen[n]
  }

  /** With one node per stack, the sum at a stack is the node's own weight. */
  lemma {:induction false} UniqueSum(t: Tree, column: seq<real>, n: nat, k: nat)
    requires WellFormed(t) && Unique(t) && |column| == |t.parent| && n < |t.parent| && k <= |t.parent|
    ensures SumAt(t.frame, t.parent, column, Stack(t, n), k) == if n < k then column[n] else 0.0
  {
    if k > 0 {
      UniqueSum(t, column, n, k - 1);
      assert k - 1 < n ==> Stack(t, k - 1) != Stack(t, n);
      assert n < k - 1 ==> Stack(t, n) != Stack(t, k - 1);
    }
  }

  /** In a tree with unique stacks, the stack of a node says whose child it is. */
  lemma ChildByStack(t: Tree, node: nat, f: Frame, a: nat)
    requires WellFormed(t) && node < |t.parent| && a < |t.parent| && Unique(t)
    requires Stack(t, a) == Stack(t, node) + [f]
    ensures a in t.children[node] && t.frame[a] == f
  {
    var q := t.parent[a];
    assert Stack(t, a) == Stack(t, q) + [t.frame[a]];
    assert Stack(t, a)[..|Stack(t, a)| - 1] == Stack(t, q);
    assert (Stack(t, node) + [f])[..|Stack(t, a)| - 1] == Stack(t, node);
    SameStackSameNode(t, q, node);
  }

  lemma SameStackSameNode(t: Tree, a: nat, b: nat)
    requires WellFormed(t) && Unique(t) && a < |t.parent| && b < |t.parent| && Stack(t, a) == Stack(t, b)
    ensures a == b
  {
  }

  lemma {:induction false} GroupedStep(t: Tree, node: nat, f: Frame)
    requires WellFormed(t) && node < |t.parent| && Unique(t) && NoneFrozen(t)
    ensures var u := EnterTree(t, node, f, Grouped);
      WellFormed(u) && Unique(u) && NoneFrozen(u)
  {
    EnterStep(t, node, f, Grouped);
    if !Continues(t, node, f, Grouped) {
      AddChildUnique(t, node, f);
    }
  }

  lemma AddChildUnique(t: Tree, node: nat, f: Frame)
    requires WellFormed(t) && node < |t.parent| && Unique(t) && NoneFrozen(t)
    requires !Continues(t, node, f, Grouped)
    ensures WellFormed(AddChild(t, node, f)) && Unique(AddChild(t, node, f))
  {
    AddChildWellFormed(t, node, f);
    var u := AddChild(t, node, f);
    forall a, b | 0 <= a < b < |u.parent| ensures Stack(u, a) != Stack(u, b) {
      StackOfExtend(t.frame, t.parent, u.frame, u.parent, a);
      if b < |t.parent| {
        StackOfExtend(t.frame, t.parent, u.frame, u.parent, b);
        assert Stack(t, a) != Stack(t, b);
      } else if Stack(t, a) == Stack(t, node) + [f] {
        ChildByStack(t, node, f, a);
      }
    }
  }
}

/** The open path of the append-order tree: what one more sample can reuse. */
module OpenPaths {
  import opened CallTrees

  /** `n` hangs off the root by newest, unfrozen children only. */
  ghost predicate Spine(t: Tree, n: nat)
    requires WellFormed(t) && n < |t.parent|
  {
    n == 0 ||
    var kids := t.children[t.parent[n]];
    kids != [] && kids[|kids| - 1] == n && !t.frozen[n] && Spine(t, t.parent[n])
  }

  /** The last sample ended at `cur`: its path is the spine and nothing below it can be reused. */
  ghost predicate OpenAt(t: Tree, cur: nat) {
    && WellFormed(t) && cur < |t.parent| && Spine(t, cur)
    && forall c | c in t.children[cur] :: t.frozen[c]
  }

  ghost predicate OnPath(t: Tree, n: nat, cur: nat)
    requires WellFormed(t) && cur < |t.parent|
  {
    n == 0 || n in Path(t.parent, cur)
  }

  lemma {:induction false} SpineKept(t: Tree, u: Tree, n: nat)
    requires WellFormed(t) && WellFormed(u) && n < |t.parent| && Spine(t, n)
    requires t.parent <= u.parent
    requires forall i :: 0 <= i < n ==> u.children[i] == t.children[i]
    requires forall i :: 0 <= i <= n ==> u.frozen[i] == t.frozen[i]
    ensures Spine(u, n)
  {
    if n != 0 {
      SpineKept(t, u, t.parent[n]);
    }
  }

  lemma SpineStep(t: Tree, node: nat, f: Frame)
    requires WellFormed(t) && node < |t.parent| && Spine(t, node)
    ensures var u, m := EnterTree(t, node, f, AppendOrder), EnterNode(t, node, f, AppendOrder);
      WellFormed(u) && m < |u.parent| && Spine(u, m)
  {
    EnterStep(t, node, f, AppendOrder);
    var u, m := EnterTree(t, node, f, AppendOrder), EnterNode(t, node, f, AppendOrder);
    SpineKept(t, u, node);
  }

  /** Below the end of the path, the newest child of a path node is the next path node. */
  lemma {:induction false} SpineNext(t: Tree, cur: nat, n: nat)
    requires WellFormed(t) && cur < |t.parent| && Spine(t, cur) && OnPath(t, n, cur) && n != cur
    ensures n < |t.parent| && t.children[n] != []
    ensures var c := t.children[n][|t.children[n]| - 1];
      c in Path(t.parent, cur) && c < |t.parent| && !t.frozen[c]
  {
    var p := t.parent[cur];
    if n != p {
      SpineNext(t, p, n);
    }
  }

  lemma {:induction false} PathStackPrefix(t: Tree, cur: nat, n: nat)
    requires WellFormed(t) && cur < |t.parent| && OnPath(t, n, cur)
    ensures n < |t.parent| && Stack(t, n) <= Stack(t, cur)
    ensures |Stack(t, n)| == |Stack(t, cur)| ==> n == cur
  {
    if n != cur {
      assert cur != 0;
      PathStackPrefix(t, t.parent[cur], n);
    }
  }

  /** Where a walk may stand: still on the old open path with the tree's shape
      untouched, or on a fresh leaf. */
  ghost predicate Walking(t0: Tree, cur: nat, t: Tree, node: nat)
    requires WellFormed(t0) && cur < |t0.parent| && WellFormed(t) && node < |t.parent|
  {
    && Extends(t0, t) && Spine(t, node)
    && (if node < |t0.parent|
        then t.parent == t0.parent && t.frame == t0.frame && t.children == t0.children && t.frozen == t0.frozen
             && OnPath(t0, node, cur)
        else t.children[node] == [])
    && (Stack(t, node) <= Stack(t0, cur) ==> node < |t0.parent|)
    && (forall x | x in Path(t.parent, node) :: x < |t0.parent| ==> x in Path(t0.parent, cur))
    && (forall x :: |t0.parent| <= x < |t.parent| ==> x in Path(t.parent, node))
  }

  /** The one decision of a walk that stands on the open path: it goes on along the
      path exactly when the path's next frame is the sample's next frame. */
  lemma {:induction false} PathDecision(t0: Tree, cur: nat, node: nat, f: Frame)
    requires OpenAt(t0, cur) && OnPath(t0, node, cur) && node < |t0.parent|
    ensures Continues(t0, node, f, AppendOrder) ==> EnterNode(t0, node, f, AppendOrder) in Path(t0.parent, cur)
    ensures Stack(t0, node) + [f] <= Stack(t0, cur) ==> Continues(t0, node, f, AppendOrder)
  {
    var kids := t0.children[node];
    PathStackPrefix(t0, cur, node);
    if node != cur {
      SpineNext(t0, cur, node);
      var c := kids[|kids| - 1];
      assert c in kids;
      PathStackPrefix(t0, cur, c);
      assert Stack(t0, c) == Stack(t0, node) + [t0.frame[c]];
      if Stack(t0, node) + [f] <= Stack(t0, cur) {
        var i := |Stack(t0, node)|;
        assert f == (Stack(t0, node) + [f])[i] == Stack(t0, cur)[i] == Stack(t0, c)[i] == t0.frame[c];
      }
    } else if kids != [] {
      assert kids[|kids| - 1] in kids;
    }
  }

  lemma WalkStep(t0: Tree, cur: nat, t: Tree, node: nat, f: Frame)
    requires OpenAt(t0, cur) && WellFormed(t) && node < |t.parent| && Walking(t0, cur, t, node)
    ensures var u, m := EnterTree(t, node, f, AppendOrder), EnterNode(t, node, f, AppendOrder);
      WellFormed(u) && m < |u.parent| && Walking(t0, cur, u, m)
  {
    hide Path, StackOf, Spine, WellFormed;
    EnterStep(t, node, f, AppendOrder);
    SpineStep(t, node, f);
    var u, m := EnterTree(t, node, f, AppendOrder), EnterNode(t, node, f, AppendOrder);
    assert Stack(u, m) == Stack(t, node) + [f];
    if node < |t0.parent| {
      PathDecision(t0, cur, node, f);
      assert Continues(t, node, f, AppendOrder) == Continues(t0, node, f, AppendOrder);
    }
    assert Stack(t, node) + [f] <= Stack(t0, cur) ==> Stack(t, node) <= Stack(t0, cur);
  }
}

/** One sample walked into a tree: everything the walk keeps. */
module SampleWalks {
  import opened Wrappers
  import opened CallTrees
  import opened OpenPaths

  /** How the sums per stack changed when the stack prefix `s` was entered with weight `w`. */
  ghost predicate SumsGrew(t0: Tree, t: Tree, s: seq<Frame>, w: real)
    requires WellFormed(t0) && WellFormed(t)
  {
    && (forall p {:trigger TotalAt(t, p)} :: p != [] ==> TotalAt(t, p) == TotalAt(t0, p) + if p <= s then w else 0.0)
    && (forall p {:trigger SelfAt(t, p)} :: SelfAt(t, p) == SelfAt(t0, p))
  }

  /** How the weights per node changed: the nodes on the walk gained `w`, new nodes start at zero. */
  ghost predicate NodesGrew(t0: Tree, t: Tree, node: nat, w: real)
    requires WellFormed(t0) && WellFormed(t) && node < |t.parent| && |t0.parent| <= |t.parent|
  {
    forall n :: 0 <= n < |t.parent| ==>
      && t.total[n] == (if n < |t0.parent| then t0.total[n] else 0.0) + (if n in Path(t.parent, node) then w else 0.0)
      && t.self[n] == (if n < |t0.parent| then t0.self[n] else 0.0)
  }

  /** What a walk needs of the tree it starts in. */
  ghost predicate Ready(t0: Tree, cur: nat, order: Order) {
    && WellFormed(t0) && Balanced(t0, 0, 0.0)
    && (order == AppendOrder ==> OpenAt(t0, cur))
    && (order == Grouped ==> Unique(t0) && NoneFrozen(t0))
  }

  /** The walk after the prefix `s` of the sample. */
  ghost predicate Walked(t0: Tree, cur: nat, order: Order, s: seq<Frame>, w: real, t: Tree, node: nat)
    requires Ready(t0, cur, order)
  {
    && WellFormed(t) && node < |t.parent| && Extends(t0, t)
    && Stack(t, node) == s
    && Balanced(t, node, w)
    && SumsGrew(t0, t, s, w)
    && NodesGrew(t0, t, node, w)
    && (order == AppendOrder ==> Walking(t0, cur, t, node))
    && (order == Grouped ==> Unique(t) && NoneFrozen(t))
  }

  lemma WalkedStart(t0: Tree, cur: nat, order: Order, w: real)
    requires Ready(t0, cur, order)
    ensures Walked(t0, cur, order, [], w, t0, 0)
  {
  }

  lemma WalkingAddTotal(t0: Tree, cur: nat, t: Tree, node: nat, w: real)
    requires WellFormed(t0) && cur < |t0.parent| && WellFormed(t) && node < |t.parent| && Walking(t0, cur, t, node)
    ensures WellFormed(AddTotal(t, node, w)) && Walking(t0, cur, AddTotal(t, node, w), node)
  {
    SpineKept(t, AddTotal(t, node, w), node);
  }

  lemma SumsGrowOn(t0: Tree, t: Tree, node: nat, s: seq<Frame>, f: Frame, order: Order, w: real)
    requires WellFormed(t0) && WellFormed(t) && node < |t.parent| && Stack(t, node) == s && SumsGrew(t0, t, s, w)
    ensures var u, m := EnterTree(t, node, f, order), EnterNode(t, node, f, order);
      && WellFormed(u) && m < |u.parent| && WellFormed(AddTotal(u, m, w))
      && SumsGrew(t0, AddTotal(u, m, w), s + [f], w)
  {
    EnterStep(t, node, f, order);
    var v := AddTotal(EnterTree(t, node, f, order), EnterNode(t, node, f, order), w);
    forall p | p != [] ensures TotalAt(v, p) == TotalAt(t0, p) + if p <= s + [f] then w else 0.0 {
      EnterSums(t, node, f, order, w, p);
      PrefixOfPush(p, s, f);
    }
    forall p ensures SelfAt(v, p) == SelfAt(t0, p) {
      EnterSums(t, node, f, order, w, p);
    }
  }

  lemma PrefixOfPush(p: seq<Frame>, s: seq<Frame>, f: Frame)
    ensures p <= s + [f] <==> p <= s || p == s + [f]
    ensures !(s + [f] <= s)
  {
    if p <= s + [f] && |p| <= |s| {
      assert p == (s + [f])[..|p|] == s[..|p|];
    }
  }

  lemma NodesGrowOn(t0: Tree, t: Tree, node: nat, f: Frame, order: Order, w: real)
    requires WellFormed(t0) && WellFormed(t) && node < |t.parent| && |t0.parent| <= |t.parent|
      && NodesGrew(t0, t, node, w)
    ensures var u, m := EnterTree(t, node, f, order), EnterNode(t, node, f, order);
      && WellFormed(u) && m < |u.parent| && WellFormed(AddTotal(u, m, w))
      && NodesGrew(t0, AddTotal(u, m, w), m, w)
  {
    EnterStep(t, node, f, order);
    PathIncreasing(t.parent, node);
    var u, m := EnterTree(t, node, f, order), EnterNode(t, node, f, order);
    assert m !in Path(t.parent, node);
  }

  lemma WalkedStep(t0: Tree, cur: nat, order: Order, s: seq<Frame>, w: real, t: Tree, node: nat, f: Frame)
    requires Ready(t0, cur, order) && Walked(t0, cur, order, s, w, t, node)
    ensures var u, m := EnterTree(t, node, f, order), EnterNode(t, node, f, order);
      m < |u.total| && Walked(t0, cur, order, s + [f], w, AddTotal(u, m, w), m)
  {
    hide SumsGrew, NodesGrew, Walking, Unique, Balanced;
    var u, m := EnterTree(t, node, f, order), EnterNode(t, node, f, order);
    EnterStep(t, node, f, order);
    EnterBalanced(t, node, f, order, w);
    SumsGrowOn(t0, t, node, s, f, order, w);
    NodesGrowOn(t0, t, node, f, order, w);
    match order
    case AppendOrder =>
      WalkStep(t0, cur, t, node, f);
      WalkingAddTotal(t0, cur, u, m, w);
    case Grouped =>
      GroupedStep(t, node, f);
      AddTotalUnique(u, m, w);
  }

  lemma EnterBalanced(t: Tree, node: nat, f: Frame, order: Order, w: real)
    requires WellFormed(t) && node < |t.parent| && Balanced(t, node, w)
    ensures var u, m := EnterTree(t, node, f, order), EnterNode(t, node, f, order);
      && WellFormed(u) && m < |u.parent| && WellFormed(AddTotal(u, m, w))
      && Balanced(AddTotal(u, m, w), m, w)
  {
    EnterStep(t, node, f, order);
    AddChildBalanced(t, node, f, w);
    PassWeight(EnterTree(t, node, f, order), node, EnterNode(t, node, f, order), w);
  }

  lemma AddTotalUnique(t: Tree, n: nat, w: real)
    requires WellFormed(t) && n < |t.parent| && Unique(t)
    ensures WellFormed(AddTotal(t, n, w)) && Unique(AddTotal(t, n, w))
  {
    var u := AddTotal(t, n, w);
    forall a, b | 0 <= a < b < |t.parent| ensures Stack(u, a) != Stack(u, b) {
      assert Stack(t, a) != Stack(t, b);
    }
  }

  /** The loop over the frames of a sample, for either tree. */
  method Walk(t0: Tree, stack: seq<Frame>, w: real, order: Order, ghost cur: nat) returns (t: Tree, node: nat)
    requires Ready(t0, cur, order)
    ensures Walked(t0, cur, order, stack, w, t, node)
  {
    hide Walked, Ready;
    t, node := t0, 0;
    WalkedStart(t0, cur, order, w);
    for i := 0 to |stack|
      invariant Walked(t0, cur, order, stack[..i], w, t, node)
    {
      var f := stack[i];
      WalkedShape(t0, cur, order, stack[..i], w, t, node);
      WalkedStep(t0, cur, order, stack[..i], w, t, node, f);
      var c := Candidate(t, node, f, order);
      if c.Some? && !t.frozen[c.value] && t.frame[c.value] == f {
        node := c.value;
      } else {
        t, node := AddChild(t, node, f), |t.parent|;
      }
      t := AddTotal(t, node, w);
      assert stack[..i] + [f] == stack[..i + 1];
    }
    assert stack[..|stack|] == stack;
  }

  lemma WalkedShape(t0: Tree, cur: nat, order: Order, s: seq<Frame>, w: real, t: Tree, node: nat)
    requires Ready(t0, cur, order) && Walked(t0, cur, order, s, w, t, node)
    ensures WellFormed(t) && node < |t.parent|
  {
  }
}
