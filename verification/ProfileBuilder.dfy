/** The traversal that turns samples into open and close calls. */
module CallTraversal {
  import opened CallTrees
  import opened SampleTimelines
  import opened CallEvents
  import opened NodeLifetimes

  /** The deepest ancestor of `node` that is still open, or the root. */
  method FindShared(parent: seq<nat>, open: seq<nat>, node: nat, ghost last: nat) returns (lca: nat)
    requires Parents(parent) && node < |parent| && last < |parent| && open == Path(parent, last)
    ensures lca < |parent|
    ensures Path(parent, lca) == Path(parent, node)[..Common(open, Path(parent, node))]
  {
    lca := node;
    ghost var path := Path(parent, node);
    assert path[..|path|] == path;
    while lca != 0 && lca !in open
      invariant lca < |parent| && |Path(parent, lca)| <= |path| && Path(parent, lca) == path[..|Path(parent, lca)|]
      invariant forall i :: |Path(parent, lca)| <= i < |path| ==> path[i] !in open
    {
      lca := parent[lca];
    }
    SharedDepth(parent, last, node, lca);
  }

  lemma SharedDepth(parent: seq<nat>, last: nat, node: nat, lca: nat)
    requires Parents(parent) && node < |parent| && last < |parent| && lca < |parent|
    requires var path, up := Path(parent, node), Path(parent, lca);
      && |up| <= |path| && up == path[..|up|]
      && (lca == 0 || lca in Path(parent, last))
      && forall i :: |up| <= i < |path| ==> path[i] !in Path(parent, last)
    ensures |Path(parent, lca)| == Common(Path(parent, last), Path(parent, node))
  {
    hide Path;
    var open, path, up := Path(parent, last), Path(parent, node), Path(parent, lca);
    if lca != 0 {
      var i :| 0 <= i < |open| && open[i] == lca;
      PathPrefix(parent, last, i);
      CommonMax(open, path, |up|);
    } else {
      PathEnd(parent, lca);
    }
    if |up| < Common(open, path) {
      CommonIn(open, path, |up|);
    }
  }

  lemma CommonIn(p: seq<nat>, q: seq<nat>, i: nat)
    requires i < Common(p, q)
    ensures q[i] in p
  {
    var m := Common(p, q);
    assert p[i] == p[..m][i] == q[..m][i] == q[i];
  }

  /** Pops open nodes down to the shared ancestor, closing each. */
  method CloseDownTo(parent: seq<nat>, open: seq<nat>, lca: nat, time: real, ghost last: nat, ghost m: nat)
    returns (rest: seq<nat>, events: seq<Event>)
    requires Parents(parent) && last < |parent| && lca < |parent| && open == Path(parent, last)
    requires m <= |open| && Path(parent, lca) == open[..m]
    ensures rest == open[..m] && events == Closes(open, m, time)
  {
    hide Path;
    rest, events := open, [];
    PathIncreasing(parent, last);
    PathEnd(parent, lca);
    assert m > 0 ==> open[m - 1] == open[..m][m - 1] == lca;
    assert open[..|open|] == open;
    while |rest| > 0 && rest[|rest| - 1] != lca
      invariant m <= |rest| <= |open| && rest == open[..|rest|]
      invariant events + Closes(rest, m, time) == Closes(open, m, time)
    {
      var top := rest[|rest| - 1];
      assert top == open[|rest| - 1] && |rest| != m;
      assert events + ([Close(top, time)] + Closes(rest[..|rest| - 1], m, time))
        == (events + [Close(top, time)]) + Closes(rest[..|rest| - 1], m, time);
      events := events + [Close(top, time)];
      rest := rest[..|rest| - 1];
    }
    if |rest| > 0 {
      assert open[|rest| - 1] == rest[|rest| - 1] == lca;
      assert open[|rest| - 1] in open;
      SamePosition(open, |rest| - 1, m - 1);
    }
  }

  lemma SamePosition(p: seq<nat>, i: nat, j: nat)
    requires Rising(p) && i < |p| && j < |p| && p[i] == p[j]
    ensures i == j
  {
  }

  lemma PathEnd(parent: seq<nat>, n: nat)
    requires Parents(parent) && n < |parent|
    ensures var p := Path(parent, n); if n == 0 then p == [] else p != [] && p[|p| - 1] == n
  {
  }

  /** The ancestors of `node` below the shared one, outermost first. */
  method CollectToOpen(parent: seq<nat>, node: nat, lca: nat, ghost m: nat) returns (toOpen: seq<nat>)
    requires Parents(parent) && node < |parent| && lca < |parent|
    requires m <= |Path(parent, node)| && Path(parent, lca) == Path(parent, node)[..m]
    ensures toOpen == Path(parent, node)[m..]
  {
    toOpen := [];
    var n: nat := node;
    ghost var path := Path(parent, node);
    assert path[..|path|] == path;
    while n != 0 && n != lca
      invariant n < |parent| && m <= |Path(parent, n)| <= |path|
      invariant Path(parent, n) == path[..|Path(parent, n)|]
      invariant toOpen == path[|Path(parent, n)|..]
    {
      ghost var d := |Path(parent, n)|;
      SamePathSameNode(parent, n, lca);
      assert path[d - 1] == path[..d][d - 1] == n;
      assert path[..d][..d - 1] == path[..d - 1];
      assert path[d - 1..] == [path[d - 1]] + path[d..];
      toOpen := [n] + toOpen;
      n := parent[n];
    }
    if n != lca {
      PathEnd(parent, n);
    }
  }

  lemma SamePathSameNode(parent: seq<nat>, a: nat, b: nat)
    requires Parents(parent) && a < |parent| && b < |parent|
    ensures Path(parent, a) == Path(parent, b) <==> a == b
  {
    PathEnd(parent, a);
    PathEnd(parent, b);
  }

  method OpenAll(nodes: seq<nat>, time: real, ghost path: seq<nat>, ghost m: nat) returns (events: seq<Event>)
    requires m <= |path| && nodes == path[m..]
    ensures events == Opens(path, m, time)
  {
    events := [];
    for i := 0 to |nodes|
      invariant events == Opens(path[..m + i], m, time)
    {
      events := events + [Open(nodes[i], time)];
      assert path[..m + i + 1][..m + i] == path[..m + i];
    }
    assert path[..m + |nodes|] == path;
  }

  /** One pass over the samples.  The calls it makes are exactly those read off the
      samples' paths. */
  method ForEachCall(parent: seq<nat>, samples: seq<nat>, weights: seq<real>) returns (events: seq<Event>)
    requires InTree(parent, samples, weights)
    ensures events == AllEvents(parent, samples, weights)
  {
    hide Closes, Opens, Common, Path;
    var open, time := [], 0.0;
    events := [];
    PathEnd(parent, 0);
    for k := 0 to |samples|
      invariant open == LastPath(parent, samples[..k]) && time == Clock(weights[..k])
      invariant events == Events(parent, samples[..k], weights[..k])
    {
      var node := samples[k];
      ghost var last, path := Last(samples[..k]), Path(parent, node);
      ghost var m := Common(open, path);
      var lca := FindShared(parent, open, node, last);
      var rest, closes := CloseDownTo(parent, open, lca, time, last, m);
      var toOpen := CollectToOpen(parent, node, lca, m);
      var opens := OpenAll(toOpen, time, path, m);
      events := events + closes + opens;
      assert path[..m] + path[m..] == path;
      open := rest + toOpen;
      assert samples[..k + 1][..k] == samples[..k] && weights[..k + 1][..k] == weights[..k];
      time := time + weights[k];
    }
    assert samples[..|samples|] == samples && weights[..|weights|] == weights;
    var tail := CloseRest(open, time);
    events := events + tail;
  }

  /** After the last sample everything still open is closed, innermost first. */
  method CloseRest(open: seq<nat>, time: real) returns (events: seq<Event>)
    ensures events == Closes(open, 0, time)
  {
    events := [];
    var e := |open|;
    assert open[..e] == open;
    while e > 0
      invariant 0 <= e <= |open|
      invariant events + Closes(open[..e], 0, time) == Closes(open, 0, time)
    {
      assert open[..e][..e - 1] == open[..e - 1];
      assert events + Closes(open[..e], 0, time)
        == (events + [Close(open[e - 1], time)]) + Closes(open[..e - 1], 0, time);
      e := e - 1;
      events := events + [Close(open[e], time)];
    }
  }
}

/** The profile builder fed with whole stacks. */
module ProfileBuilders {
  import opened Wrappers
  import opened CallTrees
  import opened OpenPaths
  import opened SampleWalks
  import opened SampleSums
  import opened SampleTimelines
  import opened FrameSums
  import opened CallEvents
  import opened NodeLifetimes
  import opened CallTraversal
  import opened ChildOrder

  ghost predicate GroupedOk(t: Tree, h: seq<Sample>) {
    Ready(t, 0, Grouped) && SumsOk(t, h)
  }

  function WeightOf<K>(m: map<K, real>, k: K): real {
    if k in m then m[k] else 0.0
  }

  ghost predicate FramesOk(frameSelf: map<Option<Frame>, real>, frameTotal: map<Frame, real>, h: seq<Sample>) {
    && (forall f :: WeightOf(frameTotal, f) == FrameTotal(h, f))
    && (forall f :: WeightOf(frameSelf, f) == FrameSelf(h, f))
  }

  lemma FramesAppend(frameSelf: map<Option<Frame>, real>, frameTotal: map<Frame, real>, h: seq<Sample>,
                     s: seq<Frame>, w: real, frameTotal': map<Frame, real>)
    requires FramesOk(frameSelf, frameTotal, h)
    requires forall f :: WeightOf(frameTotal', f) == WeightOf(frameTotal, f) + if f in s then w else 0.0
    ensures FramesOk(frameSelf[Innermost(s) := WeightOf(frameSelf, Innermost(s)) + w], frameTotal', h + [Sample(s, w)])
  {
    var h' := h + [Sample(s, w)];
    assert h'[..|h'| - 1] == h;
    forall f ensures WeightOf(frameTotal', f) == FrameTotal(h', f) {
      assert WeightOf(frameTotal, f) == FrameTotal(h, f);
    }
    forall f ensures WeightOf(frameSelf[Innermost(s) := WeightOf(frameSelf, Innermost(s)) + w], f) == FrameSelf(h', f) {
      assert WeightOf(frameSelf, f) == FrameSelf(h, f);
    }
  }

  /** Adds a weight once to every frame of a set. */
  method AddToFrames(m: map<Frame, real>, frames: set<Frame>, w: real) returns (r: map<Frame, real>)
    ensures forall f :: WeightOf(r, f) == WeightOf(m, f) + if f in frames then w else 0.0
  {
    r := m;
    var left := frames;
    while left != {}
      invariant left <= frames
      invariant forall f :: WeightOf(r, f) == WeightOf(m, f) + if f in frames - left then w else 0.0
      decreases left
    {
      var f :| f in left;
      r := r[f := WeightOf(r, f) + w];
      left := left - {f};
    }
  }

  // ----- Samples at times -----

  /** The last sample, from its start to its own time; its end is not known yet. */
  datatype Pending = Pending(stack: seq<Frame>, start: real, central: real)

  datatype Stamped = Stamped(history: seq<Sample>, pending: Option<Pending>)

  function Weighted(stack: seq<Frame>, weight: real): seq<Sample> {
    if weight > 0.0 then [Sample(stack, weight)] else []
  }

  function Stamp(s: Stamped, stack: seq<Frame>, time: real): Stamped {
    if s.pending.None? then s.(pending := Some(Pending(stack, time, time)))
    else
      var p := s.pending.value;
      var middle := (time + p.central) / 2.0;
      Stamped(s.history + Weighted(p.stack, middle - p.start), Some(Pending(stack, middle, time)))
  }

  /** Closing the last sample at its own time; a profile of nothing else gets it with weight one. */
  function Closed(s: Stamped): seq<Sample> {
    if s.pending.None? then s.history
    else
      var p := s.pending.value;
      s.history + Weighted(p.stack, if s.history != [] then p.central - p.start else 1.0)
  }

  function StampAll(stacks: seq<seq<Frame>>, times: seq<real>): Stamped
    requires |stacks| == |times|
  {
    if times == [] then Stamped([], None)
    else
      var n := |times| - 1;
      Stamp(StampAll(stacks[..n], times[..n]), stacks[n], times[n])
  }

  ghost predicate Ascending(times: seq<real>) {
    forall i, j :: 0 <= i < j < |times| ==> times[i] <= times[j]
  }

  lemma {:induction false} StampedTotal(stacks: seq<seq<Frame>>, times: seq<real>)
    requires |stacks| == |times| > 0 && Ascending(times)
    ensures var s := StampAll(stacks, times); var last := times[|times| - 1];
      && s.pending.Some? && s.pending.value.central == last && s.pending.value.start <= last
      && TotalOf(s.history) == s.pending.value.start - times[0]
      && (s.history == [] <==> times[0] == last) && s.pending.value.start >= times[0]
  {
    var n := |times| - 1;
    if n > 0 {
      var before := StampAll(stacks[..n], times[..n]);
      StampedTotal(stacks[..n], times[..n]);
      var p := before.pending.value;
      var middle := (times[n] + p.central) / 2.0;
      TotalOfWeighted(before.history, p.stack, middle - p.start);
      assert times[0] <= times[n - 1] <= times[n];
    } else {
      assert StampAll(stacks[..0], times[..0]) == Stamped([], None);
    }
  }

  lemma TotalOfWeighted(h: seq<Sample>, stack: seq<Frame>, w: real)
    requires w >= 0.0
    ensures TotalOf(h + Weighted(stack, w)) == TotalOf(h) + w
  {
    var more := h + Weighted(stack, w);
    if w > 0.0 {
      assert more[..|h|] == h;
    } else {
      assert more == h;
    }
  }

  /** Whatever the stacks, a profile of timed samples weighs the time from the first to the last,
      or one if that is nothing. */
  lemma {:induction false} TimedTotal(stacks: seq<seq<Frame>>, times: seq<real>)
    requires |stacks| == |times| > 0 && Ascending(times)
    ensures var span := times[|times| - 1] - times[0];
      TotalOf(Closed(StampAll(stacks, times))) == if span == 0.0 then 1.0 else span
  {
    hide StampAll;
    StampedTotal(stacks, times);
    var s := StampAll(stacks, times);
    var p := s.pending.value;
    TotalOfWeighted(s.history, p.stack, if s.history != [] then p.central - p.start else 1.0);
    assert TotalOf([]) == 0.0;
  }

  class StackListProfileBuilder {
    var appendOrderTree: Tree
    var groupedTree: Tree
    var samples: seq<nat>
    var weights: seq<real>
    var frameSelf: map<Option<Frame>, real>
    var frameTotal: map<Frame, real>
    var totalWeight: real
    var pendingSample: Option<Pending>
    ghost var history: seq<Sample>

    ghost predicate Valid()
      reads this
    {
      && TimelineOk(appendOrderTree, samples, weights, history)
      && GroupedOk(groupedTree, history)
      && FramesOk(frameSelf, frameTotal, history)
      && (pendingSample.Some? ==> pendingSample.value.start <= pendingSample.value.central)
    }

    constructor (totalWeight: real)
      ensures Valid() && history == [] && pendingSample == None && this.totalWeight == totalWeight
    {
      appendOrderTree, groupedTree := EmptyTree, EmptyTree;
      samples, weights := [], [];
      frameSelf, frameTotal := map[], map[];
      this.totalWeight, pendingSample := totalWeight, None;
      history := [];
      new;
      EmptyProfile();
    }

    /** Zero weights are ignored and negative ones rejected; any other sample becomes
        part of the history that every weight in the profile is a sum over. */
    method AppendSampleWithWeight(stack: seq<Frame>, weight: real) returns (ok: bool)
      requires Valid()
      modifies this
      ensures Valid() && totalWeight == old(totalWeight) && pendingSample == old(pendingSample)
      ensures ok == (weight >= 0.0)
      ensures history == old(history) + if weight > 0.0 then [Sample(stack, weight)] else []
    {
      hide TimelineOk, GroupedOk, FramesOk;
      if weight == 0.0 {
        return true;
      }
      if weight < 0.0 {
        return false;
      }
      AppendInOrder(stack, weight);
      AppendGrouped(stack, weight);
      history := history + [Sample(stack, weight)];
      ok := true;
    }

    /** The flame chart's calls: well nested, in time order, and every node of the
        append-order tree open once, for exactly its total weight. */
    method ForEachCall() returns (events: seq<Event>)
      requires Valid()
      ensures events == AllEvents(appendOrderTree.parent, samples, weights)
      ensures Replay(events, []) == Some([])
      ensures InOrder(events, Clock(weights))
      ensures forall n :: 0 < n < |appendOrderTree.parent| ==> OpenFor(events, n, appendOrderTree.total[n])
    {
      hide OpenFor, Replay, InOrder, Events;
      events := CallTraversal.ForEachCall(appendOrderTree.parent, samples, weights);
      WellNested(appendOrderTree.parent, samples, weights);
      TimesInOrder(appendOrderTree.parent, samples, weights);
      forall n | 0 < n < |appendOrderTree.parent| ensures OpenFor(events, n, appendOrderTree.total[n]) {
        NodesOpenForTheirTotal(appendOrderTree, samples, weights, history, n);
      }
    }

    /** A sample at a time lasts from half way to its predecessor to half way to its successor;
        times must not go back. */
    method AppendSampleWithTimestamp(stack: seq<Frame>, time: real) returns (ok: bool)
      requires Valid()
      modifies this
      ensures Valid() && totalWeight == old(totalWeight)
      ensures ok == (old(pendingSample).Some? ==> time >= old(pendingSample).value.central)
      ensures if ok
              then Stamped(history, pendingSample) == Stamp(Stamped(old(history), old(pendingSample)), stack, time)
              else history == old(history) && pendingSample == old(pendingSample)
    {
      hide TimelineOk, GroupedOk, FramesOk;
      if pendingSample.Some? {
        var p := pendingSample.value;
        if time < p.central {
          return false;
        }
        var middle := (time + p.central) / 2.0;
        ok := AppendSampleWithWeight(p.stack, middle - p.start);
        pendingSample := Some(Pending(stack, middle, time));
      } else {
        pendingSample := Some(Pending(stack, time, time));
      }
      ok := true;
    }

    /** The last timed sample is closed; the declared total is never less than what was sampled;
        every grouped node's children are sorted, heaviest first. */
    method Build()
      requires Valid()
      modifies this
      ensures Valid() && pendingSample == old(pendingSample)
      ensures history == Closed(Stamped(old(history), old(pendingSample)))
      ensures totalWeight == if old(totalWeight) < TotalOf(history) then TotalOf(history) else old(totalWeight)
      ensures forall n :: 0 <= n < |groupedTree.children| ==> Descending(groupedTree.children[n], groupedTree.total)
    {
      hide TimelineOk, GroupedOk, FramesOk;
      SampledIff(appendOrderTree, samples, weights, history);
      if pendingSample.Some? {
        var p := pendingSample.value;
        var _ := AppendSampleWithWeight(p.stack, if |samples| > 0 then p.central - p.start else 1.0);
      }
      var sum := SumOfWeights();
      if totalWeight < sum {
        totalWeight := sum;
      }
      SortGroupedCallTree();
    }

    method SumOfWeights() returns (sum: real)
      requires Valid()
      ensures sum == TotalOf(history)
    {
      sum := 0.0;
      for i := 0 to |weights|
        invariant sum == Clock(weights[..i])
      {
        assert weights[..i + 1][..i] == weights[..i];
        sum := sum + weights[i];
      }
      assert weights[..|weights|] == weights;
      ClockOfView(appendOrderTree, samples, weights);
      MergeKeepsWeight(history);
    }

    /** Sorting moves children about and changes no weight. */
    method SortGroupedCallTree()
      requires Valid()
      modifies this`groupedTree
      ensures Valid() && SortedTree(old(groupedTree), groupedTree)
      ensures forall n :: 0 <= n < |groupedTree.children| ==> Descending(groupedTree.children[n], groupedTree.total)
    {
      hide TimelineOk, GroupedOk, FramesOk, SortKids, Descending;
      ghost var t := groupedTree;
      for n := 0 to |groupedTree.children|
        invariant groupedTree == t.(children := groupedTree.children) && |groupedTree.children| == |t.children|
        invariant forall i :: 0 <= i < n ==> groupedTree.children[i] == SortKids(t.children[i], t.total)
        invariant forall i :: n <= i < |t.children| ==> groupedTree.children[i] == t.children[i]
      {
        var sorted := SortKids(groupedTree.children[n], groupedTree.total);
        groupedTree := groupedTree.(children := groupedTree.children[n := sorted]);
      }
      SortedGroupedOk(t, groupedTree, history);
      forall n | 0 <= n < |groupedTree.children| ensures Descending(groupedTree.children[n], groupedTree.total) {
        SortSorts(t.children[n], t.total);
      }
    }

    method AppendInOrder(stack: seq<Frame>, weight: real)
      requires TimelineOk(appendOrderTree, samples, weights, history) && weight > 0.0
      requires FramesOk(frameSelf, frameTotal, history)
      modifies this`appendOrderTree, this`samples, this`weights, this`frameSelf, this`frameTotal
      ensures TimelineOk(appendOrderTree, samples, weights, history + [Sample(stack, weight)])
      ensures FramesOk(frameSelf, frameTotal, history + [Sample(stack, weight)])
    {
      hide TimelineOk, Ready, Walked, FramesOk, WellFormed, PushNode, PushWeight, FreezeChildren, Innermost, WeightOf;
      TimelineReady(appendOrderTree, samples, weights, history);
      ghost var cur := Last(samples);
      var t, node := Walk(appendOrderTree, stack, weight, AppendOrder, cur);
      WalkedShape(appendOrderTree, cur, AppendOrder, stack, weight, t, node);
      TimelineAppend(appendOrderTree, samples, weights, history, stack, weight, t, node);
      ShapeColumns(t, node);
      appendOrderTree := FreezeChildren(AddSelf(t, node, weight), node);
      var totals := AddToFrames(frameTotal, (set f | f in stack), weight);
      FramesAppend(frameSelf, frameTotal, history, stack, weight, totals);
      frameSelf := frameSelf[Innermost(stack) := WeightOf(frameSelf, Innermost(stack)) + weight];
      frameTotal := totals;
      weights := PushWeight(samples, weights, node, weight);
      samples := PushNode(samples, node);
    }

    method AppendGrouped(stack: seq<Frame>, weight: real)
      requires GroupedOk(groupedTree, history)
      modifies this`groupedTree
      ensures GroupedOk(groupedTree, history + [Sample(stack, weight)])
    {
      hide Ready, Walked, SumsOk, WellFormed;
      var t, node := Walk(groupedTree, stack, weight, Grouped, 0);
      WalkedShape(groupedTree, 0, Grouped, stack, weight, t, node);
      SumsAppend(groupedTree, history, 0, Grouped, stack, weight, t, node);
      GroupedReady(groupedTree, stack, weight, t, node);
      ShapeColumns(t, node);
      groupedTree := AddSelf(t, node, weight);
    }
  }

  /** Node `n` is opened once and closed once, `w` later. */
  ghost predicate OpenFor(events: seq<Event>, n: nat, w: real) {
    && |OpenTimes(events, n)| == 1 && |CloseTimes(events, n)| == 1
    && CloseTimes(events, n)[0] - OpenTimes(events, n)[0] == w
  }

  lemma {:induction false} NodesOpenForTheirTotal(t: Tree, samples: seq<nat>, weights: seq<real>, h: seq<Sample>,
                                                  n: nat)
    requires TimelineOk(t, samples, weights, h) && 0 < n < |t.parent|
    ensures OpenFor(AllEvents(t.parent, samples, weights), n, t.total[n])
  {
    assert Sampled(t.parent, samples, n);
    OpenedForItsTime(t.parent, samples, weights, n);
  }

  /** While the k-th merged sample runs, the open nodes spell exactly its stack. */
  lemma {:induction false} ChartShowsSample(t: Tree, samples: seq<nat>, weights: seq<real>, h: seq<Sample>, k: nat)
    requires TimelineOk(t, samples, weights, h) && k < |Merge(h)|
    ensures |samples| == |Merge(h)| && weights[k] == Merge(h)[k].weight
    ensures InTree(t.parent, samples[..k + 1], weights[..k + 1])
    ensures Events(t.parent, samples[..k + 1], weights[..k + 1]) <= AllEvents(t.parent, samples, weights)
    ensures Replay(Events(t.parent, samples[..k + 1], weights[..k + 1]), []) == Some(Path(t.parent, samples[k]))
    ensures Stack(t, samples[k]) == Merge(h)[k].stack
  {
    assert View(t, samples, weights)[k] == Merge(h)[k];
    ReplayEvents(t.parent, samples[..k + 1], weights[..k + 1]);
    EventsGrow(t.parent, samples, weights, k + 1);
  }

  lemma {:induction false} EventsGrow(parent: seq<nat>, samples: seq<nat>, weights: seq<real>, k: nat)
    requires InTree(parent, samples, weights) && k <= |samples|
    ensures Events(parent, samples[..k], weights[..k]) <= Events(parent, samples, weights)
    decreases |samples|
  {
    if k == |samples| {
      assert samples[..k] == samples && weights[..k] == weights;
    } else {
      var n := |samples| - 1;
      EventsGrow(parent, samples[..n], weights[..n], k);
      assert samples[..n][..k] == samples[..k] && weights[..n][..k] == weights[..k];
    }
  }

  /** In the grouped tree a node weighs exactly the samples at and below its stack. */
  lemma {:induction false} GroupedWeights(t: Tree, h: seq<Sample>, n: nat)
    requires GroupedOk(t, h) && n < |t.parent|
    ensures n > 0 ==> t.total[n] == StackTotal(h, Stack(t, n))
    ensures t.self[n] == StackSelf(h, Stack(t, n))
    ensures n > 0 ==> t.total[n] == t.self[n] + ChildSum(t.children[n], t.total)
  {
    UniqueSum(t, t.total, n, |t.parent|);
    UniqueSum(t, t.self, n, |t.parent|);
    assert TotalAt(t, Stack(t, n)) == t.total[n] && SelfAt(t, Stack(t, n)) == t.self[n];
  }

  /** Every stack that was ever entered has its node in the grouped tree. */
  lemma {:induction false} GroupedComplete(t: Tree, h: seq<Sample>, p: seq<Frame>)
    requires GroupedOk(t, h) && p != [] && StackTotal(h, p) != 0.0
    ensures exists n :: 0 <= n < |t.parent| && Stack(t, n) == p
  {
    assert TotalAt(t, p) == StackTotal(h, p);
    var n := SomeNodeAt(t, p, |t.parent|);
    assert Stack(t, n) == p;
  }

  lemma {:induction false} SomeNodeAt(t: Tree, p: seq<Frame>, k: nat) returns (n: nat)
    requires WellFormed(t) && k <= |t.parent| && SumAt(t.frame, t.parent, t.total, p, k) != 0.0
    ensures n < k && Stack(t, n) == p
  {
    if Stack(t, k - 1) == p {
      n := k - 1;
    } else {
      n := SomeNodeAt(t, p, k - 1);
    }
  }

  /** Grouping loses nothing: a grouped node's weights are the sums over the append-order
      nodes at the same call path. */
  lemma {:induction false} TreesAgree(a: Tree, samples: seq<nat>, weights: seq<real>, g: Tree, h: seq<Sample>, n: nat)
    requires TimelineOk(a, samples, weights, h) && GroupedOk(g, h) && 0 < n < |g.parent|
    ensures g.total[n] == TotalAt(a, Stack(g, n)) && g.self[n] == SelfAt(a, Stack(g, n))
  {
    GroupedWeights(g, h, n);
    assert TotalAt(a, Stack(g, n)) == StackTotal(h, Stack(g, n));
    assert SelfAt(a, Stack(g, n)) == StackSelf(h, Stack(g, n));
  }

  /** In the append-order tree, too, a node weighs its own samples plus its children. */
  lemma {:induction false} AppendOrderWeights(t: Tree, samples: seq<nat>, weights: seq<real>, h: seq<Sample>, n: nat)
    requires TimelineOk(t, samples, weights, h) && 0 < n < |t.parent|
    ensures t.total[n] == t.self[n] + ChildSum(t.children[n], t.total)
    ensures t.total[n] == TimeOn(t.parent, samples, weights, n) && t.self[n] == TimeAt(samples, weights, n)
  {
  }

  /** The frames' weights are those of the nodes: self weights summed over the nodes entered for a
      frame, the root's apart, and total weights over the nodes where the frame appears first. */
  lemma {:induction false} FrameWeights(t: Tree, samples: seq<nat>, weights: seq<real>, h: seq<Sample>,
                                        frameSelf: map<Option<Frame>, real>, frameTotal: map<Frame, real>, f: Frame)
    requires TimelineOk(t, samples, weights, h) && FramesOk(frameSelf, frameTotal, h)
    ensures WeightOf(frameSelf, Some(f)) == SelfOver(t, Some(f), |t.parent|)
    ensures WeightOf(frameSelf, None) == t.self[0]
    ensures WeightOf(frameTotal, f) == TotalOver(t, f, |t.parent|)
  {
    hide TimelineOk, FrameSelf, FrameTotal;
    FramesFromNodes(t, samples, weights, h, Some(f), f);
    FramesFromNodes(t, samples, weights, h, None, f);
    assert WellFormed(t) by { TreeOk(t, samples, weights, h); }
    RootAlone(t, |t.parent|);
  }

  lemma TreeOk(t: Tree, samples: seq<nat>, weights: seq<real>, h: seq<Sample>)
    requires TimelineOk(t, samples, weights, h)
    ensures WellFormed(t)
  {
  }

  // ----- What each timed sample weighs -----

  /** Half the time between the neighbours, where a sample at an end is its own neighbour. */
  function Width(times: seq<real>, i: nat): real
    requires i < |times|
  {
    (times[if i + 1 < |times| then i + 1 else i] - times[if i > 0 then i - 1 else i]) / 2.0
  }

  /** The first `k` samples with their widths, those of no width left out. */
  function Wide(stacks: seq<seq<Frame>>, times: seq<real>, k: nat): seq<Sample>
    requires |stacks| == |times| && k <= |times|
  {
    if k == 0 then [] else Wide(stacks, times, k - 1) + Weighted(stacks[k - 1], Width(times, k - 1))
  }

  lemma {:induction false} WidePrefix(stacks: seq<seq<Frame>>, times: seq<real>, n: nat, k: nat)
    requires |stacks| == |times| && k < n <= |times|
    ensures Wide(stacks[..n], times[..n], k) == Wide(stacks, times, k)
  {
    if k > 0 {
      WidePrefix(stacks, times, n, k - 1);
    }
  }

  lemma {:induction false} StampedWide(stacks: seq<seq<Frame>>, times: seq<real>)
    requires |stacks| == |times| > 0
    ensures var n := |times| - 1;
      var s := StampAll(stacks, times);
      && s.history == Wide(stacks, times, n)
      && s.pending == Some(Pending(stacks[n], Border(times, n), times[n]))
  {
    hide Border, Width, Weighted;
    var n := |times| - 1;
    if n == 0 {
      assert StampAll(stacks[..0], times[..0]) == Stamped([], None);
      BorderStep(times, 0);
    } else {
      StampedWide(stacks[..n], times[..n]);
      WidePrefix(stacks, times, n, n - 1);
      BorderStep(times, n);
      assert Border(times[..n], n - 1) == Border(times, n - 1) by { BorderPrefix(times, n); }
    }
  }

  /** Where a sample begins: half way from its predecessor. */
  function Border(times: seq<real>, i: nat): real
    requires i < |times|
  {
    if i == 0 then times[0] else (times[i] + times[i - 1]) / 2.0
  }

  lemma BorderStep(times: seq<real>, i: nat)
    requires i < |times|
    ensures Border(times, 0) == times[0]
    ensures i > 0 ==> Border(times, i) == (times[i] + times[i - 1]) / 2.0
    ensures i > 0 ==> (times[i] + times[i - 1]) / 2.0 - Border(times, i - 1) == Width(times, i - 1)
  {
  }

  lemma BorderPrefix(times: seq<real>, n: nat)
    requires 0 < n <= |times|
    ensures Border(times[..n], n - 1) == Border(times, n - 1)
  {
  }

  /** Each sample of a timed profile weighs half the time between its neighbours; when all times
      are equal, the last alone weighs one. */
  lemma {:induction false} TimedSamples(stacks: seq<seq<Frame>>, times: seq<real>)
    requires |stacks| == |times| > 0 && Ascending(times)
    ensures Closed(StampAll(stacks, times))
      == if times[0] == times[|times| - 1] then [Sample(stacks[|times| - 1], 1.0)]
         else Wide(stacks, times, |times|)
  {
    hide StampAll;
    StampedTotal(stacks, times);
    StampedWide(stacks, times);
    assert Wide(stacks, times, |times|)
      == Wide(stacks, times, |times| - 1) + Weighted(stacks[|times| - 1], Width(times, |times| - 1));
  }

  ghost function TotalOf(h: seq<Sample>): real {
    if h == [] then 0.0 else TotalOf(h[..|h| - 1]) + h[|h| - 1].weight
  }

  lemma {:induction false} MergeKeepsWeight(h: seq<Sample>)
    ensures TotalOf(Merge(h)) == TotalOf(h)
  {
    if h != [] {
      var m := Merge(h[..|h| - 1]);
      MergeKeepsWeight(h[..|h| - 1]);
      assert Merge(h)[..|Merge(h)| - 1] == if m != [] && m[|m| - 1].stack == h[|h| - 1].stack then m[..|m| - 1] else m;
    }
  }

  lemma {:induction false} ClockOfView(t: Tree, samples: seq<nat>, weights: seq<real>)
    requires WellFormed(t) && InTree(t.parent, samples, weights)
    ensures Clock(weights) == TotalOf(View(t, samples, weights))
  {
    if samples != [] {
      var k := |samples| - 1;
      ClockOfView(t, samples[..k], weights[..k]);
      assert View(t, samples, weights)[..k] == View(t, samples[..k], weights[..k]);
    }
  }

  lemma EmptyProfile()
    ensures TimelineOk(EmptyTree, [], [], []) && GroupedOk(EmptyTree, []) && FramesOk(map[], map[], [])
  {
    var t := EmptyTree;
    forall p ensures TotalAt(t, p) == 0.0 == SelfAt(t, p) {
      assert SumAt(t.frame, t.parent, t.total, p, 0) == 0.0 == SumAt(t.frame, t.parent, t.self, p, 0);
    }
  }

  lemma ShapeColumns(t: Tree, node: nat)
    requires WellFormed(t) && node < |t.parent|
    ensures |t.frame| == |t.children| == |t.frozen| == |t.self| == |t.total| == |t.parent|
  {
  }

  lemma SampledIff(t: Tree, samples: seq<nat>, weights: seq<real>, h: seq<Sample>)
    requires TimelineOk(t, samples, weights, h)
    ensures samples == [] <==> h == []
  {
    assert |View(t, samples, weights)| == |samples|;
    if h != [] {
      assert Merge(h) != [];
    }
  }

  lemma {:induction false} SortedGroupedOk(t: Tree, u: Tree, h: seq<Sample>)
    requires GroupedOk(t, h) && SortedTree(t, u)
    ensures GroupedOk(u, h)
  {
    hide SortKids;
    SortedWellFormed(t, u);
    SortedBalanced(t, u);
    forall a, b | 0 <= a < b < |u.parent| ensures Stack(u, a) != Stack(u, b) {
      assert Stack(t, a) != Stack(t, b);
    }
    forall p ensures TotalAt(u, p) == TotalAt(t, p) && SelfAt(u, p) == SelfAt(t, p) {
    }
  }

  lemma GroupedReady(t0: Tree, s: seq<Frame>, w: real, t: Tree, node: nat)
    requires Ready(t0, 0, Grouped) && Walked(t0, 0, Grouped, s, w, t, node)
    ensures node < |t.self| && Ready(AddSelf(t, node, w), 0, Grouped)
  {
    SettleWeight(t, node, w);
    var u := AddSelf(t, node, w);
    forall a, b | 0 <= a < b < |t.parent| ensures Stack(u, a) != Stack(u, b) {
      assert Stack(t, a) != Stack(t, b);
    }
  }
}
