/** What a profile says about the samples it was given. */
module SampleSums {
  import opened Wrappers
  import opened CallTrees

  datatype Sample = Sample(stack: seq<Frame>, weight: real)

  /** The weight of all samples whose stack starts with `p`. */
  ghost function StackTotal(h: seq<Sample>, p: seq<Frame>): real {
    if h == [] then 0.0
    else StackTotal(h[..|h| - 1], p) + if p <= h[|h| - 1].stack then h[|h| - 1].weight else 0.0
  }

  /** The weight of all samples whose stack is `p`. */
  ghost function StackSelf(h: seq<Sample>, p: seq<Frame>): real {
    if h == [] then 0.0
    else StackSelf(h[..|h| - 1], p) + if p == h[|h| - 1].stack then h[|h| - 1].weight else 0.0
  }

  /** The weight of all samples in which the frame occurs, each counted once. */
  ghost function FrameTotal(h: seq<Sample>, f: Frame): real {
    if h == [] then 0.0
    else FrameTotal(h[..|h| - 1], f) + if f in h[|h| - 1].stack then h[|h| - 1].weight else 0.0
  }

  function Innermost(stack: seq<Frame>): Option<Frame> {
    if stack == [] then None else Some(stack[|stack| - 1])
  }

  /** The weight of all samples whose innermost frame is `f`; `None` is the root's frame. */
  ghost function FrameSelf(h: seq<Sample>, f: Option<Frame>): real {
    if h == [] then 0.0
    else FrameSelf(h[..|h| - 1], f) + if f == Innermost(h[|h| - 1].stack) then h[|h| - 1].weight else 0.0
  }

  /** The samples with runs of equal stacks merged into one sample. */
  ghost function Merge(h: seq<Sample>): seq<Sample> {
    if h == [] then [] else Push(Merge(h[..|h| - 1]), h[|h| - 1])
  }

  ghost function Push(m: seq<Sample>, s: Sample): seq<Sample> {
    if m != [] && m[|m| - 1].stack == s.stack
    then m[..|m| - 1] + [Sample(s.stack, m[|m| - 1].weight + s.weight)]
    else m + [s]
  }
}

/** The append-order side of a profile: samples, weights and node times. */
module SampleTimelines {
  import opened CallTrees
  import opened OpenPaths
  import opened SampleWalks
  import opened SampleSums

  function Last(samples: seq<nat>): nat {
    if samples == [] then 0 else samples[|samples| - 1]
  }

  ghost predicate InTree(parent: seq<nat>, samples: seq<nat>, weights: seq<real>) {
    Parents(parent) && |samples| == |weights| && |parent| >= 1
    && forall i :: 0 <= i < |samples| ==> samples[i] < |parent|
  }

  /** The time during which node `n` was on the sampled stack. */
  ghost function TimeOn(parent: seq<nat>, samples: seq<nat>, weights: seq<real>, n: nat): real
    requires InTree(parent, samples, weights)
  {
    if samples == [] then 0.0
    else
      var k := |samples| - 1;
      TimeOn(parent, samples[..k], weights[..k], n) + if n in Path(parent, samples[k]) then weights[k] else 0.0
  }

  /** The time during which node `n` was the innermost one. */
  ghost function TimeAt(samples: seq<nat>, weights: seq<real>, n: nat): real
    requires |samples| == |weights|
  {
    if samples == [] then 0.0
    else
      var k := |samples| - 1;
      TimeAt(samples[..k], weights[..k], n) + if n == samples[k] then weights[k] else 0.0
  }

  /** A node that leaves the sampled stack never comes back. */
  ghost predicate Contiguous(parent: seq<nat>, samples: seq<nat>)
    requires Parents(parent) && forall i :: 0 <= i < |samples| ==> samples[i] < |parent|
  {
    forall i :: 0 < i < |samples| ==> KeepsOrStarts(parent, samples, i)
  }

  /** Every node of the i-th path was on the path before, or never on any path. */
  ghost predicate KeepsOrStarts(parent: seq<nat>, samples: seq<nat>, i: nat)
    requires Parents(parent) && 0 < i < |samples| && forall i :: 0 <= i < |samples| ==> samples[i] < |parent|
  {
    forall x | x in Path(parent, samples[i]) ::
      x in Path(parent, samples[i - 1]) || !Sampled(parent, samples[..i], x)
  }

  ghost predicate AllSampled(parent: seq<nat>, samples: seq<nat>)
    requires Parents(parent) && forall i :: 0 <= i < |samples| ==> samples[i] < |parent|
  {
    forall n :: 0 < n < |parent| ==> Sampled(parent, samples, n)
  }

  ghost predicate Sampled(parent: seq<nat>, samples: seq<nat>, n: nat)
    requires Parents(parent) && forall i :: 0 <= i < |samples| ==> samples[i] < |parent|
  {
    exists i :: 0 <= i < |samples| && n in Path(parent, samples[i])
  }

  ghost predicate Timed(t: Tree, samples: seq<nat>, weights: seq<real>)
    requires WellFormed(t) && InTree(t.parent, samples, weights)
  {
    forall n :: 0 <= n < |t.parent| ==>
      t.total[n] == TimeOn(t.parent, samples, weights, n) && t.self[n] == TimeAt(samples, weights, n)
  }

  ghost function View(t: Tree, samples: seq<nat>, weights: seq<real>): seq<Sample>
    requires WellFormed(t) && InTree(t.parent, samples, weights)
  {
    seq(|samples|, i requires 0 <= i < |samples| => Sample(Stack(t, samples[i]), weights[i]))
  }

  /** Everything the append-order tree and its sample list promise about the samples `h`. */
  ghost predicate TimelineOk(t: Tree, samples: seq<nat>, weights: seq<real>, h: seq<Sample>) {
    && Ready(t, Last(samples), AppendOrder)
    && InTree(t.parent, samples, weights)
    && (forall i :: 0 <= i < |weights| ==> weights[i] > 0.0)
    && View(t, samples, weights) == Merge(h)
    && Timed(t, samples, weights)
    && Contiguous(t.parent, samples)
    && AllSampled(t.parent, samples)
    && SumsOk(t, h)
  }

  ghost predicate SumsOk(t: Tree, h: seq<Sample>)
    requires WellFormed(t)
  {
    && (forall p {:trigger TotalAt(t, p)} :: p != [] ==> TotalAt(t, p) == StackTotal(h, p))
    && (forall p {:trigger SelfAt(t, p)} :: SelfAt(t, p) == StackSelf(h, p))
  }

  function FreezeChildren(t: Tree, node: nat): Tree
    requires node < |t.children|
  {
    t.(frozen := seq(|t.frozen|, i requires 0 <= i < |t.frozen| => t.frozen[i] || i in t.children[node]))
  }

  /** The tree after a whole sample. */
  ghost function Finish(t: Tree, node: nat, w: real): Tree
    requires node < |t.children| && node < |t.self|
  {
    FreezeChildren(AddSelf(t, node, w), node)
  }

  lemma TimelineReady(t: Tree, samples: seq<nat>, weights: seq<real>, h: seq<Sample>)
    requires TimelineOk(t, samples, weights, h)
    ensures Ready(t, Last(samples), AppendOrder) && |samples| == |weights|
  {
  }

  lemma FinishReady(t0: Tree, cur: nat, s: seq<Frame>, w: real, t: Tree, node: nat)
    requires Ready(t0, cur, AppendOrder) && Walked(t0, cur, AppendOrder, s, w, t, node)
    ensures Ready(Finish(t, node, w), node, AppendOrder)
  {
    SettleWeight(t, node, w);
    var u := Finish(t, node, w);
    assert WellFormed(u);
    assert forall i :: 0 <= i <= node ==> i !in t.children[node] by {
      forall i | i in t.children[node] ensures i > node { }
    }
    SpineKept(t, u, node);
    assert Balanced(u, 0, 0.0) by {
      assert Balanced(AddSelf(t, node, w), 0, 0.0);
    }
  }

  lemma SelfSums(t: Tree, node: nat, w: real, p: seq<Frame>)
    requires WellFormed(t) && node < |t.parent|
    ensures WellFormed(AddSelf(t, node, w))
    ensures SelfAt(AddSelf(t, node, w), p) == SelfAt(t, p) + if p == Stack(t, node) then w else 0.0
    ensures TotalAt(AddSelf(t, node, w), p) == TotalAt(t, p)
  {
    SumAtAdd(t.frame, t.parent, t.self, p, |t.parent|, node, w);
  }

  lemma {:induction false} SumsAppend(t0: Tree, h: seq<Sample>, cur: nat, order: Order, s: seq<Frame>, w: real,
                                      t: Tree, node: nat)
    requires Ready(t0, cur, order) && Walked(t0, cur, order, s, w, t, node) && SumsOk(t0, h)
    ensures WellFormed(AddSelf(t, node, w)) && SumsOk(AddSelf(t, node, w), h + [Sample(s, w)])
  {
    var u, h' := AddSelf(t, node, w), h + [Sample(s, w)];
    assert h'[..|h'| - 1] == h;
    forall p ensures p != [] ==> TotalAt(u, p) == StackTotal(h', p) {
      SelfSums(t, node, w, p);
      assert p != [] ==> TotalAt(t, p) == TotalAt(t0, p) + if p <= s then w else 0.0;
    }
    forall p ensures SelfAt(u, p) == StackSelf(h', p) {
      SelfSums(t, node, w, p);
      assert SelfAt(t, p) == SelfAt(t0, p);
    }
  }

  function PushNode(samples: seq<nat>, node: nat): seq<nat> {
    if samples != [] && Last(samples) == node then samples else samples + [node]
  }

  function PushWeight(samples: seq<nat>, weights: seq<real>, node: nat, w: real): seq<real>
    requires |samples| == |weights|
  {
    if samples != [] && Last(samples) == node
    then weights[|weights| - 1 := weights[|weights| - 1] + w]
    else weights + [w]
  }

  lemma {:induction false} TimeOnExtend(parent: seq<nat>, longer: seq<nat>, samples: seq<nat>, weights: seq<real>,
                                        n: nat)
    requires InTree(parent, samples, weights) && InTree(longer, samples, weights) && parent <= longer
    ensures TimeOn(longer, samples, weights, n) == TimeOn(parent, samples, weights, n)
    ensures n >= |parent| ==> TimeOn(parent, samples, weights, n) == 0.0 == TimeAt(samples, weights, n)
  {
    if samples != [] {
      var k := |samples| - 1;
      TimeOnExtend(parent, longer, samples[..k], weights[..k], n);
      PathExtend(parent, longer, samples[k]);
      PathIncreasing(parent, samples[k]);
    }
  }

  lemma TimePushed(parent: seq<nat>, samples: seq<nat>, weights: seq<real>, node: nat, w: real, n: nat)
    requires InTree(parent, samples, weights) && node < |parent|
    ensures var samples', weights' := PushNode(samples, node), PushWeight(samples, weights, node, w);
      && InTree(parent, samples', weights')
      && TimeOn(parent, samples', weights', n)
         == TimeOn(parent, samples, weights, n) + (if n in Path(parent, node) then w else 0.0)
      && TimeAt(samples', weights', n) == TimeAt(samples, weights, n) + (if n == node then w else 0.0)
  {
    var samples', weights' := PushNode(samples, node), PushWeight(samples, weights, node, w);
    var k := |samples'| - 1;
    assert samples'[..k] == samples[..k] && weights'[..k] == weights[..k];
    if k == |samples| {
      assert samples[..k] == samples && weights[..k] == weights;
    }
  }

  lemma TimedAppend(t0: Tree, samples: seq<nat>, weights: seq<real>, s: seq<Frame>, w: real, t: Tree, node: nat)
    requires Ready(t0, Last(samples), AppendOrder) && Walked(t0, Last(samples), AppendOrder, s, w, t, node)
    requires InTree(t0.parent, samples, weights) && Timed(t0, samples, weights)
    ensures var u := Finish(t, node, w);
      var samples', weights' := PushNode(samples, node), PushWeight(samples, weights, node, w);
      WellFormed(u) && InTree(u.parent, samples', weights') && Timed(u, samples', weights')
  {
    hide TimeOn, TimeAt, Path, StackOf, SumAt, Spine;
    FinishReady(t0, Last(samples), s, w, t, node);
    var u, samples', weights' := Finish(t, node, w), PushNode(samples, node), PushWeight(samples, weights, node, w);
    forall n | 0 <= n < |u.parent|
      ensures u.total[n] == TimeOn(u.parent, samples', weights', n) && u.self[n] == TimeAt(samples', weights', n)
    {
      TimeOnExtend(t0.parent, u.parent, samples, weights, n);
      TimePushed(u.parent, samples, weights, node, w, n);
    }
  }

  lemma ViewAppend(t0: Tree, samples: seq<nat>, weights: seq<real>, h: seq<Sample>,
                   s: seq<Frame>, w: real, t: Tree, node: nat)
    requires WellFormed(t0) && WellFormed(t) && Extends(t0, t) && node < |t.parent| && Stack(t, node) == s
    requires InTree(t0.parent, samples, weights) && View(t0, samples, weights) == Merge(h)
    requires node == Last(samples) <==> s == Stack(t0, Last(samples))
    ensures var samples', weights' := PushNode(samples, node), PushWeight(samples, weights, node, w);
      InTree(t.parent, samples', weights') && View(t, samples', weights') == Merge(h + [Sample(s, w)])
  {
    ViewExtend(t0, t, samples, weights);
    assert (h + [Sample(s, w)])[..|h|] == h;
    assert Merge(h + [Sample(s, w)]) == Push(View(t, samples, weights), Sample(s, w));
    StackOfExtend(t0.frame, t0.parent, t.frame, t.parent, Last(samples));
    ViewPush(t, samples, weights, node, w);
  }

  lemma ViewExtend(t0: Tree, t: Tree, samples: seq<nat>, weights: seq<real>)
    requires WellFormed(t0) && WellFormed(t) && Extends(t0, t) && InTree(t0.parent, samples, weights)
    ensures InTree(t.parent, samples, weights) && View(t, samples, weights) == View(t0, samples, weights)
  {
    forall i | 0 <= i < |samples| ensures Stack(t, samples[i]) == Stack(t0, samples[i]) {
      StackOfExtend(t0.frame, t0.parent, t.frame, t.parent, samples[i]);
    }
  }

  lemma ViewPush(t: Tree, samples: seq<nat>, weights: seq<real>, node: nat, w: real)
    requires WellFormed(t) && InTree(t.parent, samples, weights) && node < |t.parent|
    requires node == Last(samples) <==> Stack(t, node) == Stack(t, Last(samples))
    ensures var samples', weights' := PushNode(samples, node), PushWeight(samples, weights, node, w);
      InTree(t.parent, samples', weights')
      && View(t, samples', weights') == Push(View(t, samples, weights), Sample(Stack(t, node), w))
  {
    hide StackOf, Path;
    var v := View(t, samples, weights);
    if samples != [] {
      assert v[|v| - 1] == Sample(Stack(t, Last(samples)), weights[|weights| - 1]);
    }
    assert View(t, PushNode(samples, node), PushWeight(samples, weights, node, w))
      == Push(v, Sample(Stack(t, node), w));
  }

  /** A sample ends where the previous one ended exactly when their stacks are equal. */
  lemma {:induction false} SameNodeIffSameStack(t0: Tree, cur: nat, t: Tree, node: nat)
    requires WellFormed(t0) && cur < |t0.parent| && WellFormed(t) && node < |t.parent| && Walking(t0, cur, t, node)
    ensures node == cur <==> Stack(t, node) == Stack(t0, cur)
  {
    StackOfExtend(t0.frame, t0.parent, t.frame, t.parent, cur);
    if Stack(t, node) == Stack(t0, cur) {
      PathStackPrefix(t0, cur, node);
    }
  }

  lemma SampledExtend(parent: seq<nat>, longer: seq<nat>, samples: seq<nat>, x: nat)
    requires Parents(parent) && Parents(longer) && parent <= longer
    requires forall i :: 0 <= i < |samples| ==> samples[i] < |parent|
    ensures Sampled(longer, samples, x) <==> Sampled(parent, samples, x)
    ensures Sampled(parent, samples, x) ==> x < |parent|
  {
    forall i | 0 <= i < |samples|
      ensures Path(longer, samples[i]) == Path(parent, samples[i])
      ensures forall y | y in Path(parent, samples[i]) :: y < |parent|
    {
      PathExtend(parent, longer, samples[i]);
      PathIncreasing(parent, samples[i]);
    }
  }

  lemma KeepsOrStartsExtend(parent: seq<nat>, longer: seq<nat>, samples: seq<nat>, samples': seq<nat>, i: nat)
    requires Parents(parent) && Parents(longer) && parent <= longer && samples <= samples'
    requires forall i :: 0 <= i < |samples| ==> samples[i] < |parent|
    requires forall i :: 0 <= i < |samples'| ==> samples'[i] < |longer|
    requires 0 < i < |samples| && KeepsOrStarts(parent, samples, i)
    ensures KeepsOrStarts(longer, samples', i)
  {
    PathExtend(parent, longer, samples[i]);
    PathExtend(parent, longer, samples[i - 1]);
    assert samples'[..i] == samples[..i];
    forall x | x in Path(longer, samples'[i])
      ensures x in Path(longer, samples'[i - 1]) || !Sampled(longer, samples'[..i], x)
    {
      SampledExtend(parent, longer, samples[..i], x);
    }
  }

  lemma NewKeepsOrStarts(parent: seq<nat>, longer: seq<nat>, samples: seq<nat>, node: nat)
    requires Parents(parent) && Parents(longer) && parent <= longer && samples != [] && node < |longer|
    requires forall i :: 0 <= i < |samples| ==> samples[i] < |parent|
    requires forall x | x in Path(longer, node) :: x < |parent| ==> x in Path(parent, Last(samples))
    ensures KeepsOrStarts(longer, samples + [node], |samples|)
  {
    var samples' := samples + [node];
    PathExtend(parent, longer, Last(samples));
    assert samples'[..|samples|] == samples;
    forall x | x in Path(longer, node)
      ensures x in Path(longer, samples'[|samples| - 1]) || !Sampled(longer, samples'[..|samples|], x)
    {
      SampledExtend(parent, longer, samples, x);
    }
  }

  lemma ContiguousAppend(parent: seq<nat>, samples: seq<nat>, longer: seq<nat>, node: nat)
    requires Parents(parent) && Parents(longer) && parent <= longer && |parent| >= 1 && node < |longer|
    requires forall i :: 0 <= i < |samples| ==> samples[i] < |parent|
    requires Contiguous(parent, samples)
    requires forall x | x in Path(longer, node) :: x < |parent| ==> x in Path(parent, Last(samples))
    ensures (forall i :: 0 <= i < |PushNode(samples, node)| ==> PushNode(samples, node)[i] < |longer|)
    ensures Contiguous(longer, PushNode(samples, node))
  {
    hide KeepsOrStarts, Path;
    var samples' := PushNode(samples, node);
    forall i | 0 < i < |samples'| ensures KeepsOrStarts(longer, samples', i) {
      if i < |samples| {
        KeepsOrStartsExtend(parent, longer, samples, samples', i);
      } else {
        NewKeepsOrStarts(parent, longer, samples, node);
      }
    }
  }

  lemma AllSampledAppend(parent: seq<nat>, samples: seq<nat>, longer: seq<nat>, node: nat)
    requires Parents(parent) && Parents(longer) && parent <= longer && |parent| >= 1 && node < |longer|
    requires forall i :: 0 <= i < |samples| ==> samples[i] < |parent|
    requires AllSampled(parent, samples)
    requires forall x :: |parent| <= x < |longer| ==> x in Path(longer, node)
    ensures (forall i :: 0 <= i < |PushNode(samples, node)| ==> PushNode(samples, node)[i] < |longer|)
    ensures AllSampled(longer, PushNode(samples, node))
  {
    var samples' := PushNode(samples, node);
    forall n | 0 < n < |longer| ensures Sampled(longer, samples', n) {
      if n < |parent| {
        SampledExtend(parent, longer, samples, n);
        var i :| 0 <= i < |samples| && n in Path(longer, samples[i]);
        assert n in Path(longer, samples'[i]);
      } else {
        assert n in Path(longer, samples'[|samples'| - 1]);
      }
    }
  }

  /** What the timeline needs to know about a finished walk. */
  lemma WalkedFacts(t0: Tree, cur: nat, s: seq<Frame>, w: real, t: Tree, node: nat)
    requires Ready(t0, cur, AppendOrder) && Walked(t0, cur, AppendOrder, s, w, t, node)
    ensures WellFormed(t0) && cur < |t0.parent| && WellFormed(t) && Extends(t0, t) && node < |t.parent|
      && Stack(t, node) == s
    ensures node == cur <==> s == Stack(t0, cur)
    ensures forall x | x in Path(t.parent, node) :: x < |t0.parent| ==> x in Path(t0.parent, cur)
    ensures forall x :: |t0.parent| <= x < |t.parent| ==> x in Path(t.parent, node)
  {
    SameNodeIffSameStack(t0, cur, t, node);
  }

  /** One more sample keeps everything the timeline promises. */
  lemma {:induction false} TimelineAppend(t0: Tree, samples: seq<nat>, weights: seq<real>, h: seq<Sample>,
                       s: seq<Frame>, w: real, t: Tree, node: nat)
    requires TimelineOk(t0, samples, weights, h) && w > 0.0
    requires Walked(t0, Last(samples), AppendOrder, s, w, t, node)
    ensures TimelineOk(Finish(t, node, w), PushNode(samples, node), PushWeight(samples, weights, node, w),
      h + [Sample(s, w)])
  {
    hide Walked, Timed, Contiguous, AllSampled, SumsOk, Ready, WellFormed, View;
    var cur := Last(samples);
    WalkedFacts(t0, cur, s, w, t, node);
    FinishReady(t0, cur, s, w, t, node);
    TimedAppend(t0, samples, weights, s, w, t, node);
    ViewAppend(t0, samples, weights, h, s, w, t, node);
    ContiguousAppend(t0.parent, samples, t.parent, node);
    AllSampledAppend(t0.parent, samples, t.parent, node);
    SumsAppend(t0, h, cur, AppendOrder, s, w, t, node);
    FinishShape(t, node, w, h + [Sample(s, w)], PushNode(samples, node), PushWeight(samples, weights, node, w));
  }

  lemma FinishShape(t: Tree, node: nat, w: real, h: seq<Sample>, samples: seq<nat>, weights: seq<real>)
    requires WellFormed(t) && node < |t.parent| && WellFormed(AddSelf(t, node, w)) && WellFormed(Finish(t, node, w))
    requires InTree(t.parent, samples, weights)
    ensures SumsOk(AddSelf(t, node, w), h) ==> SumsOk(Finish(t, node, w), h)
    ensures View(Finish(t, node, w), samples, weights) == View(t, samples, weights)
    ensures Finish(t, node, w).parent == t.parent
  {
    var u, v := AddSelf(t, node, w), Finish(t, node, w);
    assert forall p :: TotalAt(v, p) == TotalAt(u, p);
    assert forall p :: SelfAt(v, p) == SelfAt(u, p);
  }
}

/** What the nodes of the append-order tree say about the frames. */
module FrameSums {
  import opened Wrappers
  import opened CallTrees
  import opened SampleSums
  import opened SampleTimelines

  /** The frame a node was entered for; the root was entered for none. */
  ghost function FrameAt(t: Tree, n: nat): Option<Frame>
    requires n < |t.frame|
  {
    if n == 0 then None else Some(t.frame[n])
  }

  /** A node at which the frame appears for the first time on the way down. */
  ghost predicate Outermost(t: Tree, n: nat, f: Frame)
    requires WellFormed(t) && n < |t.parent|
  {
    n > 0 && t.frame[n] == f && f !in Stack(t, t.parent[n])
  }

  /** The self weights of the nodes below `k` that were entered for the frame. */
  ghost function SelfOver(t: Tree, f: Option<Frame>, k: nat): real
    requires WellFormed(t) && k <= |t.parent|
  {
    if k == 0 then 0.0 else SelfOver(t, f, k - 1) + if FrameAt(t, k - 1) == f then t.self[k - 1] else 0.0
  }

  /** The total weights of the nodes below `k` where the frame appears for the first time. */
  ghost function TotalOver(t: Tree, f: Frame, k: nat): real
    requires WellFormed(t) && k <= |t.parent|
  {
    if k == 0 then 0.0 else TotalOver(t, f, k - 1) + if Outermost(t, k - 1, f) then t.total[k - 1] else 0.0
  }

  // ----- The same sums by time -----

  ghost function TimeAtFrame(t: Tree, samples: seq<nat>, weights: seq<real>, f: Option<Frame>, k: nat): real
    requires WellFormed(t) && InTree(t.parent, samples, weights) && k <= |t.parent|
  {
    if k == 0 then 0.0
    else
      TimeAtFrame(t, samples, weights, f, k - 1)
      + if FrameAt(t, k - 1) == f then TimeAt(samples, weights, k - 1) else 0.0
  }

  ghost function TimeOnFrame(t: Tree, samples: seq<nat>, weights: seq<real>, f: Frame, k: nat): real
    requires WellFormed(t) && InTree(t.parent, samples, weights) && k <= |t.parent|
  {
    if k == 0 then 0.0
    else
      TimeOnFrame(t, samples, weights, f, k - 1)
      + if Outermost(t, k - 1, f) then TimeOn(t.parent, samples, weights, k - 1) else 0.0
  }

  lemma {:induction false} OverIsTime(t: Tree, samples: seq<nat>, weights: seq<real>,
                                      f: Option<Frame>, g: Frame, k: nat)
    requires WellFormed(t) && InTree(t.parent, samples, weights) && Timed(t, samples, weights) && k <= |t.parent|
    ensures SelfOver(t, f, k) == TimeAtFrame(t, samples, weights, f, k)
    ensures TotalOver(t, g, k) == TimeOnFrame(t, samples, weights, g, k)
  {
    hide TimeAt, TimeOn, StackOf, Path;
    if k > 0 {
      OverIsTime(t, samples, weights, f, g, k - 1);
    }
  }

  /** One sample adds its weight at its own node only. */
  lemma {:induction false} SelfStep(t: Tree, samples: seq<nat>, weights: seq<real>, f: Option<Frame>, k: nat)
    requires WellFormed(t) && InTree(t.parent, samples, weights) && samples != [] && k <= |t.parent|
    ensures var n := |samples| - 1;
      TimeAtFrame(t, samples, weights, f, k) == TimeAtFrame(t, samples[..n], weights[..n], f, k)
        + if samples[n] < k && FrameAt(t, samples[n]) == f then weights[n] else 0.0
  {
    if k > 0 {
      SelfStep(t, samples, weights, f, k - 1);
    }
  }

  /** The node of a path at which the frame appears first. */
  ghost function FirstOn(t: Tree, n: nat, f: Frame): nat
    requires WellFormed(t) && n < |t.parent|
  {
    if n == 0 || f !in Stack(t, t.parent[n]) then n else FirstOn(t, t.parent[n], f)
  }

  lemma {:induction false} FirstIsOutermost(t: Tree, n: nat, f: Frame, m: nat)
    requires WellFormed(t) && n < |t.parent| && m < |t.parent|
    ensures m in Path(t.parent, n) && Outermost(t, m, f) <==> f in Stack(t, n) && m == FirstOn(t, n, f)
    ensures FirstOn(t, n, f) <= n
  {
    if n > 0 {
      FirstIsOutermost(t, t.parent[n], f, m);
      PathIncreasing(t.parent, t.parent[n]);
      assert Stack(t, n) == Stack(t, t.parent[n]) + [t.frame[n]];
    }
  }

  /** One sample adds its weight once, if the frame is on its stack. */
  lemma {:induction false} TotalStep(t: Tree, samples: seq<nat>, weights: seq<real>, f: Frame, k: nat)
    requires WellFormed(t) && InTree(t.parent, samples, weights) && samples != [] && k <= |t.parent|
    ensures var n := |samples| - 1;
      TimeOnFrame(t, samples, weights, f, k) == TimeOnFrame(t, samples[..n], weights[..n], f, k)
        + if f in Stack(t, samples[n]) && FirstOn(t, samples[n], f) < k then weights[n] else 0.0
  {
    hide Path, StackOf, Outermost, FirstOn;
    if k > 0 {
      TotalStep(t, samples, weights, f, k - 1);
      FirstIsOutermost(t, samples[|samples| - 1], f, k - 1);
    }
  }

  lemma InnermostAt(t: Tree, n: nat)
    requires WellFormed(t) && n < |t.parent|
    ensures Innermost(Stack(t, n)) == FrameAt(t, n)
  {
  }

  lemma {:induction false} TimeIsView(t: Tree, samples: seq<nat>, weights: seq<real>, f: Option<Frame>, g: Frame)
    requires WellFormed(t) && InTree(t.parent, samples, weights)
    ensures TimeAtFrame(t, samples, weights, f, |t.parent|) == FrameSelf(View(t, samples, weights), f)
    ensures TimeOnFrame(t, samples, weights, g, |t.parent|) == FrameTotal(View(t, samples, weights), g)
  {
    hide StackOf, Path, FrameAt, Innermost, TimeAtFrame, TimeOnFrame, FirstOn, Outermost;
    if samples == [] {
      NoTime(t, f, g, |t.parent|);
    } else {
      var n := |samples| - 1;
      TimeIsView(t, samples[..n], weights[..n], f, g);
      assert View(t, samples, weights)[..n] == View(t, samples[..n], weights[..n]);
      SelfStep(t, samples, weights, f, |t.parent|);
      InnermostAt(t, samples[n]);
      TotalStep(t, samples, weights, g, |t.parent|);
      FirstIsOutermost(t, samples[n], g, 0);
    }
  }

  lemma {:induction false} NoTime(t: Tree, f: Option<Frame>, g: Frame, k: nat)
    requires WellFormed(t) && k <= |t.parent|
    ensures TimeAtFrame(t, [], [], f, k) == 0.0 == TimeOnFrame(t, [], [], g, k)
  {
    if k > 0 {
      NoTime(t, f, g, k - 1);
    }
  }

  lemma {:induction false} MergeKeepsFrames(h: seq<Sample>, f: Option<Frame>, g: Frame)
    ensures FrameSelf(Merge(h), f) == FrameSelf(h, f) && FrameTotal(Merge(h), g) == FrameTotal(h, g)
  {
    hide Push, Innermost;
    if h != [] {
      MergeKeepsFrames(h[..|h| - 1], f, g);
      PushFrames(Merge(h[..|h| - 1]), h[|h| - 1], f, g);
    }
  }

  lemma {:induction false} PushFrames(m: seq<Sample>, s: Sample, f: Option<Frame>, g: Frame)
    ensures FrameSelf(Push(m, s), f) == FrameSelf(m, f) + if f == Innermost(s.stack) then s.weight else 0.0
    ensures FrameTotal(Push(m, s), g) == FrameTotal(m, g) + if g in s.stack then s.weight else 0.0
  {
    hide Innermost;
    var p := Push(m, s);
    if m != [] && m[|m| - 1].stack == s.stack {
      assert p[..|p| - 1] == m[..|m| - 1];
    } else {
      assert p[..|p| - 1] == m;
    }
  }

  /** Over all samples, the weight whose innermost frame is `f` is the self weight of the nodes
      entered for `f`, and the weight of the samples with `g` on their stack is the total weight of
      the nodes where `g` appears first, so that recursion is not counted twice. */
  lemma {:induction false} FramesFromNodes(t: Tree, samples: seq<nat>, weights: seq<real>, h: seq<Sample>,
                                           f: Option<Frame>, g: Frame)
    requires TimelineOk(t, samples, weights, h)
    ensures FrameSelf(h, f) == SelfOver(t, f, |t.parent|)
    ensures FrameTotal(h, g) == TotalOver(t, g, |t.parent|)
  {
    hide FrameSelf, FrameTotal, Merge, SelfOver, TotalOver, TimeAtFrame, TimeOnFrame, View, Timed,
         Contiguous, AllSampled, SumsOk;
    OverIsTime(t, samples, weights, f, g, |t.parent|);
    TimeIsView(t, samples, weights, f, g);
    MergeKeepsFrames(h, f, g);
  }

  /** Only the root was entered for no frame. */
  lemma {:induction false} RootAlone(t: Tree, k: nat)
    requires WellFormed(t) && 0 < k <= |t.parent|
    ensures SelfOver(t, None, k) == t.self[0]
  {
    if k > 1 {
      RootAlone(t, k - 1);
    }
  }
}
