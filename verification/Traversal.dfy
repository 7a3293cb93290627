/** The open and close calls a profile's traversal makes, defined from the paths of
    its samples alone. */
module CallEvents {
  import opened Wrappers
  import opened CallTrees
  import opened SampleTimelines

  datatype Event = Open(node: nat, time: real) | Close(node: nat, time: real)

  ghost function Common(p: seq<nat>, q: seq<nat>): (m: nat)
    ensures m <= |p| && m <= |q| && p[..m] == q[..m]
    ensures m < |p| && m < |q| ==> p[m] != q[m]
  {
    if p == [] || q == [] || p[0] != q[0] then 0 else
      var m := Common(p[1..], q[1..]);
      assert p[..m + 1] == [p[0]] + p[1..][..m] && q[..m + 1] == [q[0]] + q[1..][..m];
      m + 1
  }

  /** Closing the nodes of `p` from the innermost down to depth `m`. */
  ghost function Closes(p: seq<nat>, m: nat, t: real): seq<Event> {
    if |p| <= m then [] else [Close(p[|p| - 1], t)] + Closes(p[..|p| - 1], m, t)
  }

  /** Opening the nodes of `p` from depth `m` inwards. */
  ghost function Opens(p: seq<nat>, m: nat, t: real): seq<Event> {
    if |p| <= m then [] else Opens(p[..|p| - 1], m, t) + [Open(p[|p| - 1], t)]
  }

  ghost function Clock(weights: seq<real>): real {
    if weights == [] then 0.0 else Clock(weights[..|weights| - 1]) + weights[|weights| - 1]
  }

  ghost function LastPath(parent: seq<nat>, samples: seq<nat>): seq<nat>
    requires Parents(parent) && |parent| >= 1 && forall i :: 0 <= i < |samples| ==> samples[i] < |parent|
  {
    Path(parent, Last(samples))
  }

  /** The events up to and including the opens of the last sample. */
  ghost function Events(parent: seq<nat>, samples: seq<nat>, weights: seq<real>): seq<Event>
    requires InTree(parent, samples, weights)
  {
    if samples == [] then []
    else
      var k := |samples| - 1;
      var prev, path, t := LastPath(parent, samples[..k]), Path(parent, samples[k]), Clock(weights[..k]);
      var m := Common(prev, path);
      Events(parent, samples[..k], weights[..k]) + Closes(prev, m, t) + Opens(path, m, t)
  }

  ghost function AllEvents(parent: seq<nat>, samples: seq<nat>, weights: seq<real>): seq<Event>
    requires InTree(parent, samples, weights)
  {
    Events(parent, samples, weights) + Closes(LastPath(parent, samples), 0, Clock(weights))
  }

  /** The stack of open nodes after the events; `None` when a close does not match. */
  ghost function Replay(events: seq<Event>, stack: seq<nat>): Option<seq<nat>> {
    if events == [] then Some(stack)
    else match events[0]
      case Open(n, _) => Replay(events[1..], stack + [n])
      case Close(n, _) =>
        if stack != [] && stack[|stack| - 1] == n then Replay(events[1..], stack[..|stack| - 1]) else None
  }

  lemma {:induction false} ReplayConcat(a: seq<Event>, b: seq<Event>, stack: seq<nat>)
    requires Replay(a, stack).Some?
    ensures Replay(a + b, stack) == Replay(b, Replay(a, stack).value)
  {
    if a == [] {
      assert a + b == b;
    } else {
      assert (a + b)[1..] == a[1..] + b;
      match a[0]
      case Open(n, _) => ReplayConcat(a[1..], b, stack + [n]);
      case Close(n, _) => ReplayConcat(a[1..], b, stack[..|stack| - 1]);
    }
  }

  lemma {:induction false} ReplayCloses(p: seq<nat>, m: nat, t: real)
    requires m <= |p|
    ensures Replay(Closes(p, m, t), p) == Some(p[..m])
  {
    if m < |p| {
      ReplayCloses(p[..|p| - 1], m, t);
      var events := Closes(p, m, t);
      assert events[1..] == Closes(p[..|p| - 1], m, t);
      assert p[..|p| - 1][..m] == p[..m];
    } else {
      assert p[..m] == p;
    }
  }

  lemma {:induction false} ReplayOpens(p: seq<nat>, m: nat, t: real)
    requires m <= |p|
    ensures Replay(Opens(p, m, t), p[..m]) == Some(p)
  {
    if m < |p| {
      var init := p[..|p| - 1];
      ReplayOpens(init, m, t);
      assert init[..m] == p[..m];
      ReplayConcat(Opens(init, m, t), [Open(p[|p| - 1], t)], p[..m]);
      assert init + [p[|p| - 1]] == p;
    } else {
      assert p[..m] == p;
    }
  }

  lemma {:induction false} ReplayEvents(parent: seq<nat>, samples: seq<nat>, weights: seq<real>)
    requires InTree(parent, samples, weights)
    ensures Replay(Events(parent, samples, weights), []) == Some(LastPath(parent, samples))
  {
    if samples != [] {
      var k := |samples| - 1;
      var prev, path, t := LastPath(parent, samples[..k]), Path(parent, samples[k]), Clock(weights[..k]);
      var m := Common(prev, path);
      var before := Events(parent, samples[..k], weights[..k]);
      ReplayEvents(parent, samples[..k], weights[..k]);
      ReplayCloses(prev, m, t);
      ReplayConcat(before, Closes(prev, m, t), []);
      ReplayOpens(path, m, t);
      ReplayConcat(before + Closes(prev, m, t), Opens(path, m, t), []);
    }
  }

  /** The traversal's events are well nested: every close matches the innermost open
      node and nothing stays open. */
  lemma {:induction false} WellNested(parent: seq<nat>, samples: seq<nat>, weights: seq<real>)
    requires InTree(parent, samples, weights)
    ensures Replay(AllEvents(parent, samples, weights), []) == Some([])
  {
    var path := LastPath(parent, samples);
    ReplayEvents(parent, samples, weights);
    ReplayCloses(path, 0, Clock(weights));
    ReplayConcat(Events(parent, samples, weights), Closes(path, 0, Clock(weights)), []);
    assert path[..0] == [];
  }

  ghost predicate InOrder(events: seq<Event>, until: real) {
    && (forall i, j :: 0 <= i < j < |events| ==> events[i].time <= events[j].time)
    && (forall i :: 0 <= i < |events| ==> events[i].time <= until)
  }

  ghost predicate AllAt(events: seq<Event>, t: real) {
    forall i :: 0 <= i < |events| ==> events[i].time == t
  }

  lemma {:induction false} ClosesAt(p: seq<nat>, m: nat, t: real)
    ensures AllAt(Closes(p, m, t), t)
  {
    if m < |p| {
      ClosesAt(p[..|p| - 1], m, t);
    }
  }

  lemma {:induction false} OpensAt(p: seq<nat>, m: nat, t: real)
    ensures AllAt(Opens(p, m, t), t)
  {
    if m < |p| {
      OpensAt(p[..|p| - 1], m, t);
    }
  }

  lemma InOrderAppend(events: seq<Event>, more: seq<Event>, t: real)
    requires InOrder(events, t) && AllAt(more, t)
    ensures InOrder(events + more, t)
  {
  }

  lemma {:induction false} EventsInOrder(parent: seq<nat>, samples: seq<nat>, weights: seq<real>)
    requires InTree(parent, samples, weights) && forall i :: 0 <= i < |weights| ==> weights[i] > 0.0
    ensures InOrder(Events(parent, samples, weights), Clock(weights))
  {
    if samples != [] {
      var k := |samples| - 1;
      var prev, path, t := LastPath(parent, samples[..k]), Path(parent, samples[k]), Clock(weights[..k]);
      var m := Common(prev, path);
      var before := Events(parent, samples[..k], weights[..k]);
      EventsInOrder(parent, samples[..k], weights[..k]);
      ClosesAt(prev, m, t);
      InOrderAppend(before, Closes(prev, m, t), t);
      OpensAt(path, m, t);
      InOrderAppend(before + Closes(prev, m, t), Opens(path, m, t), t);
    }
  }

  /** Event times never decrease. */
  lemma {:induction false} TimesInOrder(parent: seq<nat>, samples: seq<nat>, weights: seq<real>)
    requires InTree(parent, samples, weights) && forall i :: 0 <= i < |weights| ==> weights[i] > 0.0
    ensures InOrder(AllEvents(parent, samples, weights), Clock(weights))
  {
    EventsInOrder(parent, samples, weights);
    ClosesAt(LastPath(parent, samples), 0, Clock(weights));
    InOrderAppend(Events(parent, samples, weights), Closes(LastPath(parent, samples), 0, Clock(weights)),
      Clock(weights));
  }
}

/** Every node is opened once and closed once, for exactly as long as it was sampled. */
module NodeLifetimes {
  import opened CallTrees
  import opened SampleTimelines
  import opened CallEvents

  ghost function OpenTimes(events: seq<Event>, n: nat): seq<real> {
    if events == [] then []
    else
      var last := events[|events| - 1];
      OpenTimes(events[..|events| - 1], n) + if last.Open? && last.node == n then [last.time] else []
  }

  ghost function CloseTimes(events: seq<Event>, n: nat): seq<real> {
    if events == [] then []
    else
      var last := events[|events| - 1];
      CloseTimes(events[..|events| - 1], n) + if last.Close? && last.node == n then [last.time] else []
  }

  lemma {:induction false} TimesConcat(a: seq<Event>, b: seq<Event>, n: nat)
    ensures OpenTimes(a + b, n) == OpenTimes(a, n) + OpenTimes(b, n)
    ensures CloseTimes(a + b, n) == CloseTimes(a, n) + CloseTimes(b, n)
  {
    if b == [] {
      assert a + b == a;
    } else {
      var init := b[..|b| - 1];
      assert (a + b)[..|a + b| - 1] == a + init;
      TimesConcat(a, init, n);
    }
  }

  ghost predicate Rising(p: seq<nat>) {
    forall i, j :: 0 <= i < j < |p| ==> p[i] < p[j]
  }

  lemma NoTimes(n: nat)
    ensures OpenTimes([], n) == [] && CloseTimes([], n) == []
  {
  }

  lemma TimesOfOne(m: nat, t: real, n: nat)
    ensures OpenTimes([Open(m, t)], n) == (if m == n then [t] else []) && CloseTimes([Open(m, t)], n) == []
    ensures CloseTimes([Close(m, t)], n) == (if m == n then [t] else []) && OpenTimes([Close(m, t)], n) == []
  {
    assert [Open(m, t)][..0] == [] && [Close(m, t)][..0] == [];
  }

  /** The innermost node is not among the others. */
  lemma LastOnce(p: seq<nat>, m: nat, n: nat)
    requires Rising(p) && m < |p|
    ensures var init, last := p[..|p| - 1], p[|p| - 1];
      Rising(init) && last !in init[m..] && (n in p[m..] <==> n in init[m..] || n == last)
  {
    var init, last := p[..|p| - 1], p[|p| - 1];
    assert p[m..] == init[m..] + [last];
    forall i | 0 <= i < |init[m..]| ensures init[m..][i] != last {
      assert init[m..][i] == p[m + i];
    }
  }

  lemma {:induction false} TimesOfCloses(p: seq<nat>, m: nat, t: real, n: nat)
    requires Rising(p) && m <= |p|
    ensures OpenTimes(Closes(p, m, t), n) == []
    ensures CloseTimes(Closes(p, m, t), n) == if n in p[m..] then [t] else []
  {
    hide OpenTimes, CloseTimes, Rising;
    NoTimes(n);
    if m < |p| {
      var init, last := p[..|p| - 1], p[|p| - 1];
      LastOnce(p, m, n);
      TimesOfCloses(init, m, t, n);
      TimesConcat([Close(last, t)], Closes(init, m, t), n);
      TimesOfOne(last, t, n);
    }
  }

  lemma {:induction false} TimesOfOpens(p: seq<nat>, m: nat, t: real, n: nat)
    requires Rising(p) && m <= |p|
    ensures CloseTimes(Opens(p, m, t), n) == []
    ensures OpenTimes(Opens(p, m, t), n) == if n in p[m..] then [t] else []
  {
    hide OpenTimes, CloseTimes, Rising;
    NoTimes(n);
    if m < |p| {
      var init, last := p[..|p| - 1], p[|p| - 1];
      LastOnce(p, m, n);
      TimesOfOpens(init, m, t, n);
      TimesConcat(Opens(init, m, t), [Open(last, t)], n);
      TimesOfOne(last, t, n);
    }
  }

  /** What paths of one tree have in common is a prefix of both. */
  lemma SharedIsCommon(parent: seq<nat>, a: nat, b: nat, n: nat)
    requires Parents(parent) && a < |parent| && b < |parent|
    ensures var p, q := Path(parent, a), Path(parent, b);
      n in p && n in q <==> n in p[..Common(p, q)]
  {
    var p, q := Path(parent, a), Path(parent, b);
    var m := Common(p, q);
    if n in p && n in q {
      var i :| 0 <= i < |p| && p[i] == n;
      var j :| 0 <= j < |q| && q[j] == n;
      PathPrefix(parent, a, i);
      PathPrefix(parent, b, j);
      assert |p[..i + 1]| == |q[..j + 1]|;
      CommonMax(p, q, i + 1);
      assert p[..m][i] == n;
    }
  }

  lemma {:induction false} CommonMax(p: seq<nat>, q: seq<nat>, k: nat)
    requires k <= |p| && k <= |q| && p[..k] == q[..k]
    ensures k <= Common(p, q)
  {
    if k > 0 {
      assert p[0] == p[..k][0] == q[..k][0] == q[0];
      assert p[1..][..k - 1] == p[..k][1..] && q[1..][..k - 1] == q[..k][1..];
      CommonMax(p[1..], q[1..], k - 1);
    }
  }

  /** The opens and closes of node `n` after the samples: none before it was ever
      sampled, an open one while it is on the path, both afterwards. */
  ghost predicate Life(parent: seq<nat>, samples: seq<nat>, weights: seq<real>, n: nat)
    requires InTree(parent, samples, weights)
  {
    var events := Events(parent, samples, weights);
    var opens, closes := OpenTimes(events, n), CloseTimes(events, n);
    var time := TimeOn(parent, samples, weights, n);
    if n in LastPath(parent, samples) then |opens| == 1 && closes == [] && opens[0] + time == Clock(weights)
    else if Sampled(parent, samples, n) then |opens| == 1 && |closes| == 1 && closes[0] - opens[0] == time
    else opens == [] && closes == [] && time == 0.0
  }

  lemma SampledStep(parent: seq<nat>, samples: seq<nat>, n: nat)
    requires Parents(parent) && samples != [] && forall i :: 0 <= i < |samples| ==> samples[i] < |parent|
    ensures var k := |samples| - 1;
      Sampled(parent, samples, n) <==> Sampled(parent, samples[..k], n) || n in Path(parent, samples[k])
  {
    hide Path;
    var k := |samples| - 1;
    if Sampled(parent, samples[..k], n) {
      var i :| 0 <= i < k && n in Path(parent, samples[..k][i]);
      assert n in Path(parent, samples[i]);
    }
    if Sampled(parent, samples, n) && n !in Path(parent, samples[k]) {
      var i :| 0 <= i < |samples| && n in Path(parent, samples[i]);
      assert n in Path(parent, samples[..k][i]);
    }
  }

  /** The events of one more sample, as seen by node `n`. */
  lemma StepTimes(parent: seq<nat>, samples: seq<nat>, weights: seq<real>, n: nat)
    requires InTree(parent, samples, weights) && samples != []
    ensures var k := |samples| - 1;
      var prev, path, t := LastPath(parent, samples[..k]), Path(parent, samples[k]), Clock(weights[..k]);
      var before, events := Events(parent, samples[..k], weights[..k]), Events(parent, samples, weights);
      && OpenTimes(events, n) == OpenTimes(before, n) + (if n in path && n !in prev then [t] else [])
      && CloseTimes(events, n) == CloseTimes(before, n) + (if n in prev && n !in path then [t] else [])
  {
    hide Path, Closes, Opens, OpenTimes, CloseTimes, Clock;
    var k := |samples| - 1;
    var prev, path, t := LastPath(parent, samples[..k]), Path(parent, samples[k]), Clock(weights[..k]);
    var before, m := Events(parent, samples[..k], weights[..k]), Common(prev, path);
    PathIncreasing(parent, Last(samples[..k]));
    PathIncreasing(parent, samples[k]);
    SharedIsCommon(parent, Last(samples[..k]), samples[k], n);
    InSuffix(prev, m, n);
    InSuffix(path, m, n);
    TimesOfCloses(prev, m, t, n);
    TimesOfOpens(path, m, t, n);
    TimesConcat(before, Closes(prev, m, t), n);
    TimesConcat(before + Closes(prev, m, t), Opens(path, m, t), n);
  }

  lemma InSuffix(p: seq<nat>, m: nat, n: nat)
    requires Rising(p) && m <= |p|
    ensures n in p[m..] <==> n in p && n !in p[..m]
  {
    assert p == p[..m] + p[m..];
  }

  lemma LifeStep(parent: seq<nat>, samples: seq<nat>, weights: seq<real>, n: nat)
    requires InTree(parent, samples, weights) && samples != []
    requires |samples| > 1 ==> KeepsOrStarts(parent, samples, |samples| - 1)
    requires Life(parent, samples[..|samples| - 1], weights[..|samples| - 1], n)
    ensures Life(parent, samples, weights, n)
  {
    hide Events, Path, OpenTimes, CloseTimes, Sampled;
    StepTimes(parent, samples, weights, n);
    SampledStep(parent, samples, n);
    LastIsSampled(parent, samples[..|samples| - 1], n);
  }

  lemma LastIsSampled(parent: seq<nat>, samples: seq<nat>, n: nat)
    requires Parents(parent) && |parent| >= 1 && forall i :: 0 <= i < |samples| ==> samples[i] < |parent|
    ensures n in LastPath(parent, samples) ==> Sampled(parent, samples, n)
    ensures samples == [] ==> !Sampled(parent, samples, n)
  {
  }

  lemma {:induction false} Lives(parent: seq<nat>, samples: seq<nat>, weights: seq<real>, n: nat)
    requires InTree(parent, samples, weights) && Contiguous(parent, samples)
    ensures Life(parent, samples, weights, n)
  {
    if samples != [] {
      var k := |samples| - 1;
      assert Contiguous(parent, samples[..k]) by {
        forall i | 0 < i < k ensures KeepsOrStarts(parent, samples[..k], i) {
          assert KeepsOrStarts(parent, samples, i);
          assert samples[..k][..i] == samples[..i];
        }
      }
      Lives(parent, samples[..k], weights[..k], n);
      LifeStep(parent, samples, weights, n);
    }
  }

  /** Each sampled node is opened exactly once and closed exactly once, and stays open
      for exactly the time it was on the sampled stack. */
  lemma {:induction false} OpenedForItsTime(parent: seq<nat>, samples: seq<nat>, weights: seq<real>, n: nat)
    requires InTree(parent, samples, weights) && Contiguous(parent, samples) && Sampled(parent, samples, n)
    ensures var events := AllEvents(parent, samples, weights);
      && |OpenTimes(events, n)| == 1 && |CloseTimes(events, n)| == 1
      && CloseTimes(events, n)[0] - OpenTimes(events, n)[0] == TimeOn(parent, samples, weights, n)
  {
    Lives(parent, samples, weights, n);
    var path := LastPath(parent, samples);
    PathIncreasing(parent, Last(samples));
    TimesOfCloses(path, 0, Clock(weights), n);
    assert path[0..] == path;
    TimesConcat(Events(parent, samples, weights), Closes(path, 0, Clock(weights)), n);
  }
}
