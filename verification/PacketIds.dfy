/** The bridge's packet identifiers: a 16-bit counter that callers draw from with atomic
    increments, drawing a second time when the first draw gave zero. */
module PacketIds {
  const MODULUS := 65536

  // ----- One caller at a time -----

  /** The counter after `n` complete calls. */
  function CounterAfter(n: nat): nat {
    if n > 0 && n % 65535 == 0 then 0 else 1 + n % 65535
  }

  class PacketIdSource {
    var next: nat
    ghost var calls: nat

    ghost predicate Valid()
      reads this
    {
      next == CounterAfter(calls)
    }

    constructor ()
      ensures Valid() && calls == 0
    {
      next, calls := 1, 0;
    }

    method FetchAdd() returns (before: nat)
      requires next < MODULUS
      modifies this`next
      ensures before == old(next) && next == (before + 1) % MODULUS
    {
      before := next;
      next := (next + 1) % MODULUS;
    }

    /** The n-th call, counting from zero, returns 1 + n mod 65535, which is never zero. */
    method NextPacketId() returns (id: nat)
      requires Valid()
      modifies this
      ensures Valid() && calls == old(calls) + 1
      ensures id == 1 + old(calls) % 65535
    {
      id := FetchAdd();
      if id == 0 {
        id := FetchAdd();
      }
      calls := calls + 1;
    }
  }

  // ----- Every interleaving of callers -----

  /** A finished call: its caller and the positions of its first and last draw among all draws. */
  datatype Call = Call(caller: nat, first: nat, last: nat, id: nat)

  /** `waiting` holds the callers between a first draw of zero and their second draw. */
  datatype Shared = Shared(counter: nat, draws: nat, waiting: map<nat, nat>, calls: seq<Call>)

  function Initial(): Shared {
    Shared(1, 0, map[], [])
  }

  /** One atomic increment by `caller`. */
  function Draw(s: Shared, caller: nat): Shared {
    var after := s.(counter := (s.counter + 1) % MODULUS, draws := s.draws + 1);
    if caller in s.waiting then
      after.(waiting := s.waiting - {caller},
             calls := s.calls + [Call(caller, s.waiting[caller], s.draws, s.counter)])
    else if s.counter == 0 then after.(waiting := s.waiting[caller := s.draws])
    else after.(calls := s.calls + [Call(caller, s.draws, s.draws, s.counter)])
  }

  /** The callers' draws in the order in which they took effect. */
  function Run(schedule: seq<nat>): Shared {
    if schedule == [] then Initial()
    else Draw(Run(schedule[..|schedule| - 1]), schedule[|schedule| - 1])
  }

  /** What the draw at position `k` reads. */
  function ValueAt(k: nat): nat {
    (1 + k) % MODULUS
  }

  ghost predicate CallOk(c: Call) {
    && c.first <= c.last && c.id == ValueAt(c.last)
    && (c.first < c.last <==> ValueAt(c.first) == 0)
  }

  ghost predicate Sound(s: Shared) {
    && s.counter == ValueAt(s.draws)
    && (forall t :: t in s.waiting ==> s.waiting[t] < s.draws && ValueAt(s.waiting[t]) == 0)
    && (forall i :: 0 <= i < |s.calls| ==> CallOk(s.calls[i]) && s.calls[i].last < s.draws)
    && (forall i, j :: 0 <= i < j < |s.calls| ==> s.calls[i].last < s.calls[j].last)
  }

  lemma RunStep(schedule: seq<nat>, caller: nat)
    ensures Run(schedule + [caller]) == Draw(Run(schedule), caller)
  {
    assert (schedule + [caller])[..|schedule|] == schedule;
  }

  lemma NextValue(k: nat)
    ensures ValueAt(k + 1) == (ValueAt(k) + 1) % MODULUS
  {
  }

  lemma DrawSound(s: Shared, caller: nat)
    requires Sound(s)
    ensures Sound(Draw(s, caller))
  {
    hide ValueAt;
    NextValue(s.draws);
  }

  lemma {:induction false} RunSound(schedule: seq<nat>)
    ensures Sound(Run(schedule)) && Run(schedule).draws == |schedule|
  {
    hide Sound;
    if schedule != [] {
      var before, caller := schedule[..|schedule| - 1], schedule[|schedule| - 1];
      RunSound(before);
      DrawSound(Run(before), caller);
    } else {
      InitialSound();
    }
  }

  lemma InitialSound()
    ensures Sound(Initial())
  {
  }

  // ----- Whose draws they are -----

  /** The draws from `first` to `last` that are the caller's are just those two. */
  predicate JustThese(schedule: seq<nat>, caller: nat, first: nat, last: nat) {
    && first <= last < |schedule| && schedule[first] == caller == schedule[last]
    && forall k :: first < k < last ==> schedule[k] != caller
  }

  /** Since its first draw the caller has not drawn again. */
  predicate JustOne(schedule: seq<nat>, caller: nat, first: nat) {
    && first < |schedule| && schedule[first] == caller
    && forall k :: first < k < |schedule| ==> schedule[k] != caller
  }

  predicate HasDraw(c: Call, k: nat) {
    k == c.first || k == c.last
  }

  ghost predicate DrawnBy(schedule: seq<nat>, s: Shared) {
    && (forall i :: 0 <= i < |s.calls| ==> JustThese(schedule, s.calls[i].caller, s.calls[i].first, s.calls[i].last))
    && (forall t :: t in s.waiting ==> JustOne(schedule, t, s.waiting[t]))
  }

  ghost predicate Apart(s: Shared) {
    && (forall i, j :: 0 <= i < j < |s.calls| && s.calls[i].caller == s.calls[j].caller ==>
         s.calls[i].last < s.calls[j].first)
    && (forall i, t :: 0 <= i < |s.calls| && t in s.waiting && s.calls[i].caller == t ==>
         s.calls[i].last < s.waiting[t])
    && (forall i :: 0 <= i < |s.calls| ==> s.calls[i].last < s.draws)
  }

  ghost predicate Used(s: Shared, k: nat) {
    || (exists i :: 0 <= i < |s.calls| && HasDraw(s.calls[i], k))
    || (exists t :: t in s.waiting && s.waiting[t] == k)
  }

  lemma DrawKeepsDrawnBy(schedule: seq<nat>, s: Shared, caller: nat)
    requires DrawnBy(schedule, s) && s.draws == |schedule|
    ensures DrawnBy(schedule + [caller], Draw(s, caller))
  {
    var longer, s' := schedule + [caller], Draw(s, caller);
    forall i | 0 <= i < |s'.calls| ensures JustThese(longer, s'.calls[i].caller, s'.calls[i].first, s'.calls[i].last) {
      if i < |s.calls| {
        assert s'.calls[i] == s.calls[i] && JustThese(schedule, s.calls[i].caller, s.calls[i].first, s.calls[i].last);
      } else if caller in s.waiting {
        assert JustOne(schedule, caller, s.waiting[caller]);
      }
    }
    forall t | t in s'.waiting ensures JustOne(longer, t, s'.waiting[t]) {
      if t in s.waiting {
        assert JustOne(schedule, t, s.waiting[t]);
      }
    }
  }

  lemma DrawKeepsApart(s: Shared, caller: nat)
    requires Apart(s) && forall t :: t in s.waiting ==> s.waiting[t] < s.draws
    ensures Apart(Draw(s, caller))
  {
  }

  lemma DrawKeepsUsed(s: Shared, caller: nat, k: nat)
    requires k < s.draws ==> Used(s, k)
    requires k <= s.draws
    ensures Used(Draw(s, caller), k)
  {
    var s' := Draw(s, caller);
    if k < s.draws {
      if i :| 0 <= i < |s.calls| && HasDraw(s.calls[i], k) {
        assert s'.calls[i] == s.calls[i];
      } else {
        var t :| t in s.waiting && s.waiting[t] == k;
        if t == caller {
          assert HasDraw(s'.calls[|s.calls|], k);
        } else {
          assert t in s'.waiting && s'.waiting[t] == k;
        }
      }
    } else if caller in s.waiting || s.counter != 0 {
      assert HasDraw(s'.calls[|s.calls|], k);
    } else {
      assert caller in s'.waiting && s'.waiting[caller] == k;
    }
  }

  lemma {:induction false} RunDraws(schedule: seq<nat>)
    ensures DrawnBy(schedule, Run(schedule)) && Apart(Run(schedule))
    ensures forall k: nat :: k < |schedule| ==> Used(Run(schedule), k)
  {
    hide DrawnBy, Apart, Used, Draw;
    if schedule == [] {
      NoDraws();
    } else {
      var before, caller := schedule[..|schedule| - 1], schedule[|schedule| - 1];
      RunDraws(before);
      RunSound(before);
      assert before + [caller] == schedule;
      DrawKeepsDrawnBy(before, Run(before), caller);
      DrawKeepsApart(Run(before), caller);
      forall k: nat | k < |schedule| ensures Used(Run(schedule), k) {
        DrawKeepsUsed(Run(before), caller, k);
      }
    }
  }

  lemma NoDraws()
    ensures DrawnBy([], Run([])) && Apart(Run([]))
  {
  }

  /** In every interleaving each draw belongs to exactly one finished call, or else to exactly one
      caller that is still waiting for its second. */
  lemma {:induction false} EachDrawOnce(schedule: seq<nat>, k: nat)
    requires k < |schedule|
    ensures var s := Run(schedule);
      && Used(s, k)
      && (forall i, j ::
           0 <= i < |s.calls| && 0 <= j < |s.calls| && HasDraw(s.calls[i], k) && HasDraw(s.calls[j], k) ==> i == j)
      && (forall i, t :: 0 <= i < |s.calls| && t in s.waiting && HasDraw(s.calls[i], k) ==> s.waiting[t] != k)
      && (forall t, u :: t in s.waiting && u in s.waiting && s.waiting[t] == k && s.waiting[u] == k ==> t == u)
  {
    hide Run, Used;
    RunDraws(schedule);
    RunSound(schedule);
    var s := Run(schedule);
    forall i | 0 <= i < |s.calls| && HasDraw(s.calls[i], k) ensures s.calls[i].caller == schedule[k] {
      assert JustThese(schedule, s.calls[i].caller, s.calls[i].first, s.calls[i].last);
    }
    forall t | t in s.waiting && s.waiting[t] == k ensures t == schedule[k] {
      assert JustOne(schedule, t, s.waiting[t]);
    }
    forall i, j | 0 <= i < j < |s.calls| ensures !(HasDraw(s.calls[i], k) && HasDraw(s.calls[j], k)) {
      assert CallOk(s.calls[i]) && CallOk(s.calls[j]);
    }
  }

  /** In every interleaving two calls share an id exactly when their last draws lie a
      multiple of 65536 apart; in particular ids drawn closer together differ. */
  lemma {:induction false} SameIdIff(schedule: seq<nat>, i: nat, j: nat)
    requires i < j < |Run(schedule).calls|
    ensures var a, b := Run(schedule).calls[i], Run(schedule).calls[j];
      && a.last < b.last < |schedule|
      && (a.id == b.id <==> (b.last - a.last) % MODULUS == 0)
      && (b.last - a.last < MODULUS ==> a.id != b.id)
  {
    hide Run;
    RunSound(schedule);
    var a, b := Run(schedule).calls[i], Run(schedule).calls[j];
    assert CallOk(a) && CallOk(b);
    Congruent(1 + a.last, 1 + b.last);
  }

  lemma Congruent(x: nat, y: nat)
    requires x <= y
    ensures x % MODULUS == y % MODULUS <==> (y - x) % MODULUS == 0
  {
    var q, r := x / MODULUS, x % MODULUS;
    var p, t := y / MODULUS, y % MODULUS;
    assert y - x == MODULUS * (p - q) + (t - r);
  }

  /** How many draws fall between the two draws of a call that drew twice. */
  function Between(c: Call): nat
    requires c.first < c.last
  {
    c.last - c.first - 1
  }

  /** All of them are other callers'. */
  lemma {:induction false} BetweenAreOthers(schedule: seq<nat>, i: nat, k: nat)
    requires i < |Run(schedule).calls| && Run(schedule).calls[i].first < k < Run(schedule).calls[i].last
    ensures k < |schedule| && schedule[k] != Run(schedule).calls[i].caller
  {
    hide Run;
    RunDraws(schedule);
    var c := Run(schedule).calls[i];
    assert JustThese(schedule, c.caller, c.first, c.last);
  }

  /** A call returns zero exactly when its first draw was zero and the others drew 65535
      times, modulo 65536, before its second. */
  lemma {:induction false} ZeroIdIff(schedule: seq<nat>, i: nat)
    requires i < |Run(schedule).calls|
    ensures var c := Run(schedule).calls[i];
      c.id == 0 <==> ValueAt(c.first) == 0 && c.first < c.last && Between(c) % MODULUS == MODULUS - 1
  {
    hide Run;
    RunSound(schedule);
    var c := Run(schedule).calls[i];
    assert CallOk(c);
    if c.first < c.last {
      Congruent(1 + c.first, 1 + c.last);
      Congruent(MODULUS - 1, Between(c) + MODULUS);
    }
  }

  function Repeat(caller: nat, n: nat): seq<nat> {
    if n == 0 then [] else Repeat(caller, n - 1) + [caller]
  }

  /** A caller that draws alone up to the wrap finishes a call with every draw. */
  lemma {:induction false} DrawsUpToWrap(schedule: seq<nat>, caller: nat, n: nat)
    requires var s := Run(schedule); caller !in s.waiting && 0 < s.counter && s.counter + n <= MODULUS
    ensures var s, r := Run(schedule), Run(schedule + Repeat(caller, n));
      r.counter == (s.counter + n) % MODULUS && r.waiting == s.waiting && |r.calls| == |s.calls| + n
  {
    hide Run;
    if n == 0 {
      RunSound(schedule);
      assert schedule + Repeat(caller, 0) == schedule;
    } else {
      DrawsUpToWrap(schedule, caller, n - 1);
      RunStep(schedule + Repeat(caller, n - 1), caller);
      assert schedule + Repeat(caller, n) == schedule + Repeat(caller, n - 1) + [caller];
    }
  }

  /** The condition is not empty: with 65535 draws of another caller in between, a call
      returns the identifier zero that the protocol forbids. */
  lemma {:induction false} ZeroIdHappens() returns (schedule: seq<nat>)
    ensures exists i :: 0 <= i < |Run(schedule).calls| && Run(schedule).calls[i].id == 0
  {
    hide Run, Repeat;
    InitialRun();
    DrawsUpToWrap([], 1, 65535);
    var warmUp := [] + Repeat(1, 65535);
    RunStep(warmUp, 0);
    var first := warmUp + [0];
    DrawsUpToWrap(first, 1, 65535);
    var others := first + Repeat(1, 65535);
    RunStep(others, 0);
    schedule := others + [0];
    assert Run(schedule).calls[|Run(others).calls|].id == 0;
  }

  lemma InitialRun()
    ensures Run([]) == Initial()
  {
  }

  /** What the shared state looks like while one caller is alone. */
  ghost predicate Sequential(s: Shared, caller: nat) {
    && (forall i :: 0 <= i < |s.calls| ==> s.calls[i].id == 1 + i % 65535)
    && (if caller in s.waiting then |s.calls| > 0 && |s.calls| % 65535 == 0 && s.counter == 1
        else s.counter == CounterAfter(|s.calls|))
  }

  lemma CounterStep(n: nat)
    ensures CounterAfter(n) != 0 ==> CounterAfter(n) == 1 + n % 65535
    ensures CounterAfter(n) != 0 ==> CounterAfter(n + 1) == (CounterAfter(n) + 1) % MODULUS
    ensures n > 0 && n % 65535 == 0 ==> CounterAfter(n + 1) == 2
  {
  }

  lemma SequentialStep(s: Shared, caller: nat)
    requires Sequential(s, caller)
    ensures Sequential(Draw(s, caller), caller)
  {
    CounterStep(|s.calls|);
  }

  /** One caller alone gets the sequential identifiers. */
  lemma {:induction false} AloneIsSequential(caller: nat, n: nat)
    ensures Sequential(Run(Repeat(caller, n)), caller)
  {
    hide Sequential, Run;
    if n == 0 {
      InitialSequential(caller);
    } else {
      AloneIsSequential(caller, n - 1);
      SequentialStep(Run(Repeat(caller, n - 1)), caller);
      RunStep(Repeat(caller, n - 1), caller);
    }
  }

  lemma InitialSequential(caller: nat)
    ensures Sequential(Run([]), caller)
  {
  }
}
