/** Taking turns by counting. */
module RoundRobin {
  function Slot(count: nat, n: nat): (i: nat)
    requires n > 0
    ensures i < n
  {
    count % n
  }

  /** The member whose turn it is. */
  function Member<T>(members: seq<T>, count: nat): T
    requires members != []
  {
    members[Slot(count, |members|)]
  }

  lemma {:induction false} AtLeast(n: nat, k: nat)
    requires k >= 1
    ensures n * k >= n
  {
    if k > 1 {
      AtLeast(n, k - 1);
      assert n * k == n * (k - 1) + n;
    }
  }

  lemma LowerQuotient(n: nat, q: int, r: nat, p: int, t: nat)
    requires q < p && r < n
    ensures n * q + r < n * p + t
  {
    AtLeast(n, p - q);
    assert n * p == n * q + n * (p - q);
  }

  lemma QuotientUnique(n: nat, q: int, r: nat, p: int, t: nat)
    requires r < n && t < n && n * q + r == n * p + t
    ensures q == p && r == t
  {
    if q < p {
      LowerQuotient(n, q, r, p, t);
    } else if p < q {
      LowerQuotient(n, p, t, q, r);
    }
  }

  lemma SlotOf(n: nat, q: nat, i: nat)
    requires i < n && n * q + i >= 0
    ensures Slot(n * q + i, n) == i
  {
    var x := n * q + i;
    QuotientUnique(n, q, i, x / n, x % n);
  }

  /** The member that `later` turns after a count comes to. */
  function SlotAfter(count: nat, later: nat, n: nat): nat
    requires n > 0
  {
    Slot(count + later, n)
  }

  lemma SlotShift(count: nat, later: nat, n: nat)
    requires later < n
    ensures var r := Slot(count, n) + later; SlotAfter(count, later, n) == if r < n then r else r - n
  {
    var q, r := count / n, count % n;
    assert count == n * q + r;
    if r + later < n {
      assert count + later == n * q + (r + later);
      SlotOf(n, q, r + later);
    } else {
      assert n * (q + 1) == n * q + n;
      assert count + later == n * (q + 1) + (r + later - n);
      SlotOf(n, q + 1, r + later - n);
    }
  }

  // ----- The counter is 64 bits wide -----

  const USIZE := 0x1_0000_0000_0000_0000

  function Tick(count: nat): (next: nat)
    ensures next < USIZE
  {
    (count + 1) % USIZE
  }

  /** The counter after `k` turns. */
  function After(count: nat, k: nat): (c: nat)
    ensures c < USIZE
  {
    (count + k) % USIZE
  }

  lemma AfterStep(count: nat, k: nat)
    requires count < USIZE
    ensures After(count, 0) == count && After(count, k + 1) == Tick(After(count, k))
  {
  }

  /** Whose turn the k-th of a round is. */
  function TurnSlot(count: nat, k: nat, n: nat): nat
    requires n > 0
  {
    Slot(After(count, k), n)
  }

  /** Before the counter wraps the turns go on from the slot reached; then they start over. */
  lemma TurnSlotIs(count: nat, k: nat, n: nat)
    requires count < USIZE && k < n <= USIZE
    ensures var r := Slot(count, n) + k;
      TurnSlot(count, k, n) == if count + k >= USIZE then count + k - USIZE else if r < n then r else r - n
  {
    if count + k < USIZE {
      assert After(count, k) == count + k;
      SlotShift(count, k, n);
    } else {
      assert After(count, k) == count + k - USIZE;
      SmallSlot(count + k - USIZE, n);
    }
  }

  lemma SmallSlot(x: nat, n: nat)
    requires x < n
    ensures Slot(x, n) == x
  {
  }

  /** A new counter goes through the members from the first to the last, over and over. */
  lemma {:induction false} FromTheFirst<T>(members: seq<T>, round: nat, k: nat)
    requires k < |members| && |members| * round + k < USIZE
    ensures Member(members, After(0, |members| * round + k)) == members[k]
  {
    SlotOf(|members|, round, k);
  }

  /** Where the counter wraps within a round. */
  lemma WrapSlot(count: nat, n: nat)
    requires count < USIZE < count + n && n <= USIZE
    ensures var r := Slot(count, n) + (USIZE - count); USIZE % n == if r < n then r else r - n
  {
    SlotShift(count, USIZE - count, n);
  }

  /** Not cut by the wrap, or cut where a round would start anyway. */
  predicate Even(count: nat, n: nat)
    requires n > 0
  {
    count + n <= USIZE || USIZE % n == 0
  }

  /** In a round of as many turns as there are members each has exactly one, unless the counter
      wraps within the round and their number does not divide 2^64. */
  lemma {:induction false} EveryoneInTurn(count: nat, n: nat, i: nat) returns (k: nat)
    requires count < USIZE && i < n <= USIZE && Even(count, n)
    ensures k < n && TurnSlot(count, k, n) == i
    ensures forall other: nat :: other < n && TurnSlot(count, other, n) == i ==> other == k
  {
    hide Slot, TurnSlot;
    var s, m := Slot(count, n), USIZE - count;
    if m >= n {
      k := if i >= s then i - s else n - s + i;
    } else {
      WrapSlot(count, n);
      k := if i >= n - m then i - (n - m) else i + m;
    }
    TurnSlotIs(count, k, n);
    forall other: nat | other < n && TurnSlot(count, other, n) == i ensures other == k {
      TurnSlotIs(count, other, n);
    }
  }

  /** Otherwise someone is passed over. */
  lemma {:induction false} PassedOver(count: nat, n: nat) returns (i: nat)
    requires count < USIZE && 0 < n <= USIZE && !Even(count, n)
    ensures i < n && forall k: nat :: k < n ==> TurnSlot(count, k, n) != i
  {
    hide Slot, TurnSlot;
    var s, m := Slot(count, n), USIZE - count;
    WrapSlot(count, n);
    i := if s + m < n then n - 1 else s - 1;
    forall k: nat | k < n ensures TurnSlot(count, k, n) != i {
      TurnSlotIs(count, k, n);
    }
  }

  ghost predicate HasTurn(count: nat, n: nat, i: nat)
    requires n > 0
  {
    exists k: nat :: k < n && TurnSlot(count, k, n) == i
  }

  lemma {:induction false} EveryoneInTurnIff(count: nat, n: nat)
    requires count < USIZE && 0 < n <= USIZE
    ensures (forall i: nat :: i < n ==> HasTurn(count, n, i)) <==> Even(count, n)
  {
    hide TurnSlot;
    if Even(count, n) {
      forall i: nat | i < n ensures HasTurn(count, n, i) {
        var k := EveryoneInTurn(count, n, i);
        assert TurnSlot(count, k, n) == i;
      }
    } else {
      var i := PassedOver(count, n);
      assert !HasTurn(count, n, i);
    }
  }
}
