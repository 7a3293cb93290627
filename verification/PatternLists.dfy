/** When a list of patterns together matches everything that one filter lets in. */
module PatternLists {
  import opened Wrappers
  import opened TopicMatch

  type Patterns = seq<Levels>

  predicate AnyLevels(ps: Patterns, t: Levels) {
    exists i :: 0 <= i < |ps| && AclLevels(ps[i], t)
  }

  /** What a filter lets in: for the broker (`parent`) a "#" also stands for no level at all, for
      access control it stands for at least one. */
  predicate LetsIn(f: Levels, t: Levels, parent: bool) {
    if parent then BrokerLevels(f, t) else AclLevels(f, t)
  }

  predicate HasHash(ps: Patterns) {
    exists i :: 0 <= i < |ps| && ps[i] != [] && ps[i][0] == "#"
  }

  predicate Takes(p: Levels, head: string) {
    p != [] && (p[0] == "+" || p[0] == head)
  }

  /** What is left of the patterns that take a level. */
  function Tails(ps: Patterns, head: string): Patterns {
    if ps == [] then []
    else (if Takes(ps[0], head) then [ps[0][1..]] else []) + Tails(ps[1..], head)
  }

  function Total(ps: Patterns): nat {
    if ps == [] then 0 else |ps[0]| + Total(ps[1..])
  }

  lemma {:induction false} TotalTails(ps: Patterns, head: string)
    ensures Total(Tails(ps, head)) + |Tails(ps, head)| <= Total(ps)
  {
    if ps != [] {
      TotalTails(ps[1..], head);
      if Takes(ps[0], head) {
        assert Tails(ps, head)[1..] == Tails(ps[1..], head);
      } else {
        assert Tails(ps, head) == Tails(ps[1..], head);
      }
    }
  }

  /** A limit on the number of levels, if there is one. */
  type Limit = Option<nat>

  predicate Within(n: nat, room: Limit) {
    room.Some? ==> n <= room.value
  }

  function Less(room: Limit): Limit {
    if room.Some? && room.value > 0 then Some(room.value - 1) else room
  }

  /** The patterns match every list of at least one level, within the limit. */
  predicate Open(ps: Patterns, room: Limit)
    decreases Total(ps)
  {
    || room == Some(0)
    || HasHash(ps)
    || (var rest := Tails(ps, "+");
        TotalTails(ps, "+");
        [] in rest && Open(rest, Less(room)))
  }

  /** The patterns match every list that the filter lets in, within the limit. */
  predicate CoversAny(ps: Patterns, f: Levels, room: Limit, parent: bool)
    decreases |f|
  {
    if f == [] then [] in ps
    else if f[0] == "#" then (parent ==> [] in ps) && Open(ps, room)
    else HasHash(ps) || CoversAny(Tails(ps, f[0]), f[1..], Less(room), parent)
  }

  // ----- One level at a time -----

  lemma {:induction false} AnyCons(ps: Patterns, t: Levels)
    requires ps != []
    ensures AnyLevels(ps, t) <==> AclLevels(ps[0], t) || AnyLevels(ps[1..], t)
  {
    if AnyLevels(ps, t) && !AclLevels(ps[0], t) {
      var i :| 0 <= i < |ps| && AclLevels(ps[i], t);
      assert AclLevels(ps[1..][i - 1], t);
    }
    if AnyLevels(ps[1..], t) {
      var i :| 0 <= i < |ps[1..]| && AclLevels(ps[1..][i], t);
      assert AclLevels(ps[i + 1], t);
    }
  }

  lemma AnyEmpty(ps: Patterns)
    ensures AnyLevels(ps, []) <==> [] in ps
  {
    if [] in ps {
      var i :| 0 <= i < |ps| && ps[i] == [];
      assert AclLevels(ps[i], []);
    }
  }

  lemma AnyHash(ps: Patterns, t: Levels)
    requires HasHash(ps) && t != []
    ensures AnyLevels(ps, t)
  {
    var i :| 0 <= i < |ps| && ps[i] != [] && ps[i][0] == "#";
    assert AclLevels(ps[i], t);
  }

  lemma NoHashTail(ps: Patterns)
    requires ps != [] && !HasHash(ps)
    ensures !HasHash(ps[1..]) && (ps[0] != [] ==> ps[0][0] != "#")
  {
    forall i | 0 <= i < |ps[1..]| ensures ps[1..][i] == [] || ps[1..][i][0] != "#" {
      assert ps[i + 1] == [] || ps[i + 1][0] != "#";
    }
  }

  lemma {:induction false} TailsTake(ps: Patterns, t: Levels)
    requires t != [] && !HasHash(ps)
    ensures AnyLevels(ps, t) <==> AnyLevels(Tails(ps, t[0]), t[1..])
  {
    hide AnyLevels, HasHash;
    if ps == [] {
      NoneLevels(t);
      NoneLevels(t[1..]);
    } else {
      NoHashTail(ps);
      TailsTake(ps[1..], t);
      AnyCons(ps, t);
      if Takes(ps[0], t[0]) {
        AnyCons(Tails(ps, t[0]), t[1..]);
        assert Tails(ps, t[0])[1..] == Tails(ps[1..], t[0]);
      } else {
        assert Tails(ps, t[0]) == Tails(ps[1..], t[0]);
      }
    }
  }

  lemma NoneLevels(t: Levels)
    ensures !AnyLevels([], t)
  {
  }

  /** What the patterns do with a "+" level they do with any level. */
  lemma {:induction false} PlusTails(ps: Patterns, head: string, t: Levels)
    requires AnyLevels(Tails(ps, "+"), t)
    ensures AnyLevels(Tails(ps, head), t)
  {
    hide AnyLevels;
    if ps == [] {
      NoneLevels(t);
    } else {
      assert Takes(ps[0], "+") ==> Tails(ps, "+")[1..] == Tails(ps[1..], "+");
      assert Takes(ps[0], head) ==> Tails(ps, head)[1..] == Tails(ps[1..], head);
      if Takes(ps[0], "+") {
        AnyCons(Tails(ps, "+"), t);
        AnyCons(Tails(ps, head), t);
        if AnyLevels(Tails(ps[1..], "+"), t) {
          PlusTails(ps[1..], head, t);
        }
      } else {
        assert Tails(ps, "+") == Tails(ps[1..], "+");
        PlusTails(ps[1..], head, t);
        if Takes(ps[0], head) {
          AnyCons(Tails(ps, head), t);
        } else {
          assert Tails(ps, head) == Tails(ps[1..], head);
        }
      }
    }
  }

  // ----- What is covered -----

  lemma {:induction false} OpenSound(ps: Patterns, room: Limit, t: Levels)
    requires Open(ps, room) && t != [] && Within(|t|, room)
    ensures AnyLevels(ps, t)
    decreases |t|
  {
    hide AnyLevels, HasHash;
    if HasHash(ps) {
      AnyHash(ps, t);
    } else {
      var rest := Tails(ps, "+");
      if t[1..] == [] {
        AnyEmpty(rest);
      } else {
        OpenSound(rest, Less(room), t[1..]);
      }
      PlusTails(ps, t[0], t[1..]);
      TailsTake(ps, t);
    }
  }

  lemma {:induction false} CoversSound(ps: Patterns, f: Levels, room: Limit, parent: bool, t: Levels)
    requires CoversAny(ps, f, room, parent) && LetsIn(f, t, parent) && Within(|t|, room)
    ensures AnyLevels(ps, t)
    decreases |f|
  {
    hide AnyLevels, HasHash, Open;
    if f == [] || t == [] {
      AnyEmpty(ps);
    } else if f[0] == "#" {
      OpenSound(ps, room, t);
    } else if HasHash(ps) {
      AnyHash(ps, t);
    } else {
      CoversSound(Tails(ps, f[0]), f[1..], Less(room), parent, t[1..]);
      if f[0] == "+" {
        PlusTails(ps, t[0], t[1..]);
      }
      TailsTake(ps, t);
    }
  }

  // ----- What is not covered -----

  /** The characters of the first levels that the patterns spell. */
  function HeadSize(ps: Patterns): nat {
    if ps == [] then 0 else (if ps[0] == [] || ps[0][0] == "+" then 0 else |ps[0][0]|) + HeadSize(ps[1..])
  }

  /** A level that no pattern spells. */
  function Unspelled(ps: Patterns): string {
    seq(HeadSize(ps) + 1, _ => 'a')
  }

  predicate AllA(level: string) {
    level != "" && forall i :: 0 <= i < |level| ==> level[i] == 'a'
  }

  lemma {:induction false} LongTails(ps: Patterns, level: string)
    requires |level| > HeadSize(ps)
    ensures Tails(ps, level) == Tails(ps, "+")
  {
    if ps != [] {
      LongTails(ps[1..], level);
    }
  }

  function OpenWitness(ps: Patterns): Levels
    decreases Total(ps)
  {
    var rest := Tails(ps, "+");
    TotalTails(ps, "+");
    [Unspelled(ps)] + if [] in rest then OpenWitness(rest) else []
  }

  function Witness(ps: Patterns, f: Levels, parent: bool): Levels
    decreases |f|
  {
    if f == [] then []
    else if f[0] == "#" then if parent && [] !in ps then [] else OpenWitness(ps)
    else [if f[0] == "+" then Unspelled(ps) else f[0]] + Witness(Tails(ps, f[0]), f[1..], parent)
  }

  /** A witness is made of levels of the filter and of levels that nothing spells. */
  predicate MadeFrom(t: Levels, f: Levels) {
    forall i :: 0 <= i < |t| ==> AllA(t[i]) || (t[i] in f && t[i] != "+" && t[i] != "#")
  }

  lemma MadeCons(x: string, t: Levels, f: Levels)
    requires f != [] && MadeFrom(t, f[1..]) && (AllA(x) || (x == f[0] && x != "+" && x != "#"))
    ensures MadeFrom([x] + t, f)
  {
    var w := [x] + t;
    forall i | 0 <= i < |w| ensures AllA(w[i]) || (w[i] in f && w[i] != "+" && w[i] != "#") {
      if i > 0 {
        assert w[i] == t[i - 1];
      }
    }
  }

  lemma {:induction false} OpenComplete(ps: Patterns, room: Limit)
    requires !Open(ps, room)
    ensures var t := OpenWitness(ps);
      t != [] && AllA(t[0]) && MadeFrom(t, []) && !AnyLevels(ps, t) && Within(|t|, room)
    decreases Total(ps)
  {
    hide AnyLevels, HasHash;
    var rest := Tails(ps, "+");
    TotalTails(ps, "+");
    var t := OpenWitness(ps);
    LongTails(ps, t[0]);
    if [] in rest {
      OpenComplete(rest, Less(room));
    } else {
      AnyEmpty(rest);
    }
    var u := if [] in rest then OpenWitness(rest) else [];
    assert t == [Unspelled(ps)] + u && t[1..] == u;
    forall i | 0 <= i < |t| ensures AllA(t[i]) {
      if i > 0 {
        assert t[i] == u[i - 1];
      }
    }
    TailsTake(ps, t);
  }

  lemma {:induction false} CoversComplete(ps: Patterns, f: Levels, room: Limit, parent: bool)
    requires !CoversAny(ps, f, room, parent) && Within(|f|, room)
    ensures var t := Witness(ps, f, parent);
      && LetsIn(f, t, parent) && MadeFrom(t, f) && !AnyLevels(ps, t) && Within(|t|, room)
    decreases |f|
  {
    hide AnyLevels, HasHash, Open, AllA;
    var t := Witness(ps, f, parent);
    if f == [] {
      AnyEmpty(ps);
    } else if f[0] == "#" {
      if parent && [] !in ps {
        AnyEmpty(ps);
      } else {
        OpenComplete(ps, room);
      }
    } else {
      CoversComplete(Tails(ps, f[0]), f[1..], Less(room), parent);
      var u := Witness(Tails(ps, f[0]), f[1..], parent);
      assert t[1..] == u;
      assert AllA(Unspelled(ps)) by { UnspelledLong(ps); }
      MadeCons(t[0], u, f);
      if f[0] == "+" {
        LongTails(ps, t[0]);
      }
      TailsTake(ps, t);
    }
  }

  lemma UnspelledLong(ps: Patterns)
    ensures AllA(Unspelled(ps))
  {
  }
}
