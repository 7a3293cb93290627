/** The `%c` and `%u` placeholders of access-control patterns. */
module Substitution {
  import opened Text

  /** `s.replace("%x", sub)`: left to right, never looking at what was put in. */
  function Replace(s: string, x: char, sub: string): string {
    if |s| < 2 then s
    else if s[0] == '%' && s[1] == x then sub + Replace(s[2..], x, sub)
    else [s[0]] + Replace(s[1..], x, sub)
  }

  /** The two replacements one after the other, as the code performs them. */
  function Chained(pattern: string, client: string, user: string): string {
    Replace(Replace(pattern, 'c', client), 'u', user)
  }

  /** Both placeholders filled in a single pass. */
  function Substitute(pattern: string, client: string, user: string): string {
    if |pattern| < 2 then pattern
    else if pattern[0] == '%' && pattern[1] == 'c' then client + Substitute(pattern[2..], client, user)
    else if pattern[0] == '%' && pattern[1] == 'u' then user + Substitute(pattern[2..], client, user)
    else [pattern[0]] + Substitute(pattern[1..], client, user)
  }

  /** How often "%x" occurs. */
  function Pairs(s: string, x: char): nat {
    if |s| < 2 then 0
    else (if s[0] == '%' && s[1] == x then 1 else 0) + Pairs(s[1..], x)
  }

  /** Putting two texts together forms a new "%x" across the seam. */
  predicate Seam(a: string, b: string, x: char) {
    a != "" && b != "" && a[|a| - 1] == '%' && b[0] == x
  }

  lemma {:induction false} PairsConcat(a: string, b: string, x: char)
    ensures Pairs(a + b, x) == Pairs(a, x) + Pairs(b, x) + if Seam(a, b, x) then 1 else 0
  {
    if a == "" {
      assert a + b == b;
    } else if |a| == 1 {
      assert (a + b)[1..] == b;
    } else {
      assert (a + b)[1..] == a[1..] + b;
      PairsConcat(a[1..], b, x);
    }
  }

  lemma {:induction false} PairsSkip(s: string, x: char)
    requires |s| >= 2 && s[0] == '%' && s[1] == x && x != '%'
    ensures Pairs(s, x) == 1 + Pairs(s[2..], x)
  {
    if |s| > 2 {
      assert s[1..][1..] == s[2..];
    }
  }

  /** Without a seam, replacing distributes over concatenation. */
  lemma ReplaceStep(s: string, x: char, sub: string)
    ensures s == "" ==> Replace(s, x, sub) == ""
    ensures |s| >= 2 && s[0] == '%' && s[1] == x ==> Replace(s, x, sub) == sub + Replace(s[2..], x, sub)
    ensures s != "" && !(|s| >= 2 && s[0] == '%' && s[1] == x) ==>
      Replace(s, x, sub) == [s[0]] + Replace(s[1..], x, sub)
  {
  }

  lemma {:induction false} ReplaceConcat(a: string, b: string, x: char, sub: string)
    requires !Seam(a, b, x) && x != '%'
    ensures Replace(a + b, x, sub) == Replace(a, x, sub) + Replace(b, x, sub)
    decreases |a|
  {
    hide Replace;
    ReplaceStep("", x, sub);
    if a == "" {
      assert a + b == b && "" + Replace(b, x, sub) == Replace(b, x, sub);
      return;
    }
    ReplaceStep(a, x, sub);
    ReplaceStep(a + b, x, sub);
    if |a| == 1 {
      assert (a + b)[1..] == b && a[1..] == "" && [a[0]] + "" == [a[0]];
    } else if a[0] == '%' && a[1] == x {
      assert (a + b)[2..] == a[2..] + b;
      ReplaceConcat(a[2..], b, x, sub);
      Associative(sub, Replace(a[2..], x, sub), Replace(b, x, sub));
    } else {
      assert (a + b)[1..] == a[1..] + b;
      ReplaceConcat(a[1..], b, x, sub);
      Associative([a[0]], Replace(a[1..], x, sub), Replace(b, x, sub));
    }
  }

  lemma {:induction false} ReplaceNone(s: string, x: char, sub: string)
    requires Pairs(s, x) == 0
    ensures Replace(s, x, sub) == s
  {
    if |s| >= 2 {
      ReplaceNone(s[1..], x, sub);
    }
  }

  lemma {:induction false} ReplaceShrinks(s: string, x: char)
    requires x != '%'
    ensures |Replace(s, x, "")| == |s| - 2 * Pairs(s, x)
    decreases |s|
  {
    if |s| >= 2 {
      if s[0] == '%' && s[1] == x {
        PairsSkip(s, x);
        ReplaceShrinks(s[2..], x);
      } else {
        ReplaceShrinks(s[1..], x);
      }
    }
  }

  lemma {:induction false} SubstituteShrinks(p: string, client: string)
    ensures |Substitute(p, client, "")| == |Replace(p, 'c', client)| - 2 * Pairs(p, 'u')
    decreases |p|
  {
    if |p| >= 2 {
      if p[0] == '%' && p[1] == 'c' {
        SubstituteShrinks(p[2..], client);
        SkipPair(p, 'u');
      } else if p[0] == '%' && p[1] == 'u' {
        SubstituteShrinks(p[2..], client);
        PairsSkip(p, 'u');
        ReplaceOther(p, client);
      } else {
        SubstituteShrinks(p[1..], client);
      }
    }
  }

  /** A "%c" hides no "%u". */
  lemma SkipPair(p: string, x: char)
    requires |p| >= 2 && p[0] == '%' && p[1] != x && p[1] != '%'
    ensures Pairs(p, x) == Pairs(p[2..], x)
  {
    if |p| > 2 {
      assert p[1..][1..] == p[2..];
    }
  }

  lemma ReplaceOther(p: string, client: string)
    requires |p| >= 2 && p[0] == '%' && p[1] == 'u'
    ensures Replace(p, 'c', client) == "%u" + Replace(p[2..], 'c', client)
  {
    assert p[1..][1..] == p[2..];
    if |p| == 2 {
      assert p == "%u" && p[2..] == "";
    } else {
      assert Replace(p[1..], 'c', client) == ['u'] + Replace(p[2..], 'c', client);
    }
  }

  /** Filling in the client id never loses a "%u". */
  lemma {:induction false} PairsSurvive(p: string, client: string)
    ensures Pairs(Replace(p, 'c', client), 'u') >= Pairs(p, 'u')
    decreases |p|
  {
    if |p| >= 2 {
      if p[0] == '%' && p[1] == 'c' {
        PairsSurvive(p[2..], client);
        PairsConcat(client, Replace(p[2..], 'c', client), 'u');
        SkipPair(p, 'u');
      } else if p[0] == '%' && p[1] == 'u' {
        PairsSurvive(p[2..], client);
        ReplaceOther(p, client);
        PairsConcat("%u", Replace(p[2..], 'c', client), 'u');
        PairsSkip(p, 'u');
      } else {
        PairsSurvive(p[1..], client);
        PairsConcat([p[0]], Replace(p[1..], 'c', client), 'u');
      }
    }
  }

  lemma {:induction false} NoNewPairs(p: string, client: string, user: string)
    requires Pairs(Replace(p, 'c', client), 'u') == Pairs(p, 'u')
    ensures Chained(p, client, user) == Substitute(p, client, user)
    decreases |p|
  {
    if |p| >= 2 {
      if p[0] == '%' && p[1] == 'c' {
        var rest := Replace(p[2..], 'c', client);
        PairsSurvive(p[2..], client);
        PairsConcat(client, rest, 'u');
        SkipPair(p, 'u');
        NoNewPairs(p[2..], client, user);
        ReplaceConcat(client, rest, 'u', user);
        ReplaceNone(client, 'u', user);
      } else if p[0] == '%' && p[1] == 'u' {
        var rest := Replace(p[2..], 'c', client);
        PairsSurvive(p[2..], client);
        ReplaceOther(p, client);
        PairsConcat("%u", rest, 'u');
        PairsSkip(p, 'u');
        NoNewPairs(p[2..], client, user);
        assert ("%u" + rest)[2..] == rest;
      } else {
        var rest := Replace(p[1..], 'c', client);
        PairsSurvive(p[1..], client);
        PairsConcat([p[0]], rest, 'u');
        NoNewPairs(p[1..], client, user);
        ReplaceConcat([p[0]], rest, 'u', user);
      }
    }
  }

  /** The chained replacements are a simultaneous substitution, whatever the username,
      exactly when filling in the client id forms no new "%u". */
  lemma {:induction false} ChainedIff(p: string, client: string)
    ensures (forall user :: Chained(p, client, user) == Substitute(p, client, user))
            <==> Pairs(Replace(p, 'c', client), 'u') == Pairs(p, 'u')
  {
    if Pairs(Replace(p, 'c', client), 'u') == Pairs(p, 'u') {
      forall user ensures Chained(p, client, user) == Substitute(p, client, user) {
        NoNewPairs(p, client, user);
      }
    } else {
      ReplaceShrinks(Replace(p, 'c', client), 'u');
      SubstituteShrinks(p, client);
      assert Chained(p, client, "") != Substitute(p, client, "");
    }
  }

  /** Every percent sign starts a placeholder. */
  predicate Tidy(p: string) {
    if p == "" then true
    else if p[0] == '%' then |p| >= 2 && (p[1] == 'c' || p[1] == 'u') && Tidy(p[2..])
    else Tidy(p[1..])
  }

  lemma {:induction false} TidyPlain(s: string)
    requires '%' !in s
    ensures Tidy(s)
  {
    if s != "" {
      assert s[0] != '%';
      TidyPlain(s[1..]);
    }
  }

  /** Tidy pieces with a placeholder in between are tidy. */
  lemma {:induction false} TidyAround(a: string, x: char, b: string)
    requires Tidy(a) && Tidy(b) && (x == 'c' || x == 'u')
    ensures Tidy(a + ['%', x] + b)
    decreases |a|
  {
    var s := a + ['%', x] + b;
    if a == "" {
      assert s == ['%', x] + b;
      assert s[2..] == b;
    } else {
      var n := if a[0] == '%' then 2 else 1;
      TidyAround(a[n..], x, b);
      assert s[n..] == a[n..] + ['%', x] + b;
      assert s[0] == a[0] && (n == 2 ==> s[1] == a[1]);
    }
  }

  lemma {:induction false} NoPercentNoPairs(s: string, x: char)
    requires '%' !in s
    ensures Pairs(s, x) == 0
  {
    if |s| >= 2 {
      NoPercentNoPairs(s[1..], x);
    }
  }

  /** In a tidy pattern a client id without percent signs forms no new placeholder. */
  lemma {:induction false} TidyFormsNone(p: string, client: string)
    requires Tidy(p) && '%' !in client
    ensures Pairs(Replace(p, 'c', client), 'u') == Pairs(p, 'u')
    decreases |p|
  {
    if |p| >= 2 {
      if p[0] == '%' && p[1] == 'c' {
        TidyFormsNone(p[2..], client);
        NoPercentNoPairs(client, 'u');
        PairsConcat(client, Replace(p[2..], 'c', client), 'u');
        SkipPair(p, 'u');
      } else if p[0] == '%' && p[1] == 'u' {
        TidyFormsNone(p[2..], client);
        ReplaceOther(p, client);
        PairsConcat("%u", Replace(p[2..], 'c', client), 'u');
        PairsSkip(p, 'u');
      } else {
        TidyFormsNone(p[1..], client);
        PairsConcat([p[0]], Replace(p[1..], 'c', client), 'u');
      }
    }
  }

  lemma {:induction false} TidyChained(p: string, client: string, user: string)
    requires Tidy(p) && '%' !in client
    ensures Chained(p, client, user) == Substitute(p, client, user)
  {
    TidyFormsNone(p, client);
    NoNewPairs(p, client, user);
  }

  function SubstituteAll(levels: seq<string>, client: string, user: string): (r: seq<string>)
    ensures |r| == |levels|
    ensures forall i :: 0 <= i < |r| ==> r[i] == Substitute(levels[i], client, user)
  {
    seq(|levels|, i requires 0 <= i < |levels| => Substitute(levels[i], client, user))
  }

  /** A separator that no placeholder brings in can only come from the pattern. */
  predicate KeepsLevels(p: string, client: string, user: string, c: char) {
    (Pairs(p, 'c') > 0 ==> c !in client) && (Pairs(p, 'u') > 0 ==> c !in user)
  }

  lemma {:induction false} SubstituteHead(x: string, y: string, client: string, user: string)
    requires y == "" || (y[0] != 'c' && y[0] != 'u')
    ensures Substitute(x + y, client, user) == Substitute(x, client, user) + Substitute(y, client, user)
    decreases |x|
  {
    if x == "" {
      assert x + y == y;
    } else if |x| == 1 {
      if y == "" {
        assert x + y == x;
      } else {
        assert (x + y)[1..] == y;
      }
    } else if x[0] == '%' && (x[1] == 'c' || x[1] == 'u') {
      assert (x + y)[2..] == x[2..] + y;
      SubstituteHead(x[2..], y, client, user);
      Associative(if x[1] == 'c' then client else user, Substitute(x[2..], client, user), Substitute(y, client, user));
    } else {
      assert (x + y)[1..] == x[1..] + y;
      SubstituteHead(x[1..], y, client, user);
      Associative([x[0]], Substitute(x[1..], client, user), Substitute(y, client, user));
    }
  }

  lemma {:induction false} SubstituteFree(p: string, client: string, user: string, c: char)
    requires c !in p && KeepsLevels(p, client, user, c)
    ensures c !in Substitute(p, client, user)
    decreases |p|
  {
    if |p| >= 2 {
      if p[0] == '%' && p[1] == 'c' {
        PairsSkip(p, 'c');
        SkipPair(p, 'u');
        SubstituteFree(p[2..], client, user, c);
      } else if p[0] == '%' && p[1] == 'u' {
        PairsSkip(p, 'u');
        SkipPair(p, 'c');
        SubstituteFree(p[2..], client, user, c);
      } else {
        SubstituteFree(p[1..], client, user, c);
      }
    }
  }

  /** The text up to the first separator, and the rest behind it. */
  lemma {:induction false} Cut(p: string, c: char) returns (head: string, tail: string)
    requires c in p
    ensures p == head + [c] + tail && c !in head
  {
    if p[0] == c {
      head, tail := "", p[1..];
    } else {
      head, tail := Cut(p[1..], c);
      assert p == [p[0]] + (head + [c] + tail);
      head := [p[0]] + head;
    }
  }

  /** Substituting and then splitting is splitting and then substituting level by level. */
  lemma {:induction false} SplitCommutes(p: string, client: string, user: string)
    requires KeepsLevels(p, client, user, '/')
    ensures Split(Substitute(p, client, user), '/') == SubstituteAll(Split(p, '/'), client, user)
    decreases |p|
  {
    if '/' !in p {
      SubstituteFree(p, client, user, '/');
      SplitPlain(p, '/');
      SplitPlain(Substitute(p, client, user), '/');
    } else {
      var head, tail := Cut(p, '/');
      CutKeeps(head, tail, client, user);
      SubstituteFree(head, client, user, '/');
      SplitCommutes(tail, client, user);
      SubstituteSlash(head, tail, client, user);
      SplitAt(head, '/', tail);
      SplitAt(Substitute(head, client, user), '/', Substitute(tail, client, user));
    }
  }

  lemma SubstituteSlash(head: string, tail: string, client: string, user: string)
    ensures Substitute(head + ['/'] + tail, client, user)
            == Substitute(head, client, user) + ['/'] + Substitute(tail, client, user)
  {
    assert head + ['/'] + tail == head + (['/'] + tail);
    SubstituteHead(head, ['/'] + tail, client, user);
    assert (['/'] + tail)[1..] == tail;
    if tail == "" {
      assert ['/'] + tail == ['/'];
    }
    assert Substitute(['/'] + tail, client, user) == ['/'] + Substitute(tail, client, user);
    Associative(Substitute(head, client, user), ['/'], Substitute(tail, client, user));
  }

  lemma CutKeeps(head: string, tail: string, client: string, user: string)
    requires KeepsLevels(head + ['/'] + tail, client, user, '/')
    ensures KeepsLevels(head, client, user, '/') && KeepsLevels(tail, client, user, '/')
  {
    PairsConcat(head + ['/'], tail, 'c');
    PairsConcat(head, ['/'], 'c');
    PairsConcat(head + ['/'], tail, 'u');
    PairsConcat(head, ['/'], 'u');
  }

  /** Substitution never removes a separator, and adds one for every foreign one it brings in. */
  lemma {:induction false} SeparatorsAdded(p: string, client: string, user: string, c: char)
    requires c != '%' && c != 'c' && c != 'u'
    ensures Count(Substitute(p, client, user), c) >= Count(p, c)
    ensures !KeepsLevels(p, client, user, c) ==> Count(Substitute(p, client, user), c) > Count(p, c)
    decreases |p|
  {
    if |p| >= 2 {
      if p[0] == '%' && (p[1] == 'c' || p[1] == 'u') {
        var sub := if p[1] == 'c' then client else user;
        PairsSkip(p, p[1]);
        SkipPair(p, if p[1] == 'c' then 'u' else 'c');
        SeparatorsAdded(p[2..], client, user, c);
        CountConcat(sub, Substitute(p[2..], client, user), c);
        CountZero(sub, c);
        assert p == p[..2] + p[2..] && p[..2] == ['%', p[1]];
        CountConcat(p[..2], p[2..], c);
        assert Count(p[..2], c) == 0 by {
          CountZero(p[..2], c);
        }
      } else {
        SeparatorsAdded(p[1..], client, user, c);
        CountConcat([p[0]], Substitute(p[1..], client, user), c);
        assert p == [p[0]] + p[1..];
        CountConcat([p[0]], p[1..], c);
      }
    }
  }

  /** Splitting commutes with substitution exactly when no used placeholder brings in a slash. */
  lemma {:induction false} SplitCommutesIff(p: string, client: string, user: string)
    ensures Split(Substitute(p, client, user), '/') == SubstituteAll(Split(p, '/'), client, user)
            <==> KeepsLevels(p, client, user, '/')
  {
    if KeepsLevels(p, client, user, '/') {
      SplitCommutes(p, client, user);
    } else {
      SeparatorsAdded(p, client, user, '/');
      SplitCount(Substitute(p, client, user), '/');
      SplitCount(p, '/');
    }
  }

  /** A pattern that is just a placeholder. */
  lemma LonePlaceholder(p: string, client: string, user: string)
    requires |p| == 2 && p[0] == '%'
    ensures p[1] == 'c' ==> Substitute(p, client, user) == client
    ensures p[1] == 'u' ==> Substitute(p, client, user) == user && Chained(p, client, user) == user
  {
    assert p[2..] == "";
    assert client + "" == client && user + "" == user;
    if p[1] == 'u' {
      ReplaceOther(p, client);
      assert Replace(p[2..], 'c', client) == "";
      assert Replace(p, 'c', client) == p;
      assert Replace(p, 'u', user) == user + Replace(p[2..], 'u', user) == user + "";
    }
  }

  /** A client that calls itself "%u" is taken for its username. */
  lemma {:induction false} ClientNamedLikePlaceholder(user: string)
    ensures Chained("%c", "%u", user) == user && Substitute("%c", "%u", user) == "%u"
    ensures Chained("%c", "%u", "x") != Substitute("%c", "%u", "x")
  {
    assert "%c"[2..] == "" && "%u"[2..] == "";
    assert Replace("%c", 'c', "%u") == "%u" + "" == "%u";
    assert Replace("%u", 'u', user) == user + "" == user;
    assert Replace("%u", 'u', "x") == "x" + "" == "x";
    assert Substitute("%c", "%u", user) == "%u" + "" == "%u";
    assert Substitute("%c", "%u", "x") == "%u" + "" == "%u";
  }
}
