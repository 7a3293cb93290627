/** Splitting and joining text at a separator character. */
module Text {

  /** The pieces between separators: always at least one, possibly empty. */
  function Split(s: string, c: char): (parts: seq<string>)
    ensures |parts| >= 1
  {
    if s == "" then [""]
    else
      var rest := Split(s[1..], c);
      if s[0] == c then [""] + rest else [[s[0]] + rest[0]] + rest[1..]
  }

  function Join(parts: seq<string>, c: char): string {
    if parts == [] then ""
    else if |parts| == 1 then parts[0]
    else parts[0] + [c] + Join(parts[1..], c)
  }

  predicate Without(parts: seq<string>, c: char) {
    forall i :: 0 <= i < |parts| ==> c !in parts[i]
  }

  lemma {:induction false} SplitWithout(s: string, c: char)
    ensures Without(Split(s, c), c)
  {
    if s != "" {
      SplitWithout(s[1..], c);
      var rest := Split(s[1..], c);
      assert c !in rest[0];
    }
  }

  lemma {:induction false} JoinSplit(s: string, c: char)
    ensures Join(Split(s, c), c) == s
  {
    if s != "" {
      JoinSplit(s[1..], c);
      var parts, rest := Split(s, c), Split(s[1..], c);
      if s[0] == c {
        assert parts[1..] == rest;
      } else if |rest| > 1 {
        assert parts[1..] == rest[1..];
        assert Join(parts, c) == [s[0]] + (rest[0] + [c] + Join(rest[1..], c));
      }
    }
  }

  /** Text without separators in front only lengthens the first piece. */
  lemma {:induction false} SplitPrefix(x: string, y: string, c: char)
    requires c !in x
    ensures Split(x + y, c) == [x + Split(y, c)[0]] + Split(y, c)[1..]
  {
    if x == "" {
      assert x + y == y;
      assert x + Split(y, c)[0] == Split(y, c)[0];
    } else {
      assert (x + y)[1..] == x[1..] + y;
      SplitPrefix(x[1..], y, c);
      var rest := Split(x[1..] + y, c);
      assert rest[0] == x[1..] + Split(y, c)[0] && rest[1..] == Split(y, c)[1..];
      assert [x[0]] + (x[1..] + Split(y, c)[0]) == x + Split(y, c)[0];
    }
  }

  lemma SplitPlain(x: string, c: char)
    requires c !in x
    ensures Split(x, c) == [x]
  {
    SplitPrefix(x, "", c);
    assert x + "" == x;
  }

  lemma SplitAt(x: string, c: char, y: string)
    requires c !in x
    ensures Split(x + [c] + y, c) == [x] + Split(y, c)
  {
    assert x + [c] + y == x + ([c] + y);
    assert ([c] + y)[1..] == y;
    assert Split([c] + y, c) == [""] + Split(y, c);
    SplitPrefix(x, [c] + y, c);
    assert x + "" == x;
  }

  lemma {:induction false} SplitJoin(parts: seq<string>, c: char)
    requires parts != [] && Without(parts, c)
    ensures Split(Join(parts, c), c) == parts
  {
    assert c !in parts[0];
    if |parts| == 1 {
      SplitPlain(parts[0], c);
    } else {
      assert Without(parts[1..], c);
      SplitJoin(parts[1..], c);
      SplitAt(parts[0], c, Join(parts[1..], c));
    }
  }

  /** The number of pieces counts the separators. */
  function Count(s: string, c: char): nat {
    if s == "" then 0 else (if s[0] == c then 1 else 0) + Count(s[1..], c)
  }

  lemma {:induction false} SplitCount(s: string, c: char)
    ensures |Split(s, c)| == Count(s, c) + 1
  {
    if s != "" {
      SplitCount(s[1..], c);
    }
  }

  lemma {:induction false} CountConcat(x: string, y: string, c: char)
    ensures Count(x + y, c) == Count(x, c) + Count(y, c)
  {
    if x == "" {
      assert x + y == y;
    } else {
      assert (x + y)[1..] == x[1..] + y;
      CountConcat(x[1..], y, c);
    }
  }

  lemma {:induction false} CountZero(x: string, c: char)
    ensures Count(x, c) == 0 <==> c !in x
  {
    if x != "" {
      CountZero(x[1..], c);
    }
  }

  lemma Associative<T>(a: seq<T>, b: seq<T>, c: seq<T>)
    ensures a + (b + c) == a + b + c
  {
  }
}
