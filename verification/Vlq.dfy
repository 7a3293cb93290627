/** JavaScript's 32-bit integer operators, over unbounded integers. */
module Int32 {
  const TWO_32 := 0x1_0000_0000
  const TWO_31 := 0x8000_0000

  function ToUint32(x: int): (r: nat)
    ensures r < TWO_32
  {
    x % 0x1_0000_0000
  }

  function ToInt32(x: int): (r: int)
    ensures -TWO_31 <= r < TWO_31
    ensures -TWO_31 <= x < TWO_31 ==> r == x
    ensures TWO_31 <= x < TWO_32 ==> r == x - TWO_32
  {
    var u := x % 0x1_0000_0000;
    if u < 0x8000_0000 then u else u - 0x1_0000_0000
  }

  function Pow2(k: nat): (r: nat)
    ensures r >= 1
  {
    if k == 0 then 1 else 2 * Pow2(k - 1)
  }

  /** x << k */
  function ShiftLeft(x: int, k: nat): int {
    ToInt32(x * Pow2(k % 32))
  }

  /** x >> 1 */
  function HalfSigned(x: int): int {
    ToInt32(x) / 2
  }

  /** x >>> 5 */
  function DropFive(x: int): nat {
    ToUint32(x) / 32
  }
}

/** Base64 variable-length quantities, as source maps write them. */
module Vlq {
  import opened Wrappers
  import opened Int32

  function Letters(first: char, n: nat): string
    requires first as int + n <= 0x7F
  {
    seq(n, i requires 0 <= i < n => (first as int + i) as char)
  }

  /** A-Z, a-z, 0-9, then + and /. */
  const ALPHABET := Letters('A', 26) + Letters('a', 26) + Letters('0', 10) + "+/"

  function EncodeDigit(d: nat): char
    requires d < 64
  {
    ALPHABET[d]
  }

  function DecodeDigit(c: char): int {
    if 'A' <= c <= 'Z' then c as int - 'A' as int
    else if 'a' <= c <= 'z' then c as int - 'a' as int + 26
    else if '0' <= c <= '9' then c as int - '0' as int + 52
    else if c == '+' then 62
    else if c == '/' then 63
    else -1
  }

  /** The digit tables are inverse to each other, and the decoder knows no other characters. */
  lemma {:induction false} DigitRoundTrip(d: nat)
    requires d < 64
    ensures DecodeDigit(EncodeDigit(d)) == d
  {
  }

  lemma {:induction false} DigitCovers(c: char)
    ensures DecodeDigit(c) < 64
    ensures DecodeDigit(c) >= 0 ==> EncodeDigit(DecodeDigit(c)) == c
    ensures DecodeDigit(c) < 0 ==> c !in ALPHABET
  {
    if DecodeDigit(c) >= 0 {
      var d := DecodeDigit(c);
      DigitRoundTrip(d);
    } else if c in ALPHABET {
      var d :| 0 <= d < 64 && ALPHABET[d] == c;
      DigitRoundTrip(d);
    }
  }

  lemma AlphabetAt(d: nat)
    requires d < 64
    ensures EncodeDigit(d) as int ==
      if d < 26 then 'A' as int + d
      else if d < 52 then 'a' as int + d - 26
      else if d < 62 then '0' as int + d - 52
      else if d == 62 then '+' as int else '/' as int
  {
  }

  /** The sign goes into the lowest bit. */
  function ToVlqSigned(n: int): int {
    if n < 0 then 1 + ShiftLeft(-n, 1) else ShiftLeft(n, 1)
  }

  function FromVlqSigned(v: int): int {
    var half := HalfSigned(v);
    if v % 2 == 1 then -half else half
  }

  /** The base-32 digits of `u`, lowest first, each but the last flagged with 32. */
  function Digits(u: nat): (s: string)
    ensures |s| > 0
  {
    if u < 32 then [EncodeDigit(u)] else [EncodeDigit(u % 32 + 32)] + Digits(u / 32)
  }

  function Encoding(n: int): string {
    Digits(ToUint32(ToVlqSigned(n)))
  }

  /** What digits are worth by position: five bits each, the lowest first. */
  function Worth(s: string): int {
    if s == "" then 0 else DecodeDigit(s[0]) % 32 + 32 * Worth(s[1..])
  }

  /** All digits but the last are flagged, and together they are worth the number. */
  lemma {:induction false} DigitsWorth(u: nat, k: nat)
    requires k < |Digits(u)|
    ensures Worth(Digits(u)) == u
    ensures DecodeDigit(Digits(u)[k]) >= 32 <==> k < |Digits(u)| - 1
    ensures |Digits(u)| > 1 ==> DecodeDigit(Digits(u)[|Digits(u)| - 1]) > 0
  {
    hide DecodeDigit, EncodeDigit;
    var s := Digits(u);
    if u < 32 {
      DigitRoundTrip(u);
      assert s[1..] == "";
    } else {
      DigitRoundTrip(u % 32 + 32);
      assert s[1..] == Digits(u / 32);
      DigitsWorth(u / 32, if k == 0 then 0 else k - 1);
      if u / 32 < 32 {
        DigitRoundTrip(u / 32);
      }
    }
  }

  /** A number is written as the digits of twice its absolute value, and one more if negative. */
  lemma {:induction false} EncodingWorth(n: int)
    requires -0x4000_0000 < n < 0x4000_0000
    ensures Worth(Encoding(n)) == if n < 0 then 2 * -n + 1 else 2 * n
  {
    hide Digits, Worth;
    assert Pow2(1) == 2 * Pow2(0) == 2;
    assert ToVlqSigned(n) == if n < 0 then 2 * -n + 1 else 2 * n;
    DigitsWorth(ToUint32(ToVlqSigned(n)), 0);
  }

  method Encode(n: int) returns (text: string)
    ensures text == Encoding(n)
  {
    hide ToUint32, DropFive, Digits, EncodeDigit, ToVlqSigned;
    text := "";
    var vlq := ToVlqSigned(n);
    var more := true;
    while more
      invariant more ==> text + Digits(ToUint32(vlq)) == Encoding(n)
      invariant !more ==> text == Encoding(n)
      decreases more, ToUint32(vlq)
    {
      DigitStep(vlq);
      var digit := vlq % 32;
      vlq := DropFive(vlq);
      if vlq > 0 {
        digit := digit + 32;
        assert text + ([EncodeDigit(digit)] + Digits(vlq)) == text + [EncodeDigit(digit)] + Digits(vlq);
      }
      text := text + [EncodeDigit(digit)];
      more := vlq > 0;
    }
  }

  lemma DigitStep(vlq: int)
    ensures var d, q := vlq % 32, DropFive(vlq);
      && ToUint32(q) == q && (q > 0 ==> q < ToUint32(vlq))
      && Digits(ToUint32(vlq)) == if q > 0 then [EncodeDigit(d + 32)] + Digits(q) else [EncodeDigit(d)]
  {
    assert 0x1_0000_0000 == 32 * 0x800_0000;
    ModMod(vlq);
  }

  lemma ModMod(x: int)
    ensures (x % 0x1_0000_0000) % 32 == x % 32
  {
    var k := x / 0x1_0000_0000;
    assert x == 0x1_0000_0000 * k + x % 0x1_0000_0000;
    assert x == 32 * (0x800_0000 * k) + x % 0x1_0000_0000;
  }

  datatype Decoded = Decoded(value: int, rest: nat)

  /** Reading on from index `i` with the sum `s` so far and the next digit worth 2^shift. */
  function DecodeFrom(text: string, i: nat, s: int, shift: nat): Result<Decoded>
    decreases |text| - i
  {
    if i >= |text| then Error
    else
      var digit := DecodeDigit(text[i]);
      if digit == -1 then Error
      else
        var sum := s + ShiftLeft(digit % 32, shift);
        if digit >= 32 then DecodeFrom(text, i + 1, sum, shift + 5)
        else Ok(Decoded(FromVlqSigned(sum), i + 1))
  }

  method Decode(text: string, start: nat) returns (r: Result<Decoded>)
    ensures r == DecodeFrom(text, start, 0, 0)
  {
    var i: nat, sum, shift := start, 0, 0;
    var continuation := true;
    while continuation
      invariant continuation ==> DecodeFrom(text, start, 0, 0) == DecodeFrom(text, i, sum, shift)
      invariant !continuation ==> DecodeFrom(text, start, 0, 0) == Ok(Decoded(FromVlqSigned(sum), i))
      invariant continuation || i > start
      decreases continuation, |text| - i
    {
      if i >= |text| {
        return Error;
      }
      var digit := DecodeDigit(text[i]);
      i := i + 1;
      if digit == -1 {
        return Error;
      }
      continuation := digit >= 32;
      sum := sum + ShiftLeft(digit % 32, shift);
      shift := shift + 5;
    }
    r := Ok(Decoded(FromVlqSigned(sum), i));
  }

  lemma WrapSum(a: nat, b: nat, unit: nat)
    requires b < unit <= TWO_31 && a + b < TWO_32
    requires a <= TWO_31 - unit || a >= TWO_31
    ensures ToInt32(a + b) == ToInt32(b) + ToInt32(a)
  {
  }

  lemma Powers()
    ensures Pow2(0) == 1 && Pow2(1) == 2 && Pow2(5) == 0x20 && Pow2(10) == 0x400 && Pow2(15) == 0x8000
    ensures Pow2(20) == 0x10_0000 && Pow2(25) == 0x200_0000 && Pow2(30) == 0x4000_0000
  {
    assert Pow2(5) == 32;
    assert Pow2(10) == 1024;
  }

  lemma MulSplit(u: nat, q: nat, d: nat, p: nat, unit: nat)
    requires u == 32 * q + d && d < 32 && p > 0 && unit == 32 * p
    ensures u * p == q * unit + d * p && d * p < unit
  {
    assert u * p == (32 * q) * p + d * p;
    assert (32 * q) * p == q * unit;
    assert d * p <= 31 * p;
  }

  lemma MulStep(q: nat, k: nat, unit: nat)
    ensures q < k ==> q * unit <= k * unit - unit
    ensures q >= k ==> q * unit >= k * unit
  {
    if q < k {
      assert q * unit <= (k - 1) * unit == k * unit - unit;
    }
  }

  /** What remains of 2^31 when a digit worth 2^shift is split off. */
  function Room(shift: nat): nat {
    if shift == 0 then 0x400_0000
    else if shift == 5 then 0x20_0000
    else if shift == 10 then 0x1_0000
    else if shift == 15 then 0x800
    else if shift == 20 then 0x40
    else 2
  }

  lemma RoomFits(shift: nat)
    requires shift in {0, 5, 10, 15, 20, 25}
    ensures Pow2(shift + 5) == 32 * Pow2(shift) && Room(shift) * Pow2(shift + 5) == TWO_31 && shift % 32 == shift
  {
    Powers();
  }

  /** The value split at a digit: the digit's own part and the rest, which the wrap does not cut. */
  lemma SplitValue(u: nat, shift: nat) returns (rest: nat, part: nat, unit: nat)
    requires shift in {0, 5, 10, 15, 20, 25}
    ensures rest == (u / 32) * Pow2(shift + 5) && part == (u % 32) * Pow2(shift) && unit == Pow2(shift + 5)
    ensures u * Pow2(shift) == rest + part && part < unit <= TWO_31
    ensures rest <= TWO_31 - unit || rest >= TWO_31
  {
    hide Pow2, Room;
    RoomFits(shift);
    var p, room := Pow2(shift), Room(shift);
    unit := Pow2(shift + 5);
    rest, part := (u / 32) * unit, (u % 32) * p;
    MulSplit(u, u / 32, u % 32, p, unit);
    MulStep(u / 32, room, unit);
    MulStep(0, room, unit);
  }

  /** Splitting off the lowest base-32 digit commutes with the wrap-around to 32 bits. */
  lemma WrapSplit(u: nat, shift: nat)
    requires shift in {0, 5, 10, 15, 20, 25} && u * Pow2(shift) < TWO_32
    ensures (u / 32) * Pow2(shift + 5) < TWO_32
    ensures ToInt32(u * Pow2(shift)) == ShiftLeft(u % 32, shift) + ToInt32((u / 32) * Pow2(shift + 5))
  {
    hide ToInt32, Pow2, ShiftLeft;
    var rest, part, unit := SplitValue(u, shift);
    WrapSum(rest, part, unit);
    ShiftWraps(u % 32, shift);
  }

  /** Past the first six digits nothing larger than 3 can follow. */
  lemma LastDigit(u: nat, shift: nat)
    requires shift in {0, 5, 10, 15, 20, 25, 30} && u * Pow2(shift) < TWO_32 && u >= 32
    ensures shift in {0, 5, 10, 15, 20, 25}
  {
    Powers();
  }

  lemma ShiftWraps(d: nat, shift: nat)
    requires shift < 32
    ensures ShiftLeft(d, shift) == ToInt32(d * Pow2(shift))
  {
    hide ToInt32, Pow2;
    assert shift % 32 == shift;
  }

  lemma ReadMore(text: string, i: nat, s: int, shift: nat, d: nat)
    requires i < |text| && d < 32 && text[i] == EncodeDigit(d + 32)
    ensures DecodeFrom(text, i, s, shift) == DecodeFrom(text, i + 1, s + ShiftLeft(d, shift), shift + 5)
  {
    hide EncodeDigit, DecodeDigit, ShiftLeft, FromVlqSigned;
    DigitRoundTrip(d + 32);
  }

  lemma ReadLast(text: string, i: nat, s: int, shift: nat, d: nat)
    requires i < |text| && d < 32 && text[i] == EncodeDigit(d)
    ensures DecodeFrom(text, i, s, shift) == Ok(Decoded(FromVlqSigned(s + ShiftLeft(d, shift)), i + 1))
  {
    hide EncodeDigit, DecodeDigit, ShiftLeft, FromVlqSigned;
    DigitRoundTrip(d);
  }

  /** Reading the digits of `u` adds its 32-bit value to the sum and stops right behind them. */
  lemma {:induction false} DecodeDigits(pre: string, u: nat, post: string, s: int, shift: nat)
    requires shift in {0, 5, 10, 15, 20, 25, 30} && u * Pow2(shift) < TWO_32
    ensures DecodeFrom(pre + Digits(u) + post, |pre|, s, shift)
            == Ok(Decoded(FromVlqSigned(s + ToInt32(u * Pow2(shift))), |pre| + |Digits(u)|))
    decreases u
  {
    hide ToInt32, Pow2, FromVlqSigned, EncodeDigit, DecodeFrom, ShiftLeft;
    var text := pre + Digits(u) + post;
    if u < 32 {
      ReadLast(text, |pre|, s, shift, u);
      ShiftWraps(u, shift);
    } else {
      var q, d := u / 32, u % 32;
      var head := [EncodeDigit(d + 32)];
      ReadMore(text, |pre|, s, shift, d);
      LastDigit(u, shift);
      WrapSplit(u, shift);
      assert (pre + head) + Digits(q) + post == text;
      DecodeDigits(pre + head, q, post, s + ShiftLeft(d, shift), shift + 5);
    }
  }

  /** For every integer, decoding its encoding halves and signs the 32-bit value again. */
  lemma {:induction false} DecodeEncoding(pre: string, n: int, post: string)
    ensures DecodeFrom(pre + Encoding(n) + post, |pre|, 0, 0)
            == Ok(Decoded(FromVlqSigned(ToInt32(ToVlqSigned(n))), |pre| + |Encoding(n)|))
  {
    hide Digits, DecodeFrom, ToVlqSigned, FromVlqSigned;
    var v := ToVlqSigned(n);
    DecodeDigits(pre, ToUint32(v), post, 0, 0);
    assert ToInt32(ToUint32(v) * Pow2(0)) == ToInt32(v);
  }

  /** An integer survives encoding and decoding exactly when it lies strictly between
      -2^30 and 2^30; then the cursor stops right behind its digits. */
  lemma {:induction false} RoundTripIff(pre: string, n: int, post: string)
    ensures DecodeFrom(pre + Encoding(n) + post, |pre|, 0, 0) == Ok(Decoded(n, |pre| + |Encoding(n)|))
            <==> -0x4000_0000 < n < 0x4000_0000
  {
    DecodeEncoding(pre, n, post);
    hide DecodeFrom, Digits;
    SignedRoundTrip(n);
  }

  lemma SignedRoundTrip(n: int)
    ensures FromVlqSigned(ToInt32(ToVlqSigned(n))) == n <==> -0x4000_0000 < n < 0x4000_0000
  {
    var a := if n < 0 then -n else n;
    assert Pow2(1) == 2;
    var e := ShiftLeft(a, 1);
    assert e == ToInt32(2 * a);
    EvenWrap(a);
  }

  lemma EvenWrap(a: nat)
    ensures ToInt32(2 * a) % 2 == 0
    ensures ToInt32(2 * a) == 2 * a <==> a < 0x4000_0000
  {
    var k, r := (2 * a) / 0x1_0000_0000, (2 * a) % 0x1_0000_0000;
    assert 2 * a == 0x1_0000_0000 * k + r;
    assert r == 2 * (a - 0x8000_0000 * k);
    EvenCases(r, a - 0x8000_0000 * k);
  }

  lemma EvenCases(r: int, h: int)
    requires r == 2 * h
    ensures r % 2 == 0 && (r - 0x1_0000_0000) % 2 == 0
  {
  }

  lemma Distribute(p: int, d: int, w: int)
    ensures p * (d + 32 * w) == p * d + (32 * p) * w
  {
  }

  lemma ShiftStep(d: nat, shift: nat)
    requires d < 32 && shift in {0, 5, 10, 15, 20, 25}
    ensures ShiftLeft(d, shift) == Pow2(shift) * d <= 31 * Pow2(shift) && Pow2(shift + 5) == 32 * Pow2(shift)
  {
    hide Pow2;
    Powers();
    FiveMore(shift);
    SmallProduct(Pow2(shift), d);
    assert shift % 32 == shift;
  }

  lemma SmallProduct(p: nat, d: nat)
    requires d < 32 && p <= 0x200_0000
    ensures d * p == p * d && 0 <= p * d <= 31 * p && ToInt32(p * d) == p * d
  {
  }

  /** Reading any digits, not only written ones, adds up what they are worth by position. */
  lemma {:induction false} ReadsWorth(text: string, i: nat, s: nat, shift: nat)
    requires shift in {0, 5, 10, 15, 20, 25} && s < Pow2(shift)
    requires DecodeFrom(text, i, s, shift).Ok? && 5 * (DecodeFrom(text, i, s, shift).value.rest - i) + shift <= 30
    ensures var r := DecodeFrom(text, i, s, shift).value;
      && i < r.rest <= |text|
      && r.value == FromVlqSigned(s + Pow2(shift) * Worth(text[i..r.rest]))
      && (forall k :: i <= k < r.rest ==> (DecodeDigit(text[k]) >= 32 <==> k < r.rest - 1))
    decreases |text| - i
  {
    hide DecodeDigit, Pow2, FromVlqSigned, ShiftLeft;
    var r := DecodeFrom(text, i, s, shift).value;
    var digit := DecodeDigit(text[i]);
    DigitCovers(text[i]);
    ShiftStep(digit % 32, shift);
    var sum := s + ShiftLeft(digit % 32, shift);
    if digit >= 32 {
      DecodeAdvances(text, i + 1, sum, shift + 5);
      ReadsWorth(text, i + 1, sum, shift + 5);
    }
    var part := text[i..r.rest];
    assert part[1..] == text[i + 1..r.rest];
    if digit < 32 {
      assert part[1..] == "";
    }
    Distribute(Pow2(shift), digit % 32, Worth(text[i + 1..r.rest]));
  }

  /** Every text: up to six digits are read as half their worth, negative if the worth is odd. */
  lemma {:induction false} DecodeReads(text: string, start: nat)
    requires DecodeFrom(text, start, 0, 0).Ok? && DecodeFrom(text, start, 0, 0).value.rest - start <= 6
    ensures var r := DecodeFrom(text, start, 0, 0).value;
      start < r.rest <= |text| && var w := Worth(text[start..r.rest]);
      0 <= w < 0x4000_0000 && r.value == if w % 2 == 1 then -(w / 2) else w / 2
  {
    hide DecodeFrom, Worth;
    Powers();
    ReadsWorth(text, start, 0, 0);
    var r := DecodeFrom(text, start, 0, 0).value;
    WorthBound(text[start..r.rest]);
    WorthOfSix(|text[start..r.rest]|);
  }

  lemma {:induction false} WorthBound(s: string)
    ensures 0 <= Worth(s) < Pow2(5 * |s|)
  {
    hide DecodeDigit;
    if s != "" {
      WorthBound(s[1..]);
      var p := Pow2(5 * |s[1..]|);
      assert 5 * |s| == 5 * |s[1..]| + 5;
      FiveMore(5 * |s[1..]|);
    }
  }

  lemma FiveMore(k: nat)
    ensures Pow2(k + 5) == 32 * Pow2(k)
  {
    assert Pow2(k + 5) == 2 * Pow2(k + 4) && Pow2(k + 4) == 2 * Pow2(k + 3) && Pow2(k + 3) == 2 * Pow2(k + 2);
    assert Pow2(k + 2) == 2 * Pow2(k + 1) && Pow2(k + 1) == 2 * Pow2(k);
  }

  lemma WorthOfSix(n: nat)
    requires n <= 6
    ensures Pow2(5 * n) <= 0x4000_0000
  {
    Powers();
  }

  lemma {:induction false} DigitsFit(u: nat, shift: nat, k: nat)
    requires shift in {0, 5, 10, 15, 20, 25, 30} && u * Pow2(shift) < TWO_31 && k < |Digits(u)|
    ensures shift + 5 * k <= 30
    ensures (DecodeDigit(Digits(u)[k]) % 32) * Pow2(shift + 5 * k) < TWO_31
    decreases k
  {
    hide Pow2, EncodeDigit, DecodeDigit;
    if u < 32 {
      DigitRoundTrip(u);
    } else {
      var q, d := u / 32, u % 32;
      DigitRoundTrip(d + 32);
      LastDigit(u, shift);
      RoomFits(shift);
      MulSplit(u, q, d, Pow2(shift), Pow2(shift + 5));
      if k > 0 {
        DigitsFit(q, shift + 5, k - 1);
        assert shift + 5 + 5 * (k - 1) == shift + 5 * k;
      }
    }
  }

  /** In range nothing wraps: the sign-folded number fits 31 bits, there are at most seven
      digits, and each is shifted by at most 30 to its full value. */
  lemma {:induction false} NothingWraps(n: int, k: nat)
    requires -0x4000_0000 < n < 0x4000_0000 && k < |Encoding(n)|
    ensures ToVlqSigned(n) == if n < 0 then 1 - 2 * n else 2 * n
    ensures 0 <= ToVlqSigned(n) < TWO_31 && 5 * k <= 30
    ensures var d := DecodeDigit(Encoding(n)[k]) % 32; ShiftLeft(d, 5 * k) == d * Pow2(5 * k) < TWO_31
  {
    hide ToInt32, Pow2, Digits, DecodeDigit, ToVlqSigned;
    FoldInRange(n);
    DigitsFit(ToVlqSigned(n), 0, k);
    var d := DecodeDigit(Encoding(n)[k]) % 32;
    NotNegative(d, Pow2(5 * k));
    ShiftWraps(d, 5 * k);
  }

  lemma NotNegative(a: nat, b: nat)
    ensures a * b >= 0
  {
  }

  lemma FoldInRange(n: int)
    requires -0x4000_0000 < n < 0x4000_0000
    ensures var v := ToVlqSigned(n);
      v == (if n < 0 then 1 - 2 * n else 2 * n) && 0 <= v < TWO_31 && ToUint32(v) == v && v * Pow2(0) == v
  {
    assert Pow2(1) == 2;
    EvenWrap(if n < 0 then -n else n);
  }

  ghost predicate InRange(xs: seq<int>) {
    forall i :: 0 <= i < |xs| ==> -0x4000_0000 < xs[i] < 0x4000_0000
  }

  function EncodingAll(xs: seq<int>): string {
    if xs == [] then "" else Encoding(xs[0]) + EncodingAll(xs[1..])
  }

  datatype Segment = Segment(values: seq<int>, cursor: nat)

  /** Decoding on from `i` until `end` is reached. */
  function DecodeUntil(text: string, i: nat, end: nat): Result<Segment>
    decreases end - i
  {
    if i >= end then Ok(Segment([], i))
    else
      var r := DecodeFrom(text, i, 0, 0);
      if r.Error? then Error
      else
        DecodeAdvances(text, i, 0, 0);
        var tail := DecodeUntil(text, r.value.rest, end);
        if tail.Error? then Error else Ok(Segment([r.value.value] + tail.value.values, tail.value.cursor))
  }

  lemma {:induction false} DecodeAdvances(text: string, i: nat, s: int, shift: nat)
    ensures DecodeFrom(text, i, s, shift).Ok? ==> i < DecodeFrom(text, i, s, shift).value.rest <= |text|
    decreases |text| - i
  {
    if i < |text| {
      DecodeAdvances(text, i + 1, s + ShiftLeft(DecodeDigit(text[i]) % 32, shift), shift + 5);
    }
  }

  /** The loop over the numbers of one segment of a source map. */
  method DecodeSegment(text: string, start: nat, end: nat) returns (r: Result<Segment>)
    ensures r == DecodeUntil(text, start, end)
  {
    hide DecodeFrom;
    var values: seq<int> := [];
    var cursor := start;
    assert forall t: seq<int> :: [] + t == t;
    while cursor < end
      invariant var tail := DecodeUntil(text, cursor, end);
        DecodeUntil(text, start, end)
        == if tail.Error? then Error else Ok(Segment(values + tail.value.values, tail.value.cursor))
      decreases end - cursor
    {
      var d := Decode(text, cursor);
      DecodeAdvances(text, cursor, 0, 0);
      if d.Error? {
        return Error;
      }
      assert forall t :: values + ([d.value.value] + t) == values + [d.value.value] + t;
      values := values + [d.value.value];
      cursor := d.value.rest;
    }
    assert values + [] == values;
    r := Ok(Segment(values, cursor));
  }

  /** What an integer comes back as. */
  function Wrap(n: int): int {
    FromVlqSigned(ToInt32(ToVlqSigned(n)))
  }

  function WrapAll(xs: seq<int>): (ys: seq<int>)
    ensures |ys| == |xs| && forall i :: 0 <= i < |xs| ==> ys[i] == Wrap(xs[i])
  {
    seq(|xs|, i requires 0 <= i < |xs| => Wrap(xs[i]))
  }

  lemma {:induction false} WrapAllIff(xs: seq<int>)
    ensures WrapAll(xs) == xs <==> InRange(xs)
  {
    hide Wrap;
    forall i | 0 <= i < |xs| ensures Wrap(xs[i]) == xs[i] <==> -0x4000_0000 < xs[i] < 0x4000_0000 {
      WrapIff(xs[i]);
    }
  }

  lemma WrapIff(n: int)
    ensures Wrap(n) == n <==> -0x4000_0000 < n < 0x4000_0000
  {
    SignedRoundTrip(n);
  }

  lemma DecodeOne(pre: string, n: int, post: string)
    ensures DecodeFrom(pre + Encoding(n) + post, |pre|, 0, 0) == Ok(Decoded(Wrap(n), |pre| + |Encoding(n)|))
  {
    DecodeEncoding(pre, n, post);
  }

  /** For every list of integers the segment loop returns each as it comes back and consumes
      exactly the list's text. */
  lemma {:induction false} ListDecode(pre: string, xs: seq<int>, post: string)
    ensures DecodeUntil(pre + EncodingAll(xs) + post, |pre|, |pre| + |EncodingAll(xs)|)
            == Ok(Segment(WrapAll(xs), |pre| + |EncodingAll(xs)|))
    decreases |xs|
  {
    hide Encoding, DecodeFrom, Wrap;
    if xs != [] {
      var rest := EncodingAll(xs[1..]) + post;
      var text := pre + EncodingAll(xs) + post;
      DecodeOne(pre, xs[0], rest);
      assert pre + Encoding(xs[0]) + rest == text;
      ListDecode(pre + Encoding(xs[0]), xs[1..], post);
      assert pre + Encoding(xs[0]) + EncodingAll(xs[1..]) + post == text;
      EncodingNonempty(xs[0]);
      assert [Wrap(xs[0])] + WrapAll(xs[1..]) == WrapAll(xs);
    }
  }

  /** The list itself comes back exactly when every element is in range. */
  lemma {:induction false} ListRoundTripIff(pre: string, xs: seq<int>, post: string)
    ensures (DecodeUntil(pre + EncodingAll(xs) + post, |pre|, |pre| + |EncodingAll(xs)|)
             == Ok(Segment(xs, |pre| + |EncodingAll(xs)|)))
            <==> InRange(xs)
  {
    hide EncodingAll, DecodeUntil, WrapAll;
    ListDecode(pre, xs, post);
    WrapAllIff(xs);
  }

  /** 2^30 comes back as its negative. */
  lemma LargeIsLost()
    ensures Wrap(0x4000_0000) == -0x4000_0000
  {
    hide ToInt32;
    assert Pow2(1) == 2;
    assert ShiftLeft(0x4000_0000, 1) == ToInt32(0x8000_0000) == -0x8000_0000;
    assert HalfSigned(-0x8000_0000) == -0x4000_0000;
  }

  // ----- What written text looks like -----

  lemma {:induction false} SevenDigits(u: nat)
    requires u < TWO_32
    ensures |Digits(u)| <= 7
  {
    var a := u / 32;
    var b := a / 32;
    var c := b / 32;
    var d := c / 32;
    var e := d / 32;
    var f := e / 32;
    assert a < 0x800_0000 && b < 0x40_0000 && c < 0x2_0000 && d < 0x1000 && e < 0x80 && f < 4;
    assert |Digits(f)| == 1;
    assert |Digits(e)| <= 2;
    assert |Digits(d)| <= 3;
    assert |Digits(c)| <= 4;
    assert |Digits(b)| <= 5;
    assert |Digits(a)| <= 6;
  }

  lemma FoldParity(n: int)
    ensures ToUint32(ToVlqSigned(n)) % 2 == if n < 0 then 1 else 0
  {
    hide ToInt32;
    assert Pow2(1) == 2;
    var a := if n < 0 then -n else n;
    EvenWrap(a);
    assert ShiftLeft(a, 1) == ToInt32(2 * a);
    SameParity(ToVlqSigned(n));
  }

  lemma SameParity(v: int)
    ensures ToUint32(v) % 2 == v % 2
  {
    var q := v / 0x1_0000_0000;
    assert v == 0x1_0000_0000 * q + v % 0x1_0000_0000;
    AddEven(0x8000_0000 * q, v % 0x1_0000_0000);
  }

  lemma AddEven(a: int, r: int)
    ensures (2 * a + r) % 2 == r % 2
  {
  }

  lemma FirstDigit(u: nat)
    ensures DecodeDigit(Digits(u)[0]) % 2 == u % 2
  {
    hide DecodeDigit, EncodeDigit;
    DigitRoundTrip(if u < 32 then u else u % 32 + 32);
  }

  /** The sign is the lowest bit of the first digit. */
  lemma {:induction false} FirstDigitSign(n: int)
    ensures DecodeDigit(Encoding(n)[0]) % 2 == if n < 0 then 1 else 0
  {
    hide DecodeDigit, Digits, ToVlqSigned, ToUint32;
    FoldParity(n);
    FirstDigit(ToUint32(ToVlqSigned(n)));
  }

  /** Decoding stops behind the first digit that is not flagged. */
  lemma {:induction false} Span(text: string, i: nat, j: nat, s: int, shift: nat)
    requires i <= j < |text| && forall k :: i <= k < j ==> DecodeDigit(text[k]) >= 32
    requires 0 <= DecodeDigit(text[j]) < 32
    ensures DecodeFrom(text, i, s, shift).Ok? && DecodeFrom(text, i, s, shift).value.rest == j + 1
    decreases j - i
  {
    hide DecodeDigit, ShiftLeft, FromVlqSigned;
    if i < j {
      Span(text, i + 1, j, s + ShiftLeft(DecodeDigit(text[i]) % 32, shift), shift + 5);
    }
  }

  lemma {:induction false} RunsOut(text: string, i: nat, s: int, shift: nat)
    requires forall k :: i <= k < |text| ==> DecodeDigit(text[k]) >= 32
    ensures DecodeFrom(text, i, s, shift) == Error
    decreases |text| - i
  {
    hide DecodeDigit, ShiftLeft, FromVlqSigned;
    if i < |text| {
      RunsOut(text, i + 1, s + ShiftLeft(DecodeDigit(text[i]) % 32, shift), shift + 5);
    }
  }

  lemma ReadDigit(text: string, i: nat, s: int, shift: nat, d: nat, sum: int)
    requires i < |text| && DecodeDigit(text[i]) == d && shift in {0, 5, 10} && sum == s + (d % 32) * Pow2(shift)
    ensures d >= 32 ==> DecodeFrom(text, i, s, shift) == DecodeFrom(text, i + 1, sum, shift + 5)
    ensures d < 32 ==> DecodeFrom(text, i, s, shift) == Ok(Decoded(FromVlqSigned(sum), i + 1))
  {
    hide DecodeDigit, FromVlqSigned, Pow2, ToInt32;
    Powers();
    ShiftWraps(d % 32, shift);
  }

  lemma EncodingNonempty(n: int)
    ensures |Encoding(n)| > 0
  {
  }
}
