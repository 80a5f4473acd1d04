/** The text form of numbers inside index keys: when it sorts as the numbers do. Scaling by powers of
    64 and splitting off digits is exact in binary floating point, so it is exact here; the one sum
    that rounds is a parameter. */
module SortableReals {
  import opened KeyCodec

  // Powers of 64.

  function Pow(n: int): real
    decreases if n < 0 then -n else n
  {
    if n == 0 then 1.0 else if n > 0 then 64.0 * Pow(n - 1) else Pow(n + 1) / 64.0
  }

  lemma PowNext(n: int)
    ensures Pow(n + 1) == 64.0 * Pow(n) && Pow(n) > 0.0
    decreases if n < 0 then -n else n
  {
    if n < 0 {
      PowNext(n + 1);
    } else if n > 0 {
      PowNext(n - 1);
    }
  }

  lemma {:induction false} PowAdd(m: int, n: nat)
    ensures Pow(m + n) == Pow(m) * Pow(n)
  {
    hide Pow;
    if n == 0 {
      PowNothing();
    } else {
      PowAdd(m, n - 1);
      PowNext(m + n - 1);
      PowNext(n - 1);
      Regroup(Pow(m), Pow(n - 1));
    }
  }

  lemma PowNothing()
    ensures Pow(0) == 1.0
  {
  }

  lemma Regroup(a: real, b: real)
    ensures 64.0 * (a * b) == a * (64.0 * b)
  {
  }

  lemma {:induction false} PowGrows(m: int, n: int)
    requires m <= n
    ensures Pow(m) <= Pow(n)
    decreases n - m
  {
    hide Pow;
    if m < n {
      PowGrows(m, n - 1);
      PowNext(n - 1);
    }
  }

  // A number as a fraction and a power of 64.

  const LOW := 1.0 / 128.0
  const HIGH := 1.0 / 2.0

  /** The fraction is from 1/128 up to 1/2, unless the exponent is at the end of its range. */
  ghost predicate Normal(r: real, x: real, e: int) {
    r == x * Pow(e) && 0.0 <= x && -1024 <= e <= 1023 && (x < LOW ==> e == -1024) && (x >= HIGH ==> e == 1023)
  }

  /** Larger numbers have larger exponents, or the same and larger fractions. */
  lemma NormalOrder(r: real, x: real, e: int, q: real, y: real, f: int)
    requires Normal(r, x, e) && Normal(q, y, f)
    ensures r < q <==> e < f || (e == f && x < y)
  {
    hide Pow;
    PowNext(e);
    PowNext(f);
    if e < f {
      Separated(r, x, e, q, y, f);
    } else if f < e {
      Separated(q, y, f, r, x, e);
    } else {
      Times(x, y, Pow(e));
    }
  }

  lemma Bounds(a: real, x: real, p: real)
    requires a == x * p && p > 0.0
    ensures (x < HIGH ==> a < p / 2.0) && (x >= LOW ==> a >= p / 128.0)
  {
    assert x < HIGH ==> a < p / 2.0 by {
      if x < HIGH { Scales(x, 1.0 / 2.0, p); }
    }
    assert x >= LOW ==> a >= p / 128.0 by {
      if x >= LOW { Scales(1.0 / 128.0, x, p); }
    }
  }

  lemma Scales(x: real, y: real, p: real)
    requires x <= y && p > 0.0
    ensures x * p <= y * p && (x < y ==> x * p < y * p)
  {
    if x < y { Times(x, y, p); }
  }

  lemma Separated(r: real, x: real, e: int, q: real, y: real, f: int)
    requires Normal(r, x, e) && Normal(q, y, f) && e < f
    ensures r < q
  {
    hide Pow;
    PowNext(e);
    PowNext(f);
    PowGrows(e + 1, f);
    Bounds(r, x, Pow(e));
    Bounds(q, y, Pow(f));
  }

  lemma Times(x: real, y: real, p: real)
    requires p > 0.0
    ensures x < y <==> x * p < y * p
  {
    if x < y { assert (y - x) * p > 0.0; }
    if x > y { assert (x - y) * p > 0.0; }
  }

  lemma NormalUnique(r: real, x: real, e: int, y: real, f: int)
    requires Normal(r, x, e) && Normal(r, y, f)
    ensures x == y && e == f
  {
    NormalOrder(r, x, e, r, y, f);
    NormalOrder(r, y, f, r, x, e);
  }

  function Down(x: real, e: int): (real, int)
    decreases e + 1024
  {
    if x < LOW && e > -1024 then Down(64.0 * x, e - 1) else (x, e)
  }

  function Up(x: real, e: int): (real, int)
    decreases 1023 - e
  {
    if x >= HIGH && e < 1023 then Up(x / 64.0, e + 1) else (x, e)
  }

  function Parts(r: real): (real, int)
    requires r >= 0.0
  {
    if r < LOW then Down(r, 0) else Up(r, 0)
  }

  lemma {:induction false} DownNormal(r: real, x: real, e: int)
    requires r == x * Pow(e) && 0.0 <= x < HIGH && -1024 <= e <= 1023
    ensures Normal(r, Down(x, e).0, Down(x, e).1)
    decreases e + 1024
  {
    if x < LOW && e > -1024 {
      PowNext(e - 1);
      Regroup(x, Pow(e - 1));
      DownNormal(r, 64.0 * x, e - 1);
    }
  }

  lemma {:induction false} UpNormal(r: real, x: real, e: int)
    requires r == x * Pow(e) && LOW <= x && -1024 <= e <= 1023
    ensures Normal(r, Up(x, e).0, Up(x, e).1)
    decreases 1023 - e
  {
    if x >= HIGH && e < 1023 {
      PowNext(e);
      Regroup(x / 64.0, Pow(e));
      UpNormal(r, x / 64.0, e + 1);
    }
  }

  lemma PartsNormal(r: real)
    requires r >= 0.0
    ensures Normal(r, Parts(r).0, Parts(r).1)
  {
    hide Down, Up;
    if r < LOW { DownNormal(r, r, 0); } else { UpNormal(r, r, 0); }
  }

  // The digits.

  /** `n` characters in a row. */
  function Span(c: char, n: nat): string
    requires c as int + n < 128
  {
    seq(n, i requires 0 <= i < n => (c as int + i) as char)
  }

  const DIGITS := Span('0', 10) + Span('A', 26) + Span('a', 26) + "|~"

  /** The characters of the digits rise. */
  lemma DigitNext(d: nat)
    requires d < 63
    ensures '0' <= DIGITS[d] < DIGITS[d + 1] <= '~'
  {
  }

  lemma {:induction false} DigitsRise(d: nat, k: nat)
    requires d < k < 64
    ensures '0' <= DIGITS[d] < DIGITS[k] <= '~'
  {
    hide *;
    DigitNext(k - 1);
    if d < k - 1 { DigitsRise(d, k - 1); }
  }

  lemma DigitRange(d: nat)
    requires d < 64
    ensures '0' <= DIGITS[d] <= '~'
  {
    hide *;
    if d < 63 { DigitNext(d); } else { DigitNext(62); }
  }

  function Digit(d: nat): (b: Byte)
    requires d < 64
    ensures 48 <= b <= 126
  {
    DigitRange(d);
    DIGITS[d] as int
  }

  lemma DigitOrder(d: nat, k: nat)
    requires d < 64 && k < 64
    ensures Digit(d) < Digit(k) <==> d < k
  {
    hide DIGITS;
    if d < k { DigitsRise(d, k); }
    if k < d { DigitsRise(k, d); }
  }

  /** At most `n` digits of a fraction, none of them once the rest is zero. */
  function Mantissa(x: real, n: nat): (z: Bytes)
    requires x < 1.0
    ensures |z| <= n
    decreases n
  {
    if x > 0.0 && n > 0 then
      var d := (64.0 * x).Floor;
      [Digit(d)] + Mantissa(64.0 * x - d as real, n - 1)
    else []
  }

  lemma {:induction false} MantissaOrder(x: real, y: real, n: nat)
    requires x <= y < 1.0
    ensures Mantissa(x, n) == Mantissa(y, n) || Less(Mantissa(x, n), Mantissa(y, n))
    decreases n
  {
    hide Digit;
    if x > 0.0 && n > 0 {
      var d, k := (64.0 * x).Floor, (64.0 * y).Floor;
      DigitOrder(d, k);
      if d == k {
        MantissaOrder(64.0 * x - d as real, 64.0 * y - k as real, n - 1);
        LessCommon([Digit(d)], Mantissa(64.0 * x - d as real, n - 1), Mantissa(64.0 * y - k as real, n - 1));
      }
    }
  }

  predicate Whole(v: real) { v.Floor as real == v }

  lemma IsWhole(v: real, k: int)
    requires v == k as real
    ensures Whole(v)
  {
  }

  lemma WholeLess(v: real, i: int)
    requires Whole(v)
    ensures Whole(v - i as real) && Whole(v + i as real)
  {
    hide Whole;
    var k := WholePart(v);
    IsWhole(v - i as real, k - i);
    IsWhole(v + i as real, k + i);
  }

  lemma WholePart(v: real) returns (k: int)
    requires Whole(v)
    ensures v == k as real
  {
    k := v.Floor;
  }

  lemma WholeTimes(v: real, i: int)
    requires Whole(v)
    ensures Whole(v * i as real)
  {
    hide Whole;
    var k := WholePart(v);
    CastTimes(k, i);
    IsWhole(v * i as real, k * i);
  }

  lemma CastTimes(k: int, i: int)
    ensures (k * i) as real == k as real * i as real
  {
  }

  lemma {:induction false} WholePow(n: nat)
    ensures Whole(Pow(n))
  {
    if n > 0 {
      WholePow(n - 1);
      WholeTimes(Pow(n - 1), 64);
    }
  }

  /** If `n` digits are enough for the larger number, the digits differ. */
  lemma {:induction false} MantissaTells(x: real, y: real, n: nat, v: real)
    requires x < y < 1.0 && 0.0 < y && v == y * Pow(n) && Whole(v)
    ensures Less(Mantissa(x, n), Mantissa(y, n))
    decreases n
  {
    hide Digit, Pow, Whole;
    if n == 0 {
      PowNothing();
      var k := WholePart(v);
    } else if x > 0.0 {
      var d, k := (64.0 * x).Floor, (64.0 * y).Floor;
      DigitOrder(d, k);
      if d == k {
        var u := Shifted(y, k, n, v);
        MantissaTells(64.0 * x - d as real, 64.0 * y - k as real, n - 1, u);
        LessCommon([Digit(d)], Mantissa(64.0 * x - d as real, n - 1), Mantissa(64.0 * y - k as real, n - 1));
      }
    }
  }

  lemma Shifted(y: real, k: int, n: nat, v: real) returns (u: real)
    requires n > 0 && v == y * Pow(n) && Whole(v)
    ensures u == (64.0 * y - k as real) * Pow(n - 1) && Whole(u)
  {
    hide Pow, Whole;
    var p := Pow(n - 1);
    PowNext(n - 1);
    WholePow(n - 1);
    WholeTimes(p, k);
    var m := WholePart(p * k as real);
    WholeLess(v, m);
    Spread(y, k as real, p);
    u := v - m as real;
  }

  lemma Spread(y: real, k: real, p: real)
    ensures (64.0 * y - k) * p == y * (64.0 * p) - p * k
  {
  }

  // The text.

  /** The floating-point sum with one half. */
  type Sum = real -> real

  /** Twelve tildes for numbers too large; otherwise two digits of the exponent and ten of the fraction. */
  function Tail(e: int, x: real): Bytes {
    if e < 0 then []
    else if e >= 2048 || x >= 1.0 then seq(12, _ => 126)
    else [Digit(e / 64), Digit(e % 64)] + Mantissa(x, 10)
  }

  function Sortable(add: Sum, r: real): Bytes {
    if r < 0.0 then
      var (x, e) := Parts(-r);
      [45] + Tail(1024 - e, add(-x))
    else
      var (x, e) := Parts(r);
      [48] + Tail(e + 1024, add(x))
  }

  lemma TailOrder(e: int, x: real, f: int, y: real)
    requires 0 <= e < 2048 && x < 1.0 && 0 <= f < 2048 && y < 1.0 && (e < f || (e == f && x <= y))
    ensures !Less(Tail(f, y), Tail(e, x))
    ensures e < f ==> Less(Tail(e, x), Tail(f, y))
    ensures e == f && Less(Mantissa(x, 10), Mantissa(y, 10)) ==> Less(Tail(e, x), Tail(f, y))
  {
    hide Digit, Mantissa;
    var a, b := [Digit(e / 64), Digit(e % 64)], [Digit(f / 64), Digit(f % 64)];
    LessTotal(Tail(e, x), Tail(f, y));
    if e == f {
      MantissaOrder(x, y, 10);
      LessCommon(a, Mantissa(x, 10), Mantissa(y, 10));
    } else {
      DigitOrder(e / 64, f / 64);
      DigitOrder(e % 64, f % 64);
      var s, t := a[1..] + Mantissa(x, 10), b[1..] + Mantissa(y, 10);
      assert Tail(e, x)[1..] == s && Tail(f, y)[1..] == t;
    }
  }

  lemma TildesLast(e: int, x: real)
    requires 0 <= e < 2048 && x < 1.0
    ensures Less(Tail(e, x), seq(12, _ => 126))
  {
    DigitOrder(e / 64, 63);
    assert DIGITS[63] == '~';
  }

  // IEEE 754 round-half-even.

  function Nearest(v: real): int {
    var rest := v - v.Floor as real;
    if rest < 0.5 || (rest == 0.5 && v.Floor % 2 == 0) then v.Floor else v.Floor + 1
  }

  const TWO53 := 9007199254740992.0

  /** The sum never turns the order around; from one half to one it is the nearest multiple of 2^-53, and
      below one half multiples of 2^-53 are exact. */
  ghost predicate Rounds(add: Sum) {
    && (forall x, y :: x <= y ==> add(x) <= add(y))
    && (forall x :: 0.0 <= x <= HIGH ==> add(x) == Nearest((x + HIGH) * TWO53) as real / TWO53)
    && (forall x :: -HIGH <= x <= 0.0 && Whole(x * TWO53) ==> add(x) == x + HIGH)
  }

  /** Such a sum exists: one that rounds only where the predicate asks for it. */
  lemma SumExists()
    ensures Rounds(x => if x >= 0.0 then Nearest((x + HIGH) * TWO53) as real / TWO53 else x + HIGH)
  {
    hide Nearest;
    var add: Sum := x => if x >= 0.0 then Nearest((x + HIGH) * TWO53) as real / TWO53 else x + HIGH;
    NearestWhole(4503599627370496);
    forall x: real, y: real | x <= y ensures add(x) <= add(y) {
      NearestOrder((x + HIGH) * TWO53, (y + HIGH) * TWO53);
      NearestOrder(HIGH * TWO53, (y + HIGH) * TWO53);
    }
  }

  /** The nearest integer, of two the even one. */
  lemma NearestIs(v: real)
    ensures var k := Nearest(v);
            v - 0.5 <= k as real <= v + 0.5 && (k as real in {v - 0.5, v + 0.5} ==> k % 2 == 0)
  {
  }

  lemma NearestOrder(v: real, w: real)
    ensures v <= w ==> Nearest(v) <= Nearest(w)
  {
  }

  lemma NearestWhole(k: int)
    ensures Nearest(k as real) == k
  {
  }

  /** The sum that rounds up to one. */
  lemma RoundsUp(add: Sum, x: real)
    requires Rounds(add) && 0.0 <= x
    ensures add(x) >= 1.0 <==> x >= HIGH - HIGH / TWO53
  {
    if x <= HIGH {
      var v := (x + HIGH) * TWO53;
      assert add(x) == Nearest(v) as real / TWO53;
      assert v >= TWO53 - HIGH <==> x >= HIGH - HIGH / TWO53;
    } else {
      assert add(HIGH) <= add(x);
    }
  }

  /** A number whose fraction is within 2^-54 of one half is printed like the largest ones. */
  predicate Late(r: real)
    requires r >= 0.0
  {
    Parts(r).0 >= HIGH - HIGH / TWO53
  }

  /** Two numbers are out of order exactly if the smaller is such a number and the larger is not. */
  lemma OutOfOrder(add: Sum, r: real, q: real)
    requires Rounds(add) && r < q
    ensures Less(Sortable(add, q), Sortable(add, r)) <==> r >= 0.0 && Late(r) && !Late(q)
  {
    hide Parts, Less, Tail, Rounds;
    if r >= 0.0 {
      PositiveOrder(add, r, q);
    } else if q >= 0.0 {
      SignDecides(add, r, q);
      LessTotal(Sortable(add, r), Sortable(add, q));
    } else {
      NegativeOrder(add, r, q);
    }
  }

  lemma SignDecides(add: Sum, r: real, q: real)
    requires r < 0.0 <= q
    ensures Less(Sortable(add, r), Sortable(add, q))
  {
    hide Parts, Tail;
  }

  lemma PositiveOrder(add: Sum, r: real, q: real)
    requires Rounds(add) && 0.0 <= r < q
    ensures Less(Sortable(add, q), Sortable(add, r)) <==> Late(r) && !Late(q)
  {
    hide Parts, Less, Rounds, Tail;
    var ((x, e), (y, f)) := (Parts(r), Parts(q));
    PartsNormal(r);
    PartsNormal(q);
    NormalOrder(r, x, e, q, y, f);
    RoundsUp(add, x);
    RoundsUp(add, y);
    LessCommon([48], Tail(f + 1024, add(y)), Tail(e + 1024, add(x)));
    if e == f { SumOrder(add, x, y); }
    TailCases(e + 1024, add(x), f + 1024, add(y));
  }

  lemma SumOrder(add: Sum, x: real, y: real)
    requires Rounds(add) && x <= y
    ensures add(x) <= add(y)
  {
  }

  lemma TailCases(e: int, x: real, f: int, y: real)
    requires 0 <= e && 0 <= f && (e < f || (e == f && x <= y))
    ensures Less(Tail(f, y), Tail(e, x)) <==> (e >= 2048 || x >= 1.0) && !(f >= 2048 || y >= 1.0)
  {
    hide Less, Digit, Mantissa;
    var late, later := e >= 2048 || x >= 1.0, f >= 2048 || y >= 1.0;
    LessTotal(Tail(e, x), Tail(f, y));
    if !late && !later {
      TailOrder(e, x, f, y);
    } else if !late {
      TildesLast(e, x);
    } else if !later {
      TildesLast(f, y);
    }
  }

  lemma NegativeOrder(add: Sum, r: real, q: real)
    requires Rounds(add) && r < q < 0.0
    ensures !Less(Sortable(add, q), Sortable(add, r))
  {
    hide Parts, Less, Rounds, Tail;
    var ((x, e), (y, f)) := (Parts(-r), Parts(-q));
    PartsNormal(-r);
    PartsNormal(-q);
    NormalOrder(-q, y, f, -r, x, e);
    LessCommon([45], Tail(1024 - f, add(-y)), Tail(1024 - e, add(-x)));
    SumSmall(add, x);
    SumSmall(add, y);
    if e == f { SumOrder(add, -x, -y); }
    TailCases(1024 - e, add(-x), 1024 - f, add(-y));
  }

  lemma SumSmall(add: Sum, x: real)
    requires Rounds(add) && x >= 0.0
    ensures add(-x) < 1.0
  {
    assert add(-x) <= add(0.0) && Whole(0.0 * TWO53);
  }

  // Numbers that are told apart.

  /** The scaled fraction has at most 53 binary places, and the number is not too small or too large. */
  predicate Exact(r: real) {
    var (x, e) := Parts(if r < 0.0 then -r else r);
    Whole(x * TWO53) && x < HIGH && (x >= LOW || r == 0.0) && (r < 0.0 ==> e > -1024)
  }

  lemma PowTen()
    ensures Pow(10) == 128.0 * TWO53
  {
    assert Pow(2) == 4096.0 && Pow(4) == 16777216.0 && Pow(6) == 68719476736.0 && Pow(8) == 281474976710656.0;
  }

  lemma ExactSum(add: Sum, x: real)
    requires Rounds(add) && -HIGH < x < HIGH && Whole(x * TWO53)
    ensures add(x) == x + HIGH
  {
    if x >= 0.0 {
      WholeLess(x * TWO53, 4503599627370496);
      assert (x + HIGH) * TWO53 == x * TWO53 + 4503599627370496.0;
    }
  }

  lemma EnoughDigits(x: real) returns (v: real)
    requires Whole(x * TWO53)
    ensures v == (x + HIGH) * Pow(10) && Whole(v)
  {
    hide Pow, Whole;
    PowTen();
    WholeTimes(x * TWO53, 128);
    WholeLess(x * TWO53 * 128.0, 576460752303423488);
    v := x * TWO53 * 128.0 + 576460752303423488.0;
  }

  lemma Mirrored(x: real)
    requires Whole(x * TWO53)
    ensures Whole(-x * TWO53)
  {
    WholeTimes(x * TWO53, -1);
    assert x * TWO53 * (-1) as real == -x * TWO53;
  }

  lemma ExactTails(add: Sum, x: real, e: int, y: real, f: int)
    requires Rounds(add) && -HIGH < x < HIGH && -HIGH < y < HIGH && Whole(x * TWO53) && Whole(y * TWO53)
    requires 0 <= e < 2048 && 0 <= f < 2048 && (e < f || (e == f && x < y))
    ensures Less(Tail(e, add(x)), Tail(f, add(y)))
  {
    hide Pow, Whole, Mantissa, Tail, Rounds, Less;
    ExactSum(add, x);
    ExactSum(add, y);
    if e == f {
      var v := EnoughDigits(y);
      MantissaTells(x + HIGH, y + HIGH, 10, v);
    }
    TailOrder(e, add(x), f, add(y));
  }

  /** Different exact numbers have different texts, in the order of the numbers. */
  lemma ExactOrder(add: Sum, r: real, q: real)
    requires Rounds(add) && Exact(r) && Exact(q) && r < q
    ensures Less(Sortable(add, r), Sortable(add, q))
  {
    hide Parts, Less, Tail, Rounds, Whole, Normal;
    var a, b := if r < 0.0 then -r else r, if q < 0.0 then -q else q;
    var ((x, e), (y, f)) := (Parts(a), Parts(b));
    PartsNormal(a);
    PartsNormal(b);
    NormalOrder(a, x, e, b, y, f);
    NormalOrder(b, y, f, a, x, e);
    NormalRange(a, x, e);
    NormalRange(b, y, f);
    if r >= 0.0 {
      ExactTails(add, x, e + 1024, y, f + 1024);
      LessCommon([48], Tail(e + 1024, add(x)), Tail(f + 1024, add(y)));
    } else if q >= 0.0 {
      SignDecides(add, r, q);
    } else {
      Mirrored(x);
      Mirrored(y);
      ExactTails(add, -x, 1024 - e, -y, 1024 - f);
      LessCommon([45], Tail(1024 - e, add(-x)), Tail(1024 - f, add(-y)));
    }
  }

  lemma NormalRange(r: real, x: real, e: int)
    requires Normal(r, x, e)
    ensures -1024 <= e <= 1023 && x >= 0.0
  {
    hide Pow;
  }

  lemma {:induction false} MantissaNulFree(x: real, n: nat)
    requires x < 1.0
    ensures NulFree(Mantissa(x, n))
    decreases n
  {
    if x > 0.0 && n > 0 { MantissaNulFree(64.0 * x - (64.0 * x).Floor as real, n - 1); }
  }

  /** At most thirteen characters, none of them NUL. */
  lemma SortableFits(add: Sum, r: real)
    ensures NulFree(Sortable(add, r)) && |Sortable(add, r)| <= 13
  {
    hide Parts, Mantissa, Digit;
    var (x, e) := Parts(if r < 0.0 then -r else r);
    var y := add(if r < 0.0 then -x else x);
    if y < 1.0 { MantissaNulFree(y, 10); }
  }

  /** Over these numbers the text has what KeyCodec asks of it. */
  lemma SortableIsFaithful(add: Sum)
    requires Rounds(add)
    ensures Codec(r => Sortable(add, r), Exact).Faithful()
  {
    hide Sortable, Exact, Rounds, Less;
    forall r ensures NulFree(Sortable(add, r)) {
      SortableFits(add, r);
    }
    forall r, q | Exact(r) && Exact(q) && r < q ensures Less(Sortable(add, r), Sortable(add, q)) {
      ExactOrder(add, r, q);
    }
  }

  /** All integers below 2^47 in size are such numbers. */
  lemma IntegersExact(i: int)
    requires -0x8000_0000_0000 < i < 0x8000_0000_0000
    ensures Exact(i as real)
  {
    hide Parts, Pow, Whole;
    var a := if i < 0 then -(i as real) else i as real;
    var (x, e) := Parts(a);
    PartsNormal(a);
    PowNext(e);
    if i == 0 {
      ZeroFraction(x, Pow(e));
      IsWhole(x * TWO53, 0);
    } else {
      SmallExponent(a, x, e);
      var k := 8 - e;
      PowAdd(e, k);
      PowEight();
      WholePow(k);
      var m := WholePart(Pow(k));
      Rescaled(x, Pow(e), Pow(k), a);
      CastTimes(if i < 0 then -i else i, m);
      IsWhole(x * TWO53, 32 * ((if i < 0 then -i else i) * m));
    }
  }

  lemma ZeroFraction(x: real, p: real)
    requires x * p == 0.0 && p > 0.0
    ensures x == 0.0
  {
  }

  lemma PowEight()
    ensures Pow(8) == 281474976710656.0 && Pow(9) == 64.0 * Pow(8) && Pow(-1) == 1.0 / 64.0
  {
    assert Pow(2) == 4096.0 && Pow(4) == 16777216.0 && Pow(6) == 68719476736.0;
  }

  lemma SmallExponent(a: real, x: real, e: int)
    requires Normal(a, x, e) && 1.0 <= a < 140737488355328.0
    ensures 0 <= e <= 8 && LOW <= x < HIGH
  {
    hide Pow;
    PowNext(e);
    PowEight();
    Bounds(a, x, Pow(e));
    if e < 0 {
      PowGrows(e, -1);
    } else if e > 8 {
      PowGrows(9, e);
    }
  }

  lemma Rescaled(x: real, p: real, w: real, a: real)
    requires a == x * p && p * w == 281474976710656.0
    ensures x * TWO53 == 32.0 * (a * w)
  {
    assert a * w == x * (p * w);
  }

  // The conversion.

  method Scale(a: real) returns (r: real, exp: int)
    requires a >= 0.0
    ensures (r, exp) == Parts(a)
  {
    hide Pow, Parts;
    r, exp := a, 0;
    PowNothing();
    PowNext(0);
    if r == 0.0 {
      exp := -1024;
      ZeroTimes(Pow(-1024));
    } else if r < LOW {
      r, exp := Raise(a, r, exp, 64);
      r, exp := Raise(a, r, exp, 16);
      r, exp := Raise(a, r, exp, 4);
      r, exp := Raise(a, r, exp, 1);
    } else if r >= HIGH {
      r, exp := Lower(a, r, exp, 64);
      r, exp := Lower(a, r, exp, 16);
      r, exp := Lower(a, r, exp, 4);
      r, exp := Lower(a, r, exp, 1);
    }
    PartsNormal(a);
    NormalUnique(a, r, exp, Parts(a).0, Parts(a).1);
  }

  lemma ZeroTimes(p: real)
    ensures 0.0 * p == 0.0
  {
  }

  /** One of the loops that multiply a small number by a power of 64. */
  method Raise(a: real, r0: real, exp0: int, k: nat) returns (r: real, exp: int)
    requires a == r0 * Pow(exp0) && 0.0 < r0 < HIGH && -1024 <= exp0 <= 0 && 1 <= k <= 64
    ensures a == r * Pow(exp) && 0.0 < r < HIGH && -1024 <= exp <= 0 && (r >= HIGH / Power(k) || exp <= k - 1025)
  {
    hide Pow;
    r, exp := r0, exp0;
    var p := Power(k);
    while r < HIGH / p && exp > k - 1025
      invariant a == r * Pow(exp) && 0.0 < r < HIGH && -1024 <= exp <= 0
      decreases exp + 1024
    {
      PowAdd(exp - k, k);
      Raised(r, p, Pow(exp - k));
      r, exp := r * p, exp - k;
    }
  }

  function Power(k: nat): (p: real)
    ensures p > 0.0
  {
    PowNext(k);
    Pow(k)
  }

  lemma Raised(r: real, p: real, w: real)
    requires p > 0.0 && 0.0 < r < HIGH / p
    ensures r * (w * p) == r * p * w && 0.0 < r * p < HIGH
  {
    Times(r, HIGH / p, p);
    assert HIGH / p * p == HIGH;
    Times(0.0, r, p);
  }

  /** One of the loops that divide a large number by a power of 64. */
  method Lower(a: real, r0: real, exp0: int, k: nat) returns (r: real, exp: int)
    requires a == r0 * Pow(exp0) && LOW <= r0 && 0 <= exp0 <= 1023 && 1 <= k <= 64
    ensures a == r * Pow(exp) && LOW <= r && 0 <= exp <= 1023 && (r < HIGH * Power(k - 1) || exp >= 1024 - k)
  {
    hide Pow;
    r, exp := r0, exp0;
    var p, w := Power(k), Power(k - 1);
    PowNext(k - 1);
    while r >= HIGH * w && exp < 1024 - k
      invariant a == r * Pow(exp) && LOW <= r && 0 <= exp <= 1023
      decreases 1023 - exp
    {
      PowAdd(exp, k);
      Lowered(r, p, Pow(exp));
      r, exp := r * (1.0 / p), exp + k;
    }
  }

  lemma Lowered(r: real, p: real, w: real)
    requires p > 0.0 && r >= LOW * p
    ensures r * (1.0 / p) * (w * p) == r * w && r * (1.0 / p) >= LOW
  {
    var x := r * (1.0 / p);
    assert x * p == r * (1.0 / p * p) == r;
    assert x * (w * p) == x * p * w;
    Times(x, LOW, p);
  }

  /** __str_real_as_sortable: into a buffer of at least fourteen characters, with a NUL behind it. */
  method RealAsSortable(add: Sum, r0: real, z: array<Byte>) returns (n: nat)
    requires z.Length >= 14
    modifies z
    ensures n <= 13 && z[..n] == Sortable(add, r0) && z[n] == 0
  {
    hide Parts, Pow, Tail, Normal;
    var neg := r0 < 0.0;
    var a := if neg then -r0 else r0;
    z[0] := if neg then 45 else 48;
    var r, exp := Scale(a);
    PartsNormal(a);
    NormalRange(a, r, exp);
    if neg {
      exp := -exp;
      r := -r;
    }
    exp := exp + 1024;
    r := add(r);
    n := PutTail(z, exp, r);
    ghost var text := z[..n];
    z[n] := 0;
    assert z[..n] == text;
  }

  method PutTail(z: array<Byte>, exp: int, r: real) returns (n: nat)
    requires z.Length >= 14 && exp >= 0
    modifies z
    ensures n <= 13 && z[..n] == [old(z[0])] + Tail(exp, r)
  {
    hide Mantissa, Digit;
    n := 1;
    if exp >= 2048 || r >= 1.0 {
      for i := 0 to 12
        invariant n == 1 + i && z[..n] == [old(z[0])] + seq(i, _ => 126)
      {
        z[n] := 126;
        n := n + 1;
      }
    } else {
      z[1] := Digit(exp / 64);
      z[2] := Digit(exp % 64);
      assert z[..3] == [old(z[0])] + [Digit(exp / 64), Digit(exp % 64)];
      n := PutDigits(z, r);
    }
  }

  method PutDigits(z: array<Byte>, x: real) returns (n: nat)
    requires z.Length >= 14 && x < 1.0
    modifies z
    ensures n <= 13 && z[..n] == old(z[..3]) + Mantissa(x, 10)
  {
    hide Mantissa, Digit;
    var r, cnt := x, 0;
    n := 3;
    while r > 0.0 && cnt < 10
      invariant cnt <= 10 && n == 3 + cnt && r < 1.0 && z[..n] + Mantissa(r, 10 - cnt) == old(z[..3]) + Mantissa(x, 10)
      decreases 10 - cnt
    {
      MantissaSplit(r, 10 - cnt);
      r := r * 64.0;
      var d := r.Floor;
      z[n] := Digit(d);
      ghost var before := z[..n];
      n := n + 1;
      assert z[..n] == before + [Digit(d)];
      r := r - d as real;
      cnt := cnt + 1;
    }
    MantissaEnds(r, 10 - cnt);
  }

  lemma MantissaSplit(x: real, n: nat)
    requires 0.0 < x < 1.0 && n > 0
    ensures 0 <= (x * 64.0).Floor < 64 && x * 64.0 - (x * 64.0).Floor as real < 1.0
    ensures Mantissa(x, n) == [Digit((x * 64.0).Floor)] + Mantissa(x * 64.0 - (x * 64.0).Floor as real, n - 1)
  {
    hide Digit;
  }

  lemma MantissaEnds(x: real, n: nat)
    requires x < 1.0 && (x <= 0.0 || n == 0)
    ensures Mantissa(x, n) == []
  {
  }

  // Where the order and the difference are lost.

  /** Zero is "000W", one is "0G1X" and minus one "-F~V". */
  lemma SomeTexts(add: Sum)
    requires Rounds(add)
    ensures Sortable(add, 0.0) == [48, 48, 48, 87]
    ensures Sortable(add, 1.0) == [48, 71, 49, 88]
    ensures Sortable(add, -1.0) == [45, 70, 126, 86]
  {
    hide Pow, Parts, Mantissa, Digit, Rounds;
    PowNothing();
    PowNext(0);
    ZeroTimes(Pow(-1024));
    PartsNormal(0.0);
    NormalUnique(0.0, 0.0, -1024, Parts(0.0).0, Parts(0.0).1);
    PartsNormal(1.0);
    NormalUnique(1.0, 1.0 / 64.0, 1, Parts(1.0).0, Parts(1.0).1);
    IsWhole(0.0 * TWO53, 0);
    IsWhole(1.0 / 64.0 * TWO53, 140737488355328);
    IsWhole(-1.0 / 64.0 * TWO53, -140737488355328);
    ExactSum(add, 0.0);
    ExactSum(add, 1.0 / 64.0);
    ExactSum(add, -1.0 / 64.0);
    OneDigit(HIGH, 32);
    OneDigit(1.0 / 64.0 + HIGH, 33);
    OneDigit(-1.0 / 64.0 + HIGH, 31);
    SomeDigits();
  }

  lemma OneDigit(x: real, d: nat)
    requires x == d as real / 64.0 && 0 < d < 64
    ensures Mantissa(x, 10) == [Digit(d)]
  {
    hide Digit;
    assert (64.0 * x).Floor == d;
    MantissaSplit(x, 10);
    MantissaEnds(0.0, 9);
  }

  lemma SomeDigits()
    ensures Digit(0) == 48 && Digit(1) == 49 && Digit(15) == 70 && Digit(16) == 71 && Digit(63) == 126
    ensures Digit(31) == 86 && Digit(32) == 87 && Digit(33) == 88
  {
  }

  /** 32 - 2^-48, the double before 32, has a greater text than 33. */
  lemma GreaterThanLarger(add: Sum)
    requires Rounds(add)
    ensures 31.0 < 32.0 - 1.0 / 281474976710656.0 < 33.0
    ensures Less(Sortable(add, 33.0), Sortable(add, 32.0 - 1.0 / 281474976710656.0))
  {
    hide Pow, Parts, Rounds;
    var r := 32.0 - 1.0 / 281474976710656.0;
    PowNothing();
    PowNext(0);
    PowNext(1);
    PartsNormal(r);
    PartsNormal(33.0);
    NormalUnique(r, r / 64.0, 1, Parts(r).0, Parts(r).1);
    NormalUnique(33.0, 33.0 / 4096.0, 2, Parts(33.0).0, Parts(33.0).1);
    OutOfOrder(add, r, 33.0);
  }

  /** 1 and 1 + 2^-52, the double after 1, have the same text. */
  lemma SameText(add: Sum)
    requires Rounds(add)
    ensures Sortable(add, 1.0) == Sortable(add, 1.0 + 1.0 / 4503599627370496.0)
  {
    hide Pow, Parts, Tail, Rounds;
    var q := 1.0 + 1.0 / 4503599627370496.0;
    PowNothing();
    PowNext(0);
    PartsNormal(1.0);
    PartsNormal(q);
    NormalUnique(1.0, 1.0 / 64.0, 1, Parts(1.0).0, Parts(1.0).1);
    NormalUnique(q, q / 64.0, 1, Parts(q).0, Parts(q).1);
    Merged(add);
  }

  lemma Merged(add: Sum)
    requires Rounds(add)
    ensures add(1.0 / 64.0) == add((1.0 + 1.0 / 4503599627370496.0) / 64.0)
  {
    var v, w := (1.0 / 64.0 + HIGH) * TWO53, ((1.0 + 1.0 / 4503599627370496.0) / 64.0 + HIGH) * TWO53;
    assert v == 4644337115725824.0 && w == v + 1.0 / 32.0;
    assert Nearest(v) == Nearest(w) == 4644337115725824;
  }
}
