/** substr() and length() over UTF-8: characters start at the octets that do not continue one
    (section 3 of RFC 3629). */
module Utf8Text {
  import opened KeyCodec

  predicate Continues(b: Byte) { 0x80 <= b < 0xc0 }

  /** The character starts before position `i`. */
  function Starts(z: Bytes, i: nat): nat
    requires i <= |z|
  {
    if i == 0 then 0 else Starts(z, i - 1) + if Continues(z[i - 1]) then 0 else 1
  }

  /** Octets that continue a character have the two highest bits 1 and 0. */
  lemma ContinuesIs(b: Byte)
    ensures Continues(b) <==> b / 64 == 2
  {
  }

  /** The position of character start number `k` counted from `i`, or the end. */
  function Position(z: Bytes, i: nat, k: nat): (p: nat)
    requires i <= |z|
    ensures i <= p <= |z|
    decreases |z| - i
  {
    if i == |z| then i
    else if Continues(z[i]) then Position(z, i + 1, k)
    else if k == 0 then i
    else Position(z, i + 1, k - 1)
  }

  /** A position that is a character start, or the end. */
  predicate Boundary(z: Bytes, i: nat) { i <= |z| && (i < |z| ==> !Continues(z[i])) }

  lemma {:induction false} StartsGrow(z: Bytes, i: nat, j: nat)
    requires i <= j <= |z|
    ensures Starts(z, i) <= Starts(z, j)
    ensures i < j && !Continues(z[i]) ==> Starts(z, i) < Starts(z, j)
    decreases j
  {
    if i < j {
      StartsGrow(z, i, j - 1);
    }
  }

  /** A boundary is determined by the number of starts before it. */
  lemma {:induction false} PositionOf(z: Bytes, i: nat, k: nat, p: nat)
    requires i <= p <= |z| && Boundary(z, p) && Starts(z, p) == Starts(z, i) + k
    ensures Position(z, i, k) == p
    decreases |z| - i
  {
    if i < |z| {
      if i == p {
        assert k == 0;
      } else {
        StartsGrow(z, i, p);
        StartsGrow(z, i + 1, p);
        PositionOf(z, i + 1, if Continues(z[i]) then k else k - 1, p);
      }
    }
  }

  lemma {:induction false} PositionStarts(z: Bytes, i: nat, k: nat)
    requires i <= |z|
    ensures var p := Position(z, i, k);
            Boundary(z, p) && Starts(z, p) == if Starts(z, i) + k <= Starts(z, |z|) then Starts(z, i) + k
                                              else Starts(z, |z|)
    decreases |z| - i
  {
    if i < |z| {
      if Continues(z[i]) {
        PositionStarts(z, i + 1, k);
      } else if k > 0 {
        PositionStarts(z, i + 1, k - 1);
      } else {
        StartsGrow(z, i, |z|);
      }
    }
  }

  /** length(). */
  method Length(z: Bytes) returns (len: nat)
    ensures len == Starts(z, |z|)
  {
    len := 0;
    var i := 0;
    while i < |z|
      invariant 0 <= i <= |z| && len == Starts(z, i)
    {
      if !Continues(z[i]) {
        len := len + 1;
      }
      i := i + 1;
    }
  }

  /** The characters substr(z, p1, p2) selects: the first one and the one after the last. */
  function First(len: nat, p1: int): nat {
    if p1 < 0 then (if p1 + len < 0 then 0 else p1 + len) else if p1 > 0 then p1 - 1 else 0
  }

  function Last(len: nat, p1: int, p2: int): int {
    var end := First(len, p1) + p2 + if p1 < 0 && p1 + len < 0 then p1 + len else 0;
    if end > len then len else end
  }

  /** The text from one character start to another. */
  function Slice(z: Bytes, from: nat, to: int): Bytes {
    if to <= from then []
    else
      PositionsOrdered(z, from, to);
      z[Position(z, 0, from)..Position(z, 0, to)]
  }

  lemma PositionsOrdered(z: Bytes, from: nat, to: nat)
    requires from <= to
    ensures Position(z, 0, from) <= Position(z, 0, to)
  {
    PositionMonotone(z, 0, from, to);
  }

  lemma {:induction false} PositionMonotone(z: Bytes, i: nat, from: nat, to: nat)
    requires i <= |z| && from <= to
    ensures Position(z, i, from) <= Position(z, i, to)
    decreases |z| - i
  {
    if i < |z| {
      if Continues(z[i]) {
        PositionMonotone(z, i + 1, from, to);
      } else if from > 0 {
        PositionMonotone(z, i + 1, from - 1, to - 1);
      }
    }
  }

  /** substr(): the loops push their own bounds along while they pass continuation octets. */
  method Substr(z: Bytes, arg1: int, arg2: int) returns (text: Bytes)
    ensures text == Slice(z, First(Starts(z, |z|), arg1), Last(Starts(z, |z|), arg1, arg2))
  {
    var p1, p2 := arg1, arg2;
    var len := Length(z);
    if p1 < 0 {
      p1 := p1 + len;
      if p1 < 0 {
        p2 := p2 + p1;
        p1 := 0;
      }
    } else if p1 > 0 {
      p1 := p1 - 1;
    }
    if p1 + p2 > len {
      p2 := len - p1;
    }
    ghost var from, to := p1, p1 + p2;
    assert from == First(len, arg1) && to == Last(len, arg1, arg2);
    var i := 0;
    while i < p1 && i < |z|
      invariant 0 <= i <= |z| && i <= p1 && p1 == from + i - Starts(z, i)
    {
      if Continues(z[i]) {
        p1 := p1 + 1;
      }
      i := i + 1;
    }
    while i < |z| && Continues(z[i])
      invariant 0 <= i <= |z| && i <= p1 && p1 == from + i - Starts(z, i) && (i < |z| ==> i == p1)
    {
      i := i + 1;
      p1 := p1 + 1;
    }
    ghost var start := i;
    while i < p1 + p2 && i < |z|
      invariant start <= i <= |z| && p2 == to - from + (i - start) - (Starts(z, i) - Starts(z, start))
      invariant i == start || (i <= p1 + p2 && from < to)
    {
      if Continues(z[i]) {
        p2 := p2 + 1;
      }
      i := i + 1;
    }
    while i < |z| && Continues(z[i])
      invariant start <= i <= |z| && p2 == to - from + (i - start) - (Starts(z, i) - Starts(z, start))
      invariant i == start || (i <= p1 + p2 && from < to)
      invariant i < |z| && i > start ==> i == p1 + p2
    {
      i := i + 1;
      p2 := p2 + 1;
    }
    StartsAtMost(z, start, i);
    if p2 <= 0 {
      p2 := 0;
      text := [];
    } else {
      assert from < to && p1 == start && Starts(z, start) == from;
      assert p1 + p2 == to + i - Starts(z, i);
      assert Starts(z, i) == to && i == p1 + p2;
      PositionOf(z, 0, from, start);
      PositionOf(z, 0, to, i);
      text := z[p1..p1 + p2];
    }
  }

  lemma {:induction false} StartsAtMost(z: Bytes, i: nat, j: nat)
    requires i <= j <= |z|
    ensures 0 <= Starts(z, j) - Starts(z, i) <= j - i
    decreases j
  {
    if i < j { StartsAtMost(z, i, j - 1); }
  }

  /** The result has exactly the selected number of characters. */
  lemma SliceLength(z: Bytes, from: nat, to: nat)
    requires from <= to <= Starts(z, |z|)
    ensures Starts(Slice(z, from, to), |Slice(z, from, to)|) == to - from
  {
    PositionStarts(z, 0, from);
    PositionStarts(z, 0, to);
    PositionsOrdered(z, from, to);
    if from < to { StartsOfPart(z, Position(z, 0, from), Position(z, 0, to)); }
  }

  function Least(a: int, b: int): int { if a < b then a else b }

  /** How many characters `substr(z,p,n)` has: up to `n` from the `p`-th on, or the last `-p` of them. */
  lemma SubstrLength(z: Bytes, p1: int, p2: nat)
    ensures var len: int := Starts(z, |z|);
            var text := Slice(z, First(len, p1), Last(len, p1, p2));
            && (1 <= p1 <= len ==> Starts(text, |text|) == Least(p2, len - p1 + 1))
            && (p1 > len ==> text == [])
            && (-len <= p1 < 0 ==> Starts(text, |text|) == Least(p2, -p1))
            && (p1 < -len ==> Starts(text, |text|) == if p2 + p1 + len < 0 then 0 else Least(p2 + p1 + len, len))
  {
    hide Slice;
    var len := Starts(z, |z|);
    var from, to := First(len, p1), Last(len, p1, p2);
    if from <= to { SliceLength(z, from, to); }
    if to <= from { SliceNone(z, from, to); }
  }

  /** And where it begins: at the `p`-th character, or at the last `-p`, or at the first. */
  lemma SubstrSelects(z: Bytes, p1: int, p2: int)
    ensures var len: int := Starts(z, |z|);
            var text := Slice(z, First(len, p1), Last(len, p1, p2));
            && (p1 >= 1 ==> text == Slice(z, p1 - 1, Least(p1 - 1 + p2, len)))
            && (p1 == 0 ==> text == Slice(z, 0, Least(p2, len)))
            && (-len <= p1 < 0 ==> text == Slice(z, len + p1, Least(len + p1 + p2, len)))
            && (p1 < -len ==> text == Slice(z, 0, Least(len + p1 + p2, len)))
  {
    hide Slice;
  }

  lemma SliceNone(z: Bytes, from: nat, to: int)
    requires to <= from
    ensures Slice(z, from, to) == []
  {
  }

  lemma {:induction false} StartsOfPart(z: Bytes, i: nat, j: nat)
    requires i <= j <= |z|
    ensures Starts(z[i..j], j - i) == Starts(z, j) - Starts(z, i)
    decreases j
  {
    if i < j {
      StartsOfPart(z, i, j - 1);
      StartsOfSame(z[i..j], z[i..j - 1], j - 1 - i);
    }
  }

  lemma {:induction false} StartsOfSame(a: Bytes, b: Bytes, n: nat)
    requires n <= |a| && n <= |b| && a[..n] == b[..n]
    ensures Starts(a, n) == Starts(b, n)
  {
    if n > 0 {
      assert a[..n][n - 1] == b[..n][n - 1] && a[..n][..n - 1] == a[..n - 1] && b[..n][..n - 1] == b[..n - 1];
      StartsOfSame(a, b, n - 1);
    }
  }

  /** Cutting a text at a character and putting the parts together again loses nothing. */
  lemma SlicesJoin(z: Bytes, from: nat, mid: nat, to: nat)
    requires from <= mid <= to <= Starts(z, |z|)
    ensures Slice(z, from, mid) + Slice(z, mid, to) == Slice(z, from, to)
  {
    hide Position, Starts;
    PositionsOrdered(z, from, mid);
    PositionsOrdered(z, mid, to);
    Joined(z, Position(z, 0, from), Position(z, 0, mid), Position(z, 0, to));
  }

  lemma Joined(z: Bytes, a: nat, b: nat, c: nat)
    requires a <= b <= c <= |z|
    ensures z[a..b] + z[b..c] == z[a..c]
  {
  }
}
