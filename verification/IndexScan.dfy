/** Equality scans over an index: which entries the bounded loops visit. */
module IndexScan {
  import opened Values
  import opened KeyCodec

  /** The entries of one index, in key order. */
  datatype Index = Index(c: Codec, columns: nat, entries: seq<IndexKey>) {
    ghost predicate Valid() {
      && c.Faithful()
      && (forall i :: 0 <= i < |entries| ==> |entries[i].fields| == columns && AllClean(c, entries[i].fields))
      && (forall i, j :: 0 <= i < j < |entries| ==> Less(Key(i), Key(j)))
    }

    function Key(i: nat): Bytes requires i < |entries| { EncodeKey(c, entries[i]) }

    /** The key without its record number, as OP_IdxGT and its relatives compare it. */
    function Stem(i: nat): Bytes requires i < |entries| { Key(i)[..|Key(i)| - 4] }
  }

  /** The leading columns of entry `i` are `ws`. */
  predicate Matches(x: Index, ws: seq<Field>, i: nat)
    requires i < |x.entries| && |ws| <= |x.entries[i].fields|
  {
    x.entries[i].fields[..|ws|] == ws
  }

  /** The record numbers of the matching entries before position `n`, in index order. */
  function Found(x: Index, ws: seq<Field>, n: nat): seq<Int32>
    requires n <= |x.entries| && forall i :: 0 <= i < n ==> |ws| <= |x.entries[i].fields|
  {
    if n == 0 then []
    else Found(x, ws, n - 1) + if Matches(x, ws, n - 1) then [x.entries[n - 1].rowid] else []
  }

  function Reversed(s: seq<Int32>): seq<Int32> { if s == [] then [] else Reversed(s[1..]) + [s[0]] }

  // Where an entry lies relative to the search tuple.

  predicate Before(x: Index, ws: seq<Field>, i: nat)
    requires i < |x.entries| && |ws| <= |x.entries[i].fields|
  {
    TupleLess(x.entries[i].fields[..|ws|], ws, false)
  }

  predicate After(x: Index, ws: seq<Field>, i: nat)
    requires i < |x.entries| && |ws| <= |x.entries[i].fields|
  {
    TupleLess(ws, x.entries[i].fields[..|ws|], false)
  }

  lemma Trichotomy(x: Index, ws: seq<Field>, i: nat)
    requires i < |x.entries| && |ws| <= |x.entries[i].fields|
    ensures Matches(x, ws, i) ==> !Before(x, ws, i) && !After(x, ws, i)
    ensures !Matches(x, ws, i) ==> Before(x, ws, i) != After(x, ws, i)
  {
    TupleTotal(ws, x.entries[i].fields[..|ws|], false, false);
    TupleTotal(x.entries[i].fields[..|ws|], ws, false, false);
  }

  lemma {:induction false} FieldsSplit(c: Codec, fs: seq<Field>, n: nat)
    requires n <= |fs|
    ensures EncodeFields(c, fs) == EncodeFields(c, fs[..n]) + EncodeFields(c, fs[n..])
  {
    if n == 0 {
      assert fs[0..] == fs && fs[..0] == [];
    } else {
      hide EncodeField;
      FieldsSplit(c, fs[1..], n - 1);
      assert fs[..n][1..] == fs[1..][..n - 1] && fs[1..][n - 1..] == fs[n..];
      var head, rest := EncodeFields(c, fs[1..][..n - 1]), EncodeFields(c, fs[n..]);
      assert EncodeFields(c, fs) == EncodeField(c, fs[0]) + (head + rest) == EncodeField(c, fs[0]) + head + rest;
    }
  }

  /** IncrKey: the key with its last byte, a NUL, raised by one. */
  function Incremented(k: Bytes): Bytes
    requires k != [] && k[|k| - 1] == 0
  {
    k[..|k| - 1] + [1]
  }

  /** Below the incremented key lie the smaller keys and the extensions of the key. */
  lemma IncrOrder(a: Bytes, k: Bytes)
    requires k != [] && k[|k| - 1] == 0
    ensures Less(a, Incremented(k)) <==> Less(a, k) || k <= a
  {
    var p := k[..|k| - 1];
    assert k == p + [0];
    if k <= a {
      assert a[..|p|] == k[..|p|] == p;
    }
    if p <= a {
      var b := a[|p|..];
      assert a == p + b;
      LessCommon(p, b, [0]);
      LessCommon(p, b, [1]);
      assert k <= a <==> b != [] && b[0] == 0 by {
        if b != [] && b[0] == 0 { assert a[..|k|] == p + [b[0]]; }
        if k <= a { assert a[|p|] == k[|p|]; }
      }
    } else {
      SameUntil(a, p, [0], [1]);
    }
  }

  lemma {:induction false} SameUntil(a: Bytes, p: Bytes, x: Bytes, y: Bytes)
    requires !(p <= a)
    ensures Less(a, p + x) == Less(a, p + y)
  {
    if a != [] && a[0] == p[0] {
      PrefixCons(p[0], p[1..], a[0], a[1..]);
      assert p == [p[0]] + p[1..] && a == [a[0]] + a[1..];
      SameUntil(a[1..], p[1..], x, y);
      assert (p + x)[1..] == p[1..] + x && (p + y)[1..] == p[1..] + y;
    }
  }

  lemma StemIsFields(x: Index, i: nat)
    requires i < |x.entries|
    ensures x.Stem(i) == EncodeFields(x.c, x.entries[i].fields)
  {
    hide EncodeFields;
    assert |RecnoKey(x.entries[i].rowid)| == 4;
  }

  /** Comparing with the search key compares the leading columns, whatever follows them. */
  lemma LeadingOrder(c: Codec, fs: seq<Field>, ws: seq<Field>, tail: Bytes)
    requires c.Faithful() && |ws| <= |fs| && AllClean(c, fs) && AllClean(c, ws)
    ensures Less(EncodeFields(c, fs) + tail, EncodeFields(c, ws)) <==> TupleLess(fs[..|ws|], ws, false)
    ensures EncodeFields(c, ws) <= EncodeFields(c, fs) + tail <==> fs[..|ws|] == ws
  {
    hide EncodeFields, TupleLess, Less, AllClean;
    var n := |ws|;
    var head, rest, k := EncodeFields(c, fs[..n]), EncodeFields(c, fs[n..]), EncodeFields(c, ws);
    FieldsSplit(c, fs, n);
    LeadingClean(c, fs, n);
    FieldsOrder(c, fs[..n], ws, rest + tail, []);
    assert head + rest + tail == head + (rest + tail) && k + [] == k;
    FieldsPrefix(c, ws, fs, tail);
    assert !Less(rest + tail, []) by { NothingBelowEmpty(rest + tail); }
  }

  lemma NothingBelowEmpty(a: Bytes)
    ensures !Less(a, [])
  {
  }

  lemma LeadingClean(c: Codec, fs: seq<Field>, n: nat)
    requires AllClean(c, fs) && n <= |fs|
    ensures AllClean(c, fs[..n]) && AllClean(c, fs[n..])
  {
  }

  /** How an entry compares with the search key. */
  lemma Compared(x: Index, ws: seq<Field>, i: nat)
    requires x.Valid() && i < |x.entries| && |ws| <= x.columns && AllClean(x.c, ws)
    ensures var k := EncodeFields(x.c, ws);
            && (Less(x.Key(i), k) <==> Before(x, ws, i)) && (Less(x.Stem(i), k) <==> Before(x, ws, i))
            && (k <= x.Key(i) <==> Matches(x, ws, i)) && (k <= x.Stem(i) <==> Matches(x, ws, i))
            && (|ws| == x.columns ==> (Less(k, x.Stem(i)) <==> After(x, ws, i)))
  {
    hide EncodeFields, TupleLess, Less, AllClean, Index.Stem;
    var c, fs, k := x.c, x.entries[i].fields, EncodeFields(x.c, ws);
    StemIsFields(x, i);
    LeadingOrder(c, fs, ws, RecnoKey(x.entries[i].rowid));
    LeadingOrder(c, fs, ws, []);
    assert x.Stem(i) + [] == x.Stem(i);
    if |ws| == x.columns {
      LeadingOrder(c, ws, fs, []);
      assert k + [] == k && fs[..|ws|] == fs && ws[..|fs|] == ws;
    }
  }

  lemma {:induction false} EndsWithNul(c: Codec, ws: seq<Field>)
    requires ws != []
    ensures var k := EncodeFields(c, ws); k != [] && k[|k| - 1] == 0
  {
    if |ws| > 1 {
      EndsWithNul(c, ws[1..]);
    } else {
      assert EncodeFields(c, ws[1..]) == [];
    }
  }

  /** The matching entries stand together: those before them first, those after them last. */
  lemma Sorted(x: Index, ws: seq<Field>, i: nat, j: nat)
    requires x.Valid() && i < j < |x.entries| && 0 < |ws| <= x.columns && AllClean(x.c, ws)
    ensures Before(x, ws, j) ==> Before(x, ws, i)
    ensures After(x, ws, i) ==> After(x, ws, j)
  {
    hide EncodeFields, TupleLess, Less, AllClean, Index.Stem, Index.Key;
    var k := EncodeFields(x.c, ws);
    EndsWithNul(x.c, ws);
    Compared(x, ws, i);
    Compared(x, ws, j);
    Trichotomy(x, ws, i);
    Trichotomy(x, ws, j);
    IncrOrder(x.Key(i), k);
    IncrOrder(x.Key(j), k);
    if Less(x.Key(j), k) { LessTransitive(x.Key(i), x.Key(j), k); }
    if Less(x.Key(j), Incremented(k)) { LessTransitive(x.Key(i), x.Key(j), Incremented(k)); }
  }

  /** An entry that stops the scan in one of its forms. */
  lemma Stops(x: Index, ws: seq<Field>, i: nat)
    requires x.Valid() && i < |x.entries| && 0 < |ws| <= x.columns && AllClean(x.c, ws)
    ensures var k := EncodeFields(x.c, ws);
            && k != [] && k[|k| - 1] == 0
            && (|ws| == x.columns ==> (Less(k, x.Stem(i)) <==> After(x, ws, i)))
            && (!Less(x.Stem(i), Incremented(k)) <==> After(x, ws, i))
            && (!Less(x.Key(i), Incremented(k)) <==> After(x, ws, i))
            && (Less(x.Stem(i), k) <==> Before(x, ws, i)) && (Less(x.Key(i), k) <==> Before(x, ws, i))
  {
    hide EncodeFields, TupleLess, Less, AllClean, Index.Stem, Index.Key;
    var k := EncodeFields(x.c, ws);
    EndsWithNul(x.c, ws);
    Compared(x, ws, i);
    Trichotomy(x, ws, i);
    IncrOrder(x.Key(i), k);
    IncrOrder(x.Stem(i), k);
  }

  /** A cursor on an index, or past one of its ends. */
  class IdxCursor {
    const x: Index
    var pos: int

    ghost predicate At()
      reads this
    {
      0 <= pos < |x.entries|
    }

    constructor (x: Index)
      ensures this.x == x
    {
      this.x := x;
      pos := -1;
    }

    /** The storage layer's search: the entry itself, or one of its would-be neighbours. */
    method MoveNear(k: Bytes, preferLess: bool) returns (res: int)
      requires x.Valid()
      modifies this
      ensures res < 0 ==> -1 <= pos < |x.entries| && (pos == -1 ==> x.entries == [])
      ensures res < 0 ==>
                (forall i :: 0 <= i <= pos ==> Less(x.Key(i), k))
                  && (forall i :: pos < i < |x.entries| ==> Less(k, x.Key(i)))
      ensures res == 0 ==> At() && x.Key(pos) == k
      ensures res > 0 ==>
                At() && (forall i :: 0 <= i < pos ==> Less(x.Key(i), k))
                  && (forall i :: pos <= i < |x.entries| ==> Less(k, x.Key(i)))
    {
      hide Less, Index.Key;
      var n := 0;
      while n < |x.entries| && Less(x.Key(n), k)
        invariant 0 <= n <= |x.entries| && forall i :: 0 <= i < n ==> Less(x.Key(i), k)
      {
        n := n + 1;
      }
      if n < |x.entries| && x.Key(n) == k {
        pos := n;
        return 0;
      }
      if n < |x.entries| {
        LessTotal(x.Key(n), k);
        forall i | n < i < |x.entries| ensures Less(k, x.Key(i)) {
          LessTransitive(k, x.Key(n), x.Key(i));
        }
      }
      if n < |x.entries| && (n == 0 || !preferLess) {
        pos := n;
        return 1;
      }
      pos := n - 1;
      res := -1;
    }

    method Next() returns (atEnd: bool)
      requires -1 <= pos < |x.entries|
      modifies this
      ensures pos == old(pos) + 1 && atEnd == (pos == |x.entries|)
    {
      pos := pos + 1;
      atEnd := pos == |x.entries|;
    }

    method Prev() returns (none: bool)
      requires At()
      modifies this
      ensures pos == old(pos) - 1 && none == (pos < 0)
    {
      pos := pos - 1;
      none := pos < 0;
    }

    /** OP_MoveTo: the first entry that is not less than the key. */
    method MoveTo(k: Bytes, preferLess: bool) returns (atEnd: bool)
      requires x.Valid()
      modifies this
      ensures 0 <= pos <= |x.entries| && atEnd == (pos == |x.entries|)
      ensures forall i :: 0 <= i < pos ==> Less(x.Key(i), k)
      ensures forall i :: pos <= i < |x.entries| ==> !Less(x.Key(i), k)
    {
      hide Less, Index.Key;
      var res := MoveNear(k, preferLess);
      atEnd := false;
      if res < 0 {
        atEnd := Next();
      }
      forall i | 0 <= i < |x.entries| ensures Less(x.Key(i), k) ==> !Less(k, x.Key(i)) && x.Key(i) != k {
        LessTotal(x.Key(i), k);
      }
    }

    /** OP_MoveLt: the last entry that is less than the key. */
    method MoveLt(k: Bytes, preferLess: bool) returns (none: bool)
      requires x.Valid()
      modifies this
      ensures -1 <= pos < |x.entries| && none == (pos == -1)
      ensures forall i :: 0 <= i <= pos ==> Less(x.Key(i), k)
      ensures forall i :: pos < i < |x.entries| ==> !Less(x.Key(i), k)
    {
      hide Less, Index.Key;
      var res := MoveNear(k, preferLess);
      if res >= 0 {
        none := Prev();
      } else {
        none := |x.entries| == 0;
      }
      forall i | 0 <= i < |x.entries| ensures Less(x.Key(i), k) ==> !Less(k, x.Key(i)) && x.Key(i) != k {
        LessTotal(x.Key(i), k);
      }
    }

    /** The forward scan: up to the search key for a full key, up to the incremented key otherwise. */
    method ScanForward(ws: seq<Field>, preferLess: bool) returns (visited: seq<Int32>)
      requires x.Valid() && 0 < |ws| <= x.columns && AllClean(x.c, ws)
      modifies this
      ensures visited == if NullField in ws then [] else Found(x, ws, |x.entries|)
    {
      hide Less, Index.Key, Index.Stem, EncodeFields, TupleLess, AllClean, Matches, Before, After;
      visited := [];
      if NullField in ws {
        return;
      }
      var key := EncodeFields(x.c, ws);
      EndsWithNul(x.c, ws);
      var full := |ws| == x.columns;
      var bound := if full then key else Incremented(key);
      var atEnd := MoveTo(key, preferLess);
      forall i | 0 <= i < |x.entries| ensures Less(x.Key(i), key) <==> Before(x, ws, i) {
        Stops(x, ws, i);
      }
      NoneBefore(x, ws, pos);
      while !atEnd
        invariant 0 <= pos <= |x.entries| && atEnd == (pos == |x.entries|)
        invariant visited == Found(x, ws, pos)
        invariant forall i :: pos <= i < |x.entries| ==> !Before(x, ws, i)
        decreases |x.entries| - pos
      {
        Stops(x, ws, pos);
        if if full then Less(bound, x.Stem(pos)) else !Less(x.Stem(pos), bound) {
          NoneAfter(x, ws, pos);
          return;
        }
        Trichotomy(x, ws, pos);
        var isNull := IdxIsNull(x, pos, |ws|);
        NoNullMatch(x, ws, pos);
        if !isNull {
          visited := visited + [x.entries[pos].rowid];
        }
        atEnd := Next();
      }
    }

    /** The reverse scan: down from below the incremented key to the search key. */
    method ScanReverse(ws: seq<Field>, preferLess: bool) returns (visited: seq<Int32>)
      requires x.Valid() && 0 < |ws| <= x.columns && AllClean(x.c, ws)
      modifies this
      ensures visited == if NullField in ws then [] else Reversed(Found(x, ws, |x.entries|))
    {
      hide Less, Index.Key, Index.Stem, EncodeFields, TupleLess, AllClean, Matches, Before, After;
      visited := [];
      if NullField in ws {
        return;
      }
      var key := EncodeFields(x.c, ws);
      EndsWithNul(x.c, ws);
      var none := MoveLt(Incremented(key), preferLess);
      forall i | 0 <= i < |x.entries| ensures !Less(x.Key(i), Incremented(key)) <==> After(x, ws, i) {
        Stops(x, ws, i);
      }
      if pos + 1 < |x.entries| { NoneAfter(x, ws, pos + 1); }
      while !none
        invariant -1 <= pos < |x.entries| && none == (pos == -1)
        invariant visited + Reversed(Found(x, ws, pos + 1)) == Reversed(Found(x, ws, |x.entries|))
        invariant forall i :: 0 <= i <= pos ==> !After(x, ws, i)
        decreases pos
      {
        Stops(x, ws, pos);
        if Less(x.Stem(pos), key) {
          AllBefore(x, ws, pos);
          assert visited + [] == visited;
          return;
        }
        Trichotomy(x, ws, pos);
        var isNull := IdxIsNull(x, pos, |ws|);
        NoNullMatch(x, ws, pos);
        ReversedSnoc(Found(x, ws, pos), x.entries[pos].rowid);
        if !isNull {
          visited := visited + [x.entries[pos].rowid];
        }
        none := Prev();
      }
      assert visited + [] == visited;
    }
  }

  lemma ReversedSnoc(s: seq<Int32>, a: Int32)
    ensures Reversed(s + [a]) == [a] + Reversed(s)
  {
    if s == [] {
      assert ([] + [a])[1..] == [];
    } else {
      ReversedSnoc(s[1..], a);
      assert (s + [a])[1..] == s[1..] + [a];
    }
  }

  lemma {:induction false} NoneBefore(x: Index, ws: seq<Field>, n: nat)
    requires x.Valid() && n <= |x.entries| && |ws| <= x.columns && forall i :: 0 <= i < n ==> Before(x, ws, i)
    ensures Found(x, ws, n) == []
  {
    hide Before, Matches, After;
    if n > 0 {
      Trichotomy(x, ws, n - 1);
      NoneBefore(x, ws, n - 1);
    }
  }

  lemma AllBefore(x: Index, ws: seq<Field>, p: nat)
    requires x.Valid() && p < |x.entries| && 0 < |ws| <= x.columns && AllClean(x.c, ws) && Before(x, ws, p)
    ensures Found(x, ws, p + 1) == []
  {
    hide Before, Matches, After;
    forall i | 0 <= i < p ensures Before(x, ws, i) { Sorted(x, ws, i, p); }
    NoneBefore(x, ws, p + 1);
  }

  lemma NoneAfter(x: Index, ws: seq<Field>, p: nat)
    requires x.Valid() && p < |x.entries| && 0 < |ws| <= x.columns && AllClean(x.c, ws) && After(x, ws, p)
    ensures Found(x, ws, |x.entries|) == Found(x, ws, p)
  {
    NoneAfterTo(x, ws, p, |x.entries|);
  }

  lemma {:induction false} NoneAfterTo(x: Index, ws: seq<Field>, p: nat, n: nat)
    requires x.Valid() && p <= n <= |x.entries| && p < |x.entries| && 0 < |ws| <= x.columns && AllClean(x.c, ws)
             && After(x, ws, p)
    ensures Found(x, ws, n) == Found(x, ws, p)
  {
    hide Before, Matches, After;
    if p < n {
      if p < n - 1 { Sorted(x, ws, p, n - 1); }
      Trichotomy(x, ws, n - 1);
      NoneAfterTo(x, ws, p, n - 1);
    }
  }

  lemma NoNullMatch(x: Index, ws: seq<Field>, i: nat)
    requires x.Valid() && i < |x.entries| && |ws| <= x.columns && NullField !in ws && Matches(x, ws, i)
    ensures NullField !in x.entries[i].fields[..|ws|]
  {
  }

  /** OP_IdxIsNull: walks over the key bytes and tells whether one of the first `n` fields is NULL. */
  method IdxIsNull(x: Index, p: nat, n: nat) returns (isNull: bool)
    requires x.Valid() && p < |x.entries| && n <= x.columns
    ensures isNull == (NullField in x.entries[p].fields[..n])
  {
    hide EncodeFields, Less, AllClean;
    var fs, z := x.entries[p].fields, x.Key(p);
    var k, i := 0, n;
    assert EncodeFields(x.c, fs[..0]) == [] by { NoFields(x.c); }
    while k < |z| && i > 0
      invariant 0 <= i <= n && k == |EncodeFields(x.c, fs[..n - i])| <= |z|
      invariant NullField !in fs[..n - i]
      decreases i
    {
      var f := fs[n - i];
      FieldAt(x, p, n - i);
      if z[k] == 97 {
        assert fs[..n][n - i] == NullField;
        return true;
      }
      ghost var start := k;
      while k < |z| && z[k] != 0
        invariant start <= k <= start + |EncodeField(x.c, f)| - 1
        decreases |z| - k
      {
        k := k + 1;
      }
      k := k + 1;
      assert fs[..n - i + 1] == fs[..n - i] + [f];
      i := i - 1;
    }
    KeyLonger(x, p, n - i);
    isNull := false;
  }

  lemma NoFields(c: Codec)
    ensures EncodeFields(c, []) == []
  {
  }

  lemma KeyLonger(x: Index, p: nat, m: nat)
    requires p < |x.entries| && m <= |x.entries[p].fields|
    ensures |EncodeFields(x.c, x.entries[p].fields[..m])| < |x.Key(p)|
  {
    FieldsSplit(x.c, x.entries[p].fields, m);
  }

  /** Field `m` of a key starts after the fields before it and ends at the next NUL. */
  lemma FieldAt(x: Index, p: nat, m: nat)
    requires x.Valid() && p < |x.entries| && m < x.columns
    ensures var f, fs, z := x.entries[p].fields[m], x.entries[p].fields, x.Key(p);
            var a, n := |EncodeFields(x.c, fs[..m])|, |EncodeField(x.c, f)|;
            && a + n <= |z| && z[a] == Tag(f) && z[a + n - 1] == 0 && (forall j :: a <= j < a + n - 1 ==> z[j] != 0)
            && |EncodeFields(x.c, fs[..m + 1])| == a + n
  {
    hide EncodeFields, Less;
    var c, f, fs, z := x.c, x.entries[p].fields[m], x.entries[p].fields, x.Key(p);
    var head, enc := EncodeFields(c, fs[..m]), EncodeField(c, f);
    FieldsSplit(c, fs, m + 1);
    FieldsSplit(c, fs[..m + 1], m);
    assert fs[..m + 1][..m] == fs[..m] && fs[..m + 1][m..] == [f];
    OneField(c, f);
    assert z == head + enc + (EncodeFields(c, fs[m + 1..]) + RecnoKey(x.entries[p].rowid));
    ContentOrder(c, f, f);
    forall j | |head| <= j < |head| + |enc| ensures z[j] == enc[j - |head|] {
    }
  }

  lemma OneField(c: Codec, f: Field)
    ensures EncodeFields(c, [f]) == EncodeField(c, f)
  {
    assert EncodeFields(c, [f][1..]) == [];
  }
}
