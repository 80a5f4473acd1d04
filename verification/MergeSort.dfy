/** OP_Sort: a merge sort of a list through bins of doubling size. */
module MergeSort {

  const NSORT: nat := 30

  datatype Elem = Elem(key: string, data: int)

  /** The comparison of sort keys, taken as given. */
  type Compare = (string, string) -> int

  predicate Le(cmp: Compare, a: Elem, b: Elem) { cmp(a.key, b.key) <= 0 }

  ghost predicate Preorder(cmp: Compare) {
    && (forall a, b :: cmp(a, b) <= 0 || cmp(b, a) <= 0)
    && (forall a, b, c :: cmp(a, b) <= 0 && cmp(b, c) <= 0 ==> cmp(a, c) <= 0)
  }

  predicate Sorted(cmp: Compare, s: seq<Elem>) { forall i, j :: 0 <= i < j < |s| ==> Le(cmp, s[i], s[j]) }

  /** The elements that tie with `x`, in order. */
  function Ties(cmp: Compare, s: seq<Elem>, x: Elem): seq<Elem> {
    if s == [] then []
    else (if Le(cmp, s[0], x) && Le(cmp, x, s[0]) then [s[0]] else []) + Ties(cmp, s[1..], x)
  }

  /** Ties keep their order; together with sortedness this determines the result. */
  ghost predicate SameTies(cmp: Compare, s: seq<Elem>, t: seq<Elem>) { forall x :: Ties(cmp, s, x) == Ties(cmp, t, x) }

  lemma {:induction false} TiesConcat(cmp: Compare, s: seq<Elem>, t: seq<Elem>, x: Elem)
    ensures Ties(cmp, s + t, x) == Ties(cmp, s, x) + Ties(cmp, t, x)
  {
    hide Ties;
    if s == [] {
      TiesNone(cmp, x);
      assert s + t == t;
    } else {
      TiesConcat(cmp, s[1..], t, x);
      TiesHead(cmp, s[0], s[1..] + t, x);
      TiesHead(cmp, s[0], s[1..], x);
      assert s + t == [s[0]] + (s[1..] + t) && s == [s[0]] + s[1..];
    }
  }

  lemma {:induction false} TiesCount(cmp: Compare, s: seq<Elem>, x: Elem)
    requires Preorder(cmp)
    ensures multiset(Ties(cmp, s, x))[x] == multiset(s)[x]
  {
    if s != [] {
      TiesCount(cmp, s[1..], x);
      assert s == [s[0]] + s[1..];
      assert s[0] == x ==> Le(cmp, x, x);
    }
  }

  lemma {:induction false} TiesAre(cmp: Compare, s: seq<Elem>, x: Elem, e: Elem)
    ensures e in Ties(cmp, s, x) <==> e in s && cmp(e.key, x.key) <= 0 && cmp(x.key, e.key) <= 0
  {
    if s != [] {
      TiesAre(cmp, s[1..], x, e);
      assert s == [s[0]] + s[1..];
    }
  }

  /** Keeping the ties is stronger than being a permutation. */
  lemma TiesPermute(cmp: Compare, s: seq<Elem>, t: seq<Elem>)
    requires Preorder(cmp) && SameTies(cmp, s, t)
    ensures multiset(s) == multiset(t)
  {
    forall x ensures multiset(s)[x] == multiset(t)[x] {
      TiesCount(cmp, s, x);
      TiesCount(cmp, t, x);
    }
  }

  /** There is only one sorted list with given ties. */
  lemma {:induction false} StableUnique(cmp: Compare, s: seq<Elem>, t: seq<Elem>)
    requires Preorder(cmp) && Sorted(cmp, s) && Sorted(cmp, t) && SameTies(cmp, s, t)
    ensures s == t
  {
    TiesPermute(cmp, s, t);
    assert |s| == |multiset(s)| == |multiset(t)| == |t|;
    if s != [] {
      HeadTies(cmp, s, t);
      HeadTies(cmp, t, s);
      var x := s[0];
      assert Ties(cmp, s, x)[0] == s[0] by { assert Le(cmp, x, x); }
      assert Ties(cmp, t, x)[0] == t[0];
      forall y ensures Ties(cmp, s[1..], y) == Ties(cmp, t[1..], y) {
        assert Ties(cmp, s, y) == Ties(cmp, t, y);
        assert s == [x] + s[1..] && t == [x] + t[1..];
        TiesConcat(cmp, [x], s[1..], y);
        TiesConcat(cmp, [x], t[1..], y);
        var a := Ties(cmp, [x], y);
        assert Ties(cmp, s[1..], y) == Ties(cmp, s, y)[|a|..] && Ties(cmp, t[1..], y) == Ties(cmp, t, y)[|a|..];
      }
      StableUnique(cmp, s[1..], t[1..]);
    }
  }

  /** The first elements of two such lists tie. */
  lemma HeadTies(cmp: Compare, s: seq<Elem>, t: seq<Elem>)
    requires Preorder(cmp) && Sorted(cmp, s) && Sorted(cmp, t) && multiset(s) == multiset(t) && s != [] && t != []
    ensures Le(cmp, s[0], t[0])
  {
    assert t[0] in multiset(t);
    var i :| 0 <= i < |s| && s[i] == t[0];
    assert Le(cmp, s[0], s[0]);
  }

  // Merging.

  function Merge(cmp: Compare, l: seq<Elem>, r: seq<Elem>): seq<Elem>
    decreases |l| + |r|
  {
    if l == [] then r
    else if r == [] then l
    else if Le(cmp, l[0], r[0]) then [l[0]] + Merge(cmp, l[1..], r)
    else [r[0]] + Merge(cmp, l, r[1..])
  }

  /** __sorted_merge: on a tie the left element goes first. */
  method SortedMerge(cmp: Compare, left: seq<Elem>, right: seq<Elem>) returns (merged: seq<Elem>)
    ensures merged == Merge(cmp, left, right)
  {
    var l, r := left, right;
    merged := [];
    while l != [] && r != []
      invariant merged + Merge(cmp, l, r) == Merge(cmp, left, right)
      decreases |l| + |r|
    {
      ghost var rest := Merge(cmp, l, r);
      if Le(cmp, l[0], r[0]) {
        merged := merged + [l[0]];
        l := l[1..];
      } else {
        merged := merged + [r[0]];
        r := r[1..];
      }
    }
    if l != [] {
      merged := merged + l;
    } else {
      merged := merged + r;
    }
  }

  lemma {:induction false} MergeTies(cmp: Compare, l: seq<Elem>, r: seq<Elem>, x: Elem)
    requires Preorder(cmp) && Sorted(cmp, l) && Sorted(cmp, r)
    ensures Ties(cmp, Merge(cmp, l, r), x) == Ties(cmp, l, x) + Ties(cmp, r, x)
    decreases |l| + |r|
  {
    hide Ties, Preorder;
    if l == [] || r == [] {
      TiesNone(cmp, x);
    } else if Le(cmp, l[0], r[0]) {
      MergeTies(cmp, l[1..], r, x);
      TiesHead(cmp, l[0], Merge(cmp, l[1..], r), x);
      TiesHead(cmp, l[0], l[1..], x);
      assert l == [l[0]] + l[1..];
    } else {
      MergeTies(cmp, l, r[1..], x);
      TiesHead(cmp, r[0], Merge(cmp, l, r[1..]), x);
      TiesHead(cmp, r[0], r[1..], x);
      assert r == [r[0]] + r[1..];
      if Le(cmp, r[0], x) && Le(cmp, x, r[0]) {
        NoTiesAbove(cmp, l, r[0], x);
      }
    }
  }

  lemma TiesNone(cmp: Compare, x: Elem)
    ensures Ties(cmp, [], x) == []
  {
  }

  lemma TiesHead(cmp: Compare, a: Elem, s: seq<Elem>, x: Elem)
    ensures Ties(cmp, [a] + s, x) == (if Le(cmp, a, x) && Le(cmp, x, a) then [a] else []) + Ties(cmp, s, x)
  {
    assert ([a] + s)[1..] == s;
  }

  lemma NoTiesAbove(cmp: Compare, l: seq<Elem>, e: Elem, x: Elem)
    requires Preorder(cmp) && Sorted(cmp, l) && l != [] && !Le(cmp, l[0], e) && Le(cmp, x, e)
    ensures Ties(cmp, l, x) == []
  {
    forall i | 0 <= i < |l| ensures !Le(cmp, l[i], x) {
      assert Le(cmp, l[0], l[i]) || i == 0;
    }
    NoTies(cmp, l, x);
  }

  lemma {:induction false} NoTies(cmp: Compare, s: seq<Elem>, x: Elem)
    requires forall i :: 0 <= i < |s| ==> !Le(cmp, s[i], x)
    ensures Ties(cmp, s, x) == []
  {
    if s != [] { NoTies(cmp, s[1..], x); }
  }

  lemma {:induction false} MergeSorted(cmp: Compare, l: seq<Elem>, r: seq<Elem>)
    requires Preorder(cmp) && Sorted(cmp, l) && Sorted(cmp, r)
    ensures Sorted(cmp, Merge(cmp, l, r)) && |Merge(cmp, l, r)| == |l| + |r|
    ensures forall e :: e in Merge(cmp, l, r) ==> e in l || e in r
    decreases |l| + |r|
  {
    if l == [] || r == [] {
    } else if Le(cmp, l[0], r[0]) {
      MergeSorted(cmp, l[1..], r);
      var m := Merge(cmp, l[1..], r);
      forall i | 0 <= i < |m| ensures Le(cmp, l[0], m[i]) {
        assert m[i] in m;
        if m[i] in r { var j :| 0 <= j < |r| && r[j] == m[i]; assert Le(cmp, r[0], r[j]) || j == 0; }
      }
    } else {
      MergeSorted(cmp, l, r[1..]);
      var m := Merge(cmp, l, r[1..]);
      forall i | 0 <= i < |m| ensures Le(cmp, r[0], m[i]) {
        assert m[i] in m;
        assert Le(cmp, r[0], l[0]);
        if m[i] in l { var j :| 0 <= j < |l| && l[j] == m[i]; assert Le(cmp, l[0], l[j]) || j == 0; }
      }
    }
  }

  // Bins.

  function Pow2(i: nat): nat { if i == 0 then 1 else 2 * Pow2(i - 1) }

  /** Bins from number `i` up, the highest first. */
  function Upper(bins: seq<seq<Elem>>, i: nat): seq<Elem>
    requires i <= |bins|
    decreases |bins| - i
  {
    if i == |bins| then [] else Upper(bins, i + 1) + bins[i]
  }

  /** Every bin is sorted, and every one but the last is empty or holds exactly 2^i elements. */
  ghost predicate BinsOk(cmp: Compare, bins: seq<seq<Elem>>) {
    && |bins| == NSORT
    && (forall i :: 0 <= i < |bins| ==> Sorted(cmp, bins[i]))
    && (forall i :: 0 <= i < |bins| - 1 ==> bins[i] == [] || |bins[i]| == Pow2(i))
  }

  lemma {:induction false} UpperSame(bins: seq<seq<Elem>>, bins': seq<seq<Elem>>, i: nat)
    requires |bins| == |bins'| && i <= |bins| && forall k :: i <= k < |bins| ==> bins[k] == bins'[k]
    ensures Upper(bins, i) == Upper(bins', i)
    decreases |bins| - i
  {
    if i < |bins| { UpperSame(bins, bins', i + 1); }
  }

  lemma {:induction false} UpperSkips(bins: seq<seq<Elem>>, i: nat)
    requires i <= |bins| && forall k :: 0 <= k < i ==> bins[k] == []
    ensures Upper(bins, 0) == Upper(bins, i)
    decreases i
  {
    if i > 0 {
      UpperSkips(bins, i - 1);
      assert Upper(bins, i - 1) == Upper(bins, i) + [];
    }
  }

  /** The elements taken so far, in list order, fall into consecutive parts, older ones in higher bins,
      and each bin holds its part with ties in list order. */
  ghost predicate Holds(cmp: Compare, bins: seq<seq<Elem>>, parts: seq<seq<Elem>>, taken: seq<Elem>) {
    |parts| == |bins| && BinsOk(cmp, bins) && BinsHold(cmp, bins, parts) && Upper(parts, 0) == taken
  }

  ghost predicate BinsHold(cmp: Compare, bins: seq<seq<Elem>>, parts: seq<seq<Elem>>) {
    |parts| == |bins| && forall i :: 0 <= i < |bins| ==> SameTies(cmp, bins[i], parts[i])
  }

  lemma OneSorted(cmp: Compare, e: Elem)
    ensures Sorted(cmp, [e])
  {
  }

  lemma NoneSorted(cmp: Compare)
    ensures Sorted(cmp, [])
  {
  }

  lemma EmptyHolds(cmp: Compare, bins: seq<seq<Elem>>)
    requires |bins| == NSORT && forall i :: 0 <= i < |bins| ==> bins[i] == []
    ensures Holds(cmp, bins, bins, [])
  {
    UpperSkips(bins, NSORT);
  }

  lemma BinIs(cmp: Compare, bins: seq<seq<Elem>>, parts: seq<seq<Elem>>, i: nat)
    requires BinsOk(cmp, bins) && BinsHold(cmp, bins, parts) && i < NSORT
    ensures |bins| == NSORT == |parts| && Sorted(cmp, bins[i])
            && (i < NSORT - 1 ==> bins[i] == [] || |bins[i]| == Pow2(i))
    ensures SameTies(cmp, bins[i], parts[i])
  {
    hide SameTies, Sorted, Pow2;
  }

  lemma BinSet(cmp: Compare, bins: seq<seq<Elem>>, parts: seq<seq<Elem>>, i: nat, bin: seq<Elem>, part: seq<Elem>)
    requires BinsOk(cmp, bins) && BinsHold(cmp, bins, parts) && i < NSORT && SameTies(cmp, bin, part)
    requires (bin == [] || Sorted(cmp, bin)) && (i < NSORT - 1 ==> bin == [] || |bin| == Pow2(i))
    ensures |bins| == |parts| == NSORT && BinsOk(cmp, bins[i := bin]) && BinsHold(cmp, bins[i := bin], parts[i := part])
  {
    hide Pow2, SameTies;
  }

  /** Merging keeps what two bins hold apart, the left part being the older one. */
  lemma MergedTies(cmp: Compare, l: seq<Elem>, r: seq<Elem>, s: seq<Elem>, t: seq<Elem>)
    requires Preorder(cmp) && Sorted(cmp, l) && Sorted(cmp, r) && SameTies(cmp, l, s) && SameTies(cmp, r, t)
    ensures SameTies(cmp, Merge(cmp, l, r), s + t)
  {
    hide Merge, Ties;
    forall x ensures Ties(cmp, Merge(cmp, l, r), x) == Ties(cmp, s + t, x) {
      MergeTies(cmp, l, r, x);
      TiesConcat(cmp, s, t, x);
      assert Ties(cmp, l, x) == Ties(cmp, s, x) && Ties(cmp, r, x) == Ties(cmp, t, x);
    }
  }

  lemma TiesOfNone(cmp: Compare, s: seq<Elem>)
    requires Preorder(cmp) && SameTies(cmp, [], s)
    ensures s == []
  {
    assert s != [] ==> s[0] in multiset(s);
    TiesPermute(cmp, [], s);
  }

  /** Adds one element, carrying full bins upwards. */
  method Carry(cmp: Compare, bins: array<seq<Elem>>, e: Elem, ghost parts: seq<seq<Elem>>, ghost taken: seq<Elem>)
    returns (ghost parts': seq<seq<Elem>>)
    requires Preorder(cmp) && bins.Length == NSORT && Holds(cmp, bins[..], parts, taken)
    modifies bins
    ensures Holds(cmp, bins[..], parts', taken + [e])
  {
    hide Ties, Merge, SameTies, Preorder, Sorted, BinsOk, BinsHold, Upper;
    var pElem, i := [e], 0;
    ghost var part := [e];
    parts' := parts;
    assert Sorted(cmp, pElem) by { OneSorted(cmp, e); }
    SelfTies(cmp, [e]);
    SelfTies(cmp, []);
    while i < NSORT - 1 && bins[i] != []
      invariant 0 <= i <= NSORT - 1 && |pElem| == Pow2(i) && Sorted(cmp, pElem) && SameTies(cmp, pElem, part)
      invariant BinsOk(cmp, bins[..]) && BinsHold(cmp, bins[..], parts') && |parts'| == NSORT
      invariant forall k :: 0 <= k < i ==> parts'[k] == []
      invariant Upper(parts', i) + part == taken + [e]
    {
      ghost var before, was := bins[..], parts';
      BinIs(cmp, before, was, i);
      var merged := SortedMerge(cmp, bins[i], pElem);
      MergeSorted(cmp, bins[i], pElem);
      MergedTies(cmp, bins[i], pElem, was[i], part);
      pElem := merged;
      bins[i] := [];
      BinSet(cmp, before, was, i, [], []);
      assert bins[..] == before[i := []];
      UpperTaken(was, i, part);
      part, parts' := was[i] + part, was[i := []];
      i := i + 1;
    }
    ghost var before, was := bins[..], parts';
    BinIs(cmp, before, was, i);
    if i < NSORT - 1 {
      TiesOfNone(cmp, was[i]);
      assert [] + part == part;
    } else {
      var merged := SortedMerge(cmp, bins[i], pElem);
      MergeSorted(cmp, bins[i], pElem);
      MergedTies(cmp, bins[i], pElem, was[i], part);
      pElem := merged;
    }
    bins[i] := pElem;
    parts' := was[i := was[i] + part];
    BinSet(cmp, before, was, i, pElem, was[i] + part);
    assert bins[..] == before[i := pElem];
    UpperPlaced(was, i, part);
  }

  /** A part taken out of its bin goes in front of the carried part. */
  lemma UpperTaken(parts: seq<seq<Elem>>, i: nat, part: seq<Elem>)
    requires i < |parts|
    ensures Upper(parts[i := []], i + 1) + (parts[i] + part) == Upper(parts, i) + part
  {
    UpperSame(parts[i := []], parts, i + 1);
    assert Upper(parts, i) == Upper(parts, i + 1) + parts[i];
  }

  lemma UpperPlaced(parts: seq<seq<Elem>>, i: nat, part: seq<Elem>)
    requires i < |parts| && forall k :: 0 <= k < i ==> parts[k] == []
    ensures Upper(parts[i := parts[i] + part], 0) == Upper(parts, i) + part
  {
    var parts' := parts[i := parts[i] + part];
    UpperSame(parts', parts, i + 1);
    UpperSkips(parts', i);
    assert Upper(parts, i + 1) + parts[i] + part == Upper(parts, i + 1) + (parts[i] + part);
  }

  lemma SelfTies(cmp: Compare, s: seq<Elem>)
    ensures SameTies(cmp, s, s)
  {
  }

  lemma SortedKeys(cmp: Compare, s: seq<Elem>)
    requires Sorted(cmp, s)
    ensures forall i, j :: 0 <= i < j < |s| ==> cmp(s[i].key, s[j].key) <= 0
  {
  }

  /** OP_Sort. */
  method Sort(cmp: Compare, list: seq<Elem>) returns (sorted: seq<Elem>)
    requires Preorder(cmp)
    ensures forall i, j :: 0 <= i < j < |sorted| ==> cmp(sorted[i].key, sorted[j].key) <= 0
    ensures Sorted(cmp, sorted) && SameTies(cmp, sorted, list) && multiset(sorted) == multiset(list)
  {
    hide Ties, Merge, SameTies, Preorder, Sorted, BinsOk, BinsHold;
    var bins := new seq<Elem>[NSORT](_ => []);
    ghost var parts := bins[..];
    EmptyHolds(cmp, bins[..]);
    var n := 0;
    while n < |list|
      invariant 0 <= n <= |list| && Holds(cmp, bins[..], parts, list[..n])
    {
      parts := Carry(cmp, bins, list[n], parts, list[..n]);
      assert list[..n + 1] == list[..n] + [list[n]];
      n := n + 1;
    }
    assert list[..n] == list;
    sorted := [];
    ghost var tail: seq<Elem> := [];
    NoneSorted(cmp);
    SelfTies(cmp, []);
    var i := 0;
    while i < NSORT
      invariant 0 <= i <= NSORT && Sorted(cmp, sorted) && Holds(cmp, bins[..], parts, list)
      invariant SameTies(cmp, sorted, tail) && Upper(parts, i) + tail == list
    {
      BinIs(cmp, bins[..], parts, i);
      MergeSorted(cmp, bins[i], sorted);
      MergedTies(cmp, bins[i], sorted, parts[i], tail);
      sorted := SortedMerge(cmp, bins[i], sorted);
      tail := parts[i] + tail;
      i := i + 1;
    }
    TiesPermute(cmp, sorted, list);
    SortedKeys(cmp, sorted);
  }
}
