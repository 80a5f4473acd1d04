/** UNION, UNION ALL, EXCEPT and INTERSECT through temporary tables, with LIMIT and OFFSET counters. */
module Compound {
  import opened Values
  import opened KeyCodec

  /** A result row in record form. Key tables hold their rows in the order of the records. */
  type Row = Bytes

  predicate StrictlySorted(s: seq<Row>) { forall i, j :: 0 <= i < j < |s| ==> Less(s[i], s[j]) }

  function Elems(s: seq<Row>): set<Row> { set r | r in s }

  lemma ElemsCons(r: Row, s: seq<Row>)
    ensures Elems([r] + s) == {r} + Elems(s)
  {
    assert forall x :: x in [r] + s <==> x == r || x in s;
  }

  // Key tables.

  /** OP_PutStrKey: a record that is already there is overwritten. */
  function Insert(t: seq<Row>, r: Row): seq<Row> {
    if t == [] then [r]
    else if t[0] == r then t
    else if Less(r, t[0]) then [r] + t
    else [t[0]] + Insert(t[1..], r)
  }

  function Remove(t: seq<Row>, r: Row): seq<Row> {
    if t == [] then [] else if t[0] == r then t[1..] else [t[0]] + Remove(t[1..], r)
  }

  lemma {:induction false} InsertMeans(t: seq<Row>, r: Row)
    requires StrictlySorted(t)
    ensures StrictlySorted(Insert(t, r)) && Elems(Insert(t, r)) == Elems(t) + {r}
  {
    hide Less;
    if t == [] {
    } else if t[0] == r {
      assert t[0] in t;
    } else if Less(r, t[0]) {
      ElemsCons(r, t);
      forall i | 0 <= i < |t| ensures Less(r, t[i]) {
        if i > 0 { LessTransitive(r, t[0], t[i]); }
      }
    } else {
      LessTotal(r, t[0]);
      InsertMeans(t[1..], r);
      var u := Insert(t[1..], r);
      assert t == [t[0]] + t[1..];
      ElemsCons(t[0], t[1..]);
      ElemsCons(t[0], u);
      forall i | 0 <= i < |u| ensures Less(t[0], u[i]) {
        assert u[i] in Elems(u);
      }
    }
  }

  lemma {:induction false} RemoveMeans(t: seq<Row>, r: Row)
    requires StrictlySorted(t)
    ensures StrictlySorted(Remove(t, r)) && Elems(Remove(t, r)) == Elems(t) - {r}
  {
    hide Less;
    if t != [] {
      assert t == [t[0]] + t[1..];
      ElemsCons(t[0], t[1..]);
      if t[0] == r {
        forall i | 0 <= i < |t[1..]| ensures t[1..][i] != r { LessTotal(t[0], t[i + 1]); }
      } else {
        RemoveMeans(t[1..], r);
        var u := Remove(t[1..], r);
        ElemsCons(t[0], u);
        forall i | 0 <= i < |u| ensures Less(t[0], u[i]) { assert u[i] in Elems(u); }
      }
    }
  }

  function InsertAll(t: seq<Row>, rows: seq<Row>): seq<Row> {
    if rows == [] then t else Insert(InsertAll(t, rows[..|rows| - 1]), rows[|rows| - 1])
  }

  function RemoveAll(t: seq<Row>, rows: seq<Row>): seq<Row> {
    if rows == [] then t else Remove(RemoveAll(t, rows[..|rows| - 1]), rows[|rows| - 1])
  }

  function Common(t: seq<Row>, u: seq<Row>): seq<Row> {
    if t == [] then [] else (if t[0] in u then [t[0]] else []) + Common(t[1..], u)
  }

  lemma {:induction false} InsertAllMeans(t: seq<Row>, rows: seq<Row>)
    requires StrictlySorted(t)
    ensures StrictlySorted(InsertAll(t, rows)) && Elems(InsertAll(t, rows)) == Elems(t) + Elems(rows)
  {
    hide Insert;
    if rows != [] {
      var init, last := rows[..|rows| - 1], rows[|rows| - 1];
      InsertAllMeans(t, init);
      InsertMeans(InsertAll(t, init), last);
      assert rows == init + [last];
    }
  }

  lemma {:induction false} RemoveAllMeans(t: seq<Row>, rows: seq<Row>)
    requires StrictlySorted(t)
    ensures StrictlySorted(RemoveAll(t, rows)) && Elems(RemoveAll(t, rows)) == Elems(t) - Elems(rows)
  {
    hide Remove;
    if rows != [] {
      var init, last := rows[..|rows| - 1], rows[|rows| - 1];
      RemoveAllMeans(t, init);
      RemoveMeans(RemoveAll(t, init), last);
      assert rows == init + [last];
    }
  }

  lemma {:induction false} CommonMeans(t: seq<Row>, u: seq<Row>)
    requires StrictlySorted(t)
    ensures StrictlySorted(Common(t, u)) && Elems(Common(t, u)) == Elems(t) * Elems(u)
  {
    hide Less;
    if t == [] {
      assert Elems(t) == {} == Elems(Common(t, u));
    } else {
      CommonMeans(t[1..], u);
      var v := Common(t[1..], u);
      assert Elems(t) == {t[0]} + Elems(t[1..]) by {
        assert t == [t[0]] + t[1..];
        ElemsCons(t[0], t[1..]);
      }
      ElemsCons(t[0], v);
      assert Elems(Common(t, u)) == Elems(t) * Elems(u) by {
        assert t[0] in u <==> t[0] in Elems(u);
        assert Common(t, u) == if t[0] in u then [t[0]] + v else v;
      }
      forall i | 0 <= i < |v| ensures Less(t[0], v[i]) { assert v[i] in Elems(v); }
    }
  }

  /** A set of rows has only one strictly sorted listing. */
  lemma {:induction false} ListingUnique(s: seq<Row>, t: seq<Row>)
    requires StrictlySorted(s) && StrictlySorted(t) && Elems(s) == Elems(t)
    ensures s == t
  {
    hide Less;
    if t != [] { assert t[0] in Elems(t); }
    if s != [] {
      assert s[0] in Elems(s);
      var j :| 0 <= j < |t| && t[j] == s[0];
      assert t[0] in Elems(t);
      var k :| 0 <= k < |s| && s[k] == t[0];
      LessTotal(s[0], t[0]);
      assert s[0] == t[0];
      TailElems(s);
      TailElems(t);
      ListingUnique(s[1..], t[1..]);
    }
  }

  lemma TailElems(s: seq<Row>)
    requires s != [] && StrictlySorted(s)
    ensures Elems(s[1..]) == Elems(s) - {s[0]}
  {
    hide Less;
    assert s == [s[0]] + s[1..];
    forall i | 0 <= i < |s[1..]| ensures s[1..][i] != s[0] { LessTotal(s[0], s[i + 1]); }
  }

  // The reference meaning.

  datatype SetOp = UnionAll | Union | Except | Intersect

  /** A left-to-right chain; each part is given by the rows it yields. */
  datatype Chain = Part(rows: seq<Row>) | Then(prior: Chain, op: SetOp, rows: seq<Row>)

  function Yields(c: Chain): seq<Row> {
    match c
    case Part(rows) => rows
    case Then(prior, UnionAll, rows) => Yields(prior) + rows
    case Then(prior, Union, rows) => InsertAll(InsertAll([], Yields(prior)), rows)
    case Then(prior, Except, rows) => RemoveAll(InsertAll([], Yields(prior)), rows)
    case Then(prior, Intersect, rows) => Common(InsertAll([], Yields(prior)), InsertAll([], rows))
  }

  /** The set of rows of a chain, by the algebra of sets. */
  function RowSet(c: Chain): set<Row> {
    match c
    case Part(rows) => Elems(rows)
    case Then(prior, UnionAll, rows) => RowSet(prior) + Elems(rows)
    case Then(prior, Union, rows) => RowSet(prior) + Elems(rows)
    case Then(prior, Except, rows) => RowSet(prior) - Elems(rows)
    case Then(prior, Intersect, rows) => RowSet(prior) * Elems(rows)
  }

  /** UNION, EXCEPT and INTERSECT give the sorted listing of the right set; UNION ALL adds bags. */
  lemma {:induction false} YieldIsAlgebra(c: Chain)
    ensures Elems(Yields(c)) == RowSet(c)
    ensures c.Then? && c.op != UnionAll ==> StrictlySorted(Yields(c))
    ensures c.Then? && c.op == UnionAll ==> multiset(Yields(c)) == multiset(Yields(c.prior)) + multiset(c.rows)
  {
    hide InsertAll, RemoveAll, Common, StrictlySorted;
    if c.Then? {
      YieldIsAlgebra(c.prior);
      NothingSorted();
      InsertAllMeans([], Yields(c.prior));
      InsertAllMeans([], c.rows);
      InsertAllMeans(InsertAll([], Yields(c.prior)), c.rows);
      RemoveAllMeans(InsertAll([], Yields(c.prior)), c.rows);
      CommonMeans(InsertAll([], Yields(c.prior)), InsertAll([], c.rows));
    }
  }

  lemma NothingSorted()
    ensures StrictlySorted([])
  {
  }

  /** LIMIT and OFFSET; a negative limit is none, and so is an offset that is not positive. */
  function Slice(s: seq<Row>, limit: int, offset: int): seq<Row> {
    var from := if offset <= 0 then 0 else if offset < |s| then offset else |s|;
    if limit >= 0 && from + limit < |s| then s[from..from + limit] else s[from..]
  }

  function Start(offset: int): nat { if offset <= 0 then 0 else offset }

  /** Whether the row after `n` others falls into the slice. */
  predicate Passes(limit: int, offset: int, n: nat) { Start(offset) <= n && (limit < 0 || n < Start(offset) + limit) }

  predicate Full(limit: int, offset: int, n: nat) { limit >= 0 && n >= Start(offset) + limit }

  lemma SliceSnoc(s: seq<Row>, r: Row, limit: int, offset: int)
    ensures Slice(s + [r], limit, offset) == Slice(s, limit, offset) + if Passes(limit, offset, |s|) then [r] else []
  {
    var u, from := s + [r], Start(offset);
    if from > |s| {
      assert u[|s| + 1..] == [];
    } else if limit >= 0 && from + limit <= |s| {
      assert u[from..from + limit] == s[from..from + limit];
    } else {
      assert u[from..] == s[from..] + [r];
    }
  }

  /** The slice begins behind the first `offset` rows, and `limit` rows end it, or the end of them all. */
  lemma SliceIs(s: seq<Row>, limit: int, offset: int)
    ensures var t, n := Slice(s, limit, offset), if offset > 0 then offset else 0;
            && (forall k :: 0 <= k < |t| ==> n + k < |s| && t[k] == s[n + k])
            && (limit >= 0 ==> |t| <= limit)
            && (n < |s| && |t| < |s| - n ==> limit >= 0 && |t| == limit)
  {
  }

  lemma {:induction false} SliceFull(s: seq<Row>, t: seq<Row>, limit: int, offset: int)
    requires Full(limit, offset, |s|)
    ensures Slice(s + t, limit, offset) == Slice(s, limit, offset)
  {
    var from := Start(offset);
    assert (s + t)[from..from + limit] == s[from..from + limit];
  }

  // The generated code.

  datatype Dest = ToCallback | ToTable(tab: nat) | ToUnion(tab: nat) | ToExcept(tab: nat)

  /** What disposing of some rows does to their destination. */
  function Put(d: Dest, t: seq<Row>, rows: seq<Row>): seq<Row> {
    if d.ToUnion? then InsertAll(t, rows) else if d.ToExcept? then RemoveAll(t, rows) else t + rows
  }

  lemma {:induction false} PutThen(d: Dest, t: seq<Row>, x: seq<Row>, y: seq<Row>)
    ensures Put(d, Put(d, t, x), y) == Put(d, t, x + y)
  {
    hide Insert, Remove;
    if y == [] {
      assert x + y == x;
    } else {
      var init := y[..|y| - 1];
      PutThen(d, t, x, init);
      assert (x + y)[..|x + y| - 1] == x + init && (x + y)[|x + y| - 1] == y[|y| - 1];
      assert !d.ToUnion? && !d.ToExcept? ==> t + x + y == t + (x + y);
    }
  }

  /** Registers of the LIMIT and OFFSET counters. */
  datatype Regs = Regs(iLimit: Option<nat>, iOffset: Option<nat>)

  predicate Limited(limit: int, offset: int) { limit >= 0 || offset > 0 }

  /** The counters after `k` rows, counting up from the negated clauses. */
  predicate CountsAt(mem: map<int, int>, r: Regs, limit: int, offset: int, k: nat) {
    && r.iOffset.Some? == (offset > 0) && r.iLimit.Some? == (limit >= 0)
    && (r.iOffset.Some? ==> r.iOffset.value in mem && mem[r.iOffset.value] == k - offset)
    && (r.iLimit.Some? && r.iOffset.Some? ==> r.iLimit != r.iOffset)
    && (r.iLimit.Some? ==>
          r.iLimit.value in mem && mem[r.iLimit.value] == (if k < Start(offset) then 0 else k - Start(offset)) - limit)
  }

  /** The counters after `n` rows; a scan that hits the limit stops looking at rows. */
  ghost predicate Counts(mem: map<int, int>, r: Regs, limit: int, offset: int, n: nat) {
    exists k: nat :: k <= n && CountsAt(mem, r, limit, offset, k) && (k == n || Full(limit, offset, k))
  }

  predicate Fresh(mem: map<int, int>, r: Regs, limit: int, offset: int) {
    && r.iOffset.Some? == (offset > 0) && r.iLimit.Some? == (limit >= 0)
    && (r.iOffset.Some? ==> r.iOffset.value !in mem) && (r.iLimit.Some? ==> r.iLimit.value !in mem)
  }

  datatype Flow = Continue | Break | Stuck

  /** The contents of the machine. */
  datatype Store = Store(tabs: map<int, seq<Row>>, out: seq<Row>, mem: map<int, int>, nTab: nat, nMem: nat)

  predicate Kept(x: Store, y: Store, d: Dest, r: Regs) {
    && y.nTab >= x.nTab && y.nMem >= x.nMem && (!d.ToCallback? ==> y.out == x.out)
    && (forall k :: k in x.tabs ==> k in y.tabs && (d.ToCallback? || d.tab != k ==> y.tabs[k] == x.tabs[k]))
    && (forall m :: 0 <= m < x.nMem && Some(m) != r.iLimit && Some(m) != r.iOffset ==>
          (m in y.mem) == (m in x.mem) && (m in y.mem ==> y.mem[m] == x.mem[m]))
  }

  lemma KeptThen(x: Store, y: Store, z: Store, d: Dest, r: Regs)
    requires Kept(x, y, d, r) && Kept(y, z, d, r)
    ensures Kept(x, z, d, r)
  {
  }

  lemma KeptSelf(x: Store, d: Dest, r: Regs)
    ensures Kept(x, x, d, r)
  {
  }

  class Machine {
    var tabs: map<int, seq<Row>>
    var out: seq<Row>
    var mem: map<int, int>
    var nTab: nat
    var nMem: nat

    ghost predicate Valid()
      reads this
    {
      (forall k :: k in tabs ==> 0 <= k < nTab) && (forall m :: m in mem ==> 0 <= m < nMem)
    }

    predicate Has(d: Dest)
      reads this
    {
      d.ToCallback? || d.tab in tabs
    }

    function Content(d: Dest): seq<Row>
      requires Has(d)
      reads this
    {
      if d.ToCallback? then out else tabs[d.tab]
    }

    /** Everything but the destination, newer tables and the given counters is unchanged. */
    twostate predicate Only(d: Dest, r: Regs)
      reads this
    {
      Kept(old(Contents()), Contents(), d, r)
    }

    function Contents(): Store
      reads this
    {
      Store(tabs, out, mem, nTab, nMem)
    }

    constructor ()
      ensures Valid() && out == [] && mem == map[]
    {
      tabs, out, mem, nTab, nMem := map[], [], map[], 0, 1;
    }

    method Dispose(d: Dest, row: Row)
      requires Valid() && Has(d)
      modifies this`tabs, this`out
      ensures Valid() && Has(d) && Content(d) == Put(d, old(Content(d)), [row]) && Only(d, Regs(None, None))
      ensures tabs.Keys == old(tabs.Keys)
    {
      OnePut(d, Content(d), row);
      if d.ToCallback? {
        out := out + [row];
      } else if d.ToTable? {
        tabs := tabs[d.tab := tabs[d.tab] + [row]];
      } else if d.ToUnion? {
        tabs := tabs[d.tab := Insert(tabs[d.tab], row)];
      } else {
        tabs := tabs[d.tab := Remove(tabs[d.tab], row)];
      }
    }

    /** OP_MemIncr on a counter; an unset cell is an error. */
    method MemIncr(m: nat) returns (positive: bool, ok: bool)
      modifies this`mem
      ensures ok == (m in old(mem)) && mem == if ok then old(mem)[m := old(mem[m]) + 1] else old(mem)
      ensures positive == (ok && old(mem[m]) + 1 > 0)
    {
      ok := m in mem;
      positive := false;
      if ok {
        mem := mem[m := mem[m] + 1];
        positive := mem[m] > 0;
      }
    }

    /** __select_inner_loop for one row. */
    method InnerLoop(r: Regs, d: Dest, row: Row, ghost limit: int, ghost offset: int, ghost k: nat) returns (flow: Flow)
      requires Valid() && Has(d)
               && (CountsAt(mem, r, limit, offset, k) || (Fresh(mem, r, limit, offset) && Limited(limit, offset)))
      modifies this`tabs, this`out, this`mem
      ensures Valid() && Has(d)
      ensures !old(CountsAt(mem, r, limit, offset, k)) ==> flow == Stuck
      ensures old(CountsAt(mem, r, limit, offset, k)) ==>
                && flow == (if Full(limit, offset, k) then Break else Continue)
                && CountsAt(mem, r, limit, offset, k + 1)
                && Content(d) == Put(d, old(Content(d)), if Passes(limit, offset, k) then [row] else [])
                && Only(d, r) && tabs.Keys == old(tabs.Keys)
    {
      hide Insert, Remove;
      NoPut(d, Content(d));
      if r.iOffset.Some? {
        var past, ok := MemIncr(r.iOffset.value);
        if !ok {
          return Stuck;
        }
        if !past {
          return Continue;
        }
      }
      if r.iLimit.Some? {
        var over, ok := MemIncr(r.iLimit.value);
        if !ok {
          return Stuck;
        }
        if over {
          return Break;
        }
      }
      Dispose(d, row);
      flow := Continue;
    }

    /** One row of a scan that has seen `seen`. */
    method ScanRow(row: Row, r: Regs, d: Dest, ghost limit: int, ghost offset: int, ghost k: nat, ghost seen: seq<Row>)
      returns (flow: Flow, ghost one: seq<Row>)
      requires Valid() && Has(d)
      requires CountsAt(mem, r, limit, offset, k) || (Fresh(mem, r, limit, offset) && Limited(limit, offset))
      requires CountsAt(mem, r, limit, offset, k) ==> k <= |seen| && (k == |seen| || Full(limit, offset, k))
      modifies this`tabs, this`out, this`mem
      ensures Valid() && Has(d)
      ensures !old(CountsAt(mem, r, limit, offset, k)) ==> flow == Stuck
      ensures old(CountsAt(mem, r, limit, offset, k)) ==>
                && flow == (if Full(limit, offset, k) then Break else Continue)
                && CountsAt(mem, r, limit, offset, k + 1) && (k == |seen| || Full(limit, offset, k + 1))
                && (flow == Break ==> Full(limit, offset, |seen| + 1))
                && Slice(seen + [row], limit, offset) == Slice(seen, limit, offset) + one
                && Content(d) == Put(d, old(Content(d)), one) && Only(d, r) && tabs.Keys == old(tabs.Keys)
    {
      hide Put, CountsAt, Fresh, Slice;
      one := if Passes(limit, offset, k) then [row] else [];
      if CountsAt(mem, r, limit, offset, k) {
        OneMore(seen, row, limit, offset, k);
      }
      flow := InnerLoop(r, d, row, limit, offset, k);
    }

    /** A SELECT without FROM subqueries of its own, its rows given; the counters may already have
        seen `seen`. */
    method Scan(rows: seq<Row>, r: Regs, d: Dest, ghost limit: int, ghost offset: int, ghost seen: seq<Row>)
      returns (flow: Flow)
      requires Valid() && Has(d)
      requires Counts(mem, r, limit, offset, |seen|) || (Fresh(mem, r, limit, offset) && Limited(limit, offset))
      modifies this`tabs, this`out, this`mem
      ensures Valid() && Has(d)
      ensures old(Counts(mem, r, limit, offset, |seen|)) ==>
                && flow != Stuck && Counts(mem, r, limit, offset, |seen + rows|) && Only(d, r)
                && tabs.Keys == old(tabs.Keys)
                && exists more :: Slice(seen + rows, limit, offset) == Slice(seen, limit, offset) + more
                                   && Content(d) == Put(d, old(Content(d)), more)
      ensures !old(Counts(mem, r, limit, offset, |seen|)) ==> (flow == Stuck <==> rows != [])
      ensures rows == [] ==> tabs == old(tabs) && out == old(out) && mem == old(mem)
    {
      hide Insert, Remove, InsertAll, RemoveAll, Slice, CountsAt, Fresh, Put, Full, Kept;
      KeptSelf(Contents(), d, r);
      flow := Continue;
      ghost var counted := Counts(mem, r, limit, offset, |seen|);
      ghost var k: nat, more: seq<Row> := 0, [];
      if counted {
        k :| k <= |seen| && CountsAt(mem, r, limit, offset, k) && (k == |seen| || Full(limit, offset, k));
      } else {
        NotFreshAndCounted(mem, r, limit, offset);
      }
      NoPut(d, Content(d));
      var i := 0;
      assert seen + rows[..0] == seen;
      while i < |rows|
        invariant 0 <= i <= |rows| && Valid() && Has(d) && flow == Continue
        invariant !counted || rows == [] ==> i == 0 && mem == old(mem)
        invariant rows == [] ==> tabs == old(tabs) && out == old(out)
        invariant counted ==>
                    && CountsAt(mem, r, limit, offset, k) && k <= |seen| + i
                    && (k == |seen| + i || Full(limit, offset, k))
                    && Slice(seen + rows[..i], limit, offset) == Slice(seen, limit, offset) + more
                    && Content(d) == Put(d, old(Content(d)), more) && Only(d, r) && tabs.Keys == old(tabs.Keys)
      {
        ghost var one, before := [], Contents();
        flow, one := ScanRow(rows[i], r, d, limit, offset, k, seen + rows[..i]);
        if flow == Stuck {
          return;
        }
        KeptThen(old(Contents()), before, Contents(), d, r);
        PutThen(d, old(Content(d)), more, one);
        SliceNext(seen, rows, i, limit, offset, more, one);
        more := more + one;
        k := k + 1;
        i := i + 1;
        if flow == Break {
          SliceStays(seen, rows, i, limit, offset);
          flow := Continue;
          return;
        }
      }
      assert rows[..i] == rows;
    }

    /** The first scan under its counters. */
    method ScanFirst(rows: seq<Row>, r: Regs, d: Dest, ghost limit: int, ghost offset: int)
      requires Valid() && Has(d) && CountsAt(mem, r, limit, offset, 0)
      modifies this`tabs, this`out, this`mem
      ensures Valid() && Has(d) && Only(d, r) && tabs.Keys == old(tabs.Keys) && Counts(mem, r, limit, offset, |rows|)
      ensures Content(d) == Put(d, old(Content(d)), Slice(rows, limit, offset))
    {
      hide Slice, Put, CountsAt, Fresh, Counts;
      NoneSeen(mem, r, limit, offset);
      SliceNothing(limit, offset);
      ghost var before := Content(d);
      var flow := Scan(rows, r, d, limit, offset, []);
      ghost var more :| Slice([] + rows, limit, offset) == Slice([], limit, offset) + more
                && Content(d) == Put(d, before, more);
      assert [] + rows == rows && [] + more == more;
    }

    /** The same without counters. */
    method ScanAll(rows: seq<Row>, d: Dest)
      requires Valid() && Has(d)
      modifies this`tabs, this`out, this`mem
      ensures Valid() && Has(d) && Content(d) == Put(d, old(Content(d)), rows) && Only(d, Regs(None, None))
              && tabs.Keys == old(tabs.Keys)
    {
      hide Slice, Put, Fresh, Counts;
      NoLimit(mem, rows, 0);
      ScanFirst(rows, Regs(None, None), d, -1, 0);
    }

    method OpenTemp() returns (tab: nat)
      requires Valid()
      modifies this`tabs, this`nTab
      ensures Valid() && tab == old(nTab) && nTab == tab + 1 && tab !in old(tabs) && tabs == old(tabs)[tab := []]
    {
      tab := nTab;
      nTab := nTab + 1;
      tabs := tabs[tab := []];
    }

    /** __compute_limit_registers: the cells are allocated by the generator, and set only if the
        instructions are reached. */
    method LimitRegisters(limit: int, offset: int, reached: bool) returns (r: Regs)
      requires Valid()
      modifies this`mem, this`nMem
      ensures Valid() && nMem >= old(nMem) && forall m :: m < old(nMem) ==>
                (m in mem) == (m in old(mem)) && (m in mem ==> mem[m] == old(mem[m]))
      ensures r.iLimit.Some? ==> old(nMem) <= r.iLimit.value
      ensures r.iOffset.Some? ==> old(nMem) <= r.iOffset.value
      ensures if reached || !Limited(limit, offset) then CountsAt(mem, r, limit, offset, 0)
              else Fresh(mem, r, limit, offset)
    {
      r := Regs(None, None);
      if limit >= 0 {
        r := r.(iLimit := Some(nMem));
        if reached { mem := mem[nMem := -limit]; }
        nMem := nMem + 1;
      }
      if offset > 0 {
        r := r.(iOffset := Some(nMem));
        if reached { mem := mem[nMem := -offset]; }
        nMem := nMem + 1;
      }
    }

    /** __select on a chain without ORDER BY. A destination table for UNION must be empty. */
    method Select(c: Chain, limit: int, offset: int, d: Dest) returns (r: Regs, stuck: bool)
      requires Valid() && Has(d) && !d.ToExcept? && (d.ToUnion? ==> tabs[d.tab] == [])
      modifies this
      ensures Valid() && Has(d)
      ensures stuck == (Limited(limit, offset) && Unset(c) && LaterRows(c))
      ensures !stuck ==>
                Content(d) == Put(d, old(Content(d)), Slice(Yields(c), limit, offset)) && Only(d, Regs(None, None))
                  && Newer(r, old(nMem))
      ensures !stuck ==>
                if Limited(limit, offset) && Unset(c) then Yields(c) == [] && Fresh(mem, r, limit, offset)
                else Counts(mem, r, limit, offset, |Yields(c)|)
      decreases c, 2
    {
      hide Insert, Remove, InsertAll, RemoveAll, Common, Slice, Put, CountsAt, Fresh;
      if c.Part? {
        r := LimitRegisters(limit, offset, true);
        ScanFirst(c.rows, r, d, limit, offset);
        stuck := false;
      } else if c.op == UnionAll {
        r, stuck := SelectUnionAll(c, limit, offset, d);
      } else if c.op == Intersect {
        r := SelectIntersect(c, limit, offset, d);
        stuck := false;
      } else {
        r := SelectThroughTable(c, limit, offset, d);
        stuck := false;
      }
    }

    /** UNION ALL: the right part goes on with the counters of the left one. */
    method SelectUnionAll(c: Chain, limit: int, offset: int, d: Dest) returns (r: Regs, stuck: bool)
      requires Valid() && Has(d) && !d.ToExcept? && (d.ToUnion? ==> tabs[d.tab] == [])
      requires c.Then? && c.op == UnionAll
      modifies this
      ensures Valid() && Has(d)
      ensures stuck == (Limited(limit, offset) && Unset(c) && LaterRows(c))
      ensures !stuck ==>
                Content(d) == Put(d, old(Content(d)), Slice(Yields(c), limit, offset)) && Only(d, Regs(None, None))
                  && Newer(r, old(nMem))
      ensures !stuck ==>
                if Limited(limit, offset) && Unset(c) then Yields(c) == [] && Fresh(mem, r, limit, offset)
                else Counts(mem, r, limit, offset, |Yields(c)|)
      decreases c, 0
    {
      hide Insert, Remove, InsertAll, RemoveAll, Common, Slice, Put, CountsAt, Fresh;
      r, stuck := Select(c.prior, limit, offset, d);
      if stuck {
        return;
      }
      ghost var before, seen := Content(d), Yields(c.prior);
      ghost var counted := Counts(mem, r, limit, offset, |seen|);
      if Limited(limit, offset) && Unset(c.prior) { FreshMeans(mem, r, limit, offset, |seen|); }
      var flow := Scan(c.rows, r, d, limit, offset, seen);
      stuck := flow == Stuck;
      if counted {
        ghost var more :| Slice(seen + c.rows, limit, offset) == Slice(seen, limit, offset) + more
                  && Content(d) == Put(d, before, more);
        PutThen(d, old(Content(d)), Slice(seen, limit, offset), more);
      }
    }

    /** UNION and EXCEPT: both parts go into one key table, the destination itself where that is a
        key table and nothing is limited. */
    method SelectThroughTable(c: Chain, limit: int, offset: int, d: Dest) returns (r: Regs)
      requires Valid() && Has(d) && !d.ToExcept? && (d.ToUnion? ==> tabs[d.tab] == [])
      requires c.Then? && (c.op == Union || c.op == Except)
      modifies this
      ensures Valid() && Has(d)
      ensures Content(d) == Put(d, old(Content(d)), Slice(Yields(c), limit, offset)) && Only(d, Regs(None, None))
              && Newer(r, old(nMem))
      ensures if Limited(limit, offset) && Yields(c) == [] then Fresh(mem, r, limit, offset)
              else Counts(mem, r, limit, offset, |Yields(c)|)
      decreases c, 1
    {
      hide Insert, Remove, InsertAll, RemoveAll, Common, Slice, Put, CountsAt, Fresh, Counts;
      var reuse := d.ToUnion? && limit < 0 && offset == 0;
      var unionTab := 0;
      if reuse {
        unionTab := d.tab;
      } else {
        unionTab := OpenTemp();
      }
      FillTable(c, unionTab);
      r := Regs(None, None);
      NoLimit(mem, Yields(c), |Yields(c)|);
      YieldIsAlgebra(c);
      if reuse {
        InsertSorted(Yields(c));
        SliceWhole(Yields(c), limit, offset);
        PutIsInsert(d, Yields(c));
        SameUnlimited(mem, r, limit, offset, |Yields(c)|);
      } else {
        var list := tabs[unionTab];
        r := CopyTable(list, limit, offset, d);
      }
    }

    /** The left part and the right part of UNION or EXCEPT, into one empty key table. */
    method FillTable(c: Chain, tab: nat)
      requires Valid() && c.Then? && (c.op == Union || c.op == Except) && tab in tabs && tabs[tab] == []
      modifies this
      ensures Valid() && tab in tabs && tabs[tab] == Yields(c) && Only(ToUnion(tab), Regs(None, None))
      decreases c, 0
    {
      hide InsertAll, RemoveAll, Slice, Put, Counts, Fresh, Yields, Unset, LaterRows;
      var _, _ := Select(c.prior, -1, 0, ToUnion(tab));
      ScanAll(c.rows, if c.op == Except then ToExcept(tab) else ToUnion(tab));
      TableYields(c, tab);
    }

    /** The loop that hands the rows of a key table on. */
    method CopyTable(list: seq<Row>, limit: int, offset: int, d: Dest) returns (r: Regs)
      requires Valid() && Has(d)
      modifies this`tabs, this`out, this`mem, this`nMem
      ensures Valid() && Has(d) && Only(d, Regs(None, None)) && Newer(r, old(nMem))
      ensures Content(d) == Put(d, old(Content(d)), Slice(list, limit, offset))
      ensures if Limited(limit, offset) && list == [] then Fresh(mem, r, limit, offset)
              else Counts(mem, r, limit, offset, |list|)
    {
      hide Slice, Put, CountsAt, Fresh, Counts;
      r := LimitRegisters(limit, offset, list != []);
      if list != [] {
        ScanFirst(list, r, d, limit, offset);
      } else {
        NothingPut(mem, r, limit, offset, d, Content(d));
      }
    }

    method SelectIntersect(c: Chain, limit: int, offset: int, d: Dest) returns (r: Regs)
      requires Valid() && Has(d) && !d.ToExcept? && (d.ToUnion? ==> tabs[d.tab] == [])
      requires c.Then? && c.op == Intersect
      modifies this
      ensures Valid() && Has(d)
      ensures Content(d) == Put(d, old(Content(d)), Slice(Yields(c), limit, offset)) && Only(d, Regs(None, None))
              && Newer(r, old(nMem))
      ensures if Limited(limit, offset) && Yields(c.prior) == [] then Yields(c) == [] && Fresh(mem, r, limit, offset)
              else Counts(mem, r, limit, offset, |Yields(c)|)
      decreases c, 1
    {
      hide Insert, Remove, InsertAll, RemoveAll, Common, Slice, Put, CountsAt, Fresh, Counts;
      var tab1, tab2 := FillOperands(c);
      var list := tabs[tab1];
      r := LimitRegisters(limit, offset, list != []);
      if list != [] {
        ScanCommon(list, tabs[tab2], r, d, limit, offset);
      } else {
        NothingPut(mem, r, limit, offset, d, Content(d));
      }
    }

    /** The two operands of INTERSECT, each in a key table of its own. */
    method FillOperands(c: Chain) returns (tab1: nat, tab2: nat)
      requires Valid() && c.Then? && c.op == Intersect
      modifies this
      ensures Valid() && out == old(out) && Only(ToCallback, Regs(None, None)) && tab1 in tabs && tab2 in tabs
      ensures Common(tabs[tab1], tabs[tab2]) == Yields(c)
      ensures (tabs[tab1] == [] <==> Yields(c.prior) == []) && (Yields(c.prior) == [] ==> Yields(c) == [])
      decreases c, 0
    {
      hide InsertAll, RemoveAll, Common, Slice, Put, Counts, Fresh, Yields, Unset, LaterRows;
      tab1 := OpenTemp();
      var _, _ := Select(c.prior, -1, 0, ToUnion(tab1));
      tab2 := OpenTemp();
      ScanAll(c.rows, ToUnion(tab2));
      OperandsYield(c, tab1, tab2);
    }

    /** The INTERSECT loop: rows of one key table that the other one has too. */
    method ScanCommon(list: seq<Row>, other: seq<Row>, r: Regs, d: Dest, ghost limit: int, ghost offset: int)
      requires Valid() && Has(d) && CountsAt(mem, r, limit, offset, 0)
      modifies this`tabs, this`out, this`mem
      ensures Valid() && Has(d) && Counts(mem, r, limit, offset, |Common(list, other)|) && Only(d, r)
      ensures Content(d) == Put(d, old(Content(d)), Slice(Common(list, other), limit, offset))
              && tabs.Keys == old(tabs.Keys)
    {
      hide Insert, Remove, InsertAll, RemoveAll, Slice, CountsAt, Fresh, Put, Full, Common, Kept;
      KeptSelf(Contents(), d, r);
      CommonNothing(other);
      var i := 0;
      ghost var k: nat := 0;
      NoPut(d, Content(d));
      SliceNothing(limit, offset);
      assert list[..0] == [];
      while i < |list|
        invariant 0 <= i <= |list| && Valid() && Has(d)
        invariant CountsAt(mem, r, limit, offset, k) && k <= |Common(list[..i], other)|
                  && (k == |Common(list[..i], other)| || Full(limit, offset, k))
        invariant Content(d) == Put(d, old(Content(d)), Slice(Common(list[..i], other), limit, offset))
        invariant Only(d, r) && tabs.Keys == old(tabs.Keys)
      {
        ghost var seen := Common(list[..i], other);
        CommonSnoc(list[..i], list[i], other);
        assert list[..i + 1] == list[..i] + [list[i]];
        if list[i] !in other {
          assert seen + [] == seen;
          i := i + 1;
        } else {
          ghost var before := Contents();
          var flow, one := ScanRow(list[i], r, d, limit, offset, k, seen);
          KeptThen(old(Contents()), before, Contents(), d, r);
          PutThen(d, old(Content(d)), Slice(seen, limit, offset), one);
          k := k + 1;
          i := i + 1;
          if flow == Break {
            CommonSplit(list[..i], list[i..], other);
            assert list == list[..i] + list[i..];
            SliceFull(Common(list[..i], other), Common(list[i..], other), limit, offset);
            return;
          }
        }
      }
      assert list[..i] == list;
    }
  }

  lemma SliceNext(seen: seq<Row>, rows: seq<Row>, i: nat, limit: int, offset: int, more: seq<Row>, one: seq<Row>)
    requires i < |rows| && Slice(seen + rows[..i], limit, offset) == Slice(seen, limit, offset) + more
    requires Slice(seen + rows[..i] + [rows[i]], limit, offset) == Slice(seen + rows[..i], limit, offset) + one
    ensures Slice(seen + rows[..i + 1], limit, offset) == Slice(seen, limit, offset) + (more + one)
  {
    hide Slice;
    assert seen + rows[..i + 1] == seen + rows[..i] + [rows[i]];
  }

  lemma SliceStays(seen: seq<Row>, rows: seq<Row>, i: nat, limit: int, offset: int)
    requires i <= |rows| && Full(limit, offset, |seen| + i)
    ensures Slice(seen + rows, limit, offset) == Slice(seen + rows[..i], limit, offset)
  {
    hide Slice;
    SliceFull(seen + rows[..i], rows[i..], limit, offset);
    assert seen + rows == seen + rows[..i] + rows[i..];
  }

  lemma CommonNothing(other: seq<Row>)
    ensures Common([], other) == []
  {
  }

  lemma NotFreshAndCounted(mem: map<int, int>, r: Regs, limit: int, offset: int)
    requires Fresh(mem, r, limit, offset) && Limited(limit, offset)
    ensures forall k: nat :: !CountsAt(mem, r, limit, offset, k)
  {
  }

  /** Once the limit is reached no further row passes, so it does not matter how many were looked at. */
  lemma OneMore(s: seq<Row>, row: Row, limit: int, offset: int, k: nat)
    requires k == |s| || (k <= |s| && Full(limit, offset, k))
    ensures Slice(s + [row], limit, offset) == Slice(s, limit, offset) + if Passes(limit, offset, k) then [row] else []
  {
    SliceSnoc(s, row, limit, offset);
  }

  /** The registers are new. */
  predicate Newer(r: Regs, nMem: nat) {
    (r.iLimit.Some? ==> nMem <= r.iLimit.value) && (r.iOffset.Some? ==> nMem <= r.iOffset.value)
  }

  /** The leftmost part that is not a UNION ALL copies its table through a loop that sets the
      counters only if there is a row to copy; INTERSECT copies from its left operand. */
  predicate Unset(c: Chain) {
    c.Then? && (if c.op == UnionAll then Unset(c.prior)
                else if c.op == Intersect then Yields(c.prior) == [] else Yields(c) == [])
  }

  /** Some later part of the UNION ALL chain has rows. */
  predicate LaterRows(c: Chain) {
    c.Then? && c.op == UnionAll && (LaterRows(c.prior) || c.rows != [])
  }

  lemma FreshMeans(mem: map<int, int>, r: Regs, limit: int, offset: int, n: nat)
    requires Limited(limit, offset) && Fresh(mem, r, limit, offset)
    ensures !Counts(mem, r, limit, offset, n)
  {
    NotFreshAndCounted(mem, r, limit, offset);
  }

  lemma NoLimit(mem: map<int, int>, rows: seq<Row>, n: nat)
    ensures Counts(mem, Regs(None, None), -1, 0, n) && Slice(rows, -1, 0) == rows
  {
    assert CountsAt(mem, Regs(None, None), -1, 0, n);
  }

  lemma SameUnlimited(mem: map<int, int>, r: Regs, limit: int, offset: int, n: nat)
    requires limit < 0 && offset == 0 && Counts(mem, r, -1, 0, n)
    ensures Counts(mem, r, limit, offset, n)
  {
    var k: nat :| k <= n && CountsAt(mem, r, -1, 0, k) && (k == n || Full(-1, 0, k));
    assert CountsAt(mem, r, limit, offset, k);
  }

  lemma SliceWhole(s: seq<Row>, limit: int, offset: int)
    requires limit < 0 && offset <= 0
    ensures Slice(s, limit, offset) == s
  {
  }

  /** A sorted list is inserted into an empty table as it is. */
  lemma InsertSorted(s: seq<Row>)
    requires StrictlySorted(s)
    ensures InsertAll([], s) == s
  {
    NothingSorted();
    InsertAllMeans([], s);
    ListingUnique(InsertAll([], s), s);
  }

  lemma PutIsInsert(d: Dest, rows: seq<Row>)
    requires d.ToUnion?
    ensures Put(d, [], rows) == InsertAll([], rows)
  {
  }

  lemma CommonSnoc(t: seq<Row>, r: Row, u: seq<Row>)
    ensures Common(t + [r], u) == Common(t, u) + if r in u then [r] else []
  {
    CommonSplit(t, [r], u);
    assert Common([r][1..], u) == [];
  }

  lemma {:induction false} CommonSplit(t: seq<Row>, t': seq<Row>, u: seq<Row>)
    ensures Common(t + t', u) == Common(t, u) + Common(t', u)
  {
    if t == [] {
      assert t + t' == t';
    } else {
      CommonSplit(t[1..], t', u);
      assert (t + t')[1..] == t[1..] + t';
      var first: seq<Row> := if t[0] in u then [t[0]] else [];
      assert first + (Common(t[1..], u) + Common(t', u)) == first + Common(t[1..], u) + Common(t', u);
    }
  }

  lemma TableYields(c: Chain, tab: nat)
    requires c.Then? && (c.op == Union || c.op == Except)
    ensures Put(if c.op == Except then ToExcept(tab) else ToUnion(tab),
                Put(ToUnion(tab), [], Slice(Yields(c.prior), -1, 0)), c.rows) == Yields(c)
  {
    hide InsertAll, RemoveAll;
    SliceWhole(Yields(c.prior), -1, 0);
  }

  lemma OperandsYield(c: Chain, tab1: nat, tab2: nat)
    requires c.Then? && c.op == Intersect
    ensures Common(Put(ToUnion(tab1), [], Slice(Yields(c.prior), -1, 0)), Put(ToUnion(tab2), [], c.rows)) == Yields(c)
    ensures Put(ToUnion(tab1), [], Slice(Yields(c.prior), -1, 0)) == [] <==> Yields(c.prior) == []
    ensures Yields(c.prior) == [] ==> Yields(c) == []
  {
    hide Insert;
    SliceWhole(Yields(c.prior), -1, 0);
    NothingSorted();
    InsertAllMeans([], Yields(c.prior));
    if Yields(c.prior) != [] {
      assert Yields(c.prior)[0] in Elems(InsertAll([], Yields(c.prior)));
    }
  }

  lemma NothingPut(mem: map<int, int>, r: Regs, limit: int, offset: int, d: Dest, t: seq<Row>)
    ensures Put(d, t, Slice([], limit, offset)) == t
    ensures CountsAt(mem, r, limit, offset, 0) ==> Counts(mem, r, limit, offset, 0)
  {
    SliceNothing(limit, offset);
    NoPut(d, t);
  }

  lemma NoneSeen(mem: map<int, int>, r: Regs, limit: int, offset: int)
    requires CountsAt(mem, r, limit, offset, 0)
    ensures Counts(mem, r, limit, offset, 0)
  {
  }

  lemma SliceNothing(limit: int, offset: int)
    ensures Slice([], limit, offset) == []
  {
  }

  lemma OnePut(d: Dest, t: seq<Row>, row: Row)
    ensures Put(d, t, [row]) == if d.ToUnion? then Insert(t, row) else if d.ToExcept? then Remove(t, row) else t + [row]
  {
    assert [row][..0] == [];
    assert InsertAll(t, []) == t && RemoveAll(t, []) == t;
  }

  lemma NoPut(d: Dest, t: seq<Row>)
    ensures Put(d, t, []) == t
  {
  }

  /** (empty UNION empty) UNION ALL one row, LIMIT 1: the counter of the last part is never set. */
  lemma CounterNeverSet() returns (c: Chain)
    ensures Limited(1, 0) && Unset(c) && LaterRows(c) && |Slice(Yields(c), 1, 0)| == 1
  {
    var left := Then(Part([]), Union, []);
    c := Then(left, UnionAll, [[7]]);
    assert Yields(Part([])) == [] && InsertAll([], []) == [];
    assert Yields(left) == [];
    assert Yields(c) == [[7]];
  }
}
