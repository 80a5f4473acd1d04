/** Flattening a subquery of the FROM clause into its parent. */
module Flattening {
  import opened Values
  import opened Expressions
  import opened Machine
  import opened Agreement
  import opened Joins
  import opened Substitution
  import Layout

  /** Inner joins only, without aggregates. */
  ghost predicate InnerJoin(q: Query) {
    q.Valid() && (forall i :: 0 <= i < |q.from| ==> !q.from[i].left) && (forall t :: t in q.terms ==> t.on.None?)
  }

  function SubstTerms(ts: seq<Term>, table: int, cols: seq<Expr>): seq<Term> {
    seq(|ts|, i requires 0 <= i < |ts| => ts[i].(e := Subst(ts[i].e, table, cols)))
  }

  function SubstList(es: seq<Expr>, table: int, cols: seq<Expr>): seq<Expr> {
    seq(|es|, i requires 0 <= i < |es| => Subst(es[i], table, cols))
  }

  /** The FROM entries of the subquery take the place of entry `k`, its WHERE clause is added
      behind, and references to its columns are replaced. */
  function Flatten(q: Query, k: nat, sub: Query): Query
    requires k < |q.from|
  {
    var table := q.from[k].cursor;
    Query(q.from[..k] + sub.from + q.from[k + 1..], SubstTerms(q.terms, table, sub.results) + sub.terms,
          SubstList(q.results, table, sub.results), q.cells)
  }

  /** The entries from `k` on move up by `extra`, last one first. */
  method MoveUp(a: array<Source>, n: nat, k: nat, extra: nat)
    requires k < n && a.Length == n + extra
    modifies a
    ensures a[..k] == old(a[..k]) && a[k + extra..] == old(a[k..n])
  {
    ghost var start := a[..];
    var i := a.Length - 1;
    while i - extra >= k
      invariant k + extra - 1 <= i < a.Length
      invariant a[..i + 1] == start[..i + 1] && a[i + 1..] == start[i + 1 - extra..n]
    {
      assert a[i - extra] == a[..i + 1][i - extra] == start[i - extra];
      a[i] := a[i - extra];
      assert a[i..] == [start[i - extra]] + start[i + 1 - extra..n] == start[i - extra..n];
      assert a[..i] == start[..i + 1][..i] == start[..i];
      i := i - 1;
    }
    assert a[..k] == a[..i + 1][..k] == start[..i + 1][..k] == start[..k];
  }

  method PutAt(a: array<Source>, k: nat, inner: seq<Source>)
    requires k + |inner| <= a.Length
    modifies a
    ensures a[..] == old(a[..k]) + inner + old(a[k + |inner|..])
  {
    var i := 0;
    while i < |inner|
      invariant 0 <= i <= |inner|
      invariant a[..] == old(a[..k]) + inner[..i] + old(a[k + i..])
    {
      a[i + k] := inner[i];
      assert inner[..i + 1] == inner[..i] + [inner[i]];
      i := i + 1;
    }
    assert inner[..i] == inner;
  }

  /** The splice of the FROM list: the outer entries behind `k` make room and the inner ones take
      the place of entry `k`. */
  method SpliceFrom(from: seq<Source>, k: nat, inner: seq<Source>) returns (a: array<Source>)
    requires k < |from| && |inner| > 0
    ensures fresh(a) && a[..] == from[..k] + inner + from[k + 1..]
  {
    var extra := |inner| - 1;
    a := new Source[|from| + extra](_ => Source(0, false));
    PutAt(a, 0, from);
    assert a[..|from|] == from;
    assert a[..k] == from[..k] && a[k..|from|] == from[k..];
    MoveUp(a, |from|, k, extra);
    assert a[k + |inner|..] == a[k + extra..][1..] == from[k + 1..];
    PutAt(a, k, inner);
  }

  /** Where the rewrite is applied: `sub` is a query of its own, over other cursors. */
  ghost predicate Flattenable(q: Query, k: nat, sub: Query) {
    && InnerJoin(q) && InnerJoin(sub) && k < |q.from| && |sub.from| > 0 && sub.cells == q.cells
    && (forall i, j :: 0 <= i < |q.from| && 0 <= j < |sub.from| ==> q.from[i].cursor != sub.from[j].cursor)
    && (forall t :: t in q.terms ==> Rewritable(t.e, q.from[k].cursor, sub.results))
    && (forall e :: e in q.results ==> Rewritable(e, q.from[k].cursor, sub.results))
  }

  /** The rows of the materialised subquery. */
  function Materialised(w: World, sub: Query, mem: map<int, Value>): seq<seq<Value>> { Answer(w, sub, mem, 0, map[]) }

  function AsRow(vs: seq<Value>, p: int): Row {
    Row(p + 1, c => if 0 <= c < |vs| then vs[c] else Null)
  }

  /** The world in which cursor `table` ranges over the given rows. */
  function With(w: World, table: int, rows: seq<seq<Value>>): World {
    w.(rows := t => if t == table then seq(|rows|, p requires 0 <= p < |rows| => AsRow(rows[p], p)) else w.rows(t))
  }

  // Rows of the parent loop over the subquery, piece by piece.

  function Pieces(w: World, q: Query, mem: map<int, Value>, k: nat, b: Binding, p: int, n: nat): seq<seq<Value>>
    requires k < |q.from|
    decreases n
  {
    if n == 0 then []
    else Answer(w, q, mem, k + 1, b[q.from[k].cursor := Cursor(p, false)]) + Pieces(w, q, mem, k, b, p + 1, n - 1)
  }

  lemma {:induction false} PiecesSplit(w: World, q: Query, mem: map<int, Value>, k: nat, b: Binding, p: int, m: nat,
                                       n: nat)
    requires k < |q.from|
    ensures Pieces(w, q, mem, k, b, p, m + n) == Pieces(w, q, mem, k, b, p, m) + Pieces(w, q, mem, k, b, p + m, n)
    decreases m
  {
    hide Answer;
    if m > 0 { PiecesSplit(w, q, mem, k, b, p + 1, m - 1, n); }
  }

  lemma {:induction false} PiecesAreRows(w: World, q: Query, mem: map<int, Value>, k: nat, b: Binding, p: nat)
    requires InnerJoin(q) && k < |q.from| && p <= |w.rows(q.from[k].cursor)|
    ensures AnswerRows(w, q, mem, k, b, p) == Pieces(w, q, mem, k, b, p, |w.rows(q.from[k].cursor)| - p)
    decreases |w.rows(q.from[k].cursor)| - p
  {
    hide Answer;
    if p < |w.rows(q.from[k].cursor)| {
      PiecesAreRows(w, q, mem, k, b, p + 1);
    }
  }

  /** Without outer joins a level is just its rows. */
  lemma LevelIsRows(w: World, q: Query, mem: map<int, Value>, i: nat, b: Binding)
    requires InnerJoin(q) && i < |q.from|
    ensures Answer(w, q, mem, i, b) == AnswerRows(w, q, mem, i, b, 0)
  {
  }

  lemma RowsStep(w: World, q: Query, mem: map<int, Value>, i: nat, b: Binding, p: nat)
    requires InnerJoin(q) && i < |q.from| && p < |w.rows(q.from[i].cursor)|
    ensures AnswerRows(w, q, mem, i, b, p)
            == Answer(w, q, mem, i + 1, b[q.from[i].cursor := Cursor(p, false)]) + AnswerRows(w, q, mem, i, b, p + 1)
  {
    assert OnHolds(w, q, mem, i, b[q.from[i].cursor := Cursor(p, false)]);
  }

  lemma RowsEnd(w: World, q: Query, mem: map<int, Value>, i: nat, b: Binding, p: nat)
    requires i < |q.from| && p >= |w.rows(q.from[i].cursor)|
    ensures AnswerRows(w, q, mem, i, b, p) == []
  {
  }

  // The flattened query is a query.

  lemma FlatSource(q: Query, k: nat, sub: Query, i: nat)
    requires k < |q.from| && i < |Flatten(q, k, sub).from|
    ensures Flatten(q, k, sub).from[i]
            == if i < k then q.from[i] else if i < k + |sub.from| then sub.from[i - k] else q.from[i - |sub.from| + 1]
  {
  }

  lemma {:induction false} SubstTables(e: Expr, table: int, cols: seq<Expr>, ts: set<int>, us: set<int>)
    requires Rewritable(e, table, cols) && Tables(e) <= ts && forall c :: 0 <= c < |cols| ==> Tables(cols[c]) <= us
    ensures Tables(Subst(e, table, cols)) <= (ts - {table}) + us
    decreases e
  {
    if Layout.IsLeaf(e) {
    } else if e.Between? {
      SubstTables(e.left, table, cols, ts, us);
      SubstTables(e.low, table, cols, ts, us);
      SubstTables(e.high, table, cols, ts, us);
    } else if e.Function? {
      SubstTablesAll(e.args, table, cols, ts, us);
    } else if e.Case? {
      if e.base.TheExpr? { SubstTables(e.base.e, table, cols, ts, us); }
      if e.otherwise.TheExpr? { SubstTables(e.otherwise.e, table, cols, ts, us); }
      SubstTablesWhens(e.whens, table, cols, ts, us);
    } else if Layout.IsBinary(e) || e.Shift? {
      SubstTables(e.left, table, cols, ts, us);
      SubstTables(e.right, table, cols, ts, us);
    } else {
      SubstTables(e.left, table, cols, ts, us);
    }
  }

  lemma {:induction false} SubstTablesAll(es: Exprs, table: int, cols: seq<Expr>, ts: set<int>, us: set<int>)
    requires RewritableAll(es, table, cols) && ArgTables(es) <= ts && forall c :: 0 <= c < |cols| ==>
               Tables(cols[c]) <= us
    ensures ArgTables(SubstAll(es, table, cols)) <= (ts - {table}) + us
    decreases es
  {
    if es.Cons? {
      SubstTables(es.head, table, cols, ts, us);
      SubstTablesAll(es.tail, table, cols, ts, us);
    }
  }

  lemma {:induction false} SubstTablesWhens(ws: Whens, table: int, cols: seq<Expr>, ts: set<int>, us: set<int>)
    requires RewritableWhens(ws, table, cols) && WhenTables(ws) <= ts && forall c :: 0 <= c < |cols| ==>
               Tables(cols[c]) <= us
    ensures WhenTables(SubstWhens(ws, table, cols)) <= (ts - {table}) + us
    decreases ws
  {
    if ws.When? {
      SubstTables(ws.cond, table, cols, ts, us);
      SubstTables(ws.result, table, cols, ts, us);
      SubstTablesWhens(ws.rest, table, cols, ts, us);
    }
  }

  lemma {:induction false} SubstPlain(e: Expr, table: int, cols: seq<Expr>, cells: int)
    requires Plain(e, cells) && forall c :: 0 <= c < |cols| ==> Plain(cols[c], cells)
    ensures Plain(Subst(e, table, cols), cells)
    decreases e
  {
    if Layout.IsLeaf(e) {
    } else if e.Between? {
      SubstPlain(e.left, table, cols, cells);
      SubstPlain(e.low, table, cols, cells);
      SubstPlain(e.high, table, cols, cells);
    } else if e.Function? {
      SubstPlainAll(e.args, table, cols, cells);
    } else if e.Case? {
      if e.base.TheExpr? { SubstPlain(e.base.e, table, cols, cells); }
      if e.otherwise.TheExpr? { SubstPlain(e.otherwise.e, table, cols, cells); }
      SubstPlainWhens(e.whens, table, cols, cells);
    } else if Layout.IsBinary(e) || e.Shift? {
      SubstPlain(e.left, table, cols, cells);
      SubstPlain(e.right, table, cols, cells);
    } else {
      SubstPlain(e.left, table, cols, cells);
    }
  }

  lemma {:induction false} SubstPlainAll(es: Exprs, table: int, cols: seq<Expr>, cells: int)
    requires PlainArgs(es, cells) && forall c :: 0 <= c < |cols| ==> Plain(cols[c], cells)
    ensures PlainArgs(SubstAll(es, table, cols), cells)
    decreases es
  {
    if es.Cons? {
      SubstPlain(es.head, table, cols, cells);
      SubstPlainAll(es.tail, table, cols, cells);
    }
  }

  lemma {:induction false} SubstPlainWhens(ws: Whens, table: int, cols: seq<Expr>, cells: int)
    requires PlainWhens(ws, cells) && forall c :: 0 <= c < |cols| ==> Plain(cols[c], cells)
    ensures PlainWhens(SubstWhens(ws, table, cols), cells)
    decreases ws
  {
    if ws.When? {
      SubstPlain(ws.cond, table, cols, cells);
      SubstPlain(ws.result, table, cols, cells);
      SubstPlainWhens(ws.rest, table, cols, cells);
    }
  }

  lemma {:induction false} PlainIsTest(e: Expr, cells: int)
    requires Plain(e, cells)
    ensures PlainTest(e, cells)
    decreases e
  {
    if e.And? || e.Or? {
      PlainIsTest(e.left, cells);
      PlainIsTest(e.right, cells);
    } else if e.Not? {
      PlainIsTest(e.left, cells);
    }
  }

  lemma {:induction false} SubstPlainTest(e: Expr, table: int, cols: seq<Expr>, cells: int)
    requires PlainTest(e, cells) && forall c :: 0 <= c < |cols| ==> Plain(cols[c], cells)
    ensures PlainTest(Subst(e, table, cols), cells)
    decreases e
  {
    if e.And? || e.Or? {
      SubstPlainTest(e.left, table, cols, cells);
      SubstPlainTest(e.right, table, cols, cells);
    } else if e.Not? {
      SubstPlainTest(e.left, table, cols, cells);
    } else if e.In? {
      SubstPlain(e.left, table, cols, cells);
    } else {
      SubstPlain(e, table, cols, cells);
      PlainIsTest(Subst(e, table, cols), cells);
    }
  }

  lemma FlatBound(q: Query, k: nat, sub: Query)
    requires Flattenable(q, k, sub)
    ensures var f := Flatten(q, k, sub);
            f.Bound(|f.from|) == (q.Bound(|q.from|) - {q.from[k].cursor}) + sub.Bound(|sub.from|)
  {
    var f := Flatten(q, k, sub);
    forall x | x in (q.Bound(|q.from|) - {q.from[k].cursor}) + sub.Bound(|sub.from|) ensures x in f.Bound(|f.from|) {
      if x in sub.Bound(|sub.from|) {
        var j :| 0 <= j < |sub.from| && sub.from[j].cursor == x;
        FlatSource(q, k, sub, k + j);
      } else {
        var i :| 0 <= i < |q.from| && q.from[i].cursor == x;
        FlatSource(q, k, sub, if i < k then i else i + |sub.from| - 1);
      }
    }
    forall x | x in f.Bound(|f.from|) ensures x in (q.Bound(|q.from|) - {q.from[k].cursor}) + sub.Bound(|sub.from|) {
      var i :| 0 <= i < |f.from| && f.from[i].cursor == x;
      FlatSource(q, k, sub, i);
    }
  }

  /** Flattening gives an inner join again, to which the proofs about joins apply. */
  lemma FlatIsInner(q: Query, k: nat, sub: Query)
    requires Flattenable(q, k, sub)
    ensures InnerJoin(Flatten(q, k, sub))
  {
    hide Tables, Plain, PlainTest, Subst, Rewritable;
    var f, table := Flatten(q, k, sub), q.from[k].cursor;
    FlatBound(q, k, sub);
    forall i, j | 0 <= i < j < |f.from| ensures f.from[i].cursor != f.from[j].cursor {
      FlatSource(q, k, sub, i);
      FlatSource(q, k, sub, j);
    }
    forall i | 0 <= i < |f.from| ensures !f.from[i].left {
      FlatSource(q, k, sub, i);
    }
    forall t | t in f.terms ensures Tables(t.e) <= f.Bound(|f.from|) && PlainTest(t.e, f.cells) && t.on.None? {
      var i :| 0 <= i < |f.terms| && f.terms[i] == t;
      if i < |q.terms| {
        SubstTables(q.terms[i].e, table, sub.results, q.Bound(|q.from|), sub.Bound(|sub.from|));
        SubstPlainTest(q.terms[i].e, table, sub.results, q.cells);
      } else {
        assert t == sub.terms[i - |q.terms|];
      }
    }
    forall e | e in f.results ensures Tables(e) <= f.Bound(|f.from|) && Plain(e, f.cells) {
      var i :| 0 <= i < |f.results| && f.results[i] == e;
      SubstTables(q.results[i], table, sub.results, q.Bound(|q.from|), sub.Bound(|sub.from|));
      SubstPlain(q.results[i], table, sub.results, q.cells);
    }
  }

  // The two queries side by side. `sb` places the subquery's cursors, `p` is its current result row.

  ghost predicate SameOuter(q: Query, k: nat, b: Binding, c: Binding, n: nat)
    requires n <= |q.from|
  {
    forall i :: 0 <= i < n && i != k ==>
        q.from[i].cursor in b && q.from[i].cursor in c && b[q.from[i].cursor] == c[q.from[i].cursor]
  }

  ghost predicate SameInner(sub: Query, c: Binding, sb: Binding, n: nat)
    requires n <= |sub.from|
  {
    forall j :: 0 <= j < n ==>
        sub.from[j].cursor in c && sub.from[j].cursor in sb && c[sub.from[j].cursor] == sb[sub.from[j].cursor]
  }

  /** Expressions of the subquery do not see the outer cursors. */
  lemma InnerAgrees(w: World, q: Query, k: nat, sub: Query, mem: map<int, Value>, c: Binding, sb: Binding)
    requires Flattenable(q, k, sub) && SameInner(sub, c, sb, |sub.from|)
    ensures Project(w, mem, c, sub.results) == Project(w, mem, sb, sub.results)
    ensures forall t :: t in sub.terms ==> Joins.Holds(w, mem, c, t.e) == Joins.Holds(w, mem, sb, t.e)
  {
    hide Tables, Plain, PlainTest, Eval, TruthIn, Rewritable;
    var e1, e2, ts := EnvAt(w, c, mem), EnvAt(w, sb, mem), sub.Bound(|sub.from|);
    assert Agree(e1, e2, ts, sub.cells);
    forall i | 0 <= i < |sub.results| ensures Eval(sub.results[i], false, e1) == Eval(sub.results[i], false, e2) {
      EvalAgrees(sub.results[i], ts, sub.cells, false, e1, e2);
    }
    forall t | t in sub.terms ensures Joins.Holds(w, mem, c, t.e) == Joins.Holds(w, mem, sb, t.e) {
      TruthAgrees(t.e, ts, sub.cells, false, e1, e2);
    }
  }

  /** The outer query's expressions have the same values in both. */
  lemma OuterReads(w: World, q: Query, k: nat, sub: Query, mem: map<int, Value>, b: Binding, c: Binding, sb: Binding,
                   p: nat,
                   rows: seq<seq<Value>>)
    requires Flattenable(q, k, sub) && SameOuter(q, k, b, c, |q.from|) && SameInner(sub, c, sb, |sub.from|)
    requires q.from[k].cursor in b && b[q.from[k].cursor] == Cursor(p, false)
    requires p < |rows| && rows[p] == Project(w, mem, sb, sub.results)
    ensures Reads(EnvAt(With(w, q.from[k].cursor, rows), b, mem), EnvAt(w, c, mem), q.Bound(|q.from|),
                  q.from[k].cursor, sub.results)
  {
    hide Tables, Plain, PlainTest, Eval, TruthIn, Rewritable;
    var table := q.from[k].cursor;
    var w' := With(w, table, rows);
    InnerAgrees(w, q, k, sub, mem, c, sb);
    assert CurrentRow(w', b, table) == Some(AsRow(rows[p], p));
    forall c' | 0 <= c' < |sub.results|
      ensures EnvAt(w', b, mem).column(table, c') == Eval(sub.results[c'], false, EnvAt(w, c, mem))
    {
      assert rows[p][c'] == Project(w, mem, c, sub.results)[c'];
    }
    forall t | t in q.Bound(|q.from|) && t != table ensures CurrentRow(w', b, t) == CurrentRow(w, c, t) {
      var i :| 0 <= i < |q.from| && q.from[i].cursor == t;
    }
  }

  /** At a complete combination of rows both queries decide and report alike. */
  lemma SameVerdict(w: World, q: Query, k: nat, sub: Query, mem: map<int, Value>, b: Binding, c: Binding, sb: Binding,
                    p: nat,
                    rows: seq<seq<Value>>)
    requires Flattenable(q, k, sub) && SameOuter(q, k, b, c, |q.from|) && SameInner(sub, c, sb, |sub.from|)
    requires q.from[k].cursor in b && b[q.from[k].cursor] == Cursor(p, false)
    requires p < |rows| && rows[p] == Project(w, mem, sb, sub.results) && WhereHolds(w, sub, mem, sb)
    ensures var w', f := With(w, q.from[k].cursor, rows), Flatten(q, k, sub);
            && WhereHolds(w', q, mem, b) == WhereHolds(w, f, mem, c)
            && Project(w', mem, b, q.results) == Project(w, mem, c, f.results)
  {
    hide Tables, Plain, PlainTest, Eval, TruthIn, Rewritable, Subst, Reads;
    var table, f := q.from[k].cursor, Flatten(q, k, sub);
    var w' := With(w, table, rows);
    var e1, e2, ts := EnvAt(w', b, mem), EnvAt(w, c, mem), q.Bound(|q.from|);
    OuterReads(w, q, k, sub, mem, b, c, sb, p, rows);
    InnerAgrees(w, q, k, sub, mem, c, sb);
    forall i | 0 <= i < |q.terms|
      ensures Joins.Holds(w', mem, b, q.terms[i].e) == Joins.Holds(w, mem, c, f.terms[i].e)
    {
      TruthSubst(q.terms[i].e, table, sub.results, ts, e1, e2);
    }
    forall i | 0 <= i < |q.results| ensures Eval(q.results[i], false, e1) == Eval(f.results[i], false, e2) {
      SubstEval(q.results[i], table, sub.results, ts, e1, e2);
    }
    SameTerms(w', w, q, f, sub, mem, b, c);
  }

  lemma TruthSubst(e: Expr, table: int, cols: seq<Expr>, ts: set<int>, outer: Env, inner: Env)
    requires Reads(outer, inner, ts, table, cols) && Tables(e) <= ts && Rewritable(e, table, cols)
    ensures TruthIn(e, false, outer) == TruthIn(Subst(e, table, cols), false, inner)
  {
    hide Tables, Eval, Rewritable, Subst;
    SubstEval(e, table, cols, ts, outer, inner);
  }

  lemma SameTerms(w': World, w: World, q: Query, f: Query, sub: Query, mem: map<int, Value>, b: Binding, c: Binding)
    requires |f.terms| == |q.terms| + |sub.terms| && f.terms[|q.terms|..] == sub.terms
    requires (forall t :: t in q.terms ==> t.on.None?) && (forall t :: t in f.terms ==> t.on.None?)
    requires forall i :: 0 <= i < |q.terms| ==>
               Joins.Holds(w', mem, b, q.terms[i].e) == Joins.Holds(w, mem, c, f.terms[i].e)
    requires forall t :: t in sub.terms ==> Joins.Holds(w, mem, c, t.e)
    ensures WhereHolds(w', q, mem, b) == WhereHolds(w, f, mem, c)
  {
    hide Joins.Holds;
    if WhereHolds(w', q, mem, b) {
      forall t | t in f.terms ensures Joins.Holds(w, mem, c, t.e) {
        var i :| 0 <= i < |f.terms| && f.terms[i] == t;
        if i >= |q.terms| { assert f.terms[|q.terms|..][i - |q.terms|] == t; } else { assert q.terms[i] in q.terms; }
      }
    }
    if WhereHolds(w, f, mem, c) {
      forall t | t in q.terms ensures Joins.Holds(w', mem, b, t.e) {
        var i :| 0 <= i < |q.terms| && q.terms[i] == t;
        assert f.terms[i] in f.terms;
      }
    }
  }

  /** The loops inside the subquery's place run alike. */
  lemma {:induction false} TailSame(w: World, q: Query, k: nat, sub: Query, mem: map<int, Value>, n: nat, b: Binding,
                                    c: Binding, sb: Binding, p: nat,
                                    rows: seq<seq<Value>>)
    requires Flattenable(q, k, sub) && k < n <= |q.from| && SameOuter(q, k, b, c, n)
             && SameInner(sub, c, sb, |sub.from|)
    requires q.from[k].cursor in b && b[q.from[k].cursor] == Cursor(p, false)
    requires p < |rows| && rows[p] == Project(w, mem, sb, sub.results) && WhereHolds(w, sub, mem, sb)
    ensures Answer(With(w, q.from[k].cursor, rows), q, mem, n, b)
            == Answer(w, Flatten(q, k, sub), mem, n + |sub.from| - 1, c)
    decreases |q.from| - n, 1
  {
    hide Rewritable, SubstTerms, SubstList, Project, WhereHolds, AnswerRows;
    var f, w' := Flatten(q, k, sub), With(w, q.from[k].cursor, rows);
    FlatIsInner(q, k, sub);
    if n == |q.from| {
      SameVerdict(w, q, k, sub, mem, b, c, sb, p, rows);
    } else {
      FlatSource(q, k, sub, n + |sub.from| - 1);
      LevelIsRows(w', q, mem, n, b);
      LevelIsRows(w, f, mem, n + |sub.from| - 1, c);
      TailRowsSame(w, q, k, sub, mem, n, b, c, sb, p, rows, 0);
    }
  }

  lemma {:induction false} TailRowsSame(w: World, q: Query, k: nat, sub: Query, mem: map<int, Value>, n: nat,
                                        b: Binding, c: Binding, sb: Binding, p: nat,
                                        rows: seq<seq<Value>>, r: nat)
    requires Flattenable(q, k, sub) && k < n < |q.from| && SameOuter(q, k, b, c, n) && SameInner(sub, c, sb, |sub.from|)
    requires q.from[k].cursor in b && b[q.from[k].cursor] == Cursor(p, false)
    requires p < |rows| && rows[p] == Project(w, mem, sb, sub.results) && WhereHolds(w, sub, mem, sb)
    ensures AnswerRows(With(w, q.from[k].cursor, rows), q, mem, n, b, r)
            == AnswerRows(w, Flatten(q, k, sub), mem, n + |sub.from| - 1, c, r)
    decreases |q.from| - n, 0, |w.rows(q.from[n].cursor)| - r
  {
    hide Rewritable, SubstTerms, SubstList, Project, WhereHolds, Answer;
    var f, w', x := Flatten(q, k, sub), With(w, q.from[k].cursor, rows), q.from[n].cursor;
    FlatIsInner(q, k, sub);
    FlatSource(q, k, sub, n + |sub.from| - 1);
    assert x != q.from[k].cursor && w'.rows(x) == w.rows(x);
    if r < |w.rows(x)| {
      RowsStep(w', q, mem, n, b, r);
      RowsStep(w, f, mem, n + |sub.from| - 1, c, r);
      TailSame(w, q, k, sub, mem, n + 1, b[x := Cursor(r, false)], c[x := Cursor(r, false)], sb, p, rows);
      TailRowsSame(w, q, k, sub, mem, n, b, c, sb, p, rows, r + 1);
    }
  }

  /** The subquery's loops, run in place, give the parent's rows for a stretch of its results. */
  lemma {:induction false} MiddleSame(w: World, q: Query, k: nat, sub: Query, mem: map<int, Value>, j: nat,
                                      b: Binding, c: Binding, sb: Binding, p: nat,
                                      rows: seq<seq<Value>>)
    requires Flattenable(q, k, sub) && j <= |sub.from| && SameOuter(q, k, b, c, k) && SameInner(sub, c, sb, j)
    requires p + |Answer(w, sub, mem, j, sb)| <= |rows|
             && rows[p..p + |Answer(w, sub, mem, j, sb)|] == Answer(w, sub, mem, j, sb)
    ensures Answer(w, Flatten(q, k, sub), mem, k + j, c)
            == Pieces(With(w, q.from[k].cursor, rows), q, mem, k, b, p, |Answer(w, sub, mem, j, sb)|)
    decreases |sub.from| - j, 1
  {
    hide Rewritable, SubstTerms, SubstList, AnswerRows;
    var f, table := Flatten(q, k, sub), q.from[k].cursor;
    var w' := With(w, table, rows);
    FlatIsInner(q, k, sub);
    if j == |sub.from| {
      if WhereHolds(w, sub, mem, sb) {
        var b' := b[table := Cursor(p, false)];
        assert rows[p] == rows[p..p + 1][0] == Project(w, mem, sb, sub.results);
        TailSame(w, q, k, sub, mem, k + 1, b', c, sb, p, rows);
        assert Pieces(w', q, mem, k, b, p, 1) == Answer(w', q, mem, k + 1, b') + Pieces(w', q, mem, k, b, p + 1, 0);
      } else {
        RejectedEmpty(w, q, k, sub, mem, c, sb);
      }
    } else {
      FlatSource(q, k, sub, k + j);
      LevelIsRows(w, f, mem, k + j, c);
      LevelIsRows(w, sub, mem, j, sb);
      MiddleRowsSame(w, q, k, sub, mem, j, b, c, sb, p, rows, 0);
    }
  }

  lemma FlattenableMeans(q: Query, k: nat, sub: Query)
    requires Flattenable(q, k, sub)
    ensures InnerJoin(q) && InnerJoin(sub) && k < |q.from| && |Flatten(q, k, sub).from| == |q.from| + |sub.from| - 1
  {
  }

  lemma PlaceInner(q: Query, k: nat, sub: Query, b: Binding, c: Binding, sb: Binding, j: nat, cursor: Cursor)
    requires Flattenable(q, k, sub) && j < |sub.from| && SameOuter(q, k, b, c, k) && SameInner(sub, c, sb, j)
    ensures var x := sub.from[j].cursor;
            SameOuter(q, k, b, c[x := cursor], k) && SameInner(sub, c[x := cursor], sb[x := cursor], j + 1)
  {
    hide Rewritable;
  }

  lemma {:induction false} MiddleRowsSame(w: World, q: Query, k: nat, sub: Query, mem: map<int, Value>, j: nat,
                                          b: Binding, c: Binding, sb: Binding, p: nat,
                                          rows: seq<seq<Value>>, r: nat)
    requires Flattenable(q, k, sub) && j < |sub.from| && SameOuter(q, k, b, c, k) && SameInner(sub, c, sb, j)
    requires p + |AnswerRows(w, sub, mem, j, sb, r)| <= |rows|
             && rows[p..p + |AnswerRows(w, sub, mem, j, sb, r)|] == AnswerRows(w, sub, mem, j, sb, r)
    ensures AnswerRows(w, Flatten(q, k, sub), mem, k + j, c, r)
            == Pieces(With(w, q.from[k].cursor, rows), q, mem, k, b, p, |AnswerRows(w, sub, mem, j, sb, r)|)
    decreases |sub.from| - j, 0, |w.rows(sub.from[j].cursor)| - r
  {
    hide Rewritable, SubstTerms, SubstList, Answer, Pieces, Flatten, Flattenable, InnerJoin, AnswerRows;
    FlattenableMeans(q, k, sub);
    FlatIsInner(q, k, sub);
    var f, x := Flatten(q, k, sub), sub.from[j].cursor;
    var w' := With(w, q.from[k].cursor, rows);
    FlatSource(q, k, sub, k + j);
    if r < |w.rows(x)| {
      var sb', c' := sb[x := Cursor(r, false)], c[x := Cursor(r, false)];
      RowsStep(w, f, mem, k + j, c, r);
      RowsStep(w, sub, mem, j, sb, r);
      var first, rest := Answer(w, sub, mem, j + 1, sb'), AnswerRows(w, sub, mem, j, sb, r + 1);
      var m, n := |first|, |rest|;
      TwoPieces(rows, p, first, rest);
      PlaceInner(q, k, sub, b, c, sb, j, Cursor(r, false));
      MiddleSame(w, q, k, sub, mem, j + 1, b, c', sb', p, rows);
      MiddleRowsSame(w, q, k, sub, mem, j, b, c, sb, p + m, rows, r + 1);
      PiecesSplit(w', q, mem, k, b, p, m, n);
    } else {
      RowsEnd(w, f, mem, k + j, c, r);
      RowsEnd(w, sub, mem, j, sb, r);
      NoPieces(w', q, mem, k, b, p);
    }
  }

  lemma TwoPieces(rows: seq<seq<Value>>, p: nat, first: seq<seq<Value>>, rest: seq<seq<Value>>)
    requires p + |first + rest| <= |rows| && rows[p..p + |first + rest|] == first + rest
    ensures rows[p..p + |first|] == first && rows[p + |first|..p + |first| + |rest|] == rest
  {
    var m, n := |first|, |rest|;
    assert rows[p..p + m] == rows[p..p + (m + n)][..m] == first;
    assert rows[p + m..p + m + n] == rows[p..p + (m + n)][m..] == rest;
  }

  lemma NoPieces(w: World, q: Query, mem: map<int, Value>, k: nat, b: Binding, p: int)
    requires k < |q.from|
    ensures Pieces(w, q, mem, k, b, p, 0) == []
  {
  }

  /** A combination of subquery rows that fails its WHERE clause gives nothing in the flat query. */
  lemma RejectedEmpty(w: World, q: Query, k: nat, sub: Query, mem: map<int, Value>, c: Binding, sb: Binding)
    requires Flattenable(q, k, sub) && SameInner(sub, c, sb, |sub.from|) && !WhereHolds(w, sub, mem, sb)
    ensures Answer(w, Flatten(q, k, sub), mem, k + |sub.from|, c) == []
  {
    hide Rewritable, SubstTerms, SubstList, Answer, Tables, Eval, TruthIn, PlainTest, Plain;
    var f := Flatten(q, k, sub);
    FlatIsInner(q, k, sub);
    InnerAgrees(w, q, k, sub, mem, c, sb);
    var t :| t in sub.terms && t.on.None? && !Joins.Holds(w, mem, sb, t.e);
    assert t in f.terms;
    assert Tables(t.e) <= sub.Bound(|sub.from|);
    forall x | x in sub.Bound(|sub.from|) ensures x in f.Bound(k + |sub.from|) {
      var i :| 0 <= i < |sub.from| && sub.from[i].cursor == x;
      FlatSource(q, k, sub, k + i);
    }
    assert f.Depth(t) <= k + |sub.from|;
    DecidedEmpty(w, f, mem, k + |sub.from|, c, t);
  }

  /** The loops around the subquery run alike. */
  lemma {:induction false} HeadSame(w: World, q: Query, k: nat, sub: Query, mem: map<int, Value>, n: nat, b: Binding,
                                    c: Binding)
    requires Flattenable(q, k, sub) && n <= k && SameOuter(q, k, b, c, n)
    ensures Answer(With(w, q.from[k].cursor, Materialised(w, sub, mem)), q, mem, n, b)
            == Answer(w, Flatten(q, k, sub), mem, n, c)
    decreases k - n, 1
  {
    hide Rewritable, SubstTerms, SubstList, Answer, AnswerRows;
    var rows := Materialised(w, sub, mem);
    var f, w' := Flatten(q, k, sub), With(w, q.from[k].cursor, rows);
    FlatIsInner(q, k, sub);
    LevelIsRows(w', q, mem, n, b);
    if n == k {
      PiecesAreRows(w', q, mem, k, b, 0);
      assert rows[0..0 + |rows|] == rows;
      MiddleSame(w, q, k, sub, mem, 0, b, c, map[], 0, rows);
    } else {
      FlatSource(q, k, sub, n);
      LevelIsRows(w, f, mem, n, c);
      HeadRowsSame(w, q, k, sub, mem, n, b, c, 0);
    }
  }

  lemma {:induction false} HeadRowsSame(w: World, q: Query, k: nat, sub: Query, mem: map<int, Value>, n: nat,
                                        b: Binding, c: Binding, r: nat)
    requires Flattenable(q, k, sub) && n < k && SameOuter(q, k, b, c, n)
    ensures AnswerRows(With(w, q.from[k].cursor, Materialised(w, sub, mem)), q, mem, n, b, r)
            == AnswerRows(w, Flatten(q, k, sub), mem, n, c, r)
    decreases k - n, 0, |w.rows(q.from[n].cursor)| - r
  {
    hide Rewritable, SubstTerms, SubstList, Answer;
    var f, w', x := Flatten(q, k, sub), With(w, q.from[k].cursor, Materialised(w, sub, mem)), q.from[n].cursor;
    FlatIsInner(q, k, sub);
    FlatSource(q, k, sub, n);
    assert x != q.from[k].cursor && w'.rows(x) == w.rows(x);
    if r < |w.rows(x)| {
      RowsStep(w', q, mem, n, b, r);
      RowsStep(w, f, mem, n, c, r);
      HeadSame(w, q, k, sub, mem, n + 1, b[x := Cursor(r, false)], c[x := Cursor(r, false)]);
      HeadRowsSame(w, q, k, sub, mem, n, b, c, r + 1);
    }
  }

  /** The flattened query yields the same sequence of rows as the query over the materialised
      subquery. */
  lemma FlattenSame(w: World, q: Query, k: nat, sub: Query, mem: map<int, Value>)
    requires Flattenable(q, k, sub)
    ensures Answer(w, Flatten(q, k, sub), mem, 0, map[])
            == Answer(With(w, q.from[k].cursor, Materialised(w, sub, mem)), q, mem, 0, map[])
    ensures InnerJoin(Flatten(q, k, sub))
  {
    HeadSame(w, q, k, sub, mem, 0, map[], map[]);
    FlatIsInner(q, k, sub);
  }
}
