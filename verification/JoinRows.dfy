/** The rows of a join, said row by row: which combinations of rows they come from, and what the
    columns of a combination show. */
module JoinRows {
  import opened Values
  import opened Expressions
  import opened Machine
  import opened Joins

  /** One cursor for each of the first FROM entries, as a binding. */
  function Bind(q: Query, cs: seq<Cursor>): Binding
    requires |cs| <= |q.from|
  {
    if cs == [] then map[]
    else
      var n := |cs| - 1;
      Bind(q, cs[..n])[q.from[n].cursor := cs[n]]
  }

  /** Row `p` of entry `i` satisfies the ON terms of that entry. */
  ghost predicate Pairs(w: World, q: Query, mem: map<int, Value>, cs: seq<Cursor>, p: nat)
    requires |cs| < |q.from|
  {
    p < |w.rows(q.from[|cs|].cursor)|
    && forall t :: t in q.terms && t.on == Some(|cs|) ==> Joins.Holds(w, mem, Bind(q, cs + [Cursor(p, false)]), t.e)
  }

  /** The next cursor of a combination: on a row that pairs, or, in a LEFT JOIN without one, on the NULL
      row. */
  ghost predicate Goes(w: World, q: Query, mem: map<int, Value>, cs: seq<Cursor>, x: Cursor)
    requires |cs| < |q.from|
  {
    if x.nullRow then q.from[|cs|].left && x.pos == 0 && forall p: nat :: !Pairs(w, q, mem, cs, p)
    else x.pos >= 0 && Pairs(w, q, mem, cs, x.pos)
  }

  ghost predicate Combines(w: World, q: Query, mem: map<int, Value>, cs: seq<Cursor>, i: nat)
    requires |cs| == |q.from|
  {
    (forall j: nat :: i <= j < |cs| ==> Goes(w, q, mem, cs[..j], cs[j]))
    && forall t :: t in q.terms && t.on.None? ==> Joins.Holds(w, mem, Bind(q, cs), t.e)
  }

  lemma BindNext(q: Query, cs: seq<Cursor>, x: Cursor)
    requires |cs| < |q.from|
    ensures Bind(q, cs + [x]) == Bind(q, cs)[q.from[|cs|].cursor := x]
  {
    assert (cs + [x])[..|cs|] == cs;
  }

  lemma PairsIs(w: World, q: Query, mem: map<int, Value>, cs: seq<Cursor>, p: nat)
    requires |cs| < |q.from|
    ensures Pairs(w, q, mem, cs, p)
            <==> p < |w.rows(q.from[|cs|].cursor)|
                 && OnHolds(w, q, mem, |cs|, Bind(q, cs)[q.from[|cs|].cursor := Cursor(p, false)])
  {
    BindNext(q, cs, Cursor(p, false));
  }

  lemma {:induction false} MatchIsPair(w: World, q: Query, mem: map<int, Value>, cs: seq<Cursor>, p: nat)
    requires |cs| < |q.from|
    ensures MatchFrom(w, q, mem, |cs|, Bind(q, cs), p) <==> exists k: nat :: k >= p && Pairs(w, q, mem, cs, k)
    decreases |w.rows(q.from[|cs|].cursor)| - p
  {
    hide Pairs, OnHolds, Bind;
    PairsIs(w, q, mem, cs, p);
    if p < |w.rows(q.from[|cs|].cursor)| {
      MatchIsPair(w, q, mem, cs, p + 1);
      if k: nat :| k >= p && Pairs(w, q, mem, cs, k) {
        assert k == p || k >= p + 1;
      }
    } else {
      forall k: nat | k >= p ensures !Pairs(w, q, mem, cs, k) {
        PairsIs(w, q, mem, cs, k);
      }
    }
  }

  lemma {:induction false} RowsArePairs(w: World, q: Query, mem: map<int, Value>, cs: seq<Cursor>, p: nat,
                                        row: seq<Value>)
    requires |cs| < |q.from|
    ensures row in AnswerRows(w, q, mem, |cs|, Bind(q, cs), p)
            <==> exists k: nat :: k >= p && Pairs(w, q, mem, cs, k)
                                  && row in Answer(w, q, mem, |cs| + 1, Bind(q, cs + [Cursor(k, false)]))
    decreases |w.rows(q.from[|cs|].cursor)| - p
  {
    hide Pairs, OnHolds, Bind, Answer;
    PairsIs(w, q, mem, cs, p);
    BindNext(q, cs, Cursor(p, false));
    if p < |w.rows(q.from[|cs|].cursor)| {
      RowsArePairs(w, q, mem, cs, p + 1, row);
      if k: nat :| k >= p && Pairs(w, q, mem, cs, k)
                   && row in Answer(w, q, mem, |cs| + 1, Bind(q, cs + [Cursor(k, false)])) {
        assert k == p || k >= p + 1;
      }
    } else {
      forall k: nat | k >= p ensures !Pairs(w, q, mem, cs, k) {
        PairsIs(w, q, mem, cs, k);
      }
    }
  }

  /** A combination that extends `cs`, accepted from entry `|cs|` on, projects to the row. */
  ghost predicate Comes(w: World, q: Query, mem: map<int, Value>, cs: seq<Cursor>, row: seq<Value>) {
    exists ds :: |ds| == |q.from| && cs <= ds && Combines(w, q, mem, ds, |cs|)
                 && row == Project(w, mem, Bind(q, ds), q.results)
  }

  /** The rows of the join from entry `|cs|` on come from exactly the combinations that extend `cs`. */
  lemma {:induction false} AnswerIs(w: World, q: Query, mem: map<int, Value>, cs: seq<Cursor>, row: seq<Value>)
    requires |cs| <= |q.from|
    ensures row in Answer(w, q, mem, |cs|, Bind(q, cs)) <==> Comes(w, q, mem, cs, row)
    decreases |q.from| - |cs|
  {
    hide Answer, Comes, Bind, Goes;
    if |cs| == |q.from| {
      AnswerEnds(w, q, mem, cs, row);
    } else {
      AnswerGoes(w, q, mem, cs, row);
      if x :| Goes(w, q, mem, cs, x) && row in Answer(w, q, mem, |cs| + 1, Bind(q, cs + [x])) {
        AnswerIs(w, q, mem, cs + [x], row);
        ComesMore(w, q, mem, cs, x, row);
      }
      if Comes(w, q, mem, cs, row) {
        var x := ComesThrough(w, q, mem, cs, row);
        AnswerIs(w, q, mem, cs + [x], row);
      }
    }
  }

  lemma AnswerEnds(w: World, q: Query, mem: map<int, Value>, cs: seq<Cursor>, row: seq<Value>)
    requires |cs| == |q.from|
    ensures row in Answer(w, q, mem, |cs|, Bind(q, cs)) <==> Comes(w, q, mem, cs, row)
  {
    hide Bind, Project, Joins.Holds;
    forall ds | |ds| == |q.from| && cs <= ds ensures ds == cs {
    }
    if Combines(w, q, mem, cs, |cs|) && row == Project(w, mem, Bind(q, cs), q.results) {
      assert row in Answer(w, q, mem, |cs|, Bind(q, cs));
    }
  }

  lemma ComesMore(w: World, q: Query, mem: map<int, Value>, cs: seq<Cursor>, x: Cursor, row: seq<Value>)
    requires |cs| < |q.from| && Goes(w, q, mem, cs, x) && Comes(w, q, mem, cs + [x], row)
    ensures Comes(w, q, mem, cs, row)
  {
    hide Goes, Bind, Project, Combines;
    var ds :| |ds| == |q.from| && cs + [x] <= ds && Combines(w, q, mem, ds, |cs + [x]|)
              && row == Project(w, mem, Bind(q, ds), q.results);
    CombinesMore(w, q, mem, cs, x, ds);
    assert cs <= ds;
  }

  lemma ComesThrough(w: World, q: Query, mem: map<int, Value>, cs: seq<Cursor>, row: seq<Value>) returns (x: Cursor)
    requires |cs| < |q.from| && Comes(w, q, mem, cs, row)
    ensures Goes(w, q, mem, cs, x) && Comes(w, q, mem, cs + [x], row)
  {
    hide Goes, Bind, Project, Combines;
    var ds :| |ds| == |q.from| && cs <= ds && Combines(w, q, mem, ds, |cs|)
              && row == Project(w, mem, Bind(q, ds), q.results);
    x := ds[|cs|];
    assert cs + [x] <= ds;
    CombinesMore(w, q, mem, cs, x, ds);
    assert |cs + [x]| == |cs| + 1;
  }

  lemma CombinesMore(w: World, q: Query, mem: map<int, Value>, cs: seq<Cursor>, x: Cursor, ds: seq<Cursor>)
    requires |cs| < |q.from| == |ds| && cs + [x] <= ds
    ensures Combines(w, q, mem, ds, |cs|) <==> Goes(w, q, mem, cs, x) && Combines(w, q, mem, ds, |cs| + 1)
  {
    hide Goes, Bind, Joins.Holds;
    assert ds[..|cs|] == cs && ds[|cs|] == x;
  }

  lemma AnswerGoes(w: World, q: Query, mem: map<int, Value>, cs: seq<Cursor>, row: seq<Value>)
    requires |cs| < |q.from|
    ensures row in Answer(w, q, mem, |cs|, Bind(q, cs))
            <==> exists x :: Goes(w, q, mem, cs, x) && row in Answer(w, q, mem, |cs| + 1, Bind(q, cs + [x]))
  {
    hide Bind, Pairs, AnswerRows, MatchFrom;
    RowsArePairs(w, q, mem, cs, 0, row);
    MatchIsPair(w, q, mem, cs, 0);
    var nothing := Cursor(0, true);
    BindNext(q, cs, nothing);
    AnswerUnfolds(w, q, mem, cs);
    if row in AnswerRows(w, q, mem, |cs|, Bind(q, cs), 0) {
      var k: nat :| Pairs(w, q, mem, cs, k) && row in Answer(w, q, mem, |cs| + 1, Bind(q, cs + [Cursor(k, false)]));
      assert Goes(w, q, mem, cs, Cursor(k, false));
    } else if row in Answer(w, q, mem, |cs|, Bind(q, cs)) {
      assert Goes(w, q, mem, cs, nothing);
    }
    if x :| Goes(w, q, mem, cs, x) && row in Answer(w, q, mem, |cs| + 1, Bind(q, cs + [x])) {
      if x.nullRow {
        assert x == nothing;
      } else {
        assert x == Cursor(x.pos, false);
      }
    }
  }

  lemma AnswerUnfolds(w: World, q: Query, mem: map<int, Value>, cs: seq<Cursor>)
    requires |cs| < |q.from|
    ensures Answer(w, q, mem, |cs|, Bind(q, cs))
            == AnswerRows(w, q, mem, |cs|, Bind(q, cs), 0)
               + (if q.from[|cs|].left && !MatchFrom(w, q, mem, |cs|, Bind(q, cs), 0)
                  then Answer(w, q, mem, |cs| + 1, Bind(q, cs)[q.from[|cs|].cursor := Cursor(0, true)]) else [])
  {
    hide AnswerRows, MatchFrom, Bind;
  }

  // What a combination shows.

  /** A cell or the record number of the row a cursor is on; NULL on the NULL row. */
  function CellAt(w: World, cursor: int, x: Cursor, column: int): Value {
    if x.nullRow || x.pos < 0 || x.pos >= |w.rows(cursor)| then Null
    else
      var row := w.rows(cursor)[x.pos];
      if column >= 0 then row.cell(column) else Int(row.rowid, None)
  }

  /** The result is a column of FROM entry `j`. */
  predicate ColumnOf(q: Query, k: nat, j: nat)
    requires k < |q.results| && j < |q.from|
  {
    q.results[k].Column? && q.results[k].table == q.from[j].cursor
  }

  /** Every result that is a column of a FROM entry shows the cell of that entry's row. */
  ghost predicate Shows(w: World, q: Query, cs: seq<Cursor>, row: seq<Value>)
    requires |cs| == |q.from|
  {
    |row| == |q.results|
    && forall k, j :: 0 <= k < |row| && 0 <= j < |cs| && ColumnOf(q, k, j) ==>
         row[k] == CellAt(w, q.from[j].cursor, cs[j], q.results[k].column)
  }

  lemma {:induction false} BindAt(q: Query, cs: seq<Cursor>, j: nat)
    requires q.Valid() && j < |cs| <= |q.from|
    ensures q.from[j].cursor in Bind(q, cs) && Bind(q, cs)[q.from[j].cursor] == cs[j]
    decreases |cs|
  {
    var n := |cs| - 1;
    if j < n {
      BindAt(q, cs[..n], j);
      assert q.from[j].cursor != q.from[n].cursor;
    }
  }

  lemma ProjectShows(w: World, q: Query, mem: map<int, Value>, cs: seq<Cursor>)
    requires q.Valid() && |cs| == |q.from|
    ensures Shows(w, q, cs, Project(w, mem, Bind(q, cs), q.results))
  {
    hide Bind;
    var row := Project(w, mem, Bind(q, cs), q.results);
    forall k, j | 0 <= k < |row| && 0 <= j < |cs| && ColumnOf(q, k, j)
      ensures row[k] == CellAt(w, q.from[j].cursor, cs[j], q.results[k].column)
    {
      BindAt(q, cs, j);
    }
  }

  /** The rows show the combinations: every row shows one, and every one is shown. */
  ghost predicate Lists(w: World, q: Query, mem: map<int, Value>, rows: seq<seq<Value>>) {
    (forall row :: row in rows ==> exists cs :: |cs| == |q.from| && Combines(w, q, mem, cs, 0) && Shows(w, q, cs, row))
    && forall cs :: |cs| == |q.from| && Combines(w, q, mem, cs, 0) ==> exists row :: row in rows && Shows(w, q, cs, row)
  }

  /** Every row of a join shows a combination of rows: each from its table, paired by its ON terms, or
      the NULL row of a LEFT JOIN in which nothing pairs. Every combination that WHERE accepts is shown. */
  lemma RowsShowCombinations(w: World, q: Query, mem: map<int, Value>)
    requires q.Valid()
    ensures Lists(w, q, mem, Answer(w, q, mem, 0, map[]))
  {
    hide Combines, Answer, Project, Bind, Shows;
    NothingBound(q);
    forall row | row in Answer(w, q, mem, 0, map[])
      ensures exists cs :: |cs| == |q.from| && Combines(w, q, mem, cs, 0) && Shows(w, q, cs, row)
    {
      AnswerIs(w, q, mem, [], row);
      var cs :| |cs| == |q.from| && Combines(w, q, mem, cs, 0) && row == Project(w, mem, Bind(q, cs), q.results);
      ProjectShows(w, q, mem, cs);
    }
    forall cs | |cs| == |q.from| && Combines(w, q, mem, cs, 0)
      ensures exists row :: row in Answer(w, q, mem, 0, map[]) && Shows(w, q, cs, row)
    {
      var row := Project(w, mem, Bind(q, cs), q.results);
      assert [] <= cs;
      AnswerIs(w, q, mem, [], row);
      ProjectShows(w, q, mem, cs);
    }
  }

  lemma NothingBound(q: Query)
    ensures Bind(q, []) == map[]
  {
  }

  /** Nothing in the table of entry `j` satisfies its ON terms, whatever the rows before it. */
  ghost predicate NeverPairs(w: World, q: Query, mem: map<int, Value>, j: nat)
    requires j < |q.from|
  {
    forall cs: seq<Cursor>, p: nat :: |cs| == j ==> !Pairs(w, q, mem, cs, p)
  }

  lemma NeverGoes(w: World, q: Query, mem: map<int, Value>, cs: seq<Cursor>, x: Cursor)
    requires |cs| < |q.from| && NeverPairs(w, q, mem, |cs|) && Goes(w, q, mem, cs, x)
    ensures q.from[|cs|].left && x.nullRow
  {
    hide Pairs;
  }

  lemma ShownBy(w: World, q: Query, mem: map<int, Value>, rows: seq<seq<Value>>, row: seq<Value>)
    returns (cs: seq<Cursor>)
    requires Lists(w, q, mem, rows) && row in rows
    ensures |cs| == |q.from| && Combines(w, q, mem, cs, 0) && Shows(w, q, cs, row)
  {
    hide Combines, Shows;
    cs :| |cs| == |q.from| && Combines(w, q, mem, cs, 0) && Shows(w, q, cs, row);
  }

  lemma GoesAt(w: World, q: Query, mem: map<int, Value>, cs: seq<Cursor>, j: nat)
    requires |cs| == |q.from| && Combines(w, q, mem, cs, 0) && j < |cs|
    ensures Goes(w, q, mem, cs[..j], cs[j])
  {
    hide Goes, Joins.Holds;
  }

  lemma ShownAt(w: World, q: Query, cs: seq<Cursor>, row: seq<Value>, k: nat, j: nat)
    requires |cs| == |q.from| && Shows(w, q, cs, row) && j < |cs|
    requires k < |q.results| && ColumnOf(q, k, j)
    ensures k < |row| && row[k] == CellAt(w, q.from[j].cursor, cs[j], q.results[k].column)
  {
    hide CellAt;
  }

  /** Where no row of a LEFT JOIN's table pairs, all its columns show NULL, the ROWID included. */
  lemma UnmatchedShowsNull(w: World, q: Query, mem: map<int, Value>, rows: seq<seq<Value>>, j: nat, row: seq<Value>,
                           k: nat)
    requires q.Valid() && Lists(w, q, mem, rows) && row in rows && j < |q.from| && NeverPairs(w, q, mem, j)
    requires k < |q.results| && ColumnOf(q, k, j)
    ensures q.from[j].left && k < |row| && row[k] == Null
  {
    hide Combines, NeverPairs, Lists, Shows;
    var cs := ShownBy(w, q, mem, rows, row);
    GoesAt(w, q, mem, cs, j);
    NeverGoes(w, q, mem, cs[..j], cs[j]);
    ShownAt(w, q, cs, row, k, j);
  }
}
