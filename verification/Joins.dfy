/** What a join means, what the nested loops with pushed-down terms compute, and why the two
    agree. */
module Joins {
  import opened Values
  import opened Expressions
  import opened Machine
  import opened Agreement

  /** One FROM entry; `left` marks the right operand of a LEFT JOIN. */
  datatype Source = Source(cursor: int, left: bool)

  /** One conjunct. `on` names the LEFT JOIN whose ON clause it comes from; `fromJoin` is the flag
      the parser keeps on every ON term, of inner joins too. */
  datatype Term = Term(e: Expr, on: Option<nat>, fromJoin: bool)

  datatype Query = Query(from: seq<Source>, terms: seq<Term>, results: seq<Expr>, cells: int) {
    /** Cursors are distinct; nothing is to the left of the first entry; every term mentions only
        FROM tables and is free of value-position IN and of the memory cells the loops use. */
    ghost predicate Valid() {
      && (|from| > 0 ==> !from[0].left)
      && (forall i, j :: 0 <= i < j < |from| ==> from[i].cursor != from[j].cursor)
      && (forall t :: t in terms ==> Tables(t.e) <= Bound(|from|) && PlainTest(t.e, cells))
      && (forall e :: e in results ==> Tables(e) <= Bound(|from|) && Plain(e, cells))
    }

    /** The cursors of the first `n` FROM entries. */
    function Bound(n: nat): set<int>
      requires n <= |from|
    {
      set i | 0 <= i < n :: from[i].cursor
    }

    /** The first loop in which every table of `t` is positioned. */
    function Depth(t: Term): (d: nat)
      requires Tables(t.e) <= Bound(|from|)
      ensures d <= |from| && Tables(t.e) <= Bound(d)
      ensures forall k: nat :: k < d ==> !(Tables(t.e) <= Bound(k))
    {
      Least(Tables(t.e), 0)
    }

    function Least(ts: set<int>, k: nat): (d: nat)
      requires k <= |from| && ts <= Bound(|from|)
      ensures k <= d <= |from| && ts <= Bound(d)
      ensures forall j: nat :: k <= j < d ==> !(ts <= Bound(j))
      decreases |from| - k
    {
      if ts <= Bound(k) then k else Least(ts, k + 1)
    }

    /** The loop that tests a term: terms without tables are tested in the first one. */
    function Level(t: Term): (l: nat)
      requires Tables(t.e) <= Bound(|from|)
      ensures |from| > 0 ==> l < |from|
    {
      if Depth(t) == 0 then 0 else Depth(t) - 1
    }

    /** ON terms of a LEFT JOIN are first bound by its right table, and no other ON term is first
        bound by the right table of a LEFT JOIN. */
    ghost predicate OnTermsBindRight()
      requires Valid()
    {
      forall t :: t in terms ==>
                    && (t.on.Some? ==>
                          t.fromJoin && t.on.value < |from| && from[t.on.value].left && Level(t) == t.on.value)
                    && (t.on.None? && t.fromJoin && |from| > 0 ==> !from[Level(t)].left)
    }
  }

  /** The rows at hand: a position, or the NULL row, for each cursor placed so far. */
  type Binding = map<int, Cursor>

  function Holds(w: World, mem: map<int, Value>, b: Binding, e: Expr): bool {
    TruthIn(e, false, EnvAt(w, b, mem)) == True
  }

  function Project(w: World, mem: map<int, Value>, b: Binding, results: seq<Expr>): seq<Value> {
    seq(|results|, i requires 0 <= i < |results| => Eval(results[i], false, EnvAt(w, b, mem)))
  }

  // The reference meaning: extend the row combination table by table in nested order, a LEFT JOIN
  // giving one NULL row where its ON terms match nothing, and apply WHERE to whole combinations.

  predicate OnHolds(w: World, q: Query, mem: map<int, Value>, i: nat, b: Binding) {
    forall t :: t in q.terms && t.on == Some(i) ==> Holds(w, mem, b, t.e)
  }

  predicate WhereHolds(w: World, q: Query, mem: map<int, Value>, b: Binding) {
    forall t :: t in q.terms && t.on.None? ==> Holds(w, mem, b, t.e)
  }

  function Answer(w: World, q: Query, mem: map<int, Value>, i: nat, b: Binding): seq<seq<Value>>
    requires i <= |q.from|
    decreases |q.from| - i, 1
  {
    if i == |q.from| then
      if WhereHolds(w, q, mem, b) then [Project(w, mem, b, q.results)] else []
    else
      AnswerRows(w, q, mem, i, b, 0)
      + (if q.from[i].left && !MatchFrom(w, q, mem, i, b, 0)
         then Answer(w, q, mem, i + 1, b[q.from[i].cursor := Cursor(0, true)]) else [])
  }

  function AnswerRows(w: World, q: Query, mem: map<int, Value>, i: nat, b: Binding, p: nat): seq<seq<Value>>
    requires i < |q.from|
    decreases |q.from| - i, 0, |w.rows(q.from[i].cursor)| - p
  {
    if p >= |w.rows(q.from[i].cursor)| then []
    else
      var b' := b[q.from[i].cursor := Cursor(p, false)];
      (if OnHolds(w, q, mem, i, b') then Answer(w, q, mem, i + 1, b') else []) + AnswerRows(w, q, mem, i, b, p + 1)
  }

  /** Some row from position `p` on satisfies the ON terms. */
  predicate MatchFrom(w: World, q: Query, mem: map<int, Value>, i: nat, b: Binding, p: nat)
    requires i < |q.from|
    decreases |w.rows(q.from[i].cursor)| - p
  {
    p < |w.rows(q.from[i].cursor)|
    && (OnHolds(w, q, mem, i, b[q.from[i].cursor := Cursor(p, false)]) || MatchFrom(w, q, mem, i, b, p + 1))
  }

  // The loops: terms are tested as soon as their tables are positioned.

  /** Tested before the LEFT JOIN flag is set. */
  predicate Early(q: Query, t: Term, i: nat)
    requires i < |q.from| && Tables(t.e) <= q.Bound(|q.from|)
  {
    q.Level(t) == i && (q.from[i].left ==> t.fromJoin)
  }

  predicate Late(q: Query, t: Term, i: nat)
    requires i < |q.from| && Tables(t.e) <= q.Bound(|q.from|)
  {
    q.Level(t) == i && q.from[i].left && !t.fromJoin
  }

  ghost predicate EarlyHold(w: World, q: Query, mem: map<int, Value>, i: nat, b: Binding)
    requires q.Valid() && i < |q.from|
  {
    forall t :: t in q.terms && Early(q, t, i) ==> Holds(w, mem, b, t.e)
  }

  ghost predicate LateHold(w: World, q: Query, mem: map<int, Value>, i: nat, b: Binding)
    requires q.Valid() && i < |q.from|
  {
    forall t :: t in q.terms && Late(q, t, i) ==> Holds(w, mem, b, t.e)
  }

  ghost function Loop(w: World, q: Query, mem: map<int, Value>, i: nat, b: Binding): seq<seq<Value>>
    requires q.Valid() && i <= |q.from|
    decreases |q.from| - i, 2
  {
    if i == |q.from| then [Project(w, mem, b, q.results)]
    else
      Scan(w, q, mem, i, b, 0)
      + (if q.from[i].left && !Matched(w, q, mem, i, b, 0)
         then Pass(w, q, mem, i, b[q.from[i].cursor := Cursor(0, true)]) else [])
  }

  /** The inner loops for a row that passed the early terms. */
  ghost function Pass(w: World, q: Query, mem: map<int, Value>, i: nat, b: Binding): seq<seq<Value>>
    requires q.Valid() && i < |q.from|
    decreases |q.from| - i, 0
  {
    if LateHold(w, q, mem, i, b) then Loop(w, q, mem, i + 1, b) else []
  }

  ghost function Scan(w: World, q: Query, mem: map<int, Value>, i: nat, b: Binding, p: nat): seq<seq<Value>>
    requires q.Valid() && i < |q.from|
    decreases |q.from| - i, 1, |w.rows(q.from[i].cursor)| - p
  {
    if p >= |w.rows(q.from[i].cursor)| then []
    else
      var b' := b[q.from[i].cursor := Cursor(p, false)];
      (if EarlyHold(w, q, mem, i, b') then Pass(w, q, mem, i, b') else []) + Scan(w, q, mem, i, b, p + 1)
  }

  ghost predicate Matched(w: World, q: Query, mem: map<int, Value>, i: nat, b: Binding, p: nat)
    requires q.Valid() && i < |q.from|
    decreases |w.rows(q.from[i].cursor)| - p
  {
    p < |w.rows(q.from[i].cursor)|
    && (EarlyHold(w, q, mem, i, b[q.from[i].cursor := Cursor(p, false)]) || Matched(w, q, mem, i, b, p + 1))
  }

  // Push-down is sound.

  /** Placing a further cursor does not change a term that does not mention it. */
  lemma HoldsStable(w: World, q: Query, mem: map<int, Value>, t: Term, i: nat, b: Binding, c: Cursor)
    requires q.Valid() && t in q.terms && i < |q.from| && Tables(t.e) <= q.Bound(i)
    ensures Holds(w, mem, b[q.from[i].cursor := c], t.e) == Holds(w, mem, b, t.e)
  {
    var b' := b[q.from[i].cursor := c];
    assert q.from[i].cursor !in q.Bound(i);
    assert Agree(EnvAt(w, b, mem), EnvAt(w, b', mem), q.Bound(i), q.cells);
    TruthAgrees(t.e, q.Bound(i), q.cells, false, EnvAt(w, b, mem), EnvAt(w, b', mem));
  }

  lemma DepthBinds(q: Query, t: Term, i: nat)
    requires q.Valid() && t in q.terms && i <= |q.from| && q.Depth(t) <= i
    ensures Tables(t.e) <= q.Bound(i)
  {
    assert q.Bound(q.Depth(t)) <= q.Bound(i);
  }

  /** Once a WHERE term is decided false, no extension of the row combination is an answer. */
  lemma DecidedEmpty(w: World, q: Query, mem: map<int, Value>, i: nat, b: Binding, t: Term)
    requires q.Valid() && i <= |q.from| && t in q.terms && t.on.None? && q.Depth(t) <= i && !Holds(w, mem, b, t.e)
    ensures Answer(w, q, mem, i, b) == []
    decreases |q.from| - i, 1
  {
    DepthBinds(q, t, i);
    if i < |q.from| {
      DecidedRowsEmpty(w, q, mem, i, b, 0, t);
      HoldsStable(w, q, mem, t, i, b, Cursor(0, true));
      DecidedEmpty(w, q, mem, i + 1, b[q.from[i].cursor := Cursor(0, true)], t);
    }
  }

  lemma DecidedRowsEmpty(w: World, q: Query, mem: map<int, Value>, i: nat, b: Binding, p: nat, t: Term)
    requires q.Valid() && i < |q.from| && t in q.terms && t.on.None? && q.Depth(t) <= i && !Holds(w, mem, b, t.e)
    ensures AnswerRows(w, q, mem, i, b, p) == []
    decreases |q.from| - i, 0, |w.rows(q.from[i].cursor)| - p
  {
    DepthBinds(q, t, i);
    if p < |w.rows(q.from[i].cursor)| {
      HoldsStable(w, q, mem, t, i, b, Cursor(p, false));
      DecidedEmpty(w, q, mem, i + 1, b[q.from[i].cursor := Cursor(p, false)], t);
      DecidedRowsEmpty(w, q, mem, i, b, p + 1, t);
    }
  }

  /** Every WHERE term tested in an outer loop holds. */
  ghost predicate Checked(w: World, q: Query, mem: map<int, Value>, i: nat, b: Binding)
    requires q.Valid() && i <= |q.from|
  {
    forall t :: t in q.terms && t.on.None? && i > 0 && q.Level(t) < i ==> Holds(w, mem, b, t.e)
  }

  lemma EarlyIsOn(w: World, q: Query, mem: map<int, Value>, i: nat, b: Binding)
    requires q.Valid() && q.OnTermsBindRight() && i < |q.from| && q.from[i].left
    ensures EarlyHold(w, q, mem, i, b) == OnHolds(w, q, mem, i, b)
  {
  }

  lemma MatchedIsMatch(w: World, q: Query, mem: map<int, Value>, i: nat, b: Binding, p: nat)
    requires q.Valid() && q.OnTermsBindRight() && i < |q.from| && q.from[i].left
    ensures Matched(w, q, mem, i, b, p) == MatchFrom(w, q, mem, i, b, p)
    decreases |w.rows(q.from[i].cursor)| - p
  {
    if p < |w.rows(q.from[i].cursor)| {
      EarlyIsOn(w, q, mem, i, b[q.from[i].cursor := Cursor(p, false)]);
      MatchedIsMatch(w, q, mem, i, b, p + 1);
    }
  }

  /** The nested loops with pushed-down terms produce exactly the rows of the join, in its order. */
  lemma LoopIsAnswer(w: World, q: Query, mem: map<int, Value>, i: nat, b: Binding)
    requires q.Valid() && q.OnTermsBindRight() && i <= |q.from| && |q.from| > 0 && Checked(w, q, mem, i, b)
    ensures Loop(w, q, mem, i, b) == Answer(w, q, mem, i, b)
    decreases |q.from| - i, 2
  {
    if i == |q.from| {
      assert WhereHolds(w, q, mem, b);
    } else {
      ScanIsAnswer(w, q, mem, i, b, 0);
      if q.from[i].left {
        MatchedIsMatch(w, q, mem, i, b, 0);
        PassIsAnswer(w, q, mem, i, b, Cursor(0, true));
      }
    }
  }

  lemma PassIsAnswer(w: World, q: Query, mem: map<int, Value>, i: nat, b: Binding, c: Cursor)
    requires q.Valid() && q.OnTermsBindRight() && i < |q.from| && Checked(w, q, mem, i, b)
    requires q.from[i].left || EarlyHold(w, q, mem, i, b[q.from[i].cursor := c])
    ensures Pass(w, q, mem, i, b[q.from[i].cursor := c]) == Answer(w, q, mem, i + 1, b[q.from[i].cursor := c])
    decreases |q.from| - i, 0
  {
    var b' := b[q.from[i].cursor := c];
    if t :| t in q.terms && t.on.None? && q.Level(t) == i && !Holds(w, mem, b', t.e) {
      DecidedEmpty(w, q, mem, i + 1, b', t);
      assert Late(q, t, i);
    } else {
      CheckedExtends(w, q, mem, i, b, c);
      LateAreWhere(w, q, mem, i, b');
      LoopIsAnswer(w, q, mem, i + 1, b');
    }
  }

  lemma CheckedExtends(w: World, q: Query, mem: map<int, Value>, i: nat, b: Binding, c: Cursor)
    requires q.Valid() && i < |q.from| && Checked(w, q, mem, i, b)
    requires forall t :: t in q.terms && t.on.None? && q.Level(t) == i ==> Holds(w, mem, b[q.from[i].cursor := c], t.e)
    ensures Checked(w, q, mem, i + 1, b[q.from[i].cursor := c])
  {
    forall t | t in q.terms && t.on.None? && q.Level(t) < i
      ensures Holds(w, mem, b[q.from[i].cursor := c], t.e)
    {
      DepthBinds(q, t, i);
      HoldsStable(w, q, mem, t, i, b, c);
    }
  }

  lemma LateAreWhere(w: World, q: Query, mem: map<int, Value>, i: nat, b: Binding)
    requires q.Valid() && q.OnTermsBindRight() && i < |q.from|
    requires forall t :: t in q.terms && t.on.None? && q.Level(t) == i ==> Holds(w, mem, b, t.e)
    ensures LateHold(w, q, mem, i, b)
  {
  }

  lemma ScanIsAnswer(w: World, q: Query, mem: map<int, Value>, i: nat, b: Binding, p: nat)
    requires q.Valid() && q.OnTermsBindRight() && i < |q.from| && Checked(w, q, mem, i, b)
    ensures Scan(w, q, mem, i, b, p) == AnswerRows(w, q, mem, i, b, p)
    decreases |q.from| - i, 1, |w.rows(q.from[i].cursor)| - p
  {
    if p < |w.rows(q.from[i].cursor)| {
      var c := Cursor(p, false);
      var b' := b[q.from[i].cursor := c];
      if q.from[i].left {
        EarlyIsOn(w, q, mem, i, b');
        PassIsAnswer(w, q, mem, i, b, c);
      } else {
        assert OnHolds(w, q, mem, i, b');
        if EarlyHold(w, q, mem, i, b') {
          PassIsAnswer(w, q, mem, i, b, c);
        } else {
          var t :| t in q.terms && Early(q, t, i) && !Holds(w, mem, b', t.e);
          DecidedEmpty(w, q, mem, i + 1, b', t);
        }
      }
      ScanIsAnswer(w, q, mem, i, b, p + 1);
    }
  }

  // What the loops answer for any query: the join in which each term has the role its level gives it.

  /** A flagged term first bound by the right table of a LEFT JOIN acts as an ON term of that join,
      every other term as a WHERE term, whatever clause they come from. */
  function CodedTerm(q: Query, t: Term): Term
    requires Tables(t.e) <= q.Bound(|q.from|) && |q.from| > 0
  {
    t.(on := if t.fromJoin && q.from[q.Level(t)].left then Some(q.Level(t)) else None)
  }

  ghost function Coded(q: Query): (r: Query)
    requires q.Valid() && |q.from| > 0
    ensures r.Valid() && r.from == q.from && |r.terms| == |q.terms| && r.results == q.results && r.cells == q.cells
  {
    q.(terms := seq(|q.terms|, k requires 0 <= k < |q.terms| => CodedTerm(q, q.terms[k])))
  }

  lemma CodedLevels(q: Query, t: Term)
    requires q.Valid() && |q.from| > 0 && t in q.terms
    ensures CodedTerm(q, t) in Coded(q).terms && Coded(q).Level(CodedTerm(q, t)) == q.Level(t)
  {
    var k :| 0 <= k < |q.terms| && q.terms[k] == t;
    assert Coded(q).terms[k] == CodedTerm(q, t);
    LeastSame(q, Coded(q), Tables(t.e), 0);
  }

  lemma LeastSame(q: Query, r: Query, ts: set<int>, k: nat)
    requires q.from == r.from && k <= |q.from| && ts <= q.Bound(|q.from|)
    ensures q.Least(ts, k) == r.Least(ts, k)
    decreases |q.from| - k
  {
    assert q.Bound(k) == r.Bound(k);
    if !(ts <= q.Bound(k)) { LeastSame(q, r, ts, k + 1); }
  }

  lemma CodedBindRight(q: Query)
    requires q.Valid() && |q.from| > 0
    ensures Coded(q).OnTermsBindRight()
  {
    forall t' | t' in Coded(q).terms
      ensures t'.on.Some? ==>
                t'.fromJoin && t'.on.value < |q.from| && q.from[t'.on.value].left && Coded(q).Level(t') == t'.on.value
      ensures t'.on.None? && t'.fromJoin ==> !q.from[Coded(q).Level(t')].left
    {
      var k :| 0 <= k < |q.terms| && t' == CodedTerm(q, q.terms[k]);
      CodedLevels(q, q.terms[k]);
    }
  }

  /** The clauses and the levels agree on every term exactly when each ON term binds right. */
  lemma CodedIsSame(q: Query)
    requires q.Valid() && |q.from| > 0
    ensures Coded(q) == q <==> q.OnTermsBindRight()
  {
    if q.OnTermsBindRight() {
      forall k | 0 <= k < |q.terms| ensures Coded(q).terms[k] == q.terms[k] {
        assert q.terms[k] in q.terms;
      }
      assert Coded(q).terms == q.terms;
    }
    if Coded(q) == q { CodedBindRight(q); }
  }

  lemma LoopCoded(w: World, q: Query, mem: map<int, Value>, i: nat, b: Binding)
    requires q.Valid() && |q.from| > 0 && i <= |q.from|
    ensures Loop(w, q, mem, i, b) == Loop(w, Coded(q), mem, i, b)
    decreases |q.from| - i, 2
  {
    if i < |q.from| {
      ScanCoded(w, q, mem, i, b, 0);
      MatchedCoded(w, q, mem, i, b, 0);
      PassCoded(w, q, mem, i, b[q.from[i].cursor := Cursor(0, true)]);
    }
  }

  lemma PassCoded(w: World, q: Query, mem: map<int, Value>, i: nat, b: Binding)
    requires q.Valid() && i < |q.from|
    ensures Pass(w, q, mem, i, b) == Pass(w, Coded(q), mem, i, b)
    decreases |q.from| - i, 0
  {
    HoldCoded(w, q, mem, i, b);
    LoopCoded(w, q, mem, i + 1, b);
  }

  lemma ScanCoded(w: World, q: Query, mem: map<int, Value>, i: nat, b: Binding, p: nat)
    requires q.Valid() && i < |q.from|
    ensures Scan(w, q, mem, i, b, p) == Scan(w, Coded(q), mem, i, b, p)
    decreases |q.from| - i, 1, |w.rows(q.from[i].cursor)| - p
  {
    if p < |w.rows(q.from[i].cursor)| {
      var b' := b[q.from[i].cursor := Cursor(p, false)];
      HoldCoded(w, q, mem, i, b');
      PassCoded(w, q, mem, i, b');
      ScanCoded(w, q, mem, i, b, p + 1);
    }
  }

  lemma MatchedCoded(w: World, q: Query, mem: map<int, Value>, i: nat, b: Binding, p: nat)
    requires q.Valid() && i < |q.from|
    ensures Matched(w, q, mem, i, b, p) == Matched(w, Coded(q), mem, i, b, p)
    decreases |w.rows(q.from[i].cursor)| - p
  {
    if p < |w.rows(q.from[i].cursor)| {
      HoldCoded(w, q, mem, i, b[q.from[i].cursor := Cursor(p, false)]);
      MatchedCoded(w, q, mem, i, b, p + 1);
    }
  }

  /** The loops look at the flag and the level of a term, not at the clause it comes from. */
  lemma HoldCoded(w: World, q: Query, mem: map<int, Value>, i: nat, b: Binding)
    requires q.Valid() && i < |q.from|
    ensures EarlyHold(w, q, mem, i, b) == EarlyHold(w, Coded(q), mem, i, b)
    ensures LateHold(w, q, mem, i, b) == LateHold(w, Coded(q), mem, i, b)
  {
    hide Holds;
    forall t | t in q.terms
      ensures CodedTerm(q, t) in Coded(q).terms && Coded(q).Level(CodedTerm(q, t)) == q.Level(t)
    {
      CodedLevels(q, t);
    }
    assert forall t' :: t' in Coded(q).terms ==> exists t :: t in q.terms && t' == CodedTerm(q, t);
  }

  /** For every query the loops yield exactly the rows, in order, of the join whose terms have the
      roles the code gives them. So they yield the join's own rows if and only if both readings of
      the terms have the same answer. */
  lemma LoopIsCodedAnswer(w: World, q: Query, mem: map<int, Value>)
    requires q.Valid() && |q.from| > 0
    ensures Loop(w, q, mem, 0, map[]) == Answer(w, Coded(q), mem, 0, map[])
    ensures Loop(w, q, mem, 0, map[]) == Answer(w, q, mem, 0, map[])
            <==> Answer(w, Coded(q), mem, 0, map[]) == Answer(w, q, mem, 0, map[])
  {
    LoopCoded(w, q, mem, 0, map[]);
    CodedBindRight(q);
    LoopIsAnswer(w, Coded(q), mem, 0, map[]);
  }

  // The two ways in which the readings differ.

  lemma LevelOf(q: Query, t: Term, k: nat)
    requires k < |q.from| && Tables(t.e) == {q.from[k].cursor} && Tables(t.e) <= q.Bound(|q.from|)
    requires forall i, j :: 0 <= i < j < |q.from| ==> q.from[i].cursor != q.from[j].cursor
    ensures q.Level(t) == k
  {
    var d := q.Depth(t);
    assert q.from[k].cursor in q.Bound(d);
    assert q.from[k].cursor in q.Bound(k + 1);
    assert !(d > k + 1);
  }

  function HasValue(cursor: int): Expr { NotNull(Column(cursor, 0, 0, NumType)) }

  /** `a LEFT JOIN b ON a.x NOTNULL` */
  function OnLeftTable(): Query {
    Query([Source(0, false), Source(1, true)], [Term(HasValue(0), Some(1), true)], [], 0)
  }

  lemma OnLeftTableValid()
    ensures OnLeftTable().Valid() && OnLeftTable().Level(OnLeftTable().terms[0]) == 0
  {
    var q := OnLeftTable();
    var t := q.terms[0];
    assert q.from[0].cursor in q.Bound(2) && q.from[1].cursor in q.Bound(2);
    assert Tables(t.e) == {0} && PlainTest(t.e, 0);
    LevelOf(q, t, 0);
  }

  lemma TestsNull(w: World, mem: map<int, Value>, b: Binding, cursor: int)
    requires CurrentRow(w, b, cursor).None? || CurrentRow(w, b, cursor).value.cell(0) == Null
    ensures !Holds(w, mem, b, HasValue(cursor))
  {
    var env := EnvAt(w, b, mem);
    assert Eval(Column(cursor, 0, 0, NumType), false, env) == Null;
    assert Eval(HasValue(cursor), false, env) == Number(0);
    assert ToInt(env.h, Number(0)) == 0;
  }

  /** The one left row is kept with NULLs, since no right row fits it. */
  lemma LeftRowKept(w: World, mem: map<int, Value>)
    requires |w.rows(0)| == 1 && w.rows(0)[0].cell(0) == Null
    ensures |Answer(w, OnLeftTable(), mem, 0, map[])| == 1
  {
    var q := OnLeftTable();
    var b: Binding := map[];
    var b0 := b[0 := Cursor(0, false)];
    var b1 := b0[1 := Cursor(0, true)];
    forall p: nat ensures !OnHolds(w, q, mem, 1, b0[1 := Cursor(p, false)]) {
      TestsNull(w, mem, b0[1 := Cursor(p, false)], 0);
      assert q.terms[0] in q.terms;
    }
    NoMatches(w, q, mem, b0, 0);
    assert Answer(w, q, mem, 2, b1) == [Project(w, mem, b1, [])];
    assert Answer(w, q, mem, 1, b0) == [Project(w, mem, b1, [])];
    assert OnHolds(w, q, mem, 0, b0);
    assert AnswerRows(w, q, mem, 0, b, 1) == [];
  }

  lemma {:induction false} NoMatches(w: World, q: Query, mem: map<int, Value>, b: Binding, p: nat)
    requires |q.from| == 2 && forall p: nat :: !OnHolds(w, q, mem, 1, b[q.from[1].cursor := Cursor(p, false)])
    ensures AnswerRows(w, q, mem, 1, b, p) == [] && !MatchFrom(w, q, mem, 1, b, p)
    decreases |w.rows(q.from[1].cursor)| - p
  {
    if p < |w.rows(q.from[1].cursor)| { NoMatches(w, q, mem, b, p + 1); }
  }

  /** An ON term about the left table alone is tested in an outer loop like a WHERE term, and the left
      row is lost instead of being kept with NULLs. */
  lemma OnTermTestedEarly(w: World, mem: map<int, Value>)
    requires |w.rows(0)| == 1 && w.rows(0)[0].cell(0) == Null
    ensures OnLeftTable().Valid()
    ensures |Answer(w, OnLeftTable(), mem, 0, map[])| == 1 && Loop(w, OnLeftTable(), mem, 0, map[]) == []
  {
    hide Answer, Holds;
    LeftRowKept(w, mem);
    OnLeftTableValid();
    var q := OnLeftTable();
    var b: Binding := map[];
    TestsNull(w, mem, b[0 := Cursor(0, false)], 0);
    assert q.terms[0] in q.terms && Early(q, q.terms[0], 0);
    assert Scan(w, q, mem, 0, b, 1) == [];
  }

  /** `a LEFT JOIN b JOIN c ON b.x NOTNULL` */
  function OnPastLeftJoin(): Query {
    Query([Source(0, false), Source(1, true), Source(2, false)], [Term(HasValue(1), None, true)], [], 0)
  }

  lemma OnPastLeftJoinValid()
    ensures OnPastLeftJoin().Valid() && OnPastLeftJoin().Level(OnPastLeftJoin().terms[0]) == 1
  {
    var q := OnPastLeftJoin();
    var t := q.terms[0];
    assert q.from[0].cursor in q.Bound(3) && q.from[1].cursor in q.Bound(3) && q.from[2].cursor in q.Bound(3);
    assert Tables(t.e) == {1} && PlainTest(t.e, 0);
    LevelOf(q, t, 1);
  }

  /** With an empty right table the only combination has a NULL there, and the ON term rejects it. */
  lemma NullRowRejected(w: World, mem: map<int, Value>)
    requires |w.rows(0)| == 1 && w.rows(1) == [] && |w.rows(2)| == 1
    ensures Answer(w, OnPastLeftJoin(), mem, 0, map[]) == []
  {
    var q := OnPastLeftJoin();
    var b: Binding := map[];
    var b1 := b[0 := Cursor(0, false)][1 := Cursor(0, true)];
    var b2 := b1[2 := Cursor(0, false)];
    TestsNull(w, mem, b2, 1);
    assert q.terms[0] in q.terms && Answer(w, q, mem, 3, b2) == [];
    assert AnswerRows(w, q, mem, 2, b1, 1) == [] && Answer(w, q, mem, 2, b1) == [];
    assert AnswerRows(w, q, mem, 1, b[0 := Cursor(0, false)], 0) == []
           && Answer(w, q, mem, 1, b[0 := Cursor(0, false)]) == [];
    assert AnswerRows(w, q, mem, 0, b, 1) == [];
  }

  lemma NullRowPasses(w: World, mem: map<int, Value>)
    requires |w.rows(0)| == 1 && w.rows(1) == [] && |w.rows(2)| == 1 && OnPastLeftJoin().Valid()
    requires OnPastLeftJoin().Level(OnPastLeftJoin().terms[0]) == 1
    ensures |Loop(w, OnPastLeftJoin(), mem, 0, map[])| == 1
  {
    hide Holds, Query.Level, Query.Valid;
    var q := OnPastLeftJoin();
    var b: Binding := map[];
    var b0 := b[0 := Cursor(0, false)];
    var b1 := b0[1 := Cursor(0, true)];
    var b2 := b1[2 := Cursor(0, false)];
    var rows := [Project(w, mem, b2, [])];
    assert Scan(w, q, mem, 2, b1, 1) == [] && Loop(w, q, mem, 3, b2) == rows && Pass(w, q, mem, 2, b2) == rows;
    assert Loop(w, q, mem, 2, b1) == rows;
    assert Scan(w, q, mem, 1, b0, 0) == [] && !Matched(w, q, mem, 1, b0, 0) && Pass(w, q, mem, 1, b1) == rows;
    assert Loop(w, q, mem, 1, b0) == rows;
    assert Scan(w, q, mem, 0, b, 1) == [] && Pass(w, q, mem, 0, b0) == rows;
  }

  /** An ON term of a later inner join that mentions the right table of a LEFT JOIN is tested in front
      of the match flag, so the NULL row passes it. */
  lemma InnerOnLetsNullsThrough(w: World, mem: map<int, Value>)
    requires |w.rows(0)| == 1 && w.rows(1) == [] && |w.rows(2)| == 1
    ensures OnPastLeftJoin().Valid()
    ensures Answer(w, OnPastLeftJoin(), mem, 0, map[]) == [] && |Loop(w, OnPastLeftJoin(), mem, 0, map[])| == 1
  {
    hide Answer, Loop;
    NullRowRejected(w, mem);
    OnPastLeftJoinValid();
    NullRowPasses(w, mem);
  }
}
