/** What the generated loops of a join compute. A LEFT JOIN without a match moves its own cursor to
    the NULL row, and from FROM entry 32 on cursor 0 with it: the record of such a level was never
    filled in, and says that cursor 0 is its index. */
module CodedLoops {
  import opened Values
  import opened Expressions
  import opened Machine
  import opened Agreement
  import Joins

  /** The number of FROM entries for which an index is looked for. */
  const EXAMINED: nat := 32

  /** The index cursor in the record of a level scanned in full: none, or what the record was
      allocated with. */
  function IndexCursor(i: nat): int { if i < EXAMINED then -1 else 0 }

  /** The rows reported, and whether cursor 0 was moved to the NULL row on the way. */
  datatype Yield = Yield(rows: seq<seq<Value>>, spoilt: bool) {
    function Then(y: Yield): Yield { Yield(rows + y.rows, spoilt || y.spoilt) }
  }

  const NOTHING := Yield([], false)

  function Spoil(b: Joins.Binding, spoilt: bool): Joins.Binding {
    if spoilt && 0 in b then b[0 := Cursor(0, true)] else b
  }

  /** The binding of the pass over the NULL row of entry `i`. */
  function NullPlace(q: Joins.Query, i: nat, b: Joins.Binding): Joins.Binding
    requires i < |q.from|
  {
    Spoil(b[q.from[i].cursor := Cursor(0, true)], i >= EXAMINED)
  }

  ghost function Loop(w: World, q: Joins.Query, mem: map<int, Value>, i: nat, b: Joins.Binding): Yield
    requires q.Valid() && i <= |q.from|
    decreases |q.from| - i, 2
  {
    if i == |q.from| then Yield([Joins.Project(w, mem, b, q.results)], false)
    else
      Scan(w, q, mem, i, b, 0).Then(
        if q.from[i].left && !Joins.Matched(w, q, mem, i, b, 0) then
          Yield([], i >= EXAMINED).Then(Pass(w, q, mem, i, NullPlace(q, i, b)))
        else NOTHING)
  }

  /** The inner loops for a row that passed the early terms. */
  ghost function Pass(w: World, q: Joins.Query, mem: map<int, Value>, i: nat, b: Joins.Binding): Yield
    requires q.Valid() && i < |q.from|
    decreases |q.from| - i, 0, 0
  {
    if Joins.LateHold(w, q, mem, i, b) then Loop(w, q, mem, i + 1, b) else NOTHING
  }

  ghost function RowYield(w: World, q: Joins.Query, mem: map<int, Value>, i: nat, b: Joins.Binding): Yield
    requires q.Valid() && i < |q.from|
    decreases |q.from| - i, 0, 1
  {
    if Joins.EarlyHold(w, q, mem, i, b) then Pass(w, q, mem, i, b) else NOTHING
  }

  /** The rows from position `p` on. The loop over cursor 0 ends once that is on the NULL row. */
  ghost function Scan(w: World, q: Joins.Query, mem: map<int, Value>, i: nat, b: Joins.Binding, p: nat): Yield
    requires q.Valid() && i < |q.from|
    decreases |q.from| - i, 1, |w.rows(q.from[i].cursor)| - p
  {
    if p >= |w.rows(q.from[i].cursor)| then NOTHING
    else
      var y := RowYield(w, q, mem, i, b[q.from[i].cursor := Cursor(p, false)]);
      if y.spoilt && q.from[i].cursor == 0 then y
      else y.Then(Scan(w, q, mem, i, Spoil(b, y.spoilt), p + 1))
  }

  lemma LoopIs(w: World, q: Joins.Query, mem: map<int, Value>, i: nat, b: Joins.Binding)
    requires q.Valid() && i < |q.from|
    ensures Loop(w, q, mem, i, b)
            == Scan(w, q, mem, i, b, 0).Then(
                 if q.from[i].left && !Joins.Matched(w, q, mem, i, b, 0) then
                   Yield([], i >= EXAMINED).Then(Pass(w, q, mem, i, NullPlace(q, i, b)))
                 else NOTHING)
    ensures Joins.Loop(w, q, mem, i, b)
            == Joins.Scan(w, q, mem, i, b, 0)
               + (if q.from[i].left && !Joins.Matched(w, q, mem, i, b, 0)
                  then Joins.Pass(w, q, mem, i, b[q.from[i].cursor := Cursor(0, true)]) else [])
  {
    hide Scan, Pass, Joins.Scan, Joins.Pass, Joins.Matched;
  }

  lemma LoopEnds(w: World, q: Joins.Query, mem: map<int, Value>, b: Joins.Binding)
    requires q.Valid()
    ensures Loop(w, q, mem, |q.from|, b) == Yield(Joins.Loop(w, q, mem, |q.from|, b), false)
    ensures Joins.Loop(w, q, mem, |q.from|, b) == [Joins.Project(w, mem, b, q.results)]
  {
  }

  /** Without such a NULL row these are the loops of module Joins. */
  lemma {:induction false} UnspoiltLoop(w: World, q: Joins.Query, mem: map<int, Value>, i: nat, b: Joins.Binding)
    requires q.Valid() && i <= |q.from|
    ensures !Loop(w, q, mem, i, b).spoilt ==> Loop(w, q, mem, i, b).rows == Joins.Loop(w, q, mem, i, b)
    decreases |q.from| - i, 2
  {
    hide Loop, Joins.Loop, Scan, Joins.Scan, Pass, Joins.Pass, Joins.Matched;
    if i == |q.from| {
      LoopEnds(w, q, mem, b);
    } else {
      LoopIs(w, q, mem, i, b);
      UnspoiltScan(w, q, mem, i, b, 0);
      UnspoiltPass(w, q, mem, i, NullPlace(q, i, b));
    }
  }

  lemma {:induction false} UnspoiltPass(w: World, q: Joins.Query, mem: map<int, Value>, i: nat, b: Joins.Binding)
    requires q.Valid() && i < |q.from|
    ensures !Pass(w, q, mem, i, b).spoilt ==> Pass(w, q, mem, i, b).rows == Joins.Pass(w, q, mem, i, b)
    decreases |q.from| - i, 0
  {
    hide Joins.LateHold;
    UnspoiltLoop(w, q, mem, i + 1, b);
  }

  lemma {:induction false} UnspoiltScan(w: World, q: Joins.Query, mem: map<int, Value>, i: nat, b: Joins.Binding,
                                        p: nat)
    requires q.Valid() && i < |q.from|
    ensures !Scan(w, q, mem, i, b, p).spoilt ==> Scan(w, q, mem, i, b, p).rows == Joins.Scan(w, q, mem, i, b, p)
    decreases |q.from| - i, 1, |w.rows(q.from[i].cursor)| - p
  {
    hide Joins.EarlyHold, Pass, Joins.Pass;
    if p < |w.rows(q.from[i].cursor)| {
      UnspoiltPass(w, q, mem, i, b[q.from[i].cursor := Cursor(p, false)]);
      UnspoiltScan(w, q, mem, i, b, p + 1);
    }
  }

  /** No LEFT JOIN from FROM entry 32 on. */
  predicate AllExamined(q: Joins.Query) { forall i :: EXAMINED <= i < |q.from| ==> !q.from[i].left }

  lemma {:induction false} NeverSpoilt(w: World, q: Joins.Query, mem: map<int, Value>, i: nat, b: Joins.Binding)
    requires q.Valid() && i <= |q.from| && AllExamined(q)
    ensures !Loop(w, q, mem, i, b).spoilt
    decreases |q.from| - i, 2
  {
    hide Joins.LateHold, Joins.EarlyHold, Joins.Matched;
    if i < |q.from| {
      ScanNeverSpoilt(w, q, mem, i, b, 0);
      NeverSpoilt(w, q, mem, i + 1, NullPlace(q, i, b));
    }
  }

  lemma {:induction false} ScanNeverSpoilt(w: World, q: Joins.Query, mem: map<int, Value>, i: nat, b: Joins.Binding,
                                           p: nat)
    requires q.Valid() && i < |q.from| && AllExamined(q)
    ensures !Scan(w, q, mem, i, b, p).spoilt
    decreases |q.from| - i, 1, |w.rows(q.from[i].cursor)| - p
  {
    hide Joins.LateHold, Joins.EarlyHold;
    if p < |w.rows(q.from[i].cursor)| {
      var b' := b[q.from[i].cursor := Cursor(p, false)];
      NeverSpoilt(w, q, mem, i + 1, b');
      assert !Pass(w, q, mem, i, b').spoilt;
      assert !RowYield(w, q, mem, i, b').spoilt;
      ScanNeverSpoilt(w, q, mem, i, b, p + 1);
    }
  }

  /** Where cursor 0 is not one of the FROM cursors the second NULL row is harmless. */
  lemma {:induction false} ElsewhereLoop(w: World, q: Joins.Query, mem: map<int, Value>, i: nat, b: Joins.Binding)
    requires q.Valid() && i <= |q.from| && 0 !in q.Bound(|q.from|) && 0 !in b
    ensures Loop(w, q, mem, i, b).rows == Joins.Loop(w, q, mem, i, b)
    decreases |q.from| - i, 2
  {
    hide Loop, Joins.Loop, Scan, Joins.Scan, Pass, Joins.Pass, Joins.Matched;
    if i == |q.from| {
      LoopEnds(w, q, mem, b);
    } else {
      LoopIs(w, q, mem, i, b);
      assert q.from[i].cursor in q.Bound(|q.from|);
      ElsewhereScan(w, q, mem, i, b, 0);
      ElsewherePass(w, q, mem, i, b[q.from[i].cursor := Cursor(0, true)]);
    }
  }

  lemma {:induction false} ElsewherePass(w: World, q: Joins.Query, mem: map<int, Value>, i: nat, b: Joins.Binding)
    requires q.Valid() && i < |q.from| && 0 !in q.Bound(|q.from|) && 0 !in b
    ensures Pass(w, q, mem, i, b).rows == Joins.Pass(w, q, mem, i, b)
    decreases |q.from| - i, 0
  {
    hide Joins.LateHold;
    ElsewhereLoop(w, q, mem, i + 1, b);
  }

  lemma {:induction false} ElsewhereScan(w: World, q: Joins.Query, mem: map<int, Value>, i: nat, b: Joins.Binding,
                                         p: nat)
    requires q.Valid() && i < |q.from| && 0 !in q.Bound(|q.from|) && 0 !in b
    ensures Scan(w, q, mem, i, b, p).rows == Joins.Scan(w, q, mem, i, b, p)
    decreases |q.from| - i, 1, |w.rows(q.from[i].cursor)| - p
  {
    hide Joins.EarlyHold, Pass, Joins.Pass;
    if p < |w.rows(q.from[i].cursor)| {
      assert q.from[i].cursor in q.Bound(|q.from|);
      ElsewherePass(w, q, mem, i, b[q.from[i].cursor := Cursor(p, false)]);
      ElsewhereScan(w, q, mem, i, b, p + 1);
    }
  }

  // What goes wrong: the loop over cursor 0 ends with the first row that has no match.

  /** Two rows in table 0, none in the tables of the LEFT JOINs from entry 32 on, one in every other. */
  function Lossy(base: Env, q: Joins.Query): World {
    World(t => if t == 0 then [Blank(), Blank()] else if Unmatched(q, t) then [] else [Blank()], base)
  }

  function Blank(): Row { Row(0, c => Null) }

  predicate Unmatched(q: Joins.Query, t: int) {
    exists i :: EXAMINED <= i < |q.from| && q.from[i].left && q.from[i].cursor == t
  }

  lemma LossyRows(base: Env, q: Joins.Query, i: nat)
    requires q.Valid() && 0 < i < |q.from| && q.from[0].cursor == 0
    ensures q.from[i].cursor != 0
    ensures Lossy(base, q).rows(q.from[i].cursor) == if i >= EXAMINED && q.from[i].left then [] else [Blank()]
  {
  }

  predicate LateLeft(q: Joins.Query, i: nat) { exists k :: i <= k < |q.from| && EXAMINED <= k && q.from[k].left }

  lemma OneRow(w: World, q: Joins.Query, mem: map<int, Value>, i: nat, b: Joins.Binding)
    requires q.Valid() && q.terms == [] && i < |q.from| && q.from[i].cursor != 0 && |w.rows(q.from[i].cursor)| == 1
    ensures var b' := b[q.from[i].cursor := Cursor(0, false)];
            && Loop(w, q, mem, i, b) == Loop(w, q, mem, i + 1, b')
            && Joins.Answer(w, q, mem, i, b) == Joins.Answer(w, q, mem, i + 1, b')
  {
    hide Joins.Query.Valid;
    var b' := b[q.from[i].cursor := Cursor(0, false)];
    var y := Loop(w, q, mem, i + 1, b');
    assert RowYield(w, q, mem, i, b') == Pass(w, q, mem, i, b') == y;
    assert Scan(w, q, mem, i, Spoil(b, y.spoilt), 1) == NOTHING;
    assert y.Then(NOTHING) == y;
    assert Scan(w, q, mem, i, b, 0) == y;
    assert Joins.Matched(w, q, mem, i, b, 0);
    assert Joins.OnHolds(w, q, mem, i, b') && Joins.MatchFrom(w, q, mem, i, b, 0);
    assert Joins.AnswerRows(w, q, mem, i, b, 1) == [];
    assert Joins.AnswerRows(w, q, mem, i, b, 0) == Joins.Answer(w, q, mem, i + 1, b') + [];
  }

  lemma NoRows(w: World, q: Joins.Query, mem: map<int, Value>, i: nat, b: Joins.Binding)
    requires q.Valid() && q.terms == [] && i < |q.from| && q.from[i].left && w.rows(q.from[i].cursor) == []
    ensures Loop(w, q, mem, i, b) == Yield([], i >= EXAMINED).Then(Loop(w, q, mem, i + 1, NullPlace(q, i, b)))
    ensures Joins.Answer(w, q, mem, i, b) == Joins.Answer(w, q, mem, i + 1, b[q.from[i].cursor := Cursor(0, true)])
  {
    hide Joins.Query.Valid;
    assert Scan(w, q, mem, i, b, 0) == NOTHING && Joins.AnswerRows(w, q, mem, i, b, 0) == [];
    assert Pass(w, q, mem, i, NullPlace(q, i, b)) == Loop(w, q, mem, i + 1, NullPlace(q, i, b));
  }

  lemma NoEntryLeft(w: World, q: Joins.Query, mem: map<int, Value>, b: Joins.Binding)
    requires q.Valid() && q.terms == []
    ensures |Loop(w, q, mem, |q.from|, b).rows| == 1 && !Loop(w, q, mem, |q.from|, b).spoilt
    ensures |Joins.Answer(w, q, mem, |q.from|, b)| == 1
  {
  }

  /** Every combination of the other tables is reported once, and spoils cursor 0. */
  lemma {:induction false} LossyLoop(base: Env, q: Joins.Query, mem: map<int, Value>, i: nat, b: Joins.Binding)
    requires q.Valid() && q.terms == [] && 0 < i <= |q.from| && q.from[0].cursor == 0
    ensures var y := Loop(Lossy(base, q), q, mem, i, b); |y.rows| == 1 && y.spoilt == LateLeft(q, i)
    ensures |Joins.Answer(Lossy(base, q), q, mem, i, b)| == 1
    decreases |q.from| - i
  {
    hide Lossy, Joins.Query.Valid, LateLeft, Loop, Joins.Answer;
    if i == |q.from| {
      LateLeftNext(q, i - 1);
      NoEntryLeft(Lossy(base, q), q, mem, b);
    } else {
      LossyRows(base, q, i);
      var w, cursor := Lossy(base, q), q.from[i].cursor;
      var b' := b[cursor := Cursor(0, false)];
      LateLeftNext(q, i);
      if w.rows(cursor) == [] {
        LossyLoop(base, q, mem, i + 1, NullPlace(q, i, b));
        LossyLoop(base, q, mem, i + 1, b[cursor := Cursor(0, true)]);
        NoRows(w, q, mem, i, b);
      } else {
        LossyLoop(base, q, mem, i + 1, b');
        OneRow(w, q, mem, i, b);
      }
    }
  }

  lemma LateLeftNext(q: Joins.Query, i: nat)
    requires i < |q.from|
    ensures !LateLeft(q, |q.from|)
    ensures LateLeft(q, i) <==> (i >= EXAMINED && q.from[i].left) || LateLeft(q, i + 1)
  {
  }

  /** A join without terms whose outermost loop is over cursor 0 is answered on all tables if and only
      if there is no LEFT JOIN from FROM entry 32 on. */
  lemma TermFreeJoins(base: Env, q: Joins.Query, mem: map<int, Value>)
    requires q.Valid() && q.terms == [] && |q.from| > 0 && q.from[0].cursor == 0
    ensures AllExamined(q)
            <==> forall w: World :: Loop(w, q, mem, 0, map[]).rows == Joins.Answer(w, q, mem, 0, map[])
    ensures !AllExamined(q) ==>
              |Joins.Answer(Lossy(base, q), q, mem, 0, map[])| == 2
              && |Loop(Lossy(base, q), q, mem, 0, map[]).rows| == 1
  {
    hide Loop, Joins.Loop, Joins.Answer, Lossy;
    if AllExamined(q) {
      forall w: World ensures Loop(w, q, mem, 0, map[]).rows == Joins.Answer(w, q, mem, 0, map[]) {
        NeverSpoilt(w, q, mem, 0, map[]);
        UnspoiltLoop(w, q, mem, 0, map[]);
        Joins.LoopIsCodedAnswer(w, q, mem);
        Joins.CodedIsSame(q);
      }
    } else {
      OutermostLoses(base, q, mem);
    }
  }

  lemma OutermostLoses(base: Env, q: Joins.Query, mem: map<int, Value>)
    requires q.Valid() && q.terms == [] && |q.from| > 0 && q.from[0].cursor == 0 && !AllExamined(q)
    ensures |Joins.Answer(Lossy(base, q), q, mem, 0, map[])| == 2
    ensures |Loop(Lossy(base, q), q, mem, 0, map[]).rows| == 1
  {
    var w, b, c := Lossy(base, q), map[0 := Cursor(0, false)], map[0 := Cursor(1, false)];
    assert |w.rows(0)| == 2;
    LossyLoop(base, q, mem, 1, b);
    LossyLoop(base, q, mem, 1, c);
    assert LateLeft(q, 1);
    var none: Joins.Binding := map[];
    assert none[0 := Cursor(0, false)] == b && none[0 := Cursor(1, false)] == c;
    assert Joins.AnswerRows(w, q, mem, 0, none, 2) == [];
    assert |Joins.AnswerRows(w, q, mem, 0, none, 1)| == 1;
    assert RowYield(w, q, mem, 0, b) == Loop(w, q, mem, 1, b);
    assert Scan(w, q, mem, 0, none, 0) == Loop(w, q, mem, 1, b);
  }

  /** 33 tables, the last one in a LEFT JOIN. */
  function WideJoin(): Joins.Query {
    Joins.Query(seq(33, k => Joins.Source(k, k == 32)), [], [], 0)
  }

  /** Over two rows in the first table, one in the next 31 and none in the last there are two answers, and
      the loops report one. */
  lemma WideJoinLosesRow(base: Env, mem: map<int, Value>)
    ensures WideJoin().Valid()
    ensures |Joins.Answer(Lossy(base, WideJoin()), WideJoin(), mem, 0, map[])| == 2
    ensures |Loop(Lossy(base, WideJoin()), WideJoin(), mem, 0, map[]).rows| == 1
  {
    hide Loop, Joins.Answer, Lossy;
    assert WideJoin().from[32].left;
    TermFreeJoins(base, WideJoin(), mem);
  }
}
