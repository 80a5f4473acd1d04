/** The program of a join by full scans, laid out with known addresses, and the proof that the
    machine runs it as the nested loops of module Joins. */
module JoinCode {
  import opened Values
  import opened Expressions
  import opened Machine
  import opened Layout
  import opened Fragments
  import opened ExprCorrect
  import opened Agreement
  import opened CodedLoops
  import Joins

  /** One loop: its cursor, its index cursor or -1, the memory cell of its LEFT JOIN flag (unused in
      other loops), and the terms tested before and after that flag is set. */
  datatype Level = Level(cursor: int, indexCursor: int, left: bool, flag: int, early: seq<Expr>, late: seq<Expr>)

  function TermsLen(es: seq<Expr>): nat {
    if es == [] then 0 else JumpLen(es[0], false) + TermsLen(es[1..])
  }

  /** Every term jumps to `cont` unless it is true. */
  function TermsCode(h: Helpers, es: seq<Expr>, cont: int, a: nat): (code: seq<Op>)
    ensures |code| == TermsLen(es)
  {
    if es == [] then []
    else JumpCode(h, es[0], false, cont, true, false, a) + TermsCode(h, es[1..], cont, a + JumpLen(es[0], false))
  }

  function ResultsLen(es: seq<Expr>): nat {
    if es == [] then 0 else ValueLen(es[0]) + ResultsLen(es[1..])
  }

  function ResultsCode(h: Helpers, es: seq<Expr>, a: nat): (code: seq<Op>)
    ensures |code| == ResultsLen(es)
  {
    if es == [] then [] else ValueCode(h, es[0], false, a) + ResultsCode(h, es[1..], a + ValueLen(es[0]))
  }

  /** Code before the loop body of a level, up to and including the early terms. */
  function HeadCode(h: Helpers, l: Level, cont: int, brk: int, a: nat): (code: seq<Op>)
    ensures |code| == (if l.left then 2 else 0) + 1 + TermsLen(l.early)
  {
    var b := a + (if l.left then 2 else 0);
    (if l.left then [Ins(OpString, 0, 0), Ins(OpMemStore, l.flag, 1)] else [])
    + [Ins(OpRewind, l.cursor, brk)] + TermsCode(h, l.early, cont, b + 1)
  }

  /** Setting the flag, and the late terms. */
  function MarkCode(h: Helpers, l: Level, cont: int, a: nat): (code: seq<Op>)
    ensures |code| == if l.left then 2 + TermsLen(l.late) else 0
  {
    if l.left then [Ins(OpInteger, 1, 0), Ins(OpMemStore, l.flag, 1)] + TermsCode(h, l.late, cont, a + 2) else []
  }

  /** The NULL rows of the cursor and of the index cursor. */
  function NullRowCode(l: Level): (code: seq<Op>)
    ensures |code| == NullRows(l)
  {
    [Ins(OpNullRow, l.cursor, 0)] + if l.indexCursor >= 0 then [Ins(OpNullRow, l.indexCursor, 0)] else []
  }

  function NullRows(l: Level): nat { 1 + BoolInt(l.indexCursor >= 0) }

  /** Advancing the cursor, and one pass over a NULL row if nothing matched. */
  function TailCode(l: Level, start: int, top: int, a: nat): (code: seq<Op>)
    ensures |code| == TailLen(l)
  {
    [Ins(OpNext, l.cursor, start)]
    + (if l.left then [Ins(OpMemLoad, l.flag, 0), Ins(OpNotNull, 1, a + 4 + NullRows(l))] + NullRowCode(l)
                      + [Ins(OpGoto, 0, top)] else [])
  }

  function HeadLen(l: Level): nat { (if l.left then 2 else 0) + 1 + TermsLen(l.early) }
  function MarkLen(l: Level): nat { if l.left then 2 + TermsLen(l.late) else 0 }
  function TailLen(l: Level): nat { if l.left then 4 + NullRows(l) else 1 }

  function LoopLen(ls: seq<Level>, results: seq<Expr>): (n: nat)
    ensures n > 0
  {
    if ls == [] then ResultsLen(results) + 1
    else HeadLen(ls[0]) + MarkLen(ls[0]) + LoopLen(ls[1..], results) + TailLen(ls[0])
  }

  /** The nested loops at address `a`; the innermost body computes and reports the results. */
  function LoopCode(h: Helpers, ls: seq<Level>, results: seq<Expr>, a: nat): (code: seq<Op>)
    ensures |code| == LoopLen(ls, results)
  {
    if ls == [] then ResultsCode(h, results, a) + [Ins(OpCallback, |results|, 0)]
    else
      var l := ls[0];
      var start := a + HeadLen(l) - TermsLen(l.early);
      var top := a + HeadLen(l);
      var inner := top + MarkLen(l);
      var cont := inner + LoopLen(ls[1..], results);
      HeadCode(h, l, cont, cont + 1, a) + MarkCode(h, l, cont, top) + LoopCode(h, ls[1..], results, inner)
      + TailCode(l, start, top, cont)
  }

  predicate AllHold(es: seq<Expr>, env: Env) {
    forall e :: e in es ==> TruthIn(e, false, env) == True
  }

  lemma TermsRun(c: Context, es: seq<Expr>, cont: int, a: nat, s: seq<Value>, cells: int)
    requires !c.useAgg && cont != 0 && c.Has(a, TermsCode(c.H(), es, cont, a))
    requires forall e :: e in es ==> PlainTest(e, cells)
    ensures c.Goes(a, s, if AllHold(es, c.Env()) then a + TermsLen(es) else cont, s)
  {
    hide Context.Goes, Context.Has, JumpCode, JumpLen, LeaksJump, Eval;
    if es == [] {
      c.Stay(a, s);
    } else {
      var b := a + JumpLen(es[0], false);
      c.Split(a, JumpCode(c.H(), es[0], false, cont, true, false, a), TermsCode(c.H(), es[1..], cont, b));
      var jumped, g := JumpRuns(c, es[0], false, cont, true, a, s);
      PlainTestNeverLeaks(es[0], cells, false, true, false, c.Env());
      assert s + g == s;
      assert jumped == (TruthIn(es[0], false, c.Env()) != True);
      if !jumped {
        TermsRun(c, es[1..], cont, b, s, cells);
        c.Then(a, s, b, s, if AllHold(es[1..], c.Env()) then a + TermsLen(es) else cont, s);
        assert es == [es[0]] + es[1..];
      }
    }
  }

  lemma ResultsRun(c: Context, es: seq<Expr>, a: nat, s: seq<Value>, cells: int)
    requires !c.useAgg && c.Has(a, ResultsCode(c.H(), es, a))
    requires forall e :: e in es ==> Plain(e, cells)
    ensures c.Goes(a, s, a + ResultsLen(es), s + Joins.Project(c.w, c.mem, c.cursors, es))
  {
    hide Context.Goes, Context.Has, ValueCode, ValueLen, Eval;
    if es == [] {
      c.Stay(a, s);
      assert s + Joins.Project(c.w, c.mem, c.cursors, es) == s;
    } else {
      var b := a + ValueLen(es[0]);
      c.Split(a, ValueCode(c.H(), es[0], false, a), ResultsCode(c.H(), es[1..], b));
      var x := ValueRuns(c, es[0], a, s);
      PlainNeverLeaks(es[0], cells, false, c.Env());
      ResultsRun(c, es[1..], b, s + x, cells);
      assert s + x + Joins.Project(c.w, c.mem, c.cursors, es[1..]) == s + Joins.Project(c.w, c.mem, c.cursors, es);
      c.Then(a, s, b, s + x, a + ResultsLen(es), s + Joins.Project(c.w, c.mem, c.cursors, es));
    }
  }

  // Steps that change more than the stack. A context carries the cursors, memory and results.

  ghost predicate Gets(c: Context, a: int, s: seq<Value>, d: Context, b: int, t: seq<Value>) {
    Reaches(c.prog, c.w, c.At(a, s), d.At(b, t))
  }

  ghost predicate SameProgram(c: Context, d: Context) {
    d == c.(cursors := d.cursors, mem := d.mem, results := d.results)
  }

  lemma FromGoes(c: Context, a: int, s: seq<Value>, b: int, t: seq<Value>)
    requires c.Goes(a, s, b, t)
    ensures Gets(c, a, s, c, b, t)
  {
  }

  lemma GetsThen(c: Context, a: int, s: seq<Value>, d: Context, b: int, t: seq<Value>, e: Context, x: int,
                 u: seq<Value>)
    requires SameProgram(c, d) && Gets(c, a, s, d, b, t) && Gets(d, b, t, e, x, u)
    ensures Gets(c, a, s, e, x, u)
  {
    ReachesTrans(c.prog, c.w, c.At(a, s), d.At(b, t), e.At(x, u));
  }

  /** After reaching `b`, one instruction takes context `d` to `e`. */
  lemma GetsDo(c: Context, a: int, s: seq<Value>, d: Context, b: int, t: seq<Value>, e: Context, x: int, u: seq<Value>)
    requires SameProgram(c, d) && Gets(c, a, s, d, b, t) && Step(d.prog, d.w, d.At(b, t)) == e.At(x, u)
    ensures Gets(c, a, s, e, x, u)
  {
    ReachesStep(d.prog, d.w, d.At(b, t));
    ReachesTrans(c.prog, c.w, c.At(a, s), d.At(b, t), e.At(x, u));
  }

  function Store(c: Context, cell: int, v: Value): Context { c.(mem := c.mem[cell := v]) }
  function Place(c: Context, t: int, x: Cursor): Context { c.(cursors := c.cursors[t := x]) }

  lemma StoreStep(c: Context, b: nat, t: seq<Value>, cell: int)
    requires b < |c.prog| && c.prog[b] == Ins(OpMemStore, cell, 1) && |t| >= 1
    ensures Step(c.prog, c.w, c.At(b, t)) == Store(c, cell, Top(t)).At(b + 1, Drop(t, 1))
  {
  }

  lemma RewindStep(c: Context, b: nat, t: seq<Value>, cursor: int, brk: nat)
    requires b < |c.prog| && c.prog[b] == Ins(OpRewind, cursor, brk) && brk > 0
    ensures var empty := |c.w.rows(cursor)| == 0;
            Step(c.prog, c.w, c.At(b, t)) == Place(c, cursor, Cursor(0, empty)).At(if empty then brk else b + 1, t)
  {
  }

  lemma NextStep(c: Context, b: nat, t: seq<Value>, cursor: int, start: nat)
    requires b < |c.prog| && c.prog[b] == Ins(OpNext, cursor, start) && cursor in c.cursors
    ensures var x := c.cursors[cursor];
            var atEnd := x.nullRow || x.pos + 1 >= |c.w.rows(cursor)|;
            Step(c.prog, c.w, c.At(b, t))
            == Place(c, cursor, if x.nullRow then x else Cursor(x.pos + 1, atEnd)).At(if atEnd then b + 1 else start, t)
  {
  }

  lemma NullRowStep(c: Context, b: nat, t: seq<Value>, cursor: int)
    requires b < |c.prog| && c.prog[b] == Ins(OpNullRow, cursor, 0)
    ensures Step(c.prog, c.w, c.At(b, t)) == ToNullRow(c, cursor).At(b + 1, t)
  {
  }

  lemma CallbackStep(c: Context, b: nat, s: seq<Value>, vs: seq<Value>)
    requires b < |c.prog| && c.prog[b] == Ins(OpCallback, |vs|, 0)
    ensures Step(c.prog, c.w, c.At(b, s + vs)) == c.(results := c.results + [vs]).At(b + 1, s)
  {
    assert (s + vs)[|s + vs| - |vs|..] == vs && Drop(s + vs, |vs|) == s;
  }

  // The induction over levels and rows.

  ghost predicate SameBelow(m1: map<int, Value>, m2: map<int, Value>, n: int) {
    forall m :: m < n ==> (m in m1) == (m in m2) && (m in m1 ==> m1[m] == m2[m])
  }

  /** The machine's cursors show the rows of the binding in the first `i` FROM entries. */
  ghost predicate Placed(w: World, q: Joins.Query, i: nat, b: Joins.Binding, cs: map<int, Cursor>)
    requires i <= |q.from|
  {
    forall j :: 0 <= j < i ==>
      q.from[j].cursor in cs && CurrentRow(w, cs, q.from[j].cursor) == CurrentRow(w, b, q.from[j].cursor)
  }

  /** The cursors of the first `i` FROM entries are where they were, but for cursor 0 if it is spoilt. */
  ghost predicate SamePlaces(q: Joins.Query, i: nat, cs: map<int, Cursor>, cs': map<int, Cursor>, spoilt: bool)
    requires i <= |q.from|
  {
    forall j :: 0 <= j < i && q.from[j].cursor in cs ==>
      q.from[j].cursor in cs' && cs'[q.from[j].cursor] == After(cs[q.from[j].cursor], spoilt && q.from[j].cursor == 0)
  }

  function After(x: Cursor, spoilt: bool): Cursor { if spoilt then x.(nullRow := true) else x }

  /** The levels carry exactly the terms that Joins tests there. */
  ghost predicate Fits(q: Joins.Query, ls: seq<Level>, i: nat)
    requires q.Valid()
  {
    && |ls| + i == |q.from|
    && (forall k :: 0 <= k < |ls| ==> FitsLevel(q, ls[k], i + k))
    && (forall j, k :: 0 <= j < k < |ls| ==> ls[j].flag + (if ls[j].left then 1 else 0) <= ls[k].flag)
  }

  ghost predicate FitsLevel(q: Joins.Query, l: Level, i: nat)
    requires q.Valid() && i < |q.from|
  {
    && l.cursor == q.from[i].cursor && l.indexCursor == IndexCursor(i) && l.left == q.from[i].left
    && l.flag >= q.cells
    && (forall t :: t in q.terms && Joins.Early(q, t, i) ==> t.e in l.early)
    && (forall e :: e in l.early ==> exists t :: t in q.terms && Joins.Early(q, t, i) && t.e == e)
    && (forall t :: t in q.terms && Joins.Late(q, t, i) ==> t.e in l.late)
    && (forall e :: e in l.late ==> exists t :: t in q.terms && Joins.Late(q, t, i) && t.e == e)
  }

  ghost predicate Ready(c: Context, q: Joins.Query, i: nat, mem: map<int, Value>, b: Joins.Binding) {
    && q.Valid() && i <= |q.from| && c.lo == 0 && c.hi == |c.prog| && !c.useAgg
    && Placed(c.w, q, i, b, c.cursors) && SameBelow(mem, c.mem, q.cells)
  }

  lemma TermsAgree(c: Context, q: Joins.Query, i: nat, mem: map<int, Value>, b: Joins.Binding, l: Level)
    requires i < |q.from| && Ready(c, q, i + 1, mem, b) && FitsLevel(q, l, i)
    ensures AllHold(l.early, c.Env()) == Joins.EarlyHold(c.w, q, mem, i, b)
    ensures AllHold(l.late, c.Env()) == Joins.LateHold(c.w, q, mem, i, b)
  {
    forall t | t in q.terms && q.Level(t) == i
      ensures TruthIn(t.e, false, c.Env()) == TruthIn(t.e, false, EnvAt(c.w, b, mem))
    {
      EnvsAgree(c, q, i + 1, mem, b);
      Joins.DepthBinds(q, t, i + 1);
      TruthAgrees(t.e, q.Bound(i + 1), q.cells, false, c.Env(), EnvAt(c.w, b, mem));
    }
  }

  lemma EnvsAgree(c: Context, q: Joins.Query, i: nat, mem: map<int, Value>, b: Joins.Binding)
    requires Ready(c, q, i, mem, b)
    ensures Agree(c.Env(), EnvAt(c.w, b, mem), q.Bound(i), q.cells)
  {
  }

  lemma ResultsAgree(c: Context, q: Joins.Query, mem: map<int, Value>, b: Joins.Binding)
    requires Ready(c, q, |q.from|, mem, b)
    ensures Joins.Project(c.w, c.mem, c.cursors, q.results) == Joins.Project(c.w, mem, b, q.results)
  {
    forall i | 0 <= i < |q.results|
      ensures Eval(q.results[i], false, c.Env()) == Eval(q.results[i], false, EnvAt(c.w, b, mem))
    {
      EnvsAgree(c, q, |q.from|, mem, b);
      EvalAgrees(q.results[i], q.Bound(|q.from|), q.cells, false, c.Env(), EnvAt(c.w, b, mem));
    }
  }

  // The addresses of one level.

  function StartOf(l: Level, a: nat): nat { a + HeadLen(l) - TermsLen(l.early) }
  function TopOf(l: Level, a: nat): nat { a + HeadLen(l) }
  function InnerOf(l: Level, a: nat): nat { a + HeadLen(l) + MarkLen(l) }
  function ContOf(ls: seq<Level>, results: seq<Expr>, a: nat): nat
    requires ls != []
  {
    InnerOf(ls[0], a) + LoopLen(ls[1..], results)
  }

  /** The pieces of a level's code are where its jumps expect them. */
  ghost predicate AtLevel(c: Context, ls: seq<Level>, results: seq<Expr>, a: nat)
    requires ls != []
  {
    var l, cont := ls[0], ContOf(ls, results, a);
    && cont + TailLen(l) <= c.hi <= |c.prog|
    && (l.left ==> c.prog[a] == Ins(OpString, 0, 0) && c.prog[a + 1] == Ins(OpMemStore, l.flag, 1))
    && c.prog[StartOf(l, a) - 1] == Ins(OpRewind, l.cursor, cont + 1)
    && c.Has(StartOf(l, a), TermsCode(c.H(), l.early, cont, StartOf(l, a)))
    && (l.left ==>
          && c.prog[TopOf(l, a)] == Ins(OpInteger, 1, 0) && c.prog[TopOf(l, a) + 1] == Ins(OpMemStore, l.flag, 1)
          && c.Has(TopOf(l, a) + 2, TermsCode(c.H(), l.late, cont, TopOf(l, a) + 2)))
    && c.Has(InnerOf(l, a), LoopCode(c.H(), ls[1..], results, InnerOf(l, a)))
    && c.prog[cont] == Ins(OpNext, l.cursor, StartOf(l, a))
    && (l.left ==>
          && c.prog[cont + 1] == Ins(OpMemLoad, l.flag, 0)
          && c.prog[cont + 2] == Ins(OpNotNull, 1, cont + 4 + NullRows(l))
          && c.Has(cont + 3, NullRowCode(l)) && c.prog[cont + 3 + NullRows(l)] == Ins(OpGoto, 0, TopOf(l, a)))
  }

  lemma LevelSplit(c: Context, ls: seq<Level>, results: seq<Expr>, a: nat)
    requires ls != [] && c.Has(a, LoopCode(c.H(), ls, results, a))
    ensures var l, cont := ls[0], ContOf(ls, results, a);
            && c.Has(a, HeadCode(c.H(), l, cont, cont + 1, a))
            && c.Has(TopOf(l, a), MarkCode(c.H(), l, cont, TopOf(l, a)))
            && c.Has(InnerOf(l, a), LoopCode(c.H(), ls[1..], results, InnerOf(l, a)))
            && c.Has(cont, TailCode(l, StartOf(l, a), TopOf(l, a), cont))
  {
    hide Context.Has, ResultsCode, TermsCode, TermsLen, ResultsLen, LoopLen, HeadCode, MarkCode, TailCode;
    var l, h, cont := ls[0], c.H(), ContOf(ls, results, a);
    var head, mark := HeadCode(h, l, cont, cont + 1, a), MarkCode(h, l, cont, TopOf(l, a));
    var body, tail := LoopCode(h, ls[1..], results, InnerOf(l, a)), TailCode(l, StartOf(l, a), TopOf(l, a), cont);
    c.Split(a, head + mark + body, tail);
    c.Split(a, head + mark, body);
    c.Split(a, head, mark);
  }

  lemma LevelParts(c: Context, ls: seq<Level>, results: seq<Expr>, a: nat)
    requires ls != [] && c.Has(a, LoopCode(c.H(), ls, results, a))
    ensures AtLevel(c, ls, results, a)
  {
    hide Context.Has, LoopCode, TermsCode, TermsLen, LoopLen, HeadCode, MarkCode, TailCode;
    var l, cont := ls[0], ContOf(ls, results, a);
    LevelSplit(c, ls, results, a);
    HeadParts(c, l, cont, a);
    MarkParts(c, l, cont, TopOf(l, a));
    TailParts(c, l, StartOf(l, a), TopOf(l, a), cont);
  }

  lemma HeadParts(c: Context, l: Level, cont: int, a: nat)
    requires c.Has(a, HeadCode(c.H(), l, cont, cont + 1, a))
    ensures StartOf(l, a) <= |c.prog| && c.Has(StartOf(l, a), TermsCode(c.H(), l.early, cont, StartOf(l, a)))
    ensures c.prog[StartOf(l, a) - 1] == Ins(OpRewind, l.cursor, cont + 1)
    ensures l.left ==> c.prog[a] == Ins(OpString, 0, 0) && c.prog[a + 1] == Ins(OpMemStore, l.flag, 1)
  {
    hide TermsCode, TermsLen;
    var n := if l.left then 2 else 0;
    var first := (if l.left then [Ins(OpString, 0, 0), Ins(OpMemStore, l.flag, 1)] else [])
                 + [Ins(OpRewind, l.cursor, cont + 1)];
    c.Split(a, first, TermsCode(c.H(), l.early, cont, a + n + 1));
    c.Fetch(a, first, n);
    if l.left { c.Fetch(a, first, 0); c.Fetch(a, first, 1); }
  }

  lemma MarkParts(c: Context, l: Level, cont: int, a: nat)
    requires c.Has(a, MarkCode(c.H(), l, cont, a))
    ensures l.left ==>
              a + 1 < |c.prog| && c.prog[a] == Ins(OpInteger, 1, 0) && c.prog[a + 1] == Ins(OpMemStore, l.flag, 1)
    ensures l.left ==> c.Has(a + 2, TermsCode(c.H(), l.late, cont, a + 2))
  {
    hide TermsCode, TermsLen;
    if l.left {
      var first := [Ins(OpInteger, 1, 0), Ins(OpMemStore, l.flag, 1)];
      c.Split(a, first, TermsCode(c.H(), l.late, cont, a + 2));
      c.Fetch(a, first, 0);
      c.Fetch(a, first, 1);
    }
  }

  lemma TailParts(c: Context, l: Level, start: int, top: int, a: nat)
    requires c.Has(a, TailCode(l, start, top, a))
    ensures a + TailLen(l) <= c.hi <= |c.prog| && c.prog[a] == Ins(OpNext, l.cursor, start)
    ensures l.left ==>
              && c.prog[a + 1] == Ins(OpMemLoad, l.flag, 0)
              && c.prog[a + 2] == Ins(OpNotNull, 1, a + 4 + NullRows(l))
              && c.Has(a + 3, NullRowCode(l)) && c.prog[a + 3 + NullRows(l)] == Ins(OpGoto, 0, top)
  {
    hide Context.Has, NullRowCode;
    var code := TailCode(l, start, top, a);
    c.Fetch(a, code, 0);
    if l.left {
      var first := [Ins(OpNext, l.cursor, start), Ins(OpMemLoad, l.flag, 0), Ins(OpNotNull, 1, a + 4 + NullRows(l))];
      var last := [Ins(OpGoto, 0, top)];
      assert code == first + NullRowCode(l) + last;
      c.Split(a, first + NullRowCode(l), last);
      c.Split(a, first, NullRowCode(l));
      c.Fetch(a, first, 1);
      c.Fetch(a, first, 2);
      c.Fetch(a + 3 + NullRows(l), last, 0);
    }
  }

  /** From `a` to `x` the machine reports the rows of `y` and keeps the cursors of the first `i` FROM
      entries, but for cursor 0 if `y` is spoilt, the memory below `floor` and the stack. */
  ghost predicate Emits(q: Joins.Query, i: nat, floor: int, c: Context, a: int, d: Context, x: int, s: seq<Value>,
                        y: Yield)
    requires i <= |q.from|
  {
    && SameProgram(c, d) && Gets(c, a, s, d, x, s) && d.results == c.results + y.rows
    && SamePlaces(q, i, c.cursors, d.cursors, y.spoilt) && SameBelow(c.mem, d.mem, floor)
  }

  lemma EmitsThen(q: Joins.Query, i: nat, floor: int, c: Context, a: int, d: Context, x: int, e: Context, x': int,
                  s: seq<Value>, y: Yield, y': Yield)
    requires i <= |q.from| && Emits(q, i, floor, c, a, d, x, s, y) && Emits(q, i, floor, d, x, e, x', s, y')
    ensures Emits(q, i, floor, c, a, e, x', s, y.Then(y'))
  {
    hide Gets;
    GetsThen(c, a, s, d, x, s, e, x', s);
  }

  lemma EmitsLess(q: Joins.Query, i: nat, floor: int, i': nat, floor': int, c: Context, a: int, d: Context, x: int,
                  s: seq<Value>, y: Yield)
    requires i <= i' <= |q.from| && floor <= floor' && Emits(q, i', floor', c, a, d, x, s, y)
    ensures Emits(q, i, floor, c, a, d, x, s, y)
  {
    hide Gets;
  }

  lemma EmitsReady(q: Joins.Query, i: nat, floor: int, mem: map<int, Value>, b: Joins.Binding, c: Context, a: int,
                   d: Context, x: int, s: seq<Value>, y: Yield)
    requires Ready(c, q, i, mem, b) && q.cells <= floor && Emits(q, i, floor, c, a, d, x, s, y)
    ensures Ready(d, q, i, mem, Spoil(b, y.spoilt))
  {
    hide Gets;
  }

  lemma NothingThen(y: Yield)
    ensures NOTHING.Then(y) == y && y.Then(NOTHING) == y
  {
  }

  lemma EmitsGoes(q: Joins.Query, i: nat, floor: int, c: Context, a: int, x: int, s: seq<Value>)
    requires i <= |q.from| && c.Goes(a, s, x, s)
    ensures Emits(q, i, floor, c, a, c, x, s, NOTHING)
  {
  }

  predicate FlagSet(c: Context, l: Level) { !c.Env().mem(l.flag).Null? }

  /** A level's loop, standing in the program of a query. */
  ghost predicate Stands(c: Context, q: Joins.Query, ls: seq<Level>, i: nat, a: nat, floor: int) {
    && q.Valid() && i < |q.from| && ls != [] && Fits(q, ls, i) && AtLevel(c, ls, q.results, a)
    && q.cells <= floor && (forall k :: 0 <= k < |ls| ==> floor <= ls[k].flag)
  }

  lemma StandsStill(c: Context, d: Context, q: Joins.Query, ls: seq<Level>, i: nat, a: nat, floor: int)
    requires Stands(c, q, ls, i, a, floor) && SameProgram(c, d)
    ensures Stands(d, q, ls, i, a, floor)
  {
    hide Fits, LoopCode, TermsCode, LoopLen, TermsLen;
  }

  /** Positioning the cursor of entry `i` makes the machine ready for the next level. */
  lemma Enter(c: Context, q: Joins.Query, i: nat, mem: map<int, Value>, b: Joins.Binding, x: Cursor)
    requires Ready(c, q, i, mem, b) && i < |q.from| && q.from[i].cursor in c.cursors
    requires CurrentRow(c.w, c.cursors, q.from[i].cursor)
             == CurrentRow(c.w, map[q.from[i].cursor := x], q.from[i].cursor)
    ensures Ready(c, q, i + 1, mem, b[q.from[i].cursor := x])
  {
  }

  lemma OtherPlaces(c: Context, q: Joins.Query, i: nat, x: Cursor)
    requires q.Valid() && i < |q.from|
    ensures SamePlaces(q, i, c.cursors, Place(c, q.from[i].cursor, x).cursors, false)
  {
  }

  lemma TestFlag(c: Context, q: Joins.Query, ls: seq<Level>, i: nat, a: nat, s: seq<Value>, floor: int)
    requires Stands(c, q, ls, i, a, floor) && ls[0].left && c.lo == 0
    ensures var b := ContOf(ls, q.results, a) + 1;
            Emits(q, i, floor, c, b, c, if FlagSet(c, ls[0]) then b + 3 + NullRows(ls[0]) else b + 2, s, NOTHING)
  {
    hide Context.Goes, Fits, LoopCode, TermsCode, LoopLen, TermsLen, Context.Has, Gets, Step;
    var b := ContOf(ls, q.results, a) + 1;
    FlagJump(c, ls[0], b, s, b + 3 + NullRows(ls[0]));
    EmitsGoes(q, i, floor, c, b, if FlagSet(c, ls[0]) then b + 3 + NullRows(ls[0]) else b + 2, s);
  }

  /** The test of the flag: load it, then jump unless it is NULL. */
  lemma FlagJump(c: Context, l: Level, b: nat, s: seq<Value>, end: nat)
    requires c.lo <= b < b + 1 < c.hi <= |c.prog|
    requires c.prog[b] == Ins(OpMemLoad, l.flag, 0) && c.prog[b + 1] == Ins(OpNotNull, 1, end)
    ensures c.Goes(b, s, if FlagSet(c, l) then end else b + 2, s)
  {
    hide Context.Goes;
    var v := c.Env().mem(l.flag);
    c.Do(b, s, b + 1, s + [v]);
    assert Drop(s + [v], 1) == s;
    var _ := ThenNullTest(c, b, s, b + 1, s + [v], OpNotNull, 1, end);
  }

  lemma PushStep(c: Context, b: nat, s: seq<Value>, one: bool)
    requires b < |c.prog| && c.prog[b] == if one then Ins(OpInteger, 1, 0) else Ins(OpString, 0, 0)
    ensures Step(c.prog, c.w, c.At(b, s)) == c.At(b + 1, s + [if one then Number(1) else Null])
  {
  }

  /** A level's flag is set to 1, or cleared to NULL, by a push and a store. */
  lemma FlagRuns(c: Context, q: Joins.Query, i: nat, a: nat, s: seq<Value>, flag: int, floor: int, one: bool)
    requires a + 1 < |c.prog| && i <= |q.from| && floor <= flag && c.prog[a + 1] == Ins(OpMemStore, flag, 1)
    requires c.prog[a] == if one then Ins(OpInteger, 1, 0) else Ins(OpString, 0, 0)
    ensures Emits(q, i, floor, c, a, Store(c, flag, if one then Number(1) else Null), a + 2, s, NOTHING)
  {
    hide Step, Reaches, Run;
    var v := if one then Number(1) else Null;
    ReachesStep(c.prog, c.w, c.At(a, s));
    PushStep(c, a, s, one);
    StoreStep(c, a + 1, s + [v], flag);
    assert Drop(s + [v], 1) == s && Top(s + [v]) == v;
    GetsDo(c, a, s, c, a + 1, s + [v], Store(c, flag, v), a + 2, s);
  }

  /** Clearing the flag and rewinding. */
  lemma StartRuns(c: Context, q: Joins.Query, ls: seq<Level>, i: nat, a: nat, s: seq<Value>, floor: int)
    returns (d: Context)
    requires Stands(c, q, ls, i, a, floor)
    ensures var l, empty := ls[0], c.w.rows(ls[0].cursor) == [];
            && Emits(q, i, floor, c, a, d, if empty then ContOf(ls, q.results, a) + 1 else StartOf(l, a), s,
                     NOTHING)
            && l.cursor in d.cursors && d.cursors[l.cursor] == Cursor(0, empty) && (l.left ==> !FlagSet(d, l))
  {
    hide Context.Goes, Fits, LoopCode, TermsCode, LoopLen, TermsLen, Context.Has, Emits, Gets, Step, SamePlaces,
         SameBelow;
    var l, start := ls[0], StartOf(ls[0], a);
    var c1 := if l.left then Store(c, l.flag, Null) else c;
    if l.left {
      FlagRuns(c, q, i, a, s, l.flag, floor, false);
    } else {
      c.Stay(a, s);
      EmitsGoes(q, i, floor, c, a, a, s);
    }
    var empty := c.w.rows(l.cursor) == [];
    var x := if empty then ContOf(ls, q.results, a) + 1 else start;
    d := Place(c1, l.cursor, Cursor(0, empty));
    RewindStep(c1, start - 1, s, l.cursor, ContOf(ls, q.results, a) + 1);
    FitsCursor(q, ls, i);
    OtherPlaces(c1, q, i, Cursor(0, empty));
    EmitsPlace(q, i, floor, c1, start - 1, d, x, s);
    EmitsThen(q, i, floor, c, a, c1, start - 1, d, x, s, NOTHING, NOTHING);
    NothingThen(NOTHING);
  }

  lemma EmitsPlace(q: Joins.Query, i: nat, floor: int, c: Context, a: int, d: Context, x: int, s: seq<Value>)
    requires i <= |q.from| && Step(c.prog, c.w, c.At(a, s)) == d.At(x, s)
    requires d == c.(cursors := d.cursors) && SamePlaces(q, i, c.cursors, d.cursors, false)
    ensures Emits(q, i, floor, c, a, d, x, s, NOTHING)
  {
    ReachesStep(c.prog, c.w, c.At(a, s));
  }

  lemma FitsCursor(q: Joins.Query, ls: seq<Level>, i: nat)
    requires q.Valid() && Fits(q, ls, i) && ls != []
    ensures FitsLevel(q, ls[0], i) && Fits(q, ls[1..], i + 1)
    ensures i < |q.from| && ls[0].left == q.from[i].left && ls[0].cursor == q.from[i].cursor
    ensures ls[0].indexCursor == IndexCursor(i)
    ensures forall k :: 0 <= k < |ls[1..]| ==> ls[0].flag + (if ls[0].left then 1 else 0) <= ls[1..][k].flag
  {
    assert FitsLevel(q, ls[0], i + 0);
    forall k | 0 <= k < |ls[1..]| ensures FitsLevel(q, ls[1..][k], i + 1 + k) {
      assert FitsLevel(q, ls[k + 1], i + (k + 1));
    }
  }

  /** The flag is set, the late terms are tested, and the inner loops run for the row at hand. */
  lemma PassRuns(c: Context, q: Joins.Query, ls: seq<Level>, i: nat, a: nat, s: seq<Value>, mem: map<int, Value>,
                 b: Joins.Binding, floor: int) returns (d: Context)
    requires Stands(c, q, ls, i, a, floor) && Ready(c, q, i + 1, mem, b)
    ensures Emits(q, i + 1, floor, c, TopOf(ls[0], a), d, ContOf(ls, q.results, a), s, Pass(c.w, q, mem, i, b))
    ensures ls[0].left ==> FlagSet(d, ls[0])
    decreases |ls|, 0
  {
    hide Fits, LoopCode, TermsCode, LoopLen, TermsLen, Context.Has, Context.Goes, Emits, Gets, Ready, FitsLevel,
         Loop, Joins.Project, Joins.LateHold, Joins.EarlyHold, SamePlaces, Step;
    var l, cont, inner := ls[0], ContOf(ls, q.results, a), InnerOf(ls[0], a);
    FitsCursor(q, ls, i);
    var c1 := c;
    var passes := true;
    if l.left {
      c1 := Store(c, l.flag, Number(1));
      FlagRuns(c, q, i + 1, TopOf(l, a), s, l.flag, floor, true);
      EmitsReady(q, i + 1, floor, mem, b, c, TopOf(l, a), c1, TopOf(l, a) + 2, s, NOTHING);
      StandsStill(c, c1, q, ls, i, a, floor);
      passes := AllHold(l.late, c1.Env());
      TermsAgree(c1, q, i, mem, b, l);
      LateTermsRun(c1, q, ls, i, a, s, mem, b, floor);
      EmitsThen(q, i + 1, floor, c, TopOf(l, a), c1, TopOf(l, a) + 2, c1, if passes then inner else cont, s, NOTHING,
                NOTHING);
      NothingThen(NOTHING);
    } else {
      NoLateTerms(c.w, q, mem, i, b);
      c.Stay(inner, s);
      EmitsGoes(q, i + 1, floor, c, inner, inner, s);
    }
    d := c1;
    if passes {
      var above := if l.left then l.flag + 1 else floor;
      d := LoopRuns(c1, q, ls[1..], i + 1, inner, s, mem, b, above);
      if l.left { KeepsFlag(q, i + 1, above, c1, inner, d, cont, s, Loop(c.w, q, mem, i + 1, b), l); }
      EmitsLess(q, i + 1, floor, i + 1, above, c1, inner, d, cont, s, Loop(c.w, q, mem, i + 1, b));
      EmitsThen(q, i + 1, floor, c, TopOf(l, a), c1, inner, d, cont, s, NOTHING, Loop(c.w, q, mem, i + 1, b));
      NothingThen(Loop(c.w, q, mem, i + 1, b));
    }
  }

  lemma NoLateTerms(w: World, q: Joins.Query, mem: map<int, Value>, i: nat, b: Joins.Binding)
    requires q.Valid() && i < |q.from| && !q.from[i].left
    ensures Joins.LateHold(w, q, mem, i, b)
  {
  }

  lemma KeepsFlag(q: Joins.Query, i: nat, floor: int, c: Context, a: int, d: Context, x: int, s: seq<Value>,
                  y: Yield, l: Level)
    requires i <= |q.from| && Emits(q, i, floor, c, a, d, x, s, y) && l.flag < floor
    ensures FlagSet(d, l) == FlagSet(c, l)
  {
    hide Gets, SamePlaces;
  }

  lemma LateTermsRun(c: Context, q: Joins.Query, ls: seq<Level>, i: nat, a: nat, s: seq<Value>, mem: map<int, Value>,
                     b: Joins.Binding, floor: int)
    requires Stands(c, q, ls, i, a, floor) && Ready(c, q, i + 1, mem, b) && ls[0].left
    ensures var x := if AllHold(ls[0].late, c.Env()) then InnerOf(ls[0], a) else ContOf(ls, q.results, a);
            Emits(q, i + 1, floor, c, TopOf(ls[0], a) + 2, c, x, s, NOTHING)
  {
    hide Fits, LoopCode, TermsCode, LoopLen, TermsLen, Context.Has, Context.Goes, Emits, Gets, AllHold;
    FitsCursor(q, ls, i);
    TermsRun(c, ls[0].late, ContOf(ls, q.results, a), TopOf(ls[0], a) + 2, s, q.cells);
    EmitsGoes(q, i + 1, floor, c, TopOf(ls[0], a) + 2,
              if AllHold(ls[0].late, c.Env()) then InnerOf(ls[0], a) else ContOf(ls, q.results, a), s);
  }

  lemma EarlyTermsRun(c: Context, q: Joins.Query, ls: seq<Level>, i: nat, a: nat, s: seq<Value>, mem: map<int, Value>,
                      b: Joins.Binding, floor: int)
    requires Stands(c, q, ls, i, a, floor) && Ready(c, q, i + 1, mem, b)
    ensures var x := if AllHold(ls[0].early, c.Env()) then TopOf(ls[0], a) else ContOf(ls, q.results, a);
            Emits(q, i + 1, floor, c, StartOf(ls[0], a), c, x, s, NOTHING)
  {
    hide Fits, LoopCode, TermsCode, LoopLen, TermsLen, Context.Has, Context.Goes, Emits, Gets, AllHold;
    FitsCursor(q, ls, i);
    TermsRun(c, ls[0].early, ContOf(ls, q.results, a), StartOf(ls[0], a), s, q.cells);
    EmitsGoes(q, i + 1, floor, c, StartOf(ls[0], a),
              if AllHold(ls[0].early, c.Env()) then TopOf(ls[0], a) else ContOf(ls, q.results, a), s);
  }

  /** One row: the early terms, and for a row that passes them the flag and the inner loops. */
  lemma RowRuns(c: Context, q: Joins.Query, ls: seq<Level>, i: nat, a: nat, s: seq<Value>, mem: map<int, Value>,
                b: Joins.Binding, floor: int) returns (d: Context)
    requires Stands(c, q, ls, i, a, floor) && Ready(c, q, i + 1, mem, b)
    ensures Emits(q, i + 1, floor, c, StartOf(ls[0], a), d, ContOf(ls, q.results, a), s,
                  RowYield(c.w, q, mem, i, b))
    ensures ls[0].left ==> FlagSet(d, ls[0]) == (FlagSet(c, ls[0]) || Joins.EarlyHold(c.w, q, mem, i, b))
    decreases |ls|, 1
  {
    hide Fits, LoopCode, TermsCode, LoopLen, TermsLen, Context.Has, Context.Goes, Emits, Gets, Ready, FitsLevel,
         Joins.LateHold, Joins.EarlyHold, Pass, SamePlaces, AtLevel, AllHold;
    FitsCursor(q, ls, i);
    TermsAgree(c, q, i, mem, b, ls[0]);
    EarlyTermsRun(c, q, ls, i, a, s, mem, b, floor);
    d := c;
    if Joins.EarlyHold(c.w, q, mem, i, b) {
      d := PassRuns(c, q, ls, i, a, s, mem, b, floor);
      var y := Pass(c.w, q, mem, i, b);
      EmitsThen(q, i + 1, floor, c, StartOf(ls[0], a), c, TopOf(ls[0], a), d, ContOf(ls, q.results, a), s, NOTHING, y);
      NothingThen(y);
    }
  }

  /** OP_Next on a row that is not the NULL row, from the end of one row to the next or past the last. */
  lemma Advance(c: Context, q: Joins.Query, ls: seq<Level>, i: nat, a: nat, s: seq<Value>, floor: int, p: nat)
    returns (d: Context)
    requires Stands(c, q, ls, i, a, floor) && q.from[i].cursor in c.cursors
             && c.cursors[q.from[i].cursor] == Cursor(p, false)
    ensures var atEnd := p + 1 >= |c.w.rows(q.from[i].cursor)|;
            && Emits(q, i, floor, c, ContOf(ls, q.results, a), d,
                     if atEnd then ContOf(ls, q.results, a) + 1 else StartOf(ls[0], a), s, NOTHING)
            && q.from[i].cursor in d.cursors && d.cursors[q.from[i].cursor] == Cursor(p + 1, atEnd)
    ensures d.mem == c.mem
  {
    hide Fits, LoopCode, TermsCode, LoopLen, TermsLen, Context.Has, Emits, FitsLevel, SamePlaces, Step;
    FitsCursor(q, ls, i);
    var x := Cursor(p + 1, p + 1 >= |c.w.rows(q.from[i].cursor)|);
    d := Place(c, q.from[i].cursor, x);
    NextStep(c, ContOf(ls, q.results, a), s, ls[0].cursor, StartOf(ls[0], a));
    OtherPlaces(c, q, i, x);
    EmitsPlace(q, i, floor, c, ContOf(ls, q.results, a), d,
               if x.nullRow then ContOf(ls, q.results, a) + 1 else StartOf(ls[0], a), s);
  }

  /** The rows from position `p` on, and the step past the last one. */
  lemma RowsRun(c: Context, q: Joins.Query, ls: seq<Level>, i: nat, a: nat, s: seq<Value>, mem: map<int, Value>,
                b: Joins.Binding, floor: int, p: nat) returns (d: Context)
    requires Stands(c, q, ls, i, a, floor) && Ready(c, q, i, mem, b) && p < |c.w.rows(q.from[i].cursor)|
    requires q.from[i].cursor in c.cursors && c.cursors[q.from[i].cursor] == Cursor(p, false)
    ensures Emits(q, i, floor, c, StartOf(ls[0], a), d, ContOf(ls, q.results, a) + 1, s,
                  Scan(c.w, q, mem, i, b, p))
    ensures q.from[i].cursor in d.cursors
    ensures ls[0].left ==> FlagSet(d, ls[0]) == (FlagSet(c, ls[0]) || Joins.Matched(c.w, q, mem, i, b, p))
    decreases |ls|, 2, |c.w.rows(q.from[i].cursor)| - p
  {
    hide Fits, LoopCode, TermsCode, LoopLen, TermsLen, Context.Has, Context.Goes, Emits, Gets, Ready, FitsLevel,
         Joins.LateHold, Joins.EarlyHold, Pass, RowYield, Scan, Joins.Matched, Joins.Query.Valid, SamePlaces, AtLevel,
         StartOf, ContOf;
    var cursor, start, cont := q.from[i].cursor, StartOf(ls[0], a), ContOf(ls, q.results, a);
    var b' := b[cursor := Cursor(p, false)];
    Enter(c, q, i, mem, b, Cursor(p, false));
    var d1 := RowRuns(c, q, ls, i, a, s, mem, b', floor);
    var y := RowYield(c.w, q, mem, i, b');
    ScanIs(c.w, q, mem, i, b, p);
    KeepsPlace(q, i, floor, c, start, d1, cont, s, y);
    EmitsLess(q, i, floor, i + 1, floor, c, start, d1, cont, s, y);
    StandsStill(c, d1, q, ls, i, a, floor);
    NothingThen(y);
    if y.spoilt && cursor == 0 {
      NextOnNullRow(d1, q, ls, i, a, s, floor);
      EmitsThen(q, i, floor, c, start, d1, cont, d1, cont + 1, s, y, NOTHING);
      d := d1;
    } else {
      var d2 := Advance(d1, q, ls, i, a, s, floor, p);
      var x := if p + 1 >= |c.w.rows(cursor)| then cont + 1 else start;
      EmitsThen(q, i, floor, c, start, d1, cont, d2, x, s, y, NOTHING);
      d := d2;
      if p + 1 < |c.w.rows(cursor)| {
        var rest := Scan(c.w, q, mem, i, Spoil(b, y.spoilt), p + 1);
        EmitsReady(q, i, floor, mem, b, c, start, d2, start, s, y);
        EmitsSame(q, i, floor, c, start, d2, start, s, y);
        StandsStill(c, d2, q, ls, i, a, floor);
        d := RowsRun(d2, q, ls, i, a, s, mem, Spoil(b, y.spoilt), floor, p + 1);
        EmitsThen(q, i, floor, c, start, d2, start, d, cont + 1, s, y, rest);
      } else {
        ScanEnds(c.w, q, mem, i, Spoil(b, y.spoilt), p + 1);
      }
    }
  }

  /** One row of a scan. If it does not match nothing is spoilt. */
  lemma ScanIs(w: World, q: Joins.Query, mem: map<int, Value>, i: nat, b: Joins.Binding, p: nat)
    requires q.Valid() && i < |q.from| && p < |w.rows(q.from[i].cursor)|
    ensures var b' := b[q.from[i].cursor := Cursor(p, false)];
            var y := RowYield(w, q, mem, i, b');
            && Scan(w, q, mem, i, b, p)
               == (if y.spoilt && q.from[i].cursor == 0 then y
                   else y.Then(Scan(w, q, mem, i, Spoil(b, y.spoilt), p + 1)))
            && Joins.Matched(w, q, mem, i, b, p)
               == (Joins.EarlyHold(w, q, mem, i, b')
                   || (!(y.spoilt && q.from[i].cursor == 0)
                       && Joins.Matched(w, q, mem, i, Spoil(b, y.spoilt), p + 1)))
  {
    hide Joins.EarlyHold, Pass;
  }

  lemma ScanEnds(w: World, q: Joins.Query, mem: map<int, Value>, i: nat, b: Joins.Binding, p: nat)
    requires q.Valid() && i < |q.from| && p >= |w.rows(q.from[i].cursor)|
    ensures Scan(w, q, mem, i, b, p) == NOTHING && !Joins.Matched(w, q, mem, i, b, p)
  {
  }

  /** What Emits keeps: the program, and the place of the last of its cursors. */
  lemma KeepsPlace(q: Joins.Query, i: nat, floor: int, c: Context, a: int, d: Context, x: int, s: seq<Value>,
                   y: Yield)
    requires i < |q.from| && Emits(q, i + 1, floor, c, a, d, x, s, y) && q.from[i].cursor in c.cursors
    ensures SameProgram(c, d) && q.from[i].cursor in d.cursors
    ensures d.cursors[q.from[i].cursor] == After(c.cursors[q.from[i].cursor], y.spoilt && q.from[i].cursor == 0)
  {
    hide Gets;
  }

  lemma EmitsSame(q: Joins.Query, i: nat, floor: int, c: Context, a: int, d: Context, x: int, s: seq<Value>,
                  y: Yield)
    requires i <= |q.from| && Emits(q, i, floor, c, a, d, x, s, y)
    ensures SameProgram(c, d) && d.results == c.results + y.rows
  {
  }

  /** The innermost body reports one row. */
  lemma BodyRuns(c: Context, q: Joins.Query, a: nat, s: seq<Value>, mem: map<int, Value>, b: Joins.Binding, floor: int)
    returns (d: Context)
    requires Ready(c, q, |q.from|, mem, b) && c.Has(a, LoopCode(c.H(), [], q.results, a))
    ensures Emits(q, |q.from|, floor, c, a, d, a + LoopLen([], q.results), s,
                  Yield([Joins.Project(c.w, mem, b, q.results)], false))
  {
    hide Fits, TermsCode, TermsLen, Context.Has, Context.Goes, Gets, Placed, ResultsCode, Step, ResultsLen;
    var vs := Joins.Project(c.w, c.mem, c.cursors, q.results);
    var x := a + ResultsLen(q.results);
    c.Split(a, ResultsCode(c.H(), q.results, a), [Ins(OpCallback, |q.results|, 0)]);
    ResultsRun(c, q.results, a, s, q.cells);
    ResultsAgree(c, q, mem, b);
    FromGoes(c, a, s, x, s + vs);
    c.Fetch(x, [Ins(OpCallback, |q.results|, 0)], 0);
    assert |vs| == |q.results|;
    CallbackStep(c, x, s, vs);
    d := c.(results := c.results + [vs]);
    GetsDo(c, a, s, c, x, s + vs, d, x + 1, s);
  }

  /** After the rows of a LEFT JOIN's right table, none of which matched: one pass over its NULL row. */
  lemma NullRuns(c: Context, q: Joins.Query, ls: seq<Level>, i: nat, a: nat, s: seq<Value>, mem: map<int, Value>,
                 b: Joins.Binding, floor: int) returns (d: Context)
    requires Stands(c, q, ls, i, a, floor) && Ready(c, q, i, mem, b) && ls[0].left && q.from[i].cursor in c.cursors
    requires !FlagSet(c, ls[0])
    ensures Emits(q, i, floor, c, ContOf(ls, q.results, a) + 1, d, ContOf(ls, q.results, a) + TailLen(ls[0]), s,
                  Yield([], i >= EXAMINED).Then(Pass(c.w, q, mem, i, NullPlace(q, i, b))))
    decreases |ls|, 1
  {
    hide Fits, LoopCode, TermsCode, LoopLen, TermsLen, Context.Has, Context.Goes, Emits, Gets, FitsLevel,
         Joins.LateHold, Joins.EarlyHold, Pass, Joins.Query.Valid, SamePlaces, AtLevel, StartOf, ContOf,
         FlagSet, Placed, NullPlace;
    var cursor, end, n := q.from[i].cursor, ContOf(ls, q.results, a) + 1, NullRows(ls[0]);
    var moved := Yield([], i >= EXAMINED);
    FitsCursor(q, ls, i);
    TestFlag(c, q, ls, i, a, s, floor);
    var d1 := NullPlaced(c, q, ls, i, a, s, mem, b, floor);
    StandsStill(c, d1, q, ls, i, a, floor);
    EmitsThen(q, i, floor, c, end, c, end + 2, d1, TopOf(ls[0], a), s, NOTHING, moved);
    NothingThen(moved);
    var b' := NullPlace(q, i, b);
    var y := Pass(c.w, q, mem, i, b');
    var d2 := PassRuns(d1, q, ls, i, a, s, mem, b', floor);
    KeepsPlace(q, i, floor, d1, TopOf(ls[0], a), d2, end - 1, s, y);
    EmitsLess(q, i, floor, i + 1, floor, d1, TopOf(ls[0], a), d2, end - 1, s, y);
    StandsStill(d1, d2, q, ls, i, a, floor);
    EmitsThen(q, i, floor, c, end, d1, TopOf(ls[0], a), d2, end - 1, s, moved, y);
    NextOnNullRow(d2, q, ls, i, a, s, floor);
    TestFlag(d2, q, ls, i, a, s, floor);
    EmitsThen(q, i, floor, c, end, d2, end - 1, d2, end, s, moved.Then(y), NOTHING);
    NothingThen(moved.Then(y));
    EmitsThen(q, i, floor, c, end, d2, end, d2, end + 3 + n, s, moved.Then(y), NOTHING);
    d := d2;
  }

  function ToNullRow(c: Context, cursor: int): Context {
    Place(c, cursor, if cursor in c.cursors then c.cursors[cursor].(nullRow := true) else Cursor(0, true))
  }

  lemma NullPlaced(c: Context, q: Joins.Query, ls: seq<Level>, i: nat, a: nat, s: seq<Value>, mem: map<int, Value>,
                   b: Joins.Binding, floor: int) returns (d: Context)
    requires Stands(c, q, ls, i, a, floor) && Ready(c, q, i, mem, b) && ls[0].left && q.from[i].cursor in c.cursors
    ensures Emits(q, i, floor, c, ContOf(ls, q.results, a) + 3, d, TopOf(ls[0], a), s, Yield([], i >= EXAMINED))
    ensures Ready(d, q, i + 1, mem, NullPlace(q, i, b))
    ensures SameProgram(c, d) && q.from[i].cursor in d.cursors && d.cursors[q.from[i].cursor].nullRow
  {
    hide Fits, LoopCode, Context.Has, Context.Goes, Gets, ContOf, Emits, AtLevel;
    var cursor := q.from[i].cursor;
    FitsCursor(q, ls, i);
    var d1 := ToNullRow(c, cursor);
    d := if i >= EXAMINED then ToNullRow(d1, 0) else d1;
    NullRowEmits(c, q, ls, i, a, s, floor);
    OtherPlaces(c, q, i, d1.cursors[cursor]);
    Enter(d1, q, i, mem, b, Cursor(0, true));
    if i >= EXAMINED { SpoiltReady(d1, q, i + 1, mem, b[cursor := Cursor(0, true)]); }
  }

  /** Moving cursor 0 to its NULL row spoils the binding. */
  lemma SpoiltReady(c: Context, q: Joins.Query, i: nat, mem: map<int, Value>, b: Joins.Binding)
    requires Ready(c, q, i, mem, b)
    ensures Ready(ToNullRow(c, 0), q, i, mem, Spoil(b, true))
  {
  }

  lemma SpoiltPlaces(c: Context, q: Joins.Query, i: nat)
    requires i <= |q.from|
    ensures SamePlaces(q, i, c.cursors, ToNullRow(c, 0).cursors, true)
  {
  }

  lemma PlacesThen(q: Joins.Query, i: nat, cs: map<int, Cursor>, cs1: map<int, Cursor>, cs2: map<int, Cursor>,
                   spoilt: bool, spoilt': bool)
    requires i <= |q.from| && SamePlaces(q, i, cs, cs1, spoilt) && SamePlaces(q, i, cs1, cs2, spoilt')
    ensures SamePlaces(q, i, cs, cs2, spoilt || spoilt')
  {
  }

  /** OP_NullRow for the cursor and the index cursor, and the jump back behind the test of the flag. */
  lemma NullRowEmits(c: Context, q: Joins.Query, ls: seq<Level>, i: nat, a: nat, s: seq<Value>, floor: int)
    requires Stands(c, q, ls, i, a, floor) && c.lo == 0 && ls[0].left
    requires ls[0].cursor == q.from[i].cursor && ls[0].indexCursor == IndexCursor(i)
    ensures var d := ToNullRow(c, ls[0].cursor);
            Emits(q, i, floor, c, ContOf(ls, q.results, a) + 3, if i >= EXAMINED then ToNullRow(d, 0) else d,
                  TopOf(ls[0], a), s, Yield([], i >= EXAMINED))
  {
    hide Fits, LoopCode, TermsCode, LoopLen, TermsLen, Context.Has, Context.Goes, Gets, FitsLevel, ContOf, SamePlaces,
         NullRowCode;
    var x, l := ContOf(ls, q.results, a) + 3, ls[0];
    var d := ToNullRow(c, l.cursor);
    NullRowGets(c, l, x, s, TopOf(l, a));
    OtherPlaces(c, q, i, d.cursors[l.cursor]);
    if i >= EXAMINED {
      SpoiltPlaces(d, q, i);
      PlacesThen(q, i, c.cursors, d.cursors, ToNullRow(d, 0).cursors, false, true);
    }
  }

  lemma NullRowGets(c: Context, l: Level, x: nat, s: seq<Value>, top: nat)
    requires c.Has(x, NullRowCode(l)) && (l.indexCursor == -1 || l.indexCursor == 0)
    requires x + NullRows(l) < |c.prog| && c.prog[x + NullRows(l)] == Ins(OpGoto, 0, top)
    ensures var d := ToNullRow(c, l.cursor); Gets(c, x, s, if l.indexCursor == 0 then ToNullRow(d, 0) else d, top, s)
  {
    hide Gets, Context.Has, Step, ToNullRow;
    var d := ToNullRow(c, l.cursor);
    KeepsProgram(c, l.cursor);
    c.Fetch(x, NullRowCode(l), 0);
    NullRowStep(c, x, s, l.cursor);
    FromStep(c, x, s, d, x + 1, s);
    if l.indexCursor == 0 {
      KeepsProgram(d, 0);
      c.Fetch(x, NullRowCode(l), 1);
      NullRowStep(d, x + 1, s, 0);
      GetsDo(c, x, s, d, x + 1, s, ToNullRow(d, 0), x + 2, s);
      GotoStep(ToNullRow(d, 0), x + 2, s, top);
      GetsDo(c, x, s, ToNullRow(d, 0), x + 2, s, ToNullRow(d, 0), top, s);
    } else {
      GotoStep(d, x + 1, s, top);
      GetsDo(c, x, s, d, x + 1, s, d, top, s);
    }
  }

  lemma KeepsProgram(c: Context, cursor: int)
    ensures SameProgram(c, ToNullRow(c, cursor))
  {
  }

  lemma FromStep(c: Context, a: int, s: seq<Value>, d: Context, b: int, t: seq<Value>)
    requires Step(c.prog, c.w, c.At(a, s)) == d.At(b, t)
    ensures Gets(c, a, s, d, b, t)
  {
    ReachesStep(c.prog, c.w, c.At(a, s));
  }

  lemma GotoStep(c: Context, a: nat, s: seq<Value>, x: int)
    requires a < |c.prog| && c.prog[a] == Ins(OpGoto, 0, x)
    ensures Step(c.prog, c.w, c.At(a, s)) == c.At(x, s)
  {
  }

  /** OP_Next falls through on the NULL row. */
  lemma NextOnNullRow(c: Context, q: Joins.Query, ls: seq<Level>, i: nat, a: nat, s: seq<Value>, floor: int)
    requires Stands(c, q, ls, i, a, floor) && q.from[i].cursor in c.cursors && c.cursors[q.from[i].cursor].nullRow
    ensures Emits(q, i, floor, c, ContOf(ls, q.results, a), c, ContOf(ls, q.results, a) + 1, s, NOTHING)
  {
    hide Fits, LoopCode, TermsCode, LoopLen, TermsLen, Context.Has, Emits, FitsLevel, Step, ContOf;
    FitsCursor(q, ls, i);
    NextStep(c, ContOf(ls, q.results, a), s, ls[0].cursor, StartOf(ls[0], a));
    assert c.cursors[q.from[i].cursor := c.cursors[q.from[i].cursor]] == c.cursors;
    EmitsPlace(q, i, floor, c, ContOf(ls, q.results, a), c, ContOf(ls, q.results, a) + 1, s);
  }

  /** The code of the loops from level `i` on reports exactly the rows the coded loops produce, and
      leaves the stack, the outer cursors, but for cursor 0 if it is spoilt, and the lower memory cells
      as they were. */
  lemma LoopRuns(c: Context, q: Joins.Query, ls: seq<Level>, i: nat, a: nat, s: seq<Value>, mem: map<int, Value>,
                 b: Joins.Binding, floor: int) returns (d: Context)
    requires Ready(c, q, i, mem, b) && Fits(q, ls, i) && c.Has(a, LoopCode(c.H(), ls, q.results, a))
    requires q.cells <= floor && forall k :: 0 <= k < |ls| ==> floor <= ls[k].flag
    ensures Emits(q, i, floor, c, a, d, a + LoopLen(ls, q.results), s, Loop(c.w, q, mem, i, b))
    decreases |ls|, 3
  {
    hide Fits, LoopCode, TermsCode, LoopLen, TermsLen, Context.Has, Context.Goes, Emits, Gets, FitsLevel, Placed,
         Loop, Pass, Scan, Joins.Loop, Joins.Pass, Joins.Scan, Joins.Matched, SamePlaces, AtLevel, StartOf, ContOf,
         FlagSet, NullPlace, Ready;
    ReadyValid(c, q, i, mem, b);
    if ls == [] {
      FitsNone(q, i);
      LoopEnds(c.w, q, mem, b);
      d := BodyRuns(c, q, a, s, mem, b, floor);
    } else {
      var end := ContOf(ls, q.results, a) + 1;
      FitsCursor(q, ls, i);
      LevelParts(c, ls, q.results, a);
      EndOf(ls, q.results, a);
      LoopIs(c.w, q, mem, i, b);
      var y := Scan(c.w, q, mem, i, b, 0);
      NothingThen(y);
      d := ScanRuns(c, q, ls, i, a, s, mem, b, floor);
      if ls[0].left {
        var d1, extra := d, NOTHING;
        EmitsSame(q, i, floor, c, a, d1, end, s, y);
        StandsStill(c, d1, q, ls, i, a, floor);
        if FlagSet(d1, ls[0]) {
          TestFlag(d1, q, ls, i, a, s, floor);
        } else {
          UnmatchedScan(c.w, q, mem, i, b, 0);
          EmitsReady(q, i, floor, mem, b, c, a, d1, end, s, y);
          d := NullRuns(d1, q, ls, i, a, s, mem, b, floor);
          extra := Yield([], i >= EXAMINED).Then(Pass(c.w, q, mem, i, NullPlace(q, i, b)));
        }
        EmitsThen(q, i, floor, c, a, d1, end, d, end - 1 + TailLen(ls[0]), s, y, extra);
      }
    }
  }

  lemma ReadyValid(c: Context, q: Joins.Query, i: nat, mem: map<int, Value>, b: Joins.Binding)
    requires Ready(c, q, i, mem, b)
    ensures q.Valid() && i <= |q.from| && c.lo == 0
  {
  }

  /** Rows that do not match yield nothing. */
  lemma {:induction false} UnmatchedScan(w: World, q: Joins.Query, mem: map<int, Value>, i: nat, b: Joins.Binding,
                                         p: nat)
    requires q.Valid() && i < |q.from| && !Joins.Matched(w, q, mem, i, b, p)
    ensures Scan(w, q, mem, i, b, p) == NOTHING && Spoil(b, false) == b
    decreases |w.rows(q.from[i].cursor)| - p
  {
    hide Joins.EarlyHold, Pass;
    if p < |w.rows(q.from[i].cursor)| {
      UnmatchedScan(w, q, mem, i, b, p + 1);
      NothingThen(NOTHING);
    }
  }

  lemma FitsNone(q: Joins.Query, i: nat)
    requires q.Valid() && Fits(q, [], i)
    ensures i == |q.from|
  {
  }

  lemma EndOf(ls: seq<Level>, results: seq<Expr>, a: nat)
    requires ls != []
    ensures a + LoopLen(ls, results) == ContOf(ls, results, a) + TailLen(ls[0])
  {
  }

  /** A level from its first instruction to its `brk` address. */
  lemma ScanRuns(c: Context, q: Joins.Query, ls: seq<Level>, i: nat, a: nat, s: seq<Value>, mem: map<int, Value>,
                 b: Joins.Binding, floor: int) returns (d: Context)
    requires Stands(c, q, ls, i, a, floor) && Ready(c, q, i, mem, b)
    ensures Emits(q, i, floor, c, a, d, ContOf(ls, q.results, a) + 1, s, Scan(c.w, q, mem, i, b, 0))
    ensures q.from[i].cursor in d.cursors
    ensures ls[0].left ==> FlagSet(d, ls[0]) == Joins.Matched(c.w, q, mem, i, b, 0)
    decreases |ls|, 2, |c.w.rows(q.from[i].cursor)| + 1
  {
    hide Fits, LoopCode, TermsCode, LoopLen, TermsLen, Context.Has, Context.Goes, Emits, Gets, FitsLevel, Placed, Ready,
         Pass, Scan, Joins.Matched, SamePlaces, AtLevel, StartOf, ContOf, FlagSet;
    var end := ContOf(ls, q.results, a) + 1;
    FitsCursor(q, ls, i);
    var start, y := StartOf(ls[0], a), Scan(c.w, q, mem, i, b, 0);
    d := StartRuns(c, q, ls, i, a, s, floor);
    if |c.w.rows(q.from[i].cursor)| == 0 {
      ScanEnds(c.w, q, mem, i, b, 0);
    } else {
      EmitsReady(q, i, floor, mem, b, c, a, d, start, s, NOTHING);
      EmitsSame(q, i, floor, c, a, d, start, s, NOTHING);
      StandsStill(c, d, q, ls, i, a, floor);
      var d1 := d;
      d := RowsRun(d1, q, ls, i, a, s, mem, b, floor, 0);
      EmitsThen(q, i, floor, c, a, d1, start, d, end, s, NOTHING, y);
      NothingThen(y);
    }
  }
}
