/** The whole program of a join: a WHERE clause that is constant is tested once in front of the
    loops, and what the program reports is compared with the meaning of the join. */
module JoinProgram {
  import opened Values
  import opened Expressions
  import opened Machine
  import opened Layout
  import opened Builder
  import opened Fragments
  import opened ExprGenerator
  import opened Agreement
  import opened CodedLoops
  import opened JoinCode
  import opened WherePlan
  import opened JoinGenerator
  import Joins
  import JoinRows

  // Constant expressions.

  /** __expr_is_constant. Nothing without operands is constant but literals and variables. */
  predicate Constant(e: Expr)
    decreases e
  {
    if e.Column? || e.Function? || e.AggFunction? || e.ScalarSelect? then false
    else if IsLeaf(e) then true
    else if IsBinary(e) || e.Shift? then Constant(e.left) && Constant(e.right)
    else if e.Between? then Constant(e.left) && Constant(e.low) && Constant(e.high)
    else if e.Case? then
      && (e.base.TheExpr? ==> Constant(e.base.e)) && ConstantWhens(e.whens)
      && (e.otherwise.TheExpr? ==> Constant(e.otherwise.e))
      && (e.base.TheExpr? || e.otherwise.TheExpr? || e.whens.When?)
    else Constant(e.left)
  }

  predicate ConstantWhens(ws: Whens)
    decreases ws
  {
    match ws case Done => true case When(c, r, rest) => Constant(c) && Constant(r) && ConstantWhens(rest)
  }

  lemma {:induction false} ConstantMentionsNothing(e: Expr)
    requires Constant(e)
    ensures Tables(e) == {}
    decreases e
  {
    if IsLeaf(e) {
    } else if IsBinary(e) || e.Shift? {
      ConstantMentionsNothing(e.left);
      ConstantMentionsNothing(e.right);
    } else if e.Between? {
      ConstantMentionsNothing(e.left);
      ConstantMentionsNothing(e.low);
      ConstantMentionsNothing(e.high);
    } else if e.Case? {
      if e.base.TheExpr? { ConstantMentionsNothing(e.base.e); }
      if e.otherwise.TheExpr? { ConstantMentionsNothing(e.otherwise.e); }
      WhensMentionNothing(e.whens);
    } else {
      ConstantMentionsNothing(e.left);
    }
  }

  lemma {:induction false} WhensMentionNothing(ws: Whens)
    requires ConstantWhens(ws)
    ensures WhenTables(ws) == {}
    decreases ws
  {
    if ws.When? {
      ConstantMentionsNothing(ws.cond);
      ConstantMentionsNothing(ws.result);
      WhensMentionNothing(ws.rest);
    }
  }

  /** An AND is constant exactly if its conjuncts are. */
  lemma {:induction false} ConstantConjuncts(e: Expr)
    ensures Constant(e) <==> forall c :: c in Conjuncts(e) ==> Constant(c)
    decreases e
  {
    if e.And? {
      ConstantConjuncts(e.left);
      ConstantConjuncts(e.right);
    } else {
      assert e in Conjuncts(e);
    }
  }

  // The code in front of the loops.

  function TermExprs(ts: seq<Joins.Term>): seq<Expr> {
    seq(|ts|, k requires 0 <= k < |ts| => ts[k].e)
  }

  /** The WHERE clause is tested in front of the loops if it is constant or there is no loop. */
  predicate Guarded(q: Joins.Query) {
    q.terms != [] && (q.from == [] || forall t :: t in q.terms ==> Constant(t.e))
  }

  function GuardLen(q: Joins.Query): nat { if Guarded(q) then TermsLen(TermExprs(q.terms)) else 0 }

  function GuardCode(h: Helpers, q: Joins.Query, end: int, a: nat): (code: seq<Op>)
    ensures |code| == GuardLen(q)
  {
    if Guarded(q) then TermsCode(h, TermExprs(q.terms), end, a) else []
  }

  /** The program of a join at address `a`. */
  function ProgramCode(h: Helpers, q: Joins.Query, ls: seq<Level>, a: nat): seq<Op> {
    var b := a + GuardLen(q);
    GuardCode(h, q, b + LoopLen(ls, q.results), a) + LoopCode(h, ls, q.results, b)
  }

  lemma {:induction false} TermsConcat(h: Helpers, x: seq<Expr>, y: seq<Expr>, cont: int, a: nat)
    ensures TermsLen(x + y) == TermsLen(x) + TermsLen(y)
    ensures TermsCode(h, x + y, cont, a) == TermsCode(h, x, cont, a) + TermsCode(h, y, cont, a + TermsLen(x))
  {
    hide JumpCode, JumpLen, TermsCode, TermsLen;
    if x == [] {
      NoTermCode(h, cont, a);
      assert x + y == y;
    } else {
      var b := a + JumpLen(x[0], false);
      TermsConcat(h, x[1..], y, cont, b);
      TermsFirst(h, x, cont, a);
      TermsFirst(h, x + y, cont, a);
      assert (x + y)[1..] == x[1..] + y && (x + y)[0] == x[0];
    }
  }

  lemma NoTermCode(h: Helpers, cont: int, a: nat)
    ensures TermsLen([]) == 0 && TermsCode(h, [], cont, a) == []
  {
  }

  lemma TermsFirst(h: Helpers, x: seq<Expr>, cont: int, a: nat)
    requires x != []
    ensures TermsLen(x) == JumpLen(x[0], false) + TermsLen(x[1..])
    ensures TermsCode(h, x, cont, a)
            == JumpCode(h, x[0], false, cont, true, false, a) + TermsCode(h, x[1..], cont, a + JumpLen(x[0], false))
  {
    hide JumpCode, JumpLen;
  }

  /** Jumping unless an AND is true is jumping unless its conjuncts are, one after the other. */
  lemma {:induction false} JumpIsTerms(h: Helpers, e: Expr, dest: int, a: nat)
    ensures JumpLen(e, false) == TermsLen(Conjuncts(e))
    ensures JumpCode(h, e, false, dest, true, false, a) == TermsCode(h, Conjuncts(e), dest, a)
    decreases e
  {
    hide JumpCode, JumpLen;
    if e.And? {
      ConnectiveIs(h, e, false, dest, true, false, a);
      JumpIsTerms(h, e.left, dest, a);
      JumpIsTerms(h, e.right, dest, a + JumpLen(e.left, false));
      TermsConcat(h, Conjuncts(e.left), Conjuncts(e.right), dest, a);
    } else {
      assert Conjuncts(e) == [e] && [e][1..] == [];
    }
  }

  lemma GuardedIs(q: Joins.Query, e: Expr)
    requires TermExprs(q.terms) == Conjuncts(e)
    ensures Guarded(q) <==> q.from == [] || Constant(e)
  {
    SplitIsConjuncts(0, e);
    ConstantConjuncts(e);
    hide Constant, Conjuncts;
    var es := TermExprs(q.terms);
    assert |q.terms| == |es| > 0;
    forall c | c in es ensures exists t :: t in q.terms && t.e == c {
      var k :| 0 <= k < |es| && es[k] == c;
      assert q.terms[k] in q.terms;
    }
    forall t | t in q.terms ensures t.e in es {
      var k :| 0 <= k < |q.terms| && q.terms[k] == t;
      assert es[k] == t.e;
    }
  }

  /** __where_begin, the results and __where_end: appends the program of the join, or refuses a clause
      with more than 100 terms. `where` is the WHERE clause with the ON clauses added to it. */
  method CodeJoin(v: Vdbe, h: Helpers, q: Joins.Query, where: Option<Expr>, nMem: nat)
    returns (ok: bool, mem: nat, ghost known: set<int>)
    requires v.Valid() && Bound(q, q.terms)
    requires TermExprs(q.terms) == if where.Some? then Conjuncts(where.value) else []
    modifies v
    ensures v.Valid() && ok == (|q.terms| < MAX_SLOTS)
    ensures ok ==> v.aOp == old(v.aOp) + ProgramCode(h, q, Plan(q, known, nMem, |q.from|), |old(v.aOp)|)
    ensures ok ==> (Mentioned(q.terms) <= known <==> |Mentioned(q.terms)| <= MASK_BITS)
    ensures !ok ==> v.aOp == old(v.aOp)
  {
    hide Opened, OpenedLen, LoopCode, LoopLen, Tables, Mentioned, Plan, Records, Above, GuardCode, GuardLen, Guarded,
         Conjuncts, Constant;
    ok, mem, known := |q.terms| < MAX_SLOTS, nMem, {};
    if !ok {
      return;
    }
    ghost var first, labels := v.aOp, |v.aLabel|;
    OldCodeAbove(v);
    var iBreak := v.MakeLabel();
    EmitGuard(v, h, q, where, iBreak);
    ghost var start := v.aOp;
    OldCodeAbove(v);
    ghost var outer := v.aLabel;
    var rs;
    rs, mem, known := WhereBegin(v, h, q, nMem);
    ghost var ls := Plan(q, known, nMem, |q.from|);
    ghost var aLabel := v.aLabel;
    SameCount(aLabel, ls, rs, |start|, |outer|);
    EmitResults(v, h, q.results);
    RecordsKept(aLabel, v.aLabel, ls, rs, |start|, |outer|);
    WhereEnd(v, h, rs, ls, q.results, start, |outer|);
    assert v.aLabel[labels] == outer[labels];
    GuardPatched(h, q, ls, first, labels, iBreak);
    v.ResolveLabel(iBreak);
  }

  method EmitGuard(v: Vdbe, h: Helpers, q: Joins.Query, where: Option<Expr>, iBreak: int)
    requires v.Valid() && v.Open(iBreak)
    requires TermExprs(q.terms) == if where.Some? then Conjuncts(where.value) else []
    modifies v
    ensures Extends(v, GuardCode(h, q, iBreak, |old(v.aOp)|))
  {
    hide JumpCode, TermsCode, Conjuncts, Constant, Guarded;
    if where.Some? {
      GuardedIs(q, where.value);
      if q.from == [] || Constant(where.value) {
        JumpIsTerms(h, where.value, iBreak, |v.aOp|);
        ExprIfFalse(v, h, false, where.value, iBreak, true);
        return;
      }
    } else {
      NotGuarded(q);
    }
    assert v.aOp + [] == v.aOp;
  }

  lemma NotGuarded(q: Joins.Query)
    requires TermExprs(q.terms) == []
    ensures !Guarded(q)
  {
    assert |q.terms| == |TermExprs(q.terms)|;
  }

  /** The label behind the loops is used only in front of them. */
  lemma GuardPatched(h: Helpers, q: Joins.Query, ls: seq<Level>, first: seq<Op>, labels: nat, x: int)
    requires x + labels == -1 && Above(first, labels)
    ensures var b := |first| + GuardLen(q);
            Patch(first + GuardCode(h, q, x, |first|) + LoopCode(h, ls, q.results, b), x,
                  b + LoopLen(ls, q.results))
            == first + ProgramCode(h, q, ls, |first|)
  {
    hide Patch, LoopCode, LoopLen, TermsCode, TermsLen, GuardLen, Guarded, NoLabels;
    var b := |first| + GuardLen(q);
    var end, guard, loops := b + LoopLen(ls, q.results), GuardCode(h, q, x, |first|), LoopCode(h, ls, q.results, b);
    PatchConcat(x, end, first + guard, loops);
    PatchConcat(x, end, first, guard);
    PatchFresh(first, labels, x, end);
    LoopHasNoLabels(h, ls, q.results, b);
    PatchNothing(loops, x, end);
    if Guarded(q) {
      TermsLabels(h, TermExprs(q.terms), x, |first|, x, end);
    } else {
      assert Patch([], x, end) == [] by { PatchedNone(x, end); }
    }
    assert first + GuardCode(h, q, end, |first|) + loops == first + (GuardCode(h, q, end, |first|) + loops);
  }

  lemma PatchedNone(x: int, addr: int)
    ensures Patch([], x, addr) == []
  {
  }

  lemma OldCodeAbove(v: Vdbe)
    requires v.Valid()
    ensures Above(v.aOp, |v.aLabel|)
  {
  }

  // What the program reports.

  /** The terms hold before any cursor is placed. */
  ghost predicate GuardHolds(w: World, q: Joins.Query, mem: map<int, Value>) {
    forall t :: t in q.terms ==> Joins.Holds(w, mem, map[], t.e)
  }

  ghost function Reported(w: World, q: Joins.Query, mem: map<int, Value>): seq<seq<Value>>
    requires q.Valid()
  {
    if Guarded(q) && !GuardHolds(w, q, mem) then [] else Loop(w, q, mem, 0, map[]).rows
  }

  lemma GuardedMentionNothing(q: Joins.Query)
    requires q.Valid() && Guarded(q)
    ensures forall t :: t in q.terms ==> Tables(t.e) == {}
  {
    hide Constant, Tables;
    forall t | t in q.terms ensures Tables(t.e) == {} {
      if q.from == [] {
        assert q.Bound(0) == {};
      } else {
        ConstantMentionsNothing(t.e);
      }
    }
  }

  /** A term without tables does not depend on the rows at hand. */
  lemma HoldsAnywhere(w: World, q: Joins.Query, mem: map<int, Value>, t: Joins.Term, b: Joins.Binding, c: Joins.Binding)
    requires q.Valid() && t in q.terms && Tables(t.e) == {}
    ensures Joins.Holds(w, mem, b, t.e) == Joins.Holds(w, mem, c, t.e)
  {
    assert Agree(EnvAt(w, b, mem), EnvAt(w, c, mem), {}, q.cells);
    TruthAgrees(t.e, {}, q.cells, false, EnvAt(w, b, mem), EnvAt(w, c, mem));
  }

  lemma GuardRuns(c: Context, q: Joins.Query, end: nat, a: nat, s: seq<Value>)
    requires q.Valid() && Guarded(q) && !c.useAgg && end != 0 && c.Has(a, GuardCode(c.H(), q, end, a))
    ensures c.Goes(a, s, if GuardHolds(c.w, q, c.mem) then a + GuardLen(q) else end, s)
  {
    hide Context.Goes, Context.Has, TermsCode, TermsLen, Tables, Guarded, Joins.Holds, TruthIn;
    var es := TermExprs(q.terms);
    forall e | e in es ensures PlainTest(e, q.cells) {
      var k :| 0 <= k < |es| && es[k] == e;
      assert q.terms[k] in q.terms;
    }
    TermsRun(c, es, end, a, s, q.cells);
    GuardedMentionNothing(q);
    forall t | t in q.terms
      ensures t.e in es && Joins.Holds(c.w, c.mem, c.cursors, t.e) == Joins.Holds(c.w, c.mem, map[], t.e)
    {
      var k :| 0 <= k < |q.terms| && q.terms[k] == t;
      assert es[k] == t.e;
      HoldsAnywhere(c.w, q, c.mem, t, c.cursors, map[]);
    }
    GuardIsAll(c, q, es);
  }

  lemma GuardIsAll(c: Context, q: Joins.Query, es: seq<Expr>)
    requires es == TermExprs(q.terms)
    requires forall t :: t in q.terms ==>
               t.e in es && Joins.Holds(c.w, c.mem, c.cursors, t.e) == Joins.Holds(c.w, c.mem, map[], t.e)
    ensures JoinCode.AllHold(es, c.Env()) == GuardHolds(c.w, q, c.mem)
  {
    hide TruthIn;
    forall e | e in es ensures exists t :: t in q.terms && t.e == e {
      var k :| 0 <= k < |es| && es[k] == e;
      assert q.terms[k] in q.terms;
    }
  }

  /** The generated program of a join of at most 32 mentioned tables leaves the stack as it was and
      reports these rows. */
  lemma JoinRuns(c: Context, q: Joins.Query, known: set<int>, nMem: nat, a: nat, s: seq<Value>) returns (d: Context)
    requires q.Valid() && q.cells <= nMem && Mentioned(q.terms) <= known
    requires c.lo == 0 && c.hi == |c.prog| && !c.useAgg
    requires c.Has(a, ProgramCode(c.H(), q, Plan(q, known, nMem, |q.from|), a))
    ensures var end := a + GuardLen(q) + LoopLen(Plan(q, known, nMem, |q.from|), q.results);
            Reaches(c.prog, c.w, c.At(a, s), d.At(end, s))
    ensures d.results == c.results + Reported(c.w, q, c.mem)
  {
    hide LoopCode, LoopLen, Plan, Fits, Context.Has, Context.Goes, Loop, Joins.Loop, Reaches, Guarded, GuardLen,
         GuardCode, GuardHolds;
    var ls := Plan(q, known, nMem, |q.from|);
    var b := a + GuardLen(q);
    var end := b + LoopLen(ls, q.results);
    PlanFits(q, known, nMem);
    PlanCount(q, known, nMem);
    c.Split(a, GuardCode(c.H(), q, end, a), LoopCode(c.H(), ls, q.results, b));
    d := c;
    if Guarded(q) {
      GuardRuns(c, q, end, a, s);
      FromGoes(c, a, s, if GuardHolds(c.w, q, c.mem) then b else end, s);
    } else {
      NoGuard(q);
      c.Stay(a, s);
      FromGoes(c, a, s, a, s);
    }
    if Guarded(q) && !GuardHolds(c.w, q, c.mem) {
      assert c.results + [] == c.results;
    } else {
      d := LoopRuns(c, q, ls, 0, b, s, c.mem, map[], nMem);
      GetsThen(c, a, s, c, b, s, d, end, s);
    }
  }

  lemma NoGuard(q: Joins.Query)
    requires !Guarded(q)
    ensures GuardLen(q) == 0
  {
  }

  /** The test in front of the loops does not change what is reported: without it, the outermost loop
      would test the same terms for each of its rows. */
  lemma GuardChangesNothing(w: World, q: Joins.Query, mem: map<int, Value>)
    requires q.Valid() && |q.from| > 0
    ensures Reported(w, q, mem) == Loop(w, q, mem, 0, map[]).rows
  {
    hide Loop, Scan, Tables, Guarded;
    if Guarded(q) && !GuardHolds(w, q, mem) {
      var t :| t in q.terms && !Joins.Holds(w, mem, map[], t.e);
      GuardedMentionNothing(q);
      NothingPasses(w, q, mem, t, map[], 0);
      LoopIs(w, q, mem, 0, map[]);
    }
  }

  lemma {:induction false} NothingPasses(w: World, q: Joins.Query, mem: map<int, Value>, t: Joins.Term,
                                         b: Joins.Binding, p: nat)
    requires q.Valid() && |q.from| > 0 && t in q.terms && Tables(t.e) == {} && !Joins.Holds(w, mem, map[], t.e)
    ensures Scan(w, q, mem, 0, b, p) == NOTHING
    decreases |w.rows(q.from[0].cursor)| - p
  {
    hide Tables, Scan, Pass, Joins.Holds, Joins.Matched;
    if p >= |w.rows(q.from[0].cursor)| {
      ScanEnds(w, q, mem, 0, b, p);
    } else {
      var b' := b[q.from[0].cursor := Cursor(p, false)];
      HoldsAnywhere(w, q, mem, t, b', map[]);
      assert q.Level(t) == 0 && Joins.Early(q, t, 0);
      assert RowYield(w, q, mem, 0, b') == NOTHING;
      ScanIs(w, q, mem, 0, b, p);
      assert Spoil(b, false) == b;
      NothingPasses(w, q, mem, t, b, p + 1);
    }
  }

  /** Cursor 0 is left alone: there is no LEFT JOIN from FROM entry 32 on, or cursor 0 is not one of the
      cursors of the join, or on these tables no such LEFT JOIN comes to its NULL row. */
  ghost predicate Sound(w: World, q: Joins.Query, mem: map<int, Value>)
    requires q.Valid()
  {
    AllExamined(q) || 0 !in q.Bound(|q.from|) || !Loop(w, q, mem, 0, map[]).spoilt
  }

  /** Then these are the rows, in nested order, of the join in which every term has the role its level
      gives it, and of the join as it is written if every ON term is first bound by its right table. */
  lemma JoinIsAnswer(w: World, q: Joins.Query, mem: map<int, Value>)
    requires q.Valid() && Sound(w, q, mem)
    ensures |q.from| > 0 ==> Reported(w, q, mem) == Joins.Answer(w, Joins.Coded(q), mem, 0, map[])
    ensures q.OnTermsBindRight() ==> Reported(w, q, mem) == Joins.Answer(w, q, mem, 0, map[])
  {
    hide Loop, Joins.Answer, Joins.Loop, AllExamined, Reported;
    if q.from == [] {
      NoTables(w, q, mem);
    } else {
      GuardChangesNothing(w, q, mem);
      if AllExamined(q) {
        NeverSpoilt(w, q, mem, 0, map[]);
        UnspoiltLoop(w, q, mem, 0, map[]);
      } else if 0 !in q.Bound(|q.from|) {
        ElsewhereLoop(w, q, mem, 0, map[]);
      } else {
        UnspoiltLoop(w, q, mem, 0, map[]);
      }
      Joins.LoopIsCodedAnswer(w, q, mem);
      Joins.CodedIsSame(q);
    }
  }

  /** Without FROM one row is reported if the WHERE clause is true. */
  lemma NoTables(w: World, q: Joins.Query, mem: map<int, Value>)
    requires q.Valid() && q.from == []
    ensures q.OnTermsBindRight() ==> Reported(w, q, mem) == Joins.Answer(w, q, mem, 0, map[])
  {
    LoopEnds(w, q, mem, map[]);
  }

  /** The interpreter loop on a run that is known to come to the end of the program. */
  method RunToEnd(prog: seq<Op>, w: World, st: State, ghost n: nat) returns (end: State)
    requires st.Running? && Run(prog, w, st, n).Running? && Run(prog, w, st, n).pc == |prog|
    ensures end == Run(prog, w, st, n)
  {
    end := st;
    ghost var left := n;
    while end.Running? && end.pc != |prog|
      invariant Run(prog, w, end, left) == Run(prog, w, st, n)
      decreases left
    {
      if end.pc > |prog| || end.pc < 0 { EndsStuck(prog, w, end, left); }
      end, left := Step(prog, w, end), left - 1;
    }
    EndsStuck(prog, w, end, left);
  }

  /** Nothing runs on from a place outside the program. */
  lemma EndsStuck(prog: seq<Op>, w: World, st: State, n: nat)
    requires st.Stuck? || !(0 <= st.pc < |prog|)
    ensures Run(prog, w, st, n) == if n == 0 then st else Stuck
    decreases n
  {
    if n > 0 { EndsStuck(prog, w, Stuck, n - 1); }
  }

  /** Generating the program of a join and running it from an empty stack. */
  method RunJoin(w: World, q: Joins.Query, where: Option<Expr>, nMem: nat) returns (ok: bool, end: State)
    requires q.Valid() && q.cells <= nMem && |Mentioned(q.terms)| <= MASK_BITS
    requires TermExprs(q.terms) == if where.Some? then Conjuncts(where.value) else []
    ensures ok == (|q.terms| < MAX_SLOTS)
    ensures ok ==> end.Running? && end.stack == [] && end.out == Reported(w, q, map[])
    ensures ok && Sound(w, q, map[]) && |q.from| > 0 ==>
              end.out == Joins.Answer(w, Joins.Coded(q), map[], 0, map[])
              && JoinRows.Lists(w, Joins.Coded(q), map[], end.out)
    ensures ok && Sound(w, q, map[]) && q.OnTermsBindRight() ==>
              end.out == Joins.Answer(w, q, map[], 0, map[]) && JoinRows.Lists(w, q, map[], end.out)
  {
    hide JoinRows.Lists;
    hide ProgramCode, LoopLen, GuardLen, Plan, Joins.Answer, Run, Mentioned, Joins.Coded, Reported, Sound, Conjuncts;
    var v := new Vdbe();
    var mem;
    ghost var known;
    end := Stuck;
    ok, mem, known := CodeJoin(v, w.base.h, q, where, nMem);
    if ok {
      ghost var code := ProgramCode(w.base.h, q, Plan(q, known, nMem, |q.from|), 0);
      assert v.aOp == code;
      ghost var c := Context(code, w, false, 0, |code|, map[], map[], []);
      assert c.prog[0..|code|] == code;
      ghost var d := JoinRuns(c, q, known, nMem, 0, []);
      ProgramLen(w.base.h, q, Plan(q, known, nMem, |q.from|), 0);
      if Sound(w, q, map[]) {
        JoinIsAnswer(w, q, map[]);
        JoinRows.RowsShowCombinations(w, q, map[]);
        if |q.from| > 0 { JoinRows.RowsShowCombinations(w, Joins.Coded(q), map[]); }
      }
      ghost var n: nat :| Run(code, w, c.At(0, []), n) == d.At(|code|, []);
      end := RunToEnd(v.aOp, w, Running(0, [], map[], map[], []), n);
    }
  }

  lemma ProgramLen(h: Helpers, q: Joins.Query, ls: seq<Level>, a: nat)
    ensures |ProgramCode(h, q, ls, a)| == GuardLen(q) + LoopLen(ls, q.results)
  {
    hide LoopLen, GuardLen;
  }
}
