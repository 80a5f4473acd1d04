/** Replacing the columns of a subquery by the expressions that compute them. */
module Substitution {
  import opened Values
  import opened Expressions
  import opened Layout
  import opened Agreement

  function Subst(e: Expr, table: int, cols: seq<Expr>): Expr
    decreases e
  {
    match e
    case Column(t, c, _, _) => if t == table && 0 <= c < |cols| then cols[c] else e
    case Comparison(rel, l, r) => Comparison(rel, Subst(l, table, cols), Subst(r, table, cols))
    case And(l, r) => And(Subst(l, table, cols), Subst(r, table, cols))
    case Or(l, r) => Or(Subst(l, table, cols), Subst(r, table, cols))
    case Arithmetic(op, l, r) => Arithmetic(op, Subst(l, table, cols), Subst(r, table, cols))
    case Shift(op, l, r) => Shift(op, Subst(l, table, cols), Subst(r, table, cols))
    case Concat(l, r) => Concat(Subst(l, table, cols), Subst(r, table, cols))
    case Minus(l) => Minus(Subst(l, table, cols))
    case BitNot(l) => BitNot(Subst(l, table, cols))
    case Not(l) => Not(Subst(l, table, cols))
    case IsNull(l) => IsNull(Subst(l, table, cols))
    case NotNull(l) => NotNull(Subst(l, table, cols))
    case Plus(l) => Plus(Subst(l, table, cols))
    case As(l) => As(Subst(l, table, cols))
    case In(l, rhs, fromSelect) => In(Subst(l, table, cols), rhs, fromSelect)
    case Between(l, lo, hi) => Between(Subst(l, table, cols), Subst(lo, table, cols), Subst(hi, table, cols))
    case Function(def, args, t) => Function(def, SubstAll(args, table, cols), t)
    case Case(base, whens, otherwise) => Case(SubstOpt(base, table, cols), SubstWhens(whens, table, cols),
                                              SubstOpt(otherwise, table, cols))
    case _ => e
  }

  function SubstOpt(o: OptExpr, table: int, cols: seq<Expr>): OptExpr
    decreases o
  {
    if o.TheExpr? then TheExpr(Subst(o.e, table, cols)) else o
  }

  function SubstAll(es: Exprs, table: int, cols: seq<Expr>): Exprs
    decreases es
  {
    match es case Nil => Nil case Cons(e, tail) => Cons(Subst(e, table, cols), SubstAll(tail, table, cols))
  }

  function SubstWhens(ws: Whens, table: int, cols: seq<Expr>): Whens
    decreases ws
  {
    match ws
    case Done => Done
    case When(c, r, rest) => When(Subst(c, table, cols), Subst(r, table, cols), SubstWhens(rest, table, cols))
  }

  /** What the rewrite asks of an expression: it refers to result columns only, no comparison
      changes between text and numeric, and no minus sign meets a number literal. */
  predicate Rewritable(e: Expr, table: int, cols: seq<Expr>)
    decreases e
  {
    if e.Column? then e.table == table ==> 0 <= e.column < |cols|
    else if IsLeaf(e) then true
    else if e.Minus? then Rewritable(e.left, table, cols) && !IsNumber(Subst(e.left, table, cols))
    else if e.Comparison? then
      && Rewritable(e.left, table, cols) && Rewritable(e.right, table, cols)
      && (TypeOf(Subst(e, table, cols)) == TextType) == (TypeOf(e) == TextType)
    else if IsBinary(e) || e.Shift? then Rewritable(e.left, table, cols) && Rewritable(e.right, table, cols)
    else if e.Between?
         then Rewritable(e.left, table, cols) && Rewritable(e.low, table, cols) && Rewritable(e.high, table, cols)
    else if e.Function? then RewritableAll(e.args, table, cols)
    else if e.Case? then
      (e.base.TheExpr? ==> Rewritable(e.base.e, table, cols)) && RewritableWhens(e.whens, table, cols)
      && (e.otherwise.TheExpr? ==> Rewritable(e.otherwise.e, table, cols))
    else Rewritable(e.left, table, cols)
  }

  predicate RewritableAll(es: Exprs, table: int, cols: seq<Expr>)
    decreases es
  {
    match es case Nil => true case Cons(e, tail) => Rewritable(e, table, cols) && RewritableAll(tail, table, cols)
  }

  predicate RewritableWhens(ws: Whens, table: int, cols: seq<Expr>)
    decreases ws
  {
    match ws
    case Done => true
    case When(c, r, rest) =>
      Rewritable(c, table, cols) && Rewritable(r, table, cols) && RewritableWhens(rest, table, cols)
  }

  /** `outer` sees the materialised subquery where `inner` sees the rows it is computed from. */
  ghost predicate Reads(outer: Env, inner: Env, ts: set<int>, table: int, cols: seq<Expr>) {
    && outer.h == inner.h && outer.variable == inner.variable && outer.agg == inner.agg && outer.member == inner.member
    && outer.call == inner.call && outer.mem == inner.mem
    && (forall t, c :: t in ts && t != table ==> outer.column(t, c) == inner.column(t, c))
    && (forall t :: t in ts && t != table ==> outer.rowid(t) == inner.rowid(t))
    && (forall c :: 0 <= c < |cols| ==> outer.column(table, c) == Eval(cols[c], false, inner))
  }

  /** Substitution keeps the value. */
  lemma SubstEval(e: Expr, table: int, cols: seq<Expr>, ts: set<int>, outer: Env, inner: Env)
    requires Reads(outer, inner, ts, table, cols) && Tables(e) <= ts && Rewritable(e, table, cols)
    ensures Eval(e, false, outer) == Eval(Subst(e, table, cols), false, inner)
    decreases e, 1
  {
    hide Rewritable, Tables, TypeOf, Compare, Within, And3, Not3, FromTruth;
    RewritableMeans(e, table, cols);
    TablesMean(e);
    if IsLeaf(e) {
    } else if IsBinary(e) || e.Shift? {
      SubstEvalBinary(e, table, cols, ts, outer, inner);
    } else if e.Between? {
      SubstEval(e.left, table, cols, ts, outer, inner);
      SubstEval(e.low, table, cols, ts, outer, inner);
      SubstEval(e.high, table, cols, ts, outer, inner);
    } else if e.Function? {
      SubstEvalAll(e.args, table, cols, ts, outer, inner);
    } else if e.Case? {
      SubstEvalCase(e, table, cols, ts, outer, inner);
    } else {
      SubstEval(e.left, table, cols, ts, outer, inner);
    }
  }

  lemma SubstEvalBinary(e: Expr, table: int, cols: seq<Expr>, ts: set<int>, outer: Env, inner: Env)
    requires Reads(outer, inner, ts, table, cols) && Tables(e) <= ts && Rewritable(e, table, cols)
             && (IsBinary(e) || e.Shift?)
    ensures Eval(e, false, outer) == Eval(Subst(e, table, cols), false, inner)
    decreases e, 0
  {
    hide Rewritable, Tables, TypeOf, Compare;
    RewritableMeans(e, table, cols);
    TablesMean(e);
    SubstEval(e.left, table, cols, ts, outer, inner);
    SubstEval(e.right, table, cols, ts, outer, inner);
  }

  lemma SubstEvalCase(e: Expr, table: int, cols: seq<Expr>, ts: set<int>, outer: Env, inner: Env)
    requires Reads(outer, inner, ts, table, cols) && Tables(e) <= ts && Rewritable(e, table, cols) && e.Case?
    ensures Eval(e, false, outer) == Eval(Subst(e, table, cols), false, inner)
    decreases e, 0
  {
    if e.base.TheExpr? { SubstEval(e.base.e, table, cols, ts, outer, inner); }
    if e.otherwise.TheExpr? { SubstEval(e.otherwise.e, table, cols, ts, outer, inner); }
    SubstEvalWhens(e.whens, if e.base.TheExpr? then Some(Eval(e.base.e, false, outer)) else None,
                   if e.otherwise.TheExpr? then Eval(e.otherwise.e, false, outer) else Null, table, cols, ts, outer,
                      inner);
  }

  lemma SubstEvalAll(es: Exprs, table: int, cols: seq<Expr>, ts: set<int>, outer: Env, inner: Env)
    requires Reads(outer, inner, ts, table, cols) && ArgTables(es) <= ts && RewritableAll(es, table, cols)
    ensures EvalAll(es, false, outer) == EvalAll(SubstAll(es, table, cols), false, inner)
    decreases es
  {
    if es.Cons? {
      SubstEval(es.head, table, cols, ts, outer, inner);
      SubstEvalAll(es.tail, table, cols, ts, outer, inner);
    }
  }

  lemma SubstEvalWhens(ws: Whens, base: Option<Value>, ov: Value, table: int, cols: seq<Expr>, ts: set<int>,
                       outer: Env, inner: Env)
    requires Reads(outer, inner, ts, table, cols) && WhenTables(ws) <= ts && RewritableWhens(ws, table, cols)
    ensures EvalWhens(ws, base, ov, false, outer) == EvalWhens(SubstWhens(ws, table, cols), base, ov, false, inner)
    decreases ws
  {
    if ws.When? {
      SubstEval(ws.cond, table, cols, ts, outer, inner);
      SubstEval(ws.result, table, cols, ts, outer, inner);
      SubstEvalWhens(ws.rest, base, ov, table, cols, ts, outer, inner);
    }
  }

  lemma RewritableMeans(e: Expr, table: int, cols: seq<Expr>)
    requires Rewritable(e, table, cols)
    ensures e.Column? && e.table == table ==> 0 <= e.column < |cols|
    ensures e.Minus? && !IsNumber(e.left) ==> Rewritable(e.left, table, cols) && !IsNumber(Subst(e.left, table, cols))
    ensures e.Minus? && IsNumber(e.left) ==> Subst(e, table, cols) == e
    ensures e.Comparison? ==> (TypeOf(Subst(e, table, cols)) == TextType) == (TypeOf(e) == TextType)
    ensures IsBinary(e) || e.Shift? ==> Rewritable(e.left, table, cols) && Rewritable(e.right, table, cols)
    ensures e.Between? ==>
              Rewritable(e.left, table, cols) && Rewritable(e.low, table, cols) && Rewritable(e.high, table, cols)
    ensures e.Function? ==> RewritableAll(e.args, table, cols)
    ensures e.BitNot? || e.Not? || e.IsNull? || e.NotNull? || e.Plus? || e.As? || e.In? ==>
              Rewritable(e.left, table, cols)
  {
  }

  lemma TablesMean(e: Expr)
    ensures e.Column? ==> e.table in Tables(e)
    ensures IsBinary(e) || e.Shift? ==> Tables(e.left) <= Tables(e) && Tables(e.right) <= Tables(e)
    ensures e.Between? ==> Tables(e.left) <= Tables(e) && Tables(e.low) <= Tables(e) && Tables(e.high) <= Tables(e)
    ensures e.Function? ==> ArgTables(e.args) <= Tables(e)
    ensures e.BitNot? || e.Not? || e.IsNull? || e.NotNull? || e.Plus? || e.As? || e.In? ==> Tables(e.left) <= Tables(e)
    ensures e.Minus? && !IsNumber(e.left) ==> Tables(e.left) <= Tables(e)
  {
  }

  // Where the rewrite can go wrong, and when it does not.

  lemma FromTruthInjective(s: Truth, t: Truth)
    ensures FromTruth(s) == FromTruth(t) <==> s == t
  {
  }

  /** A comparison of rewritable operands keeps its value if and only if it stays text or numeric, or
      both kinds of comparison agree on the two values at hand. */
  lemma ComparisonKept(e: Expr, table: int, cols: seq<Expr>, ts: set<int>, outer: Env, inner: Env)
    requires Reads(outer, inner, ts, table, cols) && e.Comparison? && Tables(e) <= ts
    requires Rewritable(e.left, table, cols) && Rewritable(e.right, table, cols)
    ensures var x, y := Eval(e.left, false, outer), Eval(e.right, false, outer);
            Eval(e, false, outer) == Eval(Subst(e, table, cols), false, inner)
            <==> (TypeOf(e) == TextType) == (TypeOf(Subst(e, table, cols)) == TextType)
                 || Compare(outer.h, e.rel, true, x, y) == Compare(outer.h, e.rel, false, x, y)
  {
    hide Rewritable, TypeOf, Compare;
    SubstEval(e.left, table, cols, ts, outer, inner);
    SubstEval(e.right, table, cols, ts, outer, inner);
    var x, y := Eval(e.left, false, outer), Eval(e.right, false, outer);
    FromTruthInjective(Compare(outer.h, e.rel, true, x, y), Compare(outer.h, e.rel, false, x, y));
  }

  /** A minus sign in front of a column that is a number literal becomes a negative literal; it keeps
      its value if and only if negating the literal gives that cell. */
  lemma MinusKept(l: Expr, table: int, cols: seq<Expr>, ts: set<int>, outer: Env, inner: Env)
    requires Reads(outer, inner, ts, table, cols) && Tables(l) <= ts && Rewritable(l, table, cols)
    requires !IsNumber(l) && IsNumber(Subst(l, table, cols))
    ensures var n := Subst(l, table, cols);
            Eval(Minus(l), false, outer) == Eval(Subst(Minus(l), table, cols), false, inner)
            <==> outer.h.negate(LiteralValue(outer.h, n.kind, n.token)) == NegatedLiteral(outer.h, n.kind, n.token)
  {
    hide Rewritable;
    SubstEval(l, table, cols, ts, outer, inner);
  }

  /** Why comparisons must keep their kind: a result column of a materialised subquery has no type,
      so it compares with a string as text; the number column put in its place compares numerically.
      With 1.0 in the column, `SELECT x = '1' FROM (SELECT n AS x FROM t)` is false before and true
      after. What is asked of the helpers is what strcmp, __str_numeric_cmp and __str_unquote do. */
  lemma TypeChangeMatters(env: Env, ts: set<int>) returns (e: Expr, cols: seq<Expr>, outer: Env, inner: Env)
    requires env.h.strCmp("1.0", "1") != 0 && env.h.numericCmp("1.0", "1") == 0 && env.h.unquote("'1'") == "1"
    ensures inner.h == env.h && Reads(outer, inner, ts, 9, cols)
    ensures e == Comparison(Eq, Column(9, 0, 0, NoType), Literal(StringLiteral, "'1'"))
            && cols == [Column(1, 0, 0, NumType)]
    ensures Eval(e, false, outer) == Number(0) && Eval(Subst(e, 9, cols), false, inner) == Number(1)
  {
    inner := env.(column := (t, c) => Str("1.0"));
    outer := inner;
    cols := [Column(1, 0, 0, NumType)];
    e := Comparison(Eq, Column(9, 0, 0, NoType), Literal(StringLiteral, "'1'"));
    var x, y := Str("1.0"), Str("1");
    assert Eval(e.left, false, outer) == x && Eval(e.right, false, outer) == y;
    assert Compare(env.h, Eq, true, x, y) == False && Compare(env.h, Eq, false, x, y) == True;
    assert TypeOf(e) == TextType;
    assert Subst(e, 9, cols) == Comparison(Eq, Column(1, 0, 0, NumType), Literal(StringLiteral, "'1'"));
  }
}
