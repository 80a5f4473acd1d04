/** An expression depends only on the tables and memory cells it mentions. */
module Agreement {
  import opened Values
  import opened Expressions
  import opened Layout
  import opened Fragments

  /** The cursors an expression mentions (the table-usage walk of the WHERE analyser). */
  function Tables(e: Expr): set<int>
    decreases e
  {
    if e.Column? then {e.table}
    else if IsLeaf(e) then {}
    else if IsBinary(e) || e.Shift? then Tables(e.right) + Tables(e.left)
    else if e.Between? then Tables(e.left) + Tables(e.low) + Tables(e.high)
    else if e.Function? then ArgTables(e.args)
    else if e.Case? then
      (if e.base.TheExpr? then Tables(e.base.e) else {}) + WhenTables(e.whens)
      + (if e.otherwise.TheExpr? then Tables(e.otherwise.e) else {})
    else Tables(e.left)
  }

  function ArgTables(es: Exprs): set<int>
    decreases es
  {
    match es case Nil => {} case Cons(e, tail) => Tables(e) + ArgTables(tail)
  }

  function WhenTables(ws: Whens): set<int>
    decreases ws
  {
    match ws case Done => {} case When(c, r, rest) => Tables(c) + Tables(r) + WhenTables(rest)
  }

  /** No value-position IN, and no memory cell from `cells` on (scalar subqueries use lower ones). */
  predicate Plain(e: Expr, cells: int)
    decreases e
  {
    if e.ScalarSelect? then e.mem < cells
    else if IsLeaf(e) then true
    else if IsBinary(e) || e.Shift? then Plain(e.left, cells) && Plain(e.right, cells)
    else if e.Between? then Plain(e.left, cells) && Plain(e.low, cells) && Plain(e.high, cells)
    else if e.Function? then PlainArgs(e.args, cells)
    else if e.In? then false
    else if e.Case? then
      (e.base.TheExpr? ==> Plain(e.base.e, cells)) && PlainWhens(e.whens, cells)
      && (e.otherwise.TheExpr? ==> Plain(e.otherwise.e, cells))
    else Plain(e.left, cells)
  }

  predicate PlainArgs(es: Exprs, cells: int)
    decreases es
  {
    match es case Nil => true case Cons(e, tail) => Plain(e, cells) && PlainArgs(tail, cells)
  }

  predicate PlainWhens(ws: Whens, cells: int)
    decreases ws
  {
    match ws case Done => true case When(c, r, rest) => Plain(c, cells) && Plain(r, cells) && PlainWhens(rest, cells)
  }

  /** The same for an expression coded as a jump, where IN itself is balanced. */
  predicate PlainTest(e: Expr, cells: int)
    decreases e
  {
    if e.And? || e.Or? then PlainTest(e.left, cells) && PlainTest(e.right, cells)
    else if e.Not? then PlainTest(e.left, cells)
    else if e.In? then Plain(e.left, cells)
    else Plain(e, cells)
  }

  /** Two environments that differ at most in rows of tables outside `ts` and cells from `cells` on. */
  ghost predicate Agree(e1: Env, e2: Env, ts: set<int>, cells: int) {
    && e1.h == e2.h && e1.variable == e2.variable && e1.agg == e2.agg && e1.member == e2.member && e1.call == e2.call
    && (forall t, c :: t in ts ==> e1.column(t, c) == e2.column(t, c))
    && (forall t :: t in ts ==> e1.rowid(t) == e2.rowid(t))
    && (forall m :: m < cells ==> e1.mem(m) == e2.mem(m))
  }

  lemma EvalAgrees(e: Expr, ts: set<int>, cells: int, useAgg: bool, e1: Env, e2: Env)
    requires Agree(e1, e2, ts, cells) && Tables(e) <= ts && Plain(e, cells)
    ensures Eval(e, useAgg, e1) == Eval(e, useAgg, e2)
    decreases e
  {
    if IsLeaf(e) {
    } else if IsBinary(e) || e.Shift? {
      EvalAgrees(e.left, ts, cells, useAgg, e1, e2);
      EvalAgrees(e.right, ts, cells, useAgg, e1, e2);
    } else if e.Between? {
      EvalAgrees(e.left, ts, cells, useAgg, e1, e2);
      EvalAgrees(e.low, ts, cells, useAgg, e1, e2);
      EvalAgrees(e.high, ts, cells, useAgg, e1, e2);
    } else if e.Function? {
      ArgsAgree(e.args, ts, cells, useAgg, e1, e2);
    } else if e.Case? {
      if e.base.TheExpr? { EvalAgrees(e.base.e, ts, cells, useAgg, e1, e2); }
      if e.otherwise.TheExpr? { EvalAgrees(e.otherwise.e, ts, cells, useAgg, e1, e2); }
      WhensAgree(e.whens, if e.base.TheExpr? then Some(Eval(e.base.e, useAgg, e1)) else None,
                 if e.otherwise.TheExpr? then Eval(e.otherwise.e, useAgg, e1) else Null, ts, cells, useAgg, e1, e2);
    } else {
      EvalAgrees(e.left, ts, cells, useAgg, e1, e2);
    }
  }

  lemma ArgsAgree(es: Exprs, ts: set<int>, cells: int, useAgg: bool, e1: Env, e2: Env)
    requires Agree(e1, e2, ts, cells) && ArgTables(es) <= ts && PlainArgs(es, cells)
    ensures EvalAll(es, useAgg, e1) == EvalAll(es, useAgg, e2)
    decreases es
  {
    match es
    case Nil =>
    case Cons(e, tail) =>
      EvalAgrees(e, ts, cells, useAgg, e1, e2);
      ArgsAgree(tail, ts, cells, useAgg, e1, e2);
  }

  lemma WhensAgree(ws: Whens, base: Option<Value>, ov: Value, ts: set<int>, cells: int, useAgg: bool, e1: Env, e2: Env)
    requires Agree(e1, e2, ts, cells) && WhenTables(ws) <= ts && PlainWhens(ws, cells)
    ensures EvalWhens(ws, base, ov, useAgg, e1) == EvalWhens(ws, base, ov, useAgg, e2)
    decreases ws
  {
    match ws
    case Done =>
    case When(c, r, rest) =>
      EvalAgrees(c, ts, cells, useAgg, e1, e2);
      EvalAgrees(r, ts, cells, useAgg, e1, e2);
      WhensAgree(rest, base, ov, ts, cells, useAgg, e1, e2);
  }

  /** A test, which may contain IN in jump position, has the same truth value in both. */
  lemma TruthAgrees(e: Expr, ts: set<int>, cells: int, useAgg: bool, e1: Env, e2: Env)
    requires Agree(e1, e2, ts, cells) && Tables(e) <= ts && PlainTest(e, cells)
    ensures TruthIn(e, useAgg, e1) == TruthIn(e, useAgg, e2)
    decreases e
  {
    if e.And? || e.Or? {
      TruthAgrees(e.left, ts, cells, useAgg, e1, e2);
      TruthAgrees(e.right, ts, cells, useAgg, e1, e2);
    } else if e.Not? {
      TruthAgrees(e.left, ts, cells, useAgg, e1, e2);
    } else if e.In? {
      EvalAgrees(e.left, ts, cells, useAgg, e1, e2);
    } else {
      EvalAgrees(e, ts, cells, useAgg, e1, e2);
    }
  }

  lemma PlainNeverLeaks(e: Expr, cells: int, useAgg: bool, env: Env)
    requires Plain(e, cells)
    ensures !Leaks(e, useAgg, env)
    decreases e
  {
    if IsLeaf(e) {
    } else if IsBinary(e) || e.Shift? {
      PlainNeverLeaks(e.left, cells, useAgg, env);
      PlainNeverLeaks(e.right, cells, useAgg, env);
    } else if e.Between? {
      PlainNeverLeaks(e.left, cells, useAgg, env);
      PlainNeverLeaks(e.low, cells, useAgg, env);
      PlainNeverLeaks(e.high, cells, useAgg, env);
    } else if e.Function? {
      PlainArgsNeverLeak(e.args, cells, useAgg, env);
    } else if e.Case? {
      if e.base.TheExpr? { PlainNeverLeaks(e.base.e, cells, useAgg, env); }
      if e.otherwise.TheExpr? { PlainNeverLeaks(e.otherwise.e, cells, useAgg, env); }
      PlainWhensNeverLeak(e.whens, if e.base.TheExpr? then Some(Eval(e.base.e, useAgg, env)) else None, cells, useAgg,
                          env);
    } else {
      PlainNeverLeaks(e.left, cells, useAgg, env);
    }
  }

  lemma PlainArgsNeverLeak(es: Exprs, cells: int, useAgg: bool, env: Env)
    requires PlainArgs(es, cells)
    ensures !LeaksArgs(es, useAgg, env)
    decreases es
  {
    match es
    case Nil =>
    case Cons(e, tail) =>
      PlainNeverLeaks(e, cells, useAgg, env);
      PlainArgsNeverLeak(tail, cells, useAgg, env);
  }

  lemma PlainWhensNeverLeak(ws: Whens, base: Option<Value>, cells: int, useAgg: bool, env: Env)
    requires PlainWhens(ws, cells)
    ensures !LeaksWhens(ws, base, false, useAgg, env)
    decreases ws
  {
    match ws
    case Done =>
    case When(c, r, rest) =>
      PlainNeverLeaks(c, cells, useAgg, env);
      PlainNeverLeaks(r, cells, useAgg, env);
      PlainWhensNeverLeak(rest, base, cells, useAgg, env);
  }

  lemma PlainTestNeverLeaks(e: Expr, cells: int, sense: bool, jumpIfNull: bool, useAgg: bool, env: Env)
    requires PlainTest(e, cells)
    ensures !LeaksJump(e, sense, jumpIfNull, useAgg, env)
    decreases e
  {
    if e.And? || e.Or? {
      PlainTestNeverLeaks(e.left, cells, e.Or?, if e.Or? == sense then jumpIfNull else !jumpIfNull, useAgg, env);
      PlainTestNeverLeaks(e.right, cells, sense, jumpIfNull, useAgg, env);
    } else if e.Not? {
      PlainTestNeverLeaks(e.left, cells, !sense, jumpIfNull, useAgg, env);
    } else if e.In? {
      PlainNeverLeaks(e.left, cells, useAgg, env);
    } else {
      PlainNeverLeaks(e, cells, useAgg, env);
    }
  }
}
