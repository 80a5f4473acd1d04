/** SQL expressions as the code generator sees them, and what they mean. */
module Expressions {
  import opened Values

  /** A column of a materialised subquery has neither type. */
  datatype SortType = NumType | TextType | NoType
  datatype LiteralKind = StringLiteral | FloatLiteral | IntegerLiteral

  datatype Expr =
    | Column(table: int, column: int, agg: nat, dataType: SortType)
    | Literal(kind: LiteralKind, token: string)
    | NullLiteral
    | Variable(number: int)
    | Comparison(rel: Relation, left: Expr, right: Expr)
    | And(left: Expr, right: Expr)
    | Or(left: Expr, right: Expr)
    | Arithmetic(arithOp: ArithOp, left: Expr, right: Expr)
    | Shift(shiftOp: ShiftOp, left: Expr, right: Expr)
    | Concat(left: Expr, right: Expr)
    | Minus(left: Expr)
    | BitNot(left: Expr)
    | Not(left: Expr)
    | IsNull(left: Expr)
    | NotNull(left: Expr)
    | AggFunction(agg: nat, dataType: SortType)
    | Function(def: int, args: Exprs, dataType: SortType)
    | ScalarSelect(mem: int, dataType: SortType)
    | In(left: Expr, rhs: int, fromSelect: bool)
    | Between(left: Expr, low: Expr, high: Expr)
    | Plus(left: Expr)
    | As(left: Expr)
    | Case(base: OptExpr, whens: Whens, otherwise: OptExpr)

  datatype OptExpr = NoExpr | TheExpr(e: Expr)
  datatype Exprs = Nil | Cons(head: Expr, tail: Exprs)
  datatype Whens = Done | When(cond: Expr, result: Expr, rest: Whens)

  /** What an expression is evaluated against: the current rows, bound variables, aggregate
      results, memory cells and the right-hand sides of IN, plus the helpers. `useAgg` is the
      parser flag that redirects columns to the aggregator. */
  datatype Env = Env(
    column: (int, int) -> Value,
    rowid: int -> Value,
    variable: int -> Value,
    agg: int -> Value,
    mem: int -> Value,
    member: (bool, int, string) -> bool,
    call: (int, seq<Value>) -> Value,
    h: Helpers)

  predicate IsNumber(e: Expr) { e.Literal? && e.kind != StringLiteral }

  function Count(es: Exprs): nat {
    match es
    case Nil => 0
    case Cons(_, tail) => 1 + Count(tail)
  }

  /** Whether an expression sorts and compares as text. */
  function TypeOf(e: Expr): SortType {
    match e
    case Column(_, _, _, t) => t
    case Literal(kind, _) => if kind == StringLiteral then TextType else NumType
    case NullLiteral => TextType
    case Variable(_) => TextType
    case Concat(_, _) => TextType
    case Comparison(_, l, r) => if TypeOf(l) == NumType then NumType else TypeOf(r)
    case As(l) => TypeOf(l)
    case AggFunction(_, t) => t
    case Function(_, _, t) => t
    case ScalarSelect(_, t) => t
    case Case(_, whens, otherwise) =>
      if otherwise.TheExpr? && TypeOf(otherwise.e) == NumType then NumType
      else WhensType(whens)
    case _ => NumType
  }

  function WhensType(ws: Whens): SortType {
    match ws
    case Done => TextType
    case When(_, result, rest) => if TypeOf(result) == NumType then NumType else WhensType(rest)
  }

  /** A literal without its quotes; integers that fit 32 bits are integer cells. */
  function LiteralValue(h: Helpers, kind: LiteralKind, token: string): Value {
    if kind == IntegerLiteral && h.fits32(token) then Int(h.atoi(token), Some(h.unquote(token)))
    else Str(h.unquote(token))
  }

  function NegatedLiteral(h: Helpers, kind: LiteralKind, token: string): Value {
    if kind == IntegerLiteral && h.fits32("-" + token) then Int(h.atoi("-" + token), Some("-" + token))
    else Str("-" + token)
  }

  /** The value of an expression. Logic is three-valued; every other operator is strict in NULL. */
  function Eval(e: Expr, useAgg: bool, env: Env): Value
    decreases e, 0
  {
    match e
    case Column(t, c, agg, _) =>
      if useAgg then env.agg(agg) else if c >= 0 then env.column(t, c) else env.rowid(t)
    case Literal(kind, token) => LiteralValue(env.h, kind, token)
    case NullLiteral => Null
    case Variable(n) => env.variable(n)
    case Comparison(rel, l, r) =>
      FromTruth(Compare(env.h, rel, TypeOf(e) == TextType, Eval(l, useAgg, env), Eval(r, useAgg, env)))
    case And(l, r) => FromTruth(And3(TruthIn(l, useAgg, env), TruthIn(r, useAgg, env)))
    case Or(l, r) => FromTruth(Or3(TruthIn(l, useAgg, env), TruthIn(r, useAgg, env)))
    case Arithmetic(op, l, r) =>
      var x, y := Eval(l, useAgg, env), Eval(r, useAgg, env);
      if x.Null? || y.Null? then Null else env.h.arith(op, x, y)
    case Shift(op, l, r) =>
      var x, y := Eval(l, useAgg, env), Eval(r, useAgg, env);
      if x.Null? || y.Null? then Null else env.h.shift(op, x, y)
    case Concat(l, r) =>
      var x, y := Eval(l, useAgg, env), Eval(r, useAgg, env);
      if x.Null? || y.Null? then Null else Str(AsString(env.h, x) + AsString(env.h, y))
    case Minus(l) =>
      if IsNumber(l) then NegatedLiteral(env.h, l.kind, l.token)
      else var x := Eval(l, useAgg, env); if x.Null? then Null else env.h.negate(x)
    case BitNot(l) =>
      var x := Eval(l, useAgg, env); if x.Null? then Null else Number(env.h.bitNot(ToInt(env.h, x)))
    case Not(l) => FromTruth(Not3(TruthIn(l, useAgg, env)))
    case IsNull(l) => FromTruth(Of(Eval(l, useAgg, env).Null?))
    case NotNull(l) => FromTruth(Of(!Eval(l, useAgg, env).Null?))
    case AggFunction(agg, _) => env.agg(agg)
    case Function(def, args, _) => env.call(def, EvalAll(args, useAgg, env))
    case ScalarSelect(mem, _) => env.mem(mem)
    case In(l, rhs, fromSelect) => FromTruth(Membership(env, fromSelect, rhs, Eval(l, useAgg, env)))
    case Between(l, lo, hi) => 
      FromTruth(Within(env.h, Eval(l, useAgg, env), Eval(lo, useAgg, env), Eval(hi, useAgg, env)))
    case Plus(l) => Eval(l, useAgg, env)
    case As(l) => Eval(l, useAgg, env)
    case Case(base, whens, otherwise) =>
      EvalWhens(whens, if base.TheExpr? then Some(Eval(base.e, useAgg, env)) else None,
                if otherwise.TheExpr? then Eval(otherwise.e, useAgg, env) else Null, useAgg, env)
  }

  function TruthIn(e: Expr, useAgg: bool, env: Env): Truth
    decreases e, 1
  {
    TruthOf(env.h, Eval(e, useAgg, env))
  }

  function EvalAll(es: Exprs, useAgg: bool, env: Env): (vs: seq<Value>)
    ensures |vs| == Count(es)
  {
    match es
    case Nil => []
    case Cons(e, tail) => [Eval(e, useAgg, env)] + EvalAll(tail, useAgg, env)
  }

  function Membership(env: Env, fromSelect: bool, rhs: int, v: Value): Truth {
    if v.Null? then Unknown else Of(env.member(fromSelect, rhs, AsString(env.h, v)))
  }

  /** BETWEEN always compares numerically, whatever the type of its operands. */
  function Within(h: Helpers, v: Value, lo: Value, hi: Value): Truth {
    And3(Compare(h, Ge, false, v, lo), Compare(h, Le, false, v, hi))
  }

  /** The first WHEN that holds; with a base operand a WHEN holds if it equals the base. */
  function EvalWhens(ws: Whens, base: Option<Value>, otherwise: Value, useAgg: bool, env: Env): Value {
    match ws
    case Done => otherwise
    case When(cond, result, rest) =>
      if Chosen(env.h, base, Eval(cond, useAgg, env)) then Eval(result, useAgg, env)
      else EvalWhens(rest, base, otherwise, useAgg, env)
  }

  predicate Chosen(h: Helpers, base: Option<Value>, v: Value) {
    match base
    case None => TruthOf(h, v) == True
    case Some(b) => Compare(h, Eq, false, v, b) == True
  }
}
