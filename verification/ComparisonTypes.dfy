/** Which comparisons are made as text: stated on the instructions of the code, by the forms the
    operands are built from. */
module ComparisonTypes {
  import opened Values
  import opened Expressions
  import opened Machine
  import opened Layout

  /** The forms whose own kind decides how an expression compares: both operands of a comparison, the
      operand of AS, and the results and the ELSE of a CASE. */
  function Deciders(e: Expr): seq<Expr>
    decreases e
  {
    if e.Comparison? then Deciders(e.left) + Deciders(e.right)
    else if e.As? then Deciders(e.left)
    else if e.Case? then
      ResultDeciders(e.whens) + (if e.otherwise.TheExpr? then Deciders(e.otherwise.e) else [])
    else [e]
  }

  function ResultDeciders(ws: Whens): seq<Expr>
    decreases ws
  {
    match ws case Done => [] case When(_, result, rest) => Deciders(result) + ResultDeciders(rest)
  }

  /** Columns and functions have a declared type; strings, NULL, `?` and `||` are text; everything else
      is a number. */
  predicate IsDeclared(e: Expr) { e.Column? || e.Function? || e.AggFunction? || e.ScalarSelect? }

  predicate IsTextForm(e: Expr) {
    (e.Literal? && e.kind == StringLiteral) || e.NullLiteral? || e.Variable? || e.Concat?
  }

  predicate Numeric(e: Expr) { if IsDeclared(e) then e.dataType == NumType else !IsTextForm(e) }

  ghost predicate SomeNumeric(es: seq<Expr>) { exists e :: e in es && Numeric(e) }

  /** The value of the expression is a column without a type, or a function of one. */
  predicate Untyped(e: Expr)
    decreases e
  {
    if IsDeclared(e) then e.dataType == NoType
    else if e.As? then Untyped(e.left)
    else e.Comparison? && Untyped(e.right)
  }

  ghost predicate AllTyped(es: seq<Expr>) { forall e :: e in es ==> !Untyped(e) }

  lemma SomeNumericConcat(x: seq<Expr>, y: seq<Expr>)
    ensures SomeNumeric(x + y) <==> SomeNumeric(x) || SomeNumeric(y)
  {
    if SomeNumeric(x) { var e :| e in x && Numeric(e); assert e in x + y; }
    if SomeNumeric(y) { var e :| e in y && Numeric(e); assert e in x + y; }
  }

  lemma {:induction false} NumericIsSome(e: Expr)
    ensures TypeOf(e) == NumType <==> SomeNumeric(Deciders(e))
    ensures !SomeNumeric(Deciders(e)) ==> TypeOf(e) == if Untyped(e) then NoType else TextType
    decreases e
  {
    if e.Comparison? {
      NumericIsSome(e.left);
      NumericIsSome(e.right);
      SomeNumericConcat(Deciders(e.left), Deciders(e.right));
    } else if e.As? {
      NumericIsSome(e.left);
    } else if e.Case? {
      ResultsNumeric(e.whens);
      var last: seq<Expr> := if e.otherwise.TheExpr? then Deciders(e.otherwise.e) else [];
      SomeNumericConcat(ResultDeciders(e.whens), last);
      if e.otherwise.TheExpr? { NumericIsSome(e.otherwise.e); }
    } else {
      assert e in [e];
    }
  }

  lemma {:induction false} ResultsNumeric(ws: Whens)
    ensures WhensType(ws) == if SomeNumeric(ResultDeciders(ws)) then NumType else TextType
    decreases ws
  {
    if ws.When? {
      NumericIsSome(ws.result);
      ResultsNumeric(ws.rest);
      SomeNumericConcat(Deciders(ws.result), ResultDeciders(ws.rest));
    }
  }

  lemma {:induction false} TypedThroughout(e: Expr)
    requires AllTyped(Deciders(e))
    ensures !Untyped(e)
    decreases e
  {
    if e.Comparison? {
      forall p | p in Deciders(e.right) ensures !Untyped(p) {
        assert p in Deciders(e);
      }
      TypedThroughout(e.right);
    } else if e.As? {
      TypedThroughout(e.left);
    } else if !e.Case? {
      assert e in Deciders(e);
    }
  }

  /** A comparison is made as text exactly if no decider of its operands is numeric and the right one
      has a type. */
  ghost predicate ByText(l: Expr, r: Expr) {
    !SomeNumeric(Deciders(l)) && !SomeNumeric(Deciders(r)) && !Untyped(r)
  }

  lemma TypedByText(l: Expr, r: Expr)
    requires AllTyped(Deciders(r))
    ensures ByText(l, r)
            <==> (forall p :: p in Deciders(l) ==> !Numeric(p)) && (forall p :: p in Deciders(r) ==> !Numeric(p))
  {
    hide Numeric, Deciders, Untyped;
    TypedThroughout(r);
  }

  lemma ComparisonIsText(rel: Relation, l: Expr, r: Expr)
    ensures TypeOf(Comparison(rel, l, r)) == TextType <==> ByText(l, r)
  {
    NumericIsSome(l);
    NumericIsSome(r);
  }

  /** In value position: the last instruction. */
  lemma ValueOpcode(h: Helpers, rel: Relation, l: Expr, r: Expr, useAgg: bool, a: nat)
    ensures var code := ValueCode(h, Comparison(rel, l, r), useAgg, a);
            code != [] && code[|code| - 1] == Ins(OpCompare(rel, ByText(l, r)), 0, 0)
  {
    hide ValueCode;
    var e := Comparison(rel, l, r);
    BinaryCodeIs(h, e, useAgg, a);
    ComparisonIsText(rel, l, r);
  }

  /** As a jump: the last instruction, with the relation negated when jumping if false. */
  lemma JumpOpcode(h: Helpers, rel: Relation, l: Expr, r: Expr, sense: bool, dest: int, jumpIfNull: bool, useAgg: bool,
                   a: nat)
    ensures var code := JumpCode(h, Comparison(rel, l, r), sense, dest, jumpIfNull, useAgg, a);
            code != [] && code[|code| - 1]
                          == Ins(OpCompare(if sense then rel else Opposite(rel), ByText(l, r)), BoolInt(jumpIfNull),
                                 dest)
  {
    hide ValueCode, JumpCode, TestCode;
    var e := Comparison(rel, l, r);
    TestIs(h, e, sense, dest, jumpIfNull, useAgg, a);
    CompareTestIs(h, e, sense, dest, jumpIfNull, useAgg, a);
    ComparisonIsText(rel, l, r);
  }

  /** The relation that holds of two numbers exactly if the given one does not. */
  function Opposite(rel: Relation): (r: Relation)
    ensures forall x, y: int :: IntsRelate(r, x, y) <==> !IntsRelate(rel, x, y)
  {
    match rel
    case Eq => Ne
    case Ne => Eq
    case Lt => Ge
    case Ge => Lt
    case Le => Gt
    case Gt => Le
  }

  predicate IntsRelate(rel: Relation, x: int, y: int) {
    match rel
    case Eq => x == y
    case Ne => x != y
    case Lt => x < y
    case Le => x <= y
    case Gt => x > y
    case Ge => x >= y
  }

  /** A numeric comparison of integer cells is the comparison of the integers. */
  lemma IntegersCompare(rel: Relation, l: Expr, r: Expr, useAgg: bool, env: Env)
    requires Eval(l, useAgg, env).Int? && Eval(r, useAgg, env).Int? && !ByText(l, r)
    ensures Eval(Comparison(rel, l, r), useAgg, env)
            == Number(if IntsRelate(rel, Eval(l, useAgg, env).i, Eval(r, useAgg, env).i) then 1 else 0)
  {
    ComparisonIsText(rel, l, r);
  }

  /** A string that looks like an integer compares with integer cells as that integer, on either side. */
  lemma NumericStringsCompare(rel: Relation, l: Expr, r: Expr, useAgg: bool, env: Env)
    requires !ByText(l, r)
    ensures var (v, w) := (Eval(l, useAgg, env), Eval(r, useAgg, env));
            var e := Eval(Comparison(rel, l, r), useAgg, env);
            && (v.Int? && w.Str? && env.h.isInt(w.z) ==>
                  e == Number(if IntsRelate(rel, v.i, env.h.atoi(w.z)) then 1 else 0))
            && (v.Str? && w.Int? && env.h.isInt(v.z) ==>
                  e == Number(if IntsRelate(rel, env.h.atoi(v.z), w.i) then 1 else 0))
            && (v.Str? && w.Str? ==> e == Number(if IntsRelate(rel, env.h.numericCmp(v.z, w.z), 0) then 1 else 0))
  {
    ComparisonIsText(rel, l, r);
  }

  lemma NullsCompare(rel: Relation, l: Expr, r: Expr, useAgg: bool, env: Env)
    ensures Eval(l, useAgg, env).Null? || Eval(r, useAgg, env).Null?
            <==> Eval(Comparison(rel, l, r), useAgg, env) == Null
  {
  }

  /** A comparison as text goes by the string comparison of both spellings. */
  lemma TextsCompare(rel: Relation, l: Expr, r: Expr, useAgg: bool, env: Env)
    requires Eval(l, useAgg, env).Str? && Eval(r, useAgg, env).Str? && ByText(l, r)
    ensures var c := env.h.strCmp(Eval(l, useAgg, env).z, Eval(r, useAgg, env).z);
            Eval(Comparison(rel, l, r), useAgg, env) == Number(if IntsRelate(rel, c, 0) then 1 else 0)
  {
    ComparisonIsText(rel, l, r);
  }

  /** The string '9' is less than a numeric column that holds 10, and not less than a text column that
      holds '10', when strings that look like integers are read as such. */
  lemma StringAgainstColumn(env: Env, t: int, c: nat)
    requires env.h.unquote("'9'") == "9" && env.h.isInt("9") && env.h.atoi("9") == 9 && env.h.strCmp("9", "10") > 0
    ensures env.column(t, c) == Number(10) ==>
              Eval(Comparison(Lt, Literal(StringLiteral, "'9'"), Column(t, c, 0, NumType)), false, env) == Number(1)
    ensures env.column(t, c) == Str("10") ==>
              Eval(Comparison(Lt, Literal(StringLiteral, "'9'"), Column(t, c, 0, TextType)), false, env) == Number(0)
  {
    var s, n, x := Literal(StringLiteral, "'9'"), Column(t, c, 0, NumType), Column(t, c, 0, TextType);
    assert n in Deciders(n);
    ComparisonIsText(Lt, s, n);
    ComparisonIsText(Lt, s, x);
    assert Eval(s, false, env) == Str("9");
  }

  // Forms that are short for others, and cells as they are seen by operators.

  /** BETWEEN is the AND of two comparisons wherever those are numeric. */
  lemma BetweenIsTwo(x: Expr, lo: Expr, hi: Expr, useAgg: bool, env: Env)
    requires !ByText(x, lo) && !ByText(x, hi)
    ensures Eval(Between(x, lo, hi), useAgg, env)
            == Eval(And(Comparison(Ge, x, lo), Comparison(Le, x, hi)), useAgg, env)
  {
    hide Compare, And3;
    ComparisonIsText(Ge, x, lo);
    ComparisonIsText(Le, x, hi);
    var v := Eval(x, useAgg, env);
    assert TruthIn(Comparison(Ge, x, lo), useAgg, env)
        == TruthOf(env.h, FromTruth(Compare(env.h, Ge, false, v, Eval(lo, useAgg, env))));
    assert TruthIn(Comparison(Le, x, hi), useAgg, env)
        == TruthOf(env.h, FromTruth(Compare(env.h, Le, false, v, Eval(hi, useAgg, env))));
    TruthBack(env.h, Compare(env.h, Ge, false, v, Eval(lo, useAgg, env)));
    TruthBack(env.h, Compare(env.h, Le, false, v, Eval(hi, useAgg, env)));
  }

  lemma TruthBack(h: Helpers, t: Truth)
    ensures TruthOf(h, FromTruth(t)) == t
  {
  }

  /** CASE without a base takes the first WHEN that is neither false nor NULL. */
  lemma CaseTakes(c: Expr, r: Expr, ws: Whens, o: OptExpr, useAgg: bool, env: Env)
    ensures Eval(Case(NoExpr, When(c, r, ws), o), useAgg, env)
            == if TruthIn(c, useAgg, env) == True then Eval(r, useAgg, env) else Eval(Case(NoExpr, ws, o), useAgg, env)
    ensures Eval(Case(NoExpr, Done, NoExpr), useAgg, env) == Null
    ensures o.TheExpr? ==> Eval(Case(NoExpr, Done, o), useAgg, env) == Eval(o.e, useAgg, env)
  {
  }

  /** With a base it takes the first WHEN that equals it as a number. */
  lemma BaseTakes(base: Expr, c: Expr, r: Expr, ws: Whens, o: OptExpr, useAgg: bool, env: Env)
    requires !ByText(c, base)
    ensures Eval(Case(TheExpr(base), When(c, r, ws), o), useAgg, env)
            == if Eval(Comparison(Eq, c, base), useAgg, env) == Number(1) then Eval(r, useAgg, env)
               else Eval(Case(TheExpr(base), ws, o), useAgg, env)
  {
    hide Compare;
    ComparisonIsText(Eq, c, base);
  }

  /** An integer is true unless it is 0; NULL is neither true nor false. */
  lemma IntegerTruth(e: Expr, useAgg: bool, env: Env)
    requires Eval(e, useAgg, env).Int? || Eval(e, useAgg, env).Null?
    ensures TruthIn(e, useAgg, env) == True <==> Eval(e, useAgg, env).Int? && Eval(e, useAgg, env).i != 0
    ensures TruthIn(e, useAgg, env) == False <==> Eval(e, useAgg, env).Int? && Eval(e, useAgg, env).i == 0
  {
    hide Eval;
  }

  /** NOT and the tests for NULL give 0, 1 or NULL. */
  lemma UnaryLogic(e: Expr, useAgg: bool, env: Env)
    ensures Eval(Not(e), useAgg, env)
            == match TruthIn(e, useAgg, env) case True => Number(0) case False => Number(1) case Unknown => Null
    ensures Eval(IsNull(e), useAgg, env) == Number(if Eval(e, useAgg, env) == Null then 1 else 0)
    ensures Eval(NotNull(e), useAgg, env) == Number(if Eval(e, useAgg, env) == Null then 0 else 1)
  {
    assert Eval(Not(e), useAgg, env) == FromTruth(Not3(TruthIn(e, useAgg, env)));
  }

  /** AND is true if both operands are and false if one is, OR the other way round. */
  lemma Connectives(l: Expr, r: Expr, useAgg: bool, env: Env)
    ensures var (p, q) := (TruthIn(l, useAgg, env), TruthIn(r, useAgg, env));
            && (Eval(And(l, r), useAgg, env) == Number(1) <==> p == True && q == True)
            && (Eval(And(l, r), useAgg, env) == Number(0) <==> p == False || q == False)
            && (Eval(Or(l, r), useAgg, env) == Number(1) <==> p == True || q == True)
            && (Eval(Or(l, r), useAgg, env) == Number(0) <==> p == False && q == False)
  {
  }

  /** Literals lose their quotes; a minus sign before a number is part of it, before a string it negates.
      Integers beyond 32 bits stay text. */
  lemma LiteralCells(kind: LiteralKind, t: string, useAgg: bool, env: Env)
    ensures var (v, n) := (Eval(Literal(kind, t), useAgg, env), Eval(Minus(Literal(kind, t)), useAgg, env));
            && (v == if kind == IntegerLiteral && env.h.fits32(t) then Int(env.h.atoi(t), Some(env.h.unquote(t)))
                     else Str(env.h.unquote(t)))
            && (kind == StringLiteral ==> n == env.h.negate(Str(env.h.unquote(t))))
            && (kind == IntegerLiteral && env.h.fits32("-" + t) ==> n.Int? && n.i == env.h.atoi("-" + t))
            && (kind != StringLiteral ==> AsString(env.h, n) == "-" + t)
  {
  }

  /** A column is read from its row, or is the record number, or from the aggregator. */
  lemma ColumnReads(t: int, c: int, agg: nat, k: SortType, useAgg: bool, env: Env)
    ensures Eval(Column(t, c, agg, k), useAgg, env)
            == if useAgg then env.agg(agg) else if c >= 0 then env.column(t, c) else env.rowid(t)
  {
  }

  /** Arithmetic, shifts, `~` and IN give NULL for a NULL operand; IN looks for the spelling of others. */
  lemma StrictInNull(l: Expr, r: Expr, a: ArithOp, s: ShiftOp, sub: bool, rhs: int, useAgg: bool, env: Env)
    ensures Eval(l, useAgg, env).Null? || Eval(r, useAgg, env).Null? ==>
              Eval(Arithmetic(a, l, r), useAgg, env) == Eval(Shift(s, l, r), useAgg, env) == Null
    ensures Eval(l, useAgg, env).Null? ==> Eval(BitNot(l), useAgg, env) == Eval(In(l, rhs, sub), useAgg, env) == Null
    ensures Eval(l, useAgg, env).Str? ==>
              Eval(In(l, rhs, sub), useAgg, env)
                == Number(if env.member(sub, rhs, Eval(l, useAgg, env).z) then 1 else 0)
  {
  }

  /** `||` joins the spellings: an integer literal keeps the one it was written with. */
  lemma ConcatSpells(t: string, u: string, n: int, l: Expr, env: Env)
    ensures Eval(Concat(Literal(IntegerLiteral, t), Literal(StringLiteral, u)), false, env)
            == Str(env.h.unquote(t) + env.h.unquote(u))
    ensures Eval(l, false, env) == Number(n) ==>
              Eval(Concat(l, Literal(StringLiteral, u)), false, env) == Str(env.h.itoa(n) + env.h.unquote(u))
    ensures Eval(Concat(NullLiteral, l), false, env) == Eval(Concat(l, NullLiteral), false, env) == Null
  {
  }
}
