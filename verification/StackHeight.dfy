/** The stack discipline of generated expression code: every address has one height, whatever path
    leads there, and a value-position IN is the only form whose code has no such heights. */
module StackHeight {
  import opened Values
  import opened Expressions
  import opened Machine
  import opened Layout
  import opened Fragments
  import opened StackBound

  /** Every address of the code has a height in `hs`, and every way out of an instruction, falling
      through or jumping, agrees with the height of the place it leads to. */
  ghost predicate Steady(code: seq<Op>, a: int, hs: map<int, int>) {
    forall i :: 0 <= i < |code| ==> SteadyOp(code[i], a + i, hs)
  }

  ghost predicate SteadyOp(op: Op, at: int, hs: map<int, int>) {
    && Ordinary(op) && at in hs
    && (op.opcode != OpGoto ==> Is(hs, at + 1, hs[at] + Effect(op)))
    && (IsJump(op) ==> Is(hs, op.p2, hs[at] + Effect(op)))
  }

  ghost predicate Is(hs: map<int, int>, at: int, height: int) { at in hs && hs[at] == height }

  /** `heights` are the heights from address `a` on. */
  ghost predicate Lie(hs: map<int, int>, a: int, heights: seq<int>) {
    forall i :: 0 <= i < |heights| ==> Is(hs, a + i, heights[i])
  }

  lemma LieSplit(hs: map<int, int>, a: int, x: seq<int>, y: seq<int>)
    requires Lie(hs, a, x + y)
    ensures Lie(hs, a, x) && Lie(hs, a + |x|, y)
  {
    forall i | 0 <= i < |x| ensures Is(hs, a + i, x[i]) {
      assert (x + y)[i] == x[i];
    }
    forall i | 0 <= i < |y| ensures Is(hs, a + |x| + i, y[i]) {
      assert (x + y)[|x| + i] == y[i] && a + |x| + i == a + (|x| + i);
    }
  }

  lemma SteadyConcat(p: seq<Op>, q: seq<Op>, a: int, hs: map<int, int>)
    ensures Steady(p + q, a, hs) <==> Steady(p, a, hs) && Steady(q, a + |p|, hs)
  {
    if Steady(p + q, a, hs) {
      forall i | 0 <= i < |p| ensures SteadyOp(p[i], a + i, hs) { assert (p + q)[i] == p[i]; }
      forall i | 0 <= i < |q| ensures SteadyOp(q[i], a + |p| + i, hs) {
        assert (p + q)[|p| + i] == q[i] && a + |p| + i == a + (|p| + i);
      }
    }
    if Steady(p, a, hs) && Steady(q, a + |p|, hs) {
      forall i | 0 <= i < |p + q| ensures SteadyOp((p + q)[i], a + i, hs) {
        if i >= |p| { assert SteadyOp(q[i - |p|], a + |p| + (i - |p|), hs); }
      }
    }
  }

  lemma SteadyOne(op: Op, a: int, hs: map<int, int>)
    ensures Steady([op], a, hs) <==> SteadyOp(op, a, hs)
  {
    if Steady([op], a, hs) { assert SteadyOp([op][0], a + 0, hs); }
  }

  // Expressions whose value code holds no IN; an IN coded as a jump is allowed.

  predicate Balanced(e: Expr)
    decreases e
  {
    if IsLeaf(e) then true
    else if IsBinary(e) || e.Shift? then Balanced(e.left) && Balanced(e.right)
    else if e.Between? then Balanced(e.left) && Balanced(e.low) && Balanced(e.high)
    else if e.Function? then BalancedArgs(e.args)
    else if e.In? then false
    else if e.Case? then
      (e.base.TheExpr? ==> Balanced(e.base.e)) && BalancedWhens(e.whens)
        && (e.otherwise.TheExpr? ==> Balanced(e.otherwise.e))
    else Balanced(e.left)
  }

  predicate BalancedArgs(es: Exprs)
    decreases es
  {
    match es case Nil => true case Cons(e, tail) => Balanced(e) && BalancedArgs(tail)
  }

  predicate BalancedWhens(ws: Whens)
    decreases ws
  {
    match ws case Done => true case When(c, r, rest) => Balanced(c) && Balanced(r) && BalancedWhens(rest)
  }

  predicate BalancedTest(e: Expr)
    decreases e
  {
    if e.And? || e.Or? then BalancedTest(e.left) && BalancedTest(e.right)
    else if e.Not? then BalancedTest(e.left)
    else if e.In? then Balanced(e.left)
    else Balanced(e)
  }

  // The heights of the code of an expression, given the height `b` in front of it.

  function ValueHeights(e: Expr, b: int): (heights: seq<int>)
    ensures |heights| == ValueLen(e) > 0 && heights[0] == b
    decreases e
  {
    if IsLeaf(e) then [b]
    else if IsBinary(e) then ValueHeights(e.left, b) + ValueHeights(e.right, b + 1) + [b + 2]
    else if IsUnary(e) then ValueHeights(e.left, b) + [b + 1]
    else
      match e
      case Shift(_, l, r) => ValueHeights(r, b) + ValueHeights(l, b + 1) + [b + 2]
      case IsNull(l) => [b] + ValueHeights(l, b + 1) + [b + 2, b + 1]
      case NotNull(l) => [b] + ValueHeights(l, b + 1) + [b + 2, b + 1]
      case Function(_, args, _) => ArgsHeights(args, b) + [b + Count(args)]
      case In(l, _, _) => [b] + ValueHeights(l, b + 1) + [b + 2, b + 2, b + 1, b + 2, b + 2, b + 1]
      case Between(l, lo, hi) =>
        ValueHeights(l, b) + [b + 1] + ValueHeights(lo, b + 2) + [b + 3, b + 2] + ValueHeights(hi, b + 2)
          + [b + 3, b + 2]
      case Plus(l) => ValueHeights(l, b)
      case As(l) => ValueHeights(l, b)
      case Case(base, whens, otherwise) =>
        (if base.TheExpr? then ValueHeights(base.e, b) else []) + WhensHeights(whens, base.TheExpr?, b)
        + (if base.TheExpr? then [b + 1] else []) + (if otherwise.TheExpr? then ValueHeights(otherwise.e, b) else [b])
  }

  function ArgsHeights(es: Exprs, b: int): (heights: seq<int>)
    ensures |heights| == ArgsLen(es) && (es.Cons? ==> |heights| > 0 && heights[0] == b)
    decreases es
  {
    match es case Nil => [] case Cons(e, tail) => ValueHeights(e, b) + ArgsHeights(tail, b + 1)
  }

  function WhensHeights(ws: Whens, hasBase: bool, b: int): (heights: seq<int>)
    ensures |heights| == WhensLen(ws, hasBase) && (ws.When? ==> |heights| > 0 && heights[0] == b + BoolInt(hasBase))
    decreases ws
  {
    match ws
    case Done => []
    case When(c, r, rest) =>
      ValueHeights(c, b + BoolInt(hasBase)) + (if hasBase then [b + 2, b + 3, b + 1] else [b + 1])
        + ValueHeights(r, b) + [b + 1]
      + WhensHeights(rest, hasBase, b)
  }

  function JumpHeights(e: Expr, sense: bool, b: int): (heights: seq<int>)
    ensures |heights| == JumpLen(e, sense) > 0 && heights[0] == b
    decreases e
  {
    match e
    case And(l, r) => JumpHeights(l, false, b) + JumpHeights(r, sense, b)
    case Or(l, r) => JumpHeights(l, true, b) + JumpHeights(r, sense, b)
    case Not(l) => JumpHeights(l, !sense, b)
    case _ => TestHeights(e, sense, b)
  }

  function TestHeights(e: Expr, sense: bool, b: int): (heights: seq<int>)
    ensures |heights| == TestLen(e) > 0 && heights[0] == b
  {
    if e.Comparison? then ValueHeights(e.left, b) + ValueHeights(e.right, b + 1) + [b + 2]
    else if e.IsNull? || e.NotNull? then ValueHeights(e.left, b) + [b + 1]
    else if e.In? then ValueHeights(e.left, b) + [b + 1, b + 1, b, b + 1]
    else if e.Between? then
      ValueHeights(e.left, b) + [b + 1] + ValueHeights(e.low, b + 2) + (if sense then [b + 3] else [b + 3, b + 1, b])
      + ValueHeights(e.high, b + 1) + (if sense then [b + 2, b, b + 1] else [b + 2])
    else ValueHeights(e, b) + [b + 1]
  }

  // They fit the code.

  lemma LieNext(hs: map<int, int>, a: int, x: seq<int>, y: seq<int>)
    requires Lie(hs, a, x + y) && |y| > 0
    ensures Lie(hs, a, x) && Lie(hs, a + |x|, y) && Is(hs, a + |x|, y[0])
  {
    LieSplit(hs, a, x, y);
    LieAt(hs, a + |x|, y, 0);
  }

  lemma LieAt(hs: map<int, int>, a: int, x: seq<int>, i: nat)
    requires Lie(hs, a, x) && i < |x|
    ensures Is(hs, a + i, x[i])
  {
  }

  lemma ValueSteady(h: Helpers, e: Expr, useAgg: bool, a: nat, hs: map<int, int>, b: int)
    requires Balanced(e) && Lie(hs, a, ValueHeights(e, b)) && Is(hs, a + ValueLen(e), b + 1)
    ensures Steady(ValueCode(h, e, useAgg, a), a, hs)
    decreases e, 3
  {
    hide Steady, Lie, ValueHeights, Balanced, ValueLen, ValueCodeOther;
    if IsLeaf(e) {
      LeafSteady(h, e, useAgg, a, hs, b);
    } else if IsBinary(e) {
      BinarySteady(h, e, useAgg, a, hs, b);
    } else if IsUnary(e) {
      UnarySteady(h, e, useAgg, a, hs, b);
    } else {
      OtherSteady(h, e, useAgg, a, hs, b);
    }
  }

  lemma LeafSteady(h: Helpers, e: Expr, useAgg: bool, a: nat, hs: map<int, int>, b: int)
    requires IsLeaf(e) && Lie(hs, a, ValueHeights(e, b)) && Is(hs, a + ValueLen(e), b + 1)
    ensures Steady(ValueCode(h, e, useAgg, a), a, hs)
  {
    hide Steady, Lie;
    LieAt(hs, a, [b], 0);
    SteadyOne(LeafOp(h, e, useAgg), a, hs);
  }

  lemma UnarySteady(h: Helpers, e: Expr, useAgg: bool, a: nat, hs: map<int, int>, b: int)
    requires IsUnary(e) && !IsLeaf(e) && !IsBinary(e) && Balanced(e) && Lie(hs, a, ValueHeights(e, b))
             && Is(hs, a + ValueLen(e), b + 1)
    ensures Steady(ValueCode(h, e, useAgg, a), a, hs)
    decreases e, 0
  {
    hide Steady, Lie, ValueHeights, Balanced, ValueLen, ValueCode;
    UnaryParts(h, e, useAgg, a, b);
    LieNext(hs, a, ValueHeights(e.left, b), [b + 1]);
    ValueSteady(h, e.left, useAgg, a, hs, b);
    SteadyOne(UnaryOp(e), a + ValueLen(e.left), hs);
    SteadyConcat(ValueCode(h, e.left, useAgg, a), [UnaryOp(e)], a, hs);
  }

  lemma UnaryParts(h: Helpers, e: Expr, useAgg: bool, a: nat, b: int)
    requires IsUnary(e) && !IsLeaf(e) && !IsBinary(e)
    ensures Balanced(e) == Balanced(e.left) && ValueHeights(e, b) == ValueHeights(e.left, b) + [b + 1]
            && ValueLen(e) == ValueLen(e.left) + 1
    ensures ValueCode(h, e, useAgg, a) == ValueCode(h, e.left, useAgg, a) + [UnaryOp(e)]
  {
  }

  lemma BinaryParts(e: Expr, b: int)
    requires IsBinary(e)
    ensures Balanced(e) == (Balanced(e.left) && Balanced(e.right))
    ensures ValueHeights(e, b) == ValueHeights(e.left, b) + ValueHeights(e.right, b + 1) + [b + 2]
  {
  }

  lemma BinarySteady(h: Helpers, e: Expr, useAgg: bool, a: nat, hs: map<int, int>, b: int)
    requires IsBinary(e) && Balanced(e) && Lie(hs, a, ValueHeights(e, b)) && Is(hs, a + ValueLen(e), b + 1)
    ensures Steady(ValueCode(h, e, useAgg, a), a, hs)
    decreases e, 0
  {
    hide Steady, Lie, ValueCode, ValueHeights, Balanced, ValueLen;
    BinaryParts(e, b);
    var l, r := ValueCode(h, e.left, useAgg, a), ValueCode(h, e.right, useAgg, a + ValueLen(e.left));
    var x, y := ValueHeights(e.left, b), ValueHeights(e.right, b + 1);
    BinaryCodeIs(h, e, useAgg, a);
    LieNext(hs, a, x + y, [b + 2]);
    LieNext(hs, a, x, y);
    ValueSteady(h, e.left, useAgg, a, hs, b);
    ValueSteady(h, e.right, useAgg, a + ValueLen(e.left), hs, b + 1);
    AppendTwo(l, r, BinaryOp(e), a, hs);
  }

  lemma AppendTwo(l: seq<Op>, r: seq<Op>, op: Op, a: int, hs: map<int, int>)
    requires Steady(l, a, hs) && Steady(r, a + |l|, hs) && SteadyOp(op, a + |l| + |r|, hs)
    ensures Steady(l + r + [op], a, hs)
  {
    hide Steady, SteadyOp;
    SteadyConcat(l, r, a, hs);
    SteadyOne(op, a + |l + r|, hs);
    SteadyConcat(l + r, [op], a, hs);
  }

  lemma OtherSteady(h: Helpers, e: Expr, useAgg: bool, a: nat, hs: map<int, int>, b: int)
    requires !IsLeaf(e) && !IsBinary(e) && !IsUnary(e) && Balanced(e)
    requires Lie(hs, a, ValueHeights(e, b)) && Is(hs, a + ValueLen(e), b + 1)
    ensures Steady(ValueCodeOther(h, e, useAgg, a), a, hs)
    decreases e, 2
  {
    hide Steady, Lie, ValueCode, ValueHeights, Balanced, ValueLen, ValueCodeOther;
    if e.Shift? {
      ShiftSteady(h, e, useAgg, a, hs, b);
    } else if e.IsNull? || e.NotNull? {
      NullTestSteady(h, e, e.left, useAgg, a, hs, b);
    } else if e.Function? {
      FunctionSteady(h, e, useAgg, a, hs, b);
    } else if e.Between? {
      BetweenSteady(h, e, useAgg, a, hs, b);
    } else if e.Case? {
      CaseSteady(h, e, useAgg, a, hs, b);
    } else {
      RestBalanced(h, e, useAgg, a, b);
      ValueSteady(h, e.left, useAgg, a, hs, b);
    }
  }

  lemma RestBalanced(h: Helpers, e: Expr, useAgg: bool, a: nat, b: int)
    requires !IsLeaf(e) && !IsBinary(e) && !IsUnary(e) && Balanced(e)
    requires !e.Shift? && !e.IsNull? && !e.NotNull? && !e.Function? && !e.Between? && !e.Case?
    ensures (e.Plus? || e.As?) && Balanced(e.left) && ValueHeights(e, b) == ValueHeights(e.left, b)
            && ValueLen(e) == ValueLen(e.left)
    ensures ValueCodeOther(h, e, useAgg, a) == ValueCode(h, e.left, useAgg, a)
  {
    hide ValueCode;
  }

  lemma ShiftSteady(h: Helpers, e: Expr, useAgg: bool, a: nat, hs: map<int, int>, b: int)
    requires e.Shift? && Balanced(e) && Lie(hs, a, ValueHeights(e, b)) && Is(hs, a + ValueLen(e), b + 1)
    ensures Steady(ValueCodeOther(h, e, useAgg, a), a, hs)
    decreases e, 0
  {
    hide Steady, Lie, ValueCode;
    var x, y := ValueHeights(e.right, b), ValueHeights(e.left, b + 1);
    LieNext(hs, a, x + y, [b + 2]);
    LieNext(hs, a, x, y);
    ValueSteady(h, e.right, useAgg, a, hs, b);
    ValueSteady(h, e.left, useAgg, a + ValueLen(e.right), hs, b + 1);
    AppendTwo(ValueCode(h, e.right, useAgg, a), ValueCode(h, e.left, useAgg, a + ValueLen(e.right)),
              Ins(OpShift(e.shiftOp), 0, 0), a, hs);
  }

  lemma FunctionSteady(h: Helpers, e: Expr, useAgg: bool, a: nat, hs: map<int, int>, b: int)
    requires e.Function? && Balanced(e) && Lie(hs, a, ValueHeights(e, b)) && Is(hs, a + ValueLen(e), b + 1)
    ensures Steady(ValueCodeOther(h, e, useAgg, a), a, hs)
    decreases e, 0
  {
    hide Steady, Lie, ValueCode, ArgsCode, ArgsHeights, BalancedArgs;
    var n := Count(e.args);
    var op := Op(OpFunction, n, 0, FunctionP3(e.def));
    LieNext(hs, a, ArgsHeights(e.args, b), [b + n]);
    ArgsSteady(h, e.args, useAgg, a, hs, b);
    SteadyOne(op, a + ArgsLen(e.args), hs);
    SteadyConcat(ArgsCode(h, e.args, useAgg, a), [op], a, hs);
  }

  lemma NullTestSteady(h: Helpers, e: Expr, l: Expr, useAgg: bool, a: nat, hs: map<int, int>, b: int)
    requires (e.IsNull? || e.NotNull?) && e.left == l && Balanced(e)
    requires Lie(hs, a, ValueHeights(e, b)) && Is(hs, a + ValueLen(e), b + 1)
    ensures Steady(ValueCodeOther(h, e, useAgg, a), a, hs)
    decreases e, 0
  {
    hide Steady, Lie, ValueCode;
    var code, n := ValueCode(h, l, useAgg, a + 1), ValueLen(l);
    var test := Ins(if e.IsNull? then OpIsNull else OpNotNull, 1, a + n + 3);
    LieNext(hs, a, [b] + ValueHeights(l, b + 1), [b + 2, b + 1]);
    LieAt(hs, a + 1 + n, [b + 2, b + 1], 1);
    LieNext(hs, a, [b], ValueHeights(l, b + 1));
    LieAt(hs, a, [b], 0);
    ValueSteady(h, l, useAgg, a + 1, hs, b + 1);
    OneOrZeroSteady(code, test, a, hs, b);
  }

  lemma OneOrZeroSteady(code: seq<Op>, test: Op, a: nat, hs: map<int, int>, b: int)
    requires Steady(code, a + 1, hs) && Is(hs, a, b) && Is(hs, a + 1, b + 1) && Is(hs, a + 1 + |code|, b + 2)
    requires Is(hs, a + 2 + |code|, b + 1) && Is(hs, a + 3 + |code|, b + 1)
    requires test in {Ins(OpIsNull, 1, a + |code| + 3), Ins(OpNotNull, 1, a + |code| + 3)}
    ensures Steady([Ins(OpInteger, 1, 0)] + code + [test, Ins(OpAddImm, -1, 0)], a, hs)
  {
    hide Steady;
    SteadyOne(Ins(OpInteger, 1, 0), a, hs);
    SteadyTwo(test, Ins(OpAddImm, -1, 0), a + 1 + |code|, hs);
    SteadyConcat([Ins(OpInteger, 1, 0)], code, a, hs);
    SteadyConcat([Ins(OpInteger, 1, 0)] + code, [test, Ins(OpAddImm, -1, 0)], a, hs);
  }

  lemma ArgsSteady(h: Helpers, es: Exprs, useAgg: bool, a: nat, hs: map<int, int>, b: int)
    requires BalancedArgs(es) && Lie(hs, a, ArgsHeights(es, b)) && Is(hs, a + ArgsLen(es), b + Count(es))
    ensures Steady(ArgsCode(h, es, useAgg, a), a, hs)
    decreases es
  {
    hide Steady, Lie, ValueCode, ValueHeights, Balanced, ValueLen;
    if es.Nil? {
      SteadyNone(a, hs);
    } else {
      LieSplit(hs, a, ValueHeights(es.head, b), ArgsHeights(es.tail, b + 1));
      if es.tail.Cons? { LieAt(hs, a + ValueLen(es.head), ArgsHeights(es.tail, b + 1), 0); }
      ValueSteady(h, es.head, useAgg, a, hs, b);
      ArgsSteady(h, es.tail, useAgg, a + ValueLen(es.head), hs, b + 1);
      SteadyConcat(ValueCode(h, es.head, useAgg, a), ArgsCode(h, es.tail, useAgg, a + ValueLen(es.head)), a, hs);
    }
  }

  lemma BetweenSteady(h: Helpers, e: Expr, useAgg: bool, a: nat, hs: map<int, int>, b: int)
    requires e.Between? && Balanced(e) && Lie(hs, a, ValueHeights(e, b)) && Is(hs, a + ValueLen(e), b + 1)
    ensures Steady(ValueCodeOther(h, e, useAgg, a), a, hs)
    decreases e, 0
  {
    hide Steady, Lie, ValueCode, ValueHeights, Balanced, ValueLen, ValueCodeOther;
    BetweenParts(e, b);
    var d := a + ValueLen(e.left) + 1;
    var g := d + ValueLen(e.low);
    var u, v, w := ValueHeights(e.left, b), ValueHeights(e.low, b + 2), ValueHeights(e.high, b + 2);
    var x, y, z := ValueCode(h, e.left, useAgg, a), ValueCode(h, e.low, useAgg, d), ValueCode(h, e.high, useAgg, g + 2);
    LieNext(hs, a, u + [b + 1] + v + [b + 3, b + 2] + w, [b + 3, b + 2]);
    LieAt(hs, g + 2 + |z|, [b + 3, b + 2], 1);
    LieNext(hs, a, u + [b + 1] + v + [b + 3, b + 2], w);
    LieNext(hs, a, u + [b + 1] + v, [b + 3, b + 2]);
    LieAt(hs, g, [b + 3, b + 2], 1);
    LieNext(hs, a, u + [b + 1], v);
    LieNext(hs, a, u, [b + 1]);
    ValueSteady(h, e.left, useAgg, a, hs, b);
    ValueSteady(h, e.low, useAgg, d, hs, b + 2);
    ValueSteady(h, e.high, useAgg, g + 2, hs, b + 2);
    SteadyOne(Ins(OpDup, 0, 0), d - 1, hs);
    SteadyTwo(Ins(OpCompare(Ge, false), 0, 0), Ins(OpPull, 1, 0), g, hs);
    SteadyTwo(Ins(OpCompare(Le, false), 0, 0), Ins(OpAnd, 0, 0), g + 2 + |z|, hs);
    var p, q := [Ins(OpCompare(Ge, false), 0, 0), Ins(OpPull, 1, 0)],
                [Ins(OpCompare(Le, false), 0, 0), Ins(OpAnd, 0, 0)];
    SteadyFive(x, [Ins(OpDup, 0, 0)], y, p, z, a, hs);
    SteadyConcat(x + [Ins(OpDup, 0, 0)] + y + p + z, q, a, hs);
    ValueBetweenIs(h, e, useAgg, a);
    assert x + [Ins(OpDup, 0, 0)] + y + p + z + q == (x + [Ins(OpDup, 0, 0)] + y + p) + z + q;
  }

  lemma BetweenParts(e: Expr, b: int)
    requires e.Between?
    ensures Balanced(e) == (Balanced(e.left) && Balanced(e.low) && Balanced(e.high))
    ensures ValueLen(e) == ValueLen(e.left) + ValueLen(e.low) + ValueLen(e.high) + 5
    ensures ValueHeights(e, b) == ValueHeights(e.left, b) + [b + 1] + ValueHeights(e.low, b + 2) + [b + 3, b + 2]
                                  + ValueHeights(e.high, b + 2) + [b + 3, b + 2]
  {
  }

  lemma SteadyTwo(op: Op, op': Op, a: int, hs: map<int, int>)
    ensures Steady([op, op'], a, hs) <==> SteadyOp(op, a, hs) && SteadyOp(op', a + 1, hs)
  {
    SteadyOne(op, a, hs);
    SteadyOne(op', a + 1, hs);
    SteadyConcat([op], [op'], a, hs);
    assert [op] + [op'] == [op, op'];
  }

  lemma SteadyFive(p: seq<Op>, q: seq<Op>, r: seq<Op>, s: seq<Op>, t: seq<Op>, a: int, hs: map<int, int>)
    ensures Steady(p + q + r + s + t, a, hs)
            <==> Steady(p, a, hs) && Steady(q, a + |p|, hs) && Steady(r, a + |p| + |q|, hs)
                 && Steady(s, a + |p| + |q| + |r|, hs)
                 && Steady(t, a + |p| + |q| + |r| + |s|, hs)
  {
    hide Steady;
    SteadyConcat(p + q + r + s, t, a, hs);
    SteadyConcat(p + q + r, s, a, hs);
    SteadyConcat(p + q, r, a, hs);
    SteadyConcat(p, q, a, hs);
  }

  lemma SteadyNone(a: int, hs: map<int, int>)
    ensures Steady([], a, hs)
  {
  }

  lemma CaseHeightsAre(e: Expr, b: int)
    requires e.Case?
    ensures ValueHeights(e, b)
            == (if e.base.TheExpr? then ValueHeights(e.base.e, b) else []) + WhensHeights(e.whens, e.base.TheExpr?, b)
               + (if e.base.TheExpr? then [b + 1] else [])
               + (if e.otherwise.TheExpr? then ValueHeights(e.otherwise.e, b) else [b])
  {
  }

  lemma CaseSteady(h: Helpers, e: Expr, useAgg: bool, a: nat, hs: map<int, int>, b: int)
    requires e.Case? && Balanced(e) && Lie(hs, a, ValueHeights(e, b)) && Is(hs, a + ValueLen(e), b + 1)
    ensures Steady(ValueCodeOther(h, e, useAgg, a), a, hs)
    decreases e, 0
  {
    hide Steady, Lie, ValueCode, WhensCode, ValueHeights, WhensHeights, ValueCodeOther, ValueLen, WhensLen, Is;
    var base, whens, pop, otherwise := CaseIs(h, e, useAgg, a);
    var hasBase, k := e.base.TheExpr?, BoolInt(e.base.TheExpr?);
    CaseHeightsLie(e, a, hs, b, |base|, |whens|);
    var w, d := a + |base|, a + |base| + |whens|;
    if hasBase { ValueSteady(h, e.base.e, useAgg, a, hs, b); } else { SteadyNone(a, hs); }
    WhensSteady(h, e.whens, hasBase, useAgg, w, a + ValueLen(e), hs, b);
    PopSteady(hasBase, d, hs, b);
    if e.otherwise.TheExpr? {
      ValueSteady(h, e.otherwise.e, useAgg, d + k, hs, b);
    } else {
      NullSteady(d + k, hs, b);
    }
    SteadyConcat(base, whens, a, hs);
    SteadyConcat(base + whens, pop, a, hs);
    SteadyConcat(base + whens + pop, otherwise, a, hs);
  }

  /** The heights of the four parts of CASE, the first two `n` and `m` long. */
  lemma CaseHeightsLie(e: Expr, a: int, hs: map<int, int>, b: int, n: nat, m: nat)
    requires e.Case? && Lie(hs, a, ValueHeights(e, b))
    requires n == (if e.base.TheExpr? then ValueLen(e.base.e) else 0) && m == WhensLen(e.whens, e.base.TheExpr?)
    ensures var k, d := BoolInt(e.base.TheExpr?), a + n + m;
            && (e.base.TheExpr? ==> Lie(hs, a, ValueHeights(e.base.e, b)) && Is(hs, d, b + 1))
            && Lie(hs, a + n, WhensHeights(e.whens, e.base.TheExpr?, b))
            && Is(hs, a + n, b + k) && Is(hs, d, b + k) && Is(hs, d + k, b)
            && (e.otherwise.TheExpr? ==> Lie(hs, d + k, ValueHeights(e.otherwise.e, b)))
  {
    hide Lie, ValueHeights, WhensHeights, ValueLen, WhensLen, Is;
    var hasBase, d := e.base.TheExpr?, a + n + m;
    var hBase, hWhens := if hasBase then ValueHeights(e.base.e, b) else [], WhensHeights(e.whens, hasBase, b);
    var hPop, hElse := if hasBase then [b + 1] else [],
                       if e.otherwise.TheExpr? then ValueHeights(e.otherwise.e, b) else [b];
    CaseHeightsAre(e, b);
    LieNext(hs, a, hBase + hWhens + hPop, hElse);
    LieSplit(hs, a, hBase + hWhens, hPop);
    LieSplit(hs, a, hBase, hWhens);
    if hasBase { LieAt(hs, d, hPop, 0); }
    if e.whens.When? { LieAt(hs, a + n, hWhens, 0); } else { NoneLong(e.whens, hasBase); }
  }

  lemma PopSteady(hasBase: bool, d: int, hs: map<int, int>, b: int)
    requires Is(hs, d, b + BoolInt(hasBase)) && Is(hs, d + BoolInt(hasBase), b)
    ensures Steady(if hasBase then [Ins(OpPop, 1, 0)] else [], d, hs)
  {
    hide Steady;
    if hasBase { SteadyOne(Ins(OpPop, 1, 0), d, hs); } else { SteadyNone(d, hs); }
  }

  lemma NullSteady(d: int, hs: map<int, int>, b: int)
    requires Is(hs, d, b) && Is(hs, d + 1, b + 1)
    ensures Steady([Ins(OpString, 0, 0)], d, hs)
  {
    SteadyOne(Ins(OpString, 0, 0), d, hs);
  }

  lemma NoneLong(ws: Whens, hasBase: bool)
    requires ws.Done?
    ensures WhensLen(ws, hasBase) == 0
  {
  }

  lemma WhensSteady(h: Helpers, ws: Whens, hasBase: bool, useAgg: bool, a: nat, end: nat, hs: map<int, int>, b: int)
    requires BalancedWhens(ws) && Lie(hs, a, WhensHeights(ws, hasBase, b))
    requires Is(hs, a + WhensLen(ws, hasBase), b + BoolInt(hasBase)) && Is(hs, end, b + 1)
    ensures Steady(WhensCode(h, ws, hasBase, useAgg, a, end), a, hs)
    decreases ws
  {
    hide Steady, Lie, ValueCode, ValueHeights, ValueLen, WhensCode;
    match ws
    case Done =>
      WhensEnd(h, ws, hasBase, useAgg, a, end);
      SteadyNone(a, hs);
    case When(c, r, rest) =>
      var k, d := BoolInt(hasBase), a + ValueLen(c);
      var t := d + |WhenTest(hasBase, 0)|;
      var next := t + ValueLen(r) + 1;
      var hTest, hRest := if hasBase then [b + 2, b + 3, b + 1] else [b + 1], WhensHeights(rest, hasBase, b);
      var head := ValueHeights(c, b + k) + hTest + ValueHeights(r, b);
      LieSplit(hs, a, head + [b + 1], hRest);
      LieNext(hs, a, head, [b + 1]);
      LieNext(hs, a, ValueHeights(c, b + k) + hTest, ValueHeights(r, b));
      LieNext(hs, a, ValueHeights(c, b + k), hTest);
      assert Is(hs, next, b + k) by { if rest.When? { LieAt(hs, next, hRest, 0); } }
      ValueSteady(h, c, useAgg, a, hs, b + k);
      if hasBase { LieAt(hs, d, hTest, 1); LieAt(hs, d, hTest, 2); }
      WhenTestSteady(hasBase, d, next, hs, b);
      ValueSteady(h, r, useAgg, t, hs, b);
      SteadyOne(Ins(OpGoto, 0, end), next - 1, hs);
      WhensSteady(h, rest, hasBase, useAgg, next, end, hs, b);
      WhenCodeIs(h, useAgg, hasBase, ws, a, end);
      SteadyFive(ValueCode(h, c, useAgg, a), WhenTest(hasBase, next), ValueCode(h, r, useAgg, t), [Ins(OpGoto, 0, end)],
                 WhensCode(h, rest, hasBase, useAgg, next, end), a, hs);
  }

  lemma WhenTestSteady(hasBase: bool, d: nat, next: nat, hs: map<int, int>, b: int)
    requires next > 0 && Is(hs, next, b + BoolInt(hasBase)) && Is(hs, d, b + 1 + BoolInt(hasBase))
    requires hasBase ==> Is(hs, d + 1, b + 3) && Is(hs, d + 2, b + 1)
    requires Is(hs, d + |WhenTest(hasBase, 0)|, b)
    ensures Steady(WhenTest(hasBase, next), d, hs)
  {
  }

  lemma JumpSteady(h: Helpers, e: Expr, sense: bool, dest: int, jumpIfNull: bool, useAgg: bool, a: nat,
                   hs: map<int, int>, b: int)
    requires dest != 0 && BalancedTest(e) && Lie(hs, a, JumpHeights(e, sense, b))
    requires Is(hs, a + JumpLen(e, sense), b) && Is(hs, dest, b)
    ensures Steady(JumpCode(h, e, sense, dest, jumpIfNull, useAgg, a), a, hs)
    decreases e
  {
    hide Steady, Lie, JumpCode, TestHeights, Balanced, TestCode, TestLen;
    if e.And? || e.Or? {
      var u, v := JumpHeights(e.left, e.Or?, b), JumpHeights(e.right, sense, b);
      var m := a + JumpLen(e.left, e.Or?);
      var straight := e.Or? == sense;
      var d, n := if straight then dest else m + JumpLen(e.right, sense), if straight then jumpIfNull else !jumpIfNull;
      LieNext(hs, a, u, v);
      ConnectiveIs(h, e, sense, dest, jumpIfNull, useAgg, a);
      JumpSteady(h, e.left, e.Or?, d, n, useAgg, a, hs, b);
      JumpSteady(h, e.right, sense, dest, jumpIfNull, useAgg, m, hs, b);
      SteadyConcat(JumpCode(h, e.left, e.Or?, d, n, useAgg, a),
                   JumpCode(h, e.right, sense, dest, jumpIfNull, useAgg, m), a, hs);
    } else if e.Not? {
      NegationIs(h, e, sense, dest, jumpIfNull, useAgg, a);
      JumpSteady(h, e.left, !sense, dest, jumpIfNull, useAgg, a, hs, b);
    } else {
      TestIs(h, e, sense, dest, jumpIfNull, useAgg, a);
      TestSteady(h, e, sense, dest, jumpIfNull, useAgg, a, hs, b);
    }
  }

  lemma TestSteady(h: Helpers, e: Expr, sense: bool, dest: int, jumpIfNull: bool, useAgg: bool, a: nat,
                   hs: map<int, int>, b: int)
    requires !e.And? && !e.Or? && !e.Not? && dest != 0 && BalancedTest(e) && Lie(hs, a, TestHeights(e, sense, b))
    requires Is(hs, a + TestLen(e), b) && Is(hs, dest, b)
    ensures Steady(TestCode(h, e, sense, dest, jumpIfNull, useAgg, a), a, hs)
  {
    hide Steady, Lie, ValueCode, TestCode, ValueHeights, ValueLen;
    if e.Comparison? {
      CompareTestIs(h, e, sense, dest, jumpIfNull, useAgg, a);
      TwoThen(h, e.left, e.right, useAgg, a, hs, b,
              Ins(OpCompare(if sense then e.rel else Negation(e.rel), TypeOf(e) == TextType), BoolInt(jumpIfNull),
                  dest));
    } else if e.IsNull? || e.NotNull? {
      NullTestIs(h, e, sense, dest, jumpIfNull, useAgg, a);
      OneThen(h, e.left, useAgg, a, hs, b, Ins(if e.IsNull? == sense then OpIsNull else OpNotNull, 1, dest));
    } else if e.In? {
      InTestIs(h, e, sense, dest, jumpIfNull, useAgg, a);
      InTestSteady(h, e, sense, dest, jumpIfNull, useAgg, a, hs, b);
    } else if e.Between? {
      BetweenTestSteady(h, e, sense, dest, jumpIfNull, useAgg, a, hs, b);
    } else {
      PlainTestIs(h, e, sense, dest, jumpIfNull, useAgg, a);
      OneThen(h, e, useAgg, a, hs, b, Ins(if sense then OpIf else OpIfNot, BoolInt(jumpIfNull), dest));
    }
  }

  /** A value and an instruction that takes it. */
  lemma OneThen(h: Helpers, x: Expr, useAgg: bool, a: nat, hs: map<int, int>, b: int, op: Op)
    requires Balanced(x) && Lie(hs, a, ValueHeights(x, b) + [b + 1])
    requires Is(hs, a + ValueLen(x), b + 1) ==> SteadyOp(op, a + ValueLen(x), hs)
    ensures Steady(ValueCode(h, x, useAgg, a) + [op], a, hs)
  {
    hide Steady, Lie, ValueCode, ValueHeights, SteadyOp, Balanced;
    LieNext(hs, a, ValueHeights(x, b), [b + 1]);
    ValueSteady(h, x, useAgg, a, hs, b);
    SteadyOne(op, a + ValueLen(x), hs);
    SteadyConcat(ValueCode(h, x, useAgg, a), [op], a, hs);
  }

  /** Two values and an instruction that takes them. */
  lemma TwoThen(h: Helpers, x: Expr, y: Expr, useAgg: bool, a: nat, hs: map<int, int>, b: int, op: Op)
    requires Balanced(x) && Balanced(y) && Lie(hs, a, ValueHeights(x, b) + ValueHeights(y, b + 1) + [b + 2])
    requires Is(hs, a + ValueLen(x) + ValueLen(y), b + 2) ==> SteadyOp(op, a + ValueLen(x) + ValueLen(y), hs)
    ensures Steady(ValueCode(h, x, useAgg, a) + ValueCode(h, y, useAgg, a + ValueLen(x)) + [op], a, hs)
  {
    hide Steady, Lie, ValueCode, ValueHeights, SteadyOp, Balanced;
    var p, q := ValueCode(h, x, useAgg, a), ValueCode(h, y, useAgg, a + ValueLen(x));
    LieNext(hs, a, ValueHeights(x, b) + ValueHeights(y, b + 1), [b + 2]);
    LieNext(hs, a, ValueHeights(x, b), ValueHeights(y, b + 1));
    ValueSteady(h, x, useAgg, a, hs, b);
    ValueSteady(h, y, useAgg, a + ValueLen(x), hs, b + 1);
    SteadyConcat(p, q, a, hs);
    SteadyOne(op, a + |p + q|, hs);
    SteadyConcat(p + q, [op], a, hs);
  }

  lemma InTestSteady(h: Helpers, e: Expr, sense: bool, dest: int, jumpIfNull: bool, useAgg: bool, a: nat,
                     hs: map<int, int>, b: int)
    requires e.In? && Balanced(e.left) && Lie(hs, a, ValueHeights(e.left, b) + [b + 1, b + 1, b, b + 1])
    requires Is(hs, a + ValueLen(e.left) + 4, b) && Is(hs, dest, b)
    ensures Steady(ValueCode(h, e.left, useAgg, a)
                   + JumpInTail(e.rhs, e.fromSelect, sense, dest, jumpIfNull, a + ValueLen(e.left)), a, hs)
  {
    hide Steady, Lie, ValueCode, ValueHeights, Balanced, JumpInTail;
    var l, d := ValueCode(h, e.left, useAgg, a), a + ValueLen(e.left);
    LieNext(hs, a, ValueHeights(e.left, b), [b + 1, b + 1, b, b + 1]);
    ValueSteady(h, e.left, useAgg, a, hs, b);
    InTailSteady(e.rhs, e.fromSelect, sense, dest, jumpIfNull, d, hs, b);
    SteadyConcat(l, JumpInTail(e.rhs, e.fromSelect, sense, dest, jumpIfNull, d), a, hs);
  }

  lemma InTailSteady(rhs: int, fromSelect: bool, sense: bool, dest: int, jumpIfNull: bool, d: nat, hs: map<int, int>,
                     b: int)
    requires Lie(hs, d, [b + 1, b + 1, b, b + 1]) && Is(hs, d + 4, b) && Is(hs, dest, b)
    ensures Steady(JumpInTail(rhs, fromSelect, sense, dest, jumpIfNull, d), d, hs)
  {
    LieAt(hs, d, [b + 1, b + 1, b, b + 1], 0);
    LieAt(hs, d, [b + 1, b + 1, b, b + 1], 1);
    LieAt(hs, d, [b + 1, b + 1, b, b + 1], 2);
    LieAt(hs, d, [b + 1, b + 1, b, b + 1], 3);
  }

  lemma BetweenTestSteady(h: Helpers, e: Expr, sense: bool, dest: int, jumpIfNull: bool, useAgg: bool, a: nat,
                          hs: map<int, int>, b: int)
    requires e.Between? && dest != 0 && Balanced(e) && Lie(hs, a, TestHeights(e, sense, b))
    requires Is(hs, a + TestLen(e), b) && Is(hs, dest, b)
    ensures Steady(TestCode(h, e, sense, dest, jumpIfNull, useAgg, a), a, hs)
  {
    hide Steady, Lie, ValueCode, TestCode, LowerTest, UpperTest, ValueHeights, Balanced, ValueLen, TestHeights, TestLen;
    BetweenParts(e, b);
    BetweenTestHeights(e, sense, b);
    var d := a + ValueLen(e.left) + 1;
    var g := d + ValueLen(e.low);
    var f := g + (if sense then 1 else 3);
    var n := f + ValueLen(e.high);
    var u, v, w := ValueHeights(e.left, b), ValueHeights(e.low, b + 2), ValueHeights(e.high, b + 1);
    var hl, hu := if sense then [b + 3] else [b + 3, b + 1, b], if sense then [b + 2, b, b + 1] else [b + 2];
    var x, y, z := ValueCode(h, e.left, useAgg, a), ValueCode(h, e.low, useAgg, d), ValueCode(h, e.high, useAgg, f);
    LieNext(hs, a, u + [b + 1] + v + hl + w, hu);
    LieNext(hs, a, u + [b + 1] + v + hl, w);
    LieNext(hs, a, u + [b + 1] + v, hl);
    LieNext(hs, a, u + [b + 1], v);
    LieNext(hs, a, u, [b + 1]);
    ValueSteady(h, e.left, useAgg, a, hs, b);
    ValueSteady(h, e.low, useAgg, d, hs, b + 2);
    ValueSteady(h, e.high, useAgg, f, hs, b + 1);
    SteadyOne(Ins(OpDup, 0, 0), d - 1, hs);
    BoundTestsSteady(sense, dest, jumpIfNull, g, ValueLen(e.high), hs, b);
    SteadyFive(x, [Ins(OpDup, 0, 0)], y, LowerTest(sense, dest, jumpIfNull, g, |z|), z, a, hs);
    SteadyConcat(x + [Ins(OpDup, 0, 0)] + y + LowerTest(sense, dest, jumpIfNull, g, |z|) + z,
                 UpperTest(sense, dest, jumpIfNull), a, hs);
    BetweenTestIs(h, e, sense, dest, jumpIfNull, useAgg, a);
  }

  lemma BetweenTestHeights(e: Expr, sense: bool, b: int)
    requires e.Between?
    ensures TestHeights(e, sense, b)
            == ValueHeights(e.left, b) + [b + 1] + ValueHeights(e.low, b + 2)
               + (if sense then [b + 3] else [b + 3, b + 1, b])
               + ValueHeights(e.high, b + 1) + (if sense then [b + 2, b, b + 1] else [b + 2])
  {
    hide ValueHeights;
  }

  lemma BoundTestsSteady(sense: bool, dest: int, jumpIfNull: bool, g: nat, n: nat, hs: map<int, int>, b: int)
    requires dest != 0 && Is(hs, dest, b)
    requires Lie(hs, g, if sense then [b + 3] else [b + 3, b + 1, b])
    requires var f := g + (if sense then 1 else 3);
             && Is(hs, f, b + 1) && Lie(hs, f + n, if sense then [b + 2, b, b + 1] else [b + 2])
             && Is(hs, f + n + (if sense then 3 else 1), b)
    ensures Steady(LowerTest(sense, dest, jumpIfNull, g, n), g, hs)
    ensures Steady(UpperTest(sense, dest, jumpIfNull), g + (if sense then 1 else 3) + n, hs)
  {
    hide Lie;
    var f := g + (if sense then 1 else 3);
    LieAt(hs, g, if sense then [b + 3] else [b + 3, b + 1, b], 0);
    LieAt(hs, f + n, if sense then [b + 2, b, b + 1] else [b + 2], 0);
    if sense {
      LieAt(hs, f + n, [b + 2, b, b + 1], 1);
      LieAt(hs, f + n, [b + 2, b, b + 1], 2);
    } else {
      LieAt(hs, g, [b + 3, b + 1, b], 1);
      LieAt(hs, g, [b + 3, b + 1, b], 2);
    }
  }

  // Nothing else has heights: code with heights holds no value-position IN.

  /** The tail of a value-position IN can be reached with two heights. */
  lemma ValueInUnsteady(h: Helpers, e: Expr, useAgg: bool, a: nat, hs: map<int, int>)
    requires e.In?
    ensures !Steady(ValueCodeOther(h, e, useAgg, a), a, hs)
  {
    hide ValueCode, Steady;
    var left := [Ins(OpInteger, 1, 0)] + ValueCode(h, e.left, useAgg, a + 1);
    assert ValueCodeOther(h, e, useAgg, a) == left + InTail(e.rhs, e.fromSelect, a + |left|);
    SteadyConcat(left, InTail(e.rhs, e.fromSelect, a + |left|), a, hs);
    InTailUnsteady(e.rhs, e.fromSelect, a + |left|, hs);
  }

  lemma InTailUnsteady(rhs: int, fromSelect: bool, d: nat, hs: map<int, int>)
    ensures !Steady(InTail(rhs, fromSelect, d), d, hs)
  {
    hide Steady;
    var tail := InTail(rhs, fromSelect, d);
    if SteadyOp(tail[0], d, hs) && SteadyOp(tail[1], d + 1, hs) && SteadyOp(tail[2], d + 2, hs)
       && SteadyOp(tail[3], d + 3, hs) {
      assert Is(hs, d + 6, hs[d]) && Is(hs, d + 4, hs[d]);
      assert !SteadyOp(tail[4], d + 4, hs);
    }
    if Steady(tail, d, hs) {
      SteadyAt(tail, d, hs, 0);
      SteadyAt(tail, d, hs, 1);
      SteadyAt(tail, d, hs, 2);
      SteadyAt(tail, d, hs, 3);
      SteadyAt(tail, d, hs, 4);
    }
  }

  lemma SteadyAt(code: seq<Op>, a: int, hs: map<int, int>, i: nat)
    requires Steady(code, a, hs) && i < |code|
    ensures SteadyOp(code[i], a + i, hs)
  {
  }

  lemma SteadyBalanced(h: Helpers, e: Expr, useAgg: bool, a: nat, hs: map<int, int>)
    requires Steady(ValueCode(h, e, useAgg, a), a, hs)
    ensures Balanced(e)
    decreases e, 2
  {
    hide Steady, ValueCodeOther, Lie;
    if IsLeaf(e) {
    } else if IsBinary(e) {
      BinarySteadyParts(h, e, useAgg, a, hs);
      SteadyBalanced(h, e.left, useAgg, a, hs);
      SteadyBalanced(h, e.right, useAgg, a + ValueLen(e.left), hs);
    } else if IsUnary(e) {
      SteadyConcat(ValueCode(h, e.left, useAgg, a), [UnaryOp(e)], a, hs);
      SteadyBalanced(h, e.left, useAgg, a, hs);
    } else {
      OtherBalanced(h, e, useAgg, a, hs);
    }
  }

  lemma BinarySteadyParts(h: Helpers, e: Expr, useAgg: bool, a: nat, hs: map<int, int>)
    requires IsBinary(e) && Steady(ValueCode(h, e, useAgg, a), a, hs)
    ensures Steady(ValueCode(h, e.left, useAgg, a), a, hs)
    ensures Steady(ValueCode(h, e.right, useAgg, a + ValueLen(e.left)), a + ValueLen(e.left), hs)
  {
    hide Steady, ValueCode;
    BinaryCodeIs(h, e, useAgg, a);
    var l, r := ValueCode(h, e.left, useAgg, a), ValueCode(h, e.right, useAgg, a + ValueLen(e.left));
    SteadyConcat(l + r, [BinaryOp(e)], a, hs);
    SteadyConcat(l, r, a, hs);
  }

  lemma OtherBalanced(h: Helpers, e: Expr, useAgg: bool, a: nat, hs: map<int, int>)
    requires !IsLeaf(e) && !IsBinary(e) && !IsUnary(e) && Steady(ValueCodeOther(h, e, useAgg, a), a, hs)
    ensures Balanced(e)
    decreases e, 1
  {
    hide Steady, ValueCode;
    match e
    case Shift(op, l, r) =>
      var p, q := ValueCode(h, r, useAgg, a), ValueCode(h, l, useAgg, a + ValueLen(r));
      SteadyConcat(p + q, [Ins(OpShift(op), 0, 0)], a, hs);
      SteadyConcat(p, q, a, hs);
      SteadyBalanced(h, r, useAgg, a, hs);
      SteadyBalanced(h, l, useAgg, a + ValueLen(r), hs);
    case IsNull(l) => NullTestBalanced(h, e, useAgg, a, hs);
    case NotNull(l) => NullTestBalanced(h, e, useAgg, a, hs);
    case Function(def, args, _) =>
      SteadyConcat(ArgsCode(h, args, useAgg, a), [Op(OpFunction, Count(args), 0, FunctionP3(def))], a, hs);
      ArgsBalanced(h, args, useAgg, a, hs);
    case In(_, _, _) => ValueInUnsteady(h, e, useAgg, a, hs);
    case Between(l, lo, hi) =>
      var b := a + ValueLen(l) + 1;
      var z := ValueCode(h, hi, useAgg, b + ValueLen(lo) + 2);
      var p, q := [Ins(OpCompare(Ge, false), 0, 0), Ins(OpPull, 1, 0)],
                  [Ins(OpCompare(Le, false), 0, 0), Ins(OpAnd, 0, 0)];
      var head := ValueCode(h, l, useAgg, a) + [Ins(OpDup, 0, 0)] + ValueCode(h, lo, useAgg, b) + p;
      ValueBetweenIs(h, e, useAgg, a);
      SteadyConcat(head + z, q, a, hs);
      SteadyFive(ValueCode(h, l, useAgg, a), [Ins(OpDup, 0, 0)], ValueCode(h, lo, useAgg, b), p, z, a, hs);
      SteadyBalanced(h, l, useAgg, a, hs);
      SteadyBalanced(h, lo, useAgg, b, hs);
      SteadyBalanced(h, hi, useAgg, b + ValueLen(lo) + 2, hs);
    case Plus(l) => SteadyBalanced(h, l, useAgg, a, hs);
    case As(l) => SteadyBalanced(h, l, useAgg, a, hs);
    case Case(_, _, _) => CaseBalanced(h, e, useAgg, a, hs);
  }

  lemma NullTestBalanced(h: Helpers, e: Expr, useAgg: bool, a: nat, hs: map<int, int>)
    requires (e.IsNull? || e.NotNull?) && Steady(ValueCodeOther(h, e, useAgg, a), a, hs)
    ensures Balanced(e)
    decreases e, 0
  {
    hide Steady, ValueCode;
    var l := ValueCode(h, e.left, useAgg, a + 1);
    var tail := [Ins(if e.IsNull? then OpIsNull else OpNotNull, 1, a + |l| + 3), Ins(OpAddImm, -1, 0)];
    assert ValueCodeOther(h, e, useAgg, a) == [Ins(OpInteger, 1, 0)] + l + tail;
    SteadyConcat([Ins(OpInteger, 1, 0)] + l, tail, a, hs);
    SteadyConcat([Ins(OpInteger, 1, 0)], l, a, hs);
    SteadyBalanced(h, e.left, useAgg, a + 1, hs);
  }

  lemma ArgsBalanced(h: Helpers, es: Exprs, useAgg: bool, a: nat, hs: map<int, int>)
    requires Steady(ArgsCode(h, es, useAgg, a), a, hs)
    ensures BalancedArgs(es)
    decreases es
  {
    hide Steady, ValueCode;
    if es.Cons? {
      SteadyConcat(ValueCode(h, es.head, useAgg, a), ArgsCode(h, es.tail, useAgg, a + ValueLen(es.head)), a, hs);
      SteadyBalanced(h, es.head, useAgg, a, hs);
      ArgsBalanced(h, es.tail, useAgg, a + ValueLen(es.head), hs);
    }
  }

  lemma CaseBalanced(h: Helpers, e: Expr, useAgg: bool, a: nat, hs: map<int, int>)
    requires e.Case? && Steady(ValueCodeOther(h, e, useAgg, a), a, hs)
    ensures Balanced(e)
    decreases e, 0
  {
    hide Steady, ValueCode, WhensCode, ValueCodeOther, ValueLen, WhensLen;
    var base, whens, pop, otherwise := CaseIs(h, e, useAgg, a);
    SteadyConcat(base + whens + pop, otherwise, a, hs);
    SteadyConcat(base + whens, pop, a, hs);
    SteadyConcat(base, whens, a, hs);
    if e.base.TheExpr? { SteadyBalanced(h, e.base.e, useAgg, a, hs); }
    WhensBalanced(h, e.whens, e.base.TheExpr?, useAgg, a + |base|, a + ValueLen(e), hs);
    if e.otherwise.TheExpr? {
      SteadyBalanced(h, e.otherwise.e, useAgg, a + |base| + |whens| + |pop|, hs);
    }
  }

  lemma WhensBalanced(h: Helpers, ws: Whens, hasBase: bool, useAgg: bool, a: nat, end: int, hs: map<int, int>)
    requires Steady(WhensCode(h, ws, hasBase, useAgg, a, end), a, hs)
    ensures BalancedWhens(ws)
    decreases ws
  {
    hide Steady, ValueCode, ValueLen, WhensCode;
    if ws.When? {
      var t := a + ValueLen(ws.cond) + |WhenTest(hasBase, 0)|;
      var next := t + ValueLen(ws.result) + 1;
      WhenCodeIs(h, useAgg, hasBase, ws, a, end);
      SteadyFive(ValueCode(h, ws.cond, useAgg, a), WhenTest(hasBase, next), ValueCode(h, ws.result, useAgg, t),
                 [Ins(OpGoto, 0, end)],
                 WhensCode(h, ws.rest, hasBase, useAgg, next, end), a, hs);
      SteadyBalanced(h, ws.cond, useAgg, a, hs);
      SteadyBalanced(h, ws.result, useAgg, t, hs);
      WhensBalanced(h, ws.rest, hasBase, useAgg, next, end, hs);
    }
  }

  lemma JumpBalanced(h: Helpers, e: Expr, sense: bool, dest: int, jumpIfNull: bool, useAgg: bool, a: nat,
                     hs: map<int, int>)
    requires Steady(JumpCode(h, e, sense, dest, jumpIfNull, useAgg, a), a, hs)
    ensures BalancedTest(e)
    decreases e
  {
    hide Steady, JumpCode;
    if e.And? || e.Or? {
      var m := a + JumpLen(e.left, e.Or?);
      var straight := e.Or? == sense;
      var d, n := if straight then dest else m + JumpLen(e.right, sense), if straight then jumpIfNull else !jumpIfNull;
      ConnectiveIs(h, e, sense, dest, jumpIfNull, useAgg, a);
      SteadyConcat(JumpCode(h, e.left, e.Or?, d, n, useAgg, a),
                   JumpCode(h, e.right, sense, dest, jumpIfNull, useAgg, m), a, hs);
      JumpBalanced(h, e.left, e.Or?, d, n, useAgg, a, hs);
      JumpBalanced(h, e.right, sense, dest, jumpIfNull, useAgg, m, hs);
    } else if e.Not? {
      NegationIs(h, e, sense, dest, jumpIfNull, useAgg, a);
      JumpBalanced(h, e.left, !sense, dest, jumpIfNull, useAgg, a, hs);
    } else {
      TestIs(h, e, sense, dest, jumpIfNull, useAgg, a);
      TestBalanced(h, e, sense, dest, jumpIfNull, useAgg, a, hs);
    }
  }

  lemma TestBalanced(h: Helpers, e: Expr, sense: bool, dest: int, jumpIfNull: bool, useAgg: bool, a: nat,
                     hs: map<int, int>)
    requires !e.And? && !e.Or? && !e.Not? && Steady(TestCode(h, e, sense, dest, jumpIfNull, useAgg, a), a, hs)
    ensures BalancedTest(e)
  {
    hide Steady, ValueCode, TestCode, LowerTest, UpperTest;
    if e.Comparison? {
      var l, r := ValueCode(h, e.left, useAgg, a), ValueCode(h, e.right, useAgg, a + ValueLen(e.left));
      CompareTestIs(h, e, sense, dest, jumpIfNull, useAgg, a);
      SteadyConcat(l + r,
                   [Ins(OpCompare(if sense then e.rel else Negation(e.rel), TypeOf(e) == TextType),
                        BoolInt(jumpIfNull), dest)], a, hs);
      SteadyConcat(l, r, a, hs);
      SteadyBalanced(h, e.left, useAgg, a, hs);
      SteadyBalanced(h, e.right, useAgg, a + ValueLen(e.left), hs);
    } else if e.IsNull? || e.NotNull? {
      NullTestIs(h, e, sense, dest, jumpIfNull, useAgg, a);
      SteadyConcat(ValueCode(h, e.left, useAgg, a),
                   [Ins(if e.IsNull? == sense then OpIsNull else OpNotNull, 1, dest)], a, hs);
      SteadyBalanced(h, e.left, useAgg, a, hs);
    } else if e.In? {
      InTestIs(h, e, sense, dest, jumpIfNull, useAgg, a);
      SteadyConcat(ValueCode(h, e.left, useAgg, a),
                   JumpInTail(e.rhs, e.fromSelect, sense, dest, jumpIfNull, a + ValueLen(e.left)), a, hs);
      SteadyBalanced(h, e.left, useAgg, a, hs);
    } else if e.Between? {
      var d, f := a + ValueLen(e.left) + 1, UpperStart(e, sense, a);
      var x, y, z := ValueCode(h, e.left, useAgg, a), ValueCode(h, e.low, useAgg, d), ValueCode(h, e.high, useAgg, f);
      var lower := LowerTest(sense, dest, jumpIfNull, d + |y|, |z|);
      BetweenTestIs(h, e, sense, dest, jumpIfNull, useAgg, a);
      SteadyConcat(x + [Ins(OpDup, 0, 0)] + y + lower + z, UpperTest(sense, dest, jumpIfNull), a, hs);
      SteadyFive(x, [Ins(OpDup, 0, 0)], y, lower, z, a, hs);
      SteadyBalanced(h, e.left, useAgg, a, hs);
      SteadyBalanced(h, e.low, useAgg, d, hs);
      SteadyBalanced(h, e.high, useAgg, f, hs);
    } else {
      PlainTestIs(h, e, sense, dest, jumpIfNull, useAgg, a);
      SteadyConcat(ValueCode(h, e, useAgg, a), [Ins(if sense then OpIf else OpIfNot, BoolInt(jumpIfNull), dest)], a,
                   hs);
      SteadyBalanced(h, e, useAgg, a, hs);
    }
  }

  // The theorems.

  function Laid(a: int, heights: seq<int>): (hs: map<int, int>)
    ensures Lie(hs, a, heights)
  {
    if heights == [] then map[]
    else var n := |heights| - 1; Laid(a, heights[..n])[a + n := heights[n]]
  }

  lemma LaidLies(a: int, heights: seq<int>, dest: int, b: int)
    requires dest < a || dest >= a + |heights| || heights[dest - a] == b
    ensures Lie(Laid(a, heights)[dest := b], a, heights)
  {
    forall i | 0 <= i < |heights| ensures Is(Laid(a, heights)[dest := b], a + i, heights[i]) {
      LieAt(Laid(a, heights), a, heights, i);
    }
  }

  /** The heights of value code exist, from any base `b` to `b + 1` behind it, if and only if the
      expression holds no value-position IN. */
  lemma ValueHeightsExist(h: Helpers, e: Expr, useAgg: bool, a: nat, b: int)
    ensures Balanced(e)
            <==> exists hs ::
                   Steady(ValueCode(h, e, useAgg, a), a, hs) && Is(hs, a, b) && Is(hs, a + ValueLen(e), b + 1)
  {
    hide Steady;
    if Balanced(e) {
      var hs := Laid(a, ValueHeights(e, b))[a + ValueLen(e) := b + 1];
      LaidLies(a, ValueHeights(e, b), a + ValueLen(e), b + 1);
      ValueSteady(h, e, useAgg, a, hs, b);
      LieAt(hs, a, ValueHeights(e, b), 0);
    } else {
      forall hs | Steady(ValueCode(h, e, useAgg, a), a, hs) ensures false {
        SteadyBalanced(h, e, useAgg, a, hs);
      }
    }
  }

  /** The heights of jump code exist, the same in front of it, behind it and at its target, if and
      only if it holds no IN that is coded as a value. */
  lemma JumpHeightsExist(h: Helpers, e: Expr, sense: bool, dest: int, jumpIfNull: bool, useAgg: bool, a: nat, b: int)
    requires dest != 0 && !(a <= dest < a + JumpLen(e, sense))
    ensures BalancedTest(e)
            <==> exists hs :: Steady(JumpCode(h, e, sense, dest, jumpIfNull, useAgg, a), a, hs)
                              && Is(hs, a, b) && Is(hs, a + JumpLen(e, sense), b) && Is(hs, dest, b)
  {
    hide Steady;
    if BalancedTest(e) {
      var heights := JumpHeights(e, sense, b) + [b];
      var hs := Laid(a, heights)[dest := b];
      LaidLies(a, heights, dest, b);
      LieNext(hs, a, JumpHeights(e, sense, b), [b]);
      JumpSteady(h, e, sense, dest, jumpIfNull, useAgg, a, hs, b);
      LieAt(hs, a, heights, 0);
    } else {
      forall hs | Steady(JumpCode(h, e, sense, dest, jumpIfNull, useAgg, a), a, hs) ensures false {
        JumpBalanced(h, e, sense, dest, jumpIfNull, useAgg, a, hs);
      }
    }
  }

  lemma StepHeight(prog: seq<Op>, w: World, st: State, hs: map<int, int>)
    requires st.Running? && 0 <= st.pc < |prog| && SteadyOp(prog[st.pc], st.pc, hs) && Step(prog, w, st).Running?
    ensures var st' := Step(prog, w, st); st'.pc in hs && |st'.stack| - |st.stack| == hs[st'.pc] - hs[st.pc]
  {
    hide Step, Effect;
    StepEffect(prog, w, st);
  }

  lemma RunHeight(c: Context, hs: map<int, int>, st: State, n: nat)
    requires c.lo <= c.hi <= |c.prog| && Steady(c.prog[c.lo..c.hi], c.lo, hs)
    requires st.Running? && c.Inside(st, n) && Run(c.prog, c.w, st, n).Running? && st.pc in hs
    ensures var end := Run(c.prog, c.w, st, n); end.pc in hs && |end.stack| - |st.stack| == hs[end.pc] - hs[st.pc]
    decreases n
  {
    hide Step;
    if n > 0 {
      RunSplit(c.prog, c.w, st, n - 1, 1);
      var mid := Run(c.prog, c.w, st, n - 1);
      assert Run(c.prog, c.w, mid, 1) == Run(c.prog, c.w, Step(c.prog, c.w, mid), 0);
      assert c.Inside(st, n - 1);
      RunHeight(c, hs, st, n - 1);
      assert SteadyOp(c.prog[c.lo..c.hi][mid.pc - c.lo], c.lo + (mid.pc - c.lo), hs);
      StepHeight(c.prog, c.w, mid, hs);
    }
  }

  lemma GoesHeight(c: Context, hs: map<int, int>, a: int, s: seq<Value>, b: int, t: seq<Value>)
    requires c.lo <= c.hi <= |c.prog| && Steady(c.prog[c.lo..c.hi], c.lo, hs) && a in hs && c.Goes(a, s, b, t)
    ensures b in hs && |t| - |s| == hs[b] - hs[a]
  {
    var n: nat :| Run(c.prog, c.w, c.At(a, s), n) == c.At(b, t) && c.Inside(c.At(a, s), n);
    RunHeight(c, hs, c.At(a, s), n);
  }

  /** Two runs through the value code of an expression at the same address, in any two programs over
      any tables, have the same height wherever they are at the same instruction or behind the code. */
  lemma ValueHasOneHeight(c: Context, d: Context, e: Expr, s: seq<Value>, s': seq<Value>, pc: int, t: seq<Value>,
                          t': seq<Value>)
    requires Balanced(e) && c.lo == d.lo && c.hi == d.hi == c.lo + ValueLen(e)
    requires c.Has(c.lo, ValueCode(c.H(), e, c.useAgg, c.lo)) && d.Has(c.lo, ValueCode(c.H(), e, c.useAgg, c.lo))
    requires c.Goes(c.lo, s, pc, t) && d.Goes(c.lo, s', pc, t')
    ensures |t| - |s| == |t'| - |s'|
  {
    hide Context.Goes, Steady, ValueCode;
    ValueHeightsExist(c.H(), e, c.useAgg, c.lo, 0);
    var hs :| Steady(ValueCode(c.H(), e, c.useAgg, c.lo), c.lo, hs) && Is(hs, c.lo, 0) && Is(hs, c.lo + ValueLen(e), 1);
    GoesHeight(c, hs, c.lo, s, pc, t);
    GoesHeight(d, hs, c.lo, s', pc, t');
  }

  lemma JumpHasOneHeight(c: Context, d: Context, e: Expr, sense: bool, dest: int, jumpIfNull: bool,
                         s: seq<Value>, s': seq<Value>, pc: int, t: seq<Value>, t': seq<Value>)
    requires BalancedTest(e) && dest != 0 && !(c.lo <= dest < c.hi) && c.lo == d.lo
             && c.hi == d.hi == c.lo + JumpLen(e, sense)
    requires var code := JumpCode(c.H(), e, sense, dest, jumpIfNull, c.useAgg, c.lo);
             c.Has(c.lo, code) && d.Has(c.lo, code)
    requires c.Goes(c.lo, s, pc, t) && d.Goes(c.lo, s', pc, t')
    ensures |t| - |s| == |t'| - |s'|
  {
    hide Context.Goes, Steady, JumpCode;
    JumpHeightsExist(c.H(), e, sense, dest, jumpIfNull, c.useAgg, c.lo, 0);
    var hs :| Steady(JumpCode(c.H(), e, sense, dest, jumpIfNull, c.useAgg, c.lo), c.lo, hs)
              && Is(hs, c.lo, 0) && Is(hs, c.lo + JumpLen(e, sense), 0) && Is(hs, dest, 0);
    GoesHeight(c, hs, c.lo, s, pc, t);
    GoesHeight(d, hs, c.lo, s', pc, t');
  }
}
