/** The code of an expression with every address already known. The generator reaches the same
    code with labels and patches (module ExprGenerator); its meaning is proved here-after. */
module Layout {
  import opened Values
  import opened Expressions
  import opened Machine

  function BoolInt(b: bool): int { if b then 1 else 0 }

  function LiteralOp(h: Helpers, kind: LiteralKind, token: string): Op {
    if kind == IntegerLiteral && h.fits32(token) then Op(OpInteger, h.atoi(token), 0, TextP3(h.unquote(token)))
    else Op(OpString, 0, 0, TextP3(h.unquote(token)))
  }

  function NegatedLiteralOp(h: Helpers, kind: LiteralKind, token: string): Op {
    if kind == IntegerLiteral && h.fits32("-" + token) then Op(OpInteger, h.atoi("-" + token), 0, TextP3("-" + token))
    else Op(OpString, 0, 0, TextP3("-" + token))
  }

  /** Expressions coded as one instruction. */
  predicate IsLeaf(e: Expr) {
    e.Column? || e.Literal? || e.NullLiteral? || e.Variable? || e.AggFunction? || e.ScalarSelect?
    || (e.Minus? && IsNumber(e.left))
  }

  function LeafOp(h: Helpers, e: Expr, useAgg: bool): Op
    requires IsLeaf(e)
  {
    match e
    case Column(t, c, agg, _) =>
      if useAgg then Ins(OpAggGet, 0, agg) else if c >= 0 then Ins(OpColumn, t, c) else Ins(OpRecno, t, 0)
    case Literal(kind, token) => LiteralOp(h, kind, token)
    case NullLiteral => Ins(OpString, 0, 0)
    case Variable(n) => Ins(OpVariable, n, 0)
    case AggFunction(agg, _) => Ins(OpAggGet, 0, agg)
    case ScalarSelect(mem, _) => Ins(OpMemLoad, mem, 0)
    case Minus(l) => NegatedLiteralOp(h, l.kind, l.token)
  }

  /** Expressions coded as left operand, right operand, one instruction. */
  predicate IsBinary(e: Expr) { e.Comparison? || e.And? || e.Or? || e.Arithmetic? || e.Concat? }

  function BinaryOp(e: Expr): Op
    requires IsBinary(e)
  {
    match e
    case Comparison(rel, _, _) => Ins(OpCompare(rel, TypeOf(e) == TextType), 0, 0)
    case And(_, _) => Ins(OpAnd, 0, 0)
    case Or(_, _) => Ins(OpOr, 0, 0)
    case Arithmetic(op, _, _) => Ins(OpArith(op), 0, 0)
    case Concat(_, _) => Ins(OpConcat, 2, 0)
  }

  /** Expressions coded as their operand and one instruction. */
  predicate IsUnary(e: Expr) { e.BitNot? || e.Not? || (e.Minus? && !IsNumber(e.left)) }

  function UnaryOp(e: Expr): Op
    requires IsUnary(e)
  {
    Ins(if e.BitNot? then OpBitNot else if e.Not? then OpNot else OpNegative, 0, 0)
  }

  function ValueLen(e: Expr): nat {
    if IsLeaf(e) then 1
    else if IsBinary(e) then ValueLen(e.left) + ValueLen(e.right) + 1
    else if IsUnary(e) then ValueLen(e.left) + 1
    else
      match e
      case Shift(_, l, r) => ValueLen(r) + ValueLen(l) + 1
      case IsNull(l) => ValueLen(l) + 3
      case NotNull(l) => ValueLen(l) + 3
      case Function(_, args, _) => ArgsLen(args) + 1
      case In(l, _, _) => ValueLen(l) + 7
      case Between(l, lo, hi) => ValueLen(l) + ValueLen(lo) + ValueLen(hi) + 5
      case Plus(l) => ValueLen(l)
      case As(l) => ValueLen(l)
      case Case(base, whens, otherwise) =>
        (if base.TheExpr? then ValueLen(base.e) + 1 else 0) + WhensLen(whens, base.TheExpr?)
        + (if otherwise.TheExpr? then ValueLen(otherwise.e) else 1)
  }

  function ArgsLen(es: Exprs): nat {
    match es case Nil => 0 case Cons(e, tail) => ValueLen(e) + ArgsLen(tail)
  }

  function WhensLen(ws: Whens, hasBase: bool): nat {
    match ws
    case Done => 0
    case When(c, r, rest) => ValueLen(c) + (if hasBase then 3 else 1) + ValueLen(r) + 1 + WhensLen(rest, hasBase)
  }

  /** The length of the jump form for either sense; it depends on neither target nor NULL flag. */
  function JumpLen(e: Expr, sense: bool): (n: nat)
    ensures n > 0
  {
    match e
    case And(l, r) => JumpLen(l, false) + JumpLen(r, sense)
    case Or(l, r) => JumpLen(l, true) + JumpLen(r, sense)
    case Not(l) => JumpLen(l, !sense)
    case _ => TestLen(e)
  }

  function TestLen(e: Expr): nat {
    if e.Comparison? then ValueLen(e.left) + ValueLen(e.right) + 1
    else if e.IsNull? || e.NotNull? then ValueLen(e.left) + 1
    else if e.In? then ValueLen(e.left) + 4
    else if e.Between? then ValueLen(e.left) + ValueLen(e.low) + ValueLen(e.high) + 5
    else ValueLen(e) + 1
  }

  /** Code at address `a` that pushes the value of `e`. */
  function ValueCode(h: Helpers, e: Expr, useAgg: bool, a: nat): (code: seq<Op>)
    ensures |code| == ValueLen(e)
    decreases e, 1
  {
    if IsLeaf(e) then [LeafOp(h, e, useAgg)]
    else if IsBinary(e) then
      ValueCode(h, e.left, useAgg, a) + ValueCode(h, e.right, useAgg, a + ValueLen(e.left)) + [BinaryOp(e)]
    else if IsUnary(e) then ValueCode(h, e.left, useAgg, a) + [UnaryOp(e)]
    else ValueCodeOther(h, e, useAgg, a)
  }

  /** The remaining forms of `ValueCode`. */
  function ValueCodeOther(h: Helpers, e: Expr, useAgg: bool, a: nat): (code: seq<Op>)
    requires !IsLeaf(e) && !IsBinary(e) && !IsUnary(e)
    ensures |code| == ValueLen(e)
    decreases e, 0
  {
    match e
    case Shift(op, l, r) =>
      ValueCode(h, r, useAgg, a) + ValueCode(h, l, useAgg, a + ValueLen(r)) + [Ins(OpShift(op), 0, 0)]
    case IsNull(l) => NullTestCode(OpIsNull, ValueCode(h, l, useAgg, a + 1), a)
    case NotNull(l) => NullTestCode(OpNotNull, ValueCode(h, l, useAgg, a + 1), a)
    case Function(def, args, _) => ArgsCode(h, args, useAgg, a) + [Op(OpFunction, Count(args), 0, FunctionP3(def))]
    case In(l, rhs, fromSelect) => ValueInCode(rhs, fromSelect, ValueCode(h, l, useAgg, a + 1), a)
    case Between(l, lo, hi) =>
      var b := a + ValueLen(l) + 1;
      ValueBetweenCode(ValueCode(h, l, useAgg, a), ValueCode(h, lo, useAgg, b),
                       ValueCode(h, hi, useAgg, b + ValueLen(lo) + 2))
    case Plus(l) => ValueCode(h, l, useAgg, a)
    case As(l) => ValueCode(h, l, useAgg, a)
    case Case(base, whens, otherwise) =>
      var b := a + (if base.TheExpr? then ValueLen(base.e) else 0);
      var c := b + WhensLen(whens, base.TheExpr?) + BoolInt(base.TheExpr?);
      CaseCode(base.TheExpr?,
               if base.TheExpr? then ValueCode(h, base.e, useAgg, a) else [],
               WhensCode(h, whens, base.TheExpr?, useAgg, b, a + ValueLen(e)),
               if otherwise.TheExpr? then ValueCode(h, otherwise.e, useAgg, c) else [Ins(OpString, 0, 0)])
  }

  function CaseCode(hasBase: bool, base: seq<Op>, whens: seq<Op>, otherwise: seq<Op>): (code: seq<Op>)
    ensures |code| == |base| + |whens| + BoolInt(hasBase) + |otherwise|
  {
    base + whens + (if hasBase then [Ins(OpPop, 1, 0)] else []) + otherwise
  }

  function NullTestCode(opcode: Opcode, left: seq<Op>, a: nat): (code: seq<Op>)
    ensures |code| == |left| + 3
  {
    [Ins(OpInteger, 1, 0)] + left + [Ins(opcode, 1, a + |left| + 3), Ins(OpAddImm, -1, 0)]
  }

  function ValueInCode(rhs: int, fromSelect: bool, left: seq<Op>, a: nat): (code: seq<Op>)
    ensures |code| == |left| + 7
  {
    [Ins(OpInteger, 1, 0)] + left + InTail(rhs, fromSelect, a + 1 + |left|)
  }

  function InTail(rhs: int, fromSelect: bool, b: int): seq<Op> {
    [Ins(OpNotNull, -1, b + 4), Ins(OpPop, 1, 0), Ins(OpString, 0, 0), Ins(OpGoto, 0, b + 6),
     Ins(if fromSelect then OpFound else OpSetFound, rhs, b + 6), Ins(OpAddImm, -1, 0)]
  }

  function ValueBetweenCode(left: seq<Op>, low: seq<Op>, high: seq<Op>): (code: seq<Op>)
    ensures |code| == |left| + |low| + |high| + 5
  {
    left + [Ins(OpDup, 0, 0)]
    + low + [Ins(OpCompare(Ge, false), 0, 0), Ins(OpPull, 1, 0)]
    + high + [Ins(OpCompare(Le, false), 0, 0), Ins(OpAnd, 0, 0)]
  }

  function ArgsCode(h: Helpers, es: Exprs, useAgg: bool, a: nat): (code: seq<Op>)
    ensures |code| == ArgsLen(es)
    decreases es
  {
    match es
    case Nil => []
    case Cons(e, tail) => ValueCode(h, e, useAgg, a) + ArgsCode(h, tail, useAgg, a + ValueLen(e))
  }

  /** The WHEN branches; each result jumps to `end`, the first address after the CASE. */
  function WhensCode(h: Helpers, ws: Whens, hasBase: bool, useAgg: bool, a: nat, end: int): (code: seq<Op>)
    ensures |code| == WhensLen(ws, hasBase)
    decreases ws
  {
    match ws
    case Done => []
    case When(c, r, rest) =>
      var t := a + ValueLen(c) + (if hasBase then 3 else 1);
      var next := t + ValueLen(r) + 1;
      ValueCode(h, c, useAgg, a) + WhenTest(hasBase, next)
      + ValueCode(h, r, useAgg, t) + [Ins(OpGoto, 0, end)]
      + WhensCode(h, rest, hasBase, useAgg, next, end)
  }

  function WhenTest(hasBase: bool, next: nat): seq<Op> {
    if hasBase then [Ins(OpDup, 1, 1), Ins(OpCompare(Ne, false), 1, next), Ins(OpPop, 1, 0)]
    else [Ins(OpIfNot, 1, next)]
  }

  /** Code at address `a` that jumps to `dest` when `e` has the truth value `sense`, or is NULL
      and `jumpIfNull` is set, and falls through otherwise. */
  function JumpCode(h: Helpers, e: Expr, sense: bool, dest: int, jumpIfNull: bool, useAgg: bool,
                    a: nat): (code: seq<Op>)
    ensures |code| == JumpLen(e, sense)
    decreases e
  {
    match e
    case And(l, r) =>
      var b := a + JumpLen(l, false);
      JumpCode(h, l, false, if sense then b + JumpLen(r, true) else dest, jumpIfNull != sense, useAgg, a)
      + JumpCode(h, r, sense, dest, jumpIfNull, useAgg, b)
    case Or(l, r) =>
      var b := a + JumpLen(l, true);
      JumpCode(h, l, true, if sense then dest else b + JumpLen(r, false), jumpIfNull == sense, useAgg, a)
      + JumpCode(h, r, sense, dest, jumpIfNull, useAgg, b)
    case Not(l) => JumpCode(h, l, !sense, dest, jumpIfNull, useAgg, a)
    case _ => TestCode(h, e, sense, dest, jumpIfNull, useAgg, a)
  }

  /** The jump form of everything but AND, OR and NOT. */
  function TestCode(h: Helpers, e: Expr, sense: bool, dest: int, jumpIfNull: bool, useAgg: bool,
                    a: nat): (code: seq<Op>)
    requires !e.And? && !e.Or? && !e.Not?
    ensures |code| == TestLen(e)
  {
    if e.Comparison? then
      ValueCode(h, e.left, useAgg, a) + ValueCode(h, e.right, useAgg, a + ValueLen(e.left))
      + [Ins(OpCompare(if sense then e.rel else Negation(e.rel), TypeOf(e) == TextType), BoolInt(jumpIfNull), dest)]
    else if e.IsNull? || e.NotNull? then
      ValueCode(h, e.left, useAgg, a) + [Ins(if e.IsNull? == sense then OpIsNull else OpNotNull, 1, dest)]
    else if e.In? then
      ValueCode(h, e.left, useAgg, a) + JumpInTail(e.rhs, e.fromSelect, sense, dest, jumpIfNull, a + ValueLen(e.left))
    else if e.Between? then
      var b := a + ValueLen(e.left) + 1;
      JumpBetweenCode(ValueCode(h, e.left, useAgg, a), ValueCode(h, e.low, useAgg, b),
                      ValueCode(h, e.high, useAgg, b + ValueLen(e.low) + (if sense then 1 else 3)),
                      sense, dest, jumpIfNull, a)
    else ValueCode(h, e, useAgg, a) + [Ins(if sense then OpIf else OpIfNot, BoolInt(jumpIfNull), dest)]
  }

  function JumpInTail(rhs: int, fromSelect: bool, sense: bool, dest: int, jumpIfNull: bool, a: nat): (code: seq<Op>)
    ensures |code| == 4
  {
    [Ins(OpNotNull, -1, a + 3), Ins(OpPop, 1, 0), Ins(OpGoto, 0, if jumpIfNull then dest else a + 4),
     Ins(if fromSelect then (if sense then OpFound else OpNotFound) else if sense then OpSetFound else OpSetNotFound,
         rhs, dest)]
  }

  /** The test of the lower bound at address `d`; a failed test leaves the operand to be popped
      where the operand of the second test would be, behind it or right here. */
  function LowerTest(sense: bool, dest: int, jumpIfNull: bool, d: nat, highLen: nat): (code: seq<Op>)
    ensures |code| == if sense then 1 else 3
  {
    if sense then [Ins(OpCompare(Lt, false), BoolInt(!jumpIfNull), d + highLen + 3)]
    else [Ins(OpCompare(Ge, false), BoolInt(!jumpIfNull), d + 3), Ins(OpPop, 1, 0), Ins(OpGoto, 0, dest)]
  }

  function UpperTest(sense: bool, dest: int, jumpIfNull: bool): (code: seq<Op>)
    ensures |code| == if sense then 3 else 1
  {
    if sense then [Ins(OpCompare(Le, false), BoolInt(jumpIfNull), dest), Ins(OpInteger, 0, 0), Ins(OpPop, 1, 0)]
    else [Ins(OpCompare(Gt, false), BoolInt(jumpIfNull), dest)]
  }

  function JumpBetweenCode(left: seq<Op>, low: seq<Op>, high: seq<Op>, sense: bool, dest: int, jumpIfNull: bool, a: nat)
    : (code: seq<Op>)
    ensures |code| == |left| + |low| + |high| + 5
  {
    var d := a + |left| + 1 + |low|;
    left + [Ins(OpDup, 0, 0)] + low + LowerTest(sense, dest, jumpIfNull, d, |high|) + high
      + UpperTest(sense, dest, jumpIfNull)
  }

  // The layout of one form at a time.

  lemma BinaryCodeIs(h: Helpers, e: Expr, useAgg: bool, a: nat)
    requires IsBinary(e)
    ensures ValueCode(h, e, useAgg, a)
            == ValueCode(h, e.left, useAgg, a) + ValueCode(h, e.right, useAgg, a + ValueLen(e.left)) + [BinaryOp(e)]
    ensures ValueLen(e) == ValueLen(e.left) + ValueLen(e.right) + 1
  {
  }

  lemma ShiftCodeIs(h: Helpers, e: Expr, useAgg: bool, a: nat)
    requires e.Shift?
    ensures ValueCodeOther(h, e, useAgg, a)
            == ValueCode(h, e.right, useAgg, a) + ValueCode(h, e.left, useAgg, a + ValueLen(e.right))
               + [Ins(OpShift(e.shiftOp), 0, 0)]
    ensures ValueLen(e) == ValueLen(e.right) + ValueLen(e.left) + 1
  {
    hide ValueCode;
  }

  lemma CompareTestIs(h: Helpers, e: Expr, sense: bool, dest: int, jumpIfNull: bool, useAgg: bool, a: nat)
    requires e.Comparison?
    ensures TestCode(h, e, sense, dest, jumpIfNull, useAgg, a)
            == ValueCode(h, e.left, useAgg, a) + ValueCode(h, e.right, useAgg, a + ValueLen(e.left))
               + [Ins(OpCompare(if sense then e.rel else Negation(e.rel), TypeOf(e) == TextType), BoolInt(jumpIfNull),
                      dest)]
    ensures TestLen(e) == ValueLen(e.left) + ValueLen(e.right) + 1
  {
    hide ValueCode, ValueLen;
  }

  lemma PlainTestIs(h: Helpers, e: Expr, sense: bool, dest: int, jumpIfNull: bool, useAgg: bool, a: nat)
    requires !e.And? && !e.Or? && !e.Not? && !e.Comparison? && !e.IsNull? && !e.NotNull? && !e.In? && !e.Between?
    ensures TestCode(h, e, sense, dest, jumpIfNull, useAgg, a)
            == ValueCode(h, e, useAgg, a) + [Ins(if sense then OpIf else OpIfNot, BoolInt(jumpIfNull), dest)]
    ensures TestLen(e) == ValueLen(e) + 1
  {
    hide ValueCode, ValueLen;
  }

  function UpperStart(e: Expr, sense: bool, a: nat): nat
    requires e.Between?
  {
    a + ValueLen(e.left) + 1 + ValueLen(e.low) + (if sense then 1 else 3)
  }

  lemma BetweenTestIs(h: Helpers, e: Expr, sense: bool, dest: int, jumpIfNull: bool, useAgg: bool, a: nat)
    requires e.Between?
    ensures var b := a + ValueLen(e.left) + 1;
            TestCode(h, e, sense, dest, jumpIfNull, useAgg, a)
            == JumpBetweenCode(ValueCode(h, e.left, useAgg, a), ValueCode(h, e.low, useAgg, b),
                               ValueCode(h, e.high, useAgg, UpperStart(e, sense, a)), sense, dest, jumpIfNull, a)
    ensures TestLen(e) == ValueLen(e.left) + ValueLen(e.low) + ValueLen(e.high) + 5
  {
    hide ValueCode, ValueLen, JumpBetweenCode;
  }

  lemma NullTestIs(h: Helpers, e: Expr, sense: bool, dest: int, jumpIfNull: bool, useAgg: bool, a: nat)
    requires e.IsNull? || e.NotNull?
    ensures TestCode(h, e, sense, dest, jumpIfNull, useAgg, a)
            == ValueCode(h, e.left, useAgg, a) + [Ins(if e.IsNull? == sense then OpIsNull else OpNotNull, 1, dest)]
    ensures TestLen(e) == ValueLen(e.left) + 1
  {
    hide ValueCode, ValueLen;
  }

  lemma InTestIs(h: Helpers, e: Expr, sense: bool, dest: int, jumpIfNull: bool, useAgg: bool, a: nat)
    requires e.In?
    ensures TestCode(h, e, sense, dest, jumpIfNull, useAgg, a)
            == ValueCode(h, e.left, useAgg, a)
               + JumpInTail(e.rhs, e.fromSelect, sense, dest, jumpIfNull, a + ValueLen(e.left))
    ensures TestLen(e) == ValueLen(e.left) + 4
  {
    hide ValueCode, ValueLen;
  }

  lemma WhenCodeIs(h: Helpers, useAgg: bool, hasBase: bool, ws: Whens, a: nat, end: int)
    requires ws.When?
    ensures var t := a + ValueLen(ws.cond) + |WhenTest(hasBase, 0)|;
            var next := t + ValueLen(ws.result) + 1;
            WhensCode(h, ws, hasBase, useAgg, a, end)
            == ValueCode(h, ws.cond, useAgg, a) + WhenTest(hasBase, next) + ValueCode(h, ws.result, useAgg, t)
               + [Ins(OpGoto, 0, end)]
               + WhensCode(h, ws.rest, hasBase, useAgg, next, end)
  {
    hide ValueCode, ValueLen, WhensLen;
  }

  lemma WhensEnd(h: Helpers, ws: Whens, hasBase: bool, useAgg: bool, a: nat, end: int)
    requires ws.Done?
    ensures WhensCode(h, ws, hasBase, useAgg, a, end) == []
  {
  }

  lemma ConnectiveIs(h: Helpers, e: Expr, sense: bool, dest: int, jumpIfNull: bool, useAgg: bool, a: nat)
    requires e.And? || e.Or?
    ensures var b := a + JumpLen(e.left, e.Or?);
            var straight := e.Or? == sense;
            JumpCode(h, e, sense, dest, jumpIfNull, useAgg, a)
            == JumpCode(h, e.left, e.Or?, if straight then dest else b + JumpLen(e.right, sense),
                        if straight then jumpIfNull else !jumpIfNull, useAgg, a)
               + JumpCode(h, e.right, sense, dest, jumpIfNull, useAgg, b)
    ensures JumpLen(e, sense) == JumpLen(e.left, e.Or?) + JumpLen(e.right, sense)
  {
    hide TestCode, ValueCode, TestLen;
  }

  lemma NegationIs(h: Helpers, e: Expr, sense: bool, dest: int, jumpIfNull: bool, useAgg: bool, a: nat)
    requires e.Not?
    ensures JumpCode(h, e, sense, dest, jumpIfNull, useAgg, a)
            == JumpCode(h, e.left, !sense, dest, jumpIfNull, useAgg, a)
    ensures JumpLen(e, sense) == JumpLen(e.left, !sense)
  {
  }

  lemma TestIs(h: Helpers, e: Expr, sense: bool, dest: int, jumpIfNull: bool, useAgg: bool, a: nat)
    requires !e.And? && !e.Or? && !e.Not?
    ensures JumpCode(h, e, sense, dest, jumpIfNull, useAgg, a) == TestCode(h, e, sense, dest, jumpIfNull, useAgg, a)
    ensures JumpLen(e, sense) == TestLen(e)
  {
    hide TestCode, TestLen;
  }

  lemma ValueBetweenIs(h: Helpers, e: Expr, useAgg: bool, a: nat)
    requires e.Between?
    ensures var b := a + ValueLen(e.left) + 1;
            ValueCodeOther(h, e, useAgg, a)
            == (ValueCode(h, e.left, useAgg, a) + [Ins(OpDup, 0, 0)] + ValueCode(h, e.low, useAgg, b)
                + [Ins(OpCompare(Ge, false), 0, 0), Ins(OpPull, 1, 0)])
               + ValueCode(h, e.high, useAgg, b + ValueLen(e.low) + 2)
                 + [Ins(OpCompare(Le, false), 0, 0), Ins(OpAnd, 0, 0)]
  {
    hide ValueCode, ValueLen;
  }

  lemma CaseLen(e: Expr)
    requires e.Case?
    ensures ValueLen(e) == (if e.base.TheExpr? then ValueLen(e.base.e) else 0) + WhensLen(e.whens, e.base.TheExpr?)
                           + BoolInt(e.base.TheExpr?)
                           + (if e.otherwise.TheExpr? then ValueLen(e.otherwise.e) else 1)
  {
    hide WhensLen;
  }

  lemma CaseCodeIs(h: Helpers, e: Expr, useAgg: bool, a: nat)
    requires e.Case?
    ensures var b := a + (if e.base.TheExpr? then ValueLen(e.base.e) else 0);
            var c := b + WhensLen(e.whens, e.base.TheExpr?) + BoolInt(e.base.TheExpr?);
            ValueCodeOther(h, e, useAgg, a)
            == CaseCode(e.base.TheExpr?, if e.base.TheExpr? then ValueCode(h, e.base.e, useAgg, a) else [],
                        WhensCode(h, e.whens, e.base.TheExpr?, useAgg, b, a + ValueLen(e)),
                        if e.otherwise.TheExpr? then ValueCode(h, e.otherwise.e, useAgg, c)
                        else [Ins(OpString, 0, 0)])
  {
    hide ValueCode, WhensCode, ValueLen, WhensLen, CaseCode;
  }

  /** The four parts of CASE. */
  lemma CaseIs(h: Helpers, e: Expr, useAgg: bool, a: nat)
    returns (base: seq<Op>, whens: seq<Op>, pop: seq<Op>, otherwise: seq<Op>)
    requires e.Case?
    ensures var k := BoolInt(e.base.TheExpr?);
            var d := a + |base| + |whens|;
            && ValueCodeOther(h, e, useAgg, a) == base + whens + pop + otherwise
            && ValueLen(e) == |base| + |whens| + |pop| + |otherwise|
            && base == (if e.base.TheExpr? then ValueCode(h, e.base.e, useAgg, a) else [])
            && whens == WhensCode(h, e.whens, e.base.TheExpr?, useAgg, a + |base|, a + ValueLen(e))
            && pop == (if e.base.TheExpr? then [Ins(OpPop, 1, 0)] else [])
            && otherwise == if e.otherwise.TheExpr? then ValueCode(h, e.otherwise.e, useAgg, d + k)
                            else [Ins(OpString, 0, 0)]
  {
    hide ValueCode, ValueCodeOther, WhensCode, ValueLen, WhensLen;
    CaseLen(e);
    CaseCodeIs(h, e, useAgg, a);
    base := if e.base.TheExpr? then ValueCode(h, e.base.e, useAgg, a) else [];
    whens := WhensCode(h, e.whens, e.base.TheExpr?, useAgg, a + |base|, a + ValueLen(e));
    pop := if e.base.TheExpr? then [Ins(OpPop, 1, 0)] else [];
    otherwise := if e.otherwise.TheExpr?
                 then ValueCode(h, e.otherwise.e, useAgg, a + |base| + |whens| + BoolInt(e.base.TheExpr?))
                 else [Ins(OpString, 0, 0)];
  }
}
