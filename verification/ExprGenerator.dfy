/** The code generator itself: it appends to one program, jumps to labels not yet placed and
    patches P2 afterwards, and ends up with exactly the code of module Layout. */
module ExprGenerator {
  import opened Values
  import opened Expressions
  import opened Machine
  import opened Layout
  import opened Builder

  // Patching a label leaves value code alone and moves only the target of jump code.

  ghost predicate NoLabels(code: seq<Op>) { forall i :: 0 <= i < |code| ==> code[i].p2 >= 0 }

  lemma PatchNothing(code: seq<Op>, x: int, addr: int)
    requires NoLabels(code) && x < 0
    ensures Patch(code, x, addr) == code
  {
  }

  lemma NullTestNoLabels(opcode: Opcode, left: seq<Op>, a: nat)
    requires NoLabels(left)
    ensures NoLabels(NullTestCode(opcode, left, a))
  {
  }

  lemma ValueInNoLabels(rhs: int, fromSelect: bool, left: seq<Op>, a: nat)
    requires NoLabels(left)
    ensures NoLabels(ValueInCode(rhs, fromSelect, left, a))
  {
  }

  lemma ValueBetweenNoLabels(left: seq<Op>, low: seq<Op>, high: seq<Op>)
    requires NoLabels(left) && NoLabels(low) && NoLabels(high)
    ensures NoLabels(ValueBetweenCode(left, low, high))
  {
  }

  lemma CaseNoLabels(hasBase: bool, base: seq<Op>, whens: seq<Op>, otherwise: seq<Op>)
    requires NoLabels(base) && NoLabels(whens) && NoLabels(otherwise)
    ensures NoLabels(CaseCode(hasBase, base, whens, otherwise))
  {
  }

  lemma ValueHasNoLabels(h: Helpers, e: Expr, useAgg: bool, a: nat)
    ensures NoLabels(ValueCode(h, e, useAgg, a))
    decreases e, 2
  {
    if IsLeaf(e) {
    } else if IsBinary(e) {
      ValueHasNoLabels(h, e.left, useAgg, a);
      ValueHasNoLabels(h, e.right, useAgg, a + ValueLen(e.left));
    } else if IsUnary(e) {
      ValueHasNoLabels(h, e.left, useAgg, a);
    } else {
      OtherHasNoLabels(h, e, useAgg, a);
    }
  }

  lemma OtherHasNoLabels(h: Helpers, e: Expr, useAgg: bool, a: nat)
    requires !IsLeaf(e) && !IsBinary(e) && !IsUnary(e)
    ensures NoLabels(ValueCodeOther(h, e, useAgg, a))
    decreases e, 1
  {
    hide ValueCode, ValueLen;
    if e.Shift? {
      ValueHasNoLabels(h, e.right, useAgg, a);
      ValueHasNoLabels(h, e.left, useAgg, a + ValueLen(e.right));
    } else if e.IsNull? || e.NotNull? {
      ValueHasNoLabels(h, e.left, useAgg, a + 1);
      NullTestNoLabels(if e.IsNull? then OpIsNull else OpNotNull, ValueCode(h, e.left, useAgg, a + 1), a);
    } else if e.In? {
      ValueHasNoLabels(h, e.left, useAgg, a + 1);
      ValueInNoLabels(e.rhs, e.fromSelect, ValueCode(h, e.left, useAgg, a + 1), a);
    } else if e.Function? {
      ArgsHaveNoLabels(h, e.args, useAgg, a);
    } else if e.Between? {
      BetweenHasNoLabels(h, e, useAgg, a);
    } else if e.Case? {
      CaseHasNoLabels(h, e, useAgg, a);
    } else {
      ValueHasNoLabels(h, e.left, useAgg, a);
    }
  }

  lemma BetweenHasNoLabels(h: Helpers, e: Expr, useAgg: bool, a: nat)
    requires e.Between?
    ensures NoLabels(ValueCodeOther(h, e, useAgg, a))
    decreases e, 0
  {
    hide ValueCode, ValueLen, NoLabels;
    var b := a + ValueLen(e.left) + 1;
    ValueHasNoLabels(h, e.left, useAgg, a);
    ValueHasNoLabels(h, e.low, useAgg, b);
    ValueHasNoLabels(h, e.high, useAgg, b + ValueLen(e.low) + 2);
    ValueBetweenNoLabels(ValueCode(h, e.left, useAgg, a), ValueCode(h, e.low, useAgg, b),
                         ValueCode(h, e.high, useAgg, b + ValueLen(e.low) + 2));
  }

  lemma CaseHasNoLabels(h: Helpers, e: Expr, useAgg: bool, a: nat)
    requires e.Case?
    ensures NoLabels(ValueCodeOther(h, e, useAgg, a))
    decreases e, 0
  {
    hide ValueCode, ValueLen, WhensCode;
    var hasBase := e.base.TheExpr?;
    var b := a + (if hasBase then ValueLen(e.base.e) else 0);
    var c := b + WhensLen(e.whens, hasBase) + BoolInt(hasBase);
    if hasBase { ValueHasNoLabels(h, e.base.e, useAgg, a); }
    if e.otherwise.TheExpr? { ValueHasNoLabels(h, e.otherwise.e, useAgg, c); }
    WhensLabels(h, e.whens, hasBase, useAgg, b, a + ValueLen(e), -1, 0);
    CaseNoLabels(hasBase, if hasBase then ValueCode(h, e.base.e, useAgg, a) else [],
                 WhensCode(h, e.whens, hasBase, useAgg, b, a + ValueLen(e)),
                 if e.otherwise.TheExpr? then ValueCode(h, e.otherwise.e, useAgg, c) else [Ins(OpString, 0, 0)]);
  }

  lemma ArgsHaveNoLabels(h: Helpers, es: Exprs, useAgg: bool, a: nat)
    ensures NoLabels(ArgsCode(h, es, useAgg, a))
    decreases es
  {
    match es
    case Nil =>
    case Cons(e, tail) =>
      ValueHasNoLabels(h, e, useAgg, a);
      ArgsHaveNoLabels(h, tail, useAgg, a + ValueLen(e));
  }

  /** The only label in the WHEN branches is the end of the CASE. */
  lemma WhensLabels(h: Helpers, ws: Whens, hasBase: bool, useAgg: bool, a: nat, end: int, x: int, addr: int)
    requires x < 0
    ensures end >= 0 ==> NoLabels(WhensCode(h, ws, hasBase, useAgg, a, end))
    ensures Patch(WhensCode(h, ws, hasBase, useAgg, a, end), x, addr)
            == WhensCode(h, ws, hasBase, useAgg, a, if end == x then addr else end)
    decreases ws
  {
    hide ValueCode, ValueLen, Patch, WhensCode;
    match ws
    case Done =>
      WhensEnd(h, ws, hasBase, useAgg, a, end);
      WhensEnd(h, ws, hasBase, useAgg, a, if end == x then addr else end);
      PatchNothing([], x, addr);
    case When(c, r, rest) =>
      WhenCodeIs(h, useAgg, hasBase, ws, a, end);
      WhenCodeIs(h, useAgg, hasBase, ws, a, if end == x then addr else end);
      var t := a + ValueLen(c) + (if hasBase then 3 else 1);
      var next := t + ValueLen(r) + 1;
      ValueHasNoLabels(h, c, useAgg, a);
      ValueHasNoLabels(h, r, useAgg, t);
      WhensLabels(h, rest, hasBase, useAgg, next, end, x, addr);
      WhenLabels(ValueCode(h, c, useAgg, a), WhenTest(hasBase, next), ValueCode(h, r, useAgg, t),
                 WhensCode(h, rest, hasBase, useAgg, next, end), end, x, addr);
  }

  lemma WhenLabels(cond: seq<Op>, test: seq<Op>, result: seq<Op>, rest: seq<Op>, end: int, x: int, addr: int)
    requires x < 0 && NoLabels(cond) && NoLabels(test) && NoLabels(result)
    ensures end >= 0 && NoLabels(rest) ==> NoLabels(cond + test + result + [Ins(OpGoto, 0, end)] + rest)
    ensures Patch(cond + test + result + [Ins(OpGoto, 0, end)] + rest, x, addr)
            == cond + test + result + [Ins(OpGoto, 0, if end == x then addr else end)] + Patch(rest, x, addr)
  {
  }

  lemma JumpLabels(h: Helpers, e: Expr, sense: bool, dest: int, jumpIfNull: bool, useAgg: bool, a: nat, x: int,
                   addr: int)
    requires x < 0
    ensures Patch(JumpCode(h, e, sense, dest, jumpIfNull, useAgg, a), x, addr)
            == JumpCode(h, e, sense, if dest == x then addr else dest, jumpIfNull, useAgg, a)
    decreases e
  {
    hide Patch, TestCode, JumpLen, JumpCode;
    if e.And? || e.Or? {
      var b := a + JumpLen(e.left, e.Or?);
      var straight := e.Or? == sense;
      var d, n := if straight then dest else b + JumpLen(e.right, sense), if straight then jumpIfNull else !jumpIfNull;
      ConnectiveIs(h, e, sense, dest, jumpIfNull, useAgg, a);
      ConnectiveIs(h, e, sense, if dest == x then addr else dest, jumpIfNull, useAgg, a);
      JumpLabels(h, e.left, e.Or?, d, n, useAgg, a, x, addr);
      JumpLabels(h, e.right, sense, dest, jumpIfNull, useAgg, b, x, addr);
      PatchConcat(x, addr, JumpCode(h, e.left, e.Or?, d, n, useAgg, a),
                  JumpCode(h, e.right, sense, dest, jumpIfNull, useAgg, b));
    } else if e.Not? {
      NegationIs(h, e, sense, dest, jumpIfNull, useAgg, a);
      NegationIs(h, e, sense, if dest == x then addr else dest, jumpIfNull, useAgg, a);
      JumpLabels(h, e.left, !sense, dest, jumpIfNull, useAgg, a, x, addr);
    } else {
      TestIs(h, e, sense, dest, jumpIfNull, useAgg, a);
      TestIs(h, e, sense, if dest == x then addr else dest, jumpIfNull, useAgg, a);
      TestLabels(h, e, sense, dest, jumpIfNull, useAgg, a, x, addr);
    }
  }

  lemma TestLabels(h: Helpers, e: Expr, sense: bool, dest: int, jumpIfNull: bool, useAgg: bool, a: nat, x: int,
                   addr: int)
    requires x < 0 && !e.And? && !e.Or? && !e.Not?
    ensures Patch(TestCode(h, e, sense, dest, jumpIfNull, useAgg, a), x, addr)
            == TestCode(h, e, sense, if dest == x then addr else dest, jumpIfNull, useAgg, a)
  {
    hide ValueCode, ValueLen;
    if e.Comparison? {
      ValueHasNoLabels(h, e.left, useAgg, a);
      ValueHasNoLabels(h, e.right, useAgg, a + ValueLen(e.left));
    } else if e.IsNull? || e.NotNull? || e.In? {
      ValueHasNoLabels(h, e.left, useAgg, a);
    } else if e.Between? {
      var b := a + ValueLen(e.left) + 1;
      var d := b + ValueLen(e.low) + (if sense then 1 else 3);
      ValueHasNoLabels(h, e.left, useAgg, a);
      ValueHasNoLabels(h, e.low, useAgg, b);
      ValueHasNoLabels(h, e.high, useAgg, d);
      BetweenLabels(ValueCode(h, e.left, useAgg, a), ValueCode(h, e.low, useAgg, b), ValueCode(h, e.high, useAgg, d),
                    sense, dest, jumpIfNull, a, x, addr);
    } else {
      ValueHasNoLabels(h, e, useAgg, a);
    }
  }

  lemma BetweenLabels(left: seq<Op>, low: seq<Op>, high: seq<Op>, sense: bool, dest: int, jumpIfNull: bool, a: nat,
                      x: int, addr: int)
    requires x < 0 && NoLabels(left) && NoLabels(low) && NoLabels(high)
    ensures Patch(JumpBetweenCode(left, low, high, sense, dest, jumpIfNull, a), x, addr)
            == JumpBetweenCode(left, low, high, sense, if dest == x then addr else dest, jumpIfNull, a)
  {
    hide Patch, NoLabels;
    var head, d := left + [Ins(OpDup, 0, 0)] + low, a + |left| + 1 + |low|;
    var lower, upper := LowerTest(sense, dest, jumpIfNull, d, |high|), UpperTest(sense, dest, jumpIfNull);
    PatchConcat(x, addr, head + lower + high, upper);
    PatchConcat(x, addr, head + lower, high);
    PatchConcat(x, addr, head, lower);
    PatchNothing(high, x, addr);
    assert Patch(head, x, addr) == head by {
      PatchConcat(x, addr, left + [Ins(OpDup, 0, 0)], low);
      PatchConcat(x, addr, left, [Ins(OpDup, 0, 0)]);
      PatchNothing(left, x, addr);
      PatchNothing(low, x, addr);
      DupPatched(x, addr);
    }
    TestsPatched(sense, dest, jumpIfNull, d, |high|, x, addr);
  }

  lemma TestsPatched(sense: bool, dest: int, jumpIfNull: bool, d: nat, highLen: nat, x: int, addr: int)
    requires x < 0
    ensures Patch(LowerTest(sense, dest, jumpIfNull, d, highLen), x, addr)
            == LowerTest(sense, if dest == x then addr else dest, jumpIfNull, d, highLen)
    ensures Patch(UpperTest(sense, dest, jumpIfNull), x, addr)
            == UpperTest(sense, if dest == x then addr else dest, jumpIfNull)
  {
  }

  lemma DupPatched(x: int, addr: int)
    requires x < 0
    ensures Patch([Ins(OpDup, 0, 0)], x, addr) == [Ins(OpDup, 0, 0)]
  {
  }

  // The generator.

  /** What every generator method keeps: old instructions and labels are untouched, new labels
      are all resolved. */
  twostate predicate Extends(v: Vdbe, code: seq<Op>)
    reads v
  {
    && v.Valid()
    && v.aOp == old(v.aOp) + code
    && |v.aLabel| >= |old(v.aLabel)|
    && (forall i :: 0 <= i < |old(v.aLabel)| ==> v.aLabel[i] == old(v.aLabel)[i])
  }

  method Emit(v: Vdbe, opcode: Opcode, p1: int, p2: nat)
    requires v.Valid()
    modifies v`aOp
    ensures Extends(v, [Ins(opcode, p1, p2)])
  {
    var _ := v.AddOp(Ins(opcode, p1, p2));
  }

  /** Appends code that leaves the value of `e` on the stack. */
  method ExprCode(v: Vdbe, h: Helpers, useAgg: bool, e: Expr)
    requires v.Valid()
    modifies v
    ensures Extends(v, ValueCode(h, e, useAgg, |old(v.aOp)|))
    decreases e
  {
    hide ValueCodeOther;
    if IsLeaf(e) {
      var _ := v.AddOp(LeafOp(h, e, useAgg));
    } else if IsBinary(e) {
      BinaryValue(v, h, useAgg, e);
    } else if IsUnary(e) {
      ExprCode(v, h, useAgg, e.left);
      var _ := v.AddOp(UnaryOp(e));
    } else {
      OtherValue(v, h, useAgg, e);
    }
  }

  method BinaryValue(v: Vdbe, h: Helpers, useAgg: bool, e: Expr)
    requires v.Valid() && IsBinary(e)
    modifies v
    ensures Extends(v, ValueCode(h, e, useAgg, |old(v.aOp)|))
    decreases e, 0
  {
    hide ValueCode, ValueLen;
    ghost var start := v.aOp;
    ExprCode(v, h, useAgg, e.left);
    ExprCode(v, h, useAgg, e.right);
    var _ := v.AddOp(BinaryOp(e));
    BinaryCodeIs(h, e, useAgg, |start|);
    assert v.aOp == start + ValueCode(h, e, useAgg, |start|);
  }

  method OtherValue(v: Vdbe, h: Helpers, useAgg: bool, e: Expr)
    requires v.Valid() && !IsLeaf(e) && !IsBinary(e) && !IsUnary(e)
    modifies v
    ensures Extends(v, ValueCodeOther(h, e, useAgg, |old(v.aOp)|))
    decreases e, 2
  {
    hide ValueCode, ValueLen;
    if e.Shift? {
      ExprCode(v, h, useAgg, e.right);
      ExprCode(v, h, useAgg, e.left);
      Emit(v, OpShift(e.shiftOp), 0, 0);
    } else if e.IsNull? || e.NotNull? {
      NullTestValue(v, h, useAgg, e);
    } else if e.Function? {
      FunctionValue(v, h, useAgg, e);
    } else if e.In? {
      InValue(v, h, useAgg, e);
    } else if e.Between? {
      BetweenValue(v, h, useAgg, e);
    } else if e.Case? {
      CaseValue(v, h, useAgg, e);
    } else {
      ExprCode(v, h, useAgg, e.left);
    }
  }

  method NullTestValue(v: Vdbe, h: Helpers, useAgg: bool, e: Expr)
    requires v.Valid() && (e.IsNull? || e.NotNull?)
    modifies v
    ensures Extends(v, ValueCodeOther(h, e, useAgg, |old(v.aOp)|))
    decreases e, 0
  {
    hide ValueCode, ValueLen;
    ghost var start := v.aOp;
    Emit(v, OpInteger, 1, 0);
    ExprCode(v, h, useAgg, e.left);
    ghost var left := ValueCode(h, e.left, useAgg, |start| + 1);
    assert v.aOp == start + ([Ins(OpInteger, 1, 0)] + left);
    var dest := |v.aOp| + 2;
    Emit(v, if e.IsNull? then OpIsNull else OpNotNull, 1, dest);
    Emit(v, OpAddImm, -1, 0);
  }

  method FunctionValue(v: Vdbe, h: Helpers, useAgg: bool, e: Expr)
    requires v.Valid() && e.Function?
    modifies v
    ensures Extends(v, ValueCodeOther(h, e, useAgg, |old(v.aOp)|))
    decreases e, 0
  {
    hide ValueCode, ValueLen, ArgsCode;
    ArgsValue(v, h, useAgg, e.args);
    var _ := v.AddOp(Op(OpFunction, Count(e.args), 0, FunctionP3(e.def)));
  }

  lemma ArgsNext(h: Helpers, es: Exprs, useAgg: bool, a: nat)
    ensures ArgsCode(h, es, useAgg, a)
            == if es.Nil? then []
               else ValueCode(h, es.head, useAgg, a) + ArgsCode(h, es.tail, useAgg, a + ValueLen(es.head))
  {
    hide ValueCode, ValueLen;
  }

  method ArgsValue(v: Vdbe, h: Helpers, useAgg: bool, args: Exprs)
    requires v.Valid()
    modifies v
    ensures Extends(v, ArgsCode(h, args, useAgg, |old(v.aOp)|))
    decreases args
  {
    hide ValueCode, ValueLen, ArgsCode;
    ghost var start := v.aOp;
    ghost var done := [];
    var es := args;
    while es.Cons?
      invariant es == args || es < args
      invariant Extends(v, done)
      invariant ArgsCode(h, args, useAgg, |start|) == done + ArgsCode(h, es, useAgg, |start| + |done|)
      decreases es
    {
      label L:
      ExprCode(v, h, useAgg, es.head);
      ghost var code := ValueCode(h, es.head, useAgg, |start| + |done|);
      ArgsNext(h, es, useAgg, |start| + |done|);
      assert done + (code + ArgsCode(h, es.tail, useAgg, |start| + |done| + |code|))
          == done + code + ArgsCode(h, es.tail, useAgg, |start| + |done| + |code|);
      assert start + done + code == start + (done + code);
      done := done + code;
      es := es.tail;
    }
    ArgsNext(h, es, useAgg, |start| + |done|);
    assert done + [] == done;
  }

  method InValue(v: Vdbe, h: Helpers, useAgg: bool, e: Expr)
    requires v.Valid() && e.In?
    modifies v
    ensures Extends(v, ValueCodeOther(h, e, useAgg, |old(v.aOp)|))
    decreases e, 0
  {
    hide ValueCode, ValueLen, InTail;
    Emit(v, OpInteger, 1, 0);
    ExprCode(v, h, useAgg, e.left);
    EmitInTail(v, e.rhs, e.fromSelect);
  }

  method EmitInTail(v: Vdbe, rhs: int, fromSelect: bool)
    requires v.Valid()
    modifies v`aOp
    ensures Extends(v, InTail(rhs, fromSelect, |old(v.aOp)|))
  {
    var addr := |v.aOp|;
    Emit(v, OpNotNull, -1, addr + 4);
    Emit(v, OpPop, 1, 0);
    Emit(v, OpString, 0, 0);
    Emit(v, OpGoto, 0, addr + 6);
    Emit(v, if fromSelect then OpFound else OpSetFound, rhs, addr + 6);
    Emit(v, OpAddImm, -1, 0);
  }

  method BetweenValue(v: Vdbe, h: Helpers, useAgg: bool, e: Expr)
    requires v.Valid() && e.Between?
    modifies v
    ensures Extends(v, ValueCodeOther(h, e, useAgg, |old(v.aOp)|))
    decreases e, 0
  {
    hide ValueCode, ValueLen, ValueCodeOther, Vdbe.Valid;
    ghost var start := v.aOp;
    ghost var b := |start| + ValueLen(e.left) + 1;
    ghost var l, lo := ValueCode(h, e.left, useAgg, |start|), ValueCode(h, e.low, useAgg, b);
    ghost var hi := ValueCode(h, e.high, useAgg, b + ValueLen(e.low) + 2);
    ExprCode(v, h, useAgg, e.left);
    Emit(v, OpDup, 0, 0);
    ExprCode(v, h, useAgg, e.low);
    Emit(v, OpCompare(Ge, false), 0, 0);
    Emit(v, OpPull, 1, 0);
    BoundEmitted(start, l + [Ins(OpDup, 0, 0)] + lo, Ins(OpCompare(Ge, false), 0, 0), Ins(OpPull, 1, 0));
    ghost var head := l + [Ins(OpDup, 0, 0)] + lo + [Ins(OpCompare(Ge, false), 0, 0), Ins(OpPull, 1, 0)];
    assert v.aOp == start + head by {
      assert start + l + [Ins(OpDup, 0, 0)] + lo == start + (l + [Ins(OpDup, 0, 0)] + lo);
    }
    ExprCode(v, h, useAgg, e.high);
    Emit(v, OpCompare(Le, false), 0, 0);
    Emit(v, OpAnd, 0, 0);
    assert start + head + hi == start + (head + hi);
    BoundEmitted(start, head + hi, Ins(OpCompare(Le, false), 0, 0), Ins(OpAnd, 0, 0));
    ValueBetweenIs(h, e, useAgg, |start|);
  }

  lemma BoundEmitted(start: seq<Op>, code: seq<Op>, x: Op, y: Op)
    ensures start + code + [x] + [y] == start + (code + [x, y])
  {
  }

  
  method CaseValue(v: Vdbe, h: Helpers, useAgg: bool, e: Expr)
    requires v.Valid() && e.Case?
    modifies v
    ensures Extends(v, ValueCodeOther(h, e, useAgg, |old(v.aOp)|))
    decreases e, 1
  {
    hide ValueCode, ValueLen, WhensCode, WhensLen, Patch;
    ghost var start, labels := v.aOp, v.aLabel;
    var end := v.MakeLabel();
    ghost var base := [];
    if e.base.TheExpr? {
      ExprCode(v, h, useAgg, e.base.e);
      base := ValueCode(h, e.base.e, useAgg, |start|);
    }
    assert v.aOp == start + base;
    CaseWhens(v, h, useAgg, e, end);
    ghost var whens := WhensCode(h, e.whens, e.base.TheExpr?, useAgg, |start| + |base|, end);
    ghost var tail := CaseTail(v, h, useAgg, e);
    assert v.aOp == start + base + whens + tail;
    v.ResolveLabel(end);
    CasePatched(start, labels, h, e, useAgg, base, whens, tail, end, |v.aOp|);
  }

  method CaseTail(v: Vdbe, h: Helpers, useAgg: bool, e: Expr) returns (ghost tail: seq<Op>)
    requires v.Valid() && e.Case?
    modifies v
    ensures Extends(v, tail)
    ensures tail == (if e.base.TheExpr? then [Ins(OpPop, 1, 0)] else [])
                    + (if e.otherwise.TheExpr?
                       then ValueCode(h, e.otherwise.e, useAgg, |old(v.aOp)| + BoolInt(e.base.TheExpr?))
                       else [Ins(OpString, 0, 0)])
    decreases e, 0
  {
    hide ValueCode, ValueLen;
    ghost var start := v.aOp;
    if e.base.TheExpr? {
      Emit(v, OpPop, 1, 0);
    }
    ghost var pop := if e.base.TheExpr? then [Ins(OpPop, 1, 0)] else [];
    assert v.aOp == start + pop;
    if e.otherwise.TheExpr? {
      ExprCode(v, h, useAgg, e.otherwise.e);
      tail := pop + ValueCode(h, e.otherwise.e, useAgg, |start| + BoolInt(e.base.TheExpr?));
    } else {
      Emit(v, OpString, 0, 0);
      tail := pop + [Ins(OpString, 0, 0)];
    }
  }

  /** Instructions emitted before a label was made do not mention it. */
  lemma PatchFresh(code: seq<Op>, n: int, x: int, addr: int)
    requires forall i :: 0 <= i < |code| ==> code[i].p2 >= -n
    requires x < -n
    ensures Patch(code, x, addr) == code
  {
  }

  lemma CasePatched(start: seq<Op>, labels: seq<int>, h: Helpers, e: Expr, useAgg: bool,
                    base: seq<Op>, whens: seq<Op>, tail: seq<Op>, end: int, addr: nat)
    requires e.Case? && end == -|labels| - 1 && forall i :: 0 <= i < |start| ==> start[i].p2 >= -|labels|
    requires base == if e.base.TheExpr? then ValueCode(h, e.base.e, useAgg, |start|) else []
    requires whens == WhensCode(h, e.whens, e.base.TheExpr?, useAgg, |start| + |base|, end)
    requires tail == (if e.base.TheExpr? then [Ins(OpPop, 1, 0)] else [])
                     + (if e.otherwise.TheExpr?
                        then ValueCode(h, e.otherwise.e, useAgg,
                                       |start| + |base| + |whens|
                                         + BoolInt(e.base.TheExpr?)) else [Ins(OpString, 0, 0)])
    requires addr == |start| + |base| + |whens| + |tail|
    ensures Patch(start + base + whens + tail, end, addr) == start + ValueCodeOther(h, e, useAgg, |start|)
  {
    hide ValueCode, WhensCode, Patch, NoLabels;
    var whens' := WhensCode(h, e.whens, e.base.TheExpr?, useAgg, |start| + |base|, addr);
    PatchConcat(end, addr, start + base + whens, tail);
    PatchConcat(end, addr, start + base, whens);
    PatchConcat(end, addr, start, base);
    PatchFresh(start, |labels|, end, addr);
    CaseEndsPatched(h, e, useAgg, |start|, |whens|, base, tail, end, addr);
    WhensLabels(h, e.whens, e.base.TheExpr?, useAgg, |start| + |base|, end, end, addr);
    assert start + base + whens' + tail == start + (base + whens' + tail);
    CaseCodeIs(h, e, useAgg, |start|, base, whens', tail, addr);
  }

  lemma CaseCodeIs(h: Helpers, e: Expr, useAgg: bool, a: nat, base: seq<Op>, whens: seq<Op>, tail: seq<Op>, end: nat)
    requires e.Case? && base == if e.base.TheExpr? then ValueCode(h, e.base.e, useAgg, a) else []
    requires whens == WhensCode(h, e.whens, e.base.TheExpr?, useAgg, a + |base|, end)
    requires tail == (if e.base.TheExpr? then [Ins(OpPop, 1, 0)] else [])
                     + (if e.otherwise.TheExpr?
                        then ValueCode(h, e.otherwise.e, useAgg, a + |base| + |whens| + BoolInt(e.base.TheExpr?))
                        else [Ins(OpString, 0, 0)])
    requires end == a + |base| + |whens| + |tail|
    ensures ValueCodeOther(h, e, useAgg, a) == base + whens + tail
  {
    hide ValueCode, WhensCode, WhensLen;
    assert |base + whens + tail| == ValueLen(e);
  }

  lemma CaseEndsPatched(h: Helpers, e: Expr, useAgg: bool, a: nat, n: nat, base: seq<Op>, tail: seq<Op>, x: int,
                        addr: int)
    requires e.Case? && x < 0
    requires base == if e.base.TheExpr? then ValueCode(h, e.base.e, useAgg, a) else []
    requires tail == (if e.base.TheExpr? then [Ins(OpPop, 1, 0)] else [])
                     + (if e.otherwise.TheExpr?
                        then ValueCode(h, e.otherwise.e, useAgg, a + |base| + n + BoolInt(e.base.TheExpr?))
                        else [Ins(OpString, 0, 0)])
    ensures Patch(base, x, addr) == base && Patch(tail, x, addr) == tail
  {
    hide ValueCode, Patch;
    if e.base.TheExpr? {
      ValueHasNoLabels(h, e.base.e, useAgg, a);
    }
    if e.otherwise.TheExpr? {
      ValueHasNoLabels(h, e.otherwise.e, useAgg, a + |base| + n + BoolInt(e.base.TheExpr?));
    }
    PatchNothing(base, x, addr);
    PatchNothing(tail, x, addr);
  }

  method CaseWhens(v: Vdbe, h: Helpers, useAgg: bool, e: Expr, end: int)
    requires v.Valid() && e.Case? && v.Open(end)
    modifies v
    ensures Extends(v, WhensCode(h, e.whens, e.base.TheExpr?, useAgg, |old(v.aOp)|, end))
    decreases e, 0
  {
    hide ValueCode, ValueLen, WhensCode;
    ghost var start, labels := v.aOp, v.aLabel;
    ghost var done := [];
    var hasBase := e.base.TheExpr?;
    var ws := e.whens;
    while ws.When?
      invariant ws == e.whens || ws < e.whens
      invariant v.Valid() && v.Open(end) && v.aOp == start + done
      invariant |v.aLabel| >= |labels| && forall i :: 0 <= i < |labels| ==> v.aLabel[i] == labels[i]
      invariant WhensCode(h, e.whens, hasBase, useAgg, |start|, end)
                == done + WhensCode(h, ws, hasBase, useAgg, |start| + |done|, end)
      decreases ws
    {
      ghost var code := CodeWhen(v, h, useAgg, hasBase, ws, end);
      assert done + (code + WhensCode(h, ws.rest, hasBase, useAgg, |start| + |done| + |code|, end))
          == done + code + WhensCode(h, ws.rest, hasBase, useAgg, |start| + |done| + |code|, end);
      assert start + done + code == start + (done + code);
      done := done + code;
      ws := ws.rest;
    }
    WhensEnd(h, ws, hasBase, useAgg, |start| + |done|, end);
    assert done + [] == done;
  }

  /** One WHEN: its test is emitted with P2 zero and patched once the address behind its result
      is known. */
  method CodeWhen(v: Vdbe, h: Helpers, useAgg: bool, hasBase: bool, ws: Whens, end: int) returns (ghost code: seq<Op>)
    requires v.Valid() && ws.When? && v.Open(end)
    modifies v
    ensures Extends(v, code)
    ensures WhensCode(h, ws, hasBase, useAgg, |old(v.aOp)|, end)
         == code + WhensCode(h, ws.rest, hasBase, useAgg, |old(v.aOp)| + |code|, end)
    decreases ws
  {
    hide ValueCode, ValueLen, WhensLen, WhensCode;
    ghost var start := v.aOp;
    ExprCode(v, h, useAgg, ws.cond);
    ghost var cond := ValueCode(h, ws.cond, useAgg, |start|);
    var jump := EmitWhenTest(v, hasBase);
    ghost var head := start + cond + WhenTest(hasBase, 0);
    assert v.aOp == head;
    ExprCode(v, h, useAgg, ws.result);
    ghost var result := ValueCode(h, ws.result, useAgg, |head|);
    EmitTo(v, OpGoto, 0, end);
    var addr := |v.aOp|;
    assert v.aOp == head + (result + [Ins(OpGoto, 0, end)]);
    v.ChangeP2(jump, addr);
    WhenPatched(hasBase, start + cond, result + [Ins(OpGoto, 0, end)], addr);
    code := cond + WhenTest(hasBase, addr) + result + [Ins(OpGoto, 0, end)];
    assert v.aOp == start + code;
    WhenCodeIs(h, useAgg, hasBase, ws, |start|, end);
  }

  method EmitWhenTest(v: Vdbe, hasBase: bool) returns (jump: nat)
    requires v.Valid()
    modifies v`aOp
    ensures Extends(v, WhenTest(hasBase, 0)) && jump == |old(v.aOp)| + BoolInt(hasBase)
  {
    if hasBase {
      Emit(v, OpDup, 1, 1);
      jump := v.AddOp(Ins(OpCompare(Ne, false), 1, 0));
      Emit(v, OpPop, 1, 0);
    } else {
      jump := v.AddOp(Ins(OpIfNot, 1, 0));
    }
  }

  lemma WhenPatched(hasBase: bool, before: seq<Op>, after: seq<Op>, addr: nat)
    ensures var code := before + WhenTest(hasBase, 0) + after;
            var i := |before| + BoolInt(hasBase);
            code[i := code[i].(p2 := addr)] == before + WhenTest(hasBase, addr) + after
  {
  }

  // Jumps: `dest` is an address or a label not yet placed.

  method ExprIfTrue(v: Vdbe, h: Helpers, useAgg: bool, e: Expr, dest: int, jumpIfNull: bool)
    requires v.Valid() && (dest < 0 ==> v.Open(dest))
    modifies v
    ensures Extends(v, JumpCode(h, e, true, dest, jumpIfNull, useAgg, |old(v.aOp)|))
    decreases e, 2
  {
    hide ValueCode, ValueLen, TestCode, JumpCode, JumpLen;
    if e.And? {
      ghost var start, labels := v.aOp, v.aLabel;
      var d2 := v.MakeLabel();
      ExprIfFalse(v, h, useAgg, e.left, d2, !jumpIfNull);
      ExprIfTrue(v, h, useAgg, e.right, dest, jumpIfNull);
      v.ResolveLabel(d2);
      SkipPatched(start, labels, h, e, true, dest, jumpIfNull, useAgg, d2);
    } else if e.Or? {
      ConnectiveIs(h, e, true, dest, jumpIfNull, useAgg, |v.aOp|);
      ExprIfTrue(v, h, useAgg, e.left, dest, jumpIfNull);
      ExprIfTrue(v, h, useAgg, e.right, dest, jumpIfNull);
    } else if e.Not? {
      NegationIs(h, e, true, dest, jumpIfNull, useAgg, |v.aOp|);
      ExprIfFalse(v, h, useAgg, e.left, dest, jumpIfNull);
    } else {
      TestIs(h, e, true, dest, jumpIfNull, useAgg, |v.aOp|);
      TestIfTrue(v, h, useAgg, e, dest, jumpIfNull);
    }
  }

  method ExprIfFalse(v: Vdbe, h: Helpers, useAgg: bool, e: Expr, dest: int, jumpIfNull: bool)
    requires v.Valid() && (dest < 0 ==> v.Open(dest))
    modifies v
    ensures Extends(v, JumpCode(h, e, false, dest, jumpIfNull, useAgg, |old(v.aOp)|))
    decreases e, 2
  {
    hide ValueCode, ValueLen, TestCode, JumpCode, JumpLen;
    if e.And? {
      ConnectiveIs(h, e, false, dest, jumpIfNull, useAgg, |v.aOp|);
      ExprIfFalse(v, h, useAgg, e.left, dest, jumpIfNull);
      ExprIfFalse(v, h, useAgg, e.right, dest, jumpIfNull);
    } else if e.Or? {
      ghost var start, labels := v.aOp, v.aLabel;
      var d2 := v.MakeLabel();
      ExprIfTrue(v, h, useAgg, e.left, d2, !jumpIfNull);
      ExprIfFalse(v, h, useAgg, e.right, dest, jumpIfNull);
      v.ResolveLabel(d2);
      SkipPatched(start, labels, h, e, false, dest, jumpIfNull, useAgg, d2);
    } else if e.Not? {
      NegationIs(h, e, false, dest, jumpIfNull, useAgg, |v.aOp|);
      ExprIfTrue(v, h, useAgg, e.left, dest, jumpIfNull);
    } else {
      TestIs(h, e, false, dest, jumpIfNull, useAgg, |v.aOp|);
      TestIfFalse(v, h, useAgg, e, dest, jumpIfNull);
    }
  }

  /** Resolving the label that skips the right operand of a connective. */
  lemma SkipPatched(start: seq<Op>, labels: seq<int>, h: Helpers, e: Expr, sense: bool, dest: int, jumpIfNull: bool,
                    useAgg: bool, d2: int)
    requires (if sense then e.And? else e.Or?) && dest >= -|labels|
    requires d2 == -|labels| - 1 && forall i :: 0 <= i < |start| ==> start[i].p2 >= -|labels|
    ensures var a := |start|;
            var b := a + JumpLen(e.left, !sense);
            Patch(start + JumpCode(h, e.left, !sense, d2, !jumpIfNull, useAgg, a)
                  + JumpCode(h, e.right, sense, dest, jumpIfNull, useAgg, b), d2, b + JumpLen(e.right, sense))
            == start + JumpCode(h, e, sense, dest, jumpIfNull, useAgg, a)
  {
    hide Patch, TestCode, ValueCode, JumpLen, JumpCode;
    var a := |start|;
    var b := a + JumpLen(e.left, !sense);
    var addr := b + JumpLen(e.right, sense);
    var x, y := JumpCode(h, e.left, !sense, d2, !jumpIfNull, useAgg, a),
                JumpCode(h, e.right, sense, dest, jumpIfNull, useAgg, b);
    PatchConcat(d2, addr, start + x, y);
    PatchConcat(d2, addr, start, x);
    PatchFresh(start, |labels|, d2, addr);
    ConnectiveIs(h, e, sense, dest, jumpIfNull, useAgg, a);
    JumpLabels(h, e.left, !sense, d2, !jumpIfNull, useAgg, a, d2, addr);
    JumpLabels(h, e.right, sense, dest, jumpIfNull, useAgg, b, d2, addr);
    assert start + JumpCode(h, e.left, !sense, addr, !jumpIfNull, useAgg, a) + y
        == start + (JumpCode(h, e.left, !sense, addr, !jumpIfNull, useAgg, a) + y);
  }

  method EmitTo(v: Vdbe, opcode: Opcode, p1: int, dest: int)
    requires v.Valid() && (dest < 0 ==> v.Open(dest))
    modifies v`aOp
    ensures Extends(v, [Ins(opcode, p1, dest)])
  {
    var _ := v.AddOp(Ins(opcode, p1, dest));
  }

  method TestIfTrue(v: Vdbe, h: Helpers, useAgg: bool, e: Expr, dest: int, jumpIfNull: bool)
    requires v.Valid() && (dest < 0 ==> v.Open(dest)) && !e.And? && !e.Or? && !e.Not?
    modifies v
    ensures Extends(v, TestCode(h, e, true, dest, jumpIfNull, useAgg, |old(v.aOp)|))
    decreases e, 1
  {
    hide ValueCode, ValueLen, TestCode;
    ghost var start := v.aOp;
    if e.Comparison? {
      ExprCode(v, h, useAgg, e.left);
      ExprCode(v, h, useAgg, e.right);
      EmitTo(v, OpCompare(e.rel, TypeOf(e) == TextType), BoolInt(jumpIfNull), dest);
      CompareTestIs(h, e, true, dest, jumpIfNull, useAgg, |start|);
      assert v.aOp == start + TestCode(h, e, true, dest, jumpIfNull, useAgg, |start|);
    } else if e.IsNull? || e.NotNull? {
      ExprCode(v, h, useAgg, e.left);
      EmitTo(v, if e.IsNull? then OpIsNull else OpNotNull, 1, dest);
      NullTestIs(h, e, true, dest, jumpIfNull, useAgg, |start|);
      assert v.aOp == start + TestCode(h, e, true, dest, jumpIfNull, useAgg, |start|);
    } else if e.In? {
      ExprCode(v, h, useAgg, e.left);
      InTest(v, e.rhs, if e.fromSelect then OpFound else OpSetFound, dest, jumpIfNull);
      InTestIs(h, e, true, dest, jumpIfNull, useAgg, |start|);
      assert v.aOp == start + TestCode(h, e, true, dest, jumpIfNull, useAgg, |start|);
    } else if e.Between? {
      BetweenIfTrue(v, h, useAgg, e, dest, jumpIfNull);
    } else {
      ExprCode(v, h, useAgg, e);
      EmitTo(v, OpIf, BoolInt(jumpIfNull), dest);
      PlainTestIs(h, e, true, dest, jumpIfNull, useAgg, |start|);
      assert v.aOp == start + TestCode(h, e, true, dest, jumpIfNull, useAgg, |start|);
    }
  }

  method TestIfFalse(v: Vdbe, h: Helpers, useAgg: bool, e: Expr, dest: int, jumpIfNull: bool)
    requires v.Valid() && (dest < 0 ==> v.Open(dest)) && !e.And? && !e.Or? && !e.Not?
    modifies v
    ensures Extends(v, TestCode(h, e, false, dest, jumpIfNull, useAgg, |old(v.aOp)|))
    decreases e, 1
  {
    hide ValueCode, ValueLen, TestCode;
    ghost var start := v.aOp;
    if e.Comparison? {
      ExprCode(v, h, useAgg, e.left);
      ExprCode(v, h, useAgg, e.right);
      EmitTo(v, OpCompare(Negation(e.rel), TypeOf(e) == TextType), BoolInt(jumpIfNull), dest);
      CompareTestIs(h, e, false, dest, jumpIfNull, useAgg, |start|);
      assert v.aOp == start + TestCode(h, e, false, dest, jumpIfNull, useAgg, |start|);
    } else if e.IsNull? || e.NotNull? {
      ExprCode(v, h, useAgg, e.left);
      EmitTo(v, if e.IsNull? then OpNotNull else OpIsNull, 1, dest);
      NullTestIs(h, e, false, dest, jumpIfNull, useAgg, |start|);
      assert v.aOp == start + TestCode(h, e, false, dest, jumpIfNull, useAgg, |start|);
    } else if e.In? {
      ExprCode(v, h, useAgg, e.left);
      InTest(v, e.rhs, if e.fromSelect then OpNotFound else OpSetNotFound, dest, jumpIfNull);
      InTestIs(h, e, false, dest, jumpIfNull, useAgg, |start|);
      assert v.aOp == start + TestCode(h, e, false, dest, jumpIfNull, useAgg, |start|);
    } else if e.Between? {
      BetweenIfFalse(v, h, useAgg, e, dest, jumpIfNull);
    } else {
      ExprCode(v, h, useAgg, e);
      EmitTo(v, OpIfNot, BoolInt(jumpIfNull), dest);
      PlainTestIs(h, e, false, dest, jumpIfNull, useAgg, |start|);
      assert v.aOp == start + TestCode(h, e, false, dest, jumpIfNull, useAgg, |start|);
    }
  }

  method InTest(v: Vdbe, rhs: int, opcode: Opcode, dest: int, jumpIfNull: bool)
    requires v.Valid() && (dest < 0 ==> v.Open(dest))
    modifies v`aOp
    ensures var a := |old(v.aOp)|;
            Extends(v, [Ins(OpNotNull, -1, a + 3), Ins(OpPop, 1, 0), Ins(OpGoto, 0, if jumpIfNull then dest else a + 4),
                        Ins(opcode, rhs, dest)])
  {
    var addr := |v.aOp|;
    Emit(v, OpNotNull, -1, addr + 3);
    Emit(v, OpPop, 1, 0);
    EmitTo(v, OpGoto, 0, if jumpIfNull then dest else addr + 4);
    EmitTo(v, opcode, rhs, dest);
  }

  /** The lower test is emitted with P2 zero and patched to the final Pop. */
  method BetweenIfTrue(v: Vdbe, h: Helpers, useAgg: bool, e: Expr, dest: int, jumpIfNull: bool)
    requires v.Valid() && (dest < 0 ==> v.Open(dest)) && e.Between?
    modifies v
    ensures Extends(v, TestCode(h, e, true, dest, jumpIfNull, useAgg, |old(v.aOp)|))
    decreases e, 0
  {
    hide ValueCode, ValueLen, TestCode, LowerTest, UpperTest;
    ghost var start := v.aOp;
    ExprCode(v, h, useAgg, e.left);
    Emit(v, OpDup, 0, 0);
    ExprCode(v, h, useAgg, e.low);
    ghost var before := v.aOp;
    BoundsIfTrue(v, h, useAgg, e.high, dest, jumpIfNull);
    BetweenTestIs(h, e, true, dest, jumpIfNull, useAgg, |start|);
    ghost var low := ValueCode(h, e.low, useAgg, |start| + ValueLen(e.left) + 1);
    ghost var head := ValueCode(h, e.left, useAgg, |start|) + [Ins(OpDup, 0, 0)] + low;
    assert before == start + head;
    ghost var lower, upper := LowerTest(true, dest, jumpIfNull, |before|, ValueLen(e.high)),
                              UpperTest(true, dest, jumpIfNull);
    ghost var high := ValueCode(h, e.high, useAgg, |before| + 1);
    FourPieces(start, head, lower, high, upper);
    assert before + (lower + high + upper) == start + head + lower + high + upper;
  }

  method BoundsIfTrue(v: Vdbe, h: Helpers, useAgg: bool, high: Expr, dest: int, jumpIfNull: bool)
    requires v.Valid() && (dest < 0 ==> v.Open(dest))
    modifies v
    ensures var a := |old(v.aOp)|;
            Extends(v, LowerTest(true, dest, jumpIfNull, a, ValueLen(high)) + ValueCode(h, high, useAgg, a + 1)
                       + UpperTest(true, dest, jumpIfNull))
    decreases high, 3
  {
    hide ValueCode, ValueLen, Vdbe.Valid;
    ghost var before := v.aOp;
    ghost var code := ValueCode(h, high, useAgg, |before| + 1);
    ghost var first, test := Ins(OpCompare(Lt, false), BoolInt(!jumpIfNull), 0),
                             Ins(OpCompare(Le, false), BoolInt(jumpIfNull), dest);
    var addr := v.AddOp(Ins(OpCompare(Lt, false), BoolInt(!jumpIfNull), 0));
    ExprCode(v, h, useAgg, high);
    EmitTo(v, OpCompare(Le, false), BoolInt(jumpIfNull), dest);
    Emit(v, OpInteger, 0, 0);
    PatchedFirst(before, first, code, [test], [Ins(OpInteger, 0, 0)], [Ins(OpPop, 1, 0)], |before| + |code| + 3);
    assert v.aOp == before + [first] + code + [test] + [Ins(OpInteger, 0, 0)];
    v.ChangeP2(addr, |v.aOp|);
    Emit(v, OpPop, 1, 0);
  }

  lemma PatchedFirst(s: seq<Op>, o: Op, a: seq<Op>, b: seq<Op>, c: seq<Op>, d: seq<Op>, p2: int)
    ensures var p := s + [o] + a + b + c;
            && p[|s|] == o
            && p[|s| := o.(p2 := p2)] + d == s + ([o.(p2 := p2)] + a + (b + c + d))
  {
  }

  method BetweenIfFalse(v: Vdbe, h: Helpers, useAgg: bool, e: Expr, dest: int, jumpIfNull: bool)
    requires v.Valid() && (dest < 0 ==> v.Open(dest)) && e.Between?
    modifies v
    ensures Extends(v, TestCode(h, e, false, dest, jumpIfNull, useAgg, |old(v.aOp)|))
    decreases e, 0
  {
    hide ValueCode, ValueLen, TestCode, LowerTest, UpperTest;
    ghost var start := v.aOp;
    ExprCode(v, h, useAgg, e.left);
    Emit(v, OpDup, 0, 0);
    ExprCode(v, h, useAgg, e.low);
    ghost var before := v.aOp;
    LowerIfFalse(v, dest, jumpIfNull, ValueLen(e.high));
    ExprCode(v, h, useAgg, e.high);
    UpperIfFalse(v, dest, jumpIfNull);
    BetweenTestIs(h, e, false, dest, jumpIfNull, useAgg, |start|);
    ghost var low := ValueCode(h, e.low, useAgg, |start| + ValueLen(e.left) + 1);
    ghost var head := ValueCode(h, e.left, useAgg, |start|) + [Ins(OpDup, 0, 0)] + low;
    assert before == start + head;
    FourPieces(start, head, LowerTest(false, dest, jumpIfNull, |before|, ValueLen(e.high)),
               ValueCode(h, e.high, useAgg, |before| + 3), UpperTest(false, dest, jumpIfNull));
  }

  lemma FourPieces(start: seq<Op>, a: seq<Op>, b: seq<Op>, c: seq<Op>, d: seq<Op>)
    ensures start + a + b + c + d == start + (a + b + c + d)
  {
  }

  method LowerIfFalse(v: Vdbe, dest: int, jumpIfNull: bool, ghost highLen: nat)
    requires v.Valid() && (dest < 0 ==> v.Open(dest))
    modifies v`aOp
    ensures Extends(v, LowerTest(false, dest, jumpIfNull, |old(v.aOp)|, highLen))
  {
    var addr := |v.aOp|;
    Emit(v, OpCompare(Ge, false), BoolInt(!jumpIfNull), addr + 3);
    Emit(v, OpPop, 1, 0);
    EmitTo(v, OpGoto, 0, dest);
  }

  method UpperIfFalse(v: Vdbe, dest: int, jumpIfNull: bool)
    requires v.Valid() && (dest < 0 ==> v.Open(dest))
    modifies v`aOp
    ensures Extends(v, UpperTest(false, dest, jumpIfNull))
  {
    EmitTo(v, OpCompare(Gt, false), BoolInt(jumpIfNull), dest);
  }
}
