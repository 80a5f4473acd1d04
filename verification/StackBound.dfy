/** Generated expression code only jumps forward, so it terminates, and the operand stack is
    never higher than the number of instructions passed. */
module StackBound {
  import opened Values
  import opened Expressions
  import opened Machine
  import opened Layout
  import opened Fragments
  import opened Builder
  import opened ExprGenerator
  import opened ExprCorrect

  predicate IsJump(op: Op) {
    match op.opcode
    case OpGoto => true
    case OpIf => true
    case OpIfNot => true
    case OpIsNull => true
    case OpNotNull => true
    case OpFound => true
    case OpNotFound => true
    case OpSetFound => true
    case OpSetNotFound => true
    case OpCompare(_, _) => op.p2 != 0
    case _ => false
  }

  /** Placed at `a`, the code leaves cursors, memory and results alone and jumps only forward. */
  ghost predicate Forward(code: seq<Op>, a: int) {
    forall i :: 0 <= i < |code| ==> ForwardOp(code[i], a + i)
  }

  predicate ForwardOp(op: Op, at: int) { Ordinary(op) && (IsJump(op) ==> op.p2 > at) }

  /** Not one of the instructions that touch cursors, memory cells or results. */
  predicate Ordinary(op: Op) {
    op.opcode !in {OpHalt, OpRewind, OpNext, OpNullRow, OpCallback, OpMemStore}
  }

  /** By how much an instruction changes the height of the stack, whether it jumps or not. */
  function Effect(op: Op): int {
    match op.opcode
    case OpGoto => 0
    case OpPop => -op.p1
    case OpPull => 0
    case OpConcat => 1 - op.p1
    case OpFunction => 1 - op.p1
    case OpArith(_) => -1
    case OpShift(_) => -1
    case OpAnd => -1
    case OpOr => -1
    case OpCompare(_, _) => if op.p2 != 0 then -2 else -1
    case OpAddImm => 0
    case OpNegative => 0
    case OpNot => 0
    case OpBitNot => 0
    case OpIf => -1
    case OpIfNot => -1
    case OpIsNull => if op.p1 > 0 then -op.p1 else 0
    case OpNotNull => if op.p1 > 0 then -op.p1 else 0
    case OpFound => -1
    case OpNotFound => -1
    case OpSetFound => -1
    case OpSetNotFound => -1
    case _ => 1
  }

  /** What a step does to the program counter, the height and everything but the stack. */
  ghost predicate Stepped(op: Op, st: State, st': State)
    requires st.Running? && st'.Running?
  {
    && |st'.stack| == |st.stack| + Effect(op)
    && ((op.opcode != OpGoto && st'.pc == st.pc + 1) || (IsJump(op) && st'.pc == op.p2))
    && st'.cursors == st.cursors && st'.mem == st.mem && st'.out == st.out
  }

  lemma StepEffect(prog: seq<Op>, w: World, st: State)
    requires st.Running? && 0 <= st.pc < |prog| && Ordinary(prog[st.pc]) && Step(prog, w, st).Running?
    ensures Stepped(prog[st.pc], st, Step(prog, w, st))
  {
    hide Execute, Stepped;
    ExecuteEffect(prog[st.pc], w, EnvAt(w, st.cursors, st.mem), st);
  }

  lemma ExecuteEffect(op: Op, w: World, env: Env, st: State)
    requires st.Running? && Ordinary(op) && 0 <= Needs(op) <= |st.stack| && Execute(op, w, env, st).Running?
    ensures Stepped(op, st, Execute(op, w, env, st))
  {
    hide Execute, Stepped;
    if op.opcode.OpCompare? {
      CompareEffect(op, w, env, st);
    } else if IsJump(op) {
      JumpEffect(op, w, env, st);
    } else if op.opcode in {OpInteger, OpString, OpVariable, OpDup, OpColumn, OpRecno, OpAggGet, OpMemLoad} {
      PushEffect(op, w, env, st);
    } else {
      OperatorEffect(op, w, env, st);
    }
  }

  lemma CompareEffect(op: Op, w: World, env: Env, st: State)
    requires st.Running? && op.opcode.OpCompare? && Needs(op) <= |st.stack|
    ensures Execute(op, w, env, st).Running? && Stepped(op, st, Execute(op, w, env, st))
  {
    hide NumericDifference, Holds, AsString;
  }

  lemma JumpEffect(op: Op, w: World, env: Env, st: State)
    requires st.Running? && IsJump(op) && !op.opcode.OpCompare? && 0 <= Needs(op) <= |st.stack|
    ensures Execute(op, w, env, st).Running? && Stepped(op, st, Execute(op, w, env, st))
  {
    hide AnyNull, AsString, ToInt;
  }

  lemma PushEffect(op: Op, w: World, env: Env, st: State)
    requires op.opcode in {OpInteger, OpString, OpVariable, OpDup, OpColumn, OpRecno, OpAggGet, OpMemLoad}
    requires st.Running? && 0 <= Needs(op) <= |st.stack| && Execute(op, w, env, st).Running?
    ensures Stepped(op, st, Execute(op, w, env, st))
  {
  }

  lemma OperatorEffect(op: Op, w: World, env: Env, st: State)
    requires st.Running? && Ordinary(op) && 0 <= Needs(op) <= |st.stack| && Execute(op, w, env, st).Running?
    requires !IsJump(op) && !op.opcode.OpCompare?
    requires op.opcode !in {OpInteger, OpString, OpVariable, OpDup, OpColumn, OpRecno, OpAggGet, OpMemLoad}
    ensures Stepped(op, st, Execute(op, w, env, st))
  {
    hide Execute, Stepped;
    if op.opcode in {OpPop, OpPull, OpConcat, OpFunction} {
      CellsEffect(op, w, env, st);
    } else if op.opcode in {OpAddImm, OpNegative, OpNot, OpBitNot} {
      UnaryEffect(op, w, env, st);
    } else if op.opcode in {OpAnd, OpOr} {
      LogicEffect(op, w, env, st);
    } else {
      BinaryEffect(op, w, env, st);
    }
  }

  lemma CellsEffect(op: Op, w: World, env: Env, st: State)
    requires op.opcode in {OpPop, OpPull, OpConcat, OpFunction}
    requires st.Running? && 0 <= Needs(op) <= |st.stack| && Execute(op, w, env, st).Running?
    ensures Stepped(op, st, Execute(op, w, env, st))
  {
    hide AnyNull, Join;
  }

  lemma UnaryEffect(op: Op, w: World, env: Env, st: State)
    requires op.opcode in {OpAddImm, OpNegative, OpNot, OpBitNot}
    requires st.Running? && 0 <= Needs(op) <= |st.stack| && Execute(op, w, env, st).Running?
    ensures Stepped(op, st, Execute(op, w, env, st))
  {
    hide ToInt;
  }

  lemma LogicEffect(op: Op, w: World, env: Env, st: State)
    requires op.opcode in {OpAnd, OpOr} && st.Running? && 2 <= |st.stack|
    ensures Execute(op, w, env, st).Running? && Stepped(op, st, Execute(op, w, env, st))
  {
    hide LogicValue, LogicCode;
  }

  lemma BinaryEffect(op: Op, w: World, env: Env, st: State)
    requires (op.opcode.OpArith? || op.opcode.OpShift?) && st.Running? && 2 <= |st.stack|
    ensures Execute(op, w, env, st).Running? && Stepped(op, st, Execute(op, w, env, st))
  {
  }

  lemma ForwardConcat(p: seq<Op>, q: seq<Op>, a: int)
    requires Forward(p, a) && Forward(q, a + |p|)
    ensures Forward(p + q, a)
  {
    forall i | 0 <= i < |p + q| ensures ForwardOp((p + q)[i], a + i) {
      if i >= |p| {
        assert ForwardOp(q[i - |p|], a + |p| + (i - |p|));
      }
    }
  }

  /** One instruction pushes at most one cell and moves at least one address. */
  lemma StepBound(prog: seq<Op>, w: World, st: State)
    requires st.Running? && Forward(prog, 0) && Step(prog, w, st).Running?
    ensures var st' := Step(prog, w, st);
            st'.pc > st.pc >= 0 && |st'.stack| - |st.stack| <= 1
            && st'.cursors == st.cursors && st'.mem == st.mem && st'.out == st.out
  {
    hide Execute;
    assert ForwardOp(prog[st.pc], 0 + st.pc);
    StepEffect(prog, w, st);
  }

  lemma ForwardOne(op: Op, a: int)
    requires ForwardOp(op, a)
    ensures Forward([op], a)
  {
  }

  lemma NullTestForward(opcode: Opcode, left: seq<Op>, a: nat)
    requires (opcode.OpIsNull? || opcode.OpNotNull?) && Forward(left, a + 1)
    ensures Forward(NullTestCode(opcode, left, a), a)
  {
    ForwardConcat([Ins(OpInteger, 1, 0)], left, a);
    ForwardConcat([Ins(OpInteger, 1, 0)] + left, [Ins(opcode, 1, a + |left| + 3), Ins(OpAddImm, -1, 0)], a);
  }

  lemma ValueInForward(rhs: int, fromSelect: bool, left: seq<Op>, a: nat)
    requires Forward(left, a + 1)
    ensures Forward(ValueInCode(rhs, fromSelect, left, a), a)
  {
    ForwardConcat([Ins(OpInteger, 1, 0)], left, a);
    ForwardConcat([Ins(OpInteger, 1, 0)] + left, InTail(rhs, fromSelect, a + 1 + |left|), a);
  }

  lemma ValueBetweenForward(left: seq<Op>, low: seq<Op>, high: seq<Op>, a: nat)
    requires Forward(left, a) && Forward(low, a + |left| + 1) && Forward(high, a + |left| + |low| + 3)
    ensures Forward(ValueBetweenCode(left, low, high), a)
  {
    var x, y, z := [Ins(OpDup, 0, 0)], [Ins(OpCompare(Ge, false), 0, 0), Ins(OpPull, 1, 0)],
                   [Ins(OpCompare(Le, false), 0, 0), Ins(OpAnd, 0, 0)];
    ForwardConcat(left, x, a);
    ForwardConcat(left + x, low, a);
    ForwardConcat(left + x + low, y, a);
    ForwardConcat(left + x + low + y, high, a);
    ForwardConcat(left + x + low + y + high, z, a);
  }

  lemma CaseForward(hasBase: bool, base: seq<Op>, whens: seq<Op>, otherwise: seq<Op>, a: nat)
    requires Forward(base, a) && Forward(whens, a + |base|)
             && Forward(otherwise, a + |base| + |whens| + BoolInt(hasBase))
    ensures Forward(CaseCode(hasBase, base, whens, otherwise), a)
  {
    var pop := if hasBase then [Ins(OpPop, 1, 0)] else [];
    ForwardConcat(base, whens, a);
    ForwardConcat(base + whens, pop, a);
    ForwardConcat(base + whens + pop, otherwise, a);
  }

  lemma ValueForward(h: Helpers, e: Expr, useAgg: bool, a: nat)
    ensures Forward(ValueCode(h, e, useAgg, a), a)
    decreases e, 2
  {
    hide Forward, ValueCodeOther;
    if IsLeaf(e) {
      ForwardOne(LeafOp(h, e, useAgg), a);
    } else if IsBinary(e) {
      var l, r := ValueCode(h, e.left, useAgg, a), ValueCode(h, e.right, useAgg, a + ValueLen(e.left));
      ValueForward(h, e.left, useAgg, a);
      ValueForward(h, e.right, useAgg, a + ValueLen(e.left));
      ForwardOne(BinaryOp(e), a + |l + r|);
      ForwardConcat(l, r, a);
      ForwardConcat(l + r, [BinaryOp(e)], a);
    } else if IsUnary(e) {
      ValueForward(h, e.left, useAgg, a);
      ForwardOne(UnaryOp(e), a + ValueLen(e.left));
      ForwardConcat(ValueCode(h, e.left, useAgg, a), [UnaryOp(e)], a);
    } else {
      OtherForward(h, e, useAgg, a);
    }
  }

  lemma OtherForward(h: Helpers, e: Expr, useAgg: bool, a: nat)
    requires !IsLeaf(e) && !IsBinary(e) && !IsUnary(e)
    ensures Forward(ValueCodeOther(h, e, useAgg, a), a)
    decreases e, 1
  {
    hide Forward, ValueCode;
    if e.Shift? {
      var r, l := ValueCode(h, e.right, useAgg, a), ValueCode(h, e.left, useAgg, a + ValueLen(e.right));
      ValueForward(h, e.right, useAgg, a);
      ValueForward(h, e.left, useAgg, a + ValueLen(e.right));
      ForwardOne(Ins(OpShift(e.shiftOp), 0, 0), a + |r + l|);
      ForwardConcat(r, l, a);
      ForwardConcat(r + l, [Ins(OpShift(e.shiftOp), 0, 0)], a);
    } else if e.IsNull? || e.NotNull? {
      ValueForward(h, e.left, useAgg, a + 1);
      NullTestForward(if e.IsNull? then OpIsNull else OpNotNull, ValueCode(h, e.left, useAgg, a + 1), a);
    } else if e.In? {
      ValueForward(h, e.left, useAgg, a + 1);
      ValueInForward(e.rhs, e.fromSelect, ValueCode(h, e.left, useAgg, a + 1), a);
    } else if e.Function? {
      ArgsForward(h, e.args, useAgg, a);
      ForwardOne(Op(OpFunction, Count(e.args), 0, FunctionP3(e.def)), a + ArgsLen(e.args));
      ForwardConcat(ArgsCode(h, e.args, useAgg, a), [Op(OpFunction, Count(e.args), 0, FunctionP3(e.def))], a);
    } else if e.Between? {
      var b := a + ValueLen(e.left) + 1;
      ValueForward(h, e.left, useAgg, a);
      ValueForward(h, e.low, useAgg, b);
      ValueForward(h, e.high, useAgg, b + ValueLen(e.low) + 2);
      ValueBetweenForward(ValueCode(h, e.left, useAgg, a), ValueCode(h, e.low, useAgg, b),
                          ValueCode(h, e.high, useAgg, b + ValueLen(e.low) + 2), a);
    } else if e.Case? {
      CaseValueForward(h, e, useAgg, a);
    } else {
      ValueForward(h, e.left, useAgg, a);
    }
  }

  lemma CaseValueForward(h: Helpers, e: Expr, useAgg: bool, a: nat)
    requires e.Case?
    ensures Forward(ValueCodeOther(h, e, useAgg, a), a)
    decreases e, 0
  {
    hide ValueCode, WhensCode, Forward;
    var hasBase := e.base.TheExpr?;
    var b := a + (if hasBase then ValueLen(e.base.e) else 0);
    var c := b + WhensLen(e.whens, hasBase) + BoolInt(hasBase);
    var base := if hasBase then ValueCode(h, e.base.e, useAgg, a) else [];
    var other := if e.otherwise.TheExpr? then ValueCode(h, e.otherwise.e, useAgg, c) else [Ins(OpString, 0, 0)];
    if hasBase { ValueForward(h, e.base.e, useAgg, a); } else { EmptyForward(a); }
    if e.otherwise.TheExpr? { ValueForward(h, e.otherwise.e, useAgg, c); } else { ForwardOne(Ins(OpString, 0, 0), c); }
    WhensForward(h, e.whens, hasBase, useAgg, b, a + ValueLen(e));
    CaseForward(hasBase, base, WhensCode(h, e.whens, hasBase, useAgg, b, a + ValueLen(e)), other, a);
  }

  lemma EmptyForward(a: int)
    ensures Forward([], a)
  {
  }

  lemma ArgsForward(h: Helpers, es: Exprs, useAgg: bool, a: nat)
    ensures Forward(ArgsCode(h, es, useAgg, a), a)
    decreases es
  {
    hide ValueCode;
    match es
    case Nil =>
    case Cons(e, tail) =>
      ValueForward(h, e, useAgg, a);
      ArgsForward(h, tail, useAgg, a + ValueLen(e));
      ForwardConcat(ValueCode(h, e, useAgg, a), ArgsCode(h, tail, useAgg, a + ValueLen(e)), a);
  }

  lemma WhensForward(h: Helpers, ws: Whens, hasBase: bool, useAgg: bool, a: nat, end: nat)
    requires end >= a + WhensLen(ws, hasBase)
    ensures Forward(WhensCode(h, ws, hasBase, useAgg, a, end), a)
    decreases ws
  {
    hide ValueCode, ValueLen, Forward;
    match ws
    case Done => EmptyForward(a);
    case When(c, r, rest) =>
      var t := a + ValueLen(c) + (if hasBase then 3 else 1);
      var next := t + ValueLen(r) + 1;
      ValueForward(h, c, useAgg, a);
      ValueForward(h, r, useAgg, t);
      WhensForward(h, rest, hasBase, useAgg, next, end);
      WhenForward(hasBase, ValueCode(h, c, useAgg, a), next, ValueCode(h, r, useAgg, t),
                  WhensCode(h, rest, hasBase, useAgg, next, end), end, a);
  }

  lemma WhenForward(hasBase: bool, cond: seq<Op>, next: nat, result: seq<Op>, rest: seq<Op>, end: nat, a: nat)
    requires Forward(cond, a) && next == a + |cond| + |WhenTest(hasBase, 0)| + |result| + 1 <= end
    requires Forward(result, a + |cond| + |WhenTest(hasBase, 0)|) && Forward(rest, next)
    ensures Forward(cond + WhenTest(hasBase, next) + result + [Ins(OpGoto, 0, end)] + rest, a)
  {
    var test := WhenTest(hasBase, next);
    ForwardConcat(cond, test, a);
    ForwardConcat(cond + test, result, a);
    ForwardConcat(cond + test + result, [Ins(OpGoto, 0, end)], a);
    ForwardConcat(cond + test + result + [Ins(OpGoto, 0, end)], rest, a);
  }

  lemma JumpForward(h: Helpers, e: Expr, sense: bool, dest: int, jumpIfNull: bool, useAgg: bool, a: nat)
    requires dest >= a + JumpLen(e, sense)
    ensures Forward(JumpCode(h, e, sense, dest, jumpIfNull, useAgg, a), a)
    decreases e
  {
    hide Forward, TestCode;
    if e.And? || e.Or? {
      var b := a + JumpLen(e.left, e.Or?);
      var straight := e.Or? == sense;
      var d, n := if straight then dest else b + JumpLen(e.right, sense), if straight then jumpIfNull else !jumpIfNull;
      JumpForward(h, e.left, e.Or?, d, n, useAgg, a);
      JumpForward(h, e.right, sense, dest, jumpIfNull, useAgg, b);
      ForwardConcat(JumpCode(h, e.left, e.Or?, d, n, useAgg, a),
                    JumpCode(h, e.right, sense, dest, jumpIfNull, useAgg, b), a);
    } else if e.Not? {
      JumpForward(h, e.left, !sense, dest, jumpIfNull, useAgg, a);
    } else {
      TestForward(h, e, sense, dest, jumpIfNull, useAgg, a);
    }
  }

  lemma TestForward(h: Helpers, e: Expr, sense: bool, dest: int, jumpIfNull: bool, useAgg: bool, a: nat)
    requires !e.And? && !e.Or? && !e.Not? && dest >= a + TestLen(e)
    ensures Forward(TestCode(h, e, sense, dest, jumpIfNull, useAgg, a), a)
  {
    hide ValueCode, ValueLen;
    if e.Comparison? {
      ValueForward(h, e.left, useAgg, a);
      ValueForward(h, e.right, useAgg, a + ValueLen(e.left));
      ForwardConcat(ValueCode(h, e.left, useAgg, a), ValueCode(h, e.right, useAgg, a + ValueLen(e.left)), a);
    } else if e.IsNull? || e.NotNull? {
      ValueForward(h, e.left, useAgg, a);
    } else if e.In? {
      ValueForward(h, e.left, useAgg, a);
      ForwardConcat(ValueCode(h, e.left, useAgg, a),
                    JumpInTail(e.rhs, e.fromSelect, sense, dest, jumpIfNull, a + ValueLen(e.left)), a);
    } else if e.Between? {
      var b := a + ValueLen(e.left) + 1;
      var d := b + ValueLen(e.low) + (if sense then 1 else 3);
      ValueForward(h, e.left, useAgg, a);
      ValueForward(h, e.low, useAgg, b);
      ValueForward(h, e.high, useAgg, d);
      JumpBetweenForward(ValueCode(h, e.left, useAgg, a), ValueCode(h, e.low, useAgg, b),
                         ValueCode(h, e.high, useAgg, d),
                         sense, dest, jumpIfNull, a);
    } else {
      ValueForward(h, e, useAgg, a);
    }
  }

  lemma JumpBetweenForward(left: seq<Op>, low: seq<Op>, high: seq<Op>, sense: bool, dest: int, jumpIfNull: bool, a: nat)
    requires Forward(left, a) && Forward(low, a + |left| + 1)
             && Forward(high, a + |left| + |low| + (if sense then 2 else 4))
    requires dest >= a + |left| + |low| + |high| + 5
    ensures Forward(JumpBetweenCode(left, low, high, sense, dest, jumpIfNull, a), a)
  {
    hide Forward;
    var d := a + |left| + 1 + |low|;
    var x, y, z := [Ins(OpDup, 0, 0)], LowerTest(sense, dest, jumpIfNull, d, |high|),
                   UpperTest(sense, dest, jumpIfNull);
    ForwardOne(Ins(OpDup, 0, 0), a + |left|);
    TestsForward(sense, dest, jumpIfNull, d, |high|);
    ForwardConcat(left, x, a);
    ForwardConcat(left + x, low, a);
    ForwardConcat(left + x + low, y, a);
    ForwardConcat(left + x + low + y, high, a);
    ForwardConcat(left + x + low + y + high, z, a);
  }

  lemma TestsForward(sense: bool, dest: int, jumpIfNull: bool, d: nat, highLen: nat)
    requires dest >= d + highLen + 4
    ensures Forward(LowerTest(sense, dest, jumpIfNull, d, highLen), d)
    ensures Forward(UpperTest(sense, dest, jumpIfNull), d + highLen + (if sense then 1 else 3))
  {
  }

  /** The interpreter loop on a forward program. It terminates, and before every instruction the
      height of the stack is at most its initial height plus the program counter, which is what
      sizing the stack by the number of instructions relies on. */
  method Exec(prog: seq<Op>, w: World, st: State) returns (end: State, ghost n: nat)
    requires st.Running? && st.pc == 0 && Forward(prog, 0)
    ensures end == Run(prog, w, st, n)
    ensures end.Stuck? || end.pc >= |prog|
    ensures forall k: nat :: k < n ==> var x := Run(prog, w, st, k); x.Running? && 0 <= x.pc < |prog|
    ensures forall k: nat :: k <= n ==> var x := Run(prog, w, st, k);
                                        x.Running? ==> 0 <= x.pc && |x.stack| <= |st.stack| + x.pc
  {
    hide Forward, Execute;
    end, n := st, 0;
    while end.Running? && end.pc < |prog|
      invariant end == Run(prog, w, st, n)
      invariant end.Running? ==> 0 <= end.pc
      invariant forall k: nat :: k < n ==> var x := Run(prog, w, st, k); x.Running? && 0 <= x.pc < |prog|
      invariant forall k: nat :: k <= n ==> var x := Run(prog, w, st, k);
                                            x.Running? ==> 0 <= x.pc && |x.stack| <= |st.stack| + x.pc
      decreases end.Running?, if end.Running? then |prog| - end.pc else 0
    {
      RunSplit(prog, w, st, n, 1);
      assert Run(prog, w, end, 1) == Run(prog, w, Step(prog, w, end), 0) == Step(prog, w, end);
      var next := Step(prog, w, end);
      if next.Running? {
        StepBound(prog, w, end);
      }
      end, n := next, n + 1;
    }
  }

  /** Compiling an expression into an empty program and running it on an empty stack yields the
      value of the expression. */
  method Evaluate(w: World, useAgg: bool, e: Expr) returns (end: State)
    ensures end.Running? && |end.stack| >= 1
    ensures !Leaks(e, useAgg, EnvAt(w, map[], map[])) <==> end.stack == [Eval(e, useAgg, EnvAt(w, map[], map[]))]
  {
    var v := new Vdbe();
    ExprCode(v, w.base.h, useAgg, e);
    var prog := v.aOp;
    assert prog == ValueCode(w.base.h, e, useAgg, 0);
    ValueForward(w.base.h, e, useAgg, 0);
    ghost var n;
    end, n := Exec(prog, w, Running(0, [], map[], map[], []));
    EvaluateEnds(w, useAgg, e, prog, end, n);
  }

  lemma EvaluateEnds(w: World, useAgg: bool, e: Expr, prog: seq<Op>, end: State, n: nat)
    requires prog == ValueCode(w.base.h, e, useAgg, 0)
    requires end == Run(prog, w, Running(0, [], map[], map[], []), n) && (end.Stuck? || end.pc >= |prog|)
    requires forall k: nat :: k < n ==> var x := Run(prog, w, Running(0, [], map[], map[], []), k);
             x.Running? && 0 <= x.pc < |prog|
    ensures end.Running? && |end.stack| >= 1
    ensures !Leaks(e, useAgg, EnvAt(w, map[], map[])) <==> end.stack == [Eval(e, useAgg, EnvAt(w, map[], map[]))]
  {
    hide Context.Goes, Leaks, Eval, ValueCode, Run;
    var c := Context(prog, w, useAgg, 0, |prog|, map[], map[], []);
    assert prog[0..0 + |prog|] == prog;
    var out := ValueRuns(c, e, 0, []);
    assert [] + out == out;
    assert end == c.At(|prog|, out) by { EndsThere(c, out, end, n); }
  }

  /** A run that has left the code is where the code leads. */
  lemma EndsThere(c: Context, out: seq<Value>, end: State, n: nat)
    requires c.lo == 0 && c.hi == |c.prog| && c.Goes(0, [], |c.prog|, out)
    requires end == Run(c.prog, c.w, c.At(0, []), n) && (end.Stuck? || end.pc >= |c.prog|)
    requires forall k: nat :: k < n ==> var x := Run(c.prog, c.w, c.At(0, []), k); x.Running? && 0 <= x.pc < |c.prog|
    ensures end == c.At(|c.prog|, out)
  {
    hide Run;
    var m: nat :| Run(c.prog, c.w, c.At(0, []), m) == c.At(|c.prog|, out) && c.Inside(c.At(0, []), m);
    if m < n {
      assert false;
    } else if n < m {
      assert false;
    }
  }
}
