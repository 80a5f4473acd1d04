/** The code of an expression computes its value: semantic preservation for the layout. */
module ExprCorrect {
  import opened Values
  import opened Expressions
  import opened Machine
  import opened Layout
  import opened Fragments

  /** What a value fragment leaves on the stack above `s`: the value alone, or, if it leaks,
      something longer. */
  ghost predicate Leaves(out: seq<Value>, e: Expr, useAgg: bool, env: Env) {
    |out| >= 1
    && (Leaks(e, useAgg, env) ==> |out| >= 2)
    && (!Leaks(e, useAgg, env) ==> out == [Eval(e, useAgg, env)])
  }

  lemma OpAt(c: Context, a: nat, code: seq<Op>, op: Op)
    requires c.Has(a, code + [op])
    ensures c.Has(a, code) && c.prog[a + |code|] == op && c.lo <= a + |code| < c.hi
  {
    c.Split(a, code, [op]);
    c.Fetch(a + |code|, [op], 0);
  }

  lemma LeafRuns(c: Context, e: Expr, a: nat, s: seq<Value>)
    requires IsLeaf(e) && c.Has(a, ValueCode(c.H(), e, c.useAgg, a))
    ensures c.Goes(a, s, a + 1, s + [Eval(e, c.useAgg, c.Env())])
  {
    c.Fetch(a, [LeafOp(c.H(), e, c.useAgg)], 0);
    c.Do(a, s, a + 1, s + [Eval(e, c.useAgg, c.Env())]);
  }

  /** The value the machine's own logic tables give is Kleene's. */
  lemma LogicTables(h: Helpers, x: Value, y: Value)
    ensures LogicValue(AND_LOGIC[3 * LogicCode(h, y) + LogicCode(h, x)])
            == FromTruth(And3(TruthOf(h, x), TruthOf(h, y)))
    ensures LogicValue(OR_LOGIC[3 * LogicCode(h, y) + LogicCode(h, x)]) == FromTruth(Or3(TruthOf(h, x), TruthOf(h, y)))
  {
  }

  function BinaryResult(h: Helpers, e: Expr, x: Value, y: Value): Value
    requires IsBinary(e)
  {
    match e
    case Comparison(rel, _, _) => FromTruth(Compare(h, rel, TypeOf(e) == TextType, x, y))
    case And(_, _) => FromTruth(And3(TruthOf(h, x), TruthOf(h, y)))
    case Or(_, _) => FromTruth(Or3(TruthOf(h, x), TruthOf(h, y)))
    case Arithmetic(op, _, _) => if x.Null? || y.Null? then Null else h.arith(op, x, y)
    case Concat(_, _) => if x.Null? || y.Null? then Null else Str(AsString(h, x) + AsString(h, y))
  }

  lemma BinaryStep(c: Context, e: Expr, b: nat, t: seq<Value>)
    requires IsBinary(e) && c.lo <= b < c.hi <= |c.prog| && c.prog[b] == BinaryOp(e) && |t| >= 2
    ensures Step(c.prog, c.w, c.At(b, t)) == c.At(b + 1, Drop(t, 2) + [BinaryResult(c.H(), e, Next(t), Top(t))])
  {
    hide Step, BinaryResult, BinaryOp;
    if e.Concat? {
      ConcatStep(c, e, b, t);
    } else if e.And? || e.Or? {
      LogicStep(c, e, b, t);
    } else {
      NumberStep(c, e, b, t);
    }
  }

  lemma ConcatStep(c: Context, e: Expr, b: nat, t: seq<Value>)
    requires c.lo <= b < c.hi <= |c.prog| && |t| >= 2 && e.Concat? && c.prog[b] == BinaryOp(e)
    ensures Step(c.prog, c.w, c.At(b, t)) == c.At(b + 1, Drop(t, 2) + [BinaryResult(c.H(), e, Next(t), Top(t))])
  {
    assert t[|t| - 2..] == [Next(t), Top(t)];
    assert Join(c.H(), [Top(t)]) == AsString(c.H(), Top(t)) by { assert [Top(t)][1..] == []; }
    assert Join(c.H(), [Next(t), Top(t)]) == AsString(c.H(), Next(t)) + AsString(c.H(), Top(t)) by {
      assert [Next(t), Top(t)][1..] == [Top(t)];
    }
  }

  lemma LogicStep(c: Context, e: Expr, b: nat, t: seq<Value>)
    requires c.lo <= b < c.hi <= |c.prog| && |t| >= 2 && (e.And? || e.Or?) && c.prog[b] == BinaryOp(e)
    ensures Step(c.prog, c.w, c.At(b, t)) == c.At(b + 1, Drop(t, 2) + [BinaryResult(c.H(), e, Next(t), Top(t))])
  {
    hide LogicCode, LogicValue, FromTruth, TruthOf, And3, Or3;
    LogicTables(c.H(), Next(t), Top(t));
  }

  lemma NumberStep(c: Context, e: Expr, b: nat, t: seq<Value>)
    requires c.lo <= b < c.hi <= |c.prog| && |t| >= 2 && (e.Comparison? || e.Arithmetic?) && c.prog[b] == BinaryOp(e)
    ensures Step(c.prog, c.w, c.At(b, t)) == c.At(b + 1, Drop(t, 2) + [BinaryResult(c.H(), e, Next(t), Top(t))])
  {
  }

  /** Removing the two operands found on top of `s + x + y` and pushing a result. */
  lemma PopTwo(s: seq<Value>, x: seq<Value>, y: seq<Value>, v: Value) returns (out: seq<Value>)
    requires |x| >= 1 && |y| >= 1
    ensures Drop(s + x + y, 2) + [v] == s + out && |out| == |x| + |y| - 1
    ensures |x| == 1 && |y| == 1 ==> out == [v] && Next(s + x + y) == x[0] && Top(s + x + y) == y[0]
  {
    out := (x + y)[..|x| + |y| - 2] + [v];
    assert s + x + y == s + (x + y);
    assert Drop(s + (x + y), 2) == s + (x + y)[..|x| + |y| - 2];
  }

  lemma BinaryMeans(e: Expr, useAgg: bool, env: Env)
    requires IsBinary(e)
    ensures BinaryResult(env.h, e, Eval(e.left, useAgg, env), Eval(e.right, useAgg, env)) == Eval(e, useAgg, env)
    ensures Leaks(e, useAgg, env) == (Leaks(e.left, useAgg, env) || Leaks(e.right, useAgg, env))
  {
  }

  lemma ShiftMeans(e: Expr, useAgg: bool, env: Env)
    requires e.Shift?
    ensures var x, y := Eval(e.right, useAgg, env), Eval(e.left, useAgg, env);
            Eval(e, useAgg, env) == if x.Null? || y.Null? then Null else env.h.shift(e.shiftOp, y, x)
    ensures Leaks(e, useAgg, env) == (Leaks(e.left, useAgg, env) || Leaks(e.right, useAgg, env))
  {
  }

  lemma BinaryRuns(c: Context, e: Expr, left: seq<Op>, right: seq<Op>, a: nat, s: seq<Value>, x: seq<Value>,
                   y: seq<Value>)
    returns (out: seq<Value>)
    requires IsBinary(e) && c.Has(a, left + right + [BinaryOp(e)]) && |x| >= 1 && |y| >= 1
    requires c.Goes(a, s, a + |left|, s + x)
    requires c.Goes(a + |left|, s + x, a + |left| + |right|, s + x + y)
    ensures c.Goes(a, s, a + |left| + |right| + 1, s + out) && |out| == |x| + |y| - 1
    ensures |x| == 1 && |y| == 1 ==> out == [BinaryResult(c.H(), e, x[0], y[0])]
  {
    var b, t := a + |left| + |right|, s + x + y;
    OpAt(c, a, left + right, BinaryOp(e));
    var v := BinaryResult(c.H(), e, Next(t), Top(t));
    BinaryStep(c, e, b, t);
    out := PopTwo(s, x, y, v);
    c.Then(a, s, a + |left|, s + x, b, t);
    c.ThenDo(a, s, b, t, b + 1, s + out);
  }

  lemma ShiftStep(c: Context, b: nat, t: seq<Value>, op: ShiftOp)
    requires c.lo <= b < c.hi <= |c.prog| && c.prog[b] == Ins(OpShift(op), 0, 0) && |t| >= 2
    ensures Step(c.prog, c.w, c.At(b, t))
            == c.At(b + 1, Drop(t, 2)
                    + [if Next(t).Null? || Top(t).Null? then Null else c.H().shift(op, Top(t), Next(t))])
  {
  }

  lemma ShiftRuns(c: Context, op: ShiftOp, left: seq<Op>, right: seq<Op>, a: nat, s: seq<Value>, x: seq<Value>,
                  y: seq<Value>)
    returns (out: seq<Value>)
    requires c.Has(a, right + left + [Ins(OpShift(op), 0, 0)]) && |x| >= 1 && |y| >= 1
    requires c.Goes(a, s, a + |right|, s + x)
    requires c.Goes(a + |right|, s + x, a + |right| + |left|, s + x + y)
    ensures c.Goes(a, s, a + |right| + |left| + 1, s + out) && |out| == |x| + |y| - 1
    ensures |x| == 1 && |y| == 1 ==>
              out == [if x[0].Null? || y[0].Null? then Null else c.H().shift(op, y[0], x[0])]
  {
    var b := a + |right| + |left|;
    var t := s + x + y;
    OpAt(c, a, right + left, Ins(OpShift(op), 0, 0));
    var v := if Next(t).Null? || Top(t).Null? then Null else c.H().shift(op, Top(t), Next(t));
    ShiftStep(c, b, t, op);
    out := PopTwo(s, x, y, v);
    c.Then(a, s, a + |right|, s + x, b, t);
    c.ThenDo(a, s, b, t, b + 1, s + out);
  }

  function UnaryResult(h: Helpers, opcode: Opcode, v: Value): Value {
    if v.Null? then Null
    else if opcode.OpNot? then Number(if ToInt(h, v) == 0 then 1 else 0)
    else if opcode.OpBitNot? then Number(h.bitNot(ToInt(h, v)))
    else h.negate(v)
  }

  lemma UnaryMeans(e: Expr, useAgg: bool, env: Env)
    requires IsUnary(e)
    ensures UnaryResult(env.h, UnaryOp(e).opcode, Eval(e.left, useAgg, env)) == Eval(e, useAgg, env)
  {
  }

  lemma UnaryRuns(c: Context, opcode: Opcode, left: seq<Op>, a: nat, s: seq<Value>, x: seq<Value>)
    returns (out: seq<Value>)
    requires opcode.OpNot? || opcode.OpBitNot? || opcode.OpNegative?
    requires c.Has(a, left + [Ins(opcode, 0, 0)]) && |x| >= 1 && c.Goes(a, s, a + |left|, s + x)
    ensures c.Goes(a, s, a + |left| + 1, s + out) && |out| == |x|
    ensures |x| == 1 ==> out == [UnaryResult(c.H(), opcode, x[0])]
  {
    hide Context.Goes, Context.Has;
    OpAt(c, a, left, Ins(opcode, 0, 0));
    var v := UnaryResult(c.H(), opcode, Top(s + x));
    out := x[..|x| - 1] + [v];
    assert Drop(s + x, 1) + [v] == s + out;
    c.ThenDo(a, s, a + |left|, s + x, a + |left| + 1, s + out);
  }

  /** IS NULL and NOT NULL for value, and the end of the value form of IN: a pushed 1 that is
      kept if the test jumps and decremented if it does not. */
  lemma AddImmStep(c: Context, b: nat, t: seq<Value>, i: int)
    requires b < |c.prog| && c.prog[b] == Ins(OpAddImm, i, 0) && |t| >= 1
    ensures Step(c.prog, c.w, c.At(b, t)) == c.At(b + 1, Drop(t, 1) + [Number(ToInt(c.H(), Top(t)) + i)])
  {
  }

  lemma OneOrZero(c: Context, b: nat, s: seq<Value>, x: seq<Value>, jump: bool) returns (out: seq<Value>)
    requires c.lo <= b && b + 1 < c.hi <= |c.prog| && c.prog[b + 1] == Ins(OpAddImm, -1, 0) && |x| >= 1
    requires Step(c.prog, c.w, c.At(b, s + [Number(1)] + x))
             == c.At(if jump then b + 2 else b + 1, Drop(s + [Number(1)] + x, 1))
    ensures c.Goes(b, s + [Number(1)] + x, b + 2, s + out) && |out| == |x|
    ensures |x| == 1 ==> out == [Number(if jump then 1 else 0)]
  {
    hide Context.Goes, Execute;
    var t := s + [Number(1)] + x;
    var u := ([Number(1)] + x)[..|x|];
    assert Drop(t, 1) == s + u;
    c.Do(b, t, if jump then b + 2 else b + 1, s + u);
    if jump {
      out := u;
    } else {
      var r := Number(ToInt(c.H(), Top(s + u)) - 1);
      out := u[..|u| - 1] + [r];
      assert Drop(s + u, 1) + [r] == s + out;
      AddImmStep(c, b + 1, s + u, -1);
      c.ThenDo(b, t, b + 1, s + u, b + 2, s + out);
    }
  }

  lemma TopOnly(t: seq<Value>)
    requires |t| >= 1
    ensures AnyNull(t[|t| - 1..]) == Top(t).Null?
  {
    assert t[|t| - 1..] == [Top(t)] && [Top(t)][0] == Top(t);
  }

  lemma NullTestStep(c: Context, b: nat, t: seq<Value>, op: Op)
    requires c.lo <= b < c.hi <= |c.prog| && c.prog[b] == op && |t| >= 1
    requires (op.opcode.OpIsNull? || op.opcode.OpNotNull?) && (op.p1 == 1 || op.p1 == -1)
    ensures Step(c.prog, c.w, c.At(b, t))
            == c.At(if Top(t).Null? == op.opcode.OpIsNull? then op.p2 else b + 1, if op.p1 == 1 then Drop(t, 1) else t)
  {
    TopOnly(t);
  }

  lemma ThenNullTest(c: Context, a: nat, s: seq<Value>, b: nat, t: seq<Value>, opcode: Opcode, p1: int, d: int)
    returns (pc: int)
    requires c.Goes(a, s, b, t) && c.lo <= b < c.hi <= |c.prog| && c.prog[b] == Ins(opcode, p1, d) && |t| >= 1
    requires (opcode.OpIsNull? || opcode.OpNotNull?) && (p1 == 1 || p1 == -1)
    ensures pc == if Top(t).Null? == opcode.OpIsNull? then d else b + 1
    ensures c.Goes(a, s, pc, if p1 == 1 then Drop(t, 1) else t)
  {
    hide Context.Goes, Execute;
    NullTestStep(c, b, t, c.prog[b]);
    pc := if Top(t).Null? == opcode.OpIsNull? then d else b + 1;
    c.ThenDo(a, s, b, t, pc, if p1 == 1 then Drop(t, 1) else t);
  }

  lemma NullTestCodeAt(c: Context, opcode: Opcode, left: seq<Op>, a: nat)
    requires c.Has(a, NullTestCode(opcode, left, a))
    ensures c.prog[a] == Ins(OpInteger, 1, 0) && c.Has(a + 1, left)
    ensures c.prog[a + 1 + |left|] == Ins(opcode, 1, a + |left| + 3)
    ensures c.prog[a + 2 + |left|] == Ins(OpAddImm, -1, 0)
    ensures c.lo <= a && a + 2 + |left| < c.hi <= |c.prog|
  {
    var tail := [Ins(opcode, 1, a + |left| + 3), Ins(OpAddImm, -1, 0)];
    c.Split(a, [Ins(OpInteger, 1, 0)] + left, tail);
    c.Split(a, [Ins(OpInteger, 1, 0)], left);
    c.Fetch(a, [Ins(OpInteger, 1, 0)], 0);
    c.Fetch(a + 1 + |left|, tail, 0);
    c.Fetch(a + 1 + |left|, tail, 1);
  }

  lemma NullTestRuns(c: Context, opcode: Opcode, left: seq<Op>, a: nat, s: seq<Value>, x: seq<Value>)
    returns (out: seq<Value>)
    requires opcode.OpIsNull? || opcode.OpNotNull?
    requires c.Has(a, NullTestCode(opcode, left, a)) && |x| >= 1
    requires c.Goes(a + 1, s + [Number(1)], a + 1 + |left|, s + [Number(1)] + x)
    ensures c.Goes(a, s, a + |left| + 3, s + out) && |out| == |x|
    ensures |x| == 1 ==> out == [FromTruth(Of(x[0].Null? == opcode.OpIsNull?))]
  {
    var b, s1 := a + 1 + |left|, s + [Number(1)];
    NullTestCodeAt(c, opcode, left, a);
    c.Do(a, s, a + 1, s1);
    c.Then(a, s, a + 1, s1, b, s1 + x);
    NullTestStep(c, b, s1 + x, Ins(opcode, 1, b + 2));
    out := OneOrZero(c, b, s, x, Top(s1 + x).Null? == opcode.OpIsNull?);
    c.Then(a, s, b, s1 + x, b + 2, s + out);
  }

  // One named instruction after a run.

  lemma ThenInteger(c: Context, a: nat, s: seq<Value>, b: nat, t: seq<Value>, i: int)
    requires c.Goes(a, s, b, t) && c.lo <= b < c.hi <= |c.prog| && c.prog[b] == Ins(OpInteger, i, 0)
    ensures c.Goes(a, s, b + 1, t + [Number(i)])
  {
    c.ThenDo(a, s, b, t, b + 1, t + [Number(i)]);
  }

  lemma ThenNull(c: Context, a: nat, s: seq<Value>, b: nat, t: seq<Value>)
    requires c.Goes(a, s, b, t) && c.lo <= b < c.hi <= |c.prog| && c.prog[b] == Ins(OpString, 0, 0)
    ensures c.Goes(a, s, b + 1, t + [Null])
  {
    c.ThenDo(a, s, b, t, b + 1, t + [Null]);
  }

  lemma ThenPop(c: Context, a: nat, s: seq<Value>, b: nat, t: seq<Value>)
    requires c.Goes(a, s, b, t) && c.lo <= b < c.hi <= |c.prog| && c.prog[b] == Ins(OpPop, 1, 0) && |t| >= 1
    ensures c.Goes(a, s, b + 1, Drop(t, 1))
  {
    c.ThenDo(a, s, b, t, b + 1, Drop(t, 1));
  }

  lemma ThenGoto(c: Context, a: nat, s: seq<Value>, b: nat, t: seq<Value>, d: int)
    requires c.Goes(a, s, b, t) && c.lo <= b < c.hi <= |c.prog| && c.prog[b] == Ins(OpGoto, 0, d)
    ensures c.Goes(a, s, d, t)
  {
    c.ThenDo(a, s, b, t, d, t);
  }

  lemma ThenDup(c: Context, a: nat, s: seq<Value>, b: nat, t: seq<Value>, n: nat)
    requires c.Goes(a, s, b, t) && c.lo <= b < c.hi <= |c.prog| && c.prog[b].opcode == OpDup && c.prog[b].p1 == n
    requires n < |t|
    ensures c.Goes(a, s, b + 1, t + [t[|t| - 1 - n]])
  {
    c.ThenDo(a, s, b, t, b + 1, t + [t[|t| - 1 - n]]);
  }

  /** A comparison with P2 set pops its operands and jumps if it holds, or on NULL if P1 is set. */
  lemma ThenCompare(c: Context, a: nat, s: seq<Value>, b: nat, t: seq<Value>, rel: Relation, text: bool, onNull: bool,
                    d: int)
    returns (pc: int)
    requires c.Goes(a, s, b, t) && c.lo <= b < c.hi <= |c.prog| && d != 0 && |t| >= 2
    requires c.prog[b] == Ins(OpCompare(rel, text), BoolInt(onNull), d)
    ensures pc == if Taken(Compare(c.H(), rel, text, Next(t), Top(t)), true, onNull) then d else b + 1
    ensures c.Goes(a, s, pc, Drop(t, 2))
  {
    pc := if Taken(Compare(c.H(), rel, text, Next(t), Top(t)), true, onNull) then d else b + 1;
    c.ThenDo(a, s, b, t, pc, Drop(t, 2));
  }

  /** The value form of IN. With a NULL left operand it keeps the 1 pushed first and adds a NULL. */
  lemma ValueInRuns(c: Context, rhs: int, fromSelect: bool, left: seq<Op>, a: nat, s: seq<Value>, x: seq<Value>)
    returns (out: seq<Value>)
    requires c.Has(a, ValueInCode(rhs, fromSelect, left, a)) && |x| >= 1
    requires c.Goes(a + 1, s + [Number(1)], a + 1 + |left|, s + [Number(1)] + x)
    ensures c.Goes(a, s, a + |left| + 7, s + out) && |out| >= |x|
    ensures |x| == 1 && x[0].Null? ==> out == [Number(1), Null]
    ensures |x| == 1 && !x[0].Null? ==> out == [FromTruth(Membership(c.Env(), fromSelect, rhs, x[0]))]
  {
    var b, s1 := a + 1 + |left|, s + [Number(1)];
    ValueInCodeAt(c, rhs, fromSelect, left, a);
    c.Stay(a, s);
    ThenInteger(c, a, s, a, s, 1);
    c.Then(a, s, a + 1, s1, b, s1 + x);
    if Top(s1 + x).Null? {
      out := ValueInNull(c, a, s, b, x, rhs, fromSelect);
    } else {
      out := ValueInFound(c, a, s, b, x, rhs, fromSelect);
    }
  }

  lemma ValueInNull(c: Context, a: nat, s: seq<Value>, b: nat, x: seq<Value>, rhs: int, fromSelect: bool)
    returns (out: seq<Value>)
    requires c.lo <= b && c.Has(b, InTail(rhs, fromSelect, b)) && |x| >= 1 && Top(x).Null?
    requires c.Goes(a, s, b, s + [Number(1)] + x)
    ensures c.Goes(a, s, b + 6, s + out) && out == ([Number(1)] + x)[..|x|] + [Null]
  {
    hide Context.Goes, Context.Has, Step;
    var t := s + [Number(1)] + x;
    c.Fetch(b, InTail(rhs, fromSelect, b), 0);
    c.Fetch(b, InTail(rhs, fromSelect, b), 1);
    c.Fetch(b, InTail(rhs, fromSelect, b), 2);
    c.Fetch(b, InTail(rhs, fromSelect, b), 3);
    var pc := ThenNullTest(c, a, s, b, t, OpNotNull, -1, b + 4);
    ThenPop(c, a, s, b + 1, t);
    ThenNull(c, a, s, b + 2, Drop(t, 1));
    ThenGoto(c, a, s, b + 3, Drop(t, 1) + [Null], b + 6);
    out := ([Number(1)] + x)[..|x|] + [Null];
    assert Drop(t, 1) + [Null] == s + out;
  }

  lemma ValueInFound(c: Context, a: nat, s: seq<Value>, b: nat, x: seq<Value>, rhs: int, fromSelect: bool)
    returns (out: seq<Value>)
    requires c.lo <= b && c.Has(b, InTail(rhs, fromSelect, b)) && |x| >= 1 && !Top(x).Null?
    requires c.Goes(a, s, b, s + [Number(1)] + x)
    ensures c.Goes(a, s, b + 6, s + out) && |out| == |x|
    ensures |x| == 1 ==> out == [FromTruth(Membership(c.Env(), fromSelect, rhs, x[0]))]
  {
    hide Context.Goes, Context.Has, Execute;
    var t := s + [Number(1)] + x;
    c.Fetch(b, InTail(rhs, fromSelect, b), 0);
    c.Fetch(b, InTail(rhs, fromSelect, b), 4);
    c.Fetch(b, InTail(rhs, fromSelect, b), 5);
    var pc := ThenNullTest(c, a, s, b, t, OpNotNull, -1, b + 4);
    FoundStep(c, b + 4, t, c.prog[b + 4]);
    out := OneOrZero(c, b + 4, s, x, c.Env().member(fromSelect, rhs, AsString(c.H(), Top(t))));
    c.Then(a, s, b + 4, t, b + 6, s + out);
  }

  lemma FoundStep(c: Context, b: nat, t: seq<Value>, op: Op)
    requires c.lo <= b < c.hi <= |c.prog| && c.prog[b] == op && |t| >= 1
    requires op.opcode in {OpFound, OpSetFound, OpNotFound, OpSetNotFound}
    ensures var member := c.Env().member(op.opcode in {OpFound, OpNotFound}, op.p1, AsString(c.H(), Top(t)));
            Step(c.prog, c.w, c.At(b, t))
            == c.At(if member == (op.opcode in {OpFound, OpSetFound}) then op.p2 else b + 1, Drop(t, 1))
  {
  }

  lemma ThenFound(c: Context, a: nat, s: seq<Value>, b: nat, t: seq<Value>, op: Op) returns (pc: int)
    requires c.Goes(a, s, b, t) && c.lo <= b < c.hi <= |c.prog| && c.prog[b] == op && |t| >= 1
    requires op.opcode in {OpFound, OpSetFound, OpNotFound, OpSetNotFound}
    ensures var member := c.Env().member(op.opcode in {OpFound, OpNotFound}, op.p1, AsString(c.H(), Top(t)));
            pc == if member == (op.opcode in {OpFound, OpSetFound}) then op.p2 else b + 1
    ensures c.Goes(a, s, pc, Drop(t, 1))
  {
    hide Context.Goes, Execute;
    FoundStep(c, b, t, op);
    var member := c.Env().member(op.opcode in {OpFound, OpNotFound}, op.p1, AsString(c.H(), Top(t)));
    pc := if member == (op.opcode in {OpFound, OpSetFound}) then op.p2 else b + 1;
    c.ThenDo(a, s, b, t, pc, Drop(t, 1));
  }

  lemma ValueInCodeAt(c: Context, rhs: int, fromSelect: bool, left: seq<Op>, a: nat)
    requires c.Has(a, ValueInCode(rhs, fromSelect, left, a))
    ensures c.prog[a] == Ins(OpInteger, 1, 0) && c.Has(a + 1, left)
    ensures c.lo <= a && a + 6 + |left| < c.hi <= |c.prog|
    ensures c.Has(a + 1 + |left|, InTail(rhs, fromSelect, a + 1 + |left|))
  {
    c.Split(a, [Ins(OpInteger, 1, 0)] + left, InTail(rhs, fromSelect, a + 1 + |left|));
    c.Split(a, [Ins(OpInteger, 1, 0)], left);
    c.Fetch(a, [Ins(OpInteger, 1, 0)], 0);
  }

  lemma ThenPull(c: Context, a: nat, s: seq<Value>, b: nat, t: seq<Value>)
    requires c.Goes(a, s, b, t) && c.lo <= b < c.hi <= |c.prog| && c.prog[b] == Ins(OpPull, 1, 0) && |t| >= 2
    ensures c.Goes(a, s, b + 1, Drop(t, 2) + [Top(t), Next(t)])
  {
    assert t[..|t| - 1 - 1] + t[|t| - 1..] + [t[|t| - 1 - 1]] == Drop(t, 2) + [Top(t), Next(t)];
    c.ThenDo(a, s, b, t, b + 1, Drop(t, 2) + [Top(t), Next(t)]);
  }

  /** A comparison with P2 zero pushes its truth value. */
  lemma ThenCompareValue(c: Context, a: nat, s: seq<Value>, b: nat, t: seq<Value>, rel: Relation)
    requires c.Goes(a, s, b, t) && c.lo <= b < c.hi <= |c.prog| && |t| >= 2
    requires c.prog[b] == Ins(OpCompare(rel, false), 0, 0)
    ensures c.Goes(a, s, b + 1, Drop(t, 2) + [FromTruth(Compare(c.H(), rel, false, Next(t), Top(t)))])
  {
    c.ThenDo(a, s, b, t, b + 1, Drop(t, 2) + [FromTruth(Compare(c.H(), rel, false, Next(t), Top(t)))]);
  }

  lemma ThenAnd(c: Context, a: nat, s: seq<Value>, b: nat, t: seq<Value>)
    requires c.Goes(a, s, b, t) && c.lo <= b < c.hi <= |c.prog| && |t| >= 2 && c.prog[b] == Ins(OpAnd, 0, 0)
    ensures c.Goes(a, s, b + 1, Drop(t, 2) + [FromTruth(And3(TruthOf(c.H(), Next(t)), TruthOf(c.H(), Top(t))))])
  {
    LogicTables(c.H(), Next(t), Top(t));
    c.ThenDo(a, s, b, t, b + 1, Drop(t, 2) + [FromTruth(And3(TruthOf(c.H(), Next(t)), TruthOf(c.H(), Top(t))))]);
  }

  lemma ValueBetweenCodeAt(c: Context, left: seq<Op>, low: seq<Op>, high: seq<Op>, a: nat)
    requires c.Has(a, ValueBetweenCode(left, low, high))
    ensures var b := a + |left|;
            var d := b + 1 + |low|;
            var f := d + 2 + |high|;
            && c.Has(a, left) && c.prog[b] == Ins(OpDup, 0, 0) && c.Has(b + 1, low)
            && c.prog[d] == Ins(OpCompare(Ge, false), 0, 0) && c.prog[d + 1] == Ins(OpPull, 1, 0) && c.Has(d + 2, high)
            && c.prog[f] == Ins(OpCompare(Le, false), 0, 0) && c.prog[f + 1] == Ins(OpAnd, 0, 0)
            && c.lo <= a && f + 1 < c.hi <= |c.prog|
  {
    var mid, end := [Ins(OpCompare(Ge, false), 0, 0), Ins(OpPull, 1, 0)],
                    [Ins(OpCompare(Le, false), 0, 0), Ins(OpAnd, 0, 0)];
    Split4(c, a, left + [Ins(OpDup, 0, 0)] + low, mid, high, end);
    BetweenHead(c, left, low, a);
    FetchTwo(c, a + |left| + 1 + |low|, mid);
    FetchTwo(c, a + |left| + |low| + |high| + 3, end);
  }

  lemma Split4(c: Context, a: nat, w: seq<Op>, x: seq<Op>, y: seq<Op>, z: seq<Op>)
    requires c.Has(a, w + x + y + z)
    ensures c.Has(a, w) && c.Has(a + |w|, x) && c.Has(a + |w| + |x|, y) && c.Has(a + |w| + |x| + |y|, z)
  {
    c.Split(a, w + x + y, z);
    c.Split(a, w + x, y);
    c.Split(a, w, x);
  }

  lemma FetchTwo(c: Context, a: nat, code: seq<Op>)
    requires c.Has(a, code) && |code| == 2
    ensures c.prog[a] == code[0] && c.prog[a + 1] == code[1] && c.lo <= a && a + 1 < c.hi <= |c.prog|
  {
    c.Fetch(a, code, 0);
    c.Fetch(a, code, 1);
  }

  lemma BetweenHead(c: Context, left: seq<Op>, low: seq<Op>, a: nat)
    requires c.Has(a, left + [Ins(OpDup, 0, 0)] + low)
    ensures c.Has(a, left) && c.prog[a + |left|] == Ins(OpDup, 0, 0) && c.Has(a + |left| + 1, low)
    ensures c.lo <= a + |left| < c.hi <= |c.prog|
  {
    c.Split(a, left + [Ins(OpDup, 0, 0)], low);
    OpAt(c, a, left, Ins(OpDup, 0, 0));
  }

  /** First half of BETWEEN for value: the operand under the result of the lower test. */
  lemma BetweenLower(c: Context, a: nat, s: seq<Value>, d: nat, x: seq<Value>, y: seq<Value>) returns (u: seq<Value>)
    requires |x| >= 1 && |y| >= 1 && c.lo <= d && d + 1 < c.hi <= |c.prog|
    requires c.prog[d] == Ins(OpCompare(Ge, false), 0, 0) && c.prog[d + 1] == Ins(OpPull, 1, 0)
    requires c.Goes(a, s, d, s + x + [Top(x)] + y)
    ensures c.Goes(a, s, d + 2, s + u) && |u| == |x| + |y|
    ensures |x| == 1 && |y| == 1 ==> u == [FromTruth(Compare(c.H(), Ge, false, x[0], y[0])), x[0]]
  {
    var t := s + x + [Top(x)] + y;
    var v := FromTruth(Compare(c.H(), Ge, false, Next(t), Top(t)));
    var z := x + [Top(x)];
    ThenCompareValue(c, a, s, d, t, Ge);
    assert t == s + z + y;
    var w := PopTwo(s, z, y, v);
    ThenPull(c, a, s, d + 1, s + w);
    u := w[..|w| - 2] + [Top(w), Next(w)];
    assert Drop(s + w, 2) + [Top(s + w), Next(s + w)] == s + u;
    if |x| == 1 && |y| == 1 {
      assert Drop(s + z + y, 2) == s + x && Next(t) == x[0] && Top(t) == y[0];
      assert s + w == s + (x + [v]);
      assert w == (s + w)[|s|..] == x + [v];
    }
  }

  lemma BetweenUpper(c: Context, a: nat, s: seq<Value>, f: nat, u: seq<Value>, z: seq<Value>) returns (out: seq<Value>)
    requires |u| >= 2 && |z| >= 1 && c.lo <= f && f + 1 < c.hi <= |c.prog|
    requires c.prog[f] == Ins(OpCompare(Le, false), 0, 0) && c.prog[f + 1] == Ins(OpAnd, 0, 0)
    requires c.Goes(a, s, f, s + u + z)
    ensures c.Goes(a, s, f + 2, s + out) && |out| == |u| + |z| - 2
    ensures |u| == 2 && |z| == 1 ==>
              out == [FromTruth(And3(TruthOf(c.H(), u[0]), Compare(c.H(), Le, false, u[1], z[0])))]
  {
    var t := s + u + z;
    var v := FromTruth(Compare(c.H(), Le, false, Next(t), Top(t)));
    ThenCompareValue(c, a, s, f, t, Le);
    var w := PopTwo(s, u, z, v);
    var r := FromTruth(And3(TruthOf(c.H(), Next(s + w)), TruthOf(c.H(), Top(s + w))));
    ThenAnd(c, a, s, f + 1, s + w);
    out := w[..|w| - 2] + [r];
    assert Drop(s + w, 2) + [r] == s + out;
    if |u| == 2 && |z| == 1 {
      assert Drop(t, 2) + [v] == s + [u[0], v];
      assert w == (s + w)[|s|..] == [u[0], v];
    }
  }

  /** Function arguments: one value each, in order. */
  ghost predicate LeavesArgs(out: seq<Value>, es: Exprs, useAgg: bool, env: Env) {
    |out| >= Count(es)
    && (LeaksArgs(es, useAgg, env) ==> |out| > Count(es))
    && (!LeaksArgs(es, useAgg, env) ==> out == EvalAll(es, useAgg, env))
  }

  lemma FunctionRuns(c: Context, def: int, n: nat, args: seq<Op>, a: nat, s: seq<Value>, x: seq<Value>)
    returns (out: seq<Value>)
    requires c.Has(a, args + [Op(OpFunction, n, 0, FunctionP3(def))]) && |x| >= n
    requires c.Goes(a, s, a + |args|, s + x)
    ensures c.Goes(a, s, a + |args| + 1, s + out) && |out| == |x| - n + 1
    ensures |x| == n ==> out == [c.Env().call(def, x)]
  {
    OpAt(c, a, args, Op(OpFunction, n, 0, FunctionP3(def)));
    var t := s + x;
    var v := c.Env().call(def, t[|t| - n..]);
    out := x[..|x| - n] + [v];
    assert Drop(t, n) + [v] == s + out;
    if |x| == n { assert t[|t| - n..] == x; }
    c.ThenDo(a, s, a + |args|, t, a + |args| + 1, s + out);
  }

  /** The test of one WHEN. `u` is what lies above `s`: with a base, its top is the base value,
      and a test that succeeds removes it. */
  lemma WhenTestRuns(c: Context, hasBase: bool, a: nat, s0: seq<Value>, s: seq<Value>, d: nat, u: seq<Value>,
                     y: seq<Value>, next: nat)
    returns (jumped: bool, z: seq<Value>)
    requires c.Has(d, WhenTest(hasBase, next)) && next != 0 && |u| >= BoolInt(hasBase) && |y| >= 1
    requires c.Goes(a, s0, d, s + u + y)
    ensures c.Goes(a, s0, if jumped then next else d + |WhenTest(hasBase, next)|, s + z)
    ensures |z| == |u| + |y| - 1 - BoolInt(hasBase && !jumped)
    ensures |y| == 1 ==> jumped == !Chosen(c.H(), if hasBase then Some(Top(u)) else None, y[0])
    ensures |y| == 1 ==> z == if hasBase && !jumped then u[..|u| - 1] else u
  {
    if hasBase {
      jumped, z := WhenBase(c, a, s0, s, d, u + y, next) by { assert s + u + y == s + (u + y); }
    } else {
      jumped, z := WhenPlain(c, a, s0, s, d, u + y, next) by { assert s + u + y == s + (u + y); }
    }
  }

  lemma WhenPlain(c: Context, a: nat, s0: seq<Value>, s: seq<Value>, d: nat, w: seq<Value>, next: nat)
    returns (jumped: bool, z: seq<Value>)
    requires c.Has(d, WhenTest(false, next)) && |w| >= 1 && c.Goes(a, s0, d, s + w)
    ensures jumped == !Chosen(c.H(), None, Top(w)) && z == w[..|w| - 1]
    ensures c.Goes(a, s0, if jumped then next else d + 1, s + z)
  {
    c.Fetch(d, WhenTest(false, next), 0);
    z := w[..|w| - 1];
    jumped := TruthOf(c.H(), Top(w)) != True;
    assert Drop(s + w, 1) == s + z;
    c.ThenDo(a, s0, d, s + w, if jumped then next else d + 1, s + z);
  }

  lemma WhenBase(c: Context, a: nat, s0: seq<Value>, s: seq<Value>, d: nat, w: seq<Value>, next: nat)
    returns (jumped: bool, z: seq<Value>)
    requires c.Has(d, WhenTest(true, next)) && next != 0 && |w| >= 2 && c.Goes(a, s0, d, s + w)
    ensures jumped == !Chosen(c.H(), Some(Next(w)), Top(w)) && z == w[..|w| - (if jumped then 1 else 2)]
    ensures c.Goes(a, s0, if jumped then next else d + 3, s + z)
  {
    jumped := WhenCompare(c, a, s0, d, s + w, next);
    z := w[..|w| - (if jumped then 1 else 2)];
    assert Drop(s + w, 1) == s + w[..|w| - 1];
    if !jumped {
      ThenPop(c, a, s0, d + 2, s + w[..|w| - 1]);
      assert Drop(s + w[..|w| - 1], 1) == s + z;
    }
  }

  lemma WhenCompare(c: Context, a: nat, s: seq<Value>, d: nat, t: seq<Value>, next: nat) returns (jumped: bool)
    requires c.Has(d, WhenTest(true, next)) && next != 0 && |t| >= 2 && c.Goes(a, s, d, t)
    ensures jumped == !Chosen(c.H(), Some(Next(t)), Top(t))
    ensures c.Goes(a, s, if jumped then next else d + 2, Drop(t, 1))
    ensures c.prog[d + 2] == Ins(OpPop, 1, 0) && c.lo <= d && d + 2 < c.hi <= |c.prog|
  {
    c.Fetch(d, WhenTest(true, next), 0);
    c.Fetch(d, WhenTest(true, next), 1);
    c.Fetch(d, WhenTest(true, next), 2);
    ThenDup(c, a, s, d, t, 1);
    var u := t + [Next(t)];
    var pc := ThenCompare(c, a, s, d + 1, u, Ne, false, true, next);
    jumped := !Chosen(c.H(), Some(Next(t)), Top(t));
    assert Drop(u, 2) == Drop(t, 1);
  }

  lemma WhensCodeAt(c: Context, ws: Whens, hasBase: bool, a: nat, end: int)
    requires ws.When? && c.Has(a, WhensCode(c.H(), ws, hasBase, c.useAgg, a, end))
    ensures var d := a + ValueLen(ws.cond);
            var t := d + |WhenTest(hasBase, 0)|;
            var g := t + ValueLen(ws.result);
            && c.Has(a, ValueCode(c.H(), ws.cond, c.useAgg, a)) && c.Has(d, WhenTest(hasBase, g + 1))
            && c.Has(t, ValueCode(c.H(), ws.result, c.useAgg, t)) && c.prog[g] == Ins(OpGoto, 0, end)
            && c.lo <= g < c.hi <= |c.prog|
            && c.Has(g + 1, WhensCode(c.H(), ws.rest, hasBase, c.useAgg, g + 1, end))
  {
    hide Context.Has, ValueCode, ValueLen, WhensLen, WhensCode;
    WhenCodeIs(c.H(), c.useAgg, hasBase, ws, a, end);
    var d := a + ValueLen(ws.cond);
    var t := d + |WhenTest(hasBase, 0)|;
    var g := t + ValueLen(ws.result);
    var w, x, y, z := ValueCode(c.H(), ws.cond, c.useAgg, a), WhenTest(hasBase, g + 1),
                      ValueCode(c.H(), ws.result, c.useAgg, t),
                        WhensCode(c.H(), ws.rest, hasBase, c.useAgg, g + 1, end);
    c.Split(a, w + x + y + [Ins(OpGoto, 0, end)], z);
    Split4(c, a, w, x, y, [Ins(OpGoto, 0, end)]);
    c.Fetch(g, [Ins(OpGoto, 0, end)], 0);
  }

  /** What is above the stack after the WHEN branches: a result if one was chosen, otherwise
      what was there before, plus anything leaked. */
  ghost predicate LeavesWhens(chosen: bool, z: seq<Value>, ws: Whens, hasBase: bool, u: seq<Value>,
                              o: bool, ov: Value, useAgg: bool, env: Env)
    requires |u| >= BoolInt(hasBase)
  {
    && |z| >= |u| + (if chosen then 1 - BoolInt(hasBase) else 0)
    && (|u| == BoolInt(hasBase) ==>
          var base := if hasBase then Some(u[0]) else None;
          if chosen then
            if LeaksWhens(ws, base, o, useAgg, env) then |z| >= 2 else z == [EvalWhens(ws, base, ov, useAgg, env)]
          else if |z| == |u| then
            z == u && LeaksWhens(ws, base, o, useAgg, env) == o && EvalWhens(ws, base, ov, useAgg, env) == ov
          else LeaksWhens(ws, base, o, useAgg, env))
  }

  // The induction over expressions.

  lemma ValueRuns(c: Context, e: Expr, a: nat, s: seq<Value>) returns (out: seq<Value>)
    requires c.Has(a, ValueCode(c.H(), e, c.useAgg, a))
    ensures c.Goes(a, s, a + ValueLen(e), s + out)
    ensures Leaves(out, e, c.useAgg, c.Env())
    decreases e, 3
  {
    hide Context.Goes, Context.Has;
    if IsLeaf(e) {
      LeafRuns(c, e, a, s);
      out := [Eval(e, c.useAgg, c.Env())];
    } else if IsBinary(e) {
      out := OperandsRun(c, e, a, s);
    } else if IsUnary(e) {
      out := OperandRuns(c, e, a, s);
    } else {
      out := OtherRuns(c, e, a, s);
    }
  }

  lemma OperandsRun(c: Context, e: Expr, a: nat, s: seq<Value>) returns (out: seq<Value>)
    requires IsBinary(e) && c.Has(a, ValueCode(c.H(), e, c.useAgg, a))
    ensures c.Goes(a, s, a + ValueLen(e), s + out)
    ensures Leaves(out, e, c.useAgg, c.Env())
    decreases e, 2
  {
    hide Context.Goes, Context.Has, ValueCode, Leaks, Eval, ValueLen, BinaryResult;
    BinaryCodeIs(c.H(), e, c.useAgg, a);
    var l, r := ValueCode(c.H(), e.left, c.useAgg, a), ValueCode(c.H(), e.right, c.useAgg, a + ValueLen(e.left));
    c.Split(a, l + r, [BinaryOp(e)]);
    c.Split(a, l, r);
    var x := ValueRuns(c, e.left, a, s);
    var y := ValueRuns(c, e.right, a + ValueLen(e.left), s + x);
    out := BinaryRuns(c, e, l, r, a, s, x, y);
    BinaryMeans(e, c.useAgg, c.Env());
  }

  lemma OperandRuns(c: Context, e: Expr, a: nat, s: seq<Value>) returns (out: seq<Value>)
    requires IsUnary(e) && c.Has(a, ValueCode(c.H(), e, c.useAgg, a))
    ensures c.Goes(a, s, a + ValueLen(e), s + out)
    ensures Leaves(out, e, c.useAgg, c.Env())
    decreases e, 2
  {
    hide Context.Goes, Context.Has;
    var l := ValueCode(c.H(), e.left, c.useAgg, a);
    c.Split(a, l, [UnaryOp(e)]);
    var x := ValueRuns(c, e.left, a, s);
    out := UnaryRuns(c, UnaryOp(e).opcode, l, a, s, x);
    UnaryMeans(e, c.useAgg, c.Env());
  }

  lemma OtherRuns(c: Context, e: Expr, a: nat, s: seq<Value>) returns (out: seq<Value>)
    requires !IsLeaf(e) && !IsBinary(e) && !IsUnary(e)
    requires c.Has(a, ValueCodeOther(c.H(), e, c.useAgg, a))
    ensures c.Goes(a, s, a + ValueLen(e), s + out)
    ensures Leaves(out, e, c.useAgg, c.Env())
    decreases e, 2
  {
    hide Context.Goes, Context.Has;
    if e.Shift? {
      out := ShiftOperandsRun(c, e, a, s);
    } else if e.IsNull? || e.NotNull? {
      out := NullTestOperandRuns(c, e, a, s);
    } else if e.In? {
      out := InOperandRuns(c, e, a, s);
    } else if e.Function? {
      var code := ArgsCode(c.H(), e.args, c.useAgg, a);
      c.Split(a, code, [Op(OpFunction, Count(e.args), 0, FunctionP3(e.def))]);
      var x := ArgsRuns(c, e.args, a, s);
      out := FunctionRuns(c, e.def, Count(e.args), code, a, s, x);
    } else if e.Between? {
      out := BetweenRuns(c, e, a, s);
    } else if e.Case? {
      out := CaseRuns(c, e, a, s);
    } else {
      out := ValueRuns(c, e.left, a, s);
    }
  }

  lemma ShiftOperandsRun(c: Context, e: Expr, a: nat, s: seq<Value>) returns (out: seq<Value>)
    requires e.Shift? && c.Has(a, ValueCodeOther(c.H(), e, c.useAgg, a))
    ensures c.Goes(a, s, a + ValueLen(e), s + out)
    ensures Leaves(out, e, c.useAgg, c.Env())
    decreases e, 1
  {
    hide Context.Goes, Context.Has, ValueCode, ValueCodeOther, Leaks, Eval, ValueLen;
    ShiftCodeIs(c.H(), e, c.useAgg, a);
    var r, l := ValueCode(c.H(), e.right, c.useAgg, a), ValueCode(c.H(), e.left, c.useAgg, a + ValueLen(e.right));
    c.Split(a, r + l, [Ins(OpShift(e.shiftOp), 0, 0)]);
    c.Split(a, r, l);
    var x := ValueRuns(c, e.right, a, s);
    var y := ValueRuns(c, e.left, a + ValueLen(e.right), s + x);
    out := ShiftRuns(c, e.shiftOp, l, r, a, s, x, y);
    ShiftMeans(e, c.useAgg, c.Env());
  }

  lemma NullTestOperandRuns(c: Context, e: Expr, a: nat, s: seq<Value>) returns (out: seq<Value>)
    requires (e.IsNull? || e.NotNull?) && c.Has(a, ValueCodeOther(c.H(), e, c.useAgg, a))
    ensures c.Goes(a, s, a + ValueLen(e), s + out)
    ensures Leaves(out, e, c.useAgg, c.Env())
    decreases e, 1
  {
    hide Context.Goes, Context.Has, ValueCode;
    var l := ValueCode(c.H(), e.left, c.useAgg, a + 1);
    var opcode := if e.IsNull? then OpIsNull else OpNotNull;
    NullTestCodeAt(c, opcode, l, a);
    var x := ValueRuns(c, e.left, a + 1, s + [Number(1)]);
    out := NullTestRuns(c, opcode, l, a, s, x);
  }

  lemma InOperandRuns(c: Context, e: Expr, a: nat, s: seq<Value>) returns (out: seq<Value>)
    requires e.In? && c.Has(a, ValueCodeOther(c.H(), e, c.useAgg, a))
    ensures c.Goes(a, s, a + ValueLen(e), s + out)
    ensures Leaves(out, e, c.useAgg, c.Env())
    decreases e, 1
  {
    hide Context.Goes, Context.Has, ValueCode, Membership;
    var l := ValueCode(c.H(), e.left, c.useAgg, a + 1);
    ValueInCodeAt(c, e.rhs, e.fromSelect, l, a);
    var x := ValueRuns(c, e.left, a + 1, s + [Number(1)]);
    out := ValueInRuns(c, e.rhs, e.fromSelect, l, a, s, x);
  }

  lemma ArgsRuns(c: Context, es: Exprs, a: nat, s: seq<Value>) returns (out: seq<Value>)
    requires c.Has(a, ArgsCode(c.H(), es, c.useAgg, a))
    ensures c.Goes(a, s, a + ArgsLen(es), s + out)
    ensures LeavesArgs(out, es, c.useAgg, c.Env())
    decreases es
  {
    hide Context.Goes, Context.Has, ValueCode, Leaks, Eval, ValueLen;
    match es
    case Nil =>
      c.Stay(a, s);
      out := [];
      assert s + out == s;
    case Cons(e, tail) =>
      var b := a + ValueLen(e);
      c.Split(a, ValueCode(c.H(), e, c.useAgg, a), ArgsCode(c.H(), tail, c.useAgg, b));
      var x := ValueRuns(c, e, a, s);
      var y := ArgsRuns(c, tail, b, s + x);
      out := x + y;
      assert s + x + y == s + out;
      c.Then(a, s, b, s + x, a + ArgsLen(es), s + out);
  }

  lemma BetweenMeans(e: Expr, useAgg: bool, env: Env)
    requires e.Between?
    ensures Eval(e, useAgg, env)
            == FromTruth(Within(env.h, Eval(e.left, useAgg, env), Eval(e.low, useAgg, env), Eval(e.high, useAgg, env)))
    ensures Leaks(e, useAgg, env)
            == (Leaks(e.left, useAgg, env) || Leaks(e.low, useAgg, env) || Leaks(e.high, useAgg, env))
    ensures ValueLen(e) == ValueLen(e.left) + ValueLen(e.low) + ValueLen(e.high) + 5
    ensures forall t: Truth :: TruthOf(env.h, FromTruth(t)) == t
  {
  }

  lemma BetweenRuns(c: Context, e: Expr, a: nat, s: seq<Value>) returns (out: seq<Value>)
    requires e.Between? && c.Has(a, ValueCodeOther(c.H(), e, c.useAgg, a))
    ensures c.Goes(a, s, a + ValueLen(e), s + out)
    ensures Leaves(out, e, c.useAgg, c.Env())
    decreases e, 0
  {
    hide Context.Goes, Context.Has, Eval, Leaks, ValueLen, ValueCode, Compare;
    BetweenMeans(e, c.useAgg, c.Env());
    var b := a + ValueLen(e.left);
    var d := b + 1 + ValueLen(e.low);
    var f := d + 2 + ValueLen(e.high);
    ValueBetweenCodeAt(c, ValueCode(c.H(), e.left, c.useAgg, a), ValueCode(c.H(), e.low, c.useAgg, b + 1),
                       ValueCode(c.H(), e.high, c.useAgg, d + 2), a);
    var x := ValueRuns(c, e.left, a, s);
    ThenDup(c, a, s, b, s + x, 0);
    var y := ValueRuns(c, e.low, b + 1, s + x + [Top(x)]);
    c.Then(a, s, b + 1, s + x + [Top(x)], d, s + x + [Top(x)] + y);
    var u := BetweenLower(c, a, s, d, x, y);
    var z := ValueRuns(c, e.high, d + 2, s + u);
    c.Then(a, s, d + 2, s + u, f, s + u + z);
    out := BetweenUpper(c, a, s, f, u, z);
  }

  lemma CaseCodeAt(c: Context, e: Expr, a: nat)
    requires e.Case? && c.Has(a, ValueCodeOther(c.H(), e, c.useAgg, a))
    ensures var hasBase := e.base.TheExpr?;
            var b := a + (if hasBase then ValueLen(e.base.e) else 0);
            var d := b + WhensLen(e.whens, hasBase);
            && (hasBase ==> c.Has(a, ValueCode(c.H(), e.base.e, c.useAgg, a)))
            && c.Has(b, WhensCode(c.H(), e.whens, hasBase, c.useAgg, b, a + ValueLen(e)))
            && c.Has(d, if hasBase then [Ins(OpPop, 1, 0)] else [])
            && c.Has(d + BoolInt(hasBase),
                     if e.otherwise.TheExpr? then ValueCode(c.H(), e.otherwise.e, c.useAgg, d + BoolInt(hasBase))
                                           else [Ins(OpString, 0, 0)])
  {
    hide Context.Has, ValueCode, ValueLen, WhensCode, WhensLen;
    var hasBase := e.base.TheExpr?;
    var b := a + (if hasBase then ValueLen(e.base.e) else 0);
    var d := b + WhensLen(e.whens, hasBase);
    Split4(c, a, if hasBase then ValueCode(c.H(), e.base.e, c.useAgg, a) else [],
           WhensCode(c.H(), e.whens, hasBase, c.useAgg, b, a + ValueLen(e)),
           if hasBase then [Ins(OpPop, 1, 0)] else [],
           if e.otherwise.TheExpr? then ValueCode(c.H(), e.otherwise.e, c.useAgg, d + BoolInt(hasBase))
           else [Ins(OpString, 0, 0)]);
  }

  lemma CaseMeans(e: Expr, useAgg: bool, env: Env)
    requires e.Case?
    ensures var base := if e.base.TheExpr? then Some(Eval(e.base.e, useAgg, env)) else None;
            && Eval(e, useAgg, env)
               == EvalWhens(e.whens, base, if e.otherwise.TheExpr? then Eval(e.otherwise.e, useAgg, env) else Null,
                            useAgg, env)
            && Leaks(e, useAgg, env)
               == ((e.base.TheExpr? && Leaks(e.base.e, useAgg, env))
                   || LeaksWhens(e.whens, base, e.otherwise.TheExpr? && Leaks(e.otherwise.e, useAgg, env), useAgg, env))
    ensures ValueLen(e) == (if e.base.TheExpr? then ValueLen(e.base.e) + 1 else 0) + WhensLen(e.whens, e.base.TheExpr?)
                           + (if e.otherwise.TheExpr? then ValueLen(e.otherwise.e) else 1)
  {
  }

  /** Puts together what the base, the branches not chosen and the ELSE of a CASE leave. */
  lemma CaseLeaves(e: Expr, useAgg: bool, env: Env, u: seq<Value>, z: seq<Value>, y: seq<Value>)
    requires e.Case?
    requires if e.base.TheExpr? then Leaves(u, e.base.e, useAgg, env) else u == []
    requires LeavesWhens(false, z, e.whens, e.base.TheExpr?, u,
                         e.otherwise.TheExpr? && Leaks(e.otherwise.e, useAgg, env),
                         if e.otherwise.TheExpr? then Eval(e.otherwise.e, useAgg, env) else Null, useAgg, env)
    requires if e.otherwise.TheExpr? then Leaves(y, e.otherwise.e, useAgg, env) else y == [Null]
    ensures Leaves(z[..|z| - BoolInt(e.base.TheExpr?)] + y, e, useAgg, env)
  {
    hide Eval, Leaks, EvalWhens, LeaksWhens;
    CaseMeans(e, useAgg, env);
  }

  lemma CaseChosen(e: Expr, useAgg: bool, env: Env, u: seq<Value>, z: seq<Value>)
    requires e.Case?
    requires if e.base.TheExpr? then Leaves(u, e.base.e, useAgg, env) else u == []
    requires LeavesWhens(true, z, e.whens, e.base.TheExpr?, u,
                         e.otherwise.TheExpr? && Leaks(e.otherwise.e, useAgg, env),
                         if e.otherwise.TheExpr? then Eval(e.otherwise.e, useAgg, env) else Null, useAgg, env)
    ensures Leaves(z, e, useAgg, env)
  {
    hide Eval, Leaks, EvalWhens, LeaksWhens;
    CaseMeans(e, useAgg, env);
  }

  lemma CaseRuns(c: Context, e: Expr, a: nat, s: seq<Value>) returns (out: seq<Value>)
    requires e.Case? && c.Has(a, ValueCodeOther(c.H(), e, c.useAgg, a))
    ensures c.Goes(a, s, a + ValueLen(e), s + out)
    ensures Leaves(out, e, c.useAgg, c.Env())
    decreases e, 1
  {
    hide Context.Goes, Context.Has, Leaves, LeavesWhens, Leaks, LeaksWhens, ValueLen, WhensLen, Eval, EvalWhens,
         ValueCode, ValueCodeOther, WhensCode;
    CaseMeans(e, c.useAgg, c.Env());
    CaseCodeAt(c, e, a);
    var hasBase := e.base.TheExpr?;
    var b := a + (if hasBase then ValueLen(e.base.e) else 0);
    var d := b + WhensLen(e.whens, hasBase);
    var end := a + ValueLen(e);
    var o, ov := e.otherwise.TheExpr? && Leaks(e.otherwise.e, c.useAgg, c.Env()),
                 if e.otherwise.TheExpr? then Eval(e.otherwise.e, c.useAgg, c.Env()) else Null;
    var u := BaseRuns(c, e.base, a, s, e);
    var chosen, z := WhensRuns(c, e.whens, hasBase, b, end, s, u, o, ov);
    c.Then(a, s, b, s + u, if chosen then end else d, s + z);
    if chosen {
      out := z;
      CaseChosen(e, c.useAgg, c.Env(), u, z);
    } else {
      var z' := AfterWhens(c, hasBase, a, s, d, z);
      var y := ElseRuns(c, e.otherwise, d + BoolInt(hasBase), s + z', e);
      c.Then(a, s, d + BoolInt(hasBase), s + z', end, s + z' + y);
      out := z' + y;
      assert s + z' + y == s + out;
      CaseLeaves(e, c.useAgg, c.Env(), u, z, y);
    }
  }

  lemma BaseRuns(c: Context, o: OptExpr, a: nat, s: seq<Value>, e: Expr) returns (u: seq<Value>)
    requires e.Case? && e.base == o
    requires o.TheExpr? ==> c.Has(a, ValueCode(c.H(), o.e, c.useAgg, a))
    ensures c.Goes(a, s, a + (if o.TheExpr? then ValueLen(o.e) else 0), s + u)
    ensures if o.TheExpr? then Leaves(u, o.e, c.useAgg, c.Env()) else u == []
    ensures |u| >= BoolInt(o.TheExpr?)
    decreases e, 0
  {
    if o.TheExpr? {
      u := ValueRuns(c, o.e, a, s);
    } else {
      u := [];
      assert s + u == s;
      c.Stay(a, s);
    }
  }

  lemma ElseRuns(c: Context, o: OptExpr, a: nat, s: seq<Value>, e: Expr) returns (y: seq<Value>)
    requires e.Case? && e.otherwise == o
    requires c.Has(a, if o.TheExpr? then ValueCode(c.H(), o.e, c.useAgg, a) else [Ins(OpString, 0, 0)])
    ensures c.Goes(a, s, a + (if o.TheExpr? then ValueLen(o.e) else 1), s + y)
    ensures if o.TheExpr? then Leaves(y, o.e, c.useAgg, c.Env()) else y == [Null]
    decreases e, 0
  {
    if o.TheExpr? {
      y := ValueRuns(c, o.e, a, s);
    } else {
      c.Fetch(a, [Ins(OpString, 0, 0)], 0);
      c.Stay(a, s);
      ThenNull(c, a, s, a, s);
      y := [Null];
    }
  }

  lemma AfterWhens(c: Context, hasBase: bool, a: nat, s: seq<Value>, d: nat, z: seq<Value>) returns (z': seq<Value>)
    requires c.Has(d, if hasBase then [Ins(OpPop, 1, 0)] else []) && |z| >= BoolInt(hasBase) && c.Goes(a, s, d, s + z)
    ensures c.Goes(a, s, d + BoolInt(hasBase), s + z') && z' == z[..|z| - BoolInt(hasBase)]
  {
    z' := z[..|z| - BoolInt(hasBase)];
    if hasBase {
      c.Fetch(d, [Ins(OpPop, 1, 0)], 0);
      ThenPop(c, a, s, d, s + z);
      assert Drop(s + z, 1) == s + z';
    }
  }

  lemma WhenTaken(ws: Whens, hasBase: bool, u: seq<Value>, y: seq<Value>, v: seq<Value>, r: seq<Value>,
                  o: bool, ov: Value, useAgg: bool, env: Env)
    requires ws.When? && |u| >= BoolInt(hasBase) && Leaves(y, ws.cond, useAgg, env) && Leaves(r, ws.result, useAgg, env)
    requires |v| == |u| + |y| - 1 - BoolInt(hasBase)
    requires |y| == 1 ==> Chosen(env.h, if hasBase then Some(Top(u)) else None, y[0])
                          && v == if hasBase then u[..|u| - 1] else u
    ensures LeavesWhens(true, v + r, ws, hasBase, u, o, ov, useAgg, env)
  {
    hide Eval, Leaks;
  }

  lemma WhenSkipped(ws: Whens, hasBase: bool, u: seq<Value>, y: seq<Value>, v: seq<Value>, chosen: bool, z: seq<Value>,
                    o: bool, ov: Value, useAgg: bool, env: Env)
    requires ws.When? && |u| >= BoolInt(hasBase) && Leaves(y, ws.cond, useAgg, env) && |v| == |u| + |y| - 1
    requires |y| == 1 ==> !Chosen(env.h, if hasBase then Some(Top(u)) else None, y[0]) && v == u
    requires LeavesWhens(chosen, z, ws.rest, hasBase, v, o, ov, useAgg, env)
    ensures LeavesWhens(chosen, z, ws, hasBase, u, o, ov, useAgg, env)
  {
    hide Eval, Leaks;
  }

  lemma NoWhens(ws: Whens, hasBase: bool, u: seq<Value>, o: bool, ov: Value, useAgg: bool, env: Env)
    requires ws.Done? && |u| >= BoolInt(hasBase)
    ensures LeavesWhens(false, u, ws, hasBase, u, o, ov, useAgg, env)
  {
  }

  lemma WhensRuns(c: Context, ws: Whens, hasBase: bool, a: nat, end: int, s: seq<Value>, u: seq<Value>, o: bool,
                  ov: Value)
    returns (chosen: bool, z: seq<Value>)
    requires c.Has(a, WhensCode(c.H(), ws, hasBase, c.useAgg, a, end)) && |u| >= BoolInt(hasBase)
    ensures c.Goes(a, s + u, if chosen then end else a + WhensLen(ws, hasBase), s + z)
    ensures LeavesWhens(chosen, z, ws, hasBase, u, o, ov, c.useAgg, c.Env())
    ensures |z| >= BoolInt(hasBase && !chosen)
    decreases ws
  {
    hide Context.Goes, Context.Has, ValueLen, ValueCode, Chosen, WhensCode, LeavesWhens, LeaksWhens, EvalWhens, Leaks,
         Eval;
    match ws
    case Done =>
      chosen, z := false, u;
      c.Stay(a, s + u);
      NoWhens(ws, hasBase, u, o, ov, c.useAgg, c.Env());
    case When(cond, result, rest) =>
      WhensCodeAt(c, ws, hasBase, a, end);
      var d := a + ValueLen(cond);
      var t := d + |WhenTest(hasBase, 0)|;
      var g := t + ValueLen(result);
      var y := ValueRuns(c, cond, a, s + u);
      c.Then(a, s + u, a, s + u, d, s + u + y) by { c.Stay(a, s + u); }
      var jumped, v := WhenTestRuns(c, hasBase, a, s + u, s, d, u, y, g + 1);
      if jumped {
        chosen, z := WhensRuns(c, rest, hasBase, g + 1, end, s, v, o, ov);
        c.Then(a, s + u, g + 1, s + v, if chosen then end else a + WhensLen(ws, hasBase), s + z);
        WhenSkipped(ws, hasBase, u, y, v, chosen, z, o, ov, c.useAgg, c.Env());
      } else {
        var r := ValueRuns(c, result, t, s + v);
        c.Then(a, s + u, t, s + v, g, s + v + r);
        ThenGoto(c, a, s + u, g, s + v + r, end);
        chosen, z := true, v + r;
        assert s + v + r == s + z;
        WhenTaken(ws, hasBase, u, y, v, r, o, ov, c.useAgg, c.Env());
      }
  }

  // Jumps.

  /** What a jump fragment does: it ends at its target or just behind itself, according to the
      truth value of `e`, with the stack as it was, unless something leaks. */
  ghost predicate JumpsAs(jumped: bool, g: seq<Value>, e: Expr, sense: bool, jumpIfNull: bool, useAgg: bool, env: Env) {
    && (LeaksJump(e, sense, jumpIfNull, useAgg, env) ==> |g| >= 1)
    && (!LeaksJump(e, sense, jumpIfNull, useAgg, env) ==>
          g == [] && jumped == Taken(TruthIn(e, useAgg, env), sense, jumpIfNull))
  }

  /** One instruction that pops its operands and may jump ends the code of a test. */
  lemma TestEnds(c: Context, code: seq<Op>, op: Op, a: nat, s: seq<Value>, x: seq<Value>, n: nat, jumped: bool)
    returns (g: seq<Value>)
    requires c.Has(a, code + [op]) && |x| >= n && c.Goes(a, s, a + |code|, s + x)
    requires Step(c.prog, c.w, c.At(a + |code|, s + x))
             == c.At(if jumped then op.p2 else a + |code| + 1, Drop(s + x, n))
    ensures c.Goes(a, s, if jumped then op.p2 else a + |code| + 1, s + g) && g == x[..|x| - n]
  {
    OpAt(c, a, code, op);
    g := x[..|x| - n];
    assert Drop(s + x, n) == s + g;
    c.ThenDo(a, s, a + |code|, s + x, if jumped then op.p2 else a + |code| + 1, s + g);
  }

  lemma NegationHolds(h: Helpers, rel: Relation, text: bool, x: Value, y: Value, sense: bool, jumpIfNull: bool)
    ensures Taken(Compare(h, if sense then rel else Negation(rel), text, x, y), true, jumpIfNull)
            == Taken(Compare(h, rel, text, x, y), sense, jumpIfNull)
  {
  }

  lemma IfStep(c: Context, b: nat, t: seq<Value>, sense: bool, onNull: bool, d: int)
    requires c.lo <= b < c.hi <= |c.prog| && |t| >= 1
    requires c.prog[b] == Ins(if sense then OpIf else OpIfNot, BoolInt(onNull), d)
    ensures Step(c.prog, c.w, c.At(b, t))
            == c.At(if Taken(TruthOf(c.H(), Top(t)), sense, onNull) then d else b + 1, Drop(t, 1))
  {
  }

  lemma TestUnfolds(e: Expr, sense: bool, jumpIfNull: bool, useAgg: bool, env: Env)
    requires !e.And? && !e.Or? && !e.Not?
    ensures JumpLen(e, sense) == TestLen(e)
    ensures !e.In? && !e.Between? ==> LeaksJump(e, sense, jumpIfNull, useAgg, env) == Leaks(e, useAgg, env)
    ensures e.In? ==> LeaksJump(e, sense, jumpIfNull, useAgg, env) == Leaks(e.left, useAgg, env)
    ensures e.IsNull? || e.NotNull? ==>
              Leaks(e, useAgg, env) == Leaks(e.left, useAgg, env)
              && TruthIn(e, useAgg, env) == Of(Eval(e.left, useAgg, env).Null? == e.IsNull?)
    ensures e.In? ==> TruthIn(e, useAgg, env) == Membership(env, e.fromSelect, e.rhs, Eval(e.left, useAgg, env))
  {
  }

  lemma CompareDecides(e: Expr, sense: bool, jumpIfNull: bool, useAgg: bool, env: Env, x: seq<Value>, y: seq<Value>,
                       jumped: bool)
    requires e.Comparison? && Leaves(x, e.left, useAgg, env) && Leaves(y, e.right, useAgg, env)
    requires jumped == Taken(Compare(env.h, if sense then e.rel else Negation(e.rel), TypeOf(e) == TextType,
                                     Next(x + y), Top(x + y)),
                             true, jumpIfNull)
    ensures JumpsAs(jumped, (x + y)[..|x + y| - 2], e, sense, jumpIfNull, useAgg, env)
  {
    hide Leaks, Eval, Compare, Taken, LeaksJump, JumpLen, TypeOf;
    BinaryMeans(e, useAgg, env);
    ComparisonMeans(e, useAgg, env);
    TestUnfolds(e, sense, jumpIfNull, useAgg, env);
    NegationHolds(env.h, e.rel, TypeOf(e) == TextType, Next(x + y), Top(x + y), sense, jumpIfNull);
  }

  lemma CompareJumps(c: Context, e: Expr, sense: bool, dest: int, jumpIfNull: bool, a: nat, s: seq<Value>)
    returns (jumped: bool, g: seq<Value>)
    requires e.Comparison? && dest != 0 && c.Has(a, TestCode(c.H(), e, sense, dest, jumpIfNull, c.useAgg, a))
    ensures c.Goes(a, s, if jumped then dest else a + JumpLen(e, sense), s + g)
    ensures JumpsAs(jumped, g, e, sense, jumpIfNull, c.useAgg, c.Env())
  {
    hide Context.Goes, Context.Has, Leaks, Eval, ValueCode, Compare, Taken, ValueLen, Step, TestCode, TestLen,
         JumpLen, JumpsAs, LeaksJump;
    TestUnfolds(e, sense, jumpIfNull, c.useAgg, c.Env());
    CompareTestIs(c.H(), e, sense, dest, jumpIfNull, c.useAgg, a);
    var l, r := ValueCode(c.H(), e.left, c.useAgg, a), ValueCode(c.H(), e.right, c.useAgg, a + ValueLen(e.left));
    var rel, text := if sense then e.rel else Negation(e.rel), TypeOf(e) == TextType;
    var op := Ins(OpCompare(rel, text), BoolInt(jumpIfNull), dest);
    c.Split(a, l + r, [op]);
    c.Fetch(a + |l + r|, [op], 0);
    c.Split(a, l, r);
    var x := ValueRuns(c, e.left, a, s);
    var y := ValueRuns(c, e.right, a + ValueLen(e.left), s + x);
    var t := s + x + y;
    c.Then(a, s, a + ValueLen(e.left), s + x, a + |l + r|, t);
    var pc := ThenCompare(c, a, s, a + |l + r|, t, rel, text, jumpIfNull, dest);
    jumped, g := Taken(Compare(c.H(), rel, text, Next(t), Top(t)), true, jumpIfNull), (x + y)[..|x + y| - 2];
    assert t == s + (x + y) && Drop(t, 2) == s + g && Next(t) == Next(x + y) && Top(t) == Top(x + y);
    CompareDecides(e, sense, jumpIfNull, c.useAgg, c.Env(), x, y, jumped);
  }

  lemma ComparisonMeans(e: Expr, useAgg: bool, env: Env)
    requires e.Comparison?
    ensures TruthIn(e, useAgg, env)
            == Compare(env.h, e.rel, TypeOf(e) == TextType, Eval(e.left, useAgg, env), Eval(e.right, useAgg, env))
  {
  }

  lemma NullTestDecides(e: Expr, sense: bool, jumpIfNull: bool, useAgg: bool, env: Env, x: seq<Value>)
    requires (e.IsNull? || e.NotNull?) && Leaves(x, e.left, useAgg, env)
    ensures JumpsAs(Top(x).Null? == (e.IsNull? == sense), x[..|x| - 1], e, sense, jumpIfNull, useAgg, env)
  {
    hide Leaks, Eval, LeaksJump, JumpLen;
    TestUnfolds(e, sense, jumpIfNull, useAgg, env);
  }

  lemma NullTestJumps(c: Context, e: Expr, sense: bool, dest: int, jumpIfNull: bool, a: nat, s: seq<Value>)
    returns (jumped: bool, g: seq<Value>)
    requires (e.IsNull? || e.NotNull?) && c.Has(a, TestCode(c.H(), e, sense, dest, jumpIfNull, c.useAgg, a))
    ensures c.Goes(a, s, if jumped then dest else a + JumpLen(e, sense), s + g)
    ensures JumpsAs(jumped, g, e, sense, jumpIfNull, c.useAgg, c.Env())
  {
    hide Context.Goes, Context.Has, LeaksJump, JumpLen, Leaks, Eval, ValueCode, Step, TestCode, TestLen, JumpsAs;
    TestUnfolds(e, sense, jumpIfNull, c.useAgg, c.Env());
    NullTestIs(c.H(), e, sense, dest, jumpIfNull, c.useAgg, a);
    var l, opcode := ValueCode(c.H(), e.left, c.useAgg, a), if e.IsNull? == sense then OpIsNull else OpNotNull;
    c.Split(a, l, [Ins(opcode, 1, dest)]);
    c.Fetch(a + |l|, [Ins(opcode, 1, dest)], 0);
    var x := ValueRuns(c, e.left, a, s);
    jumped, g := Top(x).Null? == (e.IsNull? == sense), x[..|x| - 1];
    var pc := ThenNullTest(c, a, s, a + |l|, s + x, opcode, 1, dest);
    assert Top(s + x) == Top(x) && Drop(s + x, 1) == s + g;
    NullTestDecides(e, sense, jumpIfNull, c.useAgg, c.Env(), x);
  }

  lemma PlainDecides(e: Expr, sense: bool, jumpIfNull: bool, useAgg: bool, env: Env, x: seq<Value>)
    requires !e.And? && !e.Or? && !e.Not? && !e.Comparison? && !e.IsNull? && !e.NotNull? && !e.In? && !e.Between?
    requires Leaves(x, e, useAgg, env)
    ensures JumpsAs(Taken(TruthOf(env.h, Top(x)), sense, jumpIfNull), x[..|x| - 1], e, sense, jumpIfNull, useAgg, env)
  {
    hide Leaks, Eval, LeaksJump, JumpLen, Taken;
    TestUnfolds(e, sense, jumpIfNull, useAgg, env);
  }

  lemma ValueJumps(c: Context, e: Expr, sense: bool, dest: int, jumpIfNull: bool, a: nat, s: seq<Value>)
    returns (jumped: bool, g: seq<Value>)
    requires !e.And? && !e.Or? && !e.Not? && !e.Comparison? && !e.IsNull? && !e.NotNull? && !e.In? && !e.Between?
    requires c.Has(a, TestCode(c.H(), e, sense, dest, jumpIfNull, c.useAgg, a))
    ensures c.Goes(a, s, if jumped then dest else a + JumpLen(e, sense), s + g)
    ensures JumpsAs(jumped, g, e, sense, jumpIfNull, c.useAgg, c.Env())
  {
    hide Context.Goes, Context.Has, ValueCode, Leaks, Eval, LeaksJump, JumpLen, Execute, ValueLen, TestCode, TestLen,
         Taken, JumpsAs;
    TestUnfolds(e, sense, jumpIfNull, c.useAgg, c.Env());
    PlainTestIs(c.H(), e, sense, dest, jumpIfNull, c.useAgg, a);
    var code, op := ValueCode(c.H(), e, c.useAgg, a), Ins(if sense then OpIf else OpIfNot, BoolInt(jumpIfNull), dest);
    OpAt(c, a, code, op);
    var x := ValueRuns(c, e, a, s);
    PlainDecides(e, sense, jumpIfNull, c.useAgg, c.Env(), x);
    jumped := Taken(TruthOf(c.H(), Top(x)), sense, jumpIfNull);
    IfStep(c, a + |code|, s + x, sense, jumpIfNull, dest);
    g := TestEnds(c, code, op, a, s, x, 1, jumped);
  }

  /** The jump forms of IN are balanced: the operand is popped on every path. */
  lemma InJumps(c: Context, e: Expr, sense: bool, dest: int, jumpIfNull: bool, a: nat, s: seq<Value>)
    returns (jumped: bool, g: seq<Value>)
    requires e.In? && c.Has(a, TestCode(c.H(), e, sense, dest, jumpIfNull, c.useAgg, a))
    ensures c.Goes(a, s, if jumped then dest else a + JumpLen(e, sense), s + g)
    ensures JumpsAs(jumped, g, e, sense, jumpIfNull, c.useAgg, c.Env())
  {
    hide Context.Goes, Context.Has, ValueCode, Leaks, Eval, LeaksJump, JumpLen;
    TestUnfolds(e, sense, jumpIfNull, c.useAgg, c.Env());
    var b := a + ValueLen(e.left);
    c.Split(a, ValueCode(c.H(), e.left, c.useAgg, a), JumpInTail(e.rhs, e.fromSelect, sense, dest, jumpIfNull, b));
    var x := ValueRuns(c, e.left, a, s);
    jumped, g := InTailJumps(c, e.rhs, e.fromSelect, sense, dest, jumpIfNull, a, s, b, x);
  }

  lemma InTailJumps(c: Context, rhs: int, fromSelect: bool, sense: bool, dest: int, jumpIfNull: bool,
                    a: nat, s: seq<Value>, b: nat, x: seq<Value>)
    returns (jumped: bool, g: seq<Value>)
    requires c.Has(b, JumpInTail(rhs, fromSelect, sense, dest, jumpIfNull, b)) && |x| >= 1 && c.Goes(a, s, b, s + x)
    ensures c.Goes(a, s, if jumped then dest else b + 4, s + g) && g == x[..|x| - 1]
    ensures jumped == Taken(Membership(c.Env(), fromSelect, rhs, Top(x)), sense, jumpIfNull)
  {
    hide Context.Goes, Context.Has, Step;
    var tail := JumpInTail(rhs, fromSelect, sense, dest, jumpIfNull, b);
    g := x[..|x| - 1];
    assert Drop(s + x, 1) == s + g && Top(s + x) == Top(x);
    c.Fetch(b, tail, 0);
    var pc := ThenNullTest(c, a, s, b, s + x, OpNotNull, -1, b + 3);
    jumped := Taken(Membership(c.Env(), fromSelect, rhs, Top(x)), sense, jumpIfNull);
    if Top(x).Null? {
      c.Fetch(b, tail, 1);
      c.Fetch(b, tail, 2);
      ThenPop(c, a, s, b + 1, s + x);
      ThenGoto(c, a, s, b + 2, s + g, if jumpIfNull then dest else b + 4);
    } else {
      c.Fetch(b, tail, 3);
      pc := ThenFound(c, a, s, b + 3, s + x, tail[3]);
    }
  }

  lemma JumpBetweenCodeAt(c: Context, left: seq<Op>, low: seq<Op>, high: seq<Op>, sense: bool, dest: int,
                          jumpIfNull: bool, a: nat)
    requires c.Has(a, JumpBetweenCode(left, low, high, sense, dest, jumpIfNull, a))
    ensures var b := a + |left|;
            var d := b + 1 + |low|;
            var p := d + (if sense then 1 else 3);
            && c.Has(a, left) && c.prog[b] == Ins(OpDup, 0, 0) && c.lo <= b < c.hi <= |c.prog| && c.Has(b + 1, low)
            && c.Has(d, LowerTest(sense, dest, jumpIfNull, d, |high|)) && c.Has(p, high)
            && c.Has(p + |high|, UpperTest(sense, dest, jumpIfNull))
  {
    hide Context.Has, LowerTest, UpperTest;
    var d := a + |left| + 1 + |low|;
    Split4(c, a, left + [Ins(OpDup, 0, 0)] + low, LowerTest(sense, dest, jumpIfNull, d, |high|), high,
           UpperTest(sense, dest, jumpIfNull));
    BetweenHead(c, left, low, a);
  }

  lemma BetweenUnfolds(e: Expr, sense: bool, jumpIfNull: bool, useAgg: bool, env: Env)
    requires e.Between?
    ensures LeaksJump(e, sense, jumpIfNull, useAgg, env)
            == (Leaks(e.left, useAgg, env) || Leaks(e.low, useAgg, env)
                || (LowerPasses(Compare(env.h, Ge, false, Eval(e.left, useAgg, env), Eval(e.low, useAgg, env)), sense,
                                jumpIfNull)
                    && Leaks(e.high, useAgg, env)))
    ensures TruthIn(e, useAgg, env)
            == Within(env.h, Eval(e.left, useAgg, env), Eval(e.low, useAgg, env), Eval(e.high, useAgg, env))
    ensures JumpLen(e, sense) == ValueLen(e.left) + ValueLen(e.low) + ValueLen(e.high) + 5
  {
  }

  /** The lower test of the jump form of BETWEEN, with the operand kept underneath. */
  lemma LowerJumps(c: Context, e: Expr, sense: bool, dest: int, jumpIfNull: bool, a: nat, s: seq<Value>)
    returns (passed: bool, z: seq<Value>)
    requires e.Between? && c.Has(a, TestCode(c.H(), e, sense, dest, jumpIfNull, c.useAgg, a))
    ensures |z| >= 1
    ensures var d := a + ValueLen(e.left) + 1 + ValueLen(e.low);
            c.Goes(a, s, if passed then d + (if sense then 1 else 3)
                         else if sense then d + ValueLen(e.high) + 3 else d + 1, s + z)
    ensures if Leaks(e.left, c.useAgg, c.Env()) || Leaks(e.low, c.useAgg, c.Env()) then |z| >= 2
            else z == [Eval(e.left, c.useAgg, c.Env())]
                 && passed == LowerPasses(Compare(c.H(), Ge, false, Eval(e.left, c.useAgg, c.Env()),
                                                  Eval(e.low, c.useAgg, c.Env())), sense, jumpIfNull)
  {
    hide Context.Goes, Context.Has, ValueCode, Leaks, Eval, ValueLen, Compare;
    var b := a + ValueLen(e.left);
    var d := b + 1 + ValueLen(e.low);
    JumpBetweenCodeAt(c, ValueCode(c.H(), e.left, c.useAgg, a), ValueCode(c.H(), e.low, c.useAgg, b + 1),
                      ValueCode(c.H(), e.high, c.useAgg, d + (if sense then 1 else 3)), sense, dest, jumpIfNull, a);
    var x := ValueRuns(c, e.left, a, s);
    ThenDup(c, a, s, b, s + x, 0);
    var y := ValueRuns(c, e.low, b + 1, s + x + [Top(x)]);
    var t := s + x + [Top(x)] + y;
    c.Then(a, s, b + 1, s + x + [Top(x)], d, t);
    var rel, target := if sense then Lt else Ge, if sense then d + ValueLen(e.high) + 3 else d + 3;
    assert c.prog[d] == Ins(OpCompare(rel, false), BoolInt(!jumpIfNull), target) && c.lo <= d < c.hi by {
      c.Fetch(d, LowerTest(sense, dest, jumpIfNull, d, ValueLen(e.high)), 0);
    }
    var pc := ThenCompare(c, a, s, d, t, rel, false, !jumpIfNull, target);
    passed := (pc == d + 1) == sense;
    z := (x + [Top(x)] + y)[..|x| + |y| - 1];
    assert t == s + (x + [Top(x)] + y) && Drop(t, 2) == s + z;
    LowerPassesWhen(c.H(), Next(t), Top(t), sense, jumpIfNull);
  }

  lemma LowerPassesWhen(h: Helpers, x: Value, y: Value, sense: bool, jumpIfNull: bool)
    ensures Taken(Compare(h, if sense then Lt else Ge, false, x, y), true, !jumpIfNull)
            == (LowerPasses(Compare(h, Ge, false, x, y), sense, jumpIfNull) != sense)
  {
  }

  /** The upper test, reached with the operand on top of `s`. */
  lemma UpperJumps(c: Context, sense: bool, dest: int, jumpIfNull: bool, a: nat, s: seq<Value>, f: nat, w: seq<Value>)
    returns (jumped: bool, g: seq<Value>)
    requires c.Has(f, UpperTest(sense, dest, jumpIfNull)) && |w| >= 2 && dest != 0 && c.Goes(a, s, f, s + w)
    ensures c.Goes(a, s, if jumped then dest else f + (if sense then 3 else 1), s + g) && g == w[..|w| - 2]
    ensures jumped == Taken(Compare(c.H(), Le, false, Next(w), Top(w)), sense, jumpIfNull)
  {
    hide Context.Goes, Compare, Taken;
    g := w[..|w| - 2];
    assert Drop(s + w, 2) == s + g;
    var rel := if sense then Le else Negation(Le);
    c.Fetch(f, UpperTest(sense, dest, jumpIfNull), 0);
    var pc := ThenCompare(c, a, s, f, s + w, rel, false, jumpIfNull, dest);
    jumped := Taken(Compare(c.H(), rel, false, Next(w), Top(w)), true, jumpIfNull);
    NegationHolds(c.H(), Le, false, Next(w), Top(w), sense, jumpIfNull);
    if sense && !jumped {
      c.Fetch(f, UpperTest(sense, dest, jumpIfNull), 1);
      c.Fetch(f, UpperTest(sense, dest, jumpIfNull), 2);
      ThenInteger(c, a, s, f + 1, s + g, 0);
      ThenPop(c, a, s, f + 2, s + g + [Number(0)]);
      assert Drop(s + g + [Number(0)], 1) == s + g;
    }
  }

  lemma BetweenJumps(c: Context, e: Expr, sense: bool, dest: int, jumpIfNull: bool, a: nat, s: seq<Value>)
    returns (jumped: bool, g: seq<Value>)
    requires e.Between? && dest != 0 && c.Has(a, TestCode(c.H(), e, sense, dest, jumpIfNull, c.useAgg, a))
    ensures c.Goes(a, s, if jumped then dest else a + JumpLen(e, sense), s + g)
    ensures JumpsAs(jumped, g, e, sense, jumpIfNull, c.useAgg, c.Env())
  {
    hide Context.Goes, Context.Has, ValueCode, Leaks, ValueLen, LeaksJump, JumpLen, JumpsAs, Compare;
    BetweenUnfolds(e, sense, jumpIfNull, c.useAgg, c.Env());
    var passed, z := LowerJumps(c, e, sense, dest, jumpIfNull, a, s);
    if passed {
      var w;
      jumped, g, w := PassedJumps(c, e, sense, dest, jumpIfNull, a, s, z);
      PassedDecides(e, sense, jumpIfNull, c.useAgg, c.Env(), z, w, jumped, g);
    } else {
      jumped, g := !sense, z[..|z| - 1];
      FailedJumps(c, e, sense, dest, jumpIfNull, a, s, z);
      FailedDecides(e, sense, jumpIfNull, c.useAgg, c.Env(), z);
    }
  }

  lemma PassedJumps(c: Context, e: Expr, sense: bool, dest: int, jumpIfNull: bool, a: nat, s: seq<Value>, z: seq<Value>)
    returns (jumped: bool, g: seq<Value>, w: seq<Value>)
    requires e.Between? && dest != 0 && c.Has(a, TestCode(c.H(), e, sense, dest, jumpIfNull, c.useAgg, a)) && |z| >= 1
    requires c.Goes(a, s, UpperStart(e, sense, a), s + z)
    ensures c.Goes(a, s, if jumped then dest else a + TestLen(e), s + g)
    ensures Leaves(w, e.high, c.useAgg, c.Env()) && g == (z + w)[..|z + w| - 2]
    ensures jumped == Taken(Compare(c.H(), Le, false, Next(z + w), Top(z + w)), sense, jumpIfNull)
  {
    hide Context.Goes, Context.Has, ValueCode, Leaks, Eval, ValueLen, Compare, Taken, TestCode, TestLen,
         JumpBetweenCode;
    BetweenTestIs(c.H(), e, sense, dest, jumpIfNull, c.useAgg, a);
    var b := a + ValueLen(e.left);
    var d := b + 1 + ValueLen(e.low);
    var p := d + (if sense then 1 else 3);
    JumpBetweenCodeAt(c, ValueCode(c.H(), e.left, c.useAgg, a), ValueCode(c.H(), e.low, c.useAgg, b + 1),
                      ValueCode(c.H(), e.high, c.useAgg, p), sense, dest, jumpIfNull, a);
    w := ValueRuns(c, e.high, p, s + z);
    c.Then(a, s, p, s + z, p + ValueLen(e.high), s + z + w);
    assert s + z + w == s + (z + w);
    jumped, g := UpperJumps(c, sense, dest, jumpIfNull, a, s, p + ValueLen(e.high), z + w);
  }

  lemma FailedJumps(c: Context, e: Expr, sense: bool, dest: int, jumpIfNull: bool, a: nat, s: seq<Value>, z: seq<Value>)
    requires e.Between? && c.Has(a, TestCode(c.H(), e, sense, dest, jumpIfNull, c.useAgg, a)) && |z| >= 1
    requires var d := a + ValueLen(e.left) + 1 + ValueLen(e.low);
             c.Goes(a, s, if sense then d + ValueLen(e.high) + 3 else d + 1, s + z)
    ensures c.Goes(a, s, if sense then a + TestLen(e) else dest, s + z[..|z| - 1])
  {
    hide Context.Goes, Context.Has, ValueCode, Leaks, Eval, ValueLen, Compare, TestCode, TestLen, JumpBetweenCode;
    BetweenTestIs(c.H(), e, sense, dest, jumpIfNull, c.useAgg, a);
    var b := a + ValueLen(e.left);
    var d := b + 1 + ValueLen(e.low);
    JumpBetweenCodeAt(c, ValueCode(c.H(), e.left, c.useAgg, a), ValueCode(c.H(), e.low, c.useAgg, b + 1),
                      ValueCode(c.H(), e.high, c.useAgg, d + (if sense then 1 else 3)), sense, dest, jumpIfNull, a);
    if sense {
      FailedBehind(c, dest, jumpIfNull, a, s, d + 1 + ValueLen(e.high), z);
    } else {
      FailedHere(c, dest, jumpIfNull, a, s, d, ValueLen(e.high), z);
    }
  }

  lemma FailedBehind(c: Context, dest: int, jumpIfNull: bool, a: nat, s: seq<Value>, f: nat, z: seq<Value>)
    requires c.Has(f, UpperTest(true, dest, jumpIfNull)) && |z| >= 1 && c.Goes(a, s, f + 2, s + z)
    ensures c.Goes(a, s, f + 3, s + z[..|z| - 1])
  {
    hide Context.Goes;
    c.Fetch(f, UpperTest(true, dest, jumpIfNull), 2);
    ThenPop(c, a, s, f + 2, s + z);
    assert Drop(s + z, 1) == s + z[..|z| - 1];
  }

  lemma FailedHere(c: Context, dest: int, jumpIfNull: bool, a: nat, s: seq<Value>, d: nat, highLen: nat, z: seq<Value>)
    requires c.Has(d, LowerTest(false, dest, jumpIfNull, d, highLen)) && |z| >= 1 && c.Goes(a, s, d + 1, s + z)
    ensures c.Goes(a, s, dest, s + z[..|z| - 1])
  {
    hide Context.Goes;
    c.Fetch(d, LowerTest(false, dest, jumpIfNull, d, highLen), 1);
    c.Fetch(d, LowerTest(false, dest, jumpIfNull, d, highLen), 2);
    ThenPop(c, a, s, d + 1, s + z);
    assert Drop(s + z, 1) == s + z[..|z| - 1];
    ThenGoto(c, a, s, d + 2, s + z[..|z| - 1], dest);
  }

  lemma PassedDecides(e: Expr, sense: bool, jumpIfNull: bool, useAgg: bool, env: Env, z: seq<Value>, w: seq<Value>,
                      jumped: bool, g: seq<Value>)
    requires e.Between? && Leaves(w, e.high, useAgg, env) && |z| >= 1
    requires if Leaks(e.left, useAgg, env) || Leaks(e.low, useAgg, env) then |z| >= 2
             else z == [Eval(e.left, useAgg, env)]
                  && LowerPasses(Compare(env.h, Ge, false, Eval(e.left, useAgg, env), Eval(e.low, useAgg, env)),
                                 sense, jumpIfNull)
    requires g == (z + w)[..|z + w| - 2]
    requires jumped == Taken(Compare(env.h, Le, false, Next(z + w), Top(z + w)), sense, jumpIfNull)
    ensures JumpsAs(jumped, g, e, sense, jumpIfNull, useAgg, env)
  {
    hide Compare, Leaks, LeaksJump;
    BetweenUnfolds(e, sense, jumpIfNull, useAgg, env);
    BetweenDecides(env.h, Eval(e.left, useAgg, env), Eval(e.low, useAgg, env), Eval(e.high, useAgg, env), sense,
                   jumpIfNull);
  }

  lemma FailedDecides(e: Expr, sense: bool, jumpIfNull: bool, useAgg: bool, env: Env, z: seq<Value>)
    requires e.Between? && |z| >= 1
    requires if Leaks(e.left, useAgg, env) || Leaks(e.low, useAgg, env) then |z| >= 2
             else z == [Eval(e.left, useAgg, env)]
                  && !LowerPasses(Compare(env.h, Ge, false, Eval(e.left, useAgg, env), Eval(e.low, useAgg, env)),
                                  sense, jumpIfNull)
    ensures JumpsAs(!sense, z[..|z| - 1], e, sense, jumpIfNull, useAgg, env)
  {
    hide Compare, Leaks, LeaksJump;
    BetweenUnfolds(e, sense, jumpIfNull, useAgg, env);
    BetweenDecides(env.h, Eval(e.left, useAgg, env), Eval(e.low, useAgg, env), Eval(e.high, useAgg, env), sense,
                   jumpIfNull);
  }

  /** The two tests together decide BETWEEN. */
  lemma BetweenDecides(h: Helpers, x: Value, lo: Value, hi: Value, sense: bool, jumpIfNull: bool)
    ensures LowerPasses(Compare(h, Ge, false, x, lo), sense, jumpIfNull) ==>
              Taken(Within(h, x, lo, hi), sense, jumpIfNull) == Taken(Compare(h, Le, false, x, hi), sense, jumpIfNull)
    ensures !LowerPasses(Compare(h, Ge, false, x, lo), sense, jumpIfNull) ==>
              Taken(Within(h, x, lo, hi), sense, jumpIfNull) == !sense
  {
    hide Compare;
  }

  /** The jump form of any expression, by induction over AND, OR and NOT. */
  lemma JumpRuns(c: Context, e: Expr, sense: bool, dest: int, jumpIfNull: bool, a: nat, s: seq<Value>)
    returns (jumped: bool, g: seq<Value>)
    requires dest != 0 && c.Has(a, JumpCode(c.H(), e, sense, dest, jumpIfNull, c.useAgg, a))
    ensures c.Goes(a, s, if jumped then dest else a + JumpLen(e, sense), s + g)
    ensures JumpsAs(jumped, g, e, sense, jumpIfNull, c.useAgg, c.Env())
    decreases e, 1
  {
    hide Context.Goes, Context.Has;
    if e.And? || e.Or? {
      jumped, g := ConnectiveJumps(c, e, sense, dest, jumpIfNull, a, s);
    } else if e.Not? {
      jumped, g := JumpRuns(c, e.left, !sense, dest, jumpIfNull, a, s);
      LogicMeans(e, c.useAgg, c.Env());
    } else if e.Comparison? {
      jumped, g := CompareJumps(c, e, sense, dest, jumpIfNull, a, s);
    } else if e.IsNull? || e.NotNull? {
      jumped, g := NullTestJumps(c, e, sense, dest, jumpIfNull, a, s);
    } else if e.In? {
      jumped, g := InJumps(c, e, sense, dest, jumpIfNull, a, s);
    } else if e.Between? {
      jumped, g := BetweenJumps(c, e, sense, dest, jumpIfNull, a, s);
    } else {
      jumped, g := ValueJumps(c, e, sense, dest, jumpIfNull, a, s);
    }
  }

  lemma LogicMeans(e: Expr, useAgg: bool, env: Env)
    requires e.And? || e.Or? || e.Not?
    ensures TruthIn(e, useAgg, env)
            == if e.And? then And3(TruthIn(e.left, useAgg, env), TruthIn(e.right, useAgg, env))
               else if e.Or? then Or3(TruthIn(e.left, useAgg, env), TruthIn(e.right, useAgg, env))
               else Not3(TruthIn(e.left, useAgg, env))
  {
  }

  /** What both operands do decides the connective. */
  lemma ConnectiveDecides(e: Expr, sense: bool, jumpIfNull: bool, useAgg: bool, env: Env, left: bool, x: seq<Value>,
                          right: bool, y: seq<Value>)
    requires e.And? || e.Or?
    requires JumpsAs(left, x, e.left, e.Or?, if e.Or? == sense then jumpIfNull else !jumpIfNull, useAgg, env)
    requires !left ==> JumpsAs(right, y, e.right, sense, jumpIfNull, useAgg, env)
    ensures if left then JumpsAs(e.Or? == sense, x, e, sense, jumpIfNull, useAgg, env)
            else JumpsAs(right, x + y, e, sense, jumpIfNull, useAgg, env)
  {
    hide Eval, TruthIn;
    LogicMeans(e, useAgg, env);
  }

  /** AND in its false form and OR in its true form try both operands for the same target; AND in
      its true form and OR in its false form let the left operand jump over the right one, with
      the NULL flag turned round. */
  lemma ConnectiveJumps(c: Context, e: Expr, sense: bool, dest: int, jumpIfNull: bool, a: nat, s: seq<Value>)
    returns (jumped: bool, g: seq<Value>)
    requires (e.And? || e.Or?) && dest != 0 && c.Has(a, JumpCode(c.H(), e, sense, dest, jumpIfNull, c.useAgg, a))
    ensures c.Goes(a, s, if jumped then dest else a + JumpLen(e, sense), s + g)
    ensures JumpsAs(jumped, g, e, sense, jumpIfNull, c.useAgg, c.Env())
    decreases e, 0
  {
    hide Context.Goes, Context.Has, JumpCode, JumpLen, JumpsAs;
    ConnectiveIs(c.H(), e, sense, dest, jumpIfNull, c.useAgg, a);
    var b, end := a + JumpLen(e.left, e.Or?), a + JumpLen(e, sense);
    var straight := e.Or? == sense;
    var d, n := if straight then dest else end, if straight then jumpIfNull else !jumpIfNull;
    c.Split(a, JumpCode(c.H(), e.left, e.Or?, d, n, c.useAgg, a),
            JumpCode(c.H(), e.right, sense, dest, jumpIfNull, c.useAgg, b));
    var left, x := JumpRuns(c, e.left, e.Or?, d, n, a, s);
    var y: seq<Value> := [];
    if left {
      jumped, g := straight, x;
    } else {
      jumped, y := JumpRuns(c, e.right, sense, dest, jumpIfNull, b, s + x);
      g := x + y;
      assert s + x + y == s + g;
      c.Then(a, s, b, s + x, if jumped then dest else end, s + g);
    }
    ConnectiveDecides(e, sense, jumpIfNull, c.useAgg, c.Env(), left, x, jumped, y);
  }

  // The theorems.

  /** Semantic preservation of the value form, for every expression, program, row state and
      stack: run over its own code, the machine first leaves that code right behind it with
      exactly the value of `e` pushed if and only if no value-position IN with a NULL left
      operand is evaluated. */
  lemma ValuePreserved(c: Context, e: Expr, s: seq<Value>)
    requires c.hi == c.lo + ValueLen(e) && c.Has(c.lo, ValueCode(c.H(), e, c.useAgg, c.lo))
    ensures c.Goes(c.lo, s, c.hi, s + [Eval(e, c.useAgg, c.Env())]) <==> !Leaks(e, c.useAgg, c.Env())
  {
    hide Context.Goes, Context.Has, Eval, Leaks;
    var out := ValueRuns(c, e, c.lo, s);
    if c.Goes(c.lo, s, c.hi, s + [Eval(e, c.useAgg, c.Env())]) {
      c.ExitUnique(c.lo, s, c.hi, s + out, c.hi, s + [Eval(e, c.useAgg, c.Env())]);
      assert |out| == 1;
    }
  }

  /** Semantic preservation of the jump forms: control goes to `dest` exactly when the truth
      value is `sense`, or is unknown and the NULL flag is set, with the stack unchanged. */
  lemma JumpPreserved(c: Context, e: Expr, sense: bool, dest: int, jumpIfNull: bool, s: seq<Value>)
    requires dest != 0 && !(c.lo <= dest < c.hi)
    requires c.hi == c.lo + JumpLen(e, sense)
    requires c.Has(c.lo, JumpCode(c.H(), e, sense, dest, jumpIfNull, c.useAgg, c.lo))
    ensures c.Goes(c.lo, s, if Taken(TruthIn(e, c.useAgg, c.Env()), sense, jumpIfNull) then dest else c.hi, s)
            <==> !LeaksJump(e, sense, jumpIfNull, c.useAgg, c.Env())
  {
    hide Context.Goes, Context.Has, Eval, LeaksJump, Taken, JumpCode, JumpLen;
    var jumped, g := JumpRuns(c, e, sense, dest, jumpIfNull, c.lo, s);
    var target := if Taken(TruthIn(e, c.useAgg, c.Env()), sense, jumpIfNull) then dest else c.hi;
    if g == [] {
      assert s + g == s;
    }
    if c.Goes(c.lo, s, target, s) {
      c.ExitUnique(c.lo, s, if jumped then dest else c.hi, s + g, target, s);
      assert |g| == 0;
    }
  }

  /** The failing branch on its smallest input: NULL IN (...) as a value leaves the 1 that was
      pushed first below its NULL. */
  lemma ValueInLeak(c: Context, rhs: int, fromSelect: bool, s: seq<Value>)
    requires c.Has(c.lo, ValueCode(c.H(), In(NullLiteral, rhs, fromSelect), c.useAgg, c.lo))
    ensures c.Goes(c.lo, s, c.lo + ValueLen(In(NullLiteral, rhs, fromSelect)), s + [Number(1), Null])
  {
    hide Context.Goes, Context.Has;
    var l := ValueCode(c.H(), NullLiteral, c.useAgg, c.lo + 1);
    ValueInCodeAt(c, rhs, fromSelect, l, c.lo);
    var x := ValueRuns(c, NullLiteral, c.lo + 1, s + [Number(1)]);
    var out := ValueInRuns(c, rhs, fromSelect, l, c.lo, s, x);
  }
}
