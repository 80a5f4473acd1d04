/** Runs of one fragment of a program, and when the code of an expression leaves litter behind. */
module Fragments {
  import opened Values
  import opened Expressions
  import opened Machine
  import opened Layout

  /** A fragment `lo..hi` of a program running with fixed cursors, memory and output. */
  datatype Context = Context(
    prog: seq<Op>, w: World, useAgg: bool, lo: nat, hi: nat,
    cursors: map<int, Cursor>, mem: map<int, Value>, results: seq<seq<Value>>)
  {
    function Env(): Env { EnvAt(w, cursors, mem) }
    function H(): Helpers { w.base.h }
    function At(pc: int, s: seq<Value>): State { Running(pc, s, cursors, mem, results) }

    /** `code` is placed at address `a`, inside the fragment. */
    ghost predicate Has(a: nat, code: seq<Op>) {
      lo <= a && a + |code| <= hi <= |prog| && prog[a..a + |code|] == code
    }

    ghost predicate Inside(st: State, n: nat) {
      forall k: nat :: k < n ==> var x := Run(prog, w, st, k); x.Running? && lo <= x.pc < hi
    }

    /** Started at `a` on stack `s`, the machine gets to `b` on stack `t`, executing only
        instructions of the fragment on the way. */
    ghost predicate Goes(a: int, s: seq<Value>, b: int, t: seq<Value>) {
      exists n: nat :: Run(prog, w, At(a, s), n) == At(b, t) && Inside(At(a, s), n)
    }

    lemma Stay(a: int, s: seq<Value>)
      ensures Goes(a, s, a, s)
    {
      assert Run(prog, w, At(a, s), 0) == At(a, s) && Inside(At(a, s), 0);
    }

    lemma Do(a: int, s: seq<Value>, b: int, t: seq<Value>)
      requires lo <= a < hi && Step(prog, w, At(a, s)) == At(b, t)
      ensures Goes(a, s, b, t)
    {
      assert Run(prog, w, At(a, s), 0) == At(a, s);
      assert Run(prog, w, At(a, s), 1) == Run(prog, w, At(b, t), 0) == At(b, t);
      assert Inside(At(a, s), 1);
    }

    lemma Then(a: int, s: seq<Value>, b: int, t: seq<Value>, d: int, u: seq<Value>)
      requires Goes(a, s, b, t) && Goes(b, t, d, u)
      ensures Goes(a, s, d, u)
    {
      var m: nat :| Run(prog, w, At(a, s), m) == At(b, t) && Inside(At(a, s), m);
      var n: nat :| Run(prog, w, At(b, t), n) == At(d, u) && Inside(At(b, t), n);
      RunSplit(prog, w, At(a, s), m, n);
      forall k: nat | k < m + n
        ensures var x := Run(prog, w, At(a, s), k); x.Running? && lo <= x.pc < hi
      {
        if k >= m {
          RunSplit(prog, w, At(a, s), m, k - m);
          assert Inside(At(b, t), n) && k - m < n;
        } else {
          assert Inside(At(a, s), m);
        }
      }
      assert Inside(At(a, s), m + n);
    }

    /** One more instruction after a run. */
    lemma ThenDo(a: int, s: seq<Value>, b: int, t: seq<Value>, d: int, u: seq<Value>)
      requires Goes(a, s, b, t) && lo <= b < hi && Step(prog, w, At(b, t)) == At(d, u)
      ensures Goes(a, s, d, u)
    {
      Do(b, t, d, u);
      Then(a, s, b, t, d, u);
    }

    /** The machine is deterministic, so the first state outside the fragment is unique. */
    lemma ExitUnique(a: int, s: seq<Value>, b: int, t: seq<Value>, d: int, u: seq<Value>)
      requires Goes(a, s, b, t) && !(lo <= b < hi)
      requires Goes(a, s, d, u) && !(lo <= d < hi)
      ensures b == d && t == u
    {
      var m: nat :| Run(prog, w, At(a, s), m) == At(b, t) && Inside(At(a, s), m);
      var n: nat :| Run(prog, w, At(a, s), n) == At(d, u) && Inside(At(a, s), n);
      assert m == n;
    }

    lemma Split(a: nat, x: seq<Op>, y: seq<Op>)
      requires Has(a, x + y)
      ensures Has(a, x) && Has(a + |x|, y)
    {
      assert prog[a..a + |x|] == prog[a..a + |x + y|][..|x|] == (x + y)[..|x|] == x;
      assert prog[a + |x|..a + |x + y|] == prog[a..a + |x + y|][|x|..] == (x + y)[|x|..] == y;
    }

    lemma Fetch(a: nat, code: seq<Op>, i: nat)
      requires Has(a, code) && i < |code|
      ensures prog[a + i] == code[i] && lo <= a + i < hi <= |prog|
    {
      assert prog[a..a + |code|][i] == code[i];
    }
  }

  /** Whether the jump form goes to its target. */
  predicate Taken(t: Truth, sense: bool, jumpIfNull: bool) {
    match t
    case True => sense
    case False => !sense
    case Unknown => jumpIfNull
  }

  /** Evaluating `e` for its value runs a value-position IN whose left operand is NULL: the
      branch of the generator that pops one cell too few. */
  predicate Leaks(e: Expr, useAgg: bool, env: Env)
    decreases e
  {
    if IsLeaf(e) then false
    else if IsBinary(e) || e.Shift? then Leaks(e.left, useAgg, env) || Leaks(e.right, useAgg, env)
    else if e.In? then Leaks(e.left, useAgg, env) || Eval(e.left, useAgg, env).Null?
    else if e.Between? then Leaks(e.left, useAgg, env) || Leaks(e.low, useAgg, env) || Leaks(e.high, useAgg, env)
    else if e.Function? then LeaksArgs(e.args, useAgg, env)
    else if e.Case? then
      (e.base.TheExpr? && Leaks(e.base.e, useAgg, env))
      || LeaksWhens(e.whens, if e.base.TheExpr? then Some(Eval(e.base.e, useAgg, env)) else None,
                    e.otherwise.TheExpr? && Leaks(e.otherwise.e, useAgg, env), useAgg, env)
    else Leaks(e.left, useAgg, env)
  }

  predicate LeaksArgs(es: Exprs, useAgg: bool, env: Env)
    decreases es
  {
    match es
    case Nil => false
    case Cons(e, tail) => Leaks(e, useAgg, env) || LeaksArgs(tail, useAgg, env)
  }

  predicate LeaksWhens(ws: Whens, base: Option<Value>, otherwise: bool, useAgg: bool, env: Env)
    decreases ws
  {
    match ws
    case Done => otherwise
    case When(c, r, rest) =>
      Leaks(c, useAgg, env)
      || if Chosen(env.h, base, Eval(c, useAgg, env)) then Leaks(r, useAgg, env)
         else LeaksWhens(rest, base, otherwise, useAgg, env)
  }

  /** The same for the jump form, which evaluates the right operand of AND and OR only if the
      left one does not decide. */
  predicate LeaksJump(e: Expr, sense: bool, jumpIfNull: bool, useAgg: bool, env: Env)
    decreases e
  {
    match e
    case And(l, r) =>
      LeaksJump(l, false, jumpIfNull != sense, useAgg, env)
      || (!Taken(TruthIn(l, useAgg, env), false, jumpIfNull != sense) && LeaksJump(r, sense, jumpIfNull, useAgg, env))
    case Or(l, r) =>
      LeaksJump(l, true, jumpIfNull == sense, useAgg, env)
      || (!Taken(TruthIn(l, useAgg, env), true, jumpIfNull == sense) && LeaksJump(r, sense, jumpIfNull, useAgg, env))
    case Not(l) => LeaksJump(l, !sense, jumpIfNull, useAgg, env)
    case In(l, _, _) => Leaks(l, useAgg, env)
    case Between(l, lo, hi) =>
      Leaks(l, useAgg, env) || Leaks(lo, useAgg, env)
      || (LowerPasses(Compare(env.h, Ge, false, Eval(l, useAgg, env), Eval(lo, useAgg, env)), sense, jumpIfNull)
          && Leaks(hi, useAgg, env))
    case _ => Leaks(e, useAgg, env)
  }

  /** Whether the jump form of BETWEEN goes on to the upper bound. */
  predicate LowerPasses(lower: Truth, sense: bool, jumpIfNull: bool) {
    lower == True || (lower == Unknown && jumpIfNull == sense)
  }
}
