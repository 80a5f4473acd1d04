/** The virtual machine: its instructions, one step of its `switch`, and runs of a program. */
module Machine {
  import opened Values
  import opened Expressions

  datatype Opcode =
    | OpGoto | OpHalt
    | OpInteger | OpString | OpVariable | OpPop | OpDup | OpPull
    | OpConcat | OpArith(arith: ArithOp) | OpShift(shift: ShiftOp) | OpAddImm
    | OpCompare(rel: Relation, text: bool)
    | OpAnd | OpOr | OpNegative | OpNot | OpBitNot
    | OpIf | OpIfNot | OpIsNull | OpNotNull
    | OpFunction | OpColumn | OpRecno | OpAggGet
    | OpMemLoad | OpMemStore
    | OpFound | OpNotFound | OpSetFound | OpSetNotFound
    | OpRewind | OpNext | OpNullRow | OpCallback

  datatype P3 = NoP3 | TextP3(z: string) | FunctionP3(def: int)

  datatype Op = Op(opcode: Opcode, p1: int, p2: int, p3: P3)

  function Ins(opcode: Opcode, p1: int, p2: int): Op { Op(opcode, p1, p2, NoP3) }

  datatype Row = Row(rowid: int, cell: int -> Value)
  datatype Cursor = Cursor(pos: int, nullRow: bool)

  /** What a run cannot change: the rows each open cursor ranges over and the rest of the
      evaluation environment. */
  datatype World = World(rows: int -> seq<Row>, base: Env)

  datatype State =
    | Running(pc: int, stack: seq<Value>, cursors: map<int, Cursor>, mem: map<int, Value>, out: seq<seq<Value>>)
    | Stuck

  function CurrentRow(w: World, cursors: map<int, Cursor>, t: int): Option<Row> {
    if t in cursors && !cursors[t].nullRow && 0 <= cursors[t].pos < |w.rows(t)|
    then Some(w.rows(t)[cursors[t].pos]) else None
  }

  /** The environment the expression opcodes see in a state. */
  function EnvAt(w: World, cursors: map<int, Cursor>, mem: map<int, Value>): Env {
    w.base.(column := (t, c) => match CurrentRow(w, cursors, t) case None => Null case Some(row) => row.cell(c),
            rowid := t => match CurrentRow(w, cursors, t) case None => Null case Some(row) => Number(row.rowid),
            mem := i => if i in mem then mem[i] else Null)
  }

  function Top(s: seq<Value>): Value requires |s| >= 1 { s[|s| - 1] }
  function Next(s: seq<Value>): Value requires |s| >= 2 { s[|s| - 2] }
  function Drop(s: seq<Value>, n: nat): seq<Value> requires n <= |s| { s[..|s| - n] }

  /** How many cells an instruction needs below it. */
  function Needs(op: Op): int {
    match op.opcode
    case OpPop => op.p1
    case OpDup => op.p1 + 1
    case OpPull => op.p1 + 1
    case OpConcat => op.p1
    case OpFunction => op.p1
    case OpCallback => op.p1
    case OpIsNull => if op.p1 < 0 then -op.p1 else op.p1
    case OpNotNull => if op.p1 < 0 then -op.p1 else op.p1
    case OpArith(_) => 2
    case OpShift(_) => 2
    case OpCompare(_, _) => 2
    case OpAnd => 2
    case OpOr => 2
    case OpAddImm => 1
    case OpNegative => 1
    case OpNot => 1
    case OpBitNot => 1
    case OpIf => 1
    case OpIfNot => 1
    case OpMemStore => 1
    case OpFound => 1
    case OpNotFound => 1
    case OpSetFound => 1
    case OpSetNotFound => 1
    case _ => 0
  }

  // The tables the OP_And and OP_Or cases index with 3 * v1 + v2, where 0 is true, 1 false, 2 NULL.
  const AND_LOGIC := [0, 1, 2, 1, 1, 1, 2, 1, 2]
  const OR_LOGIC := [0, 0, 0, 0, 1, 2, 0, 2, 2]

  function LogicCode(h: Helpers, v: Value): (r: nat)
    ensures r < 3
  {
    if v.Null? then 2 else if ToInt(h, v) == 0 then 1 else 0
  }

  function LogicValue(code: nat): Value {
    if code == 2 then Null else Number(if code == 0 then 1 else 0)
  }

  function AnyNull(vs: seq<Value>): bool { exists i :: 0 <= i < |vs| && vs[i].Null? }

  function Join(h: Helpers, vs: seq<Value>): string {
    if vs == [] then "" else AsString(h, vs[0]) + Join(h, vs[1..])
  }

  /** A state after an instruction that leaves `s` on the stack and falls through. */
  function Fall(st: State, s: seq<Value>): State requires st.Running? { st.(pc := st.pc + 1, stack := s) }

  /** The same, jumping to P2 if `taken`. */
  function Branch(st: State, op: Op, s: seq<Value>, taken: bool): State
    requires st.Running?
  {
    st.(pc := if taken then op.p2 else st.pc + 1, stack := s)
  }

  /** One instruction. A program counter outside the program or a short stack is `Stuck`. */
  function Step(prog: seq<Op>, w: World, st: State): State {
    if st.Stuck? || !(0 <= st.pc < |prog|) || prog[st.pc].opcode == OpHalt then Stuck
    else if !(0 <= Needs(prog[st.pc]) <= |st.stack|) then Stuck
    else Execute(prog[st.pc], w, EnvAt(w, st.cursors, st.mem), st)
  }

  function Execute(op: Op, w: World, env: Env, st: State): State
    requires st.Running? && op.opcode != OpHalt && 0 <= Needs(op) <= |st.stack|
  {
    var s, h := st.stack, env.h;
    match op.opcode
    case OpGoto => Branch(st, op, s, true)
    case OpInteger => Fall(st, s + [Int(op.p1, if op.p3.TextP3? then Some(op.p3.z) else None)])
    case OpString => Fall(st, s + [if op.p3.TextP3? then Str(op.p3.z) else Null])
    case OpVariable => Fall(st, s + [env.variable(op.p1)])
    case OpPop => Fall(st, Drop(s, op.p1))
    case OpDup => if op.p1 < 0 then Stuck else Fall(st, s + [s[|s| - 1 - op.p1]])
    case OpPull =>
      if op.p1 < 0 then Stuck
      else Fall(st, s[..|s| - 1 - op.p1] + s[|s| - op.p1..] + [s[|s| - 1 - op.p1]])
    case OpConcat =>
      var vs := s[|s| - op.p1..];
      Fall(st, Drop(s, op.p1) + [if AnyNull(vs) then Null else Str(Join(h, vs))])
    case OpArith(arith) =>
      Fall(st, Drop(s, 2) + [if Next(s).Null? || Top(s).Null? then Null else h.arith(arith, Next(s), Top(s))])
    case OpShift(shift) =>
      Fall(st, Drop(s, 2) + [if Next(s).Null? || Top(s).Null? then Null else h.shift(shift, Top(s), Next(s))])
    case OpAddImm => Fall(st, Drop(s, 1) + [Number(ToInt(h, Top(s)) + op.p1)])
    case OpCompare(rel, text) => ExecuteCompare(op, h, st)
    case OpAnd => Fall(st, Drop(s, 2) + [LogicValue(AND_LOGIC[3 * LogicCode(h, Top(s)) + LogicCode(h, Next(s))])])
    case OpOr => Fall(st, Drop(s, 2) + [LogicValue(OR_LOGIC[3 * LogicCode(h, Top(s)) + LogicCode(h, Next(s))])])
    case OpNegative => Fall(st, Drop(s, 1) + [if Top(s).Null? then Null else h.negate(Top(s))])
    case OpNot => Fall(st, Drop(s, 1) + [if Top(s).Null? then Null else Number(if ToInt(h, Top(s)) == 0 then 1 else 0)])
    case OpBitNot => Fall(st, Drop(s, 1) + [if Top(s).Null? then Null else Number(h.bitNot(ToInt(h, Top(s))))])
    case OpIf => Branch(st, op, Drop(s, 1), if Top(s).Null? then op.p1 != 0 else ToInt(h, Top(s)) != 0)
    case OpIfNot => Branch(st, op, Drop(s, 1), if Top(s).Null? then op.p1 != 0 else ToInt(h, Top(s)) == 0)
    case OpIsNull => Branch(st, op, if op.p1 > 0 then Drop(s, op.p1) else s, AnyNull(s[|s| - Needs(op)..]))
    case OpNotNull => Branch(st, op, if op.p1 > 0 then Drop(s, op.p1) else s, !AnyNull(s[|s| - Needs(op)..]))
    case OpFunction =>
      if !op.p3.FunctionP3? then Stuck
      else Fall(st, Drop(s, op.p1) + [env.call(op.p3.def, s[|s| - op.p1..])])
    case OpColumn => Fall(st, s + [env.column(op.p1, op.p2)])
    case OpRecno => Fall(st, s + [env.rowid(op.p1)])
    case OpAggGet => Fall(st, s + [env.agg(op.p2)])
    case OpMemLoad => Fall(st, s + [env.mem(op.p1)])
    case OpMemStore => Fall(st, if op.p2 != 0 then Drop(s, 1) else s).(mem := st.mem[op.p1 := Top(s)])
    case OpFound => Branch(st, op, Drop(s, 1), env.member(true, op.p1, AsString(h, Top(s))))
    case OpNotFound => Branch(st, op, Drop(s, 1), !env.member(true, op.p1, AsString(h, Top(s))))
    case OpSetFound => Branch(st, op, Drop(s, 1), env.member(false, op.p1, AsString(h, Top(s))))
    case OpSetNotFound => Branch(st, op, Drop(s, 1), !env.member(false, op.p1, AsString(h, Top(s))))
    case OpRewind =>
      var empty := |w.rows(op.p1)| == 0;
      Branch(st, op, s, empty && op.p2 > 0).(cursors := st.cursors[op.p1 := Cursor(0, empty)])
    case OpNext =>
      if op.p1 !in st.cursors then Stuck
      else
        var c := st.cursors[op.p1];
        var atEnd := c.nullRow || c.pos + 1 >= |w.rows(op.p1)|;
        Branch(st, op, s, !atEnd).(cursors := st.cursors[op.p1 := if c.nullRow then c else Cursor(c.pos + 1, atEnd)])
    case OpNullRow =>
      var c := if op.p1 in st.cursors then st.cursors[op.p1] else Cursor(0, true);
      Fall(st, s).(cursors := st.cursors[op.p1 := c.(nullRow := true)])
    case OpCallback => Fall(st, Drop(s, op.p1)).(out := st.out + [s[|s| - op.p1..]])
  }

  /** OP_Eq to OP_Ge and OP_StrEq to OP_StrGe: with P2 zero the result is pushed, otherwise it
      is a jump that is also taken on NULL if P1 is set. */
  function ExecuteCompare(op: Op, h: Helpers, st: State): State
    requires st.Running? && op.opcode.OpCompare? && |st.stack| >= 2
  {
    var s := st.stack;
    if Next(s).Null? || Top(s).Null? then
      if op.p2 != 0 then Branch(st, op, Drop(s, 2), op.p1 != 0) else Fall(st, Drop(s, 2) + [Null])
    else
      var c := if op.opcode.text then h.strCmp(AsString(h, Next(s)), AsString(h, Top(s)))
               else NumericDifference(h, Next(s), Top(s));
      var b := Holds(op.opcode.rel, c);
      if op.p2 != 0 then Branch(st, op, Drop(s, 2), b) else Fall(st, Drop(s, 2) + [Number(if b then 1 else 0)])
  }

  function Run(prog: seq<Op>, w: World, st: State, n: nat): State
    decreases n
  {
    if n == 0 then st else Run(prog, w, Step(prog, w, st), n - 1)
  }

  ghost predicate Reaches(prog: seq<Op>, w: World, st: State, st': State) {
    exists n: nat :: Run(prog, w, st, n) == st'
  }

  lemma ReachesStep(prog: seq<Op>, w: World, st: State)
    ensures Reaches(prog, w, st, Step(prog, w, st))
  {
    assert Run(prog, w, st, 1) == Step(prog, w, st);
  }

  lemma {:induction false} RunSplit(prog: seq<Op>, w: World, st: State, m: nat, n: nat)
    ensures Run(prog, w, st, m + n) == Run(prog, w, Run(prog, w, st, m), n)
    decreases m
  {
    if m > 0 {
      RunSplit(prog, w, Step(prog, w, st), m - 1, n);
    }
  }

  lemma ReachesTrans(prog: seq<Op>, w: World, a: State, b: State, c: State)
    requires Reaches(prog, w, a, b) && Reaches(prog, w, b, c)
    ensures Reaches(prog, w, a, c)
  {
    var m: nat :| Run(prog, w, a, m) == b;
    var n: nat :| Run(prog, w, b, n) == c;
    RunSplit(prog, w, a, m, n);
  }
}
