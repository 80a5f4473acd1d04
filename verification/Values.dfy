/** Stack cells of the virtual machine, the three truth values of SQL-92 section 8.12, and
    the string helpers the engine relies on. */
module Values {

  datatype Option<+T> = None | Some(value: T)

  /** A `mem_t` cell. An integer cell may also carry the text it was written with. */
  datatype Value =
    | Null
    | Int(i: int, text: Option<string>)
    | Real(r: real)
    | Str(z: string)

  datatype ArithOp = Add | Subtract | Multiply | Divide | Remainder | BitAnd | BitOr
  datatype ShiftOp = ShiftLeft | ShiftRight
  datatype Relation = Eq | Ne | Lt | Le | Gt | Ge

  /** Conversions and arithmetic on non-NULL cells whose C code (`atof`, `sprintf`, `strcmp`,
      floating point) is outside the model; nothing is assumed about them. */
  datatype Helpers = Helpers(
    itoa: int -> string,
    rtoa: real -> string,
    atoi: string -> int,
    isInt: string -> bool,
    fits32: string -> bool,
    truncate: real -> int,
    numericCmp: (string, string) -> int,
    strCmp: (string, string) -> int,
    arith: (ArithOp, Value, Value) -> Value,
    shift: (ShiftOp, Value, Value) -> Value,
    negate: Value -> Value,
    bitNot: int -> int,
    unquote: string -> string)

  function Number(i: int): Value { Int(i, None) }

  function AsString(h: Helpers, v: Value): string {
    match v
    case Null => ""
    case Int(i, text) => if text.Some? then text.value else h.itoa(i)
    case Real(r) => h.rtoa(r)
    case Str(z) => z
  }

  function ToInt(h: Helpers, v: Value): int {
    match v
    case Null => 0
    case Int(i, _) => i
    case Real(r) => h.truncate(r)
    case Str(z) => h.atoi(z)
  }

  /** The three truth values, ordered False < Unknown < True. */
  datatype Truth = False | Unknown | True {
    function Rank(): nat {
      match this
      case False => 0
      case Unknown => 1
      case True => 2
    }
  }

  /** AND is the lesser operand, OR the greater, NOT swaps the ends of the order. */
  function And3(p: Truth, q: Truth): Truth { if p.Rank() <= q.Rank() then p else q }
  function Or3(p: Truth, q: Truth): Truth { if p.Rank() <= q.Rank() then q else p }
  function Not3(p: Truth): Truth {
    match p
    case False => True
    case Unknown => Unknown
    case True => False
  }

  function Of(b: bool): Truth { if b then True else False }

  function TruthOf(h: Helpers, v: Value): Truth {
    if v.Null? then Unknown else Of(ToInt(h, v) != 0)
  }

  function FromTruth(t: Truth): Value {
    match t
    case False => Number(0)
    case Unknown => Null
    case True => Number(1)
  }

  /** The sign-carrying difference the numeric comparison opcodes compute. */
  function NumericDifference(h: Helpers, nos: Value, tos: Value): int {
    if nos.Int? && tos.Int? then nos.i - tos.i
    else if tos.Int? && nos.Str? && h.isInt(nos.z) then h.atoi(nos.z) - tos.i
    else if nos.Int? && tos.Str? && h.isInt(tos.z) then nos.i - h.atoi(tos.z)
    else h.numericCmp(AsString(h, nos), AsString(h, tos))
  }

  predicate Holds(rel: Relation, c: int) {
    match rel
    case Eq => c == 0
    case Ne => c != 0
    case Lt => c < 0
    case Le => c <= 0
    case Gt => c > 0
    case Ge => c >= 0
  }

  function Negation(rel: Relation): Relation {
    match rel
    case Eq => Ne
    case Ne => Eq
    case Lt => Ge
    case Le => Gt
    case Gt => Le
    case Ge => Lt
  }

  /** The truth value of a comparison: unknown as soon as one side is NULL. */
  function Compare(h: Helpers, rel: Relation, text: bool, nos: Value, tos: Value): Truth {
    if nos.Null? || tos.Null? then Unknown
    else if text then Of(Holds(rel, h.strCmp(AsString(h, nos), AsString(h, tos))))
    else Of(Holds(rel, NumericDifference(h, nos, tos)))
  }
}
