/** Index keys as byte strings, the order they are compared with, and why that order is the order
    of the tuples they encode. */
module KeyCodec {
  import opened Values

  type Byte = x: int | 0 <= x < 256
  type Bytes = seq<Byte>

  // Comparison.

  /** The strict dictionary order: a proper prefix is less. */
  predicate Less(a: Bytes, b: Bytes) {
    b != [] && (a == [] || a[0] < b[0] || (a[0] == b[0] && Less(a[1..], b[1..])))
  }

  lemma {:induction false} LessTotal(a: Bytes, b: Bytes)
    ensures Less(a, b) || a == b || Less(b, a)
    ensures !(Less(a, b) && Less(b, a)) && !Less(a, a)
  {
    if a != [] && b != [] && a[0] == b[0] {
      LessTotal(a[1..], b[1..]);
      assert a == [a[0]] + a[1..] && b == [b[0]] + b[1..];
    }
    if a != [] { LessTotal(a[1..], a[1..]); }
  }

  lemma {:induction false} LessTransitive(a: Bytes, b: Bytes, c: Bytes)
    requires Less(a, b) && Less(b, c)
    ensures Less(a, c)
  {
    if a != [] && a[0] == b[0] == c[0] {
      LessTransitive(a[1..], b[1..], c[1..]);
    }
  }

  lemma {:induction false} LessCommon(p: Bytes, a: Bytes, b: Bytes)
    ensures Less(p + a, p + b) == Less(a, b)
  {
    if p == [] {
      assert p + a == a && p + b == b;
    } else {
      LessCommon(p[1..], a, b);
      assert (p + a)[1..] == p[1..] + a && (p + b)[1..] == p[1..] + b;
    }
  }

  function Sign(a: Bytes, b: Bytes): int {
    if Less(a, b) then -1 else if a == b then 0 else 1
  }

  /** __sm_cmp_values: memcmp over the shorter length, then the lengths. */
  method CmpValues(a: Bytes, b: Bytes) returns (r: int)
    ensures r == Sign(a, b)
  {
    var n := if |a| <= |b| then |a| else |b|;
    var i := 0;
    while i < n && a[i] == b[i]
      invariant 0 <= i <= n && a[..i] == b[..i]
    {
      i := i + 1;
    }
    assert a == a[..i] + a[i..] && b == a[..i] + b[i..];
    LessCommon(a[..i], a[i..], b[i..]);
    if i == n {
      return if |a| == |b| then 0 else if |a| < |b| then -1 else 1;
    }
    return if a[i] > b[i] then 1 else -1;
  }

  predicate NulFree(s: Bytes) { forall i :: 0 <= i < |s| ==> s[i] != 0 }

  /** NUL is the least byte, so terminated strings compare like the strings themselves. */
  lemma {:induction false} TerminatedOrder(s: Bytes, t: Bytes, x: Bytes, y: Bytes)
    requires NulFree(s) && NulFree(t)
    ensures Less(s + [0] + x, t + [0] + y) <==> Less(s, t) || (s == t && Less(x, y))
  {
    if s == [] || t == [] {
      assert s == [] ==> (s + [0] + x)[1..] == x && (s + [0] + x)[0] == 0;
      assert t == [] ==> (t + [0] + y)[1..] == y && (t + [0] + y)[0] == 0;
      assert s != [] ==> (s + [0] + x)[0] == s[0] != 0;
      assert t != [] ==> (t + [0] + y)[0] == t[0] != 0;
    } else {
      TerminatedOrder(s[1..], t[1..], x, y);
      assert (s + [0] + x)[1..] == s[1..] + [0] + x && (t + [0] + y)[1..] == t[1..] + [0] + y;
      assert s == [s[0]] + s[1..] && t == [t[0]] + t[1..];
    }
  }

  // Fields.

  /** One column as the key sees it. */
  datatype Field = NullField | NumberField(r: real) | TextField(s: Bytes)

  /** The printing of numbers, and the numbers it tells apart; module SortableReals has the actual one. */
  datatype Codec = Codec(sortable: real -> Bytes, numbers: real -> bool) {
    /** Printed numbers hold no NUL and sort as the numbers do, as far as printing tells them apart. */
    ghost predicate Faithful() {
      && (forall r :: NulFree(sortable(r)))
      && (forall r, q :: numbers(r) && numbers(q) && r < q ==> Less(sortable(r), sortable(q)))
    }
  }

  predicate Clean(c: Codec, f: Field) { (f.TextField? ==> NulFree(f.s)) && (f.NumberField? ==> c.numbers(f.r)) }
  predicate AllClean(c: Codec, fs: seq<Field>) { forall i :: 0 <= i < |fs| ==> Clean(c, fs[i]) }

  /** NULL before numbers before text. */
  predicate FieldLess(f: Field, g: Field) {
    match f
    case NullField => !g.NullField?
    case NumberField(r) => g.TextField? || (g.NumberField? && r < g.r)
    case TextField(s) => g.TextField? && Less(s, g.s)
  }

  function Tag(f: Field): Byte {
    match f
    case NullField => 97
    case NumberField(_) => 98
    case TextField(_) => 99
  }

  function Content(c: Codec, f: Field): Bytes {
    match f
    case NullField => []
    case NumberField(r) => c.sortable(r)
    case TextField(s) => s
  }

  function EncodeField(c: Codec, f: Field): Bytes { [Tag(f)] + Content(c, f) + [0] }

  function EncodeFields(c: Codec, fs: seq<Field>): Bytes {
    if fs == [] then [] else EncodeField(c, fs[0]) + EncodeFields(c, fs[1..])
  }

  lemma ContentOrder(c: Codec, f: Field, g: Field)
    requires c.Faithful() && Clean(c, f) && Clean(c, g) && Tag(f) == Tag(g)
    ensures NulFree(Content(c, f)) && NulFree(Content(c, g))
    ensures Less(Content(c, f), Content(c, g)) <==> FieldLess(f, g)
    ensures Content(c, f) == Content(c, g) <==> f == g
  {
    LessTotal(Content(c, f), Content(c, g));
    if f.NumberField? && g.r < f.r { assert Less(c.sortable(g.r), c.sortable(f.r)); }
  }

  /** Whatever follows, the first field decides unless both are the same. */
  lemma FieldOrder(c: Codec, f: Field, g: Field, x: Bytes, y: Bytes)
    requires c.Faithful() && Clean(c, f) && Clean(c, g)
    ensures Less(EncodeField(c, f) + x, EncodeField(c, g) + y) <==> FieldLess(f, g) || (f == g && Less(x, y))
  {
    var a, b := Content(c, f) + [0] + x, Content(c, g) + [0] + y;
    assert EncodeField(c, f) + x == [Tag(f)] + a && EncodeField(c, g) + y == [Tag(g)] + b;
    assert (EncodeField(c, f) + x)[1..] == a && (EncodeField(c, g) + y)[1..] == b;
    if Tag(f) == Tag(g) {
      ContentOrder(c, f, g);
      TerminatedOrder(Content(c, f), Content(c, g), x, y);
    }
  }

  /** Field by field, then by what follows. */
  predicate TupleLess(fs: seq<Field>, gs: seq<Field>, tail: bool)
    requires |fs| == |gs|
  {
    if fs == [] then tail
    else FieldLess(fs[0], gs[0]) || (fs[0] == gs[0] && TupleLess(fs[1..], gs[1..], tail))
  }

  lemma {:induction false} FieldsOrder(c: Codec, fs: seq<Field>, gs: seq<Field>, x: Bytes, y: Bytes)
    requires c.Faithful() && |fs| == |gs| && AllClean(c, fs) && AllClean(c, gs)
    ensures Less(EncodeFields(c, fs) + x, EncodeFields(c, gs) + y) <==> TupleLess(fs, gs, Less(x, y))
  {
    if fs == [] {
      assert EncodeFields(c, fs) + x == x && EncodeFields(c, gs) + y == y;
    } else {
      FieldsOrder(c, fs[1..], gs[1..], x, y);
      FieldOrder(c, fs[0], gs[0], EncodeFields(c, fs[1..]) + x, EncodeFields(c, gs[1..]) + y);
      assert EncodeFields(c, fs) + x == EncodeField(c, fs[0]) + (EncodeFields(c, fs[1..]) + x);
      assert EncodeFields(c, gs) + y == EncodeField(c, gs[0]) + (EncodeFields(c, gs[1..]) + y);
    }
  }

  // Record numbers.

  const MIN_INT := -0x8000_0000
  const MAX_INT := 0x7fff_ffff
  type Int32 = x: int | MIN_INT <= x <= MAX_INT

  /** The bits of `i` as an unsigned number, with the sign bit flipped. */
  function Flipped(i: Int32): (u: int)
    ensures 0 <= u < 0x1_0000_0000
  {
    var bits := if i < 0 then i + 0x1_0000_0000 else i;
    if bits >= 0x8000_0000 then bits - 0x8000_0000 else bits + 0x8000_0000
  }

  /** Most significant byte first. */
  function BigEndian(u: int): Bytes
    requires 0 <= u < 0x1_0000_0000
  {
    [u / 0x100_0000, u / 0x1_0000 % 0x100, u / 0x100 % 0x100, u % 0x100]
  }

  function RecnoKey(i: Int32): Bytes { BigEndian(Flipped(i)) }

  function KeyRecno(k: Bytes): Int32
    requires |k| == 4
  {
    var u: int := k[0] as int * 0x100_0000 + k[1] as int * 0x1_0000 + k[2] as int * 0x100 + k[3] as int;
    var bits: int := if u >= 0x8000_0000 then u - 0x8000_0000 else u + 0x8000_0000;
    if bits >= 0x8000_0000 then bits - 0x1_0000_0000 else bits
  }

  lemma RecnoRoundTrip(i: Int32)
    ensures KeyRecno(RecnoKey(i)) == i
  {
    Digits(Flipped(i));
  }

  lemma Digits(u: int)
    requires 0 <= u < 0x1_0000_0000
    ensures (u / 0x100_0000) * 0x100_0000 + (u / 0x1_0000 % 0x100) * 0x1_0000 + (u / 0x100 % 0x100) * 0x100
            + u % 0x100 == u
  {
    var a := u / 0x100;
    var b := u / 0x1_0000;
    assert u == a * 0x100 + u % 0x100;
    assert b == a / 0x100 && a == b * 0x100 + a % 0x100;
    assert u / 0x100_0000 == b / 0x100 && b == b / 0x100 * 0x100 + b % 0x100;
  }

  /** Record numbers, negative ones too, sort by value. */
  lemma RecnoOrder(i: Int32, j: Int32)
    ensures Less(RecnoKey(i), RecnoKey(j)) <==> i < j
    ensures RecnoKey(i) == RecnoKey(j) <==> i == j
  {
    RecnoRoundTrip(i);
    RecnoRoundTrip(j);
    FourBytes(RecnoKey(i), RecnoKey(j));
  }

  lemma FourBytes(a: Bytes, b: Bytes)
    requires |a| == |b| == 4
    ensures Less(a, b) <==> KeyRecno(a) < KeyRecno(b)
  {
    assert Less(a[4..], b[4..]) == false;
    assert a[3..][1..] == a[4..] && b[3..][1..] == b[4..];
    assert a[2..][1..] == a[3..] && b[2..][1..] == b[3..];
    assert a[1..][1..] == a[2..] && b[1..][1..] == b[2..];
    assert Less(a[3..], b[3..]) <==> a[3] < b[3];
    assert Less(a[2..], b[2..]) <==> a[2] < b[2] || (a[2] == b[2] && a[3] < b[3]);
    assert Less(a[1..], b[1..]) <==> a[1] < b[1] || (a[1] == b[1] && Less(a[2..], b[2..]));
  }

  // Whole keys.

  datatype IndexKey = IndexKey(fields: seq<Field>, rowid: Int32)

  function EncodeKey(c: Codec, k: IndexKey): Bytes { EncodeFields(c, k.fields) + RecnoKey(k.rowid) }

  /** Index entries sort as their tuples and then their record numbers do. */
  lemma KeyOrder(c: Codec, k: IndexKey, l: IndexKey)
    requires c.Faithful() && |k.fields| == |l.fields| && AllClean(c, k.fields) && AllClean(c, l.fields)
    ensures Less(EncodeKey(c, k), EncodeKey(c, l)) <==> TupleLess(k.fields, l.fields, k.rowid < l.rowid)
  {
    FieldsOrder(c, k.fields, l.fields, RecnoKey(k.rowid), RecnoKey(l.rowid));
    RecnoOrder(k.rowid, l.rowid);
  }

  lemma {:induction false} TupleTotal(fs: seq<Field>, gs: seq<Field>, tail: bool, tail': bool)
    requires |fs| == |gs|
    ensures fs == gs ==> TupleLess(fs, gs, tail) == tail
    ensures fs != gs ==> TupleLess(fs, gs, tail) != TupleLess(gs, fs, tail')
  {
    if fs != [] {
      TupleTotal(fs[1..], gs[1..], tail, tail');
      FieldTotal(fs[0], gs[0]);
      assert fs == [fs[0]] + fs[1..] && gs == [gs[0]] + gs[1..];
    }
  }

  lemma FieldTotal(f: Field, g: Field)
    ensures f == g ==> !FieldLess(f, g)
    ensures f != g ==> FieldLess(f, g) != FieldLess(g, f)
  {
    if f.TextField? && g.TextField? { LessTotal(f.s, g.s); }
  }

  /** Different entries have different keys. */
  lemma KeyInjective(c: Codec, k: IndexKey, l: IndexKey)
    requires c.Faithful() && |k.fields| == |l.fields| && AllClean(c, k.fields) && AllClean(c, l.fields)
    requires EncodeKey(c, k) == EncodeKey(c, l)
    ensures k == l
  {
    KeyOrder(c, k, l);
    KeyOrder(c, l, k);
    LessTotal(EncodeKey(c, k), EncodeKey(c, l));
    TupleTotal(k.fields, l.fields, k.rowid < l.rowid, l.rowid < k.rowid);
    TupleTotal(l.fields, k.fields, l.rowid < k.rowid, k.rowid < l.rowid);
  }

  lemma {:induction false} TerminatedPrefix(s: Bytes, t: Bytes, x: Bytes, y: Bytes)
    requires NulFree(s) && NulFree(t)
    ensures s + [0] + x <= t + [0] + y <==> s == t && x <= y
  {
    var a, b := s + [0] + x, t + [0] + y;
    if s == [] || t == [] {
      assert s == [] ==> a == [0] + x;
      assert t == [] ==> b == [0] + y;
      assert s != [] ==> a[0] == s[0] != 0;
      assert t != [] ==> b[0] == t[0] != 0;
      if s == t {
        assert x == a[1..] && y == b[1..];
        assert x <= y ==> a == b[..|a|];
      }
    } else {
      var a', b' := s[1..] + [0] + x, t[1..] + [0] + y;
      TerminatedPrefix(s[1..], t[1..], x, y);
      assert a == [s[0]] + a' && b == [t[0]] + b';
      assert a <= b <==> s[0] == t[0] && a' <= b' by { PrefixCons(s[0], a', t[0], b'); }
      assert s == [s[0]] + s[1..] && t == [t[0]] + t[1..];
    }
  }

  lemma PrefixCons(h: Byte, a: Bytes, g: Byte, b: Bytes)
    ensures [h] + a <= [g] + b <==> h == g && a <= b
  {
    if [h] + a <= [g] + b {
      assert ([h] + a)[0] == ([g] + b)[0];
      assert a == ([h] + a)[1..] && b == ([g] + b)[1..];
    }
    if h == g && a <= b { assert [g] + b == [h] + a + b[|a|..]; }
  }

  /** No encoded field is a proper prefix of another. */
  lemma FieldPrefix(c: Codec, f: Field, g: Field, x: Bytes, y: Bytes)
    requires c.Faithful() && Clean(c, f) && Clean(c, g)
    ensures EncodeField(c, f) + x <= EncodeField(c, g) + y <==> f == g && x <= y
  {
    var a, b := Content(c, f) + [0] + x, Content(c, g) + [0] + y;
    assert EncodeField(c, f) + x == [Tag(f)] + a && EncodeField(c, g) + y == [Tag(g)] + b;
    PrefixCons(Tag(f), a, Tag(g), b);
    if Tag(f) == Tag(g) {
      ContentOrder(c, f, g);
      TerminatedPrefix(Content(c, f), Content(c, g), x, y);
    }
  }

  /** A key starts with an encoded tuple exactly if its fields start with that tuple. */
  lemma {:induction false} FieldsPrefix(c: Codec, ws: seq<Field>, fs: seq<Field>, x: Bytes)
    requires c.Faithful() && |ws| <= |fs| && AllClean(c, ws) && AllClean(c, fs)
    ensures EncodeFields(c, ws) <= EncodeFields(c, fs) + x <==> ws == fs[..|ws|]
  {
    if ws != [] {
      FieldsPrefix(c, ws[1..], fs[1..], x);
      FieldPrefix(c, ws[0], fs[0], EncodeFields(c, ws[1..]), EncodeFields(c, fs[1..]) + x);
      assert EncodeFields(c, fs) + x == EncodeField(c, fs[0]) + (EncodeFields(c, fs[1..]) + x);
      assert ws == fs[..|ws|] <==> ws[0] == fs[0] && ws[1..] == fs[1..][..|ws| - 1] by {
        if ws[0] == fs[0] && ws[1..]
           == fs[1..][..|ws| - 1] { assert ws == [fs[0]] + fs[1..][..|ws| - 1] == fs[..|ws|]; }
        if ws == fs[..|ws|] { assert fs[1..][..|ws| - 1] == fs[..|ws|][1..]; }
      }
    }
  }

  /** Tuples with the same key have NULLs alike, as module Constraints asks of an index. */
  lemma SameKeySameNulls(c: Codec, fs: seq<Field>, gs: seq<Field>)
    requires c.Faithful() && |fs| == |gs| && AllClean(c, fs) && AllClean(c, gs)
             && EncodeFields(c, fs) == EncodeFields(c, gs)
    ensures fs == gs
  {
    assert EncodeFields(c, gs) + [] == EncodeFields(c, gs);
    FieldsPrefix(c, fs, gs, []);
    assert gs[..|fs|] == gs;
  }

  // OP_MakeKey and OP_MakeIdxKey.

  /** A cell about to become part of a key: a number prints as `text`; a string may look like a
      number. */
  datatype Cell = NullCell | NumberCell(r: real, text: Bytes) | StringCell(s: Bytes, number: Option<real>)

  /** The column of a cell; `asText` is the 't' of the index's type string. */
  function FieldOf(cell: Cell, asText: bool): Field {
    match cell
    case NullCell => NullField
    case NumberCell(r, text) => if asText then TextField(text) else NumberField(r)
    case StringCell(s, number) => if !asText && number.Some? then NumberField(number.value) else TextField(s)
  }

  function FieldsOf(cells: seq<Cell>, asText: seq<bool>): (fs: seq<Field>)
    requires |cells| == |asText|
    ensures |fs| == |cells|
  {
    seq(|cells|, i requires 0 <= i < |cells| => FieldOf(cells[i], asText[i]))
  }

  lemma {:induction false} FieldsSnoc(c: Codec, fs: seq<Field>, f: Field)
    ensures EncodeFields(c, fs + [f]) == EncodeFields(c, fs) + EncodeField(c, f)
  {
    hide EncodeField;
    if fs == [] {
      assert fs + [f] == [f] && EncodeFields(c, [f][1..]) == [];
    } else {
      FieldsSnoc(c, fs[1..], f);
      assert (fs + [f])[1..] == fs[1..] + [f];
    }
  }

  /** The key of one cell alone, and what each cell adds to the key of several. */
  function CellKey(c: Codec, cell: Cell, asText: bool): Bytes { EncodeFields(c, FieldsOf([cell], [asText])) }

  /** 'a', 'b' or 'c', the contents and a NUL. */
  lemma CellBytes(c: Codec, r: real, s: Bytes, asText: bool)
    ensures CellKey(c, NullCell, asText) == [97, 0]
    ensures CellKey(c, NumberCell(r, s), false) == CellKey(c, StringCell(s, Some(r)), false)
            == [98] + c.sortable(r) + [0]
    ensures CellKey(c, NumberCell(r, s), true) == CellKey(c, StringCell(s, Some(r)), true) == [99] + s + [0]
    ensures CellKey(c, StringCell(s, None), asText) == [99] + s + [0]
  {
    forall f: Field ensures EncodeFields(c, [f]) == EncodeField(c, f) {
      FieldsSnoc(c, [], f);
      assert [] + [f] == [f];
    }
    forall cell: Cell, t ensures FieldsOf([cell], [t]) == [FieldOf(cell, t)] {
    }
  }

  lemma {:induction false} CellKeysJoin(c: Codec, cells: seq<Cell>, asText: seq<bool>, cell: Cell, t: bool)
    requires |cells| == |asText|
    ensures EncodeFields(c, FieldsOf(cells + [cell], asText + [t]))
            == EncodeFields(c, FieldsOf(cells, asText)) + CellKey(c, cell, t)
  {
    hide EncodeField, EncodeFields, FieldOf;
    FieldsSnoc(c, FieldsOf(cells, asText), FieldOf(cell, t));
    FieldsSnoc(c, [], FieldOf(cell, t));
    assert EncodeFields(c, []) == [] by { NoFieldsYet(c); }
    assert FieldsOf(cells + [cell], asText + [t]) == FieldsOf(cells, asText) + [FieldOf(cell, t)];
    assert FieldsOf([cell], [t]) == [] + [FieldOf(cell, t)];
  }

  /** In a numeric column numbers, and strings that look like numbers, sort by value and before other
      strings; in a text column all cells sort by their text; NULL comes first in both. */
  lemma CellOrder(c: Codec, r: real, s: Bytes, q: real, t: Bytes, asText: bool)
    requires c.Faithful() && NulFree(s) && NulFree(t) && c.numbers(r) && c.numbers(q)
    ensures Less(CellKey(c, NumberCell(r, s), false), CellKey(c, NumberCell(q, t), false)) <==> r < q
    ensures Less(CellKey(c, NumberCell(r, s), false), CellKey(c, StringCell(t, Some(q)), false)) <==> r < q
    ensures Less(CellKey(c, NumberCell(r, s), true), CellKey(c, NumberCell(q, t), true)) <==> Less(s, t)
    ensures Less(CellKey(c, NumberCell(r, s), true), CellKey(c, StringCell(t, Some(q)), true)) <==> Less(s, t)
    ensures Less(CellKey(c, StringCell(s, None), asText), CellKey(c, StringCell(t, None), asText)) <==> Less(s, t)
    ensures Less(CellKey(c, NumberCell(r, s), false), CellKey(c, StringCell(t, None), false))
    ensures forall cell: Cell :: Less(CellKey(c, NullCell, asText), CellKey(c, cell, asText)) <==> !cell.NullCell?
  {
    hide CellKey;
    CellBytes(c, r, s, asText);
    CellBytes(c, q, t, asText);
    CellBytes(c, q, t, false);
    TaggedOrder(98, c.sortable(r), c.sortable(q));
    if q < r { assert Less(c.sortable(q), c.sortable(r)); }
    LessTotal(c.sortable(r), c.sortable(q));
    TaggedOrder(99, s, t);
    assert ([98] + c.sortable(r) + [0])[0] < ([99] + t + [0])[0];
    forall cell: Cell ensures Less(CellKey(c, NullCell, asText), CellKey(c, cell, asText)) <==> !cell.NullCell? {
      match cell
      case NullCell => LessTotal([97, 0], [97, 0]);
      case NumberCell(p, text) => CellBytes(c, p, text, asText);
      case StringCell(text, None) => CellBytes(c, r, text, asText);
      case StringCell(text, Some(p)) => CellBytes(c, p, text, asText);
    }
  }

  lemma TaggedOrder(tag: Byte, s: Bytes, t: Bytes)
    requires NulFree(s) && NulFree(t)
    ensures Less([tag] + s + [0], [tag] + t + [0]) <==> Less(s, t)
  {
    LessCommon([tag], s + [0], t + [0]);
    TerminatedOrder(s, t, [], []);
    assert [tag] + s + [0] == [tag] + (s + [0]) && [tag] + t + [0] == [tag] + (t + [0]);
    assert s + [0] + [] == s + [0] && t + [0] + [] == t + [0];
  }

  /** Adds up the size of the key, then writes it into a buffer of just that size. */
  method MakeKey(c: Codec, cells: seq<Cell>, asText: seq<bool>, recno: Option<Int32>)
    returns (key: Bytes, hasNull: bool)
    requires |cells| == |asText|
    ensures key == EncodeFields(c, FieldsOf(cells, asText)) + (if recno.Some? then RecnoKey(recno.value) else [])
    ensures |cells| == 1 && recno.None? ==> key == CellKey(c, cells[0], asText[0])
    ensures hasNull <==> NullCell in cells
  {
    hide EncodeFields, EncodeField, RecnoKey;
    ghost var fs := FieldsOf(cells, asText);
    var nByte, i := 0, 0;
    hasNull := false;
    assert EncodeFields(c, fs[..0]) == [] by { NoFieldsYet(c); }
    while i < |cells|
      invariant 0 <= i <= |cells| && nByte == |EncodeFields(c, fs[..i])| && (hasNull <==> NullCell in cells[..i])
    {
      FieldSize(c, fs[i]);
      FieldsSnoc(c, fs[..i], fs[i]);
      assert fs[..i + 1] == fs[..i] + [fs[i]];
      assert cells[..i + 1] == cells[..i] + [cells[i]];
      if cells[i].NullCell? {
        nByte := nByte + 2;
        hasNull := true;
      } else {
        nByte := nByte + |Content(c, FieldOf(cells[i], asText[i]))| + 2;
      }
      i := i + 1;
    }
    assert fs[..i] == fs && cells[..i] == cells;
    if recno.Some? {
      nByte := nByte + 4;
    }
    var buffer := new Byte[nByte](_ => 0);
    var j := 0;
    i := 0;
    while i < |cells|
      invariant 0 <= i <= |cells| && j == |EncodeFields(c, fs[..i])| && j <= buffer.Length
      invariant buffer[..j] == EncodeFields(c, fs[..i])
    {
      FieldsSnoc(c, fs[..i], fs[i]);
      assert fs[..i + 1] == fs[..i] + [fs[i]];
      LeadingFits(c, fs, i + 1);
      j := CopyField(c, FieldOf(cells[i], asText[i]), buffer, j);
      i := i + 1;
    }
    assert fs[..i] == fs;
    if recno.Some? {
      RecnoSize(recno.value);
      j := Copy(RecnoKey(recno.value), buffer, j);
    }
    key := buffer[..];
    assert buffer[..j] == buffer[..];
    if |cells| == 1 { assert cells == [cells[0]] && asText == [asText[0]]; }
  }

  lemma NoFieldsYet(c: Codec)
    ensures EncodeFields(c, []) == []
  {
  }

  lemma FieldSize(c: Codec, f: Field)
    ensures |EncodeField(c, f)| == |Content(c, f)| + 2
  {
  }

  lemma RecnoSize(i: Int32)
    ensures |RecnoKey(i)| == 4
  {
  }

  lemma {:induction false} LeadingFits(c: Codec, fs: seq<Field>, n: nat)
    requires n <= |fs|
    ensures |EncodeFields(c, fs[..n])| <= |EncodeFields(c, fs)|
    decreases |fs| - n
  {
    if n < |fs| {
      FieldsSnoc(c, fs[..n], fs[n]);
      assert fs[..n + 1] == fs[..n] + [fs[n]];
      LeadingFits(c, fs, n + 1);
    } else {
      assert fs[..n] == fs;
    }
  }

  method Copy(src: Bytes, buffer: array<Byte>, at: nat) returns (next: nat)
    requires at + |src| <= buffer.Length
    modifies buffer
    ensures next == at + |src| && buffer[..next] == old(buffer[..at]) + src
  {
    next := at;
    var i := 0;
    while i < |src|
      invariant 0 <= i <= |src| && next == at + i
      invariant buffer[..next] == old(buffer[..at]) + src[..i]
    {
      buffer[next] := src[i];
      next := next + 1;
      i := i + 1;
      assert src[..i] == src[..i - 1] + [src[i - 1]];
    }
    assert src[..i] == src;
  }

  method CopyField(c: Codec, f: Field, buffer: array<Byte>, at: nat) returns (next: nat)
    requires at + |EncodeField(c, f)| <= buffer.Length
    modifies buffer
    ensures next == at + |EncodeField(c, f)| && buffer[..next] == old(buffer[..at]) + EncodeField(c, f)
  {
    next := Copy([Tag(f)], buffer, at);
    next := Copy(Content(c, f), buffer, next);
    next := Copy([0], buffer, next);
  }
}
