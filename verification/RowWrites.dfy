/** The code that checks constraints, maintains indices and writes rows, with its stack offsets,
    run against a table and its indices. Jumps in these fragments only go forward, so they are
    written as `if`. */
module RowWrites {
  import opened Values
  import opened Constraints

  datatype Cell = V(v: Value) | K(e: Entry) | R(row: Row)

  function Cells(vs: seq<Value>): (cs: seq<Cell>)
    ensures |cs| == |vs|
  {
    seq(|vs|, j requires 0 <= j < |vs| => V(vs[j]))
  }

  function AsRow(cs: seq<Cell>): (vs: seq<Value>)
    requires forall j :: 0 <= j < |cs| ==> cs[j].V?
  {
    seq(|cs|, j requires 0 <= j < |cs| => cs[j].v)
  }

  function Drop(s: seq<Cell>, n: nat): seq<Cell> requires n <= |s| { s[..|s| - n] }
  function Peek(s: seq<Cell>, n: nat): Cell requires n < |s| { s[|s| - 1 - n] }

  /** The record number in a cell pushed by OP_Recno or an integer. */
  predicate IsInt(c: Cell) { c.V? && c.v.Int? }

  class Vm {
    const t: Table
    var stack: seq<Cell>
    var rows: Rows
    var idx: seq<set<Entry>>
    var open: seq<bool>
    var cursor: Option<int>

    /** One set of entries for every index; stored rows have every column. */
    ghost predicate Valid()
      reads this`rows, this`idx, this`open
    {
      Sized(t, rows) && |idx| == |t.indices| && |open| == |t.indices|
    }

    constructor (t: Table)
      requires t.Valid()
      ensures this.t == t && Valid() && rows == map[] && stack == [] && forall i :: 0 <= i < |t.indices| ==>
                idx[i] == {}
    {
      this.t := t;
      stack, rows, cursor := [], map[], None;
      idx := seq(|t.indices|, _ => {});
      open := seq(|t.indices|, _ => true);
    }

    // Instructions.

    method Dup(n: nat)
      requires n < |stack|
      modifies this`stack
      ensures stack == old(stack) + [Peek(old(stack), n)]
    {
      stack := stack + [stack[|stack| - 1 - n]];
    }

    method Pop(n: nat)
      requires n <= |stack|
      modifies this`stack
      ensures stack == Drop(old(stack), n)
    {
      stack := stack[..|stack| - n];
    }

    method PushValue(v: Value)
      modifies this`stack
      ensures stack == old(stack) + [V(v)]
    {
      stack := stack + [V(v)];
    }

    /** OP_Push overwrites the cell `n` below the top and pops the top. */
    method Overwrite(n: nat)
      requires 1 <= n < |stack|
      modifies this`stack
      ensures stack == Drop(old(stack), 1)[|old(stack)| - 1 - n := Peek(old(stack), 0)]
    {
      stack := stack[..|stack| - 1][|stack| - 1 - n := stack[|stack| - 1]];
    }

    method Recno()
      requires cursor.Some?
      modifies this`stack
      ensures stack == old(stack) + [V(Number(cursor.value))]
    {
      stack := stack + [V(Number(cursor.value))];
    }

    method Column(c: nat)
      requires cursor.Some? && cursor.value in rows && c < |rows[cursor.value]|
      modifies this`stack
      ensures stack == old(stack) + [V(rows[cursor.value][c])]
    {
      stack := stack + [V(rows[cursor.value][c])];
    }

    /** Replaces a record number and `n` column values by an index key; tells whether one of the
        values is NULL. */
    method MakeIdxKey(n: nat, i: nat) returns (hasNull: bool)
      requires n < |stack| && IsInt(Peek(stack, n)) && forall j :: |stack| - n <= j < |stack| ==> stack[j].V?
      modifies this`stack
      ensures var vs := AsRow(old(stack)[|old(stack)| - n..]);
              && stack == Drop(old(stack), n + 1) + [K(Entry(t.makeKey(i, vs), Peek(old(stack), n).v.i))]
              && hasNull == HasNull(vs)
    {
      var vs := AsRow(stack[|stack| - n..]);
      hasNull := HasNull(vs);
      stack := stack[..|stack| - n - 1] + [K(Entry(t.makeKey(i, vs), stack[|stack| - 1 - n].v.i))];
    }

    method IdxDelete(i: nat)
      requires |stack| >= 1 && Peek(stack, 0).K? && i < |idx| == |open|
      modifies this`stack, this`idx
      ensures stack == Drop(old(stack), 1)
      ensures idx == if open[i] then old(idx)[i := old(idx[i]) - {Peek(old(stack), 0).e}] else old(idx)
    {
      if open[i] {
        idx := idx[i := idx[i] - {stack[|stack| - 1].e}];
      }
      stack := stack[..|stack| - 1];
    }

    method IdxPut(i: nat)
      requires |stack| >= 1 && Peek(stack, 0).K? && i < |idx| == |open|
      modifies this`stack, this`idx
      ensures stack == Drop(old(stack), 1)
      ensures idx == if open[i] then old(idx)[i := old(idx[i]) + {Peek(old(stack), 0).e}] else old(idx)
    {
      if open[i] {
        idx := idx[i := idx[i] + {stack[|stack| - 1].e}];
      }
      stack := stack[..|stack| - 1];
    }

    /** Pops R. Looks only at the first entry with the key on the stack; unless there is none or
        it belongs to R, its record number is pushed. */
    method IsUnique(i: nat) returns (unique: bool)
      requires |stack| >= 2 && IsInt(Peek(stack, 0)) && Peek(stack, 1).K? && i < |idx| == |open| && open[i]
      modifies this`stack
      ensures var k, r := Peek(old(stack), 1).e.key, Peek(old(stack), 0).v.i;
              && (Absent(idx[i], k) ==> unique)
              && (!Absent(idx[i], k) ==> exists e :: First(idx[i], k, e) && unique == (e.rowid == r)
                                           && (!unique ==> stack == Drop(old(stack), 1) + [V(Number(e.rowid))]))
              && (unique ==> stack == Drop(old(stack), 1))
    {
      var k, r := stack[|stack| - 2].e.key, stack[|stack| - 1].v.i;
      stack := stack[..|stack| - 1];
      if Absent(idx[i], k) {
        return true;
      }
      FirstExists(idx[i], k);
      var e :| e in idx[i] && First(idx[i], k, e);
      unique := e.rowid == r;
      if !unique {
        stack := stack + [V(Number(e.rowid))];
      }
    }

    /** Pops a record number; the cursor is left on the row if it exists. */
    method NotExists() returns (missing: bool)
      requires |stack| >= 1 && IsInt(Peek(stack, 0))
      modifies this`stack, this`cursor
      ensures stack == Drop(old(stack), 1) && missing == (Peek(old(stack), 0).v.i !in rows)
      ensures !missing ==> cursor == Some(Peek(old(stack), 0).v.i)
    {
      var k := stack[|stack| - 1].v.i;
      stack := stack[..|stack| - 1];
      missing := k !in rows;
      cursor := if missing then None else Some(k);
    }

    method MoveTo()
      requires |stack| >= 1 && IsInt(Peek(stack, 0)) && Peek(stack, 0).v.i in rows
      modifies this`stack, this`cursor
      ensures stack == Drop(old(stack), 1) && cursor == Some(Peek(old(stack), 0).v.i)
    {
      cursor := Some(stack[|stack| - 1].v.i);
      stack := stack[..|stack| - 1];
    }

    method Delete()
      requires cursor.Some?
      modifies this`rows, this`cursor
      ensures rows == old(rows) - {old(cursor).value}
    {
      rows := rows - {cursor.value};
      cursor := None;
    }

    method MakeRecord(n: nat)
      requires n <= |stack| && forall j :: |stack| - n <= j < |stack| ==> stack[j].V?
      modifies this`stack
      ensures stack == Drop(old(stack), n) + [R(AsRow(old(stack)[|old(stack)| - n..]))]
    {
      stack := stack[..|stack| - n] + [R(AsRow(stack[|stack| - n..]))];
    }

    method PutIntKey()
      requires |stack| >= 2 && Peek(stack, 0).R? && IsInt(Peek(stack, 1))
      modifies this`stack, this`rows
      ensures stack == Drop(old(stack), 2) && rows == old(rows)[Peek(old(stack), 1).v.i := Peek(old(stack), 0).row]
    {
      rows := rows[stack[|stack| - 2].v.i := stack[|stack| - 1].row];
      stack := stack[..|stack| - 2];
    }

    // Index entries of the row under the cursor.

    /** Pushes the key of index `i` for the row under the cursor. */
    method PushOldKey(i: nat)
      requires Valid() && i < |t.indices| && cursor.Some? && cursor.value in rows
      modifies this`stack
      ensures stack == old(stack) + [K(EntryOf(t, i, cursor.value, rows[cursor.value]))]
    {
      ghost var s, vs := stack, KeyValues(t, i, cursor.value, rows[cursor.value]);
      var cs := t.indices[i].columns;
      Recno();
      var j := 0;
      while j < |cs|
        invariant 0 <= j <= |cs|
        invariant stack == s + [V(Number(cursor.value))] + Cells(vs[..j])
      {
        if t.iPKey == Some(cs[j]) {
          Dup(j);
        } else {
          Column(cs[j]);
        }
        assert vs[..j + 1] == vs[..j] + [vs[j]];
        j := j + 1;
      }
      assert vs[..j] == vs;
      assert stack[|stack| - |cs|..] == Cells(vs) && AsRow(Cells(vs)) == vs;
      var _ := MakeIdxKey(|cs|, i);
    }

    /** __generate_row_index_delete. */
    method RowIndexDelete(used: Option<seq<bool>>)
      requires Valid() && cursor.Some? && cursor.value in rows && (used.Some? ==> |used.value| == |t.indices|)
      modifies this`stack, this`idx
      ensures Valid() && stack == old(stack)
      ensures forall i :: 0 <= i < |idx| ==>
                idx[i] == if open[i] && (used.Some? ==> used.value[i])
                          then old(idx[i]) - {EntryOf(t, i, cursor.value, rows[cursor.value])} else old(idx[i])
    {
      var i := 0;
      while i < |t.indices|
        invariant 0 <= i <= |t.indices| && Valid() && stack == old(stack)
        invariant forall k :: 0 <= k < |idx| ==>
                    idx[k] == if k < i && open[k] && (used.Some? ==> used.value[k])
                              then old(idx[k]) - {EntryOf(t, k, cursor.value, rows[cursor.value])} else old(idx[k])
      {
        if used.None? || used.value[i] {
          PushOldKey(i);
          IdxDelete(i);
        }
        i := i + 1;
      }
    }

    /** __generate_row_delete: the record number is on top of the stack. */
    method RowDelete()
      requires Valid() && |stack| >= 1 && IsInt(Peek(stack, 0))
      modifies this`stack, this`idx, this`rows, this`cursor
      ensures var r := Peek(old(stack), 0).v.i;
              && Valid() && stack == Drop(old(stack), 1) && rows == old(rows) - {r}
              && forall i :: 0 <= i < |idx| ==>
                   idx[i] == if open[i] && r in old(rows) then old(idx[i]) - {EntryOf(t, i, r, old(rows[r]))}
                             else old(idx[i])
    {
      var missing := NotExists();
      if !missing {
        RowIndexDelete(None);
        Delete();
      }
    }

    // Constraint checks.

    /** The NOT NULL tests, with `base` below the new column values. */
    method NotNullChecks(cl: Clauses, two: nat, ghost base: seq<Cell>, ghost row: Row)
      returns (flow: Flow, ghost filled: Row)
      requires |row| == |t.columns| && stack == base + Cells(row) && |base| >= 1 + two
      modifies this`stack
      ensures flow == FillFlow(Fill(t, cl, row, 0))
      ensures flow == Proceed ==> Fill(t, cl, row, 0) == Filled(filled) && stack == base + Cells(filled)
      ensures flow == GotoIgnore ==> stack == Drop(base, 1 + two)
    {
      var n, i := |t.columns|, 0;
      filled := row;
      while i < n
        invariant 0 <= i <= n && |filled| == n && stack == base + Cells(filled)
        invariant Fill(t, cl, filled, i) == Fill(t, cl, row, 0)
      {
        var col := t.columns[i];
        if t.iPKey != Some(i) && col.notNull != NoConflict {
          var onError := NotNullAction(cl, col);
          Dup(n - 1 - i);
          var v := stack[|stack| - 1].v;
          Pop(1);
          if v.Null? {
            if onError == Ignore {
              Pop(n + 1 + two);
              assert stack == Drop(base, 1 + two);
              return GotoIgnore, filled;
            }
            if onError != Replace {
              return Halt(onError == Fail), filled;
            }
            PushValue(Str(col.dflt.value));
            Overwrite(n - i);
            filled := filled[i := Str(col.dflt.value)];
            assert stack == base + Cells(filled);
          }
        }
        i := i + 1;
      }
      flow := Proceed;
    }

    /** The INTEGER PRIMARY KEY test. */
    method KeyCheck(cl: Clauses, w: Write, ghost base: seq<Cell>, ghost row: Row) returns (flow: Flow)
      requires Valid() && Proper(t, w, rows) && w.recnoChange && |row| == |t.columns|
      requires stack == base + Head(w) + Cells(row)
      modifies this`stack, this`idx, this`cursor
      ensures Valid()
      ensures var a := Action(cl, t.keyConf);
              flow == if !KeyTaken(w, rows) || a == Replace then Proceed
                      else if a == Ignore then GotoIgnore
                      else Halt(a == Fail)
      ensures flow == Proceed ==> stack == old(stack) && (w.own.Some? ==> cursor == w.own)
      ensures flow == Proceed && KeyTaken(w, rows) ==>
                forall i :: 0 <= i < |idx| ==>
                  idx[i] == if open[i] then old(idx[i]) - {EntryOf(t, i, w.recno, rows[w.recno])} else old(idx[i])
      ensures flow != Proceed || !KeyTaken(w, rows) ==> idx == old(idx)
      ensures flow == GotoIgnore ==> stack == base
    {
      hide KeyValues, Legal, EntryOf;
      var n, update := |t.columns|, w.own.Some?;
      var two := if update then 1 else 0;
      var same := false;
      if update {
        Dup(n + 1);
        Dup(n + 1);
        same := stack[|stack| - 1] == stack[|stack| - 2];
        Pop(2);
      }
      if !same {
        Dup(n);
        var missing := NotExists();
        if !missing {
          var onError := Action(cl, t.keyConf);
          if onError == Ignore {
            Pop(n + 1 + two);
            return GotoIgnore;
          }
          if onError != Replace {
            return Halt(onError == Fail);
          }
          RowIndexDelete(None);
          if update {
            Dup(n + two);
            MoveTo();
          }
        }
      }
      if update {
        Dup(n + 1);
        MoveTo();
      }
      flow := Proceed;
    }

    /** Pushes the key of index `i` for the new row; `extra` keys are already on the stack. */
    method PushNewKey(i: nat, extra: nat, recno: int, ghost pre: seq<Cell>, ghost row: Row, ghost keys: seq<Cell>)
      returns (hasNull: bool)
      requires t.Valid() && i < |t.indices| && |row| == |t.columns| && |keys| == extra
      requires stack == pre + [V(Number(recno))] + Cells(row) + keys
      modifies this`stack
      ensures stack == old(stack) + [K(EntryOf(t, i, recno, row))] && hasNull == HasNull(KeyValues(t, i, recno, row))
    {
      ghost var s, vs := stack, KeyValues(t, i, recno, row);
      var n, cs := |t.columns|, t.indices[i].columns;
      Dup(n + extra);
      var j := 0;
      while j < |cs|
        invariant 0 <= j <= |cs|
        invariant stack == s + [V(Number(recno))] + Cells(vs[..j])
      {
        ghost var before := stack;
        if t.iPKey == Some(cs[j]) {
          Dup(j + extra + n + 1);
        } else {
          Dup(j + extra + n - cs[j]);
        }
        assert stack == before + [V(vs[j])];
        assert vs[..j + 1] == vs[..j] + [vs[j]];
        j := j + 1;
      }
      assert vs[..j] == vs;
      assert stack[|stack| - |cs|..] == Cells(vs) && AsRow(Cells(vs)) == vs;
      hasNull := MakeIdxKey(|cs|, i);
    }

    /** The UNIQUE test of one used index, its key on top of the stack. */
    method UniqueCheck(w: Write, i: nat, extra: nat, action: Conflict, ghost base: seq<Cell>, ghost row: Row,
                       ghost keys: seq<Cell>,
                       ghost left: Rows)
      returns (flow: Flow, ghost left': Rows)
      requires Middle(w, row, left) && t.KeysShowNulls() && i < |t.indices| && open[i] && IsUniqueIndex(t, i)
               && |keys| == extra
      requires stack == base + Head(w) + Cells(row) + keys + [K(EntryOf(t, i, w.recno, row))]
      requires !HasNull(KeyValues(t, i, w.recno, row))
      modifies this`stack, this`rows, this`idx, this`cursor
      ensures var rivals := Rivals(t, i, left, w.Self(), w.recno, row);
              && (flow == Proceed ==> Middle(w, row, left') && left' == left - rivals && stack == old(stack))
              && (flow != Proceed || rivals == {} ==> rows == old(rows) && idx == old(idx))
              && flow == (if rivals == {} || action == Replace then Proceed
                          else if action == Ignore then GotoIgnore
                          else Halt(action == Fail))
      ensures flow == GotoIgnore ==> stack == base
      ensures forall k :: 0 <= k < |idx| && !open[k] ==> idx[k] == old(idx[k])
    {
      hide SameKey, KeyValues, Legal;
      var n := |t.columns|;
      var two := if w.own.Some? && w.recnoChange then 1 else 0;
      left' := left;
      SelfCell(stack, base, w, row, keys, Peek(stack, 0));
      Dup(extra + n + 1 + two);
      var unique := IsUnique(i);
      FirstDecides(t, i, left, w.Self(), w.recno, row);
      if unique {
        assert left - {} == left;
        return Proceed, left;
      }
      if action == Ignore {
        Pop(n + extra + 3 + two);
        return GotoIgnore, left;
      }
      if action != Replace {
        return Halt(action == Fail), left;
      }
      SelfCell(stack[..|stack| - 1], base, w, row, keys, Peek(stack, 1));
      left' := RemoveRival(w, n + extra + 1 + two, row, left);
      flow := Proceed;
    }

    /** Deletes the row whose number is on top of the stack; UPDATE goes back to its own row, whose
        number is `depth` below. */
    method RemoveRival(w: Write, depth: nat, ghost row: Row, ghost left: Rows) returns (ghost left': Rows)
      requires Middle(w, row, left) && |stack| >= 1 && IsInt(Peek(stack, 0))
      requires Peek(stack, 0).v.i in left && Peek(stack, 0).v.i != w.Self()
      requires w.own.Some? ==> depth + 1 < |stack| && Peek(stack, depth + 1) == V(Number(w.Self()))
      modifies this`stack, this`rows, this`idx, this`cursor
      ensures Middle(w, row, left') && left' == left - {Peek(old(stack), 0).v.i} && stack == Drop(old(stack), 1)
      ensures forall k :: 0 <= k < |idx| && !open[k] ==> idx[k] == old(idx[k])
    {
      hide Legal, Image, EntryOf;
      ghost var r := Peek(stack, 0).v.i;
      RowDelete();
      left' := left - {r};
      RemoveOne(t, left, r);
      if w.own.Some? {
        Dup(depth);
        MoveTo();
      }
    }

    /** The tests of one used index: its key stays on the stack. */
    method IndexCheck(cl: Clauses, w: Write, i: nat, extra: nat, seen: bool, ghost base: seq<Cell>, ghost row: Row,
                      ghost keys: seq<Cell>, ghost left: Rows)
      returns (flow: Flow, seen': bool, ghost left': Rows)
      requires Middle(w, row, left) && t.KeysShowNulls() && UsedOpen(w) && i < |t.indices| && w.used[i]
      requires |keys| == extra && stack == base + Head(w) + Cells(row) + keys
      modifies this`stack, this`rows, this`idx, this`cursor
      ensures flow == Proceed ==>
                && Middle(w, row, left') && stack == old(stack) + [K(EntryOf(t, i, w.recno, row))]
                && CheckFrom(t, cl, w, row, i, left, seen) == CheckFrom(t, cl, w, row, i + 1, left', seen')
      ensures flow != Proceed ==> flow == FlowOf(CheckFrom(t, cl, w, row, i, left, seen))
      ensures flow != Proceed || !seen' ==> rows == old(rows) && idx == old(idx)
      ensures (seen ==> seen' && flow !in {GotoIgnore, Halt(true)}) && (flow == GotoIgnore ==> stack == base)
      ensures |idx| == |old(idx)| == |open| && forall k :: 0 <= k < |idx| && !open[k] ==> idx[k] == old(idx[k])
    {
      hide SameKey, KeyValues, Image, EntryOf, Rivals, Legal;
      var hasNull := PushNewKey(i, extra, w.recno, base + OwnPart(w), row, keys);
      flow, seen', left' := Proceed, seen, left;
      if t.indices[i].onError != NoConflict {
        var action := IndexAction(cl, t.indices[i].onError, seen);
        if hasNull {
          NullHasNoRivals(t, i, left, w.Self(), w.recno, row);
        } else {
          flow, left' := UniqueCheck(w, i, extra, action, base, row, keys, left);
          if flow != Proceed {
            return;
          }
        }
        CheckNext(t, cl, w, row, i, left, left', seen);
        seen' := seen || action == Replace;
      }
    }

    /** The UNIQUE tests: makes a key for every used index and leaves it on the stack. */
    method IndexChecks(cl: Clauses, w: Write, seen0: bool, ghost base: seq<Cell>, ghost row: Row, ghost left0: Rows)
      returns (flow: Flow, ghost left: Rows)
      requires Middle(w, row, left0) && t.KeysShowNulls() && UsedOpen(w)
      requires stack == base + Head(w) + Cells(row)
      modifies this`stack, this`rows, this`idx, this`cursor
      ensures flow == FlowOf(CheckFrom(t, cl, w, row, 0, left0, seen0))
      ensures flow == Proceed ==> CheckFrom(t, cl, w, row, 0, left0, seen0) == Accept(row, left) && Middle(w, row, left)
      ensures flow == Proceed ==> stack == base + Head(w) + Cells(row) + KeysPushed(t, w, row, |t.indices|)
      ensures flow == GotoIgnore ==> stack == base
      ensures flow == GotoIgnore || flow == Halt(true) ==> rows == old(rows) && idx == old(idx)
      ensures |idx| == |old(idx)| == |open| && forall k :: 0 <= k < |idx| && !open[k] ==> idx[k] == old(idx[k])
    {
      hide SameKey, KeyValues, Image, EntryOf, Rivals, Legal, Cells, Head;
      var i, extra, seen := 0, 0, seen0;
      left := left0;
      ghost var keys: seq<Cell> := [];
      while i < |t.indices|
        invariant 0 <= i <= |t.indices| && Middle(w, row, left) && UsedOpen(w)
        invariant keys == KeysPushed(t, w, row, i) && extra == |keys| && stack == base + Head(w) + Cells(row) + keys
        invariant CheckFrom(t, cl, w, row, i, left, seen) == CheckFrom(t, cl, w, row, 0, left0, seen0)
        invariant !seen ==> rows == old(rows) && idx == old(idx)
        invariant |idx| == |old(idx)| && forall k :: 0 <= k < |idx| && !open[k] ==> idx[k] == old(idx[k])
      {
        if w.used[i] {
          flow, seen, left := IndexCheck(cl, w, i, extra, seen, base, row, keys, left);
          if flow != Proceed {
            return;
          }
          keys := keys + [K(EntryOf(t, i, w.recno, row))];
          extra := extra + 1;
        }
        i := i + 1;
      }
      flow := Proceed;
    }

    ghost predicate UsedOpen(w: Write)
      reads this`open
    {
      |w.used| == |open| && forall i :: 0 <= i < |open| && w.used[i] ==> open[i]
    }

    /** __generate_constraint_checks: the flow is what the reference decides on the rows alone. On
        the way to `ignore_dest` and before a halt by FAIL nothing is changed, and to `ignore_dest`
        exactly the working entries are popped. */
    method ConstraintChecks(cl: Clauses, w: Write, ghost base: seq<Cell>, ghost row: Row) returns (flow: Flow)
      requires Consistent() && t.KeysShowNulls() && UsedOpen(w) && Proper(t, w, rows) && |row| == |t.columns|
      requires stack == base + Head(w) + Cells(row) && (w.own.Some? ==> cursor == w.own)
      modifies this`stack, this`rows, this`idx, this`cursor
      ensures |idx| == |old(idx)| == |open| && forall k :: 0 <= k < |idx| && !open[k] ==> idx[k] == old(idx[k])
      ensures flow == FlowOf(Decide(t, cl, w, row, old(rows)))
      ensures flow == Proceed ==>
                var v := Decide(t, cl, w, row, old(rows));
                Middle(w, v.row, v.left)
                  && stack == base + Head(w) + Cells(v.row) + KeysPushed(t, w, v.row, |t.indices|)
      ensures flow == GotoIgnore ==> stack == base
      ensures flow == GotoIgnore || flow == Halt(true) ==> rows == old(rows) && idx == old(idx)
    {
      hide SameKey, KeyValues, Image, EntryOf, Rivals, Legal, Fill, CheckFrom;
      ghost var m := rows;
      ghost var filled;
      flow, filled := NotNullChecks(cl, if w.own.Some? && w.recnoChange then 1 else 0, base + Head(w), row);
      if flow != Proceed {
        HeadDropped(base, w);
        return;
      }
      ghost var left := rows;
      if w.recnoChange {
        flow := KeyCheck(cl, w, base, filled);
        if flow != Proceed {
          return;
        }
        if KeyTaken(w, m) {
          RemoveOne(t, m, w.recno);
          left := m - {w.recno};
        }
      }
      if KeyTaken(w, m) { NeverIgnored(t, cl, w, filled, 0, left); }
      ghost var idx1 := idx;
      flow, left := IndexChecks(cl, w, w.recnoChange && Action(cl, t.keyConf) == Replace, base, filled, left);
      assert forall k :: 0 <= k < |idx| && !open[k] ==> idx[k] == idx1[k];
    }

    /** __complete_insertion. */
    method CompleteInsertion(w: Write, ghost base: seq<Cell>, ghost row: Row)
      requires Valid() && |w.used| == |t.indices| && |row| == |t.columns|
      requires stack == base + Head(w) + Cells(row) + KeysPushed(t, w, row, |t.indices|)
      modifies this`stack, this`rows, this`idx
      ensures Valid() && stack == base && rows == old(rows)[w.recno := row]
      ensures forall k :: 0 <= k < |idx| ==>
                idx[k] == if w.used[k] && open[k] then old(idx[k]) + {EntryOf(t, k, w.recno, row)} else old(idx[k])
    {
      var i := |t.indices|;
      while i > 0
        invariant 0 <= i <= |t.indices| && Valid() && rows == old(rows)
        invariant stack == base + Head(w) + Cells(row) + KeysPushed(t, w, row, i)
        invariant forall k :: 0 <= k < |idx| ==>
                    idx[k] == if i <= k && w.used[k] && open[k] then old(idx[k]) + {EntryOf(t, k, w.recno, row)}
                              else old(idx[k])
      {
        i := i - 1;
        if w.used[i] {
          IdxPut(i);
        }
      }
      assert stack == base + Head(w) + Cells(row);
      assert stack[|stack| - |row|..] == Cells(row) && AsRow(Cells(row)) == row;
      MakeRecord(|t.columns|);
      PutIntKey();
      if w.own.Some? && w.recnoChange {
        Pop(1);
      }
    }

    /** The rows are legal and every open index is their image. */
    ghost predicate Consistent()
      reads this`rows, this`idx, this`open
    {
      Valid() && Legal(t, rows) && forall i :: 0 <= i < |idx| && open[i] ==> idx[i] == Image(t, i, rows)
    }

    /** Every index is the image of the rows. */
    ghost predicate AllConsistent()
      reads this`rows, this`idx, this`open
    {
      Valid() && Legal(t, rows) && forall i :: 0 <= i < |idx| ==> idx[i] == Image(t, i, rows)
    }

    // Statements.

    method PushRow(row: Row)
      modifies this`stack
      ensures stack == old(stack) + Cells(row)
    {
      var c := 0;
      while c < |row|
        invariant 0 <= c <= |row| && stack == old(stack) + Cells(row[..c])
      {
        PushValue(row[c]);
        assert row[..c + 1] == row[..c] + [row[c]];
        c := c + 1;
      }
      assert row[..c] == row;
    }

    /** INSERT of one row, with a given or a new record number. */
    method Insert(cl: Clauses, recno: int, given: bool, row: Row) returns (flow: Flow)
      requires AllConsistent() && t.KeysShowNulls() && AllOpen() && |row| == |t.columns| && (!given ==> recno !in rows)
      modifies this`stack, this`rows, this`idx, this`cursor
      ensures var v := Decide(t, cl, InsertOf(t, recno, given), row, old(rows));
              && flow == FlowOf(v)
              && (flow == Proceed ==> rows == Written(InsertOf(t, recno, given), v.row, v.left))
      ensures flow == GotoIgnore || flow == Halt(true) ==> rows == old(rows) && idx == old(idx)
      ensures flow != Halt(false) ==> AllConsistent()
      ensures !flow.Halt? ==> stack == old(stack)
    {
      hide Decide, SameKey, KeyValues, EntryOf, KeysUnique, Fill;
      ghost var base, m, w := stack, rows, InsertOf(t, recno, given);
      var w' := Write(None, recno, given, seq(|t.indices|, _ => true));
      PushValue(Number(recno));
      PushRow(row);
      flow := ConstraintChecks(cl, w', base, row);
      if flow == Proceed {
        ghost var v := Decide(t, cl, w, row, m);
        ghost var mid := rows;
        CompleteInsertion(w', base, v.row);
        InsertLeaves(t, cl, recno, given, row, m);
        SameRows(mid[recno := v.row], Written(w, v.row, v.left));
      }
    }

    ghost predicate AllOpen()
      reads this`open
    {
      forall i :: 0 <= i < |open| ==> open[i]
    }

    /** Pushes the columns of the row under the cursor with the SET values in place. */
    method PushChanged(sets: seq<Option<Value>>)
      requires cursor.Some? && cursor.value in rows && |rows[cursor.value]| == |sets| == |t.columns|
      modifies this`stack
      ensures stack == old(stack) + Cells(Changed(t, rows[cursor.value], sets))
    {
      ghost var row := Changed(t, rows[cursor.value], sets);
      var c := 0;
      while c < |sets|
        invariant 0 <= c <= |sets| && stack == old(stack) + Cells(row[..c])
      {
        if t.iPKey == Some(c) {
          PushValue(Null);
        } else if sets[c].None? {
          Column(c);
        } else {
          PushValue(sets[c].value);
        }
        assert row[..c + 1] == row[..c] + [row[c]];
        c := c + 1;
      }
      assert row[..c] == row;
    }

    /** One round of the UPDATE loop; the listed record number is on top of the stack. A row that is
        gone is skipped without popping that number. Indices that are not open keep their entries. */
    method UpdateRow(cl: Clauses, rowid: int, newRecno: Option<int>, sets: seq<Option<Value>>, used: seq<bool>)
      returns (flow: Flow)
      requires AllConsistent() && t.KeysShowNulls() && |sets| == |t.columns|
               && used == UpdateOf(t, rowid, newRecno, sets).used
      requires UsedOpen(UpdateOf(t, rowid, newRecno, sets)) && |stack| >= 1 && Peek(stack, 0) == V(Number(rowid))
      modifies this`stack, this`rows, this`idx, this`cursor
      ensures rowid !in old(rows) ==> flow == GotoIgnore && stack == old(stack) && rows == old(rows) && idx == old(idx)
      ensures rowid in old(rows) ==>
                var w := UpdateOf(t, rowid, newRecno, sets);
                var v := Decide(t, cl, w, Changed(t, old(rows[rowid]), sets), old(rows));
                && flow == FlowOf(v)
                && (!flow.Halt? ==> stack == Drop(old(stack), 1))
                && (flow == GotoIgnore || flow == Halt(true) ==> rows == old(rows) && idx == old(idx))
                && (flow == Proceed ==>
                      && rows == Written(w, v.row, v.left) && Consistent()
                      && (AllConsistent() <==> (AllOpen() || v.left == old(rows))))
    {
      hide Decide, SameKey, KeyValues, EntryOf, KeysUnique, Fill, Image, Selective, OpenAll, CheckFrom;
      ghost var base, m, idx0 := Drop(stack, 1), rows, idx;
      ghost var w := UpdateOf(t, rowid, newRecno, sets);
      var w' := Write(Some(rowid), if newRecno.Some? then newRecno.value else rowid, newRecno.Some?, used);
      Dup(0);
      var missing := NotExists();
      if missing {
        return GotoIgnore;
      }
      if newRecno.Some? {
        PushValue(Number(newRecno.value));
      }
      PushChanged(sets);
      ghost var row := Changed(t, m[rowid], sets);
      assert stack == base + Head(w) + Cells(row);
      UpdateIsProper(t, w, rowid, newRecno, sets, m);
      flow := ConstraintChecks(cl, w', base, row);
      if flow != Proceed {
        return;
      }
      ghost var v, mid := Decide(t, cl, w, row, m), rows;
      FinishUpdate(w', base, v.row, v.left);
      UpdateLeaves(t, cl, rowid, newRecno, sets, m);
      SameRows(rows, Written(w, v.row, v.left));
      StaleIndices(t, cl, rowid, newRecno, sets, m, idx0, idx, open);
    }

    /** After the checks of an UPDATE: out with the old entries and row, in with the new. */
    method FinishUpdate(w: Write, ghost base: seq<Cell>, ghost row: Row, ghost left: Rows)
      requires Middle(w, row, left) && w.own.Some? && UsedOpen(w)
      requires stack == base + Head(w) + Cells(row) + KeysPushed(t, w, row, |t.indices|)
      modifies this`stack, this`rows, this`idx, this`cursor
      ensures Valid() && stack == base
      ensures forall r :: r in rows <==> r in Written(w, row, left)
      ensures forall r :: r in rows ==> rows[r] == Written(w, row, left)[r]
      ensures forall k :: 0 <= k < |idx| ==>
                idx[k] == if w.used[k]
                          then old(idx[k]) - {EntryOf(t, k, w.own.value, left[w.own.value])}
                             + {EntryOf(t, k, w.recno, row)}
                          else old(idx[k])
    {
      hide SameKey, KeyValues, EntryOf, Legal, Image;
      RowIndexDelete(Some(w.used));
      if w.recnoChange {
        Delete();
      }
      CompleteInsertion(w, base, row);
    }

    /** The DELETE loop over the listed rows. */
    method DeleteRows(list: seq<int>)
      requires AllConsistent() && AllOpen()
      modifies this`stack, this`rows, this`idx, this`cursor
      ensures AllConsistent() && stack == old(stack) && rows == old(rows) - set r | r in list
    {
      hide SameKey, KeyValues, EntryOf, Image, KeysUnique;
      var k := 0;
      assert rows == rows - set r | r in list[..0];
      while k < |list|
        invariant 0 <= k <= |list| && AllConsistent() && stack == old(stack)
        invariant rows == old(rows) - set r | r in list[..k]
      {
        PushValue(Number(list[k]));
        ghost var m := rows;
        RowDelete();
        if list[k] in m {
          RemoveOne(t, m, list[k]);
        } else {
          assert rows == m;
        }
        assert list[..k + 1] == list[..k] + [list[k]];
        k := k + 1;
      }
      assert list[..k] == list;
    }

    /** Opening the index cursors an UPDATE needs. */
    method OpenForUpdate(cl: Clauses, used: seq<bool>)
      requires |used| == |t.indices|
      modifies this`open
      ensures |open| == |used| && forall i :: 0 <= i < |open| ==> open[i] == (OpenAll(t, cl) || used[i])
    {
      var openAll, i := cl.override == Replace, 0;
      while i < |t.indices| && !openAll
        invariant 0 <= i <= |t.indices|
        invariant openAll == (cl.override == Replace || exists k :: 0 <= k < i && t.indices[k].onError == Replace)
      {
        if t.indices[i].onError == Replace {
          openAll := true;
        }
        i := i + 1;
      }
      open := seq(|used|, k requires 0 <= k < |used| => openAll || used[k]);
    }

    /** Which indices an UPDATE must maintain: the xref[] walk. */
    method UsedIndices(recnoChange: bool, set': seq<bool>) returns (used: seq<bool>)
      requires t.Valid() && |set'| == |t.columns|
      ensures |used| == |t.indices|
      ensures forall i :: 0 <= i < |used| ==>
                used[i] == (recnoChange || exists j :: 0 <= j < |t.indices[i].columns| && set'[t.indices[i].columns[j]])
    {
      used := [];
      var k := 0;
      while k < |t.indices|
        invariant 0 <= k == |used| <= |t.indices|
        invariant forall i :: 0 <= i < |used| ==>
                    used[i] == (recnoChange || exists j ::
                                  0 <= j < |t.indices[i].columns| && set'[t.indices[i].columns[j]])
      {
        var cs, j := t.indices[k].columns, 0;
        if !recnoChange {
          while j < |cs| && !set'[cs[j]]
            invariant 0 <= j <= |cs| && forall l :: 0 <= l < j ==> !set'[cs[l]]
          {
            j := j + 1;
          }
        }
        used := used + [j < |cs|];
        k := k + 1;
      }
    }

    /** The UPDATE loop. The listed rows were collected before, so some may be gone by now; each of
        them leaves its record number on the stack. A halt by FAIL keeps the rows updated before it. */
    method UpdateRows(cl: Clauses, list: seq<int>, set': SetList) returns (flow: Flow, gone: nat)
      requires AllConsistent() && t.KeysShowNulls() && set'.Fits(t) && OpensEnough(t, cl, set'.Used(t))
      modifies this
      ensures flow.Halt? || flow == Proceed
      ensures flow != Halt(false) ==> AllConsistent()
      ensures flow == Proceed ==> |stack| == |old(stack)| + gone && stack[..|old(stack)|] == old(stack)
    {
      hide Decide, SameKey, KeyValues, EntryOf, Image, KeysUnique, Changed, OpenAll, OpensEnough;
      var used := UsedIndices(set'.recno.Some?, set'.Mask());
      OpenForUpdate(cl, used);
      flow, gone := Proceed, 0;
      set'.UsedIs(t, used);
      for k := 0 to |list|
        invariant AllConsistent() && |stack| == |old(stack)| + gone && stack[..|old(stack)|] == old(stack)
        invariant used == set'.Used(t) && |open| == |used| && forall i :: 0 <= i < |open| ==>
                    open[i] == (OpenAll(t, cl) || used[i])
      {
        var rowid := list[k];
        ghost var m := rows;
        PushValue(Number(rowid));
        if rowid !in rows {
          gone := gone + 1;
        }
        var row := if rowid in rows then rows[rowid] else [];
        var recno, sets := set'.RecnoFor(rowid, row), set'.SetsFor(rowid, row);
        set'.SameUsed(t, rowid, row);
        flow := UpdateRow(cl, rowid, recno, sets, used);
        if flow.Halt? {
          return;
        }
        if flow == Proceed {
          OpenOrKept(t, cl, rowid, recno, sets, m, used, open);
        }
      }
      flow := Proceed;
    }

    method OpenAllIndices()
      requires Valid()
      modifies this`open
      ensures Valid() && AllOpen()
    {
      open := seq(|t.indices|, _ => true);
    }

    method NewRecno() returns (r: int)
      ensures r !in rows
    {
      SomeFree(rows.Keys);
      r :| r !in rows;
    }

    /** Any interleaving of statements on one table, until one is halted; a halt by FAIL leaves the
        table and its indices in agreement. */
    method Run(statements: seq<Statement>) returns (end: Flow)
      requires AllConsistent() && t.KeysShowNulls() && forall s :: s in statements ==> s.Fits(t)
      modifies this
      ensures end.Halt? || end == Proceed
      ensures end != Halt(false) ==> AllConsistent()
    {
      hide KeysUnique, Image, Decide, OpensEnough;
      end := Proceed;
      for k := 0 to |statements|
        invariant AllConsistent() && end == Proceed
      {
        var s := statements[k];
        assert s.Fits(t);
        if s.InsertRow? {
          OpenAllIndices();
          var recno := if s.recno.Some? then s.recno.value else 0;
          if s.recno.None? {
            recno := NewRecno();
          }
          var flow := Insert(s.cl, recno, s.recno.Some?, s.row);
          if flow.Halt? {
            return flow;
          }
        } else if s.Delete? {
          OpenAllIndices();
          DeleteRows(s.list);
        } else {
          var flow, _ := UpdateRows(s.cl, s.list, s.set');
          if flow.Halt? {
            return flow;
          }
        }
      }
    }

    /** Between two constraint checks: the open indices describe the rows of `left`; a row with the
        new record number may still be stored, but its index entries are gone. */
    ghost predicate Middle(w: Write, row: Row, left: Rows)
      reads this`rows, this`idx, this`open, this`cursor
    {
      && Valid() && Legal(t, left) && |row| == |t.columns| && |w.used| == |t.indices|
      && SubRows(left, rows) && (forall r :: r in rows && r !in left ==> r == w.recno)
      && (w.own.Some? ==> w.own.value in left && cursor == w.own && (!w.recnoChange ==> w.recno == w.own.value))
      && (forall i :: 0 <= i < |idx| && open[i] ==> idx[i] == Image(t, i, left))
    }
  }

  /** The SET list of an UPDATE: new values are computed from the row they replace. */
  datatype SetList = SetList(recno: Option<(int, Row) -> int>, exprs: seq<Option<(int, Row) -> Value>>) {
    ghost predicate Fits(t: Table) { t.Valid() && |exprs| == |t.columns| }

    function Mask(): seq<bool> { seq(|exprs|, c requires 0 <= c < |exprs| => exprs[c].Some?) }

    function RecnoFor(rowid: int, row: Row): Option<int> {
      if recno.Some? then Some(recno.value(rowid, row)) else None
    }

    function SetsFor(rowid: int, row: Row): (sets: seq<Option<Value>>)
      ensures |sets| == |exprs|
    {
      seq(|exprs|, c requires 0 <= c < |exprs| => if exprs[c].Some? then Some(exprs[c].value(rowid, row)) else None)
    }

    predicate Touches(t: Table, i: nat)
      requires t.Valid() && |exprs| == |t.columns| && i < |t.indices|
    {
      recno.Some? || exists j :: 0 <= j < |t.indices[i].columns| && exprs[t.indices[i].columns[j]].Some?
    }

    /** The indices an UPDATE must maintain. */
    function Used(t: Table): seq<bool>
      requires t.Valid() && |exprs| == |t.columns|
    {
      seq(|t.indices|, i requires 0 <= i < |t.indices| => Touches(t, i))
    }

    lemma SameUsed(t: Table, rowid: int, row: Row)
      requires Fits(t)
      ensures UpdateOf(t, rowid, RecnoFor(rowid, row), SetsFor(rowid, row)).used == Used(t)
    {
      var w, sets := UpdateOf(t, rowid, RecnoFor(rowid, row), SetsFor(rowid, row)), SetsFor(rowid, row);
      forall i | 0 <= i < |t.indices| ensures w.used[i] == Touches(t, i) {
        var cs := t.indices[i].columns;
        if recno.None? {
          assert forall j :: 0 <= j < |cs| ==> sets[cs[j]].Some? == exprs[cs[j]].Some?;
        }
      }
    }

    lemma UsedIs(t: Table, used: seq<bool>)
      requires Fits(t) && |used| == |t.indices|
      requires forall i :: 0 <= i < |used| ==>
                 used[i] == (recno.Some? || exists j ::
                               0 <= j < |t.indices[i].columns| && Mask()[t.indices[i].columns[j]])
      ensures used == Used(t)
    {
      forall i | 0 <= i < |used| ensures used[i] == Touches(t, i) {
        var cs := t.indices[i].columns;
        assert forall j :: 0 <= j < |cs| ==> Mask()[cs[j]] == exprs[cs[j]].Some?;
      }
    }
  }

  /** A statement with its rows already chosen. */
  datatype Statement =
    | InsertRow(cl: Clauses, recno: Option<int>, row: Row)
    | Delete(list: seq<int>)
    | Update(cl: Clauses, list: seq<int>, set': SetList)
  {
    ghost predicate Fits(t: Table) {
      && t.Valid()
      && (InsertRow? ==> |row| == |t.columns|)
      && (Update? ==> set'.Fits(t) && OpensEnough(t, cl, set'.Used(t)))
    }
  }

  lemma {:induction false} SomeFree(s: set<int>)
    ensures exists r :: r !in s
  {
    var r := Above(s);
    assert r !in s;
  }

  lemma {:induction false} Above(s: set<int>) returns (r: int)
    ensures forall x :: x in s ==> x < r
  {
    r := 0;
    if y :| y in s {
      r := Above(s - {y});
      if r <= y { r := y + 1; }
      forall x | x in s ensures x < r {
        assert x == y || x in s - {y};
      }
    }
  }

  /** Where a fragment of constraint code leaves to. */
  datatype Flow = Proceed | GotoIgnore | Halt(byFail: bool)

  function FillFlow(f: Filling): Flow {
    if f.Filled? then Proceed else if f.action == Ignore then GotoIgnore else Halt(f.action == Fail)
  }

  function FlowOf(v: Verdict): Flow {
    match v
    case Accept(_, _) => Proceed
    case Ignored => GotoIgnore
    case Halted(byFail) => Halt(byFail)
  }

  /** The keys of the used indices before `i`, in list order. */
  ghost function KeysPushed(t: Table, w: Write, row: Row, i: nat): seq<Cell>
    requires t.Valid() && i <= |t.indices| == |w.used| && |row| == |t.columns|
  {
    if i == 0 then []
    else KeysPushed(t, w, row, i - 1) + if w.used[i - 1] then [K(EntryOf(t, i - 1, w.recno, row))] else []
  }

  ghost function OwnPart(w: Write): seq<Cell> {
    if w.own.Some? && w.recnoChange then [V(Number(w.own.value))] else []
  }

  lemma CheckNext(t: Table, cl: Clauses, w: Write, row: Row, i: nat, m: Rows, left: Rows, seen: bool)
    requires Sized(t, m) && |row| == |t.columns| && |w.used| == |t.indices|
    requires i < |t.indices| && w.used[i] && IsUniqueIndex(t, i)
    requires var rivals := Rivals(t, i, m, w.Self(), w.recno, row);
             (rivals == {} && left == m)
               || (IndexAction(cl, t.indices[i].onError, seen) == Replace && left == m - rivals)
    ensures CheckFrom(t, cl, w, row, i, m, seen)
            == CheckFrom(t, cl, w, row, i + 1, left, seen || IndexAction(cl, t.indices[i].onError, seen) == Replace)
  {
    assert m - {} == m;
  }

  lemma InsertLeaves(t: Table, cl: Clauses, recno: int, given: bool, row: Row, m: Rows)
    requires Legal(t, m) && t.KeysShowNulls() && |row| == |t.columns| && (!given ==> recno !in m)
    requires Decide(t, cl, InsertOf(t, recno, given), row, m).Accept?
    ensures var w := InsertOf(t, recno, given);
            var v := Decide(t, cl, w, row, m);
            var m' := Written(w, v.row, v.left);
            && Legal(t, m')
            && forall i :: 0 <= i < |t.indices| ==>
                 Image(t, i, m') == Image(t, i, v.left) + {EntryOf(t, i, recno, v.row)}
  {
    hide Decide, KeysUnique, Image, EntryOf, SameKey;
    var w := InsertOf(t, recno, given);
    var v := Decide(t, cl, w, row, m);
    WriteKeepsLegal(t, cl, w, row, m);
    forall i | 0 <= i < |t.indices|
      ensures Image(t, i, Written(w, v.row, v.left)) == Image(t, i, v.left) + {EntryOf(t, i, recno, v.row)}
    {
      WriteImages(t, cl, w, row, m, i);
    }
  }

  lemma UpdateIsProper(t: Table, w: Write, rowid: int, newRecno: Option<int>, sets: seq<Option<Value>>, m: Rows)
    requires Sized(t, m) && |sets| == |t.columns| && w == UpdateOf(t, rowid, newRecno, sets) && rowid in m
    ensures Proper(t, w, m)
  {
  }

  lemma UpdateLeaves(t: Table, cl: Clauses, rowid: int, newRecno: Option<int>, sets: seq<Option<Value>>, m: Rows)
    requires Legal(t, m) && t.KeysShowNulls() && |sets| == |t.columns| && rowid in m
    requires Decide(t, cl, UpdateOf(t, rowid, newRecno, sets), Changed(t, m[rowid], sets), m).Accept?
    ensures var w := UpdateOf(t, rowid, newRecno, sets);
            var v := Decide(t, cl, w, Changed(t, m[rowid], sets), m);
            var m' := Written(w, v.row, v.left);
            && Legal(t, m') && rowid in v.left && Proper(t, w, m) && Selective(t, w, v.row, m)
            && forall i :: 0 <= i < |t.indices| ==>
                 Image(t, i, m') == if w.used[i]
                                    then Image(t, i, v.left) - {EntryOf(t, i, rowid, v.left[rowid])}
                                       + {EntryOf(t, i, w.recno, v.row)}
                                    else Image(t, i, v.left)
  {
    hide Decide, KeysUnique, Image, EntryOf, SameKey, Fill, Selective;
    var w, row := UpdateOf(t, rowid, newRecno, sets), Changed(t, m[rowid], sets);
    var v := Decide(t, cl, w, row, m);
    UpdateIsProper(t, w, rowid, newRecno, sets, m);
    AcceptedKeeps(t, cl, w, row, m);
    UpdateIsSelective(t, cl, rowid, newRecno, sets, m);
    WriteKeepsLegal(t, cl, w, row, m);
    forall i | 0 <= i < |t.indices|
      ensures Image(t, i, Written(w, v.row, v.left))
              == if w.used[i] then Image(t, i, v.left) - {EntryOf(t, i, rowid, v.left[rowid])}
                    + {EntryOf(t, i, w.recno, v.row)}
                 else Image(t, i, v.left)
    {
      WriteImages(t, cl, w, row, m, i);
    }
  }

  /** Indices left closed are right only if nothing was replaced. */
  lemma StaleIndices(t: Table, cl: Clauses, rowid: int, newRecno: Option<int>, sets: seq<Option<Value>>, m: Rows,
                     idx0: seq<set<Entry>>, idx: seq<set<Entry>>, open: seq<bool>)
    requires Legal(t, m) && t.KeysShowNulls() && |sets| == |t.columns| && rowid in m
    requires Decide(t, cl, UpdateOf(t, rowid, newRecno, sets), Changed(t, m[rowid], sets), m).Accept?
    requires |idx0| == |idx| == |open| == |t.indices|
    requires var w := UpdateOf(t, rowid, newRecno, sets);
             var v := Decide(t, cl, w, Changed(t, m[rowid], sets), m);
             && Sized(t, Written(w, v.row, v.left))
             && forall i :: 0 <= i < |idx| ==>
                  && idx0[i] == Image(t, i, m) && (w.used[i] ==> open[i])
                  && idx[i] == if open[i] then Image(t, i, Written(w, v.row, v.left)) else idx0[i]
    ensures var w := UpdateOf(t, rowid, newRecno, sets);
            var v := Decide(t, cl, w, Changed(t, m[rowid], sets), m);
            (forall i :: 0 <= i < |idx| ==> idx[i] == Image(t, i, Written(w, v.row, v.left)))
            <==> ((forall i :: 0 <= i < |open| ==> open[i]) || v.left == m)
  {
    hide Decide, KeysUnique, Image, EntryOf, SameKey, Selective, Fill;
    UpdateLeaves(t, cl, rowid, newRecno, sets, m);
    var w, row := UpdateOf(t, rowid, newRecno, sets), Changed(t, m[rowid], sets);
    var v := Decide(t, cl, w, row, m);
    forall i | 0 <= i < |idx| && !open[i] ensures idx[i] == Image(t, i, Written(w, v.row, v.left)) <==> v.left == m {
      ClosedIndexStale(t, cl, w, row, m, i);
    }
  }

  lemma OpenOrKept(t: Table, cl: Clauses, rowid: int, newRecno: Option<int>, sets: seq<Option<Value>>, m: Rows,
                   used: seq<bool>, open: seq<bool>)
    requires Sized(t, m) && |sets| == |t.columns| && rowid in m && used == UpdateOf(t, rowid, newRecno, sets).used
    requires |open| == |used| && OpensEnough(t, cl, used) && forall i :: 0 <= i < |open| ==>
               open[i] == (OpenAll(t, cl) || used[i])
    ensures var v := Decide(t, cl, UpdateOf(t, rowid, newRecno, sets), Changed(t, m[rowid], sets), m);
            v.Accept? ==> (forall i :: 0 <= i < |open| ==> open[i]) || v.left == m
  {
    hide Decide, OpenAll, SameKey;
    if i :| 0 <= i < |open| && !open[i] {
      ClosedMeansKept(t, cl, UpdateOf(t, rowid, newRecno, sets), Changed(t, m[rowid], sets), m);
    }
  }

  lemma HeadDropped(base: seq<Cell>, w: Write)
    ensures var two := if w.own.Some? && w.recnoChange then 1 else 0;
            |Head(w)| == 1 + two && Drop(base + Head(w), 1 + two) == base
  {
  }

  lemma NullHasNoRivals(t: Table, i: nat, m: Rows, self: int, recno: int, row: Row)
    requires Sized(t, m) && i < |t.indices| && |row| == |t.columns| && HasNull(KeyValues(t, i, recno, row))
    ensures Rivals(t, i, m, self, recno, row) == {}
  {
  }

  /** The record numbers under the column values: the old one only if it changes. */
  function Head(w: Write): seq<Cell> {
    (if w.own.Some? && w.recnoChange then [V(Number(w.own.value))] else []) + [V(Number(w.recno))]
  }

  predicate First(es: set<Entry>, k: string, e: Entry) {
    e in es && e.key == k && forall f :: f in es && f.key == k ==> e.rowid <= f.rowid
  }

  predicate Absent(es: set<Entry>, k: string) { forall e :: e in es ==> e.key != k }

  lemma {:induction false} FirstExists(es: set<Entry>, k: string)
    requires !Absent(es, k)
    ensures exists e :: e in es && First(es, k, e)
    decreases es
  {
    var e :| e in es && e.key == k;
    if !First(es, k, e) {
      FirstExists(es - {e}, k);
      var f :| f in es - {e} && First(es - {e}, k, f);
      assert First(es, k, f);
    }
  }

  lemma SelfCell(s: seq<Cell>, base: seq<Cell>, w: Write, row: Row, keys: seq<Cell>, k: Cell)
    requires s == base + Head(w) + Cells(row) + keys + [k] && (w.own.Some? && !w.recnoChange ==> w.recno == w.own.value)
    ensures var two := if w.own.Some? && w.recnoChange then 1 else 0;
            |s| == |base| + |row| + |keys| + two + 2 && Peek(s, |keys| + |row| + 1 + two) == V(Number(w.Self()))
  {
    assert s[|base|] == Head(w)[0];
  }

  /** In a unique index the first entry with a key without NULLs tells whether there is a rival. */
  lemma FirstDecides(t: Table, i: nat, m: Rows, self: int, recno: int, row: Row)
    requires Legal(t, m) && t.KeysShowNulls() && i < |t.indices| && IsUniqueIndex(t, i) && |row| == |t.columns|
    requires !HasNull(KeyValues(t, i, recno, row))
    ensures var k := EntryOf(t, i, recno, row).key;
            && (Absent(Image(t, i, m), k) ==> Rivals(t, i, m, self, recno, row) == {})
            && (forall e :: First(Image(t, i, m), k, e) ==>
                  e.rowid in m && Rivals(t, i, m, self, recno, row) == if e.rowid == self then {} else {e.rowid})
  {
    hide KeyValues, HasNull, KeysUnique;
    var k, es := EntryOf(t, i, recno, row).key, Image(t, i, m);
    forall r | r in m && SameKey(t, i, r, m[r], recno, row) ensures EntryOf(t, i, r, m[r]) in es {
    }
    forall e | First(es, k, e)
      ensures e.rowid in m && Rivals(t, i, m, self, recno, row) == if e.rowid == self then {} else {e.rowid}
    {
      EntryRow(t, i, m, e);
      assert SameKey(t, i, e.rowid, m[e.rowid], recno, row);
      forall r | r in m && SameKey(t, i, r, m[r], recno, row) ensures r == e.rowid {
        SameKeyEntries(t, i, m, recno, row, r, e.rowid);
      }
    }
  }

  lemma RemoveOne(t: Table, m: Rows, r: int)
    requires Legal(t, m) && r in m
    ensures Legal(t, m - {r})
    ensures forall i :: 0 <= i < |t.indices| ==> Image(t, i, m) - {EntryOf(t, i, r, m[r])} == Image(t, i, m - {r})
  {
    hide SameKey;
    forall i | 0 <= i < |t.indices| ensures Image(t, i, m) - {EntryOf(t, i, r, m[r])} == Image(t, i, m - {r}) {
      ImageRemove(t, i, m, r);
    }
  }
}
