/** Tables with indices, what it means for them to agree, and what a write with conflict
    resolution is to do, stated on the rows alone. */
module Constraints {
  import opened Values

  datatype Conflict = NoConflict | Rollback | Abort | Fail | Ignore | Replace | Default

  datatype Column = Column(notNull: Conflict, dflt: Option<string>)
  datatype Index = Index(columns: seq<nat>, onError: Conflict)

  /** `makeKey` stands for the key encoding; nothing is assumed about it here. */
  datatype Table = Table(columns: seq<Column>, iPKey: Option<nat>, indices: seq<Index>, keyConf: Conflict,
                         makeKey: (nat, seq<Value>) -> string)
  {
    ghost predicate Valid() {
      && (forall i, j :: 0 <= i < |indices| && 0 <= j < |indices[i].columns| ==> indices[i].columns[j] < |columns|)
      && (forall i :: 0 <= i < |indices| ==> |indices[i].columns| > 0)
    }

    /** Tuples with the same key have NULLs alike. */
    ghost predicate KeysShowNulls() {
      forall i, vs, ws :: makeKey(i, vs) == makeKey(i, ws) ==> HasNull(vs) == HasNull(ws)
    }
  }

  type Row = seq<Value>
  type Rows = map<int, Row>
  datatype Entry = Entry(key: string, rowid: int)

  /** The columns of one index; an INTEGER PRIMARY KEY column is the record number. */
  function KeyValue(t: Table, recno: int, row: Row, c: nat): Value
    requires c < |row|
  {
    if t.iPKey == Some(c) then Number(recno) else row[c]
  }

  function KeyValues(t: Table, i: nat, recno: int, row: Row): (vs: seq<Value>)
    requires t.Valid() && i < |t.indices| && |row| == |t.columns|
    ensures |vs| == |t.indices[i].columns|
  {
    var cs := t.indices[i].columns;
    seq(|cs|, j requires 0 <= j < |cs| => KeyValue(t, recno, row, cs[j]))
  }

  function EntryOf(t: Table, i: nat, recno: int, row: Row): Entry
    requires t.Valid() && i < |t.indices| && |row| == |t.columns|
  {
    Entry(t.makeKey(i, KeyValues(t, i, recno, row)), recno)
  }

  predicate HasNull(vs: seq<Value>) { exists j :: 0 <= j < |vs| && vs[j].Null? }

  ghost predicate Sized(t: Table, m: Rows) { t.Valid() && forall r :: r in m ==> |m[r]| == |t.columns| }

  /** What index `i` is to contain. */
  ghost function Image(t: Table, i: nat, m: Rows): set<Entry>
    requires Sized(t, m) && i < |t.indices|
  {
    set r | r in m :: EntryOf(t, i, r, m[r])
  }

  predicate IsUniqueIndex(t: Table, i: nat) requires i < |t.indices| { t.indices[i].onError != NoConflict }

  /** A row with the same key in a unique index; NULLs are distinct. */
  predicate SameKey(t: Table, i: nat, r: int, prior: Row, recno: int, row: Row)
    requires t.Valid() && i < |t.indices| && |prior| == |t.columns| && |row| == |t.columns|
  {
    !HasNull(KeyValues(t, i, recno, row)) && EntryOf(t, i, r, prior).key == EntryOf(t, i, recno, row).key
  }

  ghost predicate KeysUnique(t: Table, m: Rows)
    requires Sized(t, m)
  {
    forall i, r, s :: 0 <= i < |t.indices| && IsUniqueIndex(t, i) && r in m && s in m && r != s ==>
      !SameKey(t, i, r, m[r], s, m[s])
  }

  ghost predicate NotNullColumns(t: Table, row: Row)
    requires |row| == |t.columns|
  {
    forall c :: 0 <= c < |row| && t.columns[c].notNull != NoConflict && t.iPKey != Some(c) ==> !row[c].Null?
  }

  /** The rows of a table between statements. */
  ghost predicate Legal(t: Table, m: Rows) {
    Sized(t, m) && KeysUnique(t, m) && forall r :: r in m ==> NotNullColumns(t, m[r])
  }

  // Choosing the action.

  /** The clause of the statement, the one of the transaction, the one of the constraint. */
  datatype Clauses = Clauses(override: Conflict, transaction: Conflict)

  function Action(cl: Clauses, own: Conflict): Conflict {
    if cl.override != Default then cl.override
    else if cl.transaction != Default then cl.transaction
    else if own == Default then Abort
    else own
  }

  function NotNullAction(cl: Clauses, col: Column): Conflict {
    var a := Action(cl, col.notNull);
    if a == Replace && col.dflt.None? then Abort else a
  }

  /** Once a REPLACE may have happened, IGNORE and FAIL can no longer leave the table unchanged. */
  function IndexAction(cl: Clauses, own: Conflict, seenReplace: bool): Conflict {
    var a := Action(cl, own);
    if seenReplace && a == Ignore then Replace else if seenReplace && a == Fail then Abort else a
  }

  // The reference meaning of a write.

  ghost predicate SubRows(left: Rows, m: Rows) { forall r :: r in left ==> r in m && left[r] == m[r] }

  /** A write is accepted with the rows it leaves beside the new one, ignored, or halted: by FAIL,
      which keeps what the statement did before, or by ABORT or ROLLBACK. */
  datatype Verdict = Accept(row: Row, left: Rows) | Ignored | Halted(byFail: bool)

  datatype Filling = Filled(row: Row) | Refused(action: Conflict)

  /** NOT NULL constraints from column `c` on. */
  function Fill(t: Table, cl: Clauses, row: Row, c: nat): (f: Filling)
    requires |row| == |t.columns|
    ensures f.Filled? ==> |f.row| == |t.columns|
    decreases |row| - c
  {
    if c >= |row| then Filled(row)
    else if t.columns[c].notNull == NoConflict || t.iPKey == Some(c) || !row[c].Null? then Fill(t, cl, row, c + 1)
    else
      var a := NotNullAction(cl, t.columns[c]);
      if a == Replace && t.columns[c].dflt.Some? then Fill(t, cl, row[c := Str(t.columns[c].dflt.value)], c + 1)
      else Refused(a)
  }

  /** `own` is the row being updated. */
  datatype Write = Write(own: Option<int>, recno: int, recnoChange: bool, used: seq<bool>) {
    function Self(): int { if own.Some? then own.value else recno }
  }

  ghost predicate Proper(t: Table, w: Write, m: Rows) {
    && |w.used| == |t.indices|
    && (w.own.Some? ==> w.own.value in m && (!w.recnoChange ==> w.recno == w.own.value))
    && (w.own.None? && !w.recnoChange ==> w.recno !in m)
  }

  ghost predicate KeyTaken(w: Write, m: Rows) { w.recnoChange && w.recno in m && w.own != Some(w.recno) }

  ghost function Rivals(t: Table, i: nat, m: Rows, self: int, recno: int, row: Row): set<int>
    requires Sized(t, m) && i < |t.indices| && |row| == |t.columns|
  {
    set r | r in m && r != self && SameKey(t, i, r, m[r], recno, row)
  }

  /** The UNIQUE constraints from index `i` on. */
  ghost function CheckFrom(t: Table, cl: Clauses, w: Write, row: Row, i: nat, m: Rows, seenReplace: bool): (v: Verdict)
    requires Sized(t, m) && |row| == |t.columns| && |w.used| == |t.indices|
    ensures v.Accept? ==> v.row == row && SubRows(v.left, m)
    decreases |t.indices| - i
  {
    if i >= |t.indices| then Accept(row, m)
    else if !w.used[i] || !IsUniqueIndex(t, i) then CheckFrom(t, cl, w, row, i + 1, m, seenReplace)
    else
      var a := IndexAction(cl, t.indices[i].onError, seenReplace);
      var rivals := Rivals(t, i, m, w.Self(), w.recno, row);
      if rivals == {} then CheckFrom(t, cl, w, row, i + 1, m, seenReplace || a == Replace)
      else if a == Replace then CheckFrom(t, cl, w, row, i + 1, m - rivals, true)
      else if a == Ignore then Ignored
      else Halted(a == Fail)
  }

  ghost function Decide(t: Table, cl: Clauses, w: Write, row: Row, m: Rows): (v: Verdict)
    requires Sized(t, m) && |row| == |t.columns| && |w.used| == |t.indices|
    ensures v.Accept? ==> |v.row| == |t.columns| && SubRows(v.left, m)
  {
    var f := Fill(t, cl, row, 0);
    if f.Refused? then if f.action == Ignore then Ignored else Halted(f.action == Fail)
    else DecideKey(t, cl, w, f.row, m)
  }

  ghost function DecideKey(t: Table, cl: Clauses, w: Write, row: Row, m: Rows): (v: Verdict)
    requires Sized(t, m) && |row| == |t.columns| && |w.used| == |t.indices|
    ensures v.Accept? ==> v.row == row && SubRows(v.left, m)
  {
    var a := Action(cl, t.keyConf);
    if KeyTaken(w, m) then
      if a == Replace then CheckFrom(t, cl, w, row, 0, m - {w.recno}, true)
      else if a == Ignore then Ignored
      else Halted(a == Fail)
    else CheckFrom(t, cl, w, row, 0, m, w.recnoChange && a == Replace)
  }

  // What an accepted write leaves.

  /** The row `r` stands in the way of the new row. */
  ghost predicate Clash(t: Table, w: Write, row: Row, r: int, prior: Row)
    requires t.Valid() && |row| == |t.columns| && |prior| == |t.columns| && |w.used| == |t.indices|
  {
    (w.recnoChange && r == w.recno)
    || exists i :: 0 <= i < |t.indices| && w.used[i] && IsUniqueIndex(t, i) && SameKey(t, i, r, prior, w.recno, row)
  }

  ghost predicate ClashFrom(t: Table, w: Write, row: Row, r: int, prior: Row, i: nat)
    requires t.Valid() && |row| == |t.columns| && |prior| == |t.columns| && |w.used| == |t.indices|
  {
    exists k :: i <= k < |t.indices| && w.used[k] && IsUniqueIndex(t, k) && SameKey(t, k, r, prior, w.recno, row)
  }

  lemma {:induction false} CheckKeeps(t: Table, cl: Clauses, w: Write, row: Row, i: nat, m: Rows, seenReplace: bool)
    requires Sized(t, m) && |row| == |t.columns| && |w.used| == |t.indices|
    requires CheckFrom(t, cl, w, row, i, m, seenReplace).Accept?
    ensures var v := CheckFrom(t, cl, w, row, i, m, seenReplace);
            forall r :: r in m ==> (r in v.left <==> r == w.Self() || !ClashFrom(t, w, row, r, m[r], i))
    decreases |t.indices| - i
  {
    hide SameKey;
    if i < |t.indices| {
      if !w.used[i] || !IsUniqueIndex(t, i) {
        CheckKeeps(t, cl, w, row, i + 1, m, seenReplace);
      } else {
        var a := IndexAction(cl, t.indices[i].onError, seenReplace);
        var rivals := Rivals(t, i, m, w.Self(), w.recno, row);
        if rivals == {} { assert m - rivals == m; }
        CheckKeeps(t, cl, w, row, i + 1, m - rivals, seenReplace || a == Replace);
        forall r | r in m
          ensures ClashFrom(t, w, row, r, m[r], i)
                  <==> ClashFrom(t, w, row, r, m[r], i + 1) || SameKey(t, i, r, m[r], w.recno, row)
        {
        }
      }
    }
  }

  /** After a possible REPLACE no index makes the write ignored or halted by FAIL. */
  lemma {:induction false} NeverIgnored(t: Table, cl: Clauses, w: Write, row: Row, i: nat, m: Rows)
    requires Sized(t, m) && |row| == |t.columns| && |w.used| == |t.indices|
    ensures CheckFrom(t, cl, w, row, i, m, true) !in {Ignored, Halted(true)}
    decreases |t.indices| - i
  {
    hide SameKey;
    if i < |t.indices| {
      NeverIgnored(t, cl, w, row, i + 1, m);
      NeverIgnored(t, cl, w, row, i + 1, m - Rivals(t, i, m, w.Self(), w.recno, row));
    }
  }

  /** An accepted write removes exactly the rows that clash with the new one, and no others. */
  lemma AcceptedKeeps(t: Table, cl: Clauses, w: Write, row: Row, m: Rows)
    requires Sized(t, m) && |row| == |t.columns| && |w.used| == |t.indices| && Proper(t, w, m)
    requires Decide(t, cl, w, row, m).Accept?
    ensures var v := Decide(t, cl, w, row, m);
            && Fill(t, cl, row, 0) == Filled(v.row)
            && forall r :: r in m ==> (r in v.left <==> w.own == Some(r) || !Clash(t, w, v.row, r, m[r]))
  {
    hide SameKey, CheckFrom, Fill;
    var row' := Fill(t, cl, row, 0).row;
    var a := Action(cl, t.keyConf);
    var m' := if KeyTaken(w, m) then m - {w.recno} else m;
    CheckKeeps(t, cl, w, row', 0, m', if KeyTaken(w, m) then true else w.recnoChange && a == Replace);
    var left := Decide(t, cl, w, row, m).left;
    forall r | r in m ensures r in left <==> w.own == Some(r) || !Clash(t, w, row', r, m[r]) {
      assert Clash(t, w, row', r, m[r]) <==> (w.recnoChange && r == w.recno) || ClashFrom(t, w, row', r, m[r], 0);
    }
  }

  /** NULLs in NOT NULL columns are replaced by defaults, and nothing else is changed. */
  lemma {:induction false} FillMeans(t: Table, cl: Clauses, row: Row, c: nat)
    requires |row| == |t.columns| && Fill(t, cl, row, c).Filled?
    ensures var r := Fill(t, cl, row, c).row;
            && |r| == |row|
            && (forall k :: 0 <= k < |row| && (k < c || !row[k].Null?) ==> r[k] == row[k])
            && (forall k :: 0 <= k < |row| && (t.columns[k].notNull == NoConflict || t.iPKey == Some(k)) ==>
                  r[k] == row[k])
            && (forall k :: c <= k < |row| && t.columns[k].notNull != NoConflict && t.iPKey != Some(k) ==> !r[k].Null?)
    decreases |row| - c
  {
    if c < |row| {
      if t.columns[c].notNull == NoConflict || t.iPKey == Some(c) || !row[c].Null? {
        FillMeans(t, cl, row, c + 1);
      } else {
        FillMeans(t, cl, row[c := Str(t.columns[c].dflt.value)], c + 1);
      }
    }
  }

  /** The indices an UPDATE leaves alone have the same key before and after. */
  ghost predicate Selective(t: Table, w: Write, row: Row, m: Rows)
    requires Sized(t, m) && |row| == |t.columns| && |w.used| == |t.indices|
  {
    forall i :: 0 <= i < |t.indices| && !w.used[i] ==>
      && w.own.Some? && w.own.value in m && !w.recnoChange && w.recno == w.own.value
      && KeyValues(t, i, w.recno, row) == KeyValues(t, i, w.recno, m[w.recno])
  }

  ghost function Written(w: Write, row: Row, left: Rows): Rows {
    (if w.own.Some? then left - {w.own.value} else left)[w.recno := row]
  }

  /** Legal tables stay legal. */
  lemma WriteKeepsLegal(t: Table, cl: Clauses, w: Write, row: Row, m: Rows)
    requires Legal(t, m) && t.KeysShowNulls() && |row| == |t.columns| && Proper(t, w, m)
             && Decide(t, cl, w, row, m).Accept?
    requires Selective(t, w, Decide(t, cl, w, row, m).row, m)
    ensures var v := Decide(t, cl, w, row, m); Legal(t, Written(w, v.row, v.left))
  {
    hide Fill, Decide, SameKey, KeyValues, EntryOf;
    AcceptedKeeps(t, cl, w, row, m);
    FillMeans(t, cl, row, 0);
    var v := Decide(t, cl, w, row, m);
    var m' := Written(w, v.row, v.left);
    forall i, r, s | 0 <= i < |t.indices| && IsUniqueIndex(t, i) && r in m' && s in m' && r != s
      ensures !SameKey(t, i, r, m'[r], s, m'[s])
    {
      if s == w.recno {
        NoRivalLeft(t, cl, w, row, m, i, r);
      } else if r == w.recno {
        NoRivalLeft(t, cl, w, row, m, i, s);
        SameKeySwap(t, i, r, m'[r], s, m'[s]);
      }
    }
  }

  lemma SameKeySwap(t: Table, i: nat, r: int, row: Row, s: int, row': Row)
    requires t.Valid() && t.KeysShowNulls() && i < |t.indices| && |row| == |t.columns| && |row'| == |t.columns|
    ensures SameKey(t, i, r, row, s, row') == SameKey(t, i, s, row', r, row)
  {
    hide HasNull, KeyValues;
    var _ := t.makeKey(i, KeyValues(t, i, r, row)) == t.makeKey(i, KeyValues(t, i, s, row'));
  }

  lemma NoRivalLeft(t: Table, cl: Clauses, w: Write, row: Row, m: Rows, i: nat, r: int)
    requires Legal(t, m) && t.KeysShowNulls() && |row| == |t.columns| && Proper(t, w, m)
             && Decide(t, cl, w, row, m).Accept?
    requires Selective(t, w, Decide(t, cl, w, row, m).row, m)
    requires i < |t.indices| && IsUniqueIndex(t, i) && r in Decide(t, cl, w, row, m).left && r != w.recno
             && Some(r) != w.own
    ensures var v := Decide(t, cl, w, row, m); !SameKey(t, i, r, v.left[r], w.recno, v.row)
  {
    AcceptedKeeps(t, cl, w, row, m);
  }

  // Images and rivals.

  lemma ImageRemove(t: Table, i: nat, m: Rows, r: int)
    requires Sized(t, m) && i < |t.indices| && r in m
    ensures Image(t, i, m) - {EntryOf(t, i, r, m[r])} == Image(t, i, m - {r})
  {
    hide KeyValues;
    var m' := m - {r};
    forall x | x in Image(t, i, m) && x != EntryOf(t, i, r, m[r]) ensures x in Image(t, i, m') {
      var s :| s in m && x == EntryOf(t, i, s, m[s]);
      assert s in m' && m'[s] == m[s];
    }
  }

  lemma ImageAdd(t: Table, i: nat, m: Rows, r: int, row: Row)
    requires Sized(t, m) && i < |t.indices| && |row| == |t.columns| && r !in m
    ensures Image(t, i, m) + {EntryOf(t, i, r, row)} == Image(t, i, m[r := row])
  {
    hide KeyValues;
    var m', e := m[r := row], EntryOf(t, i, r, row);
    assert m'[r] == row;
    forall x | x in Image(t, i, m) + {e} ensures x in Image(t, i, m') {
      if x != e {
        var s :| s in m && x == EntryOf(t, i, s, m[s]);
        assert s in m' && m'[s] == m[s];
      }
    }
  }

  /** The entries of one key in a unique index: at most one. */
  lemma SameKeyEntries(t: Table, i: nat, m: Rows, recno: int, row: Row, r: int, s: int)
    requires Legal(t, m) && t.KeysShowNulls() && i < |t.indices| && IsUniqueIndex(t, i) && |row| == |t.columns|
    requires r in m && s in m && SameKey(t, i, r, m[r], recno, row) && SameKey(t, i, s, m[s], recno, row)
    ensures r == s
  {
    hide KeyValues, HasNull;
    var _ := t.makeKey(i, KeyValues(t, i, s, m[s])) == t.makeKey(i, KeyValues(t, i, recno, row));
    assert SameKey(t, i, r, m[r], s, m[s]);
  }

  /** An index key belongs to row `r`. */
  lemma EntryRow(t: Table, i: nat, m: Rows, e: Entry)
    requires Sized(t, m) && i < |t.indices| && e in Image(t, i, m)
    ensures e.rowid in m && e == EntryOf(t, i, e.rowid, m[e.rowid])
  {
  }

  // INSERT and UPDATE as writes.

  /** What an accepted write does to the image of an index. */
  lemma WriteImages(t: Table, cl: Clauses, w: Write, row: Row, m: Rows, i: nat)
    requires Legal(t, m) && |row| == |t.columns| && Proper(t, w, m) && Decide(t, cl, w, row, m).Accept?
             && i < |t.indices|
    requires Selective(t, w, Decide(t, cl, w, row, m).row, m)
    ensures var v := Decide(t, cl, w, row, m);
            var m', e := Written(w, v.row, v.left), EntryOf(t, i, w.recno, v.row);
            && Sized(t, m')
            && (w.own.None? ==> Image(t, i, m') == Image(t, i, v.left) + {e})
            && (w.own.Some? ==> w.own.value in v.left)
            && (w.own.Some? ==>
                  Image(t, i, m') == Image(t, i, v.left) - {EntryOf(t, i, w.own.value, m[w.own.value])} + {e})
            && (!w.used[i] ==> Image(t, i, m') == Image(t, i, v.left))
  {
    hide SameKey, KeyValues, Fill, Decide, HasNull;
    AcceptedKeeps(t, cl, w, row, m);
    var v := Decide(t, cl, w, row, m);
    var rest := if w.own.Some? then v.left - {w.own.value} else v.left;
    assert Sized(t, rest);
    assert w.recno !in rest by { assert w.recno in m && w.recnoChange ==> Clash(t, w, v.row, w.recno, m[w.recno]); }
    ImageAdd(t, i, rest, w.recno, v.row);
    if w.own.Some? {
      ImageRemove(t, i, v.left, w.own.value);
      if !w.used[i] {
        assert EntryOf(t, i, w.recno, v.row) == EntryOf(t, i, w.recno, v.left[w.recno]);
        assert EntryOf(t, i, w.recno, v.left[w.recno]) in Image(t, i, v.left);
      }
    }
  }

  /** One SET list entry per column; the INTEGER PRIMARY KEY is stored as NULL. */
  function Changed(t: Table, prior: Row, sets: seq<Option<Value>>): (r: Row)
    requires |prior| == |sets| == |t.columns|
    ensures |r| == |prior|
  {
    seq(|prior|, c requires 0 <= c < |prior| =>
      if t.iPKey == Some(c) then Null else if sets[c].Some? then sets[c].value else prior[c])
  }

  predicate Touches(t: Table, i: nat, sets: seq<Option<Value>>)
    requires t.Valid() && i < |t.indices| && |sets| == |t.columns|
  {
    exists j :: 0 <= j < |t.indices[i].columns| && sets[t.indices[i].columns[j]].Some?
  }

  function UpdateOf(t: Table, rowid: int, newRecno: Option<int>, sets: seq<Option<Value>>): Write
    requires t.Valid() && |sets| == |t.columns|
  {
    Write(Some(rowid), if newRecno.Some? then newRecno.value else rowid, newRecno.Some?,
          seq(|t.indices|, i requires 0 <= i < |t.indices| => newRecno.Some? || Touches(t, i, sets)))
  }

  /** Indices none of whose columns is set keep their keys, because NOT NULL columns hold no NULL
      that a default could replace. */
  lemma UpdateIsSelective(t: Table, cl: Clauses, rowid: int, newRecno: Option<int>, sets: seq<Option<Value>>, m: Rows)
    requires Legal(t, m) && rowid in m && |sets| == |t.columns|
    requires Fill(t, cl, Changed(t, m[rowid], sets), 0).Filled?
    ensures var w := UpdateOf(t, rowid, newRecno, sets);
            Proper(t, w, m) && Selective(t, w, Fill(t, cl, Changed(t, m[rowid], sets), 0).row, m)
  {
    hide Fill;
    var w, row := UpdateOf(t, rowid, newRecno, sets), Fill(t, cl, Changed(t, m[rowid], sets), 0).row;
    FillMeans(t, cl, Changed(t, m[rowid], sets), 0);
    forall i | 0 <= i < |t.indices| && !w.used[i]
      ensures KeyValues(t, i, w.recno, row) == KeyValues(t, i, w.recno, m[w.recno])
    {
      var cs := t.indices[i].columns;
      forall j | 0 <= j < |cs| ensures KeyValue(t, w.recno, row, cs[j]) == KeyValue(t, w.recno, m[w.recno], cs[j]) {
        assert sets[cs[j]].None?;
      }
    }
  }

  function InsertOf(t: Table, recno: int, given: bool): Write {
    Write(None, recno, given, seq(|t.indices|, _ => true))
  }

  // Which index cursors an UPDATE opens.

  /** All of them if the statement or some index says REPLACE, otherwise those it changes. */
  predicate OpenAll(t: Table, cl: Clauses) {
    cl.override == Replace || exists i :: 0 <= i < |t.indices| && t.indices[i].onError == Replace
  }

  /** The transaction's clause is not looked at; this is when that does no harm. */
  predicate OpensEnough(t: Table, cl: Clauses, used: seq<bool>) {
    OpenAll(t, cl) || !(cl.override == Default && cl.transaction == Replace) || forall i :: 0 <= i < |used| ==> used[i]
  }

  /** It can only do harm without a clause of the statement, under a transaction that says REPLACE, to an
      index that the UPDATE does not change. */
  lemma OpensEnoughMostly(t: Table, cl: Clauses, used: seq<bool>)
    ensures cl.override != Default || cl.transaction != Replace || false !in used ==> OpensEnough(t, cl, used)
    ensures cl == Clauses(Default, Replace) && false in used
            && (forall x :: x in t.indices ==> x.onError != Replace) ==>
              !OpensEnough(t, cl, used)
  {
  }

  lemma {:induction false} CheckReplacesNothing(t: Table, cl: Clauses, w: Write, row: Row, i: nat, m: Rows)
    requires Sized(t, m) && |row| == |t.columns| && |w.used| == |t.indices|
    requires forall k :: 0 <= k < |t.indices| && IsUniqueIndex(t, k) ==> Action(cl, t.indices[k].onError) != Replace
    ensures var v := CheckFrom(t, cl, w, row, i, m, false); v.Accept? ==> v.left == m
    decreases |t.indices| - i
  {
    hide SameKey;
    if i < |t.indices| { CheckReplacesNothing(t, cl, w, row, i + 1, m); }
  }

  /** Where some index stays closed, no row is replaced. */
  lemma ClosedMeansKept(t: Table, cl: Clauses, w: Write, row: Row, m: Rows)
    requires Sized(t, m) && |row| == |t.columns| && |w.used| == |t.indices|
    requires !OpenAll(t, cl) && OpensEnough(t, cl, w.used) && !w.recnoChange
    requires exists i :: 0 <= i < |w.used| && !w.used[i]
    ensures var v := Decide(t, cl, w, row, m); v.Accept? ==> v.left == m
  {
    hide Fill;
    if Fill(t, cl, row, 0).Filled? { CheckReplacesNothing(t, cl, w, Fill(t, cl, row, 0).row, 0, m); }
  }

  lemma SameRows(left: Rows, m: Rows)
    requires SubRows(left, m) && forall r :: r in m ==> r in left
    ensures left == m
  {
    forall r | r in left ensures r in m && left[r] == m[r] {
      var _ := left[r];
    }
    forall r | r in m ensures r in left.Keys {
      assert r in left;
    }
    assert left.Keys == m.Keys;
    assert left == m;
  }

  /** An index left closed during a write is right afterwards only if no row was replaced. */
  lemma ClosedIndexStale(t: Table, cl: Clauses, w: Write, row: Row, m: Rows, i: nat)
    requires Legal(t, m) && |row| == |t.columns| && Proper(t, w, m) && Decide(t, cl, w, row, m).Accept?
             && i < |t.indices|
    requires Selective(t, w, Decide(t, cl, w, row, m).row, m) && !w.used[i]
    ensures var v := Decide(t, cl, w, row, m);
            Sized(t, Written(w, v.row, v.left))
              && (Image(t, i, m) == Image(t, i, Written(w, v.row, v.left)) <==> v.left == m)
  {
    hide SameKey, KeyValues, Decide;
    WriteImages(t, cl, w, row, m, i);
    var left := Decide(t, cl, w, row, m).left;
    if Image(t, i, m) == Image(t, i, left) {
      forall r | r in m ensures r in left {
        assert EntryOf(t, i, r, m[r]) in Image(t, i, left);
        EntryRow(t, i, left, EntryOf(t, i, r, m[r]));
      }
      SameRows(left, m);
    }
  }

  // A table with a unique index on its first column and another index on its second.

  function TwoKey(i: nat, vs: seq<Value>): string {
    if HasNull(vs) then "n" else if |vs| > 0 && vs[0] == Number(1) then "1" else "v"
  }

  function TwoIndexTable(): Table {
    var col := Column(NoConflict, None);
    Table([col, col], None, [Index([0], Abort), Index([1], NoConflict)], Default, TwoKey)
  }

  function TwoRows(): Rows { map[1 := [Number(1), Number(5)], 2 := [Number(2), Number(6)]] }

  lemma TwoRowsLegal()
    ensures Legal(TwoIndexTable(), TwoRows()) && TwoIndexTable().KeysShowNulls()
  {
    var t, m := TwoIndexTable(), TwoRows();
    assert KeyValues(t, 0, 1, m[1]) == [Number(1)] && KeyValues(t, 0, 2, m[2]) == [Number(2)];
  }

  lemma TwoRowsReplaced(w: Write)
    requires w == Write(Some(1), 1, false, [true, false])
    ensures Sized(TwoIndexTable(), TwoRows())
    ensures var row := [Number(2), Number(5)];
            var v := Decide(TwoIndexTable(), Clauses(Default, Replace), w, row, TwoRows());
            v.Accept? && v.left != TwoRows()
  {
    var t, m, row, cl := TwoIndexTable(), TwoRows(), [Number(2), Number(5)], Clauses(Default, Replace);
    assert KeyValues(t, 0, 2, m[2]) == [Number(2)] && KeyValues(t, 0, 1, row) == [Number(2)];
    assert Fill(t, cl, row, 2) == Filled(row) && Fill(t, cl, row, 1) == Filled(row);
    var rivals := Rivals(t, 0, m, 1, 1, row);
    assert 2 in rivals;
    assert CheckFrom(t, cl, w, row, 2, m - rivals, true) == Accept(row, m - rivals);
    assert CheckFrom(t, cl, w, row, 1, m - rivals, true) == Accept(row, m - rivals);
  }

  /** A transaction clause REPLACE can replace a row whose entries in a closed index stay behind. */
  lemma ReplaceBehindClosedIndex() returns (t: Table, m: Rows, sets: seq<Option<Value>>, cl: Clauses)
    ensures Legal(t, m) && t.KeysShowNulls() && |sets| == |t.columns| && 1 in m
    ensures var w := UpdateOf(t, 1, None, sets);
            var v := Decide(t, cl, w, Changed(t, m[1], sets), m);
            !OpenAll(t, cl) && v.Accept? && v.left != m && exists i :: 0 <= i < |t.indices| && !w.used[i]
  {
    hide Decide, Legal, KeysUnique, Table.KeysShowNulls;
    t, m, sets, cl := TwoIndexTable(), TwoRows(), [Some(Number(2)), None], Clauses(Default, Replace);
    TwoRowsLegal();
    var w := UpdateOf(t, 1, None, sets);
    assert t.indices[0].columns[0] == 0 && w.used == [true, false] && !w.used[1];
    assert Changed(t, m[1], sets) == [Number(2), Number(5)];
    TwoRowsReplaced(w);
  }

  // The order of a table's indices.

  /** No index that says REPLACE comes before one that does not. */
  predicate ReplaceLast(list: seq<Index>) {
    forall i, j :: 0 <= i < j < |list| && list[i].onError == Replace ==> list[j].onError == Replace
  }

  /** The linking step of __create_index, on the list from its head. */
  method LinkIndex(list: seq<Index>, index: Index) returns (linked: seq<Index>)
    requires ReplaceLast(list)
    ensures ReplaceLast(linked) && multiset(linked) == multiset(list) + multiset{index}
    ensures exists k ::
              0 <= k <= |list| && linked == list[..k] + [index] + list[k..] && (index.onError != Replace ==> k == 0)
  {
    if index.onError != Replace || list == [] || list[0].onError == Replace {
      linked := [index] + list;
      assert linked == list[..0] + [index] + list[0..];
    } else {
      var other := 0;
      while other + 1 < |list| && list[other + 1].onError != Replace
        invariant 0 <= other < |list| && list[other].onError != Replace
        decreases |list| - other
      {
        other := other + 1;
      }
      linked := list[..other + 1] + [index] + list[other + 1..];
    }
    LinkedParts(list, index, linked);
  }

  lemma LinkedParts(list: seq<Index>, index: Index, linked: seq<Index>)
    requires exists k :: 0 <= k <= |list| && linked == list[..k] + [index] + list[k..]
    ensures multiset(linked) == multiset(list) + multiset{index}
  {
    var k :| 0 <= k <= |list| && linked == list[..k] + [index] + list[k..];
    assert list == list[..k] + list[k..];
  }
}
