/** What a write does when a constraint is violated, constraint by constraint and clause by clause:
    the flow of INSERT and UPDATE as module RowWrites defines it, said without its choice of actions. */
module ConflictOutcomes {
  import opened Values
  import opened Constraints
  import opened RowWrites

  /** The clause that governs a constraint: the statement's, else the transaction's, else its own. */
  predicate Governs(cl: Clauses, own: Conflict, c: Conflict) {
    || (cl.override != Default && cl.override == c)
    || (cl.override == Default && cl.transaction != Default && cl.transaction == c)
    || (cl.override == Default && cl.transaction == Default && own == c)
  }

  /** No clause anywhere means ABORT. */
  predicate Aborts(cl: Clauses, own: Conflict) {
    Governs(cl, own, Abort) || Governs(cl, own, Rollback) || Governs(cl, own, Default)
  }

  /** A clause of the statement makes the one of the transaction irrelevant, and without one that of the
      transaction acts as the statement's. */
  lemma StatementClauseWins(t: Table, c: Conflict, x: Conflict, y: Conflict, w: Write, row: Row, m: Rows)
    requires Sized(t, m) && |row| == |t.columns| && |w.used| == |t.indices| && c != Default
    ensures Decide(t, Clauses(c, x), w, row, m) == Decide(t, Clauses(c, y), w, row, m)
    ensures Decide(t, Clauses(Default, c), w, row, m) == Decide(t, Clauses(c, x), w, row, m)
  {
    hide SameKey;
    FillSame(t, Clauses(c, x), Clauses(c, y), row, 0);
    FillSame(t, Clauses(Default, c), Clauses(c, x), row, 0);
    var f := Fill(t, Clauses(c, x), row, 0);
    if f.Filled? {
      forall m', seen | Sized(t, m')
        ensures CheckFrom(t, Clauses(c, x), w, f.row, 0, m', seen) == CheckFrom(t, Clauses(c, y), w, f.row, 0, m', seen)
        ensures CheckFrom(t, Clauses(Default, c), w, f.row, 0, m', seen)
             == CheckFrom(t, Clauses(c, x), w, f.row, 0, m', seen)
      {
        CheckSame(t, Clauses(c, x), Clauses(c, y), w, f.row, 0, m', seen);
        CheckSame(t, Clauses(Default, c), Clauses(c, x), w, f.row, 0, m', seen);
      }
    }
  }

  predicate Alike(cl: Clauses, cl': Clauses) { forall own :: Action(cl, own) == Action(cl', own) }

  lemma {:induction false} FillSame(t: Table, cl: Clauses, cl': Clauses, row: Row, c: nat)
    requires |row| == |t.columns| && Alike(cl, cl')
    ensures Fill(t, cl, row, c) == Fill(t, cl', row, c)
    decreases |row| - c
  {
    if c < |row| {
      FillSame(t, cl, cl', row, c + 1);
      if t.columns[c].dflt.Some? { FillSame(t, cl, cl', row[c := Str(t.columns[c].dflt.value)], c + 1); }
    }
  }

  lemma {:induction false} CheckSame(t: Table, cl: Clauses, cl': Clauses, w: Write, row: Row, i: nat, m: Rows,
                                     seen: bool)
    requires Sized(t, m) && |row| == |t.columns| && |w.used| == |t.indices| && Alike(cl, cl')
    ensures CheckFrom(t, cl, w, row, i, m, seen) == CheckFrom(t, cl', w, row, i, m, seen)
    decreases |t.indices| - i
  {
    hide SameKey;
    if i < |t.indices| {
      CheckSame(t, cl, cl', w, row, i + 1, m, true);
      CheckSame(t, cl, cl', w, row, i + 1, m, seen);
      CheckSame(t, cl, cl', w, row, i + 1, m - Rivals(t, i, m, w.Self(), w.recno, row), true);
    }
  }

  // NOT NULL.

  predicate Violates(t: Table, row: Row, c: nat)
    requires |row| == |t.columns|
  {
    c < |row| && t.columns[c].notNull != NoConflict && t.iPKey != Some(c) && row[c].Null?
  }

  lemma {:induction false} FillFrom(t: Table, cl: Clauses, row: Row, c: nat, d: nat)
    requires |row| == |t.columns| && c <= d <= |row| && forall k: nat :: c <= k < d ==> !Violates(t, row, k)
    ensures Fill(t, cl, row, c) == Fill(t, cl, row, d)
    decreases d - c
  {
    if c < d {
      assert !Violates(t, row, c);
      FillFrom(t, cl, row, c + 1, d);
    }
  }

  /** The first NULL in a NOT NULL column. */
  lemma NullOutcome(t: Table, cl: Clauses, w: Write, row: Row, m: Rows, c: nat)
    requires Sized(t, m) && |row| == |t.columns| && |w.used| == |t.indices|
    requires Violates(t, row, c) && forall k: nat :: k < c ==> !Violates(t, row, k)
    ensures var own, flow := t.columns[c].notNull, FlowOf(Decide(t, cl, w, row, m));
            && (Aborts(cl, own) ==> flow == Halt(false))
            && (Governs(cl, own, Fail) ==> flow == Halt(true))
            && (Governs(cl, own, Ignore) ==> flow == GotoIgnore)
            && (Governs(cl, own, Replace) && t.columns[c].dflt.None? ==> flow == Halt(false))
            && (Governs(cl, own, Replace) && t.columns[c].dflt.Some? ==>
                  Decide(t, cl, w, row, m) == Decide(t, cl, w, row[c := Str(t.columns[c].dflt.value)], m))
  {
    hide CheckFrom;
    FillFrom(t, cl, row, 0, c);
    if Governs(cl, t.columns[c].notNull, Replace) && t.columns[c].dflt.Some? {
      var row' := row[c := Str(t.columns[c].dflt.value)];
      forall k: nat | k < c + 1 ensures !Violates(t, row', k) {
        assert k < c ==> !Violates(t, row, k);
      }
      FillFrom(t, cl, row', 0, c + 1);
    }
  }

  ghost predicate NoNulls(t: Table, row: Row)
    requires |row| == |t.columns|
  {
    forall c: nat :: !Violates(t, row, c)
  }

  lemma NothingFilled(t: Table, cl: Clauses, row: Row)
    requires |row| == |t.columns| && NoNulls(t, row)
    ensures Fill(t, cl, row, 0) == Filled(row)
  {
    FillFrom(t, cl, row, 0, |row|);
  }

  // The record number.

  /** Another row has the record number. */
  lemma KeyOutcome(t: Table, cl: Clauses, w: Write, row: Row, m: Rows)
    requires Sized(t, m) && |row| == |t.columns| && |w.used| == |t.indices| && NoNulls(t, row)
    requires w.recnoChange && w.recno in m && w.own != Some(w.recno)
    ensures var own, v := t.keyConf, Decide(t, cl, w, row, m);
            && (Aborts(cl, own) || Governs(cl, own, NoConflict) ==> FlowOf(v) == Halt(false))
            && (Governs(cl, own, Fail) ==> FlowOf(v) == Halt(true))
            && (Governs(cl, own, Ignore) ==> FlowOf(v) == GotoIgnore)
            && (Governs(cl, own, Replace) ==>
                  FlowOf(v) !in {GotoIgnore, Halt(true)} && (v.Accept? ==> w.recno !in v.left))
  {
    hide CheckFrom, Fill;
    NothingFilled(t, cl, row);
    NeverIgnored(t, cl, w, row, 0, m - {w.recno});
  }

  // Unique indices.

  /** Another row has the key of the new one in index `i`. */
  ghost predicate Taken(t: Table, w: Write, row: Row, i: nat, m: Rows)
    requires Sized(t, m) && |row| == |t.columns| && |w.used| == |t.indices|
  {
    i < |t.indices| && w.used[i] && IsUniqueIndex(t, i)
    && exists r :: r in m && r != w.Self() && SameKey(t, i, r, m[r], w.recno, row)
  }

  /** A used unique index before `i`, or the record number, whose clause is REPLACE. */
  predicate ReplaceBefore(t: Table, cl: Clauses, w: Write, i: nat)
    requires |w.used| == |t.indices|
  {
    (w.recnoChange && Governs(cl, t.keyConf, Replace))
    || exists k: nat :: k < i && k < |t.indices| && w.used[k] && IsUniqueIndex(t, k)
                        && Governs(cl, t.indices[k].onError, Replace)
  }

  ghost predicate FirstTaken(t: Table, w: Write, row: Row, i: nat, m: Rows)
    requires Sized(t, m) && |row| == |t.columns| && |w.used| == |t.indices|
  {
    Taken(t, w, row, i, m) && forall k: nat :: k < i ==> !Taken(t, w, row, k, m)
  }

  lemma {:induction false} CheckTo(t: Table, cl: Clauses, w: Write, row: Row, i: nat, m: Rows)
    requires Sized(t, m) && |row| == |t.columns| && |w.used| == |t.indices| && i <= |t.indices|
    requires forall k: nat :: k < i ==> !Taken(t, w, row, k, m)
    ensures CheckFrom(t, cl, w, row, 0, m, w.recnoChange && Action(cl, t.keyConf) == Replace)
            == CheckFrom(t, cl, w, row, i, m, ReplaceBefore(t, cl, w, i))
  {
    hide SameKey;
    if i > 0 {
      CheckTo(t, cl, w, row, i - 1, m);
      assert !Taken(t, w, row, i - 1, m);
      var k := i - 1;
      if w.used[k] && IsUniqueIndex(t, k) {
        assert Rivals(t, k, m, w.Self(), w.recno, row) == {};
      }
      BeforeNext(t, cl, w, k);
    }
  }

  lemma BeforeNext(t: Table, cl: Clauses, w: Write, k: nat)
    requires |w.used| == |t.indices| && k < |t.indices|
    ensures ReplaceBefore(t, cl, w, k + 1)
            <==> ReplaceBefore(t, cl, w, k)
                 || (w.used[k] && IsUniqueIndex(t, k) && Action(cl, t.indices[k].onError) == Replace)
  {
  }

  /** The first used unique index in which the key is taken, with no REPLACE before it. */
  lemma IndexOutcome(t: Table, cl: Clauses, w: Write, row: Row, m: Rows, i: nat)
    requires Sized(t, m) && |row| == |t.columns| && |w.used| == |t.indices| && NoNulls(t, row)
    requires !(w.recnoChange && w.recno in m && w.own != Some(w.recno))
    requires FirstTaken(t, w, row, i, m) && !ReplaceBefore(t, cl, w, i)
    ensures var own, v := t.indices[i].onError, Decide(t, cl, w, row, m);
            && (Aborts(cl, own) ==> FlowOf(v) == Halt(false))
            && (Governs(cl, own, Fail) ==> FlowOf(v) == Halt(true))
            && (Governs(cl, own, Ignore) ==> FlowOf(v) == GotoIgnore)
            && (Governs(cl, own, Replace) ==> Replaces(t, w, row, i, m, v))
  {
    IndexDecides(t, cl, w, row, m, i);
  }

  /** The same behind a REPLACE: IGNORE replaces and FAIL aborts. */
  lemma LaterIndexOutcome(t: Table, cl: Clauses, w: Write, row: Row, m: Rows, i: nat)
    requires Sized(t, m) && |row| == |t.columns| && |w.used| == |t.indices| && NoNulls(t, row)
    requires !(w.recnoChange && w.recno in m && w.own != Some(w.recno))
    requires FirstTaken(t, w, row, i, m) && ReplaceBefore(t, cl, w, i)
    ensures var own, v := t.indices[i].onError, Decide(t, cl, w, row, m);
            && (Aborts(cl, own) || Governs(cl, own, Fail) ==> FlowOf(v) == Halt(false))
            && (Governs(cl, own, Ignore) || Governs(cl, own, Replace) ==> Replaces(t, w, row, i, m, v))
  {
    IndexDecides(t, cl, w, row, m, i);
  }

  /** With REPLACE last in the list, as indices are linked, and no clause elsewhere, every index acts as it
      was declared. */
  lemma OrderKeepsActions(t: Table, w: Write, row: Row, m: Rows, i: nat)
    requires Sized(t, m) && |row| == |t.columns| && |w.used| == |t.indices| && NoNulls(t, row)
    requires !(w.recnoChange && ((w.recno in m && w.own != Some(w.recno)) || t.keyConf == Replace))
    requires i < |t.indices| && ReplaceLast(t.indices) && FirstTaken(t, w, row, i, m)
    ensures var own, v := t.indices[i].onError, Decide(t, Clauses(Default, Default), w, row, m);
            && (own in {Default, Abort, Rollback} ==> FlowOf(v) == Halt(false))
            && (own == Fail ==> FlowOf(v) == Halt(true))
            && (own == Ignore ==> FlowOf(v) == GotoIgnore)
            && (own == Replace ==> Replaces(t, w, row, i, m, v))
  {
    hide Decide, Taken, Replaces;
    var cl := Clauses(Default, Default);
    if ReplaceBefore(t, cl, w, i) {
      var k: nat :| k < i && Governs(cl, t.indices[k].onError, Replace);
      assert t.indices[i].onError == Replace;
      LaterIndexOutcome(t, cl, w, row, m, i);
    } else {
      IndexOutcome(t, cl, w, row, m, i);
    }
  }

  /** The write goes on without the rows that have the key, and is neither ignored nor halted by FAIL. */
  ghost predicate Replaces(t: Table, w: Write, row: Row, i: nat, m: Rows, v: Verdict)
    requires Sized(t, m) && |row| == |t.columns| && i < |t.indices|
  {
    FlowOf(v) !in {GotoIgnore, Halt(true)}
    && (v.Accept? ==> forall r :: r in m && r != w.Self() && SameKey(t, i, r, m[r], w.recno, row) ==> r !in v.left)
  }

  lemma IndexDecides(t: Table, cl: Clauses, w: Write, row: Row, m: Rows, i: nat)
    requires Sized(t, m) && |row| == |t.columns| && |w.used| == |t.indices| && NoNulls(t, row)
    requires !(w.recnoChange && w.recno in m && w.own != Some(w.recno)) && FirstTaken(t, w, row, i, m)
    ensures var a, v := IndexAction(cl, t.indices[i].onError, ReplaceBefore(t, cl, w, i)), Decide(t, cl, w, row, m);
            if a == Replace then Replaces(t, w, row, i, m, v)
            else FlowOf(v) == if a == Ignore then GotoIgnore else Halt(a == Fail)
  {
    hide SameKey, Fill, CheckFrom;
    NothingFilled(t, cl, row);
    CheckTo(t, cl, w, row, i, m);
    var rivals := Rivals(t, i, m, w.Self(), w.recno, row);
    assert rivals != {} by {
      var r :| r in m && r != w.Self() && SameKey(t, i, r, m[r], w.recno, row);
      assert r in rivals;
    }
    CheckIs(t, cl, w, row, i, m, ReplaceBefore(t, cl, w, i));
    NeverIgnored(t, cl, w, row, i + 1, m - rivals);
  }

  lemma CheckIs(t: Table, cl: Clauses, w: Write, row: Row, i: nat, m: Rows, seen: bool)
    requires Sized(t, m) && |row| == |t.columns| && |w.used| == |t.indices|
    requires i < |t.indices| && w.used[i] && IsUniqueIndex(t, i) && Rivals(t, i, m, w.Self(), w.recno, row) != {}
    ensures var a := IndexAction(cl, t.indices[i].onError, seen);
            CheckFrom(t, cl, w, row, i, m, seen)
            == if a == Replace then CheckFrom(t, cl, w, row, i + 1, m - Rivals(t, i, m, w.Self(), w.recno, row), true)
               else if a == Ignore then Ignored else Halted(a == Fail)
  {
    hide SameKey;
  }

  /** Nothing is violated: the row is accepted as it is and nothing else changes. */
  lemma NoOutcome(t: Table, cl: Clauses, w: Write, row: Row, m: Rows)
    requires Sized(t, m) && |row| == |t.columns| && |w.used| == |t.indices| && NoNulls(t, row)
    requires !(w.recnoChange && w.recno in m && w.own != Some(w.recno))
    requires forall i: nat :: !Taken(t, w, row, i, m)
    ensures Decide(t, cl, w, row, m) == Accept(row, m)
  {
    hide SameKey, Fill;
    NothingFilled(t, cl, row);
    CheckTo(t, cl, w, row, |t.indices|, m);
  }

  // When two rows have the same key.

  /** Different tuples have different keys in index `i`. */
  ghost predicate KeysTellApart(t: Table, i: nat) {
    forall vs, ws :: t.makeKey(i, vs) == t.makeKey(i, ws) ==> vs == ws
  }

  /** A column as the index sees it: an INTEGER PRIMARY KEY is the record number. */
  function Shown(t: Table, recno: int, row: Row, c: nat): Value
    requires c < |row|
  {
    if t.iPKey.Some? && t.iPKey.value == c then Int(recno, None) else row[c]
  }

  /** Two rows clash in an index exactly if they agree in all its columns and none of these is NULL. */
  lemma SameKeyMeans(t: Table, i: nat, r: int, prior: Row, recno: int, row: Row)
    requires t.Valid() && i < |t.indices| && |prior| == |t.columns| && |row| == |t.columns| && KeysTellApart(t, i)
    ensures SameKey(t, i, r, prior, recno, row)
            <==> forall c :: c in t.indices[i].columns ==>
                   Shown(t, r, prior, c) == Shown(t, recno, row, c) && !Shown(t, recno, row, c).Null?
  {
    var cs, x, y := t.indices[i].columns, KeyValues(t, i, r, prior), KeyValues(t, i, recno, row);
    forall j | 0 <= j < |cs| ensures x[j] == Shown(t, r, prior, cs[j]) && y[j] == Shown(t, recno, row, cs[j]) {
    }
    assert t.makeKey(i, x) == t.makeKey(i, y) <==> x == y;
    if SameKey(t, i, r, prior, recno, row) {
      forall c | c in cs ensures Shown(t, r, prior, c) == Shown(t, recno, row, c) && !Shown(t, recno, row, c).Null? {
        var j :| 0 <= j < |cs| && cs[j] == c;
        assert x[j] == y[j];
      }
    }
    if forall c :: c in cs ==> Shown(t, r, prior, c) == Shown(t, recno, row, c) && !Shown(t, recno, row, c).Null? {
      forall j | 0 <= j < |cs| ensures x[j] == y[j] && !y[j].Null? {
        assert cs[j] in cs;
      }
      assert x == y;
    }
  }

  /** In a legal table no two rows agree in all columns of a unique index unless one of them is NULL. */
  lemma LegalMeans(t: Table, m: Rows, i: nat, r: int, s: int)
    requires Legal(t, m) && i < |t.indices| && IsUniqueIndex(t, i) && KeysTellApart(t, i)
    requires r in m && s in m && r != s
    ensures exists c :: c in t.indices[i].columns
                        && (Shown(t, r, m[r], c) != Shown(t, s, m[s], c) || Shown(t, s, m[s], c).Null?)
  {
    SameKeyMeans(t, i, r, m[r], s, m[s]);
  }

  /** What an accepted INSERT leaves: every row with another number that does not clash, and the new one. */
  lemma AcceptedInsert(t: Table, cl: Clauses, recno: int, given: bool, row: Row, m: Rows)
    requires Sized(t, m) && |row| == |t.columns| && (!given ==> recno !in m)
    requires Decide(t, cl, InsertOf(t, recno, given), row, m).Accept?
    ensures var v := Decide(t, cl, InsertOf(t, recno, given), row, m);
            var m' := Written(InsertOf(t, recno, given), v.row, v.left);
            && recno in m' && m'[recno] == v.row
            && forall r :: r != recno ==>
                 && (r in m' <==> r in m && !ClashesSomewhere(t, recno, v.row, r, m[r]))
                 && (r in m' ==> m'[r] == m[r])
  {
    hide SameKey, Decide;
    var w := InsertOf(t, recno, given);
    AcceptedKeeps(t, cl, w, row, m);
    var v := Decide(t, cl, w, row, m);
    forall r | r != recno && r in m
      ensures Clash(t, w, v.row, r, m[r]) <==> ClashesSomewhere(t, recno, v.row, r, m[r])
    {
    }
  }

  predicate ClashesSomewhere(t: Table, recno: int, row: Row, r: int, prior: Row)
    requires t.Valid() && |row| == |t.columns| && |prior| == |t.columns|
  {
    exists i :: 0 <= i < |t.indices| && IsUniqueIndex(t, i) && SameKey(t, i, r, prior, recno, row)
  }

  /** What an accepted UPDATE leaves: the new row under its number, the other rows as they were, without
      those that clash in an index the UPDATE changes. */
  lemma AcceptedUpdate(t: Table, cl: Clauses, rowid: int, newRecno: Option<int>, sets: seq<Option<Value>>, m: Rows)
    requires Sized(t, m) && |sets| == |t.columns| && rowid in m
    requires Decide(t, cl, UpdateOf(t, rowid, newRecno, sets), Changed(t, m[rowid], sets), m).Accept?
    ensures var w, recno := UpdateOf(t, rowid, newRecno, sets), if newRecno.Some? then newRecno.value else rowid;
            var v := Decide(t, cl, w, Changed(t, m[rowid], sets), m);
            var m' := Written(w, v.row, v.left);
            && recno in m' && m'[recno] == v.row && (recno != rowid ==> rowid !in m')
            && forall r :: r != recno && r != rowid ==>
                 && (r in m' ==> r in m && m'[r] == m[r])
                 && (r in m && r !in m' ==> ClashesSomewhere(t, recno, v.row, r, m[r]))
  {
    hide SameKey, Decide;
    var w := UpdateOf(t, rowid, newRecno, sets);
    AcceptedKeeps(t, cl, w, Changed(t, m[rowid], sets), m);
  }
}
