/** The code generator of a join by full scans: terms are placed by comparing masks, loops are
    opened outside-in with labels still open and closed inside-out. */
module JoinGenerator {
  import opened Values
  import opened Expressions
  import opened Machine
  import opened Layout
  import opened Builder
  import opened Fragments
  import opened ExprGenerator
  import opened Agreement
  import opened CodedLoops
  import opened JoinCode
  import opened WherePlan
  import Joins

  /** One wc_exprs[] entry; `p` becomes None once the term is coded. */
  datatype Slot = Slot(p: Option<Joins.Term>, prereq: Mask)

  predicate Due(s: Slot, loopMask: Mask, onlyJoin: bool) {
    s.p.Some? && s.prereq <= loopMask && (onlyJoin ==> s.p.value.fromJoin)
  }

  function TakeDue(ss: seq<Slot>, loopMask: Mask, onlyJoin: bool): seq<Expr> {
    if ss == [] then []
    else
      var last := ss[|ss| - 1];
      TakeDue(ss[..|ss| - 1], loopMask, onlyJoin) + (if Due(last, loopMask, onlyJoin) then [last.p.value.e] else [])
  }

  lemma TakeDueNext(ss: seq<Slot>, j: nat, loopMask: Mask, onlyJoin: bool)
    requires j < |ss|
    ensures TakeDue(ss[..j + 1], loopMask, onlyJoin)
            == TakeDue(ss[..j], loopMask, onlyJoin) + if Due(ss[j], loopMask, onlyJoin) then [ss[j].p.value.e] else []
  {
    assert ss[..j + 1][..j] == ss[..j];
  }

  function Clear(s: Slot, loopMask: Mask, onlyJoin: bool): Slot {
    if Due(s, loopMask, onlyJoin) then s.(p := None) else s
  }

  function Cleared(ss: seq<Slot>, loopMask: Mask, onlyJoin: bool): seq<Slot> {
    seq(|ss|, k requires 0 <= k < |ss| => Clear(ss[k], loopMask, onlyJoin))
  }

  lemma {:induction false} TermsSnoc(h: Helpers, es: seq<Expr>, e: Expr, cont: int, a: nat)
    ensures TermsLen(es + [e]) == TermsLen(es) + JumpLen(e, false)
    ensures TermsCode(h, es + [e], cont, a)
            == TermsCode(h, es, cont, a) + JumpCode(h, e, false, cont, true, false, a + TermsLen(es))
  {
    hide JumpCode, JumpLen;
    if es == [] {
      assert TermsCode(h, [e][1..], cont, a + JumpLen(e, false)) == [];
      assert es + [e] == [e];
    } else {
      TermsSnoc(h, es[1..], e, cont, a + JumpLen(es[0], false));
      assert (es + [e])[1..] == es[1..] + [e];
    }
  }

  method EmitTerm(v: Vdbe, h: Helpers, ghost start: seq<Op>, ghost es: seq<Expr>, e: Expr, cont: int)
    requires v.Valid() && v.Open(cont) && v.aOp == start + TermsCode(h, es, cont, |start|)
    modifies v
    ensures v.Valid() && v.aOp == start + TermsCode(h, es + [e], cont, |start|)
    ensures |v.aLabel| >= |old(v.aLabel)| && forall i :: 0 <= i < |old(v.aLabel)| ==> v.aLabel[i] == old(v.aLabel)[i]
  {
    hide JumpCode, TermsCode, TermsLen, JumpLen;
    ExprIfFalse(v, h, false, e, cont, true);
    TermsSnoc(h, es, e, cont, |start|);
  }

  /** Codes every term that is due, and clears it. */
  method EmitTerms(v: Vdbe, h: Helpers, wc: array<Slot>, loopMask: Mask, onlyJoin: bool, cont: int)
    requires v.Valid() && v.Open(cont)
    modifies v, wc
    ensures Extends(v, TermsCode(h, TakeDue(old(wc[..]), loopMask, onlyJoin), cont, |old(v.aOp)|))
    ensures wc[..] == Cleared(old(wc[..]), loopMask, onlyJoin)
  {
    hide JumpCode, TermsCode, TermsLen, JumpLen, TakeDue, Clear, Cleared;
    ghost var ss, a := wc[..], |v.aOp|;
    NoTerms(h, cont, a, loopMask, onlyJoin);
    var j := 0;
    while j < wc.Length
      invariant 0 <= j <= wc.Length
      invariant Extends(v, TermsCode(h, TakeDue(ss[..j], loopMask, onlyJoin), cont, a))
      invariant forall k :: 0 <= k < wc.Length ==> wc[k] == if k < j then Clear(ss[k], loopMask, onlyJoin) else ss[k]
    {
      TakeDueNext(ss, j, loopMask, onlyJoin);
      assert wc[j] == ss[j];
      if Due(wc[j], loopMask, onlyJoin) {
        EmitTerm(v, h, old(v.aOp), TakeDue(ss[..j], loopMask, onlyJoin), wc[j].p.value.e, cont);
        wc[j] := wc[j].(p := None);
        ClearIs(ss[j], loopMask, onlyJoin);
      } else {
        ClearIs(ss[j], loopMask, onlyJoin);
        assert TakeDue(ss[..j], loopMask, onlyJoin) + [] == TakeDue(ss[..j], loopMask, onlyJoin);
      }
      j := j + 1;
    }
    assert ss[..j] == ss;
    ClearedIs(ss, wc[..], loopMask, onlyJoin);
  }

  lemma ClearIs(s: Slot, loopMask: Mask, onlyJoin: bool)
    ensures Clear(s, loopMask, onlyJoin) == if Due(s, loopMask, onlyJoin) then s.(p := None) else s
  {
  }

  lemma ClearedIs(ss: seq<Slot>, r: seq<Slot>, loopMask: Mask, onlyJoin: bool)
    requires |r| == |ss| && forall k :: 0 <= k < |ss| ==> r[k] == Clear(ss[k], loopMask, onlyJoin)
    ensures r == Cleared(ss, loopMask, onlyJoin)
  {
    hide Clear;
  }

  lemma NoTerms(h: Helpers, cont: int, a: nat, loopMask: Mask, onlyJoin: bool)
    ensures TermsCode(h, TakeDue([], loopMask, onlyJoin), cont, a) == []
  {
  }

  /** A where_level_t record; `flag` is None where iLeftJoin is 0. */
  datatype LevelRecord = LevelRecord(cursor: int, indexCursor: int, cont: int, brk: int, start: nat, top: nat,
                                     flag: Option<int>)

  /** The flag cell of the next level and the number of cells after it. */
  function FlagCell(nMem: nat): nat { if nMem == 0 then 1 else nMem }

  ghost predicate Matches(r: LevelRecord, l: Level, a: nat) {
    && r.cursor == l.cursor && r.indexCursor == l.indexCursor && r.start == StartOf(l, a) && r.top == TopOf(l, a)
    && r.flag == if l.left then Some(l.flag) else None
  }

  /** The level's code with its two labels open. */
  function OpenedLevel(h: Helpers, l: Level, r: LevelRecord, a: nat): (code: seq<Op>)
    ensures |code| == HeadLen(l) + MarkLen(l)
  {
    HeadCode(h, l, r.cont, r.brk, a) + MarkCode(h, l, r.cont, TopOf(l, a))
  }

  method SetFlag(v: Vdbe, one: bool, flag: int)
    requires v.Valid()
    modifies v`aOp
    ensures Extends(v, [if one then Ins(OpInteger, 1, 0) else Ins(OpString, 0, 0), Ins(OpMemStore, flag, 1)])
  {
    if one { Emit(v, OpInteger, 1, 0); } else { Emit(v, OpString, 0, 0); }
    Emit(v, OpMemStore, flag, 1);
  }

  method OpenLevel(v: Vdbe, h: Helpers, wc: array<Slot>, loopMask: Mask, cursor: int, indexCursor: int, left: bool,
                   nMem: nat)
    returns (r: LevelRecord, mem: nat, ghost l: Level)
    requires v.Valid()
    modifies v, wc
    ensures l.cursor == cursor && l.indexCursor == indexCursor && l.left == left
    ensures l.flag == (if left then FlagCell(nMem) else nMem)
    ensures l.early == TakeDue(old(wc[..]), loopMask, left)
    ensures l.late == if left then TakeDue(Cleared(old(wc[..]), loopMask, true), loopMask, false) else []
    ensures wc[..] == if left then Cleared(Cleared(old(wc[..]), loopMask, true), loopMask, false)
                      else Cleared(old(wc[..]), loopMask, false)
    ensures mem == if left then FlagCell(nMem) + 1 else nMem
    ensures Extends(v, OpenedLevel(h, l, r, |old(v.aOp)|)) && Matches(r, l, |old(v.aOp)|)
    ensures r.cont != r.brk && v.Open(r.cont) && v.Open(r.brk) && r.cont < -|old(v.aLabel)| && r.brk < -|old(v.aLabel)|
  {
    hide Vdbe.Valid, TermsCode, TermsLen, TakeDue, Cleared, Clear, Due;
    ghost var a := |v.aOp|;
    mem := nMem;
    var flag: Option<int> := None;
    if left {
      flag := Some(if nMem == 0 then 1 else nMem);
      mem := FlagCell(nMem) + 1;
      SetFlag(v, false, flag.value);
    }
    var brk := v.MakeLabel();
    var cont := v.MakeLabel();
    var _ := v.AddOp(Ins(OpRewind, cursor, brk));
    var start := |v.aOp|;
    ghost var early := TakeDue(wc[..], loopMask, left);
    EmitTerms(v, h, wc, loopMask, left, cont);
    var top := |v.aOp|;
    ghost var late := [];
    if left {
      SetFlag(v, true, flag.value);
      late := TakeDue(wc[..], loopMask, false);
      EmitTerms(v, h, wc, loopMask, false, cont);
    }
    l := Level(cursor, indexCursor, left, if left then flag.value else nMem, early, late);
    r := LevelRecord(cursor, indexCursor, cont, brk, start, top, flag);
  }

  // The opened levels, outside in.

  function OpenedLen(ls: seq<Level>): nat {
    if ls == [] then 0
    else
      var l := ls[|ls| - 1];
      OpenedLen(ls[..|ls| - 1]) + HeadLen(l) + MarkLen(l)
  }

  ghost function Opened(h: Helpers, ls: seq<Level>, rs: seq<LevelRecord>, a: nat): (code: seq<Op>)
    requires |ls| == |rs|
    ensures |code| == OpenedLen(ls)
  {
    if ls == [] then []
    else
      var n := |ls| - 1;
      Opened(h, ls[..n], rs[..n], a) + OpenedLevel(h, ls[n], rs[n], a + OpenedLen(ls[..n]))
  }

  /** The records belong to the levels, and their labels are made after `labels` others, different
      from each other and still open. */
  ghost predicate Records(aLabel: seq<int>, ls: seq<Level>, rs: seq<LevelRecord>, a: nat, labels: nat) {
    && |rs| == |ls|
    && (forall k :: 0 <= k < |rs| ==> Matches(rs[k], ls[k], a + OpenedLen(ls[..k])))
    && (forall k :: 0 <= k < |rs| ==> OwnLabels(aLabel, rs[k], labels))
    && (forall j, k :: 0 <= j < k < |rs| ==> Apart(rs[j], rs[k]))
  }

  predicate OpenIn(aLabel: seq<int>, x: int) { -|aLabel| <= x < 0 && aLabel[-1 - x] == -1 }

  predicate OwnLabels(aLabel: seq<int>, r: LevelRecord, labels: nat) {
    r.cont != r.brk && OpenIn(aLabel, r.cont) && OpenIn(aLabel, r.brk) && r.cont + labels < 0 && r.brk + labels < 0
  }

  predicate Apart(r: LevelRecord, s: LevelRecord) {
    r.cont != s.cont && r.cont != s.brk && r.brk != s.cont && r.brk != s.brk
  }

  // Resolving the labels of the innermost open level.

  lemma {:induction false} TermsLabels(h: Helpers, es: seq<Expr>, cont: int, a: nat, x: int, addr: int)
    requires x < 0
    ensures Patch(TermsCode(h, es, cont, a), x, addr) == TermsCode(h, es, if cont == x then addr else cont, a)
  {
    hide JumpCode, JumpLen, Patch;
    if es == [] {
      assert Patch([], x, addr) == [];
    } else {
      JumpLabels(h, es[0], false, cont, true, false, a, x, addr);
      TermsLabels(h, es[1..], cont, a + JumpLen(es[0], false), x, addr);
      PatchConcat(x, addr, JumpCode(h, es[0], false, cont, true, false, a),
                  TermsCode(h, es[1..], cont, a + JumpLen(es[0], false)));
    }
  }

  lemma LevelLabels(h: Helpers, l: Level, r: LevelRecord, a: nat, x: int, addr: int)
    requires x < 0
    ensures Patch(OpenedLevel(h, l, r, a), x, addr)
            == OpenedLevel(h, l,
                           r.(cont := if r.cont == x then addr else r.cont,
                              brk := if r.brk == x then addr else r.brk), a)
  {
    hide TermsCode, TermsLen;
    var b := a + (if l.left then 2 else 0);
    TermsLabels(h, l.early, r.cont, b + 1, x, addr);
    if l.left { TermsLabels(h, l.late, r.cont, TopOf(l, a) + 2, x, addr); }
  }

  lemma {:induction false} ResultsHaveNoLabels(h: Helpers, es: seq<Expr>, a: nat)
    ensures NoLabels(ResultsCode(h, es, a))
  {
    hide ValueCode, ValueLen;
    if es != [] {
      ValueHasNoLabels(h, es[0], false, a);
      ResultsHaveNoLabels(h, es[1..], a + ValueLen(es[0]));
    }
  }

  lemma {:induction false} OpenedKept(h: Helpers, ls: seq<Level>, rs: seq<LevelRecord>, a: nat, x: int, addr: int)
    requires |ls| == |rs| && x < 0 && forall k :: 0 <= k < |rs| ==> rs[k].cont != x && rs[k].brk != x
    ensures Patch(Opened(h, ls, rs, a), x, addr) == Opened(h, ls, rs, a)
  {
    hide Patch, OpenedLevel;
    if ls == [] {
      assert Patch([], x, addr) == [];
    } else {
      var n := |ls| - 1;
      OpenedKept(h, ls[..n], rs[..n], a, x, addr);
      LevelLabels(h, ls[n], rs[n], a + OpenedLen(ls[..n]), x, addr);
      PatchConcat(x, addr, Opened(h, ls[..n], rs[..n], a), OpenedLevel(h, ls[n], rs[n], a + OpenedLen(ls[..n])));
    }
  }

  lemma TermsHaveNoLabels(h: Helpers, es: seq<Expr>, cont: nat, a: nat)
    ensures NoLabels(TermsCode(h, es, cont, a))
  {
    hide TermsCode;
    var code := TermsCode(h, es, cont, a);
    forall i | 0 <= i < |code| ensures code[i].p2 >= 0 {
      var x := if code[i].p2 < 0 then code[i].p2 else -1;
      TermsLabels(h, es, cont, a, x, 0);
      assert Patch(code, x, 0)[i] == Redirect(code[i], x, 0);
    }
  }

  lemma LevelHasNoLabels(h: Helpers, l: Level, cont: nat, brk: nat, a: nat)
    ensures NoLabels(HeadCode(h, l, cont, brk, a) + MarkCode(h, l, cont, TopOf(l, a)))
  {
    hide TermsCode, TermsLen;
    TermsHaveNoLabels(h, l.early, cont, a + (if l.left then 2 else 0) + 1);
    TermsHaveNoLabels(h, l.late, cont, TopOf(l, a) + 2);
  }

  lemma TailHasNoLabels(l: Level, start: nat, top: nat, a: nat)
    ensures NoLabels(TailCode(l, start, top, a))
  {
  }

  lemma {:induction false} LoopHasNoLabels(h: Helpers, ls: seq<Level>, results: seq<Expr>, a: nat)
    ensures NoLabels(LoopCode(h, ls, results, a))
  {
    hide TermsCode, TermsLen, ResultsCode, LoopLen, Patch, HeadCode, MarkCode, TailCode;
    if ls == [] {
      ResultsHaveNoLabels(h, results, a);
    } else {
      var l, cont := ls[0], ContOf(ls, results, a);
      LoopHasNoLabels(h, ls[1..], results, InnerOf(l, a));
      LevelHasNoLabels(h, l, cont, cont + 1, a);
      TailHasNoLabels(l, StartOf(l, a), TopOf(l, a), cont);
    }
  }

  ghost predicate Free(code: seq<Op>, x: int) { forall i :: 0 <= i < |code| ==> code[i].p2 != x }

  lemma PatchFree(code: seq<Op>, x: int, addr: int)
    requires Free(code, x)
    ensures Patch(code, x, addr) == code
  {
  }

  lemma OpenedFree(h: Helpers, ls: seq<Level>, rs: seq<LevelRecord>, a: nat, x: int)
    requires |ls| == |rs| && x < 0 && forall k :: 0 <= k < |rs| ==> rs[k].cont != x && rs[k].brk != x
    ensures Free(Opened(h, ls, rs, a), x)
  {
    hide Opened;
    var code := Opened(h, ls, rs, a);
    OpenedKept(h, ls, rs, a, x, 0);
    forall i | 0 <= i < |code| ensures code[i].p2 != x {
      assert Patch(code, x, 0)[i] == Redirect(code[i], x, 0);
    }
  }

  lemma LevelPatched(h: Helpers, pre: seq<Op>, l: Level, r: LevelRecord, r': LevelRecord, inner: seq<Op>, x: int,
                     addr: int)
    requires x < 0 && Free(pre, x) && NoLabels(inner)
    requires r' == r.(cont := if r.cont == x then addr else r.cont, brk := if r.brk == x then addr else r.brk)
    ensures Patch(pre + OpenedLevel(h, l, r, |pre|) + inner, x, addr) == pre + OpenedLevel(h, l, r', |pre|) + inner
  {
    hide Patch, OpenedLevel, NoLabels, Free;
    PatchConcat(x, addr, pre + OpenedLevel(h, l, r, |pre|), inner);
    PatchConcat(x, addr, pre, OpenedLevel(h, l, r, |pre|));
    PatchFree(pre, x, addr);
    PatchNothing(inner, x, addr);
    LevelLabels(h, l, r, |pre|, x, addr);
  }

  lemma NextHasNoLabels(inner: seq<Op>, cursor: int, start: nat)
    requires NoLabels(inner)
    ensures NoLabels(inner + [Ins(OpNext, cursor, start)])
  {
  }

  function FlagTail(r: LevelRecord, a: nat): seq<Op>
    requires r.flag.Some?
  {
    [Ins(OpMemLoad, r.flag.value, 0), Ins(OpNotNull, 1, a + 4 + BoolInt(r.indexCursor >= 0)),
     Ins(OpNullRow, r.cursor, 0)]
    + (if r.indexCursor >= 0 then [Ins(OpNullRow, r.indexCursor, 0)] else []) + [Ins(OpGoto, 0, r.top)]
  }

  method CloseFlag(v: Vdbe, r: LevelRecord)
    requires v.Valid() && r.flag.Some?
    modifies v`aOp
    ensures Extends(v, FlagTail(r, |old(v.aOp)|))
  {
    var addr := v.AddOp(Ins(OpMemLoad, r.flag.value, 0));
    Emit(v, OpNotNull, 1, addr + 4 + BoolInt(r.indexCursor >= 0));
    Emit(v, OpNullRow, r.cursor, 0);
    if r.indexCursor >= 0 {
      Emit(v, OpNullRow, r.indexCursor, 0);
    }
    Emit(v, OpGoto, 0, r.top);
  }

  lemma LoopCodeIs(h: Helpers, ls: seq<Level>, results: seq<Expr>, a: nat, r: LevelRecord)
    requires ls != [] && Matches(r, ls[0], a)
    requires r.cont == ContOf(ls, results, a) && r.brk == r.cont + 1
    ensures LoopCode(h, ls, results, a)
            == OpenedLevel(h, ls[0], r, a) + LoopCode(h, ls[1..], results, InnerOf(ls[0], a))
               + [Ins(OpNext, r.cursor, r.start)]
               + if r.flag.Some? then FlagTail(r, r.brk) else []
  {
    hide HeadCode, MarkCode, LoopLen, TermsLen;
  }

  /** Resolving a label of the innermost open level here. */
  method ResolveIn(v: Vdbe, x: int, ghost h: Helpers, ghost pre: seq<Op>, ghost l: Level, ghost r: LevelRecord,
                   ghost r': LevelRecord, ghost inner: seq<Op>)
    requires v.Valid() && v.Open(x) && Free(pre, x) && NoLabels(inner)
    requires v.aOp == pre + OpenedLevel(h, l, r, |pre|) + inner
    requires r' == r.(cont := if r.cont == x then |v.aOp| else r.cont, brk := if r.brk == x then |v.aOp| else r.brk)
    modifies v
    ensures v.Valid() && v.aOp == pre + OpenedLevel(h, l, r', |pre|) + inner
    ensures v.aLabel == old(v.aLabel)[-1 - x := |old(v.aOp)|]
  {
    hide OpenedLevel, Patch, NoLabels, Free;
    LevelPatched(h, pre, l, r, r', inner, x, |v.aOp|);
    v.ResolveLabel(x);
  }

  /** The end of a loop: both labels are resolved around the instruction that advances the cursor. */
  method EndLoop(v: Vdbe, h: Helpers, r: LevelRecord, ghost pre: seq<Op>, ghost ls: seq<Level>,
                 ghost results: seq<Expr>)
    requires v.Valid() && OwnLabels(v.aLabel, r, 0) && Free(pre, r.cont) && Free(pre, r.brk)
    requires ls != [] && Matches(r, ls[0], |pre|)
    requires v.aOp == pre + OpenedLevel(h, ls[0], r, |pre|) + LoopCode(h, ls[1..], results, InnerOf(ls[0], |pre|))
    modifies v
    ensures var cont, inner := ContOf(ls, results, |pre|), LoopCode(h, ls[1..], results, InnerOf(ls[0], |pre|));
            && v.Valid() && |v.aOp| == cont + 1
            && v.aOp == pre + OpenedLevel(h, ls[0], r.(cont := cont, brk := cont + 1), |pre|)
                        + (inner + [Ins(OpNext, r.cursor, r.start)])
    ensures var cont := ContOf(ls, results, |pre|);
            v.aLabel == old(v.aLabel)[-1 - r.cont := cont][-1 - r.brk := cont + 1]
  {
    hide OpenedLevel, LoopCode, Patch, NoLabels, Free, LoopLen, Vdbe.Valid;
    ghost var inner, cont := LoopCode(h, ls[1..], results, InnerOf(ls[0], |pre|)), ContOf(ls, results, |pre|);
    ghost var next, r' := [Ins(OpNext, r.cursor, r.start)], r.(cont := cont, brk := cont + 1);
    LoopHasNoLabels(h, ls[1..], results, InnerOf(ls[0], |pre|));
    ResolveIn(v, r.cont, h, pre, ls[0], r, r.(cont := cont), inner);
    Emit(v, OpNext, r.cursor, r.start);
    NextHasNoLabels(inner, r.cursor, r.start);
    assert v.aOp == pre + OpenedLevel(h, ls[0], r.(cont := cont), |pre|) + (inner + next);
    ResolveIn(v, r.brk, h, pre, ls[0], r.(cont := cont), r', inner + next);
  }

  /** One round of __where_end: the innermost open level becomes a complete loop. */
  method CloseLevel(v: Vdbe, h: Helpers, r: LevelRecord, ghost pre: seq<Op>, ghost ls: seq<Level>,
                    ghost results: seq<Expr>)
    requires v.Valid() && OwnLabels(v.aLabel, r, 0) && Free(pre, r.cont) && Free(pre, r.brk)
    requires ls != [] && Matches(r, ls[0], |pre|)
    requires v.aOp == pre + OpenedLevel(h, ls[0], r, |pre|) + LoopCode(h, ls[1..], results, InnerOf(ls[0], |pre|))
    modifies v
    ensures v.Valid() && v.aOp == pre + LoopCode(h, ls, results, |pre|)
    ensures var cont := ContOf(ls, results, |pre|);
            v.aLabel == old(v.aLabel)[-1 - r.cont := cont][-1 - r.brk := cont + 1]
  {
    hide OpenedLevel, LoopCode, LoopLen, Vdbe.Valid, ContOf, InnerOf, Free;
    ghost var inner, cont := LoopCode(h, ls[1..], results, InnerOf(ls[0], |pre|)), ContOf(ls, results, |pre|);
    ghost var next, r' := [Ins(OpNext, r.cursor, r.start)], r.(cont := cont, brk := cont + 1);
    EndLoop(v, h, r, pre, ls, results);
    ghost var tail: seq<Op> := if r.flag.Some? then FlagTail(r, cont + 1) else [];
    if r.flag.Some? {
      CloseFlag(v, r);
    }
    LoopCodeIs(h, ls, results, |pre|, r');
    Regroup(v.aOp, pre, OpenedLevel(h, ls[0], r', |pre|), inner, next, tail);
  }

  lemma Regroup(code: seq<Op>, pre: seq<Op>, level: seq<Op>, inner: seq<Op>, next: seq<Op>, tail: seq<Op>)
    requires code == pre + level + (inner + next) + tail
    ensures code == pre + (level + inner + next + tail)
  {
  }

  lemma OpenedNext(h: Helpers, ls: seq<Level>, rs: seq<LevelRecord>, i: nat, a: nat)
    requires |ls| == |rs| && i < |ls|
    ensures OpenedLen(ls[..i + 1]) == OpenedLen(ls[..i]) + HeadLen(ls[i]) + MarkLen(ls[i])
    ensures Opened(h, ls[..i + 1], rs[..i + 1], a)
            == Opened(h, ls[..i], rs[..i], a) + OpenedLevel(h, ls[i], rs[i], a + OpenedLen(ls[..i]))
  {
    hide OpenedLevel, HeadLen, MarkLen;
    assert ls[..i + 1][..i] == ls[..i] && rs[..i + 1][..i] == rs[..i];
  }

  ghost predicate Above(code: seq<Op>, labels: nat) { forall i :: 0 <= i < |code| ==> code[i].p2 + labels >= 0 }

  /** __where_end: from the innermost level outwards. */
  method WhereEnd(v: Vdbe, h: Helpers, rs: seq<LevelRecord>, ghost ls: seq<Level>, ghost results: seq<Expr>,
                  ghost start: seq<Op>, ghost labels: nat)
    requires v.Valid() && Records(v.aLabel, ls, rs, |start|, labels) && Above(start, labels)
    requires v.aOp == start + Opened(h, ls, rs, |start|) + LoopCode(h, [], results, |start| + OpenedLen(ls))
    modifies v
    ensures v.Valid() && v.aOp == start + LoopCode(h, ls, results, |start|)
    ensures |v.aLabel| == |old(v.aLabel)|
    ensures forall k :: 0 <= k < labels && k < |v.aLabel| ==> v.aLabel[k] == old(v.aLabel)[k]
  {
    hide Opened, OpenedLen, OpenedLevel, LoopCode, LoopLen, Matches, Apart, Records, Above, Free;
    ghost var a := |start|;
    assert |ls| == |rs| by { SameCount(v.aLabel, ls, rs, a, labels); }
    var i := |rs|;
    assert ls[..i] == ls && rs[..i] == rs && ls[i..] == [];
    while i > 0
      invariant 0 <= i <= |rs| && v.Valid() && Records(v.aLabel, ls[..i], rs[..i], a, labels)
      invariant |v.aLabel| == |old(v.aLabel)|
      invariant forall k :: 0 <= k < labels && k < |v.aLabel| ==> v.aLabel[k] == old(v.aLabel)[k]
      invariant v.aOp == start + Opened(h, ls[..i], rs[..i], a) + LoopCode(h, ls[i..], results, a + OpenedLen(ls[..i]))
    {
      i := i - 1;
      ghost var pre := start + Opened(h, ls[..i], rs[..i], a);
      OpenedNext(h, ls, rs, i, a);
      assert ls[i..][1..] == ls[i + 1..];
      InnermostFree(v.aLabel, h, ls, rs, i, start, labels);
      ghost var aLabel := v.aLabel;
      CloseLevel(v, h, rs[i], pre, ls[i..], results);
      RecordsLess(aLabel, v.aLabel, ls, rs, i, a, labels);
    }
    assert ls[0..] == ls && start + Opened(h, ls[..0], rs[..0], a) == start
           && OpenedLen(ls[..0]) == 0 by { NoneOpened(h, a); }
  }

  lemma SameCount(aLabel: seq<int>, ls: seq<Level>, rs: seq<LevelRecord>, a: nat, labels: nat)
    requires Records(aLabel, ls, rs, a, labels)
    ensures |ls| == |rs|
  {
  }

  lemma NoneOpened(h: Helpers, a: nat)
    ensures OpenedLen([]) == 0 && Opened(h, [], [], a) == []
  {
  }

  lemma InnermostFree(aLabel: seq<int>, h: Helpers, ls: seq<Level>, rs: seq<LevelRecord>, i: nat, start: seq<Op>,
                      labels: nat)
    requires |ls| == |rs| && i < |rs| && Records(aLabel, ls[..i + 1], rs[..i + 1], |start|, labels)
             && Above(start, labels)
    ensures var pre := start + Opened(h, ls[..i], rs[..i], |start|); Free(pre, rs[i].cont) && Free(pre, rs[i].brk)
    ensures OwnLabels(aLabel, rs[i], 0) && OwnLabels(aLabel, rs[i], labels)
    ensures Matches(rs[i], ls[i], |start| + OpenedLen(ls[..i]))
  {
    hide Opened, OpenedLen, OpenedLevel, Matches;
    assert rs[..i + 1][i] == rs[i] && ls[..i + 1][i] == ls[i] && ls[..i + 1][..i] == ls[..i];
    assert OwnLabels(aLabel, rs[..i + 1][i], labels);
    assert Matches(rs[..i + 1][i], ls[..i + 1][i], |start| + OpenedLen(ls[..i + 1][..i]));
    forall k | 0 <= k < i ensures Apart(rs[k], rs[i]) {
      assert rs[..i + 1][k] == rs[k];
    }
    OpenedFree(h, ls[..i], rs[..i], |start|, rs[i].cont);
    OpenedFree(h, ls[..i], rs[..i], |start|, rs[i].brk);
  }

  lemma RecordsLess(aLabel: seq<int>, aLabel': seq<int>, ls: seq<Level>, rs: seq<LevelRecord>, i: nat, a: nat,
                    labels: nat)
    requires |ls| == |rs| && i < |rs| && Records(aLabel, ls[..i + 1], rs[..i + 1], a, labels) && |aLabel'| == |aLabel|
    requires forall k :: 0 <= k < |aLabel| && -1 - k != rs[i].cont && -1 - k != rs[i].brk ==> aLabel'[k] == aLabel[k]
    ensures Records(aLabel', ls[..i], rs[..i], a, labels)
  {
    hide OpenedLen, Matches;
    forall k | 0 <= k < i
      ensures Matches(rs[..i][k], ls[..i][k], a + OpenedLen(ls[..i][..k])) && OwnLabels(aLabel', rs[..i][k], labels)
    {
      assert rs[..i + 1][k] == rs[k] && rs[..i + 1][i] == rs[i] && ls[..i + 1][..k] == ls[..i][..k]
             && ls[..i + 1][k] == ls[k];
      assert Apart(rs[..i + 1][k], rs[..i + 1][i]) && OwnLabels(aLabel, rs[..i + 1][k], labels);
      assert Matches(rs[..i + 1][k], ls[..i + 1][k], a + OpenedLen(ls[..i + 1][..k]));
    }
    forall j, k | 0 <= j < k < i ensures Apart(rs[..i][j], rs[..i][k]) {
      assert Apart(rs[..i + 1][j], rs[..i + 1][k]);
    }
  }

  // Which loop tests a term, given the cursors that have a mask bit.

  ghost predicate Bound(q: Joins.Query, ts: seq<Joins.Term>) {
    forall t :: t in ts ==> Tables(t.e) <= q.Bound(|q.from|)
  }

  /** The first loop that positions every table of the term that has a bit. */
  function TestLevel(q: Joins.Query, known: set<int>, t: Joins.Term): nat
    requires Tables(t.e) <= q.Bound(|q.from|)
  {
    var d := q.Least(Tables(t.e) * known, 0);
    if d == 0 then 0 else d - 1
  }

  predicate InBatch(q: Joins.Query, known: set<int>, i: nat, late: bool, t: Joins.Term)
    requires i < |q.from| && Tables(t.e) <= q.Bound(|q.from|)
  {
    TestLevel(q, known, t) == i && late == (q.from[i].left && !t.fromJoin)
  }

  /** The terms of one batch, in the order of the clause. */
  ghost function Batch(q: Joins.Query, known: set<int>, i: nat, late: bool, ts: seq<Joins.Term>): seq<Expr>
    requires i < |q.from| && Bound(q, ts)
  {
    if ts == [] then []
    else
      var t := ts[|ts| - 1];
      Batch(q, known, i, late, ts[..|ts| - 1]) + if InBatch(q, known, i, late, t) then [t.e] else []
  }

  /** Memory cells in use before level `i`. */
  function Cells(q: Joins.Query, i: nat, nMem: nat): nat
    requires i <= |q.from|
  {
    if i == 0 then nMem
    else if q.from[i - 1].left then FlagCell(Cells(q, i - 1, nMem)) + 1
    else Cells(q, i - 1, nMem)
  }

  ghost function LevelFor(q: Joins.Query, known: set<int>, nMem: nat, i: nat): Level
    requires i < |q.from| && Bound(q, q.terms)
  {
    var left := q.from[i].left;
    Level(q.from[i].cursor, IndexCursor(i), left, if left then FlagCell(Cells(q, i, nMem)) else Cells(q, i, nMem),
          Batch(q, known, i, false, q.terms), if left then Batch(q, known, i, true, q.terms) else [])
  }

  /** The first `n` levels the generator opens. */
  ghost function Plan(q: Joins.Query, known: set<int>, nMem: nat, n: nat): seq<Level>
    requires n <= |q.from| && Bound(q, q.terms)
  {
    seq(n, i requires 0 <= i < n => LevelFor(q, known, nMem, i))
  }

  /** Before level `i`: exactly the terms of earlier levels are gone. */
  ghost predicate SlotsAt(q: Joins.Query, known: set<int>, ix: seq<int>, i: nat, ss: seq<Slot>)
    requires Bound(q, q.terms)
  {
    |ss| == |q.terms|
    && forall j :: 0 <= j < |ss| ==>
         ss[j] == Slot(if TestLevel(q, known, q.terms[j]) >= i then Some(q.terms[j]) else None,
                       Bits(ix, Tables(q.terms[j].e)))
  }

  /** The masks of the terms are final, and `known` says which tables have bits in them. */
  ghost predicate MasksFinal(q: Joins.Query, known: set<int>, ix: seq<int>) {
    forall t :: t in q.terms ==> Settled(ix, Tables(t.e)) && Tables(t.e) * known == Tables(t.e) * Cursors(ix)
  }

  lemma PrereqIsLevel(q: Joins.Query, known: set<int>, ix: seq<int>, i: nat, t: Joins.Term)
    requires i < |q.from| && Tables(t.e) <= q.Bound(|q.from|) && Tables(t.e) * known == Tables(t.e) * Cursors(ix)
    ensures Bits(ix, Tables(t.e)) <= Bits(ix, q.Bound(i + 1)) <==> TestLevel(q, known, t) <= i
  {
    var ts := Tables(t.e) * known;
    var d := q.Least(ts, 0);
    assert d <= i + 1 ==> q.Bound(d) <= q.Bound(i + 1);
    assert ts <= q.Bound(i + 1) <==> d <= i + 1;
    if Bits(ix, Tables(t.e)) <= Bits(ix, q.Bound(i + 1)) {
      forall x | x in ts ensures x in q.Bound(i + 1) {
        var k :| 0 <= k < |ix| && ix[k] == x;
        assert k in Bits(ix, Tables(t.e));
      }
    }
  }

  lemma {:induction false} TakeIsBatch(q: Joins.Query, known: set<int>, i: nat, late: bool, ts: seq<Joins.Term>,
                                       ss: seq<Slot>, loopMask: Mask, onlyJoin: bool)
    requires i < |q.from| && Bound(q, ts) && |ss| == |ts|
    requires forall j :: 0 <= j < |ss| ==>
               (Due(ss[j], loopMask, onlyJoin) <==> InBatch(q, known, i, late, ts[j]))
               && (Due(ss[j], loopMask, onlyJoin) ==> ss[j].p == Some(ts[j]))
    ensures TakeDue(ss, loopMask, onlyJoin) == Batch(q, known, i, late, ts)
  {
    hide Due, InBatch;
    if ts != [] {
      TakeIsBatch(q, known, i, late, ts[..|ts| - 1], ss[..|ss| - 1], loopMask, onlyJoin);
    }
  }

  /** Comparing masks picks exactly the terms planned for this level and leaves the rest. */
  lemma LevelIsPlanned(q: Joins.Query, known: set<int>, ix: seq<int>, i: nat, ss: seq<Slot>)
    requires i < |q.from| && Bound(q, q.terms) && SlotsAt(q, known, ix, i, ss) && MasksFinal(q, known, ix)
    ensures var m, left := Bits(ix, q.Bound(i + 1)), q.from[i].left;
            && TakeDue(ss, m, left) == Batch(q, known, i, false, q.terms)
            && (left ==> TakeDue(Cleared(ss, m, true), m, false) == Batch(q, known, i, true, q.terms))
            && SlotsAt(q, known, ix, i + 1,
                       if left then Cleared(Cleared(ss, m, true), m, false) else Cleared(ss, m, false))
  {
    hide TestLevel, Bits, TakeDue, Batch;
    var m, left := Bits(ix, q.Bound(i + 1)), q.from[i].left;
    forall j | 0 <= j < |ss| ensures ss[j].prereq <= m <==> TestLevel(q, known, q.terms[j]) <= i {
      PrereqIsLevel(q, known, ix, i, q.terms[j]);
    }
    TakeIsBatch(q, known, i, false, q.terms, ss, m, left);
    if left {
      TakeIsBatch(q, known, i, true, q.terms, Cleared(ss, m, true), m, false);
    }
  }

  // The generator as a whole.

  ghost function Mentioned(ts: seq<Joins.Term>): set<int> { set t, x | t in ts && x in Tables(t.e) :: x }

  /** Growing the mask set keeps the masks already taken. */
  lemma MasksStay(q: Joins.Query, known: set<int>, ix: seq<int>, ix': seq<int>, i: nat, ss: seq<Slot>)
    requires Bound(q, q.terms) && MasksFinal(q, known, ix) && SlotsAt(q, known, ix, i, ss)
    requires ix <= ix' && |ix'| <= MASK_BITS && Distinct(ix')
    ensures MasksFinal(q, known, ix') && SlotsAt(q, known, ix', i, ss)
  {
    hide Bits, TestLevel, Settled;
    forall t | t in q.terms
      ensures Settled(ix', Tables(t.e)) && Tables(t.e) * known == Tables(t.e) * Cursors(ix')
              && Bits(ix, Tables(t.e)) == Bits(ix', Tables(t.e))
    {
      BitsStable(ix, ix', Tables(t.e));
      KnownStable(ix, ix', Tables(t.e));
    }
  }

  lemma KnownStable(ix: seq<int>, ix': seq<int>, ts: set<int>)
    requires ix <= ix' && |ix'| <= MASK_BITS && Settled(ix, ts)
    ensures ts * Cursors(ix) == ts * Cursors(ix')
  {
    forall x | x in ts && x in ix' ensures x in ix {
    }
    forall x | x in ix ensures x in ix' {
    }
  }

  /** __expr_analyze over all terms. */
  method AnalyzeTerms(q: Joins.Query, ms: MaskSet) returns (wc: array<Slot>)
    requires ms.Valid() && ms.ix == []
    modifies ms
    ensures fresh(wc) && wc.Length == |q.terms| && ms.Valid() && Cursors(ms.ix) <= Mentioned(q.terms)
    ensures forall j :: 0 <= j < wc.Length ==> wc[j] == Slot(Some(q.terms[j]), Bits(ms.ix, Tables(q.terms[j].e)))
    ensures forall j :: 0 <= j < wc.Length ==> Settled(ms.ix, Tables(q.terms[j].e))
  {
    hide Bits, Settled, Tables;
    wc := new Slot[|q.terms|](_ => Slot(None, {}));
    var i := 0;
    while i < |q.terms|
      invariant 0 <= i <= |q.terms| && ms.Valid() && (forall x :: x in ms.ix ==> x in Mentioned(q.terms))
      invariant forall j :: 0 <= j < i ==> wc[j] == Slot(Some(q.terms[j]), Bits(ms.ix, Tables(q.terms[j].e)))
      invariant forall j :: 0 <= j < i ==> Settled(ms.ix, Tables(q.terms[j].e))
    {
      ghost var ix := ms.ix;
      var mask := ms.ExprTableUsage(q.terms[i].e);
      wc[i] := Slot(Some(q.terms[i]), mask);
      forall j | 0 <= j < i
        ensures Settled(ms.ix, Tables(q.terms[j].e))
                && Bits(ix, Tables(q.terms[j].e)) == Bits(ms.ix, Tables(q.terms[j].e))
      {
        BitsStable(ix, ms.ix, Tables(q.terms[j].e));
      }
      i := i + 1;
    }
    forall x | x in Cursors(ms.ix) ensures x in Mentioned(q.terms) {
      assert x in ms.ix;
    }
  }

  lemma SettledAll(q: Joins.Query, ix: seq<int>)
    requires forall j :: 0 <= j < |q.terms| ==> Settled(ix, Tables(q.terms[j].e))
    ensures Settled(ix, Mentioned(q.terms))
  {
  }

  /** The search for indices: it fills in the records of the first levels only, and gives their cursors
      a mask. The records were allocated with zeros. */
  method AssignSources(q: Joins.Query, ms: MaskSet) returns (indexCursors: seq<int>)
    requires ms.Valid()
    modifies ms
    ensures ms.Valid() && old(ms.ix) <= ms.ix
    ensures |indexCursors| == |q.from| && forall i :: 0 <= i < |q.from| ==> indexCursors[i] == IndexCursor(i)
  {
    indexCursors := seq(|q.from|, _ => 0);
    var i := 0;
    while i < |q.from| && i < EXAMINED
      invariant 0 <= i <= |q.from| && i <= EXAMINED && ms.Valid() && old(ms.ix) <= ms.ix && |indexCursors| == |q.from|
      invariant forall k :: 0 <= k < |q.from| ==> indexCursors[k] == if k < i then -1 else 0
    {
      var _ := ms.GetCursorBitmask(q.from[i].cursor);
      indexCursors := indexCursors[i := -1];
      i := i + 1;
    }
  }

  lemma RecordsMore(aLabel: seq<int>, aLabel': seq<int>, ls: seq<Level>, rs: seq<LevelRecord>, l: Level,
                    r: LevelRecord, a: nat, labels: nat)
    requires Records(aLabel, ls, rs, a, labels) && aLabel <= aLabel' && labels <= |aLabel|
    requires Matches(r, l, a + OpenedLen(ls)) && OwnLabels(aLabel', r, |aLabel|)
    ensures Records(aLabel', ls + [l], rs + [r], a, labels)
  {
    hide OpenedLen, Matches;
    forall k | 0 <= k <= |rs|
      ensures Matches((rs + [r])[k], (ls + [l])[k], a + OpenedLen((ls + [l])[..k]))
              && OwnLabels(aLabel', (rs + [r])[k], labels)
    {
      if k < |rs| {
        assert (ls + [l])[..k] == ls[..k];
        assert Matches(rs[k], ls[k], a + OpenedLen(ls[..k])) && OwnLabels(aLabel, rs[k], labels);
      } else {
        assert (ls + [l])[..k] == ls;
      }
    }
    forall j, k | 0 <= j < k <= |rs| ensures Apart((rs + [r])[j], (rs + [r])[k]) {
      assert OwnLabels(aLabel, rs[j], labels);
      if k < |rs| { assert Apart(rs[j], rs[k]); }
    }
  }

  lemma OpenedSnoc(h: Helpers, ls: seq<Level>, rs: seq<LevelRecord>, l: Level, r: LevelRecord, a: nat)
    requires |ls| == |rs|
    ensures Opened(h, ls + [l], rs + [r], a) == Opened(h, ls, rs, a) + OpenedLevel(h, l, r, a + OpenedLen(ls))
  {
    hide OpenedLevel, Opened, OpenedLen;
    OpenedNext(h, ls + [l], rs + [r], |ls|, a);
    assert (ls + [l])[..|ls|] == ls && (rs + [r])[..|rs|] == rs;
    assert (ls + [l])[..|ls| + 1] == ls + [l] && (rs + [r])[..|rs| + 1] == rs + [r];
  }

  /** Splitting is done; this gives the masks, and says which tables have a bit. */
  method PlanMasks(q: Joins.Query, ms: MaskSet)
    returns (wc: array<Slot>, indexCursors: seq<int>, ghost known: set<int>)
    requires ms.Valid() && ms.ix == [] && Bound(q, q.terms)
    modifies ms
    ensures fresh(wc) && ms.Valid() && MasksFinal(q, known, ms.ix) && SlotsAt(q, known, ms.ix, 0, wc[..])
    ensures Mentioned(q.terms) <= known <==> |Mentioned(q.terms)| <= MASK_BITS
    ensures |indexCursors| == |q.from| && forall i :: 0 <= i < |q.from| ==> indexCursors[i] == IndexCursor(i)
  {
    hide Bits, Settled, Tables, Mentioned, TestLevel;
    wc := AnalyzeTerms(q, ms);
    ghost var ix := ms.ix;
    known := Cursors(ix);
    SettledAll(q, ix);
    EnoughBits(ix, Mentioned(q.terms));
    indexCursors := AssignSources(q, ms);
    MasksStay(q, known, ix, ms.ix, 0, wc[..]);
  }

  /** __where_begin for full scans: opens the loops from the outermost in, coding each term as soon
      as the bits of its tables are in the loop mask. */
  method WhereBegin(v: Vdbe, h: Helpers, q: Joins.Query, nMem: nat)
    returns (rs: seq<LevelRecord>, mem: nat, ghost known: set<int>)
    requires v.Valid() && Bound(q, q.terms)
    modifies v
    ensures Mentioned(q.terms) <= known <==> |Mentioned(q.terms)| <= MASK_BITS
    ensures Records(v.aLabel, Plan(q, known, nMem, |q.from|), rs, |old(v.aOp)|, |old(v.aLabel)|)
    ensures v.Valid() && v.aOp == old(v.aOp) + Opened(h, Plan(q, known, nMem, |q.from|), rs, |old(v.aOp)|)
    ensures mem == Cells(q, |q.from|, nMem)
    ensures old(v.aLabel) <= v.aLabel
  {
    hide Opened, OpenedLen, OpenedLevel, Matches, Bits, Settled, Tables, Mentioned, TestLevel, SlotsAt, Batch,
         TakeDue, Cleared, Records,
         MasksFinal;
    ghost var start, labels := v.aOp, |v.aLabel|;
    var ms := new MaskSet();
    var wc, indexCursors;
    wc, indexCursors, known := PlanMasks(q, ms);
    var loopMask: Mask := {};
    var i := 0;
    rs, mem := [], nMem;
    NothingOpened(v.aLabel, h, q, known, nMem, start, labels);
    NoBits(q, ms.ix);
    while i < |q.from|
      invariant 0 <= i <= |q.from| && ms.Valid() && v.Valid() && old(v.aLabel) <= v.aLabel
      invariant MasksFinal(q, known, ms.ix) && SlotsAt(q, known, ms.ix, i, wc[..])
      invariant loopMask == Bits(ms.ix, q.Bound(i)) && Settled(ms.ix, q.Bound(i))
      invariant mem == Cells(q, i, nMem)
      invariant Records(v.aLabel, Plan(q, known, nMem, i), rs, |start|, labels) && |rs| == i
      invariant v.aOp == start + Opened(h, Plan(q, known, nMem, i), rs, |start|)
    {
      ghost var ix := ms.ix;
      var mask := ms.GetCursorBitmask(q.from[i].cursor);
      MasksStay(q, known, ix, ms.ix, i, wc[..]);
      MaskGrows(q, ix, ms.ix, i);
      loopMask := loopMask + mask;
      LevelIsPlanned(q, known, ms.ix, i, wc[..]);
      ghost var ls, aLabel, ss := Plan(q, known, nMem, i), v.aLabel, wc[..];
      var r;
      ghost var l;
      r, mem, l := OpenLevel(v, h, wc, loopMask, q.from[i].cursor, indexCursors[i], q.from[i].left, mem);
      PlanNext(q, known, nMem, i);
      OpenedSnoc(h, ls, rs, l, r, |start|);
      RecordsMore(aLabel, v.aLabel, ls, rs, l, r, |start|, labels);
      rs := rs + [r];
      i := i + 1;
    }
  }

  lemma NothingOpened(aLabel: seq<int>, h: Helpers, q: Joins.Query, known: set<int>, nMem: nat, start: seq<Op>,
                      labels: nat)
    requires Bound(q, q.terms)
    ensures Records(aLabel, Plan(q, known, nMem, 0), [], |start|, labels)
    ensures start == start + Opened(h, Plan(q, known, nMem, 0), [], |start|)
  {
  }

  lemma NoBits(q: Joins.Query, ix: seq<int>)
    ensures Bits(ix, q.Bound(0)) == {} && Settled(ix, q.Bound(0))
  {
  }

  lemma PlanNext(q: Joins.Query, known: set<int>, nMem: nat, i: nat)
    requires Bound(q, q.terms) && i < |q.from|
    ensures Plan(q, known, nMem, i + 1) == Plan(q, known, nMem, i) + [LevelFor(q, known, nMem, i)]
  {
  }

  lemma MaskGrows(q: Joins.Query, ix: seq<int>, ix': seq<int>, i: nat)
    requires i < |q.from| && ix <= ix' && |ix'| <= MASK_BITS && Distinct(ix')
    requires Settled(ix, q.Bound(i)) && Settled(ix', {q.from[i].cursor})
    ensures Bits(ix, q.Bound(i)) + Bits(ix', {q.from[i].cursor}) == Bits(ix', q.Bound(i + 1))
            && Settled(ix', q.Bound(i + 1))
  {
    BitsStable(ix, ix', q.Bound(i));
    assert q.Bound(i + 1) == q.Bound(i) + {q.from[i].cursor};
  }

  lemma {:induction false} ResultsSnoc(h: Helpers, es: seq<Expr>, e: Expr, a: nat)
    ensures ResultsLen(es + [e]) == ResultsLen(es) + ValueLen(e)
    ensures ResultsCode(h, es + [e], a) == ResultsCode(h, es, a) + ValueCode(h, e, false, a + ResultsLen(es))
  {
    hide ValueCode, ValueLen;
    if es == [] {
      assert ResultsCode(h, [e][1..], a + ValueLen(e)) == [];
      assert es + [e] == [e];
    } else {
      ResultsSnoc(h, es[1..], e, a + ValueLen(es[0]));
      assert (es + [e])[1..] == es[1..] + [e];
    }
  }

  /** The body of the innermost loop. */
  method EmitResults(v: Vdbe, h: Helpers, results: seq<Expr>)
    requires v.Valid()
    modifies v
    ensures Extends(v, LoopCode(h, [], results, |old(v.aOp)|))
  {
    hide ValueCode, ValueLen, ResultsCode, ResultsLen;
    ghost var a := |v.aOp|;
    assert ResultsCode(h, [], a) == [] by { NoResults(h, a); }
    var j := 0;
    while j < |results|
      invariant 0 <= j <= |results| && Extends(v, ResultsCode(h, results[..j], a))
    {
      ExprCode(v, h, false, results[j]);
      ResultsSnoc(h, results[..j], results[j], a);
      assert results[..j + 1] == results[..j] + [results[j]];
      j := j + 1;
    }
    assert results[..j] == results;
    Emit(v, OpCallback, |results|, 0);
  }

  lemma NoResults(h: Helpers, a: nat)
    ensures ResultsCode(h, [], a) == []
  {
  }

  lemma RecordsKept(aLabel: seq<int>, aLabel': seq<int>, ls: seq<Level>, rs: seq<LevelRecord>, a: nat, labels: nat)
    requires Records(aLabel, ls, rs, a, labels) && |aLabel| <= |aLabel'|
    requires forall i :: 0 <= i < |aLabel| ==> aLabel'[i] == aLabel[i]
    ensures Records(aLabel', ls, rs, a, labels)
  {
    hide OpenedLen, Matches;
  }

  // The plan is the one the join proof asks for.

  lemma {:induction false} BatchTerms(q: Joins.Query, known: set<int>, i: nat, late: bool, ts: seq<Joins.Term>)
    requires i < |q.from| && Bound(q, ts)
    ensures forall t :: t in ts && InBatch(q, known, i, late, t) ==> t.e in Batch(q, known, i, late, ts)
    ensures forall e :: e in Batch(q, known, i, late, ts) ==>
              exists t :: t in ts && InBatch(q, known, i, late, t) && t.e == e
  {
    hide InBatch;
    if ts != [] {
      var init, t := ts[..|ts| - 1], ts[|ts| - 1];
      BatchTerms(q, known, i, late, init);
      assert ts == init + [t];
      forall e | e in Batch(q, known, i, late, ts)
        ensures exists t :: t in ts && InBatch(q, known, i, late, t) && t.e == e
      {
        if e in Batch(q, known, i, late, init) {
          var t' :| t' in init && InBatch(q, known, i, late, t') && t'.e == e;
        }
      }
    }
  }

  /** A term is tested in the right loop exactly when that loop's table has a bit, or the loop is
      the first one anyway. */
  lemma TestedWhereBound(q: Joins.Query, known: set<int>, t: Joins.Term)
    requires q.Valid() && t in q.terms
    ensures TestLevel(q, known, t) <= q.Level(t)
    ensures TestLevel(q, known, t) == q.Level(t) <==> q.Level(t) == 0 || q.from[q.Level(t)].cursor in known
  {
    var ts, d, d' := Tables(t.e), q.Depth(t), q.Least(Tables(t.e) * known, 0);
    assert ts * known <= q.Bound(d);
    assert d' <= d;
    if d > 1 {
      var last := q.from[d - 1].cursor;
      assert q.Bound(d) == q.Bound(d - 1) + {last};
      assert last in ts by { assert !(ts <= q.Bound(d - 1)); }
      if last in known {
        assert forall k: nat :: k < d ==> last !in q.Bound(k);
      } else {
        assert ts * known <= q.Bound(d - 1);
      }
    }
  }

  lemma PlanFits(q: Joins.Query, known: set<int>, nMem: nat)
    requires q.Valid() && q.cells <= nMem && Mentioned(q.terms) <= known
    ensures Fits(q, Plan(q, known, nMem, |q.from|), 0)
    ensures forall k :: 0 <= k < |q.from| ==> nMem <= Plan(q, known, nMem, |q.from|)[k].flag
  {
    hide FitsLevel, LevelFor;
    var ls := Plan(q, known, nMem, |q.from|);
    forall k | 0 <= k < |ls| ensures FitsLevel(q, ls[k], k) && nMem <= ls[k].flag {
      LevelFits(q, known, nMem, k);
      CellsGrow(q, nMem, 0, k);
      FlagIs(q, known, nMem, k);
    }
    forall j, k | 0 <= j < k < |ls| ensures ls[j].flag + (if ls[j].left then 1 else 0) <= ls[k].flag {
      CellsGrow(q, nMem, j + 1, k);
      FlagIs(q, known, nMem, j);
      FlagIs(q, known, nMem, k);
    }
  }

  lemma FlagIs(q: Joins.Query, known: set<int>, nMem: nat, i: nat)
    requires Bound(q, q.terms) && i < |q.from|
    ensures var l := LevelFor(q, known, nMem, i);
            && Cells(q, i, nMem) <= l.flag
            && l.flag + (if l.left then 1 else 0) <= Cells(q, i + 1, nMem)
  {
  }

  lemma {:induction false} CellsGrow(q: Joins.Query, nMem: nat, i: nat, j: nat)
    requires i <= j <= |q.from|
    ensures Cells(q, i, nMem) <= Cells(q, j, nMem)
  {
    if i < j { CellsGrow(q, nMem, i, j - 1); }
  }

  lemma LevelFits(q: Joins.Query, known: set<int>, nMem: nat, i: nat)
    requires q.Valid() && i < |q.from| && q.cells <= nMem && Mentioned(q.terms) <= known
    ensures FitsLevel(q, LevelFor(q, known, nMem, i), i)
  {
    hide Batch, Joins.Query.Level, TestLevel, Mentioned, Tables;
    BatchTerms(q, known, i, false, q.terms);
    BatchTerms(q, known, i, true, q.terms);
    CellsGrow(q, nMem, 0, i);
    forall t | t in q.terms
      ensures InBatch(q, known, i, false, t) <==> Joins.Early(q, t, i)
      ensures InBatch(q, known, i, true, t) <==> Joins.Late(q, t, i)
    {
      AllKnown(q, known, t);
      TestedWhereBound(q, known, t);
    }
  }

  lemma AllKnown(q: Joins.Query, known: set<int>, t: Joins.Term)
    requires q.Valid() && t in q.terms && Mentioned(q.terms) <= known
    ensures q.Level(t) == 0 || q.from[q.Level(t)].cursor in known
  {
    var d := q.Depth(t);
    if d > 1 {
      var last := q.from[d - 1].cursor;
      assert q.Bound(d) == q.Bound(d - 1) + {last};
      assert last in Tables(t.e) by { assert !(Tables(t.e) <= q.Bound(d - 1)); }
      assert last in Mentioned(q.terms);
    }
  }

  lemma PlanCount(q: Joins.Query, known: set<int>, nMem: nat)
    requires Bound(q, q.terms)
    ensures |Plan(q, known, nMem, |q.from|)| == |q.from|
  {
  }

  // More tables than mask bits.

  /** 34 tables, each but the first with a WHERE term about it alone. */
  function ManyTables(): Joins.Query {
    Joins.Query(seq(34, k => Joins.Source(k, false)), seq(33, k => Joins.Term(Joins.HasValue(k + 1), None, false)),
                [], 0)
  }

  lemma ManyTablesValid()
    ensures ManyTables().Valid()
    ensures forall k :: 0 <= k < 33 ==> ManyTables().Level(ManyTables().terms[k]) == k + 1
  {
    var q := ManyTables();
    forall t | t in q.terms ensures Tables(t.e) <= q.Bound(34) && PlainTest(t.e, 0) {
      var k :| 0 <= k < 33 && q.terms[k] == t;
      assert q.from[k + 1].cursor in q.Bound(34);
    }
    forall k | 0 <= k < 33 ensures q.Level(q.terms[k]) == k + 1 {
      assert q.terms[k] in q.terms;
      Joins.LevelOf(q, q.terms[k], k + 1);
    }
  }

  lemma ManyTerm(k: nat)
    requires k < 33
    ensures Tables(ManyTables().terms[k].e) == {k + 1}
  {
  }

  lemma ManyMentioned()
    ensures |Mentioned(ManyTables().terms)| == 33
  {
    var ts, ix := ManyTables().terms, seq(33, k => k + 1);
    forall x | x in ix ensures x in Mentioned(ts) {
      var k :| 0 <= k < 33 && ix[k] == x;
      ManyTerm(k);
      assert ts[k] in ts;
    }
    forall x | x in Mentioned(ts) ensures x in ix {
      var t :| t in ts && x in Tables(t.e);
      var k :| 0 <= k < 33 && ts[k] == t;
      ManyTerm(k);
      assert ix[k] == x;
    }
    assert Mentioned(ts) == Cursors(ix);
    DistinctSize(ix);
  }

  lemma ManyCount()
    ensures |ManyTables().terms| == 33
  {
  }

  lemma NoneKnown(q: Joins.Query, known: set<int>, t: Joins.Term)
    requires Tables(t.e) <= q.Bound(|q.from|) && Tables(t.e) * known == {}
    ensures TestLevel(q, known, t) == 0
  {
    assert q.Least({}, 0) == 0;
  }

  /** Whichever 32 tables have bits: one of the 33 terms is coded in the outermost loop although its
      table is positioned in an inner one. */
  lemma CodedTooEarly(known: set<int>)
    requires Mentioned(ManyTables().terms) <= known <==> |Mentioned(ManyTables().terms)| <= MASK_BITS
    ensures ManyTables().Valid()
    ensures exists t :: t in ManyTables().terms && TestLevel(ManyTables(), known, t) == 0 < ManyTables().Level(t)
  {
    hide ManyTables, Mentioned;
    ManyTablesValid();
    ManyMentioned();
    var k, c := UnknownTerm(ManyTables().terms, known);
    ManyCount();
    TooEarly(k, known);
  }

  lemma UnknownTerm(ts: seq<Joins.Term>, known: set<int>) returns (k: nat, c: int)
    requires !(Mentioned(ts) <= known)
    ensures k < |ts| && c in Tables(ts[k].e) && c !in known
  {
    c :| c in Mentioned(ts) && c !in known;
    var t :| t in ts && c in Tables(t.e);
    k :| 0 <= k < |ts| && ts[k] == t;
  }

  lemma TooEarly(k: nat, known: set<int>)
    requires k < 33 == |ManyTables().terms| && !(Tables(ManyTables().terms[k].e) <= known) && ManyTables().Valid()
    ensures var t := ManyTables().terms[k];
            t in ManyTables().terms && TestLevel(ManyTables(), known, t) == 0 < ManyTables().Level(t)
  {
    hide TestLevel, Tables;
    var t := ManyTables().terms[k];
    assert t in ManyTables().terms;
    ManyTerm(k);
    ManyTablesValid();
    assert Tables(t.e) * known == {};
    NoneKnown(ManyTables(), known, t);
  }
}
