/** How the WHERE clause is cut into terms, and which loop tests each term: the slots filled by
    the AND splitter and the 32-bit masks of table cursors. */
module WherePlan {
  import opened Values
  import opened Expressions
  import opened Agreement
  import opened Joins
  import opened Machine
  import Layout

  const MAX_SLOTS := 101
  const MASK_BITS := 32

  // Splitting at AND.

  function Conjuncts(e: Expr): seq<Expr>
    decreases e
  {
    if e.And? then Conjuncts(e.left) + Conjuncts(e.right) else [e]
  }

  /** What fits into `n` slots: the last one takes whatever is left of its side unsplit. */
  function Split(n: nat, e: Expr): (r: seq<Expr>)
    ensures |r| <= n
    decreases e
  {
    if n < 1 then []
    else if n == 1 || !e.And? then [e]
    else if !e.left.And? then [e.left] + Split(n - 1, e.right)
    else
      var left := Split(n, e.left);
      left + Split(n - |left|, e.right)
  }

  method ExprSplit(slots: array<Option<Expr>>, at: nat, numSlot: nat, e: Expr) returns (cnt: nat)
    requires at + numSlot <= slots.Length
    modifies slots
    ensures cnt == |Split(numSlot, e)|
    ensures forall k :: 0 <= k < slots.Length ==>
              slots[k] == if at <= k < at + cnt then Some(Split(numSlot, e)[k - at]) else old(slots[k])
    decreases e
  {
    cnt := 0;
    if numSlot < 1 {
      return;
    }
    if numSlot == 1 || !e.And? {
      slots[at] := Some(e);
      return 1;
    }
    if !e.left.And? {
      slots[at] := Some(e.left);
      cnt := ExprSplit(slots, at + 1, numSlot - 1, e.right);
      cnt := cnt + 1;
    } else {
      cnt := ExprSplit(slots, at, numSlot, e.left);
      var more := ExprSplit(slots, at + cnt, numSlot - cnt, e.right);
      cnt := cnt + more;
    }
  }

  /** The slots fill up exactly when there are too many conjuncts; otherwise none is lost or left
      unsplit. */
  lemma {:induction false} SplitIsConjuncts(n: nat, e: Expr)
    ensures |Conjuncts(e)| >= 1
    ensures |Split(n, e)| < n <==> |Conjuncts(e)| < n
    ensures |Conjuncts(e)| <= n ==> Split(n, e) == Conjuncts(e)
    decreases e
  {
    if e.And? {
      SplitIsConjuncts(n, e.left);
      SplitIsConjuncts(if n > 0 then n - 1 else 0, e.right);
      SplitIsConjuncts(n - |Split(n, e.left)|, e.right);
    }
  }

  /** An AND is true exactly when all its conjuncts are. */
  lemma {:induction false} ConjunctsDecide(e: Expr, useAgg: bool, env: Env)
    ensures TruthIn(e, useAgg, env) == True <==> forall c :: c in Conjuncts(e) ==> TruthIn(c, useAgg, env) == True
    decreases e
  {
    if e.And? {
      ConjunctsDecide(e.left, useAgg, env);
      ConjunctsDecide(e.right, useAgg, env);
    } else {
      assert e in Conjuncts(e);
    }
  }

  // A set of clauses as terms.

  /** The WHERE clause (`on` is None, `fromJoin` is false) or one ON clause. */
  datatype Clause = Clause(e: Expr, on: Option<nat>, fromJoin: bool)

  function TermsOfClause(c: Clause): seq<Term> {
    seq(|Conjuncts(c.e)|, k requires 0 <= k < |Conjuncts(c.e)| => Term(Conjuncts(c.e)[k], c.on, c.fromJoin))
  }

  function TermsOf(cs: seq<Clause>): seq<Term> {
    if cs == [] then [] else TermsOfClause(cs[0]) + TermsOf(cs[1..])
  }

  predicate AllHold(w: World, mem: map<int, Value>, b: Binding, ts: seq<Term>, on: Option<nat>) {
    forall t :: t in ts && t.on == on ==> Joins.Holds(w, mem, b, t.e)
  }

  lemma ClauseHolds(w: World, mem: map<int, Value>, b: Binding, c: Clause)
    ensures AllHold(w, mem, b, TermsOfClause(c), c.on) <==> Joins.Holds(w, mem, b, c.e)
    ensures forall on :: on != c.on ==> AllHold(w, mem, b, TermsOfClause(c), on)
  {
    hide Conjuncts, TruthIn;
    ConjunctsDecide(c.e, false, EnvAt(w, b, mem));
    forall x | x in Conjuncts(c.e) ensures Term(x, c.on, c.fromJoin) in TermsOfClause(c) {
      var k :| 0 <= k < |Conjuncts(c.e)| && Conjuncts(c.e)[k] == x;
      assert TermsOfClause(c)[k] == Term(x, c.on, c.fromJoin);
    }
    forall t | t in TermsOfClause(c) ensures t.on == c.on && t.e in Conjuncts(c.e) {
    }
    if AllHold(w, mem, b, TermsOfClause(c), c.on) {
      forall x | x in Conjuncts(c.e) ensures Joins.Holds(w, mem, b, x) {
        assert Term(x, c.on, c.fromJoin) in TermsOfClause(c);
      }
    }
  }

  /** Testing the terms one by one is testing the clauses they come from. */
  lemma {:induction false} TermsAreClauses(w: World, mem: map<int, Value>, b: Binding, cs: seq<Clause>, on: Option<nat>)
    ensures AllHold(w, mem, b, TermsOf(cs), on) <==> forall c :: c in cs && c.on == on ==> Joins.Holds(w, mem, b, c.e)
  {
    hide Joins.Holds;
    if cs != [] {
      TermsAreClauses(w, mem, b, cs[1..], on);
      ClauseHolds(w, mem, b, cs[0]);
      assert AllHold(w, mem, b, TermsOf(cs), on)
             == (AllHold(w, mem, b, TermsOfClause(cs[0]), on) && AllHold(w, mem, b, TermsOf(cs[1..]), on));
      assert cs == [cs[0]] + cs[1..];
    }
  }

  // Bits for cursors.

  /** A mask is the set of its bit numbers. */
  type Mask = set<nat>

  /** The bits of the cursors in `ts` that have one. */
  function Bits(ix: seq<int>, ts: set<int>): (m: Mask) {
    set k: nat | k < |ix| && ix[k] in ts
  }

  predicate Distinct(ix: seq<int>) { forall i, j :: 0 <= i < j < |ix| ==> ix[i] != ix[j] }

  /** Every cursor of `ts` has a bit, or there is none left to give. */
  predicate Settled(ix: seq<int>, ts: set<int>) {
    |ix| == MASK_BITS || forall t :: t in ts ==> t in ix
  }

  /** Masks taken early stay valid: the bits of settled cursors never change. */
  lemma BitsStable(ix: seq<int>, ix': seq<int>, ts: set<int>)
    requires ix <= ix' && |ix'| <= MASK_BITS && Distinct(ix') && Settled(ix, ts)
    ensures Settled(ix', ts) && Bits(ix, ts) == Bits(ix', ts)
  {
    if |ix| < MASK_BITS {
      forall k: nat | k < |ix'| && ix'[k] in ts ensures k < |ix| {
        var j :| 0 <= j < |ix| && ix[j] == ix'[k];
        assert ix'[j] == ix'[k];
      }
    }
  }

  lemma BitsUnion(ix: seq<int>, ts: set<int>, us: set<int>)
    ensures Bits(ix, ts + us) == Bits(ix, ts) + Bits(ix, us)
  {
  }

  function Cursors(ix: seq<int>): set<int> { set x | x in ix }

  lemma {:induction false} DistinctSize(ix: seq<int>)
    requires Distinct(ix)
    ensures |Cursors(ix)| == |ix|
  {
    if ix != [] {
      DistinctSize(ix[1..]);
      assert Cursors(ix) == Cursors(ix[1..]) + {ix[0]} && ix[0] !in Cursors(ix[1..]);
    }
  }

  lemma SubsetSize<T>(x: set<T>, y: set<T>)
    requires x <= y
    ensures |x| <= |y| && (|x| == |y| ==> x == y)
  {
    assert y == x + (y - x);
  }

  /** Once `ts` is settled and nothing else has been asked for, every cursor has a bit exactly when
      there are enough bits. */
  lemma EnoughBits(ix: seq<int>, ts: set<int>)
    requires |ix| <= MASK_BITS && Distinct(ix) && Cursors(ix) <= ts && Settled(ix, ts)
    ensures ts <= Cursors(ix) <==> |ts| <= MASK_BITS
  {
    DistinctSize(ix);
    SubsetSize(Cursors(ix), ts);
    assert ts <= Cursors(ix) ==> ts == Cursors(ix);
    if |ix| < MASK_BITS {
      forall t | t in ts ensures t in Cursors(ix) {
        assert t in ix;
      }
    }
  }

  class MaskSet {
    var ix: seq<int>

    ghost predicate Valid()
      reads this
    {
      |ix| <= MASK_BITS && Distinct(ix)
    }

    /** What every use of the set keeps: cursors never lose their bits, and only those asked for
        get new ones. */
    twostate predicate Grows(ts: set<int>)
      reads this
    {
      Valid() && old(ix) <= ix && Settled(ix, ts) && (forall t :: t in ix ==> t in old(ix) || t in ts)
    }

    constructor ()
      ensures Valid() && ix == []
    {
      ix := [];
    }

    method GetCursorBitmask(cursor: int) returns (mask: Mask)
      requires Valid()
      modifies this
      ensures Grows({cursor}) && mask == Bits(ix, {cursor})
    {
      var i := 0;
      while i < |ix|
        invariant 0 <= i <= |ix| && ix == old(ix)
        invariant cursor !in ix[..i]
      {
        if ix[i] == cursor {
          return {i};
        }
        i := i + 1;
      }
      if i < MASK_BITS {
        ix := ix + [cursor];
        return {i};
      }
      return {};
    }

    method ExprTableUsage(e: Expr) returns (mask: Mask)
      requires Valid()
      modifies this
      ensures Grows(Tables(e)) && mask == Bits(ix, Tables(e))
      decreases e
    {
      if e.Column? {
        mask := GetCursorBitmask(e.table);
      } else if Layout.IsLeaf(e) {
        mask := {};
      } else if Layout.IsBinary(e) || e.Shift? {
        mask := ExprTableUsage(e.right);
        label right:
        var left := ExprTableUsage(e.left);
        BitsStable(old@right(ix), ix, Tables(e.right));
        mask := mask + left;
      } else if e.Between? {
        mask := ExprTableUsage(e.left);
        label left:
        var low := ExprTableUsage(e.low);
        BitsStable(old@left(ix), ix, Tables(e.left));
        label low:
        var high := ExprTableUsage(e.high);
        BitsStable(old@low(ix), ix, Tables(e.left));
        BitsStable(old@low(ix), ix, Tables(e.low));
        mask := mask + low + high;
      } else if e.Function? {
        mask := ListTableUsage(e.args);
      } else if e.Case? {
        mask := CaseTableUsage(e);
      } else {
        mask := ExprTableUsage(e.left);
      }
    }

    method ListTableUsage(es: Exprs) returns (mask: Mask)
      requires Valid()
      modifies this
      ensures Grows(ArgTables(es)) && mask == Bits(ix, ArgTables(es))
      decreases es
    {
      mask := {};
      if es.Cons? {
        mask := ExprTableUsage(es.head);
        label head:
        var rest := ListTableUsage(es.tail);
        BitsStable(old@head(ix), ix, Tables(es.head));
        mask := mask + rest;
      }
    }

    method WhensTableUsage(ws: Whens) returns (mask: Mask)
      requires Valid()
      modifies this
      ensures Grows(WhenTables(ws)) && mask == Bits(ix, WhenTables(ws))
      decreases ws
    {
      mask := {};
      if ws.When? {
        mask := ExprTableUsage(ws.cond);
        label cond:
        var result := ExprTableUsage(ws.result);
        BitsStable(old@cond(ix), ix, Tables(ws.cond));
        label result:
        var rest := WhensTableUsage(ws.rest);
        BitsStable(old@result(ix), ix, Tables(ws.cond));
        BitsStable(old@result(ix), ix, Tables(ws.result));
        mask := mask + result + rest;
      }
    }

    method CaseTableUsage(e: Expr) returns (mask: Mask)
      requires Valid() && e.Case?
      modifies this
      ensures Grows(Tables(e)) && mask == Bits(ix, Tables(e))
      decreases e, 0
    {
      mask := {};
      ghost var ts: set<int> := {};
      if e.otherwise.TheExpr? {
        mask := ExprTableUsage(e.otherwise.e);
        ts := Tables(e.otherwise.e);
      }
      label otherwise:
      if e.base.TheExpr? {
        var base := ExprTableUsage(e.base.e);
        BitsStable(old@otherwise(ix), ix, ts);
        mask := mask + base;
        BitsUnion(ix, ts, Tables(e.base.e));
        ts := ts + Tables(e.base.e);
      }
      label base:
      var whens := WhensTableUsage(e.whens);
      BitsStable(old@base(ix), ix, ts);
      mask := mask + whens;
      BitsUnion(ix, ts, WhenTables(e.whens));
      assert Tables(e) == ts + WhenTables(e.whens);
    }
  }
}
