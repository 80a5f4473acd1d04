/** The growing program: instructions, symbolic labels and back-patching. */
module Builder {
  import opened Values
  import opened Machine

  /** An instruction with its P2 redirected from `x` to `addr`, if it names `x`. */
  function Redirect(op: Op, x: int, addr: int): Op { if op.p2 == x then op.(p2 := addr) else op }

  function Patch(code: seq<Op>, x: int, addr: int): (r: seq<Op>)
    ensures |r| == |code|
    ensures forall i :: 0 <= i < |code| ==> r[i] == Redirect(code[i], x, addr)
  {
    seq(|code|, i requires 0 <= i < |code| => Redirect(code[i], x, addr))
  }

  lemma PatchConcat(x: int, addr: int, p: seq<Op>, q: seq<Op>)
    ensures Patch(p + q, x, addr) == Patch(p, x, addr) + Patch(q, x, addr)
  {
  }

  /** Labels are negative; label -1-i has the address aLabel[i], or -1 while unresolved. */
  class Vdbe {
    var aOp: seq<Op>
    var aLabel: seq<int>

    /** Instructions refer only to labels that have been made, and to none that is resolved. */
    ghost predicate Valid()
      reads this
    {
      && (forall i :: 0 <= i < |aLabel| ==> -1 <= aLabel[i] <= |aOp|)
      && (forall i :: 0 <= i < |aOp| && aOp[i].p2 < 0 ==> Open(aOp[i].p2))
    }

    /** `x` is a label that has been made and not resolved. */
    ghost predicate Open(x: int)
      reads this
    {
      -|aLabel| <= x < 0 && aLabel[-1 - x] == -1
    }

    constructor ()
      ensures Valid() && aOp == [] && aLabel == []
    {
      aOp, aLabel := [], [];
    }

    method AddOp(op: Op) returns (i: nat)
      requires Valid() && (op.p2 < 0 ==> -|aLabel| <= op.p2)
      modifies this`aOp
      ensures Valid() && i == |old(aOp)|
      ensures aOp == old(aOp) + [if op.p2 < 0 && aLabel[-1 - op.p2] >= 0 then op.(p2 := aLabel[-1 - op.p2]) else op]
    {
      i := |aOp|;
      var p2 := op.p2;
      if p2 < 0 && -1 - p2 < |aLabel| && aLabel[-1 - p2] >= 0 {
        p2 := aLabel[-1 - p2];
      }
      aOp := aOp + [op.(p2 := p2)];
    }

    method MakeLabel() returns (x: int)
      requires Valid()
      modifies this`aLabel
      ensures Valid() && aLabel == old(aLabel) + [-1] && x == -|aLabel|
    {
      aLabel := aLabel + [-1];
      x := -|aLabel|;
    }

    /** Fixes label `x` at the next address and rewrites every jump to it. A label already fixed
        there is left alone. */
    method ResolveLabel(x: int)
      requires Valid() && (Open(x) || (-|aLabel| <= x < 0 && aLabel[-1 - x] == |aOp|))
      modifies this
      ensures Valid()
      ensures aOp == Patch(old(aOp), x, |old(aOp)|) && aLabel == old(aLabel)[-1 - x := |old(aOp)|]
    {
      if aLabel[-1 - x] == |aOp| {
        assert aOp == Patch(aOp, x, |aOp|);
        return;
      }
      aLabel := aLabel[-1 - x := |aOp|];
      var j := 0;
      while j < |aOp|
        invariant 0 <= j <= |aOp| == |old(aOp)|
        invariant aLabel == old(aLabel)[-1 - x := |old(aOp)|]
        invariant forall i :: 0 <= i < |aOp| ==>
                    aOp[i] == if i < j then Redirect(old(aOp)[i], x, |old(aOp)|) else old(aOp)[i]
      {
        if aOp[j].p2 == x {
          aOp := aOp[j := aOp[j].(p2 := |aOp|)];
        }
        j := j + 1;
      }
      assert aOp == Patch(old(aOp), x, |old(aOp)|);
    }

    method ChangeP2(addr: nat, val: nat)
      requires Valid()
      modifies this`aOp
      ensures Valid()
      ensures aOp == if addr < |old(aOp)| then old(aOp)[addr := old(aOp)[addr].(p2 := val)] else old(aOp)
    {
      if addr < |aOp| {
        aOp := aOp[addr := aOp[addr].(p2 := val)];
      }
    }
  }
}
