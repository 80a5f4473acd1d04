/** Expanding row triggers into a statement's code, guarded by the trigger stack. */
module Triggers {
  import opened Values

  datatype Event = Insert | Update | Delete
  datatype Timing = Before | After

  /** What fires triggers; an UPDATE with the names it sets. Names are compared without regard to
      case, so they stand here in lower case. */
  datatype Change = Change(event: Event, sets: seq<string>)

  datatype Step = Step(change: Change, table: string) | SelectStep

  /** `columns` is the list of an UPDATE OF trigger. */
  datatype Trigger = Trigger(name: string, event: Event, timing: Timing, forEachRow: bool, columns: Option<seq<string>>,
                             steps: seq<Step>)

  /** The triggers of every table, by name. */
  datatype Schema = Schema(triggers: string -> seq<Trigger>, all: set<Trigger>) {
    ghost predicate Valid() { forall t, i :: 0 <= i < |triggers(t)| ==> triggers(t)[i] in all }
  }

  /** The trigger stack as a set; no trigger is on it twice. */
  function OnStack(stack: seq<Trigger>): set<Trigger> { set t | t in stack }
  predicate NoRepeats(stack: seq<Trigger>) { forall i, j :: 0 <= i < j < |stack| ==> stack[i] != stack[j] }

  lemma {:induction false} StackSize(stack: seq<Trigger>)
    requires NoRepeats(stack)
    ensures |OnStack(stack)| == |stack|
  {
    if stack != [] {
      StackSize(stack[1..]);
      assert OnStack(stack) == OnStack(stack[1..]) + {stack[0]};
    }
  }

  lemma SubsetSize(x: set<Trigger>, y: set<Trigger>)
    requires x <= y
    ensures |x| <= |y|
  {
    assert y == x + (y - x);
  }

  // What is coded, given the set of triggers being expanded.

  predicate Overlap(t: Trigger, sets: seq<string>) {
    t.columns.Some? ==> exists c :: c in sets && c in t.columns.value
  }

  predicate Matches(t: Trigger, change: Change, timing: Timing) {
    t.event == change.event && t.timing == timing && t.forEachRow
      && (change.event == Update ==> Overlap(t, change.sets))
  }

  /** The triggers from number `i` of a table on, each followed by what its own steps fire. */
  ghost function Fired(schema: Schema, busy: set<Trigger>, table: string, change: Change, timing: Timing,
                       i: nat): seq<string>
    requires schema.Valid() && i <= |schema.triggers(table)|
    decreases |schema.all - busy|, 2, |schema.triggers(table)| - i
  {
    if i == |schema.triggers(table)| then []
    else
      var t := schema.triggers(table)[i];
      (if Matches(t, change, timing) && t !in busy then
         SmallerSet(schema.all - (busy + {t}), schema.all - busy);
         [t.name] + Program(schema, busy + {t}, t.steps, 0)
       else [])
      + Fired(schema, busy, table, change, timing, i + 1)
  }

  ghost function Program(schema: Schema, busy: set<Trigger>, steps: seq<Step>, i: nat): seq<string>
    requires schema.Valid() && i <= |steps|
    decreases |schema.all - busy|, 4, |steps| - i
  {
    if i == |steps| then []
    else
      (if steps[i].Step? then Statement(schema, busy, steps[i].change, steps[i].table) else [])
      + Program(schema, busy, steps, i + 1)
  }

  /** __triggers_exist: whether some trigger of the table matches. The guard against recursion looks
      for the first trigger of the table on the stack, not for the one that matches. */
  predicate TriggersExist(schema: Schema, busy: set<Trigger>, table: string, change: Change, timing: Timing) {
    var ts := schema.triggers(table);
    exists i :: 0 <= i < |ts| && Matches(ts[i], change, timing) && ts[0] !in busy
  }

  /** INSERT codes its BEFORE triggers only if there are some; otherwise both kinds are coded if there
      are any of either kind. */
  ghost function Statement(schema: Schema, busy: set<Trigger>, change: Change, table: string): seq<string>
    requires schema.Valid()
    decreases |schema.all - busy|, 3
  {
    var before := TriggersExist(schema, busy, table, change, Before);
    var any := before || TriggersExist(schema, busy, table, change, After);
    (if before || (any && change.event != Insert) then Fired(schema, busy, table, change, Before, 0) else [])
    + (if any then Fired(schema, busy, table, change, After, 0) else [])
  }

  /** A trigger of the table that the statement should fire: it matches and is not being expanded. */
  ghost predicate Due(schema: Schema, busy: set<Trigger>, table: string, change: Change, timing: Timing, i: nat) {
    var ts := schema.triggers(table);
    i < |ts| && Matches(ts[i], change, timing) && ts[i] !in busy
  }

  lemma {:induction false} FiredEmpty(schema: Schema, busy: set<Trigger>, table: string, change: Change, timing: Timing,
                                      i: nat)
    requires schema.Valid() && i <= |schema.triggers(table)|
    ensures Fired(schema, busy, table, change, timing, i) == []
            <==> forall k: nat :: i <= k ==> !Due(schema, busy, table, change, timing, k)
    decreases |schema.triggers(table)| - i
  {
    hide Matches, Program;
    if i < |schema.triggers(table)| {
      FiredNext(schema, busy, table, change, timing, i);
      FiredEmpty(schema, busy, table, change, timing, i + 1);
      if Due(schema, busy, table, change, timing, i) {
        assert Fired(schema, busy, table, change, timing, i) != [];
      }
    }
  }

  /** Only row triggers for the event and the time fire, and of UPDATE OF triggers only those that list a
      column that is set. */
  lemma FiresOnly(schema: Schema, busy: set<Trigger>, table: string, change: Change, timing: Timing)
    requires schema.Valid()
    ensures Fired(schema, busy, table, change, timing, 0) != []
            <==> exists t :: t in schema.triggers(table) && t !in busy && t.forEachRow && t.timing == timing
                             && t.event == change.event
                             && (change.event == Update && t.columns.Some? ==>
                                   exists c :: c in change.sets && c in t.columns.value)
  {
    hide Fired;
    var ts := schema.triggers(table);
    FiredEmpty(schema, busy, table, change, timing, 0);
    forall t | t in ts ensures exists i: nat :: i < |ts| && ts[i] == t {
      var i :| 0 <= i < |ts| && ts[i] == t;
    }
    if t :| t in ts && t !in busy && t.forEachRow && t.timing == timing && t.event == change.event
            && (change.event == Update && t.columns.Some? ==> exists c :: c in change.sets && c in t.columns.value) {
      var i: nat :| i < |ts| && ts[i] == t;
      assert Due(schema, busy, table, change, timing, i);
    }
  }

  /** An UPDATE that sets none of the columns its triggers list codes none of them. */
  lemma OtherColumnsFireNothing(schema: Schema, busy: set<Trigger>, table: string, sets: seq<string>)
    requires schema.Valid()
    requires forall t :: t in schema.triggers(table) && t.event == Update ==>
               t.columns.Some? && forall c :: c in t.columns.value ==> c !in sets
    ensures Statement(schema, busy, Change(Update, sets), table) == []
  {
    hide Fired;
    FiresOnly(schema, busy, table, Change(Update, sets), Before);
    FiresOnly(schema, busy, table, Change(Update, sets), After);
  }

  /** A statement fires what it should, its due triggers and what their steps fire, if and only if
      there are none or the first trigger of its table is not on the stack. */
  lemma GateDecides(schema: Schema, busy: set<Trigger>, change: Change, table: string)
    requires schema.Valid()
    ensures Statement(schema, busy, change, table)
            == Fired(schema, busy, table, change, Before, 0) + Fired(schema, busy, table, change, After, 0)
            <==> (forall timing, i: nat :: !Due(schema, busy, table, change, timing, i))
                 || schema.triggers(table)[0] !in busy
    ensures schema.triggers(table) != [] && schema.triggers(table)[0] in busy ==>
              Statement(schema, busy, change, table) == []
  {
    hide Fired, Matches, Due;
    var x, y := Fired(schema, busy, table, change, Before, 0), Fired(schema, busy, table, change, After, 0);
    FiredEmpty(schema, busy, table, change, Before, 0);
    FiredEmpty(schema, busy, table, change, After, 0);
    if schema.triggers(table) != [] && schema.triggers(table)[0] !in busy {
      if !TriggersExist(schema, busy, table, change, Before) { NoneExist(schema, busy, table, change, Before); }
      if !TriggersExist(schema, busy, table, change, After) { NoneExist(schema, busy, table, change, After); }
      assert x + [] == x && [] + y == y;
    } else {
      assert Statement(schema, busy, change, table) == [];
      assert x + y == [] <==> x == [] && y == [];
      if x == [] && y == [] {
        forall timing, i: nat ensures !Due(schema, busy, table, change, timing, i) {
          assert timing == Before || timing == After;
        }
      }
      if schema.triggers(table) == [] { NoneDue(schema, busy, table, change); }
    }
  }

  lemma NoneExist(schema: Schema, busy: set<Trigger>, table: string, change: Change, timing: Timing)
    requires schema.Valid() && !TriggersExist(schema, busy, table, change, timing)
    requires schema.triggers(table) != [] && schema.triggers(table)[0] !in busy
    ensures Fired(schema, busy, table, change, timing, 0) == []
  {
    FiredEmpty(schema, busy, table, change, timing, 0);
  }

  lemma NoneDue(schema: Schema, busy: set<Trigger>, table: string, change: Change)
    requires schema.triggers(table) == []
    ensures forall timing, i: nat :: !Due(schema, busy, table, change, timing, i)
  {
  }

  class Parser {
    const schema: Schema
    var trigStack: seq<Trigger>
    var nTab: nat
    /** Deepest nesting so far, and the bodies coded. */
    var deepest: nat
    var coded: seq<string>

    ghost predicate Valid()
      reads this
    {
      && schema.Valid() && NoRepeats(trigStack) && OnStack(trigStack) <= schema.all
      && |trigStack| <= deepest <= |schema.all|
    }

    constructor (schema: Schema)
      requires schema.Valid()
      ensures this.schema == schema && Valid() && trigStack == [] && coded == []
    {
      this.schema := schema;
      trigStack, nTab, deepest, coded := [], 0, 0, [];
    }

    /** What every expansion keeps: the stack and the depth bound. Code is added at the end. */
    twostate predicate Restored(added: seq<string>)
      reads this
    {
      Valid() && trigStack == old(trigStack) && deepest >= old(deepest) && coded == old(coded) + added
    }

    ghost function Busy(): set<Trigger>
      reads this
    {
      OnStack(trigStack)
    }

    ghost function Room(): set<Trigger>
      reads this
    {
      schema.all - OnStack(trigStack)
    }

    /** The walk along the trigger stack. */
    method IsFree(trigger: Trigger) returns (free: bool)
      ensures free == (trigger !in Busy())
    {
      free := true;
      var k := 0;
      while k < |trigStack|
        invariant 0 <= k <= |trigStack| && free == (trigger !in trigStack[..k])
      {
        if trigStack[k] == trigger {
          free := false;
        }
        k := k + 1;
      }
      assert trigStack[..k] == trigStack;
    }

    /** __check_column_overlap. */
    static method CheckColumnOverlap(columns: seq<string>, sets: seq<string>) returns (overlap: bool)
      ensures overlap <==> exists c :: c in sets && c in columns
    {
      for e := 0 to |sets|
        invariant forall k :: 0 <= k < e ==> sets[k] !in columns
      {
        if sets[e] in columns {
          return true;
        }
      }
      return false;
    }

    /** __triggers_exist. */
    method AnyTrigger(table: string, change: Change, timing: Timing) returns (any: bool)
      ensures any == TriggersExist(schema, Busy(), table, change, timing)
    {
      var ts := schema.triggers(table);
      for i := 0 to |ts|
        invariant forall k :: 0 <= k < i ==> !(Matches(ts[k], change, timing) && ts[0] !in Busy())
      {
        if ts[i].event == change.event && ts[i].timing == timing && ts[i].forEachRow {
          var overlap := true;
          if change.event == Update && ts[i].columns.Some? {
            overlap := CheckColumnOverlap(ts[i].columns.value, change.sets);
          }
          if overlap {
            var free := IsFree(ts[0]);
            if free {
              return true;
            }
          }
        }
      }
      return false;
    }

    /** One trigger: its program runs with it on the stack. */
    method Fire(trigger: Trigger)
      requires Valid() && trigger in schema.all && trigger !in Busy()
      modifies this
      ensures Restored([trigger.name] + Program(schema, old(Busy()) + {trigger}, trigger.steps, 0)) && nTab == old(nTab)
      decreases |Room()|, 1
    {
      hide Program, NoRepeats, OnStack;
      ghost var stack, busy := trigStack, Busy();
      Push(trigger);
      assert trigger in schema.all - busy && trigger !in schema.all - (busy + {trigger});
      SmallerSet(schema.all - (busy + {trigger}), schema.all - busy);
      CodeTriggerProgram(trigger.steps);
      assert trigStack[1..] == stack;
      trigStack := trigStack[1..];
    }

    /** __code_row_trigger: every matching trigger of the table that is not being expanded already. */
    method CodeRowTrigger(table: string, change: Change, timing: Timing)
      requires Valid()
      modifies this
      ensures Restored(Fired(schema, old(Busy()), table, change, timing, 0)) && nTab == old(nTab)
      decreases |Room()|, 2
    {
      hide Fired, Program, Statement;
      var triggers := schema.triggers(table);
      var i := 0;
      ghost var all, busy := Fired(schema, Busy(), table, change, timing, 0), Busy();
      while i < |triggers|
        invariant 0 <= i <= |triggers| && nTab == old(nTab) && Valid()
        invariant trigStack == old(trigStack) && deepest >= old(deepest)
        invariant coded + Fired(schema, busy, table, change, timing, i) == old(coded) + all
      {
        FiredNext(schema, busy, table, change, timing, i);
        ghost var before := coded;
        var trigger := triggers[i];
        var fireThis := false;
        if trigger.event == change.event && trigger.timing == timing && trigger.forEachRow {
          fireThis := IsFree(trigger);
          if change.event == Update && trigger.columns.Some? {
            var overlap := CheckColumnOverlap(trigger.columns.value, change.sets);
            if !overlap {
              fireThis := false;
            }
          }
        }
        ghost var rest := Fired(schema, busy, table, change, timing, i + 1);
        if fireThis {
          Fire(trigger);
          assert coded + rest == before + ([trigger.name] + Program(schema, busy + {trigger}, trigger.steps, 0) + rest);
        } else {
          assert [] + rest == rest;
        }
        i := i + 1;
      }
      NoneFired(schema, busy, table, change, timing);
      assert coded + [] == coded;
    }

    method Push(trigger: Trigger)
      requires Valid() && trigger in schema.all && trigger !in Busy()
      modifies this
      ensures Valid() && trigStack == [trigger] + old(trigStack) && nTab == old(nTab) && deepest >= old(deepest)
      ensures coded == old(coded) + [trigger.name] && OnStack(trigStack) == old(OnStack(trigStack)) + {trigger}
    {
      trigStack := [trigger] + trigStack;
      coded := coded + [trigger.name];
      StackSize(trigStack);
      assert OnStack(trigStack) == old(OnStack(trigStack)) + {trigger};
      SubsetSize(OnStack(trigStack), schema.all);
      if |trigStack| > deepest {
        deepest := |trigStack|;
      }
    }

    /** __code_trigger_program: each step with its own cursors, given back afterwards. */
    method CodeTriggerProgram(steps: seq<Step>)
      requires Valid()
      modifies this
      ensures Restored(Program(schema, old(Busy()), steps, 0)) && nTab == old(nTab)
      decreases |Room()|, 4, |steps|
    {
      hide Fired, Statement, Program;
      var i := 0;
      ghost var all, busy := Program(schema, Busy(), steps, 0), Busy();
      while i < |steps|
        invariant 0 <= i <= |steps| && nTab == old(nTab) && Valid()
        invariant trigStack == old(trigStack) && deepest >= old(deepest)
        invariant coded + Program(schema, busy, steps, i) == old(coded) + all
      {
        ghost var before, rest := coded, Program(schema, busy, steps, i + 1);
        ProgramNext(schema, busy, steps, i);
        var saveNTab := nTab;
        if steps[i].Step? {
          CodeStatement(steps[i].change, steps[i].table);
        }
        nTab := saveNTab;
        i := i + 1;
        assert coded + rest == before + (coded[|before|..] + rest);
      }
      ProgramEnds(schema, busy, steps);
      assert coded + [] == coded;
    }

    /** INSERT, UPDATE or DELETE inside a trigger: it uses cursors and fires its own triggers. */
    method CodeStatement(change: Change, table: string)
      requires Valid()
      modifies this
      ensures Restored(Statement(schema, old(Busy()), change, table))
      decreases |Room()|, 3
    {
      hide Fired, Program, Matches;
      var before := AnyTrigger(table, change, Before);
      var after := AnyTrigger(table, change, After);
      if before || after {
        nTab := nTab + if change.event == Update then 2 else 1;
      }
      nTab := nTab + 1;
      if before || (after && change.event != Insert) {
        CodeRowTrigger(table, change, Before);
      }
      if before || after {
        CodeRowTrigger(table, change, After);
      }
    }
  }

  lemma ProgramNext(schema: Schema, busy: set<Trigger>, steps: seq<Step>, i: nat)
    requires schema.Valid() && i < |steps|
    ensures Program(schema, busy, steps, i)
            == (if steps[i].Step? then Statement(schema, busy, steps[i].change, steps[i].table) else [])
               + Program(schema, busy, steps, i + 1)
  {
    hide Statement;
  }

  lemma ProgramEnds(schema: Schema, busy: set<Trigger>, steps: seq<Step>)
    requires schema.Valid()
    ensures Program(schema, busy, steps, |steps|) == []
  {
  }

  lemma FiredNext(schema: Schema, busy: set<Trigger>, table: string, change: Change, timing: Timing, i: nat)
    requires schema.Valid() && i < |schema.triggers(table)|
    ensures var t := schema.triggers(table)[i];
            Fired(schema, busy, table, change, timing, i)
            == (if Matches(t, change, timing) && t !in busy then [t.name] + Program(schema, busy + {t}, t.steps, 0)
                else [])
               + Fired(schema, busy, table, change, timing, i + 1)
  {
  }

  lemma NoneFired(schema: Schema, busy: set<Trigger>, table: string, change: Change, timing: Timing)
    requires schema.Valid()
    ensures Fired(schema, busy, table, change, timing, |schema.triggers(table)|) == []
  {
  }

  /** Two AFTER INSERT triggers of table t, of which the first inserts into t again. */
  function TwoTriggers(): seq<Trigger> {
    [Trigger("a", Insert, After, true, None, [Step(Change(Insert, []), "t")]),
     Trigger("b", Insert, After, true, None, [])]
  }

  /** While the first one is being expanded the second is due for the nested INSERT, and is not coded:
      an INSERT into t codes a and b once each, where it should code b for the nested INSERT too. */
  lemma HeadHidesOthers() returns (schema: Schema)
    ensures schema.Valid() && schema.triggers("t") == TwoTriggers()
    ensures var change, a := Change(Insert, []), TwoTriggers()[0];
            && Statement(schema, {}, change, "t") == ["a", "b"]
            && Fired(schema, {a}, "t", change, After, 0) == ["b"] && Statement(schema, {a}, change, "t") == []
  {
    var ts := TwoTriggers();
    schema := Schema(t => if t == "t" then TwoTriggers() else [], {ts[0], ts[1]});
    var change, a, b := Change(Insert, []), ts[0], ts[1];
    GateDecides(schema, {a}, change, "t");
    FiredNext(schema, {a}, "t", change, After, 0);
    FiredNext(schema, {a}, "t", change, After, 1);
    FiredNext(schema, {}, "t", change, After, 0);
    FiredNext(schema, {}, "t", change, After, 1);
    assert Program(schema, {a}, a.steps, 1) == [];
    assert Program(schema, {} + {a}, a.steps, 0) == [] + [];
    FiredEmpty(schema, {}, "t", change, Before, 0);
    assert Matches(schema.triggers("t")[0], change, After);
  }

  lemma SmallerSet(x: set<Trigger>, y: set<Trigger>)
    requires x < y
    ensures |x| < |y|
  {
    assert y == x + (y - x) && y - x != {};
  }
}
