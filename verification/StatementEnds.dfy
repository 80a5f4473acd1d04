/** Where a statement ends, told by its words: what the table of dbsql_complete_stmt recognises. */
module StatementEnds {
  import opened Scanners

  /** The state after the classes, from state `s`. */
  function After(s: State, ts: seq<Class>): State
    decreases |ts|
  {
    if ts == [] then s else Next(After(s, ts[..|ts| - 1]), ts[|ts| - 1])
  }

  ghost predicate Ends(ts: seq<Class>, w: seq<Class>) { |w| <= |ts| && ts[|ts| - |w|..] == w }

  /** CREATE, perhaps after EXPLAIN, and then any number of TEMP. */
  ghost predicate Creates(ts: seq<Class>) {
    exists k: nat :: k <= 1 && k < |ts| && (k == 1 ==> ts[0] == Explain) && ts[k] == Create
                     && forall j :: k < j < |ts| ==> ts[j] == Temp
  }

  /** The first words are those of CREATE TRIGGER. */
  ghost predicate MakesTrigger(ts: seq<Class>) {
    exists n: nat :: n < |ts| && Creates(ts[..n]) && ts[n] == Trigger
  }

  lemma AfterNext(s: State, ts: seq<Class>, t: Class)
    ensures After(s, ts + [t]) == Next(After(s, ts), t)
  {
    assert (ts + [t])[..|ts|] == ts;
  }

  /** White space and comments do not matter. */
  lemma BlanksDrop(s: State, ts: seq<Class>)
    ensures After(s, ts + [Blank]) == After(s, ts)
  {
    AfterNext(s, ts, Blank);
    OtherAbsorbs(After(s, ts));
  }

  lemma {:induction false} Heading(ts: seq<Class>)
    requires Semi !in ts && Blank !in ts
    ensures After(0, ts) == 0 <==> ts == []
    ensures After(0, ts) == 1 <==> ts == [Explain]
    ensures After(0, ts) == 2 <==> Creates(ts)
    ensures After(0, ts) == 4 <==> MakesTrigger(ts)
    ensures After(0, ts) in {0, 1, 2, 3, 4}
    decreases |ts|
  {
    if ts != [] {
      var n := |ts| - 1;
      Heading(ts[..n]);
      CreatesMore(ts);
      MakesMore(ts);
      assert ts == ts[..n] + [ts[n]];
    }
  }

  lemma CreatesMore(ts: seq<Class>)
    requires ts != []
    ensures var n := |ts| - 1;
            Creates(ts)
            <==> (ts[n] == Create && (ts[..n] == [] || ts[..n] == [Explain])) || (ts[n] == Temp && Creates(ts[..n]))
  {
    var n := |ts| - 1;
    if Creates(ts) {
      var k: nat :| k <= 1 && k < |ts| && (k == 1 ==> ts[0] == Explain) && ts[k] == Create
                    && forall j :: k < j < |ts| ==> ts[j] == Temp;
      if k < n { assert ts[..n][k] == Create; }
    }
    if ts[n] == Create && (ts[..n] == [] || ts[..n] == [Explain]) {
      assert n == 1 ==> ts[..n][0] == Explain;
      assert ts[n] == Create;
    }
    if ts[n] == Temp && Creates(ts[..n]) {
      var k: nat :| k <= 1 && k < n && (k == 1 ==> ts[..n][0] == Explain) && ts[..n][k] == Create
                    && forall j :: k < j < n ==> ts[..n][j] == Temp;
      assert ts[k] == Create && forall j :: k < j < |ts| ==> ts[j] == Temp;
    }
  }

  lemma MakesMore(ts: seq<Class>)
    requires ts != []
    ensures var n := |ts| - 1; MakesTrigger(ts) <==> MakesTrigger(ts[..n]) || (Creates(ts[..n]) && ts[n] == Trigger)
  {
    hide Creates;
    var n := |ts| - 1;
    if MakesTrigger(ts) {
      var k: nat :| k < |ts| && Creates(ts[..k]) && ts[k] == Trigger;
      if k < n { assert ts[..n][..k] == ts[..k] && ts[..n][k] == Trigger; }
    }
    if MakesTrigger(ts[..n]) {
      var k: nat :| k < n && Creates(ts[..n][..k]) && ts[..n][k] == Trigger;
      assert ts[..n][..k] == ts[..k];
    }
  }

  /** A semicolon ends every statement other than CREATE TRIGGER; nothing else ends one. */
  lemma PlainEnds(ts: seq<Class>)
    requires Semi !in ts && Blank !in ts
    ensures After(0, ts + [Semi]) == 0 <==> !MakesTrigger(ts)
    ensures After(0, ts) == 0 <==> ts == []
  {
    hide MakesTrigger, Creates;
    Heading(ts);
    AfterNext(0, ts, Semi);
  }

  /** CREATE TRIGGER ends with the first END between two semicolons. */
  lemma {:induction false} TriggerEnds(head: seq<Class>, ts: seq<Class>)
    requires Semi !in head && Blank !in head && MakesTrigger(head) && Blank !in ts
    requires forall n: nat :: n < |ts| ==> !Ends(ts[..n], [Semi, End, Semi])
    ensures After(0, head + ts) == 0 <==> Ends(ts, [Semi, End, Semi])
    ensures After(0, head + ts) == 6 <==> Ends(ts, [Semi, End])
    ensures After(0, head + ts) == 5 <==> Ends(ts, [Semi]) && !Ends(ts, [Semi, End, Semi])
    ensures After(0, head + ts) in {0, 4, 5, 6}
    decreases |ts|
  {
    hide MakesTrigger, Ends, After, Next;
    if ts == [] {
      assert head + ts == head;
      Heading(head);
      EndsNothing();
    } else {
      var n := |ts| - 1;
      assert forall m: nat :: m < n ==> ts[..n][..m] == ts[..m];
      TriggerEnds(head, ts[..n]);
      assert head + ts == (head + ts[..n]) + [ts[n]];
      AfterNext(0, head + ts[..n], ts[n]);
      TriggerStep(After(0, head + ts[..n]), ts[n]);
      EndsSemi(ts);
      EndsMore(ts, End, [Semi]);
      EndsMore(ts, Semi, [Semi, End]);
      assert [Semi] + [End] == [Semi, End] && [Semi, End] + [Semi] == [Semi, End, Semi];
      EndsOnce(ts[..n]);
    }
  }

  lemma EndsMore(ts: seq<Class>, t: Class, w: seq<Class>)
    requires ts != []
    ensures Ends(ts, w + [t]) <==> Ends(ts[..|ts| - 1], w) && ts[|ts| - 1] == t
  {
    var n := |ts| - 1;
    if |w| <= n {
      assert ts[|ts| - |w + [t]|..] == ts[..n][n - |w|..] + [ts[n]];
      assert (w + [t])[|w|] == t && (w + [t])[..|w|] == w;
    }
  }

  lemma EndsSemi(ts: seq<Class>)
    requires ts != []
    ensures Ends(ts, [Semi]) <==> ts[|ts| - 1] == Semi
  {
  }

  lemma EndsOnce(ts: seq<Class>)
    ensures !(Ends(ts, [Semi]) && Ends(ts, [Semi, End]))
  {
    if Ends(ts, [Semi, End]) { assert ts[|ts| - 2..][1] == ts[|ts| - 1]; }
  }

  lemma EndsNothing()
    ensures !Ends([], [Semi]) && !Ends([], [Semi, End]) && !Ends([], [Semi, End, Semi])
  {
  }

  lemma TriggerStep(s: State, t: Class)
    requires s in {4, 5, 6} && t != Blank
    ensures Next(s, t) == if t == Semi then (if s == 6 then 0 else 5) else if s == 5 && t == End then 6 else 4
  {
  }
}
