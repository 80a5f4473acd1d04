/** The SQL scanner and the second scanner inside dbsql_complete_stmt, which splits strings,
    numbers and operators differently, and why both see the same statement ends. */
module Scanners {

  // Characters. Text is NUL-terminated ASCII: reading past the end gives NUL.

  function At(z: string, i: nat): char { if i < |z| then z[i] else '\0' }

  predicate IsDigit(c: char) { '0' <= c <= '9' }
  predicate IsIdChar(c: char) { IsDigit(c) || 'A' <= c <= 'Z' || c == '_' || 'a' <= c <= 'z' }

  /** The five characters both scanners start white space with. */
  predicate IsBlank(c: char) { c == ' ' || c == '\t' || c == '\n' || c == 12 as char || c == '\r' }

  /** isspace() also accepts the vertical tab. */
  predicate IsSpace(c: char) { IsBlank(c) || c == 11 as char }

  predicate IsText(z: string) { forall i :: 0 <= i < |z| ==> 0 as char < z[i] < 128 as char }

  /** The first position from `i` on where `p` fails, or the end. */
  function Run(z: string, i: nat, p: char -> bool): (j: nat)
    requires i <= |z|
    ensures i <= j <= |z| && (forall k :: i <= k < j ==> p(z[k])) && (j < |z| ==> !p(z[j]))
    decreases |z| - i
  {
    if i < |z| && p(z[i]) then Run(z, i + 1, p) else i
  }

  function Find(z: string, i: nat, c: char): (j: nat)
    requires i <= |z|
    ensures i <= j <= |z| && (forall k :: i <= k < j ==> z[k] != c) && (j < |z| ==> z[j] == c)
    decreases |z| - i
  {
    if i == |z| || z[i] == c then i else Find(z, i + 1, c)
  }

  /** The star of the first star-slash from `i` on, or the end. */
  function FindClose(z: string, i: nat): (j: nat)
    requires i <= |z|
    ensures i <= j <= |z| && (j < |z| ==> z[j] == '*' && At(z, j + 1) == '/')
    ensures forall k :: i <= k < j ==> !(z[k] == '*' && At(z, k + 1) == '/')
    decreases |z| - i
  {
    if i == |z| || (z[i] == '*' && At(z, i + 1) == '/') then i else FindClose(z, i + 1)
  }

  function LowerChar(c: char): char { if 'A' <= c <= 'Z' then (c as int + 32) as char else c }
  function Lower(w: string): string { seq(|w|, i requires 0 <= i < |w| => LowerChar(w[i])) }

  // The automaton.

  datatype Class = Explain | Create | Temp | Trigger | End | Semi | Blank | Other

  function Column(t: Class): (k: nat)
    ensures k < 8
  {
    match t
    case Explain => 0
    case Create => 1
    case Temp => 2
    case Trigger => 3
    case End => 4
    case Semi => 5
    case Blank => 6
    case Other => 7
  }

  const TRANS := [
    [1, 2, 3, 3, 3, 0, 0, 3],
    [3, 2, 3, 3, 3, 0, 1, 3],
    [3, 3, 2, 4, 3, 0, 2, 3],
    [3, 3, 3, 3, 3, 0, 3, 3],
    [4, 4, 4, 4, 4, 5, 4, 4],
    [4, 4, 4, 4, 6, 5, 5, 4],
    [4, 4, 4, 4, 4, 0, 6, 4]]

  type State = s: nat | s < 7

  function Next(s: State, t: Class): State { TRANS[s][Column(t)] }

  /** In the middle of a statement or a trigger only a semicolon matters. */
  predicate Absorbing(s: State) { s == 3 || s == 4 }

  lemma OtherAbsorbs(s: State)
    ensures Absorbing(Next(s, Other)) && Next(Next(s, Other), Other) == Next(s, Other)
    ensures Absorbing(s) ==> forall t: Class :: t != Semi ==> Next(s, t) == s
    ensures Next(s, Blank) == s
  {
  }

  /** The keyword table's view of a word: only these keywords matter here. */
  function KeywordClass(w: string): Class {
    var l := Lower(w);
    if l == "explain" then Explain
    else if l == "create" then Create
    else if l == "temp" || l == "temporary" then Temp
    else if l == "trigger" then Trigger
    else if l == "end" then End
    else Other
  }

  /** The test on the first letter, the length and the rest of the word. */
  function WordClass(w: string): Class
    requires w != []
  {
    var c, nid := w[0], |w|;
    if c == 'c' || c == 'C' then if nid == 6 && Lower(w) == "create" then Create else Other
    else if c == 't' || c == 'T' then
      if nid == 7 && Lower(w) == "trigger" then Trigger
      else if nid == 4 && Lower(w) == "temp" then Temp
      else if nid == 9 && Lower(w) == "temporary" then Temp
      else Other
    else if c == 'e' || c == 'E' then
      if nid == 3 && Lower(w) == "end" then End
      else if nid == 7 && Lower(w) == "explain" then Explain
      else Other
    else Other
  }

  lemma WordsAgree(w: string)
    requires w != [] && forall i :: 0 <= i < |w| ==> w[i] < 128 as char
    ensures WordClass(w) == KeywordClass(w)
  {
    var l := Lower(w);
    assert |l| == |w| && l[0] == LowerChar(w[0]);
    assert |"explain"| == 7 && |"create"| == 6 && |"temp"| == 4 && |"temporary"| == 9 && |"trigger"| == 7
           && |"end"| == 3;
    assert "explain"[0] == 'e' && "create"[0] == 'c' && "temp"[0] == 't' && "temporary"[0] == 't'
           && "trigger"[0] == 't' && "end"[0] == 'e';
  }

  /** Each letter of a keyword stands for itself and for its capital, 32 places before it. */
  lemma CaseIgnored(w: string, l: string)
    requires forall i :: 0 <= i < |l| ==> 'a' <= l[i] <= 'z'
    ensures Lower(w) == l
            <==> |w| == |l| && forall i :: 0 <= i < |w| ==> w[i] == l[i] || w[i] as int + 32 == l[i] as int
  {
    if Lower(w) == l {
      forall i | 0 <= i < |w| ensures w[i] == l[i] || w[i] as int + 32 == l[i] as int {
        assert Lower(w)[i] == LowerChar(w[i]);
      }
    }
  }

  // dbsql_complete_stmt.

  /** What it answers from position `i` in state `s`. */
  function Complete(z: string, i: nat, s: State): bool
    requires i <= |z|
    decreases |z| - i
  {
    if i == |z| then s == 0
    else
      var c := z[i];
      if c == ';' then Complete(z, i + 1, Next(s, Semi))
      else if IsBlank(c) then Complete(z, i + 1, Next(s, Blank))
      else if c == '/' && At(z, i + 1) == '*' then
        var k := FindClose(z, i + 2);
        k < |z| && Complete(z, k + 2, Next(s, Blank))
      else if c == '-' && At(z, i + 1) == '-' then
        var k := Find(z, i, '\n');
        if k == |z| then s == 0 else Complete(z, k + 1, Next(s, Blank))
      else if c == '[' then
        var k := Find(z, i + 1, ']');
        k < |z| && Complete(z, k + 1, Next(s, Other))
      else if c == '"' || c == '\'' then
        var k := Find(z, i + 1, c);
        k < |z| && Complete(z, k + 1, Next(s, Other))
      else if IsIdChar(c) then
        var k := Run(z, i + 1, IsIdChar);
        Complete(z, k, Next(s, WordClass(z[i..k])))
      else Complete(z, i + 1, Next(s, Other))
  }

  method SkipTo(z: string, i: nat, c: char) returns (k: nat)
    requires i <= |z|
    ensures k == Find(z, i, c)
  {
    k := i;
    while k < |z| && z[k] != c
      invariant i <= k <= |z| && Find(z, k, c) == Find(z, i, c)
    {
      k := k + 1;
    }
  }

  method SkipComment(z: string, i: nat) returns (k: nat)
    requires i <= |z|
    ensures k == FindClose(z, i)
  {
    k := i;
    while k < |z| && (z[k] != '*' || At(z, k + 1) != '/')
      invariant i <= k <= |z| && FindClose(z, k) == FindClose(z, i)
    {
      k := k + 1;
    }
  }

  method SkipRun(z: string, i: nat, p: char -> bool) returns (k: nat)
    requires i <= |z| && !p('\0')
    ensures k == Run(z, i, p)
  {
    k := i;
    while p(At(z, k))
      invariant i <= k <= |z| && Run(z, k, p) == Run(z, i, p)
      decreases |z| - k
    {
      k := k + 1;
    }
  }

  /** One round of the loop: a class and the position after it, or the answer. */
  method CompleteStep(sql: string, i: nat, state: State) returns (answer: bool, done: bool, token: Class, next: nat)
    requires i < |sql|
    ensures done ==> Complete(sql, i, state) == answer
    ensures !done ==> i < next <= |sql| && Complete(sql, i, state) == Complete(sql, next, Next(state, token))
  {
    hide Next, WordClass, Run, FindClose, Find;
    var c := sql[i];
    answer, done, token, next := false, false, Other, i + 1;
    if c == ';' {
      token := Semi;
    } else if IsBlank(c) {
      token := Blank;
    } else if c == '/' && At(sql, i + 1) == '*' {
      var k := SkipComment(sql, i + 2);
      done, token, next := k == |sql|, Blank, k + 2;
    } else if c == '-' && At(sql, i + 1) == '-' {
      var k := SkipTo(sql, i, '\n');
      answer, done, token, next := state == 0, k == |sql|, Blank, k + 1;
    } else if c == '[' || c == '"' || c == '\'' {
      var k := SkipTo(sql, i + 1, if c == '[' then ']' else c);
      done, next := k == |sql|, k + 1;
    } else if IsIdChar(c) {
      next := SkipRun(sql, i + 1, IsIdChar);
      token := WordClass(sql[i..next]);
    }
  }

  method CompleteStmt(sql: string) returns (complete: bool)
    ensures complete == Complete(sql, 0, 0)
  {
    hide Complete, Next;
    var i: nat, state: State := 0, 0;
    while i < |sql|
      invariant i <= |sql| && Complete(sql, i, state) == Complete(sql, 0, 0)
      decreases |sql| - i
    {
      var answer, done, token, next := CompleteStep(sql, i, state);
      if done {
        return answer;
      }
      state := Next(state, token);
      i := next;
    }
    complete := state == 0;
    AtEnd(sql, state);
  }

  lemma AtEnd(z: string, s: State)
    ensures Complete(z, |z|, s) == (s == 0)
  {
  }

  // The scanner.

  datatype TokenType =
    | TkSpace | TkComment | TkMinus | TkLp | TkRp | TkSemi | TkPlus | TkStar | TkSlash | TkRem | TkEq
    | TkLe | TkNe | TkLshift | TkLt | TkGe | TkRshift | TkGt | TkBitor | TkConcat | TkComma | TkBitand | TkBitnot
    | TkString | TkDot | TkInteger | TkFloat | TkQuotedId | TkVariable | TkWord | TkIllegal

  datatype Token = Token(kind: TokenType, end: nat)

  /** The closing quote, or the end; a doubled quote is part of the string. */
  function QuoteEnd(z: string, i: nat, delim: char): (j: nat)
    requires i <= |z| && delim != '\0'
    ensures i <= j <= |z| && (j < |z| ==> z[j] == delim && At(z, j + 1) != delim)
    decreases |z| - i
  {
    if i == |z| then i
    else if z[i] != delim then QuoteEnd(z, i + 1, delim)
    else if At(z, i + 1) == delim then QuoteEnd(z, i + 2, delim)
    else i
  }

  function NumberToken(z: string, i: nat): (t: Token)
    requires i < |z|
    ensures i < t.end <= |z|
  {
    var a := Run(z, i + 1, IsDigit);
    var fraction := At(z, a) == '.' && IsDigit(At(z, a + 1));
    var b := if fraction then Run(z, a + 2, IsDigit) else a;
    var exponent := (At(z, b) == 'e' || At(z, b) == 'E')
                    && (IsDigit(At(z, b + 1))
                        || ((At(z, b + 1) == '+' || At(z, b + 1) == '-') && IsDigit(At(z, b + 2))));
    Token(if fraction || exponent then TkFloat else TkInteger, if exponent then Run(z, b + 2, IsDigit) else b)
  }

  /** Operators of one or two characters. */
  function OperatorToken(z: string, i: nat): Token
    requires i < |z|
  {
    var c, d := z[i], At(z, i + 1);
    match c
    case '-' => Token(TkMinus, i + 1)
    case '(' => Token(TkLp, i + 1)
    case ')' => Token(TkRp, i + 1)
    case ';' => Token(TkSemi, i + 1)
    case '+' => Token(TkPlus, i + 1)
    case '*' => Token(TkStar, i + 1)
    case '/' => Token(TkSlash, i + 1)
    case '%' => Token(TkRem, i + 1)
    case '=' => Token(TkEq, if d == '=' then i + 2 else i + 1)
    case '<' => if d == '=' then Token(TkLe, i + 2)
                else if d == '>' then Token(TkNe, i + 2)
                     else if d == '<' then Token(TkLshift, i + 2) else Token(TkLt, i + 1)
    case '>' => if d == '=' then Token(TkGe, i + 2) else if d == '>' then Token(TkRshift, i + 2) else Token(TkGt, i + 1)
    case '!' => if d != '=' then Token(TkIllegal, i + 2) else Token(TkNe, i + 2)
    case '|' => if d != '|' then Token(TkBitor, i + 1) else Token(TkConcat, i + 2)
    case ',' => Token(TkComma, i + 1)
    case '&' => Token(TkBitand, i + 1)
    case '~' => Token(TkBitnot, i + 1)
    case '.' => Token(TkDot, i + 1)
    case '?' => Token(TkVariable, i + 1)
    case _ => Token(TkIllegal, i + 1)
  }

  /** The token that begins at `i`. */
  function NextToken(z: string, i: nat): (t: Token)
    requires i < |z|
    ensures i < t.end
  {
    var c, d := z[i], At(z, i + 1);
    if IsBlank(c) then Token(TkSpace, Run(z, i + 1, IsSpace))
    else if c == '-' && d == '-' then Token(TkComment, Find(z, i + 2, '\n'))
    else if c == '/' && d == '*' && i + 2 < |z| then
      var k := FindClose(z, i + 2);
      Token(TkComment, if k < |z| then k + 2 else k)
    else if c == '\'' || c == '"' then
      var k := QuoteEnd(z, i + 1, c);
      Token(TkString, if k < |z| then k + 1 else k)
    else if IsDigit(c) then NumberToken(z, i)
    else if c == '[' then
      var k := Find(z, i + 1, ']');
      Token(TkQuotedId, if k < |z| then k + 1 else k)
    else if IsIdChar(c) then Token(TkWord, Run(z, i + 1, IsIdChar))
    else OperatorToken(z, i)
  }

  // What a token is, by its spelling.

  const OPERATORS := [
    ("-", TkMinus), ("(", TkLp), (")", TkRp), (";", TkSemi), ("+", TkPlus), ("*", TkStar), ("/", TkSlash),
    ("%", TkRem), ("=", TkEq), ("==", TkEq), ("<", TkLt), ("<=", TkLe), ("<>", TkNe), ("<<", TkLshift),
    (">", TkGt), (">=", TkGe), (">>", TkRshift), ("!=", TkNe), ("|", TkBitor), ("||", TkConcat), (",", TkComma),
    ("&", TkBitand), ("~", TkBitnot), (".", TkDot), ("?", TkVariable)]

  predicate Begins(z: string, i: nat, w: string) { i <= |z| && w <= z[i..] }

  predicate BeginsComment(z: string, i: nat) { Begins(z, i, "--") || (Begins(z, i, "/*") && i + 2 < |z|) }

  /** The longest operator that begins at `i` is number `k` of the list. */
  ghost predicate Spelled(z: string, i: nat, k: nat) {
    k < |OPERATORS| && Begins(z, i, OPERATORS[k].0)
    && forall j :: 0 <= j < |OPERATORS| && Begins(z, i, OPERATORS[j].0) ==> |OPERATORS[j].0| <= |OPERATORS[k].0|
  }

  lemma BeginsIs(z: string, i: nat, w: string)
    requires i < |z| && 1 <= |w| <= 2
    ensures Begins(z, i, w) <==> z[i] == w[0] && (|w| == 2 ==> i + 1 < |z| && z[i + 1] == w[1])
  {
    if |w| == 2 {
      if i + 1 < |z| { assert z[i..][..2] == [z[i], z[i + 1]]; }
      assert w == [w[0], w[1]];
    } else {
      assert w == [w[0]];
    }
  }

  /** Where an operator begins there is a longest one. */
  lemma SomeLongest(z: string, i: nat, j: nat) returns (k: nat)
    requires j < |OPERATORS| && Begins(z, i, OPERATORS[j].0)
    ensures Spelled(z, i, k)
  {
    OperatorLength(j);
    forall m | 0 <= m < |OPERATORS| ensures 1 <= |OPERATORS[m].0| <= 2 {
      OperatorLength(m);
    }
    if l :| 0 <= l < |OPERATORS| && Begins(z, i, OPERATORS[l].0) && |OPERATORS[l].0| == 2 {
      k := l;
    } else {
      k := j;
    }
  }

  lemma OperatorLength(k: nat)
    requires k < |OPERATORS|
    ensures 1 <= |OPERATORS[k].0| <= 2
  {
  }

  /** The scanner takes the longest operator. */
  lemma LongestOperator(z: string, i: nat, k: nat)
    requires i < |z| && Spelled(z, i, k) && !BeginsComment(z, i)
    ensures NextToken(z, i) == Token(OPERATORS[k].1, i + |OPERATORS[k].0|)
  {
    hide NextToken;
    BeginsIs(z, i, "--");
    BeginsIs(z, i, "/*");
    BeginsIs(z, i, OPERATORS[k].0);
    if |OPERATORS[k].0| == 1 {
      NoneLonger(z, i, k);
      ShortOperator(z, i, k);
    } else {
      LongOperator(z, i, k);
    }
  }

  lemma NoneLonger(z: string, i: nat, k: nat)
    requires i < |z| && Spelled(z, i, k) && |OPERATORS[k].0| == 1
    ensures i + 1 < |z| ==> [z[i], z[i + 1]] !in ["==", "<=", "<>", "<<", ">=", ">>", "!=", "||"]
  {
    if i + 1 < |z| {
      var w := [z[i], z[i + 1]];
      assert Begins(z, i, w) by { BeginsIs(z, i, w); }
      assert OPERATORS[9].0 == "==" && OPERATORS[11].0 == "<=" && OPERATORS[12].0 == "<>" && OPERATORS[13].0 == "<<";
      assert OPERATORS[15].0 == ">=" && OPERATORS[16].0 == ">>" && OPERATORS[17].0 == "!=" && OPERATORS[19].0 == "||";
    }
  }

  lemma ShortOperator(z: string, i: nat, k: nat)
    requires i < |z| && k < |OPERATORS| && OPERATORS[k].0 == [z[i]]
    requires !(z[i] == '-' && At(z, i + 1) == '-') && !(z[i] == '/' && At(z, i + 1) == '*' && i + 2 < |z|)
    requires i + 1 < |z| ==> [z[i], z[i + 1]] !in ["==", "<=", "<>", "<<", ">=", ">>", "!=", "||"]
    ensures NextToken(z, i) == Token(OPERATORS[k].1, i + 1)
  {
    hide Run, NumberToken;
  }

  lemma LongOperator(z: string, i: nat, k: nat)
    requires i + 1 < |z| && k < |OPERATORS| && OPERATORS[k].0 == [z[i], z[i + 1]]
    ensures NextToken(z, i) == Token(OPERATORS[k].1, i + 2)
  {
    hide Run, NumberToken;
  }

  /** Two operators are of one kind if they are spelled alike, or both mean equal, or both unequal. */
  lemma SameOperator(k: nat, l: nat)
    requires k < |OPERATORS| && l < |OPERATORS|
    ensures OPERATORS[k].1 == OPERATORS[l].1
            <==> OPERATORS[k].0 == OPERATORS[l].0
                 || (OPERATORS[k].0 in ["=", "=="] && OPERATORS[l].0 in ["=", "=="])
                 || (OPERATORS[k].0 in ["!=", "<>"] && OPERATORS[l].0 in ["!=", "<>"])
  {
    hide OPERATORS;
    OperatorListed(k);
    OperatorListed(l);
    if OPERATORS[k].1 == OPERATORS[l].1 { SameKind(OPERATORS[k].0, OPERATORS[l].0); }
  }

  lemma OperatorListed(k: nat)
    requires k < |OPERATORS|
    ensures |OPERATORS[k].0| > 0 && OPERATORS[k].1 != TkIllegal
    ensures OperatorToken(OPERATORS[k].0, 0) == Token(OPERATORS[k].1, |OPERATORS[k].0|)
  {
  }

  lemma SameKind(v: string, w: string)
    requires v != [] && w != [] && OperatorToken(v, 0).kind == OperatorToken(w, 0).kind != TkIllegal
    requires OperatorToken(v, 0).end == |v| && OperatorToken(w, 0).end == |w|
    ensures v == w || (v in ["=", "=="] && w in ["=", "=="]) || (v in ["!=", "<>"] && w in ["!=", "<>"])
  {
    Letters(v);
    Letters(w);
  }

  lemma Letters(w: string)
    requires 1 <= |w| <= 2
    ensures w == [w[0]] || (|w| == 2 && w == [w[0], w[1]])
  {
  }

  /** Everything else is told by the first character, or the first two. */
  lemma KindByStart(z: string, i: nat)
    requires i < |z|
    ensures var c, t := z[i], NextToken(z, i);
            && (t.kind == TkSpace <==> c in [' ', '\t', '\n', 12 as char, '\r'])
            && (t.kind == TkComment <==> BeginsComment(z, i))
            && (t.kind == TkString <==> c in ['"', '\''])
            && (t.kind == TkQuotedId <==> c == '[')
            && (t.kind in {TkInteger, TkFloat} <==> '0' <= c <= '9')
            && (t.kind == TkWord <==> 'A' <= c <= 'Z' || 'a' <= c <= 'z' || c == '_')
  {
    hide Run, QuoteEnd;
    BeginsIs(z, i, "--");
    BeginsIs(z, i, "/*");
  }

  lemma NoOperator(z: string, i: nat)
    requires i < |z| && forall k :: 0 <= k < |OPERATORS| ==> !Begins(z, i, OPERATORS[k].0)
    requires !IsBlank(z[i]) && !IsIdChar(z[i]) && z[i] !in ['"', '\'', '[']
    ensures NextToken(z, i) == Token(TkIllegal, if z[i] == '!' then i + 2 else i + 1)
  {
    hide Run, NumberToken, QuoteEnd, Begins;
    forall k | 0 <= k < |OPERATORS| && |OPERATORS[k].0| == 1 ensures z[i] != OPERATORS[k].0[0] {
      BeginsIs(z, i, OPERATORS[k].0);
    }
    BeginsIs(z, i, "!=");
    assert OPERATORS[17].0 == "!=";
    Singles(z[i]);
  }

  /** White space goes on over all characters isspace() accepts. */
  lemma SpaceEnds(z: string, i: nat)
    requires i < |z| && NextToken(z, i).kind == TkSpace
    ensures var t := NextToken(z, i);
            && t.end <= |z| && (forall k :: i <= k < t.end ==> z[k] in SPACES)
            && (t.end < |z| ==> z[t.end] !in SPACES)
  {
    hide OperatorToken, NumberToken, QuoteEnd, IsSpace, SPACES;
    KindByStart(z, i);
    var t := NextToken(z, i);
    assert t.end == Run(z, i + 1, IsSpace) && IsSpace(z[i]) by { FirstIsSpace(z, i); }
    forall c: char ensures IsSpace(c) <==> c in SPACES {
      SpaceIs(c);
    }
  }

  const SPACES := [' ', '\t', '\n', 11 as char, 12 as char, '\r']

  lemma SpaceIs(c: char)
    ensures IsSpace(c) <==> c in SPACES
  {
  }

  lemma FirstIsSpace(z: string, i: nat)
    requires i < |z| && IsBlank(z[i])
    ensures NextToken(z, i).end == Run(z, i + 1, IsSpace) && IsSpace(z[i])
  {
  }

  lemma Singles(c: char)
    requires forall k :: 0 <= k < |OPERATORS| && |OPERATORS[k].0| == 1 ==> c != OPERATORS[k].0[0]
    ensures c !in ['-', '(', ')', ';', '+', '*', '/', '%', '=', '<', '>', '|', ',', '&', '~', '.', '?']
  {
    assert OPERATORS[0].0 == "-" && OPERATORS[1].0 == "(" && OPERATORS[2].0 == ")" && OPERATORS[3].0 == ";";
    assert OPERATORS[4].0 == "+" && OPERATORS[5].0 == "*" && OPERATORS[6].0 == "/" && OPERATORS[7].0 == "%";
    assert OPERATORS[8].0 == "=" && OPERATORS[10].0 == "<" && OPERATORS[14].0 == ">" && OPERATORS[18].0 == "|";
    assert OPERATORS[20].0 == "," && OPERATORS[21].0 == "&" && OPERATORS[22].0 == "~" && OPERATORS[23].0 == ".";
    assert OPERATORS[24].0 == "?";
  }

  /** Digits up to `a`, a fraction up to `b`, an exponent: a float exactly with one of the last two. */
  lemma NumberIs(z: string, i: nat, a: nat, b: nat)
    requires i < a <= b <= |z| && !IsDigit(At(z, a)) && forall k :: i <= k < a ==> IsDigit(z[k])
    requires a < b ==> z[a] == '.' && a + 1 < b && !IsDigit(At(z, b)) && forall k :: a < k < b ==> IsDigit(z[k])
    requires a == b ==> !(At(z, a) == '.' && IsDigit(At(z, a + 1)))
    ensures var t, e := NextToken(z, i), At(z, b);
            var signed := At(z, b + 1) in ['+', '-'];
            var exponent := e in ['e', 'E'] && (IsDigit(At(z, b + 1)) || (signed && IsDigit(At(z, b + 2))));
            && t.kind == (if a < b || exponent then TkFloat else TkInteger)
            && (!exponent ==> t.end == b)
            && (exponent ==> b + 1 < t.end <= |z| && !IsDigit(At(z, t.end)) && forall k :: b + 2 <= k < t.end ==>
                  IsDigit(z[k]))
  {
    RunIs(z, i + 1, a);
    if a < b { RunIs(z, a + 2, b); }
  }

  lemma {:induction false} RunIs(z: string, i: nat, j: nat)
    requires i <= j <= |z| && !IsDigit(At(z, j)) && forall k :: i <= k < j ==> IsDigit(z[k])
    ensures Run(z, i, IsDigit) == j
  {
  }

  method SkipQuoted(z: string, i: nat, delim: char) returns (k: nat)
    requires i <= |z| && delim != '\0'
    ensures k == QuoteEnd(z, i, delim)
  {
    k := i;
    while k < |z|
      invariant i <= k <= |z| && QuoteEnd(z, k, delim) == QuoteEnd(z, i, delim)
      decreases |z| - k
    {
      if z[k] == delim {
        if At(z, k + 1) == delim {
          k := k + 1;
        } else {
          break;
        }
      }
      k := k + 1;
    }
  }

  method ScanNumber(z: string, start: nat) returns (t: Token)
    requires start < |z|
    ensures t == NumberToken(z, start)
  {
    hide Run;
    var kind := TkInteger;
    var i := SkipRun(z, start + 1, IsDigit);
    if At(z, i) == '.' && IsDigit(At(z, i + 1)) {
      i := SkipRun(z, i + 2, IsDigit);
      kind := TkFloat;
    }
    if (At(z, i) == 'e' || At(z, i) == 'E')
       && (IsDigit(At(z, i + 1)) || ((At(z, i + 1) == '+' || At(z, i + 1) == '-') && IsDigit(At(z, i + 2)))) {
      i := SkipRun(z, i + 2, IsDigit);
      kind := TkFloat;
    }
    t := Token(kind, i);
  }

  /** __get_token. The block comment is looked for from its slash, the bracket from its end. */
  method GetToken(z: string, start: nat) returns (t: Token)
    requires start < |z|
    ensures t == NextToken(z, start)
    ensures forall k: nat :: Spelled(z, start, k) && !BeginsComment(z, start) ==>
              t == Token(OPERATORS[k].1, start + |OPERATORS[k].0|)
  {
    hide OperatorToken, NumberToken;
    var c, i := z[start], start + 1;
    if IsBlank(c) {
      i := SkipRun(z, i, IsSpace);
      t := Token(TkSpace, i);
    } else if c == '-' && At(z, i) == '-' {
      i := SkipTo(z, start + 2, '\n');
      t := Token(TkComment, i);
    } else if c == '/' && At(z, i) == '*' && start + 2 < |z| {
      i := start + 3;
      while i < |z| && (z[i] != '/' || z[i - 1] != '*')
        invariant start + 3 <= i <= |z| && FindClose(z, i - 1) == FindClose(z, start + 2)
      {
        i := i + 1;
      }
      if i < |z| {
        i := i + 1;
      }
      t := Token(TkComment, i);
    } else if c == '\'' || c == '"' {
      i := SkipQuoted(z, i, c);
      if i < |z| {
        i := i + 1;
      }
      t := Token(TkString, i);
    } else if IsDigit(c) {
      t := ScanNumber(z, start);
    } else if c == '[' {
      while i < |z| && z[i - 1] != ']'
        invariant start < i <= |z| && (i == start + 1 || Find(z, i - 1, ']') == Find(z, start + 1, ']'))
      {
        i := i + 1;
      }
      t := Token(TkQuotedId, i);
    } else if IsIdChar(c) {
      i := SkipRun(z, i, IsIdChar);
      t := Token(TkWord, i);
    } else {
      t := OperatorToken(z, start);
    }
    forall k: nat | Spelled(z, start, k) && !BeginsComment(z, start)
      ensures t == Token(OPERATORS[k].1, start + |OPERATORS[k].0|)
    {
      LongestOperator(z, start, k);
    }
  }

  // The automaton over the token stream.

  function ClassOf(z: string, i: nat, t: Token): Class
    requires i <= t.end <= |z|
  {
    match t.kind
    case TkSpace => Blank
    case TkComment => Blank
    case TkSemi => Semi
    case TkWord => KeywordClass(z[i..t.end])
    case _ => Other
  }

  /** A block comment that runs into the end of the text. */
  predicate OpenComment(z: string, i: nat, t: Token)
    requires i < |z|
  {
    t.kind == TkComment && z[i] == '/' && FindClose(z, if i + 2 <= |z| then i + 2 else |z|) == |z|
  }

  /** Legal from `i` on: no exclamation mark without an equals sign, no vertical tab in white space. */
  ghost predicate Legal(z: string, i: nat)
    requires i <= |z|
    decreases |z| - i
  {
    i == |z|
    || (var t := NextToken(z, i);
        t.end <= |z| && !(z[i] == '!' && At(z, i + 1) != '=')
          && (t.kind == TkSpace ==> forall k :: i <= k < t.end ==> IsBlank(z[k]))
        && Legal(z, t.end))
  }

  /** The state after the last token, and whether that token is an open block comment. */
  ghost function Tokens(z: string, i: nat, s: State): (State, bool)
    requires i <= |z| && Legal(z, i)
    decreases |z| - i
  {
    if i == |z| then (s, false)
    else
      var t := NextToken(z, i);
      if OpenComment(z, i, t) then (s, true) else Tokens(z, t.end, Next(s, ClassOf(z, i, t)))
  }

  // The two agree.

  /** A character the second scanner passes over in the middle of a statement. */
  predicate Passive(z: string, k: nat)
    requires k < |z|
  {
    var c := z[k];
    c != ';' && !IsBlank(c) && !(c == '/' && At(z, k + 1) == '*') && !(c == '-' && At(z, k + 1) == '-')
    && c != '[' && c != '"' && c != '\''
  }

  lemma PassOver(z: string, k: nat, s: State)
    requires k < |z| && Passive(z, k) && Absorbing(s)
    ensures Complete(z, k, s) == Complete(z, k + 1, s)
  {
    OtherAbsorbs(s);
    if IsIdChar(z[k]) {
      var r := Run(z, k + 1, IsIdChar);
      assert Complete(z, k, s) == Complete(z, r, s);
      if k + 1 < r {
        assert Run(z, k + 2, IsIdChar) == r;
        assert Complete(z, k + 1, s) == Complete(z, r, s);
      }
    }
  }

  lemma {:induction false} PassOverAll(z: string, i: nat, j: nat, s: State)
    requires i <= j <= |z| && Absorbing(s) && forall k :: i <= k < j ==> Passive(z, k)
    ensures Complete(z, i, s) == Complete(z, j, s)
    decreases j - i
  {
    hide Complete;
    if i < j {
      PassOver(z, i, s);
      PassOverAll(z, i + 1, j, s);
    }
  }

  lemma {:induction false} BlanksSame(z: string, i: nat, j: nat, s: State)
    requires i <= j <= |z| && forall k :: i <= k < j ==> IsBlank(z[k])
    ensures Complete(z, i, s) == Complete(z, j, s)
    decreases j - i
  {
    OtherAbsorbs(s);
    if i < j { BlanksSame(z, i + 1, j, s); }
  }

  /** A string with doubled quotes is several strings to the second scanner. */
  lemma {:induction false} StringSame(z: string, i: nat, s: State, delim: char)
    requires i < |z| && z[i] == delim && (delim == '"' || delim == '\'')
    ensures var k := QuoteEnd(z, i + 1, delim);
            Complete(z, i, s) == Complete(z, if k < |z| then k + 1 else k, Next(s, Other))
    decreases |z| - i
  {
    hide Complete, Find, QuoteEnd;
    OtherAbsorbs(s);
    QuoteStep(z, i, s);
    AtEnd(z, Next(s, Other));
    var f := Find(z, i + 1, delim);
    FirstQuote(z, i + 1, delim);
    if f < |z| && At(z, f + 1) == delim {
      StringSame(z, f + 1, Next(s, Other), delim);
    }
  }

  lemma QuoteStep(z: string, i: nat, s: State)
    requires i < |z| && (z[i] == '"' || z[i] == '\'')
    ensures var f := Find(z, i + 1, z[i]); Complete(z, i, s) == (f < |z| && Complete(z, f + 1, Next(s, Other)))
  {
    hide Find;
  }

  lemma {:induction false} FirstQuote(z: string, i: nat, delim: char)
    requires i <= |z| && delim != '\0'
    ensures var f := Find(z, i, delim);
            QuoteEnd(z, i, delim) == if f < |z| && At(z, f + 1) == delim then QuoteEnd(z, f + 2, delim) else f
    decreases |z| - i
  {
    if i < |z| && z[i] != delim { FirstQuote(z, i + 1, delim); }
  }

  /** A number is a word and perhaps some operators to the second scanner, or ends inside one. */
  lemma NumberSame(z: string, i: nat, s: State)
    requires i < |z| && IsDigit(z[i])
    ensures Complete(z, i, s) == Complete(z, NumberToken(z, i).end, Next(s, Other))
  {
    hide Complete, NumberToken, Run;
    OtherAbsorbs(s);
    var r, t := Run(z, i + 1, IsIdChar), NumberToken(z, i).end;
    NumberWord(z, i, s);
    NumberPassive(z, i);
    if t <= r {
      PassOverAll(z, t, r, Next(s, Other));
    } else {
      PassOverAll(z, r, t, Next(s, Other));
    }
  }

  lemma NumberWord(z: string, i: nat, s: State)
    requires i < |z| && IsDigit(z[i])
    ensures Complete(z, i, s) == Complete(z, Run(z, i + 1, IsIdChar), Next(s, Other))
  {
    var r := Run(z, i + 1, IsIdChar);
    assert z[i..r][0] == z[i] && WordClass(z[i..r]) == Other;
  }

  lemma NumberPassive(z: string, i: nat)
    requires i < |z| && IsDigit(z[i])
    ensures forall k :: i <= k < NumberToken(z, i).end ==> Passive(z, k)
  {
    hide Run;
    var a := Run(z, i + 1, IsDigit);
    var fraction := At(z, a) == '.' && IsDigit(At(z, a + 1));
    var b := if fraction then Run(z, a + 2, IsDigit) else a;
    DigitsPassive(z, i, a);
    if fraction {
      DigitsPassive(z, a + 1, b);
    }
    var t := NumberToken(z, i).end;
    if b < t {
      assert IsIdChar(z[b]);
      DigitsPassive(z, b + 2, t);
    }
  }

  lemma DigitsPassive(z: string, i: nat, j: nat)
    requires i <= j <= |z| && forall k :: i <= k < j ==> IsDigit(z[k])
    ensures forall k :: i <= k < j ==> Passive(z, k)
  {
  }

  lemma OperatorSame(z: string, i: nat, s: State)
    requires i < |z| && !IsBlank(z[i]) && !IsIdChar(z[i]) && z[i] != '[' && z[i] != '"' && z[i] != '\''
    requires !(z[i] == '-' && At(z, i + 1) == '-') && !(z[i] == '/' && At(z, i + 1) == '*')
             && !(z[i] == '!' && At(z, i + 1) != '=')
    ensures var t := OperatorToken(z, i);
            t.end <= |z| && t.kind != TkSpace && t.kind != TkComment && t.kind != TkWord
            && Complete(z, i, s) == Complete(z, t.end, Next(s, if t.kind == TkSemi then Semi else Other))
  {
    OtherAbsorbs(s);
    var t := OperatorToken(z, i);
    if t.end == i + 2 {
      assert Complete(z, i, s) == Complete(z, i + 1, Next(s, Other));
      assert Passive(z, i + 1);
      PassOver(z, i + 1, Next(s, Other));
    }
  }

  lemma CommentSame(z: string, i: nat, s: State)
    requires i < |z| && NextToken(z, i).kind == TkComment
    ensures NextToken(z, i).end <= |z|
    ensures Complete(z, i, s) == if OpenComment(z, i, NextToken(z, i)) then false
                                 else Complete(z, NextToken(z, i).end, s)
  {
    hide Run, OperatorToken, NumberToken;
    OtherAbsorbs(s);
    IsAComment(z, i);
    if z[i] == '-' {
      var k := Find(z, i + 2, '\n');
      assert Find(z, i, '\n') == Find(z, i + 1, '\n') == k;
      if k < |z| { assert Complete(z, k, s) == Complete(z, k + 1, s); }
    }
  }

  lemma IsAComment(z: string, i: nat)
    requires i < |z| && NextToken(z, i).kind == TkComment
    ensures (z[i] == '-' && At(z, i + 1) == '-') || (z[i] == '/' && At(z, i + 1) == '*' && i + 2 < |z|)
    ensures NextToken(z, i).end
            == if z[i] == '-' then Find(z, i + 2, '\n')
               else var k := FindClose(z, i + 2); if k < |z| then k + 2 else k
  {
    hide Run;
  }

  /** One token of the scanner is one step, or several that come to the same. */
  lemma TokenSame(z: string, i: nat, s: State)
    requires IsText(z) && i < |z| && Legal(z, i)
    ensures var t := NextToken(z, i);
            Complete(z, i, s) == if OpenComment(z, i, t) then false else Complete(z, t.end, Next(s, ClassOf(z, i, t)))
  {
    hide Complete, OperatorToken, NumberToken, QuoteEnd, FindClose, Run, KeywordClass;
    var c, t := z[i], NextToken(z, i);
    OtherAbsorbs(s);
    if IsBlank(c) {
      BlanksSame(z, i, t.end, s);
    } else if t.kind == TkComment {
      CommentSame(z, i, s);
    } else if c == '\'' || c == '"' {
      StringSame(z, i, s, c);
    } else if IsDigit(c) {
      NumberSame(z, i, s);
      NumberKind(z, i);
    } else if c == '[' {
      BracketSame(z, i, s);
    } else if IsIdChar(c) {
      WordSame(z, i, s);
    } else if c == '/' && At(z, i + 1) == '*' {
      LastStar(z, i, s);
    } else {
      OperatorSame(z, i, s);
    }
  }

  lemma NumberKind(z: string, i: nat)
    requires i < |z|
    ensures NumberToken(z, i).kind == TkInteger || NumberToken(z, i).kind == TkFloat
  {
  }

  lemma BracketSame(z: string, i: nat, s: State)
    requires i < |z| && z[i] == '['
    ensures var k := Find(z, i + 1, ']'); Complete(z, i, s) == Complete(z, if k < |z| then k + 1 else k, Next(s, Other))
  {
    OtherAbsorbs(s);
  }

  lemma WordSame(z: string, i: nat, s: State)
    requires IsText(z) && i < |z| && IsIdChar(z[i])
    ensures var r := Run(z, i + 1, IsIdChar); Complete(z, i, s) == Complete(z, r, Next(s, KeywordClass(z[i..r])))
  {
    hide KeywordClass, WordClass, Next;
    WordsAgree(z[i..Run(z, i + 1, IsIdChar)]);
  }

  /** A slash and a star at the very end: two operators here, an open comment there. */
  lemma LastStar(z: string, i: nat, s: State)
    requires i + 2 == |z| && z[i] == '/' && z[i + 1] == '*'
    ensures Complete(z, i, s) == Complete(z, i + 1, Next(s, Other))
    ensures OperatorToken(z, i) == Token(TkSlash, i + 1)
  {
    OtherAbsorbs(s);
    assert Complete(z, i + 1, Next(s, Other)) == Complete(z, i + 2, Next(s, Other));
  }

  /** dbsql_complete_stmt answers yes exactly when the automaton over the scanner's tokens ends at
      the start of a statement and the text does not end inside a block comment. */
  lemma {:induction false} ScannersAgree(z: string, i: nat, s: State)
    requires IsText(z) && i <= |z| && Legal(z, i)
    ensures Complete(z, i, s) == (var (state, open) := Tokens(z, i, s); state == 0 && !open)
    decreases |z| - i
  {
    hide Complete, NextToken, ClassOf, OpenComment, Next;
    if i == |z| {
      AtEnd(z, s);
    } else {
      var t := NextToken(z, i);
      TokenSame(z, i, s);
      if !OpenComment(z, i, t) {
        ScannersAgree(z, t.end, Next(s, ClassOf(z, i, t)));
      }
    }
  }
}
