/** The text of CREATE TABLE as it is written to the master table, and reading it back. */
module TablePrinter {
  import opened Scanners

  /** `isKeyword` stands for the keyword table. */
  predicate NeedsQuote(isKeyword: string -> bool, ident: string) {
    (exists j :: 0 <= j < |ident| && !IsIdChar(ident[j])) || (ident != [] && IsDigit(ident[0])) || isKeyword(ident)
  }

  function Doubled(s: string): string {
    if s == [] then [] else (if s[0] == '\'' then "''" else [s[0]]) + Doubled(s[1..])
  }

  function Written(isKeyword: string -> bool, ident: string): string {
    if NeedsQuote(isKeyword, ident) then "'" + Doubled(ident) + "'" else Doubled(ident)
  }

  function Quotes(s: string): nat {
    if s == [] then 0 else Quotes(s[..|s| - 1]) + if s[|s| - 1] == '\'' then 1 else 0
  }

  lemma {:induction false} DoubledConcat(s: string, t: string)
    ensures Doubled(s + t) == Doubled(s) + Doubled(t)
  {
    if s == [] {
      assert s + t == t;
    } else {
      hide Doubled;
      var h, r := if s[0] == '\'' then "''" else [s[0]], s[1..];
      assert Doubled(s + t) == h + Doubled(r + t) by {
        DoubledUnfolds(s + t);
        assert (s + t)[1..] == r + t;
      }
      assert Doubled(s) == h + Doubled(r) by { DoubledUnfolds(s); }
      DoubledConcat(r, t);
      ConcatAssociates(h, Doubled(r), Doubled(t));
    }
  }

  lemma ConcatAssociates(a: string, b: string, c: string)
    ensures a + (b + c) == a + b + c
  {
  }

  lemma {:induction false} DoubledLength(s: string)
    ensures |Doubled(s)| == |s| + Quotes(s)
  {
    if s != [] {
      var n := |s| - 1;
      DoubledLength(s[..n]);
      DoubledConcat(s[..n], [s[n]]);
      assert s == s[..n] + [s[n]] && Doubled([s[n]][1..]) == [];
    }
  }

  /** __ident_length: counts two quotes only if the name itself holds one. */
  method IdentLength(z: string) returns (n: nat)
    ensures n == |z| + Quotes(z) + if Quotes(z) > 0 then 2 else 0
  {
    var needQuote, i := 0, 0;
    n := 0;
    while i < |z|
      invariant 0 <= i <= |z| && n == i + Quotes(z[..i]) && needQuote == if Quotes(z[..i]) > 0 then 1 else 0
    {
      assert z[..i + 1][..i] == z[..i];
      if z[i] == '\'' {
        n := n + 1;
        needQuote := 1;
      }
      n := n + 1;
      i := i + 1;
    }
    assert z[..i] == z;
    n := n + needQuote * 2;
  }

  function LengthOf(z: string): nat { |z| + Quotes(z) + if Quotes(z) > 0 then 2 else 0 }

  /** The count is exact, or two short for a name that is quoted without holding a quote. */
  lemma WrittenFits(isKeyword: string -> bool, z: string)
    ensures |Written(isKeyword, z)| == LengthOf(z) + if NeedsQuote(isKeyword, z) && Quotes(z) == 0 then 2 else 0
  {
    DoubledLength(z);
    if Quotes(z) > 0 {
      var j := SomeQuote(z);
      assert !IsIdChar(z[j]);
    }
  }

  lemma {:induction false} SomeQuote(z: string) returns (j: nat)
    requires Quotes(z) > 0
    ensures j < |z| && z[j] == '\''
  {
    var n := |z| - 1;
    if z[n] == '\'' { j := n; } else { j := SomeQuote(z[..n]); }
  }

  /** A name the count is too short for. */
  lemma CountTooShort(isKeyword: string -> bool)
    ensures LengthOf("1") == 1 && |Written(isKeyword, "1")| == 3
  {
    DoubledLength("1");
    assert "1"[..0] == [];
  }

  /** strcpy, NUL included. */
  method Put(buffer: array<char>, at: nat, s: string) returns (next: nat)
    requires at + |s| < buffer.Length
    modifies buffer
    ensures next == at + |s| && buffer[..next] == old(buffer[..at]) + s && buffer[next] == '\0'
  {
    next := at;
    var i := 0;
    while i < |s|
      invariant 0 <= i <= |s| && next == at + i && buffer[..next] == old(buffer[..at]) + s[..i]
    {
      buffer[next] := s[i];
      next := next + 1;
      i := i + 1;
      assert s[..i] == s[..i - 1] + [s[i - 1]];
    }
    buffer[next] := '\0';
    assert s[..i] == s;
  }

  method PutOne(buffer: array<char>, at: nat, c: char) returns (next: nat)
    requires at < buffer.Length
    modifies buffer
    ensures next == at + 1 && buffer[..next] == old(buffer[..at]) + [c]
  {
    buffer[at] := c;
    next := at + 1;
  }

  method QuoteNeeded(isKeyword: string -> bool, ident: string) returns (needQuote: bool)
    ensures needQuote == NeedsQuote(isKeyword, ident)
  {
    var j := 0;
    while j < |ident| && IsIdChar(ident[j])
      invariant 0 <= j <= |ident| && forall k :: 0 <= k < j ==> IsIdChar(ident[k])
    {
      j := j + 1;
    }
    assert j == |ident| ==> ident[..j] == ident;
    needQuote := j < |ident| || (ident != [] && IsDigit(ident[0])) || isKeyword(ident[..j]);
  }

  method PutDoubled(buffer: array<char>, at: nat, ident: string) returns (i: nat)
    requires at + |Doubled(ident)| <= buffer.Length
    modifies buffer
    ensures i == at + |Doubled(ident)| && buffer[..i] == old(buffer[..at]) + Doubled(ident)
  {
    hide Doubled;
    i := at;
    var j := 0;
    NothingDoubled();
    assert ident[..0] == [];
    while j < |ident|
      invariant 0 <= j <= |ident| && i == at + |Doubled(ident[..j])| && i + |Doubled(ident[j..])| <= buffer.Length
      invariant buffer[..i] == old(buffer[..at]) + Doubled(ident[..j])
    {
      DoubledNext(ident, j);
      i := PutOne(buffer, i, ident[j]);
      if ident[j] == '\'' {
        i := PutOne(buffer, i, '\'');
      }
      j := j + 1;
    }
    assert ident[..j] == ident;
  }

  lemma NothingDoubled()
    ensures Doubled([]) == []
  {
  }

  /** __ident_put. */
  method IdentPut(isKeyword: string -> bool, buffer: array<char>, idx: nat, ident: string) returns (i: nat)
    requires idx + |Written(isKeyword, ident)| < buffer.Length
    modifies buffer
    ensures i == idx + |Written(isKeyword, ident)| && buffer[..i] == old(buffer[..idx]) + Written(isKeyword, ident)
            && buffer[i] == '\0'
  {
    hide Doubled, NeedsQuote, Written;
    WrittenParts(isKeyword, ident);
    var needQuote := QuoteNeeded(isKeyword, ident);
    i := idx;
    ghost var start := buffer[..idx];
    if needQuote {
      i := PutOne(buffer, i, '\'');
    }
    i := PutDoubled(buffer, i, ident);
    assert buffer[..i] == start + (if needQuote then "'" else "") + Doubled(ident);
    if needQuote {
      i := PutOne(buffer, i, '\'');
    }
    ghost var text := buffer[..i];
    assert text == start + Written(isKeyword, ident);
    buffer[i] := '\0';
    assert buffer[..i] == text;
  }

  lemma WrittenParts(isKeyword: string -> bool, z: string)
    ensures var quote := if NeedsQuote(isKeyword, z) then "'" else "";
            Written(isKeyword, z) == quote + Doubled(z) + quote
  {
  }

  lemma DoubledNext(s: string, j: nat)
    requires j < |s|
    ensures Doubled(s[..j + 1]) == Doubled(s[..j]) + (if s[j] == '\'' then "''" else [s[j]])
    ensures |Doubled(s[j..])| == (if s[j] == '\'' then 2 else 1) + |Doubled(s[j + 1..])|
    ensures Doubled(s[..0]) == [] && s[0..] == s
  {
    DoubledConcat(s[..j], [s[j]]);
    assert s[..j + 1] == s[..j] + [s[j]] && Doubled([s[j]][1..]) == [];
    assert s[j..][1..] == s[j + 1..];
  }

  // The statement.

  datatype Layout = Layout(sep: string, sep2: string, end: string)

  function LayoutFor(n: nat): Layout {
    if n < 40 then Layout("", ",", ")") else Layout("\n  ", ",\n  ", "\n)")
  }

  function TotalLength(cols: seq<string>): nat {
    if cols == [] then 0 else TotalLength(cols[..|cols| - 1]) + LengthOf(cols[|cols| - 1])
  }

  /** The columns with their separators. */
  function Body(isKeyword: string -> bool, l: Layout, cols: seq<string>): string {
    if cols == [] then []
    else
      var n := |cols| - 1;
      Body(isKeyword, l, cols[..n]) + (if n == 0 then l.sep else l.sep2) + Written(isKeyword, cols[n])
  }

  function Head(temp: bool): string { if temp then "CREATE TEMP TABLE " else "CREATE TABLE " }

  function Statement(isKeyword: string -> bool, temp: bool, name: string, cols: seq<string>): string {
    var l := LayoutFor(TotalLength(cols) + LengthOf(name));
    Head(temp) + Written(isKeyword, name) + "(" + Body(isKeyword, l, cols) + l.end
  }

  method TotalSize(name: string, cols: seq<string>) returns (n: nat)
    ensures n == TotalLength(cols) + LengthOf(name)
  {
    var i := 0;
    n := 0;
    while i < |cols|
      invariant 0 <= i <= |cols| && n == TotalLength(cols[..i])
    {
      assert cols[..i + 1][..i] == cols[..i];
      var m := IdentLength(cols[i]);
      n := n + m;
      i := i + 1;
    }
    assert cols[..i] == cols;
    var m := IdentLength(name);
    n := n + m;
  }

  method PutColumns(isKeyword: string -> bool, l: Layout, stmt: array<char>, at: nat, cols: seq<string>)
    returns (k: nat)
    requires at + TotalLength(cols) + 6 * |cols| < stmt.Length && |l.sep| <= 4 && |l.sep2| <= 4 && stmt[at] == '\0'
    modifies stmt
    ensures k <= at + TotalLength(cols) + 6 * |cols| && stmt[..k] == old(stmt[..at]) + Body(isKeyword, l, cols)
  {
    hide Written, LengthOf, Body, TotalLength;
    var i, sep := 0, l.sep;
    k := at;
    NoBody(isKeyword, l);
    assert cols[..0] == [];
    while i < |cols|
      invariant 0 <= i <= |cols| && sep == (if i == 0 then l.sep else l.sep2)
      invariant k <= at + TotalLength(cols[..i]) + 6 * i && k < stmt.Length
      invariant stmt[..k] == old(stmt[..at]) + Body(isKeyword, l, cols[..i])
    {
      LengthsGrow(cols, i + 1);
      NextLength(cols, i);
      WrittenFits(isKeyword, cols[i]);
      BodyNext(isKeyword, l, cols, i);
      ghost var before := stmt[..k];
      k := Put(stmt, k, sep);
      sep := l.sep2;
      k := IdentPut(isKeyword, stmt, k, cols[i]);
      i := i + 1;
    }
    assert cols[..i] == cols;
  }

  /** __gen_create_table_stmt: the computed size is enough, although the lengths may be short. */
  method GenCreateTableStmt(isKeyword: string -> bool, temp: bool, name: string, cols: seq<string>)
    returns (stmt: array<char>, k: nat)
    ensures k < stmt.Length && (if temp then "CREATE TEMP TABLE " else "CREATE TABLE ") <= stmt[..k]
    ensures stmt[..k] == Statement(isKeyword, temp, name, cols) && stmt[k] == '\0'
  {
    hide Written, Quotes, Body, LengthOf, TotalLength;
    var n := TotalSize(name, cols);
    var l := LayoutFor(n);
    n := n + 35 + 6 * |cols|;
    stmt := new char[n](_ => '\0');
    WrittenFits(isKeyword, name);
    k := Put(stmt, 0, Head(temp));
    assert stmt[..0] == [] && stmt[..k] == Head(temp);
    k := IdentPut(isKeyword, stmt, k, name);
    k := Put(stmt, k, "(");
    k := PutColumns(isKeyword, l, stmt, k, cols);
    k := Put(stmt, k, l.end);
  }

  lemma NextLength(cols: seq<string>, i: nat)
    requires i < |cols|
    ensures TotalLength(cols[..i + 1]) == TotalLength(cols[..i]) + LengthOf(cols[i]) && TotalLength([]) == 0
  {
    assert cols[..i + 1][..i] == cols[..i];
  }

  lemma NoBody(isKeyword: string -> bool, l: Layout)
    ensures Body(isKeyword, l, []) == []
  {
  }

  /** The statement is on one line if the names are short, and has a line for each column otherwise. */
  lemma TwoColumns(isKeyword: string -> bool, temp: bool, name: string, x: string, y: string)
    ensures var w := s => Written(isKeyword, s);
            Statement(isKeyword, temp, name, [x, y])
            == (if temp then "CREATE TEMP TABLE " else "CREATE TABLE ") + w(name)
               + (if LengthOf(x) + LengthOf(y) + LengthOf(name) < 40 then "(" + w(x) + "," + w(y) + ")"
                  else "(\n  " + w(x) + ",\n  " + w(y) + "\n)")
  {
    hide Written, LengthOf, Body;
    var n := LengthOf(x) + LengthOf(y) + LengthOf(name);
    TwoLengths(x, y);
    TwoNames(isKeyword, LayoutFor(n), x, y);
    var a, b := Written(isKeyword, x), Written(isKeyword, y);
    assert "(" + ("" + a + "," + b) + ")" == "(" + a + "," + b + ")";
    assert "(" + ("\n  " + a + ",\n  " + b) + "\n)" == "(\n  " + a + ",\n  " + b + "\n)";
  }

  lemma TwoLengths(x: string, y: string)
    ensures TotalLength([x, y]) == LengthOf(x) + LengthOf(y)
  {
    hide LengthOf;
    NextLength([x, y], 0);
    NextLength([x, y], 1);
    assert [x, y][..0] == [] && [x, y][..1] == [x] && [x, y][..2] == [x, y];
  }

  lemma TwoNames(isKeyword: string -> bool, l: Layout, x: string, y: string)
    ensures Body(isKeyword, l, [x, y]) == l.sep + Written(isKeyword, x) + l.sep2 + Written(isKeyword, y)
  {
    hide Written;
    NoBody(isKeyword, l);
    BodyNext(isKeyword, l, [x, y], 0);
    BodyNext(isKeyword, l, [x, y], 1);
    assert [x, y][..0] == [] && [x, y][..2] == [x, y];
  }

  lemma BodyNext(isKeyword: string -> bool, l: Layout, cols: seq<string>, i: nat)
    requires i < |cols|
    ensures Body(isKeyword, l, cols[..i + 1])
            == Body(isKeyword, l, cols[..i]) + (if i == 0 then l.sep else l.sep2) + Written(isKeyword, cols[i])
  {
    assert cols[..i + 1][..i] == cols[..i];
  }

  lemma {:induction false} LengthsGrow(cols: seq<string>, i: nat)
    requires i <= |cols|
    ensures TotalLength(cols[..i]) <= TotalLength(cols)
    decreases |cols| - i
  {
    if i == |cols| {
      assert cols[..i] == cols;
    } else {
      assert cols[..i + 1][..i] == cols[..i];
      LengthsGrow(cols, i + 1);
    }
  }

  // Reading back.

  /** __str_unquote on a token: the content up to the closing quote. */
  function UnquoteFrom(z: string, i: nat, quote: char): string
    requires i <= |z|
    decreases |z| - i
  {
    if i == |z| then []
    else if z[i] != quote then [z[i]] + UnquoteFrom(z, i + 1, quote)
    else if i + 1 < |z| && z[i + 1] == quote then [quote] + UnquoteFrom(z, i + 2, quote)
    else []
  }

  function Unquote(z: string): string {
    if z == [] then z
    else if z[0] == '\'' || z[0] == '"' then UnquoteFrom(z, 1, z[0])
    else if z[0] == '[' then UnquoteFrom(z, 1, ']')
    else z
  }

  predicate Stands(z: string, i: nat, s: string) { i + |s| <= |z| && z[i..i + |s|] == s }

  lemma {:induction false} UnquoteDoubled(z: string, i: nat, s: string)
    requires Stands(z, i, Doubled(s)) && i + |Doubled(s)| + 1 == |z| && z[|z| - 1] == '\''
    ensures UnquoteFrom(z, i, '\'') == s
    decreases |s|
  {
    if s == [] {
    } else {
      var n := if s[0] == '\'' then 2 else 1;
      StandsTail(z, i, s);
      UnquoteDoubled(z, i + n, s[1..]);
      assert s == [s[0]] + s[1..];
    }
  }

  /** What stands at the first character of a doubled string, and after it. */
  lemma StandsTail(z: string, i: nat, s: string)
    requires s != [] && Stands(z, i, Doubled(s))
    ensures var n := if s[0] == '\'' then 2 else 1;
            && |Doubled(s)| == n + |Doubled(s[1..])| && i + n <= |z| && Stands(z, i + n, Doubled(s[1..]))
            && z[i] == s[0] && (n == 2 ==> z[i + 1] == '\'')
  {
    hide Doubled;
    var head := if s[0] == '\'' then "''" else [s[0]];
    DoubledUnfolds(s);
    StandsSplit(z, i, head, Doubled(s[1..]));
  }

  lemma DoubledUnfolds(s: string)
    requires s != []
    ensures Doubled(s) == (if s[0] == '\'' then "''" else [s[0]]) + Doubled(s[1..])
  {
  }

  lemma StandsSplit(z: string, i: nat, s: string, t: string)
    requires Stands(z, i, s + t)
    ensures Stands(z, i + |s|, t) && forall j :: 0 <= j < |s| ==> z[i + j] == s[j]
  {
    Within(z, i, s + t, |s|, |s + t|);
    assert (s + t)[|s|..|s + t|] == t;
    forall j | 0 <= j < |s| ensures z[i + j] == s[j] {
      assert z[i..i + |s + t|][j] == (s + t)[j];
    }
  }

  lemma {:induction false} QuoteEndDoubled(z: string, i: nat, s: string)
    requires Stands(z, i, Doubled(s)) && At(z, i + |Doubled(s)|) == '\'' && At(z, i + |Doubled(s)| + 1) != '\''
    ensures QuoteEnd(z, i, '\'') == i + |Doubled(s)|
    decreases |s|
  {
    if s != [] {
      var n := if s[0] == '\'' then 2 else 1;
      StandsTail(z, i, s);
      QuoteEndDoubled(z, i + n, s[1..]);
    }
  }

  lemma {:induction false} DoubledPlain(s: string)
    requires '\'' !in s
    ensures Doubled(s) == s
  {
    if s != [] {
      DoubledPlain(s[1..]);
      assert s == [s[0]] + s[1..];
    }
  }

  /** A written name, with something after it that cannot belong to it, is one token that unquotes
      to the name, and a word only if it is no keyword. */
  lemma NameReadsBack(isKeyword: string -> bool, z: string, i: nat, name: string)
    requires name != [] && i < |z| && Stands(z, i, Written(isKeyword, name))
    requires var next := At(z, i + |Written(isKeyword, name)|); !IsIdChar(next) && next != '\''
    ensures var t, w := NextToken(z, i), Written(isKeyword, name);
            && t.end == i + |w| && Unquote(z[i..t.end]) == name
            && (t.kind == TkString || (t.kind == TkWord && !isKeyword(name)))
  {
    hide Doubled, Run, QuoteEnd, UnquoteFrom, FindClose, Find, NumberToken, OperatorToken;
    var w := Written(isKeyword, name);
    var d := Doubled(name);
    if NeedsQuote(isKeyword, name) {
      Within(z, i, w, 0, 1);
      Within(z, i, w, 1, 1 + |d|);
      Within(z, i, w, 1 + |d|, 2 + |d|);
      assert w[0..1] == "'" && w[1..1 + |d|] == d && w[1 + |d|..2 + |d|] == "'";
      assert z[i] == z[i..i + 1][0] && z[i + 1 + |d|] == z[i + 1 + |d|..i + 2 + |d|][0];
      QuoteEndDoubled(z, i + 1, name);
      UnquoteDoubled(w, 1, name);
    } else {
      DoubledPlain(name);
      WordEnd(z, i, name);
      assert z[i] == z[i..i + |w|][0] == name[0];
    }
  }

  lemma Within(z: string, i: nat, w: string, a: nat, b: nat)
    requires Stands(z, i, w) && a <= b <= |w|
    ensures z[i + a..i + b] == w[a..b]
  {
    forall j | 0 <= j < b - a ensures z[i + a..i + b][j] == w[a..b][j] {
      assert z[i..i + |w|][a + j] == w[a + j];
    }
  }

  lemma WordEnd(z: string, i: nat, name: string)
    requires name != [] && Stands(z, i, name) && (forall j :: 0 <= j < |name| ==> IsIdChar(name[j]))
             && !IsIdChar(At(z, i + |name|))
    ensures i < |z| && Run(z, i + 1, IsIdChar) == i + |name|
  {
    forall k | i <= k < i + |name| ensures IsIdChar(z[k]) {
      assert z[k] == z[i..i + |name|][k - i];
    }
  }

  /** The columns from number `i` on, where others precede them. */
  function Rest(isKeyword: string -> bool, l: Layout, cols: seq<string>, i: nat): string
    requires i <= |cols|
    decreases |cols| - i
  {
    if i == |cols| then [] else l.sep2 + Written(isKeyword, cols[i]) + Rest(isKeyword, l, cols, i + 1)
  }

  lemma {:induction false} BodyRest(isKeyword: string -> bool, l: Layout, cols: seq<string>, i: nat)
    requires 1 <= i <= |cols|
    ensures Body(isKeyword, l, cols) == Body(isKeyword, l, cols[..i]) + Rest(isKeyword, l, cols, i)
    decreases |cols| - i
  {
    hide Body, Written;
    if i == |cols| {
      assert cols[..i] == cols;
    } else {
      BodyRest(isKeyword, l, cols, i + 1);
      BodyNext(isKeyword, l, cols, i);
    }
  }

  /** Where a column's name begins. */
  function NameAt(isKeyword: string -> bool, temp: bool, name: string, cols: seq<string>, i: nat): nat
    requires i < |cols|
  {
    var l := LayoutFor(TotalLength(cols) + LengthOf(name));
    |Head(temp)| + |Written(isKeyword, name)| + 1 + |Body(isKeyword, l, cols[..i])| + |if i == 0 then l.sep else l.sep2|
  }

  /** The text `w` at position `a` is one token that unquotes to `name`. */
  predicate ReadsBack(z: string, a: nat, w: string, name: string) {
    a < |z| && Stands(z, a, w) && NextToken(z, a).end == a + |w| && Unquote(w) == name
  }

  lemma PieceReadsBack(isKeyword: string -> bool, pre: string, name: string, post: string)
    requires name != [] && post != [] && (post[0] == ',' || post[0] == ')' || post[0] == '\n' || post[0] == '(')
    ensures var w := Written(isKeyword, name); ReadsBack(pre + w + post, |pre|, w, name)
  {
    hide Written, Unquote, NextToken;
    var w := Written(isKeyword, name);
    WrittenNotEmpty(isKeyword, name);
    Placed(pre, w, post);
    NameReadsBack(isKeyword, pre + w + post, |pre|, name);
  }

  lemma StatementSplit(isKeyword: string -> bool, temp: bool, name: string, cols: seq<string>, i: nat)
    requires i < |cols|
    ensures var l := LayoutFor(TotalLength(cols) + LengthOf(name));
            var pre := Head(temp) + Written(isKeyword, name) + "(" + Body(isKeyword, l, cols[..i])
                       + (if i == 0 then l.sep else l.sep2);
            && Statement(isKeyword, temp, name, cols)
            == pre + Written(isKeyword, cols[i]) + (Rest(isKeyword, l, cols, i + 1) + l.end)
            && |pre| == NameAt(isKeyword, temp, name, cols, i)
  {
    hide Body, Written, LengthOf, TotalLength, Rest, LayoutFor, Head;
    var l := LayoutFor(TotalLength(cols) + LengthOf(name));
    BodyRest(isKeyword, l, cols, i + 1);
    BodyNext(isKeyword, l, cols, i);
    Regroup(Head(temp) + Written(isKeyword, name) + "(", Body(isKeyword, l, cols[..i]),
            if i == 0 then l.sep else l.sep2,
            Written(isKeyword, cols[i]), Rest(isKeyword, l, cols, i + 1), l.end);
  }

  lemma Regroup(a: string, b: string, c: string, d: string, e: string, f: string)
    ensures a + (b + c + d + e) + f == a + b + c + d + (e + f)
  {
  }

  /** Every name in the generated statement is one token of the scanner and unquotes to the name. */
  lemma StatementReadsBack(isKeyword: string -> bool, temp: bool, name: string, cols: seq<string>, i: nat)
    requires name != [] && i < |cols| && cols[i] != []
    ensures var z := Statement(isKeyword, temp, name, cols);
            && ReadsBack(z, |Head(temp)|, Written(isKeyword, name), name)
            && ReadsBack(z, NameAt(isKeyword, temp, name, cols, i), Written(isKeyword, cols[i]), cols[i])
  {
    hide Body, Written, LengthOf, TotalLength, Rest, Head, ReadsBack, NameAt;
    var l := LayoutFor(TotalLength(cols) + LengthOf(name));
    var post := "(" + Body(isKeyword, l, cols) + l.end;
    PieceReadsBack(isKeyword, Head(temp), name, post);
    assert Statement(isKeyword, temp, name, cols) == Head(temp) + Written(isKeyword, name) + post;
    StatementSplit(isKeyword, temp, name, cols, i);
    RestStarts(isKeyword, l, cols, i + 1);
    PieceReadsBack(isKeyword,
                   Head(temp) + Written(isKeyword, name) + "(" + Body(isKeyword, l, cols[..i])
                     + (if i == 0 then l.sep else l.sep2),
                   cols[i], Rest(isKeyword, l, cols, i + 1) + l.end);
  }

  lemma Placed(pre: string, w: string, post: string)
    requires post != [] && w != []
    ensures Stands(pre + w + post, |pre|, w) && At(pre + w + post, |pre| + |w|) == post[0] && |pre| < |pre + w + post|
    ensures pre + w + post == pre + (w + post)
  {
  }

  lemma WrittenNotEmpty(isKeyword: string -> bool, name: string)
    requires name != []
    ensures Written(isKeyword, name) != []
  {
  }

  lemma RestStarts(isKeyword: string -> bool, l: Layout, cols: seq<string>, i: nat)
    requires 1 <= i <= |cols| && (l == LayoutFor(0) || l == LayoutFor(40))
    ensures var post := Rest(isKeyword, l, cols, i) + l.end;
            post != [] && (post[0] == ',' || post[0] == ')' || post[0] == '\n')
  {
  }
}
