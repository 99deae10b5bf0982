/** The reader undoes the printer, whatever the strings contain. */
module SqlRoundTrip {
  import opened Common
  import opened SqlPrinter
  import opened SqlReader
  import Decimal

  /** Tokens in front of what is left to read. */
  function Ahead(ts: seq<Token>, more: Option<seq<Token>>): Option<seq<Token>> {
    match more case None => None case Some(us) => Some(ts + us)
  }

  lemma AheadTwice(ts: seq<Token>, us: seq<Token>, more: Option<seq<Token>>)
    ensures Ahead(ts, Ahead(us, more)) == Ahead(ts + us, more)
  {
    if more.Some? { assert ts + (us + more.value) == ts + us + more.value; }
  }

  predicate StartsWith(s: string, cs: set<char>) { s != "" && s[0] in cs }

  // ---------- Tokens ----------

  /** Doubling is undone by reading up to the closing quote. */
  lemma {:induction false} QuotedReadsBack(q: char, t: string, rest: string)
    requires !StartsWith(rest, {q})
    ensures ReadQuoted(q, Doubled(t, q) + [q] + rest) == Some((t, rest))
  {
    var s := Doubled(t, q) + [q] + rest;
    if t == "" {
      assert s == [q] + rest;
    } else {
      QuotedReadsBack(q, t[1..], rest);
      var inner := Doubled(t[1..], q) + [q] + rest;
      if t[0] == q {
        assert s == [q, q] + inner;
        assert s[2..] == inner;
      } else {
        assert s == [t[0]] + inner;
        assert s[1..] == inner;
      }
      assert [t[0]] + t[1..] == t;
    }
  }

  lemma LexIdentifier(name: string, rest: string)
    requires !StartsWith(rest, {'"'})
    ensures Lex(QuoteIdentifier(name) + rest) == if name == "" then None else Ahead([Ident(name)], Lex(rest))
  {
    var s := QuoteIdentifier(name) + rest;
    assert s[1..] == Doubled(name, '"') + ['"'] + rest;
    QuotedReadsBack('"', name, rest);
  }

  lemma LexString(t: string, rest: string)
    requires !StartsWith(rest, {'\''})
    ensures Lex(QuoteString(t) + rest) == Ahead([Text(t)], Lex(rest))
  {
    var s := QuoteString(t) + rest;
    assert s[1..] == Doubled(t, '\'') + ['\''] + rest;
    QuotedReadsBack('\'', t, rest);
  }

  lemma LexMark(c: char, rest: string)
    requires c in ['(', ')', ',', '.', ';', '-']
    ensures Lex([c] + rest) == Ahead([Mark(c)], Lex(rest))
  {
    assert ([c] + rest)[1..] == rest;
  }

  lemma LexBlank(c: char, rest: string)
    requires c == ' ' || c == '\n'
    ensures Lex([c] + rest) == Lex(rest)
  {
    assert ([c] + rest)[1..] == rest;
  }

  /** Neither a letter nor a digit. */
  predicate Breaks(rest: string) { rest != "" ==> !IsLetter(rest[0]) && !Decimal.IsDigit(rest[0]) }

  lemma {:induction false} RunStops(w: string, rest: string, digits: bool)
    requires Breaks(rest) && forall i | 0 <= i < |w| :: if digits then Decimal.IsDigit(w[i]) else IsLetter(w[i])
    ensures Run(w + rest, digits) == |w|
  {
    if w == "" {
      assert w + rest == rest;
    } else {
      RunStops(w[1..], rest, digits);
      assert (w + rest)[1..] == w[1..] + rest;
    }
  }

  lemma LexWord(w: string, rest: string)
    requires w != "" && Breaks(rest) && forall i | 0 <= i < |w| :: IsLetter(w[i])
    ensures Lex(w + rest) == Ahead([Word(w)], Lex(rest))
  {
    RunStops(w, rest, false);
    assert (w + rest)[0] == w[0];
    assert (w + rest)[..|w|] == w && (w + rest)[|w|..] == rest;
  }

  lemma LexDigits(n: nat, rest: string)
    requires Breaks(rest)
    ensures Lex(Decimal.PrintNat(n) + rest) == Ahead([Number(n)], Lex(rest))
  {
    var w := Decimal.PrintNat(n);
    RunStops(w, rest, true);
    Decimal.ValueOfPrint(n);
    assert (w + rest)[0] == w[0];
    assert (w + rest)[..|w|] == w && (w + rest)[|w|..] == rest;
  }

  // ---------- Values and identifiers ----------

  function ValueTokens(v: Value): seq<Token> {
    match v
    case Null => [Word("NULL")]
    case Bool(b) => [Word(if b then "TRUE" else "FALSE")]
    case Int(n) => if n < 0 then [Mark('-'), Number(-n)] else [Number(n)]
    case Str(s) => [Text(s)]
  }

  lemma SignInFront(digits: string, rest: string)
    ensures "-" + digits + rest == ['-'] + (digits + rest)
  {
  }

  lemma LexSigned(s: string, tokens: seq<Token>, n: nat, rest: string)
    requires Breaks(rest) && s == "-" + Decimal.PrintNat(n) && tokens == [Mark('-'), Number(n)]
    ensures Lex(s + rest) == Ahead(tokens, Lex(rest))
  {
    SignInFront(Decimal.PrintNat(n), rest);
    LexMark('-', Decimal.PrintNat(n) + rest);
    LexDigits(n, rest);
    AheadTwice([Mark('-')], [Number(n)], Lex(rest));
    assert [Mark('-')] + [Number(n)] == tokens;
  }

  lemma LexUnsigned(s: string, tokens: seq<Token>, n: nat, rest: string)
    requires Breaks(rest) && s == Decimal.PrintNat(n) && tokens == [Number(n)]
    ensures Lex(s + rest) == Ahead(tokens, Lex(rest))
  {
    LexDigits(n, rest);
  }

  lemma IntegerTokens(n: int)
    ensures n < 0 ==> Decimal.Print(n) == "-" + Decimal.PrintNat(-n)
    ensures n < 0 ==> ValueTokens(Int(n)) == [Mark('-'), Number(-n)]
    ensures n >= 0 ==> Decimal.Print(n) == Decimal.PrintNat(n) && ValueTokens(Int(n)) == [Number(n)]
  {
  }

  lemma LexInteger(n: int, rest: string)
    requires Breaks(rest)
    ensures Lex(Decimal.Print(n) + rest) == Ahead(ValueTokens(Int(n)), Lex(rest))
  {
    IntegerTokens(n);
    if n < 0 {
      LexSigned(Decimal.Print(n), ValueTokens(Int(n)), -n, rest);
    } else {
      LexUnsigned(Decimal.Print(n), ValueTokens(Int(n)), n, rest);
    }
  }

  lemma LexValue(v: Value, rest: string)
    requires StartsWith(rest, {',', ')'})
    ensures Lex(FormatValue(v) + rest) == Ahead(ValueTokens(v), Lex(rest))
  {
    match v
    case Null => LexWord("NULL", rest);
    case Bool(b) => LexWord(if b then "TRUE" else "FALSE", rest);
    case Str(s) => LexString(s, rest);
    case Int(n) => LexInteger(n, rest);
  }

  function ValuesTokens(values: seq<Value>): seq<Token> {
    if values == [] then []
    else if |values| == 1 then ValueTokens(values[0])
    else ValueTokens(values[0]) + [Mark(',')] + ValuesTokens(values[1..])
  }

  function IdentTokens(sep: char, names: seq<string>): seq<Token> {
    if names == [] then []
    else if |names| == 1 then [Ident(names[0])]
    else [Ident(names[0]), Mark(sep)] + IdentTokens(sep, names[1..])
  }

  /** The two separators of lists. */
  function Separator(sep: char): string { if sep == '.' then "." else ", " }

  lemma LexSeparator(sep: char, rest: string)
    requires sep == '.' || sep == ','
    ensures Lex(Separator(sep) + rest) == Ahead([Mark(sep)], Lex(rest))
  {
    if sep == '.' {
      LexMark('.', rest);
    } else {
      assert Separator(sep) + rest == [','] + ([' '] + rest);
      LexMark(',', [' '] + rest);
      LexBlank(' ', rest);
    }
  }

  lemma {:induction false} LexValues(values: seq<Value>, rest: string)
    requires values != [] && StartsWith(rest, {')'})
    ensures Lex(Join(Formatted(values), ", ") + rest) == Ahead(ValuesTokens(values), Lex(rest))
    decreases |values|
  {
    var parts := Formatted(values);
    if |values| == 1 {
      LexValue(values[0], rest);
    } else {
      var tail := Join(Formatted(values[1..]), ", ") + rest;
      JoinSplits(parts, ", ", Formatted(values[1..]), rest);
      LexValue(values[0], ", " + tail);
      LexSeparator(',', tail);
      LexValues(values[1..], rest);
      AheadTwice([Mark(',')], ValuesTokens(values[1..]), Lex(rest));
      AheadTwice(ValueTokens(values[0]), [Mark(',')] + ValuesTokens(values[1..]), Lex(rest));
      assert ValuesTokens(values) == ValueTokens(values[0]) + ([Mark(',')] + ValuesTokens(values[1..]));
    }
  }

  lemma JoinSplits(parts: seq<string>, sep: string, more: seq<string>, rest: string)
    requires |parts| > 1 && parts[1..] == more
    ensures Join(parts, sep) + rest == parts[0] + (sep + (Join(more, sep) + rest))
  {
  }

  /** Identifiers read back exactly when none of them is empty. */
  lemma {:induction false} LexIdents(sep: char, names: seq<string>, rest: string)
    requires names != [] && (sep == '.' || sep == ',') && StartsWith(rest, {')', ' '})
    ensures Lex(Join(Quoted(names), Separator(sep)) + rest)
         == if "" in names then None else Ahead(IdentTokens(sep, names), Lex(rest))
    decreases |names|
  {
    var parts := Quoted(names);
    if |names| == 1 {
      LexIdentifier(names[0], rest);
    } else {
      var tail := Join(Quoted(names[1..]), Separator(sep)) + rest;
      JoinSplits(parts, Separator(sep), Quoted(names[1..]), rest);
      LexIdentifier(names[0], Separator(sep) + tail);
      LexSeparator(sep, tail);
      LexIdents(sep, names[1..], rest);
      AheadTwice([Mark(sep)], IdentTokens(sep, names[1..]), Lex(rest));
      AheadTwice([Ident(names[0])], [Mark(sep)] + IdentTokens(sep, names[1..]), Lex(rest));
      assert IdentTokens(sep, names) == [Ident(names[0])] + ([Mark(sep)] + IdentTokens(sep, names[1..]));
      assert "" in names <==> names[0] == "" || "" in names[1..] by { assert names == [names[0]] + names[1..]; }
    }
  }

  // ---------- Statements ----------

  predicate AllNamed(table: string, names: seq<string>) { "" !in Split(table, '.') && "" !in names }

  const INTO := [Word("INSERT"), Word("INTO")]
  const VALUES := [Mark(')'), Word("VALUES"), Mark('(')]
  const END := [Mark(')'), Mark(';')]

  function StatementTokens(table: string, names: seq<string>, values: seq<Value>): seq<Token> {
    INTO + (IdentTokens('.', Split(table, '.'))
      + ([Mark('(')] + (IdentTokens(',', names) + (VALUES + (ValuesTokens(values) + END)))))
  }

  lemma LexInto(rest: string)
    ensures Lex("INSERT INTO " + rest) == Ahead(INTO, Lex(rest))
  {
    var s1 := [' '] + rest;
    var s2 := [' '] + ("INTO" + s1);
    assert "INSERT INTO " + rest == "INSERT" + s2;
    LexWord("INSERT", s2);
    LexBlank(' ', "INTO" + s1);
    LexWord("INTO", s1);
    LexBlank(' ', rest);
    AheadTwice([Word("INSERT")], [Word("INTO")], Lex(rest));
    assert INTO == [Word("INSERT")] + [Word("INTO")];
  }

  lemma LexValuesWord(rest: string)
    ensures Lex([' '] + ("VALUES" + ([' '] + (['('] + rest)))) == Ahead([Word("VALUES")], Ahead([Mark('(')], Lex(rest)))
  {
    var s1 := [' '] + (['('] + rest);
    LexBlank(' ', "VALUES" + s1);
    LexWord("VALUES", s1);
    LexBlank(' ', ['('] + rest);
    LexMark('(', rest);
  }

  lemma LexMiddle(rest: string)
    ensures Lex(") VALUES (" + rest) == Ahead(VALUES, Lex(rest))
  {
    var s2 := [' '] + ("VALUES" + ([' '] + (['('] + rest)));
    assert ") VALUES (" + rest == [')'] + s2;
    LexMark(')', s2);
    LexValuesWord(rest);
    assert [Word("VALUES")] + [Mark('(')] == [Word("VALUES"), Mark('(')];
    assert VALUES == [Mark(')')] + [Word("VALUES"), Mark('(')];
    AheadTwice([Word("VALUES")], [Mark('(')], Lex(rest));
    AheadTwice([Mark(')')], [Word("VALUES"), Mark('(')], Lex(rest));
  }

  lemma LexEnd(rest: string)
    ensures Lex(");" + rest) == Ahead(END, Lex(rest))
  {
    assert ");" + rest == [')'] + ([';'] + rest);
    LexMark(')', [';'] + rest);
    LexMark(';', rest);
    AheadTwice([Mark(')')], [Mark(';')], Lex(rest));
    assert END == [Mark(')')] + [Mark(';')];
  }

  /** From the values on. */
  lemma LexTail(values: seq<Value>, rest: string)
    requires values != []
    ensures Lex(") VALUES (" + (Join(Formatted(values), ", ") + (");" + rest)))
         == Ahead(VALUES + (ValuesTokens(values) + END), Lex(rest))
  {
    LexMiddle(Join(Formatted(values), ", ") + (");" + rest));
    LexValues(values, ");" + rest);
    LexEnd(rest);
    AheadTwice(ValuesTokens(values), END, Lex(rest));
    AheadTwice(VALUES, ValuesTokens(values) + END, Lex(rest));
  }

  lemma LexOpen(rest: string)
    ensures Lex(" (" + rest) == Ahead([Mark('(')], Lex(rest))
  {
    assert " (" + rest == [' '] + (['('] + rest);
    LexBlank(' ', ['('] + rest);
    LexMark('(', rest);
  }

  /** From the column list on. */
  lemma LexColumns(names: seq<string>, values: seq<Value>, rest: string)
    requires names != [] && values != []
    ensures Lex(" (" + (Join(Quoted(names), ", ") + (") VALUES (" + (Join(Formatted(values), ", ") + (");" + rest)))))
         == if "" in names then None
            else Ahead([Mark('(')] + (IdentTokens(',', names) + (VALUES + (ValuesTokens(values) + END))), Lex(rest))
  {
    var tail := ") VALUES (" + (Join(Formatted(values), ", ") + (");" + rest));
    LexOpen(Join(Quoted(names), ", ") + tail);
    LexIdents(',', names, tail);
    LexTail(values, rest);
    var ts := VALUES + (ValuesTokens(values) + END);
    AheadTwice(IdentTokens(',', names), ts, Lex(rest));
    AheadTwice([Mark('(')], IdentTokens(',', names) + ts, Lex(rest));
  }

  /** A statement becomes its tokens, unless an identifier in it is empty. */
  lemma LexStatement(table: string, names: seq<string>, values: seq<Value>, rest: string)
    requires names != [] && values != []
    ensures Lex(Statement(table, names, values) + rest)
         == if AllNamed(table, names) then Ahead(StatementTokens(table, names, values), Lex(rest)) else None
  {
    var columns := " ("
      + (Join(Quoted(names), ", ") + (") VALUES (" + (Join(Formatted(values), ", ") + (");" + rest))));
    assert Statement(table, names, values) + rest == "INSERT INTO " + (QuoteTable(table) + columns);
    LexInto(QuoteTable(table) + columns);
    LexIdents('.', Split(table, '.'), columns);
    LexColumns(names, values, rest);
    var ts := [Mark('(')] + (IdentTokens(',', names) + (VALUES + (ValuesTokens(values) + END)));
    AheadTwice(IdentTokens('.', Split(table, '.')), ts, Lex(rest));
    AheadTwice(INTO, IdentTokens('.', Split(table, '.')) + ts, Lex(rest));
  }

  lemma {:induction false} IdentsReadBack(sep: char, names: seq<string>, rest: seq<Token>)
    requires names != [] && (rest != [] ==> rest[0] != Mark(sep))
    ensures ReadIdents(sep, IdentTokens(sep, names) + rest) == Some((names, rest))
  {
    var ts := IdentTokens(sep, names) + rest;
    if |names| == 1 {
      assert names == [names[0]];
      assert ts == [Ident(names[0])] + rest && ts[1..] == rest;
    } else {
      IdentsReadBack(sep, names[1..], rest);
      assert ts == [Ident(names[0]), Mark(sep)] + (IdentTokens(sep, names[1..]) + rest);
      assert ts[2..] == IdentTokens(sep, names[1..]) + rest;
      assert names == [names[0]] + names[1..];
    }
  }

  lemma ValueReadsBack(v: Value, rest: seq<Token>)
    ensures ReadValue(ValueTokens(v) + rest) == Some((v, rest))
  {
    var ts := ValueTokens(v) + rest;
    assert ts[|ValueTokens(v)|..] == rest;
    assert ts[0] == ValueTokens(v)[0];
  }

  lemma Regrouped4<T>(a: seq<T>, b: seq<T>, c: seq<T>, d: seq<T>)
    ensures a + b + c + d == a + (b + (c + d))
  {
  }

  lemma ValuesTokensThen(values: seq<Value>, rest: seq<Token>)
    requires |values| > 1
    ensures ValuesTokens(values) + rest == ValueTokens(values[0]) + ([Mark(',')] + (ValuesTokens(values[1..]) + rest))
  {
    Regrouped4(ValueTokens(values[0]), [Mark(',')], ValuesTokens(values[1..]), rest);
  }

  /** A value and a comma in front of readable values. */
  lemma ValueThenMore(v: Value, tail: seq<Token>)
    requires ReadValues(tail).Some?
    ensures ReadValues(ValueTokens(v) + ([Mark(',')] + tail))
      == Some(([v] + ReadValues(tail).value.0, ReadValues(tail).value.1))
  {
    var after := [Mark(',')] + tail;
    ValueReadsBack(v, after);
    assert after[0] == Mark(',') && after[1..] == tail;
  }

  lemma {:induction false} ValuesReadBack(values: seq<Value>, rest: seq<Token>)
    requires values != [] && (rest != [] ==> rest[0] != Mark(','))
    ensures ReadValues(ValuesTokens(values) + rest) == Some((values, rest))
    decreases |values|
  {
    if |values| == 1 {
      ValueReadsBack(values[0], rest);
      assert values == [values[0]];
    } else {
      var tail := ValuesTokens(values[1..]) + rest;
      ValuesReadBack(values[1..], rest);
      ValueThenMore(values[0], tail);
      ValuesTokensThen(values, rest);
      assert values == [values[0]] + values[1..];
    }
  }

  /** From the values on. */
  lemma EndReadsBack(values: seq<Value>, rest: seq<Token>)
    requires values != []
    ensures Expect(VALUES, VALUES + (ValuesTokens(values) + (END + rest))) == Some(ValuesTokens(values) + (END + rest))
    ensures ReadValues(ValuesTokens(values) + (END + rest)) == Some((values, END + rest))
    ensures Expect(END, END + rest) == Some(rest)
  {
    ExpectFront(VALUES, ValuesTokens(values) + (END + rest));
    ValuesReadBack(values, END + rest);
    ExpectFront(END, rest);
  }

  /** Up to the values. */
  lemma StartReadsBack(parts: seq<string>, names: seq<string>, rest: seq<Token>)
    requires parts != [] && names != [] && rest != [] && rest[0] == Mark(')')
    ensures var t4 := IdentTokens(',', names) + rest;
      var t3 := [Mark('(')] + t4;
      var t2 := IdentTokens('.', parts) + t3;
      && Expect(INTO, INTO + t2) == Some(t2)
      && ReadIdents('.', t2) == Some((parts, t3))
      && Expect([Mark('(')], t3) == Some(t4)
      && ReadIdents(',', t4) == Some((names, rest))
  {
    var t4 := IdentTokens(',', names) + rest;
    var t3 := [Mark('(')] + t4;
    ExpectFront(INTO, IdentTokens('.', parts) + t3);
    IdentsReadBack('.', parts, t3);
    ExpectFront([Mark('(')], t4);
    IdentsReadBack(',', names, rest);
  }

  lemma StatementTokensThen(table: string, names: seq<string>, values: seq<Value>, rest: seq<Token>)
    ensures StatementTokens(table, names, values) + rest
         == INTO + (IdentTokens('.', Split(table, '.'))
           + ([Mark('(')] + (IdentTokens(',', names) + (VALUES + (ValuesTokens(values) + (END + rest))))))
  {
  }

  lemma InsertReadsBack(table: string, names: seq<string>, values: seq<Value>, rest: seq<Token>)
    requires names != [] && values != []
    ensures ReadInsert(StatementTokens(table, names, values) + rest)
      == Some((Insert(Split(table, '.'), names, values), rest))
  {
    StatementTokensThen(table, names, values, rest);
    StartReadsBack(Split(table, '.'), names, VALUES + (ValuesTokens(values) + (END + rest)));
    EndReadsBack(values, rest);
  }

  lemma ExpectFront(expected: seq<Token>, rest: seq<Token>)
    ensures Expect(expected, expected + rest) == Some(rest)
  {
    assert (expected + rest)[|expected|..] == rest;
  }

  // ---------- Whole exports ----------

  function Inserts(table: string, names: seq<string>, rows: seq<map<string, Value>>): seq<Insert> {
    seq(|rows|, i requires 0 <= i < |rows| => Insert(Split(table, '.'), names, Selected(rows[i], names)))
  }

  function ScriptTokens(table: string, names: seq<string>, rows: seq<map<string, Value>>): seq<Token> {
    if rows == [] then []
    else ScriptTokens(table, names, rows[..|rows| - 1])
            + StatementTokens(table, names, Selected(rows[|rows| - 1], names))
  }

  lemma LexLine(table: string, names: seq<string>, row: map<string, Value>, rest: string)
    requires names != []
    ensures Lex(Line(table, names, row) + rest)
         == if AllNamed(table, names) then Ahead(StatementTokens(table, names, Selected(row, names)), Lex(rest))
           else None
  {
    assert Line(table, names, row) + rest == Statement(table, names, Selected(row, names)) + (['\n'] + rest);
    LexStatement(table, names, Selected(row, names), ['\n'] + rest);
    LexBlank('\n', rest);
  }

  lemma Regrouped(a: string, b: string, c: string)
    ensures a + b + c == a + (b + c)
  {
  }

  lemma ScriptEnds(table: string, names: seq<string>, rows: seq<map<string, Value>>, rest: string)
    ensures rows == [] ==> Script(table, names, rows) + rest == rest
    ensures rows != [] ==>
      Script(table, names, rows) + rest
        == Script(table, names, rows[..|rows| - 1]) + (Line(table, names, rows[|rows| - 1]) + rest)
  {
    if rows != [] {
      Regrouped(Script(table, names, rows[..|rows| - 1]), Line(table, names, rows[|rows| - 1]), rest);
    }
  }

  lemma {:induction false} LexScript(table: string, names: seq<string>, rows: seq<map<string, Value>>, rest: string)
    requires names != [] && AllNamed(table, names)
    ensures Lex(Script(table, names, rows) + rest) == Ahead(ScriptTokens(table, names, rows), Lex(rest))
    decreases |rows|
  {
    ScriptEnds(table, names, rows, rest);
    if rows == [] {
      assert Lex(rest).Some? ==> [] + Lex(rest).value == Lex(rest).value;
    } else {
      var front, last := rows[..|rows| - 1], rows[|rows| - 1];
      var line := Line(table, names, last) + rest;
      LexScript(table, names, front, line);
      LexLine(table, names, last, rest);
      AheadTwice(ScriptTokens(table, names, front), StatementTokens(table, names, Selected(last, names)), Lex(rest));
    }
  }

  lemma {:induction false} LexUnnamedScript(table: string, names: seq<string>, rows: seq<map<string, Value>>,
      rest: string)
    requires names != [] && !AllNamed(table, names) && rows != []
    ensures Lex(Script(table, names, rows) + rest) == None
    decreases |rows|
  {
    var front, last := rows[..|rows| - 1], rows[|rows| - 1];
    var line := Line(table, names, last) + rest;
    ScriptEnds(table, names, rows, rest);
    if front == [] {
      ScriptEnds(table, names, front, line);
      LexLine(table, names, last, rest);
    } else {
      LexUnnamedScript(table, names, front, line);
    }
  }

  lemma OneInsertReadsBack(table: string, names: seq<string>, row: map<string, Value>, rest: seq<Token>)
    requires names != [] && ReadInserts(rest).Some?
    ensures ReadInserts(StatementTokens(table, names, Selected(row, names)) + rest)
         == Some([Insert(Split(table, '.'), names, Selected(row, names))] + ReadInserts(rest).value)
  {
    InsertReadsBack(table, names, Selected(row, names), rest);
    assert (StatementTokens(table, names, Selected(row, names)) + rest)[0] == INTO[0];
  }

  lemma InsertsAppend(table: string, names: seq<string>, rows: seq<map<string, Value>>, more: seq<Insert>)
    requires rows != []
    ensures Inserts(table, names, rows) + more ==
      Inserts(table, names, rows[..|rows| - 1])
        + ([Insert(Split(table, '.'), names, Selected(rows[|rows| - 1], names))] + more)
  {
  }

  lemma ScriptTokensAppend(table: string, names: seq<string>, rows: seq<map<string, Value>>, rest: seq<Token>)
    requires rows != []
    ensures ScriptTokens(table, names, rows) + rest ==
      ScriptTokens(table, names, rows[..|rows| - 1])
        + (StatementTokens(table, names, Selected(rows[|rows| - 1], names)) + rest)
  {
  }

  lemma {:induction false} InsertsReadBack(table: string, names: seq<string>, rows: seq<map<string, Value>>,
      rest: seq<Token>)
    requires names != [] && ReadInserts(rest).Some?
    ensures ReadInserts(ScriptTokens(table, names, rows) + rest)
      == Some(Inserts(table, names, rows) + ReadInserts(rest).value)
    decreases |rows|
  {
    if rows == [] {
      assert ScriptTokens(table, names, rows) + rest == rest;
      assert Inserts(table, names, rows) + ReadInserts(rest).value == ReadInserts(rest).value;
    } else {
      OneInsertReadsBack(table, names, rows[|rows| - 1], rest);
      InsertsReadBack(table, names, rows[..|rows| - 1],
        StatementTokens(table, names, Selected(rows[|rows| - 1], names)) + rest);
      ScriptTokensAppend(table, names, rows, rest);
      InsertsAppend(table, names, rows, ReadInserts(rest).value);
    }
  }

  /** The insert goes into the table whose name its parts make up, with the columns in order, and has under each column
      the row's value of that name, or null if the row has none. */
  predicate IsInsertOf(ins: Insert, table: string, names: seq<string>, row: map<string, Value>) {
    && Join(ins.table, ".") == table && (forall part | part in ins.table :: '.' !in part)
    && ins.columns == names && |ins.values| == |names|
    && forall j | 0 <= j < |names| :: ins.values[j] == if names[j] in row then row[names[j]] else Null
  }

  /** The script reads as one insert per row, in order. */
  predicate ReadsBack(script: string, table: string, names: seq<string>, rows: seq<map<string, Value>>) {
    var r := ReadScript(script);
    r.Some? && |r.value| == |rows| && forall i | 0 <= i < |rows| :: IsInsertOf(r.value[i], table, names, rows[i])
  }

  lemma InsertOfRow(table: string, names: seq<string>, row: map<string, Value>)
    ensures IsInsertOf(Insert(Split(table, '.'), names, Selected(row, names)), table, names, row)
  {
    SplitIsUndoneByJoin(table, '.');
    assert ['.'] == ".";
  }

  lemma InsertsReadBackExactly(table: string, names: seq<string>, rows: seq<map<string, Value>>)
    requires names != []
    ensures ReadScript(Script(table, names, rows))
      == if rows == [] || AllNamed(table, names) then Some(Inserts(table, names, rows)) else None
  {
    if AllNamed(table, names) { LexScript(table, names, rows, ""); }
      else if rows != [] { LexUnnamedScript(table, names, rows, ""); }
    assert Script(table, names, rows) + "" == Script(table, names, rows);
    InsertsReadBack(table, names, rows, []);
    assert ScriptTokens(table, names, rows) + [] == ScriptTokens(table, names, rows);
    assert Inserts(table, names, rows) + [] == Inserts(table, names, rows);
  }

  /**
   The round trip: reading an export gives back, row by row, the parts of the table name, the columns
   in order and each value with its kind, whatever the strings contain, if and only if there was
   nothing to print or no part of the table name and no column name is empty; otherwise it does not read at all.
   */
  lemma ExportRoundTrip(table: string, names: seq<string>, rows: seq<map<string, Value>>)
    requires names != []
    ensures ReadsBack(Script(table, names, rows), table, names, rows) <==> rows == [] || AllNamed(table, names)
    ensures rows != [] && !AllNamed(table, names) ==> ReadScript(Script(table, names, rows)).None?
  {
    InsertsReadBackExactly(table, names, rows);
    forall i | 0 <= i < |rows| ensures IsInsertOf(Inserts(table, names, rows)[i], table, names, rows[i]) {
      InsertOfRow(table, names, rows[i]);
    }
  }
}
