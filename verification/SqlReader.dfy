/**
 A reader for the statements of the export, after ISO/IEC 9075-2: tokens as in section 5.2 (a
 delimited identifier is not empty, and a doubled quote in it stands for one) and literals as
 in section 5.3.
 */
module SqlReader {
  import opened Common
  import opened SqlPrinter
  import Decimal

  datatype Token = Word(w: string) | Ident(name: string) | Text(s: string) | Number(n: nat) | Mark(c: char)

  // ---------- Tokens ----------

  /** The text up to the closing quote, and what follows it. */
  function ReadQuoted(q: char, s: string): (r: Option<(string, string)>)
    ensures r.Some? ==> |r.value.1| < |s|
  {
    if s == "" then None
    else if s[0] != q then
      match ReadQuoted(q, s[1..]) case None => None case Some((t, rest)) => Some(([s[0]] + t, rest))
    else if |s| > 1 && s[1] == q then
      match ReadQuoted(q, s[2..]) case None => None case Some((t, rest)) => Some(([q] + t, rest))
    else Some(("", s[1..]))
  }

  predicate IsLetter(c: char) { 'A' <= c <= 'Z' || 'a' <= c <= 'z' }

  /** The length of the leading run of letters, or of digits. */
  function Run(s: string, digits: bool): (n: nat)
    ensures n <= |s|
    ensures forall i | 0 <= i < n :: if digits then Decimal.IsDigit(s[i]) else IsLetter(s[i])
  {
    if s != "" && (if digits then Decimal.IsDigit(s[0]) else IsLetter(s[0])) then 1 + Run(s[1..], digits) else 0
  }

  function Prepend(t: Token, more: Option<seq<Token>>): Option<seq<Token>> {
    match more case None => None case Some(ts) => Some([t] + ts)
  }

  function Lex(s: string): Option<seq<Token>>
    decreases |s|
  {
    if s == "" then Some([])
    else if s[0] == ' ' || s[0] == '\n' then Lex(s[1..])
    else if s[0] == '"' then
      match ReadQuoted('"', s[1..])
      case None => None
      case Some((name, rest)) => if name == "" then None else Prepend(Ident(name), Lex(rest))
    else if s[0] == '\'' then
      match ReadQuoted('\'', s[1..])
      case None => None
      case Some((t, rest)) => Prepend(Text(t), Lex(rest))
    else if IsLetter(s[0]) then var n := Run(s, false); if n == 0 then None else Prepend(Word(s[..n]), Lex(s[n..]))
    else if Decimal.IsDigit(s[0]) then var n := Run(s, true);
      if n == 0 then None else Prepend(Number(Decimal.Value(s[..n])), Lex(s[n..]))
    else if s[0] in ['(', ')', ',', '.', ';', '-'] then Prepend(Mark(s[0]), Lex(s[1..]))
    else None
  }

  // ---------- Statements ----------

  datatype Insert = Insert(table: seq<string>, columns: seq<string>, values: seq<Value>)

  /** Identifiers with `sep` between them. */
  function ReadIdents(sep: char, ts: seq<Token>): (r: Option<(seq<string>, seq<Token>)>)
    ensures r.Some? ==> |r.value.1| < |ts|
  {
    if ts == [] || !ts[0].Ident? then None
    else if |ts| > 1 && ts[1] == Mark(sep) then
      match ReadIdents(sep, ts[2..]) case None => None case Some((names, rest)) => Some(([ts[0].name] + names, rest))
    else Some(([ts[0].name], ts[1..]))
  }

  function ReadValue(ts: seq<Token>): (r: Option<(Value, seq<Token>)>)
    ensures r.Some? ==> |r.value.1| < |ts|
  {
    if ts == [] then None else
    match ts[0]
    case Word(w) =>
      if w == "NULL" then Some((Null, ts[1..]))
      else if w == "TRUE" then Some((Bool(true), ts[1..]))
      else if w == "FALSE" then Some((Bool(false), ts[1..]))
      else None
    case Number(n) => Some((Int(n), ts[1..]))
    case Text(s) => Some((Str(s), ts[1..]))
    case Mark(c) => if c == '-' && |ts| > 1 && ts[1].Number? then Some((Int(0 - ts[1].n), ts[2..])) else None
    case Ident(_) => None
  }

  function ReadValues(ts: seq<Token>): (r: Option<(seq<Value>, seq<Token>)>)
    ensures r.Some? ==> |r.value.1| < |ts|
    decreases |ts|
  {
    match ReadValue(ts)
    case None => None
    case Some((v, rest)) =>
      if rest == [] || rest[0] != Mark(',') then Some(([v], rest)) else
      match ReadValues(rest[1..]) case None => None case Some((vs, rest')) => Some(([v] + vs, rest'))
  }

  /** `ts` begins with `expected`; the tokens behind it. */
  function Expect(expected: seq<Token>, ts: seq<Token>): (r: Option<seq<Token>>)
    ensures r.Some? ==> |r.value| <= |ts|
  {
    if expected <= ts then Some(ts[|expected|..]) else None
  }

  function ReadInsert(ts: seq<Token>): (r: Option<(Insert, seq<Token>)>)
    ensures r.Some? ==> |r.value.1| < |ts|
  {
    match Expect([Word("INSERT"), Word("INTO")], ts) case None => None case Some(t1) =>
    match ReadIdents('.', t1) case None => None case Some((table, t2)) =>
    match Expect([Mark('(')], t2) case None => None case Some(t3) =>
    match ReadIdents(',', t3) case None => None case Some((columns, t4)) =>
    match Expect([Mark(')'), Word("VALUES"), Mark('(')], t4) case None => None case Some(t5) =>
    match ReadValues(t5) case None => None case Some((values, t6)) =>
    match Expect([Mark(')'), Mark(';')], t6) case None => None case Some(t7) =>
    Some((Insert(table, columns, values), t7))
  }

  function ReadInserts(ts: seq<Token>): Option<seq<Insert>>
    decreases |ts|
  {
    if ts == [] then Some([]) else
    match ReadInsert(ts) case None => None case Some((first, rest)) =>
    match ReadInserts(rest) case None => None case Some(more) => Some([first] + more)
  }

  function ReadScript(s: string): Option<seq<Insert>> {
    match Lex(s) case None => None case Some(ts) => ReadInserts(ts)
  }
}
