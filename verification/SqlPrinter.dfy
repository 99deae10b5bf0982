/** How the SQL export prints a row as an INSERT statement. */
module SqlPrinter {
  import Decimal

  /** The kinds of result values that print as standard literals. */
  datatype Value = Null | Bool(b: bool) | Int(n: int) | Str(s: string)

  /** `strings.ReplaceAll(s, q, qq)` for a one-character `q`. */
  function Doubled(s: string, q: char): string {
    if s == "" then "" else (if s[0] == q then [q, q] else [s[0]]) + Doubled(s[1..], q)
  }

  function QuoteIdentifier(name: string): string { "\"" + Doubled(name, '"') + "\"" }

  function QuoteString(s: string): string { "'" + Doubled(s, '\'') + "'" }

  function FormatValue(v: Value): string {
    match v
    case Null => "NULL"
    case Bool(b) => if b then "TRUE" else "FALSE"
    case Int(n) => Decimal.Print(n)
    case Str(s) => QuoteString(s)
  }

  /** `strings.Split(s, sep)`. */
  function Split(s: string, sep: char): (parts: seq<string>)
    ensures parts != []
  {
    if s == "" then [""] else
    var parts := Split(s[1..], sep);
    if s[0] == sep then [""] + parts else [[s[0]] + parts[0]] + parts[1..]
  }

  /** `strings.Join`. */
  function Join(parts: seq<string>, sep: string): string {
    if parts == [] then "" else if |parts| == 1 then parts[0] else parts[0] + sep + Join(parts[1..], sep)
  }

  function Quoted(names: seq<string>): seq<string> {
    seq(|names|, i requires 0 <= i < |names| => QuoteIdentifier(names[i]))
  }

  function Formatted(values: seq<Value>): seq<string> {
    seq(|values|, i requires 0 <= i < |values| => FormatValue(values[i]))
  }

  function QuoteTable(table: string): string { Join(Quoted(Split(table, '.')), ".") }

  /** The values of the selected columns; a column the row lacks is null. */
  function Selected(row: map<string, Value>, names: seq<string>): seq<Value> {
    seq(|names|, i requires 0 <= i < |names| => if names[i] in row then row[names[i]] else Null)
  }

  function Statement(table: string, names: seq<string>, values: seq<Value>): string {
    "INSERT INTO " + QuoteTable(table) + " (" + Join(Quoted(names), ", ") + ") VALUES (" + Join(Formatted(values), ", ")
      + ");"
  }

  function Line(table: string, names: seq<string>, row: map<string, Value>): string {
    Statement(table, names, Selected(row, names)) + "\n"
  }

  /** What an export of these rows has written: one statement to a line. */
  function Script(table: string, names: seq<string>, rows: seq<map<string, Value>>): string {
    if rows == [] then "" else Script(table, names, rows[..|rows| - 1]) + Line(table, names, rows[|rows| - 1])
  }

  /** Joining the parts with the separator gives back the string, and no part contains it. */
  lemma {:induction false} SplitIsUndoneByJoin(s: string, sep: char)
    ensures Join(Split(s, sep), [sep]) == s
    ensures forall i | 0 <= i < |Split(s, sep)| :: sep !in Split(s, sep)[i]
  {
    if s != "" {
      SplitIsUndoneByJoin(s[1..], sep);
      var parts := Split(s[1..], sep);
      if s[0] == sep {
        assert ([""] + parts)[1..] == parts;
      } else {
        var more := [[s[0]] + parts[0]] + parts[1..];
        assert more[1..] == parts[1..];
        assert Join(more, [sep]) == [s[0]] + Join(parts, [sep]);
      }
      assert s == [s[0]] + s[1..];
    }
  }
}
