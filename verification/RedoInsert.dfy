// Redo INSERT statements: what their pattern captures, and the row made of it.
module RedoInsert {
  import opened Prelude
  import opened Text
  import opened SqlScan
  import opened RedoSql
  import opened Events

  /** The column list with its parentheses, and the text between those of the values. */
  datatype Groups = Groups(columns: string, values: string)

  datatype Taken = Taken(group: string, rest: string)

  /** A word of the pattern, in any case. */
  function Word(s: string, word: string): Option<string> {
    if Starts(s, word) then Some(s[|word|..]) else None
  }

  /** `\s+`. */
  function Blanks(s: string): Option<string> {
    if s != "" && IsSpace(s[0]) then Some(StripLeft(s)) else None
  }

  /** `"[^"]+"`. */
  function QuotedName(s: string): Option<string> {
    if s == "" || s[0] != '"' then None
    else
      var i := IndexOf(s[1..], '"');
      if i > 0 then Some(s[1..][i + 1..]) else None
  }

  /** `(\([^)]+\))`: up to the first closing parenthesis. */
  function ColumnGroup(s: string): Option<Taken> {
    if s == "" || s[0] != '(' then None
    else
      var i := IndexOf(s[1..], ')');
      if i > 0 then Some(Taken("(" + s[1..][..i] + ")", s[1..][i + 1..])) else None
  }

  /** `\((.*)\)\s*;?\s*$`: up to the last closing parenthesis. */
  function ValueGroup(s: string): Option<string> {
    if s == "" || s[0] != '(' then None
    else
      var k := LastIndexOf(s[1..], ')');
      if k >= 0 && (Strip(s[1..][k + 1..]) == "" || Strip(s[1..][k + 1..]) == ";") then Some(s[1..][..k]) else None
  }

  function Then(s: Option<string>, next: string -> Option<string>): Option<string> {
    if s.Some? then next(s.value) else None
  }

  /** `insert\s+into\s+"[^"]+"\."[^"]+"\s*`. */
  function AfterTable(s: string): Option<string> {
    var into := Then(Then(Word(s, "INSERT"), Blanks), r => Word(r, "INTO"));
    var schema := Then(Then(into, Blanks), QuotedName);
    var table := Then(Then(schema, r => Word(r, ".")), QuotedName);
    Then(table, r => Some(StripLeft(r)))
  }

  /** `\s+values\s*` and the values. */
  function AfterColumns(s: string): Option<string> {
    Then(Then(Blanks(s), r => Word(r, "VALUES")), r => ValueGroup(StripLeft(r)))
  }

  function Matched(sql: string): Option<Groups> {
    match AfterTable(Strip(sql))
    case None => None
    case Some(s) =>
      match ColumnGroup(s)
      case None => None
      case Some(t) => if AfterColumns(t.rest).Some? then Some(Groups(t.group, AfterColumns(t.rest).value)) else None
  }

  /** `s.split(',')`. */
  function SplitCommas(s: string): (parts: seq<string>)
    ensures parts != []
    decreases |s|
  {
    var i := IndexOf(s, ',');
    if i < 0 then [s] else [s[..i]] + SplitCommas(s[i + 1..])
  }

  predicate IsParen(c: char) {
    c == '(' || c == ')'
  }

  /** `s.strip('()')`. */
  function TrimParens(s: string): string
    decreases |s|
  {
    if s != "" && IsParen(s[0]) then TrimParens(s[1..])
    else if s != "" && IsParen(Last(s)) then TrimParens(Front(s))
    else s
  }

  /** The names in a parenthesised column list. */
  function ParseColList(s: string): (cols: seq<string>)
    ensures cols != []
  {
    var parts := SplitCommas(TrimParens(Strip(s)));
    seq(|parts|, i requires 0 <= i < |parts| => TrimChar(Strip(parts[i]), '"'))
  }

  function ParseVals(s: string): seq<Value> {
    var tokens := Cut(s, ",");
    seq(|tokens|, i requires 0 <= i < |tokens| => ParseVal(tokens[i]))
  }

  /** `dict(zip(cols, vals))`, from the first `n` pairs. */
  function ZipRow(cols: seq<string>, vals: seq<Value>, n: nat): map<string, Value>
    requires n <= |cols| && n <= |vals|
  {
    if n == 0 then map[] else ZipRow(cols, vals, n - 1)[cols[n - 1] := vals[n - 1]]
  }

  function RowOfGroups(g: Groups): map<string, Value> {
    var cols, vals := ParseColList(g.columns), ParseVals(g.values);
    ZipRow(cols, vals, Min(|cols|, |vals|))
  }

  /** The row of an INSERT; nothing if the statement does not match. */
  function InsertMap(sql: string): map<string, Value> {
    match Matched(sql) case None => map[] case Some(g) => RowOfGroups(g)
  }
}
