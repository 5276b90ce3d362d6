// Redo UPDATE statements as LogMiner prints them, and how their pieces look to the scanners.
module RedoPrint {
  import opened Prelude
  import opened Text
  import opened SqlScan
  import opened SqlFind
  import opened RedoSql
  import opened SqlPrinter
  import opened Events

  /** A column with its new or old value; no value stands for NULL. */
  datatype Cell = Cell(column: string, value: Option<string>)

  /** One UPDATE statement; the row id, when present, ends the WHERE clause. */
  datatype Statement = Statement(schema: string, table: string, sets: seq<Cell>, wheres: seq<Cell>,
    rowid: Option<string>)

  function ValueText(v: Option<string>): (t: string)
    ensures t != ""
  {
    match v case Some(text) => Literal(text) case None => "NULL"
  }

  function SetItem(c: Cell): string {
    Quoted(c.column) + " = " + ValueText(c.value)
  }

  function CondItem(c: Cell): string {
    if c.value.None? then Quoted(c.column) + ISNULL else SetItem(c)
  }

  function SetItems(cells: seq<Cell>): (r: seq<string>)
    ensures |r| == |cells| && forall i :: 0 <= i < |r| ==> r[i] == SetItem(cells[i])
  {
    seq(|cells|, i requires 0 <= i < |cells| => SetItem(cells[i]))
  }

  function CondItems(u: Statement): (r: seq<string>)
    ensures |r| == |u.wheres| + (if u.rowid.Some? then 1 else 0)
    ensures forall i :: 0 <= i < |u.wheres| ==> r[i] == CondItem(u.wheres[i])
    ensures u.rowid.Some? ==> r[|u.wheres|] == RowIdItem(u.rowid.value)
  {
    seq(|u.wheres|, i requires 0 <= i < |u.wheres| => CondItem(u.wheres[i]))
    + (if u.rowid.Some? then [RowIdItem(u.rowid.value)] else [])
  }

  function RowIdItem(id: string): string {
    "ROWID = " + Literal(id)
  }

  function Head(u: Statement): string {
    "update " + Quoted(u.schema) + "." + Quoted(u.table)
  }

  function SetClause(u: Statement): string {
    Join(", ", SetItems(u.sets))
  }

  function WhereClause(u: Statement): string {
    Join(" and ", CondItems(u))
  }

  function Print(u: Statement): string {
    Head(u) + " set " + SetClause(u) + (if CondItems(u) == [] then "" else " where " + WhereClause(u)) + ";"
  }

  function ValueOf(v: Option<string>): Value {
    match v case Some(text) => Str(text) case None => Null
  }

  /** The row the cells describe; a repeated column keeps its last value. */
  function AsRow(cells: seq<Cell>): map<string, Value> {
    if cells == [] then map[] else AsRow(Front(cells))[Last(cells).column := ValueOf(Last(cells).value)]
  }

  lemma {:induction false} InAsRow(cells: seq<Cell>, c: Cell)
    requires c in cells
    ensures c.column in AsRow(cells)
  {
    if c != Last(cells) {
      assert cells == Front(cells) + [Last(cells)];
      InAsRow(Front(cells), c);
    }
  }

  // ---- Names -------------------------------------------------------------------------------------------

  predicate Keyword(k: string) {
    k == "," || k == AND || k == SET || k == WHERE || k == ISNULL
  }

  /** Keywords the splitters cut at; the others are searched for with word boundaries. */
  predicate Splits(k: string) {
    k == "," || k == AND
  }

  /** The quoted name is not mistaken for the keyword. */
  predicate NameFree(name: string, k: string) {
    if Splits(k) then !Mentions(name, k) else Find(Quoted(name), k) == -1
  }

  predicate CellsFree(cells: seq<Cell>, k: string) {
    forall c :: c in cells ==> NameFree(c.column, k)
  }

  /** No quote, comma or equals sign, and not the row id. */
  predicate ColumnOk(name: string) {
    '\'' !in name && '"' !in name && '=' !in name && NameFree(name, ",") && Upper(name) != "ROWID"
  }

  predicate CellsOk(cells: seq<Cell>) {
    forall c :: c in cells ==> ColumnOk(c.column)
  }

  predicate TableNameOk(name: string) {
    '\'' !in name && NameFree(name, SET) && NameFree(name, WHERE)
  }

  predicate UpdateOk(u: Statement) {
    TableNameOk(u.schema) && TableNameOk(u.table) && u.sets != [] && CellsOk(u.sets) && CellsOk(u.wheres)
  }

  lemma KeywordIsUpper(k: string)
    requires Keyword(k)
    ensures Upper(k) == k
  {
    forall i | 0 <= i < |k| ensures UpperChar(k[i]) == k[i] {
    }
  }

  // ---- Pieces without keywords -------------------------------------------------------------------------

  lemma NonBlank(t: string, k: string)
    requires Keyword(k) && t != "" && t[0] != ' ' && t[0] != ','
    ensures !MayStart(t, k)
  {
    assert Upper(t[..Min(|t|, |k|)])[0] == UpperChar(t[0]);
  }

  /** A blank followed by `c` does not start the keyword. */
  predicate Harmless(c: char, k: string)
    requires Keyword(k)
  {
    k == "," || UpperChar(c) != k[1]
  }

  lemma BlankThen(t: string, k: string)
    requires Keyword(k) && |t| >= 2 && t[0] == ' ' && Harmless(t[1], k)
    ensures !MayStart(t, k)
  {
    var m := Min(|t|, |k|);
    assert Upper(t[..m])[0] == ' ';
    if k != "," { assert Upper(t[..m])[1] == UpperChar(t[1]) && k[..m][1] == k[1]; }
  }

  /** No open literal and no start of the keyword: ready to be joined to what follows. */
  predicate Closed(t: string, k: string) {
    (if Splits(k) then Quiet(t, k, false) else Calm(t, k, false, false)) && !Inside(t, false)
  }

  lemma ClosedConcat(a: string, b: string, k: string)
    requires Closed(a, k) && Closed(b, k)
    ensures Closed(a + b, k)
  {
    if Splits(k) { QuietConcat(a, b, k, false); } else { CalmConcat(a, b, k, false, false); }
    InsideConcat(a, b, false);
  }

  lemma QuietIsClosed(t: string, k: string)
    requires Quiet(t, k, false) && !Inside(t, false)
    ensures Closed(t, k)
  {
    QuietIsCalm(t, k, false, false);
  }

  lemma PlainIsClosed(t: string, k: string)
    requires k != "" && '\'' !in t && forall c :: c in t ==> UpperChar(c) != k[0]
    ensures Closed(t, k)
  {
    PlainIsQuiet(t, k);
    QuietIsClosed(t, k);
  }

  lemma ClosedFirst(t: string, k: string)
    requires t != "" && t[0] != '\'' && !MayStart(t, k) && Closed(t[1..], k)
    ensures Closed(t, k)
  {
    InsideFirst(t, false);
    if !Splits(k) { CalmAfterWord(t[1..], k, false, IsWord(t[0])); }
  }

  lemma {:induction false} NameThenQuote(name: string, k: string)
    requires Splits(k) && '\'' !in name && !Mentions(name, k)
    ensures Closed(name + "\"", k)
  {
    var t := name + "\"";
    if name == "" {
      NonBlank(t, k);
      assert t[1..] == "";
      ClosedFirst(t, k);
    } else {
      NameThenQuote(name[1..], k);
      assert t[1..] == name[1..] + "\"";
      NameStartsNone(name, k);
      ClosedFirst(t, k);
    }
  }

  lemma NameStartsNone(name: string, k: string)
    requires Splits(k) && !Mentions(name, k)
    ensures !MayStart(name + "\"", k)
  {
    var t := name + "\"";
    var m := Min(|t|, |k|);
    if |name| >= |k| {
      assert t[..m] == name[..|k|];
    } else {
      assert Upper(t[..m])[|name|] == '"';
    }
  }

  /** Without a hit in the quoted name, every suffix of it is calm. */
  lemma {:induction false} NameIsCalm(name: string, k: string, j: nat)
    requires Keyword(k) && !Splits(k) && '\'' !in name && Find(Quoted(name), k) == -1 && 0 < j <= |Quoted(name)|
    ensures Calm(Quoted(name)[j..], k, false, IsWord(Quoted(name)[j - 1]))
    decreases |Quoted(name)| - j
  {
    var q := Quoted(name);
    if j < |q| {
      NameIsCalm(name, k, j + 1);
      assert q[j..][1..] == q[j + 1..] && q[j] != '\'';
      if !IsWord(q[j - 1]) && MayStart(q[j..], k) { WouldBeHit(name, k, j); }
    }
  }

  lemma WouldBeHit(name: string, k: string, j: nat)
    requires Keyword(k) && !Splits(k) && '\'' !in name && Find(Quoted(name), k) == -1 && 0 < j < |Quoted(name)|
    requires !IsWord(Quoted(name)[j - 1]) && MayStart(Quoted(name)[j..], k)
    ensures |Quoted(name)| - j > |k| && IsWord(Quoted(name)[j + |k|])
  {
    var q := Quoted(name);
    var t := q[j..];
    FindIsLeast(q, k, -1);
    PlainStaysOutside(q[..j]);
    if |t| <= |k| {
      EndsInQuote(t, k);
    } else {
      assert t[..|k|] == q[j..j + |k|];
      assert !Hit(q, k, j);
      KeywordIsUpper(k);
    }
  }

  lemma EndsInQuote(t: string, k: string)
    requires Keyword(k) && t != "" && Last(t) == '"' && |t| <= |k|
    ensures !MayStart(t, k)
  {
    assert Upper(t[..|t|])[|t| - 1] == '"' && k[..|t|][|t| - 1] == k[|t| - 1];
  }

  lemma QuotedIsClosed(name: string, k: string)
    requires Keyword(k) && '\'' !in name && NameFree(name, k)
    ensures Closed(Quoted(name), k)
  {
    var t := Quoted(name);
    NonBlank(t, k);
    if Splits(k) {
      NameThenQuote(name, k);
      assert t == "\"" + (name + "\"") && t[1..] == name + "\"";
      ClosedFirst(t, k);
    } else {
      NameIsCalm(name, k, 1);
      PlainStaysOutside(t);
    }
  }

  lemma BlankBefore(t: string, k: string)
    requires Keyword(k) && Closed(t, k) && t != "" && Harmless(t[0], k)
    ensures Closed(" " + t, k)
  {
    assert (" " + t)[1..] == t;
    BlankThen(" " + t, k);
    ClosedFirst(" " + t, k);
  }

  lemma CharBefore(c: char, t: string, k: string)
    requires Keyword(k) && Closed(t, k) && c != ' ' && c != '\'' && (c == ',' ==> k != ",")
    ensures Closed([c] + t, k)
  {
    assert ([c] + t)[1..] == t;
    var s := [c] + t;
    assert Upper(s[..Min(|s|, |k|)])[0] == UpperChar(c);
    ClosedFirst(s, k);
  }

  lemma ValueIsClosed(v: Option<string>, k: string)
    requires Keyword(k)
    ensures Closed(ValueText(v), k) && Trimmed(ValueText(v)) && ValueText(v) != "" && Harmless(ValueText(v)[0], k)
  {
    match v
    case Some(text) =>
      LiteralIsToken(text, k);
      QuietIsClosed(Literal(text), k);
    case None => PlainIsClosed("NULL", k);
  }

  lemma EqualsValue(v: Option<string>, k: string)
    requires Keyword(k)
    ensures Closed(" = " + ValueText(v), k)
  {
    ValueIsClosed(v, k);
    BlankBefore(ValueText(v), k);
    EqualsThen(" " + ValueText(v), k);
    WordText(" = ", "=", ValueText(v));
  }

  lemma EqualsThen(t: string, k: string)
    requires Keyword(k) && Closed(t, k)
    ensures Closed(" " + ("=" + t), k)
  {
    CharBefore('=', t, k);
    BlankBefore("=" + t, k);
  }

  lemma SetItemIsClosed(c: Cell, k: string)
    requires Keyword(k) && '\'' !in c.column && NameFree(c.column, k)
    ensures Closed(SetItem(c), k) && ItemEnds(SetItem(c)) && Last(SetItem(c)) == Last(ValueText(c.value))
  {
    QuotedIsClosed(c.column, k);
    EqualsValue(c.value, k);
    ValueIsClosed(c.value, k);
    ClosedConcat(Quoted(c.column), " = " + ValueText(c.value), k);
    assert SetItem(c) == Quoted(c.column) + (" = " + ValueText(c.value));
    assert Last(SetItem(c)) == Last(ValueText(c.value));
  }

  predicate ItemEnds(t: string) {
    t != "" && t[0] == '"' && Trimmed(t)
  }

  lemma IsNullIsClosed(k: string)
    requires Keyword(k) && k != ISNULL
    ensures Closed(ISNULL, k)
  {
    NullIsClosed(k);
    PlainIsClosed("IS", k);
    ClosedConcat("IS", " " + "NULL", k);
    BlankBefore("IS" + (" " + "NULL"), k);
    IsNullText();
  }

  lemma NullIsClosed(k: string)
    requires Keyword(k) && k != ISNULL
    ensures Closed(" " + "NULL", k)
  {
    PlainIsClosed("NULL", k);
    BlankBefore("NULL", k);
  }

  lemma IsNullText()
    ensures ISNULL == " " + ("IS" + (" " + "NULL"))
  {
  }

  lemma CondItemIsClosed(c: Cell, k: string)
    requires Keyword(k) && k != ISNULL && '\'' !in c.column && NameFree(c.column, k)
    ensures Closed(CondItem(c), k) && ItemEnds(CondItem(c))
  {
    if c.value.None? {
      QuotedIsClosed(c.column, k);
      IsNullIsClosed(k);
      ClosedConcat(Quoted(c.column), ISNULL, k);
      assert Last(CondItem(c)) == 'L';
    } else {
      SetItemIsClosed(c, k);
    }
  }

  lemma RowIdIsClosed(id: string, k: string)
    requires Keyword(k)
    ensures Closed(RowIdItem(id), k) && RowIdItem(id) != "" && Trimmed(RowIdItem(id))
  {
    var tail := " = " + ValueText(Some(id));
    EqualsValue(Some(id), k);
    PlainIsClosed("ROWID", k);
    ClosedConcat("ROWID", tail, k);
    RowIdParts(id);
    RowIdEnds(id);
  }

  lemma RowIdParts(id: string)
    ensures RowIdItem(id) == "ROWID" + (" = " + ValueText(Some(id)))
  {
  }

  lemma RowIdEnds(id: string)
    ensures Trimmed(RowIdItem(id))
  {
    assert Last(RowIdItem(id)) == '\'';
  }

  // ---- One item ----------------------------------------------------------------------------------------

  lemma TrimQuoted(name: string)
    requires '"' !in name
    ensures TrimChar(Quoted(name), '"') == name && Trimmed(Quoted(name))
  {
    var t := Quoted(name);
    assert t[1..] == name + "\"" && Last(t) == '"';
    if name == "" {
      assert DropLeading(t[1..], '"') == DropLeading(t[1..][1..], '"') == "";
    } else {
      assert name[0] in name && Last(name) in name;
      assert DropLeading(t, '"') == name + "\"";
      assert Front(name + "\"") == name && DropTrailing(name, '"') == name;
    }
  }

  lemma ParseValueText(v: Option<string>)
    ensures ParseVal(ValueText(v)) == ValueOf(v)
  {
    match v
    case Some(text) => ParseLiteral(text);
    case None => ParseNull();
  }

  /** `lhs = text`, where the left side holds no equals sign. */
  lemma AssignmentOf(lhs: string, text: string)
    requires lhs != "" && Trimmed(lhs) && '=' !in lhs && text != "" && Trimmed(text)
    ensures Assignment(lhs + " = " + text)
            == if Upper(TrimChar(lhs, '"')) == "ROWID" then None else Some(Entry(TrimChar(lhs, '"'), ParseVal(text)))
  {
    AssignmentText(lhs, text);
    IndexOfMiddle(lhs + " ", '=', " " + text);
    StripOneRight(lhs);
    StripTrimmed(text);
  }

  lemma AssignmentText(lhs: string, text: string)
    ensures var item := lhs + " = " + text;
            && item == (lhs + " ") + ['='] + (" " + text)
            && item[..|lhs| + 1] == lhs + " " && item[|lhs| + 2..] == " " + text
  {
  }

  lemma QuotedHasNo(name: string, c: char)
    requires c !in name && c != '"'
    ensures c !in Quoted(name)
  {
  }

  lemma SetItemRoundTrip(c: Cell)
    requires ColumnOk(c.column)
    ensures Assignment(SetItem(c)) == Some(Entry(c.column, ValueOf(c.value)))
  {
    TrimQuoted(c.column);
    QuotedHasNo(c.column, '=');
    ValueIsClosed(c.value, ",");
    AssignmentOf(Quoted(c.column), ValueText(c.value));
    ParseValueText(c.value);
  }

  lemma CondItemRoundTrip(c: Cell)
    requires ColumnOk(c.column) && NameFree(c.column, ISNULL)
    ensures Condition(CondItem(c)) == Some(Entry(c.column, ValueOf(c.value)))
  {
    IsNullIsUpper();
    QuotedIsClosed(c.column, ISNULL);
    if c.value.None? {
      NullCondition(c.column);
    } else {
      SetItemIsClosed(c, ISNULL);
      StripTrimmed(CondItem(c));
      FindNothing(CondItem(c), ISNULL);
      SetItemRoundTrip(c);
    }
  }

  lemma NullCondition(name: string)
    requires ColumnOk(name) && Closed(Quoted(name), ISNULL) && Upper(ISNULL) == ISNULL
    ensures Condition(Quoted(name) + ISNULL) == Some(Entry(name, Null))
  {
    var cond := Quoted(name) + ISNULL;
    TrimQuoted(name);
    assert Last(cond) == 'L' && cond[0] == '"';
    StripTrimmed(cond);
    assert cond + "" == cond;
    FindAfterCalm(Quoted(name), ISNULL, "", ISNULL);
    assert cond[..|Quoted(name)|] == Quoted(name);
    StripTrimmed(Quoted(name));
  }

  lemma RowIdIsIgnored(id: string)
    ensures Condition(RowIdItem(id)) == None
  {
    var item := RowIdItem(id);
    RowIdIsClosed(id, ISNULL);
    StripTrimmed(item);
    IsNullIsUpper();
    FindNothing(item, ISNULL);
    RowIdAssignsNothing(id);
  }

  lemma RowIdAssignsNothing(id: string)
    ensures Assignment(RowIdItem(id)) == None
  {
    LiteralIsToken(id, ",");
    assert RowIdItem(id) == "ROWID" + " = " + Literal(id);
    AssignmentOf("ROWID", Literal(id));
    RowIdLabel();
  }

  lemma RowIdLabel()
    ensures TrimChar("ROWID", '"') == "ROWID" && Upper("ROWID") == "ROWID" && Trimmed("ROWID")
  {
    assert Last("ROWID") == 'D';
  }

  // ---- Whole clauses -----------------------------------------------------------------------------------

  lemma {:induction false} AssignedRoundTrip(cells: seq<Cell>)
    requires CellsOk(cells)
    ensures Assigned(SetItems(cells)) == AsRow(cells)
  {
    if cells != [] {
      assert Front(SetItems(cells)) == SetItems(Front(cells));
      AssignedRoundTrip(Front(cells));
      SetItemRoundTrip(Last(cells));
    }
  }

  lemma {:induction false} RequiredRoundTrip(u: Statement)
    requires CellsOk(u.wheres) && CellsFree(u.wheres, ISNULL)
    ensures Required(CondItems(u)) == AsRow(u.wheres)
    decreases |u.wheres|, u.rowid.Some?
  {
    var items := CondItems(u);
    if u.rowid.Some? {
      var v := u.(rowid := None);
      assert Front(items) == CondItems(v);
      RequiredRoundTrip(v);
      RowIdIsIgnored(u.rowid.value);
    } else if u.wheres != [] {
      var v := u.(wheres := Front(u.wheres));
      assert Front(items) == CondItems(v);
      RequiredRoundTrip(v);
      CondItemRoundTrip(Last(u.wheres));
    }
  }

  lemma {:induction false} SetClauseIsClosed(cells: seq<Cell>, k: string)
    requires Keyword(k) && k != "," && CellsOk(cells) && CellsFree(cells, k) && cells != []
    ensures Closed(Join(", ", SetItems(cells)), k)
    decreases |cells|
  {
    assert cells[0] in cells;
    SetItemIsClosed(cells[0], k);
    if |cells| == 1 {
      assert Join(", ", SetItems(cells)) == SetItem(cells[0]);
    } else {
      var rest := Join(", ", SetItems(cells[1..]));
      SetClauseIsClosed(cells[1..], k);
      SetClauseHasEnds(cells[1..]);
      CommaThen(SetItem(cells[0]), rest, k);
      SetClauseStep(cells);
    }
  }

  lemma {:induction false} SetClauseHasEnds(cells: seq<Cell>)
    requires cells != []
    ensures SetClauseEnds(cells)
    decreases |cells|
  {
    if |cells| == 1 {
      OneItemEnds(cells[0]);
      assert Join(", ", SetItems(cells)) == SetItem(cells[0]);
    } else {
      SetClauseHasEnds(cells[1..]);
      SetClauseStep(cells);
    }
  }

  lemma OneItemEnds(c: Cell)
    ensures Ends(SetItem(c), c.value)
  {
    assert SetItem(c)[0] == '"' && Last(SetItem(c)) == Last(ValueText(c.value));
  }

  /** The clause starts with a quoted name and ends as its last value does. */
  predicate SetClauseEnds(cells: seq<Cell>)
    requires cells != []
  {
    Ends(Join(", ", SetItems(cells)), Last(cells).value)
  }

  predicate Ends(t: string, v: Option<string>) {
    t != "" && t[0] == '"' && Last(t) == Last(ValueText(v))
  }

  lemma SetClauseStep(cells: seq<Cell>)
    requires |cells| > 1 && SetClauseEnds(cells[1..])
    ensures Join(", ", SetItems(cells)) == SetItem(cells[0]) + ", " + Join(", ", SetItems(cells[1..]))
    ensures SetClauseEnds(cells)
  {
    assert SetItems(cells)[1..] == SetItems(cells[1..]);
    assert Last(cells[1..]) == Last(cells);
    assert SetItem(cells[0])[0] == '"';
  }

  lemma CommaThen(item: string, rest: string, k: string)
    requires Keyword(k) && k != "," && Closed(item, k) && Closed(rest, k) && rest != "" && rest[0] == '"'
    ensures Closed(item + ", " + rest, k)
  {
    BlankBefore(rest, k);
    CharBefore(',', " " + rest, k);
    ClosedConcat(item, "," + (" " + rest), k);
    CommaText(item, rest);
  }

  lemma CommaText(item: string, rest: string)
    ensures item + ", " + rest == item + ("," + (" " + rest))
  {
  }

  lemma {:induction false} AndJoinIsClosed(items: seq<string>, k: string)
    requires k == "," || k == WHERE
    requires forall i :: 0 <= i < |items| ==> items[i] != "" && Closed(items[i], k) && Harmless(items[i][0], k)
    ensures Closed(Join(" and ", items), k)
    ensures items != [] ==> items[0] != "" && Join(" and ", items) != "" && Join(" and ", items)[0] == items[0][0]
    decreases |items|
  {
    if items == [] {
      PlainIsClosed("", k);
    } else if |items| > 1 {
      AndJoinIsClosed(items[1..], k);
      var rest := Join(" and ", items[1..]);
      AndThen(rest, k);
      ClosedConcat(items[0], " and " + rest, k);
      assert Join(" and ", items) == items[0] + (" and " + rest);
    }
  }

  lemma WordText(padded: string, word: string, rest: string)
    requires padded == " " + word + " "
    ensures padded + rest == " " + (word + (" " + rest))
  {
  }

  lemma AndThen(rest: string, k: string)
    requires (k == "," || k == WHERE) && rest != "" && Closed(rest, k) && Harmless(rest[0], k)
    ensures Closed(" and " + rest, k)
  {
    BlankBefore(rest, k);
    PlainIsClosed("and", k);
    ClosedConcat("and", " " + rest, k);
    BlankBefore("and" + (" " + rest), k);
    WordText(" and ", "and", rest);
  }

  lemma WhereClauseIsClosed(u: Statement, k: string)
    requires (k == "," || k == WHERE) && CellsOk(u.wheres) && CellsFree(u.wheres, k)
    ensures Closed(WhereClause(u), k)
  {
    forall i | 0 <= i < |CondItems(u)|
      ensures CondItems(u)[i] != "" && Closed(CondItems(u)[i], k) && Harmless(CondItems(u)[i][0], k)
    {
      if i < |u.wheres| {
        assert u.wheres[i] in u.wheres;
        CondItemIsClosed(u.wheres[i], k);
      } else {
        RowIdIsClosed(u.rowid.value, k);
      }
    }
    AndJoinIsClosed(CondItems(u), k);
  }

  lemma TableIsClosed(u: Statement, k: string)
    requires (k == SET || k == WHERE) && TableNameOk(u.schema) && TableNameOk(u.table)
    ensures Closed(Quoted(u.schema) + ("." + Quoted(u.table)), k)
  {
    QuotedIsClosed(u.table, k);
    CharBefore('.', Quoted(u.table), k);
    QuotedIsClosed(u.schema, k);
    ClosedConcat(Quoted(u.schema), "." + Quoted(u.table), k);
  }

  lemma HeadIsClosed(u: Statement, k: string)
    requires (k == SET || k == WHERE) && TableNameOk(u.schema) && TableNameOk(u.table)
    ensures Closed(Head(u), k) && Last(Head(u)) == '"'
  {
    var rest := Quoted(u.schema) + ("." + Quoted(u.table));
    TableIsClosed(u, k);
    UpdateThen(rest, k);
    HeadParts(u);
  }

  lemma UpdateThen(rest: string, k: string)
    requires (k == SET || k == WHERE) && Closed(rest, k) && rest != "" && rest[0] == '"'
    ensures Closed("update" + (" " + rest), k)
  {
    BlankBefore(rest, k);
    PlainIsClosed("update", k);
    ClosedConcat("update", " " + rest, k);
  }

  lemma HeadParts(u: Statement)
    ensures Head(u) == "update" + (" " + (Quoted(u.schema) + ("." + Quoted(u.table)))) && Last(Head(u)) == '"'
  {
  }
}
