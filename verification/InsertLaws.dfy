// Redo INSERT statements (and the undo of a DELETE): exactly when the row comes back.
module InsertLaws {
  import opened Prelude
  import opened Text
  import opened SqlScan
  import opened RedoSql
  import opened RedoInsert
  import opened Events
  import opened RedoPrint
  import opened RedoKeys
  import opened TextLaws

  function NameTexts(cells: seq<Cell>): (r: seq<string>)
    ensures |r| == |cells| && forall i :: 0 <= i < |r| ==> r[i] == Quoted(cells[i].column)
  {
    seq(|cells|, i requires 0 <= i < |cells| => Quoted(cells[i].column))
  }

  function ValueTexts(cells: seq<Cell>): (r: seq<string>)
    ensures |r| == |cells| && forall i :: 0 <= i < |r| ==> r[i] == ValueText(cells[i].value)
  {
    seq(|cells|, i requires 0 <= i < |cells| => ValueText(cells[i].value))
  }

  /** `("C1","C2")`. */
  function PrintColumns(cells: seq<Cell>): string {
    "(" + Join(",", NameTexts(cells)) + ")"
  }

  /** `'v1', NULL`. */
  function PrintValues(cells: seq<Cell>): string {
    Join(", ", ValueTexts(cells))
  }

  /** One INSERT statement. */
  datatype Insertion = Insertion(schema: string, table: string, cells: seq<Cell>)

  /** How it is written: the words in some case, blanks around them, and perhaps a semicolon. */
  datatype Style = Style(insert: string, into: string, values: string, gaps: seq<string>, closed: bool)

  predicate StyleOk(st: Style) {
    && SameText(st.insert, "INSERT") && SameText(st.into, "INTO") && SameText(st.values, "VALUES")
    && |st.gaps| == 8 && (forall i :: 0 <= i < 8 ==> Blank(st.gaps[i]))
    && st.gaps[1] != "" && st.gaps[2] != "" && st.gaps[4] != ""
  }

  /** As LogMiner prints it: `insert into "S"."T"("C1","C2") values ('v1', 'v2');` */
  const PRINTED := Style("insert", "into", "values", ["", " ", " ", "", " ", " ", "", ""], true)

  function PrintInsert(u: Insertion, st: Style): string
    requires StyleOk(st)
  {
    st.gaps[0] + InsertText(u, st) + st.gaps[7]
  }

  function InsertText(u: Insertion, st: Style): string
    requires StyleOk(st)
  {
    st.insert + (st.gaps[1] + (st.into + (st.gaps[2] + TableText(u, st))))
  }

  function TableText(u: Insertion, st: Style): string
    requires StyleOk(st)
  {
    Quoted(u.schema) + ("." + (Quoted(u.table) + (st.gaps[3] + (PrintColumns(u.cells) + ValuesText(u, st)))))
  }

  function ValuesText(u: Insertion, st: Style): string
    requires StyleOk(st)
  {
    st.gaps[4] + (st.values + (st.gaps[5] + ("(" + (PrintValues(u.cells) + (")" + Closing(st))))))
  }

  function Closing(st: Style): string
    requires StyleOk(st)
  {
    if st.closed then st.gaps[6] + ";" else ""
  }

  /** An identifier; no quoted identifier holds a double quote. */
  predicate TableOk(name: string) {
    name != "" && '"' !in name
  }

  predicate InsertOk(u: Insertion) {
    TableOk(u.schema) && TableOk(u.table) && u.cells != [] && forall c :: c in u.cells ==> '"' !in c.column
  }

  /** No comma and no closing parenthesis. */
  predicate NameOk(name: string) {
    '"' !in name && ',' !in name && ')' !in name
  }

  lemma SplitHead(a: string, rest: string)
    requires ',' !in a
    ensures SplitCommas(a + "," + rest) == [a] + SplitCommas(rest)
  {
    var s := a + [','] + rest;
    IndexOfMiddle(a, ',', rest);
    assert s[..|a|] == a && s[|a| + 1..] == rest;
  }

  lemma {:induction false} SplitOfJoin(parts: seq<string>)
    requires parts != [] && forall i :: 0 <= i < |parts| ==> ',' !in parts[i]
    ensures SplitCommas(Join(",", parts)) == parts
  {
    if |parts| > 1 {
      SplitOfJoin(parts[1..]);
      SplitHead(parts[0], Join(",", parts[1..]));
    }
  }

  /** The printed names begin and end with a double quote, so only the outer parentheses go. */
  lemma {:induction false} JoinedNames(cells: seq<Cell>)
    requires cells != []
    ensures var t := Join(",", NameTexts(cells)); t != "" && t[0] == '"' && Last(t) == '"'
  {
    if |cells| > 1 {
      JoinedNames(cells[1..]);
      assert NameTexts(cells)[1..] == NameTexts(cells[1..]);
    }
  }

  lemma ParensTrimmed(t: string)
    requires t != "" && !IsParen(t[0]) && !IsParen(Last(t))
    ensures TrimParens("(" + t + ")") == t && Strip("(" + t + ")") == "(" + t + ")"
  {
    var s := "(" + t + ")";
    StripTrimmed(s);
    assert s[1..] == t + ")" && Front(t + ")") == t;
    assert TrimParens(s) == TrimParens(t + ")") == TrimParens(t);
  }

  lemma ColumnsRoundTrip(cells: seq<Cell>)
    requires cells != [] && forall c :: c in cells ==> NameOk(c.column)
    ensures var cols := ParseColList(PrintColumns(cells));
            |cols| == |cells| && forall i :: 0 <= i < |cells| ==> cols[i] == cells[i].column
  {
    var names := NameTexts(cells);
    JoinedNames(cells);
    ParensTrimmed(Join(",", names));
    forall i | 0 <= i < |names| ensures ',' !in names[i] && TrimChar(Strip(names[i]), '"') == cells[i].column {
      assert NameOk(cells[i].column) by { assert cells[i] in cells; }
      QuotedHasNo(cells[i].column, ',');
      TrimQuoted(cells[i].column);
      StripTrimmed(names[i]);
    }
    SplitOfJoin(names);
  }

  lemma ValuesRoundTrip(cells: seq<Cell>)
    ensures var vals := ParseVals(PrintValues(cells));
            |vals| == |cells| && forall i :: 0 <= i < |cells| ==> vals[i] == ValueOf(cells[i].value)
  {
    var texts := ValueTexts(cells);
    forall i | 0 <= i < |texts| ensures Token(texts[i], ",") && ParseVal(texts[i]) == ValueOf(cells[i].value) {
      ValueIsClosed(cells[i].value, ",");
      ParseValueText(cells[i].value);
    }
    CommaGlue();
    CutOfJoin(texts, ", ", ",");
  }

  lemma {:induction false} ZipIsRow(cells: seq<Cell>, cols: seq<string>, vals: seq<Value>, n: nat)
    requires |cols| == |vals| == |cells| && n <= |cells|
    requires forall i :: 0 <= i < |cells| ==> cols[i] == cells[i].column && vals[i] == ValueOf(cells[i].value)
    ensures ZipRow(cols, vals, n) == AsRow(cells[..n])
  {
    if n > 0 {
      ZipIsRow(cells, cols, vals, n - 1);
      assert Front(cells[..n]) == cells[..n - 1];
    }
  }

  lemma GroupsRoundTrip(cells: seq<Cell>)
    requires cells != [] && forall c :: c in cells ==> NameOk(c.column)
    ensures RowOfGroups(Groups(PrintColumns(cells), PrintValues(cells))) == AsRow(cells)
  {
    ColumnsRoundTrip(cells);
    ValuesRoundTrip(cells);
    ZipIsRow(cells, ParseColList(PrintColumns(cells)), ParseVals(PrintValues(cells)), |cells|);
    assert cells[..|cells|] == cells;
  }

  // ---- What the pattern captures ---------------------------------------------------------------------------

  lemma WordThen(text: string, rest: string, word: string)
    requires Upper(text) == word
    ensures Word(text + rest, word) == Some(rest)
  {
    assert |Upper(text)| == |text|;
    assert (text + rest)[..|text|] == text && (text + rest)[|text|..] == rest;
  }

  lemma {:induction false} GapSkipped(gap: string, rest: string)
    requires Blank(gap) && rest != "" && !IsSpace(rest[0])
    ensures StripLeft(gap + rest) == rest
    decreases |gap|
  {
    if gap == "" {
      assert gap + rest == rest;
    } else {
      assert (gap + rest)[1..] == gap[1..] + rest && gap[0] in gap;
      GapSkipped(gap[1..], rest);
    }
  }

  lemma GapThen(gap: string, rest: string)
    requires Blank(gap) && gap != "" && rest != "" && !IsSpace(rest[0])
    ensures Blanks(gap + rest) == Some(rest)
  {
    GapSkipped(gap, rest);
    assert gap[0] in gap;
  }

  lemma NameThen(name: string, rest: string)
    requires TableOk(name)
    ensures QuotedName(Quoted(name) + rest) == Some(rest)
  {
    var s := name + ['"'] + rest;
    assert (Quoted(name) + rest)[1..] == s;
    IndexOfMiddle(name, '"', rest);
    assert s[|name| + 1..] == rest;
  }

  lemma ColumnsThen(names: string, rest: string)
    requires names != "" && ')' !in names
    ensures ColumnGroup("(" + names + ")" + rest) == Some(Taken("(" + names + ")", rest))
  {
    var s := names + [')'] + rest;
    assert ("(" + names + ")" + rest)[1..] == s;
    IndexOfMiddle(names, ')', rest);
    assert s[..|names|] == names && s[|names| + 1..] == rest;
  }

  lemma ClosingStrips(st: Style)
    requires StyleOk(st)
    ensures ')' !in Closing(st) && (Strip(Closing(st)) == "" || Strip(Closing(st)) == ";")
  {
    if st.closed {
      StripBefore(st.gaps[6], ";");
      assert !IsSpace(')');
    }
  }

  lemma ValuesThen(values: string, closing: string)
    requires ')' !in closing && (Strip(closing) == "" || Strip(closing) == ";")
    ensures ValueGroup("(" + (values + (")" + closing))) == Some(values)
  {
    var s := values + [')'] + closing;
    assert ("(" + (values + (")" + closing)))[1..] == s;
    LastIndexOfMiddle(values, ')', closing);
    assert s[..|values|] == values && s[|values| + 1..] == closing;
  }

  lemma WordIs(text: string, word: string)
    requires SameText(text, word) && Upper(word) == word && word != "" && 'A' <= word[0] <= 'Z'
    ensures Upper(text) == word && text != "" && !IsSpace(text[0])
  {
    UpperForgetsCase(text, word);
  }

  lemma WordsAreUpper()
    ensures Upper("INSERT") == "INSERT" && Upper("INTO") == "INTO" && Upper("VALUES") == "VALUES" && Upper(".") == "."
  {
    forall s, i | s in {"INSERT", "INTO", "VALUES", "."} && 0 <= i < |s| ensures UpperChar(s[i]) == s[i] {
    }
  }

  lemma ValuesClause(u: Insertion, st: Style)
    requires StyleOk(st)
    ensures AfterColumns(ValuesText(u, st)) == Some(PrintValues(u.cells))
  {
    var group := "(" + (PrintValues(u.cells) + (")" + Closing(st)));
    WordsAreUpper();
    WordIs(st.values, "VALUES");
    GapThen(st.gaps[4], st.values + (st.gaps[5] + group));
    WordThen(st.values, st.gaps[5] + group, "VALUES");
    GapSkipped(st.gaps[5], group);
    ClosingStrips(st);
    ValuesThen(PrintValues(u.cells), Closing(st));
  }

  lemma TableClause(u: Insertion, st: Style)
    requires StyleOk(st) && TableOk(u.schema) && TableOk(u.table)
    ensures AfterTable(InsertText(u, st)) == Some(PrintColumns(u.cells) + ValuesText(u, st))
  {
    var rest := PrintColumns(u.cells) + ValuesText(u, st);
    var d := Quoted(u.table) + (st.gaps[3] + rest);
    WordsAreUpper();
    WordIs(st.insert, "INSERT");
    WordIs(st.into, "INTO");
    WordThen(st.insert, st.gaps[1] + (st.into + (st.gaps[2] + TableText(u, st))), "INSERT");
    GapThen(st.gaps[1], st.into + (st.gaps[2] + TableText(u, st)));
    WordThen(st.into, st.gaps[2] + TableText(u, st), "INTO");
    GapThen(st.gaps[2], TableText(u, st));
    NameThen(u.schema, "." + d);
    WordThen(".", d, ".");
    NameThen(u.table, st.gaps[3] + rest);
    GapSkipped(st.gaps[3], rest);
  }

  lemma {:induction false} NoParenInNames(cells: seq<Cell>)
    requires forall c :: c in cells ==> ')' !in c.column
    ensures ')' !in Join(",", NameTexts(cells))
  {
    if |cells| > 0 {
      assert cells[0] in cells;
      QuotedHasNo(cells[0].column, ')');
    }
    if |cells| > 1 {
      NoParenInNames(cells[1..]);
      assert NameTexts(cells)[1..] == NameTexts(cells[1..]);
    }
  }

  lemma InsertIsTrimmed(u: Insertion, st: Style)
    requires StyleOk(st)
    ensures Trimmed(InsertText(u, st)) && InsertText(u, st) != ""
  {
    WordsAreUpper();
    WordIs(st.insert, "INSERT");
    var head := st.insert + (st.gaps[1] + (st.into + (st.gaps[2] + (Quoted(u.schema) + "."))));
    assert InsertText(u, st)[0] == st.insert[0];
    LastOfValues(u, st);
    assert Last(InsertText(u, st)) == Last(ValuesText(u, st));
  }

  lemma LastOfValues(u: Insertion, st: Style)
    requires StyleOk(st)
    ensures ValuesText(u, st) != "" && !IsSpace(Last(ValuesText(u, st)))
  {
    var closing := ")" + Closing(st);
    assert Last(closing) == if st.closed then ';' else ')';
    assert Last(ValuesText(u, st)) == Last(closing);
  }

  /** The pattern captures the printed lists, whatever the values contain and however it is written. */
  lemma PrintedMatches(u: Insertion, st: Style)
    requires StyleOk(st) && InsertOk(u) && forall c :: c in u.cells ==> ')' !in c.column
    ensures Matched(PrintInsert(u, st)) == Some(Groups(PrintColumns(u.cells), PrintValues(u.cells)))
  {
    var names := Join(",", NameTexts(u.cells));
    InsertIsTrimmed(u, st);
    StripAround(st.gaps[0], InsertText(u, st), st.gaps[7]);
    TableClause(u, st);
    JoinedNames(u.cells);
    NoParenInNames(u.cells);
    ValuesClause(u, st);
    MatchedFrom(PrintInsert(u, st), names, ValuesText(u, st));
  }

  lemma MatchedFrom(sql: string, names: string, rest: string)
    requires names != "" && ')' !in names
    requires AfterTable(Strip(sql)) == Some("(" + names + ")" + rest) && AfterColumns(rest).Some?
    ensures Matched(sql) == Some(Groups("(" + names + ")", AfterColumns(rest).value))
  {
    ColumnsThen(names, rest);
  }

  // ---- What it can return at all -----------------------------------------------------------------------------

  /** Every character of `a` occurs in `b`. */
  predicate Within(a: string, b: string) {
    forall c :: c in a ==> c in b
  }

  lemma {:induction false} StripWithin(s: string)
    ensures Within(StripLeft(s), s) && Within(StripRight(s), s)
    decreases |s|
  {
    if s != "" && IsSpace(s[0]) { StripWithin(s[1..]); }
    if s != "" && IsSpace(Last(s)) { StripWithin(Front(s)); }
  }

  lemma {:induction false} DropWithin(s: string, c: char)
    ensures Within(DropLeading(s, c), s) && Within(DropTrailing(s, c), s)
    decreases |s|
  {
    if s != "" && s[0] == c { DropWithin(s[1..], c); }
    if s != "" && Last(s) == c { DropWithin(Front(s), c); }
  }

  lemma NameWithin(part: string)
    ensures Within(TrimChar(Strip(part), '"'), part)
  {
    StripWithin(part);
    StripWithin(StripLeft(part));
    DropWithin(Strip(part), '"');
    DropWithin(DropLeading(Strip(part), '"'), '"');
  }

  predicate PieceOf(piece: string, s: string) {
    ',' !in piece && Within(piece, s)
  }

  predicate PiecesOf(pieces: seq<string>, s: string) {
    forall i :: 0 <= i < |pieces| ==> PieceOf(pieces[i], s)
  }

  lemma {:induction false} CommaPieces(s: string)
    ensures PiecesOf(SplitCommas(s), s)
    decreases |s|
  {
    var i := IndexOf(s, ',');
    if i >= 0 {
      CommaPieces(s[i + 1..]);
      MorePieces(s, i, SplitCommas(s[i + 1..]));
    }
  }

  lemma MorePieces(s: string, i: nat, rest: seq<string>)
    requires i < |s| && ',' !in s[..i] && PiecesOf(rest, s[i + 1..])
    ensures PiecesOf([s[..i]] + rest, s)
  {
    forall k | 0 <= k < |rest| ensures PieceOf(rest[k], s) {
      assert PieceOf(rest[k], s[i + 1..]);
    }
  }

  lemma {:induction false} TrimParensWithin(s: string)
    ensures Within(TrimParens(s), s)
    decreases |s|
  {
    if s != "" && IsParen(s[0]) {
      TrimParensWithin(s[1..]);
    } else if s != "" && IsParen(Last(s)) {
      TrimParensWithin(Front(s));
    }
  }

  /** Trimming takes the closing parenthesis at the end. */
  lemma {:induction false} OuterParenGoes(t: string)
    requires ')' !in t
    ensures ')' !in TrimParens(t + ")")
    decreases |t|
  {
    if t != "" && t[0] == '(' {
      OpeningParenGoes(t[1..] + ")");
      assert t + ")" == "(" + (t[1..] + ")");
      OuterParenGoes(t[1..]);
    } else {
      ClosingParenGoes(t);
      TrimParensWithin(t);
    }
  }

  lemma OpeningParenGoes(t: string)
    ensures TrimParens("(" + t) == TrimParens(t)
  {
    assert ("(" + t)[1..] == t;
  }

  lemma ClosingParenGoes(t: string)
    requires t == "" || !IsParen(t[0])
    ensures TrimParens(t + ")") == TrimParens(t)
  {
    var s := t + ")";
    if t == "" { assert s[1..] == ""; } else { assert Front(s) == t && s[0] == t[0]; }
  }

  lemma ColumnsAreFree(names: string)
    requires ')' !in names
    ensures forall k :: k in ParseColList("(" + names + ")") ==> ',' !in k && ')' !in k
  {
    var s := "(" + names + ")";
    StripTrimmed(s);
    OuterParenGoes("(" + names);
    var t := TrimParens(s);
    CommaPieces(t);
    forall i | 0 <= i < |SplitCommas(t)| ensures Within(ParseColList(s)[i], SplitCommas(t)[i]) {
      NameWithin(SplitCommas(t)[i]);
    }
  }

  lemma {:induction false} ZipKeys(cols: seq<string>, vals: seq<Value>, n: nat)
    requires n <= |cols| && n <= |vals|
    ensures forall k :: k in ZipRow(cols, vals, n) ==> k in cols
  {
    if n > 0 { ZipKeys(cols, vals, n - 1); }
  }

  lemma MatchedColumns(sql: string) returns (names: string)
    requires Matched(sql).Some?
    ensures ')' !in names && Matched(sql).value.columns == "(" + names + ")"
  {
    var s := AfterTable(Strip(sql)).value;
    names := s[1..][..IndexOf(s[1..], ')')];
  }

  /** No column read from any text at all holds a comma or a closing parenthesis. */
  lemma InsertKeyIsFree(sql: string, k: string)
    requires k in InsertMap(sql)
    ensures ',' !in k && ')' !in k
  {
    var g := Matched(sql).value;
    var names := MatchedColumns(sql);
    var cols, vals := ParseColList(g.columns), ParseVals(g.values);
    ZipKeys(cols, vals, Min(|cols|, |vals|));
    ColumnsAreFree(names);
  }

  /** An INSERT comes back as the inserted row, whatever its values contain and however its words, blanks
      and end are written, if and only if no column's name holds a comma or a closing parenthesis. */
  lemma InsertRoundTripIff(u: Insertion, st: Style)
    requires StyleOk(st) && InsertOk(u)
    ensures InsertMap(PrintInsert(u, st)) == AsRow(u.cells) <==> forall c :: c in u.cells ==> NameOk(c.column)
  {
    if forall c :: c in u.cells ==> NameOk(c.column) {
      PrintedMatches(u, st);
      GroupsRoundTrip(u.cells);
    } else {
      var c :| c in u.cells && !NameOk(c.column);
      InAsRow(u.cells, c);
      if c.column in InsertMap(PrintInsert(u, st)) { InsertKeyIsFree(PrintInsert(u, st), c.column); }
    }
  }

  /** LogMiner's own form is one of these. */
  lemma PrintedIsAStyle(u: Insertion)
    ensures StyleOk(PRINTED)
    ensures PrintInsert(u, PRINTED) == "insert into " + Quoted(u.schema) + "." + Quoted(u.table) + PrintColumns(u.cells)
                                       + " values (" + PrintValues(u.cells) + ");"
  {
    PrintedStyleOk();
    PrintedTable(u);
    Opening(TableText(u, PRINTED));
    Flattened(Quoted(u.schema), Quoted(u.table), PrintColumns(u.cells), PrintValues(u.cells));
  }

  lemma PrintedStyleOk()
    ensures StyleOk(PRINTED)
  {
    WordsAreUpper();
  }

  lemma PrintedTable(u: Insertion)
    requires StyleOk(PRINTED)
    ensures TableText(u, PRINTED)
            == Quoted(u.schema) + ("." + (Quoted(u.table)
               + (PrintColumns(u.cells) + (" values (" + (PrintValues(u.cells) + ");")))))
  {
    assert Closing(PRINTED) == "" + ";" == ";";
    NoGaps(Quoted(u.table), PrintColumns(u.cells), PrintValues(u.cells));
  }

  lemma NoGaps(t: string, cols: string, vals: string)
    ensures t + ("" + (cols + (" " + ("values" + (" " + ("(" + (vals + (")" + ";"))))))))
            == t + (cols + (" values (" + (vals + ");")))
  {
    assert " " + ("values" + (" " + ("(" + (vals + (")" + ";"))))) == " values (" + (vals + ");");
    assert "" + (cols + (" values (" + (vals + ");"))) == cols + (" values (" + (vals + ");"));
  }

  lemma Opening(rest: string)
    ensures "" + ("insert" + (" " + ("into" + (" " + rest)))) + "" == "insert into " + rest
  {
  }

  lemma Flattened(s: string, t: string, cols: string, vals: string)
    ensures "insert into " + (s + ("." + (t + (cols + (" values (" + (vals + ");"))))))
            == "insert into " + s + "." + t + cols + " values (" + vals + ");"
  {
    Nested("insert into ", s, ".", t, cols + (" values (" + (vals + ");")));
    Nested("insert into " + s + "." + t, cols, " values (", vals, ");");
  }

  lemma Nested(a: string, b: string, c: string, d: string, e: string)
    ensures a + b + c + d + e == a + (b + (c + (d + e)))
  {
  }
}
