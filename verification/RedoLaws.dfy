// What the parsers recover from printed redo UPDATE statements: exactly when it is everything.
module RedoLaws {
  import opened Prelude
  import opened Text
  import opened SqlScan
  import opened SqlFind
  import opened RedoSql
  import opened RedoKeys
  import opened RedoPrint
  import opened Events

  // ---- Where the keywords are found ----------------------------------------------------------------------

  /** Everything before the WHERE. */
  function Body(u: Statement): string {
    Head(u) + " set " + SetClause(u)
  }

  predicate LastIsQuoted(u: Statement)
    requires u.sets != []
  {
    Last(u.sets).value.Some?
  }

  lemma SetWordThen(rest: string, k: string)
    requires k == WHERE && rest != "" && Closed(rest, k) && rest[0] == '"'
    ensures Closed(" set " + rest, k)
  {
    BlankBefore(rest, k);
    PlainIsClosed("set", k);
    ClosedConcat("set", " " + rest, k);
    BlankBefore("set" + (" " + rest), k);
    WordText(" set ", "set", rest);
  }

  lemma BodyIsClosed(u: Statement)
    requires UpdateOk(u) && CellsFree(u.sets, WHERE)
    ensures Closed(Body(u), WHERE) && Last(Body(u)) == Last(ValueText(Last(u.sets).value))
  {
    HeadIsClosed(u, WHERE);
    SetClauseIsClosed(u.sets, WHERE);
    SetClauseHasEnds(u.sets);
    SetWordThen(SetClause(u), WHERE);
    ClosedConcat(Head(u), " set " + SetClause(u), WHERE);
    BodyParts(u);
  }

  lemma BodyParts(u: Statement)
    requires SetClause(u) != ""
    ensures Body(u) == Head(u) + (" set " + SetClause(u)) && Last(Body(u)) == Last(SetClause(u))
  {
  }

  function Tail(u: Statement): string {
    if CondItems(u) == [] then ";" else " where " + WhereClause(u) + ";"
  }

  lemma PrintIsBodyTail(u: Statement)
    ensures Print(u) == Body(u) + Tail(u) && Print(u) == Head(u) + " set " + (SetClause(u) + Tail(u))
  {
  }

  lemma KeywordsAreUpper()
    ensures Upper(SET) == SET && Upper(WHERE) == WHERE && Upper(" set ") == SET && Upper(" where ") == WHERE
  {
  }

  lemma SetIsFound(u: Statement)
    requires UpdateOk(u)
    ensures Find(Print(u), SET) == |Head(u)|
  {
    KeywordsAreUpper();
    HeadIsClosed(u, SET);
    SetClauseHasEnds(u.sets);
    PrintIsBodyTail(u);
    FindAfterCalm(Head(u), " set ", SetClause(u) + Tail(u), SET);
  }

  lemma PrintWithWhere(u: Statement)
    requires CondItems(u) != []
    ensures Print(u) == Body(u) + " where " + (WhereClause(u) + ";")
    ensures Print(u) == Body(u) + " " + ("where " + (WhereClause(u) + ";"))
  {
    PrintIsBodyTail(u);
    WhereTail(Body(u), WhereClause(u));
  }

  lemma WhereTail(body: string, clause: string)
    ensures body + (" where " + clause + ";") == body + " where " + (clause + ";")
    ensures body + (" where " + clause + ";") == body + " " + ("where " + (clause + ";"))
  {
  }

  /** The WHERE stands between a quote and a quoted name. */
  predicate WhereIsSetOff(u: Statement)
    requires u.sets != []
  {
    LastIsQuoted(u) && u.wheres != []
  }

  lemma WhereIsFound(u: Statement)
    requires UpdateOk(u) && CellsFree(u.sets, WHERE) && WhereIsSetOff(u)
    ensures Find(Print(u), WHERE) == |Body(u)|
  {
    KeywordsAreUpper();
    BodyIsClosed(u);
    WhereStarts(u);
    EndsOfValue(Last(u.sets).value);
    PrintWithWhere(u);
    FindAfterCalm(Body(u), " where ", WhereClause(u) + ";", WHERE);
  }

  lemma WhereStarts(u: Statement)
    requires CondItems(u) != []
    ensures WhereClause(u) != "" && WhereClause(u)[0] == if u.wheres != [] then '"' else 'R'
  {
    var items := CondItems(u);
    assert items[0] != "" && items[0][0] == if u.wheres != [] then '"' else 'R';
    JoinStarts(items, " and ");
  }

  lemma JoinStarts(items: seq<string>, glue: string)
    requires items != [] && items[0] != ""
    ensures Join(glue, items) != "" && Join(glue, items)[0] == items[0][0]
  {
  }

  lemma EndsOfValue(v: Option<string>)
    ensures Last(ValueText(v)) == if v.Some? then '\'' else 'L'
  {
  }

  lemma SemicolonAfter(t: string, k: string)
    requires Keyword(k) && Closed(t, k)
    ensures Closed(t + ";", k)
  {
    PlainIsClosed(";", k);
    ClosedConcat(t, ";", k);
  }

  lemma NoWhereIsFound(u: Statement)
    requires UpdateOk(u) && CellsFree(u.sets, WHERE) && CondItems(u) == []
    ensures Find(Print(u), WHERE) == -1
  {
    KeywordsAreUpper();
    BodyIsClosed(u);
    PrintIsBodyTail(u);
    SemicolonAfter(Body(u), WHERE);
    FindNothing(Print(u), WHERE);
  }

  lemma WhereText(rest: string)
    ensures "where " + rest == "where" + (" " + rest)
  {
  }

  lemma WhereWordThen(rest: string)
    requires rest != "" && Closed(rest, WHERE) && (rest[0] == '"' || rest[0] == 'R')
    ensures Closed("where " + rest, WHERE)
  {
    BlankBefore(rest, WHERE);
    PlainIsClosed("where", WHERE);
    ClosedConcat("where", " " + rest, WHERE);
    WhereText(rest);
  }

  lemma NotHitWithin(pre: string, a: string, kw: string, j: nat)
    requires !Inside(pre, false) && Calm(a, Upper(kw), false, false) && j < |a|
    ensures !Hit(pre + a, kw, |pre| + j)
  {
    NotHitBefore(a, "", kw, j);
    assert a + "" == a;
    if Hit(pre + a, kw, |pre| + j) { HitShifts(pre, a, kw, j); }
  }

  lemma HitShifts(pre: string, a: string, kw: string, j: nat)
    requires !Inside(pre, false) && j < |a| && Hit(pre + a, kw, |pre| + j)
    ensures Hit(a, kw, j)
  {
    Shifted(pre, a, j, |kw|);
    CharsAfter(pre, a, j, |kw|);
  }

  lemma CharsAfter(pre: string, a: string, j: nat, n: nat)
    requires j + n <= |a| && j < |a|
    ensures (pre + a)[|pre| + j] == a[j] && (j > 0 ==> (pre + a)[|pre| + j - 1] == a[j - 1])
    ensures j + n < |a| ==> (pre + a)[|pre| + j + n] == a[j + n]
  {
  }

  lemma Shifted(pre: string, a: string, j: nat, n: nat)
    requires !Inside(pre, false) && j + n <= |a|
    ensures Inside((pre + a)[..|pre| + j], false) == Inside(a[..j], false)
    ensures (pre + a)[|pre| + j..|pre| + j + n] == a[j..j + n]
  {
    SlicesAfter(pre, a, j, n);
    InsideConcat(pre, a[..j], false);
  }

  lemma SlicesAfter(pre: string, a: string, j: nat, n: nat)
    requires j + n <= |a|
    ensures (pre + a)[..|pre| + j] == pre + a[..j]
    ensures (pre + a)[|pre| + j..|pre| + j + n] == a[j..j + n]
  {
  }

  /** A letter right before or right after hides the WHERE. */
  lemma HiddenByLetter(body: string, rest: string)
    requires body != "" && Closed(body, WHERE) && Closed(rest, WHERE)
    requires IsWord(Last(body)) || (|rest| > 6 && IsWord(rest[6]))
    ensures Find(body + " " + rest, WHERE) == -1
  {
    var sql := body + " " + rest;
    KeywordsAreUpper();
    PlainStaysOutside(" ");
    InsideConcat(body, " ", false);
    forall j | 0 <= j <= |sql| ensures !Hit(sql, WHERE, j) {
      if j < |body| {
        assert sql == body + (" " + rest);
        NotHitBefore(body, " " + rest, WHERE, j);
      } else if |body| < j < |sql| {
        NotHitWithin(body + " ", rest, WHERE, j - |body| - 1);
      }
    }
    FindIsLeast(sql, WHERE, -1);
  }

  /** After an unquoted NULL, or before a bare ROWID, the WHERE is not seen. */
  lemma WhereIsMissed(u: Statement)
    requires UpdateOk(u) && CellsFree(u.sets, WHERE) && CellsFree(u.wheres, WHERE) && !WhereIsSetOff(u)
             && CondItems(u) != []
    ensures Find(Print(u), WHERE) == -1
  {
    var rest := "where " + (WhereClause(u) + ";");
    BodyIsClosed(u);
    WhereClauseIsClosed(u, WHERE);
    WhereStarts(u);
    EndsOfValue(Last(u.sets).value);
    SemicolonAfter(WhereClause(u), WHERE);
    WhereWordThen(WhereClause(u) + ";");
    PrintWithWhere(u);
    assert rest[6] == WhereClause(u)[0];
    HiddenByLetter(Body(u), rest);
  }

  // ---- Round trips -----------------------------------------------------------------------------------------

  lemma CutSetClause(cells: seq<Cell>)
    requires CellsOk(cells)
    ensures Cut(Join(", ", SetItems(cells)), ",") == SetItems(cells)
  {
    forall i | 0 <= i < |cells| ensures Token(SetItems(cells)[i], ",") {
      assert cells[i] in cells;
      SetItemIsClosed(cells[i], ",");
    }
    CommaGlue();
    CutOfJoin(SetItems(cells), ", ", ",");
  }

  lemma CutWhereClause(u: Statement)
    requires CellsOk(u.wheres) && CellsFree(u.wheres, AND)
    ensures Cut(WhereClause(u), AND) == CondItems(u)
  {
    forall i | 0 <= i < |CondItems(u)| ensures Token(CondItems(u)[i], AND) {
      if i < |u.wheres| {
        assert u.wheres[i] in u.wheres;
        CondItemIsClosed(u.wheres[i], AND);
      } else {
        RowIdIsClosed(u.rowid.value, AND);
      }
    }
    assert " and "[..5] == " and " && Upper(" and ") == AND;
    CutOfJoin(CondItems(u), " and ", AND);
  }

  /** What `strip()` and `rstrip(';')` leave of a clause. */
  lemma Unterminated(t: string)
    requires t != "" && Trimmed(t) && Last(t) != ';'
    ensures DropTrailing(Strip(t), ';') == t && DropTrailing(Strip(t + ";"), ';') == t
  {
    StripTrimmed(t);
    StripTrimmed(t + ";");
    assert Front(t + ";") == t;
  }

  /** The SET clause is cut out whole, unless the WHERE was missed. */
  lemma SetPartOf(u: Statement)
    requires UpdateOk(u) && CellsFree(u.sets, WHERE) && (WhereIsSetOff(u) || CellsFree(u.wheres, WHERE))
    ensures SetPart(Print(u)) == Some(if WhereIsSetOff(u) || CondItems(u) == [] then SetClause(u)
                                      else SetClause(u) + (" where " + WhereClause(u)))
  {
    if CondItems(u) == [] {
      NoWhereIsFound(u);
      SetIsFound(u);
      SetPartToEnd(u, SetClause(u));
    } else if WhereIsSetOff(u) {
      SetPartToWhere(u);
    } else {
      WhereIsMissed(u);
      WhereEnds(u);
      var part := SetClause(u) + (" where " + WhereClause(u));
      assert Last(part) == Last(WhereClause(u));
      SetIsFound(u);
      SetPartToEnd(u, part);
    }
  }

  lemma SetPartToEnd(u: Statement, part: string)
    requires u.sets != [] && Find(Print(u), SET) == |Head(u)| && Find(Print(u), WHERE) == -1
    requires part == if CondItems(u) == [] then SetClause(u) else SetClause(u) + (" where " + WhereClause(u))
    requires CondItems(u) != [] ==> !IsSpace(Last(part)) && Last(part) != ';'
    ensures SetPart(Print(u)) == Some(part)
  {
    PartIsTrimmed(u, part);
    AfterSet(u, part);
    ToTheEnd(Print(u), |Head(u)|, part);
  }

  lemma PartIsTrimmed(u: Statement, part: string)
    requires u.sets != []
    requires part == if CondItems(u) == [] then SetClause(u) else SetClause(u) + (" where " + WhereClause(u))
    requires CondItems(u) != [] ==> !IsSpace(Last(part)) && Last(part) != ';'
    ensures part != "" && Trimmed(part) && Last(part) != ';'
  {
    SetClauseIsTrimmed(u.sets);
    if CondItems(u) != [] { SameEnds(SetClause(u), " where " + WhereClause(u)); }
  }

  lemma SameEnds(a: string, b: string)
    requires a != "" && b != ""
    ensures (a + b)[0] == a[0] && Last(a + b) == Last(b)
  {
  }

  lemma ToTheEnd(sql: string, p: nat, part: string)
    requires Find(sql, SET) == p && Find(sql, WHERE) == -1 && p + 5 <= |sql| && sql[p + 5..] == part + ";"
    requires part != "" && Trimmed(part) && Last(part) != ';'
    ensures SetPart(sql) == Some(part)
  {
    Unterminated(part);
    assert sql[p + 5..|sql|] == sql[p + 5..];
  }

  lemma SetClauseIsTrimmed(cells: seq<Cell>)
    requires cells != []
    ensures var t := Join(", ", SetItems(cells)); t != "" && Trimmed(t) && Last(t) != ';'
  {
    SetClauseHasEnds(cells);
    EndsOfValue(Last(cells).value);
  }

  lemma SetPartToWhere(u: Statement)
    requires UpdateOk(u) && CellsFree(u.sets, WHERE) && WhereIsSetOff(u)
    ensures SetPart(Print(u)) == Some(SetClause(u))
  {
    SetIsFound(u);
    WhereIsFound(u);
    PrintIsBodyTail(u);
    assert Print(u)[|Head(u)| + 5..|Body(u)|] == SetClause(u);
    SetClauseIsTrimmed(u.sets);
    Unterminated(SetClause(u));
  }

  lemma AfterSet(u: Statement, part: string)
    requires part == if CondItems(u) == [] then SetClause(u) else SetClause(u) + (" where " + WhereClause(u))
    ensures |Head(u)| + 5 <= |Print(u)| && Print(u)[|Head(u)| + 5..] == part + ";"
  {
    PrintIsBodyTail(u);
    assert SetClause(u) + Tail(u) == part + ";";
  }

  lemma WhereEnds(u: Statement)
    requires CondItems(u) != []
    ensures var t := WhereClause(u); t != "" && Trimmed(t) && (Last(t) == '\'' || Last(t) == 'L')
    ensures u.wheres == [] ==> Last(WhereClause(u)) == '\''
  {
    WhereStarts(u);
    LastConditionEnds(u);
    JoinEnds(CondItems(u), " and ");
  }

  lemma LastConditionEnds(u: Statement)
    requires CondItems(u) != []
    ensures var t := Last(CondItems(u)); t != "" && (Last(t) == '\'' || (Last(t) == 'L' && u.wheres != []))
  {
    LastCondition(u);
    if u.rowid.Some? {
      RowIdEndsQuoted(u.rowid.value);
    } else {
      ConditionEnds(Last(u.wheres));
    }
  }

  lemma LastCondition(u: Statement)
    requires CondItems(u) != []
    ensures u.rowid.None? ==> u.wheres != []
    ensures Last(CondItems(u)) == if u.rowid.Some? then RowIdItem(u.rowid.value) else CondItem(Last(u.wheres))
  {
    var items, n := CondItems(u), |u.wheres|;
    if u.rowid.Some? {
      assert items[n] == RowIdItem(u.rowid.value);
    } else {
      assert items[n - 1] == CondItem(u.wheres[n - 1]);
    }
  }

  lemma RowIdEndsQuoted(id: string)
    ensures RowIdItem(id) != "" && Last(RowIdItem(id)) == '\''
  {
  }

  lemma ConditionEnds(c: Cell)
    ensures var t := CondItem(c); t != "" && (Last(t) == '\'' || Last(t) == 'L')
  {
    if c.value.Some? {
      OneItemEnds(c);
      EndsOfValue(c.value);
    } else {
      assert Last(CondItem(c)) == 'L';
    }
  }

  lemma {:induction false} JoinEnds(items: seq<string>, glue: string)
    requires items != [] && Last(items) != ""
    ensures Join(glue, items) != "" && Last(Join(glue, items)) == Last(Last(items))
  {
    if |items| > 1 { JoinEnds(items[1..], glue); }
  }

  lemma {:induction false} JoinLast(items: seq<string>, glue: string, more: string)
    requires items != []
    ensures Join(glue, items) + more == Join(glue, Front(items) + [Last(items) + more])
  {
    if |items| > 1 {
      var longer := Front(items) + [Last(items) + more];
      JoinLast(items[1..], glue, more);
      assert longer[1..] == Front(items[1..]) + [Last(items[1..]) + more];
      assert items[0] + glue + Join(glue, items[1..]) + more == items[0] + glue + (Join(glue, items[1..]) + more);
    } else {
      assert Front(items) + [Last(items) + more] == [items[0] + more];
    }
  }

  lemma SwallowedToken(u: Statement)
    requires UpdateOk(u) && CondItems(u) != []
    ensures Token(SetItem(Last(u.sets)) + (" where " + WhereClause(u)), ",")
  {
    var item, more := SetItem(Last(u.sets)), " where " + WhereClause(u);
    assert Last(u.sets) in u.sets;
    SetItemIsClosed(Last(u.sets), ",");
    WherePartIsClosed(u);
    ClosedConcat(item, more, ",");
    WhereEnds(u);
    WhereWordEnds(WhereClause(u));
    TrimmedConcat(item, more);
  }

  lemma WherePartIsClosed(u: Statement)
    requires UpdateOk(u)
    ensures Closed(" where " + WhereClause(u), ",")
  {
    WhereClauseIsClosed(u, ",");
    PlainIsClosed(" where ", ",");
    ClosedConcat(" where ", WhereClause(u), ",");
  }

  lemma TrimmedConcat(a: string, b: string)
    requires a != "" && b != "" && !IsSpace(a[0]) && !IsSpace(Last(b))
    ensures Trimmed(a + b)
  {
    assert Last(a + b) == Last(b);
  }

  /** The last SET item together with the WHERE clause it swallows. */
  function Swallowed(u: Statement): string
    requires u.sets != []
  {
    SetItem(Last(u.sets)) + (" where " + WhereClause(u))
  }

  lemma SwallowedValue(u: Statement)
    requires UpdateOk(u) && !WhereIsSetOff(u) && CondItems(u) != []
    ensures var r, c := Assignment(Swallowed(u)), Last(u.sets);
            r.Some? && r.value.column == c.column && r.value.value != ValueOf(c.value)
  {
    var c := Last(u.sets);
    assert c in u.sets;
    WhereEnds(u);
    WhereWordEnds(WhereClause(u));
    LongerValue(c, " where " + WhereClause(u));
  }

  lemma WhereWordEnds(clause: string)
    requires clause != ""
    ensures Last(" where " + clause) == Last(clause)
  {
  }

  lemma LongerValue(c: Cell, more: string)
    requires ColumnOk(c.column) && more != "" && !IsSpace(Last(more)) && (Last(more) == '\'' || c.value.None?)
    ensures var r := Assignment(SetItem(c) + more);
            r.Some? && r.value.column == c.column && r.value.value != ValueOf(c.value)
  {
    var text := ValueText(c.value) + more;
    ValueIsClosed(c.value, ",");
    TrimmedConcat(ValueText(c.value), more);
    TrimQuoted(c.column);
    QuotedHasNo(c.column, '=');
    AssignmentOf(Quoted(c.column), text);
    ItemText(c, more);
    MoreThanTheValue(c.value, more);
  }

  lemma ItemText(c: Cell, more: string)
    ensures SetItem(c) + more == Quoted(c.column) + " = " + (ValueText(c.value) + more)
  {
  }

  /** A literal or NULL with more text after it does not parse to the same value. */
  lemma MoreThanTheValue(v: Option<string>, more: string)
    requires more != "" && (Last(more) == '\'' || v.None?) && Trimmed(ValueText(v) + more)
    ensures ParseVal(ValueText(v) + more) != ValueOf(v)
  {
    match v
    case None => AfterNull(more);
    case Some(x) => AfterLiteral(x, more);
  }

  lemma AfterNull(more: string)
    requires more != "" && Trimmed("NULL" + more)
    ensures ParseVal("NULL" + more) != Null
  {
    StripTrimmed("NULL" + more);
  }

  lemma AfterLiteral(x: string, more: string)
    requires more != "" && Last(more) == '\'' && Trimmed(Literal(x) + more)
    ensures ParseVal(Literal(x) + more) != Str(x)
  {
    var text, rest := Literal(x) + more, "'" + Front(more);
    assert more == Front(more) + "'";
    assert text == "'" + (Doubled(x) + rest) + "'";
    QuotedText(Doubled(x) + rest);
    UndoubledPrefix(x, rest);
  }

  lemma QuotedText(inner: string)
    ensures ParseVal("'" + inner + "'") == Str(Undoubled(inner))
  {
    var text := "'" + inner + "'";
    StripTrimmed(text);
    assert Upper(text)[0] == '\'' && text[1..|text| - 1] == inner;
  }

  lemma {:induction false} AssignedLast(items: seq<string>)
    requires items != [] && Assignment(Last(items)).Some?
    ensures var r, m := Assignment(Last(items)).value, Assigned(items); r.column in m && m[r.column] == r.value
  {
  }

  /** With the WHERE missed, the last column's value runs on to the end of the statement. */
  lemma LastSwallowsWhere(u: Statement)
    requires UpdateOk(u) && CellsFree(u.sets, WHERE) && CellsFree(u.wheres, WHERE) && !WhereIsSetOff(u)
             && CondItems(u) != []
    ensures SetMap(Print(u)) != AsRow(u.sets)
  {
    SetPartOf(u);
    CutSwallowed(u);
    SwallowedValue(u);
    LastOne(Front(SetItems(u.sets)), Swallowed(u));
    AssignedLast(Front(SetItems(u.sets)) + [Swallowed(u)]);
  }

  lemma LastOne(items: seq<string>, item: string)
    ensures Last(items + [item]) == item
  {
  }

  lemma CutSwallowed(u: Statement)
    requires UpdateOk(u) && CondItems(u) != []
    ensures Cut(SetClause(u) + (" where " + WhereClause(u)), ",") == Front(SetItems(u.sets)) + [Swallowed(u)]
  {
    var longer := Front(SetItems(u.sets)) + [Swallowed(u)];
    forall i | 0 <= i < |longer| ensures Token(longer[i], ",") {
      if i < |longer| - 1 {
        assert u.sets[i] in u.sets;
        SetItemIsClosed(u.sets[i], ",");
      } else {
        SwallowedToken(u);
      }
    }
    JoinLast(SetItems(u.sets), ", ", " where " + WhereClause(u));
    CommaGlue();
    CutOfJoin(longer, ", ", ",");
  }

  lemma SetClauseRoundTrip(u: Statement)
    requires UpdateOk(u) && CellsFree(u.sets, WHERE) && (WhereIsSetOff(u) || CondItems(u) == [])
    ensures SetMap(Print(u)) == AsRow(u.sets)
  {
    if !WhereIsSetOff(u) { assert u.wheres == []; }
    SetPartOf(u);
    CutSetClause(u.sets);
    AssignedRoundTrip(u.sets);
  }

  /** Before the SET there is no WHERE to be found. */
  lemma WhereNotBeforeSet(u: Statement)
    requires UpdateOk(u)
    ensures Find(Print(u), WHERE) == -1 || Find(Print(u), WHERE) > |Head(u)|
  {
    var r := Find(Print(u), WHERE);
    var rest := SetClause(u) + Tail(u);
    KeywordsAreUpper();
    HeadIsClosed(u, WHERE);
    PrintIsBodyTail(u);
    FindIsLeast(Print(u), WHERE, r);
    if 0 <= r <= |Head(u)| { NoWhereInHead(Head(u), rest, r); }
  }

  lemma NoWhereInHead(head: string, rest: string, r: int)
    requires Calm(head, Upper(WHERE), false, false) && 0 <= r <= |head|
    ensures !Hit(head + " set " + rest, WHERE, r)
  {
    var sql := head + " set " + rest;
    assert sql == head + (" set " + rest);
    if r < |head| {
      NotHitBefore(head, " set " + rest, WHERE, r);
    } else {
      OtherSecondLetter(sql, WHERE, r);
    }
  }

  lemma OtherSecondLetter(sql: string, kw: string, i: nat)
    requires |kw| >= 2 && i + 1 < |sql| && UpperChar(sql[i + 1]) != UpperChar(kw[1])
    ensures !Hit(sql, kw, i)
  {
    if i + |kw| <= |sql| { assert Upper(sql[i..i + |kw|])[1] == UpperChar(sql[i + 1]); }
  }

  // ---- A WHERE seen too late -------------------------------------------------------------------------------

  /** After an unquoted NULL the WHERE is seen at the earliest inside its own clause. */
  lemma WhereIsLate(u: Statement)
    requires UpdateOk(u) && CellsFree(u.sets, WHERE) && Last(u.sets).value.None? && u.wheres != []
    ensures var r := Find(Print(u), WHERE); r == -1 || r >= |Body(u)| + 7
  {
    var sql, r := Print(u), Find(Print(u), WHERE);
    KeywordsAreUpper();
    BodyIsClosed(u);
    EndsOfValue(Last(u.sets).value);
    PrintWithWhere(u);
    WhereStarts(u);
    FindIsLeast(sql, WHERE, r);
    if 0 <= r < |Body(u)| + 7 {
      NoEarlyHit(Body(u), WhereClause(u) + ";", r);
    }
  }

  lemma NoEarlyHit(body: string, rest: string, r: nat)
    requires Calm(body, Upper(WHERE), false, false) && body != "" && IsWord(Last(body))
    requires rest != "" && rest[0] == '"' && r < |body| + 7
    ensures !Hit(body + " where " + rest, WHERE, r)
  {
    if r < |body| {
      Regroup(body, " where ", rest);
      NotHitBefore(body, " where " + rest, WHERE, r);
    } else {
      NoHitAtWord(body, rest, r - |body|);
    }
  }

  lemma NoHitAtWord(body: string, rest: string, k: nat)
    requires body != "" && IsWord(Last(body)) && rest != "" && rest[0] == '"' && k < 7
    ensures !Hit(body + " where " + rest, WHERE, |body| + k)
  {
    var sql := body + " where " + rest;
    WordLetters(body, rest, k);
    if k == 6 {
      OtherSecondLetter(sql, WHERE, |body| + 6);
    } else if k > 0 {
      OtherFirstLetter(sql, WHERE, |body| + k);
    }
  }

  lemma WordLetters(body: string, rest: string, k: nat)
    requires k < 7 && body != "" && rest != ""
    ensures var sql := body + " where " + rest;
            && |sql| > |body| + 7 && sql[|body| - 1] == Last(body) && sql[|body| + 7] == rest[0]
            && sql[|body| + k] == " where "[k] && (0 < k < 6 ==> UpperChar(" where "[k]) != ' ')
  {
  }

  lemma OtherFirstLetter(sql: string, kw: string, i: nat)
    requires kw != "" && i < |sql| && UpperChar(sql[i]) != UpperChar(kw[0])
    ensures !Hit(sql, kw, i)
  {
    if i + |kw| <= |sql| { assert Upper(sql[i..i + |kw|])[0] == UpperChar(sql[i]); }
  }

  lemma {:induction false} QuietPrefix(t: string, n: nat, inside: bool)
    requires n <= |t| && Quiet(t, ",", inside)
    ensures Quiet(t[..n], ",", inside)
    decreases |t|
  {
    if n > 0 {
      assert t[..n][1..] == t[1..][..n - 1] && t[..n][..1] == t[..1];
      QuietPrefix(t[1..], n - 1, Toggle(t[0], inside));
    }
  }

  /** Text without a separator lengthens the last field. */
  lemma {:induction false} LastFieldGrows(a: string, b: string, inside: bool)
    requires Quiet(b, ",", Inside(a, inside))
    ensures Fields(a + b, ",", inside) == Grown(Fields(a, ",", inside), b)
    decreases |a|
  {
    if a == "" {
      assert a + b == b && b + "" == b;
      FieldsSkip(b, "", ",", inside);
    } else {
      InsideFirst(a, inside);
      LastFieldGrows(a[1..], b, Toggle(a[0], inside));
      LastFieldStep(a, b, inside);
    }
  }

  function Grown(fields: seq<string>, b: string): (r: seq<string>)
    requires fields != []
  {
    Front(fields) + [Last(fields) + b]
  }

  lemma LastFieldStep(a: string, b: string, inside: bool)
    requires a != ""
    requires Fields(a[1..] + b, ",", Toggle(a[0], inside)) == Grown(Fields(a[1..], ",", Toggle(a[0], inside)), b)
    ensures Fields(a + b, ",", inside) == Grown(Fields(a, ",", inside), b)
  {
    assert (a + b)[1..] == a[1..] + b && (a + b)[..1] == a[..1];
    var rest := Fields(a[1..], ",", Toggle(a[0], inside));
    if !inside && Starts(a, ",") {
      InsidePlain(a);
      GrowSeparated(rest, b);
    } else {
      GrowAttached([a[0]], rest, b);
    }
  }

  lemma GrowSeparated(f: seq<string>, b: string)
    requires f != []
    ensures [""] + Grown(f, b) == Grown([""] + f, b)
  {
  }

  lemma InsidePlain(a: string)
    requires a != "" && Starts(a, ",")
    ensures a[0] == ',' && Toggle(a[0], false) == false
  {
    assert a[0..] == a;
    CommaStarts(a, 0);
  }

  lemma GrowAttached(c: string, f: seq<string>, b: string)
    requires f != []
    ensures Attach(c, Grown(f, b)) == Grown(Attach(c, f), b)
  {
    if |f| == 1 { assert c + (f[0] + b) == c + f[0] + b; }
  }

  lemma {:induction false} StripRightOf(a: string, b: string, k: nat)
    requires k < |b| && !IsSpace(b[k])
    ensures var n := |StripRight(b)|; k < n <= |b| && StripRight(b) == b[..n] && StripRight(a + b) == a + b[..n]
    decreases |b|
  {
    if IsSpace(Last(b)) {
      StripRightOf(a, Front(b), k);
      assert Front(a + b) == a + Front(b);
    }
  }

  lemma {:induction false} DropTrailingOf(a: string, b: string, k: nat)
    requires k < |b| && b[k] != ';'
    ensures var n := |DropTrailing(b, ';')|;
            k < n <= |b| && DropTrailing(b, ';') == b[..n] && DropTrailing(a + b, ';') == a + b[..n]
    decreases |b|
  {
    if Last(b) == ';' {
      DropTrailingOf(a, Front(b), k);
      assert Front(a + b) == a + Front(b);
    }
  }

  /** What stripping leaves of the SET clause with more text after it. */
  lemma Trimmings(t: string, m: string) returns (n: nat)
    requires t != "" && t[0] == '"' && |m| >= 2 && m[1] == 'w'
    ensures 2 <= n <= |m| && DropTrailing(Strip(t + m), ';') == t + m[..n]
  {
    StripRightOf(t, m, 1);
    var s := StripRight(m);
    DropTrailingOf(t, s, 1);
    n := |DropTrailing(s, ';')|;
    assert s[..n] == m[..n];
  }

  /** The SET clause with part of the WHERE clause behind it. */
  lemma LateSetPart(u: Statement) returns (more: string)
    requires UpdateOk(u) && CellsFree(u.sets, WHERE) && Last(u.sets).value.None? && u.wheres != []
    ensures |more| >= 2 && more[1] == 'w' && Quiet(more, ",", false)
    ensures SetPart(Print(u)) == Some(SetClause(u) + more)
  {
    WhereIsLate(u);
    SetIsFound(u);
    AfterBody(u);
    SetClauseHasEnds(u.sets);
    more := LatePart(Print(u), |Head(u)|, SetClause(u), WhereClause(u) + ";", Find(Print(u), WHERE));
    TailIsQuiet(u);
    QuietPrefix(" where " + (WhereClause(u) + ";"), |more|, false);
  }

  lemma LatePart(sql: string, p: nat, t: string, rest: string, r: int) returns (more: string)
    requires Find(sql, SET) == p && Find(sql, WHERE) == r && (r == -1 || r >= p + 5 + |t| + 7)
    requires t != "" && t[0] == '"' && p + 5 <= |sql| && sql[p + 5..] == t + (" where " + rest)
    ensures |more| >= 2 && more[1] == 'w' && |more| <= |" where " + rest| && more == (" where " + rest)[..|more|]
    ensures SetPart(sql) == Some(t + more)
  {
    var end := if r >= 0 then r else |sql|;
    assert |sql| - (p + 5) == |t| + |" where " + rest|;
    PartBefore(sql, p, end);
    more := LateText(sql, p + 5 + |t|, p + 5, end, t, rest);
  }

  lemma PartBefore(sql: string, p: nat, end: nat)
    requires Find(sql, SET) == p && p + 5 <= end <= |sql|
    requires end == if Find(sql, WHERE) >= 0 then Find(sql, WHERE) else |sql|
    ensures SetPart(sql) == Some(DropTrailing(Strip(sql[p + 5..end]), ';'))
  {
  }

  lemma LateText(sql: string, b: nat, p: nat, end: nat, t: string, rest: string) returns (more: string)
    requires p + |t| == b && b + 7 <= end <= |sql| && t != "" && t[0] == '"'
    requires sql[p..] == t + (" where " + rest)
    ensures |more| >= 2 && more[1] == 'w' && |more| <= |" where " + rest| && more == (" where " + rest)[..|more|]
    ensures DropTrailing(Strip(sql[p..end]), ';') == t + more
  {
    var all := " where " + rest;
    SliceOfTail(sql, b, p, end, t, all);
    assert all[1] == 'w';
    var n := Trimmings(t, all[..end - b]);
    more := all[..n];
    assert all[..end - b][..n] == more;
  }

  lemma SliceOfTail(sql: string, b: nat, p: nat, end: nat, t: string, all: string)
    requires p + |t| == b <= end <= |sql| && sql[p..] == t + all
    ensures end - b <= |all| && sql[p..end] == t + all[..end - b]
  {
    assert sql[p..end] == sql[p..][..end - p];
  }

  lemma AfterBody(u: Statement)
    requires u.sets != [] && CondItems(u) != []
    ensures |Body(u)| == |Head(u)| + 5 + |SetClause(u)|
    ensures |Print(u)| == |Body(u)| + 7 + |WhereClause(u)| + 1
    ensures Print(u)[|Head(u)| + 5..] == SetClause(u) + (" where " + (WhereClause(u) + ";"))
  {
    AfterSet(u, SetClause(u) + (" where " + WhereClause(u)));
    assert " where " + WhereClause(u) + ";" == " where " + (WhereClause(u) + ";");
    PrintIsBodyTail(u);
  }

  lemma TailIsQuiet(u: Statement)
    requires UpdateOk(u)
    ensures Quiet(" where " + (WhereClause(u) + ";"), ",", false)
  {
    WhereClauseIsClosed(u, ",");
    PlainIsClosed(" where ", ",");
    SemicolonAfter(WhereClause(u), ",");
    ClosedConcat(" where ", WhereClause(u) + ";", ",");
  }

  /** The last item read has the last column, with a value that is not NULL. */
  lemma LateItem(c: Cell, lead: string, more: string)
    requires ColumnOk(c.column) && c.value.None? && (lead == "" || lead == " ") && |more| >= 2 && more[1] == 'w'
    ensures var r := Assignment(Strip(lead + SetItem(c) + more));
            r.Some? && r.value.column == c.column && r.value.value != Null
  {
    var text := "NULL" + StripRight(more);
    StrippedItem(c, lead, more);
    TrimQuoted(c.column);
    QuotedHasNo(c.column, '=');
    AssignmentOf(Quoted(c.column), text);
    AfterNull(StripRight(more));
  }

  lemma StrippedItem(c: Cell, lead: string, more: string)
    requires c.value.None? && (lead == "" || lead == " ") && |more| >= 2 && more[1] == 'w'
    ensures var rest := StripRight(more);
            && rest != "" && Trimmed("NULL" + rest)
            && Strip(lead + SetItem(c) + more) == Quoted(c.column) + " = " + ("NULL" + rest)
  {
    var item, rest := SetItem(c), StripRight(more);
    NullItem(c, more);
    NullItem(c, rest);
    LateStripped(lead, item, more);
  }

  lemma LateStripped(lead: string, item: string, more: string)
    requires (lead == "" || lead == " ") && item != "" && item[0] == '"' && |more| >= 2 && more[1] == 'w'
    ensures var rest := StripRight(more);
            rest != "" && Trimmed("NULL" + rest) && Strip(lead + item + more) == item + rest
  {
    StripRightOf(item, more, 1);
    Regroup(lead, item, more);
    LeadStripped(lead, item + more);
    StripRightEnds(more);
    TrimmedConcat("NULL", StripRight(more));
  }

  lemma Regroup(a: string, b: string, c: string)
    ensures a + b + c == a + (b + c) && (b != "" ==> (b + c)[0] == b[0])
  {
  }

  lemma NullItem(c: Cell, more: string)
    requires c.value.None?
    ensures SetItem(c) + more == Quoted(c.column) + " = " + ("NULL" + more) && SetItem(c)[0] == '"'
  {
  }

  lemma LeadStripped(lead: string, t: string)
    requires (lead == "" || lead == " ") && t != "" && t[0] == '"'
    ensures Strip(lead + t) == StripRight(t)
  {
    if lead == "" {
      assert lead + t == t;
    } else {
      assert (lead + t)[1..] == t && StripLeft(t) == t;
    }
  }

  /** Wherever the WHERE is seen at last, the last column has lost its NULL. */
  lemma LastSwallowsMore(u: Statement)
    requires UpdateOk(u) && CellsFree(u.sets, WHERE) && Last(u.sets).value.None? && u.wheres != []
    ensures SetMap(Print(u)) != AsRow(u.sets)
  {
    var more := LateSetPart(u);
    assert Last(u.sets) in u.sets;
    var lead := LongerClause(u.sets, more);
    LateItem(Last(u.sets), lead, more);
    AssignedLast(Cut(SetClause(u) + more, ","));
  }

  lemma LongerClause(cells: seq<Cell>, more: string) returns (lead: string)
    requires CellsOk(cells) && CellsFree(cells, WHERE) && cells != [] && Quiet(more, ",", false)
    ensures lead == "" || lead == " "
    ensures var items := Cut(Join(", ", SetItems(cells)) + more, ",");
            items != [] && Last(items) == Strip(lead + SetItem(Last(cells)) + more)
  {
    var t := Join(", ", SetItems(cells));
    lead := LastField(cells);
    SetClauseIsOutside(cells);
    LastFieldGrows(t, more, false);
    LastOfCut(t + more, Front(Fields(t, ",", false)), lead + SetItem(Last(cells)) + more);
  }

  lemma LastField(cells: seq<Cell>) returns (lead: string)
    requires CellsOk(cells) && cells != []
    ensures (lead == "" || lead == " ")
            && Last(Fields(Join(", ", SetItems(cells)), ",", false)) == lead + SetItem(Last(cells))
  {
    SetTokens(cells);
    FieldsOfJoin(SetItems(cells), ", ", ",");
    lead := LastSpaced(Fields(Join(", ", SetItems(cells)), ",", false), SetItems(cells));
  }

  lemma LastSpaced(f: seq<string>, parts: seq<string>) returns (lead: string)
    requires f != [] && Spaced(f, parts, " ")
    ensures (lead == "" || lead == " ") && parts != [] && Last(f) == lead + Last(parts)
  {
    lead := if |f| == 1 then "" else " ";
    assert "" + parts[0] == parts[0];
  }

  lemma LastOfCut(s: string, front: seq<string>, last: string)
    requires Fields(s, ",", false) == front + [last] && last != ""
    ensures Cut(s, ",") != [] && Last(Cut(s, ",")) == Strip(last)
  {
    assert Last(front + [last]) == last;
  }

  lemma SetTokens(cells: seq<Cell>)
    requires CellsOk(cells)
    ensures Glue(", ", ",") && ", "[1..] == " " && forall i :: 0 <= i < |cells| ==> Token(SetItems(cells)[i], ",")
  {
    CommaGlue();
    forall i | 0 <= i < |cells| ensures Token(SetItems(cells)[i], ",") {
      assert cells[i] in cells;
      SetItemIsClosed(cells[i], ",");
    }
  }

  lemma SetClauseIsOutside(cells: seq<Cell>)
    requires CellsOk(cells) && CellsFree(cells, WHERE) && cells != []
    ensures !Inside(Join(", ", SetItems(cells)), false)
  {
    SetClauseIsClosed(cells, WHERE);
  }

  // ---- Round trips, exactly --------------------------------------------------------------------------------

  /** The SET clause comes back exactly, whatever its values contain, if and only if no SET column's name
      has the word where set off in it, and the WHERE, if there is one, stands after a quoted last value
      and before a quoted column. */
  lemma SetRoundTripIff(u: Statement)
    requires UpdateOk(u)
    ensures SetMap(Print(u)) == AsRow(u.sets) <==> CellsFree(u.sets, WHERE) && (WhereIsSetOff(u) || CondItems(u) == [])
  {
    if !CellsFree(u.sets, WHERE) {
      var c :| c in u.sets && !NameFree(c.column, WHERE);
      InAsRow(u.sets, c);
      SetIsFound(u);
      WhereNotBeforeSet(u);
      if c.column in SetMap(Print(u)) { SetKeyIsFree(Print(u), c.column); }
    } else if WhereIsSetOff(u) || CondItems(u) == [] {
      SetClauseRoundTrip(u);
    } else if u.wheres == [] {
      LastSwallowsWhere(u);
    } else {
      LastSwallowsMore(u);
    }
  }

  /** An UPDATE comes back whole, its SET values and its WHERE conditions, if and only if no SET column's
      name has the word where set off in it, and the WHERE, if there is one, is set off by quotes and no
      WHERE column's name has the words and or is null set off in it. */
  lemma RoundTripIff(u: Statement)
    requires UpdateOk(u)
    ensures SetMap(Print(u)) == AsRow(u.sets) && WhereMap(Print(u)) == AsRow(u.wheres)
            <==> CellsFree(u.sets, WHERE)
                 && (CondItems(u) == []
                     || (WhereIsSetOff(u) && CellsFree(u.wheres, AND) && CellsFree(u.wheres, ISNULL)))
  {
    SetRoundTripIff(u);
    if CellsFree(u.sets, WHERE) && (WhereIsSetOff(u) || CondItems(u) == []) {
      if !WhereIsSetOff(u) { assert u.wheres == []; }
      WhereRoundTripIff(u);
    }
  }

  lemma WhereClauseRoundTrip(u: Statement)
    requires UpdateOk(u) && CellsFree(u.sets, WHERE) && WhereIsSetOff(u)
    requires CellsFree(u.wheres, AND) && CellsFree(u.wheres, ISNULL)
    ensures WhereMap(Print(u)) == AsRow(u.wheres)
  {
    WhereIsFound(u);
    PrintWithWhere(u);
    WhereEnds(u);
    assert Print(u)[|Body(u)| + 7..] == WhereClause(u) + ";";
    Unterminated(WhereClause(u));
    CutWhereClause(u);
    RequiredRoundTrip(u);
  }

  /** The WHERE conditions come back exactly, nulls included and the row id ignored, if and only if there
      are none, or the WHERE is set off and no column's name has the words and or is null set off in it. */
  lemma WhereRoundTripIff(u: Statement)
    requires UpdateOk(u) && CellsFree(u.sets, WHERE) && (WhereIsSetOff(u) || CellsFree(u.wheres, WHERE))
    ensures WhereMap(Print(u)) == AsRow(u.wheres)
            <==> u.wheres == [] || (WhereIsSetOff(u) && CellsFree(u.wheres, AND) && CellsFree(u.wheres, ISNULL))
  {
    if u.wheres == [] {
      NoConditions(u);
    } else if !WhereIsSetOff(u) {
      WhereIsMissed(u);
      InAsRow(u.wheres, u.wheres[0]);
    } else if CellsFree(u.wheres, AND) && CellsFree(u.wheres, ISNULL) {
      WhereClauseRoundTrip(u);
    } else {
      WhereNameIsLost(u);
    }
  }

  lemma NoConditions(u: Statement)
    requires UpdateOk(u) && CellsFree(u.sets, WHERE) && u.wheres == []
    ensures WhereMap(Print(u)) == AsRow(u.wheres)
  {
    if CondItems(u) == [] { NoWhereIsFound(u); } else { WhereIsMissed(u); }
  }

  lemma WhereNameIsLost(u: Statement)
    requires UpdateOk(u) && !(CellsFree(u.wheres, AND) && CellsFree(u.wheres, ISNULL))
    ensures WhereMap(Print(u)) != AsRow(u.wheres)
  {
    if !CellsFree(u.wheres, AND) {
      var c :| c in u.wheres && !NameFree(c.column, AND);
      NameIsLost(u, c);
    } else {
      var c :| c in u.wheres && !NameFree(c.column, ISNULL);
      NameIsLost(u, c);
    }
  }

  lemma NameIsLost(u: Statement, c: Cell)
    requires c in u.wheres && '\'' !in c.column && !(NameFree(c.column, AND) && NameFree(c.column, ISNULL))
    ensures WhereMap(Print(u)) != AsRow(u.wheres)
  {
    InAsRow(u.wheres, c);
    if c.column in WhereMap(Print(u)) { WhereKeyIsFree(Print(u), c.column); }
  }

  // ---- Ordinary names, and where the promise breaks ----------------------------------------------------------

  lemma {:induction false} PlainNameMentionsNone(name: string, k: string)
    requires Splits(k) && ' ' !in name && ',' !in name
    ensures !Mentions(name, k)
  {
    if name != "" {
      assert name[0] in name;
      PlainNameMentionsNone(name[1..], k);
    }
    if Starts(name, k) { StartsFirst(name, k); }
  }

  /** Names without blanks and commas are never mistaken for a keyword. */
  lemma PlainNamesAreFree(name: string, k: string)
    requires Keyword(k) && ' ' !in name && ',' !in name && '\'' !in name
    ensures NameFree(name, k)
  {
    if Splits(k) {
      PlainNameMentionsNone(name, k);
    } else {
      KeywordIsUpper(k);
      PlainIsClosed(Quoted(name), k);
      FindNothing(Quoted(name), k);
    }
  }

  /** A WHERE column named `B and C` is not recovered, although its name has no quote, comma or equals sign. */
  lemma AndInNameIsLost()
    ensures var u := Statement("S", "T", [Cell("A", Some("1"))], [Cell("B and C", Some("2"))], None);
            WhereMap(Print(u)) != AsRow(u.wheres)
  {
    var c := Cell("B and C", Some("2"));
    var u := Statement("S", "T", [Cell("A", Some("1"))], [c], None);
    assert "B and C"[1..] == " and C" && " and C"[..5] == " and " && Upper(" and ") == AND;
    NameIsLost(u, c);
  }

  lemma PlainNameIsOk(name: string)
    requires ' ' !in name && ',' !in name && '\'' !in name && '"' !in name && '=' !in name && Upper(name) != "ROWID"
    ensures ColumnOk(name) && TableNameOk(name) && NameFree(name, WHERE)
  {
    PlainNamesAreFree(name, ",");
    PlainNamesAreFree(name, SET);
    PlainNamesAreFree(name, WHERE);
  }

  /** Setting the last column to NULL swallows the WHERE clause. */
  lemma NullBeforeWhereIsLost()
    ensures var u := Statement("S", "T", [Cell("A", None)], [Cell("B", Some("2"))], None);
            SetMap(Print(u)) != AsRow(u.sets)
  {
    var u := Statement("S", "T", [Cell("A", None)], [Cell("B", Some("2"))], None);
    assert |Upper("S")| == |Upper("T")| == |Upper("A")| == |Upper("B")| == 1;
    PlainNameIsOk("S");
    PlainNameIsOk("T");
    PlainNameIsOk("A");
    PlainNameIsOk("B");
    LastSwallowsMore(u);
  }
}
