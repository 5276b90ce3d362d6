// Oracle LogMiner's redo SQL: reading column values back out of UPDATE statements.
module RedoSql {
  import opened Prelude
  import opened Text
  import opened SqlScan
  import opened SqlFind
  import opened Events

  const SET := " SET "
  const WHERE := " WHERE "
  const ISNULL := " IS NULL"

  lemma IsNullIsUpper()
    ensures Upper(ISNULL) == ISNULL
  {
    forall i | 0 <= i < |ISNULL| ensures UpperChar(ISNULL[i]) == ISNULL[i] {
    }
  }

  /** A quoted identifier. */
  function Quoted(name: string): string {
    "\"" + name + "\""
  }

  /** One literal or bare value. Decimal numbers stay text here. */
  function ParseVal(s: string): Value {
    var t := Strip(s);
    if t == "" || Upper(t) == "NULL" then Null
    else if t[0] == '\'' && Last(t) == '\'' then Str(if |t| == 1 then "" else Undoubled(t[1..|t| - 1]))
    else if StartsWith(Upper(t), "HEXTORAW(") then Str(t)
    else match ParseInt(t) { case Some(n) => Int(n) case None => Str(t) }
  }

  /** A recovered column value. */
  datatype Entry = Entry(column: string, value: Value)

  /** `column = value`; nothing without an equals sign or for the row id. */
  function Assignment(item: string): Option<Entry> {
    var eq := IndexOf(item, '=');
    if eq < 0 then None
    else
      var col := TrimChar(Strip(item[..eq]), '"');
      if Upper(col) == "ROWID" then None else Some(Entry(col, ParseVal(Strip(item[eq + 1..]))))
  }

  /** `column = value` or `column IS NULL`. */
  function Condition(text: string): Option<Entry> {
    var cond := Strip(text);
    var at := Find(cond, ISNULL);
    if at >= 0 then
      var col := TrimChar(Strip(cond[..at]), '"');
      if Upper(col) == "ROWID" then None else Some(Entry(col, Null))
    else Assignment(cond)
  }

  function Put(m: map<string, Value>, entry: Option<Entry>): map<string, Value> {
    if entry.Some? then m[entry.value.column := entry.value.value] else m
  }

  function Assigned(items: seq<string>): map<string, Value> {
    if items == [] then map[] else Put(Assigned(Front(items)), Assignment(Last(items)))
  }

  function Required(conds: seq<string>): map<string, Value> {
    if conds == [] then map[] else Put(Required(Front(conds)), Condition(Last(conds)))
  }

  /** The text between SET and the WHERE after it, if there is a SET. */
  function SetPart(sql: string): Option<string> {
    var setPos, wherePos := Find(sql, SET), Find(sql, WHERE);
    if setPos < 0 then None
    else
      var end := if wherePos > setPos then wherePos else |sql|;
      Some(DropTrailing(Strip(if setPos + 5 <= end then sql[setPos + 5..end] else ""), ';'))
  }

  function WherePart(sql: string): Option<string> {
    var wherePos := Find(sql, WHERE);
    if wherePos < 0 then None else Some(DropTrailing(Strip(sql[wherePos + 7..]), ';'))
  }

  function SetMap(sql: string): map<string, Value> {
    match SetPart(sql) case None => map[] case Some(part) => Assigned(Cut(part, ","))
  }

  function WhereMap(sql: string): map<string, Value> {
    match WherePart(sql) case None => map[] case Some(part) => Required(Cut(part, AND))
  }

  method ParseSet(sql: string) returns (result: map<string, Value>)
    ensures result == SetMap(sql)
  {
    var setPos := FindKw(sql, SET);
    var wherePos := FindKw(sql, WHERE);
    result := map[];
    if setPos < 0 {
      return;
    }
    var end := if wherePos > setPos then wherePos else |sql|;
    var part := DropTrailing(Strip(if setPos + 5 <= end then sql[setPos + 5..end] else ""), ';');
    assert SetPart(sql) == Some(part);
    var items := CsvSplit(part);
    result := TakeItems(items);
    SetMapOf(sql, part);
  }

  lemma SetMapOf(sql: string, part: string)
    requires SetPart(sql) == Some(part)
    ensures SetMap(sql) == Assigned(Cut(part, ","))
  {
  }

  lemma AssignedStep(items: seq<string>, k: nat)
    requires k < |items|
    ensures Assigned(items[..k + 1]) == Put(Assigned(items[..k]), Assignment(items[k]))
  {
    assert Front(items[..k + 1]) == items[..k];
  }

  lemma RequiredStep(conds: seq<string>, k: nat)
    requires k < |conds|
    ensures Required(conds[..k + 1]) == Put(Required(conds[..k]), Condition(conds[k]))
  {
    assert Front(conds[..k + 1]) == conds[..k];
  }

  /** The loop over the SET items. */
  method TakeItems(items: seq<string>) returns (result: map<string, Value>)
    ensures result == Assigned(items)
  {
    result := map[];
    for k := 0 to |items|
      invariant result == Assigned(items[..k])
    {
      AssignedStep(items, k);
      var item := items[k];
      var eq := IndexOf(item, '=');
      if eq < 0 {
        continue;
      }
      var col := TrimChar(Strip(item[..eq]), '"');
      var val := ParseVal(Strip(item[eq + 1..]));
      if Upper(col) != "ROWID" {
        result := result[col := val];
      }
    }
    assert items[..|items|] == items;
  }

  method ParseWhere(sql: string) returns (result: map<string, Value>)
    ensures result == WhereMap(sql)
  {
    var wherePos := FindKw(sql, WHERE);
    result := map[];
    if wherePos < 0 {
      return;
    }
    var conds := AndSplit(DropTrailing(Strip(sql[wherePos + 7..]), ';'));
    result := TakeConds(conds);
  }

  /** The loop over the WHERE conditions. */
  method TakeConds(conds: seq<string>) returns (result: map<string, Value>)
    ensures result == Required(conds)
  {
    result := map[];
    for k := 0 to |conds|
      invariant result == Required(conds[..k])
    {
      RequiredStep(conds, k);
      var cond := Strip(conds[k]);
      var at := FindKw(cond, ISNULL);
      if at >= 0 {
        var col := TrimChar(Strip(cond[..at]), '"');
        if Upper(col) != "ROWID" {
          result := result[col := Null];
        }
        continue;
      }
      var eq := IndexOf(cond, '=');
      if eq < 0 {
        continue;
      }
      var col := TrimChar(Strip(cond[..eq]), '"');
      var val := ParseVal(Strip(cond[eq + 1..]));
      if Upper(col) != "ROWID" {
        result := result[col := val];
      }
    }
    assert conds[..|conds|] == conds;
  }
}
