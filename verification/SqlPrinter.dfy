// The sink's literal printer against the redo-SQL scanner: what one prints, the other reads back.
module SqlPrinter {
  import opened Prelude
  import opened Text
  import opened SqlScan
  import opened RedoSql
  import opened Events

  /** A value as SQL text. */
  function Escape(v: Value): string {
    match v
    case Null => "NULL"
    case Bool(b) => if b then "TRUE" else "FALSE"
    case Int(n) => IntText(n)
    case Timestamp(text) => "CAST('" + text + "' AS TIMESTAMP)"
    case Date(text) => "CAST('" + text + "' AS DATE)"
    case Bytes(hex) => "'" + hex + "'"
    case Str(text) => "'" + Doubled(text) + "'"
  }

  function EscapeAll(vs: seq<Value>): (r: seq<string>)
    ensures |r| == |vs| && forall i :: 0 <= i < |r| ==> r[i] == Escape(vs[i])
  {
    seq(|vs|, i requires 0 <= i < |vs| => Escape(vs[i]))
  }

  /** Hex digits and formatted times hold no quote. */
  predicate Printable(v: Value) {
    match v
    case Timestamp(text) => '\'' !in text
    case Date(text) => '\'' !in text
    case Bytes(hex) => '\'' !in hex
    case _ => true
  }

  predicate Recovered(v: Value) {
    v.Null? || v.Int? || v.Str?
  }

  lemma {:induction false} DoubledPlain(s: string)
    requires '\'' !in s
    ensures Doubled(s) == s
  {
    if s != "" { DoubledPlain(s[1..]); }
  }

  /** Text without quotes and without `sep`'s first character is quiet and keeps the scanner outside. */
  lemma {:induction false} PlainIsQuiet(s: string, sep: string)
    requires sep != "" && '\'' !in s && forall c :: c in s ==> UpperChar(c) != sep[0]
    ensures Quiet(s, sep, false) && !Inside(s, false)
  {
    if s != "" {
      PlainIsQuiet(s[1..], sep);
      InsideFirst(s, false);
      assert s[0] in s;
      assert Upper(s[..Min(|s|, |sep|)])[0] == UpperChar(s[0]);
    }
  }

  lemma WrappedLiteral(before: string, text: string, after: string)
    requires before != "" && after != "" && !IsSpace(before[0]) && !IsSpace(Last(after))
    requires '\'' !in before && '\'' !in after && ',' !in before && ',' !in after && '\'' !in text
    ensures Token(before + ("'" + text + "'") + after, ",")
  {
    DoubledPlain(text);
    LiteralIsToken(text, ",");
    PlainIsQuiet(before, ",");
    PlainIsQuiet(after, ",");
    var lit := Literal(text);
    QuietConcat(before, lit, ",", false);
    InsideConcat(before, lit, false);
    QuietConcat(before + lit, after, ",", false);
    InsideConcat(before + lit, after, false);
  }

  lemma PlainToken(s: string)
    requires s != "" && Trimmed(s) && '\'' !in s && ',' !in s
    ensures Token(s, ",")
  {
    PlainIsQuiet(s, ",");
  }

  lemma WordToken(word: string)
    requires word == "NULL" || word == "TRUE" || word == "FALSE"
    ensures Token(word, ",")
  {
    PlainToken(word);
  }

  lemma NumberToken(n: int)
    ensures Token(IntText(n), ",")
  {
    var t := IntText(n);
    IntRoundTrip(n);
    assert forall i :: 0 <= i < |t| ==> t[i] == '-' || IsDigit(t[i]);
    PlainToken(t);
  }

  lemma TimeToken(text: string, kind: string)
    requires '\'' !in text && (kind == " AS TIMESTAMP)" || kind == " AS DATE)")
    ensures Token("CAST('" + text + "'" + kind, ",")
  {
    WrappedLiteral("CAST(", text, kind);
    assert "CAST('" + text + "'" + kind == "CAST(" + ("'" + text + "'") + kind;
  }

  /** Every printed value is one comma-free token to the splitter. */
  lemma EscapeIsToken(v: Value)
    requires Printable(v)
    ensures Token(Escape(v), ",")
  {
    match v
    case Null => WordToken("NULL");
    case Bool(b) => WordToken(if b then "TRUE" else "FALSE");
    case Int(n) => NumberToken(n);
    case Str(text) => LiteralIsToken(text, ",");
    case Bytes(hex) =>
      DoubledPlain(hex);
      LiteralIsToken(hex, ",");
    case Timestamp(text) =>
      TimeToken(text, " AS TIMESTAMP)");
      CastText(text, " AS TIMESTAMP)", "' AS TIMESTAMP)");
    case Date(text) =>
      TimeToken(text, " AS DATE)");
      CastText(text, " AS DATE)", "' AS DATE)");
  }

  lemma CastText(text: string, kind: string, closing: string)
    requires closing == "'" + kind
    ensures "CAST('" + text + closing == "CAST('" + text + "'" + kind
  {
  }

  /** Splitting the printed list gives back exactly the printed values, for every list. */
  lemma SplitInvertsJoin(vs: seq<Value>)
    requires forall v :: v in vs ==> Printable(v)
    ensures Cut(Join(", ", EscapeAll(vs)), ",") == EscapeAll(vs)
  {
    forall i | 0 <= i < |vs| ensures Token(EscapeAll(vs)[i], ",") {
      EscapeIsToken(vs[i]);
    }
    CommaGlue();
    CutOfJoin(EscapeAll(vs), ", ", ",");
  }

  lemma ParseLiteral(text: string)
    ensures ParseVal(Literal(text)) == Str(text)
  {
    var t := Literal(text);
    StripTrimmed(t);
    assert Upper(t)[0] == '\'';
    assert t[1..|t| - 1] == Doubled(text);
    UndoubledDoubled(text);
  }

  lemma ParseNumber(n: int)
    ensures ParseVal(IntText(n)) == Int(n)
  {
    IntRoundTrip(n);
    NumberStart(n);
    StripTrimmed(IntText(n));
  }

  /** A number's text is taken for neither a null, a literal nor a HEXTORAW call. */
  lemma NumberStart(n: int)
    ensures var t := IntText(n);
            t != "" && t[0] != '\'' && Upper(t) != "NULL" && !StartsWith(Upper(t), "HEXTORAW(")
  {
    var t := IntText(n);
    assert t[0] == '-' || IsDigit(t[0]);
    assert Upper(t)[0] == t[0];
    if StartsWith(Upper(t), "HEXTORAW(") { StartsWithFirst(Upper(t), "HEXTORAW("); }
  }

  lemma ParseNull()
    ensures ParseVal("NULL") == Null
  {
    StripTrimmed("NULL");
    assert Upper("NULL") == "NULL";
  }

  /** Parsing a printed value gives the value back exactly for nulls, integers and strings. */
  lemma ParseInvertsEscapeIff(v: Value)
    ensures ParseVal(Escape(v)) == v <==> Recovered(v)
  {
    match v
    case Null => ParseNull();
    case Int(n) => ParseNumber(n);
    case Str(text) => ParseLiteral(text);
    case _ =>
  }

  // ---- What a printed value means --------------------------------------------------------------------------

  predicate EndsWith(s: string, p: string) {
    |p| <= |s| && s[|s| - |p|..] == p
  }

  /** The SQL reading of a literal: keywords, casts around quoted texts, integers and quoted strings. */
  function ReadLiteral(s: string): Option<Value> {
    if s == "NULL" then Some(Null)
    else if s == "TRUE" then Some(Bool(true))
    else if s == "FALSE" then Some(Bool(false))
    else if StartsWith(s, "CAST('") && EndsWith(s, "' AS TIMESTAMP)") && |s| >= 21 then Some(Timestamp(s[6..|s| - 15]))
    else if StartsWith(s, "CAST('") && EndsWith(s, "' AS DATE)") && |s| >= 16 then Some(Date(s[6..|s| - 10]))
    else if |s| >= 2 && s[0] == '\'' && Last(s) == '\'' then Some(Str(Undoubled(s[1..|s| - 1])))
    else match ParseInt(s) { case Some(n) => Some(Int(n)) case None => None }
  }

  /** Every printed value is read back as itself; bytes come back as the string of their hex digits. */
  lemma ReadInvertsEscape(v: Value)
    requires Printable(v)
    ensures ReadLiteral(Escape(v)) == Some(if v.Bytes? then Str(v.hex) else v)
  {
    match v
    case Null =>
    case Bool(b) =>
    case Int(n) => ReadInteger(n);
    case Timestamp(text) => ReadTimestamp(text);
    case Date(text) => ReadDate(text);
    case Str(text) => ReadString(text);
    case Bytes(hex) =>
      DoubledPlain(hex);
      ReadString(hex);
  }

  lemma ReadInteger(n: int)
    ensures ReadLiteral(IntText(n)) == Some(Int(n))
  {
    IntRoundTrip(n);
    assert IntText(n)[0] == '-' || IsDigit(IntText(n)[0]);
  }

  lemma ReadString(text: string)
    ensures ReadLiteral("'" + Doubled(text) + "'") == Some(Str(text))
  {
    var s := "'" + Doubled(text) + "'";
    assert s[0] == '\'' && s[1..|s| - 1] == Doubled(text);
    UndoubledDoubled(text);
  }

  lemma ReadTimestamp(text: string)
    ensures ReadLiteral("CAST('" + text + "' AS TIMESTAMP)") == Some(Timestamp(text))
  {
    Framed("CAST('", text, "' AS TIMESTAMP)");
  }

  lemma ReadDate(text: string)
    ensures ReadLiteral("CAST('" + text + "' AS DATE)") == Some(Date(text))
  {
    var s := "CAST('" + text + "' AS DATE)";
    Framed("CAST('", text, "' AS DATE)");
    NotATimestamp(s);
  }

  lemma NotATimestamp(s: string)
    requires EndsWith(s, "' AS DATE)")
    ensures !EndsWith(s, "' AS TIMESTAMP)")
  {
    assert s[|s| - 10..][7] == s[|s| - 3];
    if |s| >= 15 { assert s[|s| - 15..][12] == s[|s| - 3]; }
  }

  lemma Framed(a: string, b: string, c: string)
    requires a != ""
    ensures var s := a + b + c;
            && StartsWith(s, a) && EndsWith(s, c) && s[|a|..|s| - |c|] == b && s[0] == a[0] && |s| >= |a| + |c|
  {
  }

  /** Two values are printed alike only if they are the same, or bytes and the string of their hex digits. */
  lemma EscapeIsInjective(v: Value, w: Value)
    requires Printable(v) && Printable(w) && Escape(v) == Escape(w)
    ensures v == w || (v.Bytes? && w == Str(v.hex)) || (w.Bytes? && v == Str(w.hex))
  {
    ReadInvertsEscape(v);
    ReadInvertsEscape(w);
  }

  /** A whole printed row of nulls, integers and strings is read back value by value. */
  lemma RowRoundTrip(vs: seq<Value>)
    requires forall v :: v in vs ==> Recovered(v)
    ensures var tokens := Cut(Join(", ", EscapeAll(vs)), ",");
            |tokens| == |vs| && forall i :: 0 <= i < |vs| ==> ParseVal(tokens[i]) == vs[i]
  {
    SplitInvertsJoin(vs);
    forall i | 0 <= i < |vs| ensures ParseVal(EscapeAll(vs)[i]) == vs[i] {
      ParseInvertsEscapeIff(vs[i]);
    }
  }
  // ---- What the redo parser keeps as text ------------------------------------------------------------------------

  /** A binary value stays the call that LogMiner prints, whatever the case of its name. */
  lemma HexCallIsKept(s: string)
    requires s != "" && Trimmed(s) && |s| >= 9 && Upper(s[..9]) == "HEXTORAW("
    ensures ParseVal(s) == Str(s)
  {
    StripTrimmed(s);
    assert Upper(s)[..9] == Upper(s[..9]);
    assert Upper(s[..9])[0] == UpperChar(s[0]) && Upper(s)[0] == UpperChar(s[0]);
  }

  /** Any other bare text stays as it stands: decimals, dates, names. */
  lemma BareTextIsKept(s: string, i: nat)
    requires Trimmed(s) && i < |s| && s[0] != '\'' && !IsDigit(s[i]) && (i > 0 || (s[0] != '-' && s[0] != '+'))
    requires Upper(s) != "NULL"
    ensures ParseVal(s) == Str(s)
  {
    StripTrimmed(s);
    if i > 0 { assert s[1..][i - 1] == s[i]; }
  }

  /** Blanks around a value do not matter, and without a value there is null. */
  lemma BlanksDoNotMatter(s: string)
    ensures ParseVal(s) == ParseVal(Strip(s)) && (Strip(s) == "" ==> ParseVal(s) == Null)
  {
    StripTwice(s);
  }
}
