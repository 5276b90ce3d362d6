// What the scanners' notions mean character by character: case, blanks, words, open literals, decimal text.
module TextLaws {
  import opened Prelude
  import opened Text
  import opened SqlScan
  import opened SqlFind
  import opened RedoSql
  import opened RedoKeys
  import opened Events

  // ---- Characters ------------------------------------------------------------------------------------------

  /** The same ASCII character, in either case. */
  predicate SameLetter(c: char, d: char) {
    c == d
    || ('a' <= c <= 'z' && d as int == c as int - 32)
    || ('a' <= d <= 'z' && c as int == d as int - 32)
  }

  predicate SameText(a: string, b: string) {
    |a| == |b| && forall i :: 0 <= i < |a| ==> SameLetter(a[i], b[i])
  }

  lemma UpperForgetsCase(a: string, b: string)
    ensures Upper(a) == Upper(b) <==> SameText(a, b)
  {
    if Upper(a) == Upper(b) {
      assert |Upper(a)| == |a| && |Upper(b)| == |b|;
      forall i | 0 <= i < |a| ensures SameLetter(a[i], b[i]) {
        assert Upper(a)[i] == Upper(b)[i];
      }
    }
  }

  /** A letter, a digit or an underscore. */
  predicate InWord(c: char) {
    'a' <= c <= 'z' || 'A' <= c <= 'Z' || '0' <= c <= '9' || c == '_'
  }

  /** Space, tab, line feed, vertical tab, form feed, carriage return and the four separators. */
  predicate IsBlank(c: char) {
    c as int in {32, 9, 10, 11, 12, 13, 28, 29, 30, 31}
  }

  lemma BlanksAre(c: char)
    ensures IsSpace(c) <==> IsBlank(c)
  {
  }

  /** Stripping takes the blanks at both ends and nothing else. */
  lemma StripMeans(s: string) returns (a: string, b: string)
    ensures s == a + Strip(s) + b
    ensures forall c :: c in a || c in b ==> IsBlank(c)
    ensures Strip(s) != "" ==> !IsBlank(Strip(s)[0]) && !IsBlank(Last(Strip(s)))
  {
    a, b := StripParts(s);
    StripTwice(s);
    forall c | c in a || c in b ensures IsBlank(c) { BlanksAre(c); }
    if Strip(s) != "" {
      BlanksAre(Strip(s)[0]);
      BlanksAre(Last(Strip(s)));
    }
  }

  lemma {:induction false} DropEnds(s: string, c: char)
    ensures DropLeading(s, c) != "" ==> DropLeading(s, c)[0] != c
    ensures DropTrailing(s, c) != "" ==> Last(DropTrailing(s, c)) != c && DropTrailing(s, c)[0] == s[0]
    decreases |s|
  {
    if s != "" && s[0] == c { DropEnds(s[1..], c); }
    if s != "" && Last(s) == c { DropEnds(Front(s), c); }
  }

  /** Trimming takes every copy of the character at both ends, and nothing else. */
  lemma TrimMeans(s: string, c: char) returns (a: string, b: string)
    ensures s == a + TrimChar(s, c) + b && forall d :: d in a || d in b ==> d == c
    ensures TrimChar(s, c) != "" ==> TrimChar(s, c)[0] != c && Last(TrimChar(s, c)) != c
  {
    a := DropLeadingPart(s, c);
    b := DropTrailingPart(DropLeading(s, c), c);
    DropEnds(s, c);
    DropEnds(DropLeading(s, c), c);
    assert s == a + (TrimChar(s, c) + b);
  }

  // ---- Literals and keywords -------------------------------------------------------------------------------

  function Quotes(s: string): nat {
    if s == "" then 0 else Quotes(Front(s)) + if Last(s) == '\'' then 1 else 0
  }

  /** A position lies inside a literal exactly if an odd number of quotes stands before it. */
  lemma {:induction false} InsideIsOdd(s: string)
    ensures Inside(s, false) <==> Quotes(s) % 2 == 1
  {
    if s != "" { InsideIsOdd(Front(s)); }
  }

  /** A keyword is hit where it stands in any case, outside literals, with no character of a word on
      either side. */
  predicate StandsAlone(sql: string, kw: string, i: nat) {
    && i + |kw| <= |sql| && i < |sql| && sql[i] != '\'' && Quotes(sql[..i]) % 2 == 0
    && (forall j :: 0 <= j < |kw| ==> SameLetter(sql[i + j], kw[j]))
    && (i == 0 || !InWord(sql[i - 1]))
    && (i + |kw| == |sql| || !InWord(sql[i + |kw|]))
  }

  lemma HitMeans(sql: string, kw: string, i: nat)
    ensures Hit(sql, kw, i) <==> StandsAlone(sql, kw, i)
  {
    if i + |kw| <= |sql| {
      InsideIsOdd(sql[..i]);
      UpperForgetsCase(sql[i..i + |kw|], kw);
      if SameText(sql[i..i + |kw|], kw) {
        forall j | 0 <= j < |kw| ensures SameLetter(sql[i + j], kw[j]) {
          assert sql[i..i + |kw|][j] == sql[i + j];
        }
      }
    }
  }

  /** The search finds the first place where the keyword stands alone. */
  lemma FindMeans(sql: string, kw: string)
    ensures var r := Find(sql, kw);
            if r == -1 then forall i: nat :: !StandsAlone(sql, kw, i)
            else r >= 0 && StandsAlone(sql, kw, r) && forall i: nat :: i < r ==> !StandsAlone(sql, kw, i)
  {
    var r := Find(sql, kw);
    FindIsLeast(sql, kw, r);
    forall i: nat ensures Hit(sql, kw, i) <==> StandsAlone(sql, kw, i) { HitMeans(sql, kw, i); }
  }

  /** A separator starts a text if its characters do, in any case. */
  lemma StartsMeans(s: string, sep: string)
    requires Upper(sep) == sep
    ensures Starts(s, sep) <==> |s| >= |sep| && SameText(s[..|sep|], sep)
  {
    if |s| >= |sep| { UpperForgetsCase(s[..|sep|], sep); }
  }

  // ---- Items -----------------------------------------------------------------------------------------------

  /** Any blanks around the equals sign, or none, make the same assignment. */
  lemma AssignmentSpaced(lhs: string, b1: string, b2: string, text: string)
    requires lhs != "" && Trimmed(lhs) && '=' !in lhs && text != "" && Trimmed(text) && Blank(b1) && Blank(b2)
    ensures Assignment(lhs + b1 + "=" + b2 + text)
            == if SameText(TrimChar(lhs, '"'), "ROWID") then None
               else Some(Entry(TrimChar(lhs, '"'), ParseVal(text)))
  {
    var head, tail := lhs + b1, b2 + text;
    SplitAtEquals(lhs, b1, b2, text);
    if '=' in b1 { assert false; }
    IndexOfMiddle(head, '=', tail);
    StripBehind(lhs, b1);
    StripBefore(b2, text);
    UpperForgetsCase(TrimChar(lhs, '"'), "ROWID");
    RowIdIsUpper();
  }

  /** An IS NULL standing alone makes the text before it a null column, unless that is the row id. */
  lemma NullCondition(cond: string, p: nat)
    requires Trimmed(cond) && StandsAlone(cond, " IS NULL", p)
    requires forall i: nat :: i < p ==> !StandsAlone(cond, " IS NULL", i)
    ensures var column := TrimChar(Strip(cond[..p]), '"');
            Condition(cond) == if SameText(column, "ROWID") then None else Some(Entry(column, Null))
  {
    StripTrimmed(cond);
    FindMeans(cond, " IS NULL");
    UpperForgetsCase(TrimChar(Strip(cond[..p]), '"'), "ROWID");
    RowIdIsUpper();
  }

  /** Without one the condition is an assignment. */
  lemma PlainCondition(cond: string)
    requires Trimmed(cond) && forall i: nat :: !StandsAlone(cond, " IS NULL", i)
    ensures Condition(cond) == Assignment(cond)
  {
    StripTrimmed(cond);
    FindMeans(cond, " IS NULL");
  }

  lemma RowIdIsUpper()
    ensures Upper("ROWID") == "ROWID"
  {
    forall i | 0 <= i < 5 ensures UpperChar("ROWID"[i]) == "ROWID"[i] {
    }
  }

  lemma SplitAtEquals(lhs: string, b1: string, b2: string, text: string)
    ensures var item, head := lhs + b1 + "=" + b2 + text, lhs + b1;
            item == head + ['='] + (b2 + text) && item[..|head|] == head && item[|head| + 1..] == b2 + text
  {
  }

  lemma {:induction false} StripBehind(t: string, b: string)
    requires t != "" && Trimmed(t) && Blank(b)
    ensures Strip(t + b) == t
    decreases |b|
  {
    assert (t + b)[0] == t[0];
    assert StripLeft(t + b) == t + b;
    if b == "" {
      assert t + b == t;
      StripTrimmed(t);
    } else {
      assert Front(t + b) == t + Front(b) && Last(t + b) == Last(b) && Last(b) in b;
      StripBehind(t, Front(b));
      assert StripLeft(t + Front(b)) == t + Front(b) by { assert (t + Front(b))[0] == t[0]; }
    }
  }

  lemma {:induction false} StripBefore(b: string, t: string)
    requires t != "" && Trimmed(t) && Blank(b)
    ensures Strip(b + t) == t
    decreases |b|
  {
    if b == "" {
      assert b + t == t;
      StripTrimmed(t);
    } else {
      assert (b + t)[1..] == b[1..] + t && b[0] in b;
      StripBefore(b[1..], t);
    }
  }

  lemma StripAround(a: string, t: string, b: string)
    requires t != "" && Trimmed(t) && Blank(a) && Blank(b)
    ensures Strip(a + t + b) == t
  {
    assert a + t + b == a + (t + b);
    StripLeftOver(a, t + b);
    StripBehind(t, b);
    assert (t + b)[0] == t[0];
    assert StripLeft(t + b) == t + b;
  }

  lemma {:induction false} StripLeftOver(a: string, t: string)
    requires Blank(a)
    ensures StripLeft(a + t) == StripLeft(t)
    decreases |a|
  {
    if a == "" {
      assert a + t == t;
    } else {
      assert (a + t)[1..] == a[1..] + t && a[0] in a;
      StripLeftOver(a[1..], t);
    }
  }

  /** Without a SET there are no assignments, without a WHERE no conditions. */
  lemma NothingWithoutKeyword(sql: string)
    ensures (forall i: nat :: !StandsAlone(sql, " SET ", i)) ==> SetMap(sql) == map[]
    ensures (forall i: nat :: !StandsAlone(sql, " WHERE ", i)) ==> WhereMap(sql) == map[]
  {
    FindMeans(sql, " SET ");
    FindMeans(sql, " WHERE ");
  }

  // ---- Numbers ---------------------------------------------------------------------------------------------

  /** Texts of numbers are read and printed in base ten, most significant digit first. */
  lemma DecimalText()
    ensures IntText(120) == "120" && IntText(-7) == "-7"
    ensures ParseInt(" +12\t") == Some(12) && ParseInt("-7") == Some(-7) && ParseInt("1.5") == None
  {
    Digits120();
    IntRoundTrip(-7);
    assert IntText(-7) == "-" + NatText(7) && NatText(7) == "7";
    Plus12();
    NotAnInteger();
  }

  lemma Digits120()
    ensures NatText(120) == "120"
  {
    assert NatText(1) == "1";
    assert NatText(12) == NatText(1) + "2" == "12";
    assert NatText(120) == NatText(12) + "0";
  }

  lemma Plus12()
    ensures ParseInt(" +12\t") == Some(12)
  {
    var s := " +12\t";
    StripBehind("+12", "\t");
    assert s[1..] == "+12" + "\t";
    assert StripLeft(s) == StripLeft("+12\t");
    assert Strip(s) == "+12" && "+12"[1..] == "12";
    Value12();
    assert !IsDigit("+12"[0]);
  }

  lemma Value12()
    ensures AllDigits("12") && DigitsValue("12") == 12
  {
    NextDigit("", '1');
    NextDigit("1", '2');
    assert "" + "1" == "1" && "1" + "2" == "12";
  }

  lemma NextDigit(s: string, c: char)
    requires (forall i :: 0 <= i < |s| ==> IsDigit(s[i])) && IsDigit(c)
    ensures DigitsValue(s + [c]) == DigitsValue(s) * 10 + (c as int - '0' as int)
  {
    assert Front(s + [c]) == s;
  }

  lemma NotAnInteger()
    ensures ParseInt("1.5") == None
  {
    StripTrimmed("1.5");
    assert !IsDigit("1.5"[1]);
  }
}
