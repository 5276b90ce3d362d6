// What column names the redo-SQL parsers can return at all, from any text whatever.
module RedoKeys {
  import opened Prelude
  import opened Text
  import opened SqlScan
  import opened SqlFind
  import opened RedoSql

  /** The name the parsers take from the text before `p`. */
  function NameBefore(item: string, p: nat): string
    requires p <= |item|
  {
    TrimChar(Strip(item[..p]), '"')
  }

  predicate Blank(s: string) {
    forall c :: c in s ==> IsSpace(c)
  }

  predicate Only(s: string, c: char) {
    forall d :: d in s ==> d == c
  }

  /** Blanks and double quotes: what is trimmed off around a name. */
  predicate Margin(s: string) {
    forall c :: c in s ==> IsSpace(c) || c == '"'
  }

  lemma FirstRegroup(s: string, a: string, b: string)
    requires s != "" && s[1..] == a + b
    ensures s == [s[0]] + a + b
  {
  }

  lemma {:induction false} StripLeftPart(s: string) returns (a: string)
    ensures s == a + StripLeft(s) && Blank(a)
  {
    if s != "" && IsSpace(s[0]) {
      var rest := StripLeftPart(s[1..]);
      a := [s[0]] + rest;
      FirstRegroup(s, rest, StripLeft(s));
    } else {
      a := "";
    }
  }

  lemma {:induction false} StripRightPart(s: string) returns (b: string)
    ensures s == StripRight(s) + b && Blank(b)
  {
    if s != "" && IsSpace(Last(s)) {
      var rest := StripRightPart(Front(s));
      b := rest + [Last(s)];
      assert s == Front(s) + [Last(s)];
    } else {
      b := "";
    }
  }

  lemma StripParts(s: string) returns (a: string, b: string)
    ensures s == a + Strip(s) + b && Blank(a) && Blank(b)
  {
    a := StripLeftPart(s);
    b := StripRightPart(StripLeft(s));
    assert a + (Strip(s) + b) == a + Strip(s) + b;
  }

  lemma {:induction false} DropLeadingPart(s: string, c: char) returns (a: string)
    ensures s == a + DropLeading(s, c) && Only(a, c)
  {
    if s != "" && s[0] == c {
      var rest := DropLeadingPart(s[1..], c);
      a := [c] + rest;
      FirstRegroup(s, rest, DropLeading(s, c));
    } else {
      a := "";
    }
  }

  lemma {:induction false} DropTrailingPart(s: string, c: char) returns (b: string)
    ensures s == DropTrailing(s, c) + b && Only(b, c)
  {
    if s != "" && Last(s) == c {
      var rest := DropTrailingPart(Front(s), c);
      b := rest + [c];
      assert s == Front(s) + [c];
    } else {
      b := "";
    }
  }

  /** The name sits in the text between margins, and a character that ends words follows it. */
  lemma NameParts(item: string, p: nat) returns (x: string, y: string)
    requires p < |item| && !IsWord(item[p])
    ensures item == x + NameBefore(item, p) + y && |x| + |NameBefore(item, p)| <= p
    ensures Margin(x) && y != "" && !IsWord(y[0])
  {
    var head, name := item[..p], NameBefore(item, p);
    var a, b := StripParts(head);
    var a2 := DropLeadingPart(Strip(head), '"');
    var b2 := DropTrailingPart(DropLeading(Strip(head), '"'), '"');
    x, y := a + a2, b2 + b + item[p..];
    Around(item, p, a, a2, name, b2, b);
    EndsWord(b2, b, item[p..]);
  }

  lemma Around(item: string, p: nat, a: string, a2: string, name: string, b2: string, b: string)
    requires p <= |item| && item[..p] == a + (a2 + (name + b2)) + b
    ensures item == (a + a2) + name + (b2 + b + item[p..]) && |a + a2| + |name| <= p
  {
    assert item == item[..p] + item[p..];
  }

  lemma EndsWord(b2: string, b: string, rest: string)
    requires Only(b2, '"') && Blank(b) && rest != "" && !IsWord(rest[0])
    ensures b2 + b + rest != "" && !IsWord((b2 + b + rest)[0])
  {
    if b2 != "" { assert b2[0] in b2; } else if b != "" { assert b[0] in b; }
  }

  /** Text outside literals after which a word may begin. */
  predicate Boundary(x: string) {
    !Inside(x, false) && (x == "" || !IsWord(Last(x)))
  }

  // ---- Keywords in names -----------------------------------------------------------------------------------

  lemma {:induction false} NoSepAfterMargin(x: string, t: string, sep: string)
    requires '\'' !in x && NoSep(x + t, sep, false)
    ensures NoSep(t, sep, false)
    decreases |x|
  {
    if x == "" {
      assert x + t == t;
    } else {
      assert (x + t)[1..] == x[1..] + t && x[0] in x;
      NoSepAfterMargin(x[1..], t, sep);
    }
  }

  lemma {:induction false} NoSepNoMention(k: string, y: string, sep: string)
    requires sep != "" && '\'' !in k && NoSep(k + y, sep, false)
    ensures !Mentions(k, sep)
    decreases |k|
  {
    if Starts(k, sep) { StartsPrefix(k, y, sep); }
    if k != "" {
      assert (k + y)[1..] == k[1..] + y && k[0] in k;
      NoSepNoMention(k[1..], y, sep);
    }
  }

  /** The keyword stands at `i` in the bare name, as far as the name alone can tell. */
  predicate NameHit(k: string, kw: string, i: nat) {
    && i + |kw| <= |k| && Upper(k[i..i + |kw|]) == Upper(kw)
    && (i == 0 || !IsWord(k[i - 1])) && (i + |kw| == |k| || !IsWord(k[i + |kw|]))
  }

  predicate Matches(q: string, kw: string, j: nat) {
    j + |kw| <= |q| && Upper(q[j..j + |kw|]) == Upper(kw)
  }

  /** A match cannot take in a double quote. */
  lemma NoQuoteInMatch(q: string, kw: string, at: nat)
    requires at < |q| && q[at] == '"' && '"' !in Upper(kw)
    ensures forall j: nat :: Matches(q, kw, j) ==> at < j || j + |kw| <= at
  {
    forall j: nat | Matches(q, kw, j) ensures at < j || j + |kw| <= at {
      if j <= at < j + |kw| { MatchTakesIn(q, kw, j, at); }
    }
  }

  lemma MatchTakesIn(q: string, kw: string, j: nat, at: nat)
    requires Matches(q, kw, j) && j <= at < j + |kw|
    ensures UpperChar(q[at]) in Upper(kw)
  {
    assert Upper(kw)[at - j] == Upper(q[j..j + |kw|])[at - j] == UpperChar(q[at]);
  }

  /** A match in the quoted name cannot take in either double quote. */
  lemma HitInName(k: string, kw: string, j: nat)
    requires kw != "" && '"' !in Upper(kw) && Hit(Quoted(k), kw, j)
    ensures 0 < j && NameHit(k, kw, j - 1)
  {
    var q := Quoted(k);
    assert Matches(q, kw, j);
    NoQuoteInMatch(q, kw, 0);
    NoQuoteInMatch(q, kw, |q| - 1);
    assert q[j..j + |kw|] == k[j - 1..j - 1 + |kw|];
  }

  lemma SplitName(x: string, k: string, y: string, i: nat, n: nat)
    requires i + n <= |k|
    ensures x + k + y == (x + k[..i]) + k[i..i + n] + (k[i + n..] + y)
  {
    assert k == k[..i] + k[i..i + n] + k[i + n..];
  }

  /** A keyword found in the name is found in any text around the name. */
  lemma HitAround(x: string, k: string, y: string, kw: string, i: nat)
    requires kw != "" && '\'' !in k && NameHit(k, kw, i) && Boundary(x) && (y == "" || !IsWord(y[0]))
    ensures Hit(x + k + y, kw, |x + k[..i]|)
  {
    var a, word, rest := x + k[..i], k[i..i + |kw|], k[i + |kw|..] + y;
    SplitName(x, k, y, i, |kw|);
    assert word[0] == k[i] && k[i] in k;
    PlainStaysOutside(k[..i]);
    InsideConcat(x, k[..i], false);
    assert i > 0 ==> Last(a) == k[i - 1];
    assert i == 0 ==> a == x;
    assert i + |kw| < |k| ==> rest[0] == k[i + |kw|];
    assert i + |kw| == |k| ==> rest == y;
    HitAfter(a, word, rest, kw);
  }

  /** So a text whose first hit comes later, if at all, holds no quoted name with a hit. */
  lemma NoHitInName(text: string, x: string, k: string, y: string, kw: string)
    requires text == x + k + y
    requires kw != "" && '"' !in Upper(kw) && '\'' !in k && Boundary(x) && (y == "" || !IsWord(y[0]))
    requires NoHits(text, kw, 0, |x| + |k|)
    ensures Find(Quoted(k), kw) == -1
  {
    if Find(Quoted(k), kw) != -1 { HitSomewhere(text, x, k, y, kw); }
  }

  lemma HitSomewhere(text: string, x: string, k: string, y: string, kw: string)
    requires text == x + k + y
    requires kw != "" && '"' !in Upper(kw) && '\'' !in k && Boundary(x) && (y == "" || !IsWord(y[0]))
    requires Find(Quoted(k), kw) != -1
    ensures !NoHits(text, kw, 0, |x| + |k|)
  {
    var j := Find(Quoted(k), kw);
    FindIsLeast(Quoted(k), kw, j);
    HitInName(k, kw, j);
    HitAround(x, k, y, kw, j - 1);
  }

  lemma HitsFromFirst(sql: string, kw: string, n: nat)
    requires n <= |sql| && (Find(sql, kw) >= 0 ==> n <= Find(sql, kw))
    ensures NoHits(sql, kw, 0, n)
  {
    FindIsLeast(sql, kw, Find(sql, kw));
  }

  // ---- WHERE conditions ------------------------------------------------------------------------------------

  lemma {:induction false} RequiredKey(conds: seq<string>, k: string) returns (i: nat)
    requires k in Required(conds)
    ensures i < |conds| && Condition(conds[i]).Some? && Condition(conds[i]).value.column == k
  {
    var last := Condition(Last(conds));
    if last.Some? && last.value.column == k {
      i := |conds| - 1;
    } else {
      i := RequiredKey(Front(conds), k);
    }
  }

  /** Where a condition's name is taken from. */
  function NameEnd(cond: string): int {
    if Find(cond, ISNULL) >= 0 then Find(cond, ISNULL) else IndexOf(cond, '=')
  }

  lemma NameEndEndsWords(cond: string)
    requires NameEnd(cond) >= 0
    ensures NameEnd(cond) < |cond| && !IsWord(cond[NameEnd(cond)])
  {
    var at := Find(cond, ISNULL);
    FindIsLeast(cond, ISNULL, at);
    if at >= 0 { assert Upper(cond[at..at + 8])[0] == UpperChar(cond[at]) && Upper(ISNULL)[0] == ' '; }
  }

  /** A condition's name, and that no IS NULL is found inside it. */
  lemma ConditionName(text: string, k: string) returns (x: string, y: string)
    requires Condition(text).Some? && Condition(text).value.column == k && '\'' !in k
    ensures Strip(text) == x + k + y && Margin(x) && Find(Quoted(k), ISNULL) == -1
  {
    var cond := Strip(text);
    NameEndEndsWords(cond);
    x, y := NameParts(cond, NameEnd(cond));
    NoIsNullInside(cond, x, k, y);
  }

  lemma NoIsNullInside(cond: string, x: string, k: string, y: string)
    requires cond == x + k + y && Margin(x) && '\'' !in k && y != "" && !IsWord(y[0])
    requires Find(cond, ISNULL) >= 0 ==> |x| + |k| <= Find(cond, ISNULL)
    ensures Find(Quoted(k), ISNULL) == -1
  {
    MarginIsOutside(x);
    HitsFromFirst(cond, ISNULL, |x| + |k|);
    IsNullIsUpper();
    NoHitInName(cond, x, k, y, ISNULL);
  }

  lemma MarginIsOutside(x: string)
    requires Margin(x)
    ensures '\'' !in x && !Inside(x, false) && (x == "" || !IsWord(Last(x)))
  {
    PlainStaysOutside(x);
    if x != "" { assert Last(x) in x; }
  }

  /** Whatever the statement, a quote-free column name read from the WHERE clause neither contains an AND
      between blanks nor an IS NULL between word boundaries. */
  lemma WhereKeyIsFree(sql: string, k: string)
    requires k in WhereMap(sql) && '\'' !in k
    ensures !Mentions(k, AND) && Find(Quoted(k), ISNULL) == -1
  {
    RequiredKeyIsFree(WherePart(sql).value, k);
  }

  lemma RequiredKeyIsFree(part: string, k: string)
    requires k in Required(Cut(part, AND)) && '\'' !in k
    ensures !Mentions(k, AND) && Find(Quoted(k), ISNULL) == -1
  {
    var i := RequiredKey(Cut(part, AND), k);
    var f := CutField(part, AND, i);
    var x, y := ConditionName(Strip(f), k);
    NameInField(f, x, k, y, AND);
  }

  /** A token is a stripped field, which holds no separator. */
  lemma CutField(part: string, sep: string, i: nat) returns (f: string)
    requires sep != "" && i < |Cut(part, sep)|
    ensures i < |Fields(part, sep, false)| && f == Fields(part, sep, false)[i]
    ensures Cut(part, sep)[i] == Strip(f) && NoSep(f, sep, false)
  {
    CutIsStripped(part, sep, i);
    f := Fields(part, sep, false)[i];
    FieldHoldsNoSep(part, sep, i);
  }

  lemma CutIsStripped(part: string, sep: string, i: nat)
    requires sep != "" && i < |Cut(part, sep)|
    ensures i < |Fields(part, sep, false)| && Cut(part, sep)[i] == Strip(Fields(part, sep, false)[i])
  {
  }

  lemma FieldHoldsNoSep(part: string, sep: string, i: nat)
    requires sep != "" && i < |Fields(part, sep, false)|
    ensures NoSep(Fields(part, sep, false)[i], sep, false)
  {
    FieldsHoldNoSep(part, sep, false);
  }

  lemma NameInField(f: string, x: string, k: string, y: string, sep: string)
    requires sep != "" && NoSep(f, sep, false) && Strip(Strip(f)) == x + k + y && Margin(x) && '\'' !in k
    ensures !Mentions(k, sep)
  {
    var a, b := StripParts(f);
    var a2, b2 := StripParts(Strip(f));
    Regroup(a, a2, x, k, y, b2, b);
    BlanksThenMargin(a, a2, x);
    NoSepAfterMargin(a + a2 + x, k + (y + b2 + b), sep);
    NoSepNoMention(k, y + b2 + b, sep);
  }

  lemma Regroup(a: string, a2: string, x: string, k: string, y: string, b2: string, b: string)
    ensures a + (a2 + (x + k + y) + b2) + b == (a + a2 + x) + (k + (y + b2 + b))
  {
  }

  lemma BlanksThenMargin(a: string, a2: string, x: string)
    requires Blank(a) && Blank(a2) && Margin(x)
    ensures '\'' !in a + a2 + x
  {
  }

  // ---- SET items -------------------------------------------------------------------------------------------

  lemma {:induction false} AssignedKey(items: seq<string>, k: string) returns (i: nat)
    requires k in Assigned(items)
    ensures i < |items| && Assignment(items[i]).Some? && Assignment(items[i]).value.column == k
  {
    var last := Assignment(Last(items));
    if last.Some? && last.value.column == k {
      i := |items| - 1;
    } else {
      i := AssignedKey(Front(items), k);
    }
  }

  lemma BoundaryThenMargin(x: string, m: string)
    requires Boundary(x) && Margin(m)
    ensures Boundary(x + m)
  {
    MarginIsOutside(m);
    PlainStaysOutside(m);
    InsideConcat(x, m, false);
    if m == "" { assert x + m == x; }
  }

  /** Where a name stands in its item. */
  lemma NameInItem(item: string, k: string) returns (m: string, n: string)
    requires Assignment(item).Some? && Assignment(item).value.column == k
    ensures item == m + k + n && Margin(m) && n != "" && !IsWord(n[0])
  {
    m, n := NameParts(item, IndexOf(item, '='));
  }

  /** Where a name stands in the SET part. */
  lemma NameInPart(part: string, k: string) returns (x: string, y: string)
    requires k in Assigned(Cut(part, ","))
    ensures part == x + k + y && Boundary(x) && y != "" && !IsWord(y[0])
  {
    var i := AssignedKey(Cut(part, ","), k);
    var f := CutField(part, ",", i);
    var m, n := NameInItem(Strip(f), k);
    var a, b := StripParts(f);
    var p := FieldPlace(part, f, i);
    Placed(part, p, f, a, m, k, n, b);
    BoundaryThenMargin(part[..p], a + m);
    x, y := part[..p] + (a + m), n + (b + part[p + |f|..]);
  }

  lemma FieldPlace(part: string, f: string, i: nat) returns (p: nat)
    requires i < |Fields(part, ",", false)| && f == Fields(part, ",", false)[i]
    ensures p + |f| <= |part| && part[p..p + |f|] == f && Boundary(part[..p])
  {
    p := FieldAt(part, ",", false, i);
    FieldStartsWord(part, p);
  }

  lemma FieldStartsWord(part: string, p: nat)
    requires p <= |part| && (p > 0 ==> UpperChar(part[p - 1]) == ',' && !Inside(part[..p], false))
    ensures Boundary(part[..p])
  {
    if p == 0 { assert part[..p] == ""; }
  }

  lemma Placed(part: string, p: nat, f: string, a: string, m: string, k: string, n: string, b: string)
    requires p + |f| <= |part| && part[p..p + |f|] == f && f == a + (m + k + n) + b
    ensures part == (part[..p] + (a + m)) + k + (n + (b + part[p + |f|..]))
  {
    assert part == part[..p] + f + part[p + |f|..];
  }

  lemma SetWordIsBoundary(sql: string, p: nat)
    requires Hit(sql, SET, p)
    ensures Boundary(sql[..p + 5])
  {
    var word := sql[p..p + 5];
    assert Upper(SET) == SET;
    assert forall i :: 0 <= i < 5 ==> Upper(word)[i] == UpperChar(word[i]);
    PlainStaysOutside(word);
    InsideConcat(sql[..p], word, false);
    assert sql[..p + 5] == sql[..p] + word;
  }

  /** Where a name of the SET clause stands in the statement. */
  lemma NameInStatement(sql: string, k: string) returns (x: string, y: string)
    requires k in SetMap(sql)
    ensures sql == x + k + y && Boundary(x) && y != "" && !IsWord(y[0])
    ensures Find(sql, WHERE) > Find(sql, SET) ==> |x| + |k| <= Find(sql, WHERE)
  {
    var from, end := Find(sql, SET) + 5, if Find(sql, WHERE) > Find(sql, SET) then Find(sql, WHERE) else |sql|;
    var part := SetPart(sql).value;
    var m, n := NameInPart(part, k);
    FindIsLeast(sql, SET, Find(sql, SET));
    SetWordIsBoundary(sql, Find(sql, SET));
    var middle := if from <= end then sql[from..end] else "";
    var a, b := StripParts(middle);
    var b2 := DropTrailingPart(Strip(middle), ';');
    assert from <= end;
    x, y := sql[..from] + a + m, n + (b2 + b + sql[end..]);
    Statement(sql, from, end, a, m, k, n, b2, b);
    BoundaryThenMargin(sql[..from], a);
    BoundaryThenPrefix(sql[..from] + a, m);
  }

  lemma BoundaryThenPrefix(x: string, m: string)
    requires Boundary(x) && Boundary(m)
    ensures Boundary(x + m)
  {
    InsideConcat(x, m, false);
    if m == "" { assert x + m == x; }
  }

  lemma Statement(sql: string, from: nat, end: nat, a: string, m: string, k: string, n: string, b2: string, b: string)
    requires from <= end <= |sql| && sql[from..end] == a + ((m + k + n) + b2) + b
    ensures sql == (sql[..from] + a + m) + k + (n + (b2 + b + sql[end..]))
    ensures |sql[..from] + a + m| + |k| <= end
  {
    assert sql == sql[..from] + sql[from..end] + sql[end..];
  }

  /** Whatever the statement, as long as no WHERE stands before the SET: a quote-free column name read
      from the SET clause does not contain a WHERE between word boundaries. */
  lemma SetKeyIsFree(sql: string, k: string)
    requires k in SetMap(sql) && '\'' !in k
    requires Find(sql, WHERE) == -1 || Find(sql, WHERE) > Find(sql, SET)
    ensures Find(Quoted(k), WHERE) == -1
  {
    var x, y := NameInStatement(sql, k);
    NoWhereInside(sql, x, k, y);
  }

  lemma NoWhereInside(sql: string, x: string, k: string, y: string)
    requires sql == x + k + y && Boundary(x) && '\'' !in k && y != "" && !IsWord(y[0])
    requires Find(sql, WHERE) >= 0 ==> |x| + |k| <= Find(sql, WHERE)
    ensures Find(Quoted(k), WHERE) == -1
  {
    HitsFromFirst(sql, WHERE, |x| + |k|);
    assert Upper(WHERE) == WHERE;
    NoHitInName(sql, x, k, y, WHERE);
  }
}
