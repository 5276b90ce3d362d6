// Python's string operations on ASCII text, as far as the parsers and printers use them.
module Text {
  import opened Prelude

  predicate IsDigit(c: char) {
    '0' <= c <= '9'
  }

  /** `c.isalnum() or c == '_'`. */
  predicate IsWord(c: char) {
    IsDigit(c) || 'a' <= c <= 'z' || 'A' <= c <= 'Z' || c == '_'
  }

  /** What `strip()` removes: the six blanks and the four separator controls. */
  predicate IsSpace(c: char) {
    c == ' ' || '\t' <= c <= '\r' || 28 as char <= c <= 31 as char
  }

  function UpperChar(c: char): char {
    if 'a' <= c <= 'z' then ((c as int) - 32) as char else c
  }

  function Upper(s: string): (u: string)
    ensures |u| == |s| && forall i :: 0 <= i < |s| ==> u[i] == UpperChar(s[i])
  {
    seq(|s|, i requires 0 <= i < |s| => UpperChar(s[i]))
  }

  function StripLeft(s: string): string {
    if s != "" && IsSpace(s[0]) then StripLeft(s[1..]) else s
  }

  function StripRight(s: string): string {
    if s != "" && IsSpace(Last(s)) then StripRight(Front(s)) else s
  }

  function Strip(s: string): string {
    StripRight(StripLeft(s))
  }

  /** `rstrip(c)`. */
  function DropTrailing(s: string, c: char): string {
    if s != "" && Last(s) == c then DropTrailing(Front(s), c) else s
  }

  /** `lstrip(c)`. */
  function DropLeading(s: string, c: char): string {
    if s != "" && s[0] == c then DropLeading(s[1..], c) else s
  }

  /** `strip(c)`. */
  function TrimChar(s: string, c: char): string {
    DropTrailing(DropLeading(s, c), c)
  }

  predicate StartsWith(s: string, p: string) {
    |p| <= |s| && s[..|p|] == p
  }

  lemma StartsWithFirst(s: string, p: string)
    requires p != "" && StartsWith(s, p)
    ensures s[0] == p[0]
  {
    assert s[..|p|][0] == s[0];
  }

  /** Neither end is a blank, so `strip()` changes nothing. */
  predicate Trimmed(s: string) {
    s != "" ==> !IsSpace(s[0]) && !IsSpace(Last(s))
  }

  lemma StripTrimmed(s: string)
    requires Trimmed(s)
    ensures Strip(s) == s && Strip(" " + s) == s
  {
    assert (" " + s)[1..] == s;
    assert StripLeft(" " + s) == StripLeft(s);
  }

  /** What is left has no blank at either end, so stripping again changes nothing. */
  lemma StripTwice(s: string)
    ensures Trimmed(Strip(s)) && Strip(Strip(s)) == Strip(s)
  {
    StripLeftEnds(s);
    StripRightEnds(StripLeft(s));
    StripTrimmed(Strip(s));
  }

  lemma {:induction false} StripLeftEnds(s: string)
    ensures StripLeft(s) != "" ==> !IsSpace(StripLeft(s)[0])
  {
    if s != "" && IsSpace(s[0]) { StripLeftEnds(s[1..]); }
  }

  lemma {:induction false} StripRightEnds(s: string)
    ensures StripRight(s) != "" ==> !IsSpace(Last(StripRight(s))) && StripRight(s)[0] == s[0]
    decreases |s|
  {
    if s != "" && IsSpace(Last(s)) { StripRightEnds(Front(s)); }
  }

  lemma StripOneRight(s: string)
    requires s != "" && Trimmed(s)
    ensures Strip(s + " ") == s
  {
    assert Front(s + " ") == s && Last(s + " ") == ' ';
    assert StripLeft(s + " ") == s + " ";
    assert StripRight(s + " ") == StripRight(s);
  }

  /** A character that is not a blank survives stripping. */
  lemma StripKeeps(s: string, k: nat)
    requires k < |s| && !IsSpace(s[k])
    ensures s[k] in Strip(s)
  {
    StripLeftKeeps(s, k);
    var t := StripLeft(s);
    var j :| 0 <= j < |t| && t[j] == s[k];
    StripRightKeeps(t, j);
  }

  lemma {:induction false} StripLeftKeeps(s: string, k: nat)
    requires k < |s| && !IsSpace(s[k])
    ensures s[k] in StripLeft(s)
  {
    if k > 0 { StripLeftKeeps(s[1..], k - 1); }
  }

  lemma {:induction false} StripRightKeeps(s: string, k: nat)
    requires k < |s| && !IsSpace(s[k])
    ensures s[k] in StripRight(s)
    decreases |s|
  {
    if k < |s| - 1 { StripRightKeeps(Front(s), k); }
  }

  // ---- Searching -------------------------------------------------------------------------------------

  /** `s.find(c)`. */
  function IndexOf(s: string, c: char): (i: int)
    ensures i == -1 <==> c !in s
    ensures i >= 0 ==> i < |s| && s[i] == c && c !in s[..i]
    ensures i >= -1
  {
    if s == "" then -1
    else if s[0] == c then 0
    else
      var rest := IndexOf(s[1..], c);
      assert s == [s[0]] + s[1..];
      assert rest >= 0 ==> s[..rest + 1] == [s[0]] + s[1..][..rest];
      if rest < 0 then -1 else rest + 1
  }

  /** `s.rfind(c)`. */
  function LastIndexOf(s: string, c: char): (i: int)
    ensures i == -1 <==> c !in s
    ensures i >= 0 ==> i < |s| && s[i] == c && c !in s[i + 1..]
    ensures i >= -1
  {
    if s == "" then -1
    else if Last(s) == c then |s| - 1
    else
      var rest := LastIndexOf(Front(s), c);
      assert s == Front(s) + [Last(s)];
      assert rest >= 0 ==> s[rest + 1..] == Front(s)[rest + 1..] + [Last(s)];
      rest
  }

  lemma IndexOfMiddle(a: string, c: char, b: string)
    requires c !in a
    ensures IndexOf(a + [c] + b, c) == |a|
  {
    var s := a + [c] + b;
    assert s[|a|] == c && s[..|a|] == a;
  }

  lemma LastIndexOfMiddle(a: string, c: char, b: string)
    requires c !in b
    ensures LastIndexOf(a + [c] + b, c) == |a|
  {
    var s := a + [c] + b;
    assert s[|a|] == c && s[|a| + 1..] == b;
  }

  // ---- Integers --------------------------------------------------------------------------------------

  function NatText(n: nat): (s: string)
    ensures s != "" && forall i :: 0 <= i < |s| ==> IsDigit(s[i])
  {
    var digit := [('0' as int + n % 10) as char];
    if n < 10 then digit else NatText(n / 10) + digit
  }

  /** `str(n)`. */
  function IntText(n: int): string {
    if n < 0 then "-" + NatText(-n) else NatText(n)
  }

  predicate AllDigits(s: string) {
    s != "" && forall i :: 0 <= i < |s| ==> IsDigit(s[i])
  }

  function DigitsValue(s: string): nat
    requires forall i :: 0 <= i < |s| ==> IsDigit(s[i])
  {
    if s == "" then 0
    else
      assert IsDigit(s[|s| - 1]);
      DigitsValue(Front(s)) * 10 + (Last(s) as int - '0' as int)
  }

  /** `int(s)`: blanks around an optional sign and digits; anything else is an error. */
  function ParseInt(s: string): (n: Option<int>) {
    var t := Strip(s);
    if AllDigits(t) then Some(DigitsValue(t))
    else if t != "" && t[0] == '-' && AllDigits(t[1..]) then Some(0 - DigitsValue(t[1..]))
    else if t != "" && t[0] == '+' && AllDigits(t[1..]) then Some(DigitsValue(t[1..]))
    else None
  }

  lemma {:induction false} DigitsRoundTrip(n: nat)
    ensures DigitsValue(NatText(n)) == n
  {
    var digit := [('0' as int + n % 10) as char];
    if n < 10 {
      assert Front(digit) == "" && NatText(n) == digit;
    } else {
      assert Front(NatText(n / 10) + digit) == NatText(n / 10);
      DigitsRoundTrip(n / 10);
    }
  }

  /** Parsing an integer's text gives the integer back, whatever its sign. */
  lemma IntRoundTrip(n: int)
    ensures ParseInt(IntText(n)) == Some(n)
    ensures Trimmed(IntText(n)) && IntText(n) != ""
  {
    var m := if n < 0 then -n else n;
    DigitsRoundTrip(m);
    IntIsTrimmed(n);
    StripTrimmed(IntText(n));
    if n < 0 { MinusSign(NatText(m)); }
  }

  lemma IntIsTrimmed(n: int)
    ensures Trimmed(IntText(n)) && IntText(n) != ""
  {
    var t := IntText(n);
    assert IsDigit(Last(t)) && (t[0] == '-' || IsDigit(t[0]));
  }

  lemma MinusSign(digits: string)
    ensures ("-" + digits)[0] == '-' && ("-" + digits)[1..] == digits
  {
  }

  // ---- Quotes ----------------------------------------------------------------------------------------

  /** `s.replace("'", "''")`. */
  function Doubled(s: string): string {
    if s == "" then "" else (if s[0] == '\'' then "''" else [s[0]]) + Doubled(s[1..])
  }

  /** `s.replace("''", "'")`, which pairs quotes from the left. */
  function Undoubled(s: string): string {
    if |s| >= 2 && s[0] == '\'' && s[1] == '\'' then "'" + Undoubled(s[2..])
    else if s == "" then ""
    else [s[0]] + Undoubled(s[1..])
  }

  lemma UndoubledPair(t: string)
    ensures Undoubled("''" + t) == "'" + Undoubled(t)
  {
    assert ("''" + t)[2..] == t;
  }

  lemma UndoubledOther(c: char, t: string)
    requires c != '\''
    ensures Undoubled([c] + t) == [c] + Undoubled(t)
  {
    assert ([c] + t)[1..] == t;
  }

  lemma {:induction false} UndoubledPrefix(s: string, t: string)
    ensures Undoubled(Doubled(s) + t) == s + Undoubled(t)
    decreases |s|
  {
    if s == "" {
      assert Doubled(s) + t == t;
    } else {
      UndoubledPrefix(s[1..], t);
      UndoubledFirst(s, t);
      assert s + Undoubled(t) == [s[0]] + (s[1..] + Undoubled(t));
    }
  }

  lemma UndoubledFirst(s: string, t: string)
    requires s != ""
    ensures Undoubled(Doubled(s) + t) == [s[0]] + Undoubled(Doubled(s[1..]) + t)
  {
    var rest := Doubled(s[1..]) + t;
    if s[0] == '\'' {
      assert Doubled(s) + t == "''" + rest;
      UndoubledPair(rest);
    } else {
      assert Doubled(s) + t == [s[0]] + rest;
      UndoubledOther(s[0], rest);
    }
  }

  lemma UndoubledDoubled(s: string)
    ensures Undoubled(Doubled(s)) == s
  {
    UndoubledPrefix(s, "");
    assert Doubled(s) + "" == Doubled(s);
  }

  // ---- Joining ---------------------------------------------------------------------------------------

  /** `sep.join(parts)`. */
  function Join(sep: string, parts: seq<string>): string {
    if parts == [] then ""
    else if |parts| == 1 then parts[0]
    else parts[0] + sep + Join(sep, parts[1..])
  }
}
