// Scanning SQL text with single-quoted literals, in which a doubled quote stands for one quote
// (section 5.3, <literal>, of ISO/IEC 9075-2). The scanners walk literals with a nested loop; the
// specifications only toggle a flag at every quote.
module SqlScan {
  import opened Prelude
  import opened Text

  function Toggle(c: char, inside: bool): bool {
    if c == '\'' then !inside else inside
  }

  /** Whether a position after `s` lies inside a literal, if the position before `s` did. */
  function Inside(s: string, inside: bool): bool {
    if s == "" then inside else Toggle(Last(s), Inside(Front(s), inside))
  }

  lemma {:induction false} InsideConcat(a: string, b: string, inside: bool)
    ensures Inside(a + b, inside) == Inside(b, Inside(a, inside))
    decreases b
  {
    if b == "" {
      assert a + b == a;
    } else {
      assert Front(a + b) == a + Front(b) && Last(a + b) == Last(b);
      InsideConcat(a, Front(b), inside);
    }
  }

  lemma InsideStep(s: string, i: nat)
    requires i < |s|
    ensures Inside(s[..i + 1], false) == Toggle(s[i], Inside(s[..i], false))
  {
    assert Front(s[..i + 1]) == s[..i];
  }

  lemma InsideFirst(s: string, inside: bool)
    requires s != ""
    ensures Inside(s, inside) == Inside(s[1..], Toggle(s[0], inside))
  {
    assert s == [s[0]] + s[1..];
    InsideConcat([s[0]], s[1..], inside);
    assert Front([s[0]]) == "";
  }

  // ---- Splitting -------------------------------------------------------------------------------------

  /** `sep` (in upper case) starts `s`, whatever the case of its letters. */
  predicate Starts(s: string, sep: string) {
    |s| >= |sep| && Upper(s[..|sep|]) == sep
  }

  /** `k` occurs somewhere in `name`, in any case. */
  predicate Mentions(name: string, k: string) {
    Starts(name, k) || (name != "" && Mentions(name[1..], k))
  }

  lemma StartsFirst(s: string, sep: string)
    requires sep != "" && Starts(s, sep)
    ensures UpperChar(s[0]) == sep[0]
  {
    assert Upper(s[..|sep|])[0] == UpperChar(s[0]);
  }

  lemma CommaStarts(s: string, i: nat)
    requires i < |s|
    ensures Starts(s[i..], ",") <==> s[i] == ','
  {
    assert s[i..][..1] == [s[i]];
    assert Upper([s[i]]) == [UpperChar(s[i])];
  }

  function Attach(c: string, fields: seq<string>): seq<string>
    requires fields != []
  {
    [c + fields[0]] + fields[1..]
  }

  lemma AttachEmpty(fields: seq<string>)
    requires fields != []
    ensures Attach("", fields) == fields
  {
    assert "" + fields[0] == fields[0];
  }

  lemma AttachTwice(a: string, b: string, fields: seq<string>)
    requires fields != []
    ensures Attach(a, Attach(b, fields)) == Attach(a + b, fields)
  {
    assert a + (b + fields[0]) == a + b + fields[0];
  }

  lemma AttachToEmpty(a: string, fields: seq<string>)
    ensures Attach(a, [""] + fields) == [a] + fields
  {
    assert a + "" == a;
  }

  /** The stretches of `s` between the separators outside literals. */
  function Fields(s: string, sep: string, inside: bool): (fields: seq<string>)
    requires sep != ""
    ensures fields != []
    decreases |s|
  {
    if s == "" then [""]
    else if !inside && s[0] != '\'' && Starts(s, sep) then [""] + Fields(s[|sep|..], sep, false)
    else Attach([s[0]], Fields(s[1..], sep, Toggle(s[0], inside)))
  }

  function StripAll(fields: seq<string>): (r: seq<string>)
    ensures |r| == |fields| && forall i :: 0 <= i < |r| ==> r[i] == Strip(fields[i])
  {
    seq(|fields|, i requires 0 <= i < |fields| => Strip(fields[i]))
  }

  /** The stripped fields; a last field without any character is dropped. */
  function Cut(s: string, sep: string): seq<string>
    requires sep != ""
  {
    var fields := Fields(s, sep, false);
    StripAll(if Last(fields) == "" then Front(fields) else fields)
  }

  /** Where a scanner stands: the fields done, the characters buffered and the text still to read. */
  ghost predicate Progress(s: string, sep: string, raw: seq<string>, buf: string, i: nat, inside: bool)
    requires sep != ""
  {
    i <= |s| && Fields(s, sep, false) == raw + Attach(buf, Fields(s[i..], sep, inside))
  }

  lemma Buffer(s: string, sep: string, raw: seq<string>, buf: string, i: nat, inside: bool)
    requires sep != "" && Progress(s, sep, raw, buf, i, inside)
    requires i < |s| && (inside || s[i] == '\'' || !Starts(s[i..], sep))
    ensures Progress(s, sep, raw, buf + [s[i]], i + 1, Toggle(s[i], inside))
  {
    assert s[i..][1..] == s[i + 1..];
    var rest := Fields(s[i + 1..], sep, Toggle(s[i], inside));
    AttachTwice(buf, [s[i]], rest);
  }

  lemma Separate(s: string, sep: string, raw: seq<string>, buf: string, i: nat)
    requires sep != "" && Progress(s, sep, raw, buf, i, false)
    requires i < |s| && s[i] != '\'' && Starts(s[i..], sep)
    ensures i + |sep| <= |s| && Progress(s, sep, raw + [buf], "", i + |sep|, false)
  {
    assert s[i..][|sep|..] == s[i + |sep|..];
    var rest := Fields(s[i + |sep|..], sep, false);
    AttachToEmpty(buf, rest);
    AttachEmpty(rest);
    assert raw + ([buf] + rest) == raw + [buf] + rest;
  }

  lemma Finish(s: string, sep: string, raw: seq<string>, buf: string, inside: bool)
    requires sep != "" && Progress(s, sep, raw, buf, |s|, inside)
    ensures Cut(s, sep) == StripAll(if buf == "" then raw else raw + [buf])
  {
    AttachToEmpty(buf, []);
    assert Fields(s[|s|..], sep, inside) == [""] + [];
    assert Last(raw + [buf]) == buf && Front(raw + [buf]) == raw;
  }

  lemma StripAllSnoc(raw: seq<string>, buf: string)
    ensures StripAll(raw + [buf]) == StripAll(raw) + [Strip(buf)]
  {
  }

  /** A literal from its opening quote on: every later character is inside it or a quote of its own. */
  predicate LiteralRun(t: string) {
    t != "" && t[0] == '\'' && forall j :: 0 < j < |t| ==> Inside(t[..j], false) || t[j] == '\''
  }

  /** The nested loop: one literal, up to its closing quote or the end of the text. */
  method TakeLiteral(s: string, start: nat) returns (i: nat, lit: string)
    requires start < |s| && s[start] == '\''
    ensures start < i <= |s| && lit == s[start..i] && LiteralRun(lit)
    ensures if Inside(lit, false) then i == |s| else Last(lit) == '\'' && (i < |s| ==> s[i] != '\'')
  {
    i, lit := start + 1, [s[start]];
    RunFirst(s[start]);
    assert lit == s[start..i];
    while i < |s|
      invariant Running(s, start, i, lit)
    {
      var c2 := s[i];
      RunNext(s, start, i, lit);
      lit, i := lit + [c2], i + 1;
      if c2 == '\'' {
        if i < |s| && s[i] == '\'' {
          RunNext(s, start, i, lit);
          lit, i := lit + [s[i]], i + 1;
        } else {
          break;
        }
      }
    }
  }

  /** Inside the literal that starts at `start`. */
  ghost predicate Running(s: string, start: nat, i: nat, lit: string) {
    start < i <= |s| && lit == s[start..i] && LiteralRun(lit) && Inside(lit, false)
  }

  lemma RunFirst(c: char)
    requires c == '\''
    ensures LiteralRun([c]) && Inside([c], false)
  {
    assert Front([c]) == "";
  }

  /** One more character: always inside the literal, a quote where it has closed. */
  lemma RunNext(s: string, start: nat, i: nat, lit: string)
    requires start < i < |s| && lit == s[start..i] && LiteralRun(lit) && (Inside(lit, false) || s[i] == '\'')
    ensures lit + [s[i]] == s[start..i + 1] && LiteralRun(lit + [s[i]])
    ensures Inside(lit + [s[i]], false) == Toggle(s[i], Inside(lit, false))
  {
    var t := lit + [s[i]];
    assert Front(t) == lit;
    forall j | 0 < j < |t| ensures Inside(t[..j], false) || t[j] == '\'' {
      if j < |lit| { assert t[..j] == lit[..j]; } else { assert t[..j] == lit; }
    }
  }

  lemma {:induction false} RunIsQuiet(t: string, k: nat, sep: string)
    requires LiteralRun(t) && k <= |t|
    ensures Quiet(t[k..], sep, Inside(t[..k], false))
    decreases |t| - k
  {
    if k < |t| {
      InsideStep(t, k);
      RunIsQuiet(t, k + 1, sep);
      assert t[k..][1..] == t[k + 1..] && t[..0] == "";
    }
  }

  /** A whole literal goes into the buffer. */
  lemma BufferRun(s: string, sep: string, raw: seq<string>, buf: string, i: nat, j: nat)
    requires sep != "" && i <= j <= |s| && Progress(s, sep, raw, buf, i, false) && LiteralRun(s[i..j])
    ensures Progress(s, sep, raw, buf + s[i..j], j, Inside(s[i..j], false))
  {
    var t := s[i..j];
    RunIsQuiet(t, 0, sep);
    assert t[0..] == t && t[..0] == "";
    FieldsSkip(t, s[j..], sep, false);
    assert t + s[j..] == s[i..];
    AttachTwice(buf, t, Fields(s[j..], sep, Inside(t, false)));
  }

  method CsvSplit(s: string) returns (tokens: seq<string>)
    ensures tokens == Cut(s, ",")
  {
    tokens := [];
    var buf := "";
    var i := 0;
    ghost var raw: seq<string> := [];
    ghost var inside := false;
    AttachEmpty(Fields(s, ",", false));
    assert s[0..] == s;
    while i < |s|
      invariant Progress(s, ",", raw, buf, i, inside) && tokens == StripAll(raw) && (inside ==> i == |s|)
    {
      var c := s[i];
      CommaStarts(s, i);
      if c == '\'' {
        var end, lit := TakeLiteral(s, i);
        BufferRun(s, ",", raw, buf, i, end);
        i, buf, inside := end, buf + lit, Inside(lit, false);
      } else if c == ',' {
        Separate(s, ",", raw, buf, i);
        StripAllSnoc(raw, buf);
        tokens := tokens + [Strip(buf)];
        raw := raw + [buf];
        buf := "";
        i := i + 1;
      } else {
        Buffer(s, ",", raw, buf, i, inside);
        buf := buf + [c];
        i := i + 1;
      }
    }
    Finish(s, ",", raw, buf, inside);
    StripAllSnoc(raw, buf);
    if buf != "" {
      tokens := tokens + [Strip(buf)];
    }
  }

  const AND := " AND "

  lemma AndStarts(s: string, i: nat)
    requires i < |s|
    ensures Starts(s[i..], AND) <==> Upper(s[i..Min(i + 5, |s|)]) == AND
  {
    if |s| >= i + 5 { assert s[i..][..5] == s[i..i + 5]; }
  }

  method AndSplit(s: string) returns (tokens: seq<string>)
    ensures tokens == Cut(s, AND)
  {
    tokens := [];
    var buf := "";
    var i := 0;
    ghost var raw: seq<string> := [];
    ghost var inside := false;
    AttachEmpty(Fields(s, AND, false));
    assert s[0..] == s;
    while i < |s|
      invariant Progress(s, AND, raw, buf, i, inside) && tokens == StripAll(raw) && (inside ==> i == |s|)
    {
      var c := s[i];
      var upTo := Min(i + 5, |s|);
      AndStarts(s, i);
      if c == '\'' {
        var end, lit := TakeLiteral(s, i);
        BufferRun(s, AND, raw, buf, i, end);
        i, buf, inside := end, buf + lit, Inside(lit, false);
      } else if Upper(s[i..upTo]) == AND {
        Separate(s, AND, raw, buf, i);
        StripAllSnoc(raw, buf);
        tokens := tokens + [Strip(buf)];
        raw := raw + [buf];
        buf := "";
        i := i + 5;
      } else {
        Buffer(s, AND, raw, buf, i, inside);
        buf := buf + [c];
        i := i + 1;
      }
    }
    Finish(s, AND, raw, buf, inside);
    StripAllSnoc(raw, buf);
    if buf != "" {
      tokens := tokens + [Strip(buf)];
    }
  }

  // ---- Text that holds no separator --------------------------------------------------------------------

  /** Text that goes on after `t` could still make a separator out of `t`'s start. */
  predicate MayStart(t: string, sep: string) {
    var m := Min(|t|, |sep|);
    Upper(t[..m]) == sep[..m]
  }

  /** No separator starts outside a literal in `t`, whatever follows `t`. */
  predicate Quiet(t: string, sep: string, inside: bool) {
    t != "" ==> (inside || t[0] == '\'' || !MayStart(t, sep)) && Quiet(t[1..], sep, Toggle(t[0], inside))
  }

  lemma MayStartPrefix(t: string, rest: string, sep: string)
    requires MayStart(t + rest, sep)
    ensures MayStart(t, sep)
  {
    var m, n := Min(|t|, |sep|), Min(|t + rest|, |sep|);
    assert (t + rest)[..n][..m] == t[..m];
    assert Upper((t + rest)[..n])[..m] == Upper(t[..m]);
  }

  lemma {:induction false} QuietConcat(a: string, b: string, sep: string, inside: bool)
    requires Quiet(a, sep, inside) && Quiet(b, sep, Inside(a, inside))
    ensures Quiet(a + b, sep, inside)
  {
    if a == "" {
      assert a + b == b;
    } else {
      InsideFirst(a, inside);
      QuietConcat(a[1..], b, sep, Toggle(a[0], inside));
      assert (a + b)[1..] == a[1..] + b;
      if MayStart(a + b, sep) { MayStartPrefix(a, b, sep); }
    }
  }

  /** Quiet text joins whatever field comes after it. */
  lemma {:induction false} FieldsSkip(t: string, rest: string, sep: string, inside: bool)
    requires sep != "" && Quiet(t, sep, inside)
    ensures Fields(t + rest, sep, inside) == Attach(t, Fields(rest, sep, Inside(t, inside)))
    decreases |t|
  {
    if t == "" {
      assert t + rest == rest;
      AttachEmpty(Fields(rest, sep, inside));
    } else {
      InsideFirst(t, inside);
      assert (t + rest)[1..] == t[1..] + rest;
      FieldsSkip(t[1..], rest, sep, Toggle(t[0], inside));
      if Starts(t + rest, sep) {
        assert MayStart(t + rest, sep);
        MayStartPrefix(t, rest, sep);
      }
      var f := Fields(rest, sep, Inside(t, inside));
      AttachTwice([t[0]], t[1..], f);
      assert [t[0]] + t[1..] == t;
    }
  }

  /** A token that survives joining and splitting: no separator, no open literal, no blank ends. */
  predicate Token(t: string, sep: string) {
    t != "" && Trimmed(t) && Quiet(t, sep, false) && !Inside(t, false)
  }

  // `glue` is the printed separator: `sep` in some case, and after it perhaps one blank.
  predicate Glue(glue: string, sep: string) {
    glue != "" && glue[0] != '\'' && (glue == sep + " " || |glue| == |sep|) && Starts(glue, sep)
  }

  lemma CommaGlue()
    ensures Glue(", ", ",")
  {
    assert ", "[..1] == "," && Upper(",") == ",";
  }

  /** `f` is `parts` with `blank` before every element but the first. */
  ghost predicate Spaced(f: seq<string>, parts: seq<string>, blank: string) {
    |f| == |parts| && (f != [] ==> f[0] == parts[0]) && forall i :: 1 <= i < |f| ==> f[i] == blank + parts[i]
  }

  lemma SpacedCons(p: string, f: seq<string>, parts: seq<string>, blank: string)
    requires |parts| > 1 && parts[0] == p && f != [] && Spaced(f, parts[1..], blank)
    ensures Spaced([p] + Attach(blank, f), parts, blank)
  {
    var g := [p] + Attach(blank, f);
    forall i | 1 <= i < |g| ensures g[i] == blank + parts[i] {
      assert parts[1..][i - 1] == parts[i];
    }
  }

  lemma {:induction false} FieldsOfJoin(parts: seq<string>, glue: string, sep: string)
    requires sep != "" && Glue(glue, sep) && parts != [] && forall i :: 0 <= i < |parts| ==> Token(parts[i], sep)
    requires |glue| > |sep| ==> sep[0] != ' '
    ensures Spaced(Fields(Join(glue, parts), sep, false), parts, glue[|sep|..])
    decreases |parts|
  {
    var p := parts[0];
    if |parts| == 1 {
      FieldsSkip(p, "", sep, false);
      assert p + "" == p;
      AttachToEmpty(p, []);
    } else {
      var rest := Join(glue, parts[1..]);
      FieldsOfJoin(parts[1..], glue, sep);
      FirstField(p, rest, glue, sep);
      SpacedCons(p, Fields(rest, sep, false), parts, glue[|sep|..]);
    }
  }

  /** A token and a separator make one field; the blank after the separator starts the next. */
  lemma FirstField(p: string, rest: string, glue: string, sep: string)
    requires sep != "" && Glue(glue, sep) && Token(p, sep) && (|glue| > |sep| ==> sep[0] != ' ')
    ensures Fields(p + glue + rest, sep, false) == [p] + Attach(glue[|sep|..], Fields(rest, sep, false))
  {
    FieldsSkip(p, glue + rest, sep, false);
    Grouped(p, glue, rest);
    GlueSeparates(glue, rest, sep);
    LeadingBlank(glue, sep, rest);
    AttachToEmpty(p, Fields(glue[|sep|..] + rest, sep, false));
  }

  lemma Grouped(a: string, b: string, c: string)
    ensures a + b + c == a + (b + c)
  {
  }

  lemma GlueSeparates(glue: string, rest: string, sep: string)
    requires sep != "" && Glue(glue, sep)
    ensures Fields(glue + rest, sep, false) == [""] + Fields(glue[|sep|..] + rest, sep, false)
  {
    assert (glue + rest)[..|sep|] == glue[..|sep|] && (glue + rest)[|sep|..] == glue[|sep|..] + rest;
  }

  lemma LeadingBlank(glue: string, sep: string, rest: string)
    requires sep != "" && Glue(glue, sep) && (|glue| > |sep| ==> sep[0] != ' ')
    ensures Fields(glue[|sep|..] + rest, sep, false) == Attach(glue[|sep|..], Fields(rest, sep, false))
  {
    var f := Fields(rest, sep, false);
    if |glue| == |sep| {
      assert glue[|sep|..] == "" && "" + rest == rest;
      AttachEmpty(f);
    } else {
      assert glue[|sep|..] == " ";
      assert (" " + rest)[1..] == rest;
      if Starts(" " + rest, sep) { StartsFirst(" " + rest, sep); }
    }
  }

  /** Splitting a joined list gives the list back. */
  lemma CutOfJoin(parts: seq<string>, glue: string, sep: string)
    requires sep != "" && Glue(glue, sep) && forall i :: 0 <= i < |parts| ==> Token(parts[i], sep)
    requires |glue| > |sep| ==> sep[0] != ' '
    ensures Cut(Join(glue, parts), sep) == parts
  {
    if parts != [] {
      FieldsOfJoin(parts, glue, sep);
      var f := Fields(Join(glue, parts), sep, false);
      assert Last(f) != "" by { assert Token(Last(parts), sep); }
      forall i | 0 <= i < |parts| ensures Strip(f[i]) == parts[i] {
        assert Token(parts[i], sep);
        StripBlank(if i == 0 then "" else glue[|sep|..], f[i], parts[i]);
      }
      assert StripAll(f) == parts;
    }
  }

  lemma StripBlank(blank: string, field: string, part: string)
    requires (blank == "" || blank == " ") && field == blank + part && part != "" && Trimmed(part)
    ensures Strip(field) == part
  {
    StripTrimmed(part);
    if blank == "" {
      assert field == part;
    } else {
      assert field[1..] == part;
    }
  }

  // ---- Literals ------------------------------------------------------------------------------------------

  /** A string literal: the text with its quotes doubled, between quotes. */
  function Literal(text: string): string {
    "'" + Doubled(text) + "'"
  }

  lemma {:induction false} DoubledStaysInside(text: string, sep: string)
    ensures Quiet(Doubled(text), sep, true) && Inside(Doubled(text), true)
  {
    if text != "" {
      var first := if text[0] == '\'' then "''" else [text[0]];
      DoubledStaysInside(text[1..], sep);
      if text[0] == '\'' {
        assert first[1..] == "'" && Front(first) == "'" && Front("'") == "";
      } else {
        assert first[1..] == "" && Front(first) == "";
      }
      InsideConcat(first, Doubled(text[1..]), true);
      QuietConcat(first, Doubled(text[1..]), sep, true);
    }
  }

  /** Whatever text a literal holds, no separator and no keyword starts in it, and it closes itself. */
  lemma LiteralIsToken(text: string, sep: string)
    ensures Token(Literal(text), sep)
  {
    var open, body := "'", Doubled(text);
    DoubledStaysInside(text, sep);
    assert open[1..] == "" && Front(open) == "";
    QuietConcat(open, body, sep, false);
    InsideConcat(open, body, false);
    QuietConcat(open + body, open, sep, false);
    InsideConcat(open + body, open, false);
  }

  // ---- What the fields of any text are ---------------------------------------------------------------------

  /** No separator stands outside a literal in `f`. */
  predicate NoSep(f: string, sep: string, inside: bool) {
    f != "" ==> (inside || f[0] == '\'' || !Starts(f, sep)) && NoSep(f[1..], sep, Toggle(f[0], inside))
  }

  lemma StartsPrefix(f: string, rest: string, sep: string)
    requires Starts(f, sep)
    ensures Starts(f + rest, sep)
  {
    assert (f + rest)[..|sep|] == f[..|sep|];
  }

  /** The first field is a prefix of the text, and no field holds a separator. */
  lemma {:induction false} FieldsHoldNoSep(s: string, sep: string, inside: bool)
    requires sep != ""
    ensures var fs := Fields(s, sep, inside);
            && |fs[0]| <= |s| && s == fs[0] + s[|fs[0]|..] && NoSep(fs[0], sep, inside)
            && forall i :: 1 <= i < |fs| ==> NoSep(fs[i], sep, false)
    decreases |s|
  {
    if s == "" {
    } else if !inside && s[0] != '\'' && Starts(s, sep) {
      FieldsHoldNoSep(s[|sep|..], sep, false);
    } else {
      var rest := Fields(s[1..], sep, Toggle(s[0], inside));
      FieldsHoldNoSep(s[1..], sep, Toggle(s[0], inside));
      FirstHoldsNoSep(s, rest[0], sep, inside);
    }
  }

  lemma FirstHoldsNoSep(s: string, f: string, sep: string, inside: bool)
    requires s != "" && (inside || s[0] == '\'' || !Starts(s, sep))
    requires |f| < |s| && s[1..] == f + s[1..][|f|..] && NoSep(f, sep, Toggle(s[0], inside))
    ensures var g := [s[0]] + f; s == g + s[|g|..] && NoSep(g, sep, inside)
  {
    var g := [s[0]] + f;
    assert g[1..] == f;
    assert s[1..][|f|..] == s[|g|..];
    assert s == [s[0]] + s[1..];
    if Starts(g, sep) { StartsPrefix(g, s[|g|..], sep); }
  }

  /** `f` stands at `p`: at the start if it is the first field, else outside literals, right after a
      separator. */
  predicate Stands(s: string, f: string, sep: string, inside: bool, first: bool, p: nat)
    requires sep != ""
  {
    && p + |f| <= |s| && s[p..p + |f|] == f
    && if first then p == 0 else p > 0 && UpperChar(s[p - 1]) == Last(sep) && !Inside(s[..p], inside)
  }

  /** The fields after the first one, by how the text starts. */
  lemma LaterField(s: string, sep: string, inside: bool, i: nat)
    requires sep != "" && 0 < i < |Fields(s, sep, inside)|
    ensures s != ""
    ensures if !inside && s[0] != '\'' && Starts(s, sep)
            then i - 1 < |Fields(s[|sep|..], sep, false)|
                 && Fields(s, sep, inside)[i] == Fields(s[|sep|..], sep, false)[i - 1]
            else i < |Fields(s[1..], sep, Toggle(s[0], inside))|
                 && Fields(s, sep, inside)[i] == Fields(s[1..], sep, Toggle(s[0], inside))[i]
  {
    if !inside && s[0] != '\'' && Starts(s, sep) {
      PrependedAt(Fields(s[|sep|..], sep, false), i);
    } else {
      AttachedAt([s[0]], Fields(s[1..], sep, Toggle(s[0], inside)), i);
    }
  }

  lemma PrependedAt(fields: seq<string>, i: nat)
    requires 0 < i < |[""] + fields|
    ensures i - 1 < |fields| && ([""] + fields)[i] == fields[i - 1]
  {
  }

  lemma AttachedAt(c: string, fields: seq<string>, i: nat)
    requires fields != [] && 0 < i < |Attach(c, fields)|
    ensures i < |fields| && Attach(c, fields)[i] == fields[i]
  {
  }

  lemma {:induction false} FieldAt(s: string, sep: string, inside: bool, i: nat) returns (p: nat)
    requires sep != "" && '\'' !in sep && i < |Fields(s, sep, inside)|
    ensures Stands(s, Fields(s, sep, inside)[i], sep, inside, i == 0, p)
    decreases |s|
  {
    var f := Fields(s, sep, inside)[i];
    if i == 0 {
      FieldsHoldNoSep(s, sep, inside);
      p := 0;
      return;
    }
    LaterField(s, sep, inside, i);
    if !inside && s[0] != '\'' && Starts(s, sep) {
      var q := FieldAt(s[|sep|..], sep, false, i - 1);
      p := |sep| + q;
      StandsAfterSeparator(s, f, sep, i == 1, q);
    } else {
      var q := FieldAt(s[1..], sep, Toggle(s[0], inside), i);
      p := q + 1;
      StandsOneLater(s, f, sep, inside, q);
    }
  }

  lemma StandsAfterSeparator(s: string, f: string, sep: string, first: bool, q: nat)
    requires sep != "" && '\'' !in sep && Starts(s, sep) && Stands(s[|sep|..], f, sep, false, first, q)
    ensures Stands(s, f, sep, false, false, |sep| + q)
  {
    SliceOfTail(s, |sep|, q, |f|);
    AfterSeparator(s, sep, q);
  }

  lemma StandsOneLater(s: string, f: string, sep: string, inside: bool, q: nat)
    requires sep != "" && s != "" && Stands(s[1..], f, sep, Toggle(s[0], inside), false, q)
    ensures Stands(s, f, sep, inside, false, q + 1)
  {
    SliceOfTail(s, 1, q, |f|);
    OneLater(s, q, inside);
  }

  lemma SliceOfTail(s: string, d: nat, q: nat, n: nat)
    requires d + q + n <= |s|
    ensures s[d..][q..q + n] == s[d + q..d + q + n] && (q > 0 ==> s[d..][q - 1] == s[d + q - 1])
  {
  }

  lemma OneLater(s: string, q: nat, inside: bool)
    requires s != "" && q <= |s[1..]|
    ensures Inside(s[..q + 1], inside) == Inside(s[1..][..q], Toggle(s[0], inside))
  {
    InsideFirst(s[..q + 1], inside);
    assert s[..q + 1][1..] == s[1..][..q];
  }

  lemma AfterSeparator(s: string, sep: string, q: nat)
    requires sep != "" && '\'' !in sep && Starts(s, sep) && q <= |s| - |sep|
    requires q > 0 ==> !Inside(s[|sep|..][..q], false)
    ensures !Inside(s[..|sep| + q], false) && UpperChar(s[|sep| - 1]) == Last(sep)
  {
    var head := s[..|sep|];
    assert Last(Upper(head)) == UpperChar(s[|sep| - 1]);
    forall c | c in head ensures c != '\'' {
      var i :| 0 <= i < |head| && head[i] == c;
      assert Upper(head)[i] == sep[i] && sep[i] in sep;
    }
    PlainStaysOutside(head);
    InsideConcat(head, s[|sep|..][..q], false);
    assert s[..|sep| + q] == head + s[|sep|..][..q];
  }

  lemma {:induction false} PlainStaysOutside(s: string)
    requires '\'' !in s
    ensures !Inside(s, false)
  {
    if s != "" {
      assert Last(s) in s;
      PlainStaysOutside(Front(s));
    }
  }
}
