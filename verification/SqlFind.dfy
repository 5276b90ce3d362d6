// Finding a keyword in SQL text: outside literals and with word boundaries.
module SqlFind {
  import opened Prelude
  import opened Text
  import opened SqlScan

  /** The keyword stands at `i`, outside literals, with no letter, digit or underscore on either side. */
  predicate Hit(sql: string, kw: string, i: nat) {
    && i + |kw| <= |sql| && i < |sql| && sql[i] != '\'' && !Inside(sql[..i], false)
    && Upper(sql[i..i + |kw|]) == Upper(kw)
    && (i == 0 || !IsWord(sql[i - 1]))
    && (i + |kw| >= |sql| || !IsWord(sql[i + |kw|]))
  }

  /** The least hit at or after `i`, or -1. */
  function FindFrom(sql: string, kw: string, i: nat): (r: int)
    ensures r == -1 || (i <= r && r + |kw| <= |sql|)
    decreases |sql| - i
  {
    if i > |sql| then -1 else if Hit(sql, kw, i) then i else FindFrom(sql, kw, i + 1)
  }

  function Find(sql: string, kw: string): (r: int)
    ensures r == -1 || (0 <= r && r + |kw| <= |sql|)
  {
    FindFrom(sql, kw, 0)
  }

  ghost predicate NoHits(sql: string, kw: string, lo: nat, hi: nat) {
    forall j :: lo <= j < hi ==> !Hit(sql, kw, j)
  }

  lemma {:induction false} FindFromIsLeast(sql: string, kw: string, i: nat, k: nat)
    requires i <= k <= |sql| && NoHits(sql, kw, i, k)
    ensures Hit(sql, kw, k) ==> FindFrom(sql, kw, i) == k
    ensures FindFrom(sql, kw, i) == FindFrom(sql, kw, k)
    decreases k - i
  {
    if i < k {
      assert !Hit(sql, kw, i);
      FindFromIsLeast(sql, kw, i + 1, k);
    }
  }

  /** The result is the least hit; it is -1 exactly when there is none. */
  lemma FindIsLeast(sql: string, kw: string, r: int)
    ensures r == Find(sql, kw) <==> if r == -1 then NoHits(sql, kw, 0, |sql| + 1)
                                    else r >= 0 && Hit(sql, kw, r) && NoHits(sql, kw, 0, r)
  {
    FirstHit(sql, kw, 0);
    if r >= 0 && Hit(sql, kw, r) && NoHits(sql, kw, 0, r) {
      FindFromIsLeast(sql, kw, 0, r);
    }
  }

  lemma {:induction false} FirstHit(sql: string, kw: string, i: nat)
    ensures var r := FindFrom(sql, kw, i);
            if r == -1 then NoHits(sql, kw, i, |sql| + 1) else Hit(sql, kw, r) && NoHits(sql, kw, i, r)
    decreases |sql| - i
  {
    if i <= |sql| && !Hit(sql, kw, i) { FirstHit(sql, kw, i + 1); }
  }

  method FindKw(sql: string, kw: string) returns (r: int)
    requires kw != ""
    ensures r == Find(sql, kw)
  {
    var kn, n := |kw|, |sql|;
    var i := 0;
    while i <= n - kn
      invariant 0 <= i <= n && (Inside(sql[..i], false) ==> i == n)
      invariant NoHits(sql, kw, 0, i)
      decreases n - i
    {
      if sql[i] == '\'' {
        i := SkipLiteral(sql, kw, i);
      } else {
        InsideStep(sql, i);
        HitHere(sql, kw, i);
        if Upper(sql[i..i + kn]) == Upper(kw) {
          var pre := i == 0 || !IsWord(sql[i - 1]);
          var post := i + kn >= n || !IsWord(sql[i + kn]);
          if pre && post {
            FindIsLeast(sql, kw, i);
            return i;
          } else {
            i := i + 1;
          }
        } else {
          i := i + 1;
        }
      }
    }
    assert NoHits(sql, kw, i, n + 1);
    FindIsLeast(sql, kw, -1);
    return -1;
  }

  lemma HitHere(sql: string, kw: string, i: nat)
    requires i + |kw| <= |sql| && i < |sql| && sql[i] != '\'' && !Inside(sql[..i], false) && NoHits(sql, kw, 0, i)
    ensures Hit(sql, kw, i)
            <==> && Upper(sql[i..i + |kw|]) == Upper(kw) && (i == 0 || !IsWord(sql[i - 1]))
                 && (i + |kw| >= |sql| || !IsWord(sql[i + |kw|]))
    ensures NoHits(sql, kw, 0, i + 1) <==> !Hit(sql, kw, i)
  {
  }

  lemma NoHitOnQuote(sql: string, kw: string, i: nat)
    requires i < |sql| && NoHits(sql, kw, 0, i) && (Inside(sql[..i], false) || sql[i] == '\'')
    ensures NoHits(sql, kw, 0, i + 1) && Inside(sql[..i + 1], false) == Toggle(sql[i], Inside(sql[..i], false))
  {
    InsideStep(sql, i);
  }

  /** The nested loop of the keyword search: past one literal. */
  method SkipLiteral(sql: string, kw: string, start: nat) returns (i: nat)
    requires start < |sql| && sql[start] == '\'' && !Inside(sql[..start], false)
    requires NoHits(sql, kw, 0, start)
    ensures start < i <= |sql| && (Inside(sql[..i], false) ==> i == |sql|)
    ensures NoHits(sql, kw, 0, i)
  {
    NoHitOnQuote(sql, kw, start);
    i := start + 1;
    while i < |sql|
      invariant start < i <= |sql| && Inside(sql[..i], false)
      invariant NoHits(sql, kw, 0, i)
    {
      NoHitOnQuote(sql, kw, i);
      if sql[i] == '\'' {
        i := i + 1;
        if i < |sql| && sql[i] == '\'' {
          NoHitOnQuote(sql, kw, i);
          i := i + 1;
        } else {
          break;
        }
      } else {
        i := i + 1;
      }
    }
  }

  /** No keyword starts outside a literal in `t` with word boundaries, whatever follows `t`; `word` says
      whether a letter, digit or underscore comes right before `t`. */
  predicate Calm(t: string, kw: string, inside: bool, word: bool) {
    t != "" ==>
      && (inside || word || t[0] == '\'' || !MayStart(t, kw) || (|t| > |kw| && IsWord(t[|kw|])))
      && Calm(t[1..], kw, Toggle(t[0], inside), IsWord(t[0]))
  }

  lemma {:induction false} QuietIsCalm(t: string, kw: string, inside: bool, word: bool)
    requires Quiet(t, kw, inside)
    ensures Calm(t, kw, inside, word)
    decreases |t|
  {
    if t != "" { QuietIsCalm(t[1..], kw, Toggle(t[0], inside), IsWord(t[0])); }
  }

  lemma CalmAfterWord(t: string, kw: string, inside: bool, word: bool)
    requires Calm(t, kw, inside, false)
    ensures Calm(t, kw, inside, word)
  {
  }

  lemma {:induction false} CalmConcat(a: string, b: string, kw: string, inside: bool, word: bool)
    requires Calm(a, kw, inside, word) && Calm(b, kw, Inside(a, inside), false)
    ensures Calm(a + b, kw, inside, word)
    decreases |a|
  {
    if a == "" {
      assert a + b == b;
      CalmAfterWord(b, kw, inside, word);
    } else {
      InsideFirst(a, inside);
      CalmConcat(a[1..], b, kw, Toggle(a[0], inside), IsWord(a[0]));
      assert (a + b)[1..] == a[1..] + b;
      if MayStart(a + b, kw) { MayStartPrefix(a, b, kw); }
    }
  }

  /** What makes a position a hit, given what comes right before the text. */
  predicate HitAt(t: string, kw: string, j: nat, inside: bool, word: bool) {
    && j < |t| && j + |kw| <= |t| && t[j] != '\'' && !Inside(t[..j], inside) && Upper(t[j..j + |kw|]) == kw
    && (if j == 0 then !word else !IsWord(t[j - 1]))
    && (j + |kw| >= |t| || !IsWord(t[j + |kw|]))
  }

  lemma MatchMayStart(t: string, kw: string, inside: bool, word: bool)
    requires HitAt(t, kw, 0, inside, word)
    ensures MayStart(t, kw)
  {
    assert t[..|kw|] == t[0..|kw|];
  }

  lemma TailOfConcat(a: string, b: string)
    requires a != ""
    ensures (a + b)[0] == a[0] && (a + b)[1..] == a[1..] + b
  {
  }

  /** No hit starts in calm text. */
  lemma {:induction false} NoHitInCalm(a: string, rest: string, kw: string, j: nat, inside: bool, word: bool)
    requires Calm(a, kw, inside, word) && j < |a|
    ensures !HitAt(a + rest, kw, j, inside, word)
    decreases |a|
  {
    if HitAt(a + rest, kw, j, inside, word) {
      if j == 0 {
        MatchMayStart(a + rest, kw, inside, word);
        MayStartPrefix(a, rest, kw);
      } else {
        ShiftHit(a + rest, kw, j, inside, word);
        TailOfConcat(a, rest);
        NoHitInCalm(a[1..], rest, kw, j - 1, Toggle(a[0], inside), IsWord(a[0]));
      }
    }
  }

  lemma ShiftHit(t: string, kw: string, j: nat, inside: bool, word: bool)
    requires j > 0 && HitAt(t, kw, j, inside, word)
    ensures HitAt(t[1..], kw, j - 1, Toggle(t[0], inside), IsWord(t[0]))
  {
    ShiftOne(t, j, |kw|, inside);
  }

  lemma ShiftOne(t: string, j: nat, n: nat, inside: bool)
    requires 0 < j < |t| && j + n <= |t|
    ensures Inside(t[..j], inside) == Inside(t[1..][..j - 1], Toggle(t[0], inside))
    ensures t[1..][j - 1..j - 1 + n] == t[j..j + n]
  {
    InsideFirst(t[..j], inside);
    assert t[..j][1..] == t[1..][..j - 1];
  }

  lemma NotHitBefore(a: string, rest: string, kw: string, j: nat)
    requires Calm(a, Upper(kw), false, false) && j < |a|
    ensures !Hit(a + rest, kw, j)
  {
    NoHitInCalm(a, rest, Upper(kw), j, false, false);
  }

  /** After calm text with no open literal, the keyword is found right there, provided it is set off. */
  lemma FindAfterCalm(a: string, word: string, rest: string, kw: string)
    requires kw != "" && word != "" && word[0] != '\'' && Upper(word) == Upper(kw)
    requires Calm(a, Upper(kw), false, false) && !Inside(a, false)
    requires (a == "" || !IsWord(Last(a))) && (rest == "" || !IsWord(rest[0]))
    ensures Find(a + word + rest, kw) == |a|
  {
    var sql := a + word + rest;
    HitAfter(a, word, rest, kw);
    assert sql == a + (word + rest);
    CalmHasNoHits(a, word + rest, kw);
    FindIsLeast(sql, kw, |a|);
  }

  lemma CalmHasNoHits(a: string, rest: string, kw: string)
    requires Calm(a, Upper(kw), false, false)
    ensures NoHits(a + rest, kw, 0, |a|)
  {
    forall j | 0 <= j < |a| ensures !Hit(a + rest, kw, j) {
      NotHitBefore(a, rest, kw, j);
    }
  }

  lemma HitAfter(a: string, word: string, rest: string, kw: string)
    requires kw != "" && word != "" && word[0] != '\'' && Upper(word) == Upper(kw) && !Inside(a, false)
    requires (a == "" || !IsWord(Last(a))) && (rest == "" || !IsWord(rest[0]))
    ensures Hit(a + word + rest, kw, |a|)
  {
    assert |Upper(word)| == |Upper(kw)|;
    ThreeParts(a, word, rest);
  }

  lemma ThreeParts(a: string, word: string, rest: string)
    ensures var s := a + word + rest;
            && s[..|a|] == a && s[|a|..|a| + |word|] == word
            && (a != "" ==> s[|a| - 1] == Last(a)) && (word != "" ==> s[|a|] == word[0])
            && (rest != "" ==> s[|a| + |word|] == rest[0])
  {
  }

  lemma FindNothing(sql: string, kw: string)
    requires kw != "" && Calm(sql, Upper(kw), false, false)
    ensures Find(sql, kw) == -1
  {
    forall j | 0 <= j <= |sql| ensures !Hit(sql, kw, j) {
      if j < |sql| {
        assert sql + "" == sql;
        NotHitBefore(sql, "", kw, j);
      }
    }
    FindIsLeast(sql, kw, -1);
  }
}
