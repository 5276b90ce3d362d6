// The initial snapshot: its stored marks and its pagination by cursor. Rows are numbered in cursor
// order; the table does not change meanwhile.
module Snapshot {
  import opened Prelude
  import opened Text

  // ---- Stored marks --------------------------------------------------------------------------------------

  const DONE := "snap:done"

  /** The mark left after a chunk. */
  function MarkText(column: string, value: string): string {
    "snap:" + column + ":" + value
  }

  /** `s.split(":", n)`. */
  function SplitColon(s: string, n: nat): seq<string>
    decreases n
  {
    var i := IndexOf(s, ':');
    if n == 0 || i < 0 then [s] else [s[..i]] + SplitColon(s[i + 1..], n - 1)
  }

  /** What a starting worker makes of the stored offset. */
  datatype Decision = Scratch | Continue(column: string, value: string) | Stream

  function Decide(stored: Option<string>): Decision {
    if stored.None? then Scratch
    else if StartsWith(stored.value, "snap:") && stored.value != DONE then
      var parts := SplitColon(stored.value, 2);
      if |parts| == 3 then Continue(parts[1], parts[2]) else Scratch
    else Stream
  }

  lemma SplitFirst(a: string, b: string, n: nat)
    requires ':' !in a && n > 0
    ensures SplitColon(a + ":" + b, n) == [a] + SplitColon(b, n - 1)
  {
    var s := a + [':'] + b;
    IndexOfMiddle(a, ':', b);
    assert s[..|a|] == a && s[|a| + 1..] == b;
  }

  lemma SplitMark(a: string, b: string)
    requires ':' !in a
    ensures SplitColon("snap" + ":" + (a + ":" + b), 2) == ["snap", a, b]
  {
    SplitFirst("snap", a + ":" + b, 2);
    SplitFirst(a, b, 1);
    assert SplitColon(b, 0) == [b];
  }

  lemma DecideMark(a: string, b: string)
    requires ':' !in a
    ensures Decide(Some(MarkText(a, b))) == Continue(a, b)
  {
    var text, rest := MarkText(a, b), a + ":" + b;
    assert text == "snap" + ":" + rest;
    SplitMark(a, b);
    NotDone(text, rest, |a|);
  }

  lemma NotDone(text: string, rest: string, i: nat)
    requires text == "snap" + ":" + rest && i < |rest| && rest[i] == ':'
    ensures StartsWith(text, "snap:") && text != DONE
  {
    assert text[..5] == "snap:" && text[5..] == rest;
    assert DONE[5..] == "done";
  }

  /** A colon in the column's name ends it early; the rest of the name goes to the value. */
  lemma MarkWithColon(column: string, value: string) returns (k: nat)
    requires ':' in column
    ensures k < |column|
    ensures Decide(Some(MarkText(column, value))) == Continue(column[..k], column[k + 1..] + ":" + value)
  {
    k := IndexOf(column, ':');
    assert column == column[..k] + ":" + column[k + 1..];
    assert MarkText(column, value) == MarkText(column[..k], column[k + 1..] + ":" + value);
    DecideMark(column[..k], column[k + 1..] + ":" + value);
  }

  /** A mark is read back as the same column and value, colons in the value included, if and only if
      the column has none; and it is never taken for a finished snapshot. */
  lemma MarkRoundTripIff(column: string, value: string)
    ensures Decide(Some(MarkText(column, value))) == Continue(column, value) <==> ':' !in column
    ensures Decide(Some(MarkText(column, value))).Continue?
  {
    if ':' !in column {
      DecideMark(column, value);
    } else {
      var k := MarkWithColon(column, value);
      assert |column[..k]| < |column|;
    }
  }

  /** What the stored texts look like, and how each kind is read: no text starts a snapshot, a mark
      continues it, anything else means that it is over. */
  lemma MarksAsStored(column: string, value: string, other: string)
    requires ':' !in column && (other == "snap:done" || (|other| < 5 || other[..5] != "snap:"))
    ensures Decide(None) == Scratch
    ensures Decide(Some("snap:" + column + ":" + value)) == Continue(column, value)
    ensures Decide(Some(other)) == Stream
  {
    DecideMark(column, value);
  }

  lemma OneMark()
    ensures MarkFor("id", 42) == "snap:id:42"
  {
    assert NatText(4) == "4" && NatText(42) == NatText(4) + "2" == "42";
    assert "snap:id:42" == "snap:" + "id" + ":" + "42";
  }

  // ---- Pagination ----------------------------------------------------------------------------------------

  predicate Sorted(rows: seq<int>) {
    forall i, j :: 0 <= i < j < |rows| ==> rows[i] <= rows[j]
  }

  predicate Unique(rows: seq<int>) {
    forall i, j :: 0 <= i < j < |rows| ==> rows[i] < rows[j]
  }

  /** How many rows `cursor > last` passes over. */
  function Passed(rows: seq<int>, last: Option<int>): nat {
    if last.None? || rows == [] then 0
    else if Last(rows) <= last.value then |rows|
    else Passed(Front(rows), last)
  }

  lemma {:induction false} PassedIs(rows: seq<int>, last: Option<int>)
    requires Sorted(rows)
    ensures var p := Passed(rows, last);
            && p <= |rows|
            && (last.None? ==> p == 0)
            && forall i :: 0 <= i < |rows| && last.Some? ==> (i < p <==> rows[i] <= last.value)
  {
    if last.Some? && rows != [] && Last(rows) > last.value {
      PassedIs(Front(rows), last);
      assert forall i :: 0 <= i < |rows| - 1 ==> Front(rows)[i] == rows[i];
    }
  }

  function Range(lo: nat, hi: nat): (r: seq<nat>)
    requires lo <= hi
  {
    seq(hi - lo, i requires 0 <= i => lo + i)
  }

  lemma RangeConcat(a: nat, b: nat, c: nat)
    requires a <= b <= c
    ensures Range(a, b) + Range(b, c) == Range(a, c)
  {
  }

  /** One past the last row of the chunk after `last`. */
  function ChunkEnd(rows: seq<int>, last: Option<int>, n: nat): nat {
    Min(Passed(rows, last) + n, |rows|)
  }

  /** The rows the chunk loop emits, as indices. */
  function Visit(rows: seq<int>, last: Option<int>, n: nat): seq<nat>
    requires Sorted(rows)
    decreases |rows| - Passed(rows, last)
  {
    PassedIs(rows, last);
    var s, e := Passed(rows, last), ChunkEnd(rows, last, n);
    if e <= s then []
    else
      PassedIs(rows, Some(rows[e - 1]));
      Range(s, e) + Visit(rows, Some(rows[e - 1]), n)
  }

  lemma VisitStep(rows: seq<int>, last: Option<int>, n: nat)
    requires Sorted(rows)
    ensures var s, e := Passed(rows, last), ChunkEnd(rows, last, n);
            if e <= s then Visit(rows, last, n) == []
            else && s < e <= |rows| && e <= Passed(rows, Some(rows[e - 1])) <= |rows|
                 && Visit(rows, last, n) == Range(s, e) + Visit(rows, Some(rows[e - 1]), n)
  {
    PassedIs(rows, last);
    var s, e := Passed(rows, last), ChunkEnd(rows, last, n);
    if s < e { PassedIs(rows, Some(rows[e - 1])); }
  }

  lemma PassedInRange(rows: seq<int>, last: Option<int>)
    requires Sorted(rows)
    ensures Passed(rows, last) <= |rows|
  {
    PassedIs(rows, last);
  }

  /** Counting chunks of `n` from `s`, no chunk ends between two rows with equal cursors. */
  predicate CleanCuts(rows: seq<int>, s: nat, n: nat)
    requires n > 0
    decreases |rows| - s
  {
    s + n < |rows| ==> rows[s + n - 1] < rows[s + n] && CleanCuts(rows, s + n, n)
  }

  lemma {:induction false} VisitFromIff(rows: seq<int>, last: Option<int>, n: nat)
    requires Sorted(rows) && n > 0
    ensures var s := Passed(rows, last);
            s <= |rows| && (Visit(rows, last, n) == Range(s, |rows|) <==> CleanCuts(rows, s, n))
    decreases |rows| - Passed(rows, last)
  {
    PassedInRange(rows, last);
    VisitStep(rows, last, n);
    var s, e := Passed(rows, last), ChunkEnd(rows, last, n);
    if s < e {
      PassedAtCut(rows, e);
      VisitFromIff(rows, Some(rows[e - 1]), n);
      ChunkIff(rows, s, e, n, Visit(rows, Some(rows[e - 1]), n));
    } else {
      assert Visit(rows, last, n) == Range(s, |rows|) == [];
    }
  }

  /** One chunk, `rest` being what is emitted after it. */
  lemma ChunkIff(rows: seq<int>, s: nat, e: nat, n: nat, rest: seq<nat>)
    requires Sorted(rows) && n > 0 && s < e == Min(s + n, |rows|) && rest == Visit(rows, Some(rows[e - 1]), n)
    requires var p := Passed(rows, Some(rows[e - 1]));
             e <= p <= |rows| && (rest == Range(p, |rows|) <==> CleanCuts(rows, p, n))
    ensures Range(s, e) + rest == Range(s, |rows|) <==> CleanCuts(rows, s, n)
  {
    var next := Some(rows[e - 1]);
    PassedAtCut(rows, e);
    RangeSplit(s, e, |rows|, rest);
    if Passed(rows, next) > e { PassedOver(rows, next, n, e); }
  }

  /** A cut between distinct cursors resumes right there; one between equal cursors resumes later. */
  lemma PassedAtCut(rows: seq<int>, e: nat)
    requires Sorted(rows) && 0 < e <= |rows|
    ensures var p := Passed(rows, Some(rows[e - 1]));
            e <= p <= |rows| && (p == e <==> e == |rows| || rows[e - 1] < rows[e])
  {
    PassedIs(rows, Some(rows[e - 1]));
  }

  lemma RangeSplit(a: nat, b: nat, c: nat, rest: seq<nat>)
    requires a <= b <= c
    ensures Range(a, b) + rest == Range(a, c) <==> rest == Range(b, c)
  {
    RangeConcat(a, b, c);
    assert (Range(a, b) + rest)[b - a..] == rest && Range(a, c)[b - a..] == Range(b, c);
  }

  /** A row already passed is not emitted first, so the rest cannot be complete. */
  lemma PassedOver(rows: seq<int>, last: Option<int>, n: nat, e: nat)
    requires Sorted(rows) && e < Passed(rows, last) <= |rows|
    ensures Visit(rows, last, n) != Range(e, |rows|)
  {
    PassedIs(rows, last);
    assert Range(e, |rows|)[0] == e;
    var v := Visit(rows, last, n);
    if v != [] {
      var s, end := Passed(rows, last), ChunkEnd(rows, last, n);
      assert v[0] == Range(s, end)[0];
    }
  }

  /** With a positive chunk size the loop emits every row once and in order if and only if no chunk
      boundary falls between equal cursors; with chunk size zero, only for an empty table. */
  lemma PaginationIff(rows: seq<int>, n: nat)
    requires Sorted(rows)
    ensures Visit(rows, None, n) == Range(0, |rows|) <==> if n == 0 then rows == [] else CleanCuts(rows, 0, n)
  {
    PassedIs(rows, None);
    if n > 0 {
      VisitFromIff(rows, None, n);
    } else {
      assert |Range(0, |rows|)| == |rows|;
    }
  }

  /** Every positive chunk size works exactly when the cursor is unique. */
  lemma EveryChunkSizeIff(rows: seq<int>)
    requires Sorted(rows)
    ensures (forall n :: n > 0 ==> Visit(rows, None, n) == Range(0, |rows|)) <==> Unique(rows)
  {
    if Unique(rows) {
      forall n | n > 0 ensures Visit(rows, None, n) == Range(0, |rows|) {
        UniqueIsClean(rows, 0, n);
        PaginationIff(rows, n);
      }
    } else {
      PaginationIff(rows, 1);
      if CleanCuts(rows, 0, 1) { CleanIsUnique(rows, 0); }
    }
  }

  lemma {:induction false} UniqueIsClean(rows: seq<int>, s: nat, n: nat)
    requires Unique(rows) && n > 0
    ensures CleanCuts(rows, s, n)
    decreases |rows| - s
  {
    if s + n < |rows| { UniqueIsClean(rows, s + n, n); }
  }

  lemma {:induction false} CleanIsUnique(rows: seq<int>, s: nat)
    requires CleanCuts(rows, s, 1)
    ensures forall i, j :: s <= i < j < |rows| ==> rows[i] < rows[j]
    decreases |rows| - s
  {
    if s + 1 < |rows| {
      CleanIsUnique(rows, s + 1);
      forall i, j | s <= i < j < |rows| ensures rows[i] < rows[j] {
        assert rows[s] < rows[s + 1];
        assert s + 1 < j ==> rows[s + 1] < rows[j];
      }
    }
  }

  // ---- Resuming -------------------------------------------------------------------------------------------

  /** Where a stored mark makes the chunk loop continue. */
  function ResumePoint(stored: Option<string>): Option<int> {
    match Decide(stored) case Continue(_, value) => ParseInt(value) case _ => None
  }

  function MarkFor(column: string, v: int): string {
    MarkText(column, IntText(v))
  }

  /** An integer cursor value survives being stored in a mark, exactly if the column has no colon. */
  lemma ResumePointOfMark(column: string, v: int)
    ensures ResumePoint(Some(MarkFor(column, v))) == if ':' in column then None else Some(v)
  {
    if ':' !in column {
      DecideMark(column, IntText(v));
      IntRoundTrip(v);
    } else {
      var k := MarkWithColon(column, IntText(v));
      NoColonInInt(column[k + 1..] + ":" + IntText(v), |column| - k - 1);
    }
  }

  lemma NoColonInInt(s: string, k: nat)
    requires k < |s| && s[k] == ':'
    ensures ParseInt(s) == None
  {
    StripKeeps(s, k);
    var t := Strip(s);
    var j :| 0 <= j < |t| && t[j] == ':';
    assert !AllDigits(t);
    if j > 0 { assert t[1..][j - 1] == ':'; }
  }

  /** What is emitted and what is left to visit make up the whole. */
  ghost predicate Reached(rows: seq<int>, n: nat, start: Option<int>, emitted: seq<nat>, last: Option<int>)
    requires Sorted(rows)
  {
    && emitted + Visit(rows, last, n) == Visit(rows, start, n)
    && (if emitted == [] then last == start else Last(emitted) < |rows| && last == Some(rows[Last(emitted)]))
  }

  lemma ReachedBy(rows: seq<int>, n: nat, start: Option<int>, emitted: seq<nat>, last: Option<int>,
                  chunk: seq<nat>, e: nat)
    requires Sorted(rows) && 0 < e <= |rows| && chunk != [] && Last(chunk) == e - 1
    requires emitted + Visit(rows, last, n) == Visit(rows, start, n)
    requires Visit(rows, last, n) == chunk + Visit(rows, Some(rows[e - 1]), n)
    ensures Reached(rows, n, start, emitted + chunk, Some(rows[e - 1]))
  {
    Append(emitted, chunk, Visit(rows, Some(rows[e - 1]), n));
  }

  lemma Append(a: seq<nat>, b: seq<nat>, c: seq<nat>)
    ensures a + (b + c) == a + b + c && (b != [] ==> Last(a + b) == Last(b))
  {
  }

  lemma LastOfRange(s: nat, e: nat)
    requires s < e
    ensures Range(s, e) != [] && Last(Range(s, e)) == e - 1
  {
  }
}
