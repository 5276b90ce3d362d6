// The snapshot's life cycle as a state machine: chunks, stops and crashes at any point, restarts from
// the stored mark, and the streaming phase that follows.
module SnapshotCycle {
  import opened Prelude
  import opened Snapshot

  /** The stored offset, by what it means; the text forms are those of module Snapshot. */
  datatype Mark = Nothing | SnapAt(value: int) | SnapDone | StreamOffset

  datatype Mode = Incremental(chunk: nat) | Full

  datatype Phase = Idle | Snapping | Streaming

  /** `safe`: rows written or parked; `tried`: rows in the order they were handed to a flush; `last`
      and `pos` are the running worker's place in the table. */
  datatype World = World(
    stored: Mark, safe: set<nat>, tried: seq<nat>, phase: Phase, last: Option<int>, pos: nat,
    crashes: nat, stops: nat)

  /** How far one flush of the snapshot gets. */
  datatype Fate =
    | Completes       // written or parked, and in incremental mode the mark stored
    | DiesInFlush     // the process stops before the rows are written or parked
    | DiesBeforeMark  // the rows are safe, but the process stops before anything else happens

  datatype Action =
    | Start
    | FlushRows(count: nat, fate: Fate)  // `count` matters in full mode only
    | Complete                           // no rows left: the finished mark is stored
    | StreamCommit                       // a streamed batch stores its offset
    | StopSeen
    | Crash

  /** Where the worker is in the table. */
  function Place(rows: seq<int>, mode: Mode, w: World): nat {
    if mode.Full? then w.pos else Passed(rows, w.last)
  }

  /** One past the last row of the next flush. */
  function FlushEnd(rows: seq<int>, mode: Mode, w: World, count: nat): nat {
    var place := Place(rows, mode, w);
    Min(place + (if mode.Full? then count else mode.chunk), |rows|)
  }

  function Rows(lo: nat, hi: nat): set<nat>
    requires lo <= hi
  {
    set i | i in Range(lo, hi)
  }

  function Begin(mode: Mode, w: World): World {
    match w.stored
    case Nothing => w.(phase := Snapping, last := None, pos := 0)
    case SnapAt(v) => w.(phase := Snapping, last := if mode.Full? then None else Some(v), pos := 0)
    case _ => w.(phase := Streaming)
  }

  function Flush(rows: seq<int>, mode: Mode, w: World, count: nat, fate: Fate): World
    requires Sorted(rows)
  {
    PassedIs(rows, w.last);
    var lo, hi := Place(rows, mode, w), FlushEnd(rows, mode, w, count);
    if hi <= lo then w
    else
      var tried := w.tried + Range(lo, hi);
      match fate
      case DiesInFlush => w.(tried := tried, phase := Idle, crashes := w.crashes + 1)
      case DiesBeforeMark => w.(tried := tried, safe := w.safe + Rows(lo, hi), phase := Idle, crashes := w.crashes + 1)
      case Completes =>
        w.(tried := tried, safe := w.safe + Rows(lo, hi), last := Some(rows[hi - 1]), pos := hi,
           stored := if mode.Full? then w.stored else SnapAt(rows[hi - 1]))
  }

  function Step(rows: seq<int>, mode: Mode, w: World, a: Action): World
    requires Sorted(rows)
  {
    match a
    case Start => if w.phase == Idle then Begin(mode, w) else w
    case FlushRows(count, fate) => if w.phase == Snapping then Flush(rows, mode, w, count, fate) else w
    case Complete =>
      if w.phase == Snapping && FlushEnd(rows, mode, w, 1) <= Place(rows, mode, w) then
        w.(stored := SnapDone, phase := Streaming)
      else w
    case StreamCommit => if w.phase == Streaming then w.(stored := StreamOffset) else w
    case StopSeen => if w.phase != Idle then w.(phase := Idle, stops := w.stops + 1) else w
    case Crash => if w.phase != Idle then w.(phase := Idle, crashes := w.crashes + 1) else w
  }

  const INITIAL := World(Nothing, {}, [], Idle, None, 0, 0, 0)

  function RunFrom(rows: seq<int>, mode: Mode, w: World, acts: seq<Action>): World
    requires Sorted(rows)
  {
    if acts == [] then w else Step(rows, mode, RunFrom(rows, mode, w, Front(acts)), Last(acts))
  }

  function Run(rows: seq<int>, mode: Mode, acts: seq<Action>): World
    requires Sorted(rows)
  {
    RunFrom(rows, mode, INITIAL, acts)
  }

  // ---- What every run keeps ----------------------------------------------------------------------------------

  predicate Finished(w: World) {
    w.stored == SnapDone || w.stored == StreamOffset
  }

  /** Rows that need no further attempt, as far as the worker or the stored mark knows. */
  function Covered(rows: seq<int>, mode: Mode, w: World): nat {
    if Finished(w) then |rows|
    else if w.phase == Snapping then Place(rows, mode, w)
    else if w.stored.SnapAt? && mode.Incremental? then Passed(rows, Some(w.stored.value))
    else 0
  }

  /** Attempts beyond the first that a row may have had. */
  function Retries(mode: Mode, w: World): nat {
    w.crashes + if mode.Full? then w.stops else 0
  }

  function Tries(tried: seq<nat>, i: nat): nat {
    multiset(tried)[i]
  }

  /** No row has been tried more often than the retries allow, plus once for the rows covered. */
  ghost predicate TriedAtMost(tried: seq<nat>, n: nat, covered: nat, retries: nat) {
    forall i :: 0 <= i < n ==> Tries(tried, i) <= retries + if i < covered then 1 else 0
  }

  ghost predicate SafeBelow(safe: set<nat>, covered: nat) {
    forall i: nat :: i < covered ==> i in safe
  }

  /** Without a retry the rows tried are exactly the rows covered, in order. */
  predicate InOrder(tried: seq<nat>, covered: nat, retries: nat) {
    retries == 0 ==> tried == Range(0, covered)
  }

  /** Counting chunks from `s`, no boundary falls between equal cursors; without a chunk size, no rows. */
  predicate CutsFrom(rows: seq<int>, s: nat, n: nat) {
    if n == 0 then rows == [] else CleanCuts(rows, s, n)
  }

  /** What a snapshot in incremental mode needs of its chunk size and cursor. */
  predicate ModeOk(rows: seq<int>, mode: Mode) {
    mode.Incremental? ==> CutsFrom(rows, 0, mode.chunk)
  }

  /** What every run keeps in any mode, whatever the cursor. */
  ghost predicate Kept(rows: seq<int>, mode: Mode, w: World) {
    var covered := Covered(rows, mode, w);
    && covered <= |rows| && w.pos <= |rows|
    && (w.phase == Streaming ==> Finished(w)) && (w.phase == Snapping ==> !Finished(w))
    && (mode.Full? ==> !w.stored.SnapAt?)
    && (w.phase == Snapping && mode.Incremental? ==>
          w.last == match w.stored case SnapAt(v) => Some(v) case _ => None)
    && TriedAtMost(w.tried, |rows|, covered, Retries(mode, w))
  }

  /** What it keeps besides when the chunks are cut cleanly. */
  ghost predicate Earned(rows: seq<int>, mode: Mode, w: World) {
    var covered := Covered(rows, mode, w);
    && SafeBelow(w.safe, covered) && InOrder(w.tried, covered, Retries(mode, w))
    && (mode.Incremental? ==> CutsFrom(rows, covered, mode.chunk))
  }

  lemma TriesConcat(a: seq<nat>, b: seq<nat>, i: nat)
    ensures multiset(a + b)[i] == multiset(a)[i] + multiset(b)[i]
  {
  }

  lemma {:induction false} RangeCount(lo: nat, hi: nat, i: nat)
    requires lo <= hi
    ensures multiset(Range(lo, hi))[i] == if lo <= i < hi then 1 else 0
    decreases hi - lo
  {
    if lo < hi {
      RangeCount(lo, hi - 1, i);
      RangeConcat(lo, hi - 1, hi);
      assert Range(hi - 1, hi) == [hi - 1];
      TriesConcat(Range(lo, hi - 1), [hi - 1], i);
    }
  }

  /** A flush of `[lo, hi)`: either it is a retry more, or everything below `hi` is covered. */
  lemma FlushTries(tried: seq<nat>, n: nat, lo: nat, hi: nat, covered: nat, retries: nat)
    requires TriedAtMost(tried, n, lo, retries) && lo < hi <= n && hi <= covered
    ensures TriedAtMost(tried + Range(lo, hi), n, lo, retries + 1)
    ensures TriedAtMost(tried + Range(lo, hi), n, 0, retries + 1)
    ensures TriedAtMost(tried + Range(lo, hi), n, covered, retries)
  {
    forall i | 0 <= i < n ensures Tries(tried + Range(lo, hi), i) == Tries(tried, i) + if lo <= i < hi then 1 else 0 {
      TriesConcat(tried, Range(lo, hi), i);
      RangeCount(lo, hi, i);
    }
  }

  lemma FewerCovered(tried: seq<nat>, n: nat, covered: nat, retries: nat)
    requires TriedAtMost(tried, n, covered, retries)
    ensures TriedAtMost(tried, n, 0, retries + 1)
  {
  }

  /** Where a completed flush up to `hi` leaves the worker: there, unless the cut is not clean. */
  function PlaceAfter(rows: seq<int>, mode: Mode, hi: nat): nat
    requires 0 < hi <= |rows|
  {
    if mode.Full? then hi else Passed(rows, Some(rows[hi - 1]))
  }

  lemma FlushKeeps(rows: seq<int>, mode: Mode, w: World, count: nat, fate: Fate)
    requires Sorted(rows) && Kept(rows, mode, w) && w.phase == Snapping
    ensures Kept(rows, mode, Flush(rows, mode, w, count, fate))
  {
    PassedIs(rows, w.last);
    var lo, hi := Place(rows, mode, w), FlushEnd(rows, mode, w, count);
    if lo < hi {
      PassedAtCut(rows, hi);
      FlushTries(w.tried, |rows|, lo, hi, PlaceAfter(rows, mode, hi), Retries(mode, w));
    }
  }

  lemma StepKeeps(rows: seq<int>, mode: Mode, w: World, a: Action)
    requires Sorted(rows) && Kept(rows, mode, w)
    ensures Kept(rows, mode, Step(rows, mode, w, a))
  {
    PassedIs(rows, w.last);
    match a
    case FlushRows(count, fate) => if w.phase == Snapping { FlushKeeps(rows, mode, w, count, fate); }
    case Crash => FewerCovered(w.tried, |rows|, Covered(rows, mode, w), Retries(mode, w));
    case StopSeen => FewerCovered(w.tried, |rows|, Covered(rows, mode, w), Retries(mode, w));
    case Start => if w.phase == Idle { BeginCovers(rows, mode, w); }
    case _ =>
  }

  /** A restart continues where the stored mark says. */
  lemma BeginCovers(rows: seq<int>, mode: Mode, w: World)
    requires Sorted(rows) && Kept(rows, mode, w) && w.phase == Idle
    ensures Covered(rows, mode, Begin(mode, w)) == Covered(rows, mode, w)
  {
    PassedIs(rows, None);
  }

  // ---- What it earns when the cuts are clean -------------------------------------------------------------------

  lemma RowsIn(lo: nat, hi: nat, i: nat)
    requires lo <= i < hi
    ensures i in Rows(lo, hi)
  {
    assert Range(lo, hi)[i - lo] == i;
  }

  lemma CompleteCovers(rows: seq<int>, mode: Mode, w: World)
    requires Sorted(rows) && ModeOk(rows, mode) && Kept(rows, mode, w)
    ensures Covered(rows, mode, Step(rows, mode, w, Complete)) == Covered(rows, mode, w)
  {
  }

  lemma FlushEarns(rows: seq<int>, mode: Mode, w: World, count: nat, fate: Fate)
    requires Sorted(rows) && ModeOk(rows, mode) && Kept(rows, mode, w) && Earned(rows, mode, w) && w.phase == Snapping
    ensures Earned(rows, mode, Flush(rows, mode, w, count, fate))
  {
    PassedIs(rows, w.last);
    var lo, hi := Place(rows, mode, w), FlushEnd(rows, mode, w, count);
    if lo < hi && fate.Completes? {
      PassedAtCut(rows, hi);
      RangeConcat(0, lo, hi);
      forall i: nat | lo <= i < hi ensures i in Rows(lo, hi) { RowsIn(lo, hi, i); }
    }
  }

  lemma StepEarns(rows: seq<int>, mode: Mode, w: World, a: Action)
    requires Sorted(rows) && ModeOk(rows, mode) && Kept(rows, mode, w) && Earned(rows, mode, w)
    ensures Earned(rows, mode, Step(rows, mode, w, a))
  {
    PassedIs(rows, w.last);
    match a
    case FlushRows(count, fate) => if w.phase == Snapping { FlushEarns(rows, mode, w, count, fate); }
    case Start => if w.phase == Idle { BeginCovers(rows, mode, w); }
    case Complete => CompleteCovers(rows, mode, w);
    case _ =>
  }

  lemma {:induction false} RunKeeps(rows: seq<int>, mode: Mode, acts: seq<Action>)
    requires Sorted(rows)
    ensures Kept(rows, mode, Run(rows, mode, acts))
    ensures ModeOk(rows, mode) ==> Earned(rows, mode, Run(rows, mode, acts))
  {
    if acts == [] {
      PassedIs(rows, None);
      assert INITIAL.tried == Range(0, 0);
    } else {
      var w := Run(rows, mode, Front(acts));
      RunKeeps(rows, mode, Front(acts));
      StepKeeps(rows, mode, w, Last(acts));
      if ModeOk(rows, mode) { StepEarns(rows, mode, w, Last(acts)); }
    }
  }

  /** A finished mark or a stream offset stands only for a table whose every row is written or parked. */
  predicate MarkEarned(rows: seq<int>, w: World) {
    Finished(w) ==> forall i :: 0 <= i < |rows| ==> i in w.safe
  }

  /** When the chunks are cut cleanly, a finished mark or a stream offset is stored only once every row is
      written or parked, and a chunk mark only once every row up to its value is. */
  lemma MarksAreEarned(rows: seq<int>, mode: Mode, acts: seq<Action>)
    requires Sorted(rows) && ModeOk(rows, mode)
    ensures var w := Run(rows, mode, acts);
            && MarkEarned(rows, w)
            && (w.stored.SnapAt? ==> forall i :: 0 <= i < |rows| && rows[i] <= w.stored.value ==> i in w.safe)
  {
    RunKeeps(rows, mode, acts);
    var w := Run(rows, mode, acts);
    if w.stored.SnapAt? { PassedIs(rows, Some(w.stored.value)); }
  }

  /** No row is tried more than once plus the number of crashes, plus in full mode the stops; in
      incremental mode whatever the chunk size and the cursor. */
  lemma TriesAreBounded(rows: seq<int>, mode: Mode, acts: seq<Action>, i: nat)
    requires Sorted(rows) && i < |rows|
    ensures var w := Run(rows, mode, acts); Tries(w.tried, i) <= 1 + Retries(mode, w)
  {
    RunKeeps(rows, mode, acts);
  }

  /** A finished snapshot without a retry has tried every row exactly once and in order. */
  predicate OnceInOrder(rows: seq<int>, mode: Mode, w: World) {
    Finished(w) && Retries(mode, w) == 0 ==> w.tried == Range(0, |rows|)
  }

  /** So it is, without crashes and in full mode without stops, when the chunks are cut cleanly. */
  lemma ExactlyOnceInOrder(rows: seq<int>, mode: Mode, acts: seq<Action>)
    requires Sorted(rows) && ModeOk(rows, mode)
    ensures OnceInOrder(rows, mode, Run(rows, mode, acts))
  {
    RunKeeps(rows, mode, acts);
  }

  // ---- And only then -------------------------------------------------------------------------------------------

  predicate Unseen(w: World, i: nat) {
    i !in w.safe && i !in w.tried
  }

  const FLUSH := FlushRows(1, Completes)

  /** One past the last row of the worker's next chunk. */
  function NextEnd(rows: seq<int>, n: nat, w: World): nat {
    Min(Passed(rows, w.last) + n, |rows|)
  }

  /** A completed chunk. */
  lemma OneChunk(rows: seq<int>, n: nat, w: World, lo: nat, hi: nat)
    requires Sorted(rows) && n > 0 && w.phase == Snapping && lo == Passed(rows, w.last) && hi == NextEnd(rows, n, w)
    ensures lo <= hi <= |rows|
    ensures var v := Step(rows, Incremental(n), w, FLUSH);
            if lo < hi then
              v == w.(tried := w.tried + Range(lo, hi), safe := w.safe + Rows(lo, hi),
                      last := Some(rows[hi - 1]), pos := hi, stored := SnapAt(rows[hi - 1]))
            else v == w
  {
    PassedIs(rows, w.last);
  }

  /** A row outside the next chunk is not seen by flushing it. */
  lemma ChunkUnseen(rows: seq<int>, n: nat, w: World, i: nat)
    requires Sorted(rows) && n > 0 && w.phase == Snapping && Unseen(w, i)
    requires i < Passed(rows, w.last) || NextEnd(rows, n, w) <= i
    ensures Unseen(Step(rows, Incremental(n), w, FLUSH), i)
  {
    var lo, hi := Passed(rows, w.last), NextEnd(rows, n, w);
    OneChunk(rows, n, w, lo, hi);
    if lo < hi { StaysUnseen(w.safe, w.tried, lo, hi, i); }
  }

  lemma StaysUnseen(safe: set<nat>, tried: seq<nat>, lo: nat, hi: nat, i: nat)
    requires i !in safe && i !in tried && lo <= hi && (i < lo || hi <= i)
    ensures i !in safe + Rows(lo, hi) && i !in tried + Range(lo, hi)
  {
  }

  lemma RunSnoc(rows: seq<int>, mode: Mode, w: World, acts: seq<Action>, a: Action)
    requires Sorted(rows)
    ensures RunFrom(rows, mode, w, acts + [a]) == Step(rows, mode, RunFrom(rows, mode, w, acts), a)
  {
    assert Front(acts + [a]) == acts;
  }

  /** A row the worker has passed over stays unseen to the finished mark. */
  lemma {:induction false} FinishWithout(rows: seq<int>, n: nat, acts: seq<Action>, i: nat) returns (more: seq<Action>)
    requires Sorted(rows) && n > 0
    requires var w := Run(rows, Incremental(n), acts);
             w.phase == Snapping && w.crashes == 0 && Unseen(w, i) && i < Passed(rows, w.last)
    ensures var v := Run(rows, Incremental(n), more); Finished(v) && v.crashes == 0 && Unseen(v, i)
    decreases |rows| - Passed(rows, Run(rows, Incremental(n), acts).last)
  {
    var w := Run(rows, Incremental(n), acts);
    var lo := Passed(rows, w.last);
    OneChunk(rows, n, w, lo, NextEnd(rows, n, w));
    ChunkUnseen(rows, n, w, i);
    if lo == |rows| {
      more := acts + [Complete];
      RunSnoc(rows, Incremental(n), INITIAL, acts, Complete);
    } else {
      RunSnoc(rows, Incremental(n), INITIAL, acts, FLUSH);
      PassedAtCut(rows, Min(lo + n, |rows|));
      more := FinishWithout(rows, n, acts + [FLUSH], i);
    }
  }

  /** With a boundary between equal cursors ahead, the row behind that boundary is never seen. */
  lemma {:induction false} CutLosesRow(rows: seq<int>, n: nat, acts: seq<Action>) returns (more: seq<Action>, i: nat)
    requires Sorted(rows) && n > 0
    requires var w := Run(rows, Incremental(n), acts);
             && w.phase == Snapping && w.crashes == 0 && !CleanCuts(rows, Passed(rows, w.last), n)
             && forall j: nat :: Passed(rows, w.last) <= j ==> Unseen(w, j)
    ensures i < |rows|
    ensures var v := Run(rows, Incremental(n), more); Finished(v) && v.crashes == 0 && Unseen(v, i)
    decreases |rows| - Passed(rows, Run(rows, Incremental(n), acts).last)
  {
    var w := Run(rows, Incremental(n), acts);
    var hi := Passed(rows, w.last) + n;
    PassedInRange(rows, w.last);
    OneChunk(rows, n, w, hi - n, hi);
    RunSnoc(rows, Incremental(n), INITIAL, acts, FLUSH);
    PassedAtCut(rows, hi);
    forall j: nat | hi <= j ensures Unseen(Step(rows, Incremental(n), w, FLUSH), j) { ChunkUnseen(rows, n, w, j); }
    if rows[hi - 1] < rows[hi] {
      more, i := CutLosesRow(rows, n, acts + [FLUSH]);
    } else {
      i := hi;
      more := FinishWithout(rows, n, acts + [FLUSH], i);
    }
  }

  lemma UncleanLosesRow(rows: seq<int>, n: nat) returns (acts: seq<Action>, i: nat)
    requires Sorted(rows) && !CutsFrom(rows, 0, n)
    ensures i < |rows|
    ensures var v := Run(rows, Incremental(n), acts); Finished(v) && v.crashes == 0 && Unseen(v, i)
  {
    PassedIs(rows, None);
    RunSnoc(rows, Incremental(n), INITIAL, [], Start);
    if n == 0 {
      acts, i := [] + [Start] + [Complete], 0;
      RunSnoc(rows, Incremental(n), INITIAL, [] + [Start], Complete);
    } else {
      acts, i := CutLosesRow(rows, n, [] + [Start]);
    }
  }

  /** Over every run of an incremental snapshot the finished mark is earned, if and only if no chunk
      boundary falls between equal cursors: restarts resume at the same boundaries. */
  lemma MarkEarnedIff(rows: seq<int>, n: nat)
    requires Sorted(rows)
    ensures (forall acts :: MarkEarned(rows, Run(rows, Incremental(n), acts))) <==> CutsFrom(rows, 0, n)
  {
    if CutsFrom(rows, 0, n) {
      forall acts { MarksAreEarned(rows, Incremental(n), acts); }
    } else {
      var acts, i := UncleanLosesRow(rows, n);
      assert !MarkEarned(rows, Run(rows, Incremental(n), acts));
    }
  }

  /** And so is that every finished run without crashes tries every row once and in order. */
  lemma ExactlyOnceIff(rows: seq<int>, n: nat)
    requires Sorted(rows)
    ensures (forall acts :: OnceInOrder(rows, Incremental(n), Run(rows, Incremental(n), acts)))
            <==> CutsFrom(rows, 0, n)
  {
    if CutsFrom(rows, 0, n) {
      forall acts { ExactlyOnceInOrder(rows, Incremental(n), acts); }
    } else {
      var acts, i := UncleanLosesRow(rows, n);
      assert Range(0, |rows|)[i] == i;
      assert !OnceInOrder(rows, Incremental(n), Run(rows, Incremental(n), acts));
    }
  }

  // ---- Termination -------------------------------------------------------------------------------------------

  predicate Undisturbed(a: Action) {
    a.FlushRows? && a.count > 0 && a.fate.Completes?
  }

  /** Each completed flush of at least one row moves on by at least one row. */
  lemma {:induction false} FlushesMoveOn(rows: seq<int>, mode: Mode, w: World, acts: seq<Action>)
    requires Sorted(rows) && (mode.Incremental? ==> mode.chunk > 0)
    requires w.phase == Snapping && w.pos <= |rows|
    requires forall i :: 0 <= i < |acts| ==> Undisturbed(acts[i])
    ensures var v := RunFrom(rows, mode, w, acts);
            && v.phase == Snapping && v.pos <= |rows|
            && Place(rows, mode, v) >= Min(Place(rows, mode, w) + |acts|, |rows|)
  {
    if acts != [] {
      FlushesMoveOn(rows, mode, w, Front(acts));
      assert Undisturbed(Last(acts));
      OneFlushMovesOn(rows, mode, RunFrom(rows, mode, w, Front(acts)), Last(acts));
    }
  }

  lemma OneFlushMovesOn(rows: seq<int>, mode: Mode, w: World, a: Action)
    requires Sorted(rows) && (mode.Incremental? ==> mode.chunk > 0)
    requires w.phase == Snapping && w.pos <= |rows| && Undisturbed(a)
    ensures var v := Step(rows, mode, w, a);
            && v.phase == Snapping && v.pos <= |rows|
            && Place(rows, mode, v) >= Min(Place(rows, mode, w) + 1, |rows|)
  {
    PassedIs(rows, w.last);
    var lo, hi := Place(rows, mode, w), FlushEnd(rows, mode, w, a.count);
    if lo < hi { PassedIs(rows, Some(rows[hi - 1])); }
  }

  /** From any place in the table every sequence of completed flushes, whatever their sizes, uses up the
      rows: once it is as long as the rows left, the next thing stored is the finished mark. */
  lemma ChunksRunOut(rows: seq<int>, mode: Mode, w: World, acts: seq<Action>)
    requires Sorted(rows) && (mode.Incremental? ==> mode.chunk > 0)
    requires w.phase == Snapping && w.pos <= |rows|
    requires forall i :: 0 <= i < |acts| ==> Undisturbed(acts[i])
    requires |acts| >= |rows| - Place(rows, mode, w)
    ensures Step(rows, mode, RunFrom(rows, mode, w, acts), Complete).stored == SnapDone
  {
    FlushesMoveOn(rows, mode, w, acts);
  }
}
