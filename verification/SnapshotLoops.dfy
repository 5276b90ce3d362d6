// The worker's two snapshot loops over its stored offset, each turn a step of the snapshot's life cycle.
module SnapshotLoops {
  import opened Prelude
  import opened Text
  import opened Snapshot
  import opened SnapshotCycle

  /** The stored text means what the state machine has stored. */
  predicate Stands(text: Option<string>, mark: Mark, column: string) {
    match mark
    case Nothing => text == None
    case SnapAt(v) => text == Some(MarkFor(column, v))
    case SnapDone => text == Some(DONE)
    case StreamOffset => text.Some? && !StartsWith(text.value, "snap:")
  }

  /** A starting worker reads the stored text as the machine reads its mark; where it continues, it is
      at the same row, exactly unless a chunk's mark carries a column with a colon. */
  lemma BeginReadsMark(text: Option<string>, column: string, n: nat, w: World)
    requires Stands(text, w.stored, column)
    ensures var v := Begin(Incremental(n), w);
            && (v.phase == Snapping <==> !Decide(text).Stream?)
            && (v.phase == Snapping ==> (v.last == ResumePoint(text) <==> w.stored == Nothing || ':' !in column))
  {
    if w.stored.SnapAt? {
      ResumePointOfMark(column, w.stored.value);
      MarkRoundTripIff(column, IntText(w.stored.value));
    }
  }

  /** How a run of the loop ends. */
  datatype End = Done | Stopped | Died

  function Ending(end: End): seq<Action> {
    match end case Done => [Complete] case Stopped => [StopSeen] case Died => []
  }

  /** The environment's part: how each flush in turn goes, the unlisted ones to their end. */
  function FateOf(fates: seq<Fate>, i: nat): Fate {
    if i < |fates| then fates[i] else Completes
  }

  /** The batch size in effect before each flush in turn, which a flush may change for the next one;
      zero works as one. Unlisted sizes are one. */
  function SizeOf(sizes: seq<nat>, i: nat): (n: nat)
    ensures n > 0
  {
    if i < |sizes| then Max(sizes[i], 1) else 1
  }

  /** The first `k` flushes. */
  function Flushes(fates: seq<Fate>, sizes: seq<nat>, k: nat): seq<Action> {
    if k == 0 then [] else Flushes(fates, sizes, k - 1) + [FlushRows(SizeOf(sizes, k - 1), FateOf(fates, k - 1))]
  }

  predicate AllComplete(fates: seq<Fate>) {
    forall i :: 0 <= i < |fates| ==> fates[i].Completes?
  }

  /** The rows the source returns for one chunk. */
  function Chunk(rows: seq<int>, last: Option<int>, n: nat): seq<nat> {
    var from, end := Passed(rows, last), ChunkEnd(rows, last, n);
    Range(from, Max(from, end))
  }

  /** What one flush of a chunk does to the machine. */
  lemma FlushOfChunk(rows: seq<int>, n: nat, w: World, fate: Fate)
    requires Sorted(rows) && w.phase == Snapping
    ensures var chunk, v := Chunk(rows, w.last, n), Step(rows, Incremental(n), w, FlushRows(1, fate));
            if chunk == [] then v == w
            else
              && Last(chunk) < |rows| && v.tried == w.tried + chunk
              && if fate.Completes?
                 then v.stored == SnapAt(rows[Last(chunk)]) && v.last == Some(rows[Last(chunk)]) && v.phase == Snapping
                 else v.stored == w.stored && v.phase == Idle
  {
    PassedInRange(rows, w.last);
    var from, end := Passed(rows, w.last), ChunkEnd(rows, w.last, n);
    if from < end { LastOfRange(from, end); }
  }

  /** What is emitted once the chunk after `last` is. */
  lemma ChunkReached(rows: seq<int>, n: nat, start: Option<int>, emitted: seq<nat>, last: Option<int>)
    requires Sorted(rows) && Reached(rows, n, start, emitted, last) && Chunk(rows, last, n) != []
    ensures var chunk := Chunk(rows, last, n);
            && Last(chunk) < |rows|
            && Passed(rows, last) < Passed(rows, Some(rows[Last(chunk)])) <= |rows|
            && Reached(rows, n, start, emitted + chunk, Some(rows[Last(chunk)]))
  {
    var from, end := Passed(rows, last), ChunkEnd(rows, last, n);
    VisitStep(rows, last, n);
    LastOfRange(from, end);
    ReachedBy(rows, n, start, emitted, last, Chunk(rows, last, n), end);
  }

  /** An empty chunk means that everything has been emitted. */
  lemma AllReached(rows: seq<int>, n: nat, start: Option<int>, emitted: seq<nat>, last: Option<int>)
    requires Sorted(rows) && Reached(rows, n, start, emitted, last) && Chunk(rows, last, n) == []
    ensures emitted == Visit(rows, start, n)
  {
    VisitStep(rows, last, n);
    assert emitted + [] == emitted;
  }

  predicate NothingLeft(rows: seq<int>, mode: Mode, w: World) {
    FlushEnd(rows, mode, w, 1) <= Place(rows, mode, w)
  }

  lemma EmptyChunk(rows: seq<int>, n: nat, w: World)
    requires Sorted(rows) && Chunk(rows, w.last, n) == []
    ensures NothingLeft(rows, Incremental(n), w)
  {
    PassedInRange(rows, w.last);
  }

  /** The loop's place in the machine: `w0` is where the run began, `acts` what it has done since. */
  ghost predicate Going(rows: seq<int>, mode: Mode, w0: World, acts: seq<Action>, w: World, emitted: seq<nat>)
    requires Sorted(rows)
  {
    w == RunFrom(rows, mode, w0, acts) && w.phase == Snapping && w.tried == w0.tried + emitted
  }

  lemma ChunkGoes(rows: seq<int>, n: nat, w0: World, acts: seq<Action>, w: World, emitted: seq<nat>, fate: Fate)
    requires Sorted(rows) && Going(rows, Incremental(n), w0, acts, w, emitted)
    ensures var a, chunk := FlushRows(1, fate), Chunk(rows, w.last, n);
            var v := Step(rows, Incremental(n), w, a);
            && v == RunFrom(rows, Incremental(n), w0, acts + [a])
            && (chunk == [] ==> v == w)
            && (chunk != [] && fate.Completes? ==>
                  && Last(chunk) < |rows| && v.last == Some(rows[Last(chunk)])
                  && Going(rows, Incremental(n), w0, acts + [a], v, emitted + chunk))
  {
    RunSnoc(rows, Incremental(n), w0, acts, FlushRows(1, fate));
    FlushOfChunk(rows, n, w, fate);
    assert w0.tried + (emitted + Chunk(rows, w.last, n)) == w0.tried + emitted + Chunk(rows, w.last, n);
  }

  /** The mark stands for the last row emitted. */
  predicate Marked(text: Option<string>, was: Option<string>, column: string, emitted: seq<nat>, last: Option<int>) {
    text == if emitted == [] || last == None then was else Some(MarkFor(column, last.value))
  }

  /** The rows emitted so far, and the mark that stands for the last of them. */
  ghost predicate Emitted(rows: seq<int>, column: string, n: nat, was: Option<string>, text: Option<string>,
                          emitted: seq<nat>, last: Option<int>)
    requires Sorted(rows)
  {
    Reached(rows, n, ResumePoint(was), emitted, last) && Marked(text, was, column, emitted, last)
  }

  lemma ChunksBegin(rows: seq<int>, column: string, n: nat, w: World, was: Option<string>)
    requires Sorted(rows) && w.phase == Snapping
    ensures Emitted(rows, column, n, was, was, [], ResumePoint(was))
    ensures Going(rows, Incremental(n), w, [], w, [])
    ensures Passed(rows, ResumePoint(was)) <= |rows|
  {
    PassedInRange(rows, ResumePoint(was));
    assert w.tried + [] == w.tried;
  }

  /** One turn of the chunk loop, on values. */
  lemma TurnKeeps(rows: seq<int>, column: string, n: nat, w0: World, acts: seq<Action>, w: World,
                  was: Option<string>, text: Option<string>, emitted: seq<nat>, last: Option<int>, fate: Fate)
    requires Sorted(rows) && Emitted(rows, column, n, was, text, emitted, last)
    requires Going(rows, Incremental(n), w0, acts, w, emitted) && w.last == last
    ensures var a, chunk := FlushRows(1, fate), Chunk(rows, last, n);
            var v := Step(rows, Incremental(n), w, a);
            && v == RunFrom(rows, Incremental(n), w0, acts + [a])
            && (chunk == [] ==> v == w && NothingLeft(rows, Incremental(n), w)
                                && emitted == Visit(rows, ResumePoint(was), n))
            && (chunk != [] && fate.Completes? ==>
                  && Last(chunk) < |rows| && v.last == Some(rows[Last(chunk)])
                  && Passed(rows, last) < Passed(rows, v.last) <= |rows|
                  && Going(rows, Incremental(n), w0, acts + [a], v, emitted + chunk)
                  && Emitted(rows, column, n, was, Some(MarkFor(column, rows[Last(chunk)])), emitted + chunk, v.last))
  {
    ChunkGoes(rows, n, w0, acts, w, emitted, fate);
    if Chunk(rows, last, n) == [] {
      EmptyChunk(rows, n, w);
      AllReached(rows, n, ResumePoint(was), emitted, last);
    } else {
      ChunkReached(rows, n, ResumePoint(was), emitted, last);
    }
  }

  /** What is emitted and marked, spelled out. */
  lemma EmittedSoFar(rows: seq<int>, column: string, n: nat, was: Option<string>, text: Option<string>,
                     emitted: seq<nat>, last: Option<int>)
    requires Sorted(rows) && Emitted(rows, column, n, was, text, emitted, last)
    ensures emitted == [] ==> text == was
    ensures emitted != [] ==>
              && Last(emitted) < |rows| && text == Some(MarkFor(column, rows[Last(emitted)]))
              && emitted + Visit(rows, Some(rows[Last(emitted)]), n) == Visit(rows, ResumePoint(was), n)
  {
  }

  lemma LastAction(rows: seq<int>, mode: Mode, w0: World, acts: seq<Action>, end: End)
    requires Sorted(rows)
    ensures RunFrom(rows, mode, w0, acts + Ending(end))
            == if end.Died? then RunFrom(rows, mode, w0, acts)
               else Step(rows, mode, RunFrom(rows, mode, w0, acts), Ending(end)[0])
  {
    if end.Died? {
      assert acts + Ending(end) == acts;
    } else {
      RunSnoc(rows, mode, w0, acts, Ending(end)[0]);
    }
  }

  class SnapshotWorker {
    var stored: Option<string>
    ghost var model: World

    /** One turn of the chunk loop: read the chunk after `last`, flush it, store its mark. */
    method Turn(rows: seq<int>, column: string, n: nat, last: Option<int>, fate: Fate)
      returns (chunk: seq<nat>, next: Option<int>)
      requires Sorted(rows) && model.phase == Snapping && model.last == last
      requires Stands(stored, model.stored, column)
      modifies this
      ensures Stands(stored, model.stored, column)
      ensures chunk == Chunk(rows, last, n) && (chunk != [] ==> Last(chunk) < |rows|)
      ensures model == Step(rows, Incremental(n), old(model), FlushRows(1, fate))
      ensures next == if chunk == [] then last else Some(rows[Last(chunk)])
      ensures stored == if chunk == [] || !fate.Completes? then old(stored) else Some(MarkFor(column, next.value))
    {
      FlushOfChunk(rows, n, model, fate);
      chunk := Chunk(rows, last, n);
      next := if chunk == [] then last else Some(rows[Last(chunk)]);
      if chunk != [] && fate.Completes? {
        stored := Some(MarkFor(column, next.value));
      }
      model := Step(rows, Incremental(n), model, FlushRows(1, fate));
    }

    /** Leave the loop: for good once no row is left, or at the stop flag. */
    method Leave(rows: seq<int>, mode: Mode, column: string, end: End)
      requires Sorted(rows) && model.phase == Snapping && Stands(stored, model.stored, column)
      requires end.Stopped? || (end.Done? && NothingLeft(rows, mode, model))
      modifies this
      ensures Stands(stored, model.stored, column)
      ensures model == Step(rows, mode, old(model), Ending(end)[0]) && model.tried == old(model).tried
      ensures stored == if end.Done? then Some(DONE) else old(stored)
    {
      model := Step(rows, mode, model, Ending(end)[0]);
      if end.Done? {
        stored := Some(DONE);
      }
    }

    /** Chunk after chunk, until none is left, the stop flag is seen set at its `patience`-th test, or the
        process dies in a flush. */
    method Chunks(rows: seq<int>, column: string, n: nat, patience: nat, fates: seq<Fate>)
      returns (emitted: seq<nat>, end: End, turns: nat, last: Option<int>)
      requires Sorted(rows) && model.phase == Snapping && model.last == ResumePoint(stored)
      requires Stands(stored, model.stored, column)
      modifies this
      ensures Stands(stored, model.stored, column)
      ensures model == RunFrom(rows, Incremental(n), old(model), Flushes(fates, [], turns))
      ensures Emitted(rows, column, n, old(stored), stored, emitted, last)
      ensures if end.Died? then !AllComplete(fates)
              else Going(rows, Incremental(n), old(model), Flushes(fates, [], turns), model, emitted)
      ensures end.Done? ==>
                NothingLeft(rows, Incremental(n), model) && emitted == Visit(rows, ResumePoint(old(stored)), n)
      ensures patience > |rows| + 1 && !end.Died? ==> end.Done?
    {
      last := ResumePoint(stored);
      ghost var w0, was := model, stored;
      emitted, end, turns := [], Stopped, 0;
      ChunksBegin(rows, column, n, w0, was);
      var empty := false;
      while turns < patience
        invariant Emitted(rows, column, n, was, stored, emitted, last)
        invariant Stands(stored, model.stored, column) && model.last == last
        invariant Going(rows, Incremental(n), w0, Flushes(fates, [], turns), model, emitted)
        invariant turns <= Passed(rows, last) <= |rows| && turns <= patience
      {
        var fate := FateOf(fates, turns);
        TurnKeeps(rows, column, n, w0, Flushes(fates, [], turns), model, was, stored, emitted, last, fate);
        var chunk, next := Turn(rows, column, n, last, fate);
        turns := turns + 1;
        if chunk == [] {
          empty := true;
          break;
        }
        if fate != Completes {
          end := Died;
          break;
        }
        emitted, last := emitted + chunk, next;
      }
      if empty && turns < patience { end := Done; }
    }

    /** The incremental snapshot. `emitted` are the rows of the chunks whose mark was stored, `turns` is how
        often the loop body was entered. */
    method RunIncremental(rows: seq<int>, column: string, n: nat, patience: nat, fates: seq<Fate>)
      returns (emitted: seq<nat>, end: End, turns: nat)
      requires Sorted(rows) && model.phase == Snapping && model.last == ResumePoint(stored)
      requires Stands(stored, model.stored, column)
      modifies this
      ensures Stands(stored, model.stored, column)
      ensures model == RunFrom(rows, Incremental(n), old(model), Flushes(fates, [], turns) + Ending(end))
      ensures end.Done? ==> stored == Some(DONE) && emitted == Visit(rows, ResumePoint(old(stored)), n)
      ensures !end.Done? && emitted == [] ==> stored == old(stored)
      ensures !end.Done? && emitted != [] ==>
                && Last(emitted) < |rows| && stored == Some(MarkFor(column, rows[Last(emitted)]))
                && emitted + Visit(rows, Some(rows[Last(emitted)]), n) == Visit(rows, ResumePoint(old(stored)), n)
      ensures !end.Died? ==> model.tried == old(model).tried + emitted
      ensures patience > |rows| + 1 && AllComplete(fates) ==> end.Done?
    {
      var last;
      emitted, end, turns, last := Chunks(rows, column, n, patience, fates);
      EmittedSoFar(rows, column, n, old(stored), stored, emitted, last);
      LastAction(rows, Incremental(n), old(model), Flushes(fates, [], turns), end);
      if !end.Died? {
        Leave(rows, Incremental(n), column, end);
      }
    }

    /** Hand the collected rows to the next flush. */
    method FlushBatch(rows: seq<int>, sizes: seq<nat>, ghost w0: World, fates: seq<Fate>, k: nat,
                      emitted: seq<nat>, batch: seq<nat>) returns (ok: bool)
      requires Sorted(rows) && Filling(rows, SizeOf(sizes, k), w0, Flushes(fates, sizes, k), model, emitted, batch)
      requires batch != [] && (|batch| == SizeOf(sizes, k) || |emitted| + |batch| == |rows|)
      modifies this`model
      ensures model == RunFrom(rows, Full, w0, Flushes(fates, sizes, k + 1)) && model.stored == old(model).stored
      ensures var acts := Flushes(fates, sizes, k + 1);
              if ok then Filling(rows, SizeOf(sizes, k + 1), w0, acts, model, emitted + batch, [])
              else !AllComplete(fates)
    {
      var size, fate := SizeOf(sizes, k), FateOf(fates, k);
      RunSnoc(rows, Full, w0, Flushes(fates, sizes, k), FlushRows(size, fate));
      BatchFlushed(rows, size, SizeOf(sizes, k + 1), w0, Flushes(fates, sizes, k), model, emitted, batch, fate);
      model := Step(rows, Full, model, FlushRows(size, fate));
      ok := fate.Completes?;
    }

    /** Row after row into batches; the stop flag is seen set from row `patience` on. */
    method Batches(rows: seq<int>, sizes: seq<nat>, patience: nat, fates: seq<Fate>)
      returns (emitted: seq<nat>, end: End, flushes: nat)
      requires Sorted(rows) && model.phase == Snapping && model.pos == 0
      modifies this`model
      ensures model.stored == old(model).stored
      ensures model == RunFrom(rows, Full, old(model), Flushes(fates, sizes, flushes))
      ensures emitted == Range(0, |emitted|) && |emitted| <= patience
      ensures if end.Died? then !AllComplete(fates)
              else Going(rows, Full, old(model), Flushes(fates, sizes, flushes), model, emitted)
      ensures end.Done? ==> |emitted| == |rows| && NothingLeft(rows, Full, model)
      ensures !end.Died? ==> (end.Done? <==> patience >= |rows|)
    {
      ghost var w0 := model;
      var batch: seq<nat> := [];
      emitted, end, flushes := [], Done, 0;
      FillingBegins(rows, SizeOf(sizes, 0), w0);
      for i := 0 to |rows|
        invariant end.Done? && |batch| < SizeOf(sizes, flushes) && |emitted| + |batch| == i <= patience
        invariant model.stored == w0.stored
        invariant Filling(rows, SizeOf(sizes, flushes), w0, Flushes(fates, sizes, flushes), model, emitted, batch)
      {
        if i >= patience {
          end := Stopped;
          break;
        }
        RowAdded(rows, SizeOf(sizes, flushes), w0, Flushes(fates, sizes, flushes), model, emitted, batch);
        batch := batch + [i];
        if |batch| >= SizeOf(sizes, flushes) {
          var ok := FlushBatch(rows, sizes, w0, fates, flushes, emitted, batch);
          flushes := flushes + 1;
          if !ok {
            end := Died;
            break;
          }
          emitted, batch := emitted + batch, [];
        }
      }
      if end.Done? && batch != [] {
        var ok := FlushBatch(rows, sizes, w0, fates, flushes, emitted, batch);
        flushes := flushes + 1;
        if ok { emitted := emitted + batch; } else { end := Died; }
      }
    }

    /** The full snapshot, under batch sizes that may change with every flush. `flushes` counts them. */
    method RunFull(rows: seq<int>, column: string, sizes: seq<nat>, patience: nat, fates: seq<Fate>)
      returns (emitted: seq<nat>, end: End, flushes: nat)
      requires Sorted(rows) && model.phase == Snapping && model.pos == 0
      requires Stands(stored, model.stored, column)
      modifies this
      ensures Stands(stored, model.stored, column)
      ensures model == RunFrom(rows, Full, old(model), Flushes(fates, sizes, flushes) + Ending(end))
      ensures end.Done? ==> stored == Some(DONE) && emitted == Range(0, |rows|)
      ensures !end.Done? ==> stored == old(stored) && |emitted| <= patience && emitted == Range(0, |emitted|)
      ensures !end.Died? ==> model.tried == old(model).tried + emitted && (end.Done? <==> patience >= |rows|)
      ensures AllComplete(fates) ==> !end.Died?
    {
      emitted, end, flushes := Batches(rows, sizes, patience, fates);
      LastAction(rows, Full, old(model), Flushes(fates, sizes, flushes), end);
      if !end.Died? {
        Leave(rows, Full, column, end);
      }
    }
  }

  /** The full snapshot between two rows: `batch` waits to be flushed. */
  ghost predicate Filling(rows: seq<int>, size: nat, w0: World, acts: seq<Action>, w: World,
                          emitted: seq<nat>, batch: seq<nat>)
    requires Sorted(rows)
  {
    && Going(rows, Full, w0, acts, w, emitted) && w.pos == |emitted|
    && |batch| <= size && |emitted| + |batch| <= |rows|
    && emitted == Range(0, |emitted|) && batch == Range(|emitted|, |emitted| + |batch|)
  }

  lemma FillingBegins(rows: seq<int>, size: nat, w: World)
    requires Sorted(rows) && w.phase == Snapping && w.pos == 0
    ensures Filling(rows, size, w, [], w, [], [])
  {
    assert w.tried + [] == w.tried;
  }

  lemma RowAdded(rows: seq<int>, size: nat, w0: World, acts: seq<Action>, w: World,
                 emitted: seq<nat>, batch: seq<nat>)
    requires Sorted(rows) && Filling(rows, size, w0, acts, w, emitted, batch)
    requires |batch| < size && |emitted| + |batch| < |rows|
    ensures Filling(rows, size, w0, acts, w, emitted, batch + [|emitted| + |batch|])
  {
    var lo, i := |emitted|, |emitted| + |batch|;
    assert Range(lo, i) + [i] == Range(lo, i + 1);
  }

  lemma BatchFlushed(rows: seq<int>, size: nat, next: nat, w0: World, acts: seq<Action>, w: World,
                     emitted: seq<nat>, batch: seq<nat>, fate: Fate)
    requires Sorted(rows) && Filling(rows, size, w0, acts, w, emitted, batch)
    requires batch != [] && (|batch| == size || |emitted| + |batch| == |rows|)
    ensures var v := Step(rows, Full, w, FlushRows(size, fate));
            && v.stored == w.stored
            && (fate.Completes? ==> Filling(rows, next, w0, acts + [FlushRows(size, fate)], v, emitted + batch, []))
  {
    RunSnoc(rows, Full, w0, acts, FlushRows(size, fate));
    RangeConcat(0, |emitted|, |emitted| + |batch|);
    assert w0.tried + (emitted + batch) == w0.tried + emitted + batch;
  }
}
