// Log polling by position windows, closed at both ends: SQL Server's LSNs and Oracle's SCNs.
module Polling {
  import opened Prelude
  import Worker

  /** How one poll goes: to its end, or into an error after so many changes of its window. */
  datatype Fate = Completes | Fails(part: nat)

  /** One poll: the maximum position the database reported, how many changes the table's log held
      when it was queried, and how it went. Position zero stands for no position. */
  datatype Poll = Poll(max: nat, visible: nat, fate: Fate)

  /** `current`: the source's position; `out`: indices of the changes yielded so far; `ends`: where
      the completed windows ended; `again`: the part of `out` that failing polls yielded. */
  datatype Cursor = Cursor(current: nat, out: seq<nat>, ends: set<nat>, again: seq<nat>)

  /** Indices of the visible changes inside the window, in log order. */
  function Window(log: seq<nat>, visible: nat, lo: nat, hi: nat): seq<nat>
    requires visible <= |log|
  {
    if visible == 0 then []
    else Window(log, visible - 1, lo, hi) + (if lo <= log[visible - 1] <= hi then [visible - 1] else [])
  }

  function Upto(w: seq<nat>, fate: Fate): seq<nat> {
    if fate.Fails? && fate.part < |w| then w[..fate.part] else w
  }

  /** A window opens only if both positions are non-zero and the database has moved on. */
  predicate Opens(current: nat, p: Poll) {
    p.max > 0 && current > 0 && current < p.max
  }

  /** What a poll yields from position `current`. */
  function Batch(log: seq<nat>, current: nat, p: Poll): seq<nat>
    requires p.visible <= |log|
  {
    if Opens(current, p) then Upto(Window(log, p.visible, current, p.max), p.fate) else []
  }

  function PollOnce(log: seq<nat>, c: Cursor, p: Poll): Cursor
    requires p.visible <= |log|
  {
    var batch := Batch(log, c.current, p);
    if !Opens(c.current, p) then c
    else if p.fate.Completes? then Cursor(p.max, c.out + batch, c.ends + {p.max}, c.again)
    else Cursor(c.current, c.out + batch, c.ends, c.again + batch)
  }

  /** Positions are handed out in order: what a poll could not see yet lies above what it was told. */
  predicate PollOk(log: seq<nat>, p: Poll) {
    p.visible <= |log| && forall j :: p.visible <= j < |log| ==> log[j] > p.max
  }

  predicate PollsOk(log: seq<nat>, polls: seq<Poll>) {
    forall i :: 0 <= i < |polls| ==> PollOk(log, polls[i])
  }

  function PollAll(log: seq<nat>, start: nat, polls: seq<Poll>): Cursor
    requires PollsOk(log, polls)
  {
    if polls == [] then Cursor(start, [], {}, [])
    else
      assert PollOk(log, Last(polls));
      PollOnce(log, PollAll(log, start, Front(polls)), Last(polls))
  }

  class PollingSource {
    var current: nat
    ghost var cursor: Cursor

    constructor (start: nat)
      ensures Valid() && cursor == Cursor(start, [], {}, [])
    {
      current := start;
      cursor := Cursor(start, [], {}, []);
    }

    ghost predicate Valid()
      reads this
    {
      cursor.current == current
    }

    /** One iteration of the polling loop. A failing poll keeps the position, whatever it has yielded. */
    method RunPoll(log: seq<nat>, p: Poll) returns (yielded: seq<nat>)
      requires Valid() && PollOk(log, p)
      modifies this
      ensures Valid() && cursor == PollOnce(log, old(cursor), p) && cursor.out == old(cursor).out + yielded
      ensures !(Opens(old(current), p) && p.fate.Completes?) ==> current == old(current)
    {
      yielded := [];
      if p.max > 0 && current > 0 && p.max > current {
        var j := 0;
        while j < p.visible && (p.fate.Completes? || |yielded| < p.fate.part)
          invariant j <= p.visible && yielded == Window(log, j, current, p.max)
          invariant p.fate.Fails? ==> |yielded| <= p.fate.part
        {
          if current <= log[j] <= p.max {
            yielded := yielded + [j];
          }
          j := j + 1;
        }
        WindowPrefix(log, j, p.visible, current, p.max);
        cursor := PollOnce(log, cursor, p);
        if p.fate.Completes? {
          current := p.max;
        }
      }
    }
  }

  lemma {:induction false} WindowPrefix(log: seq<nat>, j: nat, visible: nat, lo: nat, hi: nat)
    requires j <= visible <= |log|
    ensures var a, b := Window(log, j, lo, hi), Window(log, visible, lo, hi); |a| <= |b| && b[..|a|] == a
    decreases visible
  {
    if j < visible { WindowPrefix(log, j, visible - 1, lo, hi); }
  }

  /** What one poll yields, change by change: those it could see, from the position to the maximum, both
      included, in log order; a failing poll a beginning of them. */
  lemma BatchIsWindow(log: seq<nat>, current: nat, p: Poll)
    requires p.visible <= |log|
    ensures Increasing(Batch(log, current, p), |log|)
    ensures forall j :: j in Batch(log, current, p) ==> j < p.visible && 0 < current <= log[j] <= p.max
    ensures Opens(current, p) && p.fate.Completes? ==>
              forall j :: 0 <= j < p.visible && current <= log[j] <= p.max ==> j in Batch(log, current, p)
    ensures p.fate.Fails? ==> |Batch(log, current, p)| <= p.fate.part
    ensures Opens(current, p) && p.fate.Fails? && |Batch(log, current, p)| < p.fate.part ==>
              forall j :: 0 <= j < p.visible && current <= log[j] <= p.max ==> j in Batch(log, current, p)
  {
    if Opens(current, p) { WindowIsRange(log, p.visible, current, p.max); }
  }

  lemma {:induction false} WindowIsRange(log: seq<nat>, visible: nat, lo: nat, hi: nat)
    requires visible <= |log|
    ensures Increasing(Window(log, visible, lo, hi), visible)
    ensures forall j :: j in Window(log, visible, lo, hi) <==> 0 <= j < visible && lo <= log[j] <= hi
    decreases visible
  {
    if visible > 0 {
      WindowIsRange(log, visible - 1, lo, hi);
      var before := Window(log, visible - 1, lo, hi);
      IncreasingSnoc(before, visible - 1);
      assert before + [] == before;
    }
  }

  // ---- How often each change is yielded ------------------------------------------------------------

  function Count(out: seq<nat>, j: nat): nat {
    if out == [] then 0 else Count(Front(out), j) + if Last(out) == j then 1 else 0
  }

  lemma {:induction false} CountConcat(a: seq<nat>, b: seq<nat>, j: nat)
    ensures Count(a + b, j) == Count(a, j) + Count(b, j)
    decreases |b|
  {
    if b == [] {
      assert a + b == a;
    } else {
      CountConcat(a, Front(b), j);
      assert Front(a + b) == a + Front(b);
    }
  }

  lemma {:induction false} CountIn(out: seq<nat>, j: nat)
    ensures j in out <==> Count(out, j) > 0
    decreases |out|
  {
    if out != [] {
      CountIn(Front(out), j);
      assert out == Front(out) + [Last(out)];
    }
  }

  /** Once if change `j` is visible and inside the window. */
  function Expected(log: seq<nat>, visible: nat, lo: nat, hi: nat, j: nat): nat
    requires visible <= |log|
  {
    if j < visible && lo <= log[j] <= hi then 1 else 0
  }

  lemma {:induction false} WindowCount(log: seq<nat>, visible: nat, lo: nat, hi: nat, j: nat)
    requires visible <= |log|
    ensures Count(Window(log, visible, lo, hi), j) == Expected(log, visible, lo, hi, j)
    decreases visible
  {
    if visible > 0 {
      WindowCount(log, visible - 1, lo, hi, j);
      WindowGrows(log, visible, lo, hi, j);
    }
  }

  lemma WindowGrows(log: seq<nat>, visible: nat, lo: nat, hi: nat, j: nat)
    requires 0 < visible <= |log|
    ensures Count(Window(log, visible, lo, hi), j)
            == Count(Window(log, visible - 1, lo, hi), j)
               + if lo <= log[visible - 1] <= hi && j == visible - 1 then 1 else 0
  {
    var before := Window(log, visible - 1, lo, hi);
    if lo <= log[visible - 1] <= hi {
      CountSnoc(before, visible - 1, j);
    } else {
      assert before + [] == before;
    }
  }

  lemma CountSnoc(a: seq<nat>, x: nat, j: nat)
    ensures Count(a + [x], j) == Count(a, j) + if x == j then 1 else 0
  {
    assert Front(a + [x]) == a;
  }

  /** Times the completed windows have yielded change `j`: never outside the span covered, twice at an
      inner window boundary, once elsewhere. */
  function Yields(log: seq<nat>, start: nat, c: Cursor, j: nat): nat
    requires j < |log|
  {
    if c.current == start || log[j] < start || log[j] > c.current then 0
    else if log[j] in c.ends && log[j] < c.current then 2
    else 1
  }

  predicate Counted(log: seq<nat>, start: nat, c: Cursor, j: nat)
    requires j < |log|
  {
    Count(c.out, j) == Yields(log, start, c, j) + Count(c.again, j)
  }

  /** Every end of a window lies above the start and not above the position, which is one of them
      unless no window has opened. */
  predicate EndsInOrder(start: nat, c: Cursor) {
    && start <= c.current
    && (c.current == start ==> c.ends == {} && c.out == c.again)
    && (c.current > start ==> c.current in c.ends)
    && forall e :: e in c.ends ==> start < e <= c.current
  }

  /** Opening one window adds to each change's count what `Yields` says it should. */
  lemma OpenedCount(log: seq<nat>, start: nat, c: Cursor, p: Poll, j: nat)
    requires PollOk(log, p) && Opens(c.current, p) && p.fate.Completes? && j < |log|
    requires EndsInOrder(start, c) && Counted(log, start, c, j)
    ensures Counted(log, start, PollOnce(log, c, p), j)
  {
    WindowCount(log, p.visible, c.current, p.max, j);
    CountConcat(c.out, Window(log, p.visible, c.current, p.max), j);
  }

  /** What a failing poll yields comes on top. */
  lemma FailedCount(log: seq<nat>, start: nat, c: Cursor, p: Poll, j: nat)
    requires p.visible <= |log| && Opens(c.current, p) && p.fate.Fails? && j < |log|
    requires Counted(log, start, c, j)
    ensures Counted(log, start, PollOnce(log, c, p), j)
  {
    var batch := Batch(log, c.current, p);
    CountConcat(c.out, batch, j);
    CountConcat(c.again, batch, j);
  }

  /** Every sequence of polls yields each change exactly as often as `Yields` says, and once more for
      every failing poll that reached it; the position moves only forward and only to window ends. */
  lemma {:induction false} WindowsLeaveNoGap(log: seq<nat>, start: nat, polls: seq<Poll>)
    requires PollsOk(log, polls)
    ensures EndsInOrder(start, PollAll(log, start, polls))
    ensures forall j :: 0 <= j < |log| ==> Counted(log, start, PollAll(log, start, polls), j)
  {
    if polls != [] {
      var c, p := PollAll(log, start, Front(polls)), Last(polls);
      WindowsLeaveNoGap(log, start, Front(polls));
      assert PollOk(log, p);
      forall j | 0 <= j < |log| ensures Counted(log, start, PollOnce(log, c, p), j) {
        if Opens(c.current, p) {
          if p.fate.Completes? { OpenedCount(log, start, c, p, j); } else { FailedCount(log, start, c, p, j); }
        }
      }
    }
  }

  // ---- Coverage ------------------------------------------------------------------------------------

  /** Some poll ran to its end with a maximum above a start that is not zero. */
  predicate WindowOpened(start: nat, polls: seq<Poll>) {
    start > 0 && exists i :: 0 <= i < |polls| && polls[i].fate.Completes? && polls[i].max > start
  }

  /** The position leaves the start exactly when such a poll is among those made. */
  lemma {:induction false} WindowOpensIff(log: seq<nat>, start: nat, polls: seq<Poll>)
    requires PollsOk(log, polls)
    ensures PollAll(log, start, polls).current > start <==> WindowOpened(start, polls)
  {
    if polls != [] {
      var rest, p := Front(polls), Last(polls);
      WindowOpensIff(log, start, rest);
      WindowsLeaveNoGap(log, start, rest);
      assert PollOk(log, p);
      assert forall i :: 0 <= i < |rest| ==> rest[i] == polls[i];
      assert polls[|rest|] == p;
    }
  }

  /** While no window has opened, failing polls are all there is, each from the start. */
  lemma {:induction false} OnlyFailures(log: seq<nat>, start: nat, polls: seq<Poll>, j: nat)
    requires PollsOk(log, polls) && !WindowOpened(start, polls)
    ensures j in PollAll(log, start, polls).out
            <==> exists i :: 0 <= i < |polls| && j in Batch(log, start, polls[i])
  {
    if polls != [] {
      var rest, p := Front(polls), Last(polls);
      assert forall i :: 0 <= i < |rest| ==> rest[i] == polls[i];
      OnlyFailures(log, start, rest, j);
      WindowOpensIff(log, start, rest);
      WindowsLeaveNoGap(log, start, rest);
      assert PollOk(log, p);
      var c := PollAll(log, start, rest);
      assert PollOnce(log, c, p).out == c.out + Batch(log, start, p);
    }
  }

  /** Everything from the start up to the current position has been yielded, exactly if a window has
      opened or failing polls reached every change that sits at the start itself. */
  lemma CoverageIff(log: seq<nat>, start: nat, polls: seq<Poll>)
    requires PollsOk(log, polls)
    ensures var c := PollAll(log, start, polls);
            (forall j :: 0 <= j < |log| && start <= log[j] <= c.current ==> j in c.out)
            <==> WindowOpened(start, polls)
                 || forall j :: 0 <= j < |log| && log[j] == start ==>
                      exists i :: 0 <= i < |polls| && j in Batch(log, start, polls[i])
  {
    var c := PollAll(log, start, polls);
    WindowsLeaveNoGap(log, start, polls);
    WindowOpensIff(log, start, polls);
    if WindowOpened(start, polls) {
      forall j | 0 <= j < |log| && start <= log[j] <= c.current ensures j in c.out {
        assert Counted(log, start, c, j);
        CountIn(c.out, j);
      }
    } else {
      forall j | 0 <= j < |log|
        ensures j in c.out <==> exists i :: 0 <= i < |polls| && j in Batch(log, start, polls[i])
      {
        OnlyFailures(log, start, polls, j);
      }
    }
  }

  /** When failing polls yield nothing, that leaves: a window has opened, or nothing sits at the start. */
  lemma CleanCoverageIff(log: seq<nat>, start: nat, polls: seq<Poll>)
    requires PollsOk(log, polls)
    requires forall i :: 0 <= i < |polls| ==> polls[i].fate.Completes? || polls[i].fate.part == 0
    ensures var c := PollAll(log, start, polls);
            (forall j :: 0 <= j < |log| && start <= log[j] <= c.current ==> j in c.out)
            <==> WindowOpened(start, polls) || start !in log
  {
    CoverageIff(log, start, polls);
    if !WindowOpened(start, polls) {
      forall i | 0 <= i < |polls| ensures Batch(log, start, polls[i]) == [] {
        assert PollOk(log, polls[i]);
      }
    }
  }

  // ---- Resuming ------------------------------------------------------------------------------------

  /** The log as both queries read it, ordered by position. */
  predicate Sorted(log: seq<nat>) {
    forall i, j :: 0 <= i < j < |log| ==> log[i] <= log[j]
  }

  lemma {:induction false} UptoIsClosed(log: seq<nat>, visible: nat, lo: nat, hi: nat, fate: Fate, i: nat, j: nat)
    requires i < j < |log| && visible <= |log| && lo <= log[i] <= hi
    requires j in Upto(Window(log, visible, lo, hi), fate)
    ensures i in Upto(Window(log, visible, lo, hi), fate)
    decreases visible
  {
    var w := Window(log, visible, lo, hi);
    WindowCount(log, visible, lo, hi, i);
    WindowCount(log, visible, lo, hi, j);
    CountIn(w, i);
    CountIn(w, j);
    if Upto(w, fate) != w {
      var v := Window(log, visible - 1, lo, hi);
      assert fate.part <= |v| && w[..fate.part] == v[..fate.part] == Upto(v, fate);
      UptoIsClosed(log, visible - 1, lo, hi, fate, i, j);
    }
  }

  /** Whatever has been yielded, so has everything before it since the start. */
  lemma {:induction false} YieldedIsClosed(log: seq<nat>, start: nat, polls: seq<Poll>, i: nat, j: nat)
    requires PollsOk(log, polls) && Sorted(log) && i < j < |log| && start <= log[i]
    requires j in PollAll(log, start, polls).out
    ensures i in PollAll(log, start, polls).out
  {
    if polls != [] {
      var c, p := PollAll(log, start, Front(polls)), Last(polls);
      assert PollOk(log, p);
      if j in c.out {
        YieldedIsClosed(log, start, Front(polls), i, j);
      } else if log[i] < c.current {
        WindowsLeaveNoGap(log, start, Front(polls));
        assert Counted(log, start, c, i);
        CountIn(c.out, i);
      } else {
        BatchInRange(log, c.current, p, j);
        UptoIsClosed(log, p.visible, c.current, p.max, p.fate, i, j);
      }
    }
  }

  lemma BatchInRange(log: seq<nat>, current: nat, p: Poll, j: nat)
    requires p.visible <= |log| && j in Batch(log, current, p)
    ensures j < p.visible && current <= log[j] <= p.max
  {
    WindowCount(log, p.visible, current, p.max, j);
    CountIn(Window(log, p.visible, current, p.max), j);
  }

  /** A restart from the position of any yielded change loses nothing, also when the poll that
      yielded it failed later. */
  lemma ResumeLeavesNoGap(log: seq<nat>, start: nat, before: seq<Poll>, saved: nat, after: seq<Poll>)
    requires PollsOk(log, before) && PollsOk(log, after) && Sorted(log)
    requires saved in PollAll(log, start, before).out && saved < |log|
    requires WindowOpened(log[saved], after)
    ensures var c, d := PollAll(log, start, before), PollAll(log, log[saved], after);
            forall j :: 0 <= j < |log| && start <= log[j] <= d.current ==> j in c.out || j in d.out
  {
    var c, d := PollAll(log, start, before), PollAll(log, log[saved], after);
    WindowOpensIff(log, log[saved], after);
    WindowsLeaveNoGap(log, log[saved], after);
    forall j | 0 <= j < |log| && start <= log[j] <= d.current ensures j in c.out || j in d.out {
      if log[j] < log[saved] {
        YieldedIsClosed(log, start, before, j, saved);
      } else {
        assert Counted(log, log[saved], d, j);
        CountIn(d.out, j);
      }
    }
  }

  /** A new window may begin where the worker's state machine allows a source to step back: at the
      first change not below the boundary, when nothing above the boundary was stored or yielded. */
  lemma BoundaryRewindAllowed(cfg: Worker.Config, w: Worker.World, boundary: nat, to: nat)
    requires cfg.kind == Worker.ResumeFrom && to <= w.pos
    requires w.stored.Some? ==> w.stored.value <= boundary
    requires w.last.Some? ==> w.last.value <= boundary
    requires forall j :: to <= j < |cfg.log| && cfg.log[j].offset.Some? ==> cfg.log[j].offset.value >= boundary
    ensures Worker.CanRewind(cfg, w, to)
  {
    if w.stored.Some? { Worker.ResumeAtIndex(cfg.log, cfg.kind, w.stored); }
    if w.last.Some? { Worker.ResumeAtIndex(cfg.log, cfg.kind, w.last); }
  }
}
