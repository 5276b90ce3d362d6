// The dead letter queue: failed batches, their retry state machine and the worker that drains it.
module DeadLetters {
  import opened Prelude
  import opened Events

  datatype Status = Pending | Replayed | Exhausted | Discarded

  datatype Entry = Entry(source: string, table: string, events: seq<Event>, retryCount: nat, maxRetries: nat,
    status: Status)

  /** Stored rows by id; an id is a row's index, since rows are numbered consecutively and never removed. */
  type Queue = seq<Entry>

  // ---- Transitions of one entry -----------------------------------------------------------

  function Failed(e: Entry): Entry {
    e.(retryCount := e.retryCount + 1,
       status := if e.retryCount + 1 >= e.maxRetries then Exhausted else Pending)
  }

  function Reset(e: Entry): Entry {
    e.(status := Pending, retryCount := 0)
  }

  datatype Action =
    | Push(source: string, table: string, events: seq<Event>)
    | MarkReplayed(id: nat)
    | MarkFailed(id: nat)
    | ResetToPending(id: nat)
    | Discard(id: nat)
    | DiscardAll
    | ResetAllExhausted

  /** One committed statement. An unknown id updates nothing. */
  function Step(q: Queue, a: Action, maxRetries: nat): Queue {
    match a
    case Push(source, table, events) => q + [Entry(source, table, events, 0, maxRetries, Pending)]
    case MarkReplayed(id) => if id < |q| then q[id := q[id].(status := Replayed)] else q
    case MarkFailed(id) => if id < |q| then q[id := Failed(q[id])] else q
    case ResetToPending(id) => if id < |q| then q[id := Reset(q[id])] else q
    case Discard(id) => if id < |q| then q[id := q[id].(status := Discarded)] else q
    case DiscardAll =>
      seq(|q|, i requires 0 <= i < |q| =>
        if q[i].status in {Pending, Exhausted} then q[i].(status := Discarded) else q[i])
    case ResetAllExhausted =>
      seq(|q|, i requires 0 <= i < |q| => if q[i].status == Exhausted then Reset(q[i]) else q[i])
  }

  function Run(q: Queue, acts: seq<Action>, maxRetries: nat): Queue {
    if acts == [] then q else Step(Run(q, Front(acts), maxRetries), Last(acts), maxRetries)
  }

  // ---- The state machine invariant ----------------------------------------------------------

  predicate EntryConsistent(e: Entry) {
    && (e.status.Pending? ==> e.retryCount < e.maxRetries)
    && (e.status.Exhausted? ==> e.retryCount >= e.maxRetries)
  }

  predicate Consistent(q: Queue, maxRetries: nat) {
    forall i :: 0 <= i < |q| ==> EntryConsistent(q[i]) && q[i].maxRetries == maxRetries
  }

  /** Every interleaving of worker and UI statements keeps pending below the limit and exhausted at
      or above it, exactly when the limit is positive. */
  lemma ConsistentIffRetriesAllowed(maxRetries: nat)
    ensures (forall acts :: Consistent(Run([], acts, maxRetries), maxRetries)) <==> maxRetries >= 1
  {
    if maxRetries >= 1 {
      forall acts ensures Consistent(Run([], acts, maxRetries), maxRetries) {
        RunKeepsConsistent([], acts, maxRetries);
      }
    } else {
      var acts := [Push("", "", [])];
      assert Front(acts) == [];
      assert Run([], acts, maxRetries) == [Entry("", "", [], 0, 0, Pending)];
      assert !EntryConsistent(Run([], acts, maxRetries)[0]);
    }
  }

  lemma {:induction false} RunKeepsConsistent(q: Queue, acts: seq<Action>, maxRetries: nat)
    requires maxRetries >= 1 && Consistent(q, maxRetries)
    ensures Consistent(Run(q, acts, maxRetries), maxRetries)
  {
    if acts != [] {
      RunKeepsConsistent(q, Front(acts), maxRetries);
    }
  }

  /** Nothing ever takes events out of the store: an entry keeps its batch for good. */
  lemma {:induction false} EntriesAreKept(q: Queue, acts: seq<Action>, maxRetries: nat)
    ensures var r := Run(q, acts, maxRetries);
            |q| <= |r| && forall i :: 0 <= i < |q| ==> r[i].events == q[i].events
  {
    if acts != [] {
      EntriesAreKept(q, Front(acts), maxRetries);
    }
  }

  // ---- Retry rounds ---------------------------------------------------------------------------

  /** Ids of the first `limit` pending entries, in id order; `from` is the id of `q[0]`. */
  function PendingIds(q: Queue, from: nat, limit: nat): seq<nat> {
    if q == [] || limit == 0 then []
    else if q[0].status.Pending? then [from] + PendingIds(q[1..], from + 1, limit - 1)
    else PendingIds(q[1..], from + 1, limit)
  }

  /** One entry after a retry: an empty batch is discarded, a written one replayed. */
  function Retried(e: Entry, written: bool): Entry {
    if e.events == [] then e.(status := Discarded)
    else if written then e.(status := Replayed)
    else Failed(e)
  }

  /** A round retries the first `limit` pending entries; `ok` are the ids whose write succeeds. */
  function Round(q: Queue, ok: set<nat>, from: nat, limit: nat): Queue {
    if q == [] || limit == 0 then q
    else if q[0].status.Pending? then [Retried(q[0], from in ok)] + Round(q[1..], ok, from + 1, limit - 1)
    else [q[0]] + Round(q[1..], ok, from + 1, limit)
  }

  const ROUND_LIMIT: nat := 10

  /** A round statement by statement: `ids` are retried in turn, and before the k-th of them the
      statements `others[k]` of other threads run. Reading an entry's events is no boundary of its own,
      since they never change. */
  function RoundAmong(q: Queue, ids: seq<nat>, ok: set<nat>, others: seq<seq<Action>>, maxRetries: nat): Queue {
    if ids == [] then q
    else
      var r := Run(RoundAmong(q, Front(ids), ok, others, maxRetries), Between(others, |ids| - 1), maxRetries);
      RetryAt(r, Last(ids), Last(ids) in ok)
  }

  function RetryAt(q: Queue, id: nat, written: bool): Queue {
    if id < |q| then q[id := Retried(q[id], written)] else q
  }

  function Between(others: seq<seq<Action>>, k: nat): seq<Action> {
    if k < |others| then others[k] else []
  }

  /** The entries among `ids` whose batches the sink takes, in order; an entry without events is skipped. */
  function Accepted(q: Queue, ids: seq<nat>, ok: set<nat>): seq<nat> {
    if ids == [] then []
    else
      var id := Last(ids);
      Accepted(q, Front(ids), ok) + (if id < |q| && id in ok && q[id].events != [] then [id] else [])
  }

  class DeadLetterQueue {
    var entries: Queue
    const maxRetries: nat

    constructor (maxRetries: nat)
      ensures entries == [] && this.maxRetries == maxRetries
    {
      entries := [];
      this.maxRetries := maxRetries;
    }

    method Push(source: string, table: string, batch: seq<Event>) returns (id: nat)
      modifies this
      ensures entries == Step(old(entries), Action.Push(source, table, batch), maxRetries) && id == |old(entries)|
    {
      id := |entries|;
      entries := entries + [Entry(source, table, batch, 0, maxRetries, Pending)];
    }

    method GetPending(limit: nat) returns (ids: seq<nat>)
      ensures ids == PendingIds(entries, 0, limit)
    {
      ids := [];
      var i := 0;
      while i < |entries| && |ids| < limit
        invariant 0 <= i <= |entries| && |ids| <= limit
        invariant PendingIds(entries, 0, limit) == ids + PendingIds(entries[i..], i, limit - |ids|)
      {
        assert entries[i..][0] == entries[i] && entries[i..][1..] == entries[i + 1..];
        if entries[i].status.Pending? {
          ids := ids + [i];
        }
        i := i + 1;
      }
    }

    method SetStatus(id: nat, status: Status)
      modifies this
      ensures entries == if id < |old(entries)| then old(entries)[id := old(entries)[id].(status := status)]
              else old(entries)
    {
      if id < |entries| {
        entries := entries[id := entries[id].(status := status)];
      }
    }

    method Fail(id: nat)
      modifies this
      ensures entries == Step(old(entries), MarkFailed(id), maxRetries)
    {
      if id < |entries| {
        var e := entries[id];
        var status := if e.retryCount + 1 >= e.maxRetries then Exhausted else Pending;
        entries := entries[id := e.(retryCount := e.retryCount + 1, status := status)];
      }
    }

    method ResetOne(id: nat)
      modifies this
      ensures entries == Step(old(entries), ResetToPending(id), maxRetries)
    {
      if id < |entries| {
        entries := entries[id := entries[id].(status := Pending, retryCount := 0)];
      }
    }

    method DiscardOpen()
      modifies this
      ensures entries == Step(old(entries), DiscardAll, maxRetries)
    {
      ghost var was := entries;
      for i := 0 to |entries|
        invariant |entries| == |was|
        invariant forall j :: 0 <= j < |was| ==>
                    entries[j] == if j < i then Step(was, DiscardAll, maxRetries)[j] else was[j]
      {
        if entries[i].status in {Pending, Exhausted} {
          entries := entries[i := entries[i].(status := Discarded)];
        }
      }
    }

    method ResetExhausted()
      modifies this
      ensures entries == Step(old(entries), ResetAllExhausted, maxRetries)
    {
      ghost var was := entries;
      for i := 0 to |entries|
        invariant |entries| == |was|
        invariant forall j :: 0 <= j < |was| ==>
                    entries[j] == if j < i then Step(was, ResetAllExhausted, maxRetries)[j] else was[j]
      {
        if entries[i].status == Exhausted {
          entries := entries[i := Reset(entries[i])];
        }
      }
    }

    /** A statement of another thread: a failing worker parks a batch, or the dashboard is used. */
    method Other(act: Action)
      modifies this
      ensures entries == Step(old(entries), act, maxRetries)
    {
      match act {
        case Push(source, table, events) => var _ := Push(source, table, events);
        case MarkReplayed(id) => SetStatus(id, Replayed);
        case MarkFailed(id) => Fail(id);
        case ResetToPending(id) => ResetOne(id);
        case Discard(id) => SetStatus(id, Discarded);
        case DiscardAll => DiscardOpen();
        case ResetAllExhausted => ResetExhausted();
      }
    }

    method Others(acts: seq<Action>)
      modifies this
      ensures entries == Run(old(entries), acts, maxRetries)
    {
      for k := 0 to |acts|
        invariant entries == Run(old(entries), acts[..k], maxRetries)
      {
        assert Front(acts[..k + 1]) == acts[..k] && Last(acts[..k + 1]) == acts[k];
        Other(acts[k]);
      }
      assert acts[..|acts|] == acts;
    }

    /** One entry: discarded without events, replayed if the sink accepts it, marked failed otherwise. */
    method RetryOne(id: nat, accepts: bool) returns (taken: bool)
      requires id < |entries|
      modifies this
      ensures entries == old(entries)[id := Retried(old(entries)[id], accepts)]
      ensures taken == (accepts && old(entries)[id].events != [])
    {
      taken := false;
      if entries[id].events == [] {
        SetStatus(id, Discarded);
      } else if accepts {
        SetStatus(id, Replayed);
        taken := true;
      } else {
        Fail(id);
      }
    }

    /** One pass of the retry worker, entry by entry; `ok` says for which ids the sink accepts the batch,
        `others` what other threads do before each entry. */
    method RetryPending(ok: set<nat>, others: seq<seq<Action>>) returns (replayed: seq<nat>)
      modifies this
      ensures var ids := PendingIds(old(entries), 0, ROUND_LIMIT);
              && entries == RoundAmong(old(entries), ids, ok, others, maxRetries)
              && replayed == Accepted(old(entries), ids, ok)
    {
      ghost var was := entries;
      var ids := GetPending(ROUND_LIMIT);
      PendingIdsFacts(was, 0, ROUND_LIMIT);
      replayed := [];
      for n := 0 to |ids|
        invariant entries == RoundAmong(was, ids[..n], ok, others, maxRetries)
        invariant replayed == Accepted(was, ids[..n], ok)
      {
        OneMoreId(ids, n);
        RoundKeepsEvents(was, ids[..n], ok, others, maxRetries);
        Others(Between(others, n));
        EntriesAreKept(RoundAmong(was, ids[..n], ok, others, maxRetries), Between(others, n), maxRetries);
        var taken := RetryOne(ids[n], ids[n] in ok);
        if taken {
          replayed := replayed + [ids[n]];
        }
      }
      assert ids[..|ids|] == ids;
    }
  }

  /** The queue after the entries `ids` have been retried. */
  ghost predicate RetriedSoFar(was: Queue, q: Queue, ids: seq<nat>, ok: set<nat>) {
    |q| == |was| && forall i :: 0 <= i < |was| ==> q[i] == if i in ids then Retried(was[i], i in ok) else was[i]
  }

  /** What a round leaves of the batches, whatever runs meanwhile. */
  lemma {:induction false} RoundKeepsEvents(q: Queue, ids: seq<nat>, ok: set<nat>, others: seq<seq<Action>>,
                                            maxRetries: nat)
    ensures var r := RoundAmong(q, ids, ok, others, maxRetries);
            |q| <= |r| && forall i :: 0 <= i < |q| ==> r[i].events == q[i].events
    decreases |ids|
  {
    if ids != [] {
      RoundKeepsEvents(q, Front(ids), ok, others, maxRetries);
      EntriesAreKept(RoundAmong(q, Front(ids), ok, others, maxRetries), Between(others, |ids| - 1), maxRetries);
    }
  }

  lemma OneMoreId(ids: seq<nat>, n: nat)
    requires n < |ids| && forall a, b :: 0 <= a < b < |ids| ==> ids[a] < ids[b]
    ensures ids[..n + 1] == ids[..n] + [ids[n]] && Front(ids[..n + 1]) == ids[..n] && ids[n] !in ids[..n]
  {
  }

  /** Retried one by one with nothing in between, distinct entries change independently. */
  lemma {:induction false} QuietRound(was: Queue, ids: seq<nat>, ok: set<nat>, maxRetries: nat)
    requires forall a, b :: 0 <= a < b < |ids| ==> ids[a] < ids[b]
    ensures RetriedSoFar(was, RoundAmong(was, ids, ok, [], maxRetries), ids, ok)
    decreases |ids|
  {
    if ids != [] {
      QuietRound(was, Front(ids), ok, maxRetries);
      RetriedNext(was, RoundAmong(was, Front(ids), ok, [], maxRetries), ids, ok);
    }
  }

  lemma RetriedNext(was: Queue, q: Queue, ids: seq<nat>, ok: set<nat>)
    requires ids != [] && forall a, b :: 0 <= a < b < |ids| ==> ids[a] < ids[b]
    requires RetriedSoFar(was, q, Front(ids), ok)
    ensures RetriedSoFar(was, RetryAt(q, Last(ids), Last(ids) in ok), ids, ok)
  {
    OneMoreId(ids, |ids| - 1);
    assert ids == Front(ids) + [Last(ids)];
  }

  /** So a round in which no other thread does anything is what `Round` says. */
  lemma QuietRoundIsRound(q: Queue, ok: set<nat>, maxRetries: nat)
    ensures RoundAmong(q, PendingIds(q, 0, ROUND_LIMIT), ok, [], maxRetries) == Round(q, ok, 0, ROUND_LIMIT)
  {
    var ids := PendingIds(q, 0, ROUND_LIMIT);
    PendingIdsFacts(q, 0, ROUND_LIMIT);
    QuietRound(q, ids, ok, maxRetries);
    RoundIsRetried(q, RoundAmong(q, ids, ok, [], maxRetries), ok);
  }

  lemma RoundIsRetried(was: Queue, q: Queue, ok: set<nat>)
    requires RetriedSoFar(was, q, PendingIds(was, 0, ROUND_LIMIT), ok)
    ensures q == Round(was, ok, 0, ROUND_LIMIT)
  {
    RoundPointwise(was, ok, 0, ROUND_LIMIT);
    forall i | 0 <= i < |was| ensures q[i] == Round(was, ok, 0, ROUND_LIMIT)[i] {
      assert RoundAt(was, ok, 0, ROUND_LIMIT, i);
    }
  }

  lemma {:induction false} PendingIdsFacts(q: Queue, from: nat, limit: nat)
    ensures var ids := PendingIds(q, from, limit);
            && |ids| <= limit
            && (forall n :: 0 <= n < |ids| ==> from <= ids[n] < from + |q| && q[ids[n] - from].status.Pending?)
            && forall a, b :: 0 <= a < b < |ids| ==> ids[a] < ids[b]
  {
    if q != [] && limit > 0 {
      if q[0].status.Pending? {
        PendingIdsFacts(q[1..], from + 1, limit - 1);
      } else {
        PendingIdsFacts(q[1..], from + 1, limit);
      }
    }
  }

  lemma {:induction false} RoundPointwise(q: Queue, ok: set<nat>, from: nat, limit: nat)
    ensures |Round(q, ok, from, limit)| == |q|
    ensures forall i :: 0 <= i < |q| ==> RoundAt(q, ok, from, limit, i)
  {
    if q != [] && limit > 0 {
      var l := if q[0].status.Pending? then limit - 1 else limit;
      RoundPointwise(q[1..], ok, from + 1, l);
      RoundCons(q, ok, from, limit);
      var rest := PendingIds(q[1..], from + 1, l);
      assert forall id :: id in PendingIds(q, from, limit) <==> id in rest || (id == from && q[0].status.Pending?);
      PendingIdsFacts(q[1..], from + 1, l);
      forall i | 0 <= i < |q| ensures RoundAt(q, ok, from, limit, i) {
        if i > 0 {
          assert RoundAt(q[1..], ok, from + 1, l, i - 1);
        }
      }
    }
  }

  /** What a round does to the entry at index `i`. */
  ghost predicate RoundAt(q: Queue, ok: set<nat>, from: nat, limit: nat, i: nat)
    requires i < |q|
  {
    var r := Round(q, ok, from, limit);
    i < |r| && r[i] == if from + i in PendingIds(q, from, limit) then Retried(q[i], from + i in ok) else q[i]
  }

  lemma RoundCons(q: Queue, ok: set<nat>, from: nat, limit: nat)
    requires q != [] && limit > 0
    ensures var l := if q[0].status.Pending? then limit - 1 else limit;
            var h := if q[0].status.Pending? then Retried(q[0], from in ok) else q[0];
            Round(q, ok, from, limit) == [h] + Round(q[1..], ok, from + 1, l)
  {
  }

  // ---- Draining ---------------------------------------------------------------------------------

  function PendingCount(q: Queue): nat {
    if q == [] then 0 else (if q[0].status.Pending? then 1 else 0) + PendingCount(q[1..])
  }

  /** Retries left over all pending entries. */
  function RetriesLeft(q: Queue): int {
    if q == [] then 0
    else (if q[0].status.Pending? then q[0].maxRetries - q[0].retryCount else 0) + RetriesLeft(q[1..])
  }

  /** The most retries any pending entry has left. */
  function LongestLeft(q: Queue): int {
    if q == [] then 0
    else Max(if q[0].status.Pending? then q[0].maxRetries - q[0].retryCount else 0, LongestLeft(q[1..]))
  }

  /** A retry round with what other threads do between its statements, or a statement outside any. */
  datatype DrainStep = RetryRound(ok: set<nat>, others: seq<seq<Action>>) | Alone(act: Action)

  predicate IsDiscard(a: Action) {
    a.Discard? || a.DiscardAll?
  }

  predicate AllDiscards(acts: seq<Action>) {
    forall i :: 0 <= i < |acts| ==> IsDiscard(acts[i])
  }

  /** Nothing is pushed or reset. */
  predicate OnlyDiscards(s: DrainStep) {
    match s
    case RetryRound(_, others) => forall k :: 0 <= k < |others| ==> AllDiscards(others[k])
    case Alone(act) => IsDiscard(act)
  }

  function Drain(q: Queue, steps: seq<DrainStep>, maxRetries: nat): Queue
    decreases |steps|
  {
    if steps == [] then q else Drain(DrainOne(q, steps[0], maxRetries), steps[1..], maxRetries)
  }

  function DrainOne(q: Queue, s: DrainStep, maxRetries: nat): Queue {
    match s
    case RetryRound(ok, others) => RoundAmong(q, PendingIds(q, 0, ROUND_LIMIT), ok, others, maxRetries)
    case Alone(act) => Step(q, act, maxRetries)
  }

  function Rounds(steps: seq<DrainStep>): nat {
    if steps == [] then 0 else (if steps[0].RetryRound? then 1 else 0) + Rounds(steps[1..])
  }

  /** Rounds that always suffice: full rounds while ten or more entries wait, then one per retry left. */
  function RoundsNeeded(q: Queue, maxRetries: nat): int {
    if PendingCount(q) >= ROUND_LIMIT then RetriesLeft(q) / 10 + maxRetries else LongestLeft(q)
  }

  lemma {:induction false} Measures(q: Queue, maxRetries: nat)
    requires Consistent(q, maxRetries)
    ensures PendingCount(q) <= RetriesLeft(q)
    ensures 0 <= LongestLeft(q) <= maxRetries
    ensures PendingCount(q) >= 1 ==> LongestLeft(q) >= 1
  {
    if q != [] {
      TailConsistent(q, maxRetries);
      Measures(q[1..], maxRetries);
    }
  }

  lemma TailConsistent(q: Queue, maxRetries: nat)
    requires q != [] && Consistent(q, maxRetries)
    ensures EntryConsistent(q[0]) && q[0].maxRetries == maxRetries && Consistent(q[1..], maxRetries)
  {
    assert forall i :: 0 <= i < |q[1..]| ==> q[1..][i] == q[i + 1];
  }

  lemma {:induction false} RetriesLeftBound(q: Queue, maxRetries: nat)
    requires Consistent(q, maxRetries)
    ensures RetriesLeft(q) <= PendingCount(q) * maxRetries
  {
    if q != [] {
      TailConsistent(q, maxRetries);
      RetriesLeftBound(q[1..], maxRetries);
      var p := PendingCount(q[1..]);
      assert (p + 1) * maxRetries == p * maxRetries + maxRetries;
    }
  }

  /** What a round over `q` up to `limit` entries does to the measures when it leaves `r`. */
  ghost predicate Progresses(q: Queue, r: Queue, limit: nat) {
    && PendingCount(r) <= PendingCount(q)
    && RetriesLeft(r) <= RetriesLeft(q) - Min(limit, PendingCount(q))
    && LongestLeft(r) <= LongestLeft(q)
    && (PendingCount(q) <= limit && PendingCount(q) >= 1 ==> LongestLeft(r) < LongestLeft(q))
  }

  lemma {:induction false} RoundProgress(q: Queue, ok: set<nat>, from: nat, limit: nat, maxRetries: nat)
    requires Consistent(q, maxRetries)
    ensures Consistent(Round(q, ok, from, limit), maxRetries)
    ensures Progresses(q, Round(q, ok, from, limit), limit)
  {
    if q == [] || limit == 0 {
      Measures(q, maxRetries);
    } else {
      TailConsistent(q, maxRetries);
      var l := if q[0].status.Pending? then limit - 1 else limit;
      RoundProgress(q[1..], ok, from + 1, l, maxRetries);
      RoundCons(q, ok, from, limit);
      ConsProgress(q, Round(q[1..], ok, from + 1, l), from in ok, limit, maxRetries);
    }
  }

  lemma ConsProgress(q: Queue, rest: Queue, taken: bool, limit: nat, maxRetries: nat)
    requires q != [] && limit > 0 && Consistent(q, maxRetries) && Consistent(rest, maxRetries)
    requires Progresses(q[1..], rest, if q[0].status.Pending? then limit - 1 else limit)
    ensures var r := [if q[0].status.Pending? then Retried(q[0], taken) else q[0]] + rest;
            Consistent(r, maxRetries) && Progresses(q, r, limit)
  {
    TailConsistent(q, maxRetries);
    Measures(q[1..], maxRetries);
    Measures(rest, maxRetries);
    NothingPending(q[1..]);
    NothingPending(rest);
    assert ([if q[0].status.Pending? then Retried(q[0], taken) else q[0]] + rest)[1..] == rest;
  }

  lemma {:induction false} NothingPending(q: Queue)
    ensures PendingCount(q) == 0 ==> LongestLeft(q) == 0
  {
    if q != [] {
      NothingPending(q[1..]);
    }
  }

  /** `r` is `q` with some entries discarded. */
  ghost predicate SomeDiscarded(q: Queue, r: Queue) {
    |r| == |q| && forall i :: 0 <= i < |q| ==> r[i] == q[i] || r[i] == q[i].(status := Discarded)
  }

  lemma {:induction false} DiscardShrinks(q: Queue, r: Queue, maxRetries: nat)
    requires Consistent(q, maxRetries) && SomeDiscarded(q, r)
    ensures Consistent(r, maxRetries)
    ensures PendingCount(r) <= PendingCount(q) && RetriesLeft(r) <= RetriesLeft(q) && LongestLeft(r) <= LongestLeft(q)
  {
    if q != [] {
      forall i | 0 <= i < |q[1..]| ensures r[1..][i] == q[1..][i] || r[1..][i] == q[1..][i].(status := Discarded) {
        assert r[1..][i] == r[i + 1] && q[1..][i] == q[i + 1];
      }
      DiscardShrinks(q[1..], r[1..], maxRetries);
      assert r[0] == q[0] || r[0] == q[0].(status := Discarded);
      assert EntryConsistent(q[0]);
    }
  }

  lemma {:induction false} DiscardsDiscard(q: Queue, r: Queue, acts: seq<Action>, maxRetries: nat)
    requires SomeDiscarded(q, r) && AllDiscards(acts)
    ensures SomeDiscarded(q, Run(r, acts, maxRetries))
    decreases |acts|
  {
    if acts != [] {
      DiscardsDiscard(q, r, Front(acts), maxRetries);
      assert IsDiscard(Last(acts));
    }
  }

  /** A retry that fails after its entry was discarded leaves the entry as if it had not been. */
  lemma DiscardIsUndone(q: Queue, id: nat, maxRetries: nat)
    ensures Run(q, [Discard(id), MarkFailed(id)], maxRetries) == Run(q, [MarkFailed(id)], maxRetries)
  {
    assert Front([Discard(id), MarkFailed(id)]) == [Discard(id)];
    assert Front([Discard(id)]) == [] && Front([MarkFailed(id)]) == [];
  }

  /** So discards between the statements of a round can only discard what the round would have left. */
  lemma {:induction false} DiscardsInRound(q: Queue, ids: seq<nat>, ok: set<nat>, others: seq<seq<Action>>,
                                           maxRetries: nat)
    requires forall k :: 0 <= k < |others| ==> AllDiscards(others[k])
    ensures SomeDiscarded(RoundAmong(q, ids, ok, [], maxRetries), RoundAmong(q, ids, ok, others, maxRetries))
    decreases |ids|
  {
    if ids != [] {
      var a := RoundAmong(q, Front(ids), ok, [], maxRetries);
      var b := RoundAmong(q, Front(ids), ok, others, maxRetries);
      DiscardsInRound(q, Front(ids), ok, others, maxRetries);
      DiscardsDiscard(a, b, Between(others, |ids| - 1), maxRetries);
    }
  }

  lemma DrainOneProgress(q: Queue, s: DrainStep, maxRetries: nat)
    requires Consistent(q, maxRetries) && OnlyDiscards(s)
    ensures var r := DrainOne(q, s, maxRetries);
            && Consistent(r, maxRetries)
            && PendingCount(r) <= PendingCount(q)
            && RoundsNeeded(r, maxRetries) <= RoundsNeeded(q, maxRetries)
            && (s.RetryRound? && PendingCount(q) >= 1 ==> RoundsNeeded(r, maxRetries) < RoundsNeeded(q, maxRetries))
  {
    var r := DrainOne(q, s, maxRetries);
    if s.RetryRound? {
      RoundProgress(q, s.ok, 0, ROUND_LIMIT, maxRetries);
      QuietRoundIsRound(q, s.ok, maxRetries);
      DiscardsInRound(q, PendingIds(q, 0, ROUND_LIMIT), s.ok, s.others, maxRetries);
      DiscardShrinks(Round(q, s.ok, 0, ROUND_LIMIT), r, maxRetries);
    } else {
      DiscardShrinks(q, r, maxRetries);
    }
    Measures(q, maxRetries);
    Measures(r, maxRetries);
  }

  lemma {:induction false} EnoughRoundsDrain(q: Queue, steps: seq<DrainStep>, maxRetries: nat)
    requires Consistent(q, maxRetries) && Rounds(steps) >= RoundsNeeded(q, maxRetries)
    requires forall i :: 0 <= i < |steps| ==> OnlyDiscards(steps[i])
    ensures PendingCount(Drain(q, steps, maxRetries)) == 0
    decreases |steps|
  {
    Measures(q, maxRetries);
    if steps != [] {
      DrainOneProgress(q, steps[0], maxRetries);
      var r := DrainOne(q, steps[0], maxRetries);
      if PendingCount(q) == 0 {
        NothingPending(r);
      }
      EnoughRoundsDrain(r, steps[1..], maxRetries);
    }
  }

  /** With no new pushes or resets, P pending entries are gone after P*max/10 + max rounds, whatever the
      sink answers and whatever is discarded meanwhile, between the statements of a round too. */
  lemma QueueDrains(q: Queue, steps: seq<DrainStep>, maxRetries: nat)
    requires Consistent(q, maxRetries)
    requires forall i :: 0 <= i < |steps| ==> OnlyDiscards(steps[i])
    requires Rounds(steps) >= PendingCount(q) * maxRetries / 10 + maxRetries
    ensures PendingCount(Drain(q, steps, maxRetries)) == 0
  {
    Measures(q, maxRetries);
    RetriesLeftBound(q, maxRetries);
    EnoughRoundsDrain(q, steps, maxRetries);
  }
}
