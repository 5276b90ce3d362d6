// What a retry leaves of a dead letter entry, in terms of statuses and counts.
module RetryLaws {
  import opened Prelude
  import opened DeadLetters

  /** How many of the entries before `i` are pending. */
  function PendingBefore(q: Queue, i: nat): nat
    requires i <= |q|
  {
    if i == 0 then 0 else PendingBefore(q, i - 1) + if q[i - 1].status == Pending then 1 else 0
  }

  /** The entry belongs to the next round: it is one of the first ten that are pending. */
  predicate IsDue(q: Queue, i: nat)
    requires i < |q|
  {
    q[i].status == Pending && PendingBefore(q, i) < 10
  }

  lemma {:induction false} PendingBeforeTail(q: Queue, i: nat)
    requires q != [] && 0 < i <= |q|
    ensures PendingBefore(q, i) == (if q[0].status == Pending then 1 else 0) + PendingBefore(q[1..], i - 1)
  {
    if i > 1 { PendingBeforeTail(q, i - 1); }
  }

  lemma {:induction false} PendingIdsAreFirst(q: Queue, from: nat, limit: nat, i: nat)
    requires i < |q|
    ensures from + i in PendingIds(q, from, limit) <==> q[i].status == Pending && PendingBefore(q, i) < limit
    decreases |q|
  {
    if limit > 0 {
      var l := if q[0].status == Pending then limit - 1 else limit;
      PendingIdsFacts(q[1..], from + 1, l);
      if i > 0 {
        PendingBeforeTail(q, i);
        PendingIdsAreFirst(q[1..], from + 1, l, i - 1);
      }
    }
  }

  /** The entry after a retry whose write succeeds or not. */
  predicate AfterRetry(was: Entry, now: Entry, written: bool) {
    && now.source == was.source && now.table == was.table && now.events == was.events
    && now.maxRetries == was.maxRetries
    && if was.events == [] then now.status == Discarded && now.retryCount == was.retryCount
       else if written then now.status == Replayed && now.retryCount == was.retryCount
       else
         && now.retryCount == was.retryCount + 1
         && now.status == if now.retryCount >= was.maxRetries then Exhausted else Pending
  }

  /** A round in which no other thread does anything: of the first ten pending entries one without events
      is discarded, one the sink takes is replayed, any other has one more retry and is exhausted at its
      limit; every other entry is untouched. `ok` are the ids whose batch the sink takes. */
  lemma RoundStatuses(q: Queue, ok: set<nat>, maxRetries: nat)
    ensures var r := RoundAmong(q, PendingIds(q, 0, ROUND_LIMIT), ok, [], maxRetries);
            && |r| == |q|
            && forall i :: 0 <= i < |q| ==> if IsDue(q, i) then AfterRetry(q[i], r[i], i in ok) else r[i] == q[i]
  {
    QuietRoundIsRound(q, ok, maxRetries);
    RoundPointwise(q, ok, 0, ROUND_LIMIT);
    forall i | 0 <= i < |q| ensures RoundAt(q, ok, 0, ROUND_LIMIT, i) && (i in PendingIds(q, 0, 10) <==> IsDue(q, i)) {
      PendingIdsAreFirst(q, 0, 10, i);
    }
  }

  /** The entries a round reports as replayed: those due whose batch is not empty and taken by the sink, in
      id order. */
  lemma {:induction false} ReplayedAre(q: Queue, ids: seq<nat>, ok: set<nat>)
    requires forall a, b :: 0 <= a < b < |ids| ==> ids[a] < ids[b]
    ensures var done := Accepted(q, ids, ok);
            && (forall id :: id in done <==> id in ids && id < |q| && q[id].events != [] && id in ok)
            && forall a, b :: 0 <= a < b < |done| ==> done[a] < done[b]
    decreases |ids|
  {
    if ids != [] {
      var done := Accepted(q, Front(ids), ok);
      ReplayedAre(q, Front(ids), ok);
      assert ids == Front(ids) + [Last(ids)];
      forall a | 0 <= a < |done| ensures done[a] < Last(ids) {
        assert done[a] in done;
        var b :| 0 <= b < |ids| - 1 && Front(ids)[b] == done[a];
        assert ids[b] < ids[|ids| - 1];
      }
    }
  }

  // ---- Who replays -------------------------------------------------------------------------------------------

  /** Someone marks the entry replayed: a statement of its own, or a round whose sink takes its batch. */
  predicate Replays(s: DrainStep, id: nat) {
    match s
    case Alone(act) => act == MarkReplayed(id)
    case RetryRound(ok, others) => id in ok || exists k :: 0 <= k < |others| && MarkReplayed(id) in others[k]
  }

  predicate IsReplayed(q: Queue, id: nat) {
    id < |q| && q[id].status == Replayed
  }

  lemma StepReplays(q: Queue, act: Action, id: nat, maxRetries: nat)
    requires !IsReplayed(q, id) && act != MarkReplayed(id)
    ensures !IsReplayed(Step(q, act, maxRetries), id)
  {
  }

  lemma {:induction false} RunReplays(q: Queue, acts: seq<Action>, id: nat, maxRetries: nat)
    requires !IsReplayed(q, id) && MarkReplayed(id) !in acts
    ensures !IsReplayed(Run(q, acts, maxRetries), id)
    decreases |acts|
  {
    if acts != [] {
      RunReplays(q, Front(acts), id, maxRetries);
      StepReplays(Run(q, Front(acts), maxRetries), Last(acts), id, maxRetries);
    }
  }

  lemma {:induction false} RoundReplays(q: Queue, ids: seq<nat>, ok: set<nat>, others: seq<seq<Action>>, id: nat,
                                        maxRetries: nat)
    requires !IsReplayed(q, id) && id !in ok
    requires forall k :: 0 <= k < |others| ==> MarkReplayed(id) !in others[k]
    ensures !IsReplayed(RoundAmong(q, ids, ok, others, maxRetries), id)
    decreases |ids|
  {
    if ids != [] {
      RoundReplays(q, Front(ids), ok, others, id, maxRetries);
      RunReplays(RoundAmong(q, Front(ids), ok, others, maxRetries), Between(others, |ids| - 1), id, maxRetries);
    }
  }

  /** Over every interleaving of rounds and statements an entry becomes replayed only by a statement that
      says so, or in a round whose sink takes its batch. */
  lemma {:induction false} OnlyWrittenIsReplayed(q: Queue, steps: seq<DrainStep>, id: nat, maxRetries: nat)
    requires !IsReplayed(q, id) && IsReplayed(Drain(q, steps, maxRetries), id)
    ensures exists i :: 0 <= i < |steps| && Replays(steps[i], id)
    decreases |steps|
  {
    var r := DrainOne(q, steps[0], maxRetries);
    if Replays(steps[0], id) {
    } else {
      StepOrRoundReplays(q, steps[0], id, maxRetries);
      OnlyWrittenIsReplayed(r, steps[1..], id, maxRetries);
      var i :| 0 <= i < |steps[1..]| && Replays(steps[1..][i], id);
      assert Replays(steps[i + 1], id);
    }
  }

  lemma StepOrRoundReplays(q: Queue, s: DrainStep, id: nat, maxRetries: nat)
    requires !IsReplayed(q, id) && !Replays(s, id)
    ensures !IsReplayed(DrainOne(q, s, maxRetries), id)
  {
    match s
    case Alone(act) => StepReplays(q, act, id, maxRetries);
    case RetryRound(ok, others) =>
      RoundReplays(q, PendingIds(q, 0, ROUND_LIMIT), ok, others, id, maxRetries);
  }

  // ---- Statements --------------------------------------------------------------------------------------------

  /** Nothing but the entry has changed. */
  predicate OnlyAt(q: Queue, r: Queue, id: nat) {
    |r| == |q| && forall i :: 0 <= i < |q| && i != id ==> r[i] == q[i]
  }

  predicate SameBatch(was: Entry, now: Entry) {
    && now.source == was.source && now.table == was.table && now.events == was.events
    && now.maxRetries == was.maxRetries
  }

  /** What each statement does, in statuses and counts. */
  lemma StatementsSay(q: Queue, id: nat, maxRetries: nat)
    requires id < |q|
    ensures var r := Step(q, MarkReplayed(id), maxRetries);
            && OnlyAt(q, r, id) && SameBatch(q[id], r[id])
            && r[id].status == Replayed && r[id].retryCount == q[id].retryCount
    ensures var r := Step(q, MarkFailed(id), maxRetries);
            && OnlyAt(q, r, id) && SameBatch(q[id], r[id]) && r[id].retryCount == q[id].retryCount + 1
            && r[id].status == if r[id].retryCount >= q[id].maxRetries then Exhausted else Pending
    ensures var r := Step(q, ResetToPending(id), maxRetries);
            OnlyAt(q, r, id) && SameBatch(q[id], r[id]) && r[id].status == Pending && r[id].retryCount == 0
    ensures var r := Step(q, Discard(id), maxRetries);
            && OnlyAt(q, r, id) && SameBatch(q[id], r[id])
            && r[id].status == Discarded && r[id].retryCount == q[id].retryCount
  {
  }

  lemma SweepsSay(q: Queue, id: nat, maxRetries: nat)
    requires id < |q|
    ensures var r := Step(q, DiscardAll, maxRetries);
            && |r| == |q| && SameBatch(q[id], r[id]) && r[id].retryCount == q[id].retryCount
            && r[id].status == if q[id].status == Pending || q[id].status == Exhausted then Discarded else q[id].status
    ensures var r := Step(q, ResetAllExhausted, maxRetries);
            && |r| == |q| && SameBatch(q[id], r[id])
            && if q[id].status == Exhausted then r[id].status == Pending && r[id].retryCount == 0 else r[id] == q[id]
  {
  }
}
