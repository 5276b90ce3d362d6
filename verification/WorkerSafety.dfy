// What every run of the worker keeps: nothing the stored offset covers is lost, every pulled event
// is accounted for, and no delivery is acknowledged before it is safe.
module WorkerSafety {
  import opened Prelude
  import opened Events
  import opened Worker
  import DL = DeadLetters
  import PubSub

  /** Position `p` was written by the sink, or sits in an entry of the dead letter queue. */
  predicate Covered(l: Ledger, p: nat) {
    p in l.written || exists id :: id in l.parked && p in Positions(l.parked[id])
  }

  /** A flushed batch was written as a whole, or parked as one entry. */
  predicate Settled(l: Ledger, b: seq<Item>) {
    Positions(b) <= l.written || exists id :: id in l.parked && l.parked[id] == b
  }

  /** Parked items really are the events of the queue's entries. */
  predicate QueueHolds(q: DL.Queue, parked: map<nat, seq<Item>>) {
    forall id :: id in parked ==> id < |q| && q[id].events == EventsOf(parked[id])
  }

  predicate Grows(s: Ledger, t: Ledger) {
    && s.written <= t.written
    && forall id :: id in s.parked ==> id in t.parked && t.parked[id] == s.parked[id]
  }

  lemma GrowthKeeps(s: Ledger, t: Ledger)
    requires Grows(s, t)
    ensures forall p :: Covered(s, p) ==> Covered(t, p)
    ensures forall b :: Settled(s, b) ==> Settled(t, b)
  {
  }

  function Flat(bs: seq<seq<Item>>): seq<Item> {
    if bs == [] then [] else Flat(Front(bs)) + Last(bs)
  }

  // ---- What one flush does ------------------------------------------------------------------

  /** A flush only adds to what is written and parked, and one that returns settles its batch. */
  lemma FlushLedger(cfg: Config, w: World, fate: Fate)
    requires QueueHolds(w.queue, w.ledger.parked)
    ensures var l := LedgerAfter(cfg, w, fate);
            && Grows(w.ledger, l) && QueueHolds(QueueAfter(cfg, w, fate), l.parked)
            && (!fate.Dies? || Writes(cfg, w, fate) ==>
                  Settled(l, w.batch) && forall p :: p in Positions(w.batch) ==> Covered(l, p))
  {
    assert |w.queue| !in w.ledger.parked;
    var l := LedgerAfter(cfg, w, fate);
    if Parks(fate) {
      assert |w.queue| in l.parked && l.parked[|w.queue|] == w.batch;
    }
  }

  /** The offset is stored and acks are sent only when the sink has completed the batch. */
  lemma CommitsOnlyAfterWriting(cfg: Config, w: World, fate: Fate)
    ensures StoresOffset(cfg, w, fate) || Commits(cfg, w, fate) ==> Writes(cfg, w, fate)
  {
  }

  // ---- The stored offset ------------------------------------------------------------------------

  /** Everything the resume position skips is safe, and so is everything this run has passed,
      except what is still in the batch. */
  predicate OffsetSafe(cfg: Config, w: World) {
    && (forall p :: 0 <= p < ResumePos(cfg, w.stored) ==> Covered(w.ledger, p))
    && (w.running ==>
          && (forall p :: 0 <= p < w.run.top ==> Covered(w.ledger, p) || p in Positions(w.batch))
          && w.pos <= w.run.top && ResumePos(cfg, w.last) <= w.run.top)
    && QueueHolds(w.queue, w.ledger.parked)
  }

  lemma FlushOffsetSafe(cfg: Config, w: World, fate: Fate)
    requires OffsetSafe(cfg, w) && w.running
    ensures OffsetSafe(cfg, Flush(cfg, w, fate))
  {
    if w.batch != [] {
      FlushLedger(cfg, w, fate);
      GrowthKeeps(w.ledger, LedgerAfter(cfg, w, fate));
      CommitsOnlyAfterWriting(cfg, w, fate);
    }
  }

  lemma TakePositions(cfg: Config, w: World)
    requires w.pos < |cfg.log|
    ensures Positions(Take(cfg, w).batch) == Positions(w.batch) + {w.pos}
  {
    var v := Take(cfg, w);
    assert v.batch == w.batch + [Item(w.pos, cfg.log[w.pos])];
    assert v.batch[|w.batch|].at == w.pos;
  }

  lemma TakeOffsetSafe(cfg: Config, w: World)
    requires ResumeContract(cfg.log, cfg.kind)
    requires OffsetSafe(cfg, w) && w.running && w.pos < |cfg.log|
    ensures OffsetSafe(cfg, Take(cfg, w)) && Take(cfg, w).running
  {
    TakePositions(cfg, w);
    ResumeContractIsExact(cfg.log, cfg.kind);
  }

  lemma RoundHolds(q: DL.Queue, ok: set<nat>, others: seq<seq<DL.Action>>, maxRetries: nat,
                   parked: map<nat, seq<Item>>)
    requires QueueHolds(q, parked)
    ensures QueueHolds(DL.RoundAmong(q, DL.PendingIds(q, 0, DL.ROUND_LIMIT), ok, others, maxRetries), parked)
  {
    DL.RoundKeepsEvents(q, DL.PendingIds(q, 0, DL.ROUND_LIMIT), ok, others, maxRetries);
  }

  lemma QueueStepHolds(q: DL.Queue, act: DL.Action, maxRetries: nat, parked: map<nat, seq<Item>>)
    requires QueueHolds(q, parked)
    ensures QueueHolds(DL.Step(q, act, maxRetries), parked)
  {
  }

  lemma NextOffsetSafe(cfg: Config, w: World, timedOut: bool, fate: Fate)
    requires ResumeContract(cfg.log, cfg.kind) && cfg.kind != AckOnCommit && cfg.bad == {}
    requires OffsetSafe(cfg, w)
    ensures OffsetSafe(cfg, Step(cfg, w, Next(timedOut, fate)))
  {
    if w.running && w.pos < |cfg.log| {
      TakeOffsetSafe(cfg, w);
      FlushOffsetSafe(cfg, Take(cfg, w), fate);
    }
  }

  lemma StepOffsetSafe(cfg: Config, w: World, a: Action)
    requires ResumeContract(cfg.log, cfg.kind) && cfg.kind != AckOnCommit && cfg.bad == {}
    requires OffsetSafe(cfg, w)
    ensures OffsetSafe(cfg, Step(cfg, w, a))
  {
    match a
    case Next(timedOut, fate) => NextOffsetSafe(cfg, w, timedOut, fate);
    case Heartbeat(_, fate) => if w.running { FlushOffsetSafe(cfg, w, fate); }
    case StopSeen(onEvent, fate) => if w.running { FlushOffsetSafe(cfg, StopWith(cfg, w, onEvent), fate); }
    case SourceEnds(fate) => if w.running { FlushOffsetSafe(cfg, w, fate); }
    case RetryRound(ok, others, _) => RoundHolds(w.queue, ok, others, cfg.maxRetries, w.ledger.parked);
    case QueueAction(act) => QueueStepHolds(w.queue, act, cfg.maxRetries, w.ledger.parked);
    case _ =>
  }

  /** Nothing a restart would skip is lost. */
  predicate NothingLost(cfg: Config, w: World) {
    forall p :: 0 <= p < ResumePos(cfg, w.stored) ==> Covered(w.ledger, p)
  }

  /** Over every run from a clean start: each event the stored offset makes a restart skip has been
      written or is the payload of a dead letter entry. */
  lemma {:induction false} NoCommittedLoss(cfg: Config, rows: seq<Row>, size: nat, acts: seq<Action>)
    requires ResumeContract(cfg.log, cfg.kind) && cfg.kind != AckOnCommit && cfg.bad == {}
    ensures var w := RunAll(cfg, Initial(rows, size), acts);
            OffsetSafe(cfg, w) && NothingLost(cfg, w)
  {
    if acts != [] {
      NoCommittedLoss(cfg, rows, size, Front(acts));
      StepOffsetSafe(cfg, RunAll(cfg, Initial(rows, size), Front(acts)), Last(acts));
    }
  }

  // ---- The contract is necessary ------------------------------------------------------------------

  const FLUSH_NOW := Next(true, Succeeds(1, {}))

  /** Start, then pull and flush `n` events one at a time. */
  function PullEach(n: nat): seq<Action> {
    if n == 0 then [Start] else PullEach(n - 1) + [FLUSH_NOW]
  }

  ghost predicate PulledEach(cfg: Config, w: World, n: nat) {
    && w.running && w.batch == [] && w.pos == n && w.stored == w.last
    && (forall p :: p in w.ledger.written <==> 0 <= p < n) && w.ledger.parked == map[]
    && (n > 0 && n <= |cfg.log| && cfg.log[n - 1].offset.Some? ==> w.last == cfg.log[n - 1].offset)
  }

  lemma PullOne(cfg: Config, w: World, n: nat)
    requires cfg.kind != AckOnCommit && cfg.bad == {} && n < |cfg.log| && PulledEach(cfg, w, n)
    ensures PulledEach(cfg, Step(cfg, w, FLUSH_NOW), n + 1)
  {
    var v := Take(cfg, w);
    TakePositions(cfg, w);
    assert Positions(w.batch) == {};
    assert Step(cfg, w, FLUSH_NOW) == Flush(cfg, v, Succeeds(1, {}));
  }

  lemma {:induction false} PullEachState(cfg: Config, rows: seq<Row>, size: nat, n: nat)
    requires cfg.kind != AckOnCommit && cfg.bad == {} && n <= |cfg.log|
    ensures PulledEach(cfg, RunAll(cfg, Initial(rows, size), PullEach(n)), n)
  {
    var w0 := Initial(rows, size);
    if n == 0 {
      PulledNone(cfg, w0);
    } else {
      PullEachState(cfg, rows, size, n - 1);
      RunSnoc(cfg, w0, PullEach(n - 1), FLUSH_NOW);
      PullOne(cfg, RunAll(cfg, w0, PullEach(n - 1)), n - 1);
    }
  }

  lemma PulledNone(cfg: Config, w: World)
    requires w.stored == None && w.ledger == Ledger({}, map[]) && !w.running && cfg.kind != AckOnCommit
    ensures PulledEach(cfg, RunAll(cfg, w, [Start]), 0)
  {
    assert Front([Start]) == [];
  }

  lemma BrokenContractLoses(cfg: Config, rows: seq<Row>, size: nat) returns (acts: seq<Action>)
    requires cfg.kind != AckOnCommit && cfg.bad == {} && !ResumeContract(cfg.log, cfg.kind)
    ensures !NothingLost(cfg, RunAll(cfg, Initial(rows, size), acts))
  {
    ResumeContractIsExact(cfg.log, cfg.kind);
    var i :| 0 <= i < |cfg.log| && cfg.log[i].offset.Some? && ResumeAt(cfg.log, cfg.kind, cfg.log[i].offset) > i + 1;
    acts := PullEach(i + 1);
    PullEachState(cfg, rows, size, i + 1);
    NextIsLost(cfg, RunAll(cfg, Initial(rows, size), acts), i);
  }

  lemma NextIsLost(cfg: Config, w: World, i: nat)
    requires i < |cfg.log| && cfg.log[i].offset.Some? && ResumeAt(cfg.log, cfg.kind, cfg.log[i].offset) > i + 1
    requires PulledEach(cfg, w, i + 1)
    ensures !NothingLost(cfg, w)
  {
    assert !Covered(w.ledger, i + 1);
  }

  /** A source loses nothing over any run exactly when its offsets meet the resume contract. */
  lemma NoCommittedLossIffContract(cfg: Config, rows: seq<Row>, size: nat)
    requires cfg.kind != AckOnCommit && cfg.bad == {}
    ensures ResumeContract(cfg.log, cfg.kind)
            <==> forall acts :: NothingLost(cfg, RunAll(cfg, Initial(rows, size), acts))
  {
    if ResumeContract(cfg.log, cfg.kind) {
      forall acts { NoCommittedLoss(cfg, rows, size, acts); }
    } else {
      var acts := BrokenContractLoses(cfg, rows, size);
    }
  }

  // ---- Accounting within one run ---------------------------------------------------------------------

  /** The events pulled in a run are its settled batches followed by the current batch. */
  predicate Accounted(w: World) {
    && Flat(w.run.done) + w.batch == w.run.pulled
    && (forall b :: b in w.run.done ==> Settled(w.ledger, b))
    && QueueHolds(w.queue, w.ledger.parked)
  }

  lemma FlushAccounted(cfg: Config, w: World, fate: Fate)
    requires Accounted(w)
    ensures Accounted(Flush(cfg, w, fate))
  {
    if w.batch != [] {
      FlushLedger(cfg, w, fate);
      GrowthKeeps(w.ledger, LedgerAfter(cfg, w, fate));
      assert Front(w.run.done + [w.batch]) == w.run.done;
    }
  }

  lemma TakeAccounted(cfg: Config, w: World)
    requires Accounted(w) && w.pos < |cfg.log|
    ensures Accounted(Take(cfg, w))
  {
    var item := Item(w.pos, cfg.log[w.pos]);
    assert Flat(w.run.done) + (w.batch + [item]) == (Flat(w.run.done) + w.batch) + [item];
  }

  lemma NextAccounted(cfg: Config, w: World, timedOut: bool, fate: Fate)
    requires Accounted(w)
    ensures Accounted(Step(cfg, w, Next(timedOut, fate)))
  {
    if w.running && w.pos < |cfg.log| && w.pos !in cfg.bad {
      TakeAccounted(cfg, w);
      FlushAccounted(cfg, Take(cfg, w), fate);
    }
  }

  lemma StepAccounted(cfg: Config, w: World, a: Action)
    requires Accounted(w)
    ensures Accounted(Step(cfg, w, a))
  {
    match a
    case Next(timedOut, fate) => NextAccounted(cfg, w, timedOut, fate);
    case Heartbeat(_, fate) => FlushAccounted(cfg, w, fate);
    case StopSeen(onEvent, fate) => FlushAccounted(cfg, StopWith(cfg, w, onEvent), fate);
    case SourceEnds(fate) => FlushAccounted(cfg, w, fate);
    case RetryRound(ok, others, _) => RoundHolds(w.queue, ok, others, cfg.maxRetries, w.ledger.parked);
    case QueueAction(act) => QueueStepHolds(w.queue, act, cfg.maxRetries, w.ledger.parked);
    case _ =>
  }

  /** Within a run, written plus parked plus current batch is exactly what was pulled, in order. */
  lemma {:induction false} EveryPullIsAccountedFor(cfg: Config, rows: seq<Row>, size: nat, acts: seq<Action>)
    ensures Accounted(RunAll(cfg, Initial(rows, size), acts))
  {
    if acts != [] {
      EveryPullIsAccountedFor(cfg, rows, size, Front(acts));
      StepAccounted(cfg, RunAll(cfg, Initial(rows, size), Front(acts)), Last(acts));
    }
  }

  // ---- Acknowledgements ----------------------------------------------------------------------------------

  /** An acknowledged delivery is safe, undecodable, or was in hand when a stop was seen; one pending
      is safe, in hand, or in the batch. At most one per stop is in hand. */
  predicate AckSafe(cfg: Config, w: World) {
    && (forall p :: p in w.acked ==> Covered(w.ledger, p) || p in cfg.bad || p in w.dropped)
    && (forall p :: p in w.pending ==> Covered(w.ledger, p) || p in Positions(w.batch) || p in w.dropped)
    && |w.dropped| <= w.stops
    && QueueHolds(w.queue, w.ledger.parked)
  }

  lemma FlushAckSafe(cfg: Config, w: World, fate: Fate)
    requires AckSafe(cfg, w)
    ensures AckSafe(cfg, Flush(cfg, w, fate))
  {
    if w.batch != [] {
      FlushLedger(cfg, w, fate);
      GrowthKeeps(w.ledger, LedgerAfter(cfg, w, fate));
      CommitsOnlyAfterWriting(cfg, w, fate);
      PubSub.AckedOfPending(w.pending, LostAcks(fate));
    }
  }

  lemma TakeAckSafe(cfg: Config, w: World)
    requires AckSafe(cfg, w) && w.pos < |cfg.log|
    ensures AckSafe(cfg, Take(cfg, w))
  {
    TakePositions(cfg, w);
  }

  lemma StopAckSafe(cfg: Config, w: World, onEvent: bool)
    requires AckSafe(cfg, w)
    ensures AckSafe(cfg, StopWith(cfg, w, onEvent))
  {
    assert |w.dropped + {w.pos}| <= |w.dropped| + 1;
  }

  lemma NextAckSafe(cfg: Config, w: World, timedOut: bool, fate: Fate)
    requires AckSafe(cfg, w)
    ensures AckSafe(cfg, Step(cfg, w, Next(timedOut, fate)))
  {
    if w.running && w.pos < |cfg.log| && w.pos !in cfg.bad {
      TakeAckSafe(cfg, w);
      FlushAckSafe(cfg, Take(cfg, w), fate);
    }
  }

  lemma StepAckSafe(cfg: Config, w: World, a: Action)
    requires AckSafe(cfg, w)
    ensures AckSafe(cfg, Step(cfg, w, a))
  {
    match a
    case Next(timedOut, fate) => NextAckSafe(cfg, w, timedOut, fate);
    case Heartbeat(_, fate) => FlushAckSafe(cfg, w, fate);
    case StopSeen(onEvent, fate) =>
      StopAckSafe(cfg, w, onEvent);
      FlushAckSafe(cfg, StopWith(cfg, w, onEvent), fate);
    case SourceEnds(fate) => FlushAckSafe(cfg, w, fate);
    case RetryRound(ok, others, _) => RoundHolds(w.queue, ok, others, cfg.maxRetries, w.ledger.parked);
    case QueueAction(act) => QueueStepHolds(w.queue, act, cfg.maxRetries, w.ledger.parked);
    case _ =>
  }

  /** Over every run each acknowledged delivery is in the target, in the dead letter queue, or
      undecodable, except at most one per observed stop. */
  lemma {:induction false} AcksOnlyAfterCommit(cfg: Config, rows: seq<Row>, size: nat, acts: seq<Action>)
    ensures AckSafe(cfg, RunAll(cfg, Initial(rows, size), acts))
  {
    if acts != [] {
      AcksOnlyAfterCommit(cfg, rows, size, Front(acts));
      StepAckSafe(cfg, RunAll(cfg, Initial(rows, size), Front(acts)), Last(acts));
    }
  }
}
