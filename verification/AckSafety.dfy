// Exactly which deliveries are acknowledged without being safe: those in hand when the stop flag is seen
// and the last flush commits. A position of the log is one delivery, with an acknowledgement id of its own;
// a message delivered again is a new position. What that means for messages follows at the end.
module AckSafety {
  import opened Prelude
  import opened Events
  import opened Worker
  import opened WorkerSafety
  import PubSub

  // ---- The step that loses a delivery -------------------------------------------------------------------

  /** The action acknowledges the delivery in hand and nothing else is done with it: a stop is seen on an
      event while the batch is not empty, the last flush commits, and the request that carries the event's
      id, the last one, does not fail. */
  predicate Loses(cfg: Config, w: World, a: Action) {
    && a.StopSeen? && a.onEvent && w.running && w.batch != [] && w.pos < |cfg.log| && w.pos !in cfg.bad
    && Commits(cfg, w, a.fate) && |w.pending| / PubSub.CHUNK !in LostAcks(a.fate)
  }

  /** The deliveries lost over a run. */
  function Losses(cfg: Config, w0: World, acts: seq<Action>): set<nat> {
    if acts == [] then {}
    else
      var w := RunAll(cfg, w0, Front(acts));
      Losses(cfg, w0, Front(acts)) + if Loses(cfg, w, Last(acts)) then {w.pos} else {}
  }

  // ---- What every acknowledging run keeps --------------------------------------------------------------

  /** Everything known lies below the next delivery, and a dropped delivery is in no other place. */
  ghost predicate Apart(cfg: Config, w: World) {
    && (w.running ==> w.pos == w.delivered)
    && LedgerApart(w.ledger, w.delivered, w.dropped)
    && PlacesApart(Positions(w.batch), w.delivered, w.dropped)
    && (forall p :: p in w.pending ==> p < w.delivered && p !in w.dropped)
    && (forall p :: p in w.acked ==> p < w.delivered)
    && (forall p :: p in w.dropped ==> p < w.delivered && p !in cfg.bad)
  }

  ghost predicate LedgerApart(l: Ledger, n: nat, dropped: set<nat>) {
    forall p: nat :: Covered(l, p) ==> p < n && p !in dropped
  }

  ghost predicate PlacesApart(places: set<nat>, n: nat, dropped: set<nat>) {
    forall p :: p in places ==> p < n && p !in dropped
  }

  /** The dropped deliveries that are acknowledged are the lost ones. */
  ghost predicate LostAre(w: World, lost: set<nat>) {
    forall p :: p in lost <==> p in w.acked && p in w.dropped
  }

  lemma FlushedLedger(cfg: Config, w: World, fate: Fate, p: nat)
    requires Covered(LedgerAfter(cfg, w, fate), p)
    ensures Covered(w.ledger, p) || p in Positions(w.batch)
  {
    var l := LedgerAfter(cfg, w, fate);
    if p !in l.written {
      var id :| id in l.parked && p in Positions(l.parked[id]);
      if l.parked[id] != w.batch { assert id in w.ledger.parked && w.ledger.parked[id] == l.parked[id]; }
    }
  }

  lemma FlushApart(cfg: Config, w: World, fate: Fate)
    requires cfg.kind == AckOnCommit && Apart(cfg, w)
    ensures Apart(cfg, Flush(cfg, w, fate))
    ensures forall p :: p in w.dropped ==> (p in Flush(cfg, w, fate).acked <==> p in w.acked)
  {
    if w.batch != [] {
      PubSub.AckedOfPending(w.pending, LostAcks(fate));
      FlushedLedgerApart(cfg, w, fate, w.delivered, w.dropped);
    }
  }

  lemma FlushedLedgerApart(cfg: Config, w: World, fate: Fate, n: nat, dropped: set<nat>)
    requires LedgerApart(w.ledger, n, dropped) && PlacesApart(Positions(w.batch), n, dropped)
    ensures LedgerApart(LedgerAfter(cfg, w, fate), n, dropped)
  {
    forall p: nat | Covered(LedgerAfter(cfg, w, fate), p) ensures p < n && p !in dropped {
      FlushedLedger(cfg, w, fate, p);
    }
  }

  lemma TakeApart(cfg: Config, w: World)
    requires cfg.kind == AckOnCommit && Apart(cfg, w) && w.running && w.pos < |cfg.log|
    ensures Apart(cfg, Take(cfg, w))
  {
    TakePositions(cfg, w);
  }

  lemma NextApart(cfg: Config, w: World, timedOut: bool, fate: Fate, lost: set<nat>)
    requires cfg.kind == AckOnCommit && Apart(cfg, w) && LostAre(w, lost)
    ensures var v := Step(cfg, w, Next(timedOut, fate)); Apart(cfg, v) && LostAre(v, lost)
  {
    if w.running && w.pos < |cfg.log| && w.pos !in cfg.bad {
      TakeApart(cfg, w);
      FlushApart(cfg, Take(cfg, w), fate);
    }
  }

  lemma EndApart(cfg: Config, w: World, fate: Fate, lost: set<nat>)
    requires cfg.kind == AckOnCommit && Apart(cfg, w) && LostAre(w, lost)
    ensures Apart(cfg, Finish(cfg, w, fate)) && LostAre(Finish(cfg, w, fate), lost)
  {
    FlushApart(cfg, w, fate);
  }

  /** What a stop does to the ledger and the dropped deliveries, `w` being the state before it. */
  lemma StopLedger(cfg: Config, w: World, fate: Fate)
    requires cfg.kind == AckOnCommit && Apart(cfg, w)
    requires w.running && w.pos < |cfg.log| && w.pos !in cfg.bad
    ensures var v := Step(cfg, w, StopSeen(true, fate));
            v.dropped == w.dropped + {w.pos} && LedgerApart(v.ledger, w.delivered, w.dropped)
  {
    FlushedLedgerApart(cfg, StopWith(cfg, w, true), fate, w.delivered, w.dropped);
  }

  /** The delivery in hand is the newest, so the last ack request carries it. */
  lemma StopNewest(cfg: Config, w: World, fate: Fate)
    requires cfg.kind == AckOnCommit && Apart(cfg, w)
    requires w.running && w.pos < |cfg.log| && w.pos !in cfg.bad
    ensures var a := StopSeen(true, fate); w.pos in Step(cfg, w, a).acked <==> Loses(cfg, w, a)
  {
    PubSub.NewestIsAcked(w.pending, w.pos, LostAcks(fate), 0);
    assert w.pos !in w.acked;
    assert Commits(cfg, StopWith(cfg, w, true), fate) == Commits(cfg, w, fate);
  }

  lemma StopAcked(cfg: Config, w: World, fate: Fate)
    requires cfg.kind == AckOnCommit && Apart(cfg, w)
    requires w.running && w.pos < |cfg.log| && w.pos !in cfg.bad
    ensures var v := Step(cfg, w, StopSeen(true, fate));
            && w.acked <= v.acked && (forall p :: p in v.acked ==> p in w.acked || p in w.pending || p == w.pos)
  {
    PubSub.AckedOfPending(w.pending + [w.pos], LostAcks(fate));
  }

  /** A stop on an event: the delivery in hand is new, so it is lost if and only if its request goes out. */
  lemma StopApart(cfg: Config, w: World, fate: Fate, lost: set<nat>)
    requires cfg.kind == AckOnCommit && Apart(cfg, w) && LostAre(w, lost)
    requires w.running && w.pos < |cfg.log| && w.pos !in cfg.bad
    ensures var a := StopSeen(true, fate);
            var v := Step(cfg, w, a);
            && Apart(cfg, v) && LostAre(v, lost + if Loses(cfg, w, a) then {w.pos} else {})
            && !Covered(v.ledger, w.pos) && (w.pos in v.acked <==> Loses(cfg, w, a))
  {
    StopLedger(cfg, w, fate);
    StopNewest(cfg, w, fate);
    StopAcked(cfg, w, fate);
    var v := Step(cfg, w, StopSeen(true, fate));
    assert !v.running && v.pending == [] && v.delivered == w.delivered + 1;
    assert Positions(v.batch) <= Positions(w.batch);
  }

  lemma AnyStopApart(cfg: Config, w: World, onEvent: bool, fate: Fate, lost: set<nat>)
    requires cfg.kind == AckOnCommit && Apart(cfg, w) && LostAre(w, lost)
    ensures var a := StopSeen(onEvent, fate);
            var v := Step(cfg, w, a);
            Apart(cfg, v) && LostAre(v, lost + if Loses(cfg, w, a) then {w.pos} else {})
  {
    if w.running && onEvent && w.pos < |cfg.log| && w.pos !in cfg.bad {
      StopApart(cfg, w, fate, lost);
    } else if w.running {
      EndApart(cfg, StopWith(cfg, w, onEvent), fate, lost);
    }
  }

  lemma StepApart(cfg: Config, w: World, a: Action, lost: set<nat>)
    requires cfg.kind == AckOnCommit && Apart(cfg, w) && LostAre(w, lost)
    ensures var v := Step(cfg, w, a);
            Apart(cfg, v) && LostAre(v, lost + if Loses(cfg, w, a) then {w.pos} else {})
  {
    match a
    case Next(timedOut, fate) => NextApart(cfg, w, timedOut, fate, lost);
    case Heartbeat(_, fate) => FlushApart(cfg, w, fate);
    case StopSeen(onEvent, fate) => AnyStopApart(cfg, w, onEvent, fate, lost);
    case SourceEnds(fate) => if w.running { EndApart(cfg, w, fate, lost); }
    case _ =>
  }

  lemma {:induction false} RunApart(cfg: Config, rows: seq<Row>, size: nat, acts: seq<Action>)
    requires cfg.kind == AckOnCommit
    ensures var w0 := Initial(rows, size);
            Apart(cfg, RunAll(cfg, w0, acts)) && LostAre(RunAll(cfg, w0, acts), Losses(cfg, w0, acts))
  {
    if acts == [] {
      assert Positions([]) == {};
    } else {
      var w0 := Initial(rows, size);
      RunApart(cfg, rows, size, Front(acts));
      StepApart(cfg, RunAll(cfg, w0, Front(acts)), Last(acts), Losses(cfg, w0, Front(acts)));
    }
  }

  // ---- Main results ------------------------------------------------------------------------------------

  /** A delivery that was in hand at a stop is never written nor parked. */
  lemma DroppedIsNeverSafe(cfg: Config, rows: seq<Row>, size: nat, acts: seq<Action>)
    requires cfg.kind == AckOnCommit
    ensures var w := RunAll(cfg, Initial(rows, size), acts);
            forall p :: p in w.dropped ==> !Covered(w.ledger, p) && p !in cfg.bad
  {
    RunApart(cfg, rows, size, acts);
  }

  /** Over every run the deliveries acknowledged though neither written, parked nor undecodable are exactly
      those lost at a stop. */
  lemma AckedUnsafeAreLosses(cfg: Config, rows: seq<Row>, size: nat, acts: seq<Action>)
    requires cfg.kind == AckOnCommit
    ensures var w0 := Initial(rows, size);
            var w := RunAll(cfg, w0, acts);
            forall p :: p in w.acked && !Covered(w.ledger, p) && p !in cfg.bad <==> p in Losses(cfg, w0, acts)
  {
    RunApart(cfg, rows, size, acts);
    AcksOnlyAfterCommit(cfg, rows, size, acts);
  }

  /** Action `i` of the run is a losing stop. */
  predicate LosesAt(cfg: Config, w0: World, acts: seq<Action>, i: nat)
    requires i < |acts|
  {
    Loses(cfg, RunAll(cfg, w0, acts[..i]), acts[i])
  }

  lemma LosesInFront(cfg: Config, w0: World, acts: seq<Action>, i: nat)
    requires i < |acts| - 1
    ensures LosesAt(cfg, w0, Front(acts), i) == LosesAt(cfg, w0, acts, i)
  {
    assert Front(acts)[..i] == acts[..i];
  }

  lemma LossesStep(cfg: Config, w0: World, acts: seq<Action>)
    requires acts != []
    ensures Losses(cfg, w0, acts) == {} <==> Losses(cfg, w0, Front(acts)) == {} && !LosesAt(cfg, w0, acts, |acts| - 1)
  {
  }

  lemma {:induction false} LossesAt(cfg: Config, w0: World, acts: seq<Action>)
    ensures Losses(cfg, w0, acts) == {} <==> forall i :: 0 <= i < |acts| ==> !LosesAt(cfg, w0, acts, i)
  {
    if acts != [] {
      LossesAt(cfg, w0, Front(acts));
      LossesStep(cfg, w0, acts);
      forall i | 0 <= i < |acts| - 1 ensures LosesAt(cfg, w0, Front(acts), i) == LosesAt(cfg, w0, acts, i) {
        LosesInFront(cfg, w0, acts, i);
      }
    }
  }

  /** Ack-on-commit holds delivery by delivery, that is every acknowledged one is written, parked or
      undecodable, if and only if no action of the run is a losing stop. */
  lemma AckOnCommitIff(cfg: Config, rows: seq<Row>, size: nat, acts: seq<Action>)
    requires cfg.kind == AckOnCommit
    ensures var w0 := Initial(rows, size);
            var w := RunAll(cfg, w0, acts);
            (forall p :: p in w.acked ==> Covered(w.ledger, p) || p in cfg.bad)
            <==> forall i :: 0 <= i < |acts| ==> !LosesAt(cfg, w0, acts, i)
  {
    AckedUnsafeAreLosses(cfg, rows, size, acts);
    LossesAt(cfg, Initial(rows, size), acts);
  }

  /** At any stop a run can reach, the delivery in hand is neither written nor parked, and it is
      acknowledged if and only if the batch was not empty, the flush committed and its request went out. */
  lemma StopAcksTheDeliveryInHand(cfg: Config, rows: seq<Row>, size: nat, acts: seq<Action>, fate: Fate)
    requires cfg.kind == AckOnCommit
    requires var w := RunAll(cfg, Initial(rows, size), acts); w.running && w.pos < |cfg.log| && w.pos !in cfg.bad
    ensures var w := RunAll(cfg, Initial(rows, size), acts);
            var v := Step(cfg, w, StopSeen(true, fate));
            && !Covered(v.ledger, w.pos)
            && (w.pos in v.acked <==>
                 w.batch != [] && Commits(cfg, w, fate) && |w.pending| / PubSub.CHUNK !in LostAcks(fate))
  {
    var w0 := Initial(rows, size);
    RunApart(cfg, rows, size, acts);
    StopApart(cfg, RunAll(cfg, w0, acts), fate, Losses(cfg, w0, acts));
  }

  // ---- Messages ------------------------------------------------------------------------------------------

  /** Some delivery of the message delivered at `p` is written, parked or undecodable; `msg` says which
      message each position delivers. */
  ghost predicate MessageSafe(l: Ledger, bad: set<nat>, msg: nat -> nat, p: nat) {
    exists q: nat :: msg(q) == msg(p) && (Covered(l, q) || q in bad)
  }

  /** However messages are delivered again, every acknowledged message is safe if and only if every message
      that a losing stop acknowledges is, by another of its deliveries. */
  lemma MessagesSafeIff(cfg: Config, rows: seq<Row>, size: nat, acts: seq<Action>, msg: nat -> nat)
    requires cfg.kind == AckOnCommit
    ensures var w0 := Initial(rows, size);
            var w := RunAll(cfg, w0, acts);
            (forall p :: p in w.acked ==> MessageSafe(w.ledger, cfg.bad, msg, p))
            <==> forall p :: p in Losses(cfg, w0, acts) ==> MessageSafe(w.ledger, cfg.bad, msg, p)
  {
    var w0 := Initial(rows, size);
    var w := RunAll(cfg, w0, acts);
    AckedUnsafeAreLosses(cfg, rows, size, acts);
    forall p | p in w.acked && p !in Losses(cfg, w0, acts) ensures MessageSafe(w.ledger, cfg.bad, msg, p) {
      assert msg(p) == msg(p) && (Covered(w.ledger, p) || p in cfg.bad);
    }
  }

  /** When no message is delivered twice, deliveries and messages are the same. */
  lemma DeliveredOnceIff(cfg: Config, rows: seq<Row>, size: nat, acts: seq<Action>, msg: nat -> nat)
    requires cfg.kind == AckOnCommit && forall p, q :: msg(p) == msg(q) ==> p == q
    ensures var w0 := Initial(rows, size);
            var w := RunAll(cfg, w0, acts);
            (forall p :: p in w.acked ==> MessageSafe(w.ledger, cfg.bad, msg, p))
            <==> forall i :: 0 <= i < |acts| ==> !LosesAt(cfg, w0, acts, i)
  {
    var w0 := Initial(rows, size);
    var w := RunAll(cfg, w0, acts);
    AckOnCommitIff(cfg, rows, size, acts);
    forall p: nat ensures MessageSafe(w.ledger, cfg.bad, msg, p) <==> Covered(w.ledger, p) || p in cfg.bad {
      if Covered(w.ledger, p) || p in cfg.bad { assert msg(p) == msg(p); }
    }
  }

  // ---- A concrete loss ---------------------------------------------------------------------------------

  const MESSAGE := Event(Insert, "src", "t", None, Some(map[]), [], "", None)
  const TWO_MESSAGES := Config(Merging, AckOnCommit, [], [MESSAGE, MESSAGE], {}, "src", "t", 3)
  const PULL_THEN_STOP := [Start, Next(false, Succeeds(2, {})), StopSeen(true, Succeeds(2, {}))]

  /** Pull one message into a batch of two, then stop on the second: both are acknowledged, and the
      second is neither written, parked nor undecodable. */
  lemma SecondMessageIsLost()
    ensures var w := RunAll(TWO_MESSAGES, Initial([], 2), PULL_THEN_STOP);
            1 in w.acked && !Covered(w.ledger, 1) && 1 !in TWO_MESSAGES.bad
  {
    var cfg, w0 := TWO_MESSAGES, Initial([], 2);
    assert Front(PULL_THEN_STOP) == PULL_THEN_STOP[..2] && Front(PULL_THEN_STOP[..2]) == [Start]
           && Front([Start]) == [];
    assert RunAll(cfg, w0, [Start]) == Begin(cfg, w0);
    assert RunAll(cfg, w0, PULL_THEN_STOP[..2]) == Take(cfg, Begin(cfg, w0));
    StopAcksTheDeliveryInHand(cfg, [], 2, PULL_THEN_STOP[..2], Succeeds(2, {}));
  }
  const THREE_DELIVERIES := Config(Merging, AckOnCommit, [], [MESSAGE, MESSAGE, MESSAGE], {}, "src", "t", 3)
  const FIRST_AGAIN: nat -> nat := p => if p == 2 then 0 else p
  const PULL_TWO := [Start, Next(true, Succeeds(2, {0})), Next(false, Succeeds(2, {}))]

  /** The first message is written but its acknowledgement fails; its second delivery, position 2, is in
      hand at a losing stop. That delivery is lost, yet every acknowledged message is safe. */
  lemma RedeliveredMessageIsSafe()
    ensures var cfg, w0, acts := THREE_DELIVERIES, Initial([], 2), PULL_TWO + [StopSeen(true, Succeeds(2, {}))];
            var w := RunAll(cfg, w0, acts);
            && LosesAt(cfg, w0, acts, 3) && 2 in w.acked && !Covered(w.ledger, 2)
            && forall p :: p in w.acked ==> MessageSafe(w.ledger, cfg.bad, FIRST_AGAIN, p)
  {
    var cfg, w0, stop := THREE_DELIVERIES, Initial([], 2), StopSeen(true, Succeeds(2, {}));
    var acts := PULL_TWO + [stop];
    var w := RunAll(cfg, w0, PULL_TWO);
    PulledTwo();
    RunSnoc(cfg, w0, PULL_TWO, stop);
    assert acts[..3] == PULL_TWO;
    StopAcksTheDeliveryInHand(cfg, [], 2, PULL_TWO, Succeeds(2, {}));
    RunApart(cfg, [], 2, PULL_TWO);
    SafeAfterStop(w);
  }

  /** The worker holds the second delivery, the first being written and not acknowledged. */
  predicate HoldsSecond(w: World) {
    && w.running && w.pos == 2 && w.batch == [Item(1, MESSAGE)] && w.pending == [1]
    && w.ledger == Ledger({0}, map[]) && w.acked == {}
  }

  lemma SafeAfterStop(w: World)
    requires HoldsSecond(w) && Apart(THREE_DELIVERIES, w)
    ensures var v := Step(THREE_DELIVERIES, w, StopSeen(true, Succeeds(2, {})));
            forall p :: p in v.acked ==> MessageSafe(v.ledger, THREE_DELIVERIES.bad, FIRST_AGAIN, p)
  {
    var v := Step(THREE_DELIVERIES, w, StopSeen(true, Succeeds(2, {})));
    StopAcked(THREE_DELIVERIES, w, Succeeds(2, {}));
    LastStopWrites(w);
    forall p | p in v.acked ensures MessageSafe(v.ledger, THREE_DELIVERIES.bad, FIRST_AGAIN, p) {
      var q: nat := if p == 2 then 0 else 1;
      assert Covered(v.ledger, q) && FIRST_AGAIN(q) == FIRST_AGAIN(p);
    }
  }

  lemma LastStopWrites(w: World)
    requires HoldsSecond(w)
    ensures Step(THREE_DELIVERIES, w, StopSeen(true, Succeeds(2, {}))).ledger.written == {0, 1}
  {
    assert w.batch[0].at == 1;
    assert Positions(w.batch) == {1};
  }

  lemma PulledTwo()
    ensures HoldsSecond(RunAll(THREE_DELIVERIES, Initial([], 2), PULL_TWO))
  {
    var cfg, w0 := THREE_DELIVERIES, Initial([], 2);
    assert PULL_TWO == [] + [Start] + [PULL_TWO[1]] + [PULL_TWO[2]];
    RunSnoc(cfg, w0, [], Start);
    RunSnoc(cfg, w0, [] + [Start], PULL_TWO[1]);
    RunSnoc(cfg, w0, [] + [Start] + [PULL_TWO[1]], PULL_TWO[2]);
    FirstIsWritten(Begin(cfg, w0));
    SecondIsTaken(Step(cfg, Begin(cfg, w0), PULL_TWO[1]));
  }

  lemma FirstIsWritten(w: World)
    requires w == Begin(THREE_DELIVERIES, Initial([], 2))
    ensures var v := Step(THREE_DELIVERIES, w, Next(true, Succeeds(2, {0})));
            && v.running && v.pos == 1 && v.batch == [] && v.pending == [] && v.size == 2
            && v.ledger == Ledger({0}, map[]) && v.acked == {}
  {
    var u := Take(THREE_DELIVERIES, w);
    assert u.batch == [Item(0, MESSAGE)] && u.pending == [0];
    assert u.batch[0].at == 0;
    assert Positions(u.batch) == {0};
    assert PubSub.AckedOf([0], {0}) == {};
    assert Step(THREE_DELIVERIES, w, Next(true, Succeeds(2, {0}))) == Flush(THREE_DELIVERIES, u, Succeeds(2, {0}));
  }

  lemma SecondIsTaken(w: World)
    requires w.running && w.pos == 1 && w.batch == [] && w.pending == [] && w.size == 2
    requires w.ledger == Ledger({0}, map[]) && w.acked == {}
    ensures HoldsSecond(Step(THREE_DELIVERIES, w, Next(false, Succeeds(2, {}))))
  {
  }
}
