// The table worker as a state machine: pull, batch, flush, commit the offset, park what failed.
// Durable state survives a crash; the batch, the last offset and the pending acks do not.
module Worker {
  import opened Prelude
  import opened Events
  import opened TargetTable
  import DL = DeadLetters
  import PubSub
  import A = DremioSink
  import B = IcebergSink

  /** How a source resumes: strictly after the saved offset, from the saved offset on, or by
      delivering again whatever was not acknowledged, under new positions. */
  datatype SourceKind = ResumeAfter | ResumeFrom | AckOnCommit

  datatype Mode = Merging | DeleteAndAppend

  /** The fixed surroundings of one worker. `log` is everything its source delivers, in order, a message
      once for every delivery; `bad` are the positions whose delivery cannot be decoded. */
  datatype Config = Config(
    mode: Mode, kind: SourceKind, schema: seq<Column>, log: seq<Event>, bad: set<nat>,
    source: string, table: string, maxRetries: nat)

  /** An event in the worker's hands, tagged with its position in the source's log. */
  datatype Item = Item(at: nat, event: Event)

  datatype World = World(
    // durable
    stored: Option<nat>,
    rows: seq<Row>,
    queue: DL.Queue,
    acked: set<nat>,
    // volatile
    running: bool,
    pos: nat,
    batch: seq<Item>,
    last: Option<nat>,
    size: nat,
    pending: seq<nat>,
    // history, for stating properties only
    ledger: Ledger,
    run: RunLog,
    delivered: nat,
    dropped: set<nat>,
    stops: nat,
    base: nat,
    high: nat)

  /** Positions whose batch the sink completed, and the items behind each entry pushed to the queue. */
  datatype Ledger = Ledger(written: set<nat>, parked: map<nat, seq<Item>>)

  /** One run: one past the furthest position reached, the events pulled and the batches flushed. */
  datatype RunLog = RunLog(top: nat, pulled: seq<Item>, done: seq<seq<Item>>)

  // `delivered` counts deliveries over all runs; `dropped` are those in hand when one of the
  // `stops` was seen; `base` is the prefix of the log the table stands for and `high` the furthest
  // position any flush has touched.

  /** How a flush ends. `Dies`: the process stops after `ops` sink operations and, if those were all,
      after `stage` further steps (1: offset stored, 2: acks sent). A failing push to the queue kills
      the worker too, so it is a `Dies`. `lost` are the ack requests that fail. */
  datatype Fate =
    | Succeeds(newSize: nat, lost: set<nat>)
    | SinkFails(ops: nat)
    | OffsetFails(tookEffect: bool)
    | FailsLate(newSize: nat, lost: set<nat>)
    | Dies(ops: nat, stage: nat, lost: set<nat>)

  datatype Action =
    | Start
    | Next(timedOut: bool, fate: Fate)
    | Heartbeat(timedOut: bool, fate: Fate)
    | Rewind(to: nat)
    | StopSeen(onEvent: bool, fate: Fate)
    | SourceEnds(fate: Fate)
    | Crash
    | RetryRound(ok: set<nat>, others: seq<seq<DL.Action>>, rowsAfter: seq<Row>)
    | QueueAction(act: DL.Action)

  function EventsOf(items: seq<Item>): seq<Event> {
    seq(|items|, i requires 0 <= i < |items| => items[i].event)
  }

  function Positions(items: seq<Item>): set<nat> {
    set i | i in items :: i.at
  }

  function PlanOf(mode: Mode, es: seq<Event>, schema: seq<Column>): seq<TableOp> {
    match mode
    case Merging => A.Plan(es, schema)
    case DeleteAndAppend => B.Plan(es, schema)
  }

  // ---- The source's resume rule ------------------------------------------------------------

  predicate IsBefore(x: nat, saved: nat, kind: SourceKind) {
    if kind == ResumeAfter then x <= saved else x < saved
  }

  /** First position read again after a restart: just past the last event the rule calls old. */
  function ResumeAt(log: seq<Event>, kind: SourceKind, saved: Option<nat>): nat {
    if saved.None? || log == [] then 0
    else if Last(log).offset.Some? && IsBefore(Last(log).offset.value, saved.value, kind) then |log|
    else ResumeAt(Front(log), kind, saved)
  }

  function ResumePos(cfg: Config, saved: Option<nat>): nat {
    ResumeAt(cfg.log, cfg.kind, saved)
  }

  // ---- One flush ----------------------------------------------------------------------------

  function BatchPlan(cfg: Config, w: World): seq<TableOp> {
    PlanOf(cfg.mode, EventsOf(w.batch), cfg.schema)
  }

  /** Sink operations that take effect before the flush ends. */
  function OpsDone(cfg: Config, w: World, fate: Fate): nat {
    var n := |BatchPlan(cfg, w)|;
    match fate
    case SinkFails(ops) => Min(ops, n)
    case Dies(ops, _, _) => Min(ops, n)
    case _ => n
  }

  /** The sink completes the batch. */
  predicate Writes(cfg: Config, w: World, fate: Fate) {
    match fate
    case SinkFails(_) => false
    case Dies(ops, _, _) => ops >= |BatchPlan(cfg, w)|
    case _ => true
  }

  predicate StoresOffset(cfg: Config, w: World, fate: Fate) {
    match fate
    case Succeeds(_, _) => true
    case SinkFails(_) => false
    case OffsetFails(took) => took
    case FailsLate(_, _) => true
    case Dies(_, stage, _) => Writes(cfg, w, fate) && stage >= 1
  }

  /** `on_batch_committed` runs. */
  predicate Commits(cfg: Config, w: World, fate: Fate) {
    fate.Succeeds? || fate.FailsLate? || (fate.Dies? && Writes(cfg, w, fate) && fate.stage >= 2)
  }

  function LostAcks(fate: Fate): set<nat> {
    if fate.SinkFails? || fate.OffsetFails? then {} else fate.lost
  }

  /** The failed batch is pushed to the dead letter queue. */
  predicate Parks(fate: Fate) {
    fate.SinkFails? || fate.OffsetFails? || fate.FailsLate?
  }

  function RowsAfter(cfg: Config, w: World, fate: Fate): seq<Row> {
    ExecAll(w.rows, BatchPlan(cfg, w)[..OpsDone(cfg, w, fate)], PrimaryKeys(cfg.schema))
  }

  function StoredAfter(cfg: Config, w: World, fate: Fate): Option<nat> {
    if StoresOffset(cfg, w, fate) && w.last.Some? then w.last else w.stored
  }

  function LedgerAfter(cfg: Config, w: World, fate: Fate): Ledger {
    Ledger(if Writes(cfg, w, fate) then w.ledger.written + Positions(w.batch) else w.ledger.written,
           if Parks(fate) then w.ledger.parked[|w.queue| := w.batch] else w.ledger.parked)
  }

  function QueueAfter(cfg: Config, w: World, fate: Fate): DL.Queue {
    if Parks(fate) then DL.Step(w.queue, DL.Push(cfg.source, cfg.table, EventsOf(w.batch)), cfg.maxRetries) else w.queue
  }

  function AckedAfter(cfg: Config, w: World, fate: Fate): set<nat> {
    if cfg.kind == AckOnCommit && Commits(cfg, w, fate) then w.acked + PubSub.AckedOf(w.pending, LostAcks(fate))
    else w.acked
  }

  function PendingAfter(cfg: Config, w: World, fate: Fate): seq<nat> {
    if fate.Dies? || (cfg.kind == AckOnCommit && Commits(cfg, w, fate)) then [] else w.pending
  }

  /** `_flush` followed by `batch = []`. Nothing happens on an empty batch. */
  function Flush(cfg: Config, w: World, fate: Fate): World {
    if w.batch == [] then w
    else
      w.(stored := StoredAfter(cfg, w, fate),
         rows := RowsAfter(cfg, w, fate),
         queue := QueueAfter(cfg, w, fate),
         acked := AckedAfter(cfg, w, fate),
         running := w.running && !fate.Dies?,
         batch := [],
         size := if fate.Succeeds? || fate.FailsLate? then fate.newSize else w.size,
         pending := PendingAfter(cfg, w, fate),
         ledger := LedgerAfter(cfg, w, fate),
         run := if fate.Dies? then RunLog(w.run.top, [], []) else w.run.(done := w.run.done + [w.batch]),
         base := if Writes(cfg, w, fate) then w.pos else ResumePos(cfg, w.stored),
         high := Max(w.high, w.run.top))
  }

  function Crashed(w: World): World {
    w.(running := false, batch := [], pending := [], run := RunLog(w.run.top, [], []))
  }

  // ---- Steps ----------------------------------------------------------------------------------

  /** The event at the source's position is appended to the batch. */
  function Take(cfg: Config, w: World): World
    requires w.pos < |cfg.log|
  {
    var item := Item(w.pos, cfg.log[w.pos]);
    w.(pos := w.pos + 1,
       batch := w.batch + [item],
       last := if item.event.offset.Some? then item.event.offset else w.last,
       pending := if cfg.kind == AckOnCommit then w.pending + [w.pos] else w.pending,
       delivered := Max(w.delivered, w.pos + 1),
       run := RunLog(Max(w.run.top, w.pos + 1), w.run.pulled + [item], w.run.done))
  }

  /** An undecodable message is acknowledged and skipped. */
  function SkipBad(w: World): World {
    w.(pos := w.pos + 1, acked := w.acked + {w.pos}, delivered := Max(w.delivered, w.pos + 1))
  }

  /** The loop notices the stop flag on a yield; a message yielded with it is in no batch. */
  function StopWith(cfg: Config, w: World, onEvent: bool): World {
    if onEvent && w.pos < |cfg.log| && w.pos !in cfg.bad then
      w.(pending := if cfg.kind == AckOnCommit then w.pending + [w.pos] else w.pending,
         delivered := Max(w.delivered, w.pos + 1), dropped := w.dropped + {w.pos}, stops := w.stops + 1)
    else
      w.(stops := w.stops + 1)
  }

  function Begin(cfg: Config, w: World): World {
    var p := if cfg.kind == AckOnCommit then w.delivered else ResumePos(cfg, w.stored);
    w.(running := true, pos := p, batch := [], last := None, pending := [], run := RunLog(p, [], []))
  }

  /** The last flush of a run, after which the process is gone. */
  function Finish(cfg: Config, w: World, fate: Fate): World {
    Flush(cfg, w, fate).(running := false, pending := [])
  }

  /** A polling source re-reads from a window boundary, which lies at or after every offset it has
      yielded so far. */
  predicate CanRewind(cfg: Config, w: World, to: nat) {
    cfg.kind != AckOnCommit && ResumePos(cfg, w.stored) <= to <= w.pos && ResumePos(cfg, w.last) <= to
  }

  function Step(cfg: Config, w: World, a: Action): World {
    match a
    case Start => if w.running then w else Begin(cfg, w)
    case Next(timedOut, fate) =>
      if !w.running || w.pos >= |cfg.log| then w
      else if w.pos in cfg.bad then SkipBad(w)
      else
        var v := Take(cfg, w);
        if |v.batch| >= v.size || timedOut then Flush(cfg, v, fate) else v
    case Heartbeat(timedOut, fate) => if w.running && timedOut then Flush(cfg, w, fate) else w
    case Rewind(to) => if w.running && CanRewind(cfg, w, to) then w.(pos := to) else w
    case StopSeen(onEvent, fate) =>
      if w.running then Finish(cfg, StopWith(cfg, w, onEvent), fate) else w
    case SourceEnds(fate) => if w.running then Finish(cfg, w, fate) else w
    case Crash => Crashed(w)
    case RetryRound(ok, others, rowsAfter) =>
      w.(queue := DL.RoundAmong(w.queue, DL.PendingIds(w.queue, 0, DL.ROUND_LIMIT), ok, others, cfg.maxRetries),
         rows := rowsAfter)
    case QueueAction(act) => w.(queue := DL.Step(w.queue, act, cfg.maxRetries))
  }

  function RunAll(cfg: Config, w: World, acts: seq<Action>): World {
    if acts == [] then w else Step(cfg, RunAll(cfg, w, Front(acts)), Last(acts))
  }

  lemma RunSnoc(cfg: Config, w: World, acts: seq<Action>, a: Action)
    ensures RunAll(cfg, w, acts + [a]) == Step(cfg, RunAll(cfg, w, acts), a)
  {
    assert Front(acts + [a]) == acts;
  }

  lemma RunNext(cfg: Config, w: World, acts: seq<Action>, k: nat)
    requires k < |acts|
    ensures RunAll(cfg, w, acts[..k + 1]) == Step(cfg, RunAll(cfg, w, acts[..k]), acts[k])
  {
    assert Front(acts[..k + 1]) == acts[..k];
  }

  /** Before the first run: nothing stored, parked or acknowledged. */
  function Initial(rows: seq<Row>, size: nat): World {
    World(None, rows, [], {}, false, 0, [], None, size, [],
          Ledger({}, map[]), RunLog(0, [], []), 0, {}, 0, 0, 0)
  }

  // ---- The resume contract ----------------------------------------------------------------------

  /** Offsets strictly increase if the source resumes after the saved one, and never decrease if it
      resumes from it. */
  predicate ResumeContract(log: seq<Event>, kind: SourceKind) {
    forall i, j :: 0 <= i < j < |log| && log[i].offset.Some? && log[j].offset.Some?
      ==> !IsBefore(log[j].offset.value, log[i].offset.value, kind)
  }

  /** Saving an event's offset never skips anything after that event, exactly under the contract. */
  lemma ResumeContractIsExact(log: seq<Event>, kind: SourceKind)
    ensures ResumeContract(log, kind)
            <==> forall i :: 0 <= i < |log| && log[i].offset.Some? ==> ResumeAt(log, kind, log[i].offset) <= i + 1
  {
    if ResumeContract(log, kind) {
      forall i | 0 <= i < |log| && log[i].offset.Some? ensures ResumeAt(log, kind, log[i].offset) <= i + 1 {
        ResumeAtIndex(log, kind, log[i].offset);
      }
    } else {
      var i, j :| 0 <= i < j < |log| && log[i].offset.Some? && log[j].offset.Some?
        && IsBefore(log[j].offset.value, log[i].offset.value, kind);
      ResumeAtIndex(log, kind, log[i].offset);
      assert ResumeAt(log, kind, log[i].offset) > i + 1;
    }
  }

  lemma {:induction false} ResumeAtIndex(log: seq<Event>, kind: SourceKind, saved: Option<nat>)
    requires saved.Some?
    ensures var r := ResumeAt(log, kind, saved);
            && r <= |log|
            && (r > 0 ==> log[r - 1].offset.Some? && IsBefore(log[r - 1].offset.value, saved.value, kind))
            && forall j :: r <= j < |log| && log[j].offset.Some? ==> !IsBefore(log[j].offset.value, saved.value, kind)
  {
    if log != [] {
      ResumeAtIndex(Front(log), kind, saved);
      assert forall j :: 0 <= j < |log| - 1 ==> Front(log)[j] == log[j];
    }
  }
}
