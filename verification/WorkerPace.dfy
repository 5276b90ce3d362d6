// When the worker flushes, what each way a flush can end leaves behind, and where a run begins: step by
// step, in terms of the batch, the plan and the stored offset.
module WorkerPace {
  import opened Prelude
  import opened Events
  import opened TargetTable
  import opened Worker
  import DL = DeadLetters
  import PubSub
  import A = DremioSink
  import B = IcebergSink

  // ---- When ------------------------------------------------------------------------------------------------

  /** A waiting batch is smaller than the batch size. */
  predicate HasRoom(w: World) {
    w.running ==> w.batch == [] || |w.batch| < w.size
  }

  /** Between two steps of any run no full batch is waiting. */
  lemma {:induction false} NoFullBatchWaits(cfg: Config, rows: seq<Row>, size: nat, acts: seq<Action>)
    ensures HasRoom(RunAll(cfg, Initial(rows, size), acts))
  {
    if acts != [] {
      NoFullBatchWaits(cfg, rows, size, Front(acts));
      StepKeepsRoom(cfg, RunAll(cfg, Initial(rows, size), Front(acts)), Last(acts));
    }
  }

  lemma StepKeepsRoom(cfg: Config, w: World, a: Action)
    requires HasRoom(w)
    ensures HasRoom(Step(cfg, w, a))
  {
  }

  /** Nothing durable has changed. */
  predicate SameDurable(v: World, w: World) {
    v.stored == w.stored && v.rows == w.rows && v.queue == w.queue && v.acked == w.acked
  }

  /** An event that fills the batch, or comes after the timeout, is flushed with it at once; any other
      joins the batch and changes nothing durable. */
  lemma NextFlushesWhenDue(cfg: Config, w: World, timedOut: bool, fate: Fate)
    requires w.running && w.pos < |cfg.log| && w.pos !in cfg.bad
    ensures var v, batch := Step(cfg, w, Next(timedOut, fate)), w.batch + [Item(w.pos, cfg.log[w.pos])];
            if timedOut || |w.batch| + 1 >= w.size then
              v.batch == [] && (!fate.Dies? ==> v.run.done == w.run.done + [batch])
            else
              v.running && v.batch == batch && SameDurable(v, w) && v.size == w.size
  {
  }

  /** A heartbeat flushes what is waiting exactly after the timeout. */
  lemma HeartbeatFlushesWhenDue(cfg: Config, w: World, timedOut: bool, fate: Fate)
    requires w.running
    ensures var v := Step(cfg, w, Heartbeat(timedOut, fate));
            if timedOut && w.batch != [] then
              v.batch == [] && (!fate.Dies? ==> v.run.done == w.run.done + [w.batch])
            else v == w
  {
  }

  /** Leaving the loop flushes what is waiting, once. */
  lemma LastFlushIsWhole(cfg: Config, w: World, a: Action)
    requires w.running && (a.StopSeen? || a.SourceEnds?)
    ensures var v := Step(cfg, w, a);
            && !v.running && v.batch == [] && v.pending == []
            && (!a.fate.Dies? ==> v.run.done == w.run.done + if w.batch == [] then [] else [w.batch])
            && (w.batch == [] ==> SameDurable(v, w))
  {
    assert w.run.done + [] == w.run.done;
  }

  /** A crash keeps what is durable and nothing else. */
  lemma CrashKeepsDurable(cfg: Config, w: World)
    ensures var v := Step(cfg, w, Crash);
            SameDurable(v, w) && !v.running && v.batch == [] && v.pending == []
  {
  }

  // ---- What ------------------------------------------------------------------------------------------------

  /** The row-level operations of the waiting batch. */
  function BatchOps(cfg: Config, w: World): seq<TableOp> {
    if cfg.mode == Merging then A.Plan(EventsOf(w.batch), cfg.schema) else B.Plan(EventsOf(w.batch), cfg.schema)
  }

  /** The table after the first `n` of them. */
  function RowsAfterOps(cfg: Config, w: World, n: nat): seq<Row> {
    ExecAll(w.rows, BatchOps(cfg, w)[..Min(n, |BatchOps(cfg, w)|)], PrimaryKeys(cfg.schema))
  }

  function LastOr(last: Option<nat>, stored: Option<nat>): Option<nat> {
    if last.Some? then last else stored
  }

  /** The queue with the batch parked as one more pending entry. */
  function WithParked(cfg: Config, w: World): DL.Queue {
    w.queue + [DL.Entry(cfg.source, cfg.table, EventsOf(w.batch), 0, cfg.maxRetries, DL.Pending)]
  }

  /** What each way a flush can end leaves: the table, the stored offset, the queue and the batch size. */
  lemma FlushOutcomes(cfg: Config, w: World, fate: Fate)
    requires w.batch != []
    ensures var v, n := Flush(cfg, w, fate), |BatchOps(cfg, w)|;
            && v.batch == []
            && match fate
               case Succeeds(size, _) =>
                 v.rows == RowsAfterOps(cfg, w, n) && v.stored == LastOr(w.last, w.stored) && v.queue == w.queue
                 && v.size == size && v.running == w.running
               case SinkFails(ops) =>
                 v.rows == RowsAfterOps(cfg, w, ops) && v.stored == w.stored && v.queue == WithParked(cfg, w)
                 && v.size == w.size && v.running == w.running
               case OffsetFails(took) =>
                 v.rows == RowsAfterOps(cfg, w, n) && v.stored == (if took then LastOr(w.last, w.stored) else w.stored)
                 && v.queue == WithParked(cfg, w) && v.size == w.size && v.running == w.running
               case FailsLate(size, _) =>
                 v.rows == RowsAfterOps(cfg, w, n) && v.stored == LastOr(w.last, w.stored)
                 && v.queue == WithParked(cfg, w) && v.size == size && v.running == w.running
               case Dies(ops, stage, _) =>
                 v.rows == RowsAfterOps(cfg, w, ops) && v.queue == w.queue && !v.running && v.pending == []
                 && v.stored == if ops >= n && stage >= 1 then LastOr(w.last, w.stored) else w.stored
  {
  }

  /** And the acknowledgements: a source that acknowledges on commit does so for everything pending, except
      what failing requests carry, once the offset step is past, and never when the sink or it fails. */
  lemma FlushAcks(cfg: Config, w: World, fate: Fate)
    requires w.batch != []
    ensures var v := Flush(cfg, w, fate);
            && (cfg.kind != AckOnCommit || fate.SinkFails? || fate.OffsetFails? ==> v.acked == w.acked)
            && (fate.Dies? && (fate.ops < |BatchOps(cfg, w)| || fate.stage < 2) ==> v.acked == w.acked)
            && (cfg.kind == AckOnCommit && (fate.Succeeds? || fate.FailsLate?) ==>
                  && v.pending == [] && w.acked <= v.acked
                  && (forall p :: p in v.acked ==> p in w.acked || p in w.pending)
                  && (fate.lost == {} ==> forall p :: p in w.pending ==> p in v.acked))
  {
    PubSub.AckedOfPending(w.pending, LostAcks(fate));
  }

  /** What has been written and parked, position by position: a batch is written once all its operations
      have run, and parked as the newest entry of the queue. */
  lemma FlushRecords(cfg: Config, w: World, fate: Fate)
    requires w.batch != []
    ensures var v, whole := Flush(cfg, w, fate), fate.Succeeds? || fate.OffsetFails? || fate.FailsLate?;
            && (forall p :: p in v.ledger.written <==>
                  p in w.ledger.written
                  || ((whole || (fate.Dies? && fate.ops >= |BatchOps(cfg, w)|))
                      && exists i :: i in w.batch && i.at == p))
            && v.ledger.parked
               == if |v.queue| > |w.queue| then w.ledger.parked[|w.queue| := w.batch] else w.ledger.parked
  {
  }

  /** Starting, re-reading, crashing and what others do to the queue write, store and acknowledge nothing. */
  lemma OthersRecordNothing(cfg: Config, w: World, a: Action)
    requires a.Start? || a.Rewind? || a.Crash? || a.RetryRound? || a.QueueAction?
    ensures var v := Step(cfg, w, a); v.ledger == w.ledger && v.stored == w.stored && v.acked == w.acked
  {
  }

  /** An undecodable message is acknowledged, joins no batch and counts as delivered. */
  lemma BadIsSkipped(cfg: Config, w: World, timedOut: bool, fate: Fate)
    requires w.running && w.pos < |cfg.log| && w.pos in cfg.bad
    ensures var v := Step(cfg, w, Next(timedOut, fate));
            && v.acked == w.acked + {w.pos} && v.pos == w.pos + 1 && v.delivered > w.pos && v.delivered >= w.delivered
            && v.batch == w.batch && v.pending == w.pending && v.rows == w.rows && v.stored == w.stored
  {
  }

  /** `last` is the offset of the newest of the items that has one. */
  predicate IsNewestOffset(last: Option<nat>, items: seq<Item>) {
    match last
    case None => forall i :: 0 <= i < |items| ==> items[i].event.offset == None
    case Some(x) => exists i :: 0 <= i < |items| && HasNewest(x, items, i)
  }

  predicate HasNewest(x: nat, items: seq<Item>, i: nat)
    requires i < |items|
  {
    items[i].event.offset == Some(x) && forall j :: i < j < |items| ==> items[j].event.offset == None
  }

  /** The offset that a flush would store is that of the newest event this run has pulled, as far as it has
      one, whatever has been flushed in between. */
  lemma {:induction false} NewestOffsetIsNext(cfg: Config, rows: seq<Row>, size: nat, acts: seq<Action>)
    ensures var w := RunAll(cfg, Initial(rows, size), acts); w.running ==> IsNewestOffset(w.last, w.run.pulled)
  {
    if acts != [] {
      var w := RunAll(cfg, Initial(rows, size), Front(acts));
      NewestOffsetIsNext(cfg, rows, size, Front(acts));
      if w.running && Last(acts).Next? && w.pos < |cfg.log| && w.pos !in cfg.bad {
        NewestSnoc(w.last, w.run.pulled, Item(w.pos, cfg.log[w.pos]));
      }
    }
  }

  lemma NewestSnoc(last: Option<nat>, items: seq<Item>, item: Item)
    requires IsNewestOffset(last, items)
    ensures IsNewestOffset(if item.event.offset.Some? then item.event.offset else last, items + [item])
  {
    if item.event.offset.Some? {
      assert HasNewest(item.event.offset.value, items + [item], |items|);
    } else if last.Some? {
      var i :| 0 <= i < |items| && HasNewest(last.value, items, i);
      assert HasNewest(last.value, items + [item], i);
    }
  }

  // ---- Where -----------------------------------------------------------------------------------------------

  /** A run begins with nothing in hand at the first position the stored offset does not rule out: the one
      after the last event whose offset is at or before the stored one, or before it if the source resumes
      from it. A source that acknowledges on commit goes on with the next delivery. */
  lemma StartResumes(cfg: Config, w: World)
    requires !w.running
    ensures var v := Step(cfg, w, Start);
            && v.running && v.batch == [] && v.pending == [] && v.last == None && SameDurable(v, w) && v.size == w.size
            && (cfg.kind == AckOnCommit ==> v.pos == w.delivered)
            && (cfg.kind != AckOnCommit && w.stored == None ==> v.pos == 0)
            && (cfg.kind != AckOnCommit && w.stored.Some? ==>
                  && v.pos <= |cfg.log|
                  && (v.pos > 0 ==> Old(cfg, v.pos - 1, w.stored.value))
                  && forall i :: v.pos <= i < |cfg.log| ==> !Old(cfg, i, w.stored.value))
  {
    if w.stored.Some? { ResumeAtIndex(cfg.log, cfg.kind, w.stored); }
  }

  /** The saved offset says that event `i` need not be read again. */
  predicate Old(cfg: Config, i: nat, saved: nat)
    requires i < |cfg.log|
  {
    match cfg.log[i].offset
    case None => false
    case Some(x) => if cfg.kind == ResumeAfter then x <= saved else x < saved
  }
}
