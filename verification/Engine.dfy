// The worker as the engine runs it: objects for the offset store, the sink, the dead letter queue
// and the acknowledgements, proved step by step against the state machine of module Worker.
module Engine {
  import opened Prelude
  import opened Events
  import opened TargetTable
  import opened Worker
  import DL = DeadLetters
  import OS = OffsetStore
  import PubSub

  /** A sink that can stop in the middle of a batch. */
  class Target {
    var rows: seq<Row>
    const mode: Mode
    const schema: seq<Column>

    constructor (mode: Mode, schema: seq<Column>)
      ensures rows == [] && this.mode == mode && this.schema == schema
    {
      rows := [];
      this.mode, this.schema := mode, schema;
    }

    /** Executes at most `budget` operations of the batch's plan. */
    method WriteBatch(es: seq<Event>, budget: nat) returns (complete: bool)
      modifies this
      ensures var plan := PlanOf(mode, es, schema);
              && rows == ExecAll(old(rows), plan[..Min(budget, |plan|)], PrimaryKeys(schema))
              && complete == (budget >= |plan|)
    {
      var plan := PlanOf(mode, es, schema);
      Execute(plan, budget, PrimaryKeys(schema));
      complete := budget >= |plan|;
    }

    method Execute(plan: seq<TableOp>, budget: nat, pks: seq<string>)
      modifies this
      ensures rows == ExecAll(old(rows), plan[..Min(budget, |plan|)], pks)
    {
      var i := 0;
      while i < |plan| && i < budget
        invariant 0 <= i <= Min(budget, |plan|)
        invariant rows == ExecAll(old(rows), plan[..i], pks)
      {
        rows := TargetTable.Exec(rows, plan[i], pks);
        assert Front(plan[..i + 1]) == plan[..i] && Last(plan[..i + 1]) == plan[i];
        i := i + 1;
      }
    }
  }

  predicate SameRun(v: World, w: World) {
    v.running == w.running && v.batch == w.batch && v.last == w.last
  }

  lemma StopIsFinish(cfg: Config, w: World, onEvent: bool, fate: Fate)
    requires w.running
    ensures Step(cfg, w, StopSeen(onEvent, fate)) == Finish(cfg, StopWith(cfg, w, onEvent), fate)
  {
  }

  class TableWorker {
    const cfg: Config
    const offsets: OS.SqliteOffsetStore<nat>
    const target: Target
    const queue: DL.DeadLetterQueue
    const acks: PubSub.PubSubSource
    var batchSize: nat
    var delivered: nat
    ghost var model: World

    constructor (cfg: Config, batchSize: nat)
      ensures Valid() && model == Initial([], batchSize) && this.cfg == cfg
    {
      this.cfg := cfg;
      offsets := new OS.SqliteOffsetStore<nat>();
      target := new Target(cfg.mode, cfg.schema);
      queue := new DL.DeadLetterQueue(cfg.maxRetries);
      acks := new PubSub.PubSubSource();
      this.batchSize, delivered := batchSize, 0;
      model := Initial([], batchSize);
    }

    /** The objects hold exactly the durable state, the pending acks and the batch size of `w`. */
    ghost predicate Holds(w: World)
      reads this, offsets, target, queue, acks
    {
      && target.mode == cfg.mode && target.schema == cfg.schema && queue.maxRetries == cfg.maxRetries
      && w.stored == OS.SqliteValue(offsets.rows, (cfg.source, cfg.table))
      && w.rows == target.rows && w.queue == queue.entries
      && w.acked == acks.acked && w.pending == acks.pending
      && w.size == batchSize && w.delivered == delivered
    }

    ghost predicate Valid()
      reads this, offsets, target, queue, acks
    {
      Holds(model)
    }

    /** `_flush`: write, commit the offset, acknowledge; on any exception park the batch. */
    method FlushBatch(batch: seq<Item>, offset: Option<nat>, fate: Fate) returns (alive: bool)
      requires Valid() && model.running && model.batch == batch && model.last == offset
      modifies this, offsets, target, queue, acks
      ensures Valid() && model == Flush(cfg, old(model), fate) && alive == model.running && delivered == old(delivered)
    {
      if batch == [] {
        return true;
      }
      var events := EventsOf(batch);
      var budget := if fate.SinkFails? || fate.Dies? then fate.ops else |PlanOf(cfg.mode, events, cfg.schema)|;
      var complete := target.WriteBatch(events, budget);
      if fate.Dies? && (!complete || fate.stage == 0) {
        acks.Forget();
        model := Flush(cfg, model, fate);
        return false;
      }
      alive := AfterWrite(batch, offset, fate);
    }

    /** The rest of a flush, once the sink has returned or raised. */
    method AfterWrite(batch: seq<Item>, offset: Option<nat>, fate: Fate) returns (alive: bool)
      requires model.running && model.batch == batch != [] && model.last == offset
      requires Holds(model.(rows := RowsAfter(cfg, model, fate)))
      requires fate.Dies? ==> Writes(cfg, model, fate) && fate.stage > 0
      modifies this, offsets, queue, acks
      ensures Valid() && model == Flush(cfg, old(model), fate) && alive == model.running && delivered == old(delivered)
    {
      var failed := fate.SinkFails?;
      if !failed {
        if offset.Some? && fate != OffsetFails(false) {
          offsets.Commit(cfg.source, cfg.table, offset);
        }
        if fate.Dies? && fate.stage == 1 {
          acks.Forget();
          model := Flush(cfg, model, fate);
          return false;
        }
        failed := fate.OffsetFails?;
      }
      if failed {
        model := Flush(cfg, model, fate);
        var _ := queue.Push(cfg.source, cfg.table, EventsOf(batch));
        return true;
      }
      alive := AfterStore(batch, fate);
    }

    /** The end of a flush whose offset is stored: acknowledge and adapt the batch size. */
    method AfterStore(batch: seq<Item>, fate: Fate) returns (alive: bool)
      requires model.running && model.batch == batch != []
      requires Holds(model.(rows := RowsAfter(cfg, model, fate), stored := StoredAfter(cfg, model, fate)))
      requires Commits(cfg, model, fate)
      modifies this, queue, acks
      ensures Valid() && model == Flush(cfg, old(model), fate) && alive == model.running && delivered == old(delivered)
    {
      if cfg.kind == AckOnCommit {
        var _ := acks.OnBatchCommitted(fate.lost);
      }
      model := Flush(cfg, model, fate);
      if fate.Dies? {
        acks.Forget();
        return false;
      }
      batchSize := fate.newSize;
      if fate.FailsLate? {
        var _ := queue.Push(cfg.source, cfg.table, EventsOf(batch));
      }
      return true;
    }

    /** The flush after the loop, with which the worker ends. */
    method LastFlush(batch: seq<Item>, offset: Option<nat>, fate: Fate)
      requires Valid() && model.running && model.batch == batch && model.last == offset
      modifies this, offsets, target, queue, acks
      ensures Valid() && model == Finish(cfg, old(model), fate)
    {
      var _ := FlushBatch(batch, offset, fate);
      acks.Forget();
      model := model.(running := false, pending := []);
    }

    /** The loop body for a yielded event. */
    method OnYield(pos: nat, batch: seq<Item>, last: Option<nat>, timedOut: bool, fate: Fate)
      returns (pos': nat, batch': seq<Item>, last': Option<nat>, alive: bool)
      requires Valid() && model.running && model.batch == batch && model.last == last && model.pos == pos
      modifies this, offsets, target, queue, acks
      ensures Valid() && model == Step(cfg, old(model), Next(timedOut, fate))
      ensures alive == model.running && model.batch == batch' && model.last == last' && model.pos == pos'
    {
      pos', batch', last', alive := pos, batch, last, true;
      if pos >= |cfg.log| { return; }
      if pos in cfg.bad {
        pos' := SkipEvent(pos);
        return;
      }
      pos', batch', last' := TakeEvent(pos, batch, last);
      if |batch'| >= batchSize || timedOut {
        alive := FlushBatch(batch', last', fate);
        batch' := [];
      }
    }

    /** A message that cannot be decoded is acknowledged and not yielded. */
    method SkipEvent(pos: nat) returns (pos': nat)
      requires Valid() && model.pos == pos
      modifies this, acks
      ensures Valid() && model == SkipBad(old(model)) && model.pos == pos'
    {
      delivered := Max(delivered, pos + 1);
      pos' := pos + 1;
      acks.Receive(pos, false);
      model := SkipBad(model);
    }

    method TakeEvent(pos: nat, batch: seq<Item>, last: Option<nat>)
      returns (pos': nat, batch': seq<Item>, last': Option<nat>)
      requires Valid() && model.batch == batch && model.last == last && model.pos == pos < |cfg.log|
      modifies this, acks
      ensures Valid() && model == Take(cfg, old(model))
      ensures model.batch == batch' && model.last == last' && model.pos == pos'
    {
      var ev := cfg.log[pos];
      delivered := Max(delivered, pos + 1);
      if cfg.kind == AckOnCommit {
        acks.Receive(pos, true);
      }
      model := Take(cfg, model);
      pos', batch' := pos + 1, batch + [Item(pos, ev)];
      last' := if ev.offset.Some? then ev.offset else last;
    }

    /** A message yielded together with the stop flag is pending but enters no batch. */
    method NoticeStop(pos: nat, onEvent: bool)
      requires Valid() && model.pos == pos
      modifies this, acks
      ensures Valid() && model == StopWith(cfg, old(model), onEvent) && SameRun(old(model), model)
    {
      model := StopWith(cfg, model, onEvent);
      if onEvent && pos < |cfg.log| && pos !in cfg.bad {
        delivered := Max(delivered, pos + 1);
        if cfg.kind == AckOnCommit {
          acks.Receive(pos, true);
        }
      }
    }

    /** The loop body when the stop flag is set: leave the loop, flush what there is. */
    method OnStop(pos: nat, batch: seq<Item>, last: Option<nat>, onEvent: bool, fate: Fate)
      requires Valid() && model.running && model.batch == batch && model.last == last && model.pos == pos
      modifies this, offsets, target, queue, acks
      ensures Valid() && model == Step(cfg, old(model), StopSeen(onEvent, fate))
    {
      StopIsFinish(cfg, model, onEvent, fate);
      NoticeStop(pos, onEvent);
      LastFlush(batch, last, fate);
    }

    method OnRewind(pos: nat, last: Option<nat>, to: nat) returns (pos': nat)
      requires Valid() && model.running && model.last == last && model.pos == pos
      modifies this
      ensures Valid() && model == Step(cfg, old(model), Rewind(to)) && model.pos == pos'
      ensures model == old(model).(pos := pos')
    {
      pos' := pos;
      var stored := offsets.Lookup(cfg.source, cfg.table);
      if cfg.kind != AckOnCommit && ResumePos(cfg, stored) <= to <= pos && ResumePos(cfg, last) <= to {
        pos' := to;
        model := model.(pos := to);
      }
    }

    /** What the streaming loop can meet: yields of the source, the stop flag, the end, or a crash. */
    static predicate InStream(a: Action) {
      a.Next? || a.Heartbeat? || a.Rewind? || a.StopSeen? || a.SourceEnds? || a.Crash?
    }

    /** One turn of the loop, for whatever the source or the environment does. */
    method OnAction(pos: nat, batch: seq<Item>, last: Option<nat>, a: Action)
      returns (pos': nat, batch': seq<Item>, last': Option<nat>, alive: bool)
      requires Valid() && model.running && model.batch == batch && model.last == last && model.pos == pos && InStream(a)
      modifies this, offsets, target, queue, acks
      ensures Valid() && model == Step(cfg, old(model), a)
      ensures alive == model.running && (alive ==> model.batch == batch' && model.last == last' && model.pos == pos')
    {
      pos', batch', last', alive := pos, batch, last, false;
      if a.Next? {
        pos', batch', last', alive := OnYield(pos, batch, last, a.timedOut, a.fate);
      } else if a.Heartbeat? {
        alive := true;
        if batch != [] && a.timedOut {
          alive := FlushBatch(batch, last, a.fate);
          batch' := [];
        }
      } else if a.Rewind? {
        alive := true;
        pos' := OnRewind(pos, last, a.to);
      } else if a.StopSeen? {
        OnStop(pos, batch, last, a.onEvent, a.fate);
      } else if a.SourceEnds? {
        LastFlush(batch, last, a.fate);
      } else {
        acks.Forget();
        model := Crashed(model);
      }
    }

    /** Open the source's stream at the stored offset; a fresh process has nothing pending. */
    method OpenStream() returns (pos: nat)
      requires Valid() && !model.running
      modifies this, acks
      ensures Valid() && model == Step(cfg, old(model), Start)
      ensures model.running && model.batch == [] && model.last == None && model.pos == pos
    {
      var saved := offsets.Lookup(cfg.source, cfg.table);
      pos := if cfg.kind == AckOnCommit then delivered else ResumePos(cfg, saved);
      acks.Forget();
      model := Step(cfg, model, Start);
    }

    /** The streaming loop of `run`, driven by what the source and the environment do. It consumes
        `used` of them and ends in the state the machine reaches on those. */
    method RunStream(script: seq<Action>) returns (used: nat)
      requires Valid() && !model.running
      requires forall a :: a in script ==> InStream(a)
      modifies this, offsets, target, queue, acks
      ensures Valid() && used <= |script|
      ensures model == RunAll(cfg, Step(cfg, old(model), Start), script[..used])
      ensures used == |script| || !model.running
    {
      var pos := OpenStream();
      var batch: seq<Item>, last: Option<nat> := [], None;
      ghost var start := model;
      used := 0;
      var alive := true;
      while used < |script| && alive
        invariant Valid() && used <= |script| && alive == model.running
        invariant alive ==> model.batch == batch && model.last == last && model.pos == pos
        invariant model == RunAll(cfg, start, script[..used])
      {
        var a := script[used];
        assert a in script;
        RunNext(cfg, start, script, used);
        pos, batch, last, alive := OnAction(pos, batch, last, a);
        used := used + 1;
      }
      assert script[..|script|] == script;
    }
  }
}
