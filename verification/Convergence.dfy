// Crash and replay: whatever is interrupted, the target catches up with the one-by-one fold of the
// stream as soon as a run has passed the furthest point an earlier one reached.
module Convergence {
  import opened Prelude
  import opened Events
  import opened TargetTable
  import opened Batches
  import opened Worker
  import A = DremioSink
  import B = IcebergSink

  // ---- A sink interrupted in the middle of a batch -------------------------------------------

  /** An operation confined to the keys of a batch. */
  ghost predicate Local(op: TableOp, es: seq<Event>, schema: seq<Column>) {
    var pks := PrimaryKeys(schema);
    match op
    case Merge(src) => TableOk(src, schema) && forall k :: Find(src, k, pks).Some? ==> HasEvent(es, k, pks)
    case DeleteWhere(cond) => exists k :: IsKeyCondition(cond, k, pks) && HasEvent(es, k, pks)
    case Append(_) => false
  }

  ghost predicate AllLocal(ops: seq<TableOp>, es: seq<Event>, schema: seq<Column>) {
    forall i :: 0 <= i < |ops| ==> Local(ops[i], es, schema)
  }

  lemma AllLocalSnoc(ops: seq<TableOp>, op: TableOp, es: seq<Event>, schema: seq<Column>)
    requires AllLocal(ops, es, schema) && Local(op, es, schema)
    ensures AllLocal(ops + [op], es, schema)
  {
  }

  /** The table keeps its invariant, and keys outside the batch their rows. */
  ghost predicate KeepsOthers(rows: seq<Row>, after: seq<Row>, es: seq<Event>, schema: seq<Column>) {
    var pks := PrimaryKeys(schema);
    TableOk(after, schema) && forall k :: !HasEvent(es, k, pks) ==> Find(after, k, pks) == Find(rows, k, pks)
  }

  lemma {:induction false} LocalOpsKeepOthers(rows: seq<Row>, ops: seq<TableOp>, es: seq<Event>, schema: seq<Column>)
    requires TableOk(rows, schema) && AllLocal(ops, es, schema)
    ensures KeepsOthers(rows, ExecAll(rows, ops, PrimaryKeys(schema)), es, schema)
  {
    var pks := PrimaryKeys(schema);
    if ops != [] {
      LocalOpsKeepOthers(rows, Front(ops), es, schema);
      var r := ExecAll(rows, Front(ops), pks);
      assert Local(Last(ops), es, schema);
      match Last(ops)
      case Merge(src) => MergeSound(r, src, schema);
      case DeleteWhere(cond) =>
        var k :| IsKeyCondition(cond, k, pks) && HasEvent(es, k, pks);
        DeleteSound(r, cond, k, schema);
      case Append(_) =>
    }
  }

  /** A condition on the key of an event of the batch. */
  lemma KeyDeleteLocal(cond: Where, e: Event, es: seq<Event>, schema: seq<Column>)
    requires e in es && IsKeyCondition(cond, EventKey(e, PrimaryKeys(schema)), PrimaryKeys(schema))
    ensures Local(DeleteWhere(cond), es, schema)
  {
    assert HasEvent(es, EventKey(e, PrimaryKeys(schema)), PrimaryKeys(schema));
  }

  lemma {:induction false} DeleteOpsLocal(dels: seq<Event>, es: seq<Event>, schema: seq<Column>)
    requires KeyedSchema(schema)
    requires forall e :: e in dels ==> WellFormed(e, schema) && e.op.Delete? && e in es
    ensures AllLocal(A.DeleteOps(dels, PrimaryKeys(schema)), es, schema)
  {
    if dels != [] {
      var pks, e := PrimaryKeys(schema), Last(dels);
      assert dels == Front(dels) + [e];
      DeleteOpsLocal(Front(dels), es, schema);
      HasKeyNonNull(e.before.value, pks);
      var cond := A.KeyCondition(e.before.value, pks);
      assert IsKeyCondition(cond, EventKey(e, pks), pks);
      KeyDeleteLocal(cond, e, es, schema);
      AllLocalSnoc(A.DeleteOps(Front(dels), pks), DeleteWhere(cond), es, schema);
    }
  }

  lemma UpsertOpsLocal(es: seq<Event>, schema: seq<Column>)
    requires KeyedSchema(schema) && WellFormedBatch(es, schema)
    ensures AllLocal(A.UpsertOps(Upserts(es), schema), es, schema)
  {
    var pks, ups := PrimaryKeys(schema), Upserts(es);
    FiltersMembers(es);
    if ups != [] {
      var d := DictDedup(ups, pks);
      DictDedupIsLast(ups, pks);
      StoredOk(d, schema);
      forall k | Find(StoredAll(d, schema), k, pks).Some? ensures HasEvent(es, k, pks) {
        FindStored(d, k, schema);
        LastOfMember(ups, k, pks);
        assert LastOf(ups, k, pks).value in es;
      }
      assert Local(Merge(StoredAll(d, schema)), es, schema);
    }
  }

  lemma SupersededStep(part: seq<Event>, schema: seq<Column>) returns (cond: Where)
    requires KeyedSchema(schema) && part != [] && WellFormed(Last(part), schema)
    ensures IsKeyCondition(cond, EventKey(Last(part), PrimaryKeys(schema)), PrimaryKeys(schema))
    ensures B.DeleteOpsFor(B.SupersededRows(part), PrimaryKeys(schema))
            == B.DeleteOpsFor(B.SupersededRows(Front(part)), PrimaryKeys(schema)) + [DeleteWhere(cond)]
  {
    var pks := PrimaryKeys(schema);
    B.SupersededKey(Last(part), schema);
    var row := B.Superseded(Last(part)).value;
    B.PresentKeysComplete(row, pks);
    cond := B.PresentKeys(row, pks);
    assert Front(B.SupersededRows(part)) == B.SupersededRows(Front(part)) && Last(B.SupersededRows(part)) == row;
  }

  lemma {:induction false} SupersededLocal(part: seq<Event>, es: seq<Event>, schema: seq<Column>)
    requires KeyedSchema(schema)
    requires forall e :: e in part ==> WellFormed(e, schema) && e in es
    ensures AllLocal(B.DeleteOpsFor(B.SupersededRows(part), PrimaryKeys(schema)), es, schema)
  {
    if part != [] {
      assert part == Front(part) + [Last(part)];
      SupersededLocal(Front(part), es, schema);
      var cond := SupersededStep(part, schema);
      KeyDeleteLocal(cond, Last(part), es, schema);
      AllLocalSnoc(B.DeleteOpsFor(B.SupersededRows(Front(part)), PrimaryKeys(schema)), DeleteWhere(cond), es, schema);
    }
  }

  /** Mode A's plan is local throughout. */
  lemma PlanALocal(es: seq<Event>, schema: seq<Column>)
    requires KeyedSchema(schema) && WellFormedBatch(es, schema)
    ensures AllLocal(A.Plan(es, schema), es, schema)
  {
    FiltersMembers(es);
    UpsertOpsLocal(es, schema);
    DeleteOpsLocal(Deletes(es), es, schema);
  }

  /** Mode B's plan is its deletes, all local, and at most one final append. */
  lemma PlanBLocal(es: seq<Event>, schema: seq<Column>, n: nat)
    requires KeyedSchema(schema) && WellFormedBatch(es, schema) && n < |B.Plan(es, schema)|
    ensures AllLocal(B.Plan(es, schema)[..n], es, schema)
  {
    var pks := PrimaryKeys(schema);
    var a, b := B.SupersededRows(Deletes(es)), B.SupersededRows(Upserts(es));
    FiltersMembers(es);
    SupersededLocal(Deletes(es), es, schema);
    SupersededLocal(Upserts(es), es, schema);
    B.DeleteOpsConcat(a, b, pks);
    var x, y := B.DeleteOpsFor(a, pks), B.DeleteOpsFor(b, pks);
    var plan := B.Plan(es, schema);
    forall i | 0 <= i < n ensures Local(plan[..n][i], es, schema) {
      assert plan[..n][i] == (x + y)[i] == if i < |x| then x[i] else y[i - |x|];
    }
  }

  /** A batch cut short anywhere leaves a well-formed table and other keys untouched. */
  lemma InterruptedBatch(mode: Mode, rows: seq<Row>, es: seq<Event>, schema: seq<Column>, n: nat)
    requires KeyedSchema(schema) && TableOk(rows, schema) && WellFormedBatch(es, schema)
    requires n < |PlanOf(mode, es, schema)|
    ensures KeepsOthers(rows, ExecAll(rows, PlanOf(mode, es, schema)[..n], PrimaryKeys(schema)), es, schema)
  {
    var ops := PlanOf(mode, es, schema)[..n];
    assert AllLocal(ops, es, schema) by {
      match mode
      case Merging =>
        PlanALocal(es, schema);
        assert forall i :: 0 <= i < n ==> ops[i] == A.Plan(es, schema)[i];
      case DeleteAndAppend => PlanBLocal(es, schema, n);
    }
    LocalOpsKeepOthers(rows, ops, es, schema);
  }

  /** The per-key order a batch must have for its sink to equal sequential replay. */
  ghost predicate InOrder(mode: Mode, es: seq<Event>, pks: seq<string>) {
    match mode
    case Merging => forall k :: A.InOrderA(es, k, pks)
    case DeleteAndAppend => forall k :: B.InOrderB(es, k, pks)
  }

  /** A completed batch replays its events exactly when they are in order. */
  lemma CompletedBatch(mode: Mode, rows: seq<Row>, es: seq<Event>, schema: seq<Column>)
    requires KeyedSchema(schema) && TableOk(rows, schema) && WellFormedBatch(es, schema)
    ensures var pks, r := PrimaryKeys(schema), ExecAll(rows, PlanOf(mode, es, schema), PrimaryKeys(schema));
            && TableOk(r, schema)
            && (ViewOf(r, pks) == Replay(ViewOf(rows, pks), es, schema) <==> InOrder(mode, es, pks))
  {
    match mode
    case Merging =>
      A.WritesEffectA(rows, es, schema);
      A.ReplaysExactlyA(rows, es, schema);
    case DeleteAndAppend =>
      B.WritesEffectB(rows, es, schema);
      B.ReplaysExactlyB(rows, es, schema);
  }

  // ---- Agreement with the fold, up to the high-water mark -----------------------------------------

  ghost predicate Untouched(cfg: Config, k: Key, p: nat, h: nat) {
    forall i :: p <= i < h && i < |cfg.log| ==> EventKey(cfg.log[i], PrimaryKeys(cfg.schema)) != k
  }

  /** `v` is the fold of the first `p` events on every key not touched again before `h`. */
  ghost predicate Agrees(cfg: Config, m0: View, v: View, p: nat, h: nat) {
    && p <= h <= |cfg.log|
    && forall k :: Untouched(cfg, k, p, h) ==> Lookup(v, k) == Lookup(Replay(m0, cfg.log[..p], cfg.schema), k)
  }

  lemma UntouchedReplay(cfg: Config, m0: View, k: Key, c: nat, p: nat)
    requires c <= p <= |cfg.log| && Untouched(cfg, k, c, p)
    ensures Lookup(Replay(m0, cfg.log[..p], cfg.schema), k) == Lookup(Replay(m0, cfg.log[..c], cfg.schema), k)
  {
    var mid := cfg.log[c..p];
    assert cfg.log[..p] == cfg.log[..c] + mid;
    ReplayConcat(m0, cfg.log[..c], mid, cfg.schema);
    ReplayAt(Replay(m0, cfg.log[..c], cfg.schema), mid, k, cfg.schema);
    LastOfMember(mid, k, PrimaryKeys(cfg.schema));
  }

  lemma AgreesEarlier(cfg: Config, m0: View, v: View, p: nat, h: nat, c: nat, g: nat)
    requires Agrees(cfg, m0, v, p, h) && c <= p && h <= g <= |cfg.log|
    ensures Agrees(cfg, m0, v, c, g)
  {
    forall k | Untouched(cfg, k, c, g) ensures Lookup(v, k) == Lookup(Replay(m0, cfg.log[..c], cfg.schema), k) {
      assert Untouched(cfg, k, p, h) && Untouched(cfg, k, c, p);
      UntouchedReplay(cfg, m0, k, c, p);
    }
  }

  lemma AgreesNext(cfg: Config, m0: View, v: View, p: nat, h: nat)
    requires Agrees(cfg, m0, v, p, h) && p < |cfg.log|
    ensures Agrees(cfg, m0, Apply(v, cfg.log[p], cfg.schema), p + 1, Max(h, p + 1))
  {
    var pks := PrimaryKeys(cfg.schema);
    assert Front(cfg.log[..p + 1]) == cfg.log[..p] && Last(cfg.log[..p + 1]) == cfg.log[p];
    forall k | Untouched(cfg, k, p + 1, Max(h, p + 1))
      ensures Lookup(Apply(v, cfg.log[p], cfg.schema), k) == Lookup(Replay(m0, cfg.log[..p + 1], cfg.schema), k)
    {
      if EventKey(cfg.log[p], pks) != k {
        assert Untouched(cfg, k, p, h);
      }
    }
  }

  lemma AgreesAtFrontier(cfg: Config, m0: View, v: View, p: nat)
    requires Agrees(cfg, m0, v, p, p)
    ensures v == Replay(m0, cfg.log[..p], cfg.schema)
  {
    forall k ensures Lookup(v, k) == Lookup(Replay(m0, cfg.log[..p], cfg.schema), k) {
      assert Untouched(cfg, k, p, p);
    }
    SameLookups(v, Replay(m0, cfg.log[..p], cfg.schema));
  }

  // ---- The invariant of every run --------------------------------------------------------------------

  /** A log source that keeps its resume contract. */
  predicate LogSource(cfg: Config) {
    && cfg.kind != AckOnCommit && cfg.bad == {}
    && KeyedSchema(cfg.schema) && WellFormedBatch(cfg.log, cfg.schema)
    && ResumeContract(cfg.log, cfg.kind)
  }

  predicate FromLog(cfg: Config, items: seq<Item>, lo: nat, hi: nat) {
    forall i :: 0 <= i < |items|
           ==> lo <= items[i].at < hi && items[i].at < |cfg.log| && items[i].event == cfg.log[items[i].at]
  }

  /** The table as it will be once the current batch has been applied in order. */
  function Promised(cfg: Config, w: World): View {
    Replay(ViewOf(w.rows, PrimaryKeys(cfg.schema)), EventsOf(w.batch), cfg.schema)
  }

  ghost predicate CatchingUp(cfg: Config, m0: View, w: World) {
    && TableOk(w.rows, cfg.schema)
    && ResumePos(cfg, w.stored) <= w.base
    && Agrees(cfg, m0, ViewOf(w.rows, PrimaryKeys(cfg.schema)), w.base, w.high)
    && (w.running ==> Running(cfg, m0, w))
  }

  ghost predicate Running(cfg: Config, m0: View, w: World) {
    && ResumePos(cfg, w.stored) <= w.pos <= w.run.top <= |cfg.log| && ResumePos(cfg, w.last) <= w.pos
    && FromLog(cfg, w.batch, ResumePos(cfg, w.stored), w.run.top)
    && Agrees(cfg, m0, Promised(cfg, w), w.pos, Max(w.high, w.run.top))
  }

  /** No sink error; a batch the sink completes is in its order. */
  ghost predicate CleanFlush(cfg: Config, w: World, fate: Fate) {
    !fate.SinkFails? && (Writes(cfg, w, fate) ==> InOrder(cfg.mode, EventsOf(w.batch), PrimaryKeys(cfg.schema)))
  }

  lemma BatchWellFormed(cfg: Config, items: seq<Item>, lo: nat, hi: nat)
    requires LogSource(cfg) && FromLog(cfg, items, lo, hi)
    ensures WellFormedBatch(EventsOf(items), cfg.schema)
  {
  }

  lemma FlushCatchesUp(cfg: Config, m0: View, w: World, fate: Fate)
    requires LogSource(cfg) && CatchingUp(cfg, m0, w) && w.running && CleanFlush(cfg, w, fate)
    ensures CatchingUp(cfg, m0, Flush(cfg, w, fate))
  {
    if w.batch != [] {
      BatchWellFormed(cfg, w.batch, ResumePos(cfg, w.stored), w.run.top);
      if Writes(cfg, w, fate) {
        CompletedFlush(cfg, m0, w, fate);
      } else {
        InterruptedFlush(cfg, m0, w, fate);
      }
    }
  }

  /** The sink completes a batch in its order: the table becomes what the batch promised. */
  lemma CompletedRows(cfg: Config, w: World, fate: Fate)
    requires LogSource(cfg) && TableOk(w.rows, cfg.schema) && WellFormedBatch(EventsOf(w.batch), cfg.schema)
    requires Writes(cfg, w, fate) && InOrder(cfg.mode, EventsOf(w.batch), PrimaryKeys(cfg.schema))
    ensures TableOk(RowsAfter(cfg, w, fate), cfg.schema)
    ensures ViewOf(RowsAfter(cfg, w, fate), PrimaryKeys(cfg.schema)) == Promised(cfg, w)
  {
    var plan := BatchPlan(cfg, w);
    assert plan[..|plan|] == plan && OpsDone(cfg, w, fate) == |plan|;
    CompletedBatch(cfg.mode, w.rows, EventsOf(w.batch), cfg.schema);
  }

  lemma CompletedFlush(cfg: Config, m0: View, w: World, fate: Fate)
    requires LogSource(cfg) && CatchingUp(cfg, m0, w) && w.running && CleanFlush(cfg, w, fate)
    requires w.batch != [] && Writes(cfg, w, fate) && WellFormedBatch(EventsOf(w.batch), cfg.schema)
    ensures CatchingUp(cfg, m0, Flush(cfg, w, fate))
  {
    CompletedRows(cfg, w, fate);
    CaughtUp(cfg, m0, w, Flush(cfg, w, fate));
  }

  /** A world that has just applied the batch has kept the promise. */
  lemma CaughtUp(cfg: Config, m0: View, w: World, v: World)
    requires CatchingUp(cfg, m0, w) && w.running
    requires TableOk(v.rows, cfg.schema) && ViewOf(v.rows, PrimaryKeys(cfg.schema)) == Promised(cfg, w)
    requires v.stored == w.stored || v.stored == w.last
    requires v.batch == [] && v.last == w.last && v.pos == w.pos && v.run.top == w.run.top
    requires v.base == w.pos && v.high == Max(w.high, w.run.top)
    ensures CatchingUp(cfg, m0, v)
  {
    assert EventsOf(v.batch) == [];
  }

  /** Keys the batch does not touch keep their agreement when the batch is cut short. */
  lemma InterruptedAgrees(cfg: Config, m0: View, rows: seq<Row>, after: seq<Row>, items: seq<Item>, c: nat, g: nat)
    requires FromLog(cfg, items, c, g) && KeepsOthers(rows, after, EventsOf(items), cfg.schema)
    requires Agrees(cfg, m0, ViewOf(rows, PrimaryKeys(cfg.schema)), c, g)
    ensures Agrees(cfg, m0, ViewOf(after, PrimaryKeys(cfg.schema)), c, g)
  {
    var pks, es := PrimaryKeys(cfg.schema), EventsOf(items);
    forall k | Untouched(cfg, k, c, g)
      ensures Lookup(ViewOf(after, pks), k) == Lookup(Replay(m0, cfg.log[..c], cfg.schema), k)
    {
      assert !HasEvent(es, k, pks);
      ViewLookup(after, k, pks);
      ViewLookup(rows, k, pks);
    }
  }

  lemma InterruptedFlush(cfg: Config, m0: View, w: World, fate: Fate)
    requires LogSource(cfg) && CatchingUp(cfg, m0, w) && w.running && CleanFlush(cfg, w, fate)
    requires w.batch != [] && !Writes(cfg, w, fate) && WellFormedBatch(EventsOf(w.batch), cfg.schema)
    ensures CatchingUp(cfg, m0, Flush(cfg, w, fate))
  {
    var c, g := ResumePos(cfg, w.stored), Max(w.high, w.run.top);
    var after := RowsAfter(cfg, w, fate);
    InterruptedBatch(cfg.mode, w.rows, EventsOf(w.batch), cfg.schema, OpsDone(cfg, w, fate));
    AgreesEarlier(cfg, m0, ViewOf(w.rows, PrimaryKeys(cfg.schema)), w.base, w.high, c, g);
    assert FromLog(cfg, w.batch, c, g);
    InterruptedAgrees(cfg, m0, w.rows, after, w.batch, c, g);
    var v := Flush(cfg, w, fate);
    assert v.rows == after && v.base == c && v.high == g && !v.running && v.stored == w.stored;
  }

  /** One more event in the batch is one more step of the promised fold. */
  lemma TakePromises(cfg: Config, w: World)
    requires w.pos < |cfg.log|
    ensures Promised(cfg, Take(cfg, w)) == Apply(Promised(cfg, w), cfg.log[w.pos], cfg.schema)
  {
    var v := Take(cfg, w);
    assert Front(EventsOf(v.batch)) == EventsOf(w.batch) && Last(EventsOf(v.batch)) == cfg.log[w.pos];
  }

  lemma TakeFromLog(cfg: Config, w: World, lo: nat, hi: nat)
    requires FromLog(cfg, w.batch, lo, hi) && lo <= w.pos < |cfg.log|
    ensures FromLog(cfg, Take(cfg, w).batch, lo, Max(hi, w.pos + 1))
  {
  }

  lemma TakeCatchesUp(cfg: Config, m0: View, w: World)
    requires LogSource(cfg) && CatchingUp(cfg, m0, w) && w.running && w.pos < |cfg.log|
    ensures CatchingUp(cfg, m0, Take(cfg, w))
  {
    var v, g := Take(cfg, w), Max(w.high, w.run.top);
    AgreesNext(cfg, m0, Promised(cfg, w), w.pos, g);
    TakePromises(cfg, w);
    TakeFromLog(cfg, w, ResumePos(cfg, w.stored), w.run.top);
    ResumeContractIsExact(cfg.log, cfg.kind);
    assert ResumePos(cfg, v.last) <= v.pos;
    assert Max(w.high, v.run.top) == Max(g, w.pos + 1);
  }

  lemma BeginCatchesUp(cfg: Config, m0: View, w: World)
    requires LogSource(cfg) && CatchingUp(cfg, m0, w)
    ensures CatchingUp(cfg, m0, Begin(cfg, w))
  {
    var c := ResumePos(cfg, w.stored);
    AgreesEarlier(cfg, m0, ViewOf(w.rows, PrimaryKeys(cfg.schema)), w.base, w.high, c, w.high);
    assert EventsOf(Begin(cfg, w).batch) == [];
  }

  /** The steps of a run without sink errors: crashes anywhere are allowed, dead letter replays,
      which rewrite parked batches out of order, are not. */
  ghost predicate Clean(cfg: Config, w: World, a: Action) {
    match a
    case Next(timedOut, fate) =>
      w.running && w.pos < |cfg.log| && (|w.batch| + 1 >= w.size || timedOut) ==> CleanFlush(cfg, Take(cfg, w), fate)
    case Heartbeat(_, fate) => CleanFlush(cfg, w, fate)
    case StopSeen(_, fate) => CleanFlush(cfg, w, fate)
    case SourceEnds(fate) => CleanFlush(cfg, w, fate)
    case RetryRound(_, _, _) => false
    case _ => true
  }

  lemma FinishCatchesUp(cfg: Config, m0: View, w: World, v: World, fate: Fate)
    requires LogSource(cfg) && CatchingUp(cfg, m0, w) && w.running && CleanFlush(cfg, w, fate)
    requires v == w.(pending := v.pending, delivered := v.delivered, dropped := v.dropped, stops := v.stops)
    ensures CatchingUp(cfg, m0, Finish(cfg, v, fate))
  {
    FlushCatchesUp(cfg, m0, w, fate);
    var a, b := Flush(cfg, w, fate), Flush(cfg, v, fate);
    assert b.rows == a.rows && b.stored == a.stored && b.base == a.base && b.high == a.high;
  }

  lemma NextCatchesUp(cfg: Config, m0: View, w: World, timedOut: bool, fate: Fate)
    requires LogSource(cfg) && CatchingUp(cfg, m0, w) && Clean(cfg, w, Next(timedOut, fate))
    ensures CatchingUp(cfg, m0, Step(cfg, w, Next(timedOut, fate)))
  {
    if w.running && w.pos < |cfg.log| {
      TakeCatchesUp(cfg, m0, w);
      if |w.batch| + 1 >= w.size || timedOut { FlushCatchesUp(cfg, m0, Take(cfg, w), fate); }
    }
  }

  lemma RewindCatchesUp(cfg: Config, m0: View, w: World, to: nat)
    requires LogSource(cfg) && CatchingUp(cfg, m0, w)
    ensures CatchingUp(cfg, m0, Step(cfg, w, Rewind(to)))
  {
    if w.running && CanRewind(cfg, w, to) {
      AgreesEarlier(cfg, m0, Promised(cfg, w), w.pos, Max(w.high, w.run.top), to, Max(w.high, w.run.top));
    }
  }

  lemma StepCatchesUp(cfg: Config, m0: View, w: World, a: Action)
    requires LogSource(cfg) && CatchingUp(cfg, m0, w) && Clean(cfg, w, a)
    ensures CatchingUp(cfg, m0, Step(cfg, w, a))
  {
    match a
    case Start => if !w.running { BeginCatchesUp(cfg, m0, w); }
    case Next(timedOut, fate) => NextCatchesUp(cfg, m0, w, timedOut, fate);
    case Heartbeat(_, fate) => if w.running { FlushCatchesUp(cfg, m0, w, fate); }
    case Rewind(to) => RewindCatchesUp(cfg, m0, w, to);
    case StopSeen(onEvent, fate) => if w.running { FinishCatchesUp(cfg, m0, w, StopWith(cfg, w, onEvent), fate); }
    case SourceEnds(fate) => if w.running { FinishCatchesUp(cfg, m0, w, w, fate); }
    case _ =>
  }

  ghost predicate CleanRun(cfg: Config, w0: World, acts: seq<Action>) {
    acts == [] || (CleanRun(cfg, w0, Front(acts)) && Clean(cfg, RunAll(cfg, w0, Front(acts)), Last(acts)))
  }

  lemma {:induction false} RunsKeepCatchingUp(cfg: Config, rows: seq<Row>, size: nat, acts: seq<Action>)
    requires LogSource(cfg) && TableOk(rows, cfg.schema) && CleanRun(cfg, Initial(rows, size), acts)
    ensures CatchingUp(cfg, ViewOf(rows, PrimaryKeys(cfg.schema)), RunAll(cfg, Initial(rows, size), acts))
  {
    if acts == [] {
      assert cfg.log[..0] == [];
    } else {
      RunsKeepCatchingUp(cfg, rows, size, Front(acts));
      StepCatchesUp(cfg, ViewOf(rows, PrimaryKeys(cfg.schema)), RunAll(cfg, Initial(rows, size), Front(acts)),
        Last(acts));
    }
  }

  /** The furthest position the source has reached so far, in this run or an earlier one. */
  function Furthest(cfg: Config, w0: World, acts: seq<Action>): nat {
    if acts == [] then w0.pos else Max(Furthest(cfg, w0, Front(acts)), RunAll(cfg, w0, acts).pos)
  }

  /** No flush has touched, and no run has read, past the furthest position reached. */
  lemma {:induction false} MarksWereReached(cfg: Config, rows: seq<Row>, size: nat, acts: seq<Action>)
    ensures var w, f := RunAll(cfg, Initial(rows, size), acts), Furthest(cfg, Initial(rows, size), acts);
            w.pos <= f && w.high <= f && w.run.top <= f
  {
    if acts != [] {
      MarksWereReached(cfg, rows, size, Front(acts));
      StepReaches(cfg, RunAll(cfg, Initial(rows, size), Front(acts)), Last(acts),
        Furthest(cfg, Initial(rows, size), Front(acts)));
    }
  }

  lemma StepReaches(cfg: Config, w: World, a: Action, f: nat)
    requires w.pos <= f && w.high <= f && w.run.top <= f
    ensures var v := Step(cfg, w, a); v.high <= Max(f, v.pos) && v.run.top <= Max(f, v.pos)
  {
  }

  /** Crash-replay convergence: with crashes at any point, even between a sink's own operations, once
      a run with an empty batch stands at or past every position an earlier flush touched, the table
      is the one-by-one fold of the stream up to there, with unique keys; so it is at the furthest
      position reached, and at the end of the stream. */
  lemma CrashReplayConverges(cfg: Config, rows: seq<Row>, size: nat, acts: seq<Action>)
    requires LogSource(cfg) && TableOk(rows, cfg.schema) && CleanRun(cfg, Initial(rows, size), acts)
    ensures var w, pks := RunAll(cfg, Initial(rows, size), acts), PrimaryKeys(cfg.schema);
            && TableOk(w.rows, cfg.schema) && (w.running ==> w.pos <= |cfg.log|)
            && (w.running && w.batch == [] && w.pos >= w.high && w.pos == w.run.top ==>
                  ViewOf(w.rows, pks) == Replay(ViewOf(rows, pks), cfg.log[..w.pos], cfg.schema))
            && (w.running && w.batch == [] && w.pos == Furthest(cfg, Initial(rows, size), acts) ==>
                  ViewOf(w.rows, pks) == Replay(ViewOf(rows, pks), cfg.log[..w.pos], cfg.schema))
            && (w.running && w.batch == [] && w.pos == |cfg.log| ==>
                  ViewOf(w.rows, pks) == Replay(ViewOf(rows, pks), cfg.log, cfg.schema))
  {
    var w, m0 := RunAll(cfg, Initial(rows, size), acts), ViewOf(rows, PrimaryKeys(cfg.schema));
    RunsKeepCatchingUp(cfg, rows, size, acts);
    MarksWereReached(cfg, rows, size, acts);
    if w.running && w.batch == [] {
      assert EventsOf(w.batch) == [];
      if w.pos >= w.high && w.pos == w.run.top {
        AgreesAtFrontier(cfg, m0, Promised(cfg, w), w.pos);
      }
      if w.pos == |cfg.log| {
        AgreesAtFrontier(cfg, m0, Promised(cfg, w), w.pos);
        assert cfg.log[..w.pos] == cfg.log;
      }
    }
  }
}
