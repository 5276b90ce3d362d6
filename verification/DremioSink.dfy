// Mode A: MERGE the deduplicated upserts, then run the deletes one by one.
module DremioSink {
  import opened Prelude
  import opened Events
  import opened TargetTable
  import opened Batches

  function KeyCondition(row: Row, pks: seq<string>): Where {
    seq(|pks|, i requires 0 <= i < |pks| => (pks[i], Get(row, pks[i])))
  }

  function DeleteOps(deletes: seq<Event>, pks: seq<string>): seq<TableOp> {
    if deletes == [] then []
    else DeleteOps(Front(deletes), pks)
         + (if pks != [] && Truthy(Last(deletes).before)
            then [DeleteWhere(KeyCondition(OrEmpty(Last(deletes).before), pks))] else [])
  }

  lemma DeleteOpsSnoc(deletes: seq<Event>, pks: seq<string>)
    requires deletes != [] && pks != [] && Truthy(Last(deletes).before)
    ensures var ops, op := DeleteOps(deletes, pks), DeleteWhere(KeyCondition(OrEmpty(Last(deletes).before), pks));
            ops != [] && Front(ops) == DeleteOps(Front(deletes), pks) && Last(ops) == op
  {
  }

  /** The rows left by the first `i` delete events. */
  ghost function AfterDeletes(rows: seq<Row>, deletes: seq<Event>, pks: seq<string>, i: nat): seq<Row>
    requires i <= |deletes|
  {
    ExecAll(rows, DeleteOps(deletes[..i], pks), pks)
  }

  lemma OneMoreDelete(rows: seq<Row>, deletes: seq<Event>, pks: seq<string>, i: nat)
    requires i < |deletes|
    ensures var was, ev := AfterDeletes(rows, deletes, pks, i), deletes[i];
            AfterDeletes(rows, deletes, pks, i + 1)
            == if pks != [] && Truthy(ev.before) then DeleteRows(was, KeyCondition(OrEmpty(ev.before), pks)) else was
  {
    var more := deletes[..i + 1];
    assert Front(more) == deletes[..i] && Last(more) == deletes[i];
    if pks != [] && Truthy(deletes[i].before) {
      DeleteOpsSnoc(more, pks);
    } else {
      assert DeleteOps(more, pks) == DeleteOps(deletes[..i], pks);
    }
  }

  function UpsertOps(upserts: seq<Event>, schema: seq<Column>): seq<TableOp> {
    var pks := PrimaryKeys(schema);
    if upserts == [] then []
    else if pks != [] then [Merge(StoredAll(DictDedup(upserts, pks), schema))]
    else seq(|upserts|, i requires 0 <= i < |upserts| => Append([Stored(upserts[i], schema)]))
  }

  /** The SQL statements issued for one table's share of a batch, in order. */
  function Plan(es: seq<Event>, schema: seq<Column>): seq<TableOp> {
    UpsertOps(Upserts(es), schema) + DeleteOps(Deletes(es), PrimaryKeys(schema))
  }

  /** A table's rows after its share of a batch. */
  function Written(prior: seq<Row>, es: seq<Event>): seq<Row> {
    if es == [] then prior else ExecAll(prior, Plan(es, es[0].schema), PrimaryKeys(es[0].schema))
  }

  /** Every table's rows after the whole batch. */
  ghost function WrittenBy(start: map<string, seq<Row>>, events: seq<Event>): string -> seq<Row> {
    t => Written(RowsIn(start, t), OfTable(events, t))
  }

  lemma AllWritten(start: map<string, seq<Row>>, now: map<string, seq<Row>>, done: set<string>, events: seq<Event>)
    requires Progress(start, now, done, WrittenBy(start, events))
    requires forall t :: t in done <==> OfTable(events, t) != []
    ensures forall t :: RowsIn(now, t) == Written(RowsIn(start, t), OfTable(events, t))
    ensures forall t :: t in now <==> t in start || OfTable(events, t) != []
  {
  }

  lemma HeadOfTable(events: seq<Event>, t: string)
    requires OfTable(events, t) != []
    ensures OfTable(events, t)[0] in events
  {
    OfTableMembers(events, t);
    assert OfTable(events, t)[0] in OfTable(events, t);
  }

  class Sink {
    var tables: map<string, seq<Row>>

    constructor ()
      ensures tables == map[]
    {
      tables := map[];
    }

    function Rows(table: string): seq<Row>
      reads this
    {
      RowsIn(tables, table)
    }

    method EnsureTable(table: string)
      modifies this
      ensures tables == old(tables)[table := old(Rows(table))]
    {
      tables := tables[table := Rows(table)];
    }

    /** MERGE INTO. The engine rejects a source in which two rows match one target row. */
    method MergeInto(table: string, src: seq<Row>, pks: seq<string>)
      requires table in tables && UniqueKeys(src, pks)
      modifies this
      ensures tables == old(tables)[table := MergeRows(old(tables)[table], src, pks)]
    {
      tables := tables[table := MergeRows(tables[table], src, pks)];
    }

    method InsertInto(table: string, row: Row)
      requires table in tables
      modifies this
      ensures tables == old(tables)[table := old(tables)[table] + [row]]
    {
      tables := tables[table := tables[table] + [row]];
    }

    method DeleteFrom(table: string, cond: Where)
      requires table in tables
      modifies this
      ensures tables == old(tables)[table := DeleteRows(old(tables)[table], cond)]
    {
      tables := tables[table := DeleteRows(tables[table], cond)];
    }

    /** Every table of the batch runs its plan on its own share of the events; nothing else changes.
        Source columns must not use the reserved metadata names. */
    method WriteBatch(events: seq<Event>)
      requires forall e :: e in events ==> PlainSchema(e.schema)
      modifies this
      ensures forall t :: RowsIn(tables, t) == Written(RowsIn(old(tables), t), OfTable(events, t))
      ensures forall t :: t in tables <==> t in old(tables) || OfTable(events, t) != []
      ensures forall t :: events != [] && OneTable(events, t) ==>
                var schema := events[0].schema;
                RowsIn(tables, t) == ExecAll(RowsIn(old(tables), t), Plan(events, schema), PrimaryKeys(schema))
    {
      forall t | OneTable(events, t) { WholeShare(events, t); }
      if events == [] { return; }
      var order, groups := GroupByTable(events);
      WriteGroups(order, groups, events);
      AllWritten(old(tables), tables, groups.Keys, events);
    }

    /** The loop over the grouped batch. */
    method WriteGroups(order: seq<string>, groups: map<string, seq<Event>>, ghost events: seq<Event>)
      requires forall e :: e in events ==> PlainSchema(e.schema)
      requires groups.Keys == Tables(order) && Distinct(order)
      requires forall t :: t in groups ==> groups[t] != [] && groups[t] == OfTable(events, t)
      requires forall t :: t !in groups ==> OfTable(events, t) == []
      modifies this
      ensures Progress(old(tables), tables, groups.Keys, WrittenBy(old(tables), events))
    {
      ghost var after := WrittenBy(tables, events);
      for i := 0 to |order|
        invariant Progress(old(tables), tables, Tables(order[..i]), after)
      {
        var t := order[i];
        NextTable(order, i);
        ProgressStep(old(tables), tables, Tables(order[..i]), after, t);
        HeadOfTable(events, t);
        WriteTable(t, groups[t]);
      }
      assert order[..|order|] == order;
    }

    method WriteTable(table: string, es: seq<Event>)
      requires es != [] && PlainSchema(es[0].schema)
      modifies this
      ensures tables == old(tables)[table := Written(old(Rows(table)), es)]
    {
      var schema := es[0].schema;
      EnsureTable(table);
      var upserts, deletes := Upserts(es), Deletes(es);
      WriteUpserts(table, upserts, schema);
      WriteDeletes(table, deletes, PrimaryKeys(schema));
      var pks := PrimaryKeys(schema);
      ExecConcat(old(Rows(table)), UpsertOps(upserts, schema), DeleteOps(deletes, pks), pks);
    }

    method WriteUpserts(table: string, upserts: seq<Event>, schema: seq<Column>)
      requires table in tables && PlainSchema(schema)
      modifies this
      ensures var ops, pks := UpsertOps(upserts, schema), PrimaryKeys(schema);
              tables == old(tables)[table := ExecAll(old(tables)[table], ops, pks)]
    {
      var pks := PrimaryKeys(schema);
      ghost var ops := UpsertOps(upserts, schema);
      if upserts != [] && pks != [] {
        var deduped := DedupByDict(upserts, pks);
        DictDedupIsLast(upserts, pks);
        StoredUnique(deduped, schema);
        MergeInto(table, StoredAll(deduped, schema), pks);
        assert Front(ops) == [];
      } else {
        for i := 0 to |upserts|
          invariant tables == old(tables)[table := ExecAll(old(tables)[table], ops[..i], pks)]
        {
          InsertInto(table, Stored(upserts[i], schema));
          assert Front(ops[..i + 1]) == ops[..i] && Last(ops[..i + 1]) == ops[i];
        }
        assert ops[..|upserts|] == ops;
      }
    }

    method WriteDeletes(table: string, deletes: seq<Event>, pks: seq<string>)
      requires table in tables
      modifies this
      ensures tables == old(tables)[table := ExecAll(old(tables)[table], DeleteOps(deletes, pks), pks)]
    {
      ghost var start, now := tables, tables[table];
      for i := 0 to |deletes|
        invariant now == AfterDeletes(start[table], deletes, pks, i)
        invariant tables == start[table := now]
      {
        var ev := deletes[i];
        OneMoreDelete(start[table], deletes, pks, i);
        if pks != [] && Truthy(ev.before) {
          DeleteFrom(table, KeyCondition(OrEmpty(ev.before), pks));
        }
        now := AfterDeletes(start[table], deletes, pks, i + 1);
      }
      assert deletes[..|deletes|] == deletes;
    }
  }

  /** The dictionary `seen`, whose keys were inserted in the order of `keys`, holds the events `d`. */
  ghost predicate Holds(keys: seq<Key>, seen: map<Key, Event>, d: seq<Event>, pks: seq<string>) {
    && |keys| == |d|
    && (forall k :: k in seen <==> k in keys)
    && forall j :: 0 <= j < |d| ==> keys[j] == EventKey(d[j], pks) && keys[j] in seen && seen[keys[j]] == d[j]
  }

  lemma HoldsStep(keys: seq<Key>, seen: map<Key, Event>, d: seq<Event>, ev: Event, pks: seq<string>)
    requires Holds(keys, seen, d, pks) && DistinctKeys(d, pks)
    ensures var k := EventKey(ev, pks);
            var i := IndexOfKey(d, k, pks);
            && (k in seen <==> i < |d|)
            && Holds(if k in seen then keys else keys + [k], seen[k := ev],
                     if i < |d| then d[i := ev] else d + [ev], pks)
  {
    var k := EventKey(ev, pks);
    var i := IndexOfKey(d, k, pks);
    IndexOfKeyFinds(d, k, pks);
    if i < |d| {
      HoldsOld(keys, seen, d, i, ev, pks);
    } else {
      HoldsNew(keys, seen, d, ev, pks);
    }
  }

  lemma HoldsOld(keys: seq<Key>, seen: map<Key, Event>, d: seq<Event>, i: nat, ev: Event, pks: seq<string>)
    requires Holds(keys, seen, d, pks) && DistinctKeys(d, pks) && i < |d| && EventKey(d[i], pks) == EventKey(ev, pks)
    ensures var k := EventKey(ev, pks); k in seen && Holds(keys, seen[k := ev], d[i := ev], pks)
  {
    assert keys[i] in keys;
  }

  lemma HoldsNew(keys: seq<Key>, seen: map<Key, Event>, d: seq<Event>, ev: Event, pks: seq<string>)
    requires Holds(keys, seen, d, pks) && !HasEvent(d, EventKey(ev, pks), pks)
    ensures var k := EventKey(ev, pks); k !in seen && Holds(keys + [k], seen[k := ev], d + [ev], pks)
  {
  }

  lemma HoldsNext(keys: seq<Key>, seen: map<Key, Event>, events: seq<Event>, i: nat, pks: seq<string>)
    requires i < |events| && Holds(keys, seen, DictDedup(events[..i], pks), pks)
    ensures var k := EventKey(events[i], pks);
            Holds(if k in seen then keys else keys + [k], seen[k := events[i]], DictDedup(events[..i + 1], pks), pks)
  {
    assert Front(events[..i + 1]) == events[..i] && Last(events[..i + 1]) == events[i];
    DictDedupIsLast(events[..i], pks);
    HoldsStep(keys, seen, DictDedup(events[..i], pks), events[i], pks);
  }

  /** `seen[key] = ev` over the batch, then the dictionary's values. */
  method DedupByDict(events: seq<Event>, pks: seq<string>) returns (values: seq<Event>)
    ensures values == DictDedup(events, pks)
  {
    var keys: seq<Key>, seen: map<Key, Event> := [], map[];
    for i := 0 to |events|
      invariant Holds(keys, seen, DictDedup(events[..i], pks), pks)
    {
      var ev := events[i];
      var k := EventKey(ev, pks);
      HoldsNext(keys, seen, events, i, pks);
      if k !in seen {
        keys := keys + [k];
      }
      seen := seen[k := ev];
    }
    assert events[..|events|] == events;
    values := ValuesOf(keys, seen, DictDedup(events, pks), pks);
  }

  method ValuesOf(keys: seq<Key>, seen: map<Key, Event>, ghost d: seq<Event>, pks: seq<string>)
    returns (values: seq<Event>)
    requires Holds(keys, seen, d, pks)
    ensures values == d
  {
    values := seq(|keys|, j requires 0 <= j < |keys| => seen[keys[j]]);
  }

  // ---- Mode A refines sequential replay ----------------------------------------------------

  /** What a batch leaves at a key: deleted if any delete names it, else its last upsert. */
  function EffectA(es: seq<Event>, k: Key, prior: Option<Row>, schema: seq<Column>): Option<Row> {
    var pks := PrimaryKeys(schema);
    var u := LastOf(Upserts(es), k, pks);
    if LastOf(Deletes(es), k, pks).Some? then None
    else if u.Some? then Some(Stored(u.value, schema))
    else prior
  }

  /** The batch condition on one key: a key whose last event upserts it was not deleted at all. */
  predicate InOrderA(es: seq<Event>, k: Key, pks: seq<string>) {
    var l := LastOf(es, k, pks);
    l.Some? && !l.value.op.Delete? ==> LastOf(Deletes(es), k, pks).None?
  }

  lemma UpsertOpsSound(rows: seq<Row>, ups: seq<Event>, schema: seq<Column>)
    requires KeyedSchema(schema) && TableOk(rows, schema)
    requires forall e :: e in ups ==> WellFormed(e, schema) && !e.op.Delete?
    ensures var pks, r := PrimaryKeys(schema), ExecAll(rows, UpsertOps(ups, schema), PrimaryKeys(schema));
            && TableOk(r, schema)
            && forall k :: Find(r, k, pks)
                 == var u := LastOf(ups, k, pks); if u.Some? then Some(Stored(u.value, schema)) else Find(rows, k, pks)
  {
    var pks := PrimaryKeys(schema);
    if ups != [] {
      var d := DictDedup(ups, pks);
      DictDedupIsLast(ups, pks);
      StoredOk(d, schema);
      MergeSound(rows, StoredAll(d, schema), schema);
      assert Front(UpsertOps(ups, schema)) == [];
      forall k { FindStored(d, k, schema); }
    }
  }

  lemma {:induction false} DeleteOpsSound(rows: seq<Row>, dels: seq<Event>, schema: seq<Column>)
    requires KeyedSchema(schema) && TableOk(rows, schema)
    requires forall e :: e in dels ==> WellFormed(e, schema) && e.op.Delete?
    ensures var pks, r := PrimaryKeys(schema), ExecAll(rows, DeleteOps(dels, PrimaryKeys(schema)), PrimaryKeys(schema));
            && TableOk(r, schema)
            && |DeleteOps(dels, pks)| == |dels|
            && forall k :: Find(r, k, pks) == if LastOf(dels, k, pks).Some? then None else Find(rows, k, pks)
  {
    var pks := PrimaryKeys(schema);
    if dels != [] {
      var e := Last(dels);
      assert dels == Front(dels) + [e];
      DeleteOpsSound(rows, Front(dels), schema);
      assert pks[0] in e.before.value;
      HasKeyNonNull(e.before.value, pks);
      var cond := KeyCondition(e.before.value, pks);
      DeleteSound(ExecAll(rows, DeleteOps(Front(dels), pks), pks), cond, EventKey(e, pks), schema);
      DeleteOpsSnoc(dels, pks);
      forall k ensures LastOf(dels, k, pks).Some? <==> k == EventKey(e, pks) || LastOf(Front(dels), k, pks).Some? {
      }
    }
  }

  /** After a batch every key is absent if a delete names it, else holds its last upsert, else is
      unchanged; the table keeps unique keys. */
  lemma WritesEffectA(rows: seq<Row>, es: seq<Event>, schema: seq<Column>)
    requires KeyedSchema(schema) && TableOk(rows, schema) && WellFormedBatch(es, schema)
    ensures var pks, r := PrimaryKeys(schema), ExecAll(rows, Plan(es, schema), PrimaryKeys(schema));
            && TableOk(r, schema)
            && forall k :: Find(r, k, pks) == EffectA(es, k, Find(rows, k, pks), schema)
  {
    var pks := PrimaryKeys(schema);
    FiltersMembers(es);
    UpsertOpsSound(rows, Upserts(es), schema);
    DeleteOpsSound(ExecAll(rows, UpsertOps(Upserts(es), schema), pks), Deletes(es), schema);
    ExecConcat(rows, UpsertOps(Upserts(es), schema), DeleteOps(Deletes(es), pks), pks);
  }

  /** Mode A equals one-by-one replay exactly when no key whose last event upserts it was deleted. */
  lemma ReplaysExactlyA(rows: seq<Row>, es: seq<Event>, schema: seq<Column>)
    requires KeyedSchema(schema) && TableOk(rows, schema) && WellFormedBatch(es, schema)
    ensures var pks := PrimaryKeys(schema);
            ViewOf(ExecAll(rows, Plan(es, schema), pks), pks) == Replay(ViewOf(rows, pks), es, schema)
            <==> forall k :: InOrderA(es, k, pks)
  {
    var pks := PrimaryKeys(schema);
    var after, m := ExecAll(rows, Plan(es, schema), pks), Replay(ViewOf(rows, pks), es, schema);
    WritesEffectA(rows, es, schema);
    forall k ensures Lookup(ViewOf(after, pks), k) == Lookup(m, k) <==> InOrderA(es, k, pks) {
      ViewLookup(after, k, pks);
      ViewLookup(rows, k, pks);
      ReplayAt(ViewOf(rows, pks), es, k, schema);
      LastSplits(es, k, pks);
    }
    if forall k :: InOrderA(es, k, pks) {
      SameLookups(ViewOf(after, pks), m);
    }
  }

  /** Writing a batch twice leaves the same bag of rows as writing it once. */
  lemma RewriteIsIdempotentA(rows: seq<Row>, es: seq<Event>, schema: seq<Column>)
    requires KeyedSchema(schema) && TableOk(rows, schema) && WellFormedBatch(es, schema)
    ensures var pks := PrimaryKeys(schema);
            var once := ExecAll(rows, Plan(es, schema), pks);
            multiset(ExecAll(once, Plan(es, schema), pks)) == multiset(once)
  {
    var pks := PrimaryKeys(schema);
    var once := ExecAll(rows, Plan(es, schema), pks);
    WritesEffectA(rows, es, schema);
    WritesEffectA(once, es, schema);
    ViewDeterminesBag(ExecAll(once, Plan(es, schema), pks), once, pks);
  }
}
