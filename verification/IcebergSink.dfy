// Mode B: delete every touched key, then append the deduplicated upserts.
module IcebergSink {
  import opened Prelude
  import opened Events
  import opened TargetTable
  import opened Batches

  /** The superseded image whose key an event deletes. */
  function Superseded(e: Event): Option<Row> {
    if Truthy(e.before) then e.before
    else if Truthy(e.after) then e.after
    else None
  }

  /** Equality conditions on the key columns present in the image. */
  function PresentKeys(row: Row, pks: seq<string>): Where {
    if pks == [] then []
    else (if pks[0] in row then [(pks[0], row[pks[0]])] else []) + PresentKeys(row, pks[1..])
  }

  function DeleteOpsFor(rowsToDelete: seq<Row>, pks: seq<string>): seq<TableOp> {
    if rowsToDelete == [] then []
    else DeleteOpsFor(Front(rowsToDelete), pks)
         + (var cond := PresentKeys(Last(rowsToDelete), pks); if cond != [] then [DeleteWhere(cond)] else [])
  }

  function SupersededRows(es: seq<Event>): seq<Row> {
    if es == [] then []
    else SupersededRows(Front(es)) + (if Superseded(Last(es)).Some? then [Superseded(Last(es)).value] else [])
  }

  function ImageRows(es: seq<Event>, schema: seq<Column>): seq<Row> {
    if es == [] then []
    else
      var e := Last(es);
      ImageRows(Front(es), schema)
      + (if (if e.op.Delete? then e.before else e.after).Some? then [Stored(e, schema)] else [])
  }

  function AppendIfAny(rows: seq<Row>): seq<TableOp> {
    if rows == [] then [] else [Append(rows)]
  }

  /** The row-level operations issued for one table's share of a batch, in order. */
  function Plan(es: seq<Event>, schema: seq<Column>): seq<TableOp> {
    var pks := PrimaryKeys(schema);
    if pks == [] then AppendIfAny(ImageRows(es, schema))
    else
      DeleteOpsFor(SupersededRows(Deletes(es)) + SupersededRows(Upserts(es)), pks)
      + AppendIfAny(StoredAll(ScanDedup(Upserts(es), pks), schema))
  }

  /** An Iceberg table opened for one write. */
  class Table {
    var rows: seq<Row>

    constructor (rows: seq<Row>)
      ensures this.rows == rows
    {
      this.rows := rows;
    }

    /** Equality delete. A NULL literal is refused by the library and the error is swallowed. */
    method Delete(cond: Where)
      modifies this
      ensures rows == DeleteRows(old(rows), cond)
    {
      rows := DeleteRows(rows, cond);
    }

    method AppendRows(more: seq<Row>)
      modifies this
      ensures rows == old(rows) + more
    {
      rows := rows + more;
    }

    method WriteAppend(es: seq<Event>, schema: seq<Column>)
      modifies this
      ensures rows == ExecAll(old(rows), AppendIfAny(ImageRows(es, schema)), PrimaryKeys(schema))
    {
      var more := [];
      for i := 0 to |es|
        invariant more == ImageRows(es[..i], schema)
      {
        assert Front(es[..i + 1]) == es[..i] && Last(es[..i + 1]) == es[i];
        if (if es[i].op.Delete? then es[i].before else es[i].after).Some? {
          more := more + [Stored(es[i], schema)];
        }
      }
      assert es[..|es|] == es;
      if more != [] {
        AppendRows(more);
        assert Front(AppendIfAny(more)) == [];
      }
    }

    method WriteMerge(es: seq<Event>, schema: seq<Column>)
      modifies this
      ensures rows == ExecAll(old(rows), Plan(es, schema), PrimaryKeys(schema))
    {
      var pks := PrimaryKeys(schema);
      if pks == [] {
        WriteAppend(es, schema);
        return;
      }
      var upserts, deletes := Upserts(es), Deletes(es);
      var fromDeletes := CollectSuperseded(deletes);
      var fromUpserts := CollectSuperseded(upserts);
      DeleteEach(fromDeletes + fromUpserts, pks);
      FiltersMembers(es);
      var deduped := DedupByScan(upserts, pks);
      if deduped != [] {
        AppendRows(StoredAll(deduped, schema));
      }
      ghost var app := AppendIfAny(StoredAll(deduped, schema));
      assert app != [] ==> Front(app) == [];
      ExecConcat(old(rows), DeleteOpsFor(fromDeletes + fromUpserts, pks), app, pks);
    }

    method DeleteEach(rowsToDelete: seq<Row>, pks: seq<string>)
      modifies this
      ensures rows == ExecAll(old(rows), DeleteOpsFor(rowsToDelete, pks), pks)
    {
      for i := 0 to |rowsToDelete|
        invariant rows == ExecAll(old(rows), DeleteOpsFor(rowsToDelete[..i], pks), pks)
      {
        var exprs := PresentKeys(rowsToDelete[i], pks);
        var prefix := rowsToDelete[..i];
        assert Front(rowsToDelete[..i + 1]) == prefix && Last(rowsToDelete[..i + 1]) == rowsToDelete[i];
        if exprs != [] {
          Delete(exprs);
          assert Front(DeleteOpsFor(rowsToDelete[..i + 1], pks)) == DeleteOpsFor(prefix, pks);
        } else {
          assert DeleteOpsFor(rowsToDelete[..i + 1], pks) == DeleteOpsFor(prefix, pks);
        }
      }
      assert rowsToDelete[..|rowsToDelete|] == rowsToDelete;
    }
  }

  method CollectSuperseded(es: seq<Event>) returns (out: seq<Row>)
    ensures out == SupersededRows(es)
  {
    out := [];
    for i := 0 to |es|
      invariant out == SupersededRows(es[..i])
    {
      assert Front(es[..i + 1]) == es[..i] && Last(es[..i + 1]) == es[i];
      if Truthy(es[i].before) {
        out := out + [es[i].before.value];
      } else if Truthy(es[i].after) {
        out := out + [es[i].after.value];
      }
    }
    assert es[..|es|] == es;
  }

  lemma HasEventCons(ev: Event, rest: seq<Event>, pks: seq<string>)
    ensures forall q :: HasEvent([ev] + rest, q, pks) <==> q == EventKey(ev, pks) || HasEvent(rest, q, pks)
  {
    forall q ensures HasEvent([ev] + rest, q, pks) <==> q == EventKey(ev, pks) || HasEvent(rest, q, pks) {
      if HasEvent(rest, q, pks) {
        var j :| 0 <= j < |rest| && EventKey(rest[j], pks) == q;
        assert ([ev] + rest)[j + 1] == rest[j];
      }
      assert ([ev] + rest)[0] == ev;
    }
  }

  lemma ReversedSnoc(s: seq<Event>, ev: Event)
    ensures Reversed(s + [ev]) == [ev] + Reversed(s)
  {
    assert Front(s + [ev]) == s;
  }

  /** Scan from the end, skip keys already seen, and reverse what was kept. */
  method DedupByScan(upserts: seq<Event>, pks: seq<string>) returns (deduped: seq<Event>)
    requires forall e :: e in upserts ==> !e.op.Delete?
    ensures deduped == ScanDedup(upserts, pks)
  {
    var seen: set<Key>, kept: seq<Event> := {}, [];
    var i := |upserts|;
    while i > 0
      invariant 0 <= i <= |upserts|
      invariant Reversed(kept) == ScanDedup(upserts[i..], pks)
      invariant forall k :: k in seen <==> HasEvent(ScanDedup(upserts[i..], pks), k, pks)
    {
      i := i - 1;
      var ev := upserts[i];
      assert upserts[i..][1..] == upserts[i + 1..];
      assert ev in upserts;
      if ev.after.Some? {
        var k := KeyOf(ev.after.value, pks);
        if k !in seen {
          ghost var rest := ScanDedup(upserts[i + 1..], pks);
          seen := seen + {k};
          HasEventCons(ev, rest, pks);
          ReversedSnoc(kept, ev);
          kept := kept + [ev];
        }
      }
    }
    assert upserts[0..] == upserts;
    deduped := Reversed(kept);
  }

  function Reversed(s: seq<Event>): seq<Event> {
    if s == [] then [] else [Last(s)] + Reversed(Front(s))
  }

  class Sink {
    var tables: map<string, seq<Row>>
    const appendMode: bool

    constructor (appendMode: bool)
      ensures tables == map[] && this.appendMode == appendMode
    {
      tables := map[];
      this.appendMode := appendMode;
    }

    function Rows(table: string): seq<Row>
      reads this
    {
      RowsIn(tables, table)
    }

    /** A table's rows after its share of a batch. */
    function Written(prior: seq<Row>, es: seq<Event>): seq<Row> {
      if es == [] then prior
      else
        var schema := es[0].schema;
        ExecAll(prior, if appendMode then AppendIfAny(ImageRows(es, schema)) else Plan(es, schema), PrimaryKeys(schema))
    }

    /** Every table's rows after the whole batch. */
    ghost function WrittenBy(start: map<string, seq<Row>>, events: seq<Event>): string -> seq<Row> {
      t => Written(RowsIn(start, t), OfTable(events, t))
    }

    /** Every table of the batch runs its plan on its own share of the events; nothing else changes. */
    method WriteBatch(events: seq<Event>)
      modifies this
      ensures forall t :: RowsIn(tables, t) == Written(RowsIn(old(tables), t), OfTable(events, t))
      ensures forall t :: t in tables <==> t in old(tables) || OfTable(events, t) != []
      ensures forall t :: events != [] && OneTable(events, t) ==>
                var schema := events[0].schema;
                var plan := if appendMode then AppendIfAny(ImageRows(events, schema)) else Plan(events, schema);
                RowsIn(tables, t) == ExecAll(RowsIn(old(tables), t), plan, PrimaryKeys(schema))
    {
      forall t | OneTable(events, t) { WholeShare(events, t); }
      if events == [] { return; }
      var order, groups := GroupByTable(events);
      WriteGroups(order, groups, events);
    }

    /** The loop over the grouped batch. */
    method WriteGroups(order: seq<string>, groups: map<string, seq<Event>>, ghost events: seq<Event>)
      requires groups.Keys == Tables(order) && Distinct(order)
      requires forall t :: t in groups ==> groups[t] != [] && groups[t] == OfTable(events, t)
      requires forall t :: t !in groups ==> OfTable(events, t) == []
      modifies this
      ensures Progress(old(tables), tables, groups.Keys, WrittenBy(old(tables), events))
    {
      ghost var start, after := tables, WrittenBy(tables, events);
      for i := 0 to |order|
        invariant Progress(start, tables, Tables(order[..i]), after)
      {
        var t := order[i];
        NextTable(order, i);
        ProgressStep(start, tables, Tables(order[..i]), after, t);
        var rows := WriteTable(Rows(t), groups[t]);
        tables := tables[t := rows];
      }
      assert order[..|order|] == order;
    }

    method WriteTable(prior: seq<Row>, es: seq<Event>) returns (rows: seq<Row>)
      requires es != []
      ensures rows == Written(prior, es)
    {
      var table := new Table(prior);
      if appendMode {
        table.WriteAppend(es, es[0].schema);
      } else {
        table.WriteMerge(es, es[0].schema);
      }
      rows := table.rows;
    }
  }

  // ---- Mode B refines sequential replay ----------------------------------------------------

  /** What a batch leaves at a key: its last upsert if it has one, else deleted if a delete names it. */
  function EffectB(es: seq<Event>, k: Key, prior: Option<Row>, schema: seq<Column>): Option<Row> {
    var pks := PrimaryKeys(schema);
    var u := LastOf(Upserts(es), k, pks);
    if u.Some? then Some(Stored(u.value, schema))
    else if LastOf(Deletes(es), k, pks).Some? then None
    else prior
  }

  /** The batch condition on one key: a key whose last event deletes it was not upserted at all. */
  predicate InOrderB(es: seq<Event>, k: Key, pks: seq<string>) {
    var l := LastOf(es, k, pks);
    l.Some? && l.value.op.Delete? ==> LastOf(Upserts(es), k, pks).None?
  }

  lemma {:induction false} PresentKeysComplete(row: Row, pks: seq<string>)
    requires HasKey(row, pks)
    ensures IsKeyCondition(PresentKeys(row, pks), KeyOf(row, pks), pks)
  {
    HasKeyNonNull(row, pks);
    if pks != [] {
      assert pks[0] in row;
      forall i | 0 <= i < |pks[1..]| ensures pks[1..][i] in row && row[pks[1..][i]] != Null {
        assert pks[1..][i] == pks[i + 1];
      }
      PresentKeysComplete(row, pks[1..]);
    }
  }

  /** The superseded image carries the event's own key. */
  lemma SupersededKey(e: Event, schema: seq<Column>)
    requires KeyedSchema(schema) && WellFormed(e, schema)
    ensures var pks := PrimaryKeys(schema);
            Superseded(e).Some? && HasKey(Superseded(e).value, pks)
              && KeyOf(Superseded(e).value, pks) == EventKey(e, pks)
  {
    var pks := PrimaryKeys(schema);
    assert HasKey(Image(e), pks);
    assert pks[0] in Image(e);
  }

  lemma {:induction false} DeletesSound(rows: seq<Row>, es: seq<Event>, schema: seq<Column>)
    requires KeyedSchema(schema) && TableOk(rows, schema)
    requires forall e :: e in es ==> WellFormed(e, schema)
    ensures var pks := PrimaryKeys(schema);
            var r := ExecAll(rows, DeleteOpsFor(SupersededRows(es), pks), pks);
            && TableOk(r, schema)
            && |DeleteOpsFor(SupersededRows(es), pks)| == |es|
            && forall k :: Find(r, k, pks) == if LastOf(es, k, pks).Some? then None else Find(rows, k, pks)
  {
    var pks := PrimaryKeys(schema);
    if es != [] {
      var f, e := Front(es), Last(es);
      assert es == f + [e];
      DeletesSound(rows, f, schema);
      SupersededKey(e, schema);
      var row := Superseded(e).value;
      PresentKeysComplete(row, pks);
      assert Front(SupersededRows(es)) == SupersededRows(f) && Last(SupersededRows(es)) == row;
      var ops, cond := DeleteOpsFor(SupersededRows(f), pks), PresentKeys(row, pks);
      assert DeleteOpsFor(SupersededRows(es), pks) == ops + [DeleteWhere(cond)];
      assert Front(ops + [DeleteWhere(cond)]) == ops;
      DeleteSound(ExecAll(rows, ops, pks), cond, EventKey(e, pks), schema);
    }
  }

  lemma {:induction false} DeleteOpsConcat(a: seq<Row>, b: seq<Row>, pks: seq<string>)
    ensures DeleteOpsFor(a + b, pks) == DeleteOpsFor(a, pks) + DeleteOpsFor(b, pks)
  {
    if b == [] {
      assert a + b == a;
    } else {
      assert Front(a + b) == a + Front(b) && Last(a + b) == Last(b);
      DeleteOpsConcat(a, Front(b), pks);
    }
  }

  /** After the deletes, no touched key is stored. */
  lemma ClearsTouchedKeys(rows: seq<Row>, es: seq<Event>, schema: seq<Column>)
    requires KeyedSchema(schema) && TableOk(rows, schema) && WellFormedBatch(es, schema)
    ensures var pks := PrimaryKeys(schema);
            var r := ExecAll(rows, DeleteOpsFor(SupersededRows(Deletes(es)) + SupersededRows(Upserts(es)), pks), pks);
            && TableOk(r, schema)
            && forall k :: Find(r, k, pks) == if LastOf(es, k, pks).Some? then None else Find(rows, k, pks)
  {
    var pks := PrimaryKeys(schema);
    FiltersMembers(es);
    var a, b := SupersededRows(Deletes(es)), SupersededRows(Upserts(es));
    DeleteOpsConcat(a, b, pks);
    ExecConcat(rows, DeleteOpsFor(a, pks), DeleteOpsFor(b, pks), pks);
    DeletesSound(rows, Deletes(es), schema);
    DeletesSound(ExecAll(rows, DeleteOpsFor(a, pks), pks), Upserts(es), schema);
    forall k { LastSplits(es, k, pks); }
  }

  /** The rows appended: the last upsert of every key, once. */
  function Appended(es: seq<Event>, schema: seq<Column>): seq<Row> {
    StoredAll(ScanDedup(Upserts(es), PrimaryKeys(schema)), schema)
  }

  lemma AppendedSound(es: seq<Event>, schema: seq<Column>)
    requires KeyedSchema(schema) && WellFormedBatch(es, schema)
    ensures TableOk(Appended(es, schema), schema)
    ensures forall k :: Find(Appended(es, schema), k, PrimaryKeys(schema))
                     == var u := LastOf(Upserts(es), k, PrimaryKeys(schema));
                        if u.Some? then Some(Stored(u.value, schema)) else None
  {
    var pks, ups := PrimaryKeys(schema), Upserts(es);
    FiltersMembers(es);
    forall e | e in ups ensures e.after.Some? {
      var i :| 0 <= i < |es| && es[i] == e;
    }
    AllImages(ups);
    ScanDedupIsLast(ups, pks);
    StoredOk(ScanDedup(ups, pks), schema);
    forall k ensures Find(Appended(es, schema), k, pks)
                     == var u := LastOf(ups, k, pks); if u.Some? then Some(Stored(u.value, schema)) else None {
      FindStored(ScanDedup(ups, pks), k, schema);
    }
  }

  /** The deletes have made room for every row appended. */
  lemma ClearedForAppend(rows: seq<Row>, es: seq<Event>, schema: seq<Column>)
    requires KeyedSchema(schema) && TableOk(rows, schema) && WellFormedBatch(es, schema)
    ensures var pks := PrimaryKeys(schema);
            var dels := DeleteOpsFor(SupersededRows(Deletes(es)) + SupersededRows(Upserts(es)), pks);
            NoneStored(ExecAll(rows, dels, pks), Appended(es, schema), pks)
  {
    var pks, src := PrimaryKeys(schema), Appended(es, schema);
    ClearsTouchedKeys(rows, es, schema);
    AppendedSound(es, schema);
    forall i | 0 <= i < |src| ensures LastOf(es, KeyOf(src[i], pks), pks).Some? {
      var _ := FindIndex(src, KeyOf(src[i], pks), pks);
      LastSplits(es, KeyOf(src[i], pks), pks);
    }
  }

  /** After a batch every key holds its last upsert if the batch has one, else is absent if deleted,
      else is unchanged; the table keeps unique keys. */
  lemma WritesEffectB(rows: seq<Row>, es: seq<Event>, schema: seq<Column>)
    requires KeyedSchema(schema) && TableOk(rows, schema) && WellFormedBatch(es, schema)
    ensures var pks, r := PrimaryKeys(schema), ExecAll(rows, Plan(es, schema), PrimaryKeys(schema));
            && TableOk(r, schema)
            && forall k :: Find(r, k, pks) == EffectB(es, k, Find(rows, k, pks), schema)
  {
    var pks, src := PrimaryKeys(schema), Appended(es, schema);
    var dels := DeleteOpsFor(SupersededRows(Deletes(es)) + SupersededRows(Upserts(es)), pks);
    var cleared := ExecAll(rows, dels, pks);
    ClearsTouchedKeys(rows, es, schema);
    AppendedSound(es, schema);
    ClearedForAppend(rows, es, schema);
    AppendSound(cleared, src, schema);
    ExecConcat(rows, dels, AppendIfAny(src), pks);
    assert ExecAll(rows, Plan(es, schema), pks) == cleared + src by {
      assert src != [] ==> Front(AppendIfAny(src)) == [];
    }
    forall k ensures Find(cleared + src, k, pks) == EffectB(es, k, Find(rows, k, pks), schema) {
      FindConcat(cleared, src, k, pks);
      LastSplits(es, k, pks);
    }
  }

  /** Mode B equals one-by-one replay exactly when no key that ends deleted was upserted. */
  lemma ReplaysExactlyB(rows: seq<Row>, es: seq<Event>, schema: seq<Column>)
    requires KeyedSchema(schema) && TableOk(rows, schema) && WellFormedBatch(es, schema)
    ensures var pks := PrimaryKeys(schema);
            ViewOf(ExecAll(rows, Plan(es, schema), pks), pks) == Replay(ViewOf(rows, pks), es, schema)
            <==> forall k :: InOrderB(es, k, pks)
  {
    var pks := PrimaryKeys(schema);
    var after, m := ExecAll(rows, Plan(es, schema), pks), Replay(ViewOf(rows, pks), es, schema);
    WritesEffectB(rows, es, schema);
    forall k ensures Lookup(ViewOf(after, pks), k) == Lookup(m, k) <==> InOrderB(es, k, pks) {
      ViewLookup(after, k, pks);
      ViewLookup(rows, k, pks);
      ReplayAt(ViewOf(rows, pks), es, k, schema);
      LastSplits(es, k, pks);
    }
    if forall k :: InOrderB(es, k, pks) {
      SameLookups(ViewOf(after, pks), m);
    }
  }

  /** Writing a batch twice leaves the same bag of rows as writing it once. */
  lemma RewriteIsIdempotentB(rows: seq<Row>, es: seq<Event>, schema: seq<Column>)
    requires KeyedSchema(schema) && TableOk(rows, schema) && WellFormedBatch(es, schema)
    ensures var pks := PrimaryKeys(schema);
            var once := ExecAll(rows, Plan(es, schema), pks);
            multiset(ExecAll(once, Plan(es, schema), pks)) == multiset(once)
  {
    var pks := PrimaryKeys(schema);
    var once := ExecAll(rows, Plan(es, schema), pks);
    WritesEffectB(rows, es, schema);
    WritesEffectB(once, es, schema);
    ViewDeterminesBag(ExecAll(once, Plan(es, schema), pks), once, pks);
  }
}
