// What the rows that the sinks write say about their events, column by column.
module StoredRows {
  import opened Prelude
  import opened Events
  import opened TargetTable
  import A = DremioSink
  import B = IcebergSink

  /** The row of an event: the image that carries its values, the operation's name, the source and the
      time, and nothing else. A column the image does not have is null. */
  predicate RowTells(row: Row, e: Event, schema: seq<Column>) {
    && (forall c :: c in schema ==> c.name in row && row[c.name] == ColumnValue(e, c.name))
    && (forall n :: n in row ==> n in {"_cdc_op", "_cdc_source", "_cdc_ts"} || exists c :: c in schema && c.name == n)
    && "_cdc_op" in row && row["_cdc_op"] == Str(match e.op
                                               case Insert => "insert"
                                               case Update => "update"
                                               case Delete => "delete"
                                               case Snapshot => "snapshot")
    && "_cdc_source" in row && row["_cdc_source"] == Str(e.source)
    && "_cdc_ts" in row && row["_cdc_ts"] == Timestamp(e.ts)
  }

  function ColumnValue(e: Event, name: string): Value {
    match if e.op.Delete? then e.before else e.after
    case None => Null
    case Some(image) => if name in image then image[name] else Null
  }

  lemma StoredTells(e: Event, schema: seq<Column>)
    requires PlainSchema(schema)
    ensures RowTells(Stored(e, schema), e, schema)
  {
    var row := Stored(e, schema);
    forall c | c in schema ensures c.name in row && row[c.name] == ColumnValue(e, c.name) {
      assert c.name in ColumnNames(schema) && c.name !in META;
    }
  }

  /** Mode A: where the last upsert decides, the row found tells its event. */
  lemma WrittenRowA(rows: seq<Row>, es: seq<Event>, k: Key, schema: seq<Column>)
    requires KeyedSchema(schema) && TableOk(rows, schema) && WellFormedBatch(es, schema)
    requires LastOf(Upserts(es), k, PrimaryKeys(schema)).Some? && LastOf(Deletes(es), k, PrimaryKeys(schema)).None?
    ensures var pks := PrimaryKeys(schema);
            var r := Find(ExecAll(rows, A.Plan(es, schema), pks), k, pks);
            r.Some? && RowTells(r.value, LastOf(Upserts(es), k, pks).value, schema)
  {
    A.WritesEffectA(rows, es, schema);
    StoredTells(LastOf(Upserts(es), k, PrimaryKeys(schema)).value, schema);
  }

  /** Mode B: wherever there is an upsert, the row found tells the last one. */
  lemma WrittenRowB(rows: seq<Row>, es: seq<Event>, k: Key, schema: seq<Column>)
    requires KeyedSchema(schema) && TableOk(rows, schema) && WellFormedBatch(es, schema)
    requires LastOf(Upserts(es), k, PrimaryKeys(schema)).Some?
    ensures var pks := PrimaryKeys(schema);
            var r := Find(ExecAll(rows, B.Plan(es, schema), pks), k, pks);
            r.Some? && RowTells(r.value, LastOf(Upserts(es), k, pks).value, schema)
  {
    B.WritesEffectB(rows, es, schema);
    StoredTells(LastOf(Upserts(es), k, PrimaryKeys(schema)).value, schema);
  }

  // ---- Appended rows ---------------------------------------------------------------------------------------

  /** `more` are the rows of the chosen events, one each, in order. */
  predicate RowsTell(more: seq<Row>, es: seq<Event>, ix: seq<nat>, schema: seq<Column>) {
    && Increasing(ix, |es|) && |more| == |ix|
    && forall j :: 0 <= j < |ix| ==> RowTells(more[j], es[ix[j]], schema)
  }

  lemma RowsTellSnoc(more: seq<Row>, es: seq<Event>, ix: seq<nat>, r: Row, schema: seq<Column>)
    requires es != [] && RowsTell(more, Front(es), ix, schema)
    ensures RowsTell(more, es, ix, schema)
    ensures RowTells(r, Last(es), schema) ==> RowsTell(more + [r], es, ix + [|es| - 1], schema)
  {
    IncreasingSnoc(ix, |es| - 1);
    assert forall i :: 0 <= i < |es| - 1 ==> Front(es)[i] == es[i];
  }

  predicate HasImage(e: Event) {
    if e.op.Delete? then e.before.Some? else e.after.Some?
  }

  lemma OneMoreImage(es: seq<Event>, f: seq<nat>, schema: seq<Column>)
    requires PlainSchema(schema) && es != [] && RowsTell(B.ImageRows(Front(es), schema), Front(es), f, schema)
    ensures RowsTell(B.ImageRows(es, schema), es, if HasImage(Last(es)) then f + [|es| - 1] else f, schema)
  {
    var more, r := B.ImageRows(Front(es), schema), Stored(Last(es), schema);
    StoredTells(Last(es), schema);
    RowsTellSnoc(more, es, f, r, schema);
    assert B.ImageRows(es, schema) == if HasImage(Last(es)) then more + [r] else more;
  }

  lemma {:induction false} ImageRowsTell(es: seq<Event>, schema: seq<Column>) returns (ix: seq<nat>)
    requires PlainSchema(schema)
    ensures RowsTell(B.ImageRows(es, schema), es, ix, schema)
    ensures forall i :: 0 <= i < |es| ==> (i in ix <==> HasImage(es[i]))
  {
    if es == [] {
      ix := [];
    } else {
      var f := ImageRowsTell(Front(es), schema);
      OneMoreImage(es, f, schema);
      ix := NextImage(es, f);
    }
  }

  lemma NextImage(es: seq<Event>, f: seq<nat>) returns (ix: seq<nat>)
    requires es != [] && Increasing(f, |es| - 1)
    requires forall i :: 0 <= i < |Front(es)| ==> (i in f <==> HasImage(Front(es)[i]))
    ensures ix == if HasImage(Last(es)) then f + [|es| - 1] else f
    ensures forall i :: 0 <= i < |es| ==> (i in ix <==> HasImage(es[i]))
  {
    ix := NextIndex(f, |es| - 1, HasImage(Last(es)));
    forall i | 0 <= i < |es| ensures i in ix <==> HasImage(es[i]) {
      if i < |es| - 1 { assert Front(es)[i] == es[i]; }
    }
  }

  /** Append mode, and Mode B without a key: one row for every event with an image, in order, behind the
      rows there were. */
  lemma AppendsImages(rows: seq<Row>, es: seq<Event>, schema: seq<Column>) returns (more: seq<Row>, ix: seq<nat>)
    requires PlainSchema(schema)
    ensures ExecAll(rows, B.AppendIfAny(B.ImageRows(es, schema)), PrimaryKeys(schema)) == rows + more
    ensures PrimaryKeys(schema) == [] ==> ExecAll(rows, B.Plan(es, schema), []) == rows + more
    ensures RowsTell(more, es, ix, schema) && forall i :: 0 <= i < |es| ==> (i in ix <==> HasImage(es[i]))
  {
    more := B.ImageRows(es, schema);
    ix := ImageRowsTell(es, schema);
    var ops := B.AppendIfAny(more);
    if more != [] { assert Front(ops) == []; } else { assert rows + [] == rows; }
  }

  lemma UpsertRowsTell(es: seq<Event>, schema: seq<Column>) returns (ix: seq<nat>)
    requires PlainSchema(schema)
    ensures RowsTell(StoredAll(Upserts(es), schema), es, ix, schema)
    ensures forall i :: 0 <= i < |es| ==> (i in ix <==> !es[i].op.Delete?)
  {
    ix := UpsertsInOrder(es);
    forall j | 0 <= j < |ix| ensures RowTells(StoredAll(Upserts(es), schema)[j], es[ix[j]], schema) {
      StoredTells(es[ix[j]], schema);
    }
  }

  /** Mode A without a key: one row for every upsert, in order, and no deletes. */
  lemma InsertsUpserts(rows: seq<Row>, es: seq<Event>, schema: seq<Column>) returns (more: seq<Row>, ix: seq<nat>)
    requires PlainSchema(schema) && PrimaryKeys(schema) == []
    ensures ExecAll(rows, A.Plan(es, schema), []) == rows + more
    ensures RowsTell(more, es, ix, schema) && forall i :: 0 <= i < |es| ==> (i in ix <==> !es[i].op.Delete?)
  {
    more := StoredAll(Upserts(es), schema);
    ix := UpsertRowsTell(es, schema);
    var ops := A.UpsertOps(Upserts(es), schema);
    NoKeyNoDeletes(Deletes(es));
    assert ops + [] == ops;
    InsertEach(rows, ops, Upserts(es), schema, |ops|);
    assert ops[..|ops|] == ops && more[..|ops|] == more;
  }

  lemma {:induction false} NoKeyNoDeletes(deletes: seq<Event>)
    ensures A.DeleteOps(deletes, []) == []
  {
    if deletes != [] { NoKeyNoDeletes(Front(deletes)); }
  }

  lemma {:induction false} InsertEach(rows: seq<Row>, ops: seq<TableOp>, ups: seq<Event>, schema: seq<Column>, n: nat)
    requires |ops| == |ups| && n <= |ups|
    requires forall i :: 0 <= i < |ops| ==> ops[i] == Append([Stored(ups[i], schema)])
    ensures ExecAll(rows, ops[..n], []) == rows + StoredAll(ups, schema)[..n]
  {
    if n == 0 {
      assert rows + [] == rows;
    } else {
      InsertEach(rows, ops, ups, schema, n - 1);
      assert Front(ops[..n]) == ops[..n - 1] && Last(ops[..n]) == ops[n - 1];
      var all := StoredAll(ups, schema);
      assert all[..n] == all[..n - 1] + [all[n - 1]];
    }
  }

  // ---- Rows that go --------------------------------------------------------------------------------------------

  /** The image has values for some key columns, none of them null, and the row has the same ones. A null
      names no row. */
  predicate NamesRow(image: Row, r: Row, pks: seq<string>) {
    && (exists p :: p in pks && p in image)
    && forall p :: p in pks && p in image ==> image[p] != Null && Get(r, p) == image[p]
  }

  lemma {:induction false} PresentKeysName(image: Row, r: Row, pks: seq<string>)
    ensures B.PresentKeys(image, pks) != [] <==> exists p :: p in pks && p in image
    ensures RowMatches(r, B.PresentKeys(image, pks))
            <==> forall p :: p in pks && p in image ==> image[p] != Null && Get(r, p) == image[p]
  {
    if pks != [] {
      PresentKeysName(image, r, pks[1..]);
      var rest := B.PresentKeys(image, pks[1..]);
      assert pks == [pks[0]] + pks[1..];
      if pks[0] in image {
        MatchesCons((pks[0], image[pks[0]]), rest, r);
      } else {
        assert [] + rest == rest;
      }
    }
  }

  lemma MatchesCons(c: (string, Value), rest: Where, r: Row)
    ensures RowMatches(r, [c] + rest) <==> c.1 != Null && Get(r, c.0) == c.1 && RowMatches(r, rest)
  {
    var all := [c] + rest;
    if RowMatches(r, all) {
      assert all[0] == c;
      forall i | 0 <= i < |rest| ensures rest[i].1 != Null && Get(r, rest[i].0) == rest[i].1 {
        assert all[i + 1] == rest[i];
      }
    }
  }

  lemma {:induction false} DeleteKeeps(rows: seq<Row>, cond: Where, r: Row)
    ensures r in DeleteRows(rows, cond) <==> r in rows && !RowMatches(r, cond)
  {
    if rows != [] {
      DeleteKeeps(Front(rows), cond, r);
      assert rows == Front(rows) + [Last(rows)];
    }
  }

  predicate NoneNames(images: seq<Row>, r: Row, pks: seq<string>) {
    forall i :: 0 <= i < |images| ==> !NamesRow(images[i], r, pks)
  }

  lemma OneMoreDelete(rows: seq<Row>, ops: seq<TableOp>, cond: Where, pks: seq<string>, r: Row)
    ensures r in ExecAll(rows, ops + [DeleteWhere(cond)], pks) <==> r in ExecAll(rows, ops, pks) && !RowMatches(r, cond)
  {
    assert Front(ops + [DeleteWhere(cond)]) == ops;
    DeleteKeeps(ExecAll(rows, ops, pks), cond, r);
  }

  lemma LastImage(image: Row, ops: seq<TableOp>, rows: seq<Row>, pks: seq<string>, r: Row)
    ensures var cond := B.PresentKeys(image, pks);
            r in ExecAll(rows, ops + (if cond != [] then [DeleteWhere(cond)] else []), pks)
            <==> r in ExecAll(rows, ops, pks) && !NamesRow(image, r, pks)
  {
    var cond := B.PresentKeys(image, pks);
    PresentKeysName(image, r, pks);
    if cond != [] { OneMoreDelete(rows, ops, cond, pks, r); } else { assert ops + [] == ops; }
  }

  lemma DeletesOfLast(rows: seq<Row>, images: seq<Row>, pks: seq<string>, r: Row)
    requires images != []
    ensures r in ExecAll(rows, B.DeleteOpsFor(images, pks), pks)
            <==> r in ExecAll(rows, B.DeleteOpsFor(Front(images), pks), pks) && !NamesRow(Last(images), r, pks)
  {
    LastImage(Last(images), B.DeleteOpsFor(Front(images), pks), rows, pks, r);
  }

  lemma NoneNamesLast(images: seq<Row>, r: Row, pks: seq<string>)
    requires images != []
    ensures NoneNames(images, r, pks) <==> NoneNames(Front(images), r, pks) && !NamesRow(Last(images), r, pks)
  {
    assert images == Front(images) + [Last(images)];
    NoneNamesConcat(Front(images), [Last(images)], r, pks);
  }

  lemma {:induction false} DeletesKeepUnnamed(rows: seq<Row>, images: seq<Row>, pks: seq<string>, r: Row)
    ensures r in ExecAll(rows, B.DeleteOpsFor(images, pks), pks) <==> r in rows && NoneNames(images, r, pks)
    decreases |images|
  {
    if images != [] {
      DeletesKeepUnnamed(rows, Front(images), pks, r);
      DeletesOfLast(rows, images, pks, r);
      NoneNamesLast(images, r, pks);
    }
  }

  /** The image a change supersedes: the one before it, or without that the one after it. */
  predicate Supersedes(e: Event, r: Row, pks: seq<string>) {
    if e.before.Some? && e.before.value != map[] then NamesRow(e.before.value, r, pks)
    else e.after.Some? && e.after.value != map[] && NamesRow(e.after.value, r, pks)
  }

  lemma {:induction false} SupersededNames(es: seq<Event>, r: Row, pks: seq<string>)
    ensures NoneNames(B.SupersededRows(es), r, pks) <==> forall e :: e in es ==> !Supersedes(e, r, pks)
  {
    if es != [] {
      SupersededNames(Front(es), r, pks);
      LastSupersedes(es, r, pks);
      MembersSnoc(es);
    }
  }

  lemma MembersSnoc(es: seq<Event>)
    requires es != []
    ensures forall e :: e in es <==> e in Front(es) || e == Last(es)
  {
    assert es == Front(es) + [Last(es)];
  }

  lemma LastSupersedes(es: seq<Event>, r: Row, pks: seq<string>)
    requires es != []
    ensures NoneNames(B.SupersededRows(es), r, pks)
            <==> NoneNames(B.SupersededRows(Front(es)), r, pks) && !Supersedes(Last(es), r, pks)
  {
    var images, last := B.SupersededRows(Front(es)), B.Superseded(Last(es));
    if last.Some? {
      assert B.SupersededRows(es) == images + [last.value];
      NoneNamesConcat(images, [last.value], r, pks);
    } else {
      assert B.SupersededRows(es) == images;
    }
  }

  lemma NoneNamesConcat(a: seq<Row>, b: seq<Row>, r: Row, pks: seq<string>)
    ensures NoneNames(a + b, r, pks) <==> NoneNames(a, r, pks) && NoneNames(b, r, pks)
    ensures |b| == 1 ==> (NoneNames(b, r, pks) <==> !NamesRow(b[0], r, pks))
  {
    if NoneNames(a + b, r, pks) {
      forall i | 0 <= i < |a| ensures !NamesRow(a[i], r, pks) { assert (a + b)[i] == a[i]; }
      forall i | 0 <= i < |b| ensures !NamesRow(b[i], r, pks) { assert (a + b)[|a| + i] == b[i]; }
    }
  }

  /** The deletes of Mode B, for any events whatever: exactly the rows that no event's superseded image
      names stay. */
  lemma DeletesBKeep(rows: seq<Row>, es: seq<Event>, pks: seq<string>, r: Row)
    ensures r in ExecAll(rows, B.DeleteOpsFor(B.SupersededRows(Deletes(es)) + B.SupersededRows(Upserts(es)), pks), pks)
            <==> r in rows && forall e :: e in es ==> !Supersedes(e, r, pks)
  {
    var a, b := B.SupersededRows(Deletes(es)), B.SupersededRows(Upserts(es));
    DeletesKeepUnnamed(rows, a + b, pks, r);
    NoneNamesConcat(a, b, r, pks);
    SupersededNames(Deletes(es), r, pks);
    SupersededNames(Upserts(es), r, pks);
    FiltersMembers(es);
  }

  /** A full key of the image before a delete, none of it null, is the row's. */
  predicate DeletesRow(e: Event, r: Row, pks: seq<string>) {
    e.before.Some? && e.before.value != map[]
    && forall p :: p in pks ==> Get(e.before.value, p) != Null && Get(r, p) == Get(e.before.value, p)
  }

  /** The deletes of Mode A, for any events whatever. */
  lemma {:induction false} DeletesAKeep(rows: seq<Row>, dels: seq<Event>, pks: seq<string>, r: Row)
    requires pks != []
    ensures r in ExecAll(rows, A.DeleteOps(dels, pks), pks)
            <==> r in rows && forall e :: e in dels ==> !DeletesRow(e, r, pks)
  {
    if dels != [] {
      DeletesAKeep(rows, Front(dels), pks, r);
      LastDeletes(rows, dels, pks, r);
      MembersSnoc(dels);
    }
  }

  lemma LastDeletes(rows: seq<Row>, dels: seq<Event>, pks: seq<string>, r: Row)
    requires pks != [] && dels != []
    ensures r in ExecAll(rows, A.DeleteOps(dels, pks), pks)
            <==> r in ExecAll(rows, A.DeleteOps(Front(dels), pks), pks) && !DeletesRow(Last(dels), r, pks)
  {
    var ops, e := A.DeleteOps(Front(dels), pks), Last(dels);
    if Truthy(e.before) {
      assert A.DeleteOps(dels, pks) == ops + [DeleteWhere(A.KeyCondition(e.before.value, pks))];
      KeyConditionMeans(e.before.value, r, pks);
      OneMoreDelete(rows, ops, A.KeyCondition(e.before.value, pks), pks, r);
    } else {
      assert A.DeleteOps(dels, pks) == ops;
    }
  }

  lemma KeyConditionMeans(image: Row, r: Row, pks: seq<string>)
    ensures RowMatches(r, A.KeyCondition(image, pks))
            <==> forall p :: p in pks ==> Get(image, p) != Null && Get(r, p) == Get(image, p)
  {
    var cond := A.KeyCondition(image, pks);
    if RowMatches(r, cond) {
      forall p | p in pks ensures Get(image, p) != Null && Get(r, p) == Get(image, p) {
        var i :| 0 <= i < |pks| && pks[i] == p;
        assert cond[i] == (p, Get(image, p));
      }
    }
  }

  /** A merge source row with a null key matches nothing: it is inserted beside whatever is there. */
  lemma NullKeyIsInserted(rows: seq<Row>, src: seq<Row>, pks: seq<string>, r: Row)
    requires r in src && Null in KeyOf(r, pks)
    ensures r in MergeRows(rows, src, pks)
  {
    NullKeyIsUnmatched(rows, src, pks, r);
  }

  lemma {:induction false} NullKeyIsUnmatched(rows: seq<Row>, src: seq<Row>, pks: seq<string>, r: Row)
    requires r in src && Null in KeyOf(r, pks)
    ensures r in Unmatched(rows, src, pks)
    decreases |src|
  {
    assert src == Front(src) + [Last(src)];
    if r != Last(src) { NullKeyIsUnmatched(rows, Front(src), pks, r); }
  }
}
