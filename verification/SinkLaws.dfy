// The two sinks compared, and the batches on which each departs from sequential replay.
module SinkLaws {
  import opened Prelude
  import opened Events
  import opened TargetTable
  import A = DremioSink
  import B = IcebergSink

  predicate BothUpsertedAndDeleted(es: seq<Event>, k: Key, pks: seq<string>) {
    LastOf(Upserts(es), k, pks).Some? && LastOf(Deletes(es), k, pks).Some?
  }

  /** From equal bags of rows, the sinks agree at a key exactly when the batch does not both upsert
      and delete it; where it does, Mode A ends absent and Mode B ends present. */
  lemma SinksAgreeExceptOnMixedKeys(rowsA: seq<Row>, rowsB: seq<Row>, es: seq<Event>, schema: seq<Column>, k: Key)
    requires KeyedSchema(schema) && TableOk(rowsA, schema) && TableOk(rowsB, schema) && WellFormedBatch(es, schema)
    requires multiset(rowsA) == multiset(rowsB)
    ensures var pks := PrimaryKeys(schema);
            var a := Find(ExecAll(rowsA, A.Plan(es, schema), pks), k, pks);
            var b := Find(ExecAll(rowsB, B.Plan(es, schema), pks), k, pks);
            if BothUpsertedAndDeleted(es, k, pks) then a.None? && b.Some? else a == b
  {
    A.WritesEffectA(rowsA, es, schema);
    B.WritesEffectB(rowsB, es, schema);
    BagDeterminesView(rowsA, rowsB, k, PrimaryKeys(schema));
  }

  /** On batches that neither mixes upserts and deletes on one key, both sinks are the reference. */
  lemma UnmixedBatchesReplay(rows: seq<Row>, es: seq<Event>, schema: seq<Column>)
    requires KeyedSchema(schema) && TableOk(rows, schema) && WellFormedBatch(es, schema)
    requires forall k :: !BothUpsertedAndDeleted(es, k, PrimaryKeys(schema))
    ensures var pks := PrimaryKeys(schema);
            var m := Replay(ViewOf(rows, pks), es, schema);
            ViewOf(ExecAll(rows, A.Plan(es, schema), pks), pks) == m
              && ViewOf(ExecAll(rows, B.Plan(es, schema), pks), pks) == m
  {
    var pks := PrimaryKeys(schema);
    forall k ensures A.InOrderA(es, k, pks) && B.InOrderB(es, k, pks) {
      LastSplits(es, k, pks);
      assert !BothUpsertedAndDeleted(es, k, pks);
    }
    A.ReplaysExactlyA(rows, es, schema);
    B.ReplaysExactlyB(rows, es, schema);
  }

  // ---- Concrete batches -------------------------------------------------------------------

  const ID_SCHEMA := [Column("id", "int", true)]
  const ROW_1: Row := map["id" := Int(1)]
  const INSERT_1 := Event(Insert, "src", "t", None, Some(ROW_1), ID_SCHEMA, "", None)
  const DELETE_1 := Event(Delete, "src", "t", Some(ROW_1), None, ID_SCHEMA, "", None)

  lemma IdSchema()
    ensures PrimaryKeys(ID_SCHEMA) == ["id"] && KeyedSchema(ID_SCHEMA)
    ensures EventKey(INSERT_1, ["id"]) == [Int(1)] == EventKey(DELETE_1, ["id"])
    ensures WellFormed(INSERT_1, ID_SCHEMA) && WellFormed(DELETE_1, ID_SCHEMA)
  {
    assert PrimaryKeys(ID_SCHEMA) == ["id"] + PrimaryKeys([]);
    assert ColumnNames(ID_SCHEMA) == {"id"};
  }

  lemma LastOfTwo(first: Event, second: Event)
    requires EventKey(first, ["id"]) == EventKey(second, ["id"]) == [Int(1)]
    requires first.op.Delete? != second.op.Delete?
    ensures LastOf([first, second], [Int(1)], ["id"]) == Some(second)
    ensures LastOf(Upserts([first, second]), [Int(1)], ["id"]) == Some(if first.op.Delete? then second else first)
    ensures LastOf(Deletes([first, second]), [Int(1)], ["id"]) == Some(if first.op.Delete? then first else second)
  {
    assert Front([first, second]) == [first] && Front([first]) == [];
    assert Upserts([first]) == (if first.op.Delete? then [] else [first])
           && Deletes([first]) == (if first.op.Delete? then [first] else []);
    assert Upserts([first, second]) == [if first.op.Delete? then second else first];
    assert Deletes([first, second]) == [if first.op.Delete? then first else second];
  }

  /** Insert then delete in one batch: the row survives in Mode B. */
  lemma InsertThenDeleteSurvivesInB()
    ensures WellFormedBatch([INSERT_1, DELETE_1], ID_SCHEMA)
    ensures ViewOf(ExecAll([], B.Plan([INSERT_1, DELETE_1], ID_SCHEMA), ["id"]), ["id"])
            != Replay(map[], [INSERT_1, DELETE_1], ID_SCHEMA)
  {
    IdSchema();
    LastOfTwo(INSERT_1, DELETE_1);
    B.ReplaysExactlyB([], [INSERT_1, DELETE_1], ID_SCHEMA);
    assert !B.InOrderB([INSERT_1, DELETE_1], [Int(1)], ["id"]);
  }

  /** Delete then insert in one batch: the row is lost in Mode A. */
  lemma DeleteThenInsertLostInA()
    ensures WellFormedBatch([DELETE_1, INSERT_1], ID_SCHEMA)
    ensures ViewOf(ExecAll([], A.Plan([DELETE_1, INSERT_1], ID_SCHEMA), ["id"]), ["id"])
            != Replay(map[], [DELETE_1, INSERT_1], ID_SCHEMA)
  {
    IdSchema();
    LastOfTwo(DELETE_1, INSERT_1);
    A.ReplaysExactlyA([], [DELETE_1, INSERT_1], ID_SCHEMA);
    assert !A.InOrderA([DELETE_1, INSERT_1], [Int(1)], ["id"]);
  }
}
