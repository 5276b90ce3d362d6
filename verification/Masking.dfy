// Column masking before the sink, and why it can be moved past the write.
module Masking {
  import opened Prelude
  import opened Events
  import opened TargetTable
  import A = DremioSink
  import B = IcebergSink

  type Rules = map<string, string>

  /** The named masking functions on non-null values; hashes and patterns stay uninterpreted. */
  type MaskFns = (string, Value) -> Value

  function ApplyFn(fns: MaskFns, fn: string, v: Value): Value {
    if v.Null? then Null else fns(fn, v)
  }

  function MaskRow(row: Row, rules: Rules, fns: MaskFns): Row {
    map c | c in row :: if c in rules then ApplyFn(fns, rules[c], row[c]) else row[c]
  }

  function MaskImage(row: Option<Row>, rules: Rules, fns: MaskFns): Option<Row> {
    if row.None? then None else Some(MaskRow(row.value, rules, fns))
  }

  function MaskEvent(e: Event, rules: Rules, fns: MaskFns): Event {
    e.(before := MaskImage(e.before, rules, fns), after := MaskImage(e.after, rules, fns))
  }

  function MaskEvents(es: seq<Event>, rules: Rules, fns: MaskFns): seq<Event> {
    seq(|es|, i requires 0 <= i < |es| => MaskEvent(es[i], rules, fns))
  }

  function MaskRows(rows: seq<Row>, rules: Rules, fns: MaskFns): seq<Row> {
    seq(|rows|, i requires 0 <= i < |rows| => MaskRow(rows[i], rules, fns))
  }

  class MaskingEngine {
    const rules: map<string, Rules>
    const fns: MaskFns

    constructor (rules: map<string, Rules>, fns: MaskFns)
      ensures this.rules == rules && this.fns == fns
    {
      this.rules, this.fns := rules, fns;
    }

    /** `out` is `row` with every ruled column's value replaced by what its rule's function gives, nulls
        and columns without a rule as they are. */
    predicate IsMasked(table: string, row: Option<Row>, out: Option<Row>) {
      match row
      case None => out == None
      case Some(r) =>
        && out.Some? && out.value.Keys == r.Keys
        && forall c :: c in r ==>
             out.value[c] == if table in rules && c in rules[table] && r[c] != Null then fns(rules[table][c], r[c])
                             else r[c]
    }

    function RulesFor(table: string): Rules {
      if table in rules then rules[table] else map[]
    }

    /** The loop over the rules overwrites exactly the ruled columns the row has. */
    method MaskRowLoop(row: Row, tableRules: Rules) returns (masked: Row)
      ensures masked == MaskRow(row, tableRules, fns)
    {
      masked := row;
      var todo := tableRules.Keys;
      while todo != {}
        invariant todo <= tableRules.Keys && masked.Keys == row.Keys
        invariant forall c :: c in row ==>
                    masked[c] == if c in tableRules && c !in todo then ApplyFn(fns, tableRules[c], row[c]) else row[c]
      {
        var col :| col in todo;
        if col in masked {
          masked := masked[col := ApplyFn(fns, tableRules[col], masked[col])];
        }
        todo := todo - {col};
      }
    }

    method Apply(table: string, e: Event) returns (masked: Event)
      ensures IsMasked(table, e.before, masked.before) && IsMasked(table, e.after, masked.after)
      ensures masked == e.(before := masked.before, after := masked.after)
      ensures masked == MaskEvent(e, RulesFor(table), fns)
    {
      var tableRules := RulesFor(table);
      if tableRules == map[] {
        NoRules(e, fns);
        return e;
      }
      masked := e;
      if e.before.Some? {
        var row := MaskRowLoop(e.before.value, tableRules);
        masked := masked.(before := Some(row));
      }
      if e.after.Some? {
        var row := MaskRowLoop(e.after.value, tableRules);
        masked := masked.(after := Some(row));
      }
    }

    method ApplyBatch(table: string, batch: seq<Event>) returns (masked: seq<Event>)
      ensures |masked| == |batch|
      ensures forall i :: 0 <= i < |batch| ==>
                && IsMasked(table, batch[i].before, masked[i].before)
                && IsMasked(table, batch[i].after, masked[i].after)
                && masked[i] == batch[i].(before := masked[i].before, after := masked[i].after)
      ensures masked == MaskEvents(batch, RulesFor(table), fns)
    {
      if RulesFor(table) == map[] {
        forall i | 0 <= i < |batch| { NoRules(batch[i], fns); }
        return batch;
      }
      masked := [];
      for i := 0 to |batch|
        invariant |masked| == i && forall j :: 0 <= j < i ==> masked[j] == MaskEvent(batch[j], RulesFor(table), fns)
      {
        var e := Apply(table, batch[i]);
        masked := masked + [e];
      }
    }
  }

  lemma NoRules(e: Event, fns: MaskFns)
    ensures MaskEvent(e, map[], fns) == e
  {
    forall row: Row ensures MaskRow(row, map[], fns) == row {
    }
  }

  // ---- Masking commutes with writing --------------------------------------------------------

  /** Rules that touch neither the primary key nor the metadata columns. */
  predicate KeepsKeys(rules: Rules, schema: seq<Column>) {
    && (forall i :: 0 <= i < |PrimaryKeys(schema)| ==> PrimaryKeys(schema)[i] !in rules)
    && rules.Keys !! META
  }

  lemma MaskGet(row: Row, c: string, rules: Rules, fns: MaskFns)
    ensures Get(MaskRow(row, rules, fns), c) == if c in rules then ApplyFn(fns, rules[c], Get(row, c)) else Get(row, c)
  {
  }

  lemma MaskKeepsKey(row: Row, rules: Rules, fns: MaskFns, schema: seq<Column>)
    requires KeepsKeys(rules, schema)
    ensures KeyOf(MaskRow(row, rules, fns), PrimaryKeys(schema)) == KeyOf(row, PrimaryKeys(schema))
    ensures HasKey(row, PrimaryKeys(schema)) ==> HasKey(MaskRow(row, rules, fns), PrimaryKeys(schema))
  {
    var pks := PrimaryKeys(schema);
    forall i | 0 <= i < |pks| ensures Get(MaskRow(row, rules, fns), pks[i]) == Get(row, pks[i]) {
      MaskGet(row, pks[i], rules, fns);
    }
  }

  /** Masking keeps length, order, operations, keys and well-formedness. */
  lemma MaskedBatchShape(es: seq<Event>, rules: Rules, fns: MaskFns, schema: seq<Column>)
    requires KeepsKeys(rules, schema)
    ensures var m := MaskEvents(es, rules, fns);
            && |m| == |es|
            && (forall i :: 0 <= i < |es| ==>
                 && m[i].op == es[i].op && m[i].offset == es[i].offset
                 && EventKey(m[i], PrimaryKeys(schema)) == EventKey(es[i], PrimaryKeys(schema)))
            && (WellFormedBatch(es, schema) ==> WellFormedBatch(m, schema))
  {
    var m, pks := MaskEvents(es, rules, fns), PrimaryKeys(schema);
    forall i | 0 <= i < |es|
      ensures EventKey(m[i], pks) == EventKey(es[i], pks) && (WellFormed(es[i], schema) ==> WellFormed(m[i], schema))
    {
      MaskedEventShape(es[i], rules, fns, schema);
    }
  }

  lemma MaskedEventShape(e: Event, rules: Rules, fns: MaskFns, schema: seq<Column>)
    requires KeepsKeys(rules, schema)
    ensures EventKey(MaskEvent(e, rules, fns), PrimaryKeys(schema)) == EventKey(e, PrimaryKeys(schema))
    ensures WellFormed(e, schema) ==> WellFormed(MaskEvent(e, rules, fns), schema)
  {
    assert MaskRow(map[], rules, fns) == map[];
    MaskKeepsKey(Image(e), rules, fns, schema);
    if e.before.Some? {
      MaskKeepsKey(e.before.value, rules, fns, schema);
      assert MaskRow(e.before.value, rules, fns).Keys == e.before.value.Keys;
    }
    if e.after.Some? { MaskKeepsKey(e.after.value, rules, fns, schema); }
  }

  /** The stored row of a masked event is the masked stored row. */
  lemma StoredMasked(e: Event, rules: Rules, fns: MaskFns, schema: seq<Column>)
    requires rules.Keys !! META
    ensures Stored(MaskEvent(e, rules, fns), schema) == MaskRow(Stored(e, schema), rules, fns)
  {
    var a, b := Stored(MaskEvent(e, rules, fns), schema), MaskRow(Stored(e, schema), rules, fns);
    assert MaskRow(map[], rules, fns) == map[];
    assert Image(MaskEvent(e, rules, fns)) == MaskRow(Image(e), rules, fns);
    forall c | c in AllColumns(schema) ensures a[c] == b[c] {
      MaskGet(Image(e), c, rules, fns);
    }
  }

  lemma {:induction false} LastOfMasked(es: seq<Event>, k: Key, rules: Rules, fns: MaskFns, schema: seq<Column>)
    requires KeepsKeys(rules, schema)
    ensures var l := LastOf(es, k, PrimaryKeys(schema));
            LastOf(MaskEvents(es, rules, fns), k, PrimaryKeys(schema))
              == if l.Some? then Some(MaskEvent(l.value, rules, fns)) else None
  {
    if es != [] {
      assert Front(MaskEvents(es, rules, fns)) == MaskEvents(Front(es), rules, fns);
      MaskedEventShape(Last(es), rules, fns, schema);
      LastOfMasked(Front(es), k, rules, fns, schema);
    }
  }

  lemma {:induction false} FiltersMasked(es: seq<Event>, rules: Rules, fns: MaskFns)
    ensures Upserts(MaskEvents(es, rules, fns)) == MaskEvents(Upserts(es), rules, fns)
    ensures Deletes(MaskEvents(es, rules, fns)) == MaskEvents(Deletes(es), rules, fns)
  {
    if es != [] {
      FiltersMasked(Front(es), rules, fns);
      MaskEventsSnoc(Upserts(Front(es)), Last(es), rules, fns);
      MaskEventsSnoc(Deletes(Front(es)), Last(es), rules, fns);
      assert Front(MaskEvents(es, rules, fns)) == MaskEvents(Front(es), rules, fns);
      assert Upserts(Front(es)) + [] == Upserts(Front(es)) && Deletes(Front(es)) + [] == Deletes(Front(es));
    }
  }

  lemma MaskEventsSnoc(es: seq<Event>, e: Event, rules: Rules, fns: MaskFns)
    ensures MaskEvents(es + [e], rules, fns) == MaskEvents(es, rules, fns) + [MaskEvent(e, rules, fns)]
  {
  }

  lemma {:induction false} FindMasked(rows: seq<Row>, k: Key, rules: Rules, fns: MaskFns, schema: seq<Column>)
    requires KeepsKeys(rules, schema)
    ensures var r := Find(rows, k, PrimaryKeys(schema));
            Find(MaskRows(rows, rules, fns), k, PrimaryKeys(schema)) == MaskImage(r, rules, fns)
  {
    if rows != [] {
      assert Front(MaskRows(rows, rules, fns)) == MaskRows(Front(rows), rules, fns);
      MaskKeepsKey(Last(rows), rules, fns, schema);
      FindMasked(Front(rows), k, rules, fns, schema);
    }
  }

  lemma MaskRowsSnoc(rows: seq<Row>, rules: Rules, fns: MaskFns)
    requires rows != []
    ensures MaskRows(rows, rules, fns) == MaskRows(Front(rows), rules, fns) + [MaskRow(Last(rows), rules, fns)]
  {
  }

  lemma MaskedRowOk(r: Row, rules: Rules, fns: MaskFns, schema: seq<Column>)
    requires KeepsKeys(rules, schema)
    ensures var m := MaskRow(r, rules, fns);
            m.Keys == r.Keys && KeyOf(m, PrimaryKeys(schema)) == KeyOf(r, PrimaryKeys(schema))
  {
    MaskKeepsKey(r, rules, fns, schema);
  }

  lemma {:induction false} MaskedTableOk(rows: seq<Row>, rules: Rules, fns: MaskFns, schema: seq<Column>)
    requires KeepsKeys(rules, schema) && TableOk(rows, schema)
    ensures TableOk(MaskRows(rows, rules, fns), schema)
  {
    if rows != [] {
      MaskedTableOk(Front(rows), rules, fns, schema);
      MaskedRowOk(Last(rows), rules, fns, schema);
      FindMasked(Front(rows), KeyOf(Last(rows), PrimaryKeys(schema)), rules, fns, schema);
      MaskRowsSnoc(rows, rules, fns);
      SnocOk(MaskRows(Front(rows), rules, fns), MaskRow(Last(rows), rules, fns), schema);
    }
  }

  lemma EffectsMasked(es: seq<Event>, k: Key, prior: Option<Row>, rules: Rules, fns: MaskFns, schema: seq<Column>)
    requires KeepsKeys(rules, schema)
    ensures A.EffectA(MaskEvents(es, rules, fns), k, MaskImage(prior, rules, fns), schema)
            == MaskImage(A.EffectA(es, k, prior, schema), rules, fns)
    ensures B.EffectB(MaskEvents(es, rules, fns), k, MaskImage(prior, rules, fns), schema)
            == MaskImage(B.EffectB(es, k, prior, schema), rules, fns)
  {
    FiltersMasked(es, rules, fns);
    LastOfMasked(Upserts(es), k, rules, fns, schema);
    LastOfMasked(Deletes(es), k, rules, fns, schema);
    var u := LastOf(Upserts(es), k, PrimaryKeys(schema));
    if u.Some? { StoredMasked(u.value, rules, fns, schema); }
  }

  /** Writing the masked batch to the masked table is masking the written table, in both modes. */
  lemma MaskingCommutesWithWriting(rows: seq<Row>, es: seq<Event>, rules: Rules, fns: MaskFns, schema: seq<Column>)
    requires KeyedSchema(schema) && TableOk(rows, schema) && WellFormedBatch(es, schema) && KeepsKeys(rules, schema)
    ensures var pks, mr, me := PrimaryKeys(schema), MaskRows(rows, rules, fns), MaskEvents(es, rules, fns);
            && multiset(ExecAll(mr, A.Plan(me, schema), pks))
               == multiset(MaskRows(ExecAll(rows, A.Plan(es, schema), pks), rules, fns))
            && multiset(ExecAll(mr, B.Plan(me, schema), pks))
               == multiset(MaskRows(ExecAll(rows, B.Plan(es, schema), pks), rules, fns))
  {
    var pks, mr, me := PrimaryKeys(schema), MaskRows(rows, rules, fns), MaskEvents(es, rules, fns);
    var a, b := ExecAll(rows, A.Plan(es, schema), pks), ExecAll(rows, B.Plan(es, schema), pks);
    MaskedBatchShape(es, rules, fns, schema);
    MaskedTableOk(rows, rules, fns, schema);
    A.WritesEffectA(rows, es, schema);
    B.WritesEffectB(rows, es, schema);
    A.WritesEffectA(mr, me, schema);
    B.WritesEffectB(mr, me, schema);
    MaskedTableOk(a, rules, fns, schema);
    MaskedTableOk(b, rules, fns, schema);
    forall k
      ensures Find(ExecAll(mr, A.Plan(me, schema), pks), k, pks) == Find(MaskRows(a, rules, fns), k, pks)
      ensures Find(ExecAll(mr, B.Plan(me, schema), pks), k, pks) == Find(MaskRows(b, rules, fns), k, pks)
    {
      FindMasked(rows, k, rules, fns, schema);
      FindMasked(a, k, rules, fns, schema);
      FindMasked(b, k, rules, fns, schema);
      EffectsMasked(es, k, Find(rows, k, pks), rules, fns, schema);
    }
    ViewDeterminesBag(ExecAll(mr, A.Plan(me, schema), pks), MaskRows(a, rules, fns), pks);
    ViewDeterminesBag(ExecAll(mr, B.Plan(me, schema), pks), MaskRows(b, rules, fns), pks);
  }
}
