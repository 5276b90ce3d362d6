// The source-agnostic change event that every connector emits and every sink consumes.
module Events {
  import opened Prelude

  /** Column values. `Bytes`, `Timestamp` and `Date` carry their printed text: hex digits, an ISO date. */
  datatype Value =
    | Null
    | Bool(b: bool)
    | Int(n: int)
    | Str(s: string)
    | Bytes(hex: string)
    | Timestamp(text: string)
    | Date(text: string)

  type Row = map<string, Value>
  type Key = seq<Value>

  datatype Op = Insert | Update | Delete | Snapshot

  datatype Column = Column(name: string, dataType: string, primaryKey: bool)

  datatype Event = Event(
    op: Op,
    source: string,
    table: string,
    before: Option<Row>,
    after: Option<Row>,
    schema: seq<Column>,
    ts: string,
    offset: Option<nat>)

  /** Python's `row.get(col)`. */
  function Get(row: Row, col: string): Value {
    if col in row then row[col] else Null
  }

  /** Python's truth value of an optional dict: absent and empty are both false. */
  predicate Truthy(row: Option<Row>) {
    row.Some? && row.value != map[]
  }

  function OrEmpty(row: Option<Row>): Row {
    if row.Some? then row.value else map[]
  }

  function OpName(op: Op): string {
    match op
    case Insert => "insert"
    case Update => "update"
    case Delete => "delete"
    case Snapshot => "snapshot"
  }

  function PrimaryKeys(schema: seq<Column>): seq<string> {
    if schema == [] then []
    else (if schema[0].primaryKey then [schema[0].name] else []) + PrimaryKeys(schema[1..])
  }

  /** `ix` are the indices of the flagged columns, in order. */
  predicate Flagged(ix: seq<nat>, schema: seq<Column>) {
    Increasing(ix, |schema|) && forall i :: 0 <= i < |schema| ==> (i in ix <==> schema[i].primaryKey)
  }

  /** The key columns are exactly the flagged ones, in schema order. */
  lemma {:induction false} PrimaryKeysInOrder(schema: seq<Column>) returns (ix: seq<nat>)
    ensures Flagged(ix, schema)
    ensures NamesAt(PrimaryKeys(schema), schema, ix)
  {
    if schema == [] {
      ix := [];
    } else {
      var rest := PrimaryKeysInOrder(schema[1..]);
      var later := seq(|rest|, j requires 0 <= j < |rest| => rest[j] + 1);
      FlaggedLater(rest, later, schema);
      NamesLater(PrimaryKeys(schema[1..]), rest, later, schema);
      ix := (if schema[0].primaryKey then [0] else []) + later;
    }
  }

  /** `names` are those of the columns at `ix`. */
  predicate NamesAt(names: seq<string>, schema: seq<Column>, ix: seq<nat>) {
    |names| == |ix| && forall j :: 0 <= j < |ix| ==> ix[j] < |schema| && names[j] == schema[ix[j]].name
  }

  lemma NamesLater(names: seq<string>, rest: seq<nat>, later: seq<nat>, schema: seq<Column>)
    requires schema != [] && NamesAt(names, schema[1..], rest)
    requires |later| == |rest| && forall j :: 0 <= j < |rest| ==> later[j] == rest[j] + 1
    ensures NamesAt([] + names, schema, [] + later) && NamesAt([schema[0].name] + names, schema, [0] + later)
  {
  }

  lemma FlaggedLater(rest: seq<nat>, later: seq<nat>, schema: seq<Column>)
    requires schema != [] && Flagged(rest, schema[1..])
    requires |later| == |rest| && forall j :: 0 <= j < |rest| ==> later[j] == rest[j] + 1
    ensures Flagged((if schema[0].primaryKey then [0] else []) + later, schema)
  {
    var ix := (if schema[0].primaryKey then [0] else []) + later;
    forall i | 0 <= i < |schema| ensures i in ix <==> schema[i].primaryKey {
      if i > 0 { LaterIndex(rest, later, i); }
    }
  }

  lemma LaterIndex(rest: seq<nat>, later: seq<nat>, i: nat)
    requires i > 0 && |later| == |rest| && forall j :: 0 <= j < |rest| ==> later[j] == rest[j] + 1
    ensures i in later <==> i - 1 in rest
  {
    if i - 1 in rest {
      var j :| 0 <= j < |rest| && rest[j] == i - 1;
      assert later[j] == i;
    }
  }

  function ColumnNames(schema: seq<Column>): set<string> {
    set c | c in schema :: c.name
  }

  function KeyOf(row: Row, pks: seq<string>): Key {
    seq(|pks|, i requires 0 <= i < |pks| => Get(row, pks[i]))
  }

  predicate NonNull(k: Key) {
    Null !in k
  }

  /** The image of an event that carries its key. */
  function Image(e: Event): Row {
    OrEmpty(if e.op.Delete? then e.before else e.after)
  }

  function EventKey(e: Event, pks: seq<string>): Key {
    KeyOf(Image(e), pks)
  }

  function Upserts(es: seq<Event>): seq<Event> {
    if es == [] then []
    else Upserts(Front(es)) + (if Last(es).op.Delete? then [] else [Last(es)])
  }

  function Deletes(es: seq<Event>): seq<Event> {
    if es == [] then []
    else Deletes(Front(es)) + (if Last(es).op.Delete? then [Last(es)] else [])
  }

  /** `out` are the events at `ix`, in batch order. */
  predicate IsSelection(out: seq<Event>, es: seq<Event>, ix: seq<nat>) {
    Increasing(ix, |es|) && |out| == |ix| && forall j :: 0 <= j < |ix| ==> out[j] == es[ix[j]]
  }

  lemma SelectionSnoc(out: seq<Event>, es: seq<Event>, ix: seq<nat>)
    requires es != [] && IsSelection(out, Front(es), ix)
    ensures IsSelection(out + [], es, ix) && IsSelection(out + [Last(es)], es, ix + [|es| - 1])
  {
    IncreasingSnoc(ix, |es| - 1);
    assert forall i :: 0 <= i < |es| - 1 ==> Front(es)[i] == es[i];
    assert out + [] == out;
  }

  /** The upserts are exactly the events that delete nothing, in batch order, and so with the deletes. */
  lemma {:induction false} UpsertsInOrder(es: seq<Event>) returns (ix: seq<nat>)
    ensures IsSelection(Upserts(es), es, ix) && forall i :: 0 <= i < |es| ==> (i in ix <==> !es[i].op.Delete?)
  {
    if es == [] {
      ix := [];
    } else {
      var f := UpsertsInOrder(Front(es));
      SelectionSnoc(Upserts(Front(es)), es, f);
      ix := NextIndex(f, |es| - 1, !Last(es).op.Delete?);
      assert forall i :: 0 <= i < |es| - 1 ==> Front(es)[i] == es[i];
    }
  }

  lemma {:induction false} DeletesInOrder(es: seq<Event>) returns (ix: seq<nat>)
    ensures IsSelection(Deletes(es), es, ix) && forall i :: 0 <= i < |es| ==> (i in ix <==> es[i].op.Delete?)
  {
    if es == [] {
      ix := [];
    } else {
      var f := DeletesInOrder(Front(es));
      SelectionSnoc(Deletes(Front(es)), es, f);
      ix := NextIndex(f, |es| - 1, Last(es).op.Delete?);
      assert forall i :: 0 <= i < |es| - 1 ==> Front(es)[i] == es[i];
    }
  }

  /** The last event of a batch that concerns key `k`. */
  function LastOf(es: seq<Event>, k: Key, pks: seq<string>): Option<Event> {
    if es == [] then None
    else if EventKey(Last(es), pks) == k then Some(Last(es))
    else LastOf(Front(es), k, pks)
  }

  /** What the sinks assume of an event: the shared schema, non-null keys present in every
      image, and updates that keep their key. */
  predicate WellFormed(e: Event, schema: seq<Column>) {
    var pks := PrimaryKeys(schema);
    && e.schema == schema
    && (e.op.Delete? ==> e.before.Some? && HasKey(e.before.value, pks))
    && (!e.op.Delete? ==> e.after.Some? && HasKey(e.after.value, pks))
    && (!e.op.Delete? && Truthy(e.before) ==>
          HasKey(e.before.value, pks) && KeyOf(e.before.value, pks) == KeyOf(e.after.value, pks))
  }

  predicate HasKey(row: Row, pks: seq<string>) {
    forall i :: 0 <= i < |pks| ==> pks[i] in row && row[pks[i]] != Null
  }

  predicate WellFormedBatch(es: seq<Event>, schema: seq<Column>) {
    forall i :: 0 <= i < |es| ==> WellFormed(es[i], schema)
  }

  const META: set<string> := {"_cdc_op", "_cdc_source", "_cdc_ts"}

  /** A schema the sinks can key on: at least one primary key, no clash with the metadata columns. */
  predicate KeyedSchema(schema: seq<Column>) {
    && PrimaryKeys(schema) != []
    && PlainSchema(schema)
  }

  /** No source column uses a reserved metadata name. */
  predicate PlainSchema(schema: seq<Column>) {
    ColumnNames(schema) !! META
  }

  lemma {:induction false} PrimaryKeysAreColumns(schema: seq<Column>)
    ensures forall i :: 0 <= i < |PrimaryKeys(schema)| ==> PrimaryKeys(schema)[i] in ColumnNames(schema)
  {
    if schema != [] {
      PrimaryKeysAreColumns(schema[1..]);
      assert schema[0] in schema;
      assert forall c :: c in schema[1..] ==> c in schema;
      assert ColumnNames(schema[1..]) <= ColumnNames(schema);
    }
  }

  lemma HasKeyNonNull(row: Row, pks: seq<string>)
    requires HasKey(row, pks)
    ensures NonNull(KeyOf(row, pks))
  {
    var k := KeyOf(row, pks);
    forall i | 0 <= i < |k| ensures k[i] != Null { assert k[i] == Get(row, pks[i]); }
  }

  lemma {:induction false} FiltersMembers(es: seq<Event>)
    ensures forall e :: e in Upserts(es) <==> e in es && !e.op.Delete?
    ensures forall e :: e in Deletes(es) <==> e in es && e.op.Delete?
  {
    if es != [] {
      FiltersMembers(Front(es));
      assert es == Front(es) + [Last(es)];
    }
  }

  lemma {:induction false} LastOfMember(es: seq<Event>, k: Key, pks: seq<string>)
    ensures LastOf(es, k, pks).None? <==> forall i :: 0 <= i < |es| ==> EventKey(es[i], pks) != k
    ensures LastOf(es, k, pks).Some? ==> LastOf(es, k, pks).value in es && EventKey(LastOf(es, k, pks).value, pks) == k
  {
    if es != [] {
      LastOfMember(Front(es), k, pks);
      assert forall i :: 0 <= i < |es| ==> es[i] == if i < |es| - 1 then Front(es)[i] else Last(es);
    }
  }

  lemma {:induction false} LastIsUpsertOrDelete(es: seq<Event>, k: Key, pks: seq<string>)
    ensures var l, u, d := LastOf(es, k, pks), LastOf(Upserts(es), k, pks), LastOf(Deletes(es), k, pks);
            && (l.None? <==> u.None? && d.None?)
            && (l.Some? ==> l == if l.value.op.Delete? then d else u)
  {
    if es != [] {
      var f, e := Front(es), Last(es);
      LastIsUpsertOrDelete(f, k, pks);
      LastOfSnoc(Deletes(f), e, k, pks);
      LastOfSnoc(Upserts(f), e, k, pks);
      assert Deletes(f) + [] == Deletes(f) && Upserts(f) + [] == Upserts(f);
    }
  }

  lemma LastOfSnoc(es: seq<Event>, e: Event, k: Key, pks: seq<string>)
    ensures LastOf(es + [e], k, pks) == if EventKey(e, pks) == k then Some(e) else LastOf(es, k, pks)
  {
    assert Front(es + [e]) == es;
  }

  /** The last event on a key is the last upsert or the last delete, whichever came later. */
  lemma LastSplits(es: seq<Event>, k: Key, pks: seq<string>)
    ensures var l, u, d := LastOf(es, k, pks), LastOf(Upserts(es), k, pks), LastOf(Deletes(es), k, pks);
            && (l.None? <==> u.None? && d.None?)
            && (l.Some? ==> EventKey(l.value, pks) == k && l == if l.value.op.Delete? then d else u)
            && (u.Some? ==> u.value in es && !u.value.op.Delete? && EventKey(u.value, pks) == k)
            && (d.Some? ==> d.value in es && d.value.op.Delete? && EventKey(d.value, pks) == k)
  {
    LastIsUpsertOrDelete(es, k, pks);
    LastOfMember(es, k, pks);
    LastOfMember(Upserts(es), k, pks);
    LastOfMember(Deletes(es), k, pks);
    FiltersMembers(es);
  }

  lemma {:induction false} LastOfConcat(a: seq<Event>, b: seq<Event>, k: Key, pks: seq<string>)
    ensures LastOf(a + b, k, pks) == if LastOf(b, k, pks).Some? then LastOf(b, k, pks) else LastOf(a, k, pks)
  {
    if b == [] {
      assert a + b == a;
    } else {
      assert Front(a + b) == a + Front(b) && Last(a + b) == Last(b);
      LastOfConcat(a, Front(b), k, pks);
    }
  }
}
