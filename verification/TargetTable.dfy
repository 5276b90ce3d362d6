// A target table as a bag of stored rows, the SQL and Iceberg operations on it, and the
// reference semantics of a change stream: a map from primary key to row.
module TargetTable {
  import opened Prelude
  import opened Events

  /** A conjunction of `column = value` conditions. */
  type Where = seq<(string, Value)>

  datatype TableOp =
    | Merge(src: seq<Row>)
    | DeleteWhere(cond: Where)
    | Append(src: seq<Row>)

  // ---- Stored rows ---------------------------------------------------------------------

  function AllColumns(schema: seq<Column>): set<string> {
    ColumnNames(schema) + META
  }

  /** The row written for an event: its current image plus metadata, cut to the table's columns. */
  function Stored(e: Event, schema: seq<Column>): Row {
    var row := Image(e)["_cdc_op" := Str(OpName(e.op))]["_cdc_source" := Str(e.source)]["_cdc_ts" := Timestamp(e.ts)];
    map c | c in AllColumns(schema) :: Get(row, c)
  }

  function StoredAll(es: seq<Event>, schema: seq<Column>): seq<Row> {
    seq(|es|, i requires 0 <= i < |es| => Stored(es[i], schema))
  }

  lemma StoredKey(e: Event, schema: seq<Column>)
    requires PlainSchema(schema)
    ensures KeyOf(Stored(e, schema), PrimaryKeys(schema)) == EventKey(e, PrimaryKeys(schema))
  {
    PrimaryKeysAreColumns(schema);
    var pks := PrimaryKeys(schema);
    forall i | 0 <= i < |pks| ensures Get(Stored(e, schema), pks[i]) == Get(Image(e), pks[i]) {
      assert pks[i] in ColumnNames(schema) && pks[i] !in META;
    }
  }

  // ---- Operations ----------------------------------------------------------------------

  /** SQL conjunction: comparing with NULL is never true. */
  predicate RowMatches(row: Row, cond: Where) {
    forall i :: 0 <= i < |cond| ==> cond[i].1 != Null && Get(row, cond[i].0) == cond[i].1
  }

  function DeleteRows(rows: seq<Row>, cond: Where): seq<Row> {
    if rows == [] then []
    else DeleteRows(Front(rows), cond) + (if RowMatches(Last(rows), cond) then [] else [Last(rows)])
  }

  /** The row stored under a key; with duplicates, the one appended last. */
  function Find(rows: seq<Row>, k: Key, pks: seq<string>): Option<Row> {
    if rows == [] then None
    else if KeyOf(Last(rows), pks) == k then Some(Last(rows))
    else Find(Front(rows), k, pks)
  }

  /** The source row a target row joins with; a NULL key joins with nothing. */
  function Joined(src: seq<Row>, k: Key, pks: seq<string>): Option<Row> {
    if NonNull(k) then Find(src, k, pks) else None
  }

  /** WHEN MATCHED THEN UPDATE: every source column overwrites the target's. */
  function Updated(rows: seq<Row>, src: seq<Row>, pks: seq<string>): seq<Row> {
    if rows == [] then []
    else
      var j := Joined(src, KeyOf(Last(rows), pks), pks);
      Updated(Front(rows), src, pks) + [if j.Some? then Last(rows) + j.value else Last(rows)]
  }

  /** WHEN NOT MATCHED THEN INSERT. */
  function Unmatched(rows: seq<Row>, src: seq<Row>, pks: seq<string>): seq<Row> {
    if src == [] then []
    else Unmatched(rows, Front(src), pks)
         + (if Joined(rows, KeyOf(Last(src), pks), pks).Some? then [] else [Last(src)])
  }

  function MergeRows(rows: seq<Row>, src: seq<Row>, pks: seq<string>): seq<Row> {
    Updated(rows, src, pks) + Unmatched(rows, src, pks)
  }

  function Exec(rows: seq<Row>, op: TableOp, pks: seq<string>): seq<Row> {
    match op
    case Merge(src) => MergeRows(rows, src, pks)
    case DeleteWhere(cond) => DeleteRows(rows, cond)
    case Append(src) => rows + src
  }

  function ExecAll(rows: seq<Row>, ops: seq<TableOp>, pks: seq<string>): seq<Row> {
    if ops == [] then rows else Exec(ExecAll(rows, Front(ops), pks), Last(ops), pks)
  }

  /** The rows of a table; a table that does not exist yet is empty. */
  function RowsIn(tables: map<string, seq<Row>>, table: string): seq<Row> {
    if table in tables then tables[table] else []
  }

  // ---- Table invariant -----------------------------------------------------------------

  /** No key occurs twice. */
  predicate UniqueKeys(rows: seq<Row>, pks: seq<string>) {
    rows == [] || (UniqueKeys(Front(rows), pks) && Find(Front(rows), KeyOf(Last(rows), pks), pks).None?)
  }

  predicate RowsOver(rows: seq<Row>, cols: set<string>, pks: seq<string>) {
    forall i :: 0 <= i < |rows| ==> rows[i].Keys == cols && NonNull(KeyOf(rows[i], pks))
  }

  /** Every row has exactly the table's columns and a non-null key, and no key occurs twice. */
  predicate TableOk(rows: seq<Row>, schema: seq<Column>) {
    && RowsOver(rows, AllColumns(schema), PrimaryKeys(schema))
    && UniqueKeys(rows, PrimaryKeys(schema))
  }

  // ---- Reference semantics --------------------------------------------------------------

  type View = map<Key, Row>

  function Lookup(m: View, k: Key): Option<Row> {
    if k in m then Some(m[k]) else None
  }

  function ViewOf(rows: seq<Row>, pks: seq<string>): View {
    if rows == [] then map[]
    else ViewOf(Front(rows), pks)[KeyOf(Last(rows), pks) := Last(rows)]
  }

  /** One change applied to the map from key to row. */
  function Apply(m: View, e: Event, schema: seq<Column>): View {
    var k := EventKey(e, PrimaryKeys(schema));
    if e.op.Delete? then m - {k} else m[k := Stored(e, schema)]
  }

  /** The changes applied one by one, in order. */
  function Replay(m: View, es: seq<Event>, schema: seq<Column>): View {
    if es == [] then m else Apply(Replay(m, Front(es), schema), Last(es), schema)
  }

  /** What sequential replay leaves at a key: the last event on it decides. */
  function Effect(last: Option<Event>, prior: Option<Row>, schema: seq<Column>): Option<Row> {
    match last
    case None => prior
    case Some(e) => if e.op.Delete? then None else Some(Stored(e, schema))
  }

  lemma {:induction false} ReplayAt(m: View, es: seq<Event>, k: Key, schema: seq<Column>)
    ensures Lookup(Replay(m, es, schema), k) == Effect(LastOf(es, k, PrimaryKeys(schema)), Lookup(m, k), schema)
  {
    if es != [] {
      ReplayAt(m, Front(es), k, schema);
    }
  }

  lemma {:induction false} ReplayConcat(m: View, a: seq<Event>, b: seq<Event>, schema: seq<Column>)
    ensures Replay(m, a + b, schema) == Replay(Replay(m, a, schema), b, schema)
  {
    if b == [] {
      assert a + b == a;
    } else {
      assert Front(a + b) == a + Front(b) && Last(a + b) == Last(b);
      ReplayConcat(m, a, Front(b), schema);
    }
  }

  lemma {:induction false} ViewLookup(rows: seq<Row>, k: Key, pks: seq<string>)
    ensures Lookup(ViewOf(rows, pks), k) == Find(rows, k, pks)
  {
    if rows != [] {
      ViewLookup(Front(rows), k, pks);
    }
  }

  lemma SameLookups(a: View, b: View)
    requires forall k :: Lookup(a, k) == Lookup(b, k)
    ensures a == b
  {
    assert forall k :: (k in a <==> Lookup(a, k).Some?) && (k in b <==> Lookup(b, k).Some?);
    assert forall k :: k in a ==> Lookup(a, k).value == a[k] && Lookup(b, k).value == b[k];
    assert a.Keys == b.Keys;
  }

  lemma {:induction false} FindIndex(rows: seq<Row>, k: Key, pks: seq<string>) returns (i: int)
    ensures Find(rows, k, pks).None? ==> i == -1 && forall j :: 0 <= j < |rows| ==> KeyOf(rows[j], pks) != k
    ensures Find(rows, k, pks).Some?
            ==> 0 <= i < |rows| && rows[i] == Find(rows, k, pks).value && KeyOf(rows[i], pks) == k
  {
    if rows == [] {
      i := -1;
    } else if KeyOf(Last(rows), pks) == k {
      i := |rows| - 1;
    } else {
      i := FindIndex(Front(rows), k, pks);
      assert forall j :: 0 <= j < |rows| ==> rows[j] == if j < |rows| - 1 then Front(rows)[j] else Last(rows);
    }
  }

  // ---- What each operation does to every key ---------------------------------------------

  /** A full key condition selects exactly the rows with that key. */
  predicate IsKeyCondition(cond: Where, k: Key, pks: seq<string>) {
    && NonNull(k) && |cond| == |pks| == |k|
    && forall i :: 0 <= i < |pks| ==> cond[i] == (pks[i], k[i])
  }

  lemma KeyConditionMatches(row: Row, cond: Where, k: Key, pks: seq<string>)
    requires IsKeyCondition(cond, k, pks)
    ensures RowMatches(row, cond) <==> KeyOf(row, pks) == k
  {
    forall i | 0 <= i < |pks| ensures k[i] != Null && KeyOf(row, pks)[i] == Get(row, cond[i].0) {
      assert k[i] in k;
    }
    if RowMatches(row, cond) {
      assert forall i :: 0 <= i < |pks| ==> KeyOf(row, pks)[i] == cond[i].1;
    }
    if KeyOf(row, pks) == k {
      assert forall i :: 0 <= i < |cond| ==> Get(row, cond[i].0) == KeyOf(row, pks)[i];
    }
  }

  lemma {:induction false} DeleteFinds(rows: seq<Row>, cond: Where, k: Key, q: Key, pks: seq<string>)
    requires IsKeyCondition(cond, k, pks)
    ensures Find(DeleteRows(rows, cond), q, pks) == if q == k then None else Find(rows, q, pks)
  {
    if rows != [] {
      var d, r := DeleteRows(Front(rows), cond), Last(rows);
      DeleteFinds(Front(rows), cond, k, q, pks);
      KeyConditionMatches(r, cond, k, pks);
      assert Front(d + [r]) == d && d + [] == d;
    }
  }

  lemma {:induction false} DeleteSound(rows: seq<Row>, cond: Where, k: Key, schema: seq<Column>)
    requires IsKeyCondition(cond, k, PrimaryKeys(schema))
    requires TableOk(rows, schema)
    ensures TableOk(DeleteRows(rows, cond), schema)
    ensures forall q :: Find(DeleteRows(rows, cond), q, PrimaryKeys(schema))
                     == if q == k then None else Find(rows, q, PrimaryKeys(schema))
  {
    var pks := PrimaryKeys(schema);
    forall q ensures Find(DeleteRows(rows, cond), q, pks) == if q == k then None else Find(rows, q, pks) {
      DeleteFinds(rows, cond, k, q, pks);
    }
    if rows != [] {
      DeleteSound(Front(rows), cond, k, schema);
      KeyConditionMatches(Last(rows), cond, k, pks);
      var d := DeleteRows(Front(rows), cond);
      assert d + [] == d;
      if KeyOf(Last(rows), pks) != k {
        SnocOk(d, Last(rows), schema);
      }
    }
  }

  lemma {:induction false} FindConcat(a: seq<Row>, b: seq<Row>, k: Key, pks: seq<string>)
    ensures Find(a + b, k, pks) == if Find(b, k, pks).Some? then Find(b, k, pks) else Find(a, k, pks)
  {
    if b == [] {
      assert a + b == a;
    } else {
      assert Front(a + b) == a + Front(b) && Last(a + b) == Last(b);
      FindConcat(a, Front(b), k, pks);
    }
  }

  /** No row of `src` has a key stored in `rows`. */
  ghost predicate NoneStored(rows: seq<Row>, src: seq<Row>, pks: seq<string>) {
    forall i :: 0 <= i < |src| ==> Find(rows, KeyOf(src[i], pks), pks).None?
  }

  lemma NoneStoredFront(rows: seq<Row>, src: seq<Row>, pks: seq<string>)
    requires src != [] && NoneStored(rows, src, pks)
    ensures NoneStored(rows, Front(src), pks) && Find(rows, KeyOf(Last(src), pks), pks).None?
  {
  }

  lemma {:induction false} AppendSound(rows: seq<Row>, src: seq<Row>, schema: seq<Column>)
    requires TableOk(rows, schema) && TableOk(src, schema) && NoneStored(rows, src, PrimaryKeys(schema))
    ensures TableOk(rows + src, schema)
  {
    if src == [] {
      assert rows + src == rows;
    } else {
      FrontOk(src, schema);
      NoneStoredFront(rows, src, PrimaryKeys(schema));
      AppendSound(rows, Front(src), schema);
      AppendOne(rows, src, schema);
    }
  }

  lemma AppendOne(rows: seq<Row>, src: seq<Row>, schema: seq<Column>)
    requires src != [] && TableOk(rows + Front(src), schema)
    requires Last(src).Keys == AllColumns(schema) && NonNull(KeyOf(Last(src), PrimaryKeys(schema)))
    requires Find(rows, KeyOf(Last(src), PrimaryKeys(schema)), PrimaryKeys(schema)).None?
    requires Find(Front(src), KeyOf(Last(src), PrimaryKeys(schema)), PrimaryKeys(schema)).None?
    ensures TableOk(rows + src, schema)
  {
    FindConcat(rows, Front(src), KeyOf(Last(src), PrimaryKeys(schema)), PrimaryKeys(schema));
    SnocOk(rows + Front(src), Last(src), schema);
    ConcatSnoc(rows, src);
  }

  lemma ConcatSnoc(rows: seq<Row>, src: seq<Row>)
    requires src != []
    ensures rows + src == (rows + Front(src)) + [Last(src)]
  {
  }

  lemma FrontOk(rows: seq<Row>, schema: seq<Column>)
    requires TableOk(rows, schema) && rows != []
    ensures var pks, r := PrimaryKeys(schema), Last(rows);
            && TableOk(Front(rows), schema) && r.Keys == AllColumns(schema) && NonNull(KeyOf(r, pks))
            && Find(Front(rows), KeyOf(r, pks), pks).None?
  {
  }

  /** One matched row keeps its key and takes the source row's values. */
  lemma OverlaySound(r: Row, src: seq<Row>, schema: seq<Column>) returns (n: Row)
    requires r.Keys == AllColumns(schema) && NonNull(KeyOf(r, PrimaryKeys(schema)))
    requires RowsOver(src, AllColumns(schema), PrimaryKeys(schema))
    ensures var pks, j := PrimaryKeys(schema), Joined(src, KeyOf(r, PrimaryKeys(schema)), PrimaryKeys(schema));
            && n == (if j.Some? then r + j.value else r)
            && n == (if j.Some? then j.value else r)
            && n.Keys == AllColumns(schema) && KeyOf(n, pks) == KeyOf(r, pks)
  {
    var pks := PrimaryKeys(schema);
    var j := Joined(src, KeyOf(r, pks), pks);
    n := r;
    if j.Some? {
      var i := FindIndex(src, KeyOf(r, pks), pks);
      assert r + j.value == j.value;
      n := j.value;
    }
  }

  lemma {:induction false} UpdatedSound(rows: seq<Row>, src: seq<Row>, schema: seq<Column>)
    requires TableOk(rows, schema)
    requires RowsOver(src, AllColumns(schema), PrimaryKeys(schema))
    ensures var pks, u := PrimaryKeys(schema), Updated(rows, src, PrimaryKeys(schema));
            && TableOk(u, schema)
            && forall k ::
                 Find(u, k, pks) == if Find(rows, k, pks).Some? && Find(src, k, pks).Some? then Find(src, k, pks)
                                    else Find(rows, k, pks)
  {
    var pks := PrimaryKeys(schema);
    if rows != [] {
      var f, r := Front(rows), Last(rows);
      UpdatedSound(f, src, schema);
      var n := OverlaySound(r, src, schema);
      assert Updated(rows, src, pks) == Updated(f, src, pks) + [n];
      SnocOk(Updated(f, src, pks), n, schema);
    }
  }

  lemma SnocOk(rows: seq<Row>, r: Row, schema: seq<Column>)
    requires TableOk(rows, schema) && r.Keys == AllColumns(schema)
    requires NonNull(KeyOf(r, PrimaryKeys(schema)))
    requires Find(rows, KeyOf(r, PrimaryKeys(schema)), PrimaryKeys(schema)).None?
    ensures TableOk(rows + [r], schema)
    ensures forall k :: Find(rows + [r], k, PrimaryKeys(schema))
                     == if k == KeyOf(r, PrimaryKeys(schema)) then Some(r) else Find(rows, k, PrimaryKeys(schema))
  {
    assert Front(rows + [r]) == rows && Last(rows + [r]) == r;
  }

  lemma {:induction false} UnmatchedFinds(rows: seq<Row>, src: seq<Row>, k: Key, pks: seq<string>)
    requires forall i :: 0 <= i < |src| ==> NonNull(KeyOf(src[i], pks))
    ensures Find(Unmatched(rows, src, pks), k, pks) == if Find(rows, k, pks).None? then Find(src, k, pks) else None
  {
    if src != [] {
      var u, r := Unmatched(rows, Front(src), pks), Last(src);
      UnmatchedFinds(rows, Front(src), k, pks);
      if Find(rows, KeyOf(r, pks), pks).None? {
        assert Front(u + [r]) == u && Last(u + [r]) == r;
      } else {
        assert u + [] == u;
      }
    }
  }

  lemma {:induction false} UnmatchedSound(rows: seq<Row>, src: seq<Row>, schema: seq<Column>)
    requires TableOk(rows, schema) && TableOk(src, schema)
    ensures var pks, u := PrimaryKeys(schema), Unmatched(rows, src, PrimaryKeys(schema));
            && TableOk(u, schema)
            && forall k :: Find(u, k, pks) == if Find(rows, k, pks).None? then Find(src, k, pks) else None
  {
    var pks := PrimaryKeys(schema);
    UnmatchedOk(rows, src, schema);
    forall k ensures Find(Unmatched(rows, src, pks), k, pks)
           == if Find(rows, k, pks).None? then Find(src, k, pks) else None {
      UnmatchedFinds(rows, src, k, pks);
    }
  }

  lemma {:induction false} UnmatchedOk(rows: seq<Row>, src: seq<Row>, schema: seq<Column>)
    requires TableOk(src, schema)
    ensures TableOk(Unmatched(rows, src, PrimaryKeys(schema)), schema)
  {
    var pks := PrimaryKeys(schema);
    if src != [] {
      var f, r := Front(src), Last(src);
      FrontOk(src, schema);
      UnmatchedOk(rows, f, schema);
      UnmatchedFinds(rows, f, KeyOf(r, pks), pks);
      var u := Unmatched(rows, f, pks);
      if Find(rows, KeyOf(r, pks), pks).None? {
        SnocOk(u, r, schema);
      } else {
        assert u + [] == u;
      }
    }
  }

  /** MERGE keeps the table well formed and overwrites exactly the source's keys. */
  lemma MergeSound(rows: seq<Row>, src: seq<Row>, schema: seq<Column>)
    requires TableOk(rows, schema) && TableOk(src, schema)
    ensures var pks, m := PrimaryKeys(schema), MergeRows(rows, src, PrimaryKeys(schema));
            && TableOk(m, schema)
            && forall k :: Find(m, k, pks) == if Find(src, k, pks).Some? then Find(src, k, pks) else Find(rows, k, pks)
  {
    var pks := PrimaryKeys(schema);
    UpdatedSound(rows, src, schema);
    UnmatchedSound(rows, src, schema);
    var u, n := Updated(rows, src, pks), Unmatched(rows, src, pks);
    forall i | 0 <= i < |n| ensures Find(u, KeyOf(n[i], pks), pks).None? {
      var _ := FindIndex(n, KeyOf(n[i], pks), pks);
    }
    AppendSound(u, n, schema);
    forall k ensures Find(u + n, k, pks) == if Find(src, k, pks).Some? then Find(src, k, pks) else Find(rows, k, pks) {
      FindConcat(u, n, k, pks);
    }
  }

  lemma {:induction false} ExecConcat(rows: seq<Row>, a: seq<TableOp>, b: seq<TableOp>, pks: seq<string>)
    ensures ExecAll(rows, a + b, pks) == ExecAll(ExecAll(rows, a, pks), b, pks)
  {
    if b == [] {
      assert a + b == a;
    } else {
      assert Front(a + b) == a + Front(b) && Last(a + b) == Last(b);
      ExecConcat(rows, a, Front(b), pks);
    }
  }

  /** With unique keys a row is stored once if it is what its key finds, and not at all otherwise. */
  lemma {:induction false} CountRow(rows: seq<Row>, r: Row, pks: seq<string>)
    requires UniqueKeys(rows, pks)
    ensures multiset(rows)[r] == if Find(rows, KeyOf(r, pks), pks) == Some(r) then 1 else 0
  {
    if rows != [] {
      CountRow(Front(rows), r, pks);
      assert rows == Front(rows) + [Last(rows)];
    }
  }

  /** Two tables with unique keys and the same row at every key are the same bag of rows. */
  lemma ViewDeterminesBag(a: seq<Row>, b: seq<Row>, pks: seq<string>)
    requires UniqueKeys(a, pks) && UniqueKeys(b, pks)
    requires forall k :: Find(a, k, pks) == Find(b, k, pks)
    ensures multiset(a) == multiset(b)
  {
    forall r ensures multiset(a)[r] == multiset(b)[r] {
      CountRow(a, r, pks);
      CountRow(b, r, pks);
    }
  }

  /** And conversely. */
  lemma BagDeterminesView(a: seq<Row>, b: seq<Row>, k: Key, pks: seq<string>)
    requires UniqueKeys(a, pks) && UniqueKeys(b, pks) && multiset(a) == multiset(b)
    ensures Find(a, k, pks) == Find(b, k, pks)
  {
    var i := FindIndex(a, k, pks);
    var j := FindIndex(b, k, pks);
    if i >= 0 {
      CountRow(a, a[i], pks);
      CountRow(b, a[i], pks);
    } else if j >= 0 {
      CountRow(a, b[j], pks);
      CountRow(b, b[j], pks);
    }
  }
}
