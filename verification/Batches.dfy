// What both sinks do to a batch before writing it: group by table, deduplicate by key.
module Batches {
  import opened Prelude
  import opened Events
  import opened TargetTable

  function OfTable(es: seq<Event>, table: string): seq<Event> {
    if es == [] then []
    else OfTable(Front(es), table) + (if Last(es).table == table then [Last(es)] else [])
  }

  lemma {:induction false} OfTableMembers(es: seq<Event>, table: string)
    ensures forall e :: e in OfTable(es, table) <==> e in es && e.table == table
  {
    if es != [] {
      OfTableMembers(Front(es), table);
      assert es == Front(es) + [Last(es)];
    }
  }

  /** `out` are exactly the events of one table, in batch order. */
  ghost predicate IsShareOf(out: seq<Event>, es: seq<Event>, table: string) {
    exists ix: seq<nat> :: IsShareAt(out, es, table, ix)
  }

  predicate IsShareAt(out: seq<Event>, es: seq<Event>, table: string, ix: seq<nat>) {
    IsSelection(out, es, ix) && forall i :: 0 <= i < |es| ==> (i in ix <==> es[i].table == table)
  }

  lemma {:induction false} OfTableInOrder(es: seq<Event>, table: string) returns (ix: seq<nat>)
    ensures IsShareAt(OfTable(es, table), es, table, ix)
  {
    if es == [] {
      ix := [];
    } else {
      var f := OfTableInOrder(Front(es), table);
      ix := ShareSnoc(OfTable(Front(es), table), es, table, f);
    }
  }

  lemma ShareSnoc(out: seq<Event>, es: seq<Event>, table: string, f: seq<nat>) returns (ix: seq<nat>)
    requires es != [] && IsShareAt(out, Front(es), table, f)
    ensures IsShareAt(out + (if Last(es).table == table then [Last(es)] else []), es, table, ix)
  {
    SelectionSnoc(out, es, f);
    ix := NextIndex(f, |es| - 1, Last(es).table == table);
    forall i | 0 <= i < |es| ensures i in ix <==> es[i].table == table {
      if i < |es| - 1 { assert Front(es)[i] == es[i]; }
    }
  }

  lemma OfTableIsShare(es: seq<Event>, table: string)
    ensures IsShareOf(OfTable(es, table), es, table)
  {
    var ix := OfTableInOrder(es, table);
  }

  /** Every event is of the table. */
  predicate OneTable(es: seq<Event>, table: string) {
    forall i :: 0 <= i < |es| ==> es[i].table == table
  }

  lemma {:induction false} WholeShare(es: seq<Event>, table: string)
    requires OneTable(es, table)
    ensures OfTable(es, table) == es
  {
    if es != [] {
      WholeShare(Front(es), table);
      assert es == Front(es) + [Last(es)];
    }
  }

  function Tables(order: seq<string>): set<string> {
    set t | t in order
  }

  predicate Distinct(order: seq<string>) {
    forall i, j :: 0 <= i < j < |order| ==> order[i] != order[j]
  }

  lemma NextTable(order: seq<string>, i: nat)
    requires i < |order| && Distinct(order)
    ensures order[i] in Tables(order) && order[i] !in Tables(order[..i])
    ensures Tables(order[..i + 1]) == Tables(order[..i]) + {order[i]}
  {
    assert order[..i + 1] == order[..i] + [order[i]];
  }

  /** The `by_table` dictionary: its keys in insertion order, and each table's events in batch order. */
  method GroupByTable(events: seq<Event>) returns (tables: seq<string>, groups: map<string, seq<Event>>)
    ensures groups.Keys == Tables(tables) && Distinct(tables)
    ensures forall t :: t in groups ==> groups[t] != [] && IsShareOf(groups[t], events, t)
    ensures forall t :: t in groups ==> groups[t] == OfTable(events, t)
    ensures forall t :: t !in groups ==> OfTable(events, t) == []
  {
    tables, groups := [], map[];
    for i := 0 to |events|
      invariant groups.Keys == Tables(tables) && Distinct(tables)
      invariant forall t :: t in groups ==> groups[t] != [] && groups[t] == OfTable(events[..i], t)
      invariant forall t :: t !in groups ==> OfTable(events[..i], t) == []
    {
      var ev := events[i];
      assert Front(events[..i + 1]) == events[..i] && Last(events[..i + 1]) == ev;
      if ev.table !in groups {
        tables, groups := tables + [ev.table], groups[ev.table := []];
      }
      groups := groups[ev.table := groups[ev.table] + [ev]];
    }
    assert events[..|events|] == events;
    forall t { OfTableIsShare(events, t); }
  }

  /** The tables in `done` have been written, the others are as they were. */
  ghost predicate Progress(start: map<string, seq<Row>>, now: map<string, seq<Row>>, done: set<string>,
                           after: string -> seq<Row>)
  {
    && now.Keys == start.Keys + done
    && forall t :: RowsIn(now, t) == if t in done then after(t) else RowsIn(start, t)
  }

  lemma ProgressStep(start: map<string, seq<Row>>, now: map<string, seq<Row>>, done: set<string>,
                     after: string -> seq<Row>, t: string)
    requires Progress(start, now, done, after) && t !in done
    ensures Progress(start, now[t := after(t)], done + {t}, after)
  {
  }

  // ---- Two deduplications ----------------------------------------------------------------

  /** Index of the first event with key `k`, or the length. */
  function IndexOfKey(es: seq<Event>, k: Key, pks: seq<string>): nat {
    if es == [] || EventKey(es[0], pks) == k then 0 else 1 + IndexOfKey(es[1..], k, pks)
  }

  /** An insertion-ordered dictionary overwritten key by key: the position of a key is that of
      its first event, the value is its last. */
  function DictDedup(es: seq<Event>, pks: seq<string>): seq<Event> {
    if es == [] then []
    else
      var d, e := DictDedup(Front(es), pks), Last(es);
      var i := IndexOfKey(d, EventKey(e, pks), pks);
      if i < |d| then d[i := e] else d + [e]
  }

  /** The scan from the end that keeps the first event it sees on each key, restored to batch order. */
  function ScanDedup(es: seq<Event>, pks: seq<string>): seq<Event> {
    if es == [] then []
    else
      var rest := ScanDedup(es[1..], pks);
      if es[0].after.None? || HasEvent(rest, EventKey(es[0], pks), pks) then rest else [es[0]] + rest
  }

  predicate HasEvent(es: seq<Event>, k: Key, pks: seq<string>) {
    exists i :: 0 <= i < |es| && EventKey(es[i], pks) == k
  }

  predicate DistinctKeys(es: seq<Event>, pks: seq<string>) {
    forall i, j :: 0 <= i < j < |es| ==> EventKey(es[i], pks) != EventKey(es[j], pks)
  }

  /** `a` keeps some events of `b`, in `b`'s order. */
  predicate Subsequence(a: seq<Event>, b: seq<Event>) {
    if a == [] then true
    else if b == [] then false
    else if a[0] == b[0] && Subsequence(a[1..], b[1..]) then true
    else Subsequence(a, b[1..])
  }

  lemma {:induction false} IndexOfKeyFinds(es: seq<Event>, k: Key, pks: seq<string>)
    ensures IndexOfKey(es, k, pks) <= |es|
    ensures IndexOfKey(es, k, pks) < |es| ==> EventKey(es[IndexOfKey(es, k, pks)], pks) == k
    ensures IndexOfKey(es, k, pks) == |es| <==> !HasEvent(es, k, pks)
  {
    if es != [] {
      IndexOfKeyFinds(es[1..], k, pks);
      if HasEvent(es[1..], k, pks) {
        var i :| 0 <= i < |es[1..]| && EventKey(es[1..][i], pks) == k;
        assert es[i + 1] == es[1..][i];
      }
      if EventKey(es[0], pks) != k && HasEvent(es, k, pks) {
        var i :| 0 <= i < |es| && EventKey(es[i], pks) == k;
        assert es[1..][i - 1] == es[i];
      }
    }
  }

  lemma {:induction false} LastOfUpdate(d: seq<Event>, i: nat, e: Event, k: Key, pks: seq<string>)
    requires i < |d| && DistinctKeys(d, pks) && EventKey(d[i], pks) == EventKey(e, pks)
    ensures LastOf(d[i := e], k, pks) == if EventKey(e, pks) == k then Some(e) else LastOf(d, k, pks)
  {
    if i == |d| - 1 {
      assert Front(d[i := e]) == Front(d);
    } else {
      assert Front(d[i := e]) == Front(d)[i := e];
      LastOfUpdate(Front(d), i, e, k, pks);
    }
  }

  /** The overwritten dictionary holds the last event of every key, once. */
  lemma {:induction false} DictDedupIsLast(es: seq<Event>, pks: seq<string>)
    ensures DistinctKeys(DictDedup(es, pks), pks)
    ensures forall e :: e in DictDedup(es, pks) ==> e in es
    ensures forall k :: LastOf(DictDedup(es, pks), k, pks) == LastOf(es, k, pks)
  {
    if es != [] {
      DictDedupIsLast(Front(es), pks);
      var d, e := DictDedup(Front(es), pks), Last(es);
      var k := EventKey(e, pks);
      var i := IndexOfKey(d, k, pks);
      IndexOfKeyFinds(d, k, pks);
      assert es == Front(es) + [e];
      if i < |d| {
        forall q ensures LastOf(d[i := e], q, pks) == LastOf(es, q, pks) {
          LastOfUpdate(d, i, e, q, pks);
        }
      } else {
        assert Front(d + [e]) == d;
      }
    }
  }

  /** The events with an after-image, in order. */
  function WithImage(es: seq<Event>): seq<Event> {
    if es == [] then []
    else (if es[0].after.Some? then [es[0]] else []) + WithImage(es[1..])
  }

  /** The reversed scan holds the last event of every key among those with an after-image, and keeps
      the batch order. */
  lemma {:induction false} ScanDedupIsLast(es: seq<Event>, pks: seq<string>)
    ensures DistinctKeys(ScanDedup(es, pks), pks) && Subsequence(ScanDedup(es, pks), es)
    ensures forall e :: e in ScanDedup(es, pks) ==> e in es && e.after.Some?
    ensures forall k :: LastOf(ScanDedup(es, pks), k, pks) == LastOf(WithImage(es), k, pks)
  {
    if es != [] {
      ScanDedupIsLast(es[1..], pks);
      assert es == [es[0]] + es[1..];
      forall k ensures LastOf(ScanDedup(es, pks), k, pks) == LastOf(WithImage(es), k, pks) {
        ScanDedupStep(es, k, pks);
      }
      SubsequenceSkips(ScanDedup(es[1..], pks), es[1..], es[0]);
    }
  }

  lemma ScanDedupStep(es: seq<Event>, k: Key, pks: seq<string>)
    requires es != [] && LastOf(ScanDedup(es[1..], pks), k, pks) == LastOf(WithImage(es[1..]), k, pks)
    ensures LastOf(ScanDedup(es, pks), k, pks) == LastOf(WithImage(es), k, pks)
  {
    var e, rest := es[0], ScanDedup(es[1..], pks);
    LastOfConcat([e], WithImage(es[1..]), k, pks);
    LastOfConcat([e], rest, k, pks);
    LastOfMember(rest, k, pks);
    assert Front([e]) == [];
    assert [] + WithImage(es[1..]) == WithImage(es[1..]);
  }

  lemma {:induction false} AllImages(es: seq<Event>)
    requires forall e :: e in es ==> e.after.Some?
    ensures WithImage(es) == es
  {
    if es != [] {
      assert es == [es[0]] + es[1..];
      AllImages(es[1..]);
    }
  }

  lemma SubsequenceSkips(a: seq<Event>, b: seq<Event>, e: Event)
    requires Subsequence(a, b)
    ensures Subsequence(a, [e] + b) && Subsequence([e] + a, [e] + b)
  {
    assert ([e] + b)[1..] == b && ([e] + a)[1..] == a;
  }

  /** Leaving out the events without an after-image changes nothing at a key whose last event has one. */
  lemma {:induction false} LastWithImage(es: seq<Event>, k: Key, pks: seq<string>)
    requires LastOf(es, k, pks).Some? ==> LastOf(es, k, pks).value.after.Some?
    ensures LastOf(WithImage(es), k, pks) == LastOf(es, k, pks)
    decreases |es|
  {
    if es != [] {
      assert es == [es[0]] + es[1..] && Front([es[0]]) == [];
      LastOfConcat([es[0]], es[1..], k, pks);
      LastWithImage(es[1..], k, pks);
      LastOfConcat([es[0]], WithImage(es[1..]), k, pks);
      assert [] + WithImage(es[1..]) == WithImage(es[1..]);
    }
  }

  /** The two deduplications keep the same events exactly when the last event of every key has an
      after-image: without one the dictionary keeps the event and the scan does not. */
  lemma DedupsAgreeIff(es: seq<Event>, pks: seq<string>)
    ensures multiset(DictDedup(es, pks)) == multiset(ScanDedup(es, pks))
            <==> forall k :: LastOf(es, k, pks).Some? ==> LastOf(es, k, pks).value.after.Some?
  {
    var d, s := DictDedup(es, pks), ScanDedup(es, pks);
    DictDedupIsLast(es, pks);
    ScanDedupIsLast(es, pks);
    if forall k :: LastOf(es, k, pks).Some? ==> LastOf(es, k, pks).value.after.Some? {
      forall k ensures LastOf(d, k, pks) == LastOf(s, k, pks) {
        LastWithImage(es, k, pks);
      }
      SameLastsSameEvents(d, s, pks);
    } else {
      var k :| LastOf(es, k, pks).Some? && LastOf(es, k, pks).value.after.None?;
      DedupsDiffer(es, k, pks);
    }
  }

  lemma DedupsDiffer(es: seq<Event>, k: Key, pks: seq<string>)
    requires LastOf(es, k, pks).Some? && LastOf(es, k, pks).value.after.None?
    ensures multiset(DictDedup(es, pks)) != multiset(ScanDedup(es, pks))
  {
    var e := LastOf(es, k, pks).value;
    DictDedupIsLast(es, pks);
    ScanDedupIsLast(es, pks);
    LastOfMember(DictDedup(es, pks), k, pks);
    assert e in multiset(DictDedup(es, pks)) && e !in multiset(ScanDedup(es, pks));
  }

  lemma {:induction false} SameLastsSameEvents(a: seq<Event>, b: seq<Event>, pks: seq<string>)
    requires DistinctKeys(a, pks) && DistinctKeys(b, pks)
    requires forall k :: LastOf(a, k, pks) == LastOf(b, k, pks)
    ensures multiset(a) == multiset(b)
  {
    forall e ensures multiset(a)[e] == multiset(b)[e] {
      CountOne(a, e, pks);
      CountOne(b, e, pks);
    }
  }

  lemma {:induction false} CountOne(a: seq<Event>, e: Event, pks: seq<string>)
    requires DistinctKeys(a, pks)
    ensures multiset(a)[e] == if LastOf(a, EventKey(e, pks), pks) == Some(e) then 1 else 0
  {
    if a != [] {
      CountOne(Front(a), e, pks);
      assert a == Front(a) + [Last(a)];
      LastOfMember(Front(a), EventKey(e, pks), pks);
    }
  }

  // ---- Rows of an event list -------------------------------------------------------------

  lemma {:induction false} FindStored(es: seq<Event>, k: Key, schema: seq<Column>)
    requires PlainSchema(schema)
    ensures var pks := PrimaryKeys(schema);
            Find(StoredAll(es, schema), k, pks)
            == if LastOf(es, k, pks).Some? then Some(Stored(LastOf(es, k, pks).value, schema)) else None
  {
    if es != [] {
      FindStored(Front(es), k, schema);
      assert Front(StoredAll(es, schema)) == StoredAll(Front(es), schema);
      StoredKey(Last(es), schema);
    }
  }

  lemma {:induction false} StoredUnique(es: seq<Event>, schema: seq<Column>)
    requires PlainSchema(schema) && DistinctKeys(es, PrimaryKeys(schema))
    ensures UniqueKeys(StoredAll(es, schema), PrimaryKeys(schema))
  {
    if es != [] {
      var pks := PrimaryKeys(schema);
      StoredUnique(Front(es), schema);
      assert Front(StoredAll(es, schema)) == StoredAll(Front(es), schema);
      StoredKey(Last(es), schema);
      FindStored(Front(es), EventKey(Last(es), pks), schema);
      LastOfMember(Front(es), EventKey(Last(es), pks), pks);
    }
  }

  lemma StoredOk(es: seq<Event>, schema: seq<Column>)
    requires KeyedSchema(schema) && DistinctKeys(es, PrimaryKeys(schema))
    requires forall e :: e in es ==> WellFormed(e, schema)
    ensures TableOk(StoredAll(es, schema), schema)
  {
    StoredUnique(es, schema);
    forall i | 0 <= i < |es| ensures NonNull(KeyOf(StoredAll(es, schema)[i], PrimaryKeys(schema))) {
      assert es[i] in es;
      StoredKey(es[i], schema);
      HasKeyNonNull(Image(es[i]), PrimaryKeys(schema));
    }
  }
}
