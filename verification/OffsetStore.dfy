// Two durable maps from (source, table) to the last committed offset. The backends differ in how
// they store "no offset": SQLite keeps a row holding JSON null, PostgreSQL deletes the row.
module OffsetStore {
  import opened Prelude

  type Slot = (string, string)

  /** The durable map the rows of each backend stand for. */
  function SqliteValue<V>(rows: map<Slot, Option<V>>, slot: Slot): Option<V> {
    if slot in rows then rows[slot] else None
  }

  function PostgresValue<V>(rows: map<Slot, V>, slot: Slot): Option<V> {
    if slot in rows then Some(rows[slot]) else None
  }

  class SqliteOffsetStore<V(!new)> {
    var rows: map<Slot, Option<V>>

    constructor ()
      ensures rows == map[]
    {
      rows := map[];
    }

    function Committed(slot: Slot): Option<V>
      reads this
    {
      SqliteValue(rows, slot)
    }

    method Lookup(source: string, table: string) returns (offset: Option<V>)
      ensures offset == Committed((source, table))
    {
      if (source, table) in rows {
        offset := rows[(source, table)];
      } else {
        offset := None;
      }
    }

    method Commit(source: string, table: string, offset: Option<V>)
      modifies this
      ensures Committed((source, table)) == offset
      ensures forall s :: s != (source, table) ==> SqliteValue(rows, s) == SqliteValue(old(rows), s)
      ensures rows.Keys == old(rows.Keys) + {(source, table)}
    {
      rows := rows[(source, table) := offset];
    }
  }

  class PostgresOffsetStore<V(!new)> {
    var rows: map<Slot, V>

    constructor ()
      ensures rows == map[]
    {
      rows := map[];
    }

    function Committed(slot: Slot): Option<V>
      reads this
    {
      PostgresValue(rows, slot)
    }

    method Lookup(source: string, table: string) returns (offset: Option<V>)
      ensures offset == Committed((source, table))
    {
      if (source, table) in rows {
        offset := Some(rows[(source, table)]);
      } else {
        offset := None;
      }
    }

    method Commit(source: string, table: string, offset: Option<V>)
      modifies this
      ensures Committed((source, table)) == offset
      ensures forall s :: s != (source, table) ==> PostgresValue(rows, s) == PostgresValue(old(rows), s)
      ensures rows.Keys == if offset.Some? then old(rows.Keys) + {(source, table)}
              else old(rows.Keys) - {(source, table)}
    {
      if offset.None? {
        rows := rows - {(source, table)};
      } else {
        rows := rows[(source, table) := offset.value];
      }
    }
  }

  /** Equal commits leave the two backends with equal answers to every lookup. */
  method CommitToBoth<V(!new)>(a: SqliteOffsetStore<V>, b: PostgresOffsetStore<V>,
                               source: string, table: string, offset: Option<V>)
    requires forall s :: SqliteValue(a.rows, s) == PostgresValue(b.rows, s)
    modifies a, b
    ensures forall s :: SqliteValue(a.rows, s) == PostgresValue(b.rows, s)
  {
    a.Commit(source, table, offset);
    b.Commit(source, table, offset);
  }
}
