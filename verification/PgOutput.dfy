// PostgreSQL's pgoutput messages (section 55.9, "Logical Replication Message Formats", of the
// PostgreSQL 16 documentation): the decoder with its relation cache, and the encoder it must invert.
module PgOutput {
  import opened Prelude

  type Byte = b: int | 0 <= b < 256
  type Bytes = seq<Byte>

  const R: Byte := 82
  const I: Byte := 73
  const U: Byte := 85
  const D: Byte := 68
  const N: Byte := 78
  const K: Byte := 75
  const O: Byte := 79
  const KIND_NULL: Byte := 110
  const KIND_UNCHANGED: Byte := 117
  const KIND_TEXT: Byte := 116

  datatype Column = Column(name: Bytes, oid: nat, key: bool)
  datatype Relation = Relation(namespace: Bytes, name: Bytes, columns: seq<Column>)
  type Relations = map<nat, Relation>

  /** Column values by name; no value stands for null. */
  type Row = map<Bytes, Option<Bytes>>

  datatype Operation = Insert | Update | Delete
  datatype Change = Change(op: Operation, table: Bytes, before: Option<Row>, after: Option<Row>, schema: seq<Column>)

  // ---- Reading -------------------------------------------------------------------------------------------
  // No value means that the source raises: a struct.error, an IndexError or a ValueError.

  /** What was read, and the position after it. */
  datatype Read<+T> = Read(value: T, next: nat)

  /** A relation and its id. */
  datatype Named = Named(id: nat, rel: Relation)

  function U16At(data: Bytes, pos: nat): Option<nat> {
    if pos + 2 <= |data| then Some((data[pos] as int) * 256 + data[pos + 1] as int) else None
  }

  function U32At(data: Bytes, pos: nat): Option<nat> {
    if pos + 4 <= |data| then Some(U16At(data, pos).value * 65536 + U16At(data, pos + 2).value) else None
  }

  /** `data.index(0, pos)`. */
  function ZeroAt(data: Bytes, pos: nat): (z: Option<nat>)
    ensures z.Some? ==> pos <= z.value < |data|
    decreases |data| - pos
  {
    if pos >= |data| then None else if data[pos] == 0 then Some(pos) else ZeroAt(data, pos + 1)
  }

  /** `data[lo:hi]`, which stops at the end of the data. */
  function Slice(data: Bytes, lo: nat, hi: nat): Bytes {
    if lo <= hi && lo <= |data| then data[lo..Min(hi, |data|)] else []
  }

  /** One column of a relation and the position after it. */
  function ColumnAt(data: Bytes, pos: nat): Option<Read<Column>> {
    if pos >= |data| then None
    else match ZeroAt(data, pos + 1)
      case None => None
      case Some(end) =>
        match U32At(data, end + 1)
        case None => None
        case Some(oid) => Some(Read(Column(data[pos + 1..end], oid, data[pos] % 2 == 1), end + 9))
  }

  function ColumnsAt(data: Bytes, pos: nat, n: nat, columns: seq<Column>): Option<seq<Column>>
    decreases n
  {
    if n == 0 then Some(columns)
    else match ColumnAt(data, pos)
      case None => None
      case Some(c) => ColumnsAt(data, c.next, n - 1, columns + [c.value])
  }

  function RelationAt(data: Bytes, pos: nat): Option<Named> {
    var id := U32At(data, pos);
    var nsEnd := ZeroAt(data, pos + 4);
    if id.None? || nsEnd.None? then None
    else
      var nameEnd := ZeroAt(data, nsEnd.value + 1);
      if nameEnd.None? then None
      else match U16At(data, nameEnd.value + 2)
        case None => None
        case Some(n) =>
          match ColumnsAt(data, nameEnd.value + 4, n, [])
          case None => None
          case Some(columns) =>
            Some(Named(id.value, Relation(data[pos + 4..nsEnd.value], data[nsEnd.value + 1..nameEnd.value], columns)))
  }

  /** One tuple cell: its effect on the row and the position after it. Other kinds than the three
      known ones add nothing and take one byte. */
  function CellAt(data: Bytes, pos: nat, name: Bytes, row: Row): Option<Read<Row>> {
    if pos >= |data| then None
    else if data[pos] == KIND_NULL || data[pos] == KIND_UNCHANGED then Some(Read(row[name := None], pos + 1))
    else if data[pos] == KIND_TEXT then
      match U32At(data, pos + 1)
      case None => None
      case Some(length) => Some(Read(row[name := Some(Slice(data, pos + 5, pos + 5 + length))], pos + 5 + length))
    else Some(Read(row, pos + 1))
  }

  /** Cells `k` to `n`, one per column. */
  function CellsAt(data: Bytes, pos: nat, columns: seq<Column>, k: nat, n: nat, row: Row): Option<Read<Row>>
    requires k <= n <= |columns|
    decreases n - k
  {
    if k == n then Some(Read(row, pos))
    else match CellAt(data, pos, columns[k].name, row)
      case None => None
      case Some(c) => CellsAt(data, c.next, columns, k + 1, n, c.value)
  }

  function TupleAt(data: Bytes, pos: nat, columns: seq<Column>): Option<Read<Row>> {
    match U16At(data, pos)
    case None => None
    case Some(n) => CellsAt(data, pos + 2, columns, 0, Min(n, |columns|), map[])
  }

  const PUBLIC: Bytes := [112, 117, 98, 108, 105, 99]
  const UNKNOWN: Bytes := [117, 110, 107, 110, 111, 119, 110]
  const DOT: Bytes := [46]

  function RelationOf(relations: Relations, id: nat): Relation {
    if id in relations then relations[id] else Relation(PUBLIC, UNKNOWN, [])
  }

  function TableOf(rel: Relation): Bytes {
    rel.namespace + DOT + rel.name
  }

  function InsertAt(data: Bytes, pos: nat, rel: Relation): Option<Change> {
    match TupleAt(data, pos + 1, rel.columns)
    case None => None
    case Some(t) => Some(Change(Insert, TableOf(rel), None, Some(t.value), rel.columns))
  }

  function UpdateAt(data: Bytes, pos: nat, rel: Relation): Option<Change> {
    if pos >= |data| then None
    else if data[pos] == K || data[pos] == O then
      match TupleAt(data, pos + 1, rel.columns)
      case None => None
      case Some(before) =>
        match TupleAt(data, before.next + 1, rel.columns)
        case None => None
        case Some(after) => Some(Change(Update, TableOf(rel), Some(before.value), Some(after.value), rel.columns))
    else
      match TupleAt(data, pos + 1, rel.columns)
      case None => None
      case Some(after) => Some(Change(Update, TableOf(rel), None, Some(after.value), rel.columns))
  }

  function DeleteAt(data: Bytes, pos: nat, rel: Relation): Option<Change> {
    match TupleAt(data, pos + 1, rel.columns)
    case None => None
    case Some(t) => Some(Change(Delete, TableOf(rel), Some(t.value), None, rel.columns))
  }

  /** The relation cache and the changes after one message. */
  datatype Outcome = Outcome(relations: Relations, changes: seq<Change>)

  function WithChange(relations: Relations, change: Option<Change>): Option<Outcome> {
    match change case None => None case Some(c) => Some(Outcome(relations, [c]))
  }

  function Decode(data: Bytes, relations: Relations): Option<Outcome> {
    if data == [] then Some(Outcome(relations, []))
    else if data[0] == R then
      match RelationAt(data, 1)
      case None => None
      case Some(r) => Some(Outcome(relations[r.id := r.rel], []))
    else if data[0] != I && data[0] != U && data[0] != D then Some(Outcome(relations, []))
    else match U32At(data, 1)
      case None => None
      case Some(id) =>
        var rel := RelationOf(relations, id);
        WithChange(relations,
          if data[0] == I then InsertAt(data, 5, rel)
          else if data[0] == U then UpdateAt(data, 5, rel)
          else DeleteAt(data, 5, rel))
  }

  function DecodeAll(messages: seq<Bytes>, relations: Relations): Option<Outcome>
    decreases |messages|
  {
    if messages == [] then Some(Outcome(relations, []))
    else match Decode(messages[0], relations)
      case None => None
      case Some(first) =>
        match DecodeAll(messages[1..], first.relations)
        case None => None
        case Some(rest) => Some(Outcome(rest.relations, first.changes + rest.changes))
  }

  // ---- The decoder -----------------------------------------------------------------------------------------

  class Decoder {
    var relations: Relations

    constructor ()
      ensures relations == map[]
    {
      relations := map[];
    }

    /** The relation goes into the cache, unless reading it fails. */
    method ParseRelation(data: Bytes) returns (ok: bool)
      modifies this
      ensures ok == RelationAt(data, 1).Some?
      ensures relations == match RelationAt(data, 1)
                           case Some(r) => old(relations)[r.id := r.rel]
                           case None => old(relations)
    {
      var id := U32At(data, 1);
      var nsEnd := ZeroAt(data, 5);
      if id.None? || nsEnd.None? {
        return false;
      }
      var pos := nsEnd.value + 1;
      var nameEnd := ZeroAt(data, pos);
      if nameEnd.None? {
        return false;
      }
      pos := nameEnd.value + 2;
      var n := U16At(data, pos);
      if n.None? {
        return false;
      }
      var columns := ParseColumns(data, pos + 2, n.value);
      if columns.None? {
        return false;
      }
      var rel := Relation(data[5..nsEnd.value], data[nsEnd.value + 1..nameEnd.value], columns.value);
      relations := relations[id.value := rel];
      ok := true;
    }

    method ParseColumns(data: Bytes, start: nat, n: nat) returns (r: Option<seq<Column>>)
      ensures r == ColumnsAt(data, start, n, [])
    {
      var pos := start;
      var columns: seq<Column> := [];
      for k := 0 to n
        invariant ColumnsAt(data, start, n, []) == ColumnsAt(data, pos, n - k, columns)
      {
        var c := ColumnAt(data, pos);
        if c.None? {
          return None;
        }
        columns := columns + [c.value.value];
        pos := c.value.next;
      }
      r := Some(columns);
    }

    method DecodeTuple(data: Bytes, start: nat, columns: seq<Column>) returns (r: Option<Read<Row>>)
      ensures r == TupleAt(data, start, columns)
    {
      var count := U16At(data, start);
      if count.None? {
        return None;
      }
      var n := Min(count.value, |columns|);
      var row: Row := map[];
      var pos: nat := start + 2;
      for k := 0 to n
        invariant TupleAt(data, start, columns) == CellsAt(data, pos, columns, k, n, row)
      {
        if pos >= |data| {
          return None;
        }
        var kind := data[pos];
        pos := pos + 1;
        if kind == KIND_NULL || kind == KIND_UNCHANGED {
          row := row[columns[k].name := None];
        } else if kind == KIND_TEXT {
          var length := U32At(data, pos);
          if length.None? {
            return None;
          }
          pos := pos + 4;
          row := row[columns[k].name := Some(Slice(data, pos, pos + length.value))];
          pos := pos + length.value;
        }
      }
      r := Some(Read(row, pos));
    }

    method ParseChange(data: Bytes, rel: Relation) returns (change: Option<Change>)
      requires |data| >= 5 && (data[0] == I || data[0] == U || data[0] == D)
      ensures change == if data[0] == I then InsertAt(data, 5, rel)
                        else if data[0] == U then UpdateAt(data, 5, rel)
                        else DeleteAt(data, 5, rel)
    {
      var pos := 5;
      if data[0] == U {
        if pos >= |data| {
          return None;
        }
        var kind := data[pos];
        pos := pos + 1;
        var before: Option<Row> := None;
        if kind == K || kind == O {
          var oldTuple := DecodeTuple(data, pos, rel.columns);
          if oldTuple.None? {
            return None;
          }
          before := Some(oldTuple.value.value);
          pos := oldTuple.value.next + 1;
        }
        var after := DecodeTuple(data, pos, rel.columns);
        return if after.None? then None
          else Some(Change(Update, TableOf(rel), before, Some(after.value.value), rel.columns));
      }
      var t := DecodeTuple(data, pos + 1, rel.columns);
      if t.None? {
        change := None;
      } else if data[0] == I {
        change := Some(Change(Insert, TableOf(rel), None, Some(t.value.value), rel.columns));
      } else {
        change := Some(Change(Delete, TableOf(rel), Some(t.value.value), None, rel.columns));
      }
    }

    method ParseMessage(data: Bytes) returns (changes: Option<seq<Change>>)
      modifies this
      ensures changes == match Decode(data, old(relations)) case Some(o) => Some(o.changes) case None => None
      ensures relations == match Decode(data, old(relations)) case Some(o) => o.relations case None => old(relations)
    {
      if data == [] {
        return Some([]);
      }
      if data[0] == R {
        var ok := ParseRelation(data);
        return if ok then Some([]) else None;
      }
      if data[0] != I && data[0] != U && data[0] != D {
        return Some([]);
      }
      var id := U32At(data, 1);
      if id.None? {
        return None;
      }
      var change := ParseChange(data, RelationOf(relations, id.value));
      changes := if change.None? then None else Some([change.value]);
    }
  }
}
