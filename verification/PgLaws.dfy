// The pgoutput encoder, and the decoder as its inverse over whole message sequences.
module PgLaws {
  import opened Prelude
  import opened PgOutput

  datatype Cell = NullCell | UnchangedCell | TextCell(bytes: Bytes)

  /** What the server sends. `identity` is the replica identity setting, `modifiers` the columns' type
      modifiers; the decoder skips both. `byKey` tells a key tuple from a full old tuple. */
  datatype Message =
    | RelationMessage(id: nat, rel: Relation, identity: Byte, modifiers: seq<nat>)
    | InsertMessage(id: nat, after: seq<Cell>)
    | UpdateMessage(id: nat, before: Option<seq<Cell>>, byKey: bool, after: seq<Cell>)
    | DeleteMessage(id: nat, byKey: bool, deleted: seq<Cell>)
    | OtherMessage(bytes: Bytes)

  // ---- Encoding ------------------------------------------------------------------------------------------
  // Written from the documented letters alone; nothing here is taken from the decoder.

  /** The byte of an ASCII letter. */
  function Letter(c: char): Byte
    requires c as int < 128
  {
    c as int
  }

  function Letters(s: string): Bytes
    requires forall i :: 0 <= i < |s| ==> s[i] as int < 128
  {
    seq(|s|, i requires 0 <= i < |s| => Letter(s[i]))
  }

  /** Marks an old tuple that holds the key only, or the whole old row. */
  function KeyOrOld(byKey: bool): Byte {
    if byKey then Letter('K') else Letter('O')
  }

  const TWO16 := 65536
  const TWO32 := 4294967296

  function Put16(n: nat): (b: Bytes)
    requires n < TWO16
    ensures |b| == 2
  {
    [n / 256, n % 256]
  }

  function Put32(n: nat): (b: Bytes)
    requires n < TWO32
    ensures |b| == 4
  {
    Put16(n / TWO16) + Put16(n % TWO16)
  }

  function PutName(name: Bytes): Bytes {
    name + [0]
  }

  function PutColumn(c: Column, modifier: nat): Bytes
    requires c.oid < TWO32 && modifier < TWO32
  {
    [if c.key then 1 else 0] + PutName(c.name) + Put32(c.oid) + Put32(modifier)
  }

  predicate NameOk(name: Bytes) {
    0 !in name
  }

  predicate ColumnOk(c: Column) {
    NameOk(c.name) && c.oid < TWO32
  }

  predicate ColumnsOk(columns: seq<Column>, modifiers: seq<nat>) {
    && |columns| == |modifiers|
    && forall i :: 0 <= i < |columns| ==> ColumnOk(columns[i]) && modifiers[i] < TWO32
  }

  /** The columns from `k` on. */
  function PutColumns(columns: seq<Column>, modifiers: seq<nat>, k: nat): Bytes
    requires ColumnsOk(columns, modifiers) && k <= |columns|
    decreases |columns| - k
  {
    if k == |columns| then []
    else
      assert ColumnOk(columns[k]);
      PutColumn(columns[k], modifiers[k]) + PutColumns(columns, modifiers, k + 1)
  }

  predicate CellOk(c: Cell) {
    c.TextCell? ==> |c.bytes| < TWO32
  }

  function PutCell(c: Cell): Bytes
    requires CellOk(c)
  {
    match c
    case NullCell => [Letter('n')]
    case UnchangedCell => [Letter('u')]
    case TextCell(bytes) => [Letter('t')] + Put32(|bytes|) + bytes
  }

  predicate AllCellsOk(cells: seq<Cell>) {
    forall i :: 0 <= i < |cells| ==> CellOk(cells[i])
  }

  predicate CellsOk(cells: seq<Cell>) {
    |cells| < TWO16 && AllCellsOk(cells)
  }

  /** The cells from `k` on. */
  function PutCells(cells: seq<Cell>, k: nat): Bytes
    requires k <= |cells| && AllCellsOk(cells)
    decreases |cells| - k
  {
    if k == |cells| then [] else PutCell(cells[k]) + PutCells(cells, k + 1)
  }

  function PutTuple(cells: seq<Cell>): Bytes
    requires CellsOk(cells)
  {
    Put16(|cells|) + PutCells(cells, 0)
  }

  /** A marker byte and a tuple. */
  function PutMarked(mark: Byte, cells: seq<Cell>): Bytes
    requires CellsOk(cells)
  {
    [mark] + PutTuple(cells)
  }

  predicate RelationOk(rel: Relation, modifiers: seq<nat>) {
    NameOk(rel.namespace) && NameOk(rel.name) && |rel.columns| < TWO16 && ColumnsOk(rel.columns, modifiers)
  }

  /** The fields fit their widths and names hold no zero byte. */
  predicate Encodable(m: Message) {
    match m
    case RelationMessage(id, rel, _, modifiers) =>
      id < TWO32 && RelationOk(rel, modifiers)
    case InsertMessage(id, after) => id < TWO32 && CellsOk(after)
    case UpdateMessage(id, before, _, after) => id < TWO32 && CellsOk(after) && (before.Some? ==> CellsOk(before.value))
    case DeleteMessage(id, _, deleted) => id < TWO32 && CellsOk(deleted)
    case OtherMessage(bytes) => bytes != [] ==> IsOther(bytes[0])
  }

  /** No letter of a message that the decoder reads. */
  predicate IsOther(b: Byte) {
    b != Letter('R') && b != Letter('I') && b != Letter('U') && b != Letter('D')
  }

  function PutCounted(columns: seq<Column>, modifiers: seq<nat>): Bytes
    requires |columns| < TWO16 && ColumnsOk(columns, modifiers)
  {
    Put16(|columns|) + PutColumns(columns, modifiers, 0)
  }

  function PutRelation(rel: Relation, identity: Byte, modifiers: seq<nat>): Bytes
    requires RelationOk(rel, modifiers)
  {
    PutName(rel.namespace) + (PutName(rel.name) + ([identity] + PutCounted(rel.columns, modifiers)))
  }

  function Encode(m: Message): Bytes
    requires Encodable(m)
  {
    match m
    case RelationMessage(id, rel, identity, modifiers) =>
      [Letter('R')] + (Put32(id) + PutRelation(rel, identity, modifiers))
    case InsertMessage(id, after) => [Letter('I')] + (Put32(id) + PutMarked(Letter('N'), after))
    case UpdateMessage(id, before, byKey, after) =>
      [Letter('U')] + (Put32(id) + ((if before.None? then [] else PutMarked(KeyOrOld(byKey), before.value))
        + PutMarked(Letter('N'), after)))
    case DeleteMessage(id, byKey, deleted) => [Letter('D')] + (Put32(id) + PutMarked(KeyOrOld(byKey), deleted))
    case OtherMessage(bytes) => bytes
  }

  function EncodeAll(ms: seq<Message>): seq<Bytes>
    requires forall m :: m in ms ==> Encodable(m)
  {
    seq(|ms|, i requires 0 <= i < |ms| => assert ms[i] in ms; Encode(ms[i]))
  }

  // ---- Meaning -------------------------------------------------------------------------------------------

  function CellValue(c: Cell): Option<Bytes> {
    match c case TextCell(bytes) => Some(bytes) case _ => None
  }

  /** `row` with what the cells say from column `k` on; an unchanged TOAST value is null. */
  function RowFrom(columns: seq<Column>, cells: seq<Cell>, k: nat, row: Row): Row
    decreases |cells| - k
  {
    if k >= |cells| || k >= |columns| then row
    else RowFrom(columns, cells, k + 1, row[columns[k].name := CellValue(cells[k])])
  }

  function RowOf(rel: Relation, cells: seq<Cell>): Row {
    RowFrom(rel.columns, cells, 0, map[])
  }

  /** The relation last announced under the id; an id never announced stands for public.unknown. */
  function Known(relations: Relations, id: nat): Relation {
    if id in relations then relations[id] else Relation(Letters("public"), Letters("unknown"), [])
  }

  function FullName(rel: Relation): Bytes {
    rel.namespace + [Letter('.')] + rel.name
  }

  function Meaning(m: Message, relations: Relations): Outcome {
    match m
    case RelationMessage(id, rel, _, _) => Outcome(relations[id := rel], [])
    case InsertMessage(id, after) =>
      var rel := Known(relations, id);
      Outcome(relations, [Change(Insert, FullName(rel), None, Some(RowOf(rel, after)), rel.columns)])
    case UpdateMessage(id, before, _, after) =>
      var rel := Known(relations, id);
      var earlier := if before.None? then None else Some(RowOf(rel, before.value));
      Outcome(relations, [Change(Update, FullName(rel), earlier, Some(RowOf(rel, after)), rel.columns)])
    case DeleteMessage(id, _, deleted) =>
      var rel := Known(relations, id);
      Outcome(relations, [Change(Delete, FullName(rel), Some(RowOf(rel, deleted)), None, rel.columns)])
    case OtherMessage(_) => Outcome(relations, [])
  }

  function MeaningAll(ms: seq<Message>, relations: Relations): Outcome
    decreases |ms|
  {
    if ms == [] then Outcome(relations, [])
    else
      var first := Meaning(ms[0], relations);
      var rest := MeaningAll(ms[1..], first.relations);
      Outcome(rest.relations, first.changes + rest.changes)
  }

  /** An old tuple has no more cells than its relation has columns; the decoder finds the new tuple
      only behind the cells it reads. */
  predicate Fits(m: Message, relations: Relations) {
    m.UpdateMessage? && m.before.Some? ==> |m.before.value| <= |Known(relations, m.id).columns|
  }

  predicate AllFit(ms: seq<Message>, relations: Relations)
    decreases |ms|
  {
    ms == [] || (Fits(ms[0], relations) && AllFit(ms[1..], Meaning(ms[0], relations).relations))
  }

  // ---- Numbers and names -----------------------------------------------------------------------------------

  lemma Read16(data: Bytes, pos: nat, n: nat)
    requires n < TWO16 && At(data, pos, Put16(n))
    ensures U16At(data, pos) == Some(n)
  {
    assert data[pos] == Put16(n)[0] by { assert data[pos..pos + 2][0] == data[pos]; }
    assert data[pos + 1] == Put16(n)[1] by { assert data[pos..pos + 2][1] == data[pos + 1]; }
  }

  lemma Read32(data: Bytes, pos: nat, n: nat)
    requires n < TWO32 && At(data, pos, Put32(n))
    ensures U32At(data, pos) == Some(n)
  {
    AtSplit(data, pos, Put16(n / TWO16), Put16(n % TWO16));
    Read16(data, pos, n / TWO16);
    Read16(data, pos + 2, n % TWO16);
  }

  lemma ReadByte(data: Bytes, pos: nat, b: Byte)
    requires At(data, pos, [b])
    ensures pos < |data| && data[pos] == b
  {
    assert [b][0] == b;
  }

  lemma {:induction false} ReadName(data: Bytes, pos: nat, name: Bytes)
    requires NameOk(name) && At(data, pos, PutName(name))
    ensures ZeroAt(data, pos) == Some(pos + |name|) && data[pos..pos + |name|] == name
    decreases |name|
  {
    AtSplit(data, pos, name, [0]);
    ReadByte(data, pos + |name|, 0);
    if name != [] {
      assert PutName(name) == [name[0]] + PutName(name[1..]);
      AtSplit(data, pos, [name[0]], PutName(name[1..]));
      ReadByte(data, pos, name[0]);
      ReadName(data, pos + 1, name[1..]);
    }
  }

  lemma ByteThen(data: Bytes, pos: nat, b: Byte, rest: Bytes)
    requires At(data, pos, [b] + rest)
    ensures pos < |data| && data[pos] == b && At(data, pos + 1, rest)
  {
    AtSplit(data, pos, [b], rest);
    ReadByte(data, pos, b);
  }

  lemma NameThen(data: Bytes, pos: nat, name: Bytes, rest: Bytes)
    requires NameOk(name) && At(data, pos, PutName(name) + rest)
    ensures ZeroAt(data, pos) == Some(pos + |name|) && data[pos..pos + |name|] == name
    ensures At(data, pos + |name| + 1, rest)
  {
    AtSplit(data, pos, PutName(name), rest);
    ReadName(data, pos, name);
  }

  // ---- Relations -------------------------------------------------------------------------------------------

  lemma ReadColumn(data: Bytes, pos: nat, c: Column, modifier: nat)
    requires ColumnOk(c) && modifier < TWO32 && At(data, pos, PutColumn(c, modifier))
    ensures ColumnAt(data, pos) == Some(Read(c, pos + |PutColumn(c, modifier)|))
  {
    var numbers := Put32(c.oid) + Put32(modifier);
    ColumnText(c, modifier);
    ReadColumnParts(data, pos, c, if c.key then 1 else 0, numbers);
    AtSplit(data, pos + 2 + |c.name|, Put32(c.oid), Put32(modifier));
    Read32(data, pos + 2 + |c.name|, c.oid);
  }

  lemma ColumnText(c: Column, modifier: nat)
    requires ColumnOk(c) && modifier < TWO32
    ensures PutColumn(c, modifier) == [if c.key then 1 else 0] + (PutName(c.name) + (Put32(c.oid) + Put32(modifier)))
    ensures |PutColumn(c, modifier)| == |c.name| + 10
  {
  }

  lemma ReadColumnParts(data: Bytes, pos: nat, c: Column, flag: Byte, numbers: Bytes)
    requires NameOk(c.name) && At(data, pos, [flag] + (PutName(c.name) + numbers))
    ensures pos < |data| && data[pos] == flag && At(data, pos + 2 + |c.name|, numbers)
    ensures ZeroAt(data, pos + 1) == Some(pos + 1 + |c.name|) && data[pos + 1..pos + 1 + |c.name|] == c.name
  {
    ByteThen(data, pos, flag, PutName(c.name) + numbers);
    NameThen(data, pos + 1, c.name, numbers);
  }

  /** The columns from `k` on stand at `pos`, one after the other. */
  ghost predicate ColumnsLie(data: Bytes, pos: nat, columns: seq<Column>, modifiers: seq<nat>, k: nat)
    requires ColumnsOk(columns, modifiers) && k <= |columns|
    decreases |columns| - k
  {
    k == |columns| ||
    (assert ColumnOk(columns[k]);
     var next := pos + |PutColumn(columns[k], modifiers[k])|;
     ColumnAt(data, pos) == Some(Read(columns[k], next)) && ColumnsLie(data, next, columns, modifiers, k + 1))
  }

  lemma {:induction false} PutColumnsLie(data: Bytes, pos: nat, columns: seq<Column>, modifiers: seq<nat>, k: nat)
    requires ColumnsOk(columns, modifiers) && k <= |columns| && At(data, pos, PutColumns(columns, modifiers, k))
    ensures ColumnsLie(data, pos, columns, modifiers, k)
    decreases |columns| - k
  {
    if k < |columns| {
      FirstColumn(data, pos, columns, modifiers, k);
      PutColumnsLie(data, pos + |PutColumn(columns[k], modifiers[k])|, columns, modifiers, k + 1);
    }
  }

  lemma FirstColumn(data: Bytes, pos: nat, columns: seq<Column>, modifiers: seq<nat>, k: nat)
    requires ColumnsOk(columns, modifiers) && k < |columns| && At(data, pos, PutColumns(columns, modifiers, k))
    ensures ColumnOk(columns[k])
    ensures var next := pos + |PutColumn(columns[k], modifiers[k])|;
            ColumnAt(data, pos) == Some(Read(columns[k], next)) && At(data, next, PutColumns(columns, modifiers, k + 1))
  {
    AtSplit(data, pos, PutColumn(columns[k], modifiers[k]), PutColumns(columns, modifiers, k + 1));
    ReadColumn(data, pos, columns[k], modifiers[k]);
  }

  lemma {:induction false} ReadColumns(data: Bytes, pos: nat, columns: seq<Column>, modifiers: seq<nat>, k: nat)
    requires ColumnsOk(columns, modifiers) && k <= |columns| && ColumnsLie(data, pos, columns, modifiers, k)
    ensures ColumnsAt(data, pos, |columns| - k, columns[..k]) == Some(columns)
    decreases |columns| - k
  {
    if k == |columns| {
      assert columns[..k] == columns;
    } else {
      assert ColumnOk(columns[k]);
      var next := pos + |PutColumn(columns[k], modifiers[k])|;
      ReadColumns(data, next, columns, modifiers, k + 1);
      OneMoreColumn(data, pos, next, columns, k);
    }
  }

  lemma OneMoreColumn(data: Bytes, pos: nat, next: nat, columns: seq<Column>, k: nat)
    requires k < |columns| && ColumnAt(data, pos) == Some(Read(columns[k], next))
    ensures ColumnsAt(data, pos, |columns| - k, columns[..k])
            == ColumnsAt(data, next, |columns| - k - 1, columns[..k + 1])
  {
    assert columns[..k] + [columns[k]] == columns[..k + 1];
  }

  lemma ReadRelation(data: Bytes, id: nat, rel: Relation, identity: Byte, modifiers: seq<nat>)
    requires id < TWO32 && RelationOk(rel, modifiers) && U32At(data, 1) == Some(id)
    requires At(data, 5, PutName(rel.namespace)
             + (PutName(rel.name) + ([identity] + PutCounted(rel.columns, modifiers))))
    ensures RelationAt(data, 1) == Some(Named(id, rel))
  {
    var p, q := ReadNames(data, rel.namespace, rel.name, identity, PutCounted(rel.columns, modifiers));
    ReadCounted(data, q + 1, rel.columns, modifiers);
    Assembled(data, id, rel, p, q);
  }

  lemma Assembled(data: Bytes, id: nat, rel: Relation, p: nat, q: nat)
    requires 5 < p < q && U32At(data, 1) == Some(id)
    requires ZeroAt(data, 5) == Some(p - 1) && data[5..p - 1] == rel.namespace
    requires ZeroAt(data, p) == Some(q - 1) && data[p..q - 1] == rel.name
    requires U16At(data, q + 1) == Some(|rel.columns|) && ColumnsAt(data, q + 3, |rel.columns|, []) == Some(rel.columns)
    ensures RelationAt(data, 1) == Some(Named(id, rel))
  {
  }

  lemma ReadNames(data: Bytes, namespace: Bytes, name: Bytes, identity: Byte, counted: Bytes) returns (p: nat, q: nat)
    requires NameOk(namespace) && NameOk(name)
    requires At(data, 5, PutName(namespace) + (PutName(name) + ([identity] + counted)))
    ensures 5 < p < q && At(data, q + 1, counted)
    ensures ZeroAt(data, 5) == Some(p - 1) && data[5..p - 1] == namespace
    ensures ZeroAt(data, p) == Some(q - 1) && data[p..q - 1] == name
  {
    p := 5 + |PutName(namespace)|;
    q := p + |PutName(name)|;
    NameThen(data, 5, namespace, PutName(name) + ([identity] + counted));
    NameThen(data, p, name, [identity] + counted);
    ByteThen(data, q, identity, counted);
  }

  lemma ReadCounted(data: Bytes, pos: nat, columns: seq<Column>, modifiers: seq<nat>)
    requires |columns| < TWO16 && ColumnsOk(columns, modifiers) && At(data, pos, PutCounted(columns, modifiers))
    ensures U16At(data, pos) == Some(|columns|) && ColumnsAt(data, pos + 2, |columns|, []) == Some(columns)
  {
    AtSplit(data, pos, Put16(|columns|), PutColumns(columns, modifiers, 0));
    Read16(data, pos, |columns|);
    PutColumnsLie(data, pos + 2, columns, modifiers, 0);
    ReadColumns(data, pos + 2, columns, modifiers, 0);
    assert columns[..0] == [];
  }

  // ---- Tuples ----------------------------------------------------------------------------------------------

  lemma ReadCell(data: Bytes, pos: nat, c: Cell, name: Bytes, row: Row)
    requires CellOk(c) && At(data, pos, PutCell(c))
    ensures CellAt(data, pos, name, row) == Some(Read(row[name := CellValue(c)], pos + |PutCell(c)|))
  {
    match c
    case NullCell => ReadNoText(data, pos, Letter('n'), name, row);
    case UnchangedCell => ReadNoText(data, pos, Letter('u'), name, row);
    case TextCell(bytes) => ReadTextCell(data, pos, bytes, name, row);
  }

  lemma ReadNoText(data: Bytes, pos: nat, kind: Byte, name: Bytes, row: Row)
    requires (kind == Letter('n') || kind == Letter('u')) && At(data, pos, [kind])
    ensures CellAt(data, pos, name, row) == Some(Read(row[name := None], pos + 1))
  {
    ReadByte(data, pos, kind);
  }

  lemma ReadTextCell(data: Bytes, pos: nat, bytes: Bytes, name: Bytes, row: Row)
    requires |bytes| < TWO32 && At(data, pos, [Letter('t')] + Put32(|bytes|) + bytes)
    ensures CellAt(data, pos, name, row) == Some(Read(row[name := Some(bytes)], pos + 5 + |bytes|))
  {
    assert [Letter('t')] + Put32(|bytes|) + bytes == [Letter('t')] + (Put32(|bytes|) + bytes);
    ReadText(data, pos, bytes);
  }

  lemma ReadText(data: Bytes, pos: nat, bytes: Bytes)
    requires |bytes| < TWO32 && At(data, pos, [Letter('t')] + (Put32(|bytes|) + bytes))
    ensures pos + 5 + |bytes| <= |data| && data[pos] == Letter('t')
    ensures U32At(data, pos + 1) == Some(|bytes|) && data[pos + 5..pos + 5 + |bytes|] == bytes
  {
    ByteThen(data, pos, Letter('t'), Put32(|bytes|) + bytes);
    AtSplit(data, pos + 1, Put32(|bytes|), bytes);
    Read32(data, pos + 1, |bytes|);
  }

  /** Where reading one cell per column from `k` on ends. */
  function EndOfCells(pos: nat, columns: seq<Column>, cells: seq<Cell>, k: nat): nat
    requires AllCellsOk(cells)
    decreases |cells| - k
  {
    if k >= |cells| || k >= |columns| then pos
    else EndOfCells(pos + |PutCell(cells[k])|, columns, cells, k + 1)
  }

  lemma FirstOfCells(cells: seq<Cell>, k: nat)
    requires k < |cells| && AllCellsOk(cells)
    ensures |PutCells(cells, k)| == |PutCell(cells[k])| + |PutCells(cells, k + 1)|
  {
  }

  lemma {:induction false} EndOfAllCells(pos: nat, columns: seq<Column>, cells: seq<Cell>, k: nat)
    requires k <= |cells| <= |columns| && AllCellsOk(cells)
    ensures EndOfCells(pos, columns, cells, k) == pos + |PutCells(cells, k)|
    decreases |cells| - k
  {
    if k < |cells| {
      FirstOfCells(cells, k);
      EndOfAllCells(pos + |PutCell(cells[k])|, columns, cells, k + 1);
    }
  }

  function CellsMean(pos: nat, columns: seq<Column>, cells: seq<Cell>, k: nat, row: Row): Option<Read<Row>>
    requires AllCellsOk(cells)
  {
    Some(Read(RowFrom(columns, cells, k, row), EndOfCells(pos, columns, cells, k)))
  }

  /** The cells from `k` on stand at `pos`, one after the other. */
  ghost predicate CellsLie(data: Bytes, pos: nat, cells: seq<Cell>, k: nat)
    requires k <= |cells| && AllCellsOk(cells)
    decreases |cells| - k
  {
    k == |cells| || (At(data, pos, PutCell(cells[k])) && CellsLie(data, pos + |PutCell(cells[k])|, cells, k + 1))
  }

  lemma {:induction false} PutCellsLie(data: Bytes, pos: nat, cells: seq<Cell>, k: nat)
    requires k <= |cells| && AllCellsOk(cells) && At(data, pos, PutCells(cells, k))
    ensures CellsLie(data, pos, cells, k)
    decreases |cells| - k
  {
    if k < |cells| {
      AtSplit(data, pos, PutCell(cells[k]), PutCells(cells, k + 1));
      PutCellsLie(data, pos + |PutCell(cells[k])|, cells, k + 1);
    }
  }

  /** Reading the cells from `k` on, column by column, gives what they mean. */
  ghost predicate ReadsAsMeant(data: Bytes, pos: nat, columns: seq<Column>, cells: seq<Cell>, k: nat, row: Row)
    requires k <= |cells| && k <= |columns| && AllCellsOk(cells)
  {
    CellsAt(data, pos, columns, k, Min(|cells|, |columns|), row) == CellsMean(pos, columns, cells, k, row)
  }

  lemma FirstCell(data: Bytes, pos: nat, columns: seq<Column>, cells: seq<Cell>, k: nat, row: Row)
    requires k < |cells| && k < |columns| && AllCellsOk(cells) && At(data, pos, PutCell(cells[k]))
    requires ReadsAsMeant(data, pos + |PutCell(cells[k])|, columns, cells, k + 1,
                          row[columns[k].name := CellValue(cells[k])])
    ensures ReadsAsMeant(data, pos, columns, cells, k, row)
  {
    ReadCell(data, pos, cells[k], columns[k].name, row);
  }

  lemma NoCellsLeft(data: Bytes, pos: nat, columns: seq<Column>, cells: seq<Cell>, k: nat, row: Row)
    requires k == Min(|cells|, |columns|) && AllCellsOk(cells)
    ensures ReadsAsMeant(data, pos, columns, cells, k, row)
  {
  }

  lemma {:induction false} ReadCells(data: Bytes, pos: nat, columns: seq<Column>, cells: seq<Cell>, k: nat, row: Row)
    requires k <= |cells| && k <= |columns| && AllCellsOk(cells) && CellsLie(data, pos, cells, k)
    ensures ReadsAsMeant(data, pos, columns, cells, k, row)
    decreases |cells| - k
  {
    if k < |cells| && k < |columns| {
      ReadCells(data, pos + |PutCell(cells[k])|, columns, cells, k + 1, row[columns[k].name := CellValue(cells[k])]);
      FirstCell(data, pos, columns, cells, k, row);
    } else {
      NoCellsLeft(data, pos, columns, cells, k, row);
    }
  }

  lemma ReadTuple(data: Bytes, pos: nat, rel: Relation, cells: seq<Cell>)
    requires CellsOk(cells) && At(data, pos, PutTuple(cells))
    ensures var r := TupleAt(data, pos, rel.columns);
            && r.Some? && r.value.value == RowOf(rel, cells)
            && (|cells| <= |rel.columns| ==> r.value.next == pos + |PutTuple(cells)|)
  {
    AtSplit(data, pos, Put16(|cells|), PutCells(cells, 0));
    Read16(data, pos, |cells|);
    PutCellsLie(data, pos + 2, cells, 0);
    ReadCells(data, pos + 2, rel.columns, cells, 0, map[]);
    if |cells| <= |rel.columns| { EndOfAllCells(pos + 2, rel.columns, cells, 0); }
  }

  lemma ReadMarked(data: Bytes, pos: nat, mark: Byte, rel: Relation, cells: seq<Cell>)
    requires CellsOk(cells) && At(data, pos, PutMarked(mark, cells))
    ensures pos < |data| && data[pos] == mark
    ensures var r := TupleAt(data, pos + 1, rel.columns);
            && r.Some? && r.value.value == RowOf(rel, cells)
            && (|cells| <= |rel.columns| ==> r.value.next == pos + 1 + |PutTuple(cells)|)
  {
    AtSplit(data, pos, [mark], PutTuple(cells));
    ReadByte(data, pos, mark);
    ReadTuple(data, pos + 1, rel, cells);
  }

  // ---- Messages --------------------------------------------------------------------------------------------

  lemma ReadInsert(data: Bytes, after: seq<Cell>, rel: Relation)
    requires CellsOk(after) && At(data, 5, PutMarked(Letter('N'), after))
    ensures InsertAt(data, 5, rel) == Some(Change(Insert, TableOf(rel), None, Some(RowOf(rel, after)), rel.columns))
  {
    ReadMarked(data, 5, Letter('N'), rel, after);
  }

  lemma ReadDelete(data: Bytes, mark: Byte, deleted: seq<Cell>, rel: Relation)
    requires (mark == Letter('K') || mark == Letter('O')) && CellsOk(deleted) && At(data, 5, PutMarked(mark, deleted))
    ensures DeleteAt(data, 5, rel) == Some(Change(Delete, TableOf(rel), Some(RowOf(rel, deleted)), None, rel.columns))
  {
    ReadMarked(data, 5, mark, rel, deleted);
  }

  lemma ReadUpdateAlone(data: Bytes, after: seq<Cell>, rel: Relation)
    requires CellsOk(after) && At(data, 5, PutMarked(Letter('N'), after))
    ensures UpdateAt(data, 5, rel) == Some(Change(Update, TableOf(rel), None, Some(RowOf(rel, after)), rel.columns))
  {
    ReadMarked(data, 5, Letter('N'), rel, after);
  }

  lemma ReadUpdatePair(data: Bytes, mark: Byte, before: seq<Cell>, after: seq<Cell>, rel: Relation)
    requires mark == Letter('K') || mark == Letter('O')
    requires CellsOk(after) && CellsOk(before) && |before| <= |rel.columns|
    requires At(data, 5, PutMarked(mark, before) + PutMarked(Letter('N'), after))
    ensures UpdateAt(data, 5, rel)
            == Some(Change(Update, TableOf(rel), Some(RowOf(rel, before)), Some(RowOf(rel, after)), rel.columns))
  {
    AtSplit(data, 5, PutMarked(mark, before), PutMarked(Letter('N'), after));
    ReadMarked(data, 5, mark, rel, before);
    ReadMarked(data, 5 + |PutMarked(mark, before)|, Letter('N'), rel, after);
  }

  lemma Header(data: Bytes, kind: Byte, id: nat, body: Bytes)
    requires id < TWO32 && data == [kind] + (Put32(id) + body)
    ensures data[0] == kind && U32At(data, 1) == Some(id) && At(data, 5, body)
  {
    assert data[..|data|] == data;
    assert At(data, 0, [kind] + (Put32(id) + body));
    AtSplit(data, 0, [kind], Put32(id) + body);
    AtSplit(data, 1, Put32(id), body);
    Read32(data, 1, id);
  }

  lemma NamesAgree(relations: Relations, id: nat)
    ensures RelationOf(relations, id) == Known(relations, id)
    ensures TableOf(Known(relations, id)) == FullName(Known(relations, id))
  {
    assert Letters("public") == PUBLIC && Letters("unknown") == UNKNOWN;
  }

  lemma UpdateInverts(m: Message, relations: Relations)
    requires m.UpdateMessage? && Encodable(m) && Fits(m, relations)
    ensures Decode(Encode(m), relations) == Some(Meaning(m, relations))
  {
    var data, rel := Encode(m), RelationOf(relations, m.id);
    NamesAgree(relations, m.id);
    if m.before.None? {
      assert [] + PutMarked(Letter('N'), m.after) == PutMarked(Letter('N'), m.after);
      Header(data, Letter('U'), m.id, PutMarked(Letter('N'), m.after));
      ReadUpdateAlone(data, m.after, rel);
    } else {
      var mark := KeyOrOld(m.byKey);
      Header(data, Letter('U'), m.id, PutMarked(mark, m.before.value) + PutMarked(Letter('N'), m.after));
      ReadUpdatePair(data, mark, m.before.value, m.after, rel);
    }
  }

  lemma RelationInverts(m: Message, relations: Relations)
    requires m.RelationMessage? && Encodable(m)
    ensures Decode(Encode(m), relations) == Some(Meaning(m, relations))
  {
    Header(Encode(m), Letter('R'), m.id, PutRelation(m.rel, m.identity, m.modifiers));
    ReadRelation(Encode(m), m.id, m.rel, m.identity, m.modifiers);
  }

  lemma InsertInverts(m: Message, relations: Relations)
    requires m.InsertMessage? && Encodable(m)
    ensures Decode(Encode(m), relations) == Some(Meaning(m, relations))
  {
    Header(Encode(m), Letter('I'), m.id, PutMarked(Letter('N'), m.after));
    NamesAgree(relations, m.id);
    ReadInsert(Encode(m), m.after, RelationOf(relations, m.id));
  }

  lemma DeleteInverts(m: Message, relations: Relations)
    requires m.DeleteMessage? && Encodable(m)
    ensures Decode(Encode(m), relations) == Some(Meaning(m, relations))
  {
    var mark := KeyOrOld(m.byKey);
    Header(Encode(m), Letter('D'), m.id, PutMarked(mark, m.deleted));
    NamesAgree(relations, m.id);
    ReadDelete(Encode(m), mark, m.deleted, RelationOf(relations, m.id));
  }

  /** One message: decoding its encoding never fails and gives its meaning under the current relations. */
  lemma DecodeInvertsEncode(m: Message, relations: Relations)
    requires Encodable(m) && Fits(m, relations)
    ensures Decode(Encode(m), relations) == Some(Meaning(m, relations))
  {
    match m
    case RelationMessage(_, _, _, _) => RelationInverts(m, relations);
    case InsertMessage(_, _) => InsertInverts(m, relations);
    case UpdateMessage(_, _, _, _) => UpdateInverts(m, relations);
    case DeleteMessage(_, _, _) => DeleteInverts(m, relations);
    case OtherMessage(_) =>
  }

  /** Whole sequences, in any interleaving: every change comes back under the latest relation for its
      id, an unchanged TOAST value as null, and no read is ever out of range. */
  lemma {:induction false} DecodeAllInvertsEncodeAll(ms: seq<Message>, relations: Relations)
    requires (forall m :: m in ms ==> Encodable(m)) && AllFit(ms, relations)
    ensures DecodeAll(EncodeAll(ms), relations) == Some(MeaningAll(ms, relations))
    decreases |ms|
  {
    if ms != [] {
      DecodeInvertsEncode(ms[0], relations);
      assert EncodeAll(ms)[1..] == EncodeAll(ms[1..]);
      DecodeAllInvertsEncodeAll(ms[1..], Meaning(ms[0], relations).relations);
    }
  }
  // ---- What a row says ---------------------------------------------------------------------------------------

  /** With distinct column names, a row holds each column's own cell, as many as both lists have. */
  lemma RowHoldsCells(rel: Relation, cells: seq<Cell>)
    requires forall i, j :: 0 <= i < j < |rel.columns| ==> rel.columns[i].name != rel.columns[j].name
    ensures var row, n := RowOf(rel, cells), Min(|cells|, |rel.columns|);
            && (forall k :: 0 <= k < n ==>
                 && rel.columns[k].name in row
                 && row[rel.columns[k].name] == if cells[k].TextCell? then Some(cells[k].bytes) else None)
            && forall name :: name in row ==> exists k :: 0 <= k < n && rel.columns[k].name == name
  {
    RowFromHolds(rel.columns, cells, 0, map[]);
  }

  lemma {:induction false} RowFromHolds(columns: seq<Column>, cells: seq<Cell>, k: nat, row: Row)
    requires k <= |cells| && k <= |columns|
    requires forall i, j :: 0 <= i < j < |columns| ==> columns[i].name != columns[j].name
    ensures var r, n := RowFrom(columns, cells, k, row), Min(|cells|, |columns|);
            && (forall i :: k <= i < n ==> columns[i].name in r && r[columns[i].name] == CellValue(cells[i]))
            && (forall name :: name in row && (forall i :: k <= i < n ==> columns[i].name != name) ==>
                 name in r && r[name] == row[name])
            && forall name :: name in r ==> name in row || exists i :: k <= i < n && columns[i].name == name
    decreases |cells| - k
  {
    if k < |cells| && k < |columns| {
      RowFromHolds(columns, cells, k + 1, row[columns[k].name := CellValue(cells[k])]);
    }
  }

  // ---- What no server sends ------------------------------------------------------------------------------------

  /** A change whose head or cell count is cut off fails, whatever the cache holds. */
  lemma CutChangeFails(data: Bytes, relations: Relations)
    requires data != [] && !IsOther(data[0]) && data[0] != Letter('R') && |data| < 8
    ensures Decode(data, relations) == None
  {
  }

  /** A relation whose id is cut off fails. */
  lemma CutRelationFails(data: Bytes, relations: Relations)
    requires data != [] && data[0] == Letter('R') && |data| < 5
    ensures Decode(data, relations) == None
  {
  }

  /** A cell of an unknown kind takes one byte and leaves the row as it was. */
  lemma UnknownCellIsSkipped(data: Bytes, pos: nat, name: Bytes, row: Row)
    requires pos < |data| && data[pos] != Letter('n') && data[pos] != Letter('u') && data[pos] != Letter('t')
    ensures CellAt(data, pos, name, row) == Some(Read(row, pos + 1))
  {
  }

  /** A column's description, whatever its flags: the lowest bit alone marks a key, and the name ends before
      the next zero byte. */
  lemma ColumnMeans(data: Bytes, pos: nat)
    requires ColumnAt(data, pos).Some?
    ensures var c, end := ColumnAt(data, pos).value, pos + 1 + |ColumnAt(data, pos).value.value.name|;
            && (c.value.key <==> data[pos] != 2 * (data[pos] / 2))
            && end + 9 == c.next <= |data| + 4
            && data[pos + 1..end] == c.value.name && data[end] == 0 && 0 !in c.value.name
  {
    var end := ZeroAt(data, pos + 1).value;
    FirstZero(data, pos + 1);
  }

  lemma {:induction false} FirstZero(data: Bytes, pos: nat)
    ensures var z := ZeroAt(data, pos);
            z.Some? ==> pos <= z.value < |data| && data[z.value] == 0 && 0 !in data[pos..z.value]
    decreases |data| - pos
  {
    if pos < |data| && data[pos] != 0 {
      FirstZero(data, pos + 1);
      var z := ZeroAt(data, pos + 1);
      if z.Some? { assert data[pos..z.value] == [data[pos]] + data[pos + 1..z.value]; }
    }
  }

  /** A text that is announced longer than the data is what is left of them. */
  lemma CutTextIsShortened(data: Bytes, pos: nat, name: Bytes, row: Row, length: nat)
    requires pos + 5 <= |data| < pos + 5 + length && length < TWO32
    requires data[pos] == Letter('t') && At(data, pos + 1, Put32(length))
    ensures CellAt(data, pos, name, row) == Some(Read(row[name := Some(data[pos + 5..])], pos + 5 + length))
  {
    Read32(data, pos + 1, length);
    assert data[pos + 5..|data|] == data[pos + 5..];
  }
}
