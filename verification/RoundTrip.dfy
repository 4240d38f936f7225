/**
 * The server's side of the format, PostgreSQL 16 section 55.9, and the proof
 * that the decoder inverts it: every message is read back exactly, whatever
 * bytes surround it, and the watched rows come out as their events, in order.
 */
module RoundTrip {
  import opened Wrappers
  import opened Bytes
  import opened PgOutput

  // ---- Server-side messages --------------------------------------------------

  datatype Column = Column(flags: byte, name: Text, typeOid: nat, typeMod: nat)
  datatype Table = Table(oid: nat, namespace: Text, name: Text, identity: byte, columns: seq<Column>)
  type Row = seq<Value>

  datatype OldTuple = KeyTuple(row: Row) | FullTuple(row: Row)

  /** `Other` is any message the decoder ignores: Begin, Commit, Delete, ... */
  datatype Message =
    | Relation(table: Table)
    | Insert(oid: nat, row: Row)
    | Update(oid: nat, prior: Option<OldTuple>, row: Row)
    | Other(tag: byte, body: bytes)

  // Tables and columns by the names the schema gives them.
  const VEHICLES: Text := Ascii("vehicle_current_state")
  const ANOMALIES: Text := Ascii("anomalies")
  const ZONES: Text := Ascii("zone_counts")

  const COL_VEHICLE: Text := Ascii("vehicle_id")
  const COL_STATUS: Text := Ascii("status")
  const COL_BATTERY: Text := Ascii("battery_pct")
  const COL_TYPE: Text := Ascii("anomaly_type")
  const COL_DETAIL: Text := Ascii("detail")
  const COL_DETECTED: Text := Ascii("detected_at")
  const COL_ZONE: Text := Ascii("zone_id")
  const COL_COUNT: Text := Ascii("entry_count")

  predicate Fits(n: nat, width: nat) {
    n < Pow256(width)
  }

  predicate NameOk(t: Text) {
    ValidUtf8(t) && 0 !in t
  }

  predicate ColumnOk(c: Column) {
    NameOk(c.name) && Fits(c.typeOid, 4) && Fits(c.typeMod, 4)
  }

  predicate HeaderOk(t: Table) {
    && Fits(t.oid, 4) && NameOk(t.namespace) && NameOk(t.name)
    && 2 * |t.columns| < Pow256(2)
  }

  ghost predicate TableOk(t: Table) {
    && HeaderOk(t)
    && (forall i :: 0 <= i < |t.columns| ==> ColumnOk(t.columns[i]))
    && (forall i, j :: 0 <= i < j < |t.columns| ==> t.columns[i].name != t.columns[j].name)
  }

  predicate ValueOk(v: Value) {
    v.Str? ==> ValidUtf8(v.text) && 2 * |v.text| < Pow256(4)
  }

  ghost predicate RowOk(t: Table, row: Row) {
    && |row| == |t.columns|
    && forall i :: 0 <= i < |row| ==> ValueOk(row[i])
  }

  function IndexOf(columns: seq<Column>, name: Text): (i: nat)
    ensures i <= |columns|
    ensures i < |columns| ==> columns[i].name == name
    ensures i == |columns| ==> forall j :: 0 <= j < |columns| ==> columns[j].name != name
  {
    if columns == [] then 0 else if columns[0].name == name then 0 else 1 + IndexOf(columns[1..], name)
  }

  predicate Has(t: Table, name: Text) {
    IndexOf(t.columns, name) < |t.columns|
  }

  /** The value a row holds under a column name. */
  function Cell(t: Table, row: Row, name: Text): Value
    requires |row| == |t.columns| && Has(t, name)
  {
    row[IndexOf(t.columns, name)]
  }

  function CellText(t: Table, row: Row, name: Text): Option<Text>
    requires |row| == |t.columns| && Has(t, name)
  {
    AsNumber(Cell(t, row, name))
  }

  predicate HasText(t: Table, row: Row, name: Text)
    requires |row| == |t.columns|
  {
    Has(t, name) && !Cell(t, row, name).Unchanged?
  }

  /** A watched table has the columns its event needs, none of them unchanged TOAST. */
  predicate Publishable(t: Table, row: Row)
    requires |row| == |t.columns|
  {
    if t.name == VEHICLES then
      HasText(t, row, COL_VEHICLE) && HasText(t, row, COL_STATUS) && Has(t, COL_BATTERY)
    else if t.name == ANOMALIES then
      HasText(t, row, COL_VEHICLE) && HasText(t, row, COL_TYPE) && HasText(t, row, COL_DETAIL) &&
        HasText(t, row, COL_DETECTED)
    else if t.name == ZONES then
      HasText(t, row, COL_ZONE) && Has(t, COL_COUNT)
    else true
  }

  /** The event a committed row stands for, stated on the row itself. */
  function RowEvent(t: Table, row: Row): (e: Option<Event>)
    requires |row| == |t.columns| && Publishable(t, row)
    ensures e.Some? <==> t.name == VEHICLES || t.name == ANOMALIES || t.name == ZONES
  {
    if t.name == VEHICLES then
      Some(VehicleStateChanged(CellText(t, row, COL_VEHICLE), CellText(t, row, COL_STATUS),
                               CellText(t, row, COL_BATTERY)))
    else if t.name == ANOMALIES then
      Some(AnomalyDetected(CellText(t, row, COL_VEHICLE), CellText(t, row, COL_TYPE),
                           CellText(t, row, COL_DETAIL), CellText(t, row, COL_DETECTED)))
    else if t.name == ZONES then
      Some(ZoneCountChanged(CellText(t, row, COL_ZONE), CellText(t, row, COL_COUNT)))
    else None
  }

  // ---- Encoding --------------------------------------------------------------

  function EncodeColumn(c: Column): bytes {
    [c.flags] + ((c.name + [0]) + (ToBE(c.typeOid, 4) + ToBE(c.typeMod, 4)))
  }

  function EncodeColumns(cs: seq<Column>): bytes {
    if cs == [] then [] else EncodeColumn(cs[0]) + EncodeColumns(cs[1..])
  }

  function EncodeValue(v: Value): bytes {
    match v
    case Null => TAG_NULL
    case Unchanged => TAG_UNCHANGED
    case Str(t) => TAG_TEXT + (ToBE(|t|, 4) + t)
  }

  function EncodeValues(row: Row): bytes {
    if row == [] then [] else EncodeValue(row[0]) + EncodeValues(row[1..])
  }

  function EncodeTuple(row: Row): bytes {
    ToBE(|row|, 2) + EncodeValues(row)
  }

  function EncodeRelation(t: Table): bytes {
    ToBE(t.oid, 4) + ((t.namespace + [0])
      + ((t.name + [0]) + ([t.identity] + (ToBE(|t.columns|, 2) + EncodeColumns(t.columns)))))
  }

  function EncodeOld(prior: Option<OldTuple>): bytes {
    match prior
    case None => []
    case Some(KeyTuple(row)) => TAG_KEY + EncodeTuple(row)
    case Some(FullTuple(row)) => TAG_OLD + EncodeTuple(row)
  }

  function Encode(m: Message): bytes {
    match m
    case Relation(t) => TAG_RELATION + EncodeRelation(t)
    case Insert(oid, row) => TAG_INSERT + (ToBE(oid, 4) + (TAG_NEW + EncodeTuple(row)))
    case Update(oid, prior, row) => TAG_UPDATE + (ToBE(oid, 4) + (EncodeOld(prior) + (TAG_NEW + EncodeTuple(row))))
    case Other(tag, body) => [tag] + body
  }

  // ---- What a well-formed stream is ------------------------------------------

  /** The tables announced so far in a session, by OID. */
  type Catalog = map<nat, Table>

  ghost predicate CatalogOk(known: Catalog) {
    forall oid :: oid in known ==> TableOk(known[oid]) && known[oid].oid == oid
  }

  ghost predicate MessageOk(known: Catalog, m: Message) {
    match m
    case Relation(t) => TableOk(t)
    case Insert(oid, row) => oid in known && RowOk(known[oid], row) && Publishable(known[oid], row)
    case Update(oid, prior, row) =>
      && oid in known && RowOk(known[oid], row) && Publishable(known[oid], row)
      && (prior.Some? ==> RowOk(known[oid], prior.value.row))
    case Other(tag, _) => [tag] != TAG_RELATION && [tag] != TAG_INSERT && [tag] != TAG_UPDATE
  }

  function Announce(known: Catalog, m: Message): Catalog {
    if m.Relation? then known[m.table.oid := m.table] else known
  }

  function EventOf(known: Catalog, m: Message): Option<Event>
    requires CatalogOk(known) && MessageOk(known, m)
  {
    if m.Insert? || m.Update? then RowEvent(known[m.oid], m.row) else None
  }

  function CachedOf(t: Table): Cached {
    Cached(t.name, seq(|t.columns|, i requires 0 <= i < |t.columns| => t.columns[i].name))
  }

  /** The decoder's cache agrees with the session's catalogue, OIDs read as signed. */
  ghost predicate Mirrors(cache: Cache, known: Catalog) {
    forall oid :: oid in known ==> Signed(oid, 4) in cache && cache[Signed(oid, 4)] == CachedOf(known[oid])
  }

  // ---- Reading back one field --------------------------------------------------

  lemma CharHere(buf: bytes, pos: int, c: byte)
    requires At(buf, pos, [c])
    ensures CharAt(buf, pos) == ([c], pos + 1)
    ensures Int8At(buf, pos) == Success((c as int, pos + 1))
  {
    assert buf[pos..pos + 1] == [c];
  }

  lemma IntHere(buf: bytes, pos: int, u: nat, k: nat)
    requires Fits(u, k) && At(buf, pos, ToBE(u, k))
    ensures IntAt(buf, pos, k) == Success((Signed(u, k), pos + k))
  {
    AtSlice(buf, pos, ToBE(u, k));
    FromToBE(u, k);
  }

  lemma ZeroAt(buf: bytes, from: nat, end: nat)
    requires from <= end < |buf| && buf[end] == 0
    requires forall i :: from <= i < end ==> buf[i] != 0
    ensures ZeroFrom(buf, from) == Some(end)
  {
    var r := ZeroFrom(buf, from);
    assert r.Some? && r.value >= end;
  }

  lemma StringHere(buf: bytes, pos: int, t: Text)
    requires NameOk(t) && At(buf, pos, t + [0])
    ensures StringAt(buf, pos) == Success((t, pos + |t| + 1))
  {
    hide At, ValidUtf8, ZeroFrom;
    AtSplit(buf, pos, t, [0]);
    AtSlice(buf, pos, t);
    AtSlice(buf, pos + |t|, [0]);
    var end := pos + |t|;
    assert buf[end] == buf[end..end + 1][0];
    forall i | pos <= i < end ensures buf[i] != 0 {
      assert buf[i] == buf[pos..end][i - pos];
      assert t[i - pos] in t;
    }
    ZeroAt(buf, pos, end);
    assert Slice(buf, pos, end) == t;
  }

  lemma LengthHere(buf: bytes, pos: int, n: nat)
    requires 2 * n < Pow256(4) && At(buf, pos, ToBE(n, 4))
    ensures IntAt(buf, pos, 4) == Success((n, pos + 4))
  {
    IntHere(buf, pos, n, 4);
  }

  lemma TakeHere(buf: bytes, pos: nat, t: Text)
    requires At(buf, pos, t)
    ensures TakeAt(buf, pos, |t|) == (t, pos + |t|)
  {
    AtSlice(buf, pos, t);
  }

  // ---- Reading back a Relation ---------------------------------------------------

  lemma ColumnHere(buf: bytes, pos: int, c: Column)
    requires ColumnOk(c)
    requires At(buf, pos, EncodeColumn(c))
    ensures ColumnAt(buf, pos) == Success((c.name, pos + |EncodeColumn(c)|))
  {
    hide At, NameOk, Pow256, StringAt, IntAt, Int8At;
    var oid, mod := ToBE(c.typeOid, 4), ToBE(c.typeMod, 4);
    AtSplit(buf, pos, [c.flags], (c.name + [0]) + (oid + mod));
    CharHere(buf, pos, c.flags);
    AtSplit(buf, pos + 1, c.name + [0], oid + mod);
    StringHere(buf, pos + 1, c.name);
    var p := pos + 1 + |c.name| + 1;
    AtSplit(buf, p, oid, mod);
    IntHere(buf, p, c.typeOid, 4);
    IntHere(buf, p + 4, c.typeMod, 4);
  }

  lemma {:induction false} ColumnsHere(buf: bytes, pos: int, t: Table, i: nat, names: seq<Text>)
    requires TableOk(t) && i <= |t.columns|
    requires names == CachedOf(t).columns[..i]
    requires At(buf, pos, EncodeColumns(t.columns[i..]))
    ensures ColumnsAt(buf, pos, |t.columns| - i, names)
         == Success((CachedOf(t).columns, pos + |EncodeColumns(t.columns[i..])|))
    decreases |t.columns| - i
  {
    hide At, ColumnAt, ValidUtf8;
    var rest := t.columns[i..];
    if i == |t.columns| {
      assert names == CachedOf(t).columns;
    } else {
      assert rest[1..] == t.columns[i + 1..];
      assert CachedOf(t).columns[..i + 1] == names + [rest[0].name];
      AtSplit(buf, pos, EncodeColumn(rest[0]), EncodeColumns(rest[1..]));
      ColumnHere(buf, pos, rest[0]);
      ColumnsHere(buf, pos + |EncodeColumn(rest[0])|, t, i + 1, names + [rest[0].name]);
    }
  }

  lemma NameHere(buf: bytes, pos: int, t: Text, tail: bytes)
    requires NameOk(t) && At(buf, pos, (t + [0]) + tail)
    ensures StringAt(buf, pos) == Success((t, pos + |t| + 1))
    ensures At(buf, pos + |t| + 1, tail)
  {
    AtSplit(buf, pos, t + [0], tail);
    StringHere(buf, pos, t);
  }

  lemma NumberHere(buf: bytes, pos: int, u: nat, k: nat, tail: bytes)
    requires Fits(u, k) && At(buf, pos, ToBE(u, k) + tail)
    ensures IntAt(buf, pos, k) == Success((Signed(u, k), pos + k))
    ensures At(buf, pos + k, tail)
  {
    AtSplit(buf, pos, ToBE(u, k), tail);
    IntHere(buf, pos, u, k);
  }

  lemma ByteHere(buf: bytes, pos: int, c: byte, tail: bytes)
    requires At(buf, pos, [c] + tail)
    ensures CharAt(buf, pos) == ([c], pos + 1) && Int8At(buf, pos) == Success((c as int, pos + 1))
    ensures At(buf, pos + 1, tail)
  {
    AtSplit(buf, pos, [c], tail);
    CharHere(buf, pos, c);
  }

  lemma HeaderHere(buf: bytes, pos: int, t: Table) returns (p: int)
    requires HeaderOk(t) && At(buf, pos, EncodeRelation(t))
    ensures p + |EncodeColumns(t.columns)| == pos + |EncodeRelation(t)|
    ensures At(buf, p, EncodeColumns(t.columns))
    ensures var read := ColumnsAt(buf, p, |t.columns|, []);
      read.Success? ==>
        RelationAt(buf, pos) == Success(((Signed(t.oid, 4), Cached(t.name, read.value.0)), read.value.1))
  {
    hide ColumnsAt, At, NameOk, Pow256, EncodeColumns, StringAt, IntAt, Int8At;
    var counted := ToBE(|t.columns|, 2) + EncodeColumns(t.columns);
    var named := (t.name + [0]) + ([t.identity] + counted);
    NumberHere(buf, pos, t.oid, 4, (t.namespace + [0]) + named);
    NameHere(buf, pos + 4, t.namespace, named);
    p := pos + 4 + |t.namespace| + 1;
    NameHere(buf, p, t.name, [t.identity] + counted);
    p := p + |t.name| + 1;
    ByteHere(buf, p, t.identity, counted);
    NumberHere(buf, p + 1, |t.columns|, 2, EncodeColumns(t.columns));
    p := p + 3;
  }

  lemma RelationHere(buf: bytes, pos: int, t: Table)
    requires TableOk(t) && At(buf, pos, EncodeRelation(t))
    ensures RelationAt(buf, pos) == Success(((Signed(t.oid, 4), CachedOf(t)), pos + |EncodeRelation(t)|))
  {
    hide ColumnsAt, At;
    var p := HeaderHere(buf, pos, t);
    assert t.columns[0..] == t.columns;
    ColumnsHere(buf, p, t, 0, []);
  }

  // ---- Reading back a tuple --------------------------------------------------------

  /** The first `n` values of `row` are in `m` under their column names. */
  ghost predicate Holds(m: map<Text, Value>, names: seq<Text>, row: Row, n: nat)
    requires n <= |row| <= |names|
  {
    forall i :: 0 <= i < n ==> names[i] in m && m[names[i]] == row[i]
  }

  lemma StrHere(buf: bytes, pos: nat, t: Text)
    requires ValidUtf8(t) && 2 * |t| < Pow256(4)
    requires At(buf, pos, ToBE(|t|, 4)) && At(buf, pos + 4, t)
    ensures ValueAt(buf, pos, TAG_TEXT) == Success((Str(t), pos + 4 + |t|))
  {
    hide At, ValidUtf8, Pow256, ToBE, IntAt, TakeAt;
    LengthHere(buf, pos, |t|);
    TakeHere(buf, pos + 4, t);
  }

  /** A value that is its kind byte alone. */
  lemma MarkHere(buf: bytes, pos: nat, v: Value)
    requires !v.Str? && At(buf, pos, EncodeValue(v))
    ensures |CharAt(buf, pos).0| == 1
    ensures ValueAt(buf, pos + 1, CharAt(buf, pos).0) == Success((v, pos + 1))
  {
    hide At, IntAt, TakeAt, DecodeText, CharAt;
    var tag := if v.Null? then TAG_NULL else TAG_UNCHANGED;
    assert EncodeValue(v) == tag;
    CharHere(buf, pos, tag[0]);
  }

  lemma TextHere(buf: bytes, pos: nat, t: Text)
    requires ValidUtf8(t) && 2 * |t| < Pow256(4)
    requires At(buf, pos, EncodeValue(Str(t)))
    ensures CharAt(buf, pos).0 == TAG_TEXT
    ensures ValueAt(buf, pos + 1, TAG_TEXT) == Success((Str(t), pos + |EncodeValue(Str(t))|))
  {
    hide At, ValidUtf8, Pow256, ToBE, ValueAt, CharAt;
    var body := ToBE(|t|, 4) + t;
    assert EncodeValue(Str(t)) == TAG_TEXT + body;
    ByteHere(buf, pos, TAG_TEXT[0], body);
    AtSplit(buf, pos + 1, ToBE(|t|, 4), t);
    StrHere(buf, pos + 1, t);
  }

  lemma ValueHere(buf: bytes, pos: nat, v: Value)
    requires ValueOk(v)
    requires At(buf, pos, EncodeValue(v))
    ensures |CharAt(buf, pos).0| == 1
    ensures ValueAt(buf, pos + 1, CharAt(buf, pos).0) == Success((v, pos + |EncodeValue(v)|))
  {
    hide At, ValidUtf8, Pow256, ValueAt, CharAt;
    if v.Str? {
      TextHere(buf, pos, v.text);
    } else {
      MarkHere(buf, pos, v);
    }
  }

  lemma HoldsNext(t: Table, row: Row, i: nat, m: map<Text, Value>)
    requires TableOk(t) && i < |row| == |t.columns| && Holds(m, CachedOf(t).columns, row, i)
    ensures Holds(m[t.columns[i].name := row[i]], CachedOf(t).columns, row, i + 1)
  {
  }

  lemma {:induction false} ValuesHere(buf: bytes, pos: int, t: Table, row: Row, i: nat, m: map<Text, Value>)
    requires TableOk(t) && RowOk(t, row) && i <= |row|
    requires Holds(m, CachedOf(t).columns, row, i)
    requires At(buf, pos, EncodeValues(row[i..]))
    ensures var read := ValuesAt(buf, pos, CachedOf(t).columns, i, |row|, m);
      && read.Success? && Holds(read.value.0, CachedOf(t).columns, row, |row|)
      && read.value.1 == pos + |EncodeValues(row[i..])|
    decreases |row| - i
  {
    hide At, ValueOk, ValueAt, EncodeValue, TableOk;
    var rest := row[i..];
    if i < |row| {
      var names := CachedOf(t).columns;
      assert rest[1..] == row[i + 1..];
      AtSplit(buf, pos, EncodeValue(rest[0]), EncodeValues(rest[1..]));
      ValueHere(buf, pos, row[i]);
      HoldsNext(t, row, i, m);
      ValuesHere(buf, pos + |EncodeValue(row[i])|, t, row, i + 1, m[names[i] := row[i]]);
    }
  }

  /** The decoded row: exactly the columns' values, the cursor just past them. */
  lemma TupleHere(cache: Cache, known: Catalog, buf: bytes, pos: int, oid: nat, row: Row)
    requires CatalogOk(known) && Mirrors(cache, known) && oid in known && RowOk(known[oid], row)
    requires At(buf, pos, EncodeTuple(row))
    ensures var read := TupleAt(cache, buf, pos, Signed(oid, 4));
      && read.Success? && Holds(read.value.0, CachedOf(known[oid]).columns, row, |row|)
      && read.value.1 == pos + |EncodeTuple(row)|
  {
    AtSplit(buf, pos, ToBE(|row|, 2), EncodeValues(row));
    IntHere(buf, pos, |row|, 2);
    assert row[0..] == row;
    ValuesHere(buf, pos + 2, known[oid], row, 0, map[]);
  }

  // ---- From the decoded row to its event ---------------------------------------------

  lemma FieldHere(t: Table, row: Row, m: map<Text, Value>, name: Text)
    requires |row| == |t.columns| && Has(t, name)
    requires Holds(m, CachedOf(t).columns, row, |row|)
    ensures Field(m, name) == Success(Cell(t, row, name))
  {
    assert CachedOf(t).columns[IndexOf(t.columns, name)] == name;
  }

  lemma EventHere(t: Table, row: Row, m: map<Text, Value>)
    requires |row| == |t.columns| && Publishable(t, row) && Watched(t.name)
    requires Holds(m, CachedOf(t).columns, row, |row|)
    ensures BuildEvent(t.name, m) == Success(RowEvent(t, row).value)
  {
    hide Holds;
    if t.name == VEHICLE_TABLE {
      FieldHere(t, row, m, VEHICLE_ID);
      FieldHere(t, row, m, STATUS);
      FieldHere(t, row, m, BATTERY_PCT);
    } else if t.name == ANOMALY_TABLE {
      FieldHere(t, row, m, VEHICLE_ID);
      FieldHere(t, row, m, ANOMALY_TYPE);
      FieldHere(t, row, m, DETAIL);
      FieldHere(t, row, m, DETECTED_AT);
    } else {
      FieldHere(t, row, m, ZONE_ID);
      FieldHere(t, row, m, ENTRY_COUNT);
    }
  }

  // ---- Reading back whole messages and streams ------------------------------------------

  /** Signed OIDs of different tables stay different, so entries do not clash. */
  lemma AnnounceMirrors(cache: Cache, known: Catalog, t: Table)
    requires CatalogOk(known) && Mirrors(cache, known) && TableOk(t)
    ensures Mirrors(cache[Signed(t.oid, 4) := CachedOf(t)], known[t.oid := t])
    ensures CatalogOk(known[t.oid := t])
  {
  }

  /** Cursor position at which decoding a message stops. */
  function Consumed(m: Message): nat {
    if m.Other? then 1 else |Encode(m)|
  }

  /** Decoding `buf` yields the message's event and catalogue entry, and stops at its end. */
  ghost predicate Decodes(cache: Cache, known: Catalog, m: Message, buf: bytes)
    requires CatalogOk(known) && MessageOk(known, m)
  {
    var d := DecodeMessage(cache, buf);
    && d.Success? && d.value.event == EventOf(known, m) && d.value.pos == Consumed(m)
    && Mirrors(d.value.cache, Announce(known, m)) && CatalogOk(Announce(known, m))
  }

  lemma {:induction false} InsertDecodes(cache: Cache, known: Catalog, oid: nat, row: Row, buf: bytes)
    requires CatalogOk(known) && Mirrors(cache, known) && MessageOk(known, Insert(oid, row))
    requires At(buf, 0, Encode(Insert(oid, row)))
    ensures Decodes(cache, known, Insert(oid, row), buf)
  {
    hide At, TupleAt, RelationAt, CatalogOk, Mirrors, RowOk, Publishable, TableOk, EncodeTuple, ToBE, EventFor;
    AtSplit(buf, 0, TAG_INSERT, ToBE(oid, 4) + (TAG_NEW + EncodeTuple(row)));
    CharHere(buf, 0, TAG_INSERT[0]);
    AtSplit(buf, 1, ToBE(oid, 4), TAG_NEW + EncodeTuple(row));
    KnownOid(known, oid);
    IntHere(buf, 1, oid, 4);
    NewTupleHere(cache, known, buf, 5, oid, row);
  }

  lemma {:induction false} UpdateDecodes(cache: Cache, known: Catalog, oid: nat, prior: Option<OldTuple>, row: Row,
      buf: bytes)
    requires CatalogOk(known) && Mirrors(cache, known) && MessageOk(known, Update(oid, prior, row))
    requires At(buf, 0, Encode(Update(oid, prior, row)))
    ensures Decodes(cache, known, Update(oid, prior, row), buf)
  {
    hide At, TupleAt, RelationAt, CatalogOk, Mirrors, RowOk, Publishable, TableOk, EncodeTuple, EncodeOld, ToBE,
         EventFor, SkipOldAt;
    var newer := TAG_NEW + EncodeTuple(row);
    AtSplit(buf, 0, TAG_UPDATE, ToBE(oid, 4) + (EncodeOld(prior) + newer));
    CharHere(buf, 0, TAG_UPDATE[0]);
    AtSplit(buf, 1, ToBE(oid, 4), EncodeOld(prior) + newer);
    KnownOid(known, oid);
    IntHere(buf, 1, oid, 4);
    AtSplit(buf, 5, EncodeOld(prior), newer);
    OldTupleHere(cache, known, buf, 5, oid, prior, row);
    NewTupleHere(cache, known, buf, 5 + |EncodeOld(prior)|, oid, row);
  }

  lemma {:induction false} RelationDecodes(cache: Cache, known: Catalog, t: Table, buf: bytes)
    requires CatalogOk(known) && Mirrors(cache, known) && MessageOk(known, Relation(t))
    requires At(buf, 0, Encode(Relation(t)))
    ensures Decodes(cache, known, Relation(t), buf)
  {
    hide At, RelationAt, CatalogOk, Mirrors, TableOk, EncodeRelation;
    AtSplit(buf, 0, TAG_RELATION, EncodeRelation(t));
    CharHere(buf, 0, TAG_RELATION[0]);
    RelationHere(buf, 1, t);
    AnnounceMirrors(cache, known, t);
  }

  /**
   * Round trip for one message. `buf` may go on after the message: the bytes
   * beyond its end change nothing, so they are never read; and the cursor of a
   * Relation, Insert or Update ends exactly where the message does.
   */
  lemma {:induction false} DecodeEncoded(cache: Cache, known: Catalog, m: Message, buf: bytes)
    requires CatalogOk(known) && Mirrors(cache, known) && MessageOk(known, m)
    requires At(buf, 0, Encode(m))
    ensures Decodes(cache, known, m, buf)
  {
    hide At, CatalogOk, Mirrors, RowOk, Publishable, TableOk, EncodeRelation, EncodeTuple;
    match m
    case Relation(t) =>
      hide Encode, Decodes;
      RelationDecodes(cache, known, t, buf);
    case Insert(oid, row) =>
      hide Encode, Decodes;
      InsertDecodes(cache, known, oid, row, buf);
    case Update(oid, prior, row) =>
      hide Encode, Decodes;
      UpdateDecodes(cache, known, oid, prior, row, buf);
    case Other(tag, body) =>
      AtSplit(buf, 0, [tag], body);
      CharHere(buf, 0, tag);
  }

  /** The letters of the protocol's messages, as sections 55.8 and 55.9 of the PostgreSQL 16 manual have them. */
  lemma Letters()
    ensures TAG_RELATION == Ascii("R") && TAG_INSERT == Ascii("I") && TAG_UPDATE == Ascii("U")
    ensures TAG_KEY == Ascii("K") && TAG_OLD == Ascii("O") && TAG_NEW == Ascii("N")
    ensures TAG_NULL == Ascii("n") && TAG_UNCHANGED == Ascii("u") && TAG_TEXT == Ascii("t")
  {
  }

  /** A row of a table that this session has not announced raises, whatever the rest of the message holds. */
  lemma UnannouncedRaises(cache: Cache, oid: nat, tag: Text, rest: bytes)
    requires Fits(oid, 4) && Signed(oid, 4) !in cache && (tag == Ascii("I") || tag == Ascii("U"))
    ensures DecodeMessage(cache, tag + (ToBE(oid, 4) + rest)) == Failure(KeyError)
  {
    hide At, ToBE, Fits, ValuesAt, RelationAt, EventFor, Ascii;
    Letters();
    var buf := tag + (ToBE(oid, 4) + rest);
    AtWhole(buf, buf, 0, []);
    AtSplit(buf, 0, tag, ToBE(oid, 4) + rest);
    CharHere(buf, 0, tag[0]);
    AtSplit(buf, 1, ToBE(oid, 4), rest);
    IntHere(buf, 1, oid, 4);
  }

  lemma KnownOid(known: Catalog, oid: nat)
    requires CatalogOk(known) && oid in known
    ensures Fits(oid, 4)
  {
  }

  lemma NewTupleHere(cache: Cache, known: Catalog, buf: bytes, pos: int, oid: nat, row: Row)
    requires CatalogOk(known) && Mirrors(cache, known) && oid in known
    requires RowOk(known[oid], row) && Publishable(known[oid], row)
    requires At(buf, pos, TAG_NEW + EncodeTuple(row))
    ensures CharAt(buf, pos) == (TAG_NEW, pos + 1)
    ensures var read := TupleAt(cache, buf, pos + 1, Signed(oid, 4));
      && read.Success? && read.value.1 == pos + 1 + |EncodeTuple(row)|
      && EventFor(cache, Signed(oid, 4), read.value.0) == Success(RowEvent(known[oid], row))
  {
    hide At, TupleAt, Publishable, Holds;
    AtSplit(buf, pos, TAG_NEW, EncodeTuple(row));
    CharHere(buf, pos, TAG_NEW[0]);
    TupleHere(cache, known, buf, pos + 1, oid, row);
    if Watched(known[oid].name) {
      EventHere(known[oid], row, TupleAt(cache, buf, pos + 1, Signed(oid, 4)).value.0);
    }
  }

  lemma OldTupleHere(cache: Cache, known: Catalog, buf: bytes, pos: int, oid: nat, prior: Option<OldTuple>, row: Row)
    requires CatalogOk(known) && Mirrors(cache, known) && oid in known
    requires prior.Some? ==> RowOk(known[oid], prior.value.row)
    requires At(buf, pos, EncodeOld(prior)) && At(buf, pos + |EncodeOld(prior)|, TAG_NEW + EncodeTuple(row))
    ensures SkipOldAt(cache, buf, pos, Signed(oid, 4)) == Success(((), pos + |EncodeOld(prior)| + 1))
  {
    hide At, TupleAt, CatalogOk, Mirrors, RowOk, Holds, EncodeTuple;
    AtSplit(buf, pos + |EncodeOld(prior)|, TAG_NEW, EncodeTuple(row));
    CharHere(buf, pos + |EncodeOld(prior)|, TAG_NEW[0]);
    match prior
    case None =>
    case Some(KeyTuple(r)) =>
      AtSplit(buf, pos, TAG_KEY, EncodeTuple(r));
      CharHere(buf, pos, TAG_KEY[0]);
      TupleHere(cache, known, buf, pos + 1, oid, r);
    case Some(FullTuple(r)) =>
      AtSplit(buf, pos, TAG_OLD, EncodeTuple(r));
      CharHere(buf, pos, TAG_OLD[0]);
      TupleHere(cache, known, buf, pos + 1, oid, r);
  }

  ghost predicate StreamOk(known: Catalog, ms: seq<Message>)
    decreases |ms|
  {
    ms == [] || (MessageOk(known, ms[0]) && StreamOk(Announce(known, ms[0]), ms[1..]))
  }

  function Opt<T>(o: Option<T>): seq<T> {
    if o.Some? then [o.value] else []
  }

  /** The events of a stream, one per watched Insert or Update, in order. */
  ghost function EventsOf(known: Catalog, ms: seq<Message>): seq<Event>
    requires CatalogOk(known) && StreamOk(known, ms)
    decreases |ms|
  {
    if ms == [] then [] else Opt(EventOf(known, ms[0])) + EventsOf(Announce(known, ms[0]), ms[1..])
  }

  /** Decoding a stream of buffers, publishing as it goes. */
  function DecodeStream(cache: Cache, bufs: seq<bytes>): Result<seq<Event>, Raised>
    decreases |bufs|
  {
    if bufs == [] then Success([]) else
    var d :- DecodeMessage(cache, bufs[0]);
    var rest :- DecodeStream(d.cache, bufs[1..]);
    Success(Opt(d.event) + rest)
  }

  function EncodeAll(ms: seq<Message>): seq<bytes> {
    seq(|ms|, i requires 0 <= i < |ms| => Encode(ms[i]))
  }

  lemma {:induction false} StreamRoundTrip(cache: Cache, known: Catalog, ms: seq<Message>)
    requires CatalogOk(known) && Mirrors(cache, known) && StreamOk(known, ms)
    ensures DecodeStream(cache, EncodeAll(ms)) == Success(EventsOf(known, ms))
    decreases |ms|
  {
    if ms != [] {
      AtWhole(Encode(ms[0]), Encode(ms[0]), 0, []);
      DecodeEncoded(cache, known, ms[0], Encode(ms[0]));
      var d := DecodeMessage(cache, Encode(ms[0])).value;
      assert EncodeAll(ms)[1..] == EncodeAll(ms[1..]);
      StreamRoundTrip(d.cache, Announce(known, ms[0]), ms[1..]);
    }
  }
}
