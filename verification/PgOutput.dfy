/**
 * The pgoutput decoder of app/cdc_consumer.py as functions of a buffer and a
 * cursor. `DecodeMessage` is what the imperative decoder in Decoder.dfy is
 * proved against; RoundTrip.dfy proves it inverse to the encoding of
 * PostgreSQL 16, section 55.9.
 */
module PgOutput {
  import opened Wrappers
  import opened Bytes

  // ---- Published events ----------------------------------------------------

  const VEHICLE_TABLE: Text := Ascii("vehicle_current_state")
  const ANOMALY_TABLE: Text := Ascii("anomalies")
  const ZONE_TABLE: Text := Ascii("zone_counts")

  const VEHICLE_ID: Text := Ascii("vehicle_id")
  const STATUS: Text := Ascii("status")
  const BATTERY_PCT: Text := Ascii("battery_pct")
  const ANOMALY_TYPE: Text := Ascii("anomaly_type")
  const DETAIL: Text := Ascii("detail")
  const DETECTED_AT: Text := Ascii("detected_at")
  const ZONE_ID: Text := Ascii("zone_id")
  const ENTRY_COUNT: Text := Ascii("entry_count")

  /** A decoded column: SQL null, the unchanged-TOAST sentinel, or its text. */
  datatype Value = Null | Unchanged | Str(text: Text)

  /**
   * The three envelopes of app/events.py. A JSON string or null is an optional
   * text; a number keeps the text it was parsed from.
   */
  datatype Event =
    | VehicleStateChanged(vehicleId: Option<Text>, status: Option<Text>, battery: Option<Text>)
    | AnomalyDetected(
        vehicleId: Option<Text>, anomalyType: Option<Text>, detail: Option<Text>, detectedAt: Option<Text>)
    | ZoneCountChanged(zoneId: Option<Text>, entryCount: Option<Text>)

  predicate Watched(relname: Text) {
    relname == VEHICLE_TABLE || relname == ANOMALY_TABLE || relname == ZONE_TABLE
  }

  /** A field taken as is: the TOAST sentinel is not JSON serialisable. */
  function AsJson(v: Value): Result<Option<Text>, Raised> {
    match v
    case Null => Success(None)
    case Str(t) => Success(Some(t))
    case Unchanged => Failure(TypeError)
  }

  /** A numeric field: null and the sentinel both become null. */
  function AsNumber(v: Value): Option<Text> {
    if v.Str? then Some(v.text) else None
  }

  function Field(row: map<Text, Value>, name: Text): Result<Value, Raised> {
    if name in row then Success(row[name]) else Failure(KeyError)
  }

  /** The envelope of one watched row, as `_build_payload` and `json.dumps` make it. */
  function BuildEvent(relname: Text, row: map<Text, Value>): Result<Event, Raised> {
    if relname == VEHICLE_TABLE then
      var vehicle :- Field(row, VEHICLE_ID);
      var status :- Field(row, STATUS);
      var battery :- Field(row, BATTERY_PCT);
      var v :- AsJson(vehicle);
      var s :- AsJson(status);
      Success(VehicleStateChanged(v, s, AsNumber(battery)))
    else if relname == ANOMALY_TABLE then
      var vehicle :- Field(row, VEHICLE_ID);
      var kind :- Field(row, ANOMALY_TYPE);
      var detail :- Field(row, DETAIL);
      var at :- Field(row, DETECTED_AT);
      var v :- AsJson(vehicle);
      var k :- AsJson(kind);
      var d :- AsJson(detail);
      var t :- AsJson(at);
      Success(AnomalyDetected(v, k, d, t))
    else
      var zone :- Field(row, ZONE_ID);
      var count :- Field(row, ENTRY_COUNT);
      var z :- AsJson(zone);
      Success(ZoneCountChanged(z, AsNumber(count)))
  }

  // ---- Cursor reads: the value and the cursor after it ----------------------

  type Read<T> = Result<(T, int), Raised>

  function Int8At(buf: bytes, pos: int): Read<int> {
    var i := if pos < 0 then pos + |buf| else pos;
    if 0 <= i < |buf| then Success((buf[i] as int, pos + 1)) else Failure(IndexError)
  }

  /** `struct.unpack_from` of one signed big-endian `k`-byte integer. */
  function IntAt(buf: bytes, pos: int, k: nat): Read<int> {
    var i := if pos < 0 then pos + |buf| else pos;
    if 0 <= i && i + k <= |buf|
    then Success((Signed(FromBE(buf[i..i + k]), k), pos + k))
    else Failure(StructError)
  }

  function CharAt(buf: bytes, pos: int): (bytes, int) {
    (Slice(buf, pos, pos + 1), pos + 1)
  }

  function TakeAt(buf: bytes, pos: int, n: int): (bytes, int) {
    (Slice(buf, pos, pos + n), pos + n)
  }

  /** First zero byte at or after `from`. */
  function ZeroFrom(buf: bytes, from: nat): (r: Option<nat>)
    ensures r.Some? ==> from <= r.value < |buf| && buf[r.value] == 0
    ensures r.Some? ==> forall i :: from <= i < r.value ==> buf[i] != 0
    ensures r.None? ==> forall i :: from <= i < |buf| ==> buf[i] != 0
    decreases |buf| - from
  {
    if from >= |buf| then None
    else if buf[from] == 0 then Some(from)
    else ZeroFrom(buf, from + 1)
  }

  function StringAt(buf: bytes, pos: int): Read<Text> {
    match ZeroFrom(buf, if pos < 0 then Clamp(pos, |buf|) else pos)
    case None => Failure(ValueError)
    case Some(end) =>
      var s :- DecodeText(Slice(buf, pos, end));
      Success((s, end + 1))
  }

  // ---- Messages ------------------------------------------------------------

  /** What the relation cache keeps of a Relation message. */
  datatype Cached = Cached(name: Text, columns: seq<Text>)
  type Cache = map<int, Cached>

  const TAG_RELATION: bytes := [0x52]  // 'R'
  const TAG_INSERT: bytes := [0x49]  // 'I'
  const TAG_UPDATE: bytes := [0x55]  // 'U'
  const TAG_KEY: bytes := [0x4B]  // 'K'
  const TAG_OLD: bytes := [0x4F]  // 'O'
  const TAG_NEW: bytes := [0x4E]  // 'N'
  const TAG_NULL: bytes := [0x6E]  // 'n'
  const TAG_UNCHANGED: bytes := [0x75]  // 'u'
  const TAG_TEXT: bytes := [0x74]  // 't'

  /** One column description: flags, name, type OID, type modifier. */
  function ColumnAt(buf: bytes, pos: int): Read<Text> {
    var (_, p1) :- Int8At(buf, pos);
    var (name, p2) :- StringAt(buf, p1);
    var (_, p3) :- IntAt(buf, p2, 4);
    var (_, p4) :- IntAt(buf, p3, 4);
    Success((name, p4))
  }

  /** The column loop of `_cache_relation` with `n` columns still to read. */
  function ColumnsAt(buf: bytes, pos: int, n: int, names: seq<Text>): Read<seq<Text>>
    decreases Max(n, 0)
  {
    if n <= 0 then Success((names, pos)) else
    var (name, p1) :- ColumnAt(buf, pos);
    ColumnsAt(buf, p1, n - 1, names + [name])
  }

  function RelationAt(buf: bytes, pos: int): Read<(int, Cached)> {
    var (oid, p1) :- IntAt(buf, pos, 4);
    var (_, p2) :- StringAt(buf, p1);
    var (name, p3) :- StringAt(buf, p2);
    var (_, p4) :- Int8At(buf, p3);
    var (n, p5) :- IntAt(buf, p4, 2);
    var (columns, p6) :- ColumnsAt(buf, p5, n, []);
    Success(((oid, Cached(name, columns)), p6))
  }

  /** One column of a TupleData: its kind byte, then its value. */
  function ValueAt(buf: bytes, pos: int, kind: bytes): Read<Value> {
    if kind == TAG_NULL then Success((Null, pos))
    else if kind == TAG_UNCHANGED then Success((Unchanged, pos))
    else
      var (length, p1) :- IntAt(buf, pos, 4);
      var (raw, p2) := TakeAt(buf, p1, length);
      var text :- DecodeText(raw);
      Success((Str(text), p2))
  }

  /** The column loop of `_read_tuple`, at column `i` of `n`. */
  function ValuesAt(buf: bytes, pos: int, columns: seq<Text>, i: nat, n: int, row: map<Text, Value>)
    : Read<map<Text, Value>>
    decreases Max(n - i, 0)
  {
    if i >= n then Success((row, pos)) else
    var (kind, p1) := CharAt(buf, pos);
    if i >= |columns| then Failure(IndexError) else
    var (value, p2) :- ValueAt(buf, p1, kind);
    ValuesAt(buf, p2, columns, i + 1, n, row[columns[i] := value])
  }

  function TupleAt(cache: Cache, buf: bytes, pos: int, oid: int): Read<map<Text, Value>> {
    if oid !in cache then Failure(KeyError) else
    var (n, p1) :- IntAt(buf, pos, 2);
    ValuesAt(buf, p1, cache[oid].columns, 0, n, map[])
  }

  /** The event `_emit` would publish for a row, none for an unwatched table. */
  function EventFor(cache: Cache, oid: int, row: map<Text, Value>): Result<Option<Event>, Raised> {
    if oid !in cache then Failure(KeyError)
    else if !Watched(cache[oid].name) then Success(None)
    else
      var e :- BuildEvent(cache[oid].name, row);
      Success(Some(e))
  }

  /** Skips the old tuple of an Update; the cursor is then at the new tuple. */
  function SkipOldAt(cache: Cache, buf: bytes, pos: int, oid: int): Read<()> {
    var (kind, p1) := CharAt(buf, pos);
    if kind == TAG_KEY || kind == TAG_OLD then
      var (_, p2) :- TupleAt(cache, buf, p1, oid);
      Success(((), CharAt(buf, p2).1))
    else
      Success(((), p1))
  }

  /** What decoding one message yields: the cache, the event due, the cursor. */
  datatype Decoded = Decoded(cache: Cache, event: Option<Event>, pos: int)

  function DecodeMessage(cache: Cache, buf: bytes): Result<Decoded, Raised> {
    var (tag, p0) := CharAt(buf, 0);
    if tag == TAG_RELATION then
      var ((oid, relation), p1) :- RelationAt(buf, p0);
      Success(Decoded(cache[oid := relation], None, p1))
    else if tag == TAG_INSERT then
      var (oid, p1) :- IntAt(buf, p0, 4);
      var (row, p2) :- TupleAt(cache, buf, CharAt(buf, p1).1, oid);
      var event :- EventFor(cache, oid, row);
      Success(Decoded(cache, event, p2))
    else if tag == TAG_UPDATE then
      var (oid, p1) :- IntAt(buf, p0, 4);
      var (_, p2) :- SkipOldAt(cache, buf, p1, oid);
      var (row, p3) :- TupleAt(cache, buf, p2, oid);
      var event :- EventFor(cache, oid, row);
      Success(Decoded(cache, event, p3))
    else
      Success(Decoded(cache, None, p0))
  }
}
