/**
 Cell by cell encoding of rows (backend-nest/src/backup/snapshot.codec.ts:30-75).
 Dates, decimals and big integers are identified with the exact text that
 `toISOString`, `toFixed` and `toString` print for them.
 */
module SnapshotCodec {
  import opened JsText
  import opened CanonicalJson
  import opened JsonText
  import opened Wrappers
  import Base64

  /** A value as the database client hands it over. */
  datatype Cell =
    | Plain(j: Json)
    | Date(iso: Text)
    | Bytes(bytes: seq<Base64.Byte>)
    | Decimal(fixed: Text)
    | BigInt(digits: Text)

  /** What a column holds. A plain column keeps booleans, numbers, strings, JSON or bytes. */
  datatype ColumnType = PlainColumn | DateColumn | DecimalColumn | BigIntColumn

  const BYTES_KEY: Text := [36, 98, 121, 116, 101, 115]

  function EncodeValue(v: Cell): Json {
    match v
    case Plain(JNull) => JNull
    case Plain(JUndefined) => JNull
    case Date(iso) => JString(iso)
    case Bytes(b) => JObject([Entry(BYTES_KEY, JString(Base64.Encode(b)))])
    case Decimal(fixed) => JString(fixed)
    case BigInt(digits) => JString(digits)
    case Plain(j) => j
  }

  /** An object with the one key `$bytes`, holding a string. */
  predicate IsEncodedBytes(j: Json) {
    j.JObject? && |j.entries| == 1 && j.entries[0].key == BYTES_KEY && j.entries[0].value.JString?
  }

  function DecodeValue(j: Json): Cell {
    if IsEncodedBytes(j) then Bytes(Base64.Decode(j.entries[0].value.s)) else Plain(j)
  }

  /** What the client stores in a column of this type when given `v`: text becomes a date or number there. */
  function Stored(t: ColumnType, v: Cell): Cell {
    match (t, v)
    case (DateColumn, Plain(JString(s))) => Date(s)
    case (DecimalColumn, Plain(JString(s))) => Decimal(s)
    case (BigIntColumn, Plain(JString(s))) => BigInt(s)
    case _ => v
  }

  /** The values a column of this type can hold; null always, undefined never. */
  predicate Holds(t: ColumnType, v: Cell) {
    v == Plain(JNull) ||
    match t
    case PlainColumn => (v.Plain? && v.j != JUndefined) || v.Bytes?
    case DateColumn => v.Date?
    case DecimalColumn => v.Decimal?
    case BigIntColumn => v.BigInt?
  }

  /** A JSON column whose value looks exactly like encoded bytes. */
  predicate Collides(v: Cell) {
    v.Plain? && IsEncodedBytes(v.j)
  }

  /** A cell survives export and restore exactly when it is not JSON shaped like encoded bytes. */
  lemma CellRoundTrip(t: ColumnType, v: Cell)
    requires Holds(t, v)
    ensures Stored(t, DecodeValue(EncodeValue(v))) == v <==> !Collides(v)
  {
    if v.Bytes? {
      Base64.DecodeUndoesEncode(v.bytes);
    }
  }

  /** What the file says of a cell: bytes as `{"$bytes": base64}`, dates and numbers as strings, undefined as null, all else as it is. */
  lemma CellText(v: Cell)
    requires v.Plain? ==> WellFormed(v.j)
    ensures WellFormed(EncodeValue(v))
    ensures Read(Canonicalise(EncodeValue(v)))
      == Some(match v
              case Plain(j) => Meaning(j)
              case Date(text) => VString(text)
              case Decimal(text) => VString(text)
              case BigInt(text) => VString(text)
              case Bytes(b) => VObject(map[[36, 98, 121, 116, 101, 115] := VString(Base64.Encode(b))]))
  {
    if v.Bytes? {
      var es := [Entry(BYTES_KEY, JString(Base64.Encode(v.bytes)))];
      assert es[1..] == [] && EncodeValue(v) == JObject(es);
      assert Members(es) == Members(es[1..])[BYTES_KEY := VString(Base64.Encode(v.bytes))];
    }
    CanonicalTextReadsAsMeant(EncodeValue(v));
  }

  type Columns = map<Text, Cell>

  type JsonColumns = map<Text, Json>

  function EncodedColumns(row: Columns): JsonColumns {
    map k | k in row :: EncodeValue(row[k])
  }

  function DecodedColumns(row: JsonColumns): Columns {
    map k | k in row :: DecodeValue(row[k])
  }

  /** `keys` is `Object.keys` of the row. */
  method EncodeRow(row: Columns, keys: seq<Text>) returns (out: JsonColumns)
    requires forall k :: k in keys <==> k in row
    ensures out == EncodedColumns(row)
  {
    out := map[];
    for i := 0 to |keys|
      invariant forall k :: k in out <==> k in keys[..i]
      invariant forall k :: k in out ==> out[k] == EncodeValue(row[k])
    {
      out := out[keys[i] := EncodeValue(row[keys[i]])];
    }
  }

  method DecodeRow(row: JsonColumns, keys: seq<Text>) returns (out: Columns)
    requires forall k :: k in keys <==> k in row
    ensures out == DecodedColumns(row)
  {
    out := map[];
    for i := 0 to |keys|
      invariant forall k :: k in out <==> k in keys[..i]
      invariant forall k :: k in out ==> out[k] == DecodeValue(row[k])
    {
      out := out[keys[i] := DecodeValue(row[keys[i]])];
    }
  }

  type ColumnTypes = map<Text, ColumnType>

  ghost predicate Typed(types: ColumnTypes, row: Columns) {
    forall k :: k in row ==> k in types && Holds(types[k], row[k])
  }

  /** The row the database stores when it is given `row`. */
  function StoredColumns(types: ColumnTypes, row: Columns): Columns {
    map k | k in row :: if k in types then Stored(types[k], row[k]) else row[k]
  }

  /** A row survives export and restore exactly when none of its cells collides with encoded bytes. */
  lemma RowRoundTrip(types: ColumnTypes, row: Columns)
    requires Typed(types, row)
    ensures StoredColumns(types, DecodedColumns(EncodedColumns(row))) == row <==> forall k :: k in row ==> !Collides(row[k])
  {
    var back := StoredColumns(types, DecodedColumns(EncodedColumns(row)));
    forall k | k in row
      ensures back[k] == row[k] <==> !Collides(row[k])
    {
      CellRoundTrip(types[k], row[k]);
    }
    if forall k :: k in row ==> !Collides(row[k]) {
      assert back == row;
    }
  }
}
