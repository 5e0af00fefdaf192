/** Kafka v2 record batches (services/broker-proxy/kafka/protocol.go, lines 306 to 465). */
module KafkaRecords {
  import opened Bytes
  import opened Options
  import opened Strconv
  import opened KafkaVarint

  /** A record as the observer keeps it; a missing key or value is None. */
  datatype RawRecord = RawRecord(offsetDelta: int, key: Option<bytes>, value: Option<bytes>)

  /** A key or value: zigzag length, negative for null, then the bytes. */
  function NullableField(data: bytes, pos: nat): (r: Read<Option<bytes>>)
    ensures r.Ok? ==> pos < r.pos <= |data|
  {
    match ZigzagVarint(data, pos)
    case Err => Err
    case Ok(n, p) =>
      if n < 0 then Ok(None, p)
      else if p + n > |data| then Err
      else Ok(Some(data[p..p + n]), p + n)
  }

  /** One record; its headers are skipped by jumping to the end its length announces. */
  function Record(data: bytes, pos: nat): (r: Read<RawRecord>)
    ensures r.Ok? ==> pos < r.pos <= |data|
  {
    match ZigzagVarint(data, pos)
    case Err => Err
    case Ok(recLen, p) =>
      if p + recLen > |data| || recLen <= 0 then Err
      else
        match RecordFields(data, p + 1)
        case Err => Err
        case Ok(rec, _) => Ok(rec, p + recLen)
  }

  /** Timestamp delta, offset delta, key and value. */
  function RecordFields(data: bytes, pos: nat): Read<RawRecord> {
    match ZigzagVarint(data, pos)
    case Err => Err
    case Ok(_, p1) =>
      match ZigzagVarint(data, p1)
      case Err => Err
      case Ok(delta, p2) =>
        match NullableField(data, p2)
        case Err => Err
        case Ok(key, p3) =>
          match NullableField(data, p3)
          case Err => Err
          case Ok(value, p4) => Ok(RawRecord(ToInt32(delta), key, value), p4)
  }

  method ParseRecord(data: bytes, pos: nat) returns (r: Read<RawRecord>)
    ensures r == Record(data, pos)
  {
    hide ZigzagVarint;
    var recLen := ReadZigzagVarint(data, pos);
    if recLen.Err? {
      return Err;
    }
    var recEnd := recLen.pos + recLen.value;
    if recEnd > |data| {
      return Err;
    }
    if recLen.pos >= recEnd {
      return Err;
    }
    var timestamp := ReadZigzagVarint(data, recLen.pos + 1);
    if timestamp.Err? {
      return Err;
    }
    var delta := ReadZigzagVarint(data, timestamp.pos);
    if delta.Err? {
      return Err;
    }
    var key := ParseNullableField(data, delta.pos);
    if key.Err? {
      return Err;
    }
    var value := ParseNullableField(data, key.pos);
    if value.Err? {
      return Err;
    }
    return Ok(RawRecord(ToInt32(delta.value), key.value, value.value), recEnd);
  }

  method ParseNullableField(data: bytes, pos: nat) returns (r: Read<Option<bytes>>)
    ensures r == NullableField(data, pos)
  {
    var n := ReadZigzagVarint(data, pos);
    if n.Err? {
      return Err;
    }
    if n.value < 0 {
      return Ok(None, n.pos);
    }
    if n.pos + n.value > |data| {
      return Err;
    }
    return Ok(Some(data[n.pos..n.pos + n.value]), n.pos + n.value);
  }

  /** Up to `count` records from `pos`, as far as they can be read. */
  function Records(data: bytes, pos: nat, count: int): seq<RawRecord>
    decreases count
  {
    if count <= 0 || pos >= |data| then []
    else
      match Record(data, pos)
      case Err => []
      case Ok(rec, next) => [rec] + Records(data, next, count - 1)
  }

  const HEADER_SIZE := 61

  /** A batch the observer reads: complete header, magic 2, no compression. */
  predicate Readable(data: bytes) {
    |data| >= HEADER_SIZE && data[16] == 2 && FromBE(data[21..23]) % 8 == 0
  }

  function BaseOffset(data: bytes): int
    requires Readable(data)
  {
    ToInt64(FromBE(data[0..8]))
  }

  function BatchRecords(data: bytes): seq<RawRecord> {
    if Readable(data) then Records(data, HEADER_SIZE, ToInt32(FromBE(data[57..61]))) else []
  }

  /** The record loop that parseRecordBatch and parseFetchRecordBatch share. */
  method ParseBatch(data: bytes) returns (records: seq<RawRecord>)
    ensures records == BatchRecords(data)
  {
    hide Record;
    if !Readable(data) {
      return [];
    }
    var recordCount := ToInt32(FromBE(data[57..61]));
    var pos, i := HEADER_SIZE, 0;
    records := [];
    while i < recordCount && pos < |data|
      invariant 0 <= i && 0 <= pos
      invariant records + Records(data, pos, recordCount - i) == BatchRecords(data)
      decreases recordCount - i
    {
      var rec := ParseRecord(data, pos);
      if rec.Err? {
        break;
      }
      assert records + ([rec.value] + Records(data, rec.pos, recordCount - i - 1))
          == (records + [rec.value]) + Records(data, rec.pos, recordCount - i - 1);
      records := records + [rec.value];
      pos := rec.pos;
      i := i + 1;
    }
    assert Records(data, pos, recordCount - i) == [];
  }

  // ---------- the encoding it inverts ----------

  datatype FullRecord = FullRecord(
    attributes: byte, timestampDelta: int, offsetDelta: int, key: Option<bytes>, value: Option<bytes>, headers: bytes)

  predicate Int32(i: int) { -0x8000_0000 <= i < 0x8000_0000 }

  predicate Fits(f: Option<bytes>) { f.Some? ==> |f.value| < 0x8000_0000 }

  predicate ValidRecord(r: FullRecord) {
    MIN_INT64 <= r.timestampDelta <= MAX_INT64 && Int32(r.offsetDelta) && Fits(r.key) && Fits(r.value) &&
    |r.headers| < 0x8000_0000
  }

  function Kept(r: FullRecord): RawRecord {
    RawRecord(r.offsetDelta, r.key, r.value)
  }

  function PutField(f: Option<bytes>): bytes {
    match f
    case None => PutZigzag(-1)
    case Some(s) => PutZigzag(|s|) + s
  }

  function PutFields(r: FullRecord): bytes {
    PutZigzag(r.timestampDelta) + (PutZigzag(r.offsetDelta) + (PutField(r.key) + PutField(r.value)))
  }

  function RecordBody(r: FullRecord): bytes {
    [r.attributes] + (PutFields(r) + r.headers)
  }

  function PutRecord(r: FullRecord): (s: bytes)
    ensures s != []
  {
    PutZigzag(|RecordBody(r)|) + RecordBody(r)
  }

  function PutRecords(rs: seq<FullRecord>): bytes {
    if rs == [] then [] else PutRecord(rs[0]) + PutRecords(rs[1..])
  }

  lemma FieldRoundTrip(data: bytes, pos: nat, f: Option<bytes>)
    requires Fits(f) && Has(data, pos, PutField(f))
    ensures NullableField(data, pos) == Ok(f, pos + |PutField(f)|)
  {
    hide ZigzagVarint, PutZigzag, Has;
    match f
    case None => ZigzagRoundTrip(data, pos, -1);
    case Some(s) =>
      HasConcat(data, pos, PutZigzag(|s|), s);
      ZigzagRoundTrip(data, pos, |s|);
      HasSlice(data, pos + |PutZigzag(|s|)|, s);
  }

  lemma HasSlice(data: bytes, pos: nat, enc: bytes)
    requires Has(data, pos, enc)
    ensures pos + |enc| <= |data| && data[pos..pos + |enc|] == enc
  {
  }

  lemma FieldsRoundTrip(data: bytes, pos: nat, r: FullRecord)
    requires ValidRecord(r) && Has(data, pos, PutFields(r))
    ensures RecordFields(data, pos) == Ok(Kept(r), pos + |PutFields(r)|)
  {
    hide ZigzagVarint, PutZigzag, Has, NullableField, PutField;
    var p1 := pos + |PutZigzag(r.timestampDelta)|;
    var p2 := p1 + |PutZigzag(r.offsetDelta)|;
    var p3 := p2 + |PutField(r.key)|;
    HasConcat(data, pos, PutZigzag(r.timestampDelta), PutZigzag(r.offsetDelta) + (PutField(r.key) + PutField(r.value)));
    HasConcat(data, p1, PutZigzag(r.offsetDelta), PutField(r.key) + PutField(r.value));
    HasConcat(data, p2, PutField(r.key), PutField(r.value));
    ZigzagRoundTrip(data, pos, r.timestampDelta);
    ZigzagRoundTrip(data, p1, r.offsetDelta);
    FieldRoundTrip(data, p2, r.key);
    FieldRoundTrip(data, p3, r.value);
  }

  lemma BodyLength(r: FullRecord)
    requires ValidRecord(r)
    ensures 0 < |RecordBody(r)| < 0x8_0000_0000
  {
    hide PutUvarint;
    UvarintFits(Zigzag(r.timestampDelta));
    UvarintFits(Zigzag(r.offsetDelta));
    UvarintFits(Zigzag(-1));
    if r.key.Some? {
      UvarintFits(Zigzag(|r.key.value|));
    }
    if r.value.Some? {
      UvarintFits(Zigzag(|r.value.value|));
    }
  }

  lemma UvarintFits(n: nat)
    requires n < TWO64
    ensures |PutUvarint(n)| <= 10
  {
    Pow128Values();
    assert Pow128(10) == 128 * Pow128(9);
    UvarintLength(n, 10);
  }

  /** A record is read back with its key, its value and its offset delta, and reading ends at the
      record's own end whatever its headers hold. */
  lemma RecordRoundTrip(data: bytes, pos: nat, r: FullRecord)
    requires ValidRecord(r) && Has(data, pos, PutRecord(r))
    ensures Record(data, pos) == Ok(Kept(r), pos + |PutRecord(r)|)
  {
    hide ZigzagVarint, PutZigzag, Has, RecordFields, PutFields;
    var body := RecordBody(r);
    var p := pos + |PutZigzag(|body|)|;
    BodyLength(r);
    HasConcat(data, pos, PutZigzag(|body|), body);
    ZigzagRoundTrip(data, pos, |body|);
    HasFits(data, p, body);
    HasConcat(data, p, [r.attributes], PutFields(r) + r.headers);
    HasConcat(data, p + 1, PutFields(r), r.headers);
    FieldsRoundTrip(data, p + 1, r);
  }

  function KeptAll(rs: seq<FullRecord>): (s: seq<RawRecord>)
    ensures |s| == |rs|
  {
    seq(|rs|, i requires 0 <= i < |rs| => Kept(rs[i]))
  }

  lemma {:induction false} RecordsRoundTrip(data: bytes, pos: nat, rs: seq<FullRecord>)
    requires forall i :: 0 <= i < |rs| ==> ValidRecord(rs[i])
    requires Has(data, pos, PutRecords(rs))
    ensures Records(data, pos, |rs|) == KeptAll(rs)
    decreases |rs|
  {
    hide Has, Record, PutRecord, ValidRecord;
    if rs != [] {
      HasConcat(data, pos, PutRecord(rs[0]), PutRecords(rs[1..]));
      HasFits(data, pos, PutRecord(rs[0]));
      RecordRoundTrip(data, pos, rs[0]);
      RecordsRoundTrip(data, pos + |PutRecord(rs[0])|, rs[1..]);
      assert KeptAll(rs) == [Kept(rs[0])] + KeptAll(rs[1..]);
    }
  }

  /** An uncompressed v2 batch. `lengthAndEpoch` is batchLength and partitionLeaderEpoch;
      `middle` runs from lastOffsetDelta to baseSequence. */
  datatype Batch = Batch(
    baseOffset: int, lengthAndEpoch: bytes, crc: bytes, attributes: nat, middle: bytes, records: seq<FullRecord>)

  ghost predicate ValidBatch(b: Batch) {
    MIN_INT64 <= b.baseOffset <= MAX_INT64 && |b.lengthAndEpoch| == 8 && |b.crc| == 4 &&
    b.attributes < 0x1_0000 && b.attributes % 8 == 0 && |b.middle| == 34 && |b.records| < 0x8000_0000 &&
    forall i :: 0 <= i < |b.records| ==> ValidRecord(b.records[i])
  }

  function PutBatch(b: Batch): bytes
    requires MIN_INT64 <= b.baseOffset <= MAX_INT64
  {
    Pow256Values();
    BE(Unsigned(b.baseOffset, 8), 8) + b.lengthAndEpoch + [2] + b.crc + BE(b.attributes, 2) + b.middle +
    BE(|b.records|, 4) + PutRecords(b.records)
  }

  /** Every record of a batch is read back in order, with the batch's base offset. Anything after
      the batch is ignored. */
  lemma BatchRoundTrip(b: Batch, trailing: bytes)
    requires ValidBatch(b)
    ensures Readable(PutBatch(b) + trailing)
    ensures BaseOffset(PutBatch(b) + trailing) == b.baseOffset
    ensures BatchRecords(PutBatch(b) + trailing) == KeptAll(b.records)
  {
    hide PutBatch, Has, Records, BE, FromBE, Pow256, ToInt64, ToInt32, Unsigned, PutRecords, ValidRecord;
    Pow256Values();
    BaseOffsetRoundTrip(b.baseOffset);
    BERoundTrip(b.attributes, 2);
    BERoundTrip(|b.records|, 4);
    SmallInt32(|b.records|);
    BatchLayout(b, trailing);
    RecordsRoundTrip(PutBatch(b) + trailing, HEADER_SIZE, b.records);
  }

  lemma BaseOffsetRoundTrip(i: int)
    requires MIN_INT64 <= i <= MAX_INT64
    ensures Pow256(8) == TWO64 && ToInt64(FromBE(BE(Unsigned(i, 8), 8))) == i
  {
    hide BE, FromBE;
    Pow256Values();
    BERoundTrip(Unsigned(i, 8), 8);
  }

  lemma SmallInt32(n: nat)
    requires n < 0x8000_0000
    ensures ToInt32(n) == n
  {
  }

  lemma BatchLayout(b: Batch, trailing: bytes)
    requires ValidBatch(b)
    ensures var data := PutBatch(b) + trailing;
            && |data| >= HEADER_SIZE && data[0..8] == BE(Unsigned(b.baseOffset, 8), 8) && data[16] == 2
            && data[21..23] == BE(b.attributes, 2) && data[57..61] == BE(|b.records|, 4)
            && Has(data, HEADER_SIZE, PutRecords(b.records))
  {
    hide PutRecords, ValidRecord;
    Pow256Values();
    var data := PutBatch(b) + trailing;
    assert data[0..8] == BE(Unsigned(b.baseOffset, 8), 8);
    assert data[21..23] == BE(b.attributes, 2);
    assert data[57..61] == BE(|b.records|, 4);
    assert data[61..61 + |PutRecords(b.records)|] == PutRecords(b.records);
  }
}
