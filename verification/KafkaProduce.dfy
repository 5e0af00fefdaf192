/** Kafka request headers and Produce requests (services/broker-proxy/kafka/protocol.go, lines 72 to 173). */
module KafkaProduce {
  import opened Bytes
  import opened Options
  import opened KafkaVarint
  import opened KafkaRecords
  import opened KafkaReader

  const PRODUCE_FLEX_VERSION := 9
  const FETCH_FLEX_VERSION := 12
  const API_PRODUCE := 0
  const API_FETCH := 1
  const API_METADATA := 3

  /** How far a parser came: to a position, or to an error after the records it had already read. */
  datatype Parsed<+T> = Parsed(records: seq<T>, end: Option<nat>)

  function Prepend<T>(records: seq<T>, p: Parsed<T>): Parsed<T> {
    Parsed(records + p.records, p.end)
  }

  lemma PrependTwice<T>(a: seq<T>, b: seq<T>, p: Parsed<T>)
    ensures Prepend(a, Prepend(b, p)) == Prepend(a + b, p)
  {
  }

  // ---------- request header ----------

  datatype RequestHeader = RequestHeader(apiKey: int, apiVersion: int, correlationId: int, clientId: bytes)

  predicate IsFlexibleRequest(apiKey: int, apiVersion: int) {
    if apiKey == API_PRODUCE then apiVersion >= PRODUCE_FLEX_VERSION
    else if apiKey == API_FETCH then apiVersion >= FETCH_FLEX_VERSION
    else if apiKey == API_METADATA then apiVersion >= 9
    else apiVersion >= 2
  }

  function Int16Of(n: nat): int {
    if n % 0x1_0000 < 0x8000 then n % 0x1_0000 else n % 0x1_0000 - 0x1_0000
  }

  /** The header and where the body starts; None when shorter than eight bytes. */
  function ParseRequestHeader(p: bytes): Option<(RequestHeader, nat)> {
    if |p| < 8 then None
    else
      var h := RequestHeader(Int16Of(FromBE(p[0..2])), Int16Of(FromBE(p[2..4])), ToInt32(FromBE(p[4..8])), []);
      if |p| < 10 then Some((h, 8))
      else
        var n := Int16Of(FromBE(p[8..10]));
        if n > 0 && 10 + n > |p| then Some((h, 10))
        else
          var (id, next) := if n > 0 then (p[10..10 + n], 10 + n) else ([], 10);
          Some((h.(clientId := id), AfterTags(p, next, IsFlexibleRequest(h.apiKey, h.apiVersion))))
  }

  /** A request header; the client id is a nullable string in the legacy encoding, in every version. */
  function PutRequestHeader(h: RequestHeader, clientId: Option<bytes>, tags: Tags): bytes
    requires 0 <= h.apiKey && 0 <= h.apiVersion && 0 <= h.correlationId
  {
    BE(h.apiKey, 2) + BE(h.apiVersion, 2) + BE(h.correlationId, 4) +
    BE(if clientId.Some? then |clientId.value| else 0xffff, 2) + clientId.GetOr([]) +
    PutTagsIf(IsFlexibleRequest(h.apiKey, h.apiVersion), tags)
  }

  /** A request header is read back, a null client id as an empty one. */
  lemma RequestHeaderRoundTrip(h: RequestHeader, clientId: Option<bytes>, tags: Tags, body: bytes)
    requires 0 <= h.apiKey < 0x8000 && 0 <= h.apiVersion < 0x8000 && 0 <= h.correlationId < 0x8000_0000
    requires ShortText(h.clientId) && h.clientId == clientId.GetOr([]) && ValidTags(tags)
    ensures ParseRequestHeader(PutRequestHeader(h, clientId, tags) + body) == Some((h, |PutRequestHeader(h, clientId, tags)|))
  {
    hide PutTagsIf, AfterTags, BE, FromBE, Pow256, ValidTags;
    Pow256Values();
    var p := PutRequestHeader(h, clientId, tags) + body;
    var flex := IsFlexibleRequest(h.apiKey, h.apiVersion);
    var n, length := |h.clientId|, if clientId.Some? then |h.clientId| else 0xffff;
    assert p[0..2] == BE(h.apiKey, 2) && p[2..4] == BE(h.apiVersion, 2);
    assert p[4..8] == BE(h.correlationId, 4) && p[8..10] == BE(length, 2) && p[10..10 + n] == h.clientId;
    BERoundTrip(h.apiKey, 2);
    BERoundTrip(h.apiVersion, 2);
    BERoundTrip(h.correlationId, 4);
    BERoundTrip(length, 2);
    assert p[10 + n..10 + n + |PutTagsIf(flex, tags)|] == PutTagsIf(flex, tags);
    TagsIfRoundTrip(p, 10 + n, flex, tags);
  }

  // ---------- Produce requests ----------

  datatype ProducedRecord = ProducedRecord(topic: bytes, partition: int, key: Option<bytes>, value: Option<bytes>)

  function Produced(batch: Option<bytes>, topic: bytes, partition: int): seq<ProducedRecord> {
    var rs := if batch.Some? then BatchRecords(batch.value) else [];
    seq(|rs|, i requires 0 <= i < |rs| => ProducedRecord(topic, partition, rs[i].key, rs[i].value))
  }

  function ProducePartitions(data: bytes, pos: nat, flex: bool, topic: bytes, count: int): Parsed<ProducedRecord>
    decreases count
  {
    if count <= 0 then Parsed([], Some(pos))
    else
      match Int32At(data, pos)
      case Err => Parsed([], None)
      case Ok(index, p1) =>
        match RawBytesAt(data, p1, flex)
        case Err => Parsed([], None)
        case Ok(batch, p2) =>
          Prepend(Produced(batch, topic, index),
                  ProducePartitions(data, AfterTags(data, p2, flex), flex, topic, count - 1))
  }

  function ProduceTopics(data: bytes, pos: nat, flex: bool, count: int): Parsed<ProducedRecord>
    decreases count
  {
    if count <= 0 then Parsed([], Some(pos))
    else
      match StringAt(data, pos, flex)
      case Err => Parsed([], None)
      case Ok(topic, p1) =>
        match ArrayLenAt(data, p1, flex)
        case Err => Parsed([], None)
        case Ok(partitions, p2) =>
          var here := ProducePartitions(data, p2, flex, topic, partitions);
          if here.end == None then here
          else Prepend(here.records, ProduceTopics(data, AfterTags(data, here.end.value, flex), flex, count - 1))
  }

  function ProduceRequest(data: bytes, pos: nat, version: int): Parsed<ProducedRecord> {
    var flex := version >= PRODUCE_FLEX_VERSION;
    var afterId := if version >= 3 then NullableStringAt(data, pos, flex) else Ok(None, pos);
    match afterId
    case Err => Parsed([], None)
    case Ok(_, p1) =>
      if p1 + 6 > |data| then Parsed([], None)
      else
        match ArrayLenAt(data, p1 + 6, flex)
        case Err => Parsed([], None)
        case Ok(topics, p2) => ProduceTopics(data, p2, flex, topics)
  }

  method ParseProducePartitions(r: Reader, topic: bytes, count: int) returns (records: seq<ProducedRecord>, ok: bool)
    modifies r
    ensures Parsed(records, if ok then Some(r.pos) else None) == ProducePartitions(r.buf, old(r.pos), r.flex, topic, count)
  {
    hide Int32At, RawBytesAt, AfterTags, BatchRecords;
    records := [];
    var j := 0;
    while j < count
      invariant 0 <= j && (j <= count || count < 0)
      invariant Prepend(records, ProducePartitions(r.buf, r.pos, r.flex, topic, count - j))
             == ProducePartitions(r.buf, old(r.pos), r.flex, topic, count)
    {
      ghost var p0 := r.pos;
      var index := r.ReadInt32();
      if index == None {
        return records, false;
      }
      var batch := r.ReadRawBytes();
      if batch == None {
        return records, false;
      }
      var parsed := ParseProducedBatch(batch.value, topic, index.value);
      ghost var p2 := r.pos;
      if r.flex {
        r.SkipTaggedFieldsHere();
      }
      NoTagsUnlessFlexible(r.buf, p2);
      PrependTwice(records, parsed, ProducePartitions(r.buf, r.pos, r.flex, topic, count - j - 1));
      records := records + parsed;
      j := j + 1;
    }
    return records, true;
  }

  lemma NoTagsUnlessFlexible(data: bytes, pos: nat)
    ensures AfterTags(data, pos, false) == pos
  {
  }

  method ParseProducedBatch(batch: Option<bytes>, topic: bytes, partition: int) returns (records: seq<ProducedRecord>)
    ensures records == Produced(batch, topic, partition)
  {
    var rs := [];
    if batch.Some? {
      rs := ParseBatch(batch.value);
    }
    return seq(|rs|, i requires 0 <= i < |rs| => ProducedRecord(topic, partition, rs[i].key, rs[i].value));
  }

  method ParseProduceTopics(r: Reader, count: int) returns (records: seq<ProducedRecord>, ok: bool)
    modifies r
    ensures Parsed(records, if ok then Some(r.pos) else None) == ProduceTopics(r.buf, old(r.pos), r.flex, count)
  {
    hide StringAt, ArrayLenAt, AfterTags, ProducePartitions;
    records := [];
    var i := 0;
    while i < count
      invariant 0 <= i && (i <= count || count < 0)
      invariant Prepend(records, ProduceTopics(r.buf, r.pos, r.flex, count - i))
             == ProduceTopics(r.buf, old(r.pos), r.flex, count)
    {
      var topic := r.ReadString();
      if topic == None {
        return records, false;
      }
      var partitions := r.ReadArrayLen();
      if partitions == None {
        return records, false;
      }
      var parsed, done := ParseProducePartitions(r, topic.value, partitions.value);
      if !done {
        records := records + parsed;
        return records, false;
      }
      ghost var p2 := r.pos;
      if r.flex {
        r.SkipTaggedFieldsHere();
      }
      NoTagsUnlessFlexible(r.buf, p2);
      PrependTwice(records, parsed, ProduceTopics(r.buf, r.pos, r.flex, count - i - 1));
      records := records + parsed;
      i := i + 1;
    }
    return records, true;
  }

  method ParseProduceRequest(payload: bytes, pos: nat, version: int) returns (records: seq<ProducedRecord>, ok: bool)
    ensures records == ProduceRequest(payload, pos, version).records
    ensures ok == ProduceRequest(payload, pos, version).end.Some?
  {
    hide StringAt, ArrayLenAt, NullableStringAt, ProduceTopics;
    var r := new Reader(payload, pos, version >= PRODUCE_FLEX_VERSION);
    if version >= 3 {
      var transactionalId := r.ReadNullableString();
      if transactionalId == None {
        return [], false;
      }
    }
    var skipped := r.Skip(6);
    if !skipped {
      return [], false;
    }
    var topics := r.ReadArrayLen();
    if topics == None {
      return [], false;
    }
    records, ok := ParseProduceTopics(r, topics.value);
  }

  // ---------- the encoding it inverts ----------

  datatype Partition = Partition(index: nat, batch: Option<Batch>, tags: Tags)

  datatype Topic = Topic(name: bytes, partitions: seq<Partition>, tags: Tags)

  datatype Request = Request(transactionalId: Option<bytes>, acksAndTimeout: bytes, topics: seq<Topic>, tags: Tags)

  ghost predicate ValidPartition(p: Partition) {
    p.index < 0x8000_0000 && ValidTags(p.tags) &&
    (p.batch.Some? ==> ValidBatch(p.batch.value) && |PutBatch(p.batch.value)| < 0x8000_0000)
  }

  ghost predicate ValidTopic(t: Topic) {
    ShortText(t.name) && |t.partitions| < 0x8000_0000 && ValidTags(t.tags) &&
    forall i :: 0 <= i < |t.partitions| ==> ValidPartition(t.partitions[i])
  }

  ghost predicate ValidRequest(q: Request) {
    (q.transactionalId.Some? ==> ShortText(q.transactionalId.value)) && |q.acksAndTimeout| == 6 && ValidTags(q.tags) &&
    |q.topics| < 0x8000_0000 && forall i :: 0 <= i < |q.topics| ==> ValidTopic(q.topics[i])
  }

  function BatchBytes(b: Option<Batch>): Option<bytes>
    requires b.Some? ==> ValidBatch(b.value)
  {
    if b.Some? then Some(PutBatch(b.value)) else None
  }

  function PutPartition(flex: bool, p: Partition): bytes
    requires ValidPartition(p)
  {
    BE(p.index, 4) + (PutNullableBytes(flex, BatchBytes(p.batch)) + PutTagsIf(flex, p.tags))
  }

  function PutPartitions(flex: bool, ps: seq<Partition>): bytes
    requires forall i :: 0 <= i < |ps| ==> ValidPartition(ps[i])
  {
    if ps == [] then [] else PutPartition(flex, ps[0]) + PutPartitions(flex, ps[1..])
  }

  function PutTopic(flex: bool, t: Topic): bytes
    requires ValidTopic(t)
  {
    PutString(flex, t.name) +
    (PutArrayLen(flex, |t.partitions|) + (PutPartitions(flex, t.partitions) + PutTagsIf(flex, t.tags)))
  }

  function PutTopics(flex: bool, ts: seq<Topic>): bytes
    requires forall i :: 0 <= i < |ts| ==> ValidTopic(ts[i])
  {
    if ts == [] then [] else PutTopic(flex, ts[0]) + PutTopics(flex, ts[1..])
  }

  /** A Produce request body: the transactional id since version 3; compact, and closed by tagged fields,
      since version 9. */
  function PutRequest(version: int, q: Request): bytes
    requires ValidRequest(q)
  {
    var flex := version >= PRODUCE_FLEX_VERSION;
    (if version >= 3 then PutNullableString(flex, q.transactionalId) else []) +
    (q.acksAndTimeout + (PutArrayLen(flex, |q.topics|) + (PutTopics(flex, q.topics) + PutTagsIf(flex, q.tags))))
  }

  function SentByPartition(topic: bytes, p: Partition): seq<ProducedRecord> {
    if p.batch == None then []
    else
      var rs := p.batch.value.records;
      seq(|rs|, i requires 0 <= i < |rs| => ProducedRecord(topic, p.index, rs[i].key, rs[i].value))
  }

  function SentByPartitions(topic: bytes, ps: seq<Partition>): seq<ProducedRecord> {
    if ps == [] then [] else SentByPartition(topic, ps[0]) + SentByPartitions(topic, ps[1..])
  }

  /** The records of a request, topic by topic, partition by partition, in batch order. */
  function Sent(ts: seq<Topic>): seq<ProducedRecord> {
    if ts == [] then [] else SentByPartitions(ts[0].name, ts[0].partitions) + Sent(ts[1..])
  }

  lemma PartitionIsRead(topic: bytes, p: Partition)
    requires ValidPartition(p)
    ensures Produced(BatchBytes(p.batch), topic, p.index) == SentByPartition(topic, p)
  {
    hide PutBatch, BatchRecords;
    if p.batch.Some? {
      assert PutBatch(p.batch.value) + [] == PutBatch(p.batch.value);
      BatchRoundTrip(p.batch.value, []);
    }
  }

  lemma {:induction false} PartitionsRoundTrip(data: bytes, pos: nat, flex: bool, topic: bytes, ps: seq<Partition>)
    requires forall i :: 0 <= i < |ps| ==> ValidPartition(ps[i])
    requires Has(data, pos, PutPartitions(flex, ps))
    ensures ProducePartitions(data, pos, flex, topic, |ps|)
         == Parsed(SentByPartitions(topic, ps), Some(pos + |PutPartitions(flex, ps)|))
    decreases |ps|
  {
    hide Has, Int32At, RawBytesAt, AfterTags, Produced, SentByPartition, ValidBatch, PutBatch, PutNullableBytes, PutTagsIf, ValidTags;
    if ps != [] {
      var p := ps[0];
      var batch := PutNullableBytes(flex, BatchBytes(p.batch));
      var tags := PutTagsIf(flex, p.tags);
      HasConcat(data, pos, PutPartition(flex, p), PutPartitions(flex, ps[1..]));
      HasConcat(data, pos, BE(p.index, 4), batch + tags);
      HasConcat(data, pos + 4, batch, tags);
      Int32RoundTrip(data, pos, p.index);
      NullableBytesRoundTrip(data, pos + 4, flex, BatchBytes(p.batch));
      TagsIfRoundTrip(data, pos + 4 + |batch|, flex, p.tags);
      PartitionIsRead(topic, p);
      PartitionsRoundTrip(data, pos + |PutPartition(flex, p)|, flex, topic, ps[1..]);
    }
  }

  lemma {:induction false} TopicsRoundTrip(data: bytes, pos: nat, flex: bool, ts: seq<Topic>)
    requires forall i :: 0 <= i < |ts| ==> ValidTopic(ts[i])
    requires Has(data, pos, PutTopics(flex, ts))
    ensures ProduceTopics(data, pos, flex, |ts|) == Parsed(Sent(ts), Some(pos + |PutTopics(flex, ts)|))
    decreases |ts|
  {
    hide Has, StringAt, ArrayLenAt, AfterTags, ProducePartitions, SentByPartitions, PutString, PutArrayLen, PutTagsIf,
      PutPartitions, ValidTags, ValidPartition;
    if ts != [] {
      var t := ts[0];
      var count, parts, tags := PutArrayLen(flex, |t.partitions|), PutPartitions(flex, t.partitions), PutTagsIf(flex, t.tags);
      var p1 := pos + |PutString(flex, t.name)|;
      var p2 := p1 + |count|;
      HasConcat(data, pos, PutTopic(flex, t), PutTopics(flex, ts[1..]));
      HasConcat(data, pos, PutString(flex, t.name), count + (parts + tags));
      HasConcat(data, p1, count, parts + tags);
      HasConcat(data, p2, parts, tags);
      StringRoundTrip(data, pos, flex, t.name);
      ArrayLenRoundTrip(data, p1, flex, |t.partitions|);
      PartitionsRoundTrip(data, p2, flex, t.name, t.partitions);
      TagsIfRoundTrip(data, p2 + |parts|, flex, t.tags);
      TopicsRoundTrip(data, pos + |PutTopic(flex, t)|, flex, ts[1..]);
    }
  }

  /** Parsing an encoded Produce request, version 3 to 12, returns exactly its records, in order,
      under their own topic and partition, without an error, and ends in front of the tagged fields that
      close a flexible request. */
  lemma ProduceRoundTrip(header: bytes, version: int, q: Request)
    requires 3 <= version <= 12 && ValidRequest(q)
    ensures var data := header + PutRequest(version, q);
            var closing := PutTagsIf(version >= PRODUCE_FLEX_VERSION, q.tags);
            ProduceRequest(data, |header|, version) == Parsed(Sent(q.topics), Some(|data| - |closing|))
  {
    hide Has, NullableStringAt, ArrayLenAt, ProduceTopics, PutNullableString, PutArrayLen, PutTopics, PutTags, Sent, ValidTopic,
      ValidTags;
    var flex := version >= PRODUCE_FLEX_VERSION;
    var data := header + PutRequest(version, q);
    var id := PutNullableString(flex, q.transactionalId);
    var count, topics, closing := PutArrayLen(flex, |q.topics|), PutTopics(flex, q.topics), PutTagsIf(flex, q.tags);
    var p1 := |header| + |id|;
    assert data == header + PutRequest(version, q) + [];
    HasWhole(header, PutRequest(version, q), []);
    HasConcat(data, |header|, id, q.acksAndTimeout + (count + (topics + closing)));
    HasConcat(data, p1, q.acksAndTimeout, count + (topics + closing));
    HasConcat(data, p1 + 6, count, topics + closing);
    HasConcat(data, p1 + 6 + |count|, topics, closing);
    HasFits(data, p1, q.acksAndTimeout);
    NullableStringRoundTrip(data, |header|, flex, q.transactionalId);
    ArrayLenRoundTrip(data, p1 + 6, flex, |q.topics|);
    TopicsRoundTrip(data, p1 + 6 + |count|, flex, q.topics);
  }
}
