/** Kafka Fetch responses (services/broker-proxy/kafka/protocol.go, lines 175 to 304). */
module KafkaFetch {
  import opened Bytes
  import opened Options
  import opened KafkaVarint
  import opened KafkaRecords
  import opened KafkaReader
  import opened KafkaProduce

  datatype FetchedRecord = FetchedRecord(
    topic: bytes, partition: int, offset: int, key: Option<bytes>, value: Option<bytes>)

  /** How a parse ended: at a position, cut short (the records so far are kept, no error is
      reported), or with an error. */
  datatype End = At(pos: nat) | Truncated | Failed

  datatype Fetched = Fetched(records: seq<FetchedRecord>, end: End)

  function Before(records: seq<FetchedRecord>, f: Fetched): Fetched {
    Fetched(records + f.records, f.end)
  }

  lemma BeforeTwice(a: seq<FetchedRecord>, b: seq<FetchedRecord>, f: Fetched)
    ensures Before(a, Before(b, f)) == Before(a + b, f)
  {
  }

  function FromBatch(batch: Option<bytes>, topic: bytes, partition: int): seq<FetchedRecord> {
    if batch == None || !Readable(batch.value) then []
    else
      var rs, base := BatchRecords(batch.value), BaseOffset(batch.value);
      seq(|rs|, i requires 0 <= i < |rs| =>
        FetchedRecord(topic, partition, ToInt64(base + rs[i].offsetDelta), rs[i].key, rs[i].value))
  }

  function AfterAborted(data: bytes, pos: nat, flex: bool, count: int): (r: Option<nat>)
    decreases count
  {
    if count <= 0 then Some(pos)
    else if pos + 16 > |data| then None
    else AfterAborted(data, AfterTags(data, pos + 16, flex), flex, count - 1)
  }

  /** Error code, high watermark, then last stable offset (v4) and log start offset (v5). */
  function FixedHead(version: int): nat {
    10 + (if version >= 4 then 8 else 0) + (if version >= 5 then 8 else 0)
  }

  /** Everything between a partition's index and its records. */
  function PartitionHeadEnd(data: bytes, pos: nat, version: int, flex: bool): Option<nat> {
    var p1 := pos + FixedHead(version);
    if p1 > |data| then None
    else
      var afterAborted :=
        if version < 4 then Some(p1)
        else
          match ArrayLenAt(data, p1, flex)
          case Err => None
          case Ok(n, p2) => AfterAborted(data, p2, flex, n);
      match afterAborted
      case None => None
      case Some(p3) =>
        if version < 11 then Some(p3) else if p3 + 4 > |data| then None else Some(p3 + 4)
  }

  function FetchPartitions(data: bytes, pos: nat, version: int, flex: bool, topic: bytes, count: int): Fetched
    decreases count
  {
    if count <= 0 then Fetched([], At(pos))
    else
      match Int32At(data, pos)
      case Err => Fetched([], Failed)
      case Ok(index, p1) =>
        match PartitionHeadEnd(data, p1, version, flex)
        case None => Fetched([], Truncated)
        case Some(p2) =>
          match NullableRawBytesAt(data, p2, flex)
          case Err => Fetched([], Truncated)
          case Ok(batch, p3) =>
            Before(FromBatch(batch, topic, index),
                   FetchPartitions(data, AfterTags(data, p3, flex), version, flex, topic, count - 1))
  }

  function FetchTopics(data: bytes, pos: nat, version: int, flex: bool, count: int): Fetched
    decreases count
  {
    if count <= 0 then Fetched([], At(pos))
    else
      match StringAt(data, pos, flex)
      case Err => Fetched([], Failed)
      case Ok(topic, p1) =>
        match ArrayLenAt(data, p1, flex)
        case Err => Fetched([], Failed)
        case Ok(partitions, p2) =>
          var here := FetchPartitions(data, p2, version, flex, topic, partitions);
          if !here.end.At? then here
          else Before(here.records, FetchTopics(data, AfterTags(data, here.end.pos, flex), version, flex, count - 1))
  }

  /** Throttle time, then error code and session id (v7). */
  function ResponseHead(version: int): nat {
    4 + (if version >= 7 then 6 else 0)
  }

  function FetchResponse(data: bytes, version: int): Fetched {
    var flex := version >= FETCH_FLEX_VERSION;
    var start := if flex then TaggedFieldsEnd(data, 4) else Some(4);
    if start == None then Fetched([], Failed)
    else
      var p1 := start.value + ResponseHead(version);
      if p1 > |data| then Fetched([], Failed)
      else
        match ArrayLenAt(data, p1, flex)
        case Err => Fetched([], Failed)
        case Ok(topics, p2) => FetchTopics(data, p2, version, flex, topics)
  }

  // ---------- the parser ----------

  method SkipAborted(r: Reader, count: int) returns (ok: bool)
    modifies r
    ensures match AfterAborted(r.buf, old(r.pos), r.flex, count)
            case None => !ok
            case Some(p) => ok && r.pos == p
  {
    hide AfterTags;
    var k := 0;
    while k < count
      invariant 0 <= k && (k <= count || count < 0)
      invariant AfterAborted(r.buf, r.pos, r.flex, count - k) == AfterAborted(r.buf, old(r.pos), r.flex, count)
    {
      var skipped := r.Skip(16);
      if !skipped {
        return false;
      }
      ghost var p := r.pos;
      if r.flex {
        r.SkipTaggedFieldsHere();
      }
      NoTagsUnlessFlexible(r.buf, p);
      k := k + 1;
    }
    return true;
  }

  method SkipPartitionHead(r: Reader, version: int) returns (ok: bool)
    modifies r
    ensures match PartitionHeadEnd(r.buf, old(r.pos), version, r.flex)
            case None => !ok
            case Some(p) => ok && r.pos == p
  {
    hide ArrayLenAt, AfterAborted;
    ok := r.Skip(2);
    if !ok {
      return;
    }
    ok := r.Skip(8);
    if !ok {
      return;
    }
    if version >= 4 {
      ok := r.Skip(8);
      if !ok {
        return;
      }
    }
    if version >= 5 {
      ok := r.Skip(8);
      if !ok {
        return;
      }
    }
    if version >= 4 {
      var aborted := r.ReadArrayLen();
      if aborted == None {
        return false;
      }
      ok := SkipAborted(r, aborted.value);
      if !ok {
        return;
      }
    }
    if version >= 11 {
      ok := r.Skip(4);
    }
  }

  method ParseFetchedBatch(batch: Option<bytes>, topic: bytes, partition: int) returns (records: seq<FetchedRecord>)
    ensures records == FromBatch(batch, topic, partition)
  {
    if batch == None || !Readable(batch.value) {
      return [];
    }
    var rs := ParseBatch(batch.value);
    var base := BaseOffset(batch.value);
    return seq(|rs|, i requires 0 <= i < |rs| =>
      FetchedRecord(topic, partition, ToInt64(base + rs[i].offsetDelta), rs[i].key, rs[i].value));
  }

  method ParseFetchPartitions(r: Reader, version: int, topic: bytes, count: int)
    returns (records: seq<FetchedRecord>, end: End)
    modifies r
    ensures Fetched(records, end) == FetchPartitions(r.buf, old(r.pos), version, r.flex, topic, count)
    ensures end.At? ==> end.pos == r.pos
  {
    hide Int32At, PartitionHeadEnd, NullableRawBytesAt, AfterTags, FromBatch;
    records := [];
    var j := 0;
    while j < count
      invariant 0 <= j && (j <= count || count < 0)
      invariant Before(records, FetchPartitions(r.buf, r.pos, version, r.flex, topic, count - j))
             == FetchPartitions(r.buf, old(r.pos), version, r.flex, topic, count)
    {
      var index := r.ReadInt32();
      if index == None {
        return records, Failed;
      }
      var headOk := SkipPartitionHead(r, version);
      if !headOk {
        return records, Truncated;
      }
      var batch := r.ReadNullableRawBytes();
      if batch == None {
        return records, Truncated;
      }
      var parsed := ParseFetchedBatch(batch.value, topic, index.value);
      ghost var p3 := r.pos;
      if r.flex {
        r.SkipTaggedFieldsHere();
      }
      NoTagsUnlessFlexible(r.buf, p3);
      BeforeTwice(records, parsed, FetchPartitions(r.buf, r.pos, version, r.flex, topic, count - j - 1));
      records := records + parsed;
      j := j + 1;
    }
    return records, At(r.pos);
  }

  method ParseFetchTopics(r: Reader, version: int, count: int) returns (records: seq<FetchedRecord>, end: End)
    modifies r
    ensures Fetched(records, end) == FetchTopics(r.buf, old(r.pos), version, r.flex, count)
  {
    hide StringAt, ArrayLenAt, AfterTags, FetchPartitions;
    records := [];
    var i := 0;
    while i < count
      invariant 0 <= i && (i <= count || count < 0)
      invariant Before(records, FetchTopics(r.buf, r.pos, version, r.flex, count - i))
             == FetchTopics(r.buf, old(r.pos), version, r.flex, count)
    {
      var topic := r.ReadString();
      if topic == None {
        return records, Failed;
      }
      var partitions := r.ReadArrayLen();
      if partitions == None {
        return records, Failed;
      }
      var parsed, stop := ParseFetchPartitions(r, version, topic.value, partitions.value);
      if !stop.At? {
        records := records + parsed;
        return records, stop;
      }
      ghost var p2 := r.pos;
      if r.flex {
        r.SkipTaggedFieldsHere();
      }
      NoTagsUnlessFlexible(r.buf, p2);
      BeforeTwice(records, parsed, FetchTopics(r.buf, r.pos, version, r.flex, count - i - 1));
      records := records + parsed;
      i := i + 1;
    }
    return records, At(r.pos);
  }

  method ParseFetchResponse(payload: bytes, version: int) returns (records: seq<FetchedRecord>, end: End)
    ensures Fetched(records, end) == FetchResponse(payload, version)
  {
    hide TaggedFieldsEnd, ArrayLenAt, FetchTopics;
    var flex := version >= FETCH_FLEX_VERSION;
    var pos := 4;
    if flex {
      var n := SkipTaggedFields(payload, pos);
      if n == None {
        return [], Failed;
      }
      pos := n.value;
    }
    var r := new Reader(payload, pos, flex);
    var ok := r.Skip(4);
    if !ok {
      return [], Failed;
    }
    if version >= 7 {
      ok := r.Skip(2);
      if !ok {
        return [], Failed;
      }
    }
    if version >= 7 {
      ok := r.Skip(4);
      if !ok {
        return [], Failed;
      }
    }
    var topics := r.ReadArrayLen();
    if topics == None {
      return [], Failed;
    }
    records, end := ParseFetchTopics(r, version, topics.value);
  }

  // ---------- the encoding it inverts ----------

  /** An aborted transaction: producer id and first offset, 16 bytes, and tagged fields. */
  datatype Aborted = Aborted(ids: bytes, tags: Tags)

  /** `head` is everything fixed in front of the aborted transactions. */
  datatype FetchPartition = FetchPartition(
    index: nat, head: bytes, aborted: Option<seq<Aborted>>, replica: bytes, batch: Option<Batch>, tags: Tags)

  datatype FetchTopic = FetchTopic(name: bytes, partitions: seq<FetchPartition>, tags: Tags)

  datatype Response = Response(
    correlationId: bytes, headerTags: Tags, head: bytes, topics: seq<FetchTopic>, tags: Tags)

  ghost predicate ValidAborted(a: seq<Aborted>) {
    |a| < 0x8000_0000 && forall i :: 0 <= i < |a| ==> |a[i].ids| == 16 && ValidTags(a[i].tags)
  }

  ghost predicate ValidFetchPartition(version: int, p: FetchPartition) {
    p.index < 0x8000_0000 && |p.head| == FixedHead(version) && |p.replica| == 4 && ValidTags(p.tags) &&
    (p.aborted.Some? ==> ValidAborted(p.aborted.value)) &&
    (p.batch.Some? ==> ValidBatch(p.batch.value) && |PutBatch(p.batch.value)| < 0x8000_0000)
  }

  ghost predicate ValidFetchTopic(version: int, t: FetchTopic) {
    ShortText(t.name) && |t.partitions| < 0x8000_0000 && ValidTags(t.tags) &&
    forall i :: 0 <= i < |t.partitions| ==> ValidFetchPartition(version, t.partitions[i])
  }

  ghost predicate ValidResponse(version: int, q: Response) {
    |q.correlationId| == 4 && ValidTags(q.headerTags) && |q.head| == ResponseHead(version) && ValidTags(q.tags) &&
    |q.topics| < 0x8000_0000 && forall i :: 0 <= i < |q.topics| ==> ValidFetchTopic(version, q.topics[i])
  }

  function PutAbortedList(flex: bool, a: seq<Aborted>): bytes {
    if a == [] then [] else (a[0].ids + PutTagsIf(flex, a[0].tags)) + PutAbortedList(flex, a[1..])
  }

  function PutAborted(flex: bool, a: Option<seq<Aborted>>): bytes {
    match a
    case None => PutNullableBytes(flex, None)
    case Some(list) => PutArrayLen(flex, |list|) + PutAbortedList(flex, list)
  }

  function PutPartitionHead(version: int, flex: bool, p: FetchPartition): bytes {
    p.head + ((if version >= 4 then PutAborted(flex, p.aborted) else []) + (if version >= 11 then p.replica else []))
  }

  function PutFetchPartition(version: int, flex: bool, p: FetchPartition): bytes
    requires ValidFetchPartition(version, p)
  {
    BE(p.index, 4) +
    (PutPartitionHead(version, flex, p) + (PutNullableBytes(flex, BatchBytes(p.batch)) + PutTagsIf(flex, p.tags)))
  }

  function PutFetchPartitions(version: int, flex: bool, ps: seq<FetchPartition>): bytes
    requires forall i :: 0 <= i < |ps| ==> ValidFetchPartition(version, ps[i])
  {
    if ps == [] then [] else PutFetchPartition(version, flex, ps[0]) + PutFetchPartitions(version, flex, ps[1..])
  }

  function PutFetchTopic(version: int, flex: bool, t: FetchTopic): bytes
    requires ValidFetchTopic(version, t)
  {
    PutString(flex, t.name) + (PutArrayLen(flex, |t.partitions|) +
    (PutFetchPartitions(version, flex, t.partitions) + PutTagsIf(flex, t.tags)))
  }

  function PutFetchTopics(version: int, flex: bool, ts: seq<FetchTopic>): bytes
    requires forall i :: 0 <= i < |ts| ==> ValidFetchTopic(version, ts[i])
  {
    if ts == [] then [] else PutFetchTopic(version, flex, ts[0]) + PutFetchTopics(version, flex, ts[1..])
  }

  /** A Fetch response: compact, and with tagged fields after its header and at its end, since version 12. */
  function PutResponse(version: int, q: Response): bytes
    requires ValidResponse(version, q)
  {
    var flex := version >= FETCH_FLEX_VERSION;
    q.correlationId + (PutTagsIf(flex, q.headerTags) +
    (q.head + (PutArrayLen(flex, |q.topics|) + (PutFetchTopics(version, flex, q.topics) + PutTagsIf(flex, q.tags)))))
  }

  function HeldByPartition(topic: bytes, p: FetchPartition): seq<FetchedRecord> {
    if p.batch == None then []
    else
      var rs := p.batch.value.records;
      seq(|rs|, i requires 0 <= i < |rs| =>
        FetchedRecord(topic, p.index, ToInt64(p.batch.value.baseOffset + rs[i].offsetDelta), rs[i].key, rs[i].value))
  }

  function HeldByPartitions(topic: bytes, ps: seq<FetchPartition>): seq<FetchedRecord> {
    if ps == [] then [] else HeldByPartition(topic, ps[0]) + HeldByPartitions(topic, ps[1..])
  }

  /** The records of a response in order, each at its batch's base offset plus its own delta. */
  function Held(ts: seq<FetchTopic>): seq<FetchedRecord> {
    if ts == [] then [] else HeldByPartitions(ts[0].name, ts[0].partitions) + Held(ts[1..])
  }

  lemma {:induction false} AbortedListLands(data: bytes, pos: nat, flex: bool, a: seq<Aborted>)
    requires ValidAborted(a) && Has(data, pos, PutAbortedList(flex, a))
    ensures AfterAborted(data, pos, flex, |a|) == Some(pos + |PutAbortedList(flex, a)|)
    decreases |a|
  {
    hide Has, AfterTags, PutTagsIf, ValidTags;
    if a != [] {
      var ids, tags := a[0].ids, PutTagsIf(flex, a[0].tags);
      HasConcat(data, pos, ids + tags, PutAbortedList(flex, a[1..]));
      HasConcat(data, pos, ids, tags);
      HasFits(data, pos, ids);
      TagsIfRoundTrip(data, pos + 16, flex, a[0].tags);
      AbortedListLands(data, pos + |ids + tags|, flex, a[1..]);
    }
  }

  lemma AbortedLands(data: bytes, pos: nat, flex: bool, a: Option<seq<Aborted>>)
    requires (a.Some? ==> ValidAborted(a.value)) && Has(data, pos, PutAborted(flex, a))
    ensures match ArrayLenAt(data, pos, flex)
            case Err => false
            case Ok(n, p) => AfterAborted(data, p, flex, n) == Some(pos + |PutAborted(flex, a)|)
  {
    hide Has, PutArrayLen, PutAbortedList, PutNullableBytes;
    match a
    case None =>
      NullableBytesRoundTrip(data, pos, flex, None);
      NullLengthIsNegative(data, pos, flex);
    case Some(list) =>
      HasConcat(data, pos, PutArrayLen(flex, |list|), PutAbortedList(flex, list));
      ArrayLenRoundTrip(data, pos, flex, |list|);
      AbortedListLands(data, pos + |PutArrayLen(flex, |list|)|, flex, list);
  }

  lemma NullLengthIsNegative(data: bytes, pos: nat, flex: bool)
    requires RawBytesAt(data, pos, flex) == Ok(None, pos + |PutNullableBytes(flex, None)|)
    ensures match ArrayLenAt(data, pos, flex)
            case Err => false
            case Ok(n, p) => n < 0 && p == pos + |PutNullableBytes(flex, None)|
  {
    hide ArrayLenAt, PutNullableBytes;
  }

  lemma PartitionHeadLands(data: bytes, pos: nat, version: int, flex: bool, p: FetchPartition)
    requires ValidFetchPartition(version, p) && Has(data, pos, PutPartitionHead(version, flex, p))
    ensures PartitionHeadEnd(data, pos, version, flex) == Some(pos + |PutPartitionHead(version, flex, p)|)
  {
    hide Has, ArrayLenAt, AfterAborted, PutAborted, ValidTags, ValidBatch, PutBatch, ValidAborted;
    var aborted := if version >= 4 then PutAborted(flex, p.aborted) else [];
    var replica := if version >= 11 then p.replica else [];
    HasConcat(data, pos, p.head, aborted + replica);
    HasFits(data, pos, p.head);
    HasConcat(data, pos + |p.head|, aborted, replica);
    HasFits(data, pos + |p.head| + |aborted|, replica);
    if version >= 4 {
      AbortedLands(data, pos + |p.head|, flex, p.aborted);
    }
  }

  lemma FetchedBatchIsRead(version: int, topic: bytes, p: FetchPartition)
    requires ValidFetchPartition(version, p)
    ensures FromBatch(BatchBytes(p.batch), topic, p.index) == HeldByPartition(topic, p)
  {
    hide PutBatch, BatchRecords, Readable, BaseOffset;
    if p.batch.Some? {
      assert PutBatch(p.batch.value) + [] == PutBatch(p.batch.value);
      BatchRoundTrip(p.batch.value, []);
    }
  }

  /** Where the parts of a partition are, and what reading them gives. */
  lemma FetchPartitionIsRead(data: bytes, pos: nat, version: int, flex: bool, p: FetchPartition)
    requires ValidFetchPartition(version, p) && Has(data, pos, PutFetchPartition(version, flex, p))
    ensures var p2 := pos + 4 + |PutPartitionHead(version, flex, p)|;
            var p3 := p2 + |PutNullableBytes(flex, BatchBytes(p.batch))|;
            && Int32At(data, pos) == Ok(p.index, pos + 4)
            && PartitionHeadEnd(data, pos + 4, version, flex) == Some(p2)
            && NullableRawBytesAt(data, p2, flex) == Ok(BatchBytes(p.batch), p3)
            && AfterTags(data, p3, flex) == pos + |PutFetchPartition(version, flex, p)|
  {
    hide Has, Int32At, NullableRawBytesAt, AfterTags, PartitionHeadEnd, ValidBatch, PutBatch, PutNullableBytes, PutTagsIf,
      ValidTags, PutPartitionHead, ValidAborted;
    var head := PutPartitionHead(version, flex, p);
    var batch, tags := PutNullableBytes(flex, BatchBytes(p.batch)), PutTagsIf(flex, p.tags);
    var p2 := pos + 4 + |head|;
    HasConcat(data, pos, BE(p.index, 4), head + (batch + tags));
    HasConcat(data, pos + 4, head, batch + tags);
    HasConcat(data, p2, batch, tags);
    Int32RoundTrip(data, pos, p.index);
    PartitionHeadLands(data, pos + 4, version, flex, p);
    NullableBytesRoundTrip(data, p2, flex, BatchBytes(p.batch));
    TagsIfRoundTrip(data, p2 + |batch|, flex, p.tags);
  }

  lemma {:induction false} FetchPartitionsRoundTrip(
    data: bytes, pos: nat, version: int, flex: bool, topic: bytes, ps: seq<FetchPartition>)
    requires forall i :: 0 <= i < |ps| ==> ValidFetchPartition(version, ps[i])
    requires Has(data, pos, PutFetchPartitions(version, flex, ps))
    ensures FetchPartitions(data, pos, version, flex, topic, |ps|)
         == Fetched(HeldByPartitions(topic, ps), At(pos + |PutFetchPartitions(version, flex, ps)|))
    decreases |ps|
  {
    hide Has, Int32At, NullableRawBytesAt, AfterTags, PartitionHeadEnd, FromBatch, HeldByPartition, ValidFetchPartition,
      PutFetchPartition;
    if ps != [] {
      var p := ps[0];
      var here := PutFetchPartition(version, flex, p);
      HasConcat(data, pos, here, PutFetchPartitions(version, flex, ps[1..]));
      FetchPartitionIsRead(data, pos, version, flex, p);
      FetchedBatchIsRead(version, topic, p);
      FetchPartitionsRoundTrip(data, pos + |here|, version, flex, topic, ps[1..]);
    }
  }

  lemma {:induction false} FetchTopicsRoundTrip(data: bytes, pos: nat, version: int, flex: bool, ts: seq<FetchTopic>)
    requires forall i :: 0 <= i < |ts| ==> ValidFetchTopic(version, ts[i])
    requires Has(data, pos, PutFetchTopics(version, flex, ts))
    ensures FetchTopics(data, pos, version, flex, |ts|)
         == Fetched(Held(ts), At(pos + |PutFetchTopics(version, flex, ts)|))
    decreases |ts|
  {
    hide Has, StringAt, ArrayLenAt, AfterTags, FetchPartitions, HeldByPartitions, PutString, PutArrayLen, PutTagsIf,
      PutFetchPartitions, ValidTags, ValidFetchPartition;
    if ts != [] {
      var t := ts[0];
      var count, tags := PutArrayLen(flex, |t.partitions|), PutTagsIf(flex, t.tags);
      var parts := PutFetchPartitions(version, flex, t.partitions);
      var p1 := pos + |PutString(flex, t.name)|;
      var p2 := p1 + |count|;
      HasConcat(data, pos, PutFetchTopic(version, flex, t), PutFetchTopics(version, flex, ts[1..]));
      HasConcat(data, pos, PutString(flex, t.name), count + (parts + tags));
      HasConcat(data, p1, count, parts + tags);
      HasConcat(data, p2, parts, tags);
      StringRoundTrip(data, pos, flex, t.name);
      ArrayLenRoundTrip(data, p1, flex, |t.partitions|);
      FetchPartitionsRoundTrip(data, p2, version, flex, t.name, t.partitions);
      TagsIfRoundTrip(data, p2 + |parts|, flex, t.tags);
      FetchTopicsRoundTrip(data, pos + |PutFetchTopic(version, flex, t)|, version, flex, ts[1..]);
    }
  }

  /** Where the parts of a response are, and what reading those in front of its topics gives. */
  lemma FetchStartIsRead(version: int, q: Response)
    requires 4 <= version <= 12 && ValidResponse(version, q)
    ensures var flex := version >= FETCH_FLEX_VERSION;
            var data := PutResponse(version, q);
            var p1 := 4 + |PutTagsIf(flex, q.headerTags)|;
            var p3 := p1 + |q.head| + |PutArrayLen(flex, |q.topics|)|;
            && (flex ==> TaggedFieldsEnd(data, 4) == Some(p1)) && p1 + |q.head| <= |data|
            && ArrayLenAt(data, p1 + |q.head|, flex) == Ok(|q.topics|, p3)
            && Has(data, p3, PutFetchTopics(version, flex, q.topics))
            && p3 + |PutFetchTopics(version, flex, q.topics)| == |data| - |PutTagsIf(flex, q.tags)|
  {
    hide Has, TaggedFieldsEnd, ArrayLenAt, PutTags, PutArrayLen, PutFetchTopics, ValidFetchTopic, ValidTags;
    var flex := version >= FETCH_FLEX_VERSION;
    var data := PutResponse(version, q);
    var tags, closing := PutTagsIf(flex, q.headerTags), PutTagsIf(flex, q.tags);
    var count, topics := PutArrayLen(flex, |q.topics|), PutFetchTopics(version, flex, q.topics);
    var p1 := 4 + |tags|;
    var p2 := p1 + |q.head|;
    assert data == [] + data + [];
    HasWhole([], data, []);
    HasConcat(data, 0, q.correlationId, tags + (q.head + (count + (topics + closing))));
    HasConcat(data, 4, tags, q.head + (count + (topics + closing)));
    HasConcat(data, p1, q.head, count + (topics + closing));
    HasConcat(data, p2, count, topics + closing);
    HasConcat(data, p2 + |count|, topics, closing);
    HasFits(data, p1, q.head);
    if flex {
      TaggedFieldsRoundTrip(data, 4, q.headerTags);
    }
    ArrayLenRoundTrip(data, p2, flex, |q.topics|);
  }

  /** Parsing an encoded Fetch response, version 4 to 12, returns exactly its records, in order, at
      their own offsets, without an error, and ends in front of the tagged fields that close a flexible
      response. */
  lemma FetchRoundTrip(version: int, q: Response)
    requires 4 <= version <= 12 && ValidResponse(version, q)
    ensures var data := PutResponse(version, q);
            var closing := PutTagsIf(version >= FETCH_FLEX_VERSION, q.tags);
            FetchResponse(data, version) == Fetched(Held(q.topics), At(|data| - |closing|))
  {
    hide Has, TaggedFieldsEnd, ArrayLenAt, FetchTopics, PutTags, PutArrayLen, PutFetchTopics, PutResponse, Held,
      ValidFetchTopic, ValidTags;
    var flex := version >= FETCH_FLEX_VERSION;
    var p3 := 4 + |PutTagsIf(flex, q.headerTags)| + |q.head| + |PutArrayLen(flex, |q.topics|)|;
    FetchStartIsRead(version, q);
    FetchTopicsRoundTrip(PutResponse(version, q), p3, version, flex, q.topics);
  }
}
