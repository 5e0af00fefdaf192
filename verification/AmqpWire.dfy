/** AMQP 0-9-1 frames and the method arguments and content headers the observer reads
    (services/broker-proxy/amqp/protocol.go). */
module AmqpWire {
  import opened Bytes
  import opened Options

  const FRAME_METHOD: byte := 1
  const FRAME_HEADER: byte := 2
  const FRAME_BODY: byte := 3
  const FRAME_END: byte := 0xCE

  const CLASS_BASIC := 60
  const METHOD_PUBLISH := 40
  const METHOD_DELIVER := 60

  const MAX_FRAME_SIZE := 100 * 1024 * 1024

  datatype Frame = Frame(kind: byte, channel: nat, payload: bytes)

  ghost predicate ValidFrame(f: Frame) {
    f.channel < 0x1_0000 && |f.payload| <= MAX_FRAME_SIZE
  }

  /** Section 4.2.3 of the AMQP 0-9-1 specification: type, channel, size, payload, frame-end. */
  function FrameBytes(f: Frame): bytes {
    [f.kind] + BE(f.channel, 2) + BE(|f.payload|, 4) + f.payload + [FRAME_END]
  }

  /** One frame off the front of a stream, and what follows it. */
  function ReadFrame(stream: bytes): Option<(Frame, bytes)> {
    if |stream| < 7 then None
    else
      var size := FromBE(stream[3..7]);
      if size > MAX_FRAME_SIZE || |stream| < 7 + size + 1 || stream[7 + size] != FRAME_END then None
      else Some((Frame(stream[0], FromBE(stream[1..3]), stream[7..7 + size]), stream[8 + size..]))
  }

  lemma FrameRoundTrip(f: Frame, rest: bytes)
    requires ValidFrame(f)
    ensures ReadFrame(FrameBytes(f) + rest) == Some((f, rest))
  {
    Pow256Values();
    BERoundTrip(f.channel, 2);
    BERoundTrip(|f.payload|, 4);
    var s := FrameBytes(f) + rest;
    assert s[1..3] == BE(f.channel, 2);
    assert s[3..7] == BE(|f.payload|, 4);
    assert s[7..7 + |f.payload|] == f.payload;
    assert s[8 + |f.payload|..] == rest;
  }

  function ReadAllFrames(stream: bytes): seq<Frame>
    decreases |stream|
  {
    match ReadFrame(stream)
    case None => []
    case Some((f, rest)) => [f] + ReadAllFrames(rest)
  }

  function AllFrameBytes(frames: seq<Frame>): bytes {
    if frames == [] then [] else FrameBytes(frames[0]) + AllFrameBytes(frames[1..])
  }

  /** A stream of encoded frames is cut back into exactly those frames. */
  lemma {:induction false} StreamRoundTrip(frames: seq<Frame>)
    requires forall i :: 0 <= i < |frames| ==> ValidFrame(frames[i])
    ensures ReadAllFrames(AllFrameBytes(frames)) == frames
  {
    hide ReadFrame, FrameBytes;
    if frames == [] {
      NoFrameInEmptyStream();
    } else {
      FrameRoundTrip(frames[0], AllFrameBytes(frames[1..]));
      StreamRoundTrip(frames[1..]);
    }
  }

  lemma NoFrameInEmptyStream()
    ensures ReadFrame([]) == None
  {
  }

  // ---------- payloads ----------

  function ReadShortStr(data: bytes, pos: nat): (r: Option<(bytes, nat)>)
    ensures r.Some? ==> pos < r.value.1 <= |data|
  {
    if pos >= |data| then None
    else if pos + 1 + data[pos] > |data| then None
    else Some((data[pos + 1..pos + 1 + data[pos]], pos + 1 + data[pos]))
  }

  function ShortStr(s: bytes): bytes
    requires |s| < 256
  {
    [|s|] + s
  }

  lemma ShortStrRoundTrip(data: bytes, pos: nat, s: bytes)
    requires |s| < 256 && Has(data, pos, ShortStr(s))
    ensures ReadShortStr(data, pos) == Some((s, pos + 1 + |s|))
  {
    assert data[pos] == data[pos..pos + 1 + |s|][0];
    assert data[pos + 1..pos + 1 + |s|] == data[pos..pos + 1 + |s|][1..];
  }

  /** Class, method and arguments; None when shorter than four bytes. */
  function ParseMethod(payload: bytes): Option<(nat, nat, bytes)> {
    if |payload| < 4 then None
    else Some((FromBE(payload[0..2]), FromBE(payload[2..4]), payload[4..]))
  }

  /** Exchange and routing key. */
  function ParsePublish(args: bytes): Option<(bytes, bytes)> {
    if |args| < 2 then None
    else ExchangeAndKey(args, 2)
  }

  function ExchangeAndKey(args: bytes, pos: nat): Option<(bytes, bytes)> {
    match ReadShortStr(args, pos)
    case None => None
    case Some((exchange, next)) =>
      match ReadShortStr(args, next)
      case None => None
      case Some((key, _)) => Some((exchange, key))
  }

  function ParseDeliver(args: bytes): Option<(bytes, bytes)> {
    match ReadShortStr(args, 0)
    case None => None
    case Some((_, pos)) =>
      if pos + 8 > |args| || pos + 8 >= |args| then None else ExchangeAndKey(args, pos + 9)
  }

  /** Body size and content type of a content header; None when shorter than 14 bytes. */
  function ParseContentHeader(payload: bytes): Option<(nat, bytes)> {
    if |payload| < 14 then None
    else
      var flags := FromBE(payload[12..14]);
      var contentType :=
        if flags / 0x8000 % 2 == 1 && |payload| > 14 && ReadShortStr(payload, 14).Some? then
          ReadShortStr(payload, 14).value.0
        else [];
      Some((FromBE(payload[4..12]), contentType))
  }

  // ---------- the encodings they invert ----------

  function MethodPayload(class_: nat, method_: nat, args: bytes): bytes {
    BE(class_, 2) + BE(method_, 2) + args
  }

  lemma MethodRoundTrip(class_: nat, method_: nat, args: bytes)
    requires class_ < 0x1_0000 && method_ < 0x1_0000
    ensures ParseMethod(MethodPayload(class_, method_, args)) == Some((class_, method_, args))
  {
    Pow256Values();
    BERoundTrip(class_, 2);
    BERoundTrip(method_, 2);
    var p := MethodPayload(class_, method_, args);
    assert p[0..2] == BE(class_, 2) && p[2..4] == BE(method_, 2) && p[4..] == args;
  }

  lemma ExchangeAndKeyRoundTrip(before: bytes, exchange: bytes, key: bytes, rest: bytes)
    requires |exchange| < 256 && |key| < 256
    ensures ExchangeAndKey(before + ShortStr(exchange) + ShortStr(key) + rest, |before|) == Some((exchange, key))
  {
    var data := before + ShortStr(exchange) + ShortStr(key) + rest;
    assert Has(data, |before|, ShortStr(exchange));
    assert Has(data, |before| + 1 + |exchange|, ShortStr(key));
    ShortStrRoundTrip(data, |before|, exchange);
    ShortStrRoundTrip(data, |before| + 1 + |exchange|, key);
  }

  function PublishArgs(reserved: bytes, exchange: bytes, key: bytes, bits: bytes): bytes
    requires |reserved| == 2 && |exchange| < 256 && |key| < 256
  {
    reserved + ShortStr(exchange) + ShortStr(key) + bits
  }

  function DeliverArgs(tag: bytes, deliveryTag: bytes, redelivered: byte, exchange: bytes, key: bytes): bytes
    requires |tag| < 256 && |deliveryTag| == 8 && |exchange| < 256 && |key| < 256
  {
    ShortStr(tag) + deliveryTag + [redelivered] + ShortStr(exchange) + ShortStr(key)
  }

  lemma PublishRoundTrip(reserved: bytes, exchange: bytes, key: bytes, bits: bytes)
    requires |reserved| == 2 && |exchange| < 256 && |key| < 256
    ensures ParsePublish(PublishArgs(reserved, exchange, key, bits)) == Some((exchange, key))
  {
    ExchangeAndKeyRoundTrip(reserved, exchange, key, bits);
  }

  lemma DeliverRoundTrip(tag: bytes, deliveryTag: bytes, redelivered: byte, exchange: bytes, key: bytes)
    requires |tag| < 256 && |deliveryTag| == 8 && |exchange| < 256 && |key| < 256
    ensures ParseDeliver(DeliverArgs(tag, deliveryTag, redelivered, exchange, key)) == Some((exchange, key))
  {
    var before := ShortStr(tag) + deliveryTag + [redelivered];
    var args := DeliverArgs(tag, deliveryTag, redelivered, exchange, key);
    assert args == before + ShortStr(exchange) + ShortStr(key) + [];
    assert Has(args, 0, ShortStr(tag));
    ShortStrRoundTrip(args, 0, tag);
    ExchangeAndKeyRoundTrip(before, exchange, key, []);
  }

  /** A content header whose flag word announces a content type, or does not. */
  function HeaderPayload(classAndWeight: bytes, bodySize: nat, otherFlags: nat, contentType: Option<bytes>, rest: bytes): bytes
    requires |classAndWeight| == 4 && otherFlags < 0x8000 && (contentType.Some? ==> |contentType.value| < 256)
  {
    classAndWeight + BE(bodySize, 8) + BE(otherFlags + (if contentType.Some? then 0x8000 else 0), 2) +
    (if contentType.Some? then ShortStr(contentType.value) else []) + rest
  }

  lemma HeaderRoundTrip(classAndWeight: bytes, bodySize: nat, otherFlags: nat, contentType: Option<bytes>, rest: bytes)
    requires |classAndWeight| == 4 && otherFlags < 0x8000 && (contentType.Some? ==> |contentType.value| < 256)
    requires bodySize < 0x1_0000_0000_0000_0000
    ensures ParseContentHeader(HeaderPayload(classAndWeight, bodySize, otherFlags, contentType, rest))
         == Some((bodySize, if contentType.Some? then contentType.value else []))
  {
    Pow256Values();
    var flags := otherFlags + (if contentType.Some? then 0x8000 else 0);
    BERoundTrip(bodySize, 8);
    BERoundTrip(flags, 2);
    var p := HeaderPayload(classAndWeight, bodySize, otherFlags, contentType, rest);
    assert p[4..12] == BE(bodySize, 8);
    assert p[12..14] == BE(flags, 2);
    if contentType.Some? {
      assert p[14..14 + |ShortStr(contentType.value)|] == ShortStr(contentType.value);
      assert Has(p, 14, ShortStr(contentType.value));
      ShortStrRoundTrip(p, 14, contentType.value);
    }
  }
}
