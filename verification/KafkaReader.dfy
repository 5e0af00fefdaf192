/** Kafka's sequential reader over legacy and flexible encodings
    (services/broker-proxy/kafka/protocol.go, lines 485 to 681). */
module KafkaReader {
  import opened Bytes
  import opened Options
  import opened KafkaVarint

  function Int32At(data: bytes, pos: nat): (r: Read<int>)
    ensures r.Ok? ==> r.pos <= |data|
  {
    if pos + 4 > |data| then Err else Ok(ToInt32(FromBE(data[pos..pos + 4])), pos + 4)
  }

  function BytesAt(data: bytes, pos: nat, n: nat): (r: Read<bytes>)
    ensures r.Ok? ==> r.pos <= |data|
  {
    if pos + n > |data| then Err else Ok(data[pos..pos + n], pos + n)
  }

  /** A length-prefixed string; the compact form stores the length plus one. */
  function StringAt(data: bytes, pos: nat, flex: bool): (r: Read<bytes>)
    ensures r.Ok? ==> r.pos <= |data|
  {
    if flex then
      match Uvarint(data, pos)
      case Err => Err
      case Ok(n, p) => if n == 0 then Err else BytesAt(data, p, n - 1)
    else if pos + 2 > |data| then Err
    else BytesAt(data, pos + 2, FromBE(data[pos..pos + 2]))
  }

  function NullableStringAt(data: bytes, pos: nat, flex: bool): (r: Read<Option<bytes>>)
    ensures r.Ok? ==> r.pos <= |data|
  {
    if flex then
      match Uvarint(data, pos)
      case Err => Err
      case Ok(n, p) => if n == 0 then Ok(None, p) else Present(BytesAt(data, p, n - 1))
    else if pos + 2 > |data| then Err
    else
      var n := FromBE(data[pos..pos + 2]);
      if n >= 0x8000 then Ok(None, pos + 2) else Present(BytesAt(data, pos + 2, n))
  }

  function Present(r: Read<bytes>): Read<Option<bytes>> {
    match r
    case Err => Err
    case Ok(s, p) => Ok(Some(s), p)
  }

  function ArrayLenAt(data: bytes, pos: nat, flex: bool): (r: Read<int>)
    ensures r.Ok? ==> r.pos <= |data|
  {
    if flex then
      match Uvarint(data, pos)
      case Err => Err
      case Ok(n, p) => Ok(ToInt64(n - 1), p)
    else Int32At(data, pos)
  }

  /** Length-prefixed bytes; a negative length reads as absent. */
  function RawBytesAt(data: bytes, pos: nat, flex: bool): (r: Read<Option<bytes>>)
    ensures r.Ok? ==> r.pos <= |data|
  {
    match ArrayLenAt(data, pos, flex)
    case Err => Err
    case Ok(n, p) => if n < 0 then Ok(None, p) else Present(BytesAt(data, p, n))
  }

  function NullableRawBytesAt(data: bytes, pos: nat, flex: bool): (r: Read<Option<bytes>>)
    ensures r.Ok? ==> r.pos <= |data|
  {
    if flex then
      match Uvarint(data, pos)
      case Err => Err
      case Ok(n, p) => if n == 0 then Ok(None, p) else Present(BytesAt(data, p, n - 1))
    else RawBytesAt(data, pos, false)
  }

  /** Where the reader stands after a tagged-field section; a malformed one is not skipped. */
  function AfterTags(data: bytes, pos: nat, flex: bool): (p: nat)
    ensures pos <= |data| ==> p <= |data|
  {
    if flex && TaggedFieldsEnd(data, pos).Some? then TaggedFieldsEnd(data, pos).value else pos
  }

  /** The result and new position of a reader method against the read it performs. */
  ghost predicate Did<T>(r: Option<T>, pos: nat, spec: Read<T>) {
    match spec
    case Err => r == None
    case Ok(v, p) => r == Some(v) && pos == p
  }

  class Reader {
    const buf: bytes
    const flex: bool
    var pos: nat

    constructor (buf: bytes, pos: nat, flex: bool)
      ensures this.buf == buf && this.pos == pos && this.flex == flex
    {
      this.buf, this.pos, this.flex := buf, pos, flex;
    }

    method ReadInt32() returns (r: Option<int>)
      modifies this
      ensures Did(r, pos, Int32At(buf, old(pos)))
    {
      if pos + 4 > |buf| {
        return None;
      }
      r := Some(ToInt32(FromBE(buf[pos..pos + 4])));
      pos := pos + 4;
    }

    method Skip(n: nat) returns (ok: bool)
      modifies this
      ensures ok == (old(pos) + n <= |buf|)
      ensures pos == if ok then old(pos) + n else old(pos)
    {
      ok := pos + n <= |buf|;
      if ok {
        pos := pos + n;
      }
    }

    method ReadUvarintHere() returns (r: Option<nat>)
      modifies this
      ensures Did(r, pos, Uvarint(buf, old(pos)))
    {
      var v := ReadUvarint(buf, pos);
      if v.Err? {
        return None;
      }
      pos := v.pos;
      return Some(v.value);
    }

    method Take(n: nat) returns (r: Option<bytes>)
      modifies this
      ensures Did(r, pos, BytesAt(buf, old(pos), n))
    {
      if pos + n > |buf| {
        return None;
      }
      r := Some(buf[pos..pos + n]);
      pos := pos + n;
    }

    method ReadString() returns (r: Option<bytes>)
      modifies this
      ensures Did(r, pos, StringAt(buf, old(pos), flex))
    {
      if flex {
        var n := ReadUvarintHere();
        if n == None || n.value == 0 {
          return None;
        }
        r := Take(n.value - 1);
      } else {
        if pos + 2 > |buf| {
          return None;
        }
        var length := FromBE(buf[pos..pos + 2]);
        pos := pos + 2;
        r := Take(length);
      }
    }

    method ReadNullableString() returns (r: Option<Option<bytes>>)
      modifies this
      ensures Did(r, pos, NullableStringAt(buf, old(pos), flex))
    {
      var s: Option<bytes>;
      if flex {
        var n := ReadUvarintHere();
        if n == None {
          return None;
        }
        if n.value == 0 {
          return Some(None);
        }
        s := Take(n.value - 1);
      } else {
        if pos + 2 > |buf| {
          return None;
        }
        var length := FromBE(buf[pos..pos + 2]);
        pos := pos + 2;
        if length >= 0x8000 {
          return Some(None);
        }
        s := Take(length);
      }
      return if s == None then None else Some(s);
    }

    method ReadArrayLen() returns (r: Option<int>)
      modifies this
      ensures Did(r, pos, ArrayLenAt(buf, old(pos), flex))
    {
      if flex {
        var n := ReadUvarintHere();
        if n == None {
          return None;
        }
        return Some(ToInt64(n.value - 1));
      }
      r := ReadInt32();
    }

    method ReadRawBytes() returns (r: Option<Option<bytes>>)
      modifies this
      ensures Did(r, pos, RawBytesAt(buf, old(pos), flex))
    {
      var length := ReadArrayLen();
      if length == None {
        return None;
      }
      if length.value < 0 {
        return Some(None);
      }
      var s := Take(length.value);
      return if s == None then None else Some(s);
    }

    method ReadNullableRawBytes() returns (r: Option<Option<bytes>>)
      modifies this
      ensures Did(r, pos, NullableRawBytesAt(buf, old(pos), flex))
    {
      var s: Option<bytes>;
      if flex {
        var n := ReadUvarintHere();
        if n == None {
          return None;
        }
        if n.value == 0 {
          return Some(None);
        }
        s := Take(n.value - 1);
      } else {
        var length := ReadInt32();
        if length == None {
          return None;
        }
        if length.value < 0 {
          return Some(None);
        }
        s := Take(length.value);
      }
      return if s == None then None else Some(s);
    }

    method SkipTaggedFieldsHere()
      modifies this
      ensures pos == AfterTags(buf, old(pos), true)
    {
      var end := SkipTaggedFields(buf, pos);
      if end.Some? {
        pos := end.value;
      }
    }
  }

  // ---------- the encodings it inverts ----------

  predicate ShortText(s: bytes) { |s| < 0x8000 }

  function PutString(flex: bool, s: bytes): bytes {
    if flex then PutUvarint(|s| + 1) + s else BE(|s|, 2) + s
  }

  function PutNullableString(flex: bool, s: Option<bytes>): bytes {
    match s
    case Some(t) => PutString(flex, t)
    case None => if flex then PutUvarint(0) else BE(0xffff, 2)
  }

  function PutArrayLen(flex: bool, n: nat): bytes {
    if flex then PutUvarint(n + 1) else BE(n, 4)
  }

  function PutNullableBytes(flex: bool, s: Option<bytes>): bytes {
    match s
    case Some(t) => PutArrayLen(flex, |t|) + t
    case None => if flex then PutUvarint(0) else BE(0xffff_ffff, 4)
  }

  function PutTagsIf(flex: bool, tags: Tags): bytes {
    if flex then PutTags(tags) else []
  }

  lemma BigEndianAt(data: bytes, pos: nat, n: nat, w: nat)
    requires n < Pow256(w) && Has(data, pos, BE(n, w))
    ensures pos + w <= |data| && FromBE(data[pos..pos + w]) == n
  {
    BERoundTrip(n, w);
  }

  lemma TakeRoundTrip(data: bytes, pos: nat, s: bytes)
    requires Has(data, pos, s)
    ensures BytesAt(data, pos, |s|) == Ok(s, pos + |s|)
  {
  }

  lemma StringRoundTrip(data: bytes, pos: nat, flex: bool, s: bytes)
    requires ShortText(s) && Has(data, pos, PutString(flex, s))
    ensures StringAt(data, pos, flex) == Ok(s, pos + |PutString(flex, s)|)
    ensures NullableStringAt(data, pos, flex) == Ok(Some(s), pos + |PutString(flex, s)|)
  {
    hide Has, Uvarint, PutUvarint, BytesAt, BE, FromBE, Pow256;
    Pow256Values();
    var length := if flex then PutUvarint(|s| + 1) else BE(|s|, 2);
    HasConcat(data, pos, length, s);
    TakeRoundTrip(data, pos + |length|, s);
    if flex {
      UvarintRoundTrip(data, pos, |s| + 1);
    } else {
      BigEndianAt(data, pos, |s|, 2);
    }
  }

  lemma NullableStringRoundTrip(data: bytes, pos: nat, flex: bool, s: Option<bytes>)
    requires (s.Some? ==> ShortText(s.value)) && Has(data, pos, PutNullableString(flex, s))
    ensures NullableStringAt(data, pos, flex) == Ok(s, pos + |PutNullableString(flex, s)|)
  {
    hide Has, Uvarint, PutUvarint, BE, FromBE, Pow256, PutString;
    Pow256Values();
    if s.Some? {
      StringRoundTrip(data, pos, flex, s.value);
    } else if flex {
      UvarintRoundTrip(data, pos, 0);
    } else {
      BigEndianAt(data, pos, 0xffff, 2);
      HasFits(data, pos, BE(0xffff, 2));
    }
  }

  lemma ArrayLenRoundTrip(data: bytes, pos: nat, flex: bool, n: nat)
    requires n < 0x8000_0000 && Has(data, pos, PutArrayLen(flex, n))
    ensures ArrayLenAt(data, pos, flex) == Ok(n, pos + |PutArrayLen(flex, n)|)
  {
    hide Has, Uvarint, PutUvarint, BE, FromBE, Pow256;
    Pow256Values();
    if flex {
      UvarintRoundTrip(data, pos, n + 1);
    } else {
      BigEndianAt(data, pos, n, 4);
    }
  }

  lemma Int32RoundTrip(data: bytes, pos: nat, n: nat)
    requires n < 0x8000_0000 && Has(data, pos, BE(n, 4))
    ensures Int32At(data, pos) == Ok(n, pos + 4)
  {
    hide Has, BE, FromBE, Pow256;
    Pow256Values();
    BigEndianAt(data, pos, n, 4);
  }

  lemma NullableBytesRoundTrip(data: bytes, pos: nat, flex: bool, s: Option<bytes>)
    requires (s.Some? ==> |s.value| < 0x8000_0000) && Has(data, pos, PutNullableBytes(flex, s))
    ensures RawBytesAt(data, pos, flex) == Ok(s, pos + |PutNullableBytes(flex, s)|)
    ensures NullableRawBytesAt(data, pos, flex) == Ok(s, pos + |PutNullableBytes(flex, s)|)
  {
    hide Has, Uvarint, PutUvarint, BytesAt, BE, FromBE, Pow256;
    Pow256Values();
    if s.Some? {
      var length := PutArrayLen(flex, |s.value|);
      HasConcat(data, pos, length, s.value);
      ArrayLenRoundTrip(data, pos, flex, |s.value|);
      TakeRoundTrip(data, pos + |length|, s.value);
      if flex {
        UvarintRoundTrip(data, pos, |s.value| + 1);
      }
    } else if flex {
      UvarintRoundTrip(data, pos, 0);
    } else {
      BigEndianAt(data, pos, 0xffff_ffff, 4);
    }
  }

  lemma TagsIfRoundTrip(data: bytes, pos: nat, flex: bool, tags: Tags)
    requires ValidTags(tags) && Has(data, pos, PutTagsIf(flex, tags))
    ensures AfterTags(data, pos, flex) == pos + |PutTagsIf(flex, tags)|
  {
    hide Has, PutTags, TaggedFieldsEnd;
    if flex {
      TaggedFieldsRoundTrip(data, pos, tags);
    }
  }
}
