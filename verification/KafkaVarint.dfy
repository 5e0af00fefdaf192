/** Kafka's variable-length integers and tagged fields
    (services/broker-proxy/kafka/protocol.go, lines 683 to 739). */
module KafkaVarint {
  import opened Bytes
  import opened Options
  import opened Strconv

  /** The outcome of a read: a value and the position after it, or an error. */
  datatype Read<+T> = Ok(value: T, pos: nat) | Err

  const TWO64 := 0x1_0000_0000_0000_0000

  // ---------- unsigned ----------

  function Pow128(i: nat): (p: nat)
    ensures p > 0
  {
    if i == 0 then 1 else 128 * Pow128(i - 1)
  }

  /** Up to `max` seven-bit groups at `pos`, least significant first, as an unbounded number. */
  function Groups(data: bytes, pos: nat, max: nat): (r: Read<nat>)
    ensures r.Ok? ==> pos < r.pos <= |data|
    decreases max
  {
    if max == 0 || pos >= |data| then Err
    else if data[pos] < 128 then Ok(data[pos], pos + 1)
    else
      match Groups(data, pos + 1, max - 1)
      case Err => Err
      case Ok(v, end) => Ok(data[pos] - 128 + 128 * v, end)
  }

  /** At most ten groups, kept to 64 bits. */
  function Uvarint(data: bytes, pos: nat): (r: Read<nat>)
    ensures r.Ok? ==> pos < r.pos <= |data| && r.value < TWO64
  {
    match Groups(data, pos, 10)
    case Err => Err
    case Ok(v, end) => Ok(v % TWO64, end)
  }

  /** The groups still ahead, on top of `low` already read below weight `Pow128(i)`. */
  function OnTopOf(low: nat, i: nat, r: Read<nat>): Read<nat> {
    match r
    case Err => Err
    case Ok(v, end) => Ok(low + Pow128(i) * v, end)
  }

  /** The loop of the source. Its `result |= group << shift` adds, because `result` stays below
      the weight of the next group; the shift drops what exceeds 64 bits. */
  method ReadUvarint(data: bytes, pos: nat) returns (r: Read<nat>)
    ensures r == Uvarint(data, pos)
  {
    var result, at := 0, pos;
    ghost var all := Groups(data, pos, 10);
    GroupsFromStart(data, pos);
    for i := 0 to 10
      invariant at >= pos && 0 <= result < Pow128(i)
      invariant all == OnTopOf(result, i, Groups(data, at, 10 - i))
    {
      if at >= |data| {
        return Err;
      }
      var b := data[at];
      NextGroup(result, i, b, Groups(data, at + 1, 10 - i - 1));
      at := at + 1;
      if b < 128 {
        LastGroup(result, i, b);
        return Ok(result + b * Pow128(i) % TWO64, at);
      }
      LowGroupsFit(result, i, b - 128);
      result := result + (b - 128) * Pow128(i) % TWO64;
    }
    return Err;
  }

  lemma GroupsFromStart(data: bytes, pos: nat)
    ensures Groups(data, pos, 10) == OnTopOf(0, 0, Groups(data, pos, 10))
  {
  }

  lemma NextGroup(low: nat, i: nat, b: byte, rest: Read<nat>)
    ensures b >= 128 && rest.Ok? ==>
      OnTopOf(low, i, Ok(b - 128 + 128 * rest.value, rest.pos)) == OnTopOf(low + (b - 128) * Pow128(i), i + 1, rest)
  {
    if b >= 128 && rest.Ok? {
      var p, v := Pow128(i), rest.value;
      calc {
        p * (b - 128 + 128 * v);
        p * (b - 128) + p * (128 * v);
        { assert p * (128 * v) == 128 * p * v; }
        (b - 128) * p + Pow128(i + 1) * v;
      }
    }
  }

  lemma Pow128Values()
    ensures Pow128(9) == 0x8000_0000_0000_0000
  {
    assert Pow128(3) == 0x20_0000;
    assert Pow128(6) == 128 * 128 * 128 * Pow128(3);
    assert Pow128(9) == 128 * 128 * 128 * Pow128(6);
  }

  lemma {:induction false} Pow128Monotone(i: nat, j: nat)
    requires i <= j
    ensures Pow128(i) <= Pow128(j)
  {
    if i < j {
      Pow128Monotone(i, j - 1);
    }
  }

  lemma LowGroupsFit(low: nat, i: nat, g: nat)
    requires i < 10 && g < 128 && low < Pow128(i)
    ensures i < 9 ==> g * Pow128(i) % TWO64 == g * Pow128(i) && low + g * Pow128(i) < Pow128(i + 1)
    ensures low + g * Pow128(i) % TWO64 < Pow128(i + 1)
  {
    Pow128Values();
    var p := Pow128(i);
    assert g * p <= 127 * p;
    if i < 9 {
      Pow128Monotone(i + 1, 9);
    } else {
      assert Pow128(10) == 128 * Pow128(9);
    }
  }

  lemma LastGroup(low: nat, i: nat, b: nat)
    requires i < 10 && b < 128 && low < Pow128(i)
    ensures low + b * Pow128(i) % TWO64 == (low + Pow128(i) * b) % TWO64
  {
    if i < 9 {
      LowGroupsFit(low, i, b);
      Pow128Values();
      Pow128Monotone(i + 1, 9);
    } else {
      Pow128Values();
      TenthGroup(low, b);
      assert b * Pow128(i) == Pow128(i) * b == 0x8000_0000_0000_0000 * b;
    }
  }

  /** Only the lowest bit of the tenth group survives the shift. */
  lemma TenthGroup(low: nat, b: nat)
    requires low < 0x8000_0000_0000_0000
    ensures low + 0x8000_0000_0000_0000 * b % TWO64 == (low + 0x8000_0000_0000_0000 * b) % TWO64
  {
    assert 0x8000_0000_0000_0000 * b == TWO64 * (b / 2) + 0x8000_0000_0000_0000 * (b % 2);
  }

  function PutUvarint(n: nat): (s: bytes)
    ensures s != []
  {
    if n < 128 then [n] else [n % 128 + 128] + PutUvarint(n / 128)
  }

  lemma {:induction false} GroupsRoundTrip(data: bytes, pos: nat, n: nat, max: nat)
    requires Has(data, pos, PutUvarint(n)) && |PutUvarint(n)| <= max
    ensures Groups(data, pos, max) == Ok(n, pos + |PutUvarint(n)|)
    decreases n
  {
    var enc := PutUvarint(n);
    assert data[pos] == enc[0];
    if n >= 128 {
      assert enc == [enc[0]] + PutUvarint(n / 128);
      HasConcat(data, pos, [enc[0]], PutUvarint(n / 128));
      GroupsRoundTrip(data, pos + 1, n / 128, max - 1);
    }
  }

  lemma {:induction false} UvarintLength(n: nat, k: nat)
    requires k > 0 && n < Pow128(k)
    ensures |PutUvarint(n)| <= k
    decreases k
  {
    if n >= 128 {
      assert Pow128(k) == 128 * Pow128(k - 1);
      UvarintLength(n / 128, k - 1);
    }
  }

  /** Every 64-bit number is read back from its encoding, which ends where reading stops. */
  lemma UvarintRoundTrip(data: bytes, pos: nat, n: nat)
    requires n < TWO64 && Has(data, pos, PutUvarint(n))
    ensures Uvarint(data, pos) == Ok(n, pos + |PutUvarint(n)|)
  {
    Pow128Values();
    assert Pow128(10) == 128 * Pow128(9);
    UvarintLength(n, 10);
    GroupsRoundTrip(data, pos, n, 10);
  }

  // ---------- zigzag ----------

  /** (u >> 1) ^ -(u & 1) on 64 bits; `ZigzagBits` ties this to the bits. */
  function Unzigzag(u: nat): int {
    if u % 2 == 0 then u / 2 else -(u / 2) - 1
  }

  /** The bits of a word, the lowest first. */
  type Bits = seq<bool>

  function Pow2(w: nat): (p: nat)
    ensures p > 0
  {
    if w == 0 then 1 else 2 * Pow2(w - 1)
  }

  function BitsOf(n: nat, w: nat): (s: Bits)
    ensures |s| == w
  {
    if w == 0 then [] else [n % 2 == 1] + BitsOf(n / 2, w - 1)
  }

  function NatOf(s: Bits): nat {
    if s == [] then 0 else (if s[0] then 1 else 0) + 2 * NatOf(s[1..])
  }

  function ShiftedRight(s: Bits): (r: Bits)
    requires s != []
    ensures |r| == |s|
  {
    s[1..] + [false]
  }

  function Xor(a: Bits, b: Bits): (r: Bits)
    requires |a| == |b|
    ensures |r| == |a|
  {
    seq(|a|, i requires 0 <= i < |a| => a[i] != b[i])
  }

  /** The word that carries -n. */
  function Negated(n: nat, w: nat): (r: Bits)
    requires n <= Pow2(w)
    ensures |r| == w
  {
    BitsOf(if n == 0 then 0 else Pow2(w) - n, w)
  }

  lemma {:induction false} BitsRoundTrip(n: nat, w: nat)
    requires n < Pow2(w)
    ensures NatOf(BitsOf(n, w)) == n
  {
    if w > 0 {
      BitsRoundTrip(n / 2, w - 1);
      assert BitsOf(n, w)[1..] == BitsOf(n / 2, w - 1);
    }
  }

  lemma {:induction false} ZeroOnTop(s: Bits)
    ensures NatOf(s + [false]) == NatOf(s)
  {
    if s != [] {
      ZeroOnTop(s[1..]);
      assert (s + [false])[1..] == s[1..] + [false];
    }
  }

  lemma {:induction false} XorWithZeros(a: Bits)
    ensures NatOf(Xor(a, BitsOf(0, |a|))) == NatOf(a)
  {
    if a != [] {
      XorWithZeros(a[1..]);
      assert Xor(a, BitsOf(0, |a|))[1..] == Xor(a[1..], BitsOf(0, |a| - 1));
    }
  }

  /** Exclusive or with ones complements a word. */
  lemma {:induction false} XorWithOnes(a: Bits)
    ensures NatOf(Xor(a, BitsOf(Pow2(|a|) - 1, |a|))) == Pow2(|a|) - 1 - NatOf(a)
  {
    if a != [] {
      var w, rest := |a|, Pow2(|a| - 1);
      XorWithOnes(a[1..]);
      assert Pow2(w) - 1 == 2 * (rest - 1) + 1;
      assert Xor(a, BitsOf(Pow2(w) - 1, w))[1..] == Xor(a[1..], BitsOf(rest - 1, w - 1));
    }
  }

  lemma Pow2Is64()
    ensures Pow2(64) == TWO64
  {
    assert Pow2(8) == 256;
    assert Pow2(16) == 256 * Pow2(8);
    assert Pow2(24) == 256 * Pow2(16);
    assert Pow2(32) == 256 * Pow2(24);
    assert Pow2(40) == 256 * Pow2(32);
    assert Pow2(48) == 256 * Pow2(40);
    assert Pow2(56) == 256 * Pow2(48);
    assert Pow2(64) == 256 * Pow2(56);
  }

  /** The bits of (u >> 1) ^ -(u & 1), read as a signed 64-bit number, are the number the reader takes. */
  lemma ZigzagBits(u: nat)
    requires u < TWO64
    ensures ToInt64(NatOf(Xor(ShiftedRight(BitsOf(u, 64)), Negated(u % 2, 64)))) == Unzigzag(u)
  {
    hide BitsOf, Xor, Pow2, NatOf;
    var word := BitsOf(u, 64);
    var half := ShiftedRight(word);
    Pow2Is64();
    BitsRoundTrip(u, 64);
    HalfOf(word);
    if u % 2 == 0 {
      XorWithZeros(half);
    } else {
      XorWithOnes(half);
    }
  }

  lemma HalfOf(s: Bits)
    requires s != []
    ensures NatOf(ShiftedRight(s)) == NatOf(s) / 2
  {
    ZeroOnTop(s[1..]);
  }

  function Zigzag(i: int): nat {
    if i >= 0 then 2 * i else -2 * i - 1
  }

  function ZigzagVarint(data: bytes, pos: nat): (r: Read<int>)
    ensures r.Ok? ==> pos < r.pos <= |data| && MIN_INT64 <= r.value <= MAX_INT64
  {
    match Uvarint(data, pos)
    case Err => Err
    case Ok(u, end) => Ok(Unzigzag(u), end)
  }

  method ReadZigzagVarint(data: bytes, pos: nat) returns (r: Read<int>)
    ensures r == ZigzagVarint(data, pos)
  {
    var u := ReadUvarint(data, pos);
    match u
    case Err => return Err;
    case Ok(v, end) => return Ok(Unzigzag(v), end);
  }

  function PutZigzag(i: int): (s: bytes)
    ensures s != []
  {
    PutUvarint(Zigzag(i))
  }

  /** Every signed 64-bit number survives zigzag encoding. */
  lemma ZigzagRoundTrip(data: bytes, pos: nat, i: int)
    requires MIN_INT64 <= i <= MAX_INT64 && Has(data, pos, PutZigzag(i))
    ensures ZigzagVarint(data, pos) == Ok(i, pos + |PutZigzag(i)|)
  {
    UvarintRoundTrip(data, pos, Zigzag(i));
  }

  // ---------- tagged fields ----------

  /** The position after `count` tagged fields: tag, size, and that many bytes each. */
  function SkipTags(data: bytes, pos: nat, count: nat): (r: Option<nat>)
    ensures r.Some? && pos <= |data| ==> pos <= r.value <= |data|
    decreases count
  {
    if count == 0 then Some(pos)
    else
      match Uvarint(data, pos)
      case Err => None
      case Ok(_, afterTag) =>
        match Uvarint(data, afterTag)
        case Err => None
        case Ok(size, afterSize) =>
          if afterSize + size > |data| then None else SkipTags(data, afterSize + size, count - 1)
  }

  function TaggedFieldsEnd(data: bytes, pos: nat): (r: Option<nat>)
    ensures r.Some? ==> pos < r.value <= |data|
  {
    match Uvarint(data, pos)
    case Err => None
    case Ok(count, next) => SkipTags(data, next, count)
  }

  method SkipTaggedFields(data: bytes, pos: nat) returns (r: Option<nat>)
    ensures r == TaggedFieldsEnd(data, pos)
  {
    hide Uvarint;
    var counted := ReadUvarint(data, pos);
    if counted.Err? {
      return None;
    }
    var at := counted.pos;
    for i := 0 to counted.value
      invariant at >= 0 && SkipTags(data, at, counted.value - i) == TaggedFieldsEnd(data, pos)
    {
      var tag := ReadUvarint(data, at);
      if tag.Err? {
        return None;
      }
      var size := ReadUvarint(data, tag.pos);
      if size.Err? {
        return None;
      }
      at := size.pos + size.value;
      if at > |data| {
        return None;
      }
    }
    return Some(at);
  }

  datatype Tag = Tag(tag: nat, value: bytes)

  type Tags = seq<Tag>

  ghost predicate ValidTags(tags: Tags) {
    |tags| < TWO64 && forall i :: 0 <= i < |tags| ==> tags[i].tag < TWO64 && |tags[i].value| < TWO64
  }

  function PutTagList(tags: Tags): bytes {
    if tags == [] then []
    else PutUvarint(tags[0].tag) + (PutUvarint(|tags[0].value|) + (tags[0].value + PutTagList(tags[1..])))
  }

  function PutTags(tags: Tags): (s: bytes)
    ensures s != []
  {
    PutUvarint(|tags|) + PutTagList(tags)
  }

  lemma {:induction false} SkipTagsLands(data: bytes, pos: nat, tags: Tags)
    requires ValidTags(tags) && Has(data, pos, PutTagList(tags))
    ensures SkipTags(data, pos, |tags|) == Some(pos + |PutTagList(tags)|)
    decreases |tags|
  {
    hide Uvarint, Has, PutUvarint;
    if tags != [] {
      var Tag(tag, value) := tags[0];
      TagIsRead(data, pos, tag, value, PutTagList(tags[1..]));
      SkipTagsLands(data, pos + |PutUvarint(tag)| + |PutUvarint(|value|)| + |value|, tags[1..]);
    }
  }

  lemma TagIsRead(data: bytes, pos: nat, tag: nat, value: bytes, rest: bytes)
    requires tag < TWO64 && |value| < TWO64
    requires Has(data, pos, PutUvarint(tag) + (PutUvarint(|value|) + (value + rest)))
    ensures var afterTag := pos + |PutUvarint(tag)|;
            var afterSize := afterTag + |PutUvarint(|value|)|;
            && Uvarint(data, pos) == Ok(tag, afterTag) && Uvarint(data, afterTag) == Ok(|value|, afterSize)
            && afterSize + |value| <= |data| && Has(data, afterSize + |value|, rest)
  {
    hide Has, Uvarint, PutUvarint;
    HasConcat(data, pos, PutUvarint(tag), PutUvarint(|value|) + (value + rest));
    UvarintRoundTrip(data, pos, tag);
    var afterTag := pos + |PutUvarint(tag)|;
    HasConcat(data, afterTag, PutUvarint(|value|), value + rest);
    UvarintRoundTrip(data, afterTag, |value|);
    HasConcat(data, afterTag + |PutUvarint(|value|)|, value, rest);
    HasFits(data, afterTag + |PutUvarint(|value|)|, value);
  }

  /** Skipping a tagged-field section lands exactly at its end. */
  lemma TaggedFieldsRoundTrip(data: bytes, pos: nat, tags: Tags)
    requires ValidTags(tags) && Has(data, pos, PutTags(tags))
    ensures TaggedFieldsEnd(data, pos) == Some(pos + |PutTags(tags)|)
  {
    hide Has, Uvarint, PutUvarint, SkipTags, PutTagList;
    HasConcat(data, pos, PutUvarint(|tags|), PutTagList(tags));
    UvarintRoundTrip(data, pos, |tags|);
    SkipTagsLands(data, pos + |PutUvarint(|tags|)|, tags);
  }
}
