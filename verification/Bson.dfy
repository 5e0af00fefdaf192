/** BSON documents as the Mongo proxy walks them (services/db-proxy/mongo/protocol.go,
    lines 478 to 574), and the element grammar of the BSON specification, version 1.1. */
module Bson {
  import opened Bytes
  import opened Options

  const DOUBLE: byte := 0x01
  const STRING: byte := 0x02
  const DOCUMENT: byte := 0x03
  const ARRAY: byte := 0x04
  const INT32: byte := 0x10
  const INT64: byte := 0x12

  // ---------- the scanners ----------

  /** Where the first NUL at or after `pos` stands, below `docLen` and the end of `doc`. */
  function FindNul(doc: bytes, pos: nat, docLen: nat): (r: Option<nat>)
    ensures r.Some? ==> pos <= r.value < |doc| && r.value < docLen
    decreases |doc| - pos
  {
    if pos >= docLen || pos >= |doc| then None
    else if doc[pos] == 0 then Some(pos)
    else FindNul(doc, pos + 1, docLen)
  }

  /** The position the scan stops at when there is no NUL. */
  function ScanEnd(doc: bytes, pos: nat, docLen: nat): nat {
    var limit := if docLen < |doc| then docLen else |doc|;
    if pos < limit then limit else pos
  }

  /** A null-terminated string and the position after it; an empty one when unterminated. */
  function CString(doc: bytes, pos: nat, docLen: nat): (r: (bytes, nat))
    ensures r.1 >= pos
  {
    match FindNul(doc, pos, docLen)
    case Some(nul) => (doc[pos..nul], nul + 1)
    case None => ([], ScanEnd(doc, pos, docLen))
  }

  method ReadCString(doc: bytes, pos: nat, docLen: nat) returns (s: bytes, next: nat)
    ensures (s, next) == CString(doc, pos, docLen)
  {
    var at := pos;
    while at < docLen && at < |doc|
      invariant pos <= at && (at == pos || (at <= docLen && at <= |doc|))
      invariant FindNul(doc, at, docLen) == FindNul(doc, pos, docLen)
      decreases |doc| - at
    {
      if doc[at] == 0 {
        return doc[pos..at], at + 1;
      }
      at := at + 1;
    }
    return [], at;
  }

  function U32At(doc: bytes, pos: nat): nat
    requires pos + 4 <= |doc|
  {
    FromLE(doc[pos..pos + 4])
  }

  /** The position after a value of the given type; None where the source gives up. */
  function Skip(elemType: byte, doc: bytes, pos: nat, docLen: nat): (r: Option<nat>)
    ensures r.Some? ==> r.value >= pos
  {
    if elemType == DOUBLE then Some(pos + 8)
    else if elemType == STRING || elemType == 0x0D || elemType == 0x0E then
      if pos + 4 > |doc| then None else Some(pos + 4 + U32At(doc, pos))
    else if elemType == DOCUMENT || elemType == ARRAY then
      if pos + 4 > |doc| || U32At(doc, pos) < 5 then None else Some(pos + U32At(doc, pos))
    else if elemType == 0x05 then
      if pos + 5 > |doc| then None else Some(pos + 5 + U32At(doc, pos))
    else if elemType == 0x06 || elemType == 0x0A then Some(pos)
    else if elemType == 0x07 then Some(pos + 12)
    else if elemType == 0x08 then Some(pos + 1)
    else if elemType == 0x09 || elemType == 0x11 || elemType == INT64 then Some(pos + 8)
    else if elemType == 0x0B then Some(CString(doc, CString(doc, pos, docLen).1, docLen).1)
    else if elemType == 0x0C then
      if pos + 4 > |doc| then None else Some(pos + 4 + U32At(doc, pos) + 12)
    else if elemType == 0x0F then
      if pos + 4 > |doc| then None else Some(pos + U32At(doc, pos))
    else if elemType == INT32 then Some(pos + 4)
    else if elemType == 0x13 then Some(pos + 16)
    else if elemType == 0xFF || elemType == 0x7F then Some(pos)
    else None
  }

  // ---------- the element grammar ----------

  /** A value of each BSON type; fixed-width payloads are kept as their bytes. */
  datatype Value =
    | Double(raw: bytes)
    | Str(text: bytes)
    | Doc(elements: seq<Element>)
    | Arr(elements: seq<Element>)
    | Binary(subtype: byte, data: bytes)
    | Undefined
    | ObjectId(raw: bytes)
    | Bool(b: byte)
    | DateTime(raw: bytes)
    | Null
    | Regex(pattern: bytes, options: bytes)
    | DBPointer(text: bytes, raw: bytes)
    | JavaScript(text: bytes)
    | Symbol(text: bytes)
    | Scoped(text: bytes, elements: seq<Element>)
    | Int32(raw: bytes)
    | Timestamp(raw: bytes)
    | Int64(raw: bytes)
    | Decimal128(raw: bytes)
    | MinKey
    | MaxKey

  datatype Element = Element(name: bytes, value: Value)

  const LIMIT := 0x1_0000_0000

  function TypeOf(v: Value): byte {
    match v
    case Double(_) => DOUBLE
    case Str(_) => STRING
    case Doc(_) => DOCUMENT
    case Arr(_) => ARRAY
    case Binary(_, _) => 0x05
    case Undefined => 0x06
    case ObjectId(_) => 0x07
    case Bool(_) => 0x08
    case DateTime(_) => 0x09
    case Null => 0x0A
    case Regex(_, _) => 0x0B
    case DBPointer(_, _) => 0x0C
    case JavaScript(_) => 0x0D
    case Symbol(_) => 0x0E
    case Scoped(_, _) => 0x0F
    case Int32(_) => INT32
    case Timestamp(_) => 0x11
    case Int64(_) => INT64
    case Decimal128(_) => 0x13
    case MinKey => 0xFF
    case MaxKey => 0x7F
  }

  function PutString(s: bytes): bytes { LE(|s| + 1, 4) + s + [0] }

  function PutDocument(es: seq<Element>): bytes
    decreases es, 1
  {
    LE(|PutElements(es)| + 5, 4) + PutElements(es) + [0]
  }

  function PutValue(v: Value): bytes
    decreases v, 0
  {
    match v
    case Double(raw) => raw
    case Str(s) => PutString(s)
    case Doc(es) => PutDocument(es)
    case Arr(es) => PutDocument(es)
    case Binary(subtype, data) => LE(|data|, 4) + [subtype] + data
    case Undefined => []
    case ObjectId(raw) => raw
    case Bool(b) => [b]
    case DateTime(raw) => raw
    case Null => []
    case Regex(p, o) => p + [0] + (o + [0])
    case DBPointer(s, raw) => PutString(s) + raw
    case JavaScript(s) => PutString(s)
    case Symbol(s) => PutString(s)
    case Scoped(s, es) => LE(|PutString(s)| + |PutDocument(es)| + 4, 4) + PutString(s) + PutDocument(es)
    case Int32(raw) => raw
    case Timestamp(raw) => raw
    case Int64(raw) => raw
    case Decimal128(raw) => raw
    case MinKey => []
    case MaxKey => []
  }

  function PutElement(e: Element): (s: bytes)
    ensures s != []
    decreases e, 2
  {
    [TypeOf(e.value)] + (e.name + [0] + PutValue(e.value))
  }

  function PutElements(es: seq<Element>): bytes
    decreases es, 0
  {
    if es == [] then [] else PutElement(es[0]) + PutElements(es[1..])
  }

  /** Fixed-width payloads have their width, C strings hold no NUL. */
  predicate ValidShape(v: Value) {
    match v
    case Double(raw) => |raw| == 8
    case ObjectId(raw) => |raw| == 12
    case DateTime(raw) => |raw| == 8
    case Regex(p, o) => 0 !in p && 0 !in o
    case DBPointer(_, raw) => |raw| == 12
    case Int32(raw) => |raw| == 4
    case Timestamp(raw) => |raw| == 8
    case Int64(raw) => |raw| == 8
    case Decimal128(raw) => |raw| == 16
    case _ => true
  }

  /** An element the scanners can pass: whatever its document or array values nest is skipped by length. */
  predicate ValidElement(e: Element) {
    0 !in e.name && ValidShape(e.value)
  }

  // ---------- skipping lands after the value ----------

  lemma {:induction false} FindNulFrom(doc: bytes, pos: nat, docLen: nat, s: bytes)
    requires 0 !in s && Has(doc, pos, s + [0]) && pos + |s| < docLen
    ensures FindNul(doc, pos, docLen) == Some(pos + |s|)
    decreases |s|
  {
    assert doc[pos] == doc[pos..pos + |s| + 1][0];
    if s != [] {
      assert s + [0] == [s[0]] + (s[1..] + [0]);
      HasConcat(doc, pos, [s[0]], s[1..] + [0]);
      FindNulFrom(doc, pos + 1, docLen, s[1..]);
    }
  }

  lemma CStringRoundTrip(doc: bytes, pos: nat, docLen: nat, s: bytes)
    requires 0 !in s && Has(doc, pos, s + [0]) && pos + |s| < docLen
    ensures CString(doc, pos, docLen) == (s, pos + |s| + 1)
  {
    FindNulFrom(doc, pos, docLen, s);
    assert doc[pos..pos + |s|] == doc[pos..pos + |s| + 1][..|s|] == s;
  }

  lemma U32RoundTrip(doc: bytes, pos: nat, n: nat, rest: bytes)
    requires n < LIMIT && Has(doc, pos, LE(n, 4) + rest)
    ensures pos + 4 <= |doc| && U32At(doc, pos) == n
  {
    Pow256Values();
    HasConcat(doc, pos, LE(n, 4), rest);
    LERoundTrip(n, 4);
  }

  /** Skipping any value of any BSON type lands exactly after it. */
  lemma SkipLands(doc: bytes, pos: nat, docLen: nat, v: Value)
    requires ValidShape(v) && |PutValue(v)| < LIMIT && Has(doc, pos, PutValue(v))
    requires pos + |PutValue(v)| < docLen <= |doc|
    ensures Skip(TypeOf(v), doc, pos, docLen) == Some(pos + |PutValue(v)|)
  {
    hide Has, U32At, CString, PutElements, PutDocument, PutString, LE, FromLE;
    match v
    case Str(s) => StringSkipLands(doc, pos, s, []);
    case JavaScript(s) => StringSkipLands(doc, pos, s, []);
    case Symbol(s) => StringSkipLands(doc, pos, s, []);
    case DBPointer(s, raw) => StringSkipLands(doc, pos, s, raw);
    case Doc(es) => DocumentSkipLands(doc, pos, es);
    case Arr(es) => DocumentSkipLands(doc, pos, es);
    case Scoped(s, es) => LengthIsRead(doc, pos, |PutString(s)| + |PutDocument(es)| + 4, PutString(s), PutDocument(es));
    case Binary(subtype, data) => LengthIsRead(doc, pos, |data|, [subtype], data);
    case Regex(p, o) => RegexIsRead(doc, pos, docLen, p, o);
    case _ => FixedWidthSkipLands(doc, pos, docLen, v);
  }

  /** The types whose width does not depend on their content. */
  lemma FixedWidthSkipLands(doc: bytes, pos: nat, docLen: nat, v: Value)
    requires ValidShape(v) && TypeOf(v) !in {STRING, DOCUMENT, ARRAY, 0x05, 0x0B, 0x0C, 0x0D, 0x0E, 0x0F}
    ensures Skip(TypeOf(v), doc, pos, docLen) == Some(pos + |PutValue(v)|)
  {
    hide U32At, CString;
  }

  lemma LengthIsRead(doc: bytes, pos: nat, n: nat, a: bytes, b: bytes)
    requires n < LIMIT && Has(doc, pos, LE(n, 4) + a + b)
    ensures pos + 4 <= |doc| && U32At(doc, pos) == n && pos + 4 + |a| + |b| <= |doc|
  {
    hide Has, U32At, LE, FromLE;
    HasFits(doc, pos, LE(n, 4) + a + b);
    assert LE(n, 4) + a + b == LE(n, 4) + (a + b);
    U32RoundTrip(doc, pos, n, a + b);
  }

  lemma RegexIsRead(doc: bytes, pos: nat, docLen: nat, p: bytes, o: bytes)
    requires 0 !in p && 0 !in o && Has(doc, pos, p + [0] + (o + [0])) && pos + |p| + |o| + 2 < docLen
    ensures CString(doc, CString(doc, pos, docLen).1, docLen).1 == pos + |p| + |o| + 2
  {
    hide Has, CString;
    HasConcat(doc, pos, p + [0], o + [0]);
    CStringRoundTrip(doc, pos, docLen, p);
    CStringRoundTrip(doc, pos + |p| + 1, docLen, o);
  }

  lemma StringSkipLands(doc: bytes, pos: nat, s: bytes, raw: bytes)
    requires |PutString(s)| < LIMIT
    requires Has(doc, pos, PutString(s) + raw) || (raw == [] && Has(doc, pos, PutString(s)))
    ensures pos + 4 <= |doc| && U32At(doc, pos) == |s| + 1 && |PutString(s)| == |s| + 5
  {
    hide Has, U32At, LE, FromLE;
    assert PutString(s) + raw == LE(|s| + 1, 4) + (s + [0] + raw);
    assert raw == [] ==> PutString(s) == PutString(s) + raw;
    U32RoundTrip(doc, pos, |s| + 1, s + [0] + raw);
  }

  lemma DocumentSkipLands(doc: bytes, pos: nat, es: seq<Element>)
    requires |PutDocument(es)| < LIMIT && Has(doc, pos, PutDocument(es))
    ensures pos + 4 <= |doc| && U32At(doc, pos) == |PutDocument(es)| >= 5
  {
    hide Has, U32At, LE, FromLE, PutElements;
    assert PutDocument(es) == LE(|PutElements(es)| + 5, 4) + (PutElements(es) + [0]);
    U32RoundTrip(doc, pos, |PutElements(es)| + 5, PutElements(es) + [0]);
  }

  /** The type, the name and the extent of the element at `pos`. */
  lemma ElementIsRead(doc: bytes, pos: nat, docLen: nat, e: Element)
    requires ValidElement(e) && |PutElement(e)| < LIMIT && Has(doc, pos, PutElement(e))
    requires pos + |PutElement(e)| < docLen <= |doc|
    ensures doc[pos] == TypeOf(e.value)
    ensures CString(doc, pos + 1, docLen) == (e.name, pos + 2 + |e.name|)
    ensures Has(doc, pos + 2 + |e.name|, PutValue(e.value))
    ensures Skip(doc[pos], doc, pos + 2 + |e.name|, docLen) == Some(pos + |PutElement(e)|)
  {
    hide Skip, CString, PutValue, ValidShape, TypeOf;
    HasConcat(doc, pos, [TypeOf(e.value)], e.name + [0] + PutValue(e.value));
    HasConcat(doc, pos + 1, e.name + [0], PutValue(e.value));
    FirstByte(doc, pos, TypeOf(e.value));
    CStringRoundTrip(doc, pos + 1, docLen, e.name);
    SkipLands(doc, pos + 2 + |e.name|, docLen, e.value);
  }

  lemma FirstByte(doc: bytes, pos: nat, b: byte)
    requires Has(doc, pos, [b])
    ensures pos < |doc| && doc[pos] == b
  {
    assert doc[pos] == doc[pos..pos + 1][0];
  }
}
