/** The recursive RESP2/RESP3 reader (services/db-proxy/redis/protocol.go, lines 32 to 190). */
module RespReader {
  import opened Bytes
  import opened Options
  import opened Strconv

  const CR: byte := 13
  const LF: byte := 10

  const SIMPLE: byte := '+' as int
  const ERROR: byte := '-' as int
  const INTEGER: byte := ':' as int
  const BULK: byte := '$' as int
  const ARRAY: byte := '*' as int
  const MAP: byte := '%' as int
  const SET: byte := '~' as int
  const ATTRIBUTE: byte := '|' as int
  const PUSH: byte := '>' as int
  const NULL: byte := '_' as int
  const DOUBLE: byte := ',' as int
  const BOOLEAN: byte := '#' as int
  const BIG_NUMBER: byte := '(' as int
  const BULK_ERROR: byte := '!' as int
  const VERBATIM: byte := '=' as int

  const PREFIXES := {SIMPLE, ERROR, INTEGER, BULK, ARRAY, MAP, SET, ATTRIBUTE, PUSH, NULL, DOUBLE, BOOLEAN,
                     BIG_NUMBER, BULK_ERROR, VERBATIM}

  /** A parsed value, field by field as the source keeps it. */
  datatype Value = Value(typ: byte, str: bytes, integer: int, items: seq<Value>, isNull: bool)

  function Text(typ: byte, s: bytes): Value { Value(typ, s, 0, [], false) }

  function Number(typ: byte, s: bytes, i: int): Value { Value(typ, s, i, [], false) }

  function Nil(typ: byte): Value { Value(typ, [], 0, [], true) }

  function Elements(typ: byte, vs: seq<Value>): Value { Value(typ, [], 0, vs, false) }

  /** Neither a push nor an attribute: what the relay takes for a reply. */
  predicate IsOrdinary(v: Value) { v.typ != PUSH && v.typ != ATTRIBUTE }

  /** strconv.ParseFloat followed by the conversion to int64, where it succeeds. */
  type FloatSyntax = bytes -> Option<int>

  /** A value and the rest of the stream; an error; or a negative length, on which the code's
      allocation panics. */
  datatype Outcome<+T> = Ok(value: T, rest: bytes) | Err | NegativeLength

  // ---------- the reader as a function ----------

  /** The length of the first line, its LF included. */
  function LineLength(s: bytes): (n: Option<nat>)
    ensures n.Some? ==> 0 < n.value <= |s|
  {
    if s == [] then None
    else if s[0] == LF then Some(1)
    else
      match LineLength(s[1..])
      case None => None
      case Some(n) => Some(n + 1)
  }

  function StripEncoding(s: bytes): bytes {
    if |s| > 4 && s[3] == ':' as int then s[4..] else s
  }

  /** A value that fits on its line. */
  function LineValue(isFloat: FloatSyntax, line: bytes): Option<Value>
    requires |line| >= 3
  {
    var typ, content := line[0], line[1..|line| - 2];
    if typ == INTEGER then
      if ParseInt(content).Some? then Some(Number(typ, [], ParseInt(content).value)) else None
    else if typ == NULL then Some(Nil(typ))
    else if typ == DOUBLE then
      if isFloat(content).Some? then Some(Number(typ, content, isFloat(content).value)) else None
    else if typ == BOOLEAN then Some(Number(typ, content, if content == ['t' as int] then 1 else 0))
    else if typ in {SIMPLE, ERROR, BIG_NUMBER} then Some(Text(typ, content))
    else Some(Text(SIMPLE, line[..|line| - 2]))
  }

  function BodyValue(typ: byte, s: bytes): Value {
    if typ == BULK then Text(BULK, s)
    else if typ == BULK_ERROR then Text(ERROR, s)
    else Text(BULK, StripEncoding(s))
  }

  function NilValue(typ: byte): Value {
    if typ == BULK_ERROR then Nil(ERROR) else if typ == VERBATIM then Nil(BULK) else Nil(typ)
  }

  /** `rest` is what remains of `s` after some bytes were read. */
  predicate EndOf(rest: bytes, s: bytes) {
    |rest| <= |s| && s[|s| - |rest|..] == rest
  }

  function ReadValue(isFloat: FloatSyntax, s: bytes): (o: Outcome<Value>)
    ensures o.Ok? ==> |o.rest| < |s| && EndOf(o.rest, s)
    decreases |s|, 0
  {
    match LineLength(s)
    case None => Err
    case Some(n) =>
      if n < 3 || s[n - 2] != CR then Err else ReadAfterLine(isFloat, s[..n], s[n..])
  }

  function ReadAfterLine(isFloat: FloatSyntax, line: bytes, rest: bytes): (o: Outcome<Value>)
    requires |line| >= 3
    ensures o.Ok? ==> EndOf(o.rest, rest)
    decreases |rest|, 3
  {
    var typ := line[0];
    var count := ParseInt(line[1..|line| - 2]);
    if typ in {BULK, BULK_ERROR, VERBATIM} then
      if count == None then Err else ReadBody(typ, count.value, rest)
    else if typ in {ARRAY, SET, PUSH, MAP, ATTRIBUTE} then
      if count == None then Err else ReadAggregate(isFloat, typ, count.value, rest)
    else
      match LineValue(isFloat, line)
      case None => Err
      case Some(v) => Ok(v, rest)
  }

  function ReadBody(typ: byte, length: int, rest: bytes): (o: Outcome<Value>)
    ensures o.Ok? ==> EndOf(o.rest, rest)
  {
    if length == -1 then Ok(NilValue(typ), rest)
    else if length < 0 then NegativeLength
    else if |rest| < length + 2 then Err
    else Ok(BodyValue(typ, rest[..length]), rest[length + 2..])
  }

  function ReadAggregate(isFloat: FloatSyntax, typ: byte, count: int, rest: bytes): (o: Outcome<Value>)
    ensures o.Ok? ==> EndOf(o.rest, rest)
    decreases |rest|, 2
  {
    if typ !in {MAP, ATTRIBUTE} && count == -1 then Ok(Nil(typ), rest)
    else if count < 0 then NegativeLength
    else
      match ReadMany(isFloat, rest, if typ in {MAP, ATTRIBUTE} then 2 * count else count)
      case Ok(vs, after) => Ok(Elements(typ, vs), after)
      case Err => Err
      case NegativeLength => NegativeLength
  }

  function ReadMany(isFloat: FloatSyntax, s: bytes, n: nat): (o: Outcome<seq<Value>>)
    ensures o.Ok? ==> EndOf(o.rest, s)
    decreases |s|, 1
  {
    if n == 0 then Ok([], s)
    else
      match ReadValue(isFloat, s)
      case Err => Err
      case NegativeLength => NegativeLength
      case Ok(v, rest) =>
        match ReadMany(isFloat, rest, n - 1)
        case Err => Err
        case NegativeLength => NegativeLength
        case Ok(vs, after) => Ok([v] + vs, after)
  }

  // ---------- the reader as the source runs it ----------

  /** The buffered connection: what has not been read yet. */
  class Stream {
    var rest: bytes

    constructor (bs: bytes)
      ensures rest == bs
    {
      rest := bs;
    }

    method ReadLine() returns (line: Option<bytes>)
      modifies this
      ensures match LineLength(old(rest))
              case None => line == None
              case Some(n) => line == Some(old(rest)[..n]) && rest == old(rest)[n..]
    {
      var i := 0;
      while i < |rest|
        invariant 0 <= i <= |rest|
        invariant match LineLength(rest[i..])
                  case None => LineLength(rest) == None
                  case Some(n) => LineLength(rest) == Some(i + n)
      {
        if rest[i] == LF {
          line := Some(rest[..i + 1]);
          rest := rest[i + 1..];
          return;
        }
        assert rest[i..][1..] == rest[i + 1..];
        i := i + 1;
      }
      return None;
    }

    method ReadFull(n: nat) returns (b: Option<bytes>)
      modifies this
      ensures b == (if |old(rest)| < n then None else Some(old(rest)[..n]))
      ensures b.Some? ==> rest == old(rest)[n..]
    {
      if |rest| < n {
        return None;
      }
      b := Some(rest[..n]);
      rest := rest[n..];
    }
  }

  /** The bytes accumulated for forwarding. */
  class RawBuffer {
    var data: bytes

    constructor ()
      ensures data == []
    {
      data := [];
    }
  }

  /** What a read leaves behind: the value of the function, the stream where the function stops,
      and every consumed byte in the raw buffer. */
  ghost predicate Performed<T>(result: Outcome<T>, rest: bytes, raw: bytes, spec: Outcome<T>, rest0: bytes, raw0: bytes) {
    match spec
    case Ok(v, after) => result.Ok? && result.value == v && rest == after && raw + rest == raw0 + rest0
    case Err => result.Err?
    case NegativeLength => result.NegativeLength?
  }

  method ReadRespInner(isFloat: FloatSyntax, r: Stream, raw: RawBuffer) returns (result: Outcome<Value>)
    modifies r, raw
    ensures Performed(result, r.rest, raw.data, ReadValue(isFloat, old(r.rest)), old(r.rest), old(raw.data))
    decreases |r.rest|, 0
  {
    hide ReadAfterLine;
    var line := r.ReadLine();
    if line == None {
      return Err;
    }
    raw.data := raw.data + line.value;
    assert raw.data + r.rest == old(raw.data) + old(r.rest);
    if |line.value| < 3 || line.value[|line.value| - 2] != CR {
      return Err;
    }
    result := ReadTyped(isFloat, line.value, r, raw);
  }

  /** The switch on the type byte. */
  method ReadTyped(isFloat: FloatSyntax, line: bytes, r: Stream, raw: RawBuffer) returns (result: Outcome<Value>)
    requires |line| >= 3
    modifies r, raw
    ensures Performed(result, r.rest, raw.data, ReadAfterLine(isFloat, line, old(r.rest)), old(r.rest), old(raw.data))
    decreases |r.rest|, 3
  {
    hide ParseInt, LineValue;
    var typ := line[0];
    var count := ParseInt(line[1..|line| - 2]);
    if typ in {BULK, BULK_ERROR, VERBATIM} {
      if count == None {
        return Err;
      }
      result := ReadBodyInto(typ, count.value, r, raw);
    } else if typ in {ARRAY, SET, PUSH, MAP, ATTRIBUTE} {
      if count == None {
        return Err;
      }
      if typ !in {MAP, ATTRIBUTE} && count.value == -1 {
        return Ok(Nil(typ), r.rest);
      }
      if count.value < 0 {
        return NegativeLength;
      }
      var vs := ReadElements(isFloat, r, raw, if typ in {MAP, ATTRIBUTE} then 2 * count.value else count.value);
      match vs
      case Ok(elements, _) => return Ok(Elements(typ, elements), r.rest);
      case Err => return Err;
      case NegativeLength => return NegativeLength;
    } else {
      var v := LineValue(isFloat, line);
      return if v == None then Err else Ok(v.value, r.rest);
    }
  }

  method ReadBodyInto(typ: byte, length: int, r: Stream, raw: RawBuffer) returns (result: Outcome<Value>)
    modifies r, raw
    ensures Performed(result, r.rest, raw.data, ReadBody(typ, length, old(r.rest)), old(r.rest), old(raw.data))
  {
    if length == -1 {
      return Ok(NilValue(typ), r.rest);
    }
    if length < 0 {
      return NegativeLength;
    }
    var buf := r.ReadFull(length + 2);
    if buf == None {
      return Err;
    }
    raw.data := raw.data + buf.value;
    assert buf.value[..length] == old(r.rest)[..length];
    return Ok(BodyValue(typ, buf.value[..length]), r.rest);
  }

  /** The loop that fills the elements of an aggregate. */
  method ReadElements(isFloat: FloatSyntax, r: Stream, raw: RawBuffer, n: nat) returns (result: Outcome<seq<Value>>)
    modifies r, raw
    ensures Performed(result, r.rest, raw.data, ReadMany(isFloat, old(r.rest), n), old(r.rest), old(raw.data))
    decreases |r.rest|, 1
  {
    hide ReadValue;
    var elements: seq<Value> := [];
    InFrontOfNone(ReadMany(isFloat, r.rest, n));
    for i := 0 to n
      invariant |r.rest| <= |old(r.rest)|
      invariant raw.data + r.rest == old(raw.data) + old(r.rest)
      invariant InFront(elements, ReadMany(isFloat, r.rest, n - i)) == ReadMany(isFloat, old(r.rest), n)
    {
      ghost var rest, data := r.rest, raw.data;
      var v := ReadRespInner(isFloat, r, raw);
      match v
      case Err => return Err;
      case NegativeLength => return NegativeLength;
      case Ok(value, _) =>
        InFrontTwice(elements, value, ReadMany(isFloat, r.rest, n - i - 1));
        elements := elements + [value];
    }
    assert elements + [] == elements;
    return Ok(elements, r.rest);
  }

  lemma InFrontOfNone(o: Outcome<seq<Value>>)
    ensures InFront([], o) == o
  {
    if o.Ok? {
      assert [] + o.value == o.value;
    }
  }

  function InFront(vs: seq<Value>, o: Outcome<seq<Value>>): Outcome<seq<Value>> {
    match o
    case Ok(more, rest) => Ok(vs + more, rest)
    case Err => Err
    case NegativeLength => NegativeLength
  }

  lemma InFrontTwice(vs: seq<Value>, v: Value, o: Outcome<seq<Value>>)
    ensures InFront(vs, InFront([v], o)) == InFront(vs + [v], o)
  {
    if o.Ok? {
      assert vs + ([v] + o.value) == vs + [v] + o.value;
    }
  }

  /** One top-level value and exactly the bytes it was read from. */
  method ReadResp(isFloat: FloatSyntax, r: Stream) returns (result: Outcome<Value>, rawBytes: bytes)
    modifies r
    ensures Performed(result, r.rest, rawBytes, ReadValue(isFloat, old(r.rest)), old(r.rest), [])
  {
    var raw := new RawBuffer();
    result := ReadRespInner(isFloat, r, raw);
    rawBytes := raw.data;
  }
}
