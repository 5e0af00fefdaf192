/** The RESP2/RESP3 grammar and the round trip of its values without attributes
    (services/db-proxy/redis/protocol.go, lines 32 to 190). */
module RespGrammar {
  import opened Bytes
  import opened Options
  import opened Strconv
  import opened RespReader

  // ---------- the encoding it inverts ----------

  /** RESP2 and RESP3 values, and the plain-text commands some clients send. RESP3 lets an attribute,
      a list of keys and values, stand before any value; it belongs to that value and is not counted as
      an element (`Attributed`). The reader takes it for an element of its own: `Pairs(ATTRIBUTE, _)`
      occurs only among the items the reader sees. */
  datatype Resp =
    | Simple(text: bytes)
    | Error(text: bytes)
    | Integer(i: int)
    | Bulk(body: Option<bytes>)
    | List(kind: byte, elements: seq<Resp>)
    | NullList(kind: byte)
    | Pairs(kind: byte, keysAndValues: seq<Resp>)
    | Attributed(attribute: seq<Resp>, value: Resp)
    | Null
    | Double(text: bytes)
    | Boolean(b: bool)
    | BigNumber(text: bytes)
    | BulkError(body: Option<bytes>)
    | Verbatim(encoding: bytes, content: bytes)
    | NullVerbatim
    | Inline(text: bytes)

  predicate OneLine(s: bytes) { LF !in s }

  ghost predicate WellFormed(isFloat: FloatSyntax, v: Resp)
    decreases v
  {
    match v
    case Simple(t) => OneLine(t)
    case Error(t) => OneLine(t)
    case Integer(i) => MIN_INT64 <= i <= MAX_INT64
    case Bulk(b) => b.Some? ==> |b.value| <= MAX_INT64
    case List(k, vs) => k in {ARRAY, SET, PUSH} && |vs| <= MAX_INT64 && AllWellFormed(isFloat, vs)
    case NullList(k) => k in {ARRAY, SET, PUSH}
    case Pairs(k, vs) => k in {MAP, ATTRIBUTE} && |vs| % 2 == 0 && |vs| <= MAX_INT64 && AllWellFormed(isFloat, vs)
    case Attributed(vs, x) => |vs| % 2 == 0 && |vs| <= MAX_INT64 && AllWellFormed(isFloat, vs) && WellFormed(isFloat, x)
    case Null => true
    case Double(t) => OneLine(t) && isFloat(t).Some?
    case Boolean(_) => true
    case BigNumber(t) => OneLine(t)
    case BulkError(b) => b.Some? ==> |b.value| <= MAX_INT64
    case Verbatim(e, c) => |e| == 3 && |c| <= MAX_INT64 - 4
    case NullVerbatim => true
    case Inline(t) => OneLine(t) && t != [] && t[0] !in PREFIXES
  }

  ghost predicate AllWellFormed(isFloat: FloatSyntax, vs: seq<Resp>)
    decreases vs
  {
    forall i :: 0 <= i < |vs| ==> WellFormed(isFloat, vs[i])
  }

  const CRLF: bytes := [CR, LF]

  function Line(typ: byte, content: bytes): bytes { [typ] + content + CRLF }

  function WithBody(typ: byte, body: Option<bytes>): bytes {
    match body
    case None => Line(typ, FormatInt(-1))
    case Some(b) => Line(typ, FormatInt(|b|)) + (b + CRLF)
  }

  function Encode(v: Resp): bytes
    decreases v
  {
    match v
    case Simple(t) => Line(SIMPLE, t)
    case Error(t) => Line(ERROR, t)
    case Integer(i) => Line(INTEGER, FormatInt(i))
    case Bulk(b) => WithBody(BULK, b)
    case NullList(k) => Line(k, FormatInt(-1))
    case List(k, vs) => Line(k, FormatInt(|vs|)) + EncodeAll(vs)
    case Pairs(k, vs) => Line(k, FormatInt(|vs| / 2)) + EncodeAll(vs)
    case Attributed(vs, x) => Line(ATTRIBUTE, FormatInt(|vs| / 2)) + EncodeAll(vs) + Encode(x)
    case Null => Line(NULL, [])
    case Double(t) => Line(DOUBLE, t)
    case Boolean(b) => Line(BOOLEAN, if b then ['t' as int] else ['f' as int])
    case BigNumber(t) => Line(BIG_NUMBER, t)
    case BulkError(b) => WithBody(BULK_ERROR, b)
    case Verbatim(e, c) => WithBody(VERBATIM, Some(e + [':' as int] + c))
    case NullVerbatim => WithBody(VERBATIM, None)
    case Inline(t) => t + CRLF
  }

  function EncodeAll(vs: seq<Resp>): bytes
    decreases vs
  {
    if vs == [] then [] else Encode(vs[0]) + EncodeAll(vs[1..])
  }

  /** The value as the observer keeps it: bulk errors become errors, verbatim strings lose their
      encoding unless they are empty, inline commands become simple strings, attributes are dropped. */
  function Meaning(isFloat: FloatSyntax, v: Resp): Value
    decreases v
  {
    match v
    case Simple(t) => Text(SIMPLE, t)
    case Error(t) => Text(ERROR, t)
    case Integer(i) => Number(INTEGER, [], i)
    case Bulk(None) => Nil(BULK)
    case Bulk(Some(b)) => Text(BULK, b)
    case NullList(k) => Nil(k)
    case List(k, vs) => Elements(k, MeaningAll(isFloat, vs))
    case Pairs(k, vs) => Elements(k, MeaningAll(isFloat, vs))
    case Attributed(_, x) => Meaning(isFloat, x)
    case Null => Nil(NULL)
    case Double(t) => Number(DOUBLE, t, isFloat(t).GetOr(0))
    case Boolean(b) => if b then Number(BOOLEAN, ['t' as int], 1) else Number(BOOLEAN, ['f' as int], 0)
    case BigNumber(t) => Text(BIG_NUMBER, t)
    case BulkError(None) => Nil(ERROR)
    case BulkError(Some(b)) => Text(ERROR, b)
    case Verbatim(e, c) => Text(BULK, if c == [] then e + [':' as int] else c)
    case NullVerbatim => Nil(BULK)
    case Inline(t) => Text(SIMPLE, t)
  }

  function MeaningAll(isFloat: FloatSyntax, vs: seq<Resp>): (s: seq<Value>)
    ensures |s| == |vs|
    decreases vs
  {
    if vs == [] then [] else [Meaning(isFloat, vs[0])] + MeaningAll(isFloat, vs[1..])
  }

  // ---------- proof ----------

  lemma {:induction false} LineEndsAtLF(content: bytes, rest: bytes)
    requires OneLine(content)
    ensures LineLength(content + [LF] + rest) == Some(|content| + 1)
  {
    if content != [] {
      LineEndsAtLF(content[1..], rest);
      assert (content + [LF] + rest)[1..] == content[1..] + [LF] + rest;
    }
  }

  lemma LineIsRead(text: bytes, rest: bytes)
    requires OneLine(text)
    ensures var s := text + CRLF + rest;
            var n := |text| + 2;
            && LineLength(s) == Some(n) && s[..n] == text + CRLF && s[n..] == rest
            && s[n - 2] == CR && (text != [] ==> s[0] == text[0])
            && (text != [] ==> s[..n][1..n - 2] == text[1..])
            && s[..n][..n - 2] == text
  {
    LineEndsAtLF(text + [CR], rest);
    var s := text + CRLF + rest;
    assert s == (text + [CR]) + [LF] + rest;
  }

  lemma {:induction false} DigitsAreOneLine(n: nat)
    ensures OneLine(FormatNat(n))
  {
  }

  lemma NumbersAreOneLine(i: int)
    ensures OneLine(FormatInt(i))
  {
    DigitsAreOneLine(if i < 0 then -i else i);
  }

  /** A header line with a number, read back. */
  lemma CountIsRead(typ: byte, i: int, rest: bytes)
    requires typ != LF && MIN_INT64 <= i <= MAX_INT64
    ensures var s := Line(typ, FormatInt(i)) + rest;
            var n := |FormatInt(i)| + 3;
            && LineLength(s) == Some(n) && n >= 3 && s[n - 2] == CR && s[..n][0] == typ && s[n..] == rest
            && ParseInt(s[..n][1..n - 2]) == Some(i)
  {
    NumbersAreOneLine(i);
    ParseIntRoundTrip(i);
    hide FormatInt, ParseInt;
    LineIsRead([typ] + FormatInt(i), rest);
    assert ([typ] + FormatInt(i))[1..] == FormatInt(i);
  }

  lemma LineRoundTrip(isFloat: FloatSyntax, typ: byte, content: bytes, rest: bytes)
    requires OneLine(content) && typ !in {LF, BULK, BULK_ERROR, VERBATIM, ARRAY, SET, PUSH, MAP, ATTRIBUTE}
    ensures ReadValue(isFloat, Line(typ, content) + rest) ==
            match LineValue(isFloat, Line(typ, content)) case None => Err case Some(v) => Ok(v, rest)
  {
    hide ParseInt, LineValue;
    LineIsRead([typ] + content, rest);
  }

  lemma BodyRoundTrip(isFloat: FloatSyntax, typ: byte, body: Option<bytes>, rest: bytes)
    requires typ in {BULK, BULK_ERROR, VERBATIM} && (body.Some? ==> |body.value| <= MAX_INT64)
    ensures ReadValue(isFloat, WithBody(typ, body) + rest) ==
            Ok(if body.Some? then BodyValue(typ, body.value) else NilValue(typ), rest)
  {
    hide FormatInt, ParseInt, LineLength, Line, BodyValue;
    match body
    case None => CountIsRead(typ, -1, rest);
    case Some(b) =>
      assert WithBody(typ, body) + rest == Line(typ, FormatInt(|b|)) + (b + CRLF + rest);
      CountIsRead(typ, |b|, b + CRLF + rest);
      assert (b + CRLF + rest)[..|b|] == b;
      assert (b + CRLF + rest)[|b| + 2..] == rest;
  }

  /** No attribute stands before a value anywhere in `v`. */
  predicate Bare(v: Resp) {
    match v
    case List(_, vs) => AllBare(vs)
    case Pairs(_, vs) => AllBare(vs)
    case Attributed(_, _) => false
    case _ => true
  }

  predicate AllBare(vs: seq<Resp>) {
    forall i | 0 <= i < |vs| :: Bare(vs[i])
  }

  /** Reading an encoded value without attributes, followed by anything, returns the value and leaves
      exactly what followed. */
  lemma {:induction false} BareRoundTrip(isFloat: FloatSyntax, v: Resp, rest: bytes)
    requires WellFormed(isFloat, v) && Bare(v)
    ensures ReadValue(isFloat, Encode(v) + rest) == Ok(Meaning(isFloat, v), rest)
    decreases v
  {
    match v
    case List(k, vs) => AggregateRoundTrip(isFloat, k, |vs|, vs, rest);
    case Pairs(k, vs) => AggregateRoundTrip(isFloat, k, |vs| / 2, vs, rest);
    case NullList(k) => AggregateHeader(isFloat, k, -1, rest);
    case Bulk(b) => BodyRoundTrip(isFloat, BULK, b, rest);
    case BulkError(b) => BodyRoundTrip(isFloat, BULK_ERROR, b, rest);
    case Verbatim(e, c) => VerbatimRoundTrip(isFloat, e, c, rest);
    case NullVerbatim => BodyRoundTrip(isFloat, VERBATIM, None, rest);
    case Inline(t) => InlineRoundTrip(isFloat, t, rest);
    case _ => ScalarRoundTrip(isFloat, v, rest);
  }

  lemma VerbatimRoundTrip(isFloat: FloatSyntax, e: bytes, c: bytes, rest: bytes)
    requires |e| == 3 && |c| <= MAX_INT64 - 4
    ensures ReadValue(isFloat, Encode(Verbatim(e, c)) + rest) == Ok(Meaning(isFloat, Verbatim(e, c)), rest)
  {
    hide ReadValue, WithBody;
    var body := e + [':' as int] + c;
    BodyRoundTrip(isFloat, VERBATIM, Some(body), rest);
    assert body[4..] == c && body[3] == ':' as int;
    assert c == [] ==> body == e + [':' as int];
  }

  predicate IsScalar(v: Resp) {
    v.Simple? || v.Error? || v.Integer? || v.Null? || v.Double? || v.Boolean? || v.BigNumber?
  }

  lemma ScalarRoundTrip(isFloat: FloatSyntax, v: Resp, rest: bytes)
    requires WellFormed(isFloat, v) && IsScalar(v)
    ensures ReadValue(isFloat, Encode(v) + rest) == Ok(Meaning(isFloat, v), rest)
  {
    hide ReadValue, ReadMany, ParseInt, FormatInt;
    var typ, content := Encode(v)[0], Encode(v)[1..|Encode(v)| - 2];
    if v.Integer? {
      NumbersAreOneLine(v.i);
      ParseIntRoundTrip(v.i);
    }
    assert Encode(v) == Line(typ, content);
    LineRoundTrip(isFloat, typ, content, rest);
  }

  lemma InlineRoundTrip(isFloat: FloatSyntax, t: bytes, rest: bytes)
    requires OneLine(t) && t != [] && t[0] !in PREFIXES
    ensures ReadValue(isFloat, t + CRLF + rest) == Ok(Text(SIMPLE, t), rest)
  {
    hide ParseInt, LineLength;
    LineIsRead(t, rest);
    assert (t + CRLF)[..|t|] == t;
  }

  lemma AggregateHeader(isFloat: FloatSyntax, k: byte, i: int, rest: bytes)
    requires k in {ARRAY, SET, PUSH, MAP, ATTRIBUTE} && MIN_INT64 <= i <= MAX_INT64
    ensures ReadValue(isFloat, Line(k, FormatInt(i)) + rest) == ReadAggregate(isFloat, k, i, rest)
  {
    hide FormatInt, ParseInt, LineLength, Line, ReadAggregate, ReadBody, LineValue;
    CountIsRead(k, i, rest);
  }

  lemma {:induction false} AggregateRoundTrip(isFloat: FloatSyntax, k: byte, count: nat, vs: seq<Resp>, rest: bytes)
    requires k in {ARRAY, SET, PUSH, MAP, ATTRIBUTE} && |vs| <= MAX_INT64 && AllWellFormed(isFloat, vs) && AllBare(vs)
    requires |vs| == if k in {MAP, ATTRIBUTE} then 2 * count else count
    ensures ReadValue(isFloat, Line(k, FormatInt(count)) + EncodeAll(vs) + rest)
         == Ok(Elements(k, MeaningAll(isFloat, vs)), rest)
    decreases vs, 1
  {
    hide FormatInt, ReadValue, Line, ReadMany, AllWellFormed, AllBare, EncodeAll, MeaningAll;
    ManyRoundTrip(isFloat, vs, rest);
    assert Line(k, FormatInt(count)) + EncodeAll(vs) + rest == Line(k, FormatInt(count)) + (EncodeAll(vs) + rest);
    AggregateHeader(isFloat, k, count, EncodeAll(vs) + rest);
  }

  lemma {:induction false} ManyRoundTrip(isFloat: FloatSyntax, vs: seq<Resp>, rest: bytes)
    requires AllWellFormed(isFloat, vs) && AllBare(vs)
    ensures ReadMany(isFloat, EncodeAll(vs) + rest, |vs|) == Ok(MeaningAll(isFloat, vs), rest)
    decreases vs, 0
  {
    hide ReadValue, Encode, Meaning, WellFormed, Bare;
    if vs == [] {
      assert EncodeAll(vs) + rest == rest;
    } else {
      var tail := EncodeAll(vs[1..]) + rest;
      assert EncodeAll(vs) + rest == Encode(vs[0]) + tail;
      BareRoundTrip(isFloat, vs[0], tail);
      ManyRoundTrip(isFloat, vs[1..], rest);
    }
  }

  /** A verbatim string is read as its content exactly when the content is not empty; an empty one
      keeps its "txt:" prefix. */
  lemma VerbatimKeepsContentIff(isFloat: FloatSyntax, encoding: bytes, content: bytes, rest: bytes)
    requires WellFormed(isFloat, Verbatim(encoding, content))
    ensures ReadValue(isFloat, Encode(Verbatim(encoding, content)) + rest) == Ok(Text(BULK, content), rest)
            <==> content != []
  {
    BareRoundTrip(isFloat, Verbatim(encoding, content), rest);
    hide ReadValue;
  }

  /** The empty verbatim string "=4\r\ntxt:\r\n" is read as the text "txt:". */
  lemma EmptyVerbatimKeepsPrefix(isFloat: FloatSyntax)
    ensures var txt := ['t' as int, 'x' as int, 't' as int];
            ReadValue(isFloat, Encode(Verbatim(txt, []))) == Ok(Text(BULK, txt + [':' as int]), [])
  {
    var txt := ['t' as int, 'x' as int, 't' as int];
    BareRoundTrip(isFloat, Verbatim(txt, []), []);
    hide ReadValue;
    assert Encode(Verbatim(txt, [])) + [] == Encode(Verbatim(txt, []));
  }
}
