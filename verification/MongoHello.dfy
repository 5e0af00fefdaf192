/** Removing the "compression" element from a hello response on the wire, and reading the outcome
    fields of a response (services/db-proxy/mongo/protocol.go, lines 403 to 502 and 911 to 996). */
module MongoHello {
  import opened Bytes
  import opened Options
  import opened Bson

  const HEADER_SIZE := 16

  const COMPRESSION: bytes := ['c' as int, 'o' as int, 'm' as int, 'p' as int, 'r' as int, 'e' as int,
                               's' as int, 's' as int, 'i' as int, 'o' as int, 'n' as int]

  // ---------- the scan ----------

  /** The extent of the first element named "compression" that the scan from `pos` reaches. */
  function Find(doc: bytes, docLen: nat, pos: nat): Option<(nat, nat)>
    requires docLen <= |doc|
    decreases docLen - pos
  {
    if pos + 1 >= docLen then None
    else
      var (name, at) := CString(doc, pos + 1, docLen);
      if name == [] then None
      else
        match Skip(doc[pos], doc, at, docLen)
        case None => None
        case Some(next) => if name == COMPRESSION then Some((pos, next)) else Find(doc, docLen, next)
  }

  /** The message to forward, or an element end beyond the message, where the code's slicing panics. */
  datatype Stripped = Forward(out: bytes) | OutOfRange

  /** The rebuilt message around a document without its bytes `start` up to `end`. */
  function Rebuilt(raw: bytes, start: nat, end: nat): bytes
    requires |raw| >= HEADER_SIZE + 5 && 4 <= start <= end <= |raw| - HEADER_SIZE - 5
  {
    var doc := raw[HEADER_SIZE + 5..];
    var cut := doc[..start] + doc[end..];
    var newDoc := LE(|cut| % LIMIT, 4) + cut[4..];
    var flags := raw[HEADER_SIZE..HEADER_SIZE + 4];
    var result := raw[..HEADER_SIZE] + flags + [0] + newDoc + (if FromLE(flags) % 2 == 1 then [0, 0, 0, 0] else []);
    LE(|result| % LIMIT, 4) + result[4..]
  }

  function Strip(raw: bytes): Stripped {
    if |raw| < HEADER_SIZE + 5 || raw[HEADER_SIZE + 4] != 0 then Forward(raw)
    else
      var doc := raw[HEADER_SIZE + 5..];
      if |doc| < 5 || U32At(doc, 0) < 5 || U32At(doc, 0) > |doc| then Forward(raw)
      else
        match Find(doc, U32At(doc, 0), 4)
        case None => Forward(raw)
        case Some((start, end)) =>
          if end > |doc| || start < 4 || end < start then OutOfRange else Forward(Rebuilt(raw, start, end))
  }

  method StripCompressionFromHello(raw: bytes) returns (r: Stripped)
    ensures r == Strip(raw)
  {
    hide CString, Skip, LE;
    if |raw| < HEADER_SIZE + 5 {
      return Forward(raw);
    }
    if raw[HEADER_SIZE + 4] != 0 {
      return Forward(raw);
    }
    var bsonDoc := raw[HEADER_SIZE + 5..];
    if |bsonDoc| < 5 {
      return Forward(raw);
    }
    var docLen := U32At(bsonDoc, 0);
    if docLen < 5 || docLen > |bsonDoc| {
      return Forward(raw);
    }
    var pos := 4;
    while pos + 1 < docLen
      invariant 4 <= pos
      invariant Find(bsonDoc, docLen, pos) == Find(bsonDoc, docLen, 4)
      decreases docLen - pos
    {
      var elemStart := pos;
      var elemType := bsonDoc[pos];
      var fieldName, newPos := ReadCString(bsonDoc, pos + 1, docLen);
      if fieldName == [] {
        break;
      }
      var nextPos := Skip(elemType, bsonDoc, newPos, docLen);
      if nextPos == None {
        break;
      }
      if fieldName == COMPRESSION {
        if nextPos.value > |bsonDoc| {
          return OutOfRange;
        }
        return Forward(Rebuilt(raw, elemStart, nextPos.value));
      }
      pos := nextPos.value;
    }
    return Forward(raw);
  }

  // ---------- what stripping means ----------

  /** The index of the element to remove: the first named "compression", unless an element with an
      empty name stops the scan before it. */
  function Target(es: seq<Element>): (k: Option<nat>)
    ensures k.Some? ==> k.value < |es|
  {
    if es == [] || es[0].name == [] then None
    else if es[0].name == COMPRESSION then Some(0)
    else
      match Target(es[1..])
      case None => None
      case Some(k) => Some(k + 1)
  }

  lemma {:induction false} TargetIsFirst(es: seq<Element>, k: nat)
    requires k < |es|
    ensures Target(es) == Some(k) <==>
            es[k].name == COMPRESSION && forall j :: 0 <= j < k ==> es[j].name != COMPRESSION && es[j].name != []
  {
    if k > 0 && es[0].name != [] && es[0].name != COMPRESSION {
      TargetIsFirst(es[1..], k - 1);
      assert es[1..][k - 1] == es[k];
      assert forall j :: 0 < j < k ==> es[j] == es[1..][j - 1];
      if forall j :: 0 <= j < k ==> es[j].name != COMPRESSION && es[j].name != [] {
        forall j | 0 <= j < k - 1 ensures es[1..][j].name != COMPRESSION && es[1..][j].name != [] {
          assert es[1..][j] == es[j + 1];
        }
      }
    }
  }

  function Without<T>(s: seq<T>, k: nat): seq<T>
    requires k < |s|
  {
    s[..k] + s[k + 1..]
  }

  predicate ValidElements(es: seq<Element>) {
    forall i :: 0 <= i < |es| ==> ValidElement(es[i])
  }

  /** An OP_MSG with a document body and whatever follows it. */
  function Message(header: bytes, flags: bytes, es: seq<Element>, trailing: bytes): bytes {
    header + flags + [0] + PutDocument(es) + trailing
  }

  lemma {:induction false} FindLands(doc: bytes, docLen: nat, pos: nat, es: seq<Element>)
    requires ValidElements(es) && docLen <= |doc| && |PutElements(es)| < LIMIT
    requires Has(doc, pos, PutElements(es)) && pos + |PutElements(es)| + 1 == docLen
    ensures Find(doc, docLen, pos) ==
            match Target(es)
            case None => None
            case Some(k) => Some((pos + |PutElements(es[..k])|, pos + |PutElements(es[..k + 1])|))
    decreases |es|
  {
    hide Has, CString, Skip, PutElement, ValidElement, COMPRESSION;
    if es != [] {
      var e, next := es[0], pos + |PutElement(es[0])|;
      var at := pos + 2 + |e.name|;
      HasConcat(doc, pos, PutElement(e), PutElements(es[1..]));
      ElementIsRead(doc, pos, docLen, e);
      FindLands(doc, docLen, next, es[1..]);
      assert es[..1] == [e];
      OneElement(e);
      if e.name != [] && e.name != COMPRESSION && Target(es[1..]).Some? {
        var k := Target(es[1..]).value;
        TakeElements(es, k);
        TakeElements(es, k + 1);
      }
    }
  }

  lemma OneElement(e: Element)
    ensures PutElements([e]) == PutElement(e) && PutElements([]) == []
  {
    assert [e][1..] == [];
    assert PutElements([e]) == PutElement(e) + PutElements([]);
  }

  lemma TakeElements(es: seq<Element>, k: nat)
    requires k < |es|
    ensures PutElements(es[..k + 1]) == PutElement(es[0]) + PutElements(es[1..][..k])
  {
    assert es[..k + 1][1..] == es[1..][..k];
  }

  lemma {:induction false} PutElementsConcat(a: seq<Element>, b: seq<Element>)
    ensures PutElements(a + b) == PutElements(a) + PutElements(b)
  {
    hide PutElement;
    if a == [] {
      assert a + b == b;
    } else {
      PutElementsConcat(a[1..], b);
      assert (a + b)[1..] == a[1..] + b;
    }
  }

  lemma {:induction false} ElementsSplit(es: seq<Element>, k: nat)
    requires k < |es|
    ensures PutElements(es) == PutElements(es[..k]) + PutElement(es[k]) + PutElements(es[k + 1..])
    ensures PutElements(es[..k + 1]) == PutElements(es[..k]) + PutElement(es[k])
    ensures PutElements(Without(es, k)) == PutElements(es[..k]) + PutElements(es[k + 1..])
  {
    OneElement(es[k]);
    PutElementsConcat(es[..k], [es[k]]);
    PutElementsConcat(es[..k], es[k + 1..]);
    PutElementsConcat(es[..k] + [es[k]], es[k + 1..]);
    assert es[..k + 1] == es[..k] + [es[k]];
    assert es == es[..k] + [es[k]] + es[k + 1..];
  }

  /** Cutting the target's extent out of the document leaves the encoding of the other elements,
      under the length the code writes. */
  lemma CutDocument(es: seq<Element>, k: nat, trailing: bytes)
    requires k < |es|
    ensures var doc := PutDocument(es) + trailing;
            var start, end := 4 + |PutElements(es[..k])|, 4 + |PutElements(es[..k + 1])|;
            && start <= end <= |doc|
            && (doc[..start] + doc[end..])[4..] == PutElements(Without(es, k)) + [0] + trailing
  {
    hide PutElements, PutElement, LE;
    ElementsSplit(es, k);
    var a, b, c := PutElements(es[..k]), PutElement(es[k]), PutElements(es[k + 1..]);
    var doc := PutDocument(es) + trailing;
    var length := LE(|PutElements(es)| + 5, 4);
    var start, end := 4 + |a|, 4 + |a| + |b|;
    assert doc == length + a + b + (c + [0] + trailing);
    assert doc[..start] == length + a;
    assert doc[end..] == c + [0] + trailing;
    assert (length + a + (c + [0] + trailing))[4..] == a + (c + [0] + trailing);
  }

  /** Stripping a well-formed message: the first "compression" element is gone, every other element
      keeps its bytes and its place, the message length is right, and the document-length field
      counts the document and whatever follows it. Without a target the message is unchanged. */
  lemma StripRemovesTheElement(header: bytes, flags: bytes, es: seq<Element>, trailing: bytes)
    requires |header| == HEADER_SIZE && |flags| == 4 && ValidElements(es)
    requires |Message(header, flags, es, trailing)| + 4 < LIMIT
    ensures Strip(Message(header, flags, es, trailing)) ==
            match Target(es)
            case None => Forward(Message(header, flags, es, trailing))
            case Some(k) =>
              var checksum := if FromLE(flags) % 2 == 1 then [0, 0, 0, 0] else [];
              var body := PutElements(Without(es, k)) + [0] + trailing;
              var rest := flags + [0] + (LE(|body| + 4, 4) + body) + checksum;
              Forward(LE(HEADER_SIZE + |rest|, 4) + header[4..] + rest)
  {
    hide PutElements, PutDocument, LE, FromLE, U32At, Find, Target, ValidElements, Without, Rebuilt;
    var doc := PutDocument(es) + trailing;
    MessageLayout(header, flags, es, trailing);
    TargetIsFound(es, trailing);
    if Target(es).Some? {
      var k := Target(es).value;
      CutDocument(es, k, trailing);
      RebuiltMessage(header, flags, doc, 4 + |PutElements(es[..k])|, 4 + |PutElements(es[..k + 1])|);
    }
  }

  lemma TargetIsFound(es: seq<Element>, trailing: bytes)
    requires ValidElements(es) && |PutDocument(es)| < LIMIT
    ensures Find(PutDocument(es) + trailing, |PutDocument(es)|, 4) ==
            match Target(es)
            case None => None
            case Some(k) => Some((4 + |PutElements(es[..k])|, 4 + |PutElements(es[..k + 1])|))
  {
    hide PutElements, LE, Find, Target, ValidElements, Has;
    var length := LE(|PutElements(es)| + 5, 4);
    assert PutDocument(es) + trailing == length + PutElements(es) + ([0] + trailing);
    HasWhole(length, PutElements(es), [0] + trailing);
    FindLands(PutDocument(es) + trailing, |PutDocument(es)|, 4, es);
  }

  lemma MessageLayout(header: bytes, flags: bytes, es: seq<Element>, trailing: bytes)
    requires |header| == HEADER_SIZE && |flags| == 4 && |PutDocument(es)| < LIMIT
    ensures var raw := Message(header, flags, es, trailing);
            && |raw| >= HEADER_SIZE + 10 && raw[HEADER_SIZE + 4] == 0
            && raw[HEADER_SIZE + 5..] == PutDocument(es) + trailing
            && raw == header + flags + [0] + (PutDocument(es) + trailing)
            && U32At(PutDocument(es) + trailing, 0) == |PutDocument(es)| >= 5
  {
    hide PutDocument, PutElements, LE, FromLE, Has, U32At;
    var enc := PutDocument(es);
    DocumentAtFront(es, trailing);
    DropFront(header + flags + [0], enc + trailing);
    assert header + flags + [0] + enc + trailing == header + flags + [0] + (enc + trailing);
  }

  lemma DropFront(a: bytes, b: bytes)
    ensures (a + b)[|a|..] == b
  {
  }

  lemma DocumentAtFront(es: seq<Element>, trailing: bytes)
    requires |PutDocument(es)| < LIMIT
    ensures U32At(PutDocument(es) + trailing, 0) == |PutDocument(es)| >= 5
  {
    hide PutDocument, Has, U32At;
    assert PutDocument(es) + trailing == [] + PutDocument(es) + trailing;
    HasWhole([], PutDocument(es), trailing);
    DocumentSkipLands(PutDocument(es) + trailing, 0, es);
  }

  lemma RebuiltMessage(header: bytes, flags: bytes, doc: bytes, start: nat, end: nat)
    requires |header| == HEADER_SIZE && |flags| == 4 && 4 <= start <= end <= |doc| && |doc| + 25 < LIMIT
    ensures var cut := doc[..start] + doc[end..];
            var checksum := if FromLE(flags) % 2 == 1 then [0, 0, 0, 0] else [];
            var rest := flags + [0] + (LE(|cut|, 4) + cut[4..]) + checksum;
            Rebuilt(header + flags + [0] + doc, start, end) == LE(HEADER_SIZE + |rest|, 4) + header[4..] + rest
  {
    hide LE, FromLE;
    var raw := header + flags + [0] + doc;
    assert raw[HEADER_SIZE + 5..] == doc;
    assert raw[HEADER_SIZE..HEADER_SIZE + 4] == flags;
    assert raw[..HEADER_SIZE] == header;
    var cut := doc[..start] + doc[end..];
    var checksum := if FromLE(flags) % 2 == 1 then [0, 0, 0, 0] else [];
    var rest := flags + [0] + (LE(|cut|, 4) + cut[4..]) + checksum;
    var result := header + flags + [0] + (LE(|cut|, 4) + cut[4..]) + checksum;
    assert result == header + rest;
    assert result[4..] == header[4..] + rest;
    assert |cut| % LIMIT == |cut| && |result| % LIMIT == |result|;
  }

  /** On a message its document fills, without a checksum, the result is exactly the encoding of the
      same message without the element. */
  lemma StripPreservesTheRest(header: bytes, flags: bytes, es: seq<Element>, k: nat)
    requires |header| == HEADER_SIZE && |flags| == 4 && ValidElements(es)
    requires |Message(header, flags, es, [])| + 4 < LIMIT
    requires Target(es) == Some(k) && FromLE(flags) % 2 == 0
    ensures var out := Message(LE(|Message(header, flags, Without(es, k), [])|, 4) + header[4..], flags, Without(es, k), []);
            Strip(Message(header, flags, es, [])) == Forward(out)
  {
    hide Strip, PutElements, LE, FromLE, Target, ValidElements, Without;
    StripRemovesTheElement(header, flags, es, []);
    var body := PutElements(Without(es, k)) + [0];
    assert PutElements(Without(es, k)) + [0] + [] == body;
    var rest := flags + [0] + (LE(|body| + 4, 4) + body) + [];
    assert PutDocument(Without(es, k)) + [] == LE(|body| + 4, 4) + body;
    assert |Message(header, flags, Without(es, k), [])| == HEADER_SIZE + |rest|;
    var length := LE(HEADER_SIZE + |rest|, 4);
    assert length + header[4..] + rest == length + header[4..] + flags + [0] + PutDocument(Without(es, k)) + [];
  }

  /** The document-length field of a stripped message is right exactly when nothing follows the
      document: a checksum or a further section is counted into it. */
  lemma StrippedLengthIsRightIff(header: bytes, flags: bytes, es: seq<Element>, trailing: bytes)
    requires |header| == HEADER_SIZE && |flags| == 4 && ValidElements(es)
    requires |Message(header, flags, es, trailing)| + 4 < LIMIT && Target(es).Some?
    ensures var out := Strip(Message(header, flags, es, trailing));
            && out.Forward? && |out.out| >= HEADER_SIZE + 9
            && (U32At(out.out, HEADER_SIZE + 5) == |PutDocument(Without(es, Target(es).value))| <==> trailing == [])
  {
    hide Strip, PutElements, Target, ValidElements, Without, LE, FromLE;
    StripRemovesTheElement(header, flags, es, trailing);
    var k := Target(es).value;
    var checksum := if FromLE(flags) % 2 == 1 then [0, 0, 0, 0] else [];
    var body := PutElements(Without(es, k)) + [0] + trailing;
    var rest := flags + [0] + (LE(|body| + 4, 4) + body) + checksum;
    var front := LE(HEADER_SIZE + |rest|, 4) + header[4..] + flags + [0];
    var out := Strip(Message(header, flags, es, trailing)).out;
    assert out == front + LE(|body| + 4, 4) + (body + checksum);
    SmallerWithout(es, k);
    Pow256Values();
    LERoundTrip(|body| + 4, 4);
    assert out[HEADER_SIZE + 5..HEADER_SIZE + 9] == LE(|body| + 4, 4);
  }

  /** A hello whose one element is "compression", followed by a checksum: the length field of the
      stripped document says 9 and the document is 5 bytes long. */
  lemma ChecksumIsCountedIn(header: bytes, checksum: bytes)
    requires |header| == HEADER_SIZE && |checksum| == 4
    ensures var es := [Element(COMPRESSION, Null)];
            var out := Strip(Message(header, [1, 0, 0, 0], es, checksum));
            && out.Forward? && |out.out| >= HEADER_SIZE + 9
            && U32At(out.out, HEADER_SIZE + 5) != |PutDocument([])| == 5
  {
    var es := [Element(COMPRESSION, Null)];
    assert Target(es) == Some(0);
    assert Without(es, 0) == [];
    OneElement(es[0]);
    assert PutElements(es) == PutElement(es[0]);
    assert |COMPRESSION| == 11;
    StrippedLengthIsRightIff(header, [1, 0, 0, 0], es, checksum);
  }

  lemma SmallerWithout(es: seq<Element>, k: nat)
    requires k < |es|
    ensures |PutElements(Without(es, k))| <= |PutElements(es)|
  {
    hide PutElement, PutElements;
    ElementsSplit(es, k);
  }

  // ---------- outcome fields ----------

  datatype OkField = NoOk | OkDouble(bits: nat) | OkInt(i: int)

  datatype NField = NoN | NInt(i: int) | NDouble(bits: nat)

  /** The fields of a response: `ok`, `n` and `errmsg`, later elements over earlier ones. */
  datatype Fields = Fields(ok: OkField, n: NField, errmsg: bytes)

  const OK: bytes := ['o' as int, 'k' as int]
  const N: bytes := ['n' as int]
  const ERRMSG: bytes := ['e' as int, 'r' as int, 'r' as int, 'm' as int, 's' as int, 'g' as int]

  function IntAt(doc: bytes, pos: nat, w: nat): int
    requires 0 < w && pos + w <= |doc|
  {
    FromLEBound(doc[pos..pos + w]);
    Signed(FromLE(doc[pos..pos + w]), w)
  }

  /** readBSONString: the text without its terminator, empty when it does not fit. */
  function StringAt(doc: bytes, pos: nat, docLen: nat): bytes {
    if pos + 4 > |doc| || pos + 4 > docLen then []
    else
      var n := U32At(doc, pos);
      if n == 0 || pos + 4 + n > |doc| || pos + 4 + n > docLen then [] else doc[pos + 4..pos + 4 + n - 1]
  }

  function WithField(f: Fields, name: bytes, elemType: byte, doc: bytes, pos: nat, docLen: nat): Fields {
    if name == OK then
      if elemType == DOUBLE && pos + 8 <= |doc| then f.(ok := OkDouble(FromLE(doc[pos..pos + 8])))
      else if elemType == INT32 && pos + 4 <= |doc| then f.(ok := OkInt(IntAt(doc, pos, 4)))
      else if elemType == INT64 && pos + 8 <= |doc| then f.(ok := OkInt(IntAt(doc, pos, 8)))
      else f
    else if name == N then
      if elemType == INT32 && pos + 4 <= |doc| then f.(n := NInt(IntAt(doc, pos, 4)))
      else if elemType == INT64 && pos + 8 <= |doc| then f.(n := NInt(IntAt(doc, pos, 8)))
      else if elemType == DOUBLE && pos + 8 <= |doc| then f.(n := NDouble(FromLE(doc[pos..pos + 8])))
      else f
    else if name == ERRMSG && elemType == STRING then f.(errmsg := StringAt(doc, pos, docLen))
    else f
  }

  function ScanFields(f: Fields, doc: bytes, docLen: nat, pos: nat): Fields
    requires docLen <= |doc|
    decreases docLen - pos
  {
    if pos + 1 >= docLen then f
    else
      var (name, at) := CString(doc, pos + 1, docLen);
      if name == [] then f
      else
        var f' := WithField(f, name, doc[pos], doc, at, docLen);
        match Skip(doc[pos], doc, at, docLen)
        case None => f'
        case Some(next) => ScanFields(f', doc, docLen, next)
  }

  function ResponseFields(doc: bytes): Fields {
    if |doc| < 5 || U32At(doc, 0) < 5 || U32At(doc, 0) > |doc| then Fields(NoOk, NoN, [])
    else ScanFields(Fields(NoOk, NoN, []), doc, U32At(doc, 0), 4)
  }

  method ExtractResponseFields(doc: bytes) returns (info: Fields)
    ensures info == ResponseFields(doc)
  {
    hide CString, Skip, WithField;
    info := Fields(NoOk, NoN, []);
    if |doc| < 5 {
      return;
    }
    var docLen := U32At(doc, 0);
    if docLen < 5 || docLen > |doc| {
      return;
    }
    var pos := 4;
    while pos + 1 < docLen
      invariant 4 <= pos
      invariant ScanFields(info, doc, docLen, pos) == ResponseFields(doc)
      decreases docLen - pos
    {
      var fieldName, at := ReadCString(doc, pos + 1, docLen);
      if fieldName == [] {
        break;
      }
      info := WithField(info, fieldName, doc[pos], doc, at, docLen);
      var next := Skip(doc[pos], doc, at, docLen);
      if next == None {
        return;
      }
      pos := next.value;
    }
  }

  /** What an element says about the outcome, read from the element itself. */
  function Told(f: Fields, e: Element): Fields
    requires ValidElement(e)
  {
    if e.name == OK && e.value.Double? then f.(ok := OkDouble(FromLE(e.value.raw)))
    else if e.name == OK && (e.value.Int32? || e.value.Int64?) then
      FromLEBound(e.value.raw);
      f.(ok := OkInt(Signed(FromLE(e.value.raw), |e.value.raw|)))
    else if e.name == N && e.value.Double? then f.(n := NDouble(FromLE(e.value.raw)))
    else if e.name == N && (e.value.Int32? || e.value.Int64?) then
      FromLEBound(e.value.raw);
      f.(n := NInt(Signed(FromLE(e.value.raw), |e.value.raw|)))
    else if e.name == ERRMSG && e.value.Str? then f.(errmsg := e.value.text)
    else f
  }

  function ToldAll(f: Fields, es: seq<Element>): Fields
    requires ValidElements(es)
    decreases |es|
  {
    if es == [] then f else ToldAll(Told(f, es[0]), es[1..])
  }

  lemma FieldIsRead(f: Fields, doc: bytes, at: nat, docLen: nat, e: Element)
    requires ValidElement(e) && |PutValue(e.value)| < LIMIT && Has(doc, at, PutValue(e.value))
    requires at + |PutValue(e.value)| < docLen <= |doc|
    ensures WithField(f, e.name, TypeOf(e.value), doc, at, docLen) == Told(f, e)
  {
    hide FromLE, Signed, LE;
    match e.value
    case Str(s) => TextIsRead(doc, at, docLen, s);
    case Double(raw) =>
    case Int32(raw) =>
    case Int64(raw) =>
    case _ =>
  }

  lemma SliceOfSlice(s: bytes, a: nat, n: nat, i: nat, j: nat)
    requires a + n <= |s| && i <= j <= n
    ensures s[a..a + n][i..j] == s[a + i..a + j]
  {
    var l, r := s[a..a + n][i..j], s[a + i..a + j];
    assert |l| == |r|;
    forall k | 0 <= k < |l| ensures l[k] == r[k] {
      assert l[k] == s[a..a + n][i + k] == s[a + i + k];
    }
  }

  lemma TextIsRead(doc: bytes, at: nat, docLen: nat, s: bytes)
    requires |PutString(s)| < LIMIT && Has(doc, at, PutString(s)) && at + |PutString(s)| < docLen <= |doc|
    ensures StringAt(doc, at, docLen) == s
  {
    StringSkipLands(doc, at, s, []);
    hide FromLE, LE, U32At;
    var enc := PutString(s);
    assert doc[at..at + |enc|] == enc;
    assert enc[4..4 + |s|] == s;
    SliceOfSlice(doc, at, |enc|, 4, 4 + |s|);
  }

  lemma {:induction false} FieldsAreRead(f: Fields, doc: bytes, docLen: nat, pos: nat, es: seq<Element>)
    requires ValidElements(es) && docLen <= |doc| && |PutElements(es)| < LIMIT
    requires forall i :: 0 <= i < |es| ==> es[i].name != []
    requires Has(doc, pos, PutElements(es)) && pos + |PutElements(es)| + 1 == docLen
    ensures ScanFields(f, doc, docLen, pos) == ToldAll(f, es)
    decreases |es|
  {
    hide Has, CString, Skip, ValidElement, WithField, Told, PutValue, TypeOf;
    if es != [] {
      var e := es[0];
      var at := pos + 2 + |e.name|;
      HasConcat(doc, pos, PutElement(e), PutElements(es[1..]));
      ElementIsRead(doc, pos, docLen, e);
      FieldIsRead(f, doc, at, docLen, e);
      FieldsAreRead(Told(f, e), doc, docLen, pos + |PutElement(e)|, es[1..]);
    }
  }

  /** The outcome fields of any well-formed response document are the ones its elements tell. */
  lemma ResponseFieldsAreRead(es: seq<Element>, trailing: bytes)
    requires ValidElements(es) && |PutDocument(es)| < LIMIT
    requires forall i :: 0 <= i < |es| ==> es[i].name != []
    ensures ResponseFields(PutDocument(es) + trailing) == ToldAll(Fields(NoOk, NoN, []), es)
  {
    hide Has, PutElements, LE, FromLE, U32At, ScanFields, ToldAll, ValidElements;
    var doc := PutDocument(es) + trailing;
    assert doc == [] + PutDocument(es) + trailing;
    HasWhole([], PutDocument(es), trailing);
    DocumentSkipLands(doc, 0, es);
    assert doc == LE(|PutElements(es)| + 5, 4) + PutElements(es) + ([0] + trailing);
    HasWhole(LE(|PutElements(es)| + 5, 4), PutElements(es), [0] + trailing);
    FieldsAreRead(Fields(NoOk, NoN, []), doc, |PutDocument(es)|, 4, es);
  }
}
