/** RESP3 attributes: what the reader makes of a value that holds some, and when it still returns the
    value (services/db-proxy/redis/protocol.go, lines 99 to 131). */
module RespAttributes {
  import opened Bytes
  import opened Options
  import opened Strconv
  import opened RespReader
  import opened RespGrammar

  // ---------- attributes ----------

  /** Pushes stand alone and so do not occur inside a value; an attribute stands before a value. */
  predicate Proper(v: Resp) {
    match v
    case List(_, vs) => AllInner(vs)
    case Pairs(k, vs) => k == MAP && AllInner(vs)
    case Attributed(vs, x) => AllInner(vs) && Proper(x)
    case _ => true
  }

  predicate AllInner(vs: seq<Resp>) {
    forall i | 0 <= i < |vs| :: Proper(vs[i]) && !IsPush(vs[i])
  }

  predicate IsPush(v: Resp) {
    match v
    case List(k, _) => k == PUSH
    case NullList(k) => k == PUSH
    case Attributed(_, x) => IsPush(x)
    case _ => false
  }

  /** Attributes stand only in front of the whole value, and hold none themselves. */
  predicate Clean(v: Resp) {
    if v.Attributed? then AllBare(v.attribute) && Clean(v.value) else Bare(v)
  }

  /** The items the reader makes of a value: an aggregate takes as many of the items of its elements as
      its header counts, attributes among them, and leaves the others behind it. */
  function Seen(v: Resp): (items: seq<Resp>)
    ensures items != []
    decreases v, 0
  {
    match v
    case List(k, vs) =>
      var inner := SeenAll(vs);
      [List(k, inner[..|vs|])] + inner[|vs|..]
    case Pairs(k, vs) =>
      var inner := SeenAll(vs);
      [Pairs(k, inner[..|vs|])] + inner[|vs|..]
    case Attributed(vs, x) =>
      var inner := SeenAll(vs);
      [Pairs(ATTRIBUTE, inner[..|vs|])] + inner[|vs|..] + Seen(x)
    case _ => [v]
  }

  function SeenAll(vs: seq<Resp>): (items: seq<Resp>)
    ensures |items| >= |vs|
    decreases vs, 1
  {
    if vs == [] then [] else Seen(vs[0]) + SeenAll(vs[1..])
  }

  /** How many attributes a value holds, inside and in front. */
  function Attributes(v: Resp): nat
    decreases v, 0
  {
    match v
    case List(_, vs) => AllAttributes(vs)
    case Pairs(_, vs) => AllAttributes(vs)
    case Attributed(vs, x) => 1 + AllAttributes(vs) + Attributes(x)
    case _ => 0
  }

  function AllAttributes(vs: seq<Resp>): nat
    decreases vs, 1
  {
    if vs == [] then 0 else Attributes(vs[0]) + AllAttributes(vs[1..])
  }

  lemma {:induction false} EncodeAllConcat(a: seq<Resp>, b: seq<Resp>)
    ensures EncodeAll(a + b) == EncodeAll(a) + EncodeAll(b)
  {
    hide Encode;
    if a == [] {
      assert a + b == b;
    } else {
      EncodeAllConcat(a[1..], b);
      assert (a + b)[1..] == a[1..] + b;
    }
  }

  lemma EncodeOne(v: Resp)
    ensures EncodeAll([v]) == Encode(v)
  {
    hide Encode;
    assert [v][1..] == [];
    assert EncodeAll([v]) == Encode(v) + [];
  }

  /** The bytes of the header and the items after it, however many of them the header counts. */
  lemma HeaderAndItems(header: bytes, first: Resp, inner: seq<Resp>, n: nat)
    requires n <= |inner| && Encode(first) == header + EncodeAll(inner[..n])
    ensures EncodeAll([first] + inner[n..]) == header + EncodeAll(inner)
  {
    hide Encode, EncodeAll;
    EncodeOne(first);
    EncodeAllConcat([first], inner[n..]);
    EncodeAllConcat(inner[..n], inner[n..]);
    assert inner == inner[..n] + inner[n..];
    assert header + EncodeAll(inner[..n]) + EncodeAll(inner[n..]) == header + (EncodeAll(inner[..n]) + EncodeAll(inner[n..]));
  }

  lemma {:induction false} SeenEncodes(v: Resp)
    ensures EncodeAll(Seen(v)) == Encode(v)
    decreases v, 0
  {
    hide EncodeAll, SeenAll;
    match v
    case List(k, vs) =>
      SeenAllEncodes(vs);
      HeaderAndItems(Line(k, FormatInt(|vs|)), Seen(v)[0], SeenAll(vs), |vs|);
    case Pairs(k, vs) =>
      SeenAllEncodes(vs);
      HeaderAndItems(Line(k, FormatInt(|vs| / 2)), Seen(v)[0], SeenAll(vs), |vs|);
    case Attributed(vs, x) =>
      SeenAllEncodes(vs);
      SeenEncodes(x);
      var front := [Seen(v)[0]] + SeenAll(vs)[|vs|..];
      HeaderAndItems(Line(ATTRIBUTE, FormatInt(|vs| / 2)), Seen(v)[0], SeenAll(vs), |vs|);
      EncodeAllConcat(front, Seen(x));
    case _ => EncodeOne(v);
  }

  lemma {:induction false} SeenAllEncodes(vs: seq<Resp>)
    ensures EncodeAll(SeenAll(vs)) == EncodeAll(vs)
    decreases vs, 1
  {
    hide Encode, Seen;
    if vs != [] {
      SeenEncodes(vs[0]);
      SeenAllEncodes(vs[1..]);
      EncodeAllConcat(Seen(vs[0]), SeenAll(vs[1..]));
    }
  }

  lemma {:induction false} SeenIsBare(isFloat: FloatSyntax, v: Resp)
    requires WellFormed(isFloat, v)
    ensures AllBare(Seen(v)) && AllWellFormed(isFloat, Seen(v)) && |Seen(v)| == 1 + Attributes(v)
    decreases v, 0
  {
    hide SeenAll, AllAttributes, AllBare, AllWellFormed;
    match v
    case List(k, vs) =>
      SeenAllIsBare(isFloat, vs);
      ItemsAreBare(isFloat, Seen(v)[0], SeenAll(vs), |vs|);
    case Pairs(k, vs) =>
      SeenAllIsBare(isFloat, vs);
      ItemsAreBare(isFloat, Seen(v)[0], SeenAll(vs), |vs|);
    case Attributed(vs, x) =>
      SeenAllIsBare(isFloat, vs);
      SeenIsBare(isFloat, x);
      ItemsAreBare(isFloat, Seen(v)[0], SeenAll(vs), |vs|);
      BareConcat(isFloat, [Seen(v)[0]] + SeenAll(vs)[|vs|..], Seen(x));
    case _ => OneBare(isFloat, v);
  }

  lemma OneBare(isFloat: FloatSyntax, v: Resp)
    requires Bare(v) && WellFormed(isFloat, v)
    ensures AllBare([v]) && AllWellFormed(isFloat, [v])
  {
  }

  lemma BareConcat(isFloat: FloatSyntax, a: seq<Resp>, b: seq<Resp>)
    requires AllBare(a) && AllWellFormed(isFloat, a) && AllBare(b) && AllWellFormed(isFloat, b)
    ensures AllBare(a + b) && AllWellFormed(isFloat, a + b)
  {
    hide Bare, WellFormed;
  }

  lemma ItemsAreBare(isFloat: FloatSyntax, first: Resp, inner: seq<Resp>, n: nat)
    requires n <= |inner| && AllBare(inner) && AllWellFormed(isFloat, inner)
    requires first.List? || first.Pairs?
    requires n == |if first.List? then first.elements else first.keysAndValues|
    requires (if first.List? then first.elements else first.keysAndValues) == inner[..n]
    requires n <= MAX_INT64
    requires if first.List? then first.kind in {ARRAY, SET, PUSH} else first.kind in {MAP, ATTRIBUTE} && n % 2 == 0
    ensures AllBare([first] + inner[n..]) && AllWellFormed(isFloat, [first] + inner[n..])
  {
    assert AllBare(inner[..n]) && AllWellFormed(isFloat, inner[..n]);
    assert AllBare(inner[n..]) && AllWellFormed(isFloat, inner[n..]);
    assert Bare(first) && WellFormed(isFloat, first);
    BareConcat(isFloat, [first], inner[n..]);
  }

  lemma {:induction false} SeenAllIsBare(isFloat: FloatSyntax, vs: seq<Resp>)
    requires AllWellFormed(isFloat, vs)
    ensures AllBare(SeenAll(vs)) && AllWellFormed(isFloat, SeenAll(vs)) && |SeenAll(vs)| == |vs| + AllAttributes(vs)
    decreases vs, 1
  {
    hide Seen, Bare, WellFormed, Attributes;
    if vs != [] {
      SeenIsBare(isFloat, vs[0]);
      SeenAllIsBare(isFloat, vs[1..]);
    }
  }

  lemma {:induction false} BareIsItself(v: Resp)
    ensures Bare(v) <==> |Seen(v)| == 1
    ensures Bare(v) ==> Seen(v) == [v]
    decreases v, 0
  {
    hide SeenAll, AllBare;
    match v
    case List(_, vs) =>
      AllBareAreThemselves(vs);
      assert vs[..|vs|] == vs;
    case Pairs(_, vs) =>
      AllBareAreThemselves(vs);
      assert vs[..|vs|] == vs;
    case _ =>
  }

  lemma {:induction false} AllBareAreThemselves(vs: seq<Resp>)
    ensures AllBare(vs) <==> |SeenAll(vs)| == |vs|
    ensures AllBare(vs) ==> SeenAll(vs) == vs
    decreases vs, 1
  {
    hide Bare, Seen;
    if vs != [] {
      BareIsItself(vs[0]);
      AllBareAreThemselves(vs[1..]);
      BareHeadAndTail(vs);
    }
  }

  lemma BareHeadAndTail(vs: seq<Resp>)
    requires vs != []
    ensures AllBare(vs) <==> Bare(vs[0]) && AllBare(vs[1..])
  {
    hide Bare;
    if Bare(vs[0]) && AllBare(vs[1..]) {
      forall i | 0 <= i < |vs| ensures Bare(vs[i]) {
        assert i > 0 ==> vs[i] == vs[1..][i - 1];
      }
    }
  }

  /** What the reader makes of any value: it never fails, and takes the first of one item more than the
      value has attributes; the others stay on the stream, in front of whatever follows. */
  lemma ValueIsReadAsItems(isFloat: FloatSyntax, v: Resp, rest: bytes)
    requires WellFormed(isFloat, v)
    ensures |Seen(v)| == 1 + Attributes(v)
    ensures ReadValue(isFloat, Encode(v) + rest) == Ok(Meaning(isFloat, Seen(v)[0]), EncodeAll(Seen(v)[1..]) + rest)
    ensures ReadMany(isFloat, Encode(v) + rest, 1 + Attributes(v)) == Ok(MeaningAll(isFloat, Seen(v)), rest)
  {
    hide ReadValue, ReadMany, Seen, Encode, EncodeAll, Meaning, MeaningAll, Bare, WellFormed, Attributes;
    SeenIsBare(isFloat, v);
    SeenEncodes(v);
    var items := Seen(v);
    EncodeOne(items[0]);
    EncodeAllConcat([items[0]], items[1..]);
    assert items == [items[0]] + items[1..];
    ManyRoundTrip(isFloat, items, rest);
    BareRoundTrip(isFloat, items[0], EncodeAll(items[1..]) + rest);
    assert EncodeAll(items) + rest == Encode(items[0]) + (EncodeAll(items[1..]) + rest);
  }

  lemma {:induction false} EncodedIsNotEmpty(vs: seq<Resp>)
    requires vs != []
    ensures EncodeAll(vs) != []
  {
    hide FormatInt;
    if vs[0].Attributed? {
      assert |Encode(vs[0])| >= |Line(ATTRIBUTE, FormatInt(|vs[0].attribute| / 2))|;
    }
    assert Encode(vs[0]) != [];
  }

  /** Reading an encoded value followed by anything returns the value and leaves exactly what followed,
      if and only if the value has no attribute anywhere. */
  lemma RespRoundTrip(isFloat: FloatSyntax, v: Resp, rest: bytes)
    requires WellFormed(isFloat, v)
    ensures ReadValue(isFloat, Encode(v) + rest) == Ok(Meaning(isFloat, v), rest) <==> Bare(v)
  {
    hide ReadValue, ReadMany, Seen, Encode, EncodeAll, Meaning, WellFormed, Bare;
    if Bare(v) {
      BareRoundTrip(isFloat, v, rest);
    } else {
      ValueIsReadAsItems(isFloat, v, rest);
      BareIsItself(v);
      EncodedIsNotEmpty(Seen(v)[1..]);
    }
  }

  // ---------- replies ----------

  /** The first value that is neither a push nor an attribute: what the relay takes for a reply. */
  function ReadReply(isFloat: FloatSyntax, s: bytes): Outcome<Value>
    decreases |s|
  {
    match ReadValue(isFloat, s)
    case Ok(v, rest) => if IsOrdinary(v) then Ok(v, rest) else ReadReply(isFloat, rest)
    case o => o
  }

  predicate IsReply(v: Resp) {
    match v
    case List(k, _) => k != PUSH
    case NullList(k) => k != PUSH
    case Pairs(k, _) => k != ATTRIBUTE
    case _ => true
  }

  function RepliesOf(items: seq<Resp>): (s: seq<Resp>)
    ensures |s| <= |items|
  {
    if items == [] then []
    else if IsReply(items[0]) then [items[0]] + RepliesOf(items[1..])
    else RepliesOf(items[1..])
  }

  lemma {:induction false} RepliesOfConcat(a: seq<Resp>, b: seq<Resp>)
    ensures RepliesOf(a + b) == RepliesOf(a) + RepliesOf(b)
  {
    hide IsReply;
    if a == [] {
      assert a + b == b;
    } else {
      assert (a + b)[1..] == a[1..] + b;
      RepliesOfConcat(a[1..], b);
    }
  }

  lemma RepliesOfFirst(v: Resp, rest: seq<Resp>)
    ensures RepliesOf([v] + rest) == (if IsReply(v) then [v] else []) + RepliesOf(rest)
  {
    hide IsReply;
    assert ([v] + rest)[1..] == rest;
  }

  lemma EndsInReply(items: seq<Resp>, n: nat)
    requires n < |items| && IsReply(items[|items| - 1])
    ensures RepliesOf(items[n..]) != []
  {
    hide IsReply;
    var last := |items| - 1;
    assert items[n..] == items[n..last] + [items[last]];
    RepliesOfConcat(items[n..last], [items[last]]);
    RepliesOfFirst(items[last], []);
    assert [items[last]] + [] == [items[last]];
  }

  /** The value without the attributes in front of it. */
  function Core(v: Resp): Resp {
    if v.Attributed? then Core(v.value) else v
  }

  lemma {:induction false} CoreMeans(isFloat: FloatSyntax, v: Resp)
    ensures Meaning(isFloat, Core(v)) == Meaning(isFloat, v)
  {
    if v.Attributed? {
      CoreMeans(isFloat, v.value);
    }
  }

  /** Among the items of a value stands one reply, or none if it is a push, if and only if the value is
      clean; an attribute inside it adds another. */
  lemma {:induction false} CleanIffOneReply(v: Resp)
    requires Proper(v)
    ensures !IsPush(v) ==> IsReply(Seen(v)[|Seen(v)| - 1])
    ensures |RepliesOf(Seen(v))| >= if IsPush(v) then 0 else 1
    ensures |RepliesOf(Seen(v))| == (if IsPush(v) then 0 else 1) <==> Clean(v)
    ensures Clean(v) ==> RepliesOf(Seen(v)) == if IsPush(v) then [] else [Core(v)]
    decreases v, 4
  {
    hide SeenAll, AllBare, RepliesOf, AllInner, Proper, Seen;
    match v
    case List(_, _) => CleanAggregate(v);
    case Pairs(_, _) => CleanAggregate(v);
    case Attributed(vs, x) => CleanAttributed(v);
    case _ => LeafReplies(v);
  }

  lemma {:induction false} CleanAggregate(v: Resp)
    requires Proper(v) && (v.List? || v.Pairs?)
    ensures !IsPush(v) ==> IsReply(Seen(v)[|Seen(v)| - 1])
    ensures |RepliesOf(Seen(v))| >= if IsPush(v) then 0 else 1
    ensures |RepliesOf(Seen(v))| == (if IsPush(v) then 0 else 1) <==> Clean(v)
    ensures Clean(v) ==> RepliesOf(Seen(v)) == if IsPush(v) then [] else [v]
    decreases v, 3
  {
    hide SeenAll, AllBare, RepliesOf, AllInner;
    if v.List? {
      AggregateReplies(v, List(v.kind, SeenAll(v.elements)[..|v.elements|]), v.elements);
    } else {
      AggregateReplies(v, Pairs(v.kind, SeenAll(v.keysAndValues)[..|v.keysAndValues|]), v.keysAndValues);
    }
  }

  lemma {:induction false} CleanAttributed(v: Resp)
    requires Proper(v) && v.Attributed?
    ensures !IsPush(v) ==> IsReply(Seen(v)[|Seen(v)| - 1])
    ensures |RepliesOf(Seen(v))| >= if IsPush(v) then 0 else 1
    ensures |RepliesOf(Seen(v))| == (if IsPush(v) then 0 else 1) <==> Clean(v)
    ensures Clean(v) ==> RepliesOf(Seen(v)) == if IsPush(v) then [] else [Core(v)]
    decreases v, 3
  {
    hide SeenAll, AllBare, RepliesOf, AllInner, Seen;
    var vs, x := v.attribute, v.value;
    var first := Pairs(ATTRIBUTE, SeenAll(vs)[..|vs|]);
    CleanIffOneReply(x);
    AggregateReplies(v, first, vs);
    FrontReplies(v);
    assert !IsReply(first);
    assert [] + RepliesOf(Seen(x)) == RepliesOf(Seen(x));
  }

  lemma FrontReplies(v: Resp)
    requires v.Attributed? && Proper(v)
    ensures var n := |v.attribute|;
            var front := [Pairs(ATTRIBUTE, SeenAll(v.attribute)[..n])] + SeenAll(v.attribute)[n..];
            && Seen(v) == front + Seen(v.value)
            && RepliesOf(Seen(v)) == RepliesOf(front) + RepliesOf(Seen(v.value))
  {
    hide RepliesOf, SeenAll;
    var n := |v.attribute|;
    RepliesOfConcat([Pairs(ATTRIBUTE, SeenAll(v.attribute)[..n])] + SeenAll(v.attribute)[n..], Seen(v.value));
  }

  lemma LeafReplies(v: Resp)
    requires !v.List? && !v.Pairs? && !v.Attributed?
    ensures Seen(v) == [v] && RepliesOf([v]) == if IsPush(v) then [] else [v]
  {
    RepliesOfFirst(v, []);
    NoReplies();
    assert [v] + [] == [v];
  }

  lemma NoReplies()
    ensures RepliesOf([]) == []
  {
  }

  lemma {:induction false} CoreOfPush(v: Resp)
    ensures IsPush(Core(v)) == IsPush(v)
  {
    if v.Attributed? {
      CoreOfPush(v.value);
    }
  }

  /** The items an aggregate leaves behind end in a reply, if there are any. */
  lemma {:induction false} AggregateReplies(v: Resp, first: Resp, vs: seq<Resp>)
    requires AllInner(vs)
    requires first.List? || first.Pairs?
    requires v.Attributed? ==> vs == v.attribute
    requires v.List? ==> vs == v.elements && first == List(v.kind, SeenAll(vs)[..|vs|])
    requires v.Pairs? ==> vs == v.keysAndValues && first == Pairs(v.kind, SeenAll(vs)[..|vs|])
    ensures var items := [first] + SeenAll(vs)[|vs|..];
            && (|SeenAll(vs)| == |vs| <==> AllBare(vs))
            && (AllBare(vs) ==> SeenAll(vs)[..|vs|] == vs && items == [first] && RepliesOf(items) == if IsReply(first) then [first] else [])
            && (!AllBare(vs) ==> |RepliesOf(items)| > (if IsReply(first) then 1 else 0) && IsReply(items[|items| - 1]))
    decreases vs, 2
  {
    hide RepliesOf, AllBare, IsReply, Seen;
    var inner := SeenAll(vs);
    AllBareAreThemselves(vs);
    RepliesOfFirst(first, inner[|vs|..]);
    if |inner| > |vs| {
      LastSeenIsReply(vs);
      EndsInReply(inner, |vs|);
    } else {
      NoReplies();
      assert inner[|vs|..] == [];
    }
  }

  lemma {:induction false} LastSeenIsReply(vs: seq<Resp>)
    requires AllInner(vs) && vs != []
    ensures IsReply(SeenAll(vs)[|SeenAll(vs)| - 1])
    decreases vs, 1
  {
    hide Seen, IsReply, Proper, IsPush;
    if |vs| == 1 {
      CleanIffOneReply(vs[0]);
      assert SeenAll(vs) == Seen(vs[0]) + [];
    } else {
      assert AllInner(vs[1..]);
      LastSeenIsReply(vs[1..]);
    }
  }

  /** Reading the reply that starts a list of items: the first that is neither push nor attribute. */
  lemma {:induction false} ReplyOfItems(isFloat: FloatSyntax, items: seq<Resp>, rest: bytes) returns (k: nat)
    requires AllBare(items) && AllWellFormed(isFloat, items) && RepliesOf(items) != []
    ensures k < |items| && items[k] == RepliesOf(items)[0]
    ensures RepliesOf(items[k + 1..]) == RepliesOf(items)[1..]
    ensures ReadReply(isFloat, EncodeAll(items) + rest) == Ok(Meaning(isFloat, items[k]), EncodeAll(items[k + 1..]) + rest)
    decreases |items|
  {
    hide ReadValue, Encode, Meaning, Bare, WellFormed, IsReply;
    var tail := EncodeAll(items[1..]) + rest;
    assert EncodeAll(items) + rest == Encode(items[0]) + tail;
    BareRoundTrip(isFloat, items[0], tail);
    ReplyIsOrdinary(isFloat, items[0]);
    if IsReply(items[0]) {
      k := 0;
    } else {
      var j := ReplyOfItems(isFloat, items[1..], rest);
      k := j + 1;
      assert items[1..][j + 1..] == items[k + 1..];
    }
  }

  lemma ReplyIsOrdinary(isFloat: FloatSyntax, v: Resp)
    requires WellFormed(isFloat, v) && Bare(v)
    ensures IsOrdinary(Meaning(isFloat, v)) <==> IsReply(v)
  {
    hide AllWellFormed, MeaningAll, AllBare;
  }

  /** Reading the reply at the front of the stream, past the attributes before it, returns the value the
      server sent and leaves exactly what followed, if and only if no attribute stands inside the value,
      nor inside an attribute before it. */
  lemma ReplyRoundTrip(isFloat: FloatSyntax, v: Resp, rest: bytes)
    requires WellFormed(isFloat, v) && Proper(v) && !IsPush(v)
    ensures ReadReply(isFloat, Encode(v) + rest) == Ok(Meaning(isFloat, v), rest) <==> Clean(v)
  {
    hide ReadReply, Seen, Encode, EncodeAll, Meaning, WellFormed, Bare, RepliesOf, Proper, Attributes;
    var items := Seen(v);
    SeenIsBare(isFloat, v);
    SeenEncodes(v);
    CleanIffOneReply(v);
    var k := ReplyOfItems(isFloat, items, rest);
    if Clean(v) {
      CoreMeans(isFloat, v);
      if k + 1 < |items| {
        EndsInReply(items, k + 1);
      }
      assert items[k + 1..] == [];
      NothingEncoded();
      assert [] + rest == rest;
    } else {
      assert RepliesOf(items[k + 1..]) != [];
      NoReplies();
      EncodedIsNotEmpty(items[k + 1..]);
    }
  }

  lemma NothingEncoded()
    ensures EncodeAll([]) == []
  {
  }

  const TTL: bytes := ['t' as int, 't' as int, 'l' as int]

  /** The specification's array 1, 2, 3 with the attribute ttl = 3600 in front of its third element. */
  function AttributedArray(): Resp {
    List(ARRAY, [Integer(1), Integer(2), Attributed([Simple(TTL), Integer(3600)], Integer(3))])
  }

  /** The attribute is taken for the third element, and the third element stays on the stream. */
  lemma AttributeTakesAPlace(isFloat: FloatSyntax)
    ensures var attribute := Elements(ATTRIBUTE, [Text(SIMPLE, TTL), Number(INTEGER, [], 3600)]);
            ReadValue(isFloat, Encode(AttributedArray())) ==
            Ok(Elements(ARRAY, [Number(INTEGER, [], 1), Number(INTEGER, [], 2), attribute]), Encode(Integer(3)))
    ensures Encode(Integer(3)) == [INTEGER, '3' as int, CR, LF]
  {
    var pair := [Simple(TTL), Integer(3600)];
    var first := [Integer(1), Integer(2), Pairs(ATTRIBUTE, pair)];
    SeenOfExample(pair);
    ExampleIsWellFormed(isFloat);
    MeaningOfExample(isFloat, pair);
    hide ReadValue, ReadMany, Seen, Encode, EncodeAll, WellFormed, Meaning, MeaningAll, AttributedArray;
    var v := AttributedArray();
    ValueIsReadAsItems(isFloat, v, []);
    EncodeOne(Integer(3));
    assert [List(ARRAY, first), Integer(3)][1..] == [Integer(3)];
    assert Encode(v) + [] == Encode(v) && Encode(Integer(3)) + [] == Encode(Integer(3));
    ThreeEncoded();
  }

  lemma ThreeEncoded()
    ensures Encode(Integer(3)) == [INTEGER, '3' as int, CR, LF]
  {
  }

  lemma MeaningOfExample(isFloat: FloatSyntax, pair: seq<Resp>)
    requires pair == [Simple(TTL), Integer(3600)]
    ensures Meaning(isFloat, List(ARRAY, [Integer(1), Integer(2), Pairs(ATTRIBUTE, pair)])) ==
            Elements(ARRAY, [Number(INTEGER, [], 1), Number(INTEGER, [], 2),
                             Elements(ATTRIBUTE, [Text(SIMPLE, TTL), Number(INTEGER, [], 3600)])])
  {
    hide MeaningAll;
    var attribute := Pairs(ATTRIBUTE, pair);
    MeaningOfList(isFloat, pair);
    assert MeaningAll(isFloat, pair) == [Text(SIMPLE, TTL), Number(INTEGER, [], 3600)];
    MeaningOfList(isFloat, [Integer(1), Integer(2), attribute]);
    assert MeaningAll(isFloat, [Integer(1), Integer(2), attribute]) ==
           [Number(INTEGER, [], 1), Number(INTEGER, [], 2), Meaning(isFloat, attribute)];
  }

  lemma ExampleIsWellFormed(isFloat: FloatSyntax)
    ensures WellFormed(isFloat, AttributedArray())
  {
    var pair := [Simple(TTL), Integer(3600)];
    assert OneLine(TTL);
    assert WellFormed(isFloat, Simple(TTL)) && WellFormed(isFloat, Integer(3600)) && WellFormed(isFloat, Integer(3));
    assert AllWellFormed(isFloat, pair);
    assert WellFormed(isFloat, Attributed(pair, Integer(3)));
  }

  lemma SeenOfExample(pair: seq<Resp>)
    requires pair == [Simple(TTL), Integer(3600)]
    ensures Seen(AttributedArray()) == [List(ARRAY, [Integer(1), Integer(2), Pairs(ATTRIBUTE, pair)]), Integer(3)]
  {
    var third := Attributed(pair, Integer(3));
    var vs := [Integer(1), Integer(2), third];
    AllBareAreThemselves(pair);
    assert pair[..2] == pair && pair[2..] == [];
    assert Seen(third) == [Pairs(ATTRIBUTE, pair), Integer(3)];
    hide Seen;
    assert vs[1..] == [Integer(2), third] && vs[2..] == [third] && vs[2..][1..] == [];
    assert Seen(Integer(1)) == [Integer(1)] && Seen(Integer(2)) == [Integer(2)] by {
      BareIsItself(Integer(1));
      BareIsItself(Integer(2));
    }
    assert SeenAll(vs[2..]) == Seen(third) + SeenAll([]);
    assert SeenAll(vs[1..]) == [Integer(2)] + SeenAll(vs[2..]);
    var inner := SeenAll(vs);
    assert inner == [Integer(1), Integer(2), Pairs(ATTRIBUTE, pair), Integer(3)];
    assert inner[..3] == [Integer(1), Integer(2), Pairs(ATTRIBUTE, pair)] && inner[3..] == [Integer(3)];
    SeenOfList(ARRAY, vs);
  }

  lemma SeenOfList(k: byte, vs: seq<Resp>)
    ensures Seen(List(k, vs)) == [List(k, SeenAll(vs)[..|vs|])] + SeenAll(vs)[|vs|..]
  {
  }

  lemma {:induction false} MeaningOfList(isFloat: FloatSyntax, vs: seq<Resp>)
    ensures MeaningAll(isFloat, vs) == seq(|vs|, i requires 0 <= i < |vs| => Meaning(isFloat, vs[i]))
  {
    hide Meaning;
    if vs != [] {
      MeaningOfList(isFloat, vs[1..]);
    }
  }
}
