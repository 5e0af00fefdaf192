/** The pairing of a Redis connection against what client and server mean by their bytes: a server that
    answers each value of the client once, in RESP3 (services/db-proxy/redis/connection.go, lines 77 to 159). */
module RedisReplies {
  import opened Bytes
  import opened Options
  import opened RespReader
  import opened RespGrammar
  import opened RespAttributes
  import P = RedisPairing

  // ---------- the server's side ----------

  /** The values a server sends: pushes stand alone, and every other value is a reply. */
  ghost predicate ServerValues(isFloat: FloatSyntax, vs: seq<Resp>) {
    forall i :: 0 <= i < |vs| ==> WellFormed(isFloat, vs[i]) && Proper(vs[i])
  }

  /** The replies among them, in order, as the server means them. */
  function Meant(isFloat: FloatSyntax, vs: seq<Resp>): seq<Value> {
    if vs == [] then []
    else (if IsPush(vs[0]) then [] else [Meaning(isFloat, vs[0])]) + Meant(isFloat, vs[1..])
  }

  predicate AllClean(vs: seq<Resp>) {
    forall i | 0 <= i < |vs| :: Clean(vs[i])
  }

  lemma {:induction false} ItemsAreReplies(lib: P.Library, items: seq<Resp>)
    requires AllBare(items) && AllWellFormed(lib.isFloat, items)
    ensures P.Replies(lib, EncodeAll(items)) == MeaningAll(lib.isFloat, RepliesOf(items))
    decreases |items|
  {
    hide ReadValue, Encode, Meaning, Bare, WellFormed, IsReply;
    if items == [] {
      P.NothingToRead(lib.isFloat);
    } else {
      var tail := EncodeAll(items[1..]);
      BareRoundTrip(lib.isFloat, items[0], tail);
      ReplyIsOrdinary(lib.isFloat, items[0]);
      ItemsAreReplies(lib, items[1..]);
      var more := RepliesOf(items[1..]);
      assert ([items[0]] + more)[1..] == more;
      assert [] + P.Replies(lib, tail) == P.Replies(lib, tail);
    }
  }

  /** The replies the relay reads off a server's bytes. */
  lemma RepliesRead(lib: P.Library, vs: seq<Resp>)
    requires ServerValues(lib.isFloat, vs)
    ensures P.Replies(lib, EncodeAll(vs)) == MeaningAll(lib.isFloat, RepliesOf(SeenAll(vs)))
  {
    hide WellFormed, Seen, SeenAll, Proper, MeaningAll, RepliesOf, EncodeAll, P.Replies;
    assert AllWellFormed(lib.isFloat, vs);
    SeenAllIsBare(lib.isFloat, vs);
    SeenAllEncodes(vs);
    ItemsAreReplies(lib, SeenAll(vs));
  }

  lemma {:induction false} MeaningConcat(isFloat: FloatSyntax, a: seq<Resp>, b: seq<Resp>)
    ensures MeaningAll(isFloat, a + b) == MeaningAll(isFloat, a) + MeaningAll(isFloat, b)
  {
    hide Meaning;
    if a == [] {
      assert a + b == b;
    } else {
      assert (a + b)[1..] == a[1..] + b;
      MeaningConcat(isFloat, a[1..], b);
    }
  }

  /** Attributes inside values only add replies, and add none exactly when every value is clean. */
  lemma {:induction false} RepliesCounted(isFloat: FloatSyntax, vs: seq<Resp>)
    requires ServerValues(isFloat, vs)
    ensures |RepliesOf(SeenAll(vs))| >= |Meant(isFloat, vs)|
    ensures |RepliesOf(SeenAll(vs))| == |Meant(isFloat, vs)| <==> AllClean(vs)
    ensures AllClean(vs) ==> MeaningAll(isFloat, RepliesOf(SeenAll(vs))) == Meant(isFloat, vs)
  {
    hide WellFormed, Proper, Clean, Seen, RepliesOf, Meaning, IsPush;
    if vs == [] {
      NoReplies();
    } else {
      var v, rest := vs[0], vs[1..];
      RepliesCounted(isFloat, rest);
      CleanIffOneReply(v);
      CoreMeans(isFloat, v);
      RepliesOfConcat(Seen(v), SeenAll(rest));
      MeaningConcat(isFloat, RepliesOf(Seen(v)), RepliesOf(SeenAll(rest)));
      CleanHeadAndTail(vs);
      MeaningOfList(isFloat, RepliesOf(Seen(v)));
    }
  }

  lemma CleanHeadAndTail(vs: seq<Resp>)
    requires vs != []
    ensures AllClean(vs) <==> Clean(vs[0]) && AllClean(vs[1..])
  {
    hide Clean;
    if Clean(vs[0]) && AllClean(vs[1..]) {
      forall i | 0 <= i < |vs| ensures Clean(vs[i]) {
        assert i > 0 ==> vs[i] == vs[1..][i - 1];
      }
    }
  }

  /** The relay reads exactly the replies the server means, if and only if no attribute stands inside a
      value; attributes in front of values, and pushes, do no harm. */
  lemma RepliesAreMeantIff(lib: P.Library, vs: seq<Resp>)
    requires ServerValues(lib.isFloat, vs)
    ensures P.Replies(lib, EncodeAll(vs)) == Meant(lib.isFloat, vs) <==> AllClean(vs)
  {
    hide P.Replies, RepliesOf, SeenAll, Meant, AllClean, MeaningAll, EncodeAll, ServerValues;
    RepliesRead(lib, vs);
    RepliesCounted(lib.isFloat, vs);
  }

  /** What one value with an attribute inside does to the pairing: the relay reads more than one reply
      from it, and every later reply of the server stands that many places too late, so it is paired
      with a later command than its own. */
  lemma LaterRepliesShift(lib: P.Library, a: seq<Resp>, v: Resp, b: seq<Resp>, i: nat)
    requires ServerValues(lib.isFloat, a + [v] + b) && AllClean(a) && AllClean(b) && !Clean(v) && !IsPush(v)
    requires i < |Meant(lib.isFloat, b)|
    ensures var own := |Meant(lib.isFloat, a)| + 1 + i;
            var late := |RepliesOf(Seen(v))| - 1;
            && late > 0 && own < |Meant(lib.isFloat, a + [v] + b)| && own + late < |P.Replies(lib, EncodeAll(a + [v] + b))|
            && Meant(lib.isFloat, a + [v] + b)[own] == Meant(lib.isFloat, b)[i]
            && P.Replies(lib, EncodeAll(a + [v] + b))[own + late] == Meant(lib.isFloat, b)[i]
  {
    hide P.Replies, RepliesOf, Seen, SeenAll, AllClean, Clean, WellFormed, Proper, EncodeAll, Meaning, Meant;
    ServerParts(lib.isFloat, a, v, b);
    ReadInParts(lib, a, v, b);
    RepliesCounted(lib.isFloat, a);
    RepliesCounted(lib.isFloat, b);
    CleanIffOneReply(v);
    MeantConcat(lib.isFloat, a + [v], b);
    MeantConcat(lib.isFloat, a, [v]);
    MeantOne(lib.isFloat, v);
  }

  lemma ServerParts(isFloat: FloatSyntax, a: seq<Resp>, v: Resp, b: seq<Resp>)
    requires ServerValues(isFloat, a + [v] + b)
    ensures ServerValues(isFloat, a) && ServerValues(isFloat, b) && WellFormed(isFloat, v) && Proper(v)
  {
    hide WellFormed, Proper;
    assert v == (a + [v] + b)[|a|];
    assert forall j :: 0 <= j < |a| ==> a[j] == (a + [v] + b)[j];
    assert forall j :: 0 <= j < |b| ==> b[j] == (a + [v] + b)[|a| + 1 + j];
  }

  lemma MeantOne(isFloat: FloatSyntax, v: Resp)
    requires !IsPush(v)
    ensures Meant(isFloat, [v]) == [Meaning(isFloat, v)]
  {
    hide Meaning, IsPush;
    assert [v][1..] == [];
  }

  lemma ReadInParts(lib: P.Library, a: seq<Resp>, v: Resp, b: seq<Resp>)
    requires ServerValues(lib.isFloat, a + [v] + b)
    ensures P.Replies(lib, EncodeAll(a + [v] + b)) ==
            MeaningAll(lib.isFloat, RepliesOf(SeenAll(a))) + MeaningAll(lib.isFloat, RepliesOf(Seen(v))) +
            MeaningAll(lib.isFloat, RepliesOf(SeenAll(b)))
  {
    hide P.Replies, RepliesOf, Seen, WellFormed, Proper, EncodeAll, MeaningAll;
    RepliesRead(lib, a + [v] + b);
    SeenAllConcat(a + [v], b);
    SeenAllConcat(a, [v]);
    assert SeenAll([v]) == Seen(v) + SeenAll([v][1..]) == Seen(v);
    RepliesOfConcat(SeenAll(a) + Seen(v), SeenAll(b));
    RepliesOfConcat(SeenAll(a), Seen(v));
    MeaningConcat(lib.isFloat, RepliesOf(SeenAll(a)) + RepliesOf(Seen(v)), RepliesOf(SeenAll(b)));
    MeaningConcat(lib.isFloat, RepliesOf(SeenAll(a)), RepliesOf(Seen(v)));
  }

  lemma {:induction false} SeenAllConcat(a: seq<Resp>, b: seq<Resp>)
    ensures SeenAll(a + b) == SeenAll(a) + SeenAll(b)
  {
    hide Seen;
    if a == [] {
      assert a + b == b;
    } else {
      assert (a + b)[1..] == a[1..] + b;
      SeenAllConcat(a[1..], b);
    }
  }

  lemma {:induction false} MeantConcat(isFloat: FloatSyntax, a: seq<Resp>, b: seq<Resp>)
    ensures Meant(isFloat, a + b) == Meant(isFloat, a) + Meant(isFloat, b)
  {
    hide Meaning, IsPush;
    if a == [] {
      assert a + b == b;
    } else {
      assert (a + b)[1..] == a[1..] + b;
      MeantConcat(isFloat, a[1..], b);
    }
  }

  // ---------- the client's side ----------

  predicate IsNamed(lib: P.Library, v: Value) { P.CommandName(lib, v) != [] }

  /** The values a client sends, up to QUIT or the first that cannot be read. */
  function Values(lib: P.Library, s: bytes): seq<Value>
    decreases |s|
  {
    match ReadValue(lib.isFloat, s)
    case Ok(v, rest) => [v] + (if P.CommandName(lib, v) == P.QUIT then [] else Values(lib, rest))
    case _ => []
  }

  function QueuedAll(lib: P.Library, values: seq<Value>): seq<P.Pending> {
    if values == [] then [] else P.Queued(lib, values[0]) + QueuedAll(lib, values[1..])
  }

  lemma {:induction false} CommandsAreQueued(lib: P.Library, s: bytes)
    ensures P.Commands(lib, s) == QueuedAll(lib, Values(lib, s))
    decreases |s|
  {
    hide ReadValue, P.Queued, P.CommandName;
    match ReadValue(lib.isFloat, s)
    case Ok(v, rest) =>
      CommandsAreQueued(lib, rest);
      assert ([v] + Values(lib, rest))[1..] == Values(lib, rest);
      assert [v][1..] == [];
      assert QueuedAll(lib, [v]) == P.Queued(lib, v) + [];
    case _ =>
  }

  /** The first of a client's values in front of what the others queue. */
  lemma QueuedUnfolds(lib: P.Library, values: seq<Value>)
    ensures if values == [] then QueuedAll(lib, values) == [] else
            var here, more := P.Queued(lib, values[0]), QueuedAll(lib, values[1..]);
            && QueuedAll(lib, values) == here + more
            && (if IsNamed(lib, values[0]) then here == [QueuedAll(lib, values)[0]] && QueuedAll(lib, values)[1..] == more
                else here == [] && QueuedAll(lib, values) == more)
  {
    hide P.CommandName;
    if values == [] { return; }
    assert |P.Queued(lib, values[0])| == if IsNamed(lib, values[0]) then 1 else 0;
    assert [] + QueuedAll(lib, values[1..]) == QueuedAll(lib, values[1..]);
  }

  /** The position, among the client's values, of the one that queued the k-th command. */
  function Place(lib: P.Library, values: seq<Value>, k: nat): (i: nat)
    requires k < |QueuedAll(lib, values)|
    ensures k <= i < |values|
    decreases |values|
  {
    hide P.Queued, P.CommandName, IsNamed, QueuedAll;
    QueuedUnfolds(lib, values);
    if !IsNamed(lib, values[0]) then 1 + Place(lib, values[1..], k)
    else if k == 0 then 0
    else 1 + Place(lib, values[1..], k - 1)
  }

  lemma {:induction false} PlaceQueuedIt(lib: P.Library, values: seq<Value>, k: nat)
    requires k < |QueuedAll(lib, values)|
    ensures var i := Place(lib, values, k);
            IsNamed(lib, values[i]) && P.Queued(lib, values[i]) == [QueuedAll(lib, values)[k]]
    decreases |values|
  {
    hide P.Queued, P.CommandName, IsNamed, QueuedAll;
    QueuedUnfolds(lib, values);
    if !IsNamed(lib, values[0]) {
      PlaceQueuedIt(lib, values[1..], k);
    } else if k > 0 {
      PlaceQueuedIt(lib, values[1..], k - 1);
    }
  }

  /** No value without a name stands before one with a name. */
  predicate NamesComeFirst(lib: P.Library, values: seq<Value>) {
    forall i, j | 0 <= i < j < |values| :: IsNamed(lib, values[j]) ==> IsNamed(lib, values[i])
  }

  lemma {:induction false} PlacesOfNamed(lib: P.Library, values: seq<Value>)
    requires NamesComeFirst(lib, values)
    ensures forall k :: 0 <= k < |QueuedAll(lib, values)| ==> Place(lib, values, k) == k
  {
    if values != [] {
      var rest := values[1..];
      assert forall i :: 0 <= i < |rest| ==> rest[i] == values[i + 1];
      PlacesOfNamed(lib, rest);
      if IsNamed(lib, values[0]) {
        assert |P.Queued(lib, values[0])| == 1;
      } else {
        assert forall i :: 0 < i < |values| ==> !IsNamed(lib, values[i]);
        NothingQueued(lib, values);
      }
    }
  }

  lemma {:induction false} NothingQueued(lib: P.Library, values: seq<Value>)
    requires forall i :: 0 <= i < |values| ==> !IsNamed(lib, values[i])
    ensures QueuedAll(lib, values) == []
  {
    if values != [] {
      NothingQueued(lib, values[1..]);
    }
  }

  lemma PlaceUnfolds(lib: P.Library, values: seq<Value>)
    requires values != []
    ensures var more := QueuedAll(lib, values[1..]);
            if IsNamed(lib, values[0]) then
              && |QueuedAll(lib, values)| == 1 + |more| && Place(lib, values, 0) == 0
              && forall k :: 0 <= k < |more| ==> Place(lib, values, k + 1) == 1 + Place(lib, values[1..], k)
            else
              && QueuedAll(lib, values) == more
              && forall k :: 0 <= k < |more| ==> Place(lib, values, k) == 1 + Place(lib, values[1..], k)
  {
    hide P.Queued, P.CommandName, IsNamed, QueuedAll;
    QueuedUnfolds(lib, values);
  }

  lemma {:induction false} NamedHasPlace(lib: P.Library, values: seq<Value>, j: nat) returns (k: nat)
    requires j < |values| && IsNamed(lib, values[j])
    ensures k < |QueuedAll(lib, values)| && Place(lib, values, k) == j
    ensures NamelessBefore(lib, values, j) ==> k < j
  {
    hide QueuedAll, IsNamed, NamelessBefore;
    if j == 0 {
      k := FirstHasPlace(lib, values);
    } else {
      var rest := NamedHasPlace(lib, values[1..], j - 1);
      k := LaterHasPlace(lib, values, j, rest);
    }
  }

  ghost predicate NamelessBefore(lib: P.Library, values: seq<Value>, j: nat)
    requires j <= |values|
  {
    exists i :: 0 <= i < j && !IsNamed(lib, values[i])
  }

  lemma FirstHasPlace(lib: P.Library, values: seq<Value>) returns (k: nat)
    requires values != [] && IsNamed(lib, values[0])
    ensures k < |QueuedAll(lib, values)| && Place(lib, values, k) == 0
    ensures !NamelessBefore(lib, values, 0)
  {
    hide QueuedAll, Place, IsNamed;
    PlaceUnfolds(lib, values);
    k := 0;
  }

  lemma LaterHasPlace(lib: P.Library, values: seq<Value>, j: nat, rest: nat) returns (k: nat)
    requires 0 < j < |values|
    requires rest < |QueuedAll(lib, values[1..])| && Place(lib, values[1..], rest) == j - 1
    requires NamelessBefore(lib, values[1..], j - 1) ==> rest < j - 1
    ensures k < |QueuedAll(lib, values)| && Place(lib, values, k) == j
    ensures NamelessBefore(lib, values, j) ==> k < j
  {
    hide QueuedAll, Place, IsNamed;
    PlaceUnfolds(lib, values);
    if IsNamed(lib, values[0]) {
      k := rest + 1;
      if NamelessBefore(lib, values, j) {
        var i :| 0 <= i < j && !IsNamed(lib, values[i]);
        assert values[1..][i - 1] == values[i];
      }
    } else {
      k := rest;
    }
  }

  /** Every command's place in the queue is its value's place among the client's values, if and only if
      no nameless value, which the server answers and the relay does not queue, stands before a named one. */
  lemma PlacesAgreeIff(lib: P.Library, values: seq<Value>)
    ensures (forall k :: 0 <= k < |QueuedAll(lib, values)| ==> Place(lib, values, k) == k) <==> NamesComeFirst(lib, values)
  {
    hide P.Queued, P.CommandName;
    if NamesComeFirst(lib, values) {
      PlacesOfNamed(lib, values);
    } else {
      var i, j :| 0 <= i < j < |values| && IsNamed(lib, values[j]) && !IsNamed(lib, values[i]);
      var k := NamedHasPlace(lib, values, j);
      assert NamelessBefore(lib, values, j);
    }
  }

  // ---------- the pairing ----------

  /** In every interleaving, against a server whose values hold no attribute inside: the k-th pair joins
      the k-th queued command with the k-th reply the server means. The reply is the answer to the
      command's own value exactly when the value is the client's k-th, and that holds of every command,
      if and only if no nameless value stands before a named one. */
  lemma RepliesAnswerTheirCommands(lib: P.Library, clientBytes: bytes, vs: seq<Resp>, events: seq<P.Event>)
    requires ServerValues(lib.isFloat, vs) && AllClean(vs)
    ensures var ps := P.Pairs(lib, P.Start(clientBytes, EncodeAll(vs)), events);
            var values := Values(lib, clientBytes);
            && |ps| <= |QueuedAll(lib, values)| && |ps| <= |Meant(lib.isFloat, vs)|
            && (forall k :: 0 <= k < |ps| ==>
                  [ps[k].0] == P.Queued(lib, values[Place(lib, values, k)]) && ps[k].1 == Meant(lib.isFloat, vs)[k])
            && ((forall k :: 0 <= k < |QueuedAll(lib, values)| ==> Place(lib, values, k) == k)
                <==> NamesComeFirst(lib, values))
  {
    hide P.Pairs, P.Run, P.Commands, P.Replies, P.Queued, Values, QueuedAll, Meant, AllClean, NamesComeFirst, EncodeAll;
    P.RepliesArePaired(lib, clientBytes, EncodeAll(vs), events);
    RepliesAreMeantIff(lib, vs);
    CommandsAreQueued(lib, clientBytes);
    var values := Values(lib, clientBytes);
    var queued := QueuedAll(lib, values);
    PlacesAgreeIff(lib, values);
    forall k | 0 <= k < |queued| ensures P.Queued(lib, values[Place(lib, values, k)]) == [queued[k]] {
      PlaceQueuedIt(lib, values, k);
    }
  }

  const PING: bytes := ['P' as int, 'I' as int, 'N' as int, 'G' as int]

  /** The client sends a command with an empty name and then PING: PING is queued first and gets the
      reply to the nameless command. */
  lemma NamelessCommandTakesAReply(lib: P.Library)
    requires lib.upper([]) == [] && lib.upper(PING) == PING
    ensures var s := Encode(List(ARRAY, [Bulk(Some([]))])) + Encode(List(ARRAY, [Bulk(Some(PING))]));
            var values := Values(lib, s);
            && QueuedAll(lib, values) == [P.Pending(PING, PING)] && |values| == 2
            && Place(lib, values, 0) == 1
  {
    var v, w := Elements(ARRAY, [Text(BULK, [])]), Elements(ARRAY, [Text(BULK, PING)]);
    assert !IsNamed(lib, v) && P.Queued(lib, w) == [P.Pending(PING, PING)] && P.CommandName(lib, w) == PING;
    TwoCommands(lib, v, w);
    PlaceUnfolds(lib, [v, w]);
    PlaceUnfolds(lib, [w]);
    hide Values, Place, P.Queued, P.CommandName, Encode;
    assert [v, w][1..] == [w] && [w][1..] == [];
    assert QueuedAll(lib, [w]) == P.Queued(lib, w) + [];
  }

  lemma TwoCommands(lib: P.Library, v: Value, w: Value)
    requires v == Elements(ARRAY, [Text(BULK, [])]) && w == Elements(ARRAY, [Text(BULK, PING)])
    requires P.CommandName(lib, v) != P.QUIT && P.CommandName(lib, w) != P.QUIT
    ensures Values(lib, Encode(List(ARRAY, [Bulk(Some([]))])) + Encode(List(ARRAY, [Bulk(Some(PING))]))) == [v, w]
  {
    hide ReadValue, Encode, P.CommandName, WellFormed, Bare, Meaning;
    var nameless, ping := List(ARRAY, [Bulk(Some([]))]), List(ARRAY, [Bulk(Some(PING))]);
    var tail := Encode(ping);
    OneBulk(lib.isFloat, []);
    OneBulk(lib.isFloat, PING);
    BareRoundTrip(lib.isFloat, nameless, tail);
    BareRoundTrip(lib.isFloat, ping, []);
    P.NothingToRead(lib.isFloat);
    assert tail + [] == tail;
    assert Values(lib, []) == [];
    assert Values(lib, tail) == [w] + [];
    assert Values(lib, Encode(nameless) + tail) == [v] + [w];
  }

  lemma OneBulk(isFloat: FloatSyntax, s: bytes)
    requires |s| < 10
    ensures var v := List(ARRAY, [Bulk(Some(s))]);
            WellFormed(isFloat, v) && Bare(v) && Meaning(isFloat, v) == Elements(ARRAY, [Text(BULK, s)])
  {
    MeaningOfList(isFloat, [Bulk(Some(s))]);
    assert WellFormed(isFloat, Bulk(Some(s)));
  }
}
