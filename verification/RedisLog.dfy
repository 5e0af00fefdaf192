/** What the entries of the Redis log say of the commands a client writes and the replies a server means
    (services/db-proxy/redis/connection.go, lines 77 to 195). */
module RedisLog {
  import opened Bytes
  import opened Options
  import opened Strconv
  import opened RespReader
  import opened RespGrammar
  import opened RespAttributes
  import opened RedisReplies
  import P = RedisPairing

  // ---------- the client's requests ----------

  /** A command as an array of bulk strings, or as a line of text. */
  datatype Request = Words(words: seq<bytes>) | Typed(text: bytes)

  predicate ValidRequest(r: Request) {
    match r
    case Words(words) => |words| <= MAX_INT64 && forall i | 0 <= i < |words| :: |words[i]| <= MAX_INT64
    case Typed(text) => OneLine(text) && text != [] && text[0] !in PREFIXES
  }

  function RespOf(r: Request): Resp {
    match r
    case Words(words) => List(ARRAY, Bulks(words))
    case Typed(text) => Inline(text)
  }

  function Bulks(words: seq<bytes>): seq<Resp> {
    if words == [] then [] else [Bulk(Some(words[0]))] + Bulks(words[1..])
  }

  function RespsOf(rs: seq<Request>): seq<Resp> {
    if rs == [] then [] else [RespOf(rs[0])] + RespsOf(rs[1..])
  }

  /** The command's name in capitals, empty when it has none. */
  function NameOf(lib: P.Library, r: Request): bytes {
    match r
    case Words(words) => if words == [] then [] else lib.upper(words[0])
    case Typed(text) => if lib.fields(text) == [] then [] else lib.upper(lib.fields(text)[0])
  }

  function Spaced(words: seq<bytes>): bytes {
    if words == [] then [] else if |words| == 1 then words[0] else words[0] + [' ' as int] + Spaced(words[1..])
  }

  /** The command's words joined by single spaces, or its text. */
  function TextOf(r: Request): bytes {
    match r
    case Words(words) => Spaced(words)
    case Typed(text) => text
  }

  /** The requests with a name, up to QUIT. */
  function Named(lib: P.Library, rs: seq<Request>): seq<Request> {
    if rs == [] then []
    else
      (if NameOf(lib, rs[0]) == [] then [] else [rs[0]]) +
      (if NameOf(lib, rs[0]) == P.QUIT then [] else Named(lib, rs[1..]))
  }

  // ---------- the server's replies ----------

  /** A simple error or a bulk error, attributes in front of it left aside. */
  predicate IsError(v: Resp) {
    match v
    case Error(_) => true
    case BulkError(_) => true
    case Attributed(_, x) => IsError(x)
    case _ => false
  }

  function ErrorText(v: Resp): bytes {
    match v
    case Error(t) => t
    case BulkError(Some(b)) => b
    case Attributed(_, x) => ErrorText(x)
    case _ => []
  }

  function WithoutPushes(vs: seq<Resp>): seq<Resp> {
    if vs == [] then [] else (if IsPush(vs[0]) then [] else [vs[0]]) + WithoutPushes(vs[1..])
  }

  // ---------- what an entry says ----------

  ghost predicate Tells(lib: P.Library, r: Request, v: Resp, entry: P.LogEntry) {
    && entry.name == NameOf(lib, r) && entry.command == TextOf(r)
    && (entry.success <==> !IsError(v)) && entry.error == ErrorText(v)
    && entry.reply == Meaning(lib.isFloat, v)
  }

  /** The places, among the first `n` requests, of those that are not internal, in order. */
  function Places(lib: P.Library, named: seq<Request>, n: nat): seq<nat>
    requires n <= |named|
  {
    if n == 0 then []
    else Places(lib, named, n - 1) + (if NameOf(lib, named[n - 1]) in {P.AUTH, P.HELLO, P.CLIENT} then [] else [n - 1])
  }

  /** One entry for each of the first `n` requests that is not internal, in order, telling it and its reply. */
  ghost predicate LogTells(lib: P.Library, named: seq<Request>, replies: seq<Resp>, n: nat, log: seq<P.LogEntry>)
    requires n <= |named| && n <= |replies|
  {
    var places := Places(lib, named, n);
    |log| == |places| &&
    forall j :: 0 <= j < |places| ==> places[j] < n && Tells(lib, named[places[j]], replies[places[j]], log[j])
  }

  // ---------- requests are read ----------

  lemma {:induction false} WordsAreRead(isFloat: FloatSyntax, words: seq<bytes>)
    ensures |MeaningAll(isFloat, Bulks(words))| == |words|
    ensures P.Join(MeaningAll(isFloat, Bulks(words))) == Spaced(words)
    ensures words != [] ==> MeaningAll(isFloat, Bulks(words))[0].str == words[0]
  {
    if words != [] {
      WordsAreRead(isFloat, words[1..]);
      assert Bulks(words)[1..] == Bulks(words[1..]);
      var items := MeaningAll(isFloat, Bulks(words));
      assert Bulks(words)[0] == Bulk(Some(words[0]));
      assert Meaning(isFloat, Bulk(Some(words[0]))) == Text(BULK, words[0]);
      assert items == [Text(BULK, words[0])] + MeaningAll(isFloat, Bulks(words[1..]));
      assert items[1..] == MeaningAll(isFloat, Bulks(words[1..]));
    }
  }

  lemma RequestIsRead(lib: P.Library, r: Request)
    ensures var v := Meaning(lib.isFloat, RespOf(r));
            P.CommandName(lib, v) == NameOf(lib, r) && (NameOf(lib, r) != [] ==> P.CommandText(v) == TextOf(r))
  {
    if r.Words? {
      WordsAreRead(lib.isFloat, r.words);
      hide MeaningAll, P.Join;
      assert Meaning(lib.isFloat, RespOf(r)) == Elements(ARRAY, MeaningAll(lib.isFloat, Bulks(r.words)));
    }
  }

  lemma {:induction false} BulksAreWellFormed(isFloat: FloatSyntax, words: seq<bytes>)
    requires forall i :: 0 <= i < |words| ==> |words[i]| <= MAX_INT64
    ensures |Bulks(words)| == |words| && AllWellFormed(isFloat, Bulks(words)) && AllBare(Bulks(words))
  {
    if words != [] {
      BulksAreWellFormed(isFloat, words[1..]);
      assert Bulks(words) == [Bulk(Some(words[0]))] + Bulks(words[1..]);
    }
  }

  lemma RequestIsWellFormed(isFloat: FloatSyntax, r: Request)
    requires ValidRequest(r)
    ensures WellFormed(isFloat, RespOf(r)) && Bare(RespOf(r))
  {
    if r.Words? {
      BulksAreWellFormed(isFloat, r.words);
    }
  }

  /** What a request puts on the queue. */
  function PendingOf(lib: P.Library, r: Request): P.Pending {
    P.Pending(if P.IsInternal(NameOf(lib, r)) then [] else TextOf(r), NameOf(lib, r))
  }

  function AllPending(lib: P.Library, rs: seq<Request>): (s: seq<P.Pending>)
    ensures |s| == |rs|
    ensures forall i :: 0 <= i < |rs| ==> s[i] == PendingOf(lib, rs[i])
  {
    if rs == [] then [] else [PendingOf(lib, rs[0])] + AllPending(lib, rs[1..])
  }

  lemma {:induction false} RequestsAreQueued(lib: P.Library, rs: seq<Request>)
    requires forall i :: 0 <= i < |rs| ==> ValidRequest(rs[i])
    ensures P.Commands(lib, EncodeAll(RespsOf(rs))) == AllPending(lib, Named(lib, rs))
    decreases |rs|
  {
    hide ReadValue, Encode, Meaning, Bare, WellFormed, P.CommandName, P.CommandText, NameOf, TextOf, RespOf, ValidRequest;
    if rs == [] {
      P.NothingToRead(lib.isFloat);
    } else {
      var v, tail := RespOf(rs[0]), EncodeAll(RespsOf(rs[1..]));
      assert RespsOf(rs)[1..] == RespsOf(rs[1..]) && EncodeAll(RespsOf(rs)) == Encode(v) + tail;
      RequestIsWellFormed(lib.isFloat, rs[0]);
      BareRoundTrip(lib.isFloat, v, tail);
      RequestIsRead(lib, rs[0]);
      RequestsAreQueued(lib, rs[1..]);
      var rest := if NameOf(lib, rs[0]) == P.QUIT then [] else Named(lib, rs[1..]);
      assert Named(lib, rs) == [rs[0]] + rest ==> Named(lib, rs)[1..] == rest;
      assert NameOf(lib, rs[0]) == [] ==> Named(lib, rs) == [] + rest == rest;
    }
  }

  // ---------- replies are read ----------

  lemma {:induction false} RepliesMean(isFloat: FloatSyntax, vs: seq<Resp>)
    ensures |Meant(isFloat, vs)| == |WithoutPushes(vs)|
    ensures forall k :: 0 <= k < |Meant(isFloat, vs)| ==> Meant(isFloat, vs)[k] == Meaning(isFloat, WithoutPushes(vs)[k])
  {
    hide Meaning, IsPush;
    if vs != [] {
      RepliesMean(isFloat, vs[1..]);
    }
  }

  /** A value is kept as an error exactly when it is one. */
  lemma {:induction false} ErrorIsRead(isFloat: FloatSyntax, v: Resp)
    requires WellFormed(isFloat, v)
    ensures Meaning(isFloat, v).typ == ERROR <==> IsError(v)
    ensures IsError(v) ==> Meaning(isFloat, v).str == ErrorText(v)
    ensures !IsError(v) ==> ErrorText(v) == []
    decreases v
  {
    match v
    case Attributed(_, x) => ErrorIsRead(isFloat, x);
    case _ => hide MeaningAll, AllWellFormed;
  }

  // ---------- the log ----------

  lemma PairTells(lib: P.Library, r: Request, v: Resp)
    requires lib.upper([]) == [] && NameOf(lib, r) != [] && ValidRequest(r) && WellFormed(lib.isFloat, v)
    ensures P.Loggable(PendingOf(lib, r)) <==> NameOf(lib, r) !in {P.AUTH, P.HELLO, P.CLIENT}
    ensures P.Loggable(PendingOf(lib, r)) ==> Tells(lib, r, v, P.EntryOf(PendingOf(lib, r), Meaning(lib.isFloat, v)))
  {
    hide Meaning, WellFormed;
    ErrorIsRead(lib.isFloat, v);
    assert r.Words? ==> r.words != [] && r.words[0] != [];
    assert TextOf(r) != [];
  }

  lemma {:induction false} PairsTell(lib: P.Library, named: seq<Request>, replies: seq<Resp>, ps: seq<(P.Pending, Value)>,
                                     n: nat)
    requires lib.upper([]) == [] && n == |ps| && n <= |named| && n <= |replies|
    requires forall k :: 0 <= k < n ==> NameOf(lib, named[k]) != [] && ValidRequest(named[k])
    requires forall k :: 0 <= k < n ==> WellFormed(lib.isFloat, replies[k])
    requires forall k :: 0 <= k < n ==> ps[k] == (PendingOf(lib, named[k]), Meaning(lib.isFloat, replies[k]))
    ensures LogTells(lib, named, replies, n, P.LogOf(ps))
  {
    hide NameOf, ValidRequest, WellFormed, Meaning, Tells, PendingOf, P.Loggable, P.EntryOf;
    if n > 0 {
      var front, last := ps[..n - 1], ps[n - 1];
      PairsTell(lib, named, replies, front, n - 1);
      PairTells(lib, named[n - 1], replies[n - 1]);
      assert ps == front + [last] && [last][1..] == [];
      P.LogOfConcat(front, [last]);
      assert P.LogOf([]) == [];
    }
  }

  lemma {:induction false} NamedAreNamed(lib: P.Library, rs: seq<Request>)
    requires forall i :: 0 <= i < |rs| ==> ValidRequest(rs[i])
    ensures forall k :: 0 <= k < |Named(lib, rs)| ==> NameOf(lib, Named(lib, rs)[k]) != [] && ValidRequest(Named(lib, rs)[k])
  {
    hide NameOf, ValidRequest;
    if rs != [] {
      NamedAreNamed(lib, rs[1..]);
    }
  }

  lemma {:induction false} RepliesAreWellFormed(isFloat: FloatSyntax, vs: seq<Resp>)
    requires ServerValues(isFloat, vs)
    ensures forall k :: 0 <= k < |WithoutPushes(vs)| ==> WellFormed(isFloat, WithoutPushes(vs)[k])
  {
    hide WellFormed, Proper, IsPush;
    if vs != [] {
      RepliesAreWellFormed(isFloat, vs[1..]);
    }
  }

  /** In every interleaving of the two loops, for any requests of the client and any values of the server
      without an attribute inside: the log holds, in order, one entry for each pair that is not internal.
      The entry of the k-th pair has the name and the words of the client's k-th named request, succeeds if
      and only if the server's k-th reply is neither a simple nor a bulk error, and holds its meaning. */
  lemma RepliesAreLogged(lib: P.Library, rs: seq<Request>, vs: seq<Resp>, events: seq<P.Event>)
    requires lib.upper([]) == [] && forall i :: 0 <= i < |rs| ==> ValidRequest(rs[i])
    requires ServerValues(lib.isFloat, vs) && AllClean(vs)
    ensures var start := P.Start(EncodeAll(RespsOf(rs)), EncodeAll(vs));
            var n := |P.Pairs(lib, start, events)|;
            && n <= |Named(lib, rs)| && n <= |WithoutPushes(vs)|
            && LogTells(lib, Named(lib, rs), WithoutPushes(vs), n, P.Run(lib, start, events).log)
  {
    hide P.Pairs, P.Run, P.Commands, P.Replies, Named, Meant, AllClean, EncodeAll, NameOf, ValidRequest, WellFormed, Meaning,
      PendingOf, WithoutPushes, LogTells, ServerValues;
    P.RepliesArePaired(lib, EncodeAll(RespsOf(rs)), EncodeAll(vs), events);
    RequestsAreQueued(lib, rs);
    RepliesAreMeantIff(lib, vs);
    RepliesMean(lib.isFloat, vs);
    NamedAreNamed(lib, rs);
    RepliesAreWellFormed(lib.isFloat, vs);
    var ps := P.Pairs(lib, P.Start(EncodeAll(RespsOf(rs)), EncodeAll(vs)), events);
    PairsTell(lib, Named(lib, rs), WithoutPushes(vs), ps, |ps|);
  }
}
