/** The messages of a Mongo connection: requests waiting for their responses, and responses the server
    streams (services/db-proxy/mongo/connection.go, lines 79 to 165). */
module MongoExchanges {
  import opened Bytes
  import opened Options
  import opened MongoCursors

  /** A message of the client, with its command when that is one to log, or of the server. After a
      server message with `moreToCome` the next one comes unasked. A message of another opcode than OP_MSG
      is one without a command, or one in response to 0. */
  datatype Message =
    | Asked(id: int, moreToCome: bool, command: Option<Command>)
    | Replied(responseTo: int, moreToCome: bool, info: Info)

  /** `streaming` is where the server's relay loop stands: inside its inner loop or not. */
  datatype Relay = Relay(pending: map<int, Command>, cursors: Cursors, log: seq<LogEntry>, streaming: bool)

  function Next(r: Relay, m: Message): Relay {
    match m
    case Asked(id, moreToCome, command) =>
      if command.Some? && !moreToCome then r.(pending := r.pending[id := command.value]) else r
    case Replied(responseTo, moreToCome, info) =>
      if r.streaming || responseTo == 0 || responseTo !in r.pending then r.(streaming := moreToCome)
      else
        var (cursors, entries) := Answer(r.cursors, r.pending[responseTo], info);
        Relay(r.pending - {responseTo}, cursors, r.log + entries, moreToCome)
  }

  const START := Relay(map[], map[], [], false)

  function Relayed(ms: seq<Message>): Relay {
    if ms == [] then START else Next(Relayed(ms[..|ms| - 1]), ms[|ms| - 1])
  }

  method RelayMessages(p: Proxy, ms: seq<Message>)
    requires p.pending == map[] && p.cursors == map[] && p.log == []
    modifies p
    ensures p.pending == Relayed(ms).pending && p.cursors == Relayed(ms).cursors && p.log == Relayed(ms).log
  {
    hide Answer;
    var streaming := false;
    for i := 0 to |ms|
      invariant Relay(p.pending, p.cursors, p.log, streaming) == Relayed(ms[..i])
    {
      assert ms[..i + 1][..i] == ms[..i];
      match ms[i] {
        case Asked(id, moreToCome, command) =>
          if command.Some? && !moreToCome {
            p.Request(id, command.value);
          }
        case Replied(responseTo, moreToCome, info) =>
          if !streaming {
            p.Response(responseTo, info);
          }
          streaming := moreToCome;
      }
    }
    assert ms[..|ms|] == ms;
  }

  // ---------- requests and the replies to them ----------

  /** The last reply announced another. */
  predicate Streaming(ms: seq<Message>) {
    ms != [] &&
    var n := |ms| - 1;
    if ms[n].Replied? then ms[n].moreToCome else Streaming(ms[..n])
  }

  predicate IsRequest(m: Message, id: int) {
    m.Asked? && m.id == id && !m.moreToCome && m.command.Some?
  }

  /** The j-th message is the response to request `id`, not part of a stream. */
  predicate Responds(ms: seq<Message>, j: nat, id: int)
    requires j < |ms|
  {
    ms[j].Replied? && ms[j].responseTo == id && id != 0 && !Streaming(ms[..j])
  }

  /** The i-th message is a request still waiting: none with its id and no response to it came after. */
  ghost predicate Waits(ms: seq<Message>, i: nat, id: int) {
    && i < |ms| && IsRequest(ms[i], id)
    && forall j :: i < j < |ms| ==> !IsRequest(ms[j], id) && !Responds(ms, j, id)
  }

  lemma WaitsAppended(ms: seq<Message>, m: Message, i: nat, id: int)
    ensures Waits(ms + [m], i, id) <==>
            if i == |ms| then IsRequest(m, id)
            else Waits(ms, i, id) && !IsRequest(m, id) && !Responds(ms + [m], |ms|, id)
  {
    var all := ms + [m];
    assert forall j: nat :: j < |ms| ==> all[j] == ms[j];
    forall j: nat, k | j < |ms| ensures Responds(all, j, k) == Responds(ms, j, k) {
      assert all[..j] == ms[..j];
    }
    hide Responds;
    if i < |ms| && Waits(all, i, id) {
      assert all[|ms|] == m && !IsRequest(all[|ms|], id);
      forall j | i < j < |ms| ensures !IsRequest(ms[j], id) && !Responds(ms, j, id) {
        assert !IsRequest(all[j], id);
      }
    }
  }

  /** The requests remembered are exactly those waiting, in every run. */
  ghost predicate HoldsWaiting(pending: map<int, Command>, ms: seq<Message>) {
    && (forall i: nat, id :: Waits(ms, i, id) ==> id in pending && pending[id] == ms[i].command.value)
    && (forall id :: id in pending ==> exists i: nat :: Waits(ms, i, id))
  }

  lemma {:induction false} PendingIsWaiting(ms: seq<Message>)
    ensures HoldsWaiting(Relayed(ms).pending, ms) && Relayed(ms).streaming == Streaming(ms)
  {
    hide Answer;
    if ms != [] {
      var n := |ms| - 1;
      var front, m := ms[..n], ms[n];
      assert ms == front + [m];
      PendingIsWaiting(front);
      OneMessage(Relayed(front), front, m);
    }
  }

  lemma OneMessage(r: Relay, front: seq<Message>, m: Message)
    requires HoldsWaiting(r.pending, front) && r.streaming == Streaming(front)
    ensures HoldsWaiting(Next(r, m).pending, front + [m])
  {
    hide Answer, Waits;
    var ms, n, pending := front + [m], |front|, Next(r, m).pending;
    assert ms[..n] == front && ms[n] == m;
    forall i: nat, id | Waits(ms, i, id)
      ensures i < |ms| && IsRequest(ms[i], id) && id in pending && pending[id] == ms[i].command.value
    {
      WaitsAppended(front, m, i, id);
      WaitingIsARequest(ms, i, id);
    }
    forall id | id in pending ensures exists i: nat :: Waits(ms, i, id) {
      if IsRequest(m, id) {
        WaitsAppended(front, m, n, id);
      } else {
        var i: nat :| Waits(front, i, id);
        WaitingIsARequest(front, i, id);
        WaitsAppended(front, m, i, id);
      }
    }
  }

  lemma WaitingIsARequest(ms: seq<Message>, i: nat, id: int)
    requires Waits(ms, i, id)
    ensures i < |ms| && IsRequest(ms[i], id)
  {
  }

  /** In every run: a response outside a stream is logged with the request that waits for it, under its own
      id, if there is one; every other message of the server leaves requests, cursors and log alone. */
  lemma ResponseMeetsItsRequest(ms: seq<Message>, j: nat)
    requires j < |ms| && ms[j].Replied?
    ensures var before, after := Relayed(ms[..j]), Relayed(ms[..j + 1]);
            var id := ms[j].responseTo;
            && (forall i: nat :: Waits(ms[..j], i, id) && Responds(ms, j, id) ==>
                  var (cursors, entries) := Answer(before.cursors, ms[i].command.value, ms[j].info);
                  after.cursors == cursors && after.log == before.log + entries && after.pending == before.pending - {id})
            && ((forall i: nat :: !Waits(ms[..j], i, id)) || !Responds(ms, j, id) ==>
                  after.cursors == before.cursors && after.log == before.log && after.pending == before.pending)
  {
    hide Answer, Waits;
    PendingIsWaiting(ms[..j]);
    assert ms[..j + 1][..j] == ms[..j];
    forall i: nat | Waits(ms[..j], i, ms[j].responseTo) ensures i < j && ms[..j][i] == ms[i] {
      WaitingIsARequest(ms[..j], i, ms[j].responseTo);
    }
  }

  // ---------- what is answered ----------

  /** The command a message of the server answers as the relay takes it. */
  function Taken(front: seq<Message>, m: Message): Option<Command> {
    var pending := Relayed(front).pending;
    if m.Replied? && !Streaming(front) && m.responseTo != 0 && m.responseTo in pending then Some(pending[m.responseTo])
    else None
  }

  /** The commands answered, each with its answer, as the relay takes them. */
  function Answered(ms: seq<Message>): seq<(Command, Info)> {
    if ms == [] then []
    else
      var front, m := ms[..|ms| - 1], ms[|ms| - 1];
      Answered(front) + (if Taken(front, m).Some? then [(Taken(front, m).value, m.info)] else [])
  }

  /** The cursor runs' events are the answered commands, with tags of their own. */
  ghost predicate Tells(es: seq<Event>, answered: seq<(Command, Info)>) {
    |es| == |answered| && forall i :: 0 <= i < |es| ==> (es[i].command, es[i].info) == answered[i]
  }

  /** Cursors and log of a connection are those of its answered commands. */
  lemma {:induction false} ConnectionIsItsAnswers(ms: seq<Message>, es: seq<Event>)
    requires Tells(es, Answered(ms))
    ensures After(es) == (Relayed(ms).cursors, Relayed(ms).log)
  {
    hide Answer;
    if ms != [] {
      var n := |ms| - 1;
      var front, m := ms[..n], ms[n];
      PendingIsWaiting(front);
      if Taken(front, m).Some? {
        ConnectionIsItsAnswers(front, es[..|es| - 1]);
      } else {
        ConnectionIsItsAnswers(front, es);
      }
    }
  }

  /** In every run whose answers are legal the map holds exactly the open finds and the log what is due. */
  lemma ConnectionIsCollected(ms: seq<Message>, es: seq<Event>)
    requires Tells(es, Answered(ms)) && Legal(es)
    ensures HoldsOpenFinds(Relayed(ms).cursors, es) && Relayed(ms).log == DueLog(es)
  {
    hide Relayed, After, HoldsOpenFinds, Legal, Tells, Answered;
    ConnectionIsItsAnswers(ms, es);
    FindsAreCollected(es);
  }

  // ---------- streams ----------

  /** The logged command whose answers the server is streaming. */
  function Streamed(ms: seq<Message>): Option<Command> {
    if ms == [] then None
    else
      var front, m := ms[..|ms| - 1], ms[|ms| - 1];
      if m.Replied? && !Streaming(front) then Taken(front, m) else Streamed(front)
  }

  /** The command a message of the server answers; in a stream, the one whose response opened it. */
  function Meant(front: seq<Message>, m: Message): Option<Command> {
    if m.Replied? && Streaming(front) then Streamed(front) else Taken(front, m)
  }

  /** The commands answered, each with its answers, as the server gives them. */
  function Said(ms: seq<Message>): seq<(Command, Info)> {
    if ms == [] then []
    else
      var front, m := ms[..|ms| - 1], ms[|ms| - 1];
      Said(front) + (if Meant(front, m).Some? then [(Meant(front, m).value, m.info)] else [])
  }

  /** The message is an answer of a logged command that comes in a stream. */
  predicate IsStreamed(front: seq<Message>, m: Message) {
    m.Replied? && Streaming(front) && Streamed(front).Some?
  }

  /** No answer of a logged command comes in a stream. */
  ghost predicate NothingStreamed(ms: seq<Message>) {
    forall j :: 0 <= j < |ms| ==> !IsStreamed(ms[..j], ms[j])
  }

  lemma NothingStreamedAppended(ms: seq<Message>, n: nat)
    requires |ms| == n + 1
    ensures NothingStreamed(ms) <==> NothingStreamed(ms[..n]) && !IsStreamed(ms[..n], ms[n])
  {
    hide IsStreamed;
    forall j | 0 <= j < n ensures IsStreamed(ms[..n][..j], ms[..n][j]) == IsStreamed(ms[..j], ms[j]) {
      assert ms[..n][..j] == ms[..j];
    }
    assert NothingStreamed(ms) ==> !IsStreamed(ms[..n], ms[n]);
    if !NothingStreamed(ms[..n]) {
      var j :| 0 <= j < n && IsStreamed(ms[..n][..j], ms[..n][j]);
      assert IsStreamed(ms[..j], ms[j]);
    }
  }

  lemma MeantAndTaken(front: seq<Message>, m: Message)
    ensures if IsStreamed(front, m) then Meant(front, m).Some? && Taken(front, m) == None
            else Meant(front, m) == Taken(front, m)
  {
    hide Streaming, Streamed, Relayed;
  }

  lemma {:induction false} SaidAgainstAnswered(ms: seq<Message>)
    ensures if NothingStreamed(ms) then Answered(ms) == Said(ms) else |Answered(ms)| < |Said(ms)|
  {
    hide NothingStreamed, IsStreamed, Meant, Taken;
    if ms == [] {
      NothingStreamedAtFirst();
    } else {
      var n := |ms| - 1;
      SaidAgainstAnswered(ms[..n]);
      NothingStreamedAppended(ms, n);
      MeantAndTaken(ms[..n], ms[n]);
    }
  }

  lemma NothingStreamedAtFirst()
    ensures NothingStreamed([])
  {
  }

  /** The relay takes every answer the server gives, if and only if none of a logged command comes in a
      stream. */
  lemma EveryAnswerIsTakenIff(ms: seq<Message>)
    ensures Answered(ms) == Said(ms) <==> NothingStreamed(ms)
  {
    SaidAgainstAnswered(ms);
  }

  /** A find whose last batch comes in a stream stays in the map without it and is never logged. */
  lemma StreamedFindStays(find: bytes, more: bytes, rows: seq<Row>, next: seq<Row>, last: seq<Row>)
    ensures var ms := [Asked(1, false, Some(Command(Find, find))), Replied(1, false, Info(true, 0, [], Some(rows), 7)),
                       Asked(2, false, Some(Command(GetMore(7), more))), Replied(2, true, Info(true, 0, [], Some(next), 7)),
                       Replied(9, false, Info(true, 0, [], Some(last), 0))];
            Relayed(ms) == Relay(map[], map[7 := Accumulator(find, rows + next)], [], false)
  {
    var m0, m1 := Asked(1, false, Some(Command(Find, find))), Replied(1, false, Info(true, 0, [], Some(rows), 7));
    var m2, m3 := Asked(2, false, Some(Command(GetMore(7), more))), Replied(2, true, Info(true, 0, [], Some(next), 7));
    var m4 := Replied(9, false, Info(true, 0, [], Some(last), 0));
    var none: seq<LogEntry> := [];
    assert none + [] == none;
    var held := map[7 := Accumulator(find, rows)];
    assert [m0][..0] == [] && [m0, m1][..1] == [m0] && [m0, m1, m2][..2] == [m0, m1];
    assert [m0, m1, m2, m3][..3] == [m0, m1, m2] && [m0, m1, m2, m3, m4][..4] == [m0, m1, m2, m3];
    assert Relayed([m0]) == Relay(map[1 := m0.command.value], map[], [], false);
    assert map[1 := m0.command.value] - {1} == map[];
    assert Relayed([m0, m1]) == Relay(map[], held, [], false);
    assert Relayed([m0, m1, m2]) == Relay(map[2 := m2.command.value], held, [], false);
    assert map[2 := m2.command.value] - {2} == map[];
    assert Relayed([m0, m1, m2, m3]) == Relay(map[], map[7 := Accumulator(find, rows + next)], [], true);
  }
}
