/** The two relay loops of a Redis connection, paired through a queue of pending commands
    (services/db-proxy/redis/connection.go). */
module RedisPairing {
  import opened Bytes
  import opened Options
  import opened RespReader

  const AUTH: bytes := ['A' as int, 'U' as int, 'T' as int, 'H' as int]
  const HELLO: bytes := ['H' as int, 'E' as int, 'L' as int, 'L' as int, 'O' as int]
  const CLIENT: bytes := ['C' as int, 'L' as int, 'I' as int, 'E' as int, 'N' as int, 'T' as int]
  const QUIT: bytes := ['Q' as int, 'U' as int, 'I' as int, 'T' as int]
  const SPACE: byte := ' ' as int

  /** The capacity of the pending queue. */
  const CAPACITY := 1024

  /** Go's strings.ToUpper and strings.Fields, and the accepted float texts. */
  datatype Library = Library(upper: bytes -> bytes, fields: bytes -> seq<bytes>, isFloat: FloatSyntax)

  datatype Pending = Pending(command: bytes, name: bytes)

  datatype LogEntry = LogEntry(command: bytes, name: bytes, success: bool, error: bytes, reply: Value)

  // ---------- commands ----------

  function Join(parts: seq<Value>): bytes {
    if parts == [] then []
    else if |parts| == 1 then parts[0].str
    else parts[0].str + [SPACE] + Join(parts[1..])
  }

  function CommandText(v: Value): bytes {
    if v.typ != ARRAY || v.isNull || v.items == [] then (if v.typ == SIMPLE then v.str else [])
    else Join(v.items)
  }

  function CommandName(lib: Library, v: Value): bytes {
    if v.typ != ARRAY || v.isNull || v.items == [] then
      if v.typ == SIMPLE && lib.fields(v.str) != [] then lib.upper(lib.fields(v.str)[0]) else []
    else lib.upper(v.items[0].str)
  }

  predicate IsInternal(name: bytes) { name in {AUTH, HELLO, CLIENT} }

  /** What a client value puts on the queue: a named command, a placeholder for an internal one,
      or nothing when it has no name. */
  function Queued(lib: Library, v: Value): seq<Pending> {
    var name := CommandName(lib, v);
    if IsInternal(name) then [Pending([], name)]
    else if name != [] then [Pending(CommandText(v), name)]
    else []
  }

  predicate Loggable(p: Pending) { !IsInternal(p.name) && p.command != [] }

  function EntryOf(p: Pending, v: Value): LogEntry {
    LogEntry(p.command, p.name, v.typ != ERROR, if v.typ == ERROR then v.str else [], v)
  }

  // ---------- the loops, one step at a time ----------

  /** `clientRest` and `serverRest` are the bytes still to be read; the client loop is over once
      `closed`, the server loop once `stopped`. */
  datatype State = State(
    clientRest: bytes, serverRest: bytes, pending: seq<Pending>, closed: bool, current: Option<Pending>,
    stopped: bool, toServer: bytes, toClient: bytes, log: seq<LogEntry>)

  /** The client loop reads and forwards a command; the server loop takes a pending command, or
      reads and forwards a reply. A forwarding write may fail. */
  datatype Event = ClientReads(writeOk: bool) | Takes | ServerReads(writeOk: bool)

  function Consumed(before: bytes, rest: bytes): bytes
    requires |rest| <= |before|
  {
    before[..|before| - |rest|]
  }

  function ClientStep(lib: Library, st: State, writeOk: bool): State {
    if st.closed || |st.pending| >= CAPACITY then st
    else
      match ReadValue(lib.isFloat, st.clientRest)
      case Ok(v, rest) =>
        var sent := st.(pending := st.pending + Queued(lib, v));
        if !writeOk then sent.(closed := true, clientRest := [])
        else
          var forwarded := sent.(toServer := st.toServer + Consumed(st.clientRest, rest));
          if CommandName(lib, v) == QUIT then forwarded.(closed := true, clientRest := [])
          else forwarded.(clientRest := rest)
      case _ => st.(closed := true, clientRest := [])
  }

  function TakeStep(st: State): State {
    if st.stopped || st.current.Some? then st
    else if st.pending != [] then st.(current := Some(st.pending[0]), pending := st.pending[1..])
    else if st.closed then st.(stopped := true, serverRest := [])
    else st
  }

  function ServerStep(lib: Library, st: State, writeOk: bool): State {
    if st.stopped || st.current == None then st
    else
      match ReadValue(lib.isFloat, st.serverRest)
      case Ok(v, rest) =>
        if !writeOk then st.(stopped := true, serverRest := [])
        else
          var forwarded := st.(toClient := st.toClient + Consumed(st.serverRest, rest), serverRest := rest);
          if !IsOrdinary(v) then forwarded
          else if !Loggable(st.current.value) then forwarded.(current := None)
          else forwarded.(current := None, log := st.log + [EntryOf(st.current.value, v)])
      case _ => st.(stopped := true, serverRest := [])
  }

  function Step(lib: Library, st: State, e: Event): State {
    match e
    case ClientReads(ok) => ClientStep(lib, st, ok)
    case Takes => TakeStep(st)
    case ServerReads(ok) => ServerStep(lib, st, ok)
  }

  lemma CutFront(raw: bytes, rest: bytes, whole: bytes)
    requires raw + rest == [] + whole
    ensures |rest| <= |whole| && raw == Consumed(whole, rest)
  {
    assert raw == (raw + rest)[..|raw|];
  }

  class Relay {
    const lib: Library
    const client: Stream
    const server: Stream
    var pending: seq<Pending>
    var closed: bool
    var current: Option<Pending>
    var stopped: bool
    var toServer: bytes
    var toClient: bytes
    var log: seq<LogEntry>

    ghost predicate Valid() { client != server }

    ghost function View(): State
      reads this, client, server
    {
      State(if closed then [] else client.rest, if stopped then [] else server.rest, pending, closed, current, stopped,
            toServer, toClient, log)
    }

    constructor (lib: Library, clientBytes: bytes, serverBytes: bytes)
      ensures Valid() && fresh(client) && fresh(server)
      ensures this.lib == lib && View() == Start(clientBytes, serverBytes)
    {
      this.lib := lib;
      client := new Stream(clientBytes);
      server := new Stream(serverBytes);
      pending, closed, current, stopped := [], false, None, false;
      toServer, toClient, log := [], [], [];
    }

    /** One turn of relayClientToUpstream. */
    method RelayCommand(writeOk: bool)
      requires Valid()
      modifies this, client
      ensures View() == ClientStep(lib, old(View()), writeOk)
    {
      hide ReadValue;
      if closed || |pending| >= CAPACITY {
        return;
      }
      var result, rawBytes := ReadResp(lib.isFloat, client);
      if !result.Ok? {
        closed := true;
        return;
      }
      var v := result.value;
      var name := CommandName(lib, v);
      if !IsInternal(name) && name != [] {
        pending := pending + [Pending(CommandText(v), name)];
      } else if IsInternal(name) {
        pending := pending + [Pending([], name)];
      }
      assert pending == old(pending) + Queued(lib, v);
      if !writeOk {
        closed := true;
        return;
      }
      CutFront(rawBytes, client.rest, old(client.rest));
      toServer := toServer + rawBytes;
      if name == QUIT {
        closed := true;
      }
    }

    /** The head of the loop in relayUpstreamToClient: the next pending command, or the end. */
    method TakePending()
      requires Valid()
      modifies this
      ensures View() == TakeStep(old(View()))
    {
      if stopped || current.Some? {
        return;
      }
      if |pending| > 0 {
        current := Some(pending[0]);
        pending := pending[1..];
      } else if closed {
        stopped := true;
      }
    }

    /** One turn of the inner loop in relayUpstreamToClient. */
    method RelayReply(writeOk: bool)
      requires Valid()
      modifies this, server
      ensures View() == ServerStep(lib, old(View()), writeOk)
    {
      hide ReadValue;
      if stopped || current == None {
        return;
      }
      var result, rawBytes := ReadResp(lib.isFloat, server);
      if !result.Ok? || !writeOk {
        stopped := true;
        return;
      }
      CutFront(rawBytes, server.rest, old(server.rest));
      toClient := toClient + rawBytes;
      if result.value.typ == PUSH || result.value.typ == ATTRIBUTE {
        return;
      }
      if Loggable(current.value) {
        log := log + [EntryOf(current.value, result.value)];
      }
      current := None;
    }
  }

  // ---------- whole runs ----------

  function Start(clientBytes: bytes, serverBytes: bytes): State {
    State(clientBytes, serverBytes, [], false, None, false, [], [], [])
  }

  function Run(lib: Library, st: State, events: seq<Event>): State
    decreases |events|
  {
    if events == [] then st else Run(lib, Step(lib, st, events[0]), events[1..])
  }

  /** The commands a client stream queues, in order, up to QUIT or the first unreadable value. */
  function Commands(lib: Library, s: bytes): seq<Pending>
    decreases |s|
  {
    match ReadValue(lib.isFloat, s)
    case Ok(v, rest) => Queued(lib, v) + (if CommandName(lib, v) == QUIT then [] else Commands(lib, rest))
    case _ => []
  }

  /** The ordinary replies of a server stream, in order, pushes and attributes left out. */
  function Replies(lib: Library, s: bytes): seq<Value>
    decreases |s|
  {
    match ReadValue(lib.isFloat, s)
    case Ok(v, rest) => (if IsOrdinary(v) then [v] else []) + Replies(lib, rest)
    case _ => []
  }

  /** The command and reply paired at each step that pairs one. */
  function PairAt(lib: Library, st: State, e: Event): seq<(Pending, Value)> {
    if e != ServerReads(true) || st.stopped || st.current == None then []
    else
      match ReadValue(lib.isFloat, st.serverRest)
      case Ok(v, _) => if IsOrdinary(v) then [(st.current.value, v)] else []
      case _ => []
  }

  function Pairs(lib: Library, st: State, events: seq<Event>): seq<(Pending, Value)>
    decreases |events|
  {
    if events == [] then [] else PairAt(lib, st, events[0]) + Pairs(lib, Step(lib, st, events[0]), events[1..])
  }

  function Firsts(ps: seq<(Pending, Value)>): (s: seq<Pending>)
    ensures |s| == |ps|
  {
    seq(|ps|, i requires 0 <= i < |ps| => ps[i].0)
  }

  function Seconds(ps: seq<(Pending, Value)>): (s: seq<Value>)
    ensures |s| == |ps|
  {
    seq(|ps|, i requires 0 <= i < |ps| => ps[i].1)
  }

  /** The log the pairs are worth: internal placeholders keep their place and are left out. */
  function LogOf(ps: seq<(Pending, Value)>): seq<LogEntry> {
    if ps == [] then []
    else if Loggable(ps[0].0) then [EntryOf(ps[0].0, ps[0].1)] + LogOf(ps[1..])
    else LogOf(ps[1..])
  }

  function Waiting(lib: Library, st: State): seq<Pending> {
    (if st.current.Some? then [st.current.value] else []) + st.pending + Commands(lib, st.clientRest)
  }

  lemma {:induction false} LogOfConcat(a: seq<(Pending, Value)>, b: seq<(Pending, Value)>)
    ensures LogOf(a + b) == LogOf(a) + LogOf(b)
  {
    hide Loggable, EntryOf;
    if a == [] {
      assert a + b == b;
    } else {
      LogOfConcat(a[1..], b);
      assert (a + b)[1..] == a[1..] + b;
    }
  }

  function CurrentOf(st: State): seq<Pending> {
    if st.current.Some? then [st.current.value] else []
  }

  lemma QueueGrows(cur: seq<Pending>, pending: seq<Pending>, q: seq<Pending>, left: seq<Pending>, all: seq<Pending>)
    requires left <= all
    ensures cur + (pending + q) + left <= cur + pending + (q + all)
    ensures left == all ==> cur + (pending + q) + left == cur + pending + (q + all)
  {
    assert cur + (pending + q) + left == cur + pending + (q + left);
  }

  lemma ClientStepConserves(lib: Library, st: State, writeOk: bool)
    ensures Waiting(lib, ClientStep(lib, st, writeOk)) <= Waiting(lib, st)
    ensures writeOk ==> Waiting(lib, ClientStep(lib, st, writeOk)) == Waiting(lib, st)
  {
    NothingToRead(lib.isFloat);
    hide ReadValue, Queued, CommandName, Consumed;
    var next := ClientStep(lib, st, writeOk);
    assert Commands(lib, []) == [];
    if !st.closed && |st.pending| < CAPACITY {
      match ReadValue(lib.isFloat, st.clientRest)
      case Ok(v, rest) =>
        var all := if CommandName(lib, v) == QUIT then [] else Commands(lib, rest);
        QueueGrows(CurrentOf(st), st.pending, Queued(lib, v), Commands(lib, next.clientRest), all);
      case _ =>
        assert Commands(lib, st.clientRest) == [];
    }
  }

  lemma TakeStepConserves(lib: Library, st: State)
    ensures Waiting(lib, TakeStep(st)) == Waiting(lib, st)
  {
    hide Commands;
    if st.current == None && st.pending != [] {
      assert [st.pending[0]] + st.pending[1..] == [] + st.pending;
    }
  }

  lemma ServerStepConserves(lib: Library, st: State, writeOk: bool)
    ensures Firsts(PairAt(lib, st, ServerReads(writeOk))) + Waiting(lib, ServerStep(lib, st, writeOk)) == Waiting(lib, st)
  {
    hide Commands, ReadValue, Consumed, EntryOf, Loggable;
    var next := ServerStep(lib, st, writeOk);
    var paired := PairAt(lib, st, ServerReads(writeOk));
    if paired != [] {
      assert Firsts(paired) == [st.current.value] == CurrentOf(st);
      assert CurrentOf(st) + ([] + st.pending + Commands(lib, st.clientRest)) == Waiting(lib, st);
    } else {
      assert Firsts(paired) + Waiting(lib, next) == Waiting(lib, next);
    }
  }

  /** Commands are conserved: a step pairs the command at the head of those waiting, and leaves
      the rest waiting in order, unless a failed write ends the client loop. */
  lemma StepConservesCommands(lib: Library, st: State, e: Event)
    ensures Firsts(PairAt(lib, st, e)) + Waiting(lib, Step(lib, st, e)) <= Waiting(lib, st)
    ensures e != ClientReads(false) ==> Firsts(PairAt(lib, st, e)) + Waiting(lib, Step(lib, st, e)) == Waiting(lib, st)
  {
    hide ClientStep, TakeStep, ServerStep, Waiting;
    match e
    case ClientReads(ok) =>
      ClientStepConserves(lib, st, ok);
      assert Firsts([]) + Waiting(lib, ClientStep(lib, st, ok)) == Waiting(lib, ClientStep(lib, st, ok));
    case Takes =>
      TakeStepConserves(lib, st);
      assert Firsts([]) + Waiting(lib, TakeStep(st)) == Waiting(lib, TakeStep(st));
    case ServerReads(ok) => ServerStepConserves(lib, st, ok);
  }

  lemma NothingToRead(isFloat: FloatSyntax)
    ensures ReadValue(isFloat, []) == Err
  {
  }

  lemma StepConservesReplies(lib: Library, st: State, e: Event)
    ensures Seconds(PairAt(lib, st, e)) + Replies(lib, Step(lib, st, e).serverRest) <= Replies(lib, st.serverRest)
    ensures Step(lib, st, e).log == st.log + LogOf(PairAt(lib, st, e))
  {
    NothingToRead(lib.isFloat);
    hide ReadValue, Queued, CommandName, EntryOf, Loggable, Consumed;
    assert Replies(lib, []) == [];
    assert st.log + [] == st.log;
    var ps := PairAt(lib, st, e);
    if ps != [] {
      assert ps[1..] == [] && LogOf(ps[1..]) == [];
      assert Seconds(ps) == [ps[0].1];
    } else {
      assert Seconds(ps) + Replies(lib, Step(lib, st, e).serverRest) == Replies(lib, Step(lib, st, e).serverRest);
    }
  }

  lemma StepForwardsBytes(lib: Library, st: State, e: Event)
    ensures Step(lib, st, e).toClient + Step(lib, st, e).serverRest <= st.toClient + st.serverRest
    ensures Step(lib, st, e).toServer + Step(lib, st, e).clientRest <= st.toServer + st.clientRest
  {
    hide ReadValue, Queued, CommandName, EntryOf, Loggable, Consumed;
    if e.ClientReads? && ReadValue(lib.isFloat, st.clientRest).Ok? {
      ForwardingKeepsBytes(lib.isFloat, st.toServer, st.clientRest);
    } else if e.ServerReads? && ReadValue(lib.isFloat, st.serverRest).Ok? {
      ForwardingKeepsBytes(lib.isFloat, st.toClient, st.serverRest);
    }
  }

  lemma ForwardingKeepsBytes(isFloat: FloatSyntax, sent: bytes, rest: bytes)
    requires ReadValue(isFloat, rest).Ok?
    ensures var after := ReadValue(isFloat, rest).rest;
            && sent + Consumed(rest, after) + after == sent + rest
            && sent + Consumed(rest, after) <= sent + rest
  {
    hide ReadValue;
    var after := ReadValue(isFloat, rest).rest;
    assert Consumed(rest, after) + after == rest;
    assert sent + Consumed(rest, after) + after == sent + (Consumed(rest, after) + after);
  }

  lemma FirstsConcat(a: seq<(Pending, Value)>, b: seq<(Pending, Value)>)
    ensures Firsts(a + b) == Firsts(a) + Firsts(b) && Seconds(a + b) == Seconds(a) + Seconds(b)
  {
  }

  lemma Chain<T>(a: seq<T>, b: seq<T>, rest2: seq<T>, rest1: seq<T>, all: seq<T>)
    requires a + rest1 <= all && b + rest2 <= rest1
    ensures a + b + rest2 <= all
  {
    assert a + b + rest2 == a + (b + rest2);
    assert a + (b + rest2) <= a + rest1;
  }

  lemma {:induction false} RunConserves(lib: Library, st: State, events: seq<Event>)
    ensures var last := Run(lib, st, events);
            var ps := Pairs(lib, st, events);
            && Firsts(ps) + Waiting(lib, last) <= Waiting(lib, st)
            && Seconds(ps) + Replies(lib, last.serverRest) <= Replies(lib, st.serverRest)
            && last.log == st.log + LogOf(ps)
            && last.toClient + last.serverRest <= st.toClient + st.serverRest
            && last.toServer + last.clientRest <= st.toServer + st.clientRest
    decreases |events|
  {
    hide Step, PairAt, Waiting, Replies;
    if events == [] {
      assert Firsts([]) + Waiting(lib, st) == Waiting(lib, st);
      assert Seconds([]) + Replies(lib, st.serverRest) == Replies(lib, st.serverRest);
    } else {
      var next := Step(lib, st, events[0]);
      var here, later := PairAt(lib, st, events[0]), Pairs(lib, next, events[1..]);
      var last := Run(lib, next, events[1..]);
      StepConservesCommands(lib, st, events[0]);
      StepConservesReplies(lib, st, events[0]);
      StepForwardsBytes(lib, st, events[0]);
      RunConserves(lib, next, events[1..]);
      FirstsConcat(here, later);
      LogOfConcat(here, later);
      Chain(Firsts(here), Firsts(later), Waiting(lib, last), Waiting(lib, next), Waiting(lib, st));
      Chain(Seconds(here), Seconds(later), Replies(lib, last.serverRest), Replies(lib, next.serverRest),
            Replies(lib, st.serverRest));
    }
  }

  /** In every interleaving of the two loops, with failing writes and any pushes in between: the
      k-th pair joins the k-th queued command with the k-th ordinary reply, the log is those pairs
      without the internal placeholders, and each peer has been sent a prefix of what the other wrote. */
  lemma RepliesArePaired(lib: Library, clientBytes: bytes, serverBytes: bytes, events: seq<Event>)
    ensures var st := Run(lib, Start(clientBytes, serverBytes), events);
            var ps := Pairs(lib, Start(clientBytes, serverBytes), events);
            var commands, replies := Commands(lib, clientBytes), Replies(lib, serverBytes);
            && |ps| <= |commands| && |ps| <= |replies|
            && (forall k :: 0 <= k < |ps| ==> ps[k] == (commands[k], replies[k]))
            && st.log == LogOf(ps)
            && st.toClient <= serverBytes && st.toServer <= clientBytes
  {
    hide Run, Pairs, Commands, Replies, LogOf;
    var start := Start(clientBytes, serverBytes);
    var ps := Pairs(lib, start, events);
    var last := Run(lib, start, events);
    RunConserves(lib, start, events);
    assert Waiting(lib, start) == Commands(lib, clientBytes);
    assert [] + serverBytes == serverBytes && [] + clientBytes == clientBytes;
    assert Firsts(ps) <= Firsts(ps) + Waiting(lib, last);
    assert Seconds(ps) <= Seconds(ps) + Replies(lib, last.serverRest);
    assert last.toClient <= last.toClient + last.serverRest;
    assert last.toServer <= last.toServer + last.clientRest;
    forall k | 0 <= k < |ps| ensures ps[k] == (Commands(lib, clientBytes)[k], Replies(lib, serverBytes)[k]) {
      assert Firsts(ps)[k] == ps[k].0 && Seconds(ps)[k] == ps[k].1;
    }
  }

  lemma {:induction false} GoodWritesLoseNoCommand(lib: Library, st: State, events: seq<Event>)
    requires ClientReads(false) !in events
    ensures Firsts(Pairs(lib, st, events)) + Waiting(lib, Run(lib, st, events)) == Waiting(lib, st)
    decreases |events|
  {
    hide Step, PairAt, Waiting;
    if events == [] {
      assert Firsts([]) + Waiting(lib, st) == Waiting(lib, st);
    } else {
      var next := Step(lib, st, events[0]);
      var here, later := PairAt(lib, st, events[0]), Pairs(lib, next, events[1..]);
      StepConservesCommands(lib, st, events[0]);
      GoodWritesLoseNoCommand(lib, next, events[1..]);
      FirstsConcat(here, later);
      assert Firsts(here) + (Firsts(later) + Waiting(lib, Run(lib, next, events[1..])))
          == Firsts(here + later) + Waiting(lib, Run(lib, next, events[1..]));
    }
  }

  /** Once the queue is drained, with no failed write to the server, every command of the client
      stream has been paired, in order. */
  lemma DrainedRunPairsEveryCommand(lib: Library, clientBytes: bytes, serverBytes: bytes, events: seq<Event>)
    requires ClientReads(false) !in events
    requires Waiting(lib, Run(lib, Start(clientBytes, serverBytes), events)) == []
    ensures Firsts(Pairs(lib, Start(clientBytes, serverBytes), events)) == Commands(lib, clientBytes)
  {
    hide Run, Pairs, Commands;
    var start := Start(clientBytes, serverBytes);
    GoodWritesLoseNoCommand(lib, start, events);
    assert Waiting(lib, start) == Commands(lib, clientBytes);
  }

  /** A command is left out of the log exactly when it is internal: every other named command has a text. */
  lemma OnlyInternalCommandsAreSilent(lib: Library, v: Value)
    requires lib.upper([]) == []
    requires forall s :: lib.fields(s) != [] ==> s != []
    requires CommandName(lib, v) != [] && (v.typ == ARRAY ==> v.items != [])
    ensures |Queued(lib, v)| == 1
    ensures Loggable(Queued(lib, v)[0]) <==> !IsInternal(CommandName(lib, v))
  {
    if v.typ == ARRAY && !v.isNull {
      assert v.items[0].str != [];
    }
  }
}
