/** AMQP messages as the specification frames them, on channels that interleave freely
    (services/broker-proxy/amqp/connection.go, lines 109 to 245). */
module AmqpContents {
  import opened Bytes
  import opened Options
  import opened AmqpWire
  import opened AmqpDemux

  // ---------- the content grammar ----------

  /** A published or delivered message as section 4.2.6 of the AMQP 0-9-1 specification frames it:
      method, content header, then the body cut into frames, empty ones allowed. */
  datatype Content = Content(
    message: Message, methodArgs: bytes, headerPayload: bytes, bodies: seq<bytes>)

  ghost predicate PublishArgsFor(m: Message, args: bytes) {
    exists reserved, bits :: |reserved| == 2 && |m.exchange| < 256 && |m.routingKey| < 256 &&
      args == PublishArgs(reserved, m.exchange, m.routingKey, bits)
  }

  ghost predicate DeliverArgsFor(m: Message, args: bytes) {
    exists tag, deliveryTag, redelivered: byte :: |tag| < 256 && |deliveryTag| == 8 &&
      |m.exchange| < 256 && |m.routingKey| < 256 &&
      args == DeliverArgs(tag, deliveryTag, redelivered, m.exchange, m.routingKey)
  }

  ghost predicate HeaderFor(m: Message, payload: bytes) {
    exists cw, flags: nat, ct: Option<bytes>, rest ::
      |cw| == 4 && flags < 0x8000 && (ct.Some? ==> |ct.value| < 256) &&
      payload == HeaderPayload(cw, |m.body|, flags, ct, rest) &&
      m.contentType == if ct.Some? then ct.value else []
  }

  ghost predicate ValidContent(x: Content) {
    && |x.message.body| < 0x1_0000_0000_0000_0000
    && (if x.message.operation.Publish? then PublishArgsFor(x.message, x.methodArgs)
        else DeliverArgsFor(x.message, x.methodArgs))
    && HeaderFor(x.message, x.headerPayload)
    && Flatten(x.bodies) == x.message.body
  }

  function BodyEvents(bodies: seq<bytes>, c: nat, fromClient: bool): (es: seq<Event>)
    ensures |es| == |bodies|
  {
    seq(|bodies|, i requires 0 <= i < |bodies| => Event(Frame(FRAME_BODY, c, bodies[i]), fromClient))
  }

  function EventsOf(x: Content, c: nat): (es: seq<Event>)
    ensures |es| == 2 + |x.bodies|
  {
    var fromClient := x.message.operation.Publish?;
    var methodId := if fromClient then METHOD_PUBLISH else METHOD_DELIVER;
    [Event(Frame(FRAME_METHOD, c, MethodPayload(CLASS_BASIC, methodId, x.methodArgs)), fromClient),
     Event(Frame(FRAME_HEADER, c, x.headerPayload), fromClient)] + BodyEvents(x.bodies, c, fromClient)
  }

  lemma ArgsAreRead(m: Message, args: bytes)
    requires if m.operation.Publish? then PublishArgsFor(m, args) else DeliverArgsFor(m, args)
    ensures (if m.operation.Publish? then ParsePublish(args) else ParseDeliver(args)) == Some((m.exchange, m.routingKey))
  {
    if m.operation.Publish? {
      var reserved, bits :| |reserved| == 2 && args == PublishArgs(reserved, m.exchange, m.routingKey, bits);
      PublishRoundTrip(reserved, m.exchange, m.routingKey, bits);
    } else {
      var tag, deliveryTag, redelivered: byte :| |tag| < 256 && |deliveryTag| == 8 &&
        args == DeliverArgs(tag, deliveryTag, redelivered, m.exchange, m.routingKey);
      DeliverRoundTrip(tag, deliveryTag, redelivered, m.exchange, m.routingKey);
    }
  }

  /** The assembly a method frame begins. */
  function Begun(m: Message): ChannelState {
    ChannelState(m.operation, m.exchange, m.routingKey, [], 0, [])
  }

  /** The assembly after the content header of a message with a body. */
  function Sized(m: Message): ChannelState {
    Begun(m).(bodySize := |m.body|, contentType := m.contentType)
  }

  lemma MethodStarts(x: Content, c: nat, cs: Option<ChannelState>)
    requires ValidContent(x)
    ensures ChannelStep(cs, EventsOf(x, c)[0]) == (Some(Begun(x.message)), None)
  {
    hide ParseMethod, ParsePublish, ParseDeliver, MethodPayload, HeaderFor, PublishArgsFor, DeliverArgsFor, Flatten,
      ParseContentHeader, BodyEvents;
    ArgsAreRead(x.message, x.methodArgs);
    MethodRoundTrip(CLASS_BASIC, if x.message.operation.Publish? then METHOD_PUBLISH else METHOD_DELIVER, x.methodArgs);
  }

  lemma HeaderIsRead(x: Content)
    requires ValidContent(x)
    ensures ParseContentHeader(x.headerPayload) == Some((|x.message.body|, x.message.contentType))
  {
    var m := x.message;
    var cw, flags: nat, ct: Option<bytes>, rest :|
      |cw| == 4 && flags < 0x8000 && (ct.Some? ==> |ct.value| < 256) &&
      x.headerPayload == HeaderPayload(cw, |m.body|, flags, ct, rest) &&
      m.contentType == if ct.Some? then ct.value else [];
    HeaderRoundTrip(cw, |m.body|, flags, ct, rest);
  }

  lemma HeaderStep(cs: ChannelState, x: Content, c: nat)
    requires ParseContentHeader(x.headerPayload) == Some((|x.message.body|, x.message.contentType))
    ensures ChannelStep(Some(cs), EventsOf(x, c)[1]) ==
            CompleteWhenFull(cs.(bodySize := |x.message.body|, contentType := x.message.contentType, body := []),
                             x.message.body == [])
  {
    hide ParseContentHeader;
  }

  // ---------- one content ----------

  /** What the frames of a body do to an assembly, `n` of them: it grows until the body is complete, is
      then logged once, and the frames after that meet an idle channel. */
  function Assembled(cs: ChannelState, bodies: seq<bytes>): (Option<ChannelState>, seq<Message>) {
    var all := cs.(body := cs.body + Flatten(bodies));
    if |all.body| >= all.bodySize then (None, [Finished(all)]) else (Some(all), [])
  }

  lemma {:induction false} FramesOnIdle(bodies: seq<bytes>, c: nat, fromClient: bool)
    ensures AloneEnd(None, BodyEvents(bodies, c, fromClient)) == None
    ensures AloneLog(None, BodyEvents(bodies, c, fromClient)) == []
    decreases |bodies|
  {
    if bodies != [] {
      assert BodyEvents(bodies, c, fromClient)[1..] == BodyEvents(bodies[1..], c, fromClient);
      FramesOnIdle(bodies[1..], c, fromClient);
    }
  }

  lemma {:induction false} BodiesAssemble(cs: ChannelState, bodies: seq<bytes>, c: nat, fromClient: bool)
    requires |cs.body| < cs.bodySize && |cs.body| + |Flatten(bodies)| <= cs.bodySize
    ensures (AloneEnd(Some(cs), BodyEvents(bodies, c, fromClient)), AloneLog(Some(cs), BodyEvents(bodies, c, fromClient)))
         == Assembled(cs, bodies)
    decreases |bodies|
  {
    if bodies == [] {
      assert cs.body + [] == cs.body;
    } else {
      var events := BodyEvents(bodies, c, fromClient);
      var grown := cs.(body := cs.body + bodies[0]);
      assert events[1..] == BodyEvents(bodies[1..], c, fromClient);
      assert grown.body + Flatten(bodies[1..]) == cs.body + Flatten(bodies);
      if |grown.body| == cs.bodySize {
        assert ChannelStep(Some(cs), events[0]) == (None, Some(Finished(grown)));
        assert Flatten(bodies[1..]) == [];
        assert cs.body + Flatten(bodies) == grown.body;
        FramesOnIdle(bodies[1..], c, fromClient);
        assert AloneLog(Some(cs), events) == [Finished(grown)] + [] == [Finished(grown)];
        assert AloneEnd(Some(cs), events) == AloneEnd(None, events[1..]);
        assert Assembled(cs, bodies) == (None, [Finished(grown)]);
      } else {
        BodiesAssemble(grown, bodies[1..], c, fromClient);
        assert ChannelStep(Some(cs), events[0]) == (Some(grown), None);
        assert Assembled(grown, bodies[1..]) == Assembled(cs, bodies);
      }
    }
  }

  lemma FlattenPrefix(bodies: seq<bytes>, n: nat)
    requires n <= |bodies|
    ensures Flatten(bodies) == Flatten(bodies[..n]) + Flatten(bodies[n..])
  {
    assert bodies == bodies[..n] + bodies[n..];
    FlattenAppend(bodies[..n], bodies[n..]);
  }

  /** What the method and the content header of a well-formed content do to its channel. */
  lemma ContentOpens(x: Content, c: nat, cs: Option<ChannelState>)
    requires ValidContent(x)
    ensures ChannelStep(cs, EventsOf(x, c)[0]) == (Some(Begun(x.message)), None)
    ensures ChannelStep(Some(Begun(x.message)), EventsOf(x, c)[1]) ==
            if x.message.body == [] then (None, Some(x.message)) else (Some(Sized(x.message)), None)
  {
    hide ChannelStep, ValidContent, EventsOf;
    MethodStarts(x, c, cs);
    HeaderIsRead(x);
    HeaderStep(Begun(x.message), x, c);
  }

  /** The first `k` frames of a content, whatever was left on its channel: the message is logged, with
      its own exchange, routing key, content type and body, once its body is complete, and not before. */
  lemma ContentIsLoggedWhenComplete(x: Content, c: nat, cs: Option<ChannelState>, k: nat)
    requires ValidContent(x) && k <= |EventsOf(x, c)|
    ensures AloneLog(cs, EventsOf(x, c)[..k]) ==
            if k >= 2 && |Flatten(x.bodies[..k - 2])| == |x.message.body| then [x.message] else []
    ensures k == |EventsOf(x, c)| ==> AloneEnd(cs, EventsOf(x, c)[..k]) == None
  {
    hide ChannelStep, HeaderFor, PublishArgsFor, DeliverArgsFor, Flatten;
    var events, m := EventsOf(x, c), x.message;
    ContentOpens(x, c, cs);
    if k >= 2 {
      var bodies := x.bodies[..k - 2];
      var fromClient := m.operation.Publish?;
      assert events[..k][2..] == BodyEvents(bodies, c, fromClient);
      FlattenPrefix(x.bodies, k - 2);
      if m.body == [] {
        TwoFrames(cs, events[..k], Some(Begun(m)), (None, Some(m)));
        FramesOnIdle(bodies, c, fromClient);
      } else {
        TwoFrames(cs, events[..k], Some(Begun(m)), (Some(Sized(m)), None));
        BodiesAssemble(Sized(m), bodies, c, fromClient);
        CompleteBody(x, k - 2);
      }
    } else if k == 1 {
      assert events[..1][1..] == [];
      assert AloneLog(Some(Begun(m)), []) == [];
    }
  }

  lemma CompleteBody(x: Content, n: nat)
    requires Flatten(x.bodies) == x.message.body && n <= |x.bodies|
    ensures [] + Flatten(x.bodies[..n]) == Flatten(x.bodies[..n])
    ensures |Flatten(x.bodies[..n])| == |x.message.body| ==> Flatten(x.bodies[..n]) == x.message.body
    ensures n == |x.bodies| ==> Flatten(x.bodies[..n]) == x.message.body
  {
    hide Flatten;
    FlattenPrefix(x.bodies, n);
    assert x.bodies[..|x.bodies|] == x.bodies;
  }

  lemma ContentIsLogged(x: Content, c: nat, cs: Option<ChannelState>)
    requires ValidContent(x)
    ensures AloneEnd(cs, EventsOf(x, c)) == None
    ensures AloneLog(cs, EventsOf(x, c)) == [x.message]
  {
    hide ValidContent, EventsOf, Flatten;
    var n := |EventsOf(x, c)|;
    ContentIsLoggedWhenComplete(x, c, cs, n);
    assert EventsOf(x, c)[..n] == EventsOf(x, c);
    WholeBody(x, n);
  }

  lemma WholeBody(x: Content, n: nat)
    requires ValidContent(x) && n == 2 + |x.bodies|
    ensures |Flatten(x.bodies[..n - 2])| == |x.message.body|
  {
    assert x.bodies[..n - 2] == x.bodies;
  }

  // ---------- what a channel carries ----------

  /** A tracked content, or the header and body frames of one the observer does not track: section 4.2.6
      frames basic.get-ok and basic.return like a delivery. Their methods are among the ignorable frames. */
  datatype Traffic = Tracked(content: Content) | Untracked(headerPayload: bytes, bodies: seq<bytes>, fromClient: bool)

  ghost predicate ValidTraffic(t: Traffic) { t.Tracked? ==> ValidContent(t.content) }

  function TrafficEvents(t: Traffic, c: nat): seq<Event> {
    match t
    case Tracked(x) => EventsOf(x, c)
    case Untracked(header, bodies, fromClient) =>
      [Event(Frame(FRAME_HEADER, c, header), fromClient)] + BodyEvents(bodies, c, fromClient)
  }

  function AllEvents(ts: seq<Traffic>, c: nat): seq<Event> {
    if ts == [] then [] else TrafficEvents(ts[0], c) + AllEvents(ts[1..], c)
  }

  /** The tracked messages, in order. */
  function MessagesOf(ts: seq<Traffic>): seq<Message> {
    if ts == [] then []
    else (if ts[0].Tracked? then [ts[0].content.message] else []) + MessagesOf(ts[1..])
  }

  /** An untracked content logs nothing on an idle channel and leaves it idle. */
  lemma UntrackedIsSilent(t: Traffic, c: nat)
    requires t.Untracked?
    ensures AloneEnd(None, TrafficEvents(t, c)) == None && AloneLog(None, TrafficEvents(t, c)) == []
  {
    FramesOnIdle(t.bodies, c, t.fromClient);
    assert TrafficEvents(t, c)[1..] == BodyEvents(t.bodies, c, t.fromClient);
  }

  lemma {:induction false} ContentsAreLoggedInOrder(ts: seq<Traffic>, c: nat)
    requires forall i :: 0 <= i < |ts| ==> ValidTraffic(ts[i])
    ensures AloneEnd(None, AllEvents(ts, c)) == None
    ensures AloneLog(None, AllEvents(ts, c)) == MessagesOf(ts)
  {
    hide ValidContent, EventsOf, BodyEvents;
    if ts != [] {
      if ts[0].Tracked? {
        ContentIsLogged(ts[0].content, c, None);
      } else {
        UntrackedIsSilent(ts[0], c);
      }
      ContentsAreLoggedInOrder(ts[1..], c);
      hide TrafficEvents;
      AloneConcat(None, TrafficEvents(ts[0], c), AllEvents(ts[1..], c));
    }
  }

  /** Demultiplexing: for every interleaving of frames in which each channel carries a sequence of
      contents, tracked or not, with any ignorable frames in between, each channel logs exactly its own
      tracked messages in order, and nothing stays half-assembled. */
  lemma InterleavingIsDemultiplexed(events: seq<Event>, traffic: nat -> seq<Traffic>)
    requires forall c, i :: 0 <= i < |traffic(c)| ==> ValidTraffic(traffic(c)[i])
    requires forall c :: Significant(Project(events, c)) == AllEvents(traffic(c), c)
    ensures forall c :: OnChannel(Emitted(map[], events), c) == MessagesOf(traffic(c))
    ensures FinalChannels(map[], events) == map[]
  {
    hide ValidContent;
    forall c: nat
      ensures OnChannel(Emitted(map[], events), c) == MessagesOf(traffic(c))
      ensures c !in FinalChannels(map[], events)
    {
      ChannelsAreIndependent(map[], events, c);
      IgnorableFramesChangeNothing(None, Project(events, c));
      ContentsAreLoggedInOrder(traffic(c), c);
    }
  }

  // ---------- contents that overlap ----------

  /** Both directions share the channel's state. A delivery begun between a publish and its header takes
      the publish over: the published body is logged as delivered, under the delivery's exchange and key,
      and the delivery's own body is lost. */
  lemma OverlapIsMislogged(x: Content, y: Content, c: nat, cs: Option<ChannelState>)
    requires ValidContent(x) && ValidContent(y) && x.message.operation.Publish? && y.message.operation.Deliver?
    ensures var events := [EventsOf(x, c)[0], EventsOf(y, c)[0]] + EventsOf(x, c)[1..] + EventsOf(y, c)[1..];
            AloneLog(cs, events) ==
            [Message(Deliver, y.message.exchange, y.message.routingKey, x.message.contentType, x.message.body)]
  {
    hide ValidContent, ChannelStep;
    var first, second := EventsOf(x, c), EventsOf(y, c);
    var taken := x.(message := x.message.(operation := Deliver, exchange := y.message.exchange,
                                          routingKey := y.message.routingKey));
    var front := [first[0], second[0]];
    MethodStarts(x, c, cs);
    MethodStarts(y, c, Some(Begun(x.message)));
    assert front[1..] == [second[0]] && front[1..][1..] == [];
    assert AloneEnd(Some(Begun(x.message)), [second[0]]) == AloneEnd(Some(Begun(y.message)), []);
    assert AloneLog(Some(Begun(y.message)), []) == [] && AloneLog(Some(Begun(x.message)), [second[0]]) == [];
    assert AloneEnd(cs, front) == Some(Begun(y.message)) && AloneLog(cs, front) == [];
    TakenOver(x, taken.message, c);
    IdleRest(y, c);
    AloneConcat(cs, front, first[1..]);
    AloneConcat(cs, front + first[1..], second[1..]);
  }

  /** The header and bodies of a returned message meet no state of their own: between a publish and its
      header they are logged as the published message, under its names, and the published body is lost. */
  lemma ReturnIsMislogged(x: Content, y: Content, c: nat, cs: Option<ChannelState>)
    requires ValidContent(x) && ValidContent(y) && x.message.operation.Publish? && y.message.operation.Deliver?
    ensures var events := [EventsOf(x, c)[0]] + EventsOf(y, c)[1..] + EventsOf(x, c)[1..];
            AloneLog(cs, events) ==
            [Message(Publish, x.message.exchange, x.message.routingKey, y.message.contentType, y.message.body)]
  {
    hide ValidContent, ChannelStep;
    var front, returned := [EventsOf(x, c)[0]], EventsOf(y, c)[1..];
    MethodStarts(x, c, cs);
    assert front[1..] == [];
    assert AloneEnd(cs, front) == AloneEnd(Some(Begun(x.message)), front[1..]);
    assert AloneLog(cs, front) == AloneLog(Some(Begun(x.message)), front[1..]) == [];
    TakenOver(y, x.message.(contentType := y.message.contentType, body := y.message.body), c);
    IdleRest(x, c);
    AloneConcat(cs, front, returned);
    AloneConcat(cs, front + returned, EventsOf(x, c)[1..]);
  }

  /** A content's header and bodies complete whatever its channel has begun. */
  lemma TakenOver(x: Content, m: Message, c: nat)
    requires ValidContent(x) && m.contentType == x.message.contentType && m.body == x.message.body
    ensures AloneEnd(Some(Begun(m)), EventsOf(x, c)[1..]) == None
    ensures AloneLog(Some(Begun(m)), EventsOf(x, c)[1..]) == [m]
  {
    var events := EventsOf(x, c)[1..];
    HeaderIsRead(x);
    HeaderStep(Begun(m), x, c);
    assert events[1..] == BodyEvents(x.bodies, c, x.message.operation.Publish?);
    hide ChannelStep, HeaderFor, PublishArgsFor, DeliverArgsFor, Flatten;
    if m.body == [] {
      FramesOnIdle(x.bodies, c, x.message.operation.Publish?);
    } else {
      BodiesAssemble(Sized(m), x.bodies, c, x.message.operation.Publish?);
      assert [] + Flatten(x.bodies) == m.body;
    }
  }

  lemma IdleRest(y: Content, c: nat)
    ensures AloneEnd(None, EventsOf(y, c)[1..]) == None && AloneLog(None, EventsOf(y, c)[1..]) == []
  {
    var t := Untracked(y.headerPayload, y.bodies, y.message.operation.Publish?);
    assert EventsOf(y, c)[1..] == TrafficEvents(t, c);
    UntrackedIsSilent(t, c);
  }
}
