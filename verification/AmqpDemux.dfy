/** Reassembly of AMQP messages from frames interleaved over many channels
    (services/broker-proxy/amqp/connection.go). */
module AmqpDemux {
  import opened Bytes
  import opened Options
  import opened AmqpWire

  datatype Operation = Publish | Deliver

  datatype Message = Message(operation: Operation, exchange: bytes, routingKey: bytes, contentType: bytes, body: bytes)

  /** A message being assembled on one channel. */
  datatype ChannelState = ChannelState(
    operation: Operation, exchange: bytes, routingKey: bytes, contentType: bytes, bodySize: nat, body: bytes)

  type Channels = map<nat, ChannelState>

  /** A frame and the direction it travelled in. */
  datatype Event = Event(frame: Frame, fromClient: bool)

  function Finished(cs: ChannelState): Message {
    Message(cs.operation, cs.exchange, cs.routingKey, cs.contentType, cs.body)
  }

  /** What a method frame starts, if anything. */
  function Started(e: Event): Option<ChannelState> {
    match ParseMethod(e.frame.payload)
    case None => None
    case Some((classId, methodId, args)) =>
      if classId != CLASS_BASIC then None
      else if methodId == METHOD_PUBLISH && e.fromClient && ParsePublish(args).Some? then
        var (exchange, key) := ParsePublish(args).value;
        Some(ChannelState(Publish, exchange, key, [], 0, []))
      else if methodId == METHOD_DELIVER && !e.fromClient && ParseDeliver(args).Some? then
        var (exchange, key) := ParseDeliver(args).value;
        Some(ChannelState(Deliver, exchange, key, [], 0, []))
      else None
  }

  /** One frame on a channel in state `cs`: the new state and the message it completes. */
  function ChannelStep(cs: Option<ChannelState>, e: Event): (Option<ChannelState>, Option<Message>) {
    if e.frame.kind == FRAME_METHOD then
      (if Started(e).Some? then Started(e) else cs, None)
    else if cs == None then (None, None)
    else if e.frame.kind == FRAME_HEADER then
      match ParseContentHeader(e.frame.payload)
      case None => (None, None)
      case Some((size, contentType)) =>
        CompleteWhenFull(cs.value.(bodySize := size, contentType := contentType, body := []), size == 0)
    else if e.frame.kind == FRAME_BODY then
      var body := cs.value.body + e.frame.payload;
      CompleteWhenFull(cs.value.(body := body), |body| >= cs.value.bodySize)
    else (cs, None)
  }

  function CompleteWhenFull(cs: ChannelState, full: bool): (Option<ChannelState>, Option<Message>) {
    if full then (None, Some(Finished(cs))) else (Some(cs), None)
  }

  function Lookup(chans: Channels, c: nat): Option<ChannelState> {
    if c in chans then Some(chans[c]) else None
  }

  function Store(chans: Channels, c: nat, cs: Option<ChannelState>): Channels {
    if cs.Some? then chans[c := cs.value] else chans - {c}
  }

  function Step(chans: Channels, e: Event): (Channels, Option<Message>) {
    var (cs, m) := ChannelStep(Lookup(chans, e.frame.channel), e);
    (Store(chans, e.frame.channel, cs), m)
  }

  function ToSeq(m: Option<Message>): seq<Message> {
    if m.Some? then [m.value] else []
  }

  class Connection {
    var channels: Channels
    var log: seq<Message>

    constructor ()
      ensures channels == map[] && log == []
    {
      channels, log := map[], [];
    }

    method InspectFrame(e: Event)
      modifies this
      ensures channels == Step(old(channels), e).0
      ensures log == old(log) + ToSeq(Step(old(channels), e).1)
    {
      var f := e.frame;
      if f.kind == FRAME_METHOD {
        HandleMethod(e);
      } else if f.kind == FRAME_HEADER {
        HandleContentHeader(f.channel, f.payload);
      } else if f.kind == FRAME_BODY {
        HandleContentBody(f.channel, f.payload);
      }
      if f.channel !in old(channels) {
        assert old(channels) - {f.channel} == old(channels);
      } else {
        assert old(channels)[f.channel := old(channels)[f.channel]] == old(channels);
      }
    }

    method HandleMethod(e: Event)
      modifies this`channels
      ensures channels == if Started(e).Some? then old(channels)[e.frame.channel := Started(e).value] else old(channels)
    {
      var parsed := ParseMethod(e.frame.payload);
      if parsed == None {
        return;
      }
      var (classId, methodId, args) := parsed.value;
      if classId != CLASS_BASIC {
        return;
      }
      if methodId == METHOD_PUBLISH {
        if !e.fromClient {
          return;
        }
        var names := ParsePublish(args);
        if names.Some? {
          channels := channels[e.frame.channel := ChannelState(Publish, names.value.0, names.value.1, [], 0, [])];
        }
      } else if methodId == METHOD_DELIVER {
        if e.fromClient {
          return;
        }
        var names := ParseDeliver(args);
        if names.Some? {
          channels := channels[e.frame.channel := ChannelState(Deliver, names.value.0, names.value.1, [], 0, [])];
        }
      }
    }

    method HandleContentHeader(channel: nat, payload: bytes)
      modifies this
      ensures var e := Event(Frame(FRAME_HEADER, channel, payload), true);
              && channels == Step(old(channels), e).0
              && log == old(log) + ToSeq(Step(old(channels), e).1)
    {
      if channel !in channels {
        assert channels - {channel} == channels;
        return;
      }
      var header := ParseContentHeader(payload);
      if header == None {
        channels := channels - {channel};
        return;
      }
      var (bodySize, contentType) := header.value;
      channels := channels[channel := channels[channel].(bodySize := bodySize, contentType := contentType, body := [])];
      if bodySize == 0 {
        CompleteMessage(channel);
        assert channels == old(channels) - {channel};
      }
    }

    method HandleContentBody(channel: nat, payload: bytes)
      modifies this
      ensures var e := Event(Frame(FRAME_BODY, channel, payload), true);
              && channels == Step(old(channels), e).0
              && log == old(log) + ToSeq(Step(old(channels), e).1)
    {
      if channel !in channels {
        assert channels - {channel} == channels;
        return;
      }
      var body := channels[channel].body + payload;
      channels := channels[channel := channels[channel].(body := body)];
      if |body| >= channels[channel].bodySize {
        CompleteMessage(channel);
        assert channels == old(channels) - {channel};
      }
    }

    method CompleteMessage(channel: nat)
      modifies this
      ensures channels == old(channels) - {channel}
      ensures log == old(log) + (if channel in old(channels) then [Finished(old(channels)[channel])] else [])
    {
      if channel !in channels {
        assert channels - {channel} == channels;
        return;
      }
      var cs := channels[channel];
      channels := channels - {channel};
      log := log + [Finished(cs)];
    }
  }

  // ---------- whole runs ----------

  function FinalChannels(chans: Channels, events: seq<Event>): Channels
    decreases |events|
  {
    if events == [] then chans else FinalChannels(Step(chans, events[0]).0, events[1..])
  }

  /** The messages a run logs, each with the channel it completed on. */
  function Emitted(chans: Channels, events: seq<Event>): seq<(nat, Message)>
    decreases |events|
  {
    if events == [] then []
    else
      var (next, m) := Step(chans, events[0]);
      if m.Some? then [(events[0].frame.channel, m.value)] + Emitted(next, events[1..]) else Emitted(next, events[1..])
  }

  /** The log of `Connection` over a run is the emitted messages without their channels. */
  function LogOf(emitted: seq<(nat, Message)>): seq<Message> {
    if emitted == [] then [] else [emitted[0].1] + LogOf(emitted[1..])
  }

  method InspectAll(conn: Connection, events: seq<Event>)
    modifies conn
    ensures conn.channels == FinalChannels(old(conn.channels), events)
    ensures conn.log == old(conn.log) + LogOf(Emitted(old(conn.channels), events))
  {
    hide Step;
    for i := 0 to |events|
      invariant FinalChannels(conn.channels, events[i..]) == FinalChannels(old(conn.channels), events)
      invariant conn.log + LogOf(Emitted(conn.channels, events[i..]))
             == old(conn.log) + LogOf(Emitted(old(conn.channels), events))
    {
      ghost var chans := conn.channels;
      assert events[i..][1..] == events[i + 1..];
      conn.InspectFrame(events[i]);
    }
  }

  function OnChannel(emitted: seq<(nat, Message)>, c: nat): seq<Message> {
    if emitted == [] then []
    else if emitted[0].0 == c then [emitted[0].1] + OnChannel(emitted[1..], c)
    else OnChannel(emitted[1..], c)
  }

  function Project(events: seq<Event>, c: nat): seq<Event> {
    if events == [] then []
    else if events[0].frame.channel == c then [events[0]] + Project(events[1..], c)
    else Project(events[1..], c)
  }

  /** A channel run on its own: the state it ends in. */
  function AloneEnd(cs: Option<ChannelState>, events: seq<Event>): Option<ChannelState>
    decreases |events|
  {
    if events == [] then cs else AloneEnd(ChannelStep(cs, events[0]).0, events[1..])
  }

  /** A channel run on its own: the messages it logs. */
  function AloneLog(cs: Option<ChannelState>, events: seq<Event>): seq<Message>
    decreases |events|
  {
    if events == [] then []
    else
      var (next, m) := ChannelStep(cs, events[0]);
      if m.Some? then [m.value] + AloneLog(next, events[1..]) else AloneLog(next, events[1..])
  }

  /** Whatever the other channels do in between, a channel ends as if it had run alone and logs
      exactly what it would have logged alone, in the same order. */
  lemma {:induction false} ChannelsAreIndependent(chans: Channels, events: seq<Event>, c: nat)
    ensures Lookup(FinalChannels(chans, events), c) == AloneEnd(Lookup(chans, c), Project(events, c))
    ensures OnChannel(Emitted(chans, events), c) == AloneLog(Lookup(chans, c), Project(events, c))
    decreases |events|
  {
    hide ChannelStep;
    if events != [] {
      ChannelsAreIndependent(Step(chans, events[0]).0, events[1..], c);
    }
  }

  lemma {:induction false} AloneConcat(cs: Option<ChannelState>, a: seq<Event>, b: seq<Event>)
    ensures AloneEnd(cs, a + b) == AloneEnd(AloneEnd(cs, a), b)
    ensures AloneLog(cs, a + b) == AloneLog(cs, a) + AloneLog(AloneEnd(cs, a), b)
    decreases |a|
  {
    hide ChannelStep;
    if a == [] {
      assert a + b == b;
    } else {
      assert (a + b)[1..] == a[1..] + b;
      AloneConcat(ChannelStep(cs, a[0]).0, a[1..], b);
    }
  }

  lemma TwoFrames(cs: Option<ChannelState>, events: seq<Event>, begun: Option<ChannelState>,
                  second: (Option<ChannelState>, Option<Message>))
    requires |events| >= 2 && ChannelStep(cs, events[0]) == (begun, None) && ChannelStep(begun, events[1]) == second
    ensures AloneEnd(cs, events) == AloneEnd(second.0, events[2..])
    ensures AloneLog(cs, events) == ToSeq(second.1) + AloneLog(second.0, events[2..])
  {
    hide ChannelStep;
    assert events[1..][1..] == events[2..];
    assert AloneLog(begun, events[1..]) == ToSeq(second.1) + AloneLog(second.0, events[2..]);
  }

  // ---------- frames the observer ignores ----------

  /** Heartbeats and every method but a well-formed publish or deliver in its own direction. */
  predicate Ignorable(e: Event) {
    if e.frame.kind == FRAME_METHOD then Started(e) == None
    else e.frame.kind != FRAME_HEADER && e.frame.kind != FRAME_BODY
  }

  function Significant(events: seq<Event>): seq<Event> {
    if events == [] then []
    else if Ignorable(events[0]) then Significant(events[1..])
    else [events[0]] + Significant(events[1..])
  }

  lemma {:induction false} IgnorableFramesChangeNothing(cs: Option<ChannelState>, events: seq<Event>)
    ensures AloneEnd(cs, events) == AloneEnd(cs, Significant(events))
    ensures AloneLog(cs, events) == AloneLog(cs, Significant(events))
    decreases |events|
  {
    if events != [] {
      IgnorableFramesChangeNothing(ChannelStep(cs, events[0]).0, events[1..]);
      if Ignorable(events[0]) {
        assert Significant(events) == Significant(events[1..]);
      } else {
        assert Significant(events)[1..] == Significant(events[1..]);
      }
    }
  }
}
