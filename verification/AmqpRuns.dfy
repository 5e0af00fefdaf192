/** What becomes of every message begun on a channel, in any run whatever: contents may overlap, break off
    or be malformed (services/broker-proxy/amqp/connection.go, lines 109 to 245). */
module AmqpRuns {
  import opened Bytes
  import opened Options
  import opened AmqpWire
  import opened AmqpDemux

  /** The names a message is logged under. */
  datatype Names = Names(operation: Operation, exchange: bytes, routingKey: bytes)

  function NamesOf(m: Message): Names {
    Names(m.operation, m.exchange, m.routingKey)
  }

  function LoggedNames(log: seq<Message>): (s: seq<Names>)
    ensures |s| == |log|
  {
    if log == [] then [] else [NamesOf(log[0])] + LoggedNames(log[1..])
  }

  predicate Begins(e: Event) {
    e.frame.kind == FRAME_METHOD && Started(e).Some?
  }

  /** The names given by the publish and deliver methods of a channel, in order. */
  function BegunNames(events: seq<Event>): seq<Names> {
    if events == [] then []
    else (if Begins(events[0]) then [NamesOf(Finished(Started(events[0]).value))] else []) + BegunNames(events[1..])
  }

  function OpenNames(cs: Option<ChannelState>): seq<Names> {
    if cs.Some? then [NamesOf(Finished(cs.value))] else []
  }

  predicate IsMalformedHeader(e: Event) {
    e.frame.kind == FRAME_HEADER && ParseContentHeader(e.frame.payload) == None
  }

  /** A busy channel meets another publish or deliver method, or a header that does not parse: the message
      it was assembling is gone. */
  predicate Loses(cs: Option<ChannelState>, e: Event) {
    cs.Some? && (Begins(e) || IsMalformedHeader(e))
  }

  /** The messages a channel loses in a run. */
  function Lost(cs: Option<ChannelState>, events: seq<Event>): nat
    decreases |events|
  {
    if events == [] then 0
    else (if Loses(cs, events[0]) then 1 else 0) + Lost(ChannelStep(cs, events[0]).0, events[1..])
  }

  // ---------- one channel ----------

  lemma OneStep(cs: Option<ChannelState>, e: Event)
    ensures var (next, m) := ChannelStep(cs, e);
            var begun := BegunNames([e]);
            && |ToSeq(m)| + |OpenNames(next)| + (if Loses(cs, e) then 1 else 0) == |begun| + |OpenNames(cs)|
            && (!Loses(cs, e) ==> LoggedNames(ToSeq(m)) + OpenNames(next) == OpenNames(cs) + begun)
  {
    hide ParseContentHeader, Started;
    assert [e][1..] == [] && BegunNames([]) == [];
    assert ToSeq(ChannelStep(cs, e).1) == [] || ToSeq(ChannelStep(cs, e).1)[1..] == [];
  }

  /** In every run of a channel the messages logged, lost and left open are those begun and those open
      before; without a loss the names are kept too, in order. */
  lemma {:induction false} BegunAreConserved(cs: Option<ChannelState>, events: seq<Event>)
    ensures |AloneLog(cs, events)| + |OpenNames(AloneEnd(cs, events))| + Lost(cs, events)
         == |BegunNames(events)| + |OpenNames(cs)|
    ensures Lost(cs, events) == 0 ==>
              LoggedNames(AloneLog(cs, events)) + OpenNames(AloneEnd(cs, events)) == OpenNames(cs) + BegunNames(events)
    decreases |events|
  {
    hide ChannelStep, Begins, Loses, OpenNames;
    if events != [] {
      var (next, m) := ChannelStep(cs, events[0]);
      var log := AloneLog(next, events[1..]);
      var begun := BegunNames([events[0]]);
      OneStep(cs, events[0]);
      BegunAreConserved(next, events[1..]);
      assert [events[0]][1..] == [] && BegunNames([]) == [] && BegunNames(events) == begun + BegunNames(events[1..]);
      assert AloneLog(cs, events) == ToSeq(m) + log;
      LoggedConcat(ToSeq(m), log);
      if Lost(cs, events) == 0 {
        var rest, end := BegunNames(events[1..]), OpenNames(AloneEnd(next, events[1..]));
        calc {
          LoggedNames(AloneLog(cs, events)) + end;
          LoggedNames(ToSeq(m)) + (LoggedNames(log) + end);
          LoggedNames(ToSeq(m)) + OpenNames(next) + rest;
          OpenNames(cs) + begun + rest;
          OpenNames(cs) + BegunNames(events);
        }
      }
    }
  }

  lemma {:induction false} LoggedConcat(a: seq<Message>, b: seq<Message>)
    ensures LoggedNames(a + b) == LoggedNames(a) + LoggedNames(b)
  {
    if a == [] {
      assert a + b == b;
    } else {
      assert (a + b)[1..] == a[1..] + b;
      LoggedConcat(a[1..], b);
    }
  }

  /** An idle channel logs exactly the messages begun on it, in order and under their own names, if and
      only if it loses none and leaves none open. */
  lemma ChannelLogsAllIff(events: seq<Event>)
    ensures LoggedNames(AloneLog(None, events)) == BegunNames(events)
            <==> Lost(None, events) == 0 && AloneEnd(None, events) == None
  {
    BegunAreConserved(None, events);
    var logged := LoggedNames(AloneLog(None, events));
    assert OpenNames(None) + BegunNames(events) == BegunNames(events);
    if AloneEnd(None, events) == None {
      assert logged + OpenNames(None) == logged;
    }
  }

  // ---------- the whole connection ----------

  /** Nothing is lost on any channel. */
  predicate LosesNothing(chans: Channels, events: seq<Event>)
    decreases |events|
  {
    events == [] ||
    (!Loses(Lookup(chans, events[0].frame.channel), events[0]) && LosesNothing(Step(chans, events[0]).0, events[1..]))
  }

  lemma {:induction false} LosesNothingOnEachChannel(chans: Channels, events: seq<Event>)
    ensures LosesNothing(chans, events) <==> forall c :: Lost(Lookup(chans, c), Project(events, c)) == 0
    decreases |events|
  {
    hide ChannelStep, Loses;
    if events != [] {
      var e := events[0];
      var next := Step(chans, e).0;
      LosesNothingOnEachChannel(next, events[1..]);
      forall c: nat
        ensures Lost(Lookup(chans, c), Project(events, c)) ==
                (if c == e.frame.channel && Loses(Lookup(chans, c), e) then 1 else 0)
                + Lost(Lookup(next, c), Project(events[1..], c))
      {
        if c == e.frame.channel {
          assert Project(events, c)[1..] == Project(events[1..], c);
        }
      }
    }
  }

  /** In every run of a new connection, overlapping and broken contents included: each channel logs
      exactly the messages begun on it, in order and under their own names, if and only if no publish or
      deliver method and no malformed header meets a busy channel and none is busy at the end. */
  lemma EveryBegunIsLoggedIff(events: seq<Event>)
    ensures (forall c :: LoggedNames(OnChannel(Emitted(map[], events), c)) == BegunNames(Project(events, c)))
            <==> LosesNothing(map[], events) && FinalChannels(map[], events) == map[]
  {
    hide LoggedNames, BegunNames, Lost;
    LosesNothingOnEachChannel(map[], events);
    forall c: nat
      ensures LoggedNames(OnChannel(Emitted(map[], events), c)) == BegunNames(Project(events, c))
              <==> Lost(Lookup(map[], c), Project(events, c)) == 0 && c !in FinalChannels(map[], events)
    {
      ChannelsAreIndependent(map[], events, c);
      ChannelLogsAllIff(Project(events, c));
    }
    assert FinalChannels(map[], events) == map[] <==> forall c :: c !in FinalChannels(map[], events);
  }

  // ---------- what a logged message is made of ----------

  /** The content type and the body that a run of frames adds up to: a header that parses starts the body
      over, every body frame adds to it, whichever content they belong to. */
  function Heard(events: seq<Event>): (bytes, bytes)
    decreases |events|
  {
    if events == [] then ([], []) else HeardNext(Heard(events[..|events| - 1]), events[|events| - 1])
  }

  function HeardNext(before: (bytes, bytes), e: Event): (bytes, bytes) {
    if e.frame.kind == FRAME_HEADER && !IsMalformedHeader(e) then (ParseContentHeader(e.frame.payload).value.1, [])
    else if e.frame.kind == FRAME_BODY then (before.0, before.1 + e.frame.payload)
    else before
  }

  /** `m` was begun by the s-th event, the last that begins anything, and is what the frames after it
      add up to. */
  ghost predicate BegunAt(events: seq<Event>, s: nat, m: Message) {
    && s < |events| && Begins(events[s]) && NamesOf(m) == NamesOf(Finished(Started(events[s]).value))
    && (forall j :: s < j < |events| ==> !Begins(events[j]))
    && (m.contentType, m.body) == Heard(events[s + 1..])
  }

  lemma {:induction false} OpenWasBegun(events: seq<Event>) returns (s: nat)
    requires AloneEnd(None, events).Some?
    ensures s < |events| && BegunAt(events, s, Finished(AloneEnd(None, events).value))
    decreases |events|
  {
    hide ChannelStep, Started, ParseContentHeader;
    var n := |events| - 1;
    var front, e := events[..n], events[n];
    assert events == front + [e];
    AloneConcat(None, front, [e]);
    assert [e][1..] == [];
    var cs := AloneEnd(None, front);
    KeptOpen(cs, e);
    if Begins(e) {
      s := n;
      assert events[n + 1..] == [];
    } else {
      s := OpenWasBegun(front);
      assert events[s + 1..][..n - s - 1] == front[s + 1..];
    }
  }

  /** How a state that is open after a frame comes from the one before it. */
  lemma KeptOpen(cs: Option<ChannelState>, e: Event)
    requires ChannelStep(cs, e).0.Some?
    ensures var next := ChannelStep(cs, e).0.value;
            if Begins(e) then next == Started(e).value && next.contentType == [] && next.body == []
            else
              && cs.Some? && NamesOf(Finished(next)) == NamesOf(Finished(cs.value))
              && (next.contentType, next.body) == HeardNext((cs.value.contentType, cs.value.body), e)
  {
  }

  lemma Completed(cs: Option<ChannelState>, e: Event)
    requires ChannelStep(cs, e).1.Some?
    ensures var m := ChannelStep(cs, e).1.value;
            && cs.Some? && !Begins(e) && NamesOf(m) == NamesOf(Finished(cs.value))
            && (m.contentType, m.body) == HeardNext((cs.value.contentType, cs.value.body), e)
  {
  }

  /** Every message a channel logs, in any run: it carries the names of the last method begun before it,
      and the content type and body of whatever frames followed that method, its own or not. */
  lemma {:induction false} LoggedIsWhatFollowed(events: seq<Event>, k: nat) returns (s: nat, i: nat)
    requires k < |AloneLog(None, events)|
    ensures s < i < |events| && BegunAt(events[..i + 1], s, AloneLog(None, events)[k])
    ensures AloneLog(None, events[..i]) == AloneLog(None, events)[..k]
    decreases |events|
  {
    hide ChannelStep, BegunAt;
    var n := |events| - 1;
    var front, e := events[..n], events[n];
    assert events == front + [e];
    AloneConcat(None, front, [e]);
    assert [e][1..] == [];
    if k < |AloneLog(None, front)| {
      s, i := LoggedIsWhatFollowed(front, k);
      assert front[..i + 1] == events[..i + 1] && front[..i] == events[..i];
      assert AloneLog(None, events)[..k] == AloneLog(None, front)[..k];
    } else {
      i := n;
      Completed(AloneEnd(None, front), e);
      s := OpenWasBegun(front);
      assert events[..n + 1] == events;
      CompletedWasBegun(front, e, s);
    }
  }

  lemma CompletedWasBegun(front: seq<Event>, e: Event, s: nat)
    requires ChannelStep(AloneEnd(None, front), e).1.Some?
    requires AloneEnd(None, front).Some? && BegunAt(front, s, Finished(AloneEnd(None, front).value))
    ensures BegunAt(front + [e], s, ChannelStep(AloneEnd(None, front), e).1.value)
  {
    hide ChannelStep, Started, HeardNext;
    Completed(AloneEnd(None, front), e);
    assert (front + [e])[s + 1..][..|front| - s - 1] == front[s + 1..];
  }
}
