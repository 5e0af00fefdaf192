/** Matching Mongo responses to requests and collecting the batches of a cursor into one log entry
    (services/db-proxy/mongo/connection.go). */
module MongoCursors {
  import opened Bytes
  import opened Options

  /** A result document, as field names to rendered values. */
  type Row = map<bytes, bytes>

  /** The source tells finds and getMores apart; killCursors is one command among the others to it. */
  datatype Kind = Find | GetMore(cursor: int) | KillCursors(ids: set<int>) | OtherKind

  datatype Command = Command(kind: Kind, query: bytes)

  /** What a response says. `data` is None where the source has a nil slice. */
  datatype Info = Info(success: bool, n: int, errmsg: bytes, data: Option<seq<Row>>, cursorId: int)

  datatype Accumulator = Accumulator(query: bytes, data: seq<Row>)

  datatype LogEntry = LogEntry(query: bytes, success: bool, n: Option<int>, errmsg: bytes, data: Option<seq<Row>>)

  type Cursors = map<int, Accumulator>

  function Plain(c: Command, info: Info): LogEntry {
    LogEntry(c.query, info.success, if info.n > 0 then Some(info.n) else None, info.errmsg, info.data)
  }

  function Collected(query: bytes, data: seq<Row>, info: Info): LogEntry {
    LogEntry(query, info.success, None, info.errmsg, Some(data))
  }

  predicate Opens(c: Command, info: Info) {
    c.kind.Find? && info.cursorId != 0 && info.data.Some?
  }

  /** The cursors and the log entries after one answered command. */
  function Answer(cursors: Cursors, c: Command, info: Info): (Cursors, seq<LogEntry>) {
    if Opens(c, info) then (cursors[info.cursorId := Accumulator(c.query, info.data.value)], [])
    else if c.kind.GetMore? && c.kind.cursor in cursors then
      var acc := cursors[c.kind.cursor];
      var grown := acc.(data := acc.data + info.data.GetOr([]));
      if info.cursorId == 0 then (cursors - {c.kind.cursor}, [Collected(grown.query, grown.data, info)])
      else if info.cursorId != c.kind.cursor then
        (cursors[info.cursorId := grown] - {c.kind.cursor}, [])
      else (cursors[c.kind.cursor := grown], [])
    else (cursors, [Plain(c, info)])
  }

  class Proxy {
    var pending: map<int, Command>
    var cursors: Cursors
    var log: seq<LogEntry>

    constructor ()
      ensures pending == map[] && cursors == map[] && log == []
    {
      pending, cursors, log := map[], map[], [];
    }

    /** A client request worth logging. */
    method Request(requestId: int, c: Command)
      modifies this`pending
      ensures pending == old(pending)[requestId := c]
    {
      pending := pending[requestId := c];
    }

    method Response(responseTo: int, info: Info)
      modifies this
      ensures responseTo == 0 || responseTo !in old(pending) ==>
        pending == old(pending) && cursors == old(cursors) && log == old(log)
      ensures responseTo != 0 && responseTo in old(pending) ==>
        var (cs, entries) := Answer(old(cursors), old(pending)[responseTo], info);
        pending == old(pending) - {responseTo} && cursors == cs && log == old(log) + entries
    {
      if responseTo != 0 {
        if responseTo in pending {
          var pq := pending[responseTo];
          pending := pending - {responseTo};
          LogQuery(pq, info);
        } else {
          assert pending - {responseTo} == pending;
        }
      }
    }

    method LogQuery(c: Command, info: Info)
      modifies this`cursors, this`log
      ensures cursors == Answer(old(cursors), c, info).0
      ensures log == old(log) + Answer(old(cursors), c, info).1
    {
      if c.kind.Find? && info.cursorId != 0 && info.data.Some? {
        cursors := cursors[info.cursorId := Accumulator(c.query, info.data.value)];
        return;
      }
      if c.kind.GetMore? && c.kind.cursor in cursors {
        var id := c.kind.cursor;
        if info.data.Some? {
          cursors := cursors[id := cursors[id].(data := cursors[id].data + info.data.value)];
        } else {
          assert cursors[id].data + [] == cursors[id].data;
          assert cursors[id := cursors[id]] == cursors;
        }
        var acc := cursors[id];
        assert cursors == old(cursors)[id := acc];
        if info.cursorId == 0 {
          cursors := cursors - {id};
          assert cursors == old(cursors) - {id};
          log := log + [Collected(acc.query, acc.data, info)];
          return;
        }
        if info.cursorId != id {
          cursors := cursors[info.cursorId := acc];
          cursors := cursors - {id};
          assert cursors == old(cursors)[info.cursorId := acc] - {id};
        }
        return;
      }
      log := log + [Plain(c, info)];
    }
  }

  // ---------- cursors over whole runs ----------

  /** An answered command, tagged with the find it belongs to. The tag is bookkeeping of the
      statement; the proxy never sees it. */
  datatype Event = Event(command: Command, info: Info, tag: nat)

  /** An open find: its query and the cursor id the server last gave it. */
  datatype OpenFind = OpenFind(query: bytes, id: int)

  type OpenFinds = map<nat, OpenFind>

  predicate Continues(open_: OpenFinds, e: Event) {
    e.command.kind.GetMore? && e.tag in open_ && open_[e.tag].id == e.command.kind.cursor
  }

  /** The finds the proxy is still collecting after an answer. */
  function OpenAfter(open_: OpenFinds, e: Event): OpenFinds {
    if Opens(e.command, e.info) then open_[e.tag := OpenFind(e.command.query, e.info.cursorId)]
    else if !Continues(open_, e) then open_
    else if e.info.cursorId == 0 then open_ - {e.tag}
    else open_[e.tag := open_[e.tag].(id := e.info.cursorId)]
  }

  function OpenAt(events: seq<Event>): OpenFinds {
    if events == [] then map[] else OpenAfter(OpenAt(events[..|events| - 1]), events[|events| - 1])
  }

  /** Tags of finds that opened a cursor. */
  function UsedTags(events: seq<Event>): set<nat> {
    set i | 0 <= i < |events| && Opens(events[i].command, events[i].info) :: events[i].tag
  }

  /** What the server guarantees of one more answer: a find opens a cursor no open find holds, a
      renamed cursor takes an id no other open find holds, and a getMore on an open cursor carries
      the tag of the find that holds it. */
  ghost predicate LegalNext(events: seq<Event>, e: Event) {
    var open_ := OpenAt(events);
    if Opens(e.command, e.info) then
      e.tag !in UsedTags(events) && forall l :: l in open_ ==> open_[l].id != e.info.cursorId
    else if e.command.kind.GetMore? && (exists l :: l in open_ && open_[l].id == e.command.kind.cursor) then
      Continues(open_, e) && forall l :: l in open_ && l != e.tag ==> open_[l].id != e.info.cursorId
    else true
  }

  ghost predicate Legal(events: seq<Event>) {
    forall n :: 0 <= n < |events| ==> LegalNext(events[..n], events[n])
  }

  /** The batches of one find, first and next, in order. */
  function Batches(events: seq<Event>, tag: nat): seq<Row> {
    if events == [] then []
    else
      var rest, e := events[..|events| - 1], events[|events| - 1];
      Batches(rest, tag) +
      (if e.tag == tag && (Opens(e.command, e.info) || Continues(OpenAt(rest), e)) then e.info.data.GetOr([]) else [])
  }

  /** What an answer should log: an exhausted find its whole result under its own query, a batch
      that is not the last nothing, anything else itself. */
  function Due(events: seq<Event>, e: Event): seq<LogEntry> {
    if Opens(e.command, e.info) then []
    else if Continues(OpenAt(events), e) then
      if e.info.cursorId == 0 then
        [Collected(OpenAt(events)[e.tag].query, Batches(events + [e], e.tag), e.info)]
      else []
    else [Plain(e.command, e.info)]
  }

  function DueLog(events: seq<Event>): seq<LogEntry> {
    if events == [] then []
    else DueLog(events[..|events| - 1]) + Due(events[..|events| - 1], events[|events| - 1])
  }

  /** What the proxy holds and logs after a run from the start. */
  function After(events: seq<Event>): (Cursors, seq<LogEntry>) {
    if events == [] then (map[], [])
    else
      var (cursors, log) := After(events[..|events| - 1]);
      var e := events[|events| - 1];
      var (next, entries) := Answer(cursors, e.command, e.info);
      (next, log + entries)
  }

  /** The accumulators are exactly the open finds, each under its own id with its batches so far. */
  ghost predicate HoldsOpenFinds(cursors: Cursors, events: seq<Event>) {
    var open_ := OpenAt(events);
    && (forall l :: l in open_ ==>
          open_[l].id in cursors && cursors[open_[l].id] == Accumulator(open_[l].query, Batches(events, l)))
    && (forall id :: id in cursors ==> exists l :: l in open_ && open_[l].id == id)
    && (forall l, m :: l in open_ && m in open_ && l != m ==> open_[l].id != open_[m].id)
    && (forall l :: l in open_ ==> l in UsedTags(events))
  }

  lemma Appended(events: seq<Event>, e: Event)
    ensures (events + [e])[..|events + [e]| - 1] == events && (events + [e])[|events + [e]| - 1] == e
    ensures OpenAt(events + [e]) == OpenAfter(OpenAt(events), e)
    ensures UsedTags(events) <= UsedTags(events + [e])
    ensures UsedTags(events + [e]) <= UsedTags(events) + {e.tag}
    ensures Opens(e.command, e.info) ==> e.tag in UsedTags(events + [e])
  {
    var all := events + [e];
    assert all[..|all| - 1] == events;
    forall l | l in UsedTags(events) ensures l in UsedTags(all) {
      var i :| 0 <= i < |events| && Opens(events[i].command, events[i].info) && events[i].tag == l;
      assert all[i] == events[i];
    }
    if Opens(e.command, e.info) {
      assert all[|events|] == e;
    }
  }

  /** A tag no opening find has used has no batches. */
  lemma {:induction false} UnusedHasNoBatches(events: seq<Event>, tag: nat)
    requires tag !in UsedTags(events) && tag !in OpenAt(events)
    requires forall n :: 0 <= n <= |events| ==> tag !in OpenAt(events[..n])
    ensures Batches(events, tag) == []
  {
    if events != [] {
      var n := |events| - 1;
      var rest := events[..n];
      assert rest[..n] == rest;
      forall k | 0 <= k <= n ensures tag !in OpenAt(rest[..k]) {
        assert rest[..k] == events[..k];
      }
      forall l | l in UsedTags(rest) ensures l in UsedTags(events) {
        var i :| 0 <= i < n && Opens(rest[i].command, rest[i].info) && rest[i].tag == l;
        assert events[i] == rest[i];
      }
      UnusedHasNoBatches(rest, tag);
      assert events[n].tag == tag ==> !Opens(events[n].command, events[n].info);
    }
  }

  lemma {:induction false} OpenTagsAreUsed(events: seq<Event>)
    ensures forall l :: l in OpenAt(events) ==> l in UsedTags(events)
  {
    if events != [] {
      var n := |events| - 1;
      OpenTagsAreUsed(events[..n]);
      assert events == events[..n] + [events[n]];
      Appended(events[..n], events[n]);
    }
  }

  lemma UsedTagsGrow(events: seq<Event>, n: nat)
    requires n <= |events|
    ensures UsedTags(events[..n]) <= UsedTags(events)
  {
    forall l | l in UsedTags(events[..n]) ensures l in UsedTags(events) {
      var i :| 0 <= i < n && Opens(events[..n][i].command, events[..n][i].info) && events[..n][i].tag == l;
      assert events[i] == events[..n][i];
    }
  }

  lemma FreshTagHasNoBatches(events: seq<Event>, tag: nat)
    requires tag !in UsedTags(events)
    ensures Batches(events, tag) == []
  {
    OpenTagsAreUsed(events);
    forall n | 0 <= n <= |events| ensures tag !in OpenAt(events[..n]) {
      OpenTagsAreUsed(events[..n]);
      UsedTagsGrow(events, n);
    }
    UnusedHasNoBatches(events, tag);
  }

  lemma BatchesAppended(events: seq<Event>, e: Event, tag: nat)
    ensures Batches(events + [e], tag) == Batches(events, tag) +
      (if e.tag == tag && (Opens(e.command, e.info) || Continues(OpenAt(events), e)) then e.info.data.GetOr([]) else [])
  {
    Appended(events, e);
  }

  /** One legal answer keeps the accumulators equal to the open finds and logs what is due. */
  lemma AnswerKeepsOpenFinds(cursors: Cursors, events: seq<Event>, e: Event)
    requires HoldsOpenFinds(cursors, events) && LegalNext(events, e)
    ensures HoldsOpenFinds(Answer(cursors, e.command, e.info).0, events + [e])
    ensures Answer(cursors, e.command, e.info).1 == Due(events, e)
  {
    var open_ := OpenAt(events);
    var all := events + [e];
    var next := Answer(cursors, e.command, e.info).0;
    Appended(events, e);
    forall l: nat
      ensures Batches(all, l) == Batches(events, l) +
        (if e.tag == l && (Opens(e.command, e.info) || Continues(open_, e)) then e.info.data.GetOr([]) else [])
      ensures !(e.tag == l && (Opens(e.command, e.info) || Continues(open_, e))) ==> Batches(all, l) == Batches(events, l)
    {
      BatchesAppended(events, e, l);
    }
    hide Batches, UsedTags, OpenAt;
    if Opens(e.command, e.info) {
      OpeningKeeps(cursors, events, e);
    } else if e.command.kind.GetMore? && e.command.kind.cursor in cursors {
      ContinuingKeeps(cursors, events, e);
    } else {
      assert !Continues(open_, e);
    }
  }

  lemma OpeningKeeps(cursors: Cursors, events: seq<Event>, e: Event)
    requires HoldsOpenFinds(cursors, events) && LegalNext(events, e) && Opens(e.command, e.info)
    ensures HoldsOpenFinds(Answer(cursors, e.command, e.info).0, events + [e])
  {
    hide Batches, OpenAt, UsedTags;
    var next := Answer(cursors, e.command, e.info).0;
    var open_, after := OpenAt(events), OpenAt(events + [e]);
    Appended(events, e);
    OpeningBatches(cursors, events, e);
    forall id | id in next ensures exists l :: l in after && after[l].id == id {
      if id == e.info.cursorId {
        assert after[e.tag].id == id;
      } else {
        var l :| l in open_ && open_[l].id == id;
        assert after[l].id == id;
      }
    }
  }

  lemma OpeningBatches(cursors: Cursors, events: seq<Event>, e: Event)
    requires HoldsOpenFinds(cursors, events) && LegalNext(events, e) && Opens(e.command, e.info)
    ensures var next, after := Answer(cursors, e.command, e.info).0, OpenAt(events + [e]);
            forall l :: l in after ==>
              after[l].id in next && next[after[l].id] == Accumulator(after[l].query, Batches(events + [e], l))
  {
    hide Batches, OpenAt;
    var next := Answer(cursors, e.command, e.info).0;
    var all := events + [e];
    var open_, after := OpenAt(events), OpenAt(all);
    Appended(events, e);
    FreshTagHasNoBatches(events, e.tag);
    hide UsedTags;
    assert [] + e.info.data.value == e.info.data.value;
    forall l | l in after
      ensures after[l].id in next && next[after[l].id] == Accumulator(after[l].query, Batches(all, l))
    {
      BatchesAppended(events, e, l);
      assert l != e.tag ==> Batches(events, l) + [] == Batches(events, l);
    }
  }

  lemma ContinuingKeeps(cursors: Cursors, events: seq<Event>, e: Event)
    requires HoldsOpenFinds(cursors, events) && LegalNext(events, e)
    requires !Opens(e.command, e.info) && e.command.kind.GetMore? && e.command.kind.cursor in cursors
    ensures Continues(OpenAt(events), e)
    ensures HoldsOpenFinds(Answer(cursors, e.command, e.info).0, events + [e])
    ensures Answer(cursors, e.command, e.info).1 == Due(events, e)
  {
    ContinuingBatches(cursors, events, e);
    ContinuingIds(cursors, events, e);
    Appended(events, e);
    hide Batches, OpenAt, UsedTags, Answer, Opens;
  }

  lemma ContinuingBatches(cursors: Cursors, events: seq<Event>, e: Event)
    requires HoldsOpenFinds(cursors, events) && LegalNext(events, e)
    requires !Opens(e.command, e.info) && e.command.kind.GetMore? && e.command.kind.cursor in cursors
    ensures Continues(OpenAt(events), e)
    ensures Answer(cursors, e.command, e.info).1 == Due(events, e)
    ensures var next, after := Answer(cursors, e.command, e.info).0, OpenAt(events + [e]);
            forall l :: l in after ==>
              after[l].id in next && next[after[l].id] == Accumulator(after[l].query, Batches(events + [e], l))
  {
    hide Batches, OpenAt, UsedTags;
    var all := events + [e];
    var open_, after := OpenAt(events), OpenAt(all);
    Appended(events, e);
    assert exists l :: l in open_ && open_[l].id == e.command.kind.cursor;
    BatchesAppended(events, e, e.tag);
    forall l | l in after
      ensures var next := Answer(cursors, e.command, e.info).0;
              after[l].id in next && next[after[l].id] == Accumulator(after[l].query, Batches(all, l))
    {
      BatchesAppended(events, e, l);
      assert l != e.tag ==> Batches(events, l) + [] == Batches(events, l);
    }
  }

  lemma ContinuingIds(cursors: Cursors, events: seq<Event>, e: Event)
    requires HoldsOpenFinds(cursors, events) && LegalNext(events, e)
    requires !Opens(e.command, e.info) && e.command.kind.GetMore? && e.command.kind.cursor in cursors
    ensures var next, after := Answer(cursors, e.command, e.info).0, OpenAt(events + [e]);
            && (forall id :: id in next ==> exists l :: l in after && after[l].id == id)
            && (forall l, m :: l in after && m in after && l != m ==> after[l].id != after[m].id)
  {
    hide Batches, OpenAt, UsedTags;
    Appended(events, e);
    var open_, after := OpenAt(events), OpenAt(events + [e]);
    var next := Answer(cursors, e.command, e.info).0;
    assert exists l :: l in open_ && open_[l].id == e.command.kind.cursor;
    forall i | i in next ensures exists l :: l in after && after[l].id == i {
      if i == e.info.cursorId && i != 0 {
        assert after[e.tag].id == i;
      } else {
        var l :| l in open_ && open_[l].id == i;
        assert after[l].id == i;
      }
    }
  }

  /** For every legal interleaving of finds and getMores: the accumulator map holds exactly the open
      finds with their batches so far, and the log is what is due, answer by answer. */
  lemma {:induction false} FindsAreCollected(events: seq<Event>)
    requires Legal(events)
    ensures HoldsOpenFinds(After(events).0, events)
    ensures After(events).1 == DueLog(events)
  {
    if events != [] {
      var n := |events| - 1;
      var rest, e := events[..n], events[n];
      forall k | 0 <= k < n ensures LegalNext(rest[..k], rest[k]) {
        assert rest[..k] == events[..k];
        assert LegalNext(events[..k], events[k]);
      }
      FindsAreCollected(rest);
      hide HoldsOpenFinds, LegalNext, Answer, Due;
      assert LegalNext(events[..n], events[n]);
      AnswerKeepsOpenFinds(After(rest).0, rest, e);
      assert events == rest + [e];
    }
  }

  /** A find is exhausted at most once: after the closing getMore its tag never closes again. */
  lemma {:induction false} ClosedStaysClosed(events: seq<Event>, i: nat, j: nat)
    requires Legal(events) && i < j < |events|
    requires Continues(OpenAt(events[..i]), events[i]) && events[i].info.cursorId == 0
    requires !Opens(events[i].command, events[i].info)
    ensures events[i].tag !in OpenAt(events[..j])
    ensures !(Continues(OpenAt(events[..j]), events[j]) && events[j].tag == events[i].tag)
    decreases j
  {
    var tag := events[i].tag;
    assert events[..j][..j - 1] == events[..j - 1];
    if j - 1 > i {
      ClosedStaysClosed(events, i, j - 1);
      OpenTagsAreUsed(events[..i]);
      UsedTagsGrow(events[..j - 1], i);
      assert events[..j - 1][..i] == events[..i];
      assert LegalNext(events[..j - 1], events[j - 1]);
    }
  }

  // ---------- killed cursors ----------

  function KilledIds(e: Event): set<int> {
    if e.command.kind.KillCursors? then e.command.kind.ids else {}
  }

  function ServerAfter(server: OpenFinds, e: Event): OpenFinds {
    var after := OpenAfter(server, e);
    map l | l in after && after[l].id !in KilledIds(e) :: after[l]
  }

  /** The finds whose cursor the server still has open: a killCursors ends those it names. */
  function ServerOpen(events: seq<Event>): OpenFinds {
    if events == [] then map[] else ServerAfter(ServerOpen(events[..|events| - 1]), events[|events| - 1])
  }

  function KilledAfter(open_: OpenFinds, server: OpenFinds, killed: set<nat>, e: Event): set<nat> {
    set l | l in OpenAfter(open_, e).Keys && (l in killed || (l in server && server[l].id in KilledIds(e)))
  }

  /** The finds that were killed and that the proxy is still collecting. */
  function Killed(events: seq<Event>): set<nat> {
    if events == [] then {}
    else
      var rest := events[..|events| - 1];
      KilledAfter(OpenAt(rest), ServerOpen(rest), Killed(rest), events[|events| - 1])
  }

  /** The server has open exactly the finds being collected and not killed, under the same ids. */
  ghost predicate Apart(open_: OpenFinds, server: OpenFinds, killed: set<nat>) {
    && (forall l :: l in server <==> l in open_ && l !in killed)
    && (forall l :: l in server ==> server[l] == open_[l])
    && killed <= open_.Keys
  }

  lemma StaysApart(open_: OpenFinds, server: OpenFinds, killed: set<nat>, e: Event)
    requires Apart(open_, server, killed)
    requires Opens(e.command, e.info) ==> e.tag !in open_
    ensures Apart(OpenAfter(open_, e), ServerAfter(server, e), KilledAfter(open_, server, killed, e))
  {
    var open', server', killed' := OpenAfter(open_, e), ServerAfter(server, e), KilledAfter(open_, server, killed, e);
    forall l: nat
      ensures l in server' <==> l in open' && l !in killed'
      ensures l in server' ==> server'[l] == open'[l]
    {
      assert l != e.tag ==> (l in open' <==> l in open_);
    }
  }

  lemma {:induction false} ServerHasTheOthers(events: seq<Event>)
    requires Legal(events)
    ensures Apart(OpenAt(events), ServerOpen(events), Killed(events))
  {
    if events != [] {
      var n := |events| - 1;
      LegalPrefix(events, n);
      ServerHasTheOthers(events[..n]);
      OpenTagsAreUsed(events[..n]);
      assert LegalNext(events[..n], events[n]);
      hide Legal, UsedTags, Apart, OpenAfter, ServerAfter, KilledAfter;
      StaysApart(OpenAt(events[..n]), ServerOpen(events[..n]), Killed(events[..n]), events[n]);
    }
  }

  lemma LegalPrefix(events: seq<Event>, n: nat)
    requires Legal(events) && n <= |events|
    ensures Legal(events[..n])
  {
    hide LegalNext;
    forall k | 0 <= k < n ensures LegalNext(events[..n][..k], events[..n][k]) {
      assert events[..n][..k] == events[..k];
      assert LegalNext(events[..k], events[k]);
    }
  }

  /** The accumulators are exactly the finds in `open_`. */
  ghost predicate HoldsExactly(cursors: Cursors, events: seq<Event>, open_: OpenFinds) {
    && (forall l :: l in open_ ==>
          open_[l].id in cursors && cursors[open_[l].id] == Accumulator(open_[l].query, Batches(events, l)))
    && (forall id :: id in cursors ==> exists l :: l in open_ && open_[l].id == id)
  }

  /** For every legal run: the accumulator map is exactly the finds the server has open, if and only if
      none of those still being collected was killed. */
  lemma MapIsServersIff(events: seq<Event>)
    requires Legal(events)
    ensures HoldsExactly(After(events).0, events, ServerOpen(events)) <==> Killed(events) == {}
  {
    FindsAreCollected(events);
    ServerHasTheOthers(events);
    hide OpenAt, ServerOpen, Killed, After, Batches, UsedTags, Legal;
    var cursors, open_, server := After(events).0, OpenAt(events), ServerOpen(events);
    if Killed(events) == {} {
      forall id | id in cursors ensures exists l :: l in server && server[l].id == id {
        var l :| l in open_ && open_[l].id == id;
        assert l in server;
      }
    } else {
      var l :| l in Killed(events);
      assert open_[l].id in cursors;
      assert forall k :: k in server ==> server[k].id != open_[l].id;
    }
  }

  /** A find opens cursor 7 and is killed: the accumulator stays and the find is never logged. */
  lemma KilledFindStays(find: bytes, kill: bytes, rows: seq<Row>)
    ensures var answered := Info(true, 0, [], None, 0);
            var events := [Event(Command(Find, find), Info(true, 0, [], Some(rows), 7), 0),
                           Event(Command(KillCursors({7}), kill), answered, 1)];
            && Legal(events) && ServerOpen(events) == map[]
            && After(events) == (map[7 := Accumulator(find, rows)], [Plain(Command(KillCursors({7}), kill), answered)])
  {
    var opening := Event(Command(Find, find), Info(true, 0, [], Some(rows), 7), 0);
    var killing := Event(Command(KillCursors({7}), kill), Info(true, 0, [], None, 0), 1);
    var events := [opening, killing];
    assert events[..1] == [opening] && events[..0] == [] && [opening][..0] == [];
    assert OpenAt([opening]) == OpenAfter(OpenAt([]), opening) == map[0 := OpenFind(find, 7)];
    assert ServerOpen([opening]) == map[0 := OpenFind(find, 7)];
    assert LegalNext([], opening) && LegalNext([opening], killing);
    assert After([]) == (map[], []);
    assert ServerOpen(events) == ServerAfter(ServerOpen([opening]), killing);
    forall n | 0 <= n < |events| ensures LegalNext(events[..n], events[n]) {
      assert n == 0 || n == 1;
    }
    var held, none: seq<LogEntry> := map[7 := Accumulator(find, rows)], [];
    var last := [Plain(killing.command, killing.info)];
    assert none + none == none && none + last == last;
    assert After([opening]) == (held, none + none);
    assert Answer(held, killing.command, killing.info) == (held, last);
    assert After(events) == (held, none + last);
  }
}
