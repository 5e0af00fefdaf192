/** The step log buffer: deliveries deduplicated by id, cut into windows by flushes
    (services/test-agent/step_log_buffer.go, lines 69 to 182). */
module LogBuffer {
  datatype Kind = Http | Db | Message | Console

  /** A delivered log; console logs carry no id. */
  datatype Log = Log(id: string, payload: string)

  datatype Buffers = Buffers(http: seq<Log>, db: seq<Log>, message: seq<Log>, console: seq<Log>)

  const NOTHING := Buffers([], [], [], [])

  function Of(b: Buffers, k: Kind): seq<Log> {
    match k
    case Http => b.http
    case Db => b.db
    case Message => b.message
    case Console => b.console
  }

  function Append(b: Buffers, k: Kind, l: Log): Buffers {
    match k
    case Http => b.(http := b.http + [l])
    case Db => b.(db := b.db + [l])
    case Message => b.(message := b.message + [l])
    case Console => b.(console := b.console + [l])
  }

  /** Whether a delivery is dropped: an id seen before, under whatever kind. */
  predicate Drops(seen: set<string>, k: Kind, l: Log) {
    k != Console && l.id != "" && l.id in seen
  }

  function Seeing(seen: set<string>, k: Kind, l: Log): set<string> {
    if k != Console && l.id != "" then seen + {l.id} else seen
  }

  function Deliver(b: Buffers, seen: set<string>, k: Kind, l: Log): Buffers {
    if Drops(seen, k, l) then b else Append(b, k, l)
  }

  class StepLogBuffer {
    var httpLogs: seq<Log>
    var dbLogs: seq<Log>
    var messageLogs: seq<Log>
    var consoleLogs: seq<Log>
    var seenLogIds: set<string>

    ghost function View(): Buffers
      reads this
    {
      Buffers(httpLogs, dbLogs, messageLogs, consoleLogs)
    }

    constructor ()
      ensures View() == NOTHING && seenLogIds == {}
    {
      httpLogs, dbLogs, messageLogs, consoleLogs, seenLogIds := [], [], [], [], {};
    }

    method IsDuplicate(logId: string) returns (duplicate: bool)
      modifies this`seenLogIds
      ensures duplicate == (logId != "" && logId in old(seenLogIds))
      ensures seenLogIds == if logId == "" then old(seenLogIds) else old(seenLogIds) + {logId}
    {
      if logId == "" {
        return false;
      }
      if logId in seenLogIds {
        assert seenLogIds + {logId} == seenLogIds;
        return true;
      }
      seenLogIds := seenLogIds + {logId};
      return false;
    }

    method AddHttpLog(l: Log)
      modifies this
      ensures View() == Deliver(old(View()), old(seenLogIds), Http, l) && seenLogIds == Seeing(old(seenLogIds), Http, l)
    {
      var duplicate := IsDuplicate(l.id);
      if !duplicate {
        httpLogs := httpLogs + [l];
      }
    }

    method AddDbLog(l: Log)
      modifies this
      ensures View() == Deliver(old(View()), old(seenLogIds), Db, l) && seenLogIds == Seeing(old(seenLogIds), Db, l)
    {
      var duplicate := IsDuplicate(l.id);
      if !duplicate {
        dbLogs := dbLogs + [l];
      }
    }

    method AddMessageLog(l: Log)
      modifies this
      ensures View() == Deliver(old(View()), old(seenLogIds), Message, l) && seenLogIds == Seeing(old(seenLogIds), Message, l)
    {
      var duplicate := IsDuplicate(l.id);
      if !duplicate {
        messageLogs := messageLogs + [l];
      }
    }

    method AddConsoleLog(l: Log)
      modifies this
      ensures View() == Deliver(old(View()), old(seenLogIds), Console, l) && seenLogIds == old(seenLogIds)
    {
      consoleLogs := consoleLogs + [l];
    }

    method Flush()
      modifies this
      ensures View() == NOTHING && seenLogIds == old(seenLogIds)
    {
      httpLogs, dbLogs, messageLogs, consoleLogs := [], [], [], [];
    }

    method SnapshotAndFlush() returns (window: Buffers)
      modifies this
      ensures window == old(View()) && View() == NOTHING && seenLogIds == old(seenLogIds)
    {
      window := Buffers(httpLogs, dbLogs, messageLogs, consoleLogs);
      httpLogs, dbLogs, messageLogs, consoleLogs := [], [], [], [];
    }
  }

  // ---------- whole runs ----------

  /** A delivery, or the end of a window, handed out or discarded. */
  datatype Event = Delivery(kind: Kind, log: Log) | EndWindow

  datatype State = State(buffers: Buffers, seen: set<string>)

  function Step(st: State, e: Event): State {
    match e
    case Delivery(k, l) => State(Deliver(st.buffers, st.seen, k, l), Seeing(st.seen, k, l))
    case EndWindow => st.(buffers := NOTHING)
  }

  function Run(st: State, events: seq<Event>): State
    decreases |events|
  {
    if events == [] then st else Run(Step(st, events[0]), events[1..])
  }

  /** The windows ended during a run. */
  function Windows(st: State, events: seq<Event>): seq<Buffers>
    decreases |events|
  {
    if events == [] then []
    else
      var rest := Windows(Step(st, events[0]), events[1..]);
      if events[0].EndWindow? then [st.buffers] + rest else rest
  }

  function ConcatOf(windows: seq<Buffers>, k: Kind): seq<Log> {
    if windows == [] then [] else Of(windows[0], k) + ConcatOf(windows[1..], k)
  }

  function Deliveries(events: seq<Event>): seq<Event> {
    if events == [] then []
    else if events[0].Delivery? then [events[0]] + Deliveries(events[1..])
    else Deliveries(events[1..])
  }

  /** Delivery `i` repeats an earlier one: the same non-empty id, of any kind but console. */
  predicate Repeats(ds: seq<Event>, i: nat)
    requires i < |ds|
  {
    ds[i].Delivery? && ds[i].kind != Console && ds[i].log.id != "" &&
    exists j :: 0 <= j < i && ds[j].Delivery? && ds[j].kind != Console && ds[j].log.id == ds[i].log.id
  }

  /** The logs of one kind among the first `n` deliveries, repeats removed. */
  function Unique(ds: seq<Event>, k: Kind, n: nat): seq<Log>
    requires n <= |ds|
  {
    if n == 0 then []
    else
      var before := Unique(ds, k, n - 1);
      var d := ds[n - 1];
      if d.Delivery? && d.kind == k && !Repeats(ds, n - 1) then before + [d.log] else before
  }

  /** What the seen-set says about the deliveries so far. */
  ghost predicate SeesIds(seen: set<string>, ds: seq<Event>) {
    forall id :: id in seen <==>
      id != "" && exists j :: 0 <= j < |ds| && ds[j].Delivery? && ds[j].kind != Console && ds[j].log.id == id
  }

  lemma {:induction false} UniqueOfPrefix(ds: seq<Event>, more: seq<Event>, k: Kind, n: nat)
    requires n <= |ds|
    ensures Unique(ds + more, k, n) == Unique(ds, k, n)
  {
    if n > 0 {
      UniqueOfPrefix(ds, more, k, n - 1);
      var all := ds + more;
      assert forall j :: 0 <= j < n ==> all[j] == ds[j];
      assert Repeats(all, n - 1) == Repeats(ds, n - 1);
    }
  }

  lemma SeesOneMore(seen: set<string>, ds: seq<Event>, e: Event)
    requires SeesIds(seen, ds) && e.Delivery?
    ensures SeesIds(Seeing(seen, e.kind, e.log), ds + [e])
    ensures Repeats(ds + [e], |ds|) <==> Drops(seen, e.kind, e.log)
  {
    var all := ds + [e];
    assert all[|ds|] == e && forall j :: 0 <= j < |ds| ==> all[j] == ds[j];
    forall id
      ensures id in Seeing(seen, e.kind, e.log) <==>
        id != "" && exists j :: 0 <= j < |all| && all[j].Delivery? && all[j].kind != Console && all[j].log.id == id
    {
      if id in seen {
        var j :| 0 <= j < |ds| && ds[j].Delivery? && ds[j].kind != Console && ds[j].log.id == id;
        assert all[j] == ds[j];
      } else if id in Seeing(seen, e.kind, e.log) {
        assert all[|ds|].log.id == id;
      }
    }
  }

  lemma {:induction false} RunKeepsUnique(st: State, done: seq<Event>, sent: seq<Log>, events: seq<Event>, k: Kind)
    requires SeesIds(st.seen, done)
    requires sent + Of(st.buffers, k) == Unique(done, k, |done|)
    ensures var all := done + Deliveries(events);
            sent + ConcatOf(Windows(st, events), k) + Of(Run(st, events).buffers, k) == Unique(all, k, |all|)
    decreases |events|
  {
    hide Unique, SeesIds, Deliver, Seeing;
    if events == [] {
      assert done + [] == done;
      assert sent + [] == sent;
    } else {
      var e, next := events[0], Step(st, events[0]);
      if e.EndWindow? {
        assert sent + Of(st.buffers, k) + Of(NOTHING, k) == sent + Of(st.buffers, k);
        RunKeepsUnique(next, done, sent + Of(st.buffers, k), events[1..], k);
        assert sent + (Of(st.buffers, k) + ConcatOf(Windows(next, events[1..]), k))
            == sent + Of(st.buffers, k) + ConcatOf(Windows(next, events[1..]), k);
      } else {
        DeliveryKeepsUnique(st, done, sent, e, k);
        RunKeepsUnique(next, done + [e], sent, events[1..], k);
        assert done + ([e] + Deliveries(events[1..])) == done + [e] + Deliveries(events[1..]);
      }
    }
  }

  lemma DeliveryKeepsUnique(st: State, done: seq<Event>, sent: seq<Log>, e: Event, k: Kind)
    requires SeesIds(st.seen, done) && e.Delivery?
    requires sent + Of(st.buffers, k) == Unique(done, k, |done|)
    ensures SeesIds(Step(st, e).seen, done + [e])
    ensures sent + Of(Step(st, e).buffers, k) == Unique(done + [e], k, |done| + 1)
  {
    SeesOneMore(st.seen, done, e);
    hide Drops, Repeats, SeesIds;
    UniqueOfPrefix(done, [e], k, |done|);
    assert (done + [e])[|done|] == e;
    assert sent + (Of(st.buffers, k) + [e.log]) == sent + Of(st.buffers, k) + [e.log];
  }

  /** For any sequence of deliveries, redeliveries and window ends, the windows of a kind followed by
      the current buffer are the deliveries of that kind with repeated ids removed, even when a
      repeat falls into a later window. */
  lemma DeliveredExactlyOnce(events: seq<Event>, k: Kind)
    ensures var ds := Deliveries(events);
            var start := State(NOTHING, {});
            ConcatOf(Windows(start, events), k) + Of(Run(start, events).buffers, k) == Unique(ds, k, |ds|)
  {
    hide Unique;
    var start := State(NOTHING, {});
    assert Unique([], k, 0) == [] by { UniqueOfNothing(k); }
    RunKeepsUnique(start, [], [], events, k);
    assert [] + Deliveries(events) == Deliveries(events);
    assert [] + ConcatOf(Windows(start, events), k) == ConcatOf(Windows(start, events), k);
  }

  lemma UniqueOfNothing(k: Kind)
    ensures Unique([], k, 0) == []
  {
  }
}
