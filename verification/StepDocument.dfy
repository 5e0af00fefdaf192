/** The document a step's assertions read, assembled from the log buffer, and how its lists change when
    more logs arrive (services/test-agent/document_assembler.go, lines 269 to 347, and
    document_assembler_lists.go). */
module StepDocument {
  import opened Options
  import opened Matching
  import opened Timeline
  import L = LogBuffer
  import DocPath

  /** The step's time window, and what the source reads off a log: an HTTP log's times and status, the
      time of any other log, the trafficIndex and direction its metadata may hold, and the rendered
      entries. `action` adds the keys of the step's action; it is None while the action's own log is
      missing. */
  datatype Reading = Reading(
    start: int, end: int,
    http: L.Log -> HttpLog,
    time: (L.Kind, L.Log) -> int,
    mark: (L.Kind, L.Log) -> Option<Key>,
    fields: HttpLog -> map<string, Value>,
    event: (HttpLog, int, string) -> Value,
    listed: (L.Kind, L.Log) -> Value,
    other: string -> Value,
    action: (L.Buffers, map<string, Value>) -> Option<Root>)

  // ---------- the lists ----------

  function HttpLogs(rd: Reading, logs: seq<L.Log>): (s: seq<HttpLog>)
    ensures |s| == |logs|
  {
    seq(|logs|, i requires 0 <= i < |logs| => rd.http(logs[i]))
  }

  function Shown(rd: Reading, b: L.Buffers): seq<HttpLog> {
    InWindow(HttpLogs(rd, b.http), rd.start, rd.end)
  }

  /** The logs of another kind that fall into the window. */
  function Within(rd: Reading, k: L.Kind, logs: seq<L.Log>): (s: seq<L.Log>)
    ensures |s| <= |logs|
  {
    if logs == [] then []
    else
      var l, before := logs[|logs| - 1], Within(rd, k, logs[..|logs| - 1]);
      if rd.start <= rd.time(k, l) <= rd.end then before + [l] else before
  }

  function Listed(rd: Reading, k: L.Kind, logs: seq<L.Log>): (s: seq<Value>)
    ensures |s| == |logs|
  {
    seq(|logs|, i requires 0 <= i < |logs| => rd.listed(k, logs[i]))
  }

  function EntryOf(rd: Reading, k: L.Kind, l: L.Log): Entry {
    Entry(rd.time(k, l), rd.mark(k, l), Other(l.payload))
  }

  function EntriesFor(rd: Reading, k: L.Kind, logs: seq<L.Log>): (s: seq<Entry>)
    ensures |s| == |logs|
  {
    seq(|logs|, i requires 0 <= i < |logs| => EntryOf(rd, k, logs[i]))
  }

  /** Http, console, db and message events, in the order the source merges them. */
  function AllEntries(rd: Reading, b: L.Buffers): seq<Entry> {
    TimelineOf(Shown(rd, b), |Shown(rd, b)|) +
    (EntriesFor(rd, L.Console, Within(rd, L.Console, b.console)) +
     (EntriesFor(rd, L.Db, Within(rd, L.Db, b.db)) +
      EntriesFor(rd, L.Message, Within(rd, L.Message, b.message))))
  }

  function TimelineEntries(rd: Reading, b: L.Buffers): seq<Entry> { StableSort(AllEntries(rd, b)) }

  function Rendered(rd: Reading, shown: seq<HttpLog>, e: Entry): Value {
    match e.origin
    case RequestOf(i) => if 0 <= i < |shown| then rd.event(shown[i], i, REQUEST) else Nil
    case ResponseOf(i) => if 0 <= i < |shown| then rd.event(shown[i], i, RESPONSE) else Nil
    case Other(content) => rd.other(content)
  }

  function RenderedAll(rd: Reading, shown: seq<HttpLog>, es: seq<Entry>): (s: seq<Value>)
    ensures |s| == |es|
  {
    seq(|es|, i requires 0 <= i < |es| => Rendered(rd, shown, es[i]))
  }

  function IndexValue(i: Option<nat>): Value {
    match i case None => Nil case Some(n) => Number(n)
  }

  /** A traffic entry with its places in the timeline. */
  function TrafficEntry(rd: Reading, l: HttpLog, i: nat, timeline: seq<Entry>): Value {
    var t := Annotated(Traffic(l, None, None), i, timeline);
    Object(rd.fields(l)[REQUEST_INDEX := IndexValue(t.requestIndex)][RESPONSE_INDEX := IndexValue(t.responseIndex)])
  }

  function TrafficList(rd: Reading, shown: seq<HttpLog>, timeline: seq<Entry>): (s: seq<Value>)
    ensures |s| == |shown|
  {
    seq(|shown|, i requires 0 <= i < |shown| => TrafficEntry(rd, shown[i], i, timeline))
  }

  datatype LogList = TrafficLogs | ConsoleLogs | DbLogs | MessageLogs | MergedTimeline

  function KeyOf(k: LogList): string {
    match k
    case TrafficLogs => "traffic"
    case ConsoleLogs => "consoleLogs"
    case DbLogs => "dbLogs"
    case MessageLogs => "messageLogs"
    case MergedTimeline => "timeline"
  }

  function ListIn(rd: Reading, b: L.Buffers, k: LogList): seq<Value> {
    match k
    case TrafficLogs => TrafficList(rd, Shown(rd, b), TimelineEntries(rd, b))
    case ConsoleLogs => Listed(rd, L.Console, Within(rd, L.Console, b.console))
    case DbLogs => Listed(rd, L.Db, Within(rd, L.Db, b.db))
    case MessageLogs => Listed(rd, L.Message, Within(rd, L.Message, b.message))
    case MergedTimeline => RenderedAll(rd, Shown(rd, b), TimelineEntries(rd, b))
  }

  /** The assembled document, without the variables. */
  function Document(rd: Reading, b: L.Buffers, vars: map<string, Value>): Option<Root> {
    match rd.action(b, vars)
    case None => None
    case Some(keys) =>
      Some(keys + map["traffic" := List(ListIn(rd, b, TrafficLogs)), "consoleLogs" := List(ListIn(rd, b, ConsoleLogs)),
                      "dbLogs" := List(ListIn(rd, b, DbLogs)), "messageLogs" := List(ListIn(rd, b, MessageLogs)),
                      "timeline" := List(ListIn(rd, b, MergedTimeline))])
  }

  /** The logs listed are those of the window, both its ends included. */
  lemma {:induction false} WithinIs(rd: Reading, k: L.Kind, logs: seq<L.Log>, l: L.Log)
    ensures l in Within(rd, k, logs) <==> l in logs && rd.start <= rd.time(k, l) <= rd.end
  {
    if logs != [] {
      WithinIs(rd, k, logs[..|logs| - 1], l);
    }
  }

  // ---------- more logs ----------

  /** `later` holds the logs of `now`, kind by kind, and then more. */
  predicate Extends(now: L.Buffers, later: L.Buffers) {
    now.http <= later.http && now.db <= later.db && now.message <= later.message && now.console <= later.console
  }

  /** Between two attempts the buffer only takes deliveries, and so only grows. */
  lemma {:induction false} DeliveriesExtend(st: L.State, events: seq<L.Event>)
    requires forall i :: 0 <= i < |events| ==> events[i].Delivery?
    ensures Extends(st.buffers, L.Run(st, events).buffers)
    decreases |events|
  {
    if events != [] {
      DeliveriesExtend(L.Step(st, events[0]), events[1..]);
    }
  }

  lemma {:induction false} WithinConcat(rd: Reading, k: L.Kind, a: seq<L.Log>, b: seq<L.Log>)
    ensures Within(rd, k, a + b) == Within(rd, k, a) + Within(rd, k, b)
  {
    if b == [] {
      assert a + b == a;
    } else {
      WithinConcat(rd, k, a, b[..|b| - 1]);
      assert (a + b)[..|a + b| - 1] == a + b[..|b| - 1];
    }
  }

  lemma WithinGrows(rd: Reading, k: L.Kind, a: seq<L.Log>, b: seq<L.Log>)
    requires a <= b
    ensures Within(rd, k, a) <= Within(rd, k, b)
  {
    assert b == a + b[|a|..];
    WithinConcat(rd, k, a, b[|a|..]);
  }

  lemma {:induction false} InWindowConcat(a: seq<HttpLog>, b: seq<HttpLog>, start: int, end: int)
    ensures InWindow(a + b, start, end) == InWindow(a, start, end) + InWindow(b, start, end)
  {
    if b == [] {
      assert a + b == a;
    } else {
      InWindowConcat(a, b[..|b| - 1], start, end);
      assert (a + b)[..|a + b| - 1] == a + b[..|b| - 1];
    }
  }

  lemma ShownGrows(rd: Reading, now: L.Buffers, later: L.Buffers)
    requires Extends(now, later)
    ensures Shown(rd, now) <= Shown(rd, later)
  {
    var a, b := HttpLogs(rd, now.http), HttpLogs(rd, later.http);
    assert b == a + b[|a|..];
    InWindowConcat(a, b[|a|..], rd.start, rd.end);
  }

  // ---------- the merged timeline keeps the old entries in order ----------

  predicate Sub(a: seq<Entry>, b: seq<Entry>)
    decreases |b|
  {
    a == [] ||
    (b != [] && ((a[|a| - 1] == b[|b| - 1] && Sub(a[..|a| - 1], b[..|b| - 1])) || Sub(a, b[..|b| - 1])))
  }

  lemma {:induction false} SubOfConcat(a: seq<Entry>, b: seq<Entry>, c: seq<Entry>, d: seq<Entry>)
    requires Sub(a, b) && Sub(c, d)
    ensures Sub(a + c, b + d)
    decreases |d|
  {
    if d == [] {
      assert a + c == a && b + d == b;
    } else {
      var n := |d| - 1;
      assert (b + d)[..|b + d| - 1] == b + d[..n];
      if c != [] && c[|c| - 1] == d[n] && Sub(c[..|c| - 1], d[..n]) {
        SubOfConcat(a, b, c[..|c| - 1], d[..n]);
        assert (a + c)[..|a + c| - 1] == a + c[..|c| - 1];
      } else {
        EmptyIsSub(d[..n]);
        SubOfConcat(a, b, c, d[..n]);
      }
    }
  }

  lemma EmptyIsSub(b: seq<Entry>)
    ensures Sub([], b)
  {
  }

  lemma {:induction false} PrefixIsSub(a: seq<Entry>, b: seq<Entry>)
    requires a <= b
    ensures Sub(a, b)
    decreases |b|
  {
    if a != [] {
      var m, n := |a| - 1, |b| - 1;
      if m == n {
        PrefixIsSub(a[..m], b[..n]);
      } else {
        PrefixIsSub(a, b[..n]);
      }
    }
  }

  lemma {:induction false} SubMember(a: seq<Entry>, b: seq<Entry>, i: nat) returns (j: nat)
    requires Sub(a, b) && i < |a|
    ensures j < |b| && b[j] == a[i]
    decreases |b|
  {
    var m, n := |a| - 1, |b| - 1;
    if a[m] == b[n] && Sub(a[..m], b[..n]) {
      if i == m {
        j := n;
      } else {
        j := SubMember(a[..m], b[..n], i);
      }
    } else {
      j := SubMember(a, b[..n], i);
    }
  }

  lemma SubAppend(a: seq<Entry>, b: seq<Entry>, e: Entry)
    requires Sub(a, b)
    ensures Sub(a + [e], b + [e]) && Sub(a, b + [e])
  {
    assert (a + [e])[..|a|] == a && (b + [e])[..|b|] == b;
  }

  lemma InsertLast(a: seq<Entry>, b: seq<Entry>, e: Entry)
    requires Sub(a, b) && Sorted(b) && (b == [] || b[|b| - 1].time <= e.time)
    ensures Insert(a, e) == a + [e] && Insert(b, e) == b + [e]
  {
    hide Sub;
    if a != [] {
      var j := SubMember(a, b, |a| - 1);
    }
  }

  lemma InsertBelow(s: seq<Entry>, e: Entry)
    requires s != [] && Sorted(s) && e.time < s[|s| - 1].time
    ensures Insert(s, e) == Insert(s[..|s| - 1], e) + [s[|s| - 1]] && Sorted(s[..|s| - 1])
  {
  }

  lemma {:induction false} InsertKeepsSub(a: seq<Entry>, b: seq<Entry>, e: Entry)
    requires Sub(a, b) && Sorted(a) && Sorted(b)
    ensures Sub(Insert(a, e), Insert(b, e)) && Sub(a, Insert(b, e))
    decreases |b|
  {
    hide Insert, Sorted;
    if b == [] || b[|b| - 1].time <= e.time {
      SubAppend(a, b, e);
      InsertLast(a, b, e);
    } else if a == [] {
      EmptyIsSub(Insert(b, e));
      SingleIsSub(b, e);
      InsertIntoNothing(e);
    } else {
      var m, n := |a| - 1, |b| - 1;
      InsertBelow(b, e);
      assert (a[m] == b[n] && Sub(a[..m], b[..n])) || Sub(a, b[..n]);
      hide Sub;
      if a[m] == b[n] && Sub(a[..m], b[..n]) {
        InsertBelow(a, e);
        InsertKeepsSub(a[..m], b[..n], e);
        SubAppend(Insert(a[..m], e), Insert(b[..n], e), b[n]);
        SubAppend(a[..m], Insert(b[..n], e), b[n]);
        assert a == a[..m] + [b[n]];
      } else {
        InsertKeepsSub(a, b[..n], e);
        SubAppend(Insert(a, e), Insert(b[..n], e), b[n]);
        SubAppend(a, Insert(b[..n], e), b[n]);
      }
    }
  }

  lemma InsertIntoNothing(e: Entry)
    ensures Insert([], e) == [e]
  {
  }

  lemma {:induction false} SingleIsSub(b: seq<Entry>, e: Entry)
    ensures Sub([e], Insert(b, e))
    decreases |b|
  {
    EmptyIsSub(b);
    if b == [] || b[|b| - 1].time <= e.time {
      SubAppend([], b, e);
      assert [] + [e] == [e];
    } else {
      SingleIsSub(b[..|b| - 1], e);
      SubAppend([e], Insert(b[..|b| - 1], e), b[|b| - 1]);
    }
  }

  /** Sorting keeps a subsequence a subsequence: new events land among the old ones and never reorder them. */
  lemma {:induction false} SortKeepsSub(a: seq<Entry>, b: seq<Entry>)
    requires Sub(a, b)
    ensures Sub(StableSort(a), StableSort(b))
    decreases |b|
  {
    hide Insert, Sorted;
    if a == [] {
      EmptyIsSub(StableSort(b));
    } else {
      var m, n := |a| - 1, |b| - 1;
      SortSorts(b[..n]);
      SortSorts(a);
      SortSorts(a[..m]);
      if a[m] == b[n] && Sub(a[..m], b[..n]) {
        SortKeepsSub(a[..m], b[..n]);
        InsertKeepsSub(StableSort(a[..m]), StableSort(b[..n]), b[n]);
      } else {
        SortKeepsSub(a, b[..n]);
        InsertKeepsSub(StableSort(a), StableSort(b[..n]), b[n]);
      }
    }
  }

  lemma EntriesExtend(rd: Reading, k: L.Kind, a: seq<L.Log>, b: seq<L.Log>)
    requires a <= b
    ensures Sub(EntriesFor(rd, k, Within(rd, k, a)), EntriesFor(rd, k, Within(rd, k, b)))
  {
    hide Sub;
    WithinGrows(rd, k, a, b);
    PrefixIsSub(EntriesFor(rd, k, Within(rd, k, a)), EntriesFor(rd, k, Within(rd, k, b)));
  }

  lemma {:induction false} TimelineOfGrows(a: seq<HttpLog>, b: seq<HttpLog>, n: nat)
    requires a <= b && |a| <= n <= |b|
    ensures TimelineOf(a, |a|) <= TimelineOf(b, n)
  {
    if n == |a| {
      assert b == a + b[|a|..];
      TimelineOfPrefix(a, b[|a|..], |a|);
    } else {
      TimelineOfGrows(a, b, n - 1);
    }
  }

  /** The timeline of the earlier attempt is a subsequence of the later one's. */
  lemma TimelineGrows(rd: Reading, now: L.Buffers, later: L.Buffers)
    requires Extends(now, later)
    ensures Sub(TimelineEntries(rd, now), TimelineEntries(rd, later))
  {
    hide Sub, StableSort, Within, EntriesFor, TimelineOf;
    ShownGrows(rd, now, later);
    TimelineOfGrows(Shown(rd, now), Shown(rd, later), |Shown(rd, later)|);
    PrefixIsSub(TimelineOf(Shown(rd, now), |Shown(rd, now)|), TimelineOf(Shown(rd, later), |Shown(rd, later)|));
    EntriesExtend(rd, L.Console, now.console, later.console);
    EntriesExtend(rd, L.Db, now.db, later.db);
    EntriesExtend(rd, L.Message, now.message, later.message);
    var d1, m1 := EntriesFor(rd, L.Db, Within(rd, L.Db, now.db)), EntriesFor(rd, L.Message, Within(rd, L.Message, now.message));
    var d2, m2 :=
      EntriesFor(rd, L.Db, Within(rd, L.Db, later.db)), EntriesFor(rd, L.Message, Within(rd, L.Message, later.message));
    var c1 := EntriesFor(rd, L.Console, Within(rd, L.Console, now.console));
    var c2 := EntriesFor(rd, L.Console, Within(rd, L.Console, later.console));
    SubOfConcat(d1, d2, m1, m2);
    SubOfConcat(c1, c2, d1 + m1, d2 + m2);
    SubOfConcat(TimelineOf(Shown(rd, now), |Shown(rd, now)|), TimelineOf(Shown(rd, later), |Shown(rd, later)|),
                c1 + (d1 + m1), c2 + (d2 + m2));
    SortKeepsSub(AllEntries(rd, now), AllEntries(rd, later));
  }

  // ---------- the lists of a later document hold those of an earlier one ----------

  /** An entry of HTTP log `i` names a shown log. */
  predicate Grounded(e: Entry, n: nat) {
    match e.origin
    case RequestOf(i) => 0 <= i < n
    case ResponseOf(i) => 0 <= i < n
    case Other(_) => true
  }

  lemma {:induction false} RenderedEmbeds(rd: Reading, s1: seq<HttpLog>, s2: seq<HttpLog>, a: seq<Entry>, b: seq<Entry>)
    requires s1 <= s2 && Sub(a, b) && forall i :: 0 <= i < |a| ==> Grounded(a[i], |s1|)
    ensures Embeds(RenderedAll(rd, s1, a), RenderedAll(rd, s2, b))
    decreases |b|
  {
    hide Grounded, Rendered;
    if a != [] {
      var m, n := |a| - 1, |b| - 1;
      assert RenderedAll(rd, s1, a)[..m] == RenderedAll(rd, s1, a[..m]);
      assert RenderedAll(rd, s2, b)[..n] == RenderedAll(rd, s2, b[..n]);
      if a[m] == b[n] && Sub(a[..m], b[..n]) {
        RenderedEmbeds(rd, s1, s2, a[..m], b[..n]);
        SameRendering(rd, s1, s2, a[m]);
      } else {
        RenderedEmbeds(rd, s1, s2, a, b[..n]);
      }
    }
  }

  lemma SameRendering(rd: Reading, s1: seq<HttpLog>, s2: seq<HttpLog>, e: Entry)
    requires s1 <= s2 && Grounded(e, |s1|)
    ensures Rendered(rd, s1, e) == Rendered(rd, s2, e)
  {
  }

  lemma {:induction false} OwnAreGrounded(shown: seq<HttpLog>, n: nat)
    requires n <= |shown|
    ensures forall i :: 0 <= i < |TimelineOf(shown, n)| ==> Grounded(TimelineOf(shown, n)[i], |shown|)
  {
    if n > 0 {
      OwnAreGrounded(shown, n - 1);
    }
  }

  lemma AllAreGrounded(rd: Reading, b: L.Buffers)
    ensures forall i :: 0 <= i < |TimelineEntries(rd, b)| ==> Grounded(TimelineEntries(rd, b)[i], |Shown(rd, b)|)
  {
    hide Within, StableSort, TimelineOf;
    OwnAreGrounded(Shown(rd, b), |Shown(rd, b)|);
    var all, sorted := AllEntries(rd, b), TimelineEntries(rd, b);
    assert forall i :: 0 <= i < |all| ==> Grounded(all[i], |Shown(rd, b)|);
    forall i | 0 <= i < |sorted| ensures Grounded(sorted[i], |Shown(rd, b)|) {
      SortMembers(all, sorted[i]);
      assert sorted[i] in all;
    }
  }

  /** Every log list of the document holds the earlier one's entries in order when logs have arrived:
      the traffic entries up to their places in the timeline, all others unchanged. */
  lemma ListsGrow(rd: Reading, now: L.Buffers, later: L.Buffers, k: LogList)
    requires Extends(now, later)
    ensures Embeds(ListIn(rd, now, k), ListIn(rd, later, k))
  {
    hide Embeds, SameEntry, Within, StableSort, AllEntries, InWindow;
    ShownGrows(rd, now, later);
    match k
    case TrafficLogs => TrafficGrows(rd, Shown(rd, now), Shown(rd, later), TimelineEntries(rd, now), TimelineEntries(rd, later));
    case ConsoleLogs => ListedGrows(rd, L.Console, now.console, later.console);
    case DbLogs => ListedGrows(rd, L.Db, now.db, later.db);
    case MessageLogs => ListedGrows(rd, L.Message, now.message, later.message);
    case MergedTimeline =>
      TimelineGrows(rd, now, later);
      AllAreGrounded(rd, now);
      RenderedEmbeds(rd, Shown(rd, now), Shown(rd, later), TimelineEntries(rd, now), TimelineEntries(rd, later));
  }

  lemma ListedGrows(rd: Reading, k: L.Kind, a: seq<L.Log>, b: seq<L.Log>)
    requires a <= b
    ensures Embeds(Listed(rd, k, Within(rd, k, a)), Listed(rd, k, Within(rd, k, b)))
  {
    hide Embeds;
    WithinGrows(rd, k, a, b);
    PointwiseEmbeds(Listed(rd, k, Within(rd, k, a)), Listed(rd, k, Within(rd, k, b)));
  }

  lemma TrafficGrows(rd: Reading, s1: seq<HttpLog>, s2: seq<HttpLog>, t1: seq<Entry>, t2: seq<Entry>)
    requires s1 <= s2
    ensures Embeds(TrafficList(rd, s1, t1), TrafficList(rd, s2, t2))
  {
    hide Embeds, SameEntry, TrafficEntry;
    forall i | 0 <= i < |s1| ensures SameEntry(TrafficList(rd, s1, t1)[i], TrafficList(rd, s2, t2)[i]) {
      OnlyPlacesDiffer(rd, s1[i], i, t1, t2);
    }
    PointwiseEmbeds(TrafficList(rd, s1, t1), TrafficList(rd, s2, t2));
  }

  lemma OnlyPlacesDiffer(rd: Reading, l: HttpLog, i: nat, t1: seq<Entry>, t2: seq<Entry>)
    ensures SameEntry(TrafficEntry(rd, l, i, t1), TrafficEntry(rd, l, i, t2))
  {
    hide Annotated;
    var a, b := TrafficEntry(rd, l, i, t1), TrafficEntry(rd, l, i, t2);
    assert a.fields - {REQUEST_INDEX, RESPONSE_INDEX} == rd.fields(l) - {REQUEST_INDEX, RESPONSE_INDEX};
    assert b.fields - {REQUEST_INDEX, RESPONSE_INDEX} == rd.fields(l) - {REQUEST_INDEX, RESPONSE_INDEX};
  }

  // ---------- where a match finds them ----------

  function PathOf(k: LogList): string { "$." + KeyOf(k) }

  /** The path of a log list leads to the list. */
  lemma ListIsFound(fold: DocPath.KeyFolding, root: Root, k: LogList)
    requires KeyOf(k) in root
    ensures DocPath.Evaluate(fold, Object(root), PathOf(k), None) == Some(root[KeyOf(k)])
  {
    hide DocPath.Segments, DocPath.IndexOf, DocPath.Origin, KeyOf;
    var name := KeyOf(k);
    NotAnIndex(k);
    ListOrigin(root, k);
    assert name + "" == name && "" + name == name;
    DocPath.NameIsGathered(name, "", "");
    NameEnds(name);
    assert [name][1..] == [];
    assert DocPath.Step(fold, Object(root), name) == Some(root[name]);
    assert DocPath.Walk(fold, root[name], []) == Some(root[name]);
  }

  function ListedWithin(rd: Reading, k: L.Kind, logs: seq<L.Log>): Value {
    List(Listed(rd, k, Within(rd, k, logs)))
  }

  /** Where an assertion finds the logs: each list of the document under the path of its kind, the traffic
      with the fields of its logs, all others as they are rendered. */
  lemma ListsByPath(fold: DocPath.KeyFolding, rd: Reading, b: L.Buffers, vars: map<string, Value>)
    requires Document(rd, b, vars).Some?
    ensures var doc := Object(Document(rd, b, vars).value);
            && (forall i :: 0 <= i < |ListIn(rd, b, TrafficLogs)| ==>
                  && i < |Shown(rd, b)| && ListIn(rd, b, TrafficLogs)[i].Object?
                  && SameEntry(ListIn(rd, b, TrafficLogs)[i], Object(rd.fields(Shown(rd, b)[i]))))
            && DocPath.Evaluate(fold, doc, "$.traffic", None) == Some(List(ListIn(rd, b, TrafficLogs)))
            && DocPath.Evaluate(fold, doc, "$.timeline", None) == Some(List(ListIn(rd, b, MergedTimeline)))
            && DocPath.Evaluate(fold, doc, "$.consoleLogs", None) == Some(ListedWithin(rd, L.Console, b.console))
            && DocPath.Evaluate(fold, doc, "$.dbLogs", None) == Some(ListedWithin(rd, L.Db, b.db))
            && DocPath.Evaluate(fold, doc, "$.messageLogs", None) == Some(ListedWithin(rd, L.Message, b.message))
  {
    hide DocPath.Evaluate, TrafficList, TimelineEntries, Shown, Within, RenderedAll;
    var root := Document(rd, b, vars).value;
    forall k: LogList ensures DocPath.Evaluate(fold, Object(root), PathOf(k), None) == Some(root[KeyOf(k)]) && KeyOf(k) in root {
      ListIsFound(fold, root, k);
    }
    assert PathOf(TrafficLogs) == "$.traffic" && PathOf(MergedTimeline) == "$.timeline";
    assert PathOf(ConsoleLogs) == "$.consoleLogs" && PathOf(DbLogs) == "$.dbLogs" && PathOf(MessageLogs) == "$.messageLogs";
    TrafficHoldsFields(rd, Shown(rd, b), TimelineEntries(rd, b));
  }

  lemma TrafficHoldsFields(rd: Reading, shown: seq<HttpLog>, timeline: seq<Entry>)
    ensures forall i :: 0 <= i < |shown| ==>
      && TrafficList(rd, shown, timeline)[i].Object?
      && SameEntry(TrafficList(rd, shown, timeline)[i], Object(rd.fields(shown[i])))
  {
    hide Annotated;
  }

  lemma ListOrigin(root: Root, k: LogList)
    ensures DocPath.Origin(Object(root), PathOf(k), None) == Some((Object(root), KeyOf(k)))
  {
    hide KeyOf;
    var path := "$." + KeyOf(k);
    assert path[2..] == KeyOf(k) && path[..2] == "$.";
    assert path[1] == '.';
    assert path != "$$";
  }

  lemma NameEnds(name: string)
    requires name != ""
    ensures DocPath.Segments("", name) == Some([name])
  {
  }

  lemma NotAnIndex(k: LogList)
    ensures DocPath.IndexOf(KeyOf(k)) == None && KeyOf(k) != "" && '.' !in KeyOf(k) && '[' !in KeyOf(k)
  {
  }

  /** An event of traffic is rendered from its own log, with its number and its direction. */
  lemma EventsAreRendered(rd: Reading, shown: seq<HttpLog>, e: Entry)
    requires e in TimelineOf(shown, |shown|)
    ensures e.mark.Some? && 0 <= e.mark.value.0 < |shown|
    ensures var (i, direction) := e.mark.value; Rendered(rd, shown, e) == rd.event(shown[i], i, direction)
  {
    hide TimelineOf;
    EventsAreOfTheLogs(shown, |shown|, e);
  }

  // ---------- conditions on places in the timeline ----------

  lemma OneShown(rd: Reading, l: L.Log, h: HttpLog)
    requires rd.http(l) == h && rd.start <= h.sent <= rd.end && !h.hasStatus
    ensures InWindow(HttpLogs(rd, [l]), rd.start, rd.end) == [h]
    ensures TimelineOf([h], 1) == [RequestEntry(h, 0)]
  {
    var logs := HttpLogs(rd, [l]);
    assert logs[..|logs| - 1] == [];
    assert InWindow(logs[..|logs| - 1], rd.start, rd.end) == [];
    assert TimelineOf([h], 1) == TimelineOf([h], 0) + EntriesOf(h, 0);
  }

  lemma OneWithin(rd: Reading, k: L.Kind, l: L.Log)
    requires rd.start <= rd.time(k, l) <= rd.end
    ensures Within(rd, k, [l]) == [l]
  {
    assert [l][..0] == [];
    assert Within(rd, k, [l]) == Within(rd, k, []) + [l];
  }

  lemma SortOne(e: Entry)
    ensures StableSort([e]) == [e]
  {
    assert [e][..0] == [];
    assert StableSort([e]) == Insert(StableSort([]), e);
  }

  lemma SortTwo(late: Entry, early: Entry)
    requires early.time < late.time
    ensures StableSort([late, early]) == [early, late]
  {
    SortOne(late);
    assert [late, early][..1] == [late];
    assert Insert([late], early) == Insert([late][..0], early) + [late];
  }

  /** A request sent at time 5 stands first in the timeline until a console log of time 1 arrives. A count of
      at most 0 entries that stand first fails now, is not retried, and passes later. */
  lemma PlaceConditionsRecover(rd: Reading, ev: Evaluator, a: Assertion, l: L.Log, c: L.Log)
    requires rd.start <= 1 && 5 <= rd.end && rd.http(l) == HttpLog(5, None, false, "") && rd.time(L.Console, c) == 1
    requires rd.mark(L.Console, c) == None
    requires forall root, e: Value ::
      ev.holds(a, root, e) <==> e.Object? && REQUEST_INDEX in e.fields && e.fields[REQUEST_INDEX] == Number(0)
    ensures var ws, count := [Where(a, [], [], None)], Count("lte", 0);
            var now, later := L.Buffers([l], [], [], []), L.Buffers([l], [], [], [c]);
            var before := |Kept(ev, ws, map[], ListIn(rd, now, TrafficLogs))|;
            && Extends(now, later)
            && !CountPasses(before, count) && !IsCountRetryable(before, count)
            && CountPasses(|Kept(ev, ws, map[], ListIn(rd, later, TrafficLogs))|, count)
  {
    var h := HttpLog(5, None, false, "");
    var now, later := L.Buffers([l], [], [], []), L.Buffers([l], [], [], [c]);
    var request, console := RequestEntry(h, 0), EntryOf(rd, L.Console, c);
    PlacesOfExample(rd, l, c, h);
    var t1, t2 := TimelineEntries(rd, now), TimelineEntries(rd, later);
    assert LastIndex(t1, (0, REQUEST), 1) == Some(0);
    assert LastIndex(t2, (0, REQUEST), 2) == Some(1);
    hide TimelineEntries, Shown;
    var ws := [Where(a, [], [], None)];
    var e1, e2 := TrafficEntry(rd, h, 0, t1), TrafficEntry(rd, h, 0, t2);
    assert ListIn(rd, now, TrafficLogs) == [e1] && ListIn(rd, later, TrafficLogs) == [e2];
    assert Keeps(ev, ws, map[], e1) && !Keeps(ev, ws, map[], e2) by {
      assert WhereHolds(ev, ws[0], map[], e1) && !WhereHolds(ev, ws[0], map[], e2);
    }
    assert [e1][1..] == [] && [e2][1..] == [];
  }

  lemma PlacesOfExample(rd: Reading, l: L.Log, c: L.Log, h: HttpLog)
    requires rd.start <= 1 && 5 <= rd.end && rd.http(l) == h && h.sent == 5 && !h.hasStatus && rd.time(L.Console, c) == 1
    ensures var now, later := L.Buffers([l], [], [], []), L.Buffers([l], [], [], [c]);
            && Shown(rd, now) == Shown(rd, later) == [h]
            && TimelineEntries(rd, now) == [RequestEntry(h, 0)]
            && TimelineEntries(rd, later) == [EntryOf(rd, L.Console, c), RequestEntry(h, 0)]
  {
    var now, later := L.Buffers([l], [], [], []), L.Buffers([l], [], [], [c]);
    OneShown(rd, l, h);
    OneWithin(rd, L.Console, c);
    SortOne(RequestEntry(h, 0));
    SortTwo(RequestEntry(h, 0), EntryOf(rd, L.Console, c));
    hide StableSort, TimelineOf, InWindow;
    assert AllEntries(rd, now) == [RequestEntry(h, 0)];
    assert AllEntries(rd, later) == [RequestEntry(h, 0), EntryOf(rd, L.Console, c)];
  }
}
