/** The traffic list, the merged timeline and the indices between them
    (services/test-agent/document_assembler_lists.go, lines 25 to 111 and 240 to 300). */
module Timeline {
  import opened Options

  const REQUEST := "request"
  const RESPONSE := "response"

  /** Which log an entry comes from: HTTP log `i` of the traffic list, or any other log. */
  datatype Origin = RequestOf(i: nat) | ResponseOf(i: nat) | Other(content: string)

  /** A timeline entry. `mark` is its trafficIndex and direction, when it has both. */
  datatype Entry = Entry(time: int, mark: Option<(int, string)>, origin: Origin)

  /** An HTTP log: when it was sent, when answered if a time is known, whether it has a status. */
  datatype HttpLog = HttpLog(sent: int, received: Option<int>, hasStatus: bool, content: string)

  /** A traffic entry and the indices annotated on it. */
  datatype Traffic = Traffic(log: HttpLog, requestIndex: Option<nat>, responseIndex: Option<nat>)

  // ---------- assembling ----------

  function InWindow(logs: seq<HttpLog>, start: int, end: int): seq<HttpLog> {
    if logs == [] then []
    else
      var l := logs[|logs| - 1];
      var before := InWindow(logs[..|logs| - 1], start, end);
      if start <= l.sent <= end then before + [l] else before
  }

  function RequestEntry(l: HttpLog, i: nat): Entry { Entry(l.sent, Some((i, REQUEST)), RequestOf(i)) }

  function ResponseEntry(l: HttpLog, i: nat): Entry {
    Entry(l.received.GetOr(l.sent), Some((i, RESPONSE)), ResponseOf(i))
  }

  function EntriesOf(l: HttpLog, i: nat): seq<Entry> {
    if l.hasStatus then [RequestEntry(l, i), ResponseEntry(l, i)] else [RequestEntry(l, i)]
  }

  /** The timeline of the first `n` traffic entries. */
  function TimelineOf(shown: seq<HttpLog>, n: nat): seq<Entry>
    requires n <= |shown|
  {
    if n == 0 then [] else TimelineOf(shown, n - 1) + EntriesOf(shown[n - 1], n - 1)
  }

  method AssembleTrafficList(logs: seq<HttpLog>, start: int, end: int)
    returns (traffic: seq<HttpLog>, timeline: seq<Entry>)
    ensures traffic == InWindow(logs, start, end)
    ensures timeline == TimelineOf(traffic, |traffic|)
  {
    traffic, timeline := [], [];
    for i := 0 to |logs|
      invariant traffic == InWindow(logs[..i], start, end)
      invariant timeline == TimelineOf(traffic, |traffic|)
    {
      var l := logs[i];
      assert logs[..i + 1][..i] == logs[..i];
      if l.sent < start || l.sent > end {
        continue;
      }
      var trafficIdx := |traffic|;
      TimelineOfPrefix(traffic, [l], |traffic|);
      ghost var before := timeline;
      traffic := traffic + [l];
      timeline := timeline + [RequestEntry(l, trafficIdx)];
      if l.hasStatus {
        timeline := timeline + [ResponseEntry(l, trafficIdx)];
      }
      assert timeline == before + EntriesOf(l, trafficIdx);
    }
    assert logs[..|logs|] == logs;
  }

  lemma {:induction false} TimelineOfPrefix(shown: seq<HttpLog>, more: seq<HttpLog>, n: nat)
    requires n <= |shown|
    ensures TimelineOf(shown + more, n) == TimelineOf(shown, n)
  {
    if n > 0 {
      TimelineOfPrefix(shown, more, n - 1);
    }
  }

  /** The logs shown are those sent in the window, both its ends included. */
  lemma {:induction false} WindowIs(logs: seq<HttpLog>, start: int, end: int, l: HttpLog)
    ensures l in InWindow(logs, start, end) <==> l in logs && start <= l.sent <= end
  {
    if logs != [] {
      WindowIs(logs[..|logs| - 1], start, end, l);
    }
  }

  /** An event of the i-th log: its request when it was sent, and, when it has a status, its response when
      it was received, or when it was sent if no time is known. */
  predicate IsEventOf(l: HttpLog, i: nat, e: Entry) {
    || e == Entry(l.sent, Some((i, "request")), RequestOf(i))
    || (l.hasStatus &&
        e == Entry(if l.received.Some? then l.received.value else l.sent, Some((i, "response")), ResponseOf(i)))
  }

  /** The events of traffic are exactly those of its logs. */
  lemma {:induction false} EventsAreOfTheLogs(shown: seq<HttpLog>, n: nat, e: Entry)
    requires n <= |shown|
    ensures e in TimelineOf(shown, n) <==> exists i: nat :: i < n && IsEventOf(shown[i], i, e)
  {
    hide IsEventOf;
    if n > 0 {
      EventsAreOfTheLogs(shown, n - 1, e);
      EventsOfOne(shown[n - 1], n - 1, e);
    }
  }

  lemma EventsOfOne(l: HttpLog, i: nat, e: Entry)
    ensures e in EntriesOf(l, i) <==> IsEventOf(l, i, e)
  {
  }

  // ---------- merging ----------

  predicate Sorted(s: seq<Entry>) {
    forall i, j :: 0 <= i < j < |s| ==> s[i].time <= s[j].time
  }

  function AtTime(s: seq<Entry>, t: int): seq<Entry> {
    if s == [] then []
    else
      var e, before := s[|s| - 1], AtTime(s[..|s| - 1], t);
      if e.time == t then before + [e] else before
  }

  /** sort.SliceStable's contract: sorted by time, and entries of equal time keep their order; since
      that fixes the entries of every time, it is also a permutation. */
  ghost predicate IsStableSort(in_: seq<Entry>, out: seq<Entry>) {
    Sorted(out) && forall t :: AtTime(out, t) == AtTime(in_, t)
  }

  /** Insert after every entry that is not later. */
  function Insert(s: seq<Entry>, e: Entry): seq<Entry> {
    if s == [] || s[|s| - 1].time <= e.time then s + [e] else Insert(s[..|s| - 1], e) + [s[|s| - 1]]
  }

  function StableSort(s: seq<Entry>): seq<Entry> {
    if s == [] then [] else Insert(StableSort(s[..|s| - 1]), s[|s| - 1])
  }

  lemma {:induction false} InsertForm(s: seq<Entry>, e: Entry) returns (k: nat)
    requires Sorted(s)
    ensures k <= |s| && Insert(s, e) == s[..k] + [e] + s[k..]
    ensures (forall i :: 0 <= i < k ==> s[i].time <= e.time) && (forall i :: k <= i < |s| ==> e.time < s[i].time)
  {
    if s == [] || s[|s| - 1].time <= e.time {
      k := |s|;
      assert s[..k] + [e] + s[k..] == s + [e];
    } else {
      var n := |s| - 1;
      k := InsertForm(s[..n], e);
      assert s[..n][..k] == s[..k] && s[..n][k..] + [s[n]] == s[k..];
      assert s[..n][..k] + [e] + s[..n][k..] + [s[n]] == s[..k] + [e] + s[k..];
      assert forall i :: k <= i < n ==> s[i] == s[..n][i];
    }
  }

  lemma InsertSorts(s: seq<Entry>, e: Entry)
    requires Sorted(s)
    ensures Sorted(Insert(s, e)) && |Insert(s, e)| == |s| + 1
  {
    var k := InsertForm(s, e);
  }

  lemma {:induction false} SortSorts(s: seq<Entry>)
    ensures Sorted(StableSort(s)) && |StableSort(s)| == |s|
  {
    hide Insert, Sorted;
    if s == [] {
      NothingIsSorted();
    } else {
      SortSorts(s[..|s| - 1]);
      InsertSorts(StableSort(s[..|s| - 1]), s[|s| - 1]);
    }
  }

  lemma NothingIsSorted()
    ensures Sorted([])
  {
  }

  lemma {:induction false} InsertAtTime(s: seq<Entry>, e: Entry, t: int)
    requires Sorted(s)
    ensures AtTime(Insert(s, e), t) == AtTime(s + [e], t)
  {
    assert (s + [e])[..|s|] == s;
    if s != [] && e.time < s[|s| - 1].time {
      var n := |s| - 1;
      var front := Insert(s[..n], e);
      InsertAtTime(s[..n], e, t);
      assert (front + [s[n]])[..|front|] == front;
      assert (s[..n] + [e])[..n] == s[..n];
    }
  }

  lemma {:induction false} SortKeepsTimes(s: seq<Entry>, t: int)
    ensures AtTime(StableSort(s), t) == AtTime(s, t)
  {
    hide Insert;
    if s != [] {
      var n := |s| - 1;
      SortKeepsTimes(s[..n], t);
      SortSorts(s[..n]);
      InsertAtTime(StableSort(s[..n]), s[n], t);
      var sorted := StableSort(s[..n]);
      assert (sorted + [s[n]])[..|sorted|] == sorted;
    }
  }

  /** The model's sort meets the contract, and is the only sequence that does. */
  lemma {:induction false} StableSortIsTheSort(s: seq<Entry>, out: seq<Entry>)
    ensures IsStableSort(s, out) <==> out == StableSort(s)
  {
    SortSorts(s);
    forall t ensures AtTime(StableSort(s), t) == AtTime(s, t) {
      SortKeepsTimes(s, t);
    }
    if IsStableSort(s, out) {
      SameTimesSameSequence(out, StableSort(s));
    }
  }

  /** The merged timeline is a permutation of its inputs. */
  lemma StableSortIsAPermutation(s: seq<Entry>, out: seq<Entry>)
    requires IsStableSort(s, out)
    ensures multiset(out) == multiset(s)
  {
    StableSortIsTheSort(s, out);
    SortKeepsElements(s);
  }

  lemma {:induction false} SortKeepsElements(s: seq<Entry>)
    ensures multiset(StableSort(s)) == multiset(s)
  {
    hide Insert, Sorted;
    if s != [] {
      var n := |s| - 1;
      var sorted := StableSort(s[..n]);
      SortKeepsElements(s[..n]);
      SortSorts(s[..n]);
      var k := InsertForm(sorted, s[n]);
      assert sorted == sorted[..k] + sorted[k..];
      assert s == s[..n] + [s[n]];
    }
  }

  lemma {:induction false} AtTimeMembers(s: seq<Entry>, t: int)
    ensures AtTime(s, t) != [] <==> exists i :: 0 <= i < |s| && s[i].time == t
    ensures AtTime(s, t) != [] ==> AtTime(s, t)[|AtTime(s, t)| - 1].time == t
  {
    if s != [] {
      var n := |s| - 1;
      AtTimeMembers(s[..n], t);
      if s[n].time == t {
        assert s[n].time == t;
      } else if AtTime(s[..n], t) != [] {
        var i :| 0 <= i < n && s[..n][i].time == t;
        assert s[i].time == t;
      }
    }
  }

  lemma {:induction false} SameTimesSameSequence(a: seq<Entry>, b: seq<Entry>)
    requires Sorted(a) && Sorted(b) && forall t :: AtTime(a, t) == AtTime(b, t)
    ensures a == b
  {
    if a != [] {
      AtTimeMembers(a, a[|a| - 1].time);
      AtTimeMembers(b, a[|a| - 1].time);
    }
    if b != [] {
      AtTimeMembers(a, b[|b| - 1].time);
      AtTimeMembers(b, b[|b| - 1].time);
    }
    if a != [] && b != [] {
      var m, n := |a| - 1, |b| - 1;
      assert a[m].time == b[n].time;
      assert AtTime(a, a[m].time) == AtTime(b, a[m].time);
      assert a[m] == b[n];
      forall t ensures AtTime(a[..m], t) == AtTime(b[..n], t) {
        assert AtTime(a, t) == AtTime(b, t);
        DropLast(a, t);
        DropLast(b, t);
      }
      SameTimesSameSequence(a[..m], b[..n]);
    }
  }

  lemma DropLast(s: seq<Entry>, t: int)
    requires s != []
    ensures AtTime(s[..|s| - 1], t) ==
            if s[|s| - 1].time == t then AtTime(s, t)[..|AtTime(s, t)| - 1] else AtTime(s, t)
  {
  }

  function Concat(slices: seq<seq<Entry>>): seq<Entry> {
    if slices == [] then [] else Concat(slices[..|slices| - 1]) + slices[|slices| - 1]
  }

  /** The merge, by sort.SliceStable's contract. */
  method MergeTimeline(slices: seq<seq<Entry>>) returns (result: seq<Entry>)
    ensures IsStableSort(Concat(slices), result)
  {
    var entries: seq<Entry> := [];
    for i := 0 to |slices|
      invariant entries == Concat(slices[..i])
    {
      assert slices[..i + 1][..i] == slices[..i];
      entries := entries + slices[i];
    }
    assert slices[..|slices|] == slices;
    StableSortIsTheSort(entries, StableSort(entries));
    result := StableSort(entries);
  }

  // ---------- annotating ----------

  type Key = (int, string)

  /** The index of the last entry with mark `k` among the first `n`. */
  function LastIndex(timeline: seq<Entry>, k: Key, n: nat): (r: Option<nat>)
    requires n <= |timeline|
    ensures r.Some? ==> r.value < n && timeline[r.value].mark == Some(k)
  {
    if n == 0 then None
    else if timeline[n - 1].mark == Some(k) then Some(n - 1)
    else LastIndex(timeline, k, n - 1)
  }

  function Annotated(t: Traffic, i: nat, timeline: seq<Entry>): Traffic {
    t.(requestIndex := LastIndex(timeline, (i, REQUEST), |timeline|),
       responseIndex := LastIndex(timeline, (i, RESPONSE), |timeline|))
  }

  method AnnotateTimelineIndices(traffic: array<Traffic>, timeline: seq<Entry>)
    modifies traffic
    ensures forall i :: 0 <= i < traffic.Length ==> traffic[i] == Annotated(old(traffic[i]), i, timeline)
  {
    var lookup: map<Key, nat> := map[];
    for i := 0 to |timeline|
      invariant forall k :: (if k in lookup then Some(lookup[k]) else None) == LastIndex(timeline, k, i)
    {
      if timeline[i].mark.Some? {
        lookup := lookup[timeline[i].mark.value := i];
      }
    }
    for i := 0 to traffic.Length
      invariant forall j :: 0 <= j < i ==> traffic[j] == Annotated(old(traffic[j]), j, timeline)
      invariant forall j :: i <= j < traffic.Length ==> traffic[j] == old(traffic[j])
    {
      var reqKey, respKey := (i, REQUEST), (i, RESPONSE);
      traffic[i] := traffic[i].(
        requestIndex := if reqKey in lookup then Some(lookup[reqKey]) else None,
        responseIndex := if respKey in lookup then Some(lookup[respKey]) else None);
    }
  }

  // ---------- whose event an index points at ----------

  /** The entry a lookup of `k` finds: the last one with that mark. */
  function LastMarked(s: seq<Entry>, k: Key): Option<Entry> {
    if s == [] then None
    else if s[|s| - 1].mark == Some(k) then Some(s[|s| - 1])
    else LastMarked(s[..|s| - 1], k)
  }

  lemma {:induction false} IndexFindsLastMarked(s: seq<Entry>, k: Key, n: nat)
    requires n <= |s|
    ensures var r := LastIndex(s, k, n);
            (if r == None then None else Some(s[r.value])) == LastMarked(s[..n], k)
  {
    if n > 0 {
      IndexFindsLastMarked(s, k, n - 1);
      assert s[..n][..n - 1] == s[..n - 1];
    }
  }

  /** Of the entries marked `k`: the latest one, and of equally late ones the last. */
  function Latest(s: seq<Entry>, k: Key): Option<Entry> {
    if s == [] then None
    else
      var e, before := s[|s| - 1], Latest(s[..|s| - 1], k);
      if e.mark == Some(k) && (before == None || before.value.time <= e.time) then Some(e) else before
  }

  lemma {:induction false} LastMarkedOfConcat(a: seq<Entry>, b: seq<Entry>, k: Key)
    ensures LastMarked(a + b, k) == if LastMarked(b, k).Some? then LastMarked(b, k) else LastMarked(a, k)
  {
    if b == [] {
      assert a + b == a;
    } else {
      LastMarkedOfConcat(a, b[..|b| - 1], k);
      assert (a + b)[..|a + b| - 1] == a + b[..|b| - 1];
    }
  }

  lemma {:induction false} LastMarkedIsMember(s: seq<Entry>, k: Key)
    ensures LastMarked(s, k).Some? ==> LastMarked(s, k).value in s && LastMarked(s, k).value.mark == Some(k)
    ensures LastMarked(s, k) == None ==> forall i :: 0 <= i < |s| ==> s[i].mark != Some(k)
  {
    if s != [] {
      LastMarkedIsMember(s[..|s| - 1], k);
      assert forall i :: 0 <= i < |s| - 1 ==> s[..|s| - 1][i] == s[i];
    }
  }

  lemma InsertLastMarked(s: seq<Entry>, e: Entry, k: Key)
    requires Sorted(s)
    ensures LastMarked(Insert(s, e), k) ==
            if e.mark == Some(k) && (LastMarked(s, k) == None || LastMarked(s, k).value.time <= e.time) then Some(e)
            else LastMarked(s, k)
  {
    var n := InsertForm(s, e);
    var low, high := s[..n], s[n..];
    hide Insert, LastMarked, Sorted;
    assert s == low + high;
    LastMarkedInParts(low, e, high, k);
    LastMarkedIsMember(low, k);
    LastMarkedIsMember(high, k);
  }

  lemma LastMarkedInParts(low: seq<Entry>, e: Entry, high: seq<Entry>, k: Key)
    ensures LastMarked(low + high, k) == if LastMarked(high, k).Some? then LastMarked(high, k) else LastMarked(low, k)
    ensures LastMarked(low + [e] + high, k) ==
            if LastMarked(high, k).Some? then LastMarked(high, k)
            else if e.mark == Some(k) then Some(e)
            else LastMarked(low, k)
  {
    hide LastMarked;
    LastMarkedOfConcat(low + [e], high, k);
    LastMarkedOfConcat(low, [e], k);
    LastMarkedOfConcat(low, high, k);
    OneMarked(e, k);
  }

  lemma OneMarked(e: Entry, k: Key)
    ensures LastMarked([e], k) == if e.mark == Some(k) then Some(e) else None
  {
    assert [e][..0] == [];
  }

  lemma {:induction false} SortFindsLatest(s: seq<Entry>, k: Key)
    ensures LastMarked(StableSort(s), k) == Latest(s, k)
  {
    hide Insert, Sorted;
    if s != [] {
      var n := |s| - 1;
      SortFindsLatest(s[..n], k);
      SortSorts(s[..n]);
      InsertLastMarked(StableSort(s[..n]), s[n], k);
    }
  }

  /** Entries that are not from HTTP logs may carry a mark only by accident of their metadata. */
  predicate Foreign(others: seq<Entry>) {
    forall i :: 0 <= i < |others| ==> others[i].origin.Other?
  }

  /** No foreign entry claims mark `k` at or after time `t`. */
  ghost predicate Unclaimed(others: seq<Entry>, k: Key, t: int) {
    forall i :: 0 <= i < |others| && others[i].mark == Some(k) ==> others[i].time < t
  }

  lemma {:induction false} LatestOfOwn(shown: seq<HttpLog>, n: nat, i: nat)
    requires n <= |shown| && i < |shown|
    ensures Latest(TimelineOf(shown, n), (i, REQUEST)) == if i < n then Some(RequestEntry(shown[i], i)) else None
    ensures Latest(TimelineOf(shown, n), (i, RESPONSE)) ==
            if i < n && shown[i].hasStatus then Some(ResponseEntry(shown[i], i)) else None
  {
    hide Latest, EntriesOf, RequestEntry, ResponseEntry;
    if n == 0 {
      NoneIsLatest((i, REQUEST));
      NoneIsLatest((i, RESPONSE));
    } else {
      LatestOfOwn(shown, n - 1, i);
      LatestOfTwo(TimelineOf(shown, n - 1), shown[n - 1], n - 1, (i, REQUEST));
      LatestOfTwo(TimelineOf(shown, n - 1), shown[n - 1], n - 1, (i, RESPONSE));
    }
  }

  lemma NoneIsLatest(k: Key)
    ensures Latest([], k) == None
  {
  }

  lemma LatestOfTwo(s: seq<Entry>, l: HttpLog, i: nat, k: Key)
    requires k.0 == i ==> Latest(s, k) == None
    ensures Latest(s + EntriesOf(l, i), k) ==
            if k == (i, REQUEST) then Some(RequestEntry(l, i))
            else if k == (i, RESPONSE) && l.hasStatus then Some(ResponseEntry(l, i))
            else Latest(s, k)
  {
    var one := s + [RequestEntry(l, i)];
    assert one[..|s|] == s;
    if l.hasStatus {
      var two := s + EntriesOf(l, i);
      assert two[..|s| + 1] == one;
    } else {
      assert s + EntriesOf(l, i) == one;
    }
  }

  lemma {:induction false} ForeignsClaimOrNot(own: seq<Entry>, others: seq<Entry>, k: Key, e: Entry)
    requires Latest(own, k) == Some(e) && !e.origin.Other? && Foreign(others)
    ensures Unclaimed(others, k, e.time) ==> Latest(own + others, k) == Some(e)
    ensures !Unclaimed(others, k, e.time) ==>
            Latest(own + others, k).Some? && Latest(own + others, k).value.origin.Other? &&
            Latest(own + others, k).value.time >= e.time
  {
    if others == [] {
      assert own + others == own;
    } else {
      var n := |others| - 1;
      ForeignsClaimOrNot(own, others[..n], k, e);
      assert (own + others)[..|own + others| - 1] == own + others[..n];
      assert forall i :: 0 <= i < n ==> others[..n][i] == others[i];
    }
  }

  function Indexed(timeline: seq<Entry>, i: nat, direction: string): Option<nat> {
    LastIndex(timeline, (i, direction), |timeline|)
  }

  /** The request index of traffic entry `i` exists, and points at its own request event if and only
      if no other log's metadata claims that index and direction at the same time or later. */
  lemma RequestIndexIsOwnIff(shown: seq<HttpLog>, others: seq<Entry>, i: nat)
    requires i < |shown| && Foreign(others)
    ensures var timeline := StableSort(TimelineOf(shown, |shown|) + others);
            var r := Indexed(timeline, i, REQUEST);
            r.Some? && (timeline[r.value] == RequestEntry(shown[i], i) <==> Unclaimed(others, (i, REQUEST), shown[i].sent))
  {
    var own := TimelineOf(shown, |shown|);
    LatestOfOwn(shown, |shown|, i);
    ForeignsClaimOrNot(own, others, (i, REQUEST), RequestEntry(shown[i], i));
    hide TimelineOf, StableSort, LastIndex, Latest;
    IndexOfLatest(own + others, (i, REQUEST));
  }

  /** A message log at the time of the only request, whose metadata says traffic index 0 and
      "request": the request index points at it. */
  lemma ForgedMarkIsFollowed(l: HttpLog, content: string)
    requires !l.hasStatus
    ensures var forged := Entry(l.sent, Some((0, REQUEST)), Other(content));
            var timeline := StableSort(TimelineOf([l], 1) + [forged]);
            Indexed(timeline, 0, REQUEST) == Some(1) && timeline[1] == forged
  {
    var forged := Entry(l.sent, Some((0, REQUEST)), Other(content));
    assert TimelineOf([l], 1) == [RequestEntry(l, 0)];
    var s := [RequestEntry(l, 0), forged];
    assert TimelineOf([l], 1) + [forged] == s;
    assert s[..1] == [RequestEntry(l, 0)] && s[..1][..0] == [];
    assert StableSort([]) == [];
    assert StableSort(s[..1]) == [] + [RequestEntry(l, 0)];
    assert StableSort(s) == s;
  }

  /** The same for the response index, of an entry with a status. */
  lemma ResponseIndexIsOwnIff(shown: seq<HttpLog>, others: seq<Entry>, i: nat)
    requires i < |shown| && shown[i].hasStatus && Foreign(others)
    ensures var timeline := StableSort(TimelineOf(shown, |shown|) + others);
            var r := Indexed(timeline, i, RESPONSE);
            r.Some? && (timeline[r.value] == ResponseEntry(shown[i], i) <==>
                        Unclaimed(others, (i, RESPONSE), shown[i].received.GetOr(shown[i].sent)))
  {
    var own := TimelineOf(shown, |shown|);
    LatestOfOwn(shown, |shown|, i);
    ForeignsClaimOrNot(own, others, (i, RESPONSE), ResponseEntry(shown[i], i));
    hide TimelineOf, StableSort, LastIndex, Latest;
    IndexOfLatest(own + others, (i, RESPONSE));
  }

  lemma IndexOfLatest(s: seq<Entry>, k: Key)
    ensures var timeline := StableSort(s);
            var r := LastIndex(timeline, k, |timeline|);
            (if r == None then None else Some(timeline[r.value])) == Latest(s, k)
  {
    hide StableSort, Latest;
    var timeline := StableSort(s);
    IndexFindsLastMarked(timeline, k, |timeline|);
    assert timeline[..|timeline|] == timeline;
    SortFindsLatest(s, k);
  }

  /** Without a status there is no response event, and the index is absent unless a foreign entry claims it. */
  lemma {:induction false} NoStatusNoResponseIndex(shown: seq<HttpLog>, others: seq<Entry>, i: nat)
    requires i < |shown| && !shown[i].hasStatus
    requires forall j :: 0 <= j < |others| ==> others[j].mark != Some((i, RESPONSE))
    ensures Indexed(StableSort(TimelineOf(shown, |shown|) + others), i, RESPONSE) == None
  {
    LatestOfOwn(shown, |shown|, i);
    NoneAppended(TimelineOf(shown, |shown|), others, (i, RESPONSE));
    hide TimelineOf, StableSort, LastIndex;
    IndexOfLatest(TimelineOf(shown, |shown|) + others, (i, RESPONSE));
  }

  lemma {:induction false} NoneAppended(own: seq<Entry>, others: seq<Entry>, k: Key)
    requires Latest(own, k) == None && forall j :: 0 <= j < |others| ==> others[j].mark != Some(k)
    ensures Latest(own + others, k) == None
  {
    if others == [] {
      assert own + others == own;
    } else {
      NoneAppended(own, others[..|others| - 1], k);
      assert (own + others)[..|own + others| - 1] == own + others[..|others| - 1];
    }
  }

  // ---------- request before response ----------

  ghost predicate AllBefore(s: seq<Entry>, x: Entry, y: Entry) {
    forall p, q :: 0 <= p < |s| && 0 <= q < |s| && s[p] == x && s[q] == y ==> p < q
  }

  lemma InsertMembers(s: seq<Entry>, e: Entry, y: Entry)
    requires Sorted(s)
    ensures y in Insert(s, e) <==> y in s || y == e
  {
    var k := InsertForm(s, e);
    hide Insert;
    assert s == s[..k] + s[k..];
  }

  lemma {:induction false} SortMembers(s: seq<Entry>, y: Entry)
    ensures y in StableSort(s) <==> y in s
  {
    hide Insert, Sorted;
    if s != [] {
      var n := |s| - 1;
      SortMembers(s[..n], y);
      SortSorts(s[..n]);
      InsertMembers(StableSort(s[..n]), s[n], y);
      assert s == s[..n] + [s[n]];
    }
  }

  lemma InsertKeepsOrder(s: seq<Entry>, e: Entry, x: Entry, y: Entry)
    requires Sorted(s) && AllBefore(s, x, y) && x != y && x.time <= y.time
    requires e == x ==> y !in s
    ensures AllBefore(Insert(s, e), x, y)
  {
    var k := InsertForm(s, e);
    hide Insert;
    var t := s[..k] + [e] + s[k..];
    forall p, q | 0 <= p < |t| && 0 <= q < |t| && t[p] == x && t[q] == y ensures p < q {
      var p', q' := if p <= k then p else p - 1, if q <= k then q else q - 1;
      if p != k && q != k {
        assert s[p'] == x && s[q'] == y;
      }
    }
  }

  lemma {:induction false} SortKeepsOrder(s: seq<Entry>, x: Entry, y: Entry)
    requires AllBefore(s, x, y) && x != y && x.time <= y.time
    ensures AllBefore(StableSort(s), x, y)
  {
    hide Insert, Sorted;
    if s != [] {
      var n := |s| - 1;
      assert forall p :: 0 <= p < n ==> s[..n][p] == s[p];
      SortKeepsOrder(s[..n], x, y);
      SortSorts(s[..n]);
      SortMembers(s[..n], y);
      InsertKeepsOrder(StableSort(s[..n]), s[n], x, y);
    }
  }

  lemma {:induction false} OwnEntriesInOrder(shown: seq<HttpLog>, n: nat, i: nat)
    requires n <= |shown| && i < |shown| && shown[i].hasStatus
    ensures AllBefore(TimelineOf(shown, n), RequestEntry(shown[i], i), ResponseEntry(shown[i], i))
    ensures i >= n ==> RequestEntry(shown[i], i) !in TimelineOf(shown, n) && ResponseEntry(shown[i], i) !in TimelineOf(shown, n)
  {
    if n > 0 {
      OwnEntriesInOrder(shown, n - 1, i);
      var before, here := TimelineOf(shown, n - 1), EntriesOf(shown[n - 1], n - 1);
      var x, y := RequestEntry(shown[i], i), ResponseEntry(shown[i], i);
      var all := before + here;
      forall p, q | 0 <= p < |all| && 0 <= q < |all| && all[p] == x && all[q] == y ensures p < q {
        if p < |before| && q < |before| {
          assert before[p] == x && before[q] == y;
        }
        if p >= |before| {
          assert here[p - |before|] == x;
        }
        if q >= |before| {
          assert here[q - |before|] == y;
        } else {
          assert before[q] == y;
        }
      }
    }
  }

  /** Whenever the response is not earlier than the request, equal times included, the request index
      is below the response index. */
  lemma RequestIndexIsSmaller(shown: seq<HttpLog>, others: seq<Entry>, i: nat)
    requires i < |shown| && shown[i].hasStatus && shown[i].sent <= shown[i].received.GetOr(shown[i].sent)
    requires Foreign(others)
    requires Unclaimed(others, (i, REQUEST), shown[i].sent)
    requires Unclaimed(others, (i, RESPONSE), shown[i].received.GetOr(shown[i].sent))
    ensures var timeline := StableSort(TimelineOf(shown, |shown|) + others);
            var p, q := Indexed(timeline, i, REQUEST), Indexed(timeline, i, RESPONSE);
            p.Some? && q.Some? && p.value < q.value
  {
    hide StableSort, TimelineOf, Unclaimed;
    var own := TimelineOf(shown, |shown|);
    var x, y := RequestEntry(shown[i], i), ResponseEntry(shown[i], i);
    RequestIndexIsOwnIff(shown, others, i);
    ResponseIndexIsOwnIff(shown, others, i);
    OwnEntriesInOrder(shown, |shown|, i);
    ForeignsComeAfter(own, others, x, y);
    SortKeepsOrder(own + others, x, y);
  }

  lemma ForeignsComeAfter(own: seq<Entry>, others: seq<Entry>, x: Entry, y: Entry)
    requires AllBefore(own, x, y) && Foreign(others) && !x.origin.Other? && !y.origin.Other?
    ensures AllBefore(own + others, x, y)
  {
    var all := own + others;
    forall p, q | 0 <= p < |all| && 0 <= q < |all| && all[p] == x && all[q] == y ensures p < q {
      if p < |own| && q < |own| {
        assert own[p] == x && own[q] == y;
      }
    }
  }
}
