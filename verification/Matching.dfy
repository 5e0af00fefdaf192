/** Matching assertions against logged entries, and when a failed count is worth retrying
    (services/test-agent/block_validators.go, assertion_operators.go, step_validator.go). */
module Matching {
  import opened Options

  /** Values of the assembled document. */
  datatype Value = Nil | Number(n: int) | Text(s: string) | List(items: seq<Value>) | Object(fields: map<string, Value>)

  type Root = map<string, Value>

  /** An assertion; a non-string path is kept as the empty path. */
  datatype Assertion = Assertion(path: string, operator: string, value: Value, disabled: bool)

  /** An entry is its `not`, else its `or`, else its `and`, else its simple assertion: an empty list is
      as good as none. */
  datatype Where = Where(simple: Assertion, or_: seq<Where>, and_: seq<Where>, not_: Option<Where>)

  datatype Count = Count(operator: string, value: int)

  datatype Match = Match(path: string, where_: seq<Where>, as_: string, count: Option<Count>)

  /** Path lookup and the assertion operators, as functions of what they read. */
  datatype Evaluator = Evaluator(
    lookup: (Root, string) -> Option<Value>,
    holds: (Assertion, Root, Value) -> bool)

  // ---------- where ----------

  predicate WhereHolds(ev: Evaluator, w: Where, root: Root, elem: Value)
    decreases w
  {
    if w.not_.Some? then assert w.not_.value < w; !WhereHolds(ev, w.not_.value, root, elem)
    else if w.or_ != [] then exists i | 0 <= i < |w.or_| :: WhereHolds(ev, w.or_[i], root, elem)
    else if w.and_ != [] then forall i | 0 <= i < |w.and_| :: WhereHolds(ev, w.and_[i], root, elem)
    else ev.holds(w.simple, root, elem)
  }

  predicate AllWhereHold(ev: Evaluator, ws: seq<Where>, root: Root, elem: Value) {
    forall i | 0 <= i < |ws| :: WhereHolds(ev, ws[i], root, elem)
  }

  /** An element is kept when there is nothing to check, or it is an object that passes every entry. */
  predicate Keeps(ev: Evaluator, ws: seq<Where>, root: Root, elem: Value) {
    ws == [] || (elem.Object? && AllWhereHold(ev, ws, root, elem))
  }

  function Kept(ev: Evaluator, ws: seq<Where>, root: Root, arr: seq<Value>): (s: seq<Value>)
    ensures |s| <= |arr|
  {
    if arr == [] then []
    else if Keeps(ev, ws, root, arr[0]) then [arr[0]] + Kept(ev, ws, root, arr[1..])
    else Kept(ev, ws, root, arr[1..])
  }

  method EvaluateWhere(ev: Evaluator, w: Where, root: Root, elem: Value) returns (ok: bool)
    ensures ok == WhereHolds(ev, w, root, elem)
    decreases w
  {
    if w.not_.Some? {
      assert w.not_.value < w;
      ok := EvaluateWhere(ev, w.not_.value, root, elem);
      return !ok;
    }
    if |w.or_| > 0 {
      for i := 0 to |w.or_|
        invariant forall j :: 0 <= j < i ==> !WhereHolds(ev, w.or_[j], root, elem)
      {
        ok := EvaluateWhere(ev, w.or_[i], root, elem);
        if ok {
          return true;
        }
      }
      return false;
    }
    if |w.and_| > 0 {
      for i := 0 to |w.and_|
        invariant forall j :: 0 <= j < i ==> WhereHolds(ev, w.and_[j], root, elem)
      {
        ok := EvaluateWhere(ev, w.and_[i], root, elem);
        if !ok {
          return false;
        }
      }
      return true;
    }
    return ev.holds(w.simple, root, elem);
  }

  method EvaluateWhereEntries(ev: Evaluator, ws: seq<Where>, root: Root, elem: Value) returns (ok: bool)
    ensures ok == AllWhereHold(ev, ws, root, elem)
  {
    for i := 0 to |ws|
      invariant forall j :: 0 <= j < i ==> WhereHolds(ev, ws[j], root, elem)
    {
      ok := EvaluateWhere(ev, ws[i], root, elem);
      if !ok {
        return false;
      }
    }
    return true;
  }

  lemma OrIs(ev: Evaluator, w: Where, root: Root, elem: Value)
    requires w.not_ == None && w.or_ != []
    ensures WhereHolds(ev, w, root, elem) <==> exists i :: 0 <= i < |w.or_| && WhereHolds(ev, w.or_[i], root, elem)
  {
  }

  /** `or` holds when one of its entries does, whatever its `and` says. */
  lemma OrMeans(ev: Evaluator, a: Assertion, ws: seq<Where>, w: Where, and_: seq<Where>, root: Root, elem: Value)
    ensures WhereHolds(ev, Where(a, ws + [w], and_, None), root, elem) <==>
            (ws != [] && WhereHolds(ev, Where(a, ws, and_, None), root, elem)) || WhereHolds(ev, w, root, elem)
  {
    hide WhereHolds;
    var all := ws + [w];
    OrIs(ev, Where(a, all, and_, None), root, elem);
    assert all[|ws|] == w && forall i :: 0 <= i < |ws| ==> all[i] == ws[i];
    if ws != [] {
      OrIs(ev, Where(a, ws, and_, None), root, elem);
    }
  }

  lemma AndIs(ev: Evaluator, w: Where, root: Root, elem: Value)
    requires w.not_ == None && w.or_ == [] && w.and_ != []
    ensures WhereHolds(ev, w, root, elem) <==> forall i :: 0 <= i < |w.and_| ==> WhereHolds(ev, w.and_[i], root, elem)
  {
  }

  /** `and`, where there is no `or`, holds when each of its entries does. */
  lemma AndMeans(ev: Evaluator, a: Assertion, ws: seq<Where>, w: Where, root: Root, elem: Value)
    ensures WhereHolds(ev, Where(a, [], ws + [w], None), root, elem) <==>
            (ws == [] || WhereHolds(ev, Where(a, [], ws, None), root, elem)) && WhereHolds(ev, w, root, elem)
  {
    hide WhereHolds;
    var all := ws + [w];
    AndIs(ev, Where(a, [], all, None), root, elem);
    assert all[|ws|] == w && forall i :: 0 <= i < |ws| ==> all[i] == ws[i];
    if ws != [] {
      AndIs(ev, Where(a, [], ws, None), root, elem);
    }
  }

  /** `not` turns its entry round, whatever else is there, and turning round twice is the entry itself. */
  lemma NotMeans(ev: Evaluator, a: Assertion, w: Where, or_: seq<Where>, and_: seq<Where>, root: Root, elem: Value)
    ensures var once := Where(a, or_, and_, Some(w));
            && (WhereHolds(ev, once, root, elem) <==> !WhereHolds(ev, w, root, elem))
            && (WhereHolds(ev, Where(a, or_, and_, Some(once)), root, elem) <==> WhereHolds(ev, w, root, elem))
  {
  }

  // ---------- match ----------

  /** The array a match path denotes. */
  function Source(ev: Evaluator, m: Match, root: Root): Option<seq<Value>> {
    match ev.lookup(root, m.path)
    case Some(List(items)) => Some(items)
    case _ => None
  }

  /** The matching entries; None when the path is missing or not an array. */
  function Matches(ev: Evaluator, m: Match, root: Root): Option<seq<Value>> {
    match Source(ev, m, root)
    case None => None
    case Some(arr) => Some(Kept(ev, m.where_, root, arr))
  }

  method ExecuteMatch(ev: Evaluator, m: Match, root: Root) returns (matches: Option<seq<Value>>)
    ensures matches == Matches(ev, m, root)
  {
    var source := Source(ev, m, root);
    if source == None {
      return None;
    }
    var arr := source.value;
    var kept: seq<Value> := [];
    for i := 0 to |arr|
      invariant kept + Kept(ev, m.where_, root, arr[i..]) == Kept(ev, m.where_, root, arr)
    {
      assert arr[i..][1..] == arr[i + 1..];
      var keep := m.where_ == [];
      if !keep && arr[i].Object? {
        keep := EvaluateWhereEntries(ev, m.where_, root, arr[i]);
      }
      if keep {
        assert kept + ([arr[i]] + Kept(ev, m.where_, root, arr[i + 1..]))
            == kept + [arr[i]] + Kept(ev, m.where_, root, arr[i + 1..]);
        kept := kept + [arr[i]];
      }
    }
    assert kept + Kept(ev, m.where_, root, []) == kept;
    return Some(kept);
  }

  /** The elements kept are those that pass, in order: an object that meets every entry, or anything when
      there is none. */
  lemma {:induction false} KeptAreThosePassing(ev: Evaluator, ws: seq<Where>, root: Root, arr: seq<Value>, e: Value)
    ensures var passes := ws == [] || (e.Object? && forall i :: 0 <= i < |ws| ==> WhereHolds(ev, ws[i], root, e));
            Kept(ev, ws, root, arr + [e]) == Kept(ev, ws, root, arr) + (if passes then [e] else [])
    decreases |arr|
  {
    hide WhereHolds;
    if arr == [] {
      assert [e][1..] == [];
    } else {
      assert (arr + [e])[1..] == arr[1..] + [e];
      KeptAreThosePassing(ev, ws, root, arr[1..], e);
    }
  }

  // ---------- counts ----------

  predicate CountPasses(actual: int, c: Count) {
    if c.operator == "eq" then actual == c.value
    else if c.operator == "gte" then actual >= c.value
    else if c.operator == "lte" then actual <= c.value
    else if c.operator == "gt" then actual > c.value
    else if c.operator == "lt" then actual < c.value
    else false
  }

  /** Whether the retry loop goes on after this count failed. */
  predicate IsCountRetryable(actual: int, c: Count) {
    if c.operator == "gt" then actual <= c.value
    else if c.operator == "eq" || c.operator == "gte" then actual < c.value
    else false
  }

  /** How the operators of a count hang together: more entries never hurt `gte`, fewer never `lte`, both
      together are `eq`, which is equality, and `gt` and `lt` are their negations. */
  lemma CountOperators(n: int, more: int, v: int)
    requires n <= more
    ensures CountPasses(n, Count("eq", v)) <==> n == v
    ensures CountPasses(n, Count("eq", v)) <==> CountPasses(n, Count("gte", v)) && CountPasses(n, Count("lte", v))
    ensures CountPasses(n, Count("gt", v)) <==> !CountPasses(n, Count("lte", v))
    ensures CountPasses(n, Count("lt", v)) <==> !CountPasses(n, Count("gte", v))
    ensures CountPasses(n, Count("gte", v)) ==> CountPasses(more, Count("gte", v))
    ensures CountPasses(more, Count("lte", v)) ==> CountPasses(n, Count("lte", v))
  {
    assert "gte"[2] == 'e' && "lte"[0] == 'l';
    assert |"eq"| == |"gt"| == |"lt"| == 2 && "gt"[0] == 'g' && "eq"[0] == 'e' && "lt"[0] == 'l';
  }

  /** A failed count is retried exactly when some larger count would pass. */
  lemma RetriedIffALargerCountPasses(actual: int, c: Count)
    requires !CountPasses(actual, c)
    ensures IsCountRetryable(actual, c) <==> exists n :: n >= actual && CountPasses(n, c)
  {
    if IsCountRetryable(actual, c) {
      var n := if c.operator == "gt" then c.value + 1 else c.value;
      assert n >= actual && CountPasses(n, c);
    }
  }

  // ---------- growing logs ----------

  /** The fields of a traffic entry that hold places in the timeline, which shift as logs arrive. */
  const REQUEST_INDEX := "requestTimelineIndex"
  const RESPONSE_INDEX := "responseTimelineIndex"

  /** The same entry, up to its places in the timeline. */
  predicate SameEntry(a: Value, b: Value) {
    a == b ||
    (a.Object? && b.Object? && a.fields - {REQUEST_INDEX, RESPONSE_INDEX} == b.fields - {REQUEST_INDEX, RESPONSE_INDEX})
  }

  /** `now` is a subsequence of `later`, up to places in the timeline. */
  predicate Embeds(now: seq<Value>, later: seq<Value>)
    decreases |later|
  {
    now == [] ||
    (later != [] &&
     ((SameEntry(now[|now| - 1], later[|later| - 1]) && Embeds(now[..|now| - 1], later[..|later| - 1])) ||
      Embeds(now, later[..|later| - 1])))
  }

  lemma {:induction false} PointwiseEmbeds(now: seq<Value>, later: seq<Value>)
    requires |now| <= |later| && forall i :: 0 <= i < |now| ==> SameEntry(now[i], later[i])
    ensures Embeds(now, later)
    decreases |later|
  {
    hide SameEntry;
    if now != [] {
      var m, n := |now| - 1, |later| - 1;
      if m == n {
        PointwiseEmbeds(now[..m], later[..n]);
      } else {
        PointwiseEmbeds(now, later[..n]);
      }
    }
  }

  /** The condition depends on the element alone, and not on its places in the timeline. */
  ghost predicate IgnoresIndices(ev: Evaluator, w: Where)
    decreases w
  {
    if w.not_.Some? then assert w.not_.value < w; IgnoresIndices(ev, w.not_.value)
    else if w.or_ != [] then forall i :: 0 <= i < |w.or_| ==> IgnoresIndices(ev, w.or_[i])
    else if w.and_ != [] then forall i :: 0 <= i < |w.and_| ==> IgnoresIndices(ev, w.and_[i])
    else forall r1, r2, a, b :: SameEntry(a, b) ==> ev.holds(w.simple, r1, a) == ev.holds(w.simple, r2, b)
  }

  ghost predicate AllIgnoreIndices(ev: Evaluator, ws: seq<Where>) {
    forall i :: 0 <= i < |ws| ==> IgnoresIndices(ev, ws[i])
  }

  lemma {:induction false} SameEntryHolds(ev: Evaluator, w: Where, r1: Root, r2: Root, a: Value, b: Value)
    requires IgnoresIndices(ev, w) && SameEntry(a, b)
    ensures WhereHolds(ev, w, r1, a) == WhereHolds(ev, w, r2, b)
    decreases w
  {
    if w.not_.Some? {
      assert w.not_.value < w;
      SameEntryHolds(ev, w.not_.value, r1, r2, a, b);
    } else if w.or_ != [] {
      forall i | 0 <= i < |w.or_| ensures WhereHolds(ev, w.or_[i], r1, a) == WhereHolds(ev, w.or_[i], r2, b) {
        SameEntryHolds(ev, w.or_[i], r1, r2, a, b);
      }
    } else if w.and_ != [] {
      forall i | 0 <= i < |w.and_| ensures WhereHolds(ev, w.and_[i], r1, a) == WhereHolds(ev, w.and_[i], r2, b) {
        SameEntryHolds(ev, w.and_[i], r1, r2, a, b);
      }
    }
  }

  lemma SameEntryKept(ev: Evaluator, ws: seq<Where>, r1: Root, r2: Root, a: Value, b: Value)
    requires AllIgnoreIndices(ev, ws) && SameEntry(a, b)
    ensures Keeps(ev, ws, r1, a) == Keeps(ev, ws, r2, b)
  {
    hide WhereHolds, IgnoresIndices;
    forall i | 0 <= i < |ws| ensures WhereHolds(ev, ws[i], r1, a) == WhereHolds(ev, ws[i], r2, b) {
      SameEntryHolds(ev, ws[i], r1, r2, a, b);
    }
  }

  lemma {:induction false} KeptConcat(ev: Evaluator, ws: seq<Where>, root: Root, a: seq<Value>, b: seq<Value>)
    ensures Kept(ev, ws, root, a + b) == Kept(ev, ws, root, a) + Kept(ev, ws, root, b)
  {
    hide Keeps;
    if a == [] {
      assert a + b == b;
    } else {
      assert (a + b)[1..] == a[1..] + b;
      KeptConcat(ev, ws, root, a[1..], b);
    }
  }

  lemma KeptLast(ev: Evaluator, ws: seq<Where>, root: Root, arr: seq<Value>)
    requires arr != []
    ensures Kept(ev, ws, root, arr) == Kept(ev, ws, root, arr[..|arr| - 1]) +
            (if Keeps(ev, ws, root, arr[|arr| - 1]) then [arr[|arr| - 1]] else [])
  {
    hide Keeps;
    var n := |arr| - 1;
    assert arr == arr[..n] + [arr[n]];
    KeptConcat(ev, ws, root, arr[..n], [arr[n]]);
    assert [arr[n]][1..] == [] && [arr[n]] + [] == [arr[n]];
  }

  /** More entries, wherever they land among the old ones, never take a match away. */
  lemma {:induction false} KeptGrows(ev: Evaluator, ws: seq<Where>, r1: Root, r2: Root, now: seq<Value>, later: seq<Value>)
    requires AllIgnoreIndices(ev, ws) && Embeds(now, later)
    ensures |Kept(ev, ws, r1, now)| <= |Kept(ev, ws, r2, later)|
    decreases |later|
  {
    hide Keeps, SameEntry, IgnoresIndices, Kept;
    if now == [] {
      NothingKept(ev, ws, r1);
    } else {
      var m, n := |now| - 1, |later| - 1;
      KeptLast(ev, ws, r2, later);
      if SameEntry(now[m], later[n]) && Embeds(now[..m], later[..n]) {
        KeptLast(ev, ws, r1, now);
        SameEntryKept(ev, ws, r1, r2, now[m], later[n]);
        KeptGrows(ev, ws, r1, r2, now[..m], later[..n]);
      } else {
        KeptGrows(ev, ws, r1, r2, now, later[..n]);
      }
    }
  }

  lemma NothingKept(ev: Evaluator, ws: seq<Where>, root: Root)
    ensures Kept(ev, ws, root, []) == []
  {
  }

  /** Giving up is sound: when a count fails and is not retried, it fails on every later array that
      holds the entries of this one in order, whatever else it holds in between and however their
      places in the timeline have shifted. */
  lemma GivenUpCountsNeverRecover(ev: Evaluator, ws: seq<Where>, r1: Root, r2: Root, now: seq<Value>, later: seq<Value>,
                                  c: Count)
    requires AllIgnoreIndices(ev, ws) && Embeds(now, later)
    requires !CountPasses(|Kept(ev, ws, r1, now)|, c) && !IsCountRetryable(|Kept(ev, ws, r1, now)|, c)
    ensures !CountPasses(|Kept(ev, ws, r2, later)|, c)
  {
    hide Kept, Embeds;
    KeptGrows(ev, ws, r1, r2, now, later);
    RetriedIffALargerCountPasses(|Kept(ev, ws, r1, now)|, c);
  }

  /** Retrying is not futile: a retried count passes once exactly the missing matches have arrived,
      wherever they land. */
  lemma RetriedCountsCanRecover(ev: Evaluator, ws: seq<Where>, root: Root, before: seq<Value>, more: seq<Value>,
                                after: seq<Value>, c: Count)
    requires IsCountRetryable(|Kept(ev, ws, root, before + after)|, c)
    requires |Kept(ev, ws, root, more)|
          == c.value - |Kept(ev, ws, root, before + after)| + (if c.operator == "gt" then 1 else 0)
    ensures CountPasses(|Kept(ev, ws, root, before + more + after)|, c)
  {
    hide Kept;
    KeptConcat(ev, ws, root, before, after);
    KeptConcat(ev, ws, root, before + more, after);
    KeptConcat(ev, ws, root, before, more);
  }
}
