/** What a run of blocks reports: each result, at every depth and in every iteration, is what its own block
    says of the state it started in, and everything passes exactly when every block that started holds
    (services/test-agent/step_validator.go, lines 218 to 444). */
module BlockVerdicts {
  import opened Options
  import opened Matching
  import opened Variables
  import opened BlockValidator
  import opened StepRetry
  import opened Extractions
  import ForRange

  // ---------- what one block says ----------

  /** The state after a block's loop, in which its assertions are checked. */
  function Looped(env: Env, s: Start): State
    requires Entered(env, s.st, s.block).Some?
  {
    RunLoop(env, Entered(env, s.st, s.block).value, s.block).0
  }

  /** The block has a match that kept nothing. */
  predicate MatchedNothing(env: Env, s: Start) {
    s.block.match_.Some? && Matches(env.ev, s.block.match_.value, s.st.root) == Some([])
  }

  /** An assertion reads the match when its path goes into `match` or `lastMatch`, from the document or not. */
  lemma ReadsMatchIff(a: Assertion)
    ensures MentionsMatch(a) <==>
            "match." <= a.path || "lastMatch." <= a.path || "$.match." <= a.path || "$.lastMatch." <= a.path
  {
    PrefixAfter("match.", a.path);
    PrefixAfter("lastMatch.", a.path);
    assert "$." + "match." == "$.match." && "$." + "lastMatch." == "$.lastMatch.";
  }

  lemma PrefixAfter(key: string, path: string)
    requires key != "" && key[0] != '$'
    ensures "$." + key <= path <==> "$." <= path && key <= path[2..]
    ensures key <= path ==> !("$." <= path)
  {
    var full := "$." + key;
    if full <= path {
      assert path[..2] == full[..2] && path[2..|full|] == full[2..];
    }
    if "$." <= path && key <= path[2..] {
      assert path == "$." + path[2..];
    }
  }

  /** A result that the block reports on its own account. */
  ghost predicate Says(env: Env, s: Start, r: Result) {
    var entered := Entered(env, s.st, s.block);
    match r.verdict
    case NoMatchSource =>
      !r.passed && s.block.match_.Some? && Matches(env.ev, s.block.match_.value, s.st.root) == None
    case CountChecked(actual, count) =>
      && s.block.match_.Some? && s.block.match_.value.count == Some(count)
      && var kept := Matches(env.ev, s.block.match_.value, s.st.root);
         kept.Some? && actual == |kept.value| && (r.passed <==> CountPasses(actual, count))
    case NoItems =>
      && !r.passed && entered.Some? && s.block.loop.Some?
      && ItemsOf(env, entered.value.vars, entered.value.root, s.block.loop.value.kind) == None
    case NothingMatched(a) =>
      !r.passed && entered.Some? && a in s.block.assertions && !a.disabled && MatchedNothing(env, s) && MentionsMatch(a)
    case Checked(a) =>
      && entered.Some? && a in s.block.assertions && !a.disabled && !(MatchedNothing(env, s) && MentionsMatch(a))
      && (r.passed <==> env.passes(a, Looped(env, s).root))
    case Extracted(_, _) => entered.Some? && SaysExtracted(env, s, r)
  }

  ghost predicate SaysExtracted(env: Env, s: Start, r: Result)
    requires Entered(env, s.st, s.block).Some?
  {
    var looped := Looped(env, s);
    exists j: nat :: j < |s.block.extract| && Reports(env, env.resolveKey, looped.root, looped.vars, s.block.extract, j, r)
  }

  /** Some block that started says it. */
  ghost predicate Said(env: Env, starts: seq<Start>, r: Result) {
    exists i :: 0 <= i < |starts| && Says(env, starts[i], r)
  }

  /** The results are exactly what the blocks say. */
  ghost predicate AllSaid(env: Env, starts: seq<Start>, rs: seq<Result>) {
    forall r :: r in rs <==> Said(env, starts, r)
  }

  lemma SaidTogether(env: Env, a: seq<Start>, b: seq<Start>, r: Result)
    ensures Said(env, a + b, r) <==> Said(env, a, r) || Said(env, b, r)
  {
    hide Says;
    if Said(env, a, r) {
      var i :| 0 <= i < |a| && Says(env, a[i], r);
      assert (a + b)[i] == a[i];
    }
    if Said(env, b, r) {
      var i :| 0 <= i < |b| && Says(env, b[i], r);
      assert (a + b)[|a| + i] == b[i];
    }
    if Said(env, a + b, r) {
      var i :| 0 <= i < |a + b| && Says(env, (a + b)[i], r);
      assert if i < |a| then (a + b)[i] == a[i] else (a + b)[i] == b[i - |a|];
    }
  }

  lemma AllSaidTogether(env: Env, a: seq<Start>, b: seq<Start>, rs: seq<Result>, more: seq<Result>)
    requires AllSaid(env, a, rs) && AllSaid(env, b, more)
    ensures AllSaid(env, a + b, rs + more)
  {
    hide Said;
    forall r ensures r in rs + more <==> Said(env, a + b, r) {
      SaidTogether(env, a, b, r);
    }
  }

  lemma NothingSaid(env: Env)
    ensures AllSaid(env, [], [])
  {
  }

  // ---------- the block's own results ----------

  lemma {:induction false} UnmatchedIs(assertions: seq<Assertion>)
    ensures forall r :: r in UnmatchedResults(assertions) <==>
      !r.passed && r.verdict.NothingMatched? && r.verdict.assertion in assertions && !r.verdict.assertion.disabled &&
      MentionsMatch(r.verdict.assertion)
  {
    hide MentionsMatch;
    if assertions != [] {
      UnmatchedIs(assertions[1..]);
    }
  }

  lemma {:induction false} CheckedIs(env: Env, assertions: seq<Assertion>, empty: bool, root: Root)
    ensures forall r :: r in AssertionResults(env, assertions, empty, root) <==>
      && r.verdict.Checked? && r.verdict.assertion in assertions && !r.verdict.assertion.disabled
      && !(empty && MentionsMatch(r.verdict.assertion)) && (r.passed <==> env.passes(r.verdict.assertion, root))
  {
    hide MentionsMatch;
    if assertions != [] {
      CheckedIs(env, assertions[1..], empty, root);
    }
  }

  /** Whether the document still says at the end of the loop that the match kept nothing. */
  lemma EmptyIsKept(env: Env, s: Start)
    requires Entered(env, s.st, s.block).Some?
    ensures IsEmptyMatch(s.block, Looped(env, s).root) <==> MatchedNothing(env, s)
  {
    hide RunLoop, Matches, CountPasses;
    var entered := Entered(env, s.st, s.block).value;
    LoopPreserves(env, entered, s.block);
    assert Get(Rest(Looped(env, s).root), MATCHES) == Get(Rest(entered.root), MATCHES);
  }

  lemma ExtractedIs(env: Env, st: State, rules: seq<(string, Rule)>)
    requires InSync(st)
    ensures forall r :: r in ExtractAll(env, st, rules).1 <==>
      exists j: nat :: j < |rules| && Reports(env, env.resolveKey, st.root, st.vars, rules, j, r)
    ensures forall r :: r in ExtractAll(env, st, rules).1 ==> r.verdict.Extracted?
  {
    hide ExtractAll, VarsAfter;
    BlockExtracts(env, st, rules);
    var rs := ExtractAll(env, st, rules).1;
    forall r, j: nat | j < |rules| && Reports(env, env.resolveKey, st.root, st.vars, rules, j, r) ensures r in rs {
      assert Reports(env, env.resolveKey, st.root, st.vars, rules, j, rs[j]);
    }
    forall r | r in rs
      ensures exists j: nat :: j < |rules| && Reports(env, env.resolveKey, st.root, st.vars, rules, j, r)
      ensures r.verdict.Extracted?
    {
      var j: nat :| j < |rs| && rs[j] == r;
      assert Reports(env, env.resolveKey, st.root, st.vars, rules, j, rs[j]);
    }
  }

  /** The results of a block after its loop are those it says of its assertions and rules. */
  lemma TailIs(env: Env, s: Start, r: Result)
    requires InSync(s.st) && Entered(env, s.st, s.block).Some?
    ensures r in Tail(env, Looped(env, s), s.block).1 <==>
            Says(env, s, r) && (r.verdict.NothingMatched? || r.verdict.Checked? || r.verdict.Extracted?)
  {
    hide MatchedNothing, MentionsMatch, Reports, UnmatchedResults, AssertionResults, ExtractAll, RunLoop, InSync, Entered,
      IsEmptyMatch;
    var looped := Looped(env, s);
    LoopedInSync(env, s);
    EmptyIsKept(env, s);
    UnmatchedIs(s.block.assertions);
    CheckedIs(env, s.block.assertions, MatchedNothing(env, s), looped.root);
    ExtractedIs(env, looped, s.block.extract);
  }

  lemma LoopedInSync(env: Env, s: Start)
    requires InSync(s.st) && Entered(env, s.st, s.block).Some?
    ensures InSync(Looped(env, s))
  {
    hide Entered, RunLoop, InSync;
    EnteredInSync(env, s.st, s.block);
    LoopPreserves(env, Entered(env, s.st, s.block).value, s.block);
  }

  /** The results of a block are those it says and those of its loop. */
  lemma OwnResults(env: Env, st: State, b: Block, r: Result)
    requires InSync(st)
    ensures r in RunBlock(env, st, b).1 <==>
            || Says(env, Start(st, b), r)
            || (Entered(env, st, b).Some? && r in RunLoop(env, Entered(env, st, b).value, b).1)
    ensures Entered(env, st, b).Some? && b.loop.Some? &&
            ItemsOf(env, Entered(env, st, b).value.vars, Entered(env, st, b).value.root, b.loop.value.kind) == None ==>
              (r in RunLoop(env, Entered(env, st, b).value, b).1 ==> Says(env, Start(st, b), r))
  {
    hide Tail, RunIterations, Push, Pop, SetBoth, Matches, CountPasses, InSync, ItemsOf;
    if Entered(env, st, b).Some? {
      TailIs(env, Start(st, b), r);
    }
  }

  // ---------- every result of a run ----------

  lemma {:induction false} BlockSaid(env: Env, st: State, b: Block)
    requires InSync(st)
    ensures AllSaid(env, Starts(env, st, b), RunBlock(env, st, b).1)
    decreases Size(b), 3
  {
    hide RunBlock, Says, LoopStarts, InSync, RunLoop, ItemsOf, Entered, AllSaid;
    var entered := Entered(env, st, b);
    if entered.Some? {
      EnteredInSync(env, st, b);
      LoopSaid(env, entered.value, b);
    }
    BlockIsSaid(env, st, b);
  }

  /** A block says its own results, and the blocks of its loop the others. */
  lemma BlockIsSaid(env: Env, st: State, b: Block)
    requires InSync(st)
    requires Entered(env, st, b).Some? ==> LoopIsSaid(env, Entered(env, st, b).value, b)
    ensures AllSaid(env, Starts(env, st, b), RunBlock(env, st, b).1)
  {
    hide RunBlock, Says, LoopStarts, InSync, RunLoop, ItemsOf, Entered;
    var own, entered := Start(st, b), Entered(env, st, b);
    forall r ensures r in RunBlock(env, st, b).1 <==> Said(env, Starts(env, st, b), r) {
      OwnResults(env, st, b, r);
      assert Said(env, [own], r) <==> Says(env, own, r) by { assert [own][0] == own; }
      if entered.Some? {
        SaidTogether(env, [own], LoopStarts(env, entered.value, b), r);
      } else {
        assert Starts(env, st, b) == [own];
      }
    }
  }

  /** What a loop reports is what the blocks of its iterations say, unless it has no items to run over. */
  ghost predicate LoopIsSaid(env: Env, st: State, b: Block) {
    if b.loop.Some? && ItemsOf(env, st.vars, st.root, b.loop.value.kind) == None then LoopStarts(env, st, b) == []
    else AllSaid(env, LoopStarts(env, st, b), RunLoop(env, st, b).1)
  }

  lemma {:induction false} LoopSaid(env: Env, st: State, b: Block)
    ensures LoopIsSaid(env, st, b)
    decreases Size(b), 2
  {
    hide ItemsOf, IterationStarts, RunIterations, AllSaid;
    NothingSaid(env);
    if b.loop.Some? {
      var items := ItemsOf(env, st.vars, st.root, b.loop.value.kind);
      if items.Some? {
        IterationsSaid(env, st, b.loop.value, items.value, 0);
      }
    }
  }

  lemma {:induction false} IterationsSaid(env: Env, st: State, l: Loop, items: seq<Value>, i: nat)
    requires i <= |items|
    ensures AllSaid(env, IterationStarts(env, st, l, items, i), RunIterations(env, st, l, items, i).1)
    decreases LoopSize(l), 1, |items| - i
  {
    hide Bind, RunBody, BodyStarts, StopsAfter, AllSaid, InSync;
    if i == |items| {
      NothingSaid(env);
    } else {
      var bound := Bind(st, l, items[i], LoopObject(l.kind, items, i));
      var (after, rs) := RunBody(env, bound, l);
      BindPreserves(st, l, items[i], LoopObject(l.kind, items, i));
      BodySaid(env, bound, l);
      if StopsAfter(env, after.vars, after.root, l.kind) {
        assert BodyStarts(env, bound, l) + [] == BodyStarts(env, bound, l);
      } else {
        IterationsSaid(env, after, l, items, i + 1);
        AllSaidTogether(env, BodyStarts(env, bound, l), IterationStarts(env, after, l, items, i + 1), rs,
                        RunIterations(env, after, l, items, i + 1).1);
      }
    }
  }

  lemma {:induction false} BodySaid(env: Env, st: State, l: Loop)
    requires InSync(st)
    ensures AllSaid(env, BodyStarts(env, st, l), RunBody(env, st, l).1)
    decreases LoopSize(l), 0
  {
    hide AllSaid, InSync, RunBlock, RunBlocks, Starts, AllStarts;
    if l.blocks != [] {
      ResultsAreSaid(env, st, ResolveBlocks(env, l.blocks, st.vars));
    } else {
      BlockSaid(env, st, ResolveBlock(env, l.flat, st.vars));
    }
  }

  /** In every run of blocks a result is reported if and only if some block that started, at any depth and
      in any iteration, says it. */
  lemma {:induction false} ResultsAreSaid(env: Env, st: State, bs: seq<Block>)
    requires InSync(st)
    ensures AllSaid(env, AllStarts(env, st, bs), RunBlocks(env, st, bs).1)
    decreases BlocksSize(bs), 4, |bs|
  {
    hide AllSaid, InSync, RunBlock, Starts;
    if bs == [] {
      NothingSaid(env);
    } else {
      var (next, rs) := RunBlock(env, st, bs[0]);
      BlockPreserves(env, st, bs[0]);
      PreservesSync(st, next);
      BlockSaid(env, st, bs[0]);
      ResultsAreSaid(env, next, bs[1..]);
      AllSaidTogether(env, Starts(env, st, bs[0]), AllStarts(env, next, bs[1..]), rs, RunBlocks(env, next, bs[1..]).1);
    }
  }

  lemma PreservesSync(before: State, after: State)
    requires Preserves(before, after) && InSync(before)
    ensures InSync(after)
  {
  }

  // ---------- templates ----------

  predicate AssertionsResolved(env: Env, from: seq<Assertion>, to: seq<Assertion>, vars: Vars) {
    |to| == |from| && forall i | 0 <= i < |from| :: to[i] == env.resolveAssertion(from[i], vars)
  }

  predicate MatchResolved(env: Env, from: Option<Match>, to: Option<Match>, vars: Vars) {
    && (from.Some? <==> to.Some?)
    && (from.Some? ==>
          && (to.value.path, to.value.as_, to.value.count) == (from.value.path, from.value.as_, from.value.count)
          && |to.value.where_| == |from.value.where_|
          && forall i | 0 <= i < |from.value.where_| :: to.value.where_[i] == env.resolveWhere(from.value.where_[i], vars))
  }

  /** `to` is `from` with the templates of its match and assertions resolved, at every depth; of the flat
      fields of a loop those of the assertions alone, and of the rules none. */
  ghost predicate IsResolved(env: Env, from: Block, to: Block, vars: Vars)
    decreases from
  {
    && MatchResolved(env, from.match_, to.match_, vars)
    && AssertionsResolved(env, from.assertions, to.assertions, vars) && to.extract == from.extract
    && (from.loop.Some? <==> to.loop.Some?)
    && (from.loop.Some? ==>
          var l, m := from.loop.value, to.loop.value;
          && (m.kind, m.as_, m.name) == (l.kind, l.as_, l.name) && |m.blocks| == |l.blocks|
          && (forall i :: 0 <= i < |l.blocks| ==>
                (assert from.loop.value < from; IsResolved(env, l.blocks[i], m.blocks[i], vars)))
          && (m.flat.match_, m.flat.loop, m.flat.extract) == (l.flat.match_, l.flat.loop, l.flat.extract)
          && AssertionsResolved(env, l.flat.assertions, m.flat.assertions, vars))
  }

  lemma {:induction false} BlockIsResolved(env: Env, b: Block, vars: Vars)
    ensures IsResolved(env, b, ResolveBlock(env, b, vars), vars)
    decreases b, 0
  {
    if b.loop.Some? {
      assert b.loop.value < b;
      BlocksAreResolved(env, b.loop.value.blocks, vars);
    }
  }

  lemma {:induction false} BlocksAreResolved(env: Env, bs: seq<Block>, vars: Vars)
    ensures |ResolveBlocks(env, bs, vars)| == |bs|
    ensures forall i :: 0 <= i < |bs| ==> IsResolved(env, bs[i], ResolveBlocks(env, bs, vars)[i], vars)
    decreases bs, 0
  {
    hide IsResolved, ResolveBlock;
    if bs != [] {
      BlockIsResolved(env, bs[0], vars);
      BlocksAreResolved(env, bs[1..], vars);
    }
  }

  // ---------- what a block sees ----------

  /** Inside a block with a match that keeps `ms` the document has them as "matches", the first as "match" and
      the last as "lastMatch", null when there is none, and the match's name holds them as a variable. */
  lemma MatchIsSeen(env: Env, st: State, b: Block, ms: seq<Value>)
    requires b.match_.Some? && Matches(env.ev, b.match_.value, st.root) == Some(ms) && Entered(env, st, b).Some?
    ensures var entered, n := Entered(env, st, b).value, |ms|;
            && Get(entered.root, "matches") == Some(List(ms))
            && Get(entered.root, "match") == Some(if n == 0 then Nil else ms[0])
            && Get(entered.root, "lastMatch") == Some(if n == 0 then Nil else ms[n - 1])
            && entered.vars == if b.match_.value.as_ == "" then st.vars else st.vars[b.match_.value.as_ := List(ms)]
  {
    hide Matches, CountPasses;
  }

  /** The first block of the i-th iteration finds the i-th item under the loop's variable, and under its
      name, when it has one of its own, the iteration's number and, in a forEach, the items. */
  lemma ItemIsSeen(env: Env, st: State, l: Loop, items: seq<Value>, i: nat)
    requires i < |items| && l.name != l.as_
    ensures var starts := IterationStarts(env, st, l, items, i);
            && starts != [] && InSync(starts[0].st)
            && Get(starts[0].st.vars, l.as_) == Some(items[i])
            && (l.name != "" ==>
                  && l.name in starts[0].st.vars && starts[0].st.vars[l.name].Object?
                  && Get(starts[0].st.vars[l.name].fields, "index") == Some(Number(i))
                  && Get(starts[0].st.vars[l.name].fields, "items") == if l.kind.ForEach? then Some(List(items)) else None)
            && forall k :: k != l.as_ && k != l.name ==> Get(starts[0].st.vars, k) == Get(st.vars, k)
  {
    hide RunBody, StopsAfter, ResolveBlock, ResolveBlocks, LoopStarts;
    var bound := Bind(st, l, items[i], LoopObject(l.kind, items, i));
    FirstStart(env, bound, l);
    BindPreserves(st, l, items[i], LoopObject(l.kind, items, i));
    hide BodyStarts, InSync;
  }

  lemma FirstStart(env: Env, st: State, l: Loop)
    ensures BodyStarts(env, st, l) != [] && BodyStarts(env, st, l)[0].st == st
  {
    hide ResolveBlock, ResolveBlocks, LoopStarts, Entered;
    if l.blocks != [] {
      var bs := ResolveBlocks(env, l.blocks, st.vars);
      assert Starts(env, st, bs[0])[0] == Start(st, bs[0]);
      assert AllStarts(env, st, bs)[0] == Starts(env, st, bs[0])[0];
    }
  }

  /** A repeat runs over its count's numbers from 0, none when the count is not positive; a for over the
      values of its range, in order; a forEach over what its items resolve to. */
  lemma LoopItems(env: Env, vars: Vars, root: Root, k: LoopKind, i: nat)
    ensures k.Repeat? ==>
              && ItemsOf(env, vars, root, k).Some? && |ItemsOf(env, vars, root, k).value| == (if k.count < 0 then 0 else k.count)
              && (i < k.count ==> ItemsOf(env, vars, root, k).value[i] == Number(i))
    ensures k.For? ==>
              var values := ForRange.ValuesFrom(k.range, k.range.from, ForRange.MAX_ITERATIONS);
              && ItemsOf(env, vars, root, k).Some? && |ItemsOf(env, vars, root, k).value| == |values|
              && (i < |values| ==> ItemsOf(env, vars, root, k).value[i] == Number(values[i]))
    ensures k.ForEach? ==> ItemsOf(env, vars, root, k) == env.resolveItems(k.items, vars, root)
  {
  }

  /** The state after `n` iterations, one for each item, whatever `until` says. */
  function Iterated(env: Env, st: State, l: Loop, items: seq<Value>, n: nat): State
    requires n <= |items|
  {
    if n == 0 then st
    else
      var before := Iterated(env, st, l, items, n - 1);
      RunBody(env, Bind(before, l, items[n - 1], LoopObject(l.kind, items, n - 1)), l).0
  }

  predicate UntilMet(env: Env, l: Loop, st: State) {
    l.kind.Repeat? && env.untilMet(l.kind.until, st.vars, st.root)
  }

  lemma {:induction false} IterationsUntil(env: Env, st: State, l: Loop, items: seq<Value>, i: nat) returns (n: nat)
    requires i <= |items|
    ensures i <= n <= |items| && (n == i ==> i == |items|)
    ensures RunIterations(env, Iterated(env, st, l, items, i), l, items, i).0 == Iterated(env, st, l, items, n)
    ensures forall j :: i < j < n ==> !UntilMet(env, l, Iterated(env, st, l, items, j))
    ensures n < |items| ==> UntilMet(env, l, Iterated(env, st, l, items, n))
    decreases |items| - i
  {
    hide RunBody, Bind;
    if i == |items| {
      n := i;
    } else if UntilMet(env, l, Iterated(env, st, l, items, i + 1)) {
      n := i + 1;
    } else {
      n := IterationsUntil(env, st, l, items, i + 1);
      assert n > i + 1 || i + 1 == |items|;
    }
  }

  /** A loop runs over its items one by one and ends after the first iteration that meets `until`, or after
      the last; then its own variables are gone, and the others are as that iteration left them. */
  lemma LoopRunsUntil(env: Env, st: State, b: Block, items: seq<Value>) returns (n: nat)
    requires b.loop.Some? && ItemsOf(env, st.vars, st.root, b.loop.value.kind) == Some(items)
    ensures n <= |items| && (n == 0 ==> items == [])
    ensures var l, after := b.loop.value, RunLoop(env, st, b).0;
            && (forall j :: 0 < j < n ==> !UntilMet(env, l, Iterated(env, st, l, items, j)))
            && (n < |items| ==> UntilMet(env, l, Iterated(env, st, l, items, n)))
            && InSync(after) && l.as_ !in after.vars && (l.name != "" ==> l.name !in after.vars)
            && forall k :: k != l.as_ && (l.name == "" || k != l.name) ==>
                 Get(after.vars, k) == Get(Iterated(env, st, l, items, n).vars, k)
  {
    hide RunIterations, ItemsOf, Iterated, UntilMet;
    n := IterationsUntil(env, st, b.loop.value, items, 0);
    assert Iterated(env, st, b.loop.value, items, 0) == st by { NoIteration(env, st, b.loop.value, items); }
  }

  lemma NoIteration(env: Env, st: State, l: Loop, items: seq<Value>)
    ensures Iterated(env, st, l, items, 0) == st
  {
  }

  // ---------- passing ----------

  /** Its match finds a list and keeps as many entries as counted, its loop has items, every enabled
      assertion passes on the document after the loop and reads no empty match, every rule finds a value. */
  ghost predicate Holds(env: Env, s: Start) {
    && (s.block.match_.Some? ==>
          var m := s.block.match_.value;
          var kept := Matches(env.ev, m, s.st.root);
          kept.Some? && (m.count.Some? ==> CountPasses(|kept.value|, m.count.value)))
    && Entered(env, s.st, s.block).Some?
    && var entered, looped := Entered(env, s.st, s.block).value, Looped(env, s);
       && (s.block.loop.Some? ==> ItemsOf(env, entered.vars, entered.root, s.block.loop.value.kind).Some?)
       && (forall a :: a in s.block.assertions && !a.disabled ==>
             env.passes(a, looped.root) && !(MatchedNothing(env, s) && MentionsMatch(a)))
       && (forall j: nat :: j < |s.block.extract| ==> Finds(env, looped, s.block.extract, j))
  }

  /** The j-th rule finds a value, in the document that holds the values found before it. */
  predicate Finds(env: Env, st: State, rules: seq<(string, Rule)>, j: nat)
    requires j < |rules|
  {
    var now := VarsAfter(env, env.resolveKey, st.root, st.vars, rules[..j]);
    env.extract(env.resolveKey(rules[j].0, now), rules[j].1, Seen(st.root, now)).Found?
  }

  lemma FindsIff(env: Env, st: State, rules: seq<(string, Rule)>, j: nat)
    requires j < |rules|
    ensures Finds(env, st, rules, j) <==>
            forall r :: Reports(env, env.resolveKey, st.root, st.vars, rules, j, r) ==> r.passed
  {
    var now := VarsAfter(env, env.resolveKey, st.root, st.vars, rules[..j]);
    var key := env.resolveKey(rules[j].0, now);
    match env.extract(key, rules[j].1, Seen(st.root, now))
    case Found(_) =>
    case Fails(notFound) =>
      assert Reports(env, env.resolveKey, st.root, st.vars, rules, j, Result(false, Extracted(key, notFound)));
  }

  lemma EntersIff(env: Env, s: Start)
    ensures Entered(env, s.st, s.block).Some? <==>
            (s.block.match_.Some? ==>
               var m := s.block.match_.value;
               var kept := Matches(env.ev, m, s.st.root);
               kept.Some? && (m.count.Some? ==> CountPasses(|kept.value|, m.count.value)))
  {
    hide Matches, CountPasses;
  }

  lemma HoldsIff(env: Env, s: Start)
    ensures Holds(env, s) <==> forall r :: Says(env, s, r) ==> r.passed
  {
    hide Entered, RunLoop, ItemsOf, Matches, CountPasses, MatchedNothing, MentionsMatch, Reports, Finds;
    EntersIff(env, s);
    if Holds(env, s) {
      forall r | Says(env, s, r) ensures r.passed {
        if r.verdict.Extracted? {
          var looped := Looped(env, s);
          var j: nat :| j < |s.block.extract| &&
            Reports(env, env.resolveKey, looped.root, looped.vars, s.block.extract, j, r);
          FindsIff(env, looped, s.block.extract, j);
        }
      }
    } else {
      var r := Complaint(env, s);
    }
  }

  /** A block that does not hold says so. */
  lemma Complaint(env: Env, s: Start) returns (r: Result)
    requires !Holds(env, s)
    ensures Says(env, s, r) && !r.passed
  {
    hide RunLoop, ItemsOf, Matches, CountPasses, MatchedNothing, MentionsMatch, Reports, Finds, Entered;
    EntersIff(env, s);
    if Entered(env, s.st, s.block) == None {
      var m := s.block.match_.value;
      var kept := Matches(env.ev, m, s.st.root);
      r := Result(false, if kept == None then NoMatchSource else CountChecked(|kept.value|, m.count.value));
    } else {
      var entered, looped := Entered(env, s.st, s.block).value, Looped(env, s);
      if s.block.loop.Some? && ItemsOf(env, entered.vars, entered.root, s.block.loop.value.kind) == None {
        r := Result(false, NoItems);
      } else if j: nat :| j < |s.block.extract| && !Finds(env, looped, s.block.extract, j) {
        FindsIff(env, looped, s.block.extract, j);
        r :| Reports(env, env.resolveKey, looped.root, looped.vars, s.block.extract, j, r) && !r.passed;
        ReportsExtracted(env, looped, s.block.extract, j, r);
      } else {
        var a :| a in s.block.assertions && !a.disabled &&
          !(env.passes(a, looped.root) && !(MatchedNothing(env, s) && MentionsMatch(a)));
        r := Result(false, if MatchedNothing(env, s) && MentionsMatch(a) then NothingMatched(a) else Checked(a));
      }
    }
  }

  lemma ReportsExtracted(env: Env, st: State, rules: seq<(string, Rule)>, j: nat, r: Result)
    requires j < |rules| && Reports(env, env.resolveKey, st.root, st.vars, rules, j, r)
    ensures r.verdict.Extracted?
  {
  }

  /** A run of blocks passes if and only if every block that starts in it, at any depth and in any
      iteration, holds. */
  lemma AllPassedIff(env: Env, st: State, bs: seq<Block>)
    requires InSync(st)
    ensures AllPassed(RunBlocks(env, st, bs).1) <==>
            forall i :: 0 <= i < |AllStarts(env, st, bs)| ==> Holds(env, AllStarts(env, st, bs)[i])
  {
    hide RunBlocks, AllStarts, Holds, Says, InSync;
    var starts, rs := AllStarts(env, st, bs), RunBlocks(env, st, bs).1;
    ResultsAreSaid(env, st, bs);
    if AllPassed(rs) {
      forall i | 0 <= i < |starts| ensures Holds(env, starts[i]) {
        forall r | Says(env, starts[i], r) ensures r.passed {
          assert Said(env, starts, r);
        }
        HoldsIff(env, starts[i]);
      }
    } else {
      var r :| r in rs && !r.passed;
      var i :| 0 <= i < |starts| && Says(env, starts[i], r);
      HoldsIff(env, starts[i]);
    }
  }
}
