/** Counts nested in blocks and loops, at any depth: wherever the block starts, an attempt reports its
    failure, and a count given up on fails wherever the block starts again
    (services/test-agent/step_validator.go, lines 60 to 444). */
module NestedCounts {
  import opened Options
  import opened Matching
  import opened Variables
  import opened BlockValidator
  import opened BlockCache
  import opened StepRetry
  import opened StepDocument
  import opened RetrySoundness
  import L = LogBuffer
  import DocPath

  // ---------- what a start reports ----------

  /** The keys of the document that running blocks writes. */
  predicate IsWritten(key: string) {
    key == VARIABLES || key == MATCHES || key == MATCH || key == LAST_MATCH
  }

  predicate SameOutside(a: Root, b: Root) {
    forall key | key in a.Keys + b.Keys && !IsWritten(key) :: Get(a, key) == Get(b, key)
  }

  /** Every start has the document of `root` outside the keys that blocks write, and what its block
      reports is among the results. */
  ghost predicate AllReported(env: Env, root: Root, starts: seq<Start>, results: seq<Result>) {
    forall i :: 0 <= i < |starts| ==>
      SameOutside(root, starts[i].st.root) &&
      forall r :: r in RunBlock(env, starts[i].st, starts[i].block).1 ==> r in results
  }

  lemma ReportedInMore(env: Env, a: Root, b: Root, starts: seq<Start>, results: seq<Result>, more: seq<Result>)
    requires AllReported(env, b, starts, results) && SameOutside(a, b)
    requires forall r :: r in results ==> r in more
    ensures AllReported(env, a, starts, more)
  {
    hide RunBlock, IsWritten;
    forall i | 0 <= i < |starts| ensures SameOutside(a, starts[i].st.root) {
      SameOutsideTrans(a, b, starts[i].st.root);
    }
  }

  lemma SameOutsideTrans(a: Root, b: Root, c: Root)
    requires SameOutside(a, b) && SameOutside(b, c)
    ensures SameOutside(a, c)
  {
    hide IsWritten;
    forall key | key in a.Keys + c.Keys && !IsWritten(key) ensures Get(a, key) == Get(c, key) {
      assert key in b.Keys ==> key in a.Keys + b.Keys;
    }
  }

  lemma PreservesOutside(before: State, after: State)
    requires Preserves(before, after)
    ensures SameOutside(before.root, after.root)
  {
    forall key | key in before.root.Keys + after.root.Keys && !IsWritten(key)
      ensures Get(before.root, key) == Get(after.root, key)
    {
      assert Get(Rest(before.root), key) == Get(Rest(after.root), key);
    }
  }

  lemma EnteredOutside(env: Env, st: State, b: Block)
    requires Entered(env, st, b).Some?
    ensures SameOutside(st.root, Entered(env, st, b).value.root)
  {
    hide Matches, CountPasses;
  }

  lemma {:induction false} StartsAreReported(env: Env, st: State, b: Block)
    ensures AllReported(env, st.root, Starts(env, st, b), RunBlock(env, st, b).1)
    decreases Size(b), 3
  {
    hide SameOutside, LoopStarts, RunLoop, Tail, Pop;
    var entered := Entered(env, st, b);
    SameAsItself(st.root);
    if entered.Some? {
      EnteredOutside(env, st, b);
      LoopStartsAreReported(env, entered.value, b);
      LoopIsReported(env, st, b);
      ReportedInMore(env, st.root, entered.value.root, LoopStarts(env, entered.value, b),
                     RunLoop(env, entered.value, b).1, RunBlock(env, st, b).1);
    }
  }

  lemma SameAsItself(root: Root)
    ensures SameOutside(root, root)
  {
  }

  lemma LoopIsReported(env: Env, st: State, b: Block)
    requires Entered(env, st, b).Some?
    ensures forall r :: r in RunLoop(env, Entered(env, st, b).value, b).1 ==> r in RunBlock(env, st, b).1
  {
    hide RunLoop, Tail, Pop, Push, SetBoth, Matches, CountPasses;
  }

  lemma {:induction false} LoopStartsAreReported(env: Env, st: State, b: Block)
    ensures AllReported(env, st.root, LoopStarts(env, st, b), RunLoop(env, st, b).1)
    decreases Size(b), 2
  {
    hide SameOutside, ItemsOf, IterationStarts, RunIterations, RunBlock;
    if b.loop.Some? {
      var items := ItemsOf(env, st.vars, st.root, b.loop.value.kind);
      if items.Some? {
        IterationStartsAreReported(env, st, b.loop.value, items.value, 0);
      }
    }
  }

  lemma {:induction false} IterationStartsAreReported(env: Env, st: State, l: Loop, items: seq<Value>, i: nat)
    requires i <= |items|
    ensures AllReported(env, st.root, IterationStarts(env, st, l, items, i), RunIterations(env, st, l, items, i).1)
    decreases LoopSize(l), 1, |items| - i
  {
    hide SameOutside, Bind, RunBody, BodyStarts, StopsAfter, RunBlock, Preserves, AllReported;
    if i == |items| {
      NothingStarts(env, st.root, []);
    } else {
      var object_ := LoopObject(l.kind, items, i);
      var bound := Bind(st, l, items[i], object_);
      BindPreserves(st, l, items[i], object_);
      BodyPreserves(env, bound, l);
      PreservesOutside(st, bound);
      var (after, rs) := RunBody(env, bound, l);
      PreservesOutside(bound, after);
      SameOutsideTrans(st.root, bound.root, after.root);
      BodyStartsAreReported(env, bound, l);
      var all := RunIterations(env, st, l, items, i).1;
      ReportedInMore(env, st.root, bound.root, BodyStarts(env, bound, l), rs, all);
      if StopsAfter(env, after.vars, after.root, l.kind) {
        NothingStarts(env, st.root, all);
        ReportedTogether(env, st.root, BodyStarts(env, bound, l), [], all);
      } else {
        IterationStartsAreReported(env, after, l, items, i + 1);
        var rest := IterationStarts(env, after, l, items, i + 1);
        ReportedInMore(env, st.root, after.root, rest, RunIterations(env, after, l, items, i + 1).1, all);
        ReportedTogether(env, st.root, BodyStarts(env, bound, l), rest, all);
      }
    }
  }

  lemma NothingStarts(env: Env, root: Root, results: seq<Result>)
    ensures AllReported(env, root, [], results)
  {
  }

  lemma ReportedTogether(env: Env, root: Root, a: seq<Start>, b: seq<Start>, results: seq<Result>)
    requires AllReported(env, root, a, results) && AllReported(env, root, b, results)
    ensures AllReported(env, root, a + b, results)
  {
    hide SameOutside, RunBlock;
  }

  lemma {:induction false} BodyStartsAreReported(env: Env, st: State, l: Loop)
    ensures AllReported(env, st.root, BodyStarts(env, st, l), RunBody(env, st, l).1)
    decreases LoopSize(l), 0
  {
    hide AllReported, RunBlock, RunBlocks, Starts, AllStarts;
    if l.blocks != [] {
      AllStartsAreReported(env, st, ResolveBlocks(env, l.blocks, st.vars));
    } else {
      StartsAreReported(env, st, ResolveBlock(env, l.flat, st.vars));
    }
  }

  /** Whatever the tree of blocks: each block that starts, at any depth and in any iteration, starts on the
      document outside the keys blocks write, and its results are among those of the whole. */
  lemma {:induction false} AllStartsAreReported(env: Env, st: State, bs: seq<Block>)
    ensures AllReported(env, st.root, AllStarts(env, st, bs), RunBlocks(env, st, bs).1)
    decreases BlocksSize(bs), 4, |bs|
  {
    hide SameOutside, RunBlock, Starts, Preserves, AllReported;
    if bs == [] {
      NothingStarts(env, st.root, []);
    } else {
      var (next, rs) := RunBlock(env, st, bs[0]);
      BlockPreserves(env, st, bs[0]);
      PreservesOutside(st, next);
      StartsAreReported(env, st, bs[0]);
      AllStartsAreReported(env, next, bs[1..]);
      var all, rest := RunBlocks(env, st, bs).1, AllStarts(env, next, bs[1..]);
      SameAsItself(st.root);
      ReportedInMore(env, st.root, st.root, Starts(env, st, bs[0]), rs, all);
      ReportedInMore(env, st.root, next.root, rest, RunBlocks(env, next, bs[1..]).1, all);
      ReportedTogether(env, st.root, Starts(env, st, bs[0]), rest, all);
    }
  }

  // ---------- attempts ----------

  /** The starts of an attempt, at every depth. */
  function AttemptStarts<L>(env: Env, assemble: Assembly<L>, step: TestStep, s: Session, logs: L, cached: bool): seq<Start> {
    match assemble(logs, s.vars)
    case None => []
    case Some(root) =>
      var st := ExtractStep(env, State(s.vars, DocumentOf(root, s.vars), [], s.generation), step.extract).0;
      if step.assertions == [] then []
      else
        var blocks := Serve(env, if cached then s.cache else Empty, st.generation % TWO64, st.vars, step.assertions).1;
        AllStarts(env, st, blocks)
  }

  /** A block with the match starts somewhere in the attempt. */
  ghost predicate StartsIn(env: Env, rd: Reading, step: TestStep, s: Session, b: L.Buffers, m: Match) {
    exists i :: 0 <= i < |AttemptStarts(env, Assembling(rd), step, s, b, true)| &&
      AttemptStarts(env, Assembling(rd), step, s, b, true)[i].block.match_ == Some(m)
  }

  /** An attempt in which a block with the match starts, over logs on which the count fails, reports the
      failure. */
  lemma NestedAttemptReports(env: Env, fold: DocPath.KeyFolding, rd: Reading, step: TestStep, s: Session, b: L.Buffers,
                             m: Match, k: LogList)
    requires CountsLogs(env, fold, m, k) && StartsIn(env, rd, step, s, b, m) && CountFails(env, rd, b, m, k)
    ensures var report := RunAttempt(env, Assembling(rd), step, s, b, true).1;
            report.Evaluated? && Failure(env, rd, b, m, k) in report.results
  {
    hide RunBlocks, RunBlock, AllStarts, ExtractStep, Serve, MatchCount, CountPasses, ListIn, KeyOf, Preserves;
    var doc := Document(rd, b, s.vars);
    var starts := AttemptStarts(env, Assembling(rd), step, s, b, true);
    var i :| 0 <= i < |starts| && starts[i].block.match_ == Some(m);
    var begun := State(s.vars, DocumentOf(doc.value, s.vars), [], s.generation);
    DocumentHoldsList(rd, b, s.vars, k);
    ExtractStepPreserves(env, begun, step.extract);
    var st := ExtractStep(env, begun, step.extract).0;
    var blocks := Serve(env, s.cache, st.generation % TWO64, st.vars, step.assertions).1;
    PreservesList(begun, st, k);
    AllStartsAreReported(env, st, blocks);
    ListIsOutside(st.root, starts[i].st.root, k);
    BlockFails(env, fold, rd, b, starts[i].st, starts[i].block, m, k);
    assert Failure(env, rd, b, m, k) in RunBlock(env, starts[i].st, starts[i].block).1;
  }

  lemma ListIsOutside(a: Root, b: Root, k: LogList)
    requires SameOutside(a, b) && KeyOf(k) in a
    ensures Get(b, KeyOf(k)) == Get(a, KeyOf(k))
  {
    assert !IsWritten(KeyOf(k)) by {
      KeysDiffer();
      assert MATCHES[0] == MATCH[0] == 'm' && MATCHES[1] == MATCH[1] == 'a' && "messageLogs"[1] == 'e' && LAST_MATCH[0] == 'l';
    }
  }

  /** A count at any depth that fails and could pass with more matches is retried. */
  lemma NestedCountIsRetried(env: Env, fold: DocPath.KeyFolding, rd: Reading, step: TestStep, s: Session, b: L.Buffers,
                             m: Match, k: LogList)
    requires CountsLogs(env, fold, m, k) && StartsIn(env, rd, step, s, b, m) && CountFails(env, rd, b, m, k)
    requires IsCountRetryable(MatchCount(env, rd, b, m, k), m.count.value)
    ensures !Settled(RunAttempt(env, Assembling(rd), step, s, b, true).1)
  {
    hide RunAttempt, MatchCount, CountPasses, IsCountRetryable, StartsIn;
    NestedAttemptReports(env, fold, rd, step, s, b, m, k);
    var report := RunAttempt(env, Assembling(rd), step, s, b, true).1;
    var i :| 0 <= i < |report.results| && report.results[i] == Failure(env, rd, b, m, k);
    assert MayTurn(report.results[i]) && !report.results[i].passed;
  }

  /** A count at any depth whose failure an attempt settles on fails every attempt, on a buffer that has
      grown since, in which a block with that match, its templates resolved, starts. */
  lemma NestedCountStaysFailed(env: Env, fold: DocPath.KeyFolding, rd: Reading, step: TestStep, s: Session, t: Session,
                               now: L.Buffers, later: L.Buffers, m: Match, k: LogList)
    requires CountsLogs(env, fold, m, k) && StartsIn(env, rd, step, s, now, m) && StartsIn(env, rd, step, t, later, m)
    requires Settled(RunAttempt(env, Assembling(rd), step, s, now, true).1)
    requires CountFails(env, rd, now, m, k) && Extends(now, later)
    ensures var report := RunAttempt(env, Assembling(rd), step, t, later, true).1;
            report.Evaluated? && !AllPassed(report.results) && Failure(env, rd, later, m, k) in report.results
  {
    hide RunAttempt, StartsIn, Embeds, ListIn, Kept, Extends;
    if IsCountRetryable(MatchCount(env, rd, now, m, k), m.count.value) {
      NestedCountIsRetried(env, fold, rd, step, s, now, m, k);
    } else {
      ListsGrow(rd, now, later, k);
      GivenUpCountsNeverRecover(env.ev, m.where_, map[], map[], ListIn(rd, now, k), ListIn(rd, later, k), m.count.value);
      hide CountPasses, IsCountRetryable, MatchCount;
      NestedAttemptReports(env, fold, rd, step, t, later, m, k);
      var report := RunAttempt(env, Assembling(rd), step, t, later, true).1;
      var i :| 0 <= i < |report.results| && report.results[i] == Failure(env, rd, later, m, k);
      assert !report.results[i].passed;
    }
  }

  /** The last attempt of a run, and the session it started from. */
  lemma {:induction false} LastAttempt(env: Env, assemble: Assembly<L.Buffers>, step: TestStep, s: Session,
                                       logs: seq<L.Buffers>) returns (before: Session)
    requires logs != []
    ensures var (last, reports) := Attempts(env, assemble, step, s, logs, true);
            var n := |reports| - 1;
            && before == Attempts(env, assemble, step, s, logs[..n], true).0
            && (last, reports[n]) == RunAttempt(env, assemble, step, before, logs[n], true)
    decreases |logs|
  {
    hide RunAttempt, Settled;
    FirstAttempt(env, assemble, step, s, logs);
    var (next, report) := RunAttempt(env, assemble, step, s, logs[0], true);
    var reports := Attempts(env, assemble, step, s, logs, true).1;
    var n := |reports| - 1;
    if Settled(report) || |logs| == 1 {
      before := s;
      assert n == 0 && logs[..0] == [];
    } else {
      before := LastAttempt(env, assemble, step, next, logs[1..]);
      assert logs[..n][1..] == logs[1..][..n - 1] && logs[..n][0] == logs[0];
    }
  }

  /** Over a whole run of the retry loop: when it stops before the deadline with a count failed, at any
      depth, no attempt after it in which a block with that match starts would have passed. */
  lemma NestedGivenUpForGood(env: Env, fold: DocPath.KeyFolding, rd: Reading, step: TestStep, s: Session,
                             logs: seq<L.Buffers>, later: L.Buffers, m: Match, k: LogList)
    requires CountsLogs(env, fold, m, k) && logs != []
    requires var reports := Attempts(env, Assembling(rd), step, s, logs, true).1;
             var n := |reports| - 1;
             && StartsIn(env, rd, step, Attempts(env, Assembling(rd), step, s, logs[..n], true).0, logs[n], m)
             && Settled(reports[n]) && CountFails(env, rd, logs[n], m, k) && Extends(logs[n], later)
    ensures var last := Attempts(env, Assembling(rd), step, s, logs, true).0;
            var report := RunAttempt(env, Assembling(rd), step, last, later, true).1;
            StartsIn(env, rd, step, last, later, m) ==> report.Evaluated? && !AllPassed(report.results)
  {
    hide RunAttempt, StartsIn, Settled, AllPassed, Extends, CountsLogs, CountFails, Attempts;
    var before := LastAttempt(env, Assembling(rd), step, s, logs);
    var (last, reports) := Attempts(env, Assembling(rd), step, s, logs, true);
    if StartsIn(env, rd, step, last, later, m) {
      NestedCountStaysFailed(env, fold, rd, step, before, last, logs[|reports| - 1], later, m, k);
    }
  }
}
