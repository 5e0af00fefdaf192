/** Why giving up on a failed count is right: on logs that only grow, a count whose failure ends the retry
    loop fails in every later attempt (services/test-agent/step_validator.go, lines 60 to 215). */
module RetrySoundness {
  import opened Options
  import opened Matching
  import opened Variables
  import opened BlockValidator
  import opened BlockCache
  import opened StepRetry
  import opened StepDocument
  import L = LogBuffer
  import DocPath

  /** Attempts assemble their document from the log buffer. */
  function Assembling(rd: Reading): Assembly<L.Buffers> {
    (b: L.Buffers, vars: Vars) => Document(rd, b, vars)
  }

  /** A count over one of the document's log lists, with conditions that ignore places in the timeline. */
  ghost predicate CountsLogs(env: Env, fold: DocPath.KeyFolding, m: Match, k: LogList) {
    && (forall root, path :: env.ev.lookup(root, path) == DocPath.Evaluate(fold, Object(root), path, None))
    && m.path == PathOf(k) && m.count.Some? && AllIgnoreIndices(env.ev, m.where_)
  }

  /** The match holds no template to resolve. */
  ghost predicate IsPlain(env: Env, m: Match) {
    forall vars :: ResolveMatch(env, Some(m), vars) == Some(m)
  }

  /** How many entries of the list match. */
  function MatchCount(env: Env, rd: Reading, b: L.Buffers, m: Match, k: LogList): nat {
    |Kept(env.ev, m.where_, map[], ListIn(rd, b, k))|
  }

  function Failure(env: Env, rd: Reading, b: L.Buffers, m: Match, k: LogList): Result
    requires m.count.Some?
  {
    Result(false, CountChecked(MatchCount(env, rd, b, m, k), m.count.value))
  }

  ghost predicate CountFails(env: Env, rd: Reading, b: L.Buffers, m: Match, k: LogList)
    requires m.count.Some?
  {
    !CountPasses(MatchCount(env, rd, b, m, k), m.count.value)
  }

  // ---------- the block ----------

  lemma SameCountAnywhere(ev: Evaluator, ws: seq<Where>, r1: Root, r2: Root, arr: seq<Value>)
    requires AllIgnoreIndices(ev, ws)
    ensures |Kept(ev, ws, r1, arr)| == |Kept(ev, ws, r2, arr)|
  {
    hide Kept, Embeds;
    PointwiseEmbeds(arr, arr);
    KeptGrows(ev, ws, r1, r2, arr, arr);
    KeptGrows(ev, ws, r2, r1, arr, arr);
  }

  /** Wherever a block with the match runs, as long as the document holds the list, it counts the same. */
  lemma BlockFails(env: Env, fold: DocPath.KeyFolding, rd: Reading, b: L.Buffers, st: State, block: Block, m: Match,
                   k: LogList)
    requires CountsLogs(env, fold, m, k) && block.match_ == Some(m)
    requires Get(st.root, KeyOf(k)) == Some(List(ListIn(rd, b, k)))
    requires CountFails(env, rd, b, m, k)
    ensures RunBlock(env, st, block).1 == [Failure(env, rd, b, m, k)]
  {
    hide ListIn, KeyOf, PathOf, DocPath.Evaluate, Kept, RunBlock, CountPasses;
    ListIsFound(fold, st.root, k);
    var arr := ListIn(rd, b, k);
    assert Source(env.ev, m, st.root) == Some(arr);
    SameCountAnywhere(env.ev, m.where_, map[], st.root, arr);
    FailedCountEndsTheBlock(env, st, block);
  }

  /** Each block of a list runs in a state that keeps the document, and its results are reported. */
  lemma {:induction false} BlockOfList(env: Env, st: State, bs: seq<Block>, j: nat) returns (at: State)
    requires j < |bs|
    ensures Preserves(st, at) && forall r :: r in RunBlock(env, at, bs[j]).1 ==> r in RunBlocks(env, st, bs).1
    decreases |bs|
  {
    hide RunBlock, Rest, InSync;
    if j == 0 {
      at := st;
    } else {
      BlockPreserves(env, st, bs[0]);
      at := BlockOfList(env, RunBlock(env, st, bs[0]).0, bs[1..], j - 1);
    }
  }

  // ---------- the attempt ----------

  lemma {:induction false} ResolvedAt(env: Env, bs: seq<Block>, vars: Vars, j: nat)
    requires j < |bs|
    ensures ResolveBlocks(env, bs, vars)[j] == ResolveBlock(env, bs[j], vars)
  {
    hide ResolveBlock;
    if j > 0 {
      ResolvedAt(env, bs[1..], vars, j - 1);
    }
  }

  /** A filled cache holds the step's blocks, block `j` with its match. */
  predicate HoldsMatch(cache: Cache, step: TestStep, j: nat, m: Match) {
    cache.Holding? ==> |cache.blocks| == |step.assertions| && j < |cache.blocks| && cache.blocks[j].match_ == Some(m)
  }

  lemma ServesMatch(env: Env, cache: Cache, generation: nat, vars: Vars, step: TestStep, j: nat, m: Match)
    requires j < |step.assertions| && step.assertions[j].match_ == Some(m) && HoldsMatch(cache, step, j, m)
    requires ResolveMatch(env, Some(m), vars) == Some(m)
    ensures var (next, blocks) := Serve(env, cache, generation, vars, step.assertions);
            HoldsMatch(next, step, j, m) && |blocks| == |step.assertions| && blocks[j].match_ == Some(m)
  {
    hide ResolveMatch, ResolveBlocks;
    ResolvedAt(env, step.assertions, vars, j);
  }

  /** An attempt over logs on which the count fails reports the failure, or nothing yet. */
  lemma AttemptReports(env: Env, fold: DocPath.KeyFolding, rd: Reading, step: TestStep, s: Session, b: L.Buffers,
                       cached: bool, j: nat, m: Match, k: LogList)
    requires CountsLogs(env, fold, m, k) && IsPlain(env, m) && j < |step.assertions| && step.assertions[j].match_ == Some(m)
    requires HoldsMatch(s.cache, step, j, m)
    ensures var (next, report) := RunAttempt(env, Assembling(rd), step, s, b, cached);
            && HoldsMatch(next.cache, step, j, m)
            && (report.Evaluated? && CountFails(env, rd, b, m, k) ==> Failure(env, rd, b, m, k) in report.results)
  {
    hide RunBlocks, RunBlock, ExtractStep, Serve, HoldsMatch, MatchCount, CountPasses, ListIn, KeyOf, Preserves;
    var doc := Document(rd, b, s.vars);
    if doc.Some? {
      var begun := State(s.vars, DocumentOf(doc.value, s.vars), [], s.generation);
      DocumentHoldsList(rd, b, s.vars, k);
      ExtractStepPreserves(env, begun, step.extract);
      var st := ExtractStep(env, begun, step.extract).0;
      var source := if cached then s.cache else Empty;
      assert HoldsMatch(source, step, j, m) by { EmptyHolds(step, j, m); }
      ServesMatch(env, source, st.generation % TWO64, st.vars, step, j, m);
      var blocks := Serve(env, source, st.generation % TWO64, st.vars, step.assertions).1;
      var at := BlockOfList(env, st, blocks, j);
      PreservesList(begun, st, k);
      PreservesList(st, at, k);
      if CountFails(env, rd, b, m, k) {
        BlockFails(env, fold, rd, b, at, blocks[j], m, k);
      }
    }
  }

  lemma EmptyHolds(step: TestStep, j: nat, m: Match)
    ensures HoldsMatch(Empty, step, j, m)
  {
  }

  lemma DocumentHoldsList(rd: Reading, b: L.Buffers, vars: Vars, k: LogList)
    requires Document(rd, b, vars).Some?
    ensures Get(DocumentOf(Document(rd, b, vars).value, vars), KeyOf(k)) == Some(List(ListIn(rd, b, k)))
  {
    hide ListIn;
    KeysDiffer();
  }

  lemma KeysDiffer()
    ensures VARIABLES[0] == 'v' && "traffic"[0] == 't' && "timeline"[0] == 't' && "traffic"[1] != "timeline"[1]
    ensures "consoleLogs"[0] == 'c' && "dbLogs"[0] == 'd' && "messageLogs"[0] == 'm'
  {
  }

  lemma PreservesList(before: State, after: State, k: LogList)
    requires Preserves(before, after)
    ensures Get(after.root, KeyOf(k)) == Get(before.root, KeyOf(k))
  {
    KeysDiffer();
    assert KeyOf(k) != VARIABLES;
    assert Get(Rest(after.root), KeyOf(k)) == Get(Rest(before.root), KeyOf(k));
  }

  // ---------- giving up, and not giving up ----------

  /** A count that fails and could pass with more matches is retried. */
  lemma RetryableCountIsRetried(env: Env, fold: DocPath.KeyFolding, rd: Reading, step: TestStep, s: Session, b: L.Buffers,
                                cached: bool, j: nat, m: Match, k: LogList)
    requires CountsLogs(env, fold, m, k) && IsPlain(env, m) && j < |step.assertions| && step.assertions[j].match_ == Some(m)
    requires HoldsMatch(s.cache, step, j, m)
    requires CountFails(env, rd, b, m, k) && IsCountRetryable(MatchCount(env, rd, b, m, k), m.count.value)
    ensures !Settled(RunAttempt(env, Assembling(rd), step, s, b, cached).1)
  {
    hide RunAttempt, MatchCount, CountPasses, IsCountRetryable, HoldsMatch;
    AttemptReports(env, fold, rd, step, s, b, cached, j, m, k);
    var report := RunAttempt(env, Assembling(rd), step, s, b, cached).1;
    if report.Evaluated? {
      var i :| 0 <= i < |report.results| && report.results[i] == Failure(env, rd, b, m, k);
      assert MayTurn(report.results[i]) && !report.results[i].passed;
    }
  }

  /** A count whose failure an attempt settles on fails in every attempt on a buffer that has grown since. */
  lemma SettledCountStaysFailed(env: Env, fold: DocPath.KeyFolding, rd: Reading, step: TestStep, s: Session, t: Session,
                                now: L.Buffers, later: L.Buffers, j: nat, m: Match, k: LogList)
    requires CountsLogs(env, fold, m, k) && IsPlain(env, m) && j < |step.assertions| && step.assertions[j].match_ == Some(m)
    requires HoldsMatch(s.cache, step, j, m) && HoldsMatch(t.cache, step, j, m)
    requires var report := RunAttempt(env, Assembling(rd), step, s, now, true).1; report.Evaluated? && Settled(report)
    requires CountFails(env, rd, now, m, k) && Extends(now, later)
    ensures var report := RunAttempt(env, Assembling(rd), step, t, later, true).1;
            report.Pending? || (!AllPassed(report.results) && Failure(env, rd, later, m, k) in report.results)
  {
    hide RunAttempt, HoldsMatch, Embeds, ListIn, Kept, Extends;
    if IsCountRetryable(MatchCount(env, rd, now, m, k), m.count.value) {
      RetryableCountIsRetried(env, fold, rd, step, s, now, true, j, m, k);
    } else {
      ListsGrow(rd, now, later, k);
      GivenUpCountsNeverRecover(env.ev, m.where_, map[], map[], ListIn(rd, now, k), ListIn(rd, later, k), m.count.value);
      hide CountPasses, IsCountRetryable, MatchCount;
      AttemptReports(env, fold, rd, step, t, later, true, j, m, k);
      var report := RunAttempt(env, Assembling(rd), step, t, later, true).1;
      if report.Evaluated? {
        var i :| 0 <= i < |report.results| && report.results[i] == Failure(env, rd, later, m, k);
        assert !report.results[i].passed;
      }
    }
  }

  lemma FirstAttempt(env: Env, assemble: Assembly<L.Buffers>, step: TestStep, s: Session, logs: seq<L.Buffers>)
    requires logs != []
    ensures var (next, report) := RunAttempt(env, assemble, step, s, logs[0], true);
            var (last, reports) := Attempts(env, assemble, step, s, logs, true);
            if Settled(report) then (last, reports) == (next, [report])
            else
              var (end, more) := Attempts(env, assemble, step, next, logs[1..], true);
              && last == end && reports == [report] + more
              && |more| <= |logs| - 1 && (logs[1..] == [] ==> more == [])
  {
    hide RunAttempt, Settled;
  }

  /** Over a whole run of the retry loop: when it stops before the deadline and a count has failed, no
      attempt after it, on whatever more has arrived, would have passed. */
  lemma {:induction false} GivenUpForGood(env: Env, fold: DocPath.KeyFolding, rd: Reading, step: TestStep, s: Session,
                                          logs: seq<L.Buffers>, later: L.Buffers, j: nat, m: Match, k: LogList)
    requires CountsLogs(env, fold, m, k) && IsPlain(env, m) && j < |step.assertions| && step.assertions[j].match_ == Some(m)
    requires HoldsMatch(s.cache, step, j, m) && logs != []
    requires var reports := Attempts(env, Assembling(rd), step, s, logs, true).1;
             var n := |reports| - 1;
             && reports[n].Evaluated? && Settled(reports[n])
             && CountFails(env, rd, logs[n], m, k) && Extends(logs[n], later)
    ensures var last := Attempts(env, Assembling(rd), step, s, logs, true).0;
            var report := RunAttempt(env, Assembling(rd), step, last, later, true).1;
            report.Pending? || !AllPassed(report.results)
    decreases |logs|
  {
    hide RunAttempt, HoldsMatch, Settled, AllPassed, Extends, CountsLogs, CountFails, Attempts;
    AttemptReports(env, fold, rd, step, s, logs[0], true, j, m, k);
    FirstAttempt(env, Assembling(rd), step, s, logs);
    var (next, report) := RunAttempt(env, Assembling(rd), step, s, logs[0], true);
    if Settled(report) {
      SettledCountStaysFailed(env, fold, rd, step, s, next, logs[0], later, j, m, k);
    } else {
      GivenUpForGood(env, fold, rd, step, next, logs[1..], later, j, m, k);
    }
  }
}
