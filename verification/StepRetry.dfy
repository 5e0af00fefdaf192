/** One step's validation attempts: extraction, the cached blocks, and the retry loop over logs that
    are still arriving (services/test-agent/step_validator.go, lines 60 to 215). */
module StepRetry {
  import opened Options
  import opened Matching
  import opened BlockValidator
  import opened BlockCache
  import opened Variables

  datatype TestStep = TestStep(extract: seq<(string, Rule)>, assertions: seq<Block>)

  /** The document of a step, built from the logs so far and the variables; None while the action's
      own log has not arrived. */
  type Assembly<!L> = (L, Vars) -> Option<Root>

  /** What an attempt reports: nothing yet, or the results of the step. */
  datatype Report = Pending | Evaluated(results: seq<Result>)

  /** The variable context, the number of its updates, and the block cache. */
  datatype Session = Session(vars: Vars, generation: nat, cache: Cache)

  // ---------- one attempt ----------

  function DocumentOf(root: Root, vars: Vars): Root { root[VARIABLES := Object(vars)] }

  /** The step's own extraction: keys are taken as they stand. */
  function ExtractStep(env: Env, st: State, rules: seq<(string, Rule)>): (State, seq<Result>)
    decreases |rules|
  {
    if rules == [] then (st, [])
    else
      var (next, r) := ExtractKey(env, st, rules[0].0, rules[0].1);
      var (last, rs) := ExtractStep(env, next, rules[1..]);
      (last, [r] + rs)
  }

  /** An attempt over an assembled document. With `cached` unset every attempt resolves its blocks
      afresh; the source runs with it set. */
  function AttemptOn(env: Env, step: TestStep, s: Session, root: Root, cached: bool): (Session, seq<Result>) {
    var (st, rs) := ExtractStep(env, State(s.vars, DocumentOf(root, s.vars), [], s.generation), step.extract);
    if step.assertions == [] then (Session(st.vars, st.generation, s.cache), rs)
    else
      var (cache, blocks) :=
        Serve(env, if cached then s.cache else Empty, st.generation % TWO64, st.vars, step.assertions);
      var (last, more) := RunBlocks(env, st, blocks);
      (Session(last.vars, last.generation, cache), rs + more)
  }

  function RunAttempt<L>(env: Env, assemble: Assembly<L>, step: TestStep, s: Session, logs: L, cached: bool):
    (Session, Report)
  {
    match assemble(logs, s.vars)
    case None => (s, Pending)
    case Some(root) =>
      var (next, results) := AttemptOn(env, step, s, root, cached);
      (next, Evaluated(results))
  }

  // ---------- the retry loop ----------

  predicate AllPassed(results: seq<Result>) {
    forall i | 0 <= i < |results| :: results[i].passed
  }

  /** A failure that logs still to come could turn. */
  predicate MayTurn(r: Result) {
    !r.passed &&
    match r.verdict
    case Extracted(_, notFound) => notFound
    case CountChecked(actual, count) => IsCountRetryable(actual, count)
    case _ => false
  }

  predicate IsRetryable(report: Report) {
    report.Pending? || exists i | 0 <= i < |report.results| :: MayTurn(report.results[i])
  }

  /** Passed, or failed in a way no retry is tried for. */
  predicate Settled(report: Report) {
    (report.Evaluated? && AllPassed(report.results)) || !IsRetryable(report)
  }

  /** The attempts over logs[..], one after the other, up to and including the first settled one. */
  function Attempts<L>(env: Env, assemble: Assembly<L>, step: TestStep, s: Session, logs: seq<L>, cached: bool):
    (r: (Session, seq<Report>))
    ensures |r.1| <= |logs| && (logs != [] ==> r.1 != [])
    decreases |logs|
  {
    if logs == [] then (s, [])
    else
      var (next, report) := RunAttempt(env, assemble, step, s, logs[0], cached);
      if Settled(report) then (next, [report])
      else
        var (last, reports) := Attempts(env, assemble, step, next, logs[1..], cached);
        (last, [report] + reports)
  }

  class StepValidator<!L> {
    const env: Env
    const assemble: Assembly<L>
    const ctx: VariableContext
    const blocks: StepBlocks

    ghost predicate Valid()
      reads ctx
    {
      ctx.Valid() && blocks.env == env && blocks.ctx == ctx
    }

    ghost function View(): Session
      reads ctx, blocks
    {
      Session(ctx.variables, ctx.updates, blocks.cache)
    }

    constructor (env: Env, assemble: Assembly<L>, ctx: VariableContext)
      requires ctx.Valid()
      ensures Valid() && fresh(blocks) && this.env == env && this.assemble == assemble && this.ctx == ctx
      ensures View() == Session(ctx.variables, ctx.updates, Empty)
    {
      this.env, this.assemble, this.ctx := env, assemble, ctx;
      blocks := new StepBlocks(env, ctx);
    }

    method ValidateStep(step: TestStep, logs: L) returns (report: Report)
      requires Valid()
      modifies ctx, blocks
      ensures Valid() && (View(), report) == RunAttempt(env, assemble, step, old(View()), logs, true)
    {
      hide RunBlocks, ExtractStep, Serve;
      var root := assemble(logs, ctx.variables);
      if root == None {
        return Pending;
      }
      var validator := new Validator(env, ctx, DocumentOf(root.value, ctx.variables));
      var results := ExtractInto(validator, step.extract);
      if step.assertions != [] {
        var resolved := blocks.ResolvedBlocks(step.assertions);
        var more := validator.ValidateBlocks(resolved);
        results := results + more;
      }
      return Evaluated(results);
    }

    method ExtractInto(validator: Validator, rules: seq<(string, Rule)>) returns (results: seq<Result>)
      requires validator.env == env && validator.ctx == ctx && Valid()
      modifies validator, ctx
      ensures Valid() && (validator.View(), results) == ExtractStep(env, old(validator.View()), rules)
    {
      hide ExtractKey;
      results := [];
      for i := 0 to |rules|
        invariant Valid()
        invariant ExtractStep(env, validator.View(), rules[i..]).0 == ExtractStep(env, old(validator.View()), rules).0
        invariant results + ExtractStep(env, validator.View(), rules[i..]).1
               == ExtractStep(env, old(validator.View()), rules).1
      {
        assert rules[i..][1..] == rules[i + 1..];
        var r := validator.ExtractRule(rules[i].0, rules[i].1);
        results := results + [r];
      }
      assert results + [] == results;
    }

    /** `logs` are the snapshots the attempts find: one at once, the others until the deadline. */
    method ValidateStepWithRetry(step: TestStep, logs: seq<L>) returns (report: Report)
      requires Valid() && logs != []
      modifies ctx, blocks
      ensures Valid()
      ensures var (last, reports) := Attempts(env, assemble, step, old(View()).(cache := Empty), logs, true);
              View() == last && report == reports[|reports| - 1]
    {
      hide RunAttempt, Settled;
      blocks.StartStep();
      ghost var start := View();
      report := ValidateStep(step, logs[0]);
      ghost var done := [report];
      var i := 1;
      while i < |logs| && !Settled(report)
        invariant Valid()
        invariant 1 <= i <= |logs| && done != [] && report == done[|done| - 1]
        invariant var (last, reports) := Attempts(env, assemble, step, start, logs, true);
                  if Settled(report) then (last, reports) == (View(), done)
                  else
                    var (end, more) := Attempts(env, assemble, step, View(), logs[i..], true);
                    last == end && reports == done + more
        decreases |logs| - i
      {
        assert logs[i..][1..] == logs[i + 1..];
        report := ValidateStep(step, logs[i]);
        done := done + [report];
        i := i + 1;
      }
    }
  }

  // ---------- what the loop promises ----------

  /** Count results say what the count says. */
  predicate Honest(rs: seq<Result>) {
    forall i | 0 <= i < |rs| ::
      rs[i].verdict.CountChecked? ==> rs[i].passed == CountPasses(rs[i].verdict.actual, rs[i].verdict.count)
  }

  lemma HonestConcat(a: seq<Result>, b: seq<Result>)
    requires Honest(a) && Honest(b)
    ensures Honest(a + b)
  {
  }

  lemma {:induction false} HonestExtracts(env: Env, st: State, rules: seq<(string, Rule)>)
    ensures Honest(ExtractAll(env, st, rules).1) && Honest(ExtractStep(env, st, rules).1)
    decreases |rules|
  {
    hide SetBoth, CountPasses;
    if rules != [] {
      HonestExtracts(env, ExtractOne(env, st, rules[0]).0, rules[1..]);
      match env.extract(rules[0].0, rules[0].1, st.root)
      case Fails(_) => HonestExtracts(env, st, rules[1..]);
      case Found(v) => HonestExtracts(env, SetBoth(st, rules[0].0, v), rules[1..]);
    }
  }

  lemma {:induction false} HonestAssertions(env: Env, assertions: seq<Assertion>, empty: bool, root: Root)
    ensures Honest(UnmatchedResults(assertions)) && Honest(AssertionResults(env, assertions, empty, root))
  {
    hide MentionsMatch, CountPasses;
    if assertions != [] {
      HonestAssertions(env, assertions[1..], empty, root);
    }
  }

  lemma HonestTail(env: Env, st: State, b: Block)
    ensures Honest(Tail(env, st, b).1)
  {
    hide Honest, ExtractAll, UnmatchedResults, AssertionResults;
    var empty := IsEmptyMatch(b, st.root);
    HonestAssertions(env, b.assertions, empty, st.root);
    HonestExtracts(env, st, b.extract);
    var unmatched := if empty then UnmatchedResults(b.assertions) else [];
    assert Honest([]) by { HonestNothing(); }
    HonestConcat(unmatched, AssertionResults(env, b.assertions, empty, st.root));
    HonestConcat(unmatched + AssertionResults(env, b.assertions, empty, st.root), ExtractAll(env, st, b.extract).1);
  }

  lemma HonestNothing()
    ensures Honest([])
  {
  }

  lemma {:induction false} HonestBlock(env: Env, st: State, b: Block)
    ensures Honest(RunBlock(env, st, b).1)
    decreases Size(b), 3
  {
    hide Tail, RunLoop, Push, Pop, SetBoth, CountPasses, Matches;
    if b.match_ == None {
      HonestLoop(env, st, b);
      HonestTail(env, RunLoop(env, st, b).0, b);
    } else {
      var m := b.match_.value;
      var ms := Matches(env.ev, m, st.root);
      if ms.Some? {
        var pushed := Push(st, ms.value);
        var named := if m.as_ == "" then pushed else SetBoth(pushed, m.as_, List(ms.value));
        HonestLoop(env, named, b);
        HonestTail(env, RunLoop(env, named, b).0, b);
      }
    }
  }

  lemma {:induction false} HonestLoop(env: Env, st: State, b: Block)
    ensures Honest(RunLoop(env, st, b).1)
    decreases Size(b), 2
  {
    hide RunIterations, CountPasses;
    if b.loop.Some? {
      var items := ItemsOf(env, st.vars, st.root, b.loop.value.kind);
      if items.Some? {
        HonestIterations(env, st, b.loop.value, items.value, 0);
      }
    }
  }

  lemma {:induction false} HonestIterations(env: Env, st: State, l: Loop, items: seq<Value>, i: nat)
    requires i <= |items|
    ensures Honest(RunIterations(env, st, l, items, i).1)
    decreases LoopSize(l), 1, |items| - i
  {
    hide RunBlock, RunBlocks, Bind, StopsAfter, CountPasses, Honest;
    if i == |items| {
      HonestNothing();
    } else {
      var bound := Bind(st, l, items[i], LoopObject(l.kind, items, i));
      if l.blocks != [] {
        HonestBlocks(env, bound, ResolveBlocks(env, l.blocks, bound.vars));
      } else {
        HonestBlock(env, bound, ResolveBlock(env, l.flat, bound.vars));
      }
      var (after, rs) := RunBody(env, bound, l);
      HonestIterations(env, after, l, items, i + 1);
      HonestConcat(rs, RunIterations(env, after, l, items, i + 1).1);
    }
  }

  lemma {:induction false} HonestBlocks(env: Env, st: State, bs: seq<Block>)
    ensures Honest(RunBlocks(env, st, bs).1)
    decreases BlocksSize(bs), 4, |bs|
  {
    hide RunBlock, Honest;
    if bs == [] {
      HonestNothing();
    } else {
      var (next, rs) := RunBlock(env, st, bs[0]);
      HonestBlock(env, st, bs[0]);
      HonestBlocks(env, next, bs[1..]);
      HonestConcat(rs, RunBlocks(env, next, bs[1..]).1);
    }
  }

  lemma HonestAttempt(env: Env, step: TestStep, s: Session, root: Root, cached: bool)
    ensures Honest(AttemptOn(env, step, s, root, cached).1)
  {
    hide Honest, ExtractStep, RunBlocks, Serve;
    var begun := State(s.vars, DocumentOf(root, s.vars), [], s.generation);
    HonestExtracts(env, begun, step.extract);
    var (st, rs) := ExtractStep(env, begun, step.extract);
    if step.assertions != [] {
      var (_, blocks) := Serve(env, if cached then s.cache else Empty, st.generation % TWO64, st.vars, step.assertions);
      HonestBlocks(env, st, blocks);
      HonestConcat(rs, RunBlocks(env, st, blocks).1);
    }
  }

  /** A failed report that ends the loop before the deadline is final: none of its failed counts would
      pass with more matches, and none of its extractions failed for want of a value. */
  lemma SettledFailuresAreFinal<L>(env: Env, assemble: Assembly<L>, step: TestStep, s: Session, logs: L, i: nat, n: int)
    requires var report := RunAttempt(env, assemble, step, s, logs, true).1;
             Settled(report) && report.Evaluated? && i < |report.results| && !report.results[i].passed
    ensures match RunAttempt(env, assemble, step, s, logs, true).1.results[i].verdict
            case CountChecked(actual, count) => n >= actual ==> !CountPasses(n, count)
            case Extracted(_, notFound) => !notFound
            case _ => true
  {
    hide AttemptOn, CountPasses, IsCountRetryable;
    var report := RunAttempt(env, assemble, step, s, logs, true).1;
    HonestAttempt(env, step, s, assemble(logs, s.vars).value, true);
    assert !MayTurn(report.results[i]);
    match report.results[i].verdict
    case CountChecked(actual, count) => RetriedIffALargerCountPasses(actual, count);
    case _ =>
  }

  /** Only the last report may be settled: every earlier one was worth a retry. */
  lemma {:induction false} EveryRetryHadAReason<L>(env: Env, assemble: Assembly<L>, step: TestStep, s: Session,
                                                   logs: seq<L>, cached: bool, i: nat)
    requires i < |Attempts(env, assemble, step, s, logs, cached).1|
    ensures var reports := Attempts(env, assemble, step, s, logs, cached).1;
            && (i < |reports| - 1 ==> !Settled(reports[i]))
            && (i == |reports| - 1 ==> Settled(reports[i]) || |reports| == |logs|)
    decreases |logs|
  {
    hide RunAttempt, Settled;
    var (next, report) := RunAttempt(env, assemble, step, s, logs[0], cached);
    if i > 0 {
      EveryRetryHadAReason(env, assemble, step, next, logs[1..], cached, i - 1);
    } else if !Settled(report) && logs[1..] != [] {
      assert Attempts(env, assemble, step, next, logs[1..], cached).1 != [];
    }
  }

  // ---------- the cache changes nothing ----------

  /** The cache is empty, or was filled when the generation was `filledAt`; if that is still the
      generation, it holds what the blocks resolve to now. */
  ghost predicate Faithful(env: Env, step: TestStep, s: Session, filledAt: nat) {
    s.cache.Holding? ==>
      && filledAt <= s.generation && s.cache.generation == filledAt % TWO64
      && (filledAt == s.generation ==> s.cache.blocks == ResolveBlocks(env, step.assertions, s.vars))
  }

  lemma {:induction false} ExtractStepPreserves(env: Env, st: State, rules: seq<(string, Rule)>)
    ensures Preserves(st, ExtractStep(env, st, rules).0)
    decreases |rules|
  {
    hide SetBoth;
    if rules != [] {
      var (key, rule) := rules[0];
      match env.extract(key, rule, st.root)
      case Fails(_) => ExtractStepPreserves(env, st, rules[1..]);
      case Found(v) =>
        SetBothPreserves(st, key, v);
        ExtractStepPreserves(env, SetBoth(st, key, v), rules[1..]);
    }
  }

  lemma SameResidueSameGeneration(filledAt: nat, generation: nat)
    requires filledAt <= generation < filledAt + TWO64 && filledAt % TWO64 == generation % TWO64
    ensures filledAt == generation
  {
  }

  /** The sessions of a cached and an uncached run, apart from the cache. */
  predicate Same(a: Session, b: Session) { a.vars == b.vars && a.generation == b.generation }

  lemma AttemptIsFresh(env: Env, step: TestStep, s: Session, t: Session, root: Root, filledAt: nat, bound: nat)
    returns (filled: nat)
    requires Same(s, t) && Faithful(env, step, s, filledAt) && bound <= filledAt && bound <= s.generation
    requires AttemptOn(env, step, t, root, false).0.generation < bound + TWO64
    ensures var (s', rs) := AttemptOn(env, step, s, root, true);
            var (t', ts) := AttemptOn(env, step, t, root, false);
            && rs == ts && Same(s', t') && s.generation <= s'.generation
            && Faithful(env, step, s', filled) && bound <= filled
  {
    hide RunBlocks, ResolveBlocks, ExtractStep, Preserves;
    var begun := State(s.vars, DocumentOf(root, s.vars), [], s.generation);
    ExtractStepPreserves(env, begun, step.extract);
    var st := ExtractStep(env, begun, step.extract).0;
    PreservesMoves(begun, st);
    filled := filledAt;
    if step.assertions != [] {
      var fresh_ := ResolveBlocks(env, step.assertions, st.vars);
      SameGenerationSameVariables(env, st, fresh_);
      if s.cache.Holding? && s.cache.generation == st.generation % TWO64 {
        SameResidueSameGeneration(filledAt, st.generation);
      } else {
        filled := st.generation;
      }
    }
  }

  lemma PreservesMoves(before: State, after: State)
    requires Preserves(before, after)
    ensures before.generation <= after.generation
    ensures before.generation == after.generation ==> before.vars == after.vars
  {
  }

  lemma {:induction false} GenerationsGrow<L>(env: Env, assemble: Assembly<L>, step: TestStep, t: Session, logs: seq<L>)
    ensures t.generation <= Attempts(env, assemble, step, t, logs, false).0.generation
    decreases |logs|
  {
    hide AttemptOn, Settled;
    if logs != [] {
      var root := assemble(logs[0], t.vars);
      if root.Some? {
        AttemptMoves(env, step, t, root.value);
      }
      GenerationsGrow(env, assemble, step, RunAttempt(env, assemble, step, t, logs[0], false).0, logs[1..]);
    }
  }

  lemma AttemptMoves(env: Env, step: TestStep, t: Session, root: Root)
    ensures t.generation <= AttemptOn(env, step, t, root, false).0.generation
  {
    hide RunBlocks, ResolveBlocks, ExtractStep, Preserves;
    var begun := State(t.vars, DocumentOf(root, t.vars), [], t.generation);
    ExtractStepPreserves(env, begun, step.extract);
    var st := ExtractStep(env, begun, step.extract).0;
    PreservesMoves(begun, st);
    SameGenerationSameVariables(env, st, ResolveBlocks(env, step.assertions, st.vars));
  }

  lemma {:induction false} AttemptsAreFresh<L>(env: Env, assemble: Assembly<L>, step: TestStep, s: Session, t: Session,
                                               logs: seq<L>, filledAt: nat, bound: nat)
    requires Same(s, t) && Faithful(env, step, s, filledAt) && bound <= filledAt && bound <= s.generation
    requires Attempts(env, assemble, step, t, logs, false).0.generation < bound + TWO64
    ensures Attempts(env, assemble, step, s, logs, true).1 == Attempts(env, assemble, step, t, logs, false).1
    ensures Same(Attempts(env, assemble, step, s, logs, true).0, Attempts(env, assemble, step, t, logs, false).0)
    decreases |logs|
  {
    hide AttemptOn, Settled, Faithful;
    if logs != [] {
      var root := assemble(logs[0], s.vars);
      var (s', report) := RunAttempt(env, assemble, step, s, logs[0], true);
      var (t', _) := RunAttempt(env, assemble, step, t, logs[0], false);
      var filled := filledAt;
      GenerationsGrow(env, assemble, step, t', logs[1..]);
      if root.Some? {
        filled := AttemptIsFresh(env, step, s, t, root.value, filledAt, bound);
      }
      if !Settled(report) {
        AttemptsAreFresh(env, assemble, step, s', t', logs[1..], filled, bound);
      }
    }
  }

  /** Validating a step with the block cache and retries gives, report by report, what it would give
      resolving the blocks afresh at every attempt, and leaves the same variables: whatever the
      attempts extract, bind and delete, as long as they make fewer than 2^64 updates. */
  lemma CachedValidationIsFresh<L>(env: Env, assemble: Assembly<L>, step: TestStep, vars: Vars, generation: nat,
                                   logs: seq<L>)
    requires var start := Session(vars, generation, Empty);
             Attempts(env, assemble, step, start, logs, false).0.generation < generation + TWO64
    ensures var start := Session(vars, generation, Empty);
            var (cachedEnd, cachedReports) := Attempts(env, assemble, step, start, logs, true);
            var (freshEnd, freshReports) := Attempts(env, assemble, step, start, logs, false);
            && cachedReports == freshReports
            && cachedEnd.vars == freshEnd.vars && cachedEnd.generation == freshEnd.generation
  {
    hide Attempts;
    var start := Session(vars, generation, Empty);
    AttemptsAreFresh(env, assemble, step, start, start, logs, generation, generation);
  }
}
