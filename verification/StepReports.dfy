/** What an attempt at a step reports: the step's own extraction, rule by rule, and then its blocks on the
    document that holds what was extracted (services/test-agent/step_validator.go, lines 137 to 215). */
module StepReports {
  import opened Options
  import opened Matching
  import opened Variables
  import opened BlockValidator
  import opened BlockCache
  import opened StepRetry
  import opened Extractions
  import opened BlockVerdicts

  /** The variables after the first `j` of the step's rules, over the attempt's document. */
  function FoundBefore(env: Env, root: Root, step: TestStep, vars: Vars, j: nat): Vars
    requires j <= |step.extract|
  {
    VarsAfter(env, AsTheyStand(), root, vars, step.extract[..j])
  }

  /** The j-th rule finds a value, in the document that holds the values found before it. */
  predicate RuleFinds(env: Env, root: Root, step: TestStep, vars: Vars, j: nat)
    requires j < |step.extract|
  {
    var now := FoundBefore(env, root, step, vars, j);
    env.extract(step.extract[j].0, step.extract[j].1, Seen(root, now)).Found?
  }

  /** It finds none, because nothing is there yet. */
  predicate RuleMisses(env: Env, root: Root, step: TestStep, vars: Vars, j: nat)
    requires j < |step.extract|
  {
    var now := FoundBefore(env, root, step, vars, j);
    env.extract(step.extract[j].0, step.extract[j].1, Seen(root, now)) == Fails(true)
  }

  /** The state the blocks start in: every value found is in the variables and in the document. */
  ghost predicate BlocksStartIn(env: Env, root: Root, step: TestStep, vars: Vars, st: State) {
    && st.vars == FoundBefore(env, root, step, vars, |step.extract|)
    && st.root == Seen(root, st.vars) && st.stack == []
  }

  /** An evaluated report is one result per rule of the step, in order, under the rule's own key, and then
      the results of the blocks. */
  ghost predicate IsReport(env: Env, root: Root, step: TestStep, vars: Vars, st: State, blocks: seq<Block>, rs: seq<Result>) {
    var n := |step.extract|;
    && BlocksStartIn(env, root, step, vars, st)
    && |rs| >= n
    && (forall j :: 0 <= j < n ==>
          && rs[j].verdict.Extracted? && rs[j].verdict.key == step.extract[j].0
          && (rs[j].passed <==> RuleFinds(env, root, step, vars, j))
          && (rs[j].verdict.notFound <==> RuleMisses(env, root, step, vars, j)))
    && rs[n..] == RunBlocks(env, st, blocks).1
  }

  lemma RuleIsReported(env: Env, root: Root, step: TestStep, vars: Vars, j: nat, r: Result)
    requires j < |step.extract| && Reports(env, AsTheyStand(), Seen(root, vars), vars, step.extract, j, r)
    ensures r.verdict.Extracted? && r.verdict.key == step.extract[j].0
    ensures r.passed <==> RuleFinds(env, root, step, vars, j)
    ensures r.verdict.notFound <==> RuleMisses(env, root, step, vars, j)
  {
    SeenAgain(env, AsTheyStand(), root, vars, vars, step.extract[..j]);
  }

  /** Every attempt over an assembled document gives such a report, with the step's blocks as the cache
      serves them, none for a step without any. */
  lemma AttemptIsReport<LogsT>(env: Env, assemble: Assembly<LogsT>, step: TestStep, s: Session, logs: LogsT, cached: bool)
    returns (st: State, blocks: seq<Block>)
    requires assemble(logs, s.vars).Some?
    ensures var report := RunAttempt(env, assemble, step, s, logs, cached).1;
            && report.Evaluated?
            && IsReport(env, assemble(logs, s.vars).value, step, s.vars, st, blocks, report.results)
    ensures blocks == if step.assertions == [] then []
                      else Serve(env, if cached then s.cache else Empty, st.generation % TWO64, st.vars, step.assertions).1
  {
    hide RunBlocks, Serve, ExtractStep, VarsAfter, RuleFinds, RuleMisses;
    var root := assemble(logs, s.vars).value;
    var begun := State(s.vars, DocumentOf(root, s.vars), [], s.generation);
    StepExtracts(env, begun, step.extract);
    SeenAgain(env, AsTheyStand(), root, s.vars, s.vars, step.extract);
    var (last, rs) := ExtractStep(env, begun, step.extract);
    st := last;
    assert step.extract[..|step.extract|] == step.extract;
    forall j | 0 <= j < |rs|
      ensures rs[j].verdict.Extracted? && rs[j].verdict.key == step.extract[j].0
      ensures rs[j].passed <==> RuleFinds(env, root, step, s.vars, j)
      ensures rs[j].verdict.notFound <==> RuleMisses(env, root, step, s.vars, j)
    {
      RuleIsReported(env, root, step, s.vars, j, rs[j]);
    }
    var results := RunAttempt(env, assemble, step, s, logs, cached).1.results;
    if step.assertions == [] {
      blocks := [];
      NoBlocks(env, st);
      assert results == rs + [];
    } else {
      blocks := Serve(env, if cached then s.cache else Empty, st.generation % TWO64, st.vars, step.assertions).1;
      assert results == rs + RunBlocks(env, st, blocks).1;
    }
  }

  lemma NoBlocks(env: Env, st: State)
    ensures RunBlocks(env, st, []).1 == []
  {
  }

  /** An attempt passes if and only if every rule of the step finds a value and every block that starts,
      at any depth, holds. */
  lemma AttemptPassesIff<LogsT>(env: Env, assemble: Assembly<LogsT>, step: TestStep, s: Session, logs: LogsT, cached: bool)
    returns (st: State, blocks: seq<Block>)
    requires assemble(logs, s.vars).Some?
    ensures var root := assemble(logs, s.vars).value;
            && IsReport(env, root, step, s.vars, st, blocks, RunAttempt(env, assemble, step, s, logs, cached).1.results)
            && (AllPassed(RunAttempt(env, assemble, step, s, logs, cached).1.results)
                <==> (forall j: nat :: j < |step.extract| ==> RuleFinds(env, root, step, s.vars, j)) &&
                     (forall i :: 0 <= i < |AllStarts(env, st, blocks)| ==> Holds(env, AllStarts(env, st, blocks)[i])))
  {
    hide RunBlocks, Serve, RunAttempt, Holds, RuleFinds, RuleMisses, AllStarts, FoundBefore;
    st, blocks := AttemptIsReport(env, assemble, step, s, logs, cached);
    AllPassedIff(env, st, blocks);
    var rs, n := RunAttempt(env, assemble, step, s, logs, cached).1.results, |step.extract|;
    assert rs == rs[..n] + rs[n..];
    PassedTogether(rs[..n], rs[n..]);
  }

  lemma PassedTogether(a: seq<Result>, b: seq<Result>)
    ensures AllPassed(a + b) <==> AllPassed(a) && AllPassed(b)
  {
    if AllPassed(a + b) {
      forall i | 0 <= i < |a| ensures a[i].passed { assert (a + b)[i] == a[i]; }
      forall i | 0 <= i < |b| ensures b[i].passed { assert (a + b)[|a| + i] == b[i]; }
    }
  }

  /** An attempt in which a rule of the step finds nothing never passes, and is retried when the value is
      not there yet. */
  lemma FailedRuleFails<LogsT>(env: Env, assemble: Assembly<LogsT>, step: TestStep, s: Session, logs: LogsT, cached: bool,
                               j: nat)
    requires assemble(logs, s.vars).Some? && j < |step.extract|
    requires !RuleFinds(env, assemble(logs, s.vars).value, step, s.vars, j)
    ensures var report := RunAttempt(env, assemble, step, s, logs, cached).1;
            && report.Evaluated? && !AllPassed(report.results)
            && (RuleMisses(env, assemble(logs, s.vars).value, step, s.vars, j) ==> !Settled(report))
  {
    hide RunBlocks, RunAttempt, RuleFinds, RuleMisses;
    var st, blocks := AttemptIsReport(env, assemble, step, s, logs, cached);
    var report := RunAttempt(env, assemble, step, s, logs, cached).1;
    assert !report.results[j].passed;
    if RuleMisses(env, assemble(logs, s.vars).value, step, s.vars, j) {
      assert MayTurn(report.results[j]);
    }
  }
}
