/** What extract rules leave in the variables and report: those of a block, whose keys are resolved, and
    those of a step, whose keys are taken as they stand (services/test-agent/step_validator.go, lines 160 to
    186 and 418 to 444). */
module Extractions {
  import opened Options
  import opened Matching
  import opened Variables
  import opened BlockValidator
  import opened StepRetry

  /** How the key of a rule is read under the variables so far. */
  type Keys = (string, Vars) -> string

  /** The document in which a rule is looked up: it holds the variables so far. */
  function Seen(root: Root, vars: Vars): Root { root[VARIABLES := Object(vars)] }

  /** The variables after the rules, each value found under its key and seen by the rules after it. */
  function VarsAfter(env: Env, keys: Keys, root: Root, vars: Vars, rules: seq<(string, Rule)>): Vars
    decreases |rules|
  {
    if rules == [] then vars
    else
      var key := keys(rules[0].0, vars);
      var next :=
        match env.extract(key, rules[0].1, Seen(root, vars))
        case Found(v) => vars[key := v]
        case Fails(_) => vars;
      VarsAfter(env, keys, root, next, rules[1..])
  }

  /** The result of the j-th rule: passed exactly when a value is found, by name, telling a value that is
      not there from another failure. */
  predicate Reports(env: Env, keys: Keys, root: Root, vars: Vars, rules: seq<(string, Rule)>, j: nat, r: Result)
    requires j < |rules|
  {
    var now := VarsAfter(env, keys, root, vars, rules[..j]);
    var key := keys(rules[j].0, now);
    match env.extract(key, rules[j].1, Seen(root, now))
    case Found(_) => r == Result(true, Extracted(key, false))
    case Fails(notFound) => r == Result(false, Extracted(key, notFound))
  }

  /** The state and results are those of the rules over `st`. */
  ghost predicate Extracts(env: Env, keys: Keys, st: State, rules: seq<(string, Rule)>, last: State, rs: seq<Result>) {
    && last.vars == VarsAfter(env, keys, st.root, st.vars, rules)
    && last.root == Seen(st.root, last.vars) && last.stack == st.stack
    && |rs| == |rules|
    && forall j :: 0 <= j < |rs| ==> Reports(env, keys, st.root, st.vars, rules, j, rs[j])
  }

  /** One rule in front of others. */
  lemma ExtractsFirst(env: Env, keys: Keys, st: State, rules: seq<(string, Rule)>, next: State, r: Result, last: State,
                      rs: seq<Result>)
    requires rules != [] && InSync(st)
    requires (next, r) == ExtractKey(env, st, keys(rules[0].0, st.vars), rules[0].1)
    requires Extracts(env, keys, next, rules[1..], last, rs)
    ensures Extracts(env, keys, st, rules, last, [r] + rs)
  {
    assert Seen(st.root, st.vars) == st.root;
    assert next.root == Seen(st.root, next.vars);
    SeenAgain(env, keys, st.root, next.vars, next.vars, rules[1..]);
    forall j | 0 <= j < |rules| ensures Reports(env, keys, st.root, st.vars, rules, j, ([r] + rs)[j]) {
      if j > 0 {
        assert rules[..j][1..] == rules[1..][..j - 1];
        SeenAgain(env, keys, st.root, next.vars, next.vars, rules[1..][..j - 1]);
        assert Reports(env, keys, next.root, next.vars, rules[1..], j - 1, rs[j - 1]);
      }
    }
  }

  /** The variables the document held before do not matter. */
  lemma {:induction false} SeenAgain(env: Env, keys: Keys, root: Root, old_: Vars, vars: Vars, rules: seq<(string, Rule)>)
    ensures VarsAfter(env, keys, Seen(root, old_), vars, rules) == VarsAfter(env, keys, root, vars, rules)
    ensures forall now :: Seen(Seen(root, old_), now) == Seen(root, now)
    decreases |rules|
  {
    if rules != [] {
      assert Seen(Seen(root, old_), vars) == Seen(root, vars);
      var key := keys(rules[0].0, vars);
      match env.extract(key, rules[0].1, Seen(root, vars))
      case Found(v) => SeenAgain(env, keys, root, old_, vars[key := v], rules[1..]);
      case Fails(_) => SeenAgain(env, keys, root, old_, vars, rules[1..]);
    }
  }

  /** The rules of a block. */
  lemma {:induction false} BlockExtracts(env: Env, st: State, rules: seq<(string, Rule)>)
    requires InSync(st)
    ensures var (last, rs) := ExtractAll(env, st, rules); Extracts(env, env.resolveKey, st, rules, last, rs)
    decreases |rules|
  {
    hide Extracts;
    if rules == [] {
      NothingExtracts(env, env.resolveKey, st);
    } else {
      var (next, r) := ExtractOne(env, st, rules[0]);
      BlockExtracts(env, next, rules[1..]);
      var (last, rs) := ExtractAll(env, next, rules[1..]);
      ExtractsFirst(env, env.resolveKey, st, rules, next, r, last, rs);
    }
  }

  lemma NothingExtracts(env: Env, keys: Keys, st: State)
    requires InSync(st)
    ensures Extracts(env, keys, st, [], st, [])
  {
  }

  function AsTheyStand(): Keys { (key: string, vars: Vars) => key }

  /** The rules of a step. */
  lemma {:induction false} StepExtracts(env: Env, st: State, rules: seq<(string, Rule)>)
    requires InSync(st)
    ensures var (last, rs) := ExtractStep(env, st, rules); Extracts(env, AsTheyStand(), st, rules, last, rs)
    decreases |rules|
  {
    hide Extracts;
    if rules == [] {
      NothingExtracts(env, AsTheyStand(), st);
    } else {
      var (next, r) := ExtractKey(env, st, rules[0].0, rules[0].1);
      StepExtracts(env, next, rules[1..]);
      var (last, rs) := ExtractStep(env, next, rules[1..]);
      ExtractsFirst(env, AsTheyStand(), st, rules, next, r, last, rs);
    }
  }

  /** A value found is what its variable holds after its rule, and every later rule sees it. */
  lemma FoundIsHeld(env: Env, keys: Keys, root: Root, vars: Vars, rules: seq<(string, Rule)>, j: nat, v: Value)
    requires j < |rules|
    requires var now := VarsAfter(env, keys, root, vars, rules[..j]);
             env.extract(keys(rules[j].0, now), rules[j].1, Seen(root, now)) == Found(v)
    ensures var now := VarsAfter(env, keys, root, vars, rules[..j]);
            VarsAfter(env, keys, root, vars, rules[..j + 1]) == now[keys(rules[j].0, now) := v]
    decreases |rules|
  {
    if j == 0 {
      assert rules[..1][1..] == [];
    } else {
      var key := keys(rules[0].0, vars);
      assert rules[..j][1..] == rules[1..][..j - 1] && rules[..j + 1][1..] == rules[1..][..j];
      match env.extract(key, rules[0].1, Seen(root, vars))
      case Found(w) => FoundIsHeld(env, keys, root, vars[key := w], rules[1..], j - 1, v);
      case Fails(_) => FoundIsHeld(env, keys, root, vars, rules[1..], j - 1, v);
    }
  }
}
