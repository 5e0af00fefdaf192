/** Expansion of `$ref` entries inside UI sub-steps over a possibly cyclic file graph
    (shared/definition-validator/validate-refs.ts, lines 337 to 440). */
module RefSteps {
  import opened RefGraph

  predicate IsRef(step: Json) { step.JObject? && REF in step.fields }

  // ---------- the expansion as a function ----------

  /** The steps array of the fragment a `$ref` names, or the error it records. */
  datatype Target = Fragment(path: string, steps: seq<Json>) | Bad(error: Error)

  function TargetOf(env: Env, file: string, visited: set<string>, step: Json, i: nat): (t: Target)
    requires IsRef(step)
    ensures t.Fragment? ==> t.path !in visited
  {
    var ref := step.fields[REF];
    if !ref.JString? then Bad(RefNotAString(i))
    else
      var path := env.resolve(file, ref.s);
      if path in visited then Bad(Circular(i, ref.s))
      else if path !in env.files then Bad(NotFound(i, ref.s))
      else if env.files[path].Unparseable? then Bad(CannotParse(i, ref.s))
      else
        var content := env.files[path].content;
        if !content.JObject? then Bad(NotAnObjectFile(i, ref.s))
        else if "steps" !in content.fields || !content.fields["steps"].JArray? then Bad(NoStepsArray(i, ref.s))
        else Fragment(path, content.fields["steps"].items)
  }

  /** The expanded steps and the errors recorded, both in order. Every recursive call adds a file to
      `visited`, which the depth check bounds. */
  function Expand(env: Env, file: string, visited: set<string>, steps: seq<Json>): (seq<Json>, seq<Error>)
    decreases MAX_REF_DEPTH + 1 - |visited|, 2
  {
    if |visited| > MAX_REF_DEPTH then ([], [TooDeep]) else ExpandFrom(env, file, visited, steps, 0)
  }

  function ExpandFrom(env: Env, file: string, visited: set<string>, steps: seq<Json>, i: nat): (seq<Json>, seq<Error>)
    requires |visited| <= MAX_REF_DEPTH && i <= |steps|
    decreases MAX_REF_DEPTH + 1 - |visited|, 1, |steps| - i
  {
    if i == |steps| then ([], [])
    else
      var here := ExpandStep(env, file, visited, steps[i], i);
      var rest := ExpandFrom(env, file, visited, steps, i + 1);
      (here.0 + rest.0, here.1 + rest.1)
  }

  function ExpandStep(env: Env, file: string, visited: set<string>, step: Json, i: nat): (seq<Json>, seq<Error>)
    requires |visited| <= MAX_REF_DEPTH
    decreases MAX_REF_DEPTH + 1 - |visited|, 0
  {
    if !IsRef(step) then ([step], [])
    else
      match TargetOf(env, file, visited, step, i)
      case Bad(e) => ([], [e])
      case Fragment(path, inner) => Expand(env, path, visited + {path}, inner)
  }

  // ---------- the expansion as the source runs it ----------

  method ExpandSubStepRefs(env: Env, file: string, visited: set<string>, steps: seq<Json>, r: ValidationResult)
    returns (expanded: seq<Json>)
    modifies r
    ensures expanded == Expand(env, file, visited, steps).0
    ensures r.errors == old(r.errors) + Expand(env, file, visited, steps).1
    decreases MAX_REF_DEPTH + 1 - |visited|
  {
    hide TargetOf;
    expanded := [];
    if |visited| > MAX_REF_DEPTH {
      r.Err(TooDeep);
      return;
    }
    for i := 0 to |steps|
      invariant expanded + ExpandFrom(env, file, visited, steps, i).0 == Expand(env, file, visited, steps).0
      invariant r.errors + ExpandFrom(env, file, visited, steps, i).1 == old(r.errors) + Expand(env, file, visited, steps).1
    {
      ghost var out, errs := expanded, r.errors;
      ghost var rest := ExpandFrom(env, file, visited, steps, i + 1);
      ghost var here := ExpandStep(env, file, visited, steps[i], i);
      if !IsRef(steps[i]) {
        expanded := expanded + [steps[i]];
      } else {
        var target := TargetOf(env, file, visited, steps[i], i);
        if target.Bad? {
          r.Err(target.error);
        } else {
          var inner := ExpandSubStepRefs(env, target.path, visited + {target.path}, target.steps, r);
          expanded := expanded + inner;
        }
      }
      assert expanded == out + here.0 && r.errors == errs + here.1;
      Regroup(out, here.0, rest.0);
      Regroup(errs, here.1, rest.1);
    }
    assert expanded + [] == expanded && r.errors + [] == r.errors;
  }

  // ---------- the ref tree ----------

  /** A step and, when it is a reference, the trees of the fragment it names. */
  datatype Tree = Leaf(step: Json) | Ref(step: Json, path: string, children: seq<Tree>)

  /** The tree is what the files say: references point at fragments, one child per step of the fragment. */
  ghost predicate Unfolds(env: Env, file: string, t: Tree, step: Json)
    decreases t
  {
    match t
    case Leaf(s) => s == step && !IsRef(step)
    case Ref(s, path, children) =>
      && s == step && IsRef(step) && step.fields[REF].JString? && path == env.resolve(file, step.fields[REF].s)
      && path in env.files && env.files[path].Parsed? && env.files[path].content.JObject?
      && "steps" in env.files[path].content.fields && env.files[path].content.fields["steps"].JArray?
      && |children| == |env.files[path].content.fields["steps"].items|
      && forall k :: 0 <= k < |children| ==>
           Unfolds(env, path, children[k], env.files[path].content.fields["steps"].items[k])
  }

  /** Along every chain of the tree no file repeats, and no more than MAX_REF_DEPTH are visited. */
  ghost predicate Admissible(t: Tree, visited: set<string>)
    decreases t
  {
    match t
    case Leaf(_) => true
    case Ref(_, path, children) =>
      && path !in visited && |visited| < MAX_REF_DEPTH
      && forall k :: 0 <= k < |children| ==> Admissible(children[k], visited + {path})
  }

  /** The leaves of a tree, left to right. */
  function Leaves(t: Tree): seq<Json>
    decreases t
  {
    match t
    case Leaf(s) => [s]
    case Ref(_, _, children) => AllLeaves(children)
  }

  function AllLeaves(ts: seq<Tree>): seq<Json>
    decreases ts
  {
    if ts == [] then [] else Leaves(ts[0]) + AllLeaves(ts[1..])
  }

  ghost predicate UnfoldsAll(env: Env, file: string, visited: set<string>, ts: seq<Tree>, steps: seq<Json>) {
    |ts| == |steps| &&
    forall k :: 0 <= k < |ts| ==> Unfolds(env, file, ts[k], steps[k]) && Admissible(ts[k], visited)
  }

  /** An admissible tree is expanded to its leaves without an error. */
  lemma {:induction false} TreesAreExpanded(env: Env, file: string, visited: set<string>, ts: seq<Tree>, steps: seq<Json>)
    requires |visited| <= MAX_REF_DEPTH && UnfoldsAll(env, file, visited, ts, steps)
    ensures Expand(env, file, visited, steps) == (AllLeaves(ts), [])
    decreases MAX_REF_DEPTH + 1 - |visited|, 1, 0
  {
    hide UnfoldsAll;
    TreesAreExpandedFrom(env, file, visited, ts, steps, 0);
    assert ts[0..] == ts by { assert |ts| == |steps|; }
  }

  lemma {:induction false} TreesAreExpandedFrom(
    env: Env, file: string, visited: set<string>, ts: seq<Tree>, steps: seq<Json>, i: nat)
    requires |visited| <= MAX_REF_DEPTH && UnfoldsAll(env, file, visited, ts, steps) && i <= |steps|
    ensures |ts| == |steps|
    ensures ExpandFrom(env, file, visited, steps, i) == (AllLeaves(ts[i..]), [])
    decreases MAX_REF_DEPTH + 1 - |visited|, 0, |steps| - i
  {
    hide ExpandStep, Unfolds, Admissible, Leaves;
    if i < |steps| {
      TreeIsExpanded(env, file, visited, ts[i], steps[i], i);
      TreesAreExpandedFrom(env, file, visited, ts, steps, i + 1);
      assert ts[i..][1..] == ts[i + 1..];
      var none: seq<Error> := [];
      assert none + none == none;
    }
  }

  lemma {:induction false} TreeIsExpanded(env: Env, file: string, visited: set<string>, t: Tree, step: Json, i: nat)
    requires |visited| <= MAX_REF_DEPTH && Unfolds(env, file, t, step) && Admissible(t, visited)
    ensures ExpandStep(env, file, visited, step, i) == (Leaves(t), [])
    decreases MAX_REF_DEPTH + 1 - |visited|, 0, 0
  {
    if t.Ref? {
      TreesAreExpanded(env, t.path, visited + {t.path}, t.children, env.files[t.path].content.fields["steps"].items);
    }
  }

  /** Expansion without an error comes from an admissible tree. */
  lemma {:induction false} ExpansionHasTrees(env: Env, file: string, visited: set<string>, steps: seq<Json>)
    returns (ts: seq<Tree>)
    requires Expand(env, file, visited, steps).1 == []
    ensures |visited| <= MAX_REF_DEPTH && UnfoldsAll(env, file, visited, ts, steps)
    decreases MAX_REF_DEPTH + 1 - |visited|, 1, 0
  {
    ts := ExpansionHasTreesFrom(env, file, visited, steps, 0);
    assert steps[0..] == steps;
  }

  lemma {:induction false} ExpansionHasTreesFrom(env: Env, file: string, visited: set<string>, steps: seq<Json>, i: nat)
    returns (ts: seq<Tree>)
    requires |visited| <= MAX_REF_DEPTH && i <= |steps| && ExpandFrom(env, file, visited, steps, i).1 == []
    ensures UnfoldsAll(env, file, visited, ts, steps[i..])
    decreases MAX_REF_DEPTH + 1 - |visited|, 0, |steps| - i
  {
    hide ExpandStep, Unfolds, Admissible;
    ts := [];
    if i < |steps| {
      var t := ExpansionHasTree(env, file, visited, steps[i], i);
      var rest := ExpansionHasTreesFrom(env, file, visited, steps, i + 1);
      ts := [t] + rest;
      assert forall k :: 0 < k < |ts| ==> ts[k] == rest[k - 1] && steps[i..][k] == steps[i + 1..][k - 1];
    }
  }

  lemma {:induction false} ExpansionHasTree(env: Env, file: string, visited: set<string>, step: Json, i: nat)
    returns (t: Tree)
    requires |visited| <= MAX_REF_DEPTH && ExpandStep(env, file, visited, step, i).1 == []
    ensures Unfolds(env, file, t, step) && Admissible(t, visited)
    decreases MAX_REF_DEPTH + 1 - |visited|, 0, 0
  {
    if IsRef(step) {
      var target := TargetOf(env, file, visited, step, i);
      assert target.Fragment?;
      var children := ExpansionHasTrees(env, target.path, visited + {target.path}, target.steps);
      t := Ref(step, target.path, children);
    } else {
      t := Leaf(step);
    }
  }

  /** No error is recorded if and only if the steps unfold into a tree without a repeated file on any
      chain and within the depth bound: a cyclic graph, which has no finite tree, always records one. */
  lemma NoErrorIffAdmissibleTree(env: Env, file: string, visited: set<string>, steps: seq<Json>)
    requires |visited| <= MAX_REF_DEPTH
    ensures Expand(env, file, visited, steps).1 == [] <==>
            exists ts: seq<Tree> :: UnfoldsAll(env, file, visited, ts, steps)
  {
    hide Expand, UnfoldsAll;
    if Expand(env, file, visited, steps).1 == [] {
      var ts := ExpansionHasTrees(env, file, visited, steps);
    }
    if exists ts: seq<Tree> :: UnfoldsAll(env, file, visited, ts, steps) {
      var ts :| UnfoldsAll(env, file, visited, ts, steps);
      TreesAreExpanded(env, file, visited, ts, steps);
    }
  }

  /** Without an error the result is the leaves of the ref tree, left to right. */
  lemma ExpansionIsTheLeaves(env: Env, file: string, visited: set<string>, steps: seq<Json>, ts: seq<Tree>)
    requires |visited| <= MAX_REF_DEPTH && UnfoldsAll(env, file, visited, ts, steps)
    ensures Expand(env, file, visited, steps) == (AllLeaves(ts), [])
  {
    TreesAreExpanded(env, file, visited, ts, steps);
  }

  /** A reference to a file already on the chain is an error wherever it stands. */
  lemma RevisitIsAnError(env: Env, file: string, visited: set<string>, steps: seq<Json>, i: nat)
    requires i < |steps| && IsRef(steps[i]) && steps[i].fields[REF].JString?
    requires env.resolve(file, steps[i].fields[REF].s) in visited
    ensures Expand(env, file, visited, steps).1 != []
  {
    hide Expand;
    if Expand(env, file, visited, steps).1 == [] {
      var ts := ExpansionHasTrees(env, file, visited, steps);
      RevisitHasNoTree(env, file, visited, ts[i], steps[i]);
    }
  }

  lemma RevisitHasNoTree(env: Env, file: string, visited: set<string>, t: Tree, step: Json)
    requires IsRef(step) && step.fields[REF].JString? && env.resolve(file, step.fields[REF].s) in visited
    ensures !Unfolds(env, file, t, step) || !Admissible(t, visited)
  {
  }

  // ---------- the result ----------

  ghost predicate NoRefs(steps: seq<Json>) {
    forall k :: 0 <= k < |steps| ==> !IsRef(steps[k])
  }

  /** No reference is left in the result, errors or not. */
  lemma {:induction false} NoRefIsLeft(env: Env, file: string, visited: set<string>, steps: seq<Json>)
    ensures NoRefs(Expand(env, file, visited, steps).0)
    decreases MAX_REF_DEPTH + 1 - |visited|, 1, 0
  {
    if |visited| <= MAX_REF_DEPTH {
      NoRefIsLeftFrom(env, file, visited, steps, 0);
    }
  }

  lemma {:induction false} NoRefIsLeftFrom(env: Env, file: string, visited: set<string>, steps: seq<Json>, i: nat)
    requires |visited| <= MAX_REF_DEPTH && i <= |steps|
    ensures NoRefs(ExpandFrom(env, file, visited, steps, i).0)
    decreases MAX_REF_DEPTH + 1 - |visited|, 0, |steps| - i
  {
    hide TargetOf;
    if i < |steps| {
      NoRefIsLeftFrom(env, file, visited, steps, i + 1);
      if IsRef(steps[i]) {
        var target := TargetOf(env, file, visited, steps[i], i);
        if target.Fragment? {
          NoRefIsLeft(env, target.path, visited + {target.path}, target.steps);
        }
      }
    }
  }

  /** Expanding an expanded list again changes nothing and records nothing. */
  lemma SecondExpansionIsIdentity(env: Env, file: string, visited: set<string>, steps: seq<Json>)
    requires |visited| <= MAX_REF_DEPTH
    ensures var once := Expand(env, file, visited, steps).0;
            Expand(env, file, visited, once) == (once, [])
  {
    hide Expand;
    var once := Expand(env, file, visited, steps).0;
    NoRefIsLeft(env, file, visited, steps);
    var ts := seq(|once|, k requires 0 <= k < |once| => Leaf(once[k]));
    assert UnfoldsAll(env, file, visited, ts, once);
    TreesAreExpanded(env, file, visited, ts, once);
    LeavesOfLeaves(once, ts);
  }

  lemma {:induction false} LeavesOfLeaves(steps: seq<Json>, ts: seq<Tree>)
    requires |ts| == |steps| && forall k :: 0 <= k < |ts| ==> ts[k] == Leaf(steps[k])
    ensures AllLeaves(ts) == steps
  {
    if steps != [] {
      LeavesOfLeaves(steps[1..], ts[1..]);
    }
  }
}
