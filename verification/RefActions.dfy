/** Resolution of a `$ref` on a step's action through a chain of fragments
    (shared/definition-validator/validate-refs.ts, lines 237 to 335). */
module RefActions {
  import opened Options
  import opened RefGraph

  type Fields = map<string, Json>

  const ACTION := "action"

  predicate PointsOn(action: Fields) { REF in action && action[REF].JString? }

  /** The fragment an action's `$ref` names: its path and its action, or an error. */
  datatype Loaded = Holds(path: string, action: Fields) | NoFragment(error: Error)

  function FragmentOf(env: Env, file: string, visited: set<string>, ref: string, i: nat): (f: Loaded)
    ensures f.Holds? ==> f.path !in visited
  {
    var path := env.resolve(file, ref);
    if path in visited then NoFragment(Circular(i, ref))
    else if path !in env.files then NoFragment(NotFound(i, ref))
    else if env.files[path].Unparseable? then NoFragment(CannotParse(i, ref))
    else
      var content := env.files[path].content;
      if !content.JObject? then NoFragment(NotAnObjectFile(i, ref))
      else if ACTION !in content.fields || !content.fields[ACTION].JObject? then NoFragment(NoActionObject(i, ref))
      else Holds(path, content.fields[ACTION].fields)
  }

  /** The resolved action, or None with the one error recorded. */
  function ResolveAction(env: Env, file: string, visited: set<string>, action: Fields, i: nat): (r: (Option<Fields>, seq<Error>))
    requires PointsOn(action)
    ensures r.0 == None <==> r.1 != []
    decreases MAX_REF_DEPTH + 1 - |visited|
  {
    if |visited| > MAX_REF_DEPTH then (None, [TooDeep])
    else
      match FragmentOf(env, file, visited, action[REF].s, i)
      case NoFragment(e) => (None, [e])
      case Holds(path, inner) =>
        var resolved := if PointsOn(inner) then ResolveAction(env, path, visited + {path}, inner, i) else (Some(inner), []);
        if resolved.0 == None then resolved else (Some(resolved.0.value + (action - {REF})), [])
  }

  method ResolveActionRef(env: Env, file: string, visited: set<string>, action: Fields, i: nat, r: ValidationResult)
    returns (resolved: Option<Fields>)
    requires PointsOn(action)
    modifies r
    ensures resolved == ResolveAction(env, file, visited, action, i).0
    ensures r.errors == old(r.errors) + ResolveAction(env, file, visited, action, i).1
    decreases MAX_REF_DEPTH + 1 - |visited|
  {
    hide FragmentOf;
    if |visited| > MAX_REF_DEPTH {
      r.Err(TooDeep);
      return None;
    }
    var fragment := FragmentOf(env, file, visited, action[REF].s, i);
    if fragment.NoFragment? {
      r.Err(fragment.error);
      return None;
    }
    var inner := Some(fragment.action);
    if PointsOn(fragment.action) {
      inner := ResolveActionRef(env, fragment.path, visited + {fragment.path}, fragment.action, i, r);
      if inner == None {
        return None;
      }
    }
    assert r.errors == old(r.errors) + [];
    return Some(inner.value + (action - {REF}));
  }

  // ---------- the chain ----------

  /** The file at `path` is not visited yet and holds the action `next` in its "action" key; it is the one
      the reference names. */
  predicate NamesFragment(env: Env, file: string, visited: set<string>, ref: string, path: string, next: Fields) {
    && path == env.resolve(file, ref) && path !in visited && path in env.files
    && env.files[path].Parsed? && env.files[path].content.JObject?
    && "action" in env.files[path].content.fields && env.files[path].content.fields["action"] == JObject(next)
  }

  lemma FragmentIsNamed(env: Env, file: string, visited: set<string>, ref: string, i: nat, path: string, next: Fields)
    ensures FragmentOf(env, file, visited, ref, i) == Holds(path, next) <==>
            NamesFragment(env, file, visited, ref, path, next)
  {
  }

  /** The actions along the chain, outermost first, each naming the fragment that holds the next, with
      no file repeated and no more than MAX_REF_DEPTH visited. */
  ghost predicate IsChain(env: Env, file: string, visited: set<string>, actions: seq<Fields>, paths: seq<string>)
    decreases |actions|
  {
    && actions != [] && |paths| == |actions| - 1
    && (PointsOn(actions[0]) <==> |actions| > 1)
    && (|actions| > 1 ==>
          && |visited| <= MAX_REF_DEPTH
          && NamesFragment(env, file, visited, actions[0][REF].s, paths[0], actions[1])
          && IsChain(env, paths[0], visited + {paths[0]}, actions[1..], paths[1..]))
  }

  /** The value nearest the step: the outermost action that defines the key. */
  function Nearest(actions: seq<Fields>, k: string): Option<Json> {
    if actions == [] then None
    else if k in actions[0] && (k != REF || |actions| == 1) then Some(actions[0][k])
    else Nearest(actions[1..], k)
  }

  /** A chain resolves without an error, every key to its value nearest the step. */
  lemma {:induction false} ChainResolves(
    env: Env, file: string, visited: set<string>, actions: seq<Fields>, paths: seq<string>, i: nat)
    requires IsChain(env, file, visited, actions, paths) && |actions| > 1
    ensures var r := ResolveAction(env, file, visited, actions[0], i);
            && r.0.Some? && r.1 == []
            && (forall k :: (if k in r.0.value then Some(r.0.value[k]) else None) == Nearest(actions, k))
    decreases |actions|
  {
    hide FragmentOf, NamesFragment;
    FragmentIsNamed(env, file, visited, actions[0][REF].s, i, paths[0], actions[1]);
    if |actions| > 2 {
      ChainResolves(env, paths[0], visited + {paths[0]}, actions[1..], paths[1..], i);
    } else {
      forall k ensures Nearest(actions[1..], k) == if k in actions[1] then Some(actions[1][k]) else None {
        assert Nearest(actions[1..][1..], k) == None;
      }
    }
  }

  /** A resolution without an error follows a chain. */
  lemma {:induction false} ResolutionHasChain(env: Env, file: string, visited: set<string>, action: Fields, i: nat)
    returns (actions: seq<Fields>, paths: seq<string>)
    requires PointsOn(action) && ResolveAction(env, file, visited, action, i).1 == []
    ensures IsChain(env, file, visited, actions, paths) && |actions| > 1 && actions[0] == action
    decreases MAX_REF_DEPTH + 1 - |visited|
  {
    hide FragmentOf, NamesFragment;
    var fragment := FragmentOf(env, file, visited, action[REF].s, i);
    FragmentIsNamed(env, file, visited, action[REF].s, i, fragment.path, fragment.action);
    var rest, restPaths := [fragment.action], [];
    if PointsOn(fragment.action) {
      rest, restPaths := ResolutionHasChain(env, fragment.path, visited + {fragment.path}, fragment.action, i);
    }
    actions, paths := [action] + rest, [fragment.path] + restPaths;
    assert actions[1..] == rest && paths[1..] == restPaths;
  }

  /** An action resolves if and only if its references form a finite chain without a repeated file
      and within the depth bound. */
  lemma ResolvesIffChain(env: Env, file: string, visited: set<string>, action: Fields, i: nat)
    requires PointsOn(action)
    ensures ResolveAction(env, file, visited, action, i).0.Some? <==>
            exists actions: seq<Fields>, paths: seq<string> ::
              IsChain(env, file, visited, actions, paths) && |actions| > 1 && actions[0] == action
  {
    hide ResolveAction, IsChain;
    if ResolveAction(env, file, visited, action, i).0.Some? {
      var actions, paths := ResolutionHasChain(env, file, visited, action, i);
    }
    if exists actions: seq<Fields>, paths: seq<string> ::
      IsChain(env, file, visited, actions, paths) && |actions| > 1 && actions[0] == action {
      var actions: seq<Fields>, paths: seq<string> :|
        IsChain(env, file, visited, actions, paths) && |actions| > 1 && actions[0] == action;
      ChainResolves(env, file, visited, actions, paths, i);
    }
  }
}
