/** What resolving the references of items means: a tree of references that the files alone define, and
    the value each key has in it (shared/definition-validator/validate-refs.ts, lines 54 to 162). */
module RefTrees {
  import opened Options
  import opened RefGraph
  import opened RefItems
  import opened RefSpreads

  // ---------- the tree ----------

  /** An item without references, or one with a tree for each file it refers to, in order. */
  datatype Tree = Plain(item: Json) | Node(item: Json, refs: seq<Ref>)

  datatype Ref = Ref(path: string, content: Tree)

  /** A file of a reference exists, parses and is not null. */
  predicate Loads(env: Env, path: string) {
    path in env.files && env.files[path].Parsed? && !env.files[path].content.JNull?
  }

  /** The tree is what the files say about an item declared in `file`. */
  ghost predicate Unfolds(env: Env, file: string, t: Tree, item: Json)
    decreases t
  {
    match t
    case Plain(x) => x == item && !HasRefs(item)
    case Node(x, refs) =>
      && x == item && HasRefs(item) && |refs| == |RefsOf(item)|
      && forall j :: 0 <= j < |refs| ==> RefUnfolds(env, file, refs[j], RefsOf(item)[j])
  }

  ghost predicate RefUnfolds(env: Env, file: string, r: Ref, ref: Json)
    decreases r
  {
    ref.JString? && r.path == env.resolve(file, ref.s) && Loads(env, r.path) &&
    Unfolds(env, r.path, r.content, env.files[r.path].content)
  }

  /** Along every chain of the tree no file repeats, and no more than MAX_REF_DEPTH files that refer
      further are visited. */
  ghost predicate Admissible(t: Tree, visited: set<string>)
    decreases t
  {
    t.Node? ==> forall j :: 0 <= j < |t.refs| ==> RefAdmissible(t.refs[j], visited)
  }

  ghost predicate RefAdmissible(r: Ref, visited: set<string>)
    decreases r
  {
    r.path !in visited && (Refers(r.content.item) ==> |visited| < MAX_REF_DEPTH) && Admissible(r.content, visited + {r.path})
  }

  // ---------- its meaning ----------

  /** The keys and values of a tree's item: its references merged left to right, its own keys over them,
      with spread markers expanded. */
  function FieldsOf(lib: Library, t: Tree): Fields
    decreases t, 0
  {
    match t
    case Plain(item) => Spread(lib, item)
    case Node(item, refs) => Merged(lib, Combined(lib, refs), Inline(item))
  }

  function Inline(item: Json): Fields {
    if item.JObject? then item.fields - {REF} else map[]
  }

  function Combined(lib: Library, refs: seq<Ref>): Fields
    decreases refs, 1
  {
    if refs == [] then map[]
    else
      var last := refs[|refs| - 1];
      Combined(lib, refs[..|refs| - 1]) + FieldsOf(lib, last.content)
  }

  function ItemOf(lib: Library, t: Tree): Json {
    if t.Plain? then t.item else JObject(FieldsOf(lib, t))
  }

  /** The file an item ends in: that of its last reference, followed to its end. */
  function LastFile(t: Tree, file: string): string
    decreases t
  {
    if t.Plain? || t.refs == [] then file
    else
      var last := t.refs[|t.refs| - 1];
      LastFile(last.content, last.path)
  }

  function At(fields: Fields, k: string): Option<Json> {
    if k in fields then Some(fields[k]) else None
  }

  /** The value of a key in the right-most subtree that defines it. */
  function RightMost(lib: Library, refs: seq<Ref>, k: string): Option<Json>
  {
    if refs == [] then None
    else
      var here := At(FieldsOf(lib, refs[|refs| - 1].content), k);
      if here.Some? then here else RightMost(lib, refs[..|refs| - 1], k)
  }

  lemma {:induction false} CombinedIsRightMost(lib: Library, refs: seq<Ref>, k: string)
    ensures At(Combined(lib, refs), k) == RightMost(lib, refs, k)
    decreases |refs|
  {
    hide FieldsOf;
    if refs != [] {
      CombinedIsRightMost(lib, refs[..|refs| - 1], k);
    }
  }

  /** A key of an item with references has the item's own value, an array with each spread marker replaced
      by the array its path leads to in the references' content; else its value in the right-most subtree
      that defines it; else none. */
  lemma ValueOfKey(lib: Library, t: Tree, k: string)
    requires t.Node?
    ensures var value := At(FieldsOf(lib, t), k);
            if k !in Inline(t.item) then value == RightMost(lib, t.refs, k)
            else
              var own := Inline(t.item)[k];
              if own.JArray? then
                value.Some? && value.value.JArray? &&
                IsExpansion(lib, Combined(lib, t.refs), own.items, value.value.items)
              else value == Some(own)
  {
    hide Inline, RightMost, Combined, IsExpansion, ExpandSpreads;
    CombinedIsRightMost(lib, t.refs, k);
    if k in Inline(t.item) && Inline(t.item)[k].JArray? {
      var own, content := Inline(t.item)[k].items, Combined(lib, t.refs);
      SpreadsAreExpanded(lib, content, own, ExpandSpreads(lib, content, own));
    }
  }

  // ---------- resolving a tree ----------

  ghost predicate UnfoldsAll(env: Env, file: string, visited: set<string>, ts: seq<Tree>, items: seq<Json>) {
    |ts| == |items| && forall i :: 0 <= i < |ts| ==>
      (items[i].JObject? || items[i].JArray?) && Unfolds(env, file, ts[i], items[i]) && Admissible(ts[i], visited)
  }

  function ResolvedOf(lib: Library, ts: seq<Tree>, file: string): (s: seq<Resolved>)
    ensures |s| == |ts|
  {
    seq(|ts|, i requires 0 <= i < |ts| => Resolved(ItemOf(lib, ts[i]), LastFile(ts[i], file)))
  }

  /** What a file's content spreads to is what its resolved item spreads to. */
  lemma SpreadOfItem(lib: Library, t: Tree)
    ensures Spread(lib, ItemOf(lib, t)) == FieldsOf(lib, t)
  {
    hide Merged;
  }

  lemma {:induction false} TreeIsResolved(env: Env, lib: Library, file: string, visited: set<string>, t: Tree, item: Json, i: nat)
    requires |visited| <= MAX_REF_DEPTH && (item.JObject? || item.JArray?)
    requires Unfolds(env, file, t, item) && Admissible(t, visited)
    ensures ResolveItem(env, lib, file, visited, item, i) == ([Resolved(ItemOf(lib, t), LastFile(t, file))], [])
    decreases t, 2
  {
    hide MergeRefs, Merged, Combined;
    if t.Node? {
      RefsAreMerged(env, lib, file, visited, t.refs, RefsOf(item), i, |t.refs|);
      assert t.refs[..|t.refs|] == t.refs;
      assert Inline(item) == item.fields - {REF};
    }
  }

  function LastOf(refs: seq<Ref>): Option<string> {
    if refs == [] then None
    else Some(LastFile(refs[|refs| - 1].content, refs[|refs| - 1].path))
  }

  lemma {:induction false} RefsAreMerged(env: Env, lib: Library, file: string, visited: set<string>, refs: seq<Ref>,
                                         names: seq<Json>, i: nat, n: nat)
    requires |visited| <= MAX_REF_DEPTH && n <= |refs| == |names|
    requires forall j :: 0 <= j < |refs| ==> RefUnfolds(env, file, refs[j], names[j]) && RefAdmissible(refs[j], visited)
    ensures MergeRefs(env, lib, file, visited, names, i, n) == Merge(Combined(lib, refs[..n]), LastOf(refs[..n]), false, [])
    decreases refs, 1, n
  {
    hide Load, FieldsOf, RefUnfolds, RefAdmissible, LastFile;
    if n > 0 {
      RefsAreMerged(env, lib, file, visited, refs, names, i, n - 1);
      RefIsLoaded(env, lib, file, visited, refs[n - 1], names[n - 1], i);
      assert refs[..n][..n - 1] == refs[..n - 1] && refs[..n][n - 1] == refs[n - 1];
    }
  }

  lemma {:induction false} RefIsLoaded(env: Env, lib: Library, file: string, visited: set<string>, r: Ref, ref: Json, i: nat)
    requires |visited| <= MAX_REF_DEPTH && RefUnfolds(env, file, r, ref) && RefAdmissible(r, visited)
    ensures Load(env, lib, file, visited, ref, i) ==
            Loaded(Some((FieldsOf(lib, r.content), LastFile(r.content, r.path))), [])
    decreases r, 0
  {
    hide ResolveItem, FieldsOf;
    var content := env.files[r.path].content;
    SpreadOfItem(lib, r.content);
    if Refers(content) {
      assert |visited + {r.path}| <= MAX_REF_DEPTH;
      TreeIsResolved(env, lib, r.path, visited + {r.path}, r.content, content, 0);
      OneItem(env, lib, r.path, visited + {r.path}, content);
    }
  }

  lemma OneItem(env: Env, lib: Library, file: string, visited: set<string>, item: Json)
    requires |visited| <= MAX_REF_DEPTH
    ensures Resolve(env, lib, file, visited, [item]) == ResolveItem(env, lib, file, visited, item, 0)
  {
    hide ResolveItem;
    var here := ResolveItem(env, lib, file, visited, item, 0);
    assert ResolveFrom(env, lib, file, visited, [item], 1) == ([], []);
    assert here.0 + [] == here.0 && here.1 + [] == here.1;
  }

  lemma {:induction false} TreesAreResolved(env: Env, lib: Library, file: string, visited: set<string>, ts: seq<Tree>,
                                            items: seq<Json>, i: nat)
    requires |visited| <= MAX_REF_DEPTH && UnfoldsAll(env, file, visited, ts, items) && i <= |items|
    ensures ResolveFrom(env, lib, file, visited, items, i) == (ResolvedOf(lib, ts, file)[i..], [])
    decreases |items| - i
  {
    hide ResolveItem, Unfolds, Admissible, ItemOf, LastFile;
    var all := ResolvedOf(lib, ts, file);
    if i < |items| {
      TreeIsResolved(env, lib, file, visited, ts[i], items[i], i);
      TreesAreResolved(env, lib, file, visited, ts, items, i + 1);
      assert all[i..] == [all[i]] + all[i + 1..];
    } else {
      assert all[i..] == [];
    }
  }

  /** When the items unfold into admissible trees, resolving them gives the meaning of the trees, in
      order, each under the file it ends in, and records nothing. */
  lemma ResolutionIsTheMeaning(env: Env, lib: Library, file: string, visited: set<string>, ts: seq<Tree>, items: seq<Json>)
    requires |visited| <= MAX_REF_DEPTH && UnfoldsAll(env, file, visited, ts, items)
    ensures Resolve(env, lib, file, visited, items) == (ResolvedOf(lib, ts, file), [])
  {
    hide ResolveFrom, UnfoldsAll;
    TreesAreResolved(env, lib, file, visited, ts, items, 0);
    ResolveStarts(env, lib, file, visited, items);
  }

  // ---------- no error comes from a tree ----------

  lemma {:induction false} ItemHasTree(env: Env, lib: Library, file: string, visited: set<string>, item: Json, i: nat)
    returns (t: Tree)
    requires |visited| <= MAX_REF_DEPTH && ResolveItem(env, lib, file, visited, item, i).1 == []
    ensures (item.JObject? || item.JArray?) && Unfolds(env, file, t, item) && Admissible(t, visited) && t.item == item
    decreases MAX_REF_DEPTH + 1 - |visited|, 2
  {
    hide MergeRefs;
    if HasRefs(item) {
      var refs := RefsHaveTrees(env, lib, file, visited, RefsOf(item), i, |RefsOf(item)|);
      t := Node(item, refs);
    } else {
      t := Plain(item);
    }
  }

  lemma {:induction false} RefsHaveTrees(env: Env, lib: Library, file: string, visited: set<string>, names: seq<Json>, i: nat,
                                         n: nat) returns (refs: seq<Ref>)
    requires |visited| <= MAX_REF_DEPTH && n <= |names| && MergeRefs(env, lib, file, visited, names, i, n).errors == []
    ensures |refs| == n
    ensures forall j :: 0 <= j < n ==> RefUnfolds(env, file, refs[j], names[j]) && RefAdmissible(refs[j], visited)
    decreases MAX_REF_DEPTH + 1 - |visited|, 1, n
  {
    hide Load, RefUnfolds, RefAdmissible;
    if n == 0 {
      refs := [];
    } else {
      refs := RefsHaveTrees(env, lib, file, visited, names, i, n - 1);
      var r := RefHasTree(env, lib, file, visited, names[n - 1], i);
      refs := refs + [r];
    }
  }

  lemma {:induction false} RefHasTree(env: Env, lib: Library, file: string, visited: set<string>, ref: Json, i: nat)
    returns (r: Ref)
    requires |visited| <= MAX_REF_DEPTH && Load(env, lib, file, visited, ref, i).errors == []
    ensures RefUnfolds(env, file, r, ref) && RefAdmissible(r, visited)
    decreases MAX_REF_DEPTH + 1 - |visited|, 0
  {
    hide ResolveItem, Unfolds, Admissible;
    var path := env.resolve(file, ref.s);
    var content := env.files[path].content;
    if Refers(content) {
      if |visited + {path}| <= MAX_REF_DEPTH {
        OneItem(env, lib, path, visited + {path}, content);
        var t := ItemHasTree(env, lib, path, visited + {path}, content, 0);
        r := Ref(path, t);
        assert |visited + {path}| == |visited| + 1;
      }
    } else {
      PlainIsATree(env, path, content, visited + {path});
      r := Ref(path, Plain(content));
    }
  }

  lemma PlainIsATree(env: Env, file: string, item: Json, visited: set<string>)
    requires !Refers(item)
    ensures Unfolds(env, file, Plain(item), item) && Admissible(Plain(item), visited)
  {
  }

  lemma {:induction false} ItemsHaveTrees(env: Env, lib: Library, file: string, visited: set<string>, items: seq<Json>, i: nat)
    returns (ts: seq<Tree>)
    requires |visited| <= MAX_REF_DEPTH && i <= |items| && ResolveFrom(env, lib, file, visited, items, i).1 == []
    ensures UnfoldsAll(env, file, visited, ts, items[i..])
    decreases |items| - i
  {
    hide ResolveItem, Unfolds, Admissible;
    if i == |items| {
      ts := [];
    } else {
      var t := ItemHasTree(env, lib, file, visited, items[i], i);
      var rest := ItemsHaveTrees(env, lib, file, visited, items, i + 1);
      ts := [t] + rest;
      assert items[i..] == [items[i]] + items[i + 1..];
    }
  }

  /** No error is recorded if and only if the items unfold, over the files, into trees without a repeated
      file on any chain and within the depth limit. */
  lemma NoErrorIffAdmissibleTrees(env: Env, lib: Library, file: string, visited: set<string>, items: seq<Json>)
    requires |visited| <= MAX_REF_DEPTH
    ensures Resolve(env, lib, file, visited, items).1 == [] <==> exists ts :: UnfoldsAll(env, file, visited, ts, items)
  {
    hide ResolveFrom, UnfoldsAll, Resolve;
    if Resolve(env, lib, file, visited, items).1 == [] {
      ResolveStarts(env, lib, file, visited, items);
      var ts := ItemsHaveTrees(env, lib, file, visited, items, 0);
      assert items[0..] == items;
      assert UnfoldsAll(env, file, visited, ts, items);
    }
    forall ts | UnfoldsAll(env, file, visited, ts, items) ensures Resolve(env, lib, file, visited, items).1 == [] {
      ResolutionIsTheMeaning(env, lib, file, visited, ts, items);
    }
  }

  // ---------- revisits ----------

  /** The files `chain` are reached one from the other: the first by a reference of the item, each next by
      one of the content of the file before it. */
  ghost predicate Reaches(env: Env, file: string, item: Json, chain: seq<string>)
    decreases |chain|
  {
    chain == [] ||
    (HasRefs(item) && (exists j :: 0 <= j < |RefsOf(item)| && Names(env, file, RefsOf(item)[j], chain[0])) &&
     (|chain| > 1 ==> Loads(env, chain[0]) && Reaches(env, chain[0], env.files[chain[0]].content, chain[1..])))
  }

  predicate Names(env: Env, file: string, ref: Json, path: string) {
    ref.JString? && env.resolve(file, ref.s) == path
  }

  lemma {:induction false} ChainsDoNotRepeat(env: Env, file: string, t: Tree, item: Json, visited: set<string>, chain: seq<string>)
    requires Unfolds(env, file, t, item) && Admissible(t, visited) && Reaches(env, file, item, chain) && chain != []
    ensures chain[|chain| - 1] !in visited && chain[|chain| - 1] !in chain[..|chain| - 1]
    decreases |chain|
  {
    hide Unfolds, Admissible, Reaches;
    var r := FirstReference(env, file, t, item, visited, chain);
    if |chain| > 1 {
      ChainsDoNotRepeat(env, r.path, r.content, env.files[r.path].content, visited + {r.path}, chain[1..]);
      var last := chain[|chain| - 1];
      assert chain[1..][|chain| - 2] == last && last != chain[0];
      assert chain[..|chain| - 1] == [chain[0]] + chain[1..][..|chain| - 2];
    }
  }

  /** The tree follows the first reference of a chain. */
  lemma FirstReference(env: Env, file: string, t: Tree, item: Json, visited: set<string>, chain: seq<string>) returns (r: Ref)
    requires Unfolds(env, file, t, item) && Admissible(t, visited) && Reaches(env, file, item, chain) && chain != []
    ensures r.path == chain[0] && r.path !in visited && Loads(env, r.path)
    ensures Unfolds(env, r.path, r.content, env.files[r.path].content) && Admissible(r.content, visited + {r.path})
    ensures |chain| > 1 ==> Reaches(env, r.path, env.files[r.path].content, chain[1..])
  {
    var j :| 0 <= j < |RefsOf(item)| && Names(env, file, RefsOf(item)[j], chain[0]);
    r := t.refs[j];
    assert RefUnfolds(env, file, r, RefsOf(item)[j]) && RefAdmissible(r, visited);
  }

  /** A chain of references, of any length, that comes back to a file already on it is an error. */
  lemma RevisitAnywhereIsAnError(env: Env, lib: Library, file: string, visited: set<string>, items: seq<Json>, i: nat,
                                 chain: seq<string>)
    requires i < |items| && chain != [] && Reaches(env, file, items[i], chain)
    requires chain[|chain| - 1] in visited || chain[|chain| - 1] in chain[..|chain| - 1]
    ensures Resolve(env, lib, file, visited, items).1 != []
  {
    if |visited| <= MAX_REF_DEPTH && Resolve(env, lib, file, visited, items).1 == [] {
      NoErrorIffAdmissibleTrees(env, lib, file, visited, items);
      var ts :| UnfoldsAll(env, file, visited, ts, items);
      ChainsDoNotRepeat(env, file, ts[i], items[i], visited, chain);
      assert false;
    }
  }
}
