/** Resolution of `$ref` in definition items: chains of files merged left to right under inline
    overrides (shared/definition-validator/validate-refs.ts, lines 20 to 162). */
module RefItems {
  import opened Options
  import opened RefGraph

  type Fields = map<string, Json>

  /** What the language supplies: spreading a non-object into an object, and reading a member of an array. */
  datatype Library = Library(spreadOther: Json -> Fields, arrayMember: (Json, string) -> Option<Json>)

  const SPREAD := "...$ref."

  /** An item and the file it was declared in. */
  datatype Resolved = Resolved(item: Json, sourceFile: string)

  // ---------- helpers ----------

  function Member(lib: Library, cur: Option<Json>, seg: string): Option<Json> {
    match cur
    case Some(JObject(fields)) => if seg in fields then Some(fields[seg]) else None
    case Some(JArray(_)) => lib.arrayMember(cur.value, seg)
    case _ => None
  }

  function Walk(lib: Library, cur: Option<Json>, segs: seq<string>): Option<Json>
    decreases |segs|
  {
    if segs == [] then cur else Walk(lib, Member(lib, cur, segs[0]), segs[1..])
  }

  /** The parts of a path between its dots, empty ones included. */
  function SplitAtDots(path: string): (segs: seq<string>)
    ensures segs != []
  {
    if path == [] then [[]]
    else if path[0] == '.' then [[]] + SplitAtDots(path[1..])
    else
      var rest := SplitAtDots(path[1..]);
      [[path[0]] + rest[0]] + rest[1..]
  }

  function ByDotPath(lib: Library, content: Fields, path: string): Option<Json> {
    Walk(lib, Some(JObject(content)), SplitAtDots(path))
  }

  /** What one array element expands to against the merged content of the references. */
  function ExpandElement(lib: Library, content: Fields, el: Json): seq<Json> {
    if !(el.JString? && SPREAD <= el.s) then [el]
    else if el.s == SPREAD then []
    else
      match ByDotPath(lib, content, el.s[|SPREAD|..])
      case Some(JArray(items)) => items
      case _ => []
  }

  function ExpandSpreads(lib: Library, content: Fields, arr: seq<Json>): seq<Json> {
    if arr == [] then [] else ExpandElement(lib, content, arr[0]) + ExpandSpreads(lib, content, arr[1..])
  }

  function Spread(lib: Library, j: Json): Fields {
    if j.JObject? then j.fields else lib.spreadOther(j)
  }

  /** An override as it lands in the result: arrays with their spread markers expanded. */
  function Overriding(lib: Library, content: Fields, v: Json): Json {
    if v.JArray? then JArray(ExpandSpreads(lib, content, v.items)) else v
  }

  function Merged(lib: Library, content: Fields, overrides: Fields): Fields {
    map k | k in content.Keys + overrides.Keys ::
      if k in overrides then Overriding(lib, content, overrides[k]) else content[k]
  }

  predicate HasRefs(item: Json) {
    item.JObject? && REF in item.fields && (item.fields[REF].JString? || item.fields[REF].JArray?)
  }

  function RefsOf(item: Json): seq<Json>
    requires HasRefs(item)
  {
    if item.fields[REF].JString? then [item.fields[REF]] else item.fields[REF].items
  }

  // ---------- resolution as a function ----------

  /** The content of one reference and the file it came from, or None with the errors recorded. */
  datatype Loaded = Loaded(found: Option<(Fields, string)>, errors: seq<Error>)

  predicate Refers(content: Json) { content.JObject? && REF in content.fields }

  function Load(env: Env, lib: Library, file: string, visited: set<string>, ref: Json, i: nat): (r: Loaded)
    requires |visited| <= MAX_REF_DEPTH
    ensures r.found == None <==> r.errors != []
    decreases MAX_REF_DEPTH + 1 - |visited|, 0
  {
    if !ref.JString? then Loaded(None, [RefNotAString(i)])
    else
      var path := env.resolve(file, ref.s);
      if path in visited then Loaded(None, [Circular(i, ref.s)])
      else if path !in env.files then Loaded(None, [NotFound(i, ref.s)])
      else if env.files[path].Unparseable? || env.files[path].content.JNull? then Loaded(None, [CannotParse(i, ref.s)])
      else
        var content := env.files[path].content;
        if !Refers(content) then Loaded(Some((Spread(lib, content), path)), [])
        else
          var (items, errors) := Resolve(env, lib, path, visited + {path}, [content]);
          if items == [] then Loaded(None, errors)
          else Loaded(Some((Spread(lib, items[0].item), items[0].sourceFile)), errors)
  }

  /** References `j` and up merged over `content`: the merged content, the last file, whether one
      failed, and the errors. */
  datatype Merge = Merge(content: Fields, last: Option<string>, failed: bool, errors: seq<Error>)

  function MergeStep(m: Merge, l: Loaded): Merge {
    match l.found
    case None => m.(failed := true, errors := m.errors + l.errors)
    case Some((content, source)) => m.(content := m.content + content, last := Some(source), errors := m.errors + l.errors)
  }

  function MergeRefs(env: Env, lib: Library, file: string, visited: set<string>, refs: seq<Json>, i: nat, n: nat): (m: Merge)
    requires |visited| <= MAX_REF_DEPTH && n <= |refs|
    ensures m.failed <==> m.errors != []
    decreases MAX_REF_DEPTH + 1 - |visited|, 1, n
  {
    if n == 0 then Merge(map[], None, false, [])
    else MergeStep(MergeRefs(env, lib, file, visited, refs, i, n - 1), Load(env, lib, file, visited, refs[n - 1], i))
  }

  /** One item: resolved, or dropped with errors. */
  function ResolveItem(env: Env, lib: Library, file: string, visited: set<string>, item: Json, i: nat):
    (r: (seq<Resolved>, seq<Error>))
    requires |visited| <= MAX_REF_DEPTH
    ensures |r.0| <= 1 && (r.0 == [] <==> r.1 != [])
    decreases MAX_REF_DEPTH + 1 - |visited|, 2
  {
    if !item.JObject? && !item.JArray? then ([], [NotAnObject(i)])
    else if !HasRefs(item) then ([Resolved(item, file)], [])
    else
      var refs := RefsOf(item);
      var m := MergeRefs(env, lib, file, visited, refs, i, |refs|);
      if m.failed then ([], m.errors)
      else ([Resolved(JObject(Merged(lib, m.content, item.fields - {REF})), m.last.GetOr(file))], m.errors)
  }

  function ResolveFrom(env: Env, lib: Library, file: string, visited: set<string>, items: seq<Json>, i: nat):
    (r: (seq<Resolved>, seq<Error>))
    requires |visited| <= MAX_REF_DEPTH && i <= |items|
    ensures |r.0| <= |items| - i && (|r.0| == |items| - i <==> r.1 == [])
    decreases MAX_REF_DEPTH + 1 - |visited|, 3, |items| - i
  {
    if i == |items| then ([], [])
    else
      var here := ResolveItem(env, lib, file, visited, items[i], i);
      var rest := ResolveFrom(env, lib, file, visited, items, i + 1);
      (here.0 + rest.0, here.1 + rest.1)
  }

  /** Every item dropped records an error and every error drops an item; a chain that is too deep
      drops them all. */
  function Resolve(env: Env, lib: Library, file: string, visited: set<string>, items: seq<Json>):
    (r: (seq<Resolved>, seq<Error>))
    ensures |r.0| <= |items|
    ensures r.1 == [] <==> |visited| <= MAX_REF_DEPTH && |r.0| == |items|
    decreases MAX_REF_DEPTH + 1 - |visited|, 4
  {
    if |visited| > MAX_REF_DEPTH then ([], [TooDeep]) else ResolveFrom(env, lib, file, visited, items, 0)
  }

  // ---------- resolution as the source runs it ----------

  method ExpandRefSpreads(lib: Library, arr: seq<Json>, content: Fields) returns (out: seq<Json>)
    ensures out == ExpandSpreads(lib, content, arr)
  {
    hide ExpandElement;
    out := [];
    for i := 0 to |arr|
      invariant out + ExpandSpreads(lib, content, arr[i..]) == ExpandSpreads(lib, content, arr)
    {
      assert arr[i..][1..] == arr[i + 1..];
      Regroup(out, ExpandElement(lib, content, arr[i]), ExpandSpreads(lib, content, arr[i + 1..]));
      out := out + ExpandElement(lib, content, arr[i]);
    }
  }

  method ResolveRefs(env: Env, lib: Library, file: string, visited: set<string>, items: seq<Json>, r: ValidationResult)
    returns (resolved: seq<Resolved>)
    modifies r
    ensures resolved == Resolve(env, lib, file, visited, items).0
    ensures r.errors == old(r.errors) + Resolve(env, lib, file, visited, items).1
    decreases MAX_REF_DEPTH + 1 - |visited|, 4
  {
    hide ResolveItem;
    resolved := [];
    if |visited| > MAX_REF_DEPTH {
      r.Err(TooDeep);
      return;
    }
    for i := 0 to |items|
      invariant resolved + ResolveFrom(env, lib, file, visited, items, i).0 == Resolve(env, lib, file, visited, items).0
      invariant r.errors + ResolveFrom(env, lib, file, visited, items, i).1
             == old(r.errors) + Resolve(env, lib, file, visited, items).1
    {
      ghost var out, errs := resolved, r.errors;
      ghost var here := ResolveItem(env, lib, file, visited, items[i], i);
      ghost var rest := ResolveFrom(env, lib, file, visited, items, i + 1);
      var one := ResolveOne(env, lib, file, visited, items[i], i, r);
      resolved := resolved + one;
      Regroup(out, here.0, rest.0);
      Regroup(errs, here.1, rest.1);
    }
    assert resolved + [] == resolved && r.errors + [] == r.errors;
  }

  method ResolveOne(env: Env, lib: Library, file: string, visited: set<string>, item: Json, i: nat, r: ValidationResult)
    returns (resolved: seq<Resolved>)
    requires |visited| <= MAX_REF_DEPTH
    modifies r
    ensures resolved == ResolveItem(env, lib, file, visited, item, i).0
    ensures r.errors == old(r.errors) + ResolveItem(env, lib, file, visited, item, i).1
    decreases MAX_REF_DEPTH + 1 - |visited|, 2
  {
    hide MergeRefs;
    if !item.JObject? && !item.JArray? {
      r.Err(NotAnObject(i));
      return [];
    }
    if !HasRefs(item) {
      return [Resolved(item, file)];
    }
    var content, last, hasError := MergeAll(env, lib, file, visited, RefsOf(item), i, r);
    if hasError {
      return [];
    }
    var merged := MergeOverrides(lib, content, item.fields - {REF});
    return [Resolved(JObject(merged), last.GetOr(file))];
  }

  method MergeAll(env: Env, lib: Library, file: string, visited: set<string>, refs: seq<Json>, i: nat, r: ValidationResult)
    returns (content: Fields, last: Option<string>, hasError: bool)
    requires |visited| <= MAX_REF_DEPTH
    modifies r
    ensures var m := MergeRefs(env, lib, file, visited, refs, i, |refs|);
            content == m.content && last == m.last && hasError == m.failed && r.errors == old(r.errors) + m.errors
    decreases MAX_REF_DEPTH + 1 - |visited|, 1
  {
    hide Load;
    content, last, hasError := map[], None, false;
    for n := 0 to |refs|
      invariant var m := MergeRefs(env, lib, file, visited, refs, i, n);
                content == m.content && last == m.last && hasError == m.failed && r.errors == old(r.errors) + m.errors
    {
      ghost var before := MergeRefs(env, lib, file, visited, refs, i, n).errors;
      ghost var errors := Load(env, lib, file, visited, refs[n], i).errors;
      Regroup(old(r.errors), before, errors);
      var found := LoadInto(env, lib, file, visited, refs[n], i, r);
      match found
      case None => hasError := true;
      case Some((fields, source)) => content, last := content + fields, Some(source);
    }
  }

  method LoadInto(env: Env, lib: Library, file: string, visited: set<string>, ref: Json, i: nat, r: ValidationResult)
    returns (found: Option<(Fields, string)>)
    requires |visited| <= MAX_REF_DEPTH
    modifies r
    ensures found == Load(env, lib, file, visited, ref, i).found
    ensures r.errors == old(r.errors) + Load(env, lib, file, visited, ref, i).errors
    decreases MAX_REF_DEPTH + 1 - |visited|, 0
  {
    hide ResolveFrom;
    if !ref.JString? {
      r.Err(RefNotAString(i));
      return None;
    }
    var path := env.resolve(file, ref.s);
    if path in visited {
      r.Err(Circular(i, ref.s));
      return None;
    }
    if path !in env.files {
      r.Err(NotFound(i, ref.s));
      return None;
    }
    if env.files[path].Unparseable? || env.files[path].content.JNull? {
      r.Err(CannotParse(i, ref.s));
      return None;
    }
    var content := env.files[path].content;
    if !Refers(content) {
      return Some((Spread(lib, content), path));
    }
    var inner := ResolveRefs(env, lib, path, visited + {path}, [content], r);
    if |inner| == 0 {
      return None;
    }
    return Some((Spread(lib, inner[0].item), inner[0].sourceFile));
  }

  /** Inline overrides over the merged content; array overrides expand their spread markers. */
  method MergeOverrides(lib: Library, content: Fields, overrides: Fields) returns (merged: Fields)
    ensures merged == Merged(lib, content, overrides)
  {
    hide Overriding;
    merged := content + overrides;
    var left := overrides.Keys;
    while left != {}
      invariant left <= overrides.Keys
      invariant merged.Keys == content.Keys + overrides.Keys
      invariant forall k :: k in merged ==>
        (merged[k] == if k in left then overrides[k]
                      else if k in overrides then Overriding(lib, content, overrides[k]) else content[k])
      decreases left
    {
      var key :| key in left;
      PlainOverride(lib, content, overrides[key]);
      if overrides[key].JArray? {
        var items := ExpandRefSpreads(lib, overrides[key].items, content);
        merged := merged[key := JArray(items)];
      }
      left := left - {key};
    }
  }

  lemma PlainOverride(lib: Library, content: Fields, v: Json)
    ensures Overriding(lib, content, v) == if v.JArray? then JArray(ExpandSpreads(lib, content, v.items)) else v
  {
  }

  // ---------- errors ----------

  /** A reference to a file already on the chain drops its item with an error. */
  lemma RevisitedFileDropsItem(env: Env, lib: Library, file: string, visited: set<string>, item: Json, i: nat, j: nat)
    requires |visited| <= MAX_REF_DEPTH && HasRefs(item) && j < |RefsOf(item)| && RefsOf(item)[j].JString?
    requires env.resolve(file, RefsOf(item)[j].s) in visited
    ensures ResolveItem(env, lib, file, visited, item, i).0 == []
    ensures Circular(i, RefsOf(item)[j].s) in ResolveItem(env, lib, file, visited, item, i).1
  {
    var refs := RefsOf(item);
    var l := Load(env, lib, file, visited, refs[j], i);
    assert l.errors == [Circular(i, refs[j].s)];
    hide Load;
    MergeKeepsErrors(env, lib, file, visited, refs, i, j, |refs|);
    var m := MergeRefs(env, lib, file, visited, refs, i, |refs|);
    assert Circular(i, refs[j].s) in l.errors;
    assert m.errors != [] && m.failed;
    hide MergeRefs;
  }

  lemma {:induction false} MergeKeepsErrors(
    env: Env, lib: Library, file: string, visited: set<string>, refs: seq<Json>, i: nat, j: nat, n: nat)
    requires |visited| <= MAX_REF_DEPTH && j < n <= |refs|
    ensures forall e :: e in Load(env, lib, file, visited, refs[j], i).errors ==>
              e in MergeRefs(env, lib, file, visited, refs, i, n).errors
    decreases n
  {
    hide Load;
    if j < n - 1 {
      MergeKeepsErrors(env, lib, file, visited, refs, i, j, n - 1);
    }
  }

  // ---------- the result has no references ----------

  /** Wherever `$ref` occurs, in a file or an item, it is a string or an array. */
  predicate TypedRef(j: Json) { Refers(j) ==> HasRefs(j) }

  ghost predicate TypedFiles(env: Env, lib: Library) {
    (forall p :: p in env.files && env.files[p].Parsed? ==> TypedRef(env.files[p].content)) &&
    (forall j :: REF !in lib.spreadOther(j))
  }

  lemma {:induction false} LoadedHasNoRef(env: Env, lib: Library, file: string, visited: set<string>, ref: Json, i: nat)
    requires |visited| <= MAX_REF_DEPTH && TypedFiles(env, lib)
    ensures var l := Load(env, lib, file, visited, ref, i); l.found.Some? ==> REF !in l.found.value.0
    decreases MAX_REF_DEPTH + 1 - |visited|, 0
  {
    hide ResolveFrom;
    if Load(env, lib, file, visited, ref, i).found.Some? {
      var path := env.resolve(file, ref.s);
      var content := env.files[path].content;
      if Refers(content) {
        NoReferenceIsLeft(env, lib, path, visited + {path}, [content]);
      }
    }
  }

  lemma {:induction false} MergedHasNoRef(env: Env, lib: Library, file: string, visited: set<string>, refs: seq<Json>, i: nat, n: nat)
    requires |visited| <= MAX_REF_DEPTH && TypedFiles(env, lib) && n <= |refs|
    ensures REF !in MergeRefs(env, lib, file, visited, refs, i, n).content
    decreases MAX_REF_DEPTH + 1 - |visited|, 1, n
  {
    hide Load;
    if n > 0 {
      MergedHasNoRef(env, lib, file, visited, refs, i, n - 1);
      LoadedHasNoRef(env, lib, file, visited, refs[n - 1], i);
    }
  }

  /** No resolved item has a `$ref`. */
  lemma {:induction false} NoReferenceIsLeft(env: Env, lib: Library, file: string, visited: set<string>, items: seq<Json>)
    requires TypedFiles(env, lib) && forall j :: 0 <= j < |items| ==> TypedRef(items[j])
    ensures forall r :: r in Resolve(env, lib, file, visited, items).0 ==> !Refers(r.item)
    decreases MAX_REF_DEPTH + 1 - |visited|, 4
  {
    if |visited| <= MAX_REF_DEPTH {
      NoReferenceIsLeftFrom(env, lib, file, visited, items, 0);
    }
  }

  lemma {:induction false} NoReferenceIsLeftFrom(
    env: Env, lib: Library, file: string, visited: set<string>, items: seq<Json>, i: nat)
    requires |visited| <= MAX_REF_DEPTH && i <= |items|
    requires TypedFiles(env, lib) && forall j :: 0 <= j < |items| ==> TypedRef(items[j])
    ensures forall r :: r in ResolveFrom(env, lib, file, visited, items, i).0 ==> !Refers(r.item)
    decreases MAX_REF_DEPTH + 1 - |visited|, 3, |items| - i
  {
    hide MergeRefs;
    if i < |items| {
      NoReferenceIsLeftFrom(env, lib, file, visited, items, i + 1);
      if HasRefs(items[i]) {
        MergedHasNoRef(env, lib, file, visited, RefsOf(items[i]), i, |RefsOf(items[i])|);
      }
    }
  }

  function ItemsOf(rs: seq<Resolved>): (items: seq<Json>)
    ensures |items| == |rs|
  {
    seq(|rs|, i requires 0 <= i < |rs| => rs[i].item)
  }

  /** Resolving resolved items again changes none of them and records nothing. */
  lemma SecondResolutionIsIdentity(env: Env, lib: Library, file: string, visited: set<string>, items: seq<Json>)
    requires |visited| <= MAX_REF_DEPTH
    requires TypedFiles(env, lib) && forall j :: 0 <= j < |items| ==> TypedRef(items[j])
    ensures var once := ItemsOf(Resolve(env, lib, file, visited, items).0);
            var twice := Resolve(env, lib, file, visited, once);
            ItemsOf(twice.0) == once && twice.1 == []
  {
    NoReferenceIsLeft(env, lib, file, visited, items);
    OnlyObjectsAreLeft(env, lib, file, visited, items, 0);
    var once := ItemsOf(Resolve(env, lib, file, visited, items).0);
    hide Resolve;
    assert forall k :: 0 <= k < |once| ==> (once[k].JObject? || once[k].JArray?) && !Refers(once[k]) by {
      assert forall k :: 0 <= k < |once| ==> Resolve(env, lib, file, visited, items).0[k] in Resolve(env, lib, file, visited, items).0;
    }
    PlainItemsStay(env, lib, file, visited, once, 0);
    ResolveStarts(env, lib, file, visited, once);
  }

  lemma ResolveStarts(env: Env, lib: Library, file: string, visited: set<string>, items: seq<Json>)
    requires |visited| <= MAX_REF_DEPTH
    ensures Resolve(env, lib, file, visited, items) == ResolveFrom(env, lib, file, visited, items, 0)
  {
  }

  lemma {:induction false} OnlyObjectsAreLeft(env: Env, lib: Library, file: string, visited: set<string>, items: seq<Json>, i: nat)
    requires |visited| <= MAX_REF_DEPTH && i <= |items|
    ensures forall r :: r in ResolveFrom(env, lib, file, visited, items, i).0 ==> r.item.JObject? || r.item.JArray?
    decreases |items| - i
  {
    hide MergeRefs;
    if i < |items| {
      OnlyObjectsAreLeft(env, lib, file, visited, items, i + 1);
    }
  }

  lemma {:induction false} PlainItemsStay(env: Env, lib: Library, file: string, visited: set<string>, items: seq<Json>, i: nat)
    requires |visited| <= MAX_REF_DEPTH && i <= |items|
    requires forall k :: 0 <= k < |items| ==> (items[k].JObject? || items[k].JArray?) && !Refers(items[k])
    ensures var r := ResolveFrom(env, lib, file, visited, items, i); ItemsOf(r.0) == items[i..] && r.1 == []
    decreases |items| - i
  {
    hide MergeRefs;
    if i < |items| {
      PlainItemsStay(env, lib, file, visited, items, i + 1);
      var rest := ResolveFrom(env, lib, file, visited, items, i + 1);
      assert ItemsOf([Resolved(items[i], file)] + rest.0) == [items[i]] + ItemsOf(rest.0);
      assert items[i..] == [items[i]] + items[i + 1..];
    }
  }
}
