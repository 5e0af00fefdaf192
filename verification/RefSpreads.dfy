/** What the spread markers of an override stand for: the array that a dotted path leads to in the content of
    the references (shared/definition-validator/validate-refs.ts, lines 20 to 48 and 144 to 153). */
module RefSpreads {
  import opened Options
  import opened RefGraph
  import opened RefItems

  // ---------- dotted paths ----------

  predicate HasNoDot(s: string) { '.' !in s }

  predicate AreKeys(keys: seq<string>) {
    keys != [] && forall i | 0 <= i < |keys| :: HasNoDot(keys[i])
  }

  /** The keys joined by dots. */
  function Dotted(keys: seq<string>): string
    requires keys != []
  {
    if |keys| == 1 then keys[0] else keys[0] + "." + Dotted(keys[1..])
  }

  /** Going down from `cur` key by key one meets `v` at the end. */
  ghost predicate Leads(lib: Library, cur: Json, keys: seq<string>, v: Json)
    decreases |keys|
  {
    if keys == [] then cur == v
    else
      || (cur.JObject? && keys[0] in cur.fields && Leads(lib, cur.fields[keys[0]], keys[1..], v))
      || (cur.JArray? && lib.arrayMember(cur, keys[0]).Some? && Leads(lib, lib.arrayMember(cur, keys[0]).value, keys[1..], v))
  }

  /** The dotted path leads to `v` in the content. */
  ghost predicate PathLeads(lib: Library, content: Fields, path: string, v: Json) {
    exists keys :: AreKeys(keys) && Dotted(keys) == path && Leads(lib, JObject(content), keys, v)
  }

  lemma {:induction false} SplitIsDotted(path: string)
    ensures AreKeys(SplitAtDots(path)) && Dotted(SplitAtDots(path)) == path
  {
    if path != [] {
      SplitIsDotted(path[1..]);
      var rest := SplitAtDots(path[1..]);
      if path[0] == '.' {
        assert ([[]] + rest)[1..] == rest;
      } else {
        assert ([[path[0]] + rest[0]] + rest[1..])[1..] == rest[1..];
      }
    }
  }

  lemma {:induction false} DottedIsSplit(keys: seq<string>)
    requires AreKeys(keys)
    ensures SplitAtDots(Dotted(keys)) == keys
    decreases |keys|, |keys[0]|
  {
    var path := Dotted(keys);
    if keys[0] != [] {
      var shorter := [keys[0][1..]] + keys[1..];
      assert keys[0] == [keys[0][0]] + shorter[0] && shorter[1..] == keys[1..];
      assert path == [keys[0][0]] + Dotted(shorter);
      DottedIsSplit(shorter);
      assert keys == [[path[0]] + shorter[0]] + shorter[1..];
    } else if |keys| > 1 {
      assert path[1..] == Dotted(keys[1..]);
      DottedIsSplit(keys[1..]);
      assert keys == [[]] + keys[1..];
    }
  }

  lemma {:induction false} WalkLeads(lib: Library, cur: Option<Json>, keys: seq<string>, v: Json)
    ensures Walk(lib, cur, keys) == Some(v) <==> cur.Some? && Leads(lib, cur.value, keys, v)
    decreases |keys|
  {
    if keys != [] {
      WalkLeads(lib, Member(lib, cur, keys[0]), keys[1..], v);
    }
  }

  /** Reading by a dotted path gives the value it leads to, or nothing when it leads nowhere. */
  lemma PathIsRead(lib: Library, content: Fields, path: string, v: Json)
    ensures ByDotPath(lib, content, path) == Some(v) <==> PathLeads(lib, content, path, v)
  {
    hide Walk, Leads, Dotted, SplitAtDots;
    SplitIsDotted(path);
    WalkLeads(lib, Some(JObject(content)), SplitAtDots(path), v);
    forall keys | AreKeys(keys) && Dotted(keys) == path ensures keys == SplitAtDots(path) {
      DottedIsSplit(keys);
    }
  }

  /** A path of one key leads to the value of the key. */
  lemma KeyLeads(lib: Library, content: Fields, key: string, v: Json)
    requires HasNoDot(key)
    ensures PathLeads(lib, content, key, v) <==> key in content && content[key] == v
  {
    assert [key][1..] == [];
    assert AreKeys([key]) && Dotted([key]) == key;
    DottedIsSplit([key]);
    PathIsRead(lib, content, key, v);
    assert Walk(lib, Some(JObject(content)), [key]) == Walk(lib, Member(lib, Some(JObject(content)), key), []);
  }

  /** A path in two stages, the first of which leads to an object, leads where the second does from there. */
  lemma StagesLead(lib: Library, content: Fields, p: string, q: string, inner: Fields, v: Json)
    requires PathLeads(lib, content, p, JObject(inner))
    ensures PathLeads(lib, content, p + "." + q, v) <==> PathLeads(lib, inner, q, v)
  {
    hide Walk, Leads;
    PathIsRead(lib, content, p, JObject(inner));
    PathIsRead(lib, content, p + "." + q, v);
    PathIsRead(lib, inner, q, v);
    SplitStages(p, q);
    WalkStages(lib, Some(JObject(content)), SplitAtDots(p), SplitAtDots(q));
  }

  lemma {:induction false} SplitStages(p: string, q: string)
    ensures SplitAtDots(p + "." + q) == SplitAtDots(p) + SplitAtDots(q)
    decreases |p|
  {
    var path := p + "." + q;
    if p == [] {
      assert path[1..] == q;
    } else {
      assert path[1..] == p[1..] + "." + q;
      SplitStages(p[1..], q);
    }
  }

  lemma {:induction false} WalkStages(lib: Library, cur: Option<Json>, a: seq<string>, b: seq<string>)
    ensures Walk(lib, cur, a + b) == Walk(lib, Walk(lib, cur, a), b)
    decreases |a|
  {
    hide Member;
    if a == [] {
      assert a + b == b;
    } else {
      assert (a + b)[1..] == a[1..] + b;
      WalkStages(lib, Member(lib, cur, a[0]), a[1..], b);
    }
  }

  // ---------- what an array of an override stands for ----------

  predicate IsMarker(el: Json) { el.JString? && SPREAD <= el.s }

  function Marker(path: string): Json { JString(SPREAD + path) }

  ghost predicate LeadsToArray(lib: Library, content: Fields, path: string) {
    exists items :: PathLeads(lib, content, path, JArray(items))
  }

  /** A marker stands for the elements of the array its path leads to, or for nothing; every other element
      stands for itself. */
  ghost predicate StandsFor(lib: Library, content: Fields, el: Json, piece: seq<Json>) {
    if !IsMarker(el) then piece == [el]
    else
      var path := el.s[|SPREAD|..];
      if path != "" && LeadsToArray(lib, content, path) then PathLeads(lib, content, path, JArray(piece)) else piece == []
  }

  function Flat(pieces: seq<seq<Json>>): seq<Json> {
    if pieces == [] then [] else pieces[0] + Flat(pieces[1..])
  }

  /** `out` is `arr` with every element replaced, in place, by what it stands for. */
  ghost predicate IsExpansion(lib: Library, content: Fields, arr: seq<Json>, out: seq<Json>) {
    exists pieces :: |pieces| == |arr| && Flat(pieces) == out && AllStandFor(lib, content, arr, pieces)
  }

  ghost predicate AllStandFor(lib: Library, content: Fields, arr: seq<Json>, pieces: seq<seq<Json>>)
    requires |pieces| == |arr|
  {
    forall i :: 0 <= i < |arr| ==> StandsFor(lib, content, arr[i], pieces[i])
  }

  /** An element expands to the one thing it stands for. */
  lemma ElementStandsFor(lib: Library, content: Fields, el: Json, piece: seq<Json>)
    ensures StandsFor(lib, content, el, piece) <==> piece == ExpandElement(lib, content, el)
  {
    hide ByDotPath, PathLeads;
    if IsMarker(el) {
      var path := el.s[|SPREAD|..];
      assert el.s == SPREAD + path;
      assert el.s == SPREAD <==> path == "";
      forall items
        ensures ByDotPath(lib, content, path) == Some(JArray(items)) <==> PathLeads(lib, content, path, JArray(items))
      {
        PathIsRead(lib, content, path, JArray(items));
      }
    }
  }

  lemma {:induction false} FlatIs(lib: Library, content: Fields, arr: seq<Json>, pieces: seq<seq<Json>>)
    requires |pieces| == |arr| && AllStandFor(lib, content, arr, pieces)
    ensures Flat(pieces) == ExpandSpreads(lib, content, arr)
  {
    hide StandsFor, ExpandElement;
    if arr != [] {
      ElementStandsFor(lib, content, arr[0], pieces[0]);
      assert AllStandFor(lib, content, arr[1..], pieces[1..]);
      FlatIs(lib, content, arr[1..], pieces[1..]);
    }
  }

  /** Expanding the spread markers of an array gives its one expansion. */
  lemma SpreadsAreExpanded(lib: Library, content: Fields, arr: seq<Json>, out: seq<Json>)
    ensures IsExpansion(lib, content, arr, out) <==> out == ExpandSpreads(lib, content, arr)
  {
    hide StandsFor, ExpandElement, ExpandSpreads;
    var pieces := seq(|arr|, i requires 0 <= i < |arr| => ExpandElement(lib, content, arr[i]));
    forall i | 0 <= i < |arr| ensures StandsFor(lib, content, arr[i], pieces[i]) {
      ElementStandsFor(lib, content, arr[i], pieces[i]);
    }
    FlatIs(lib, content, arr, pieces);
    if IsExpansion(lib, content, arr, out) {
      var ps :| |ps| == |arr| && Flat(ps) == out && AllStandFor(lib, content, arr, ps);
      FlatIs(lib, content, arr, ps);
    }
  }

  // ---------- markers in place ----------

  lemma {:induction false} PlainStaysPlain(lib: Library, content: Fields, arr: seq<Json>)
    requires forall i :: 0 <= i < |arr| ==> !IsMarker(arr[i])
    ensures ExpandSpreads(lib, content, arr) == arr
  {
    if arr != [] {
      PlainStaysPlain(lib, content, arr[1..]);
    }
  }

  lemma {:induction false} ExpandConcat(lib: Library, content: Fields, a: seq<Json>, b: seq<Json>)
    ensures ExpandSpreads(lib, content, a + b) == ExpandSpreads(lib, content, a) + ExpandSpreads(lib, content, b)
  {
    hide ExpandElement;
    if a == [] {
      assert a + b == b;
    } else {
      assert (a + b)[1..] == a[1..] + b;
      ExpandConcat(lib, content, a[1..], b);
    }
  }

  /** Arrays one after the other expand one after the other, however many markers they hold. */
  lemma ExpansionsConcat(lib: Library, content: Fields, a: seq<Json>, b: seq<Json>, x: seq<Json>, y: seq<Json>)
    requires IsExpansion(lib, content, a, x) && IsExpansion(lib, content, b, y)
    ensures IsExpansion(lib, content, a + b, x + y)
  {
    hide IsExpansion;
    SpreadsAreExpanded(lib, content, a, x);
    SpreadsAreExpanded(lib, content, b, y);
    SpreadsAreExpanded(lib, content, a + b, x + y);
    ExpandConcat(lib, content, a, b);
  }

  /** An array without a marker stands as it is. */
  lemma PlainIsKept(lib: Library, content: Fields, arr: seq<Json>, out: seq<Json>)
    requires forall i :: 0 <= i < |arr| ==> !IsMarker(arr[i])
    ensures IsExpansion(lib, content, arr, out) <==> out == arr
  {
    hide IsExpansion;
    SpreadsAreExpanded(lib, content, arr, out);
    PlainStaysPlain(lib, content, arr);
  }

  lemma MarkerExpands(lib: Library, content: Fields, pre: seq<Json>, path: string, post: seq<Json>)
    requires forall i :: 0 <= i < |pre| ==> !IsMarker(pre[i])
    requires forall i :: 0 <= i < |post| ==> !IsMarker(post[i])
    ensures ExpandSpreads(lib, content, pre + [Marker(path)] + post) ==
            pre + ExpandElement(lib, content, Marker(path)) + post
  {
    hide ExpandElement, IsMarker, ExpandSpreads, Marker;
    ExpandConcat(lib, content, pre + [Marker(path)], post);
    ExpandConcat(lib, content, pre, [Marker(path)]);
    PlainStaysPlain(lib, content, pre);
    PlainStaysPlain(lib, content, post);
    OneExpands(lib, content, Marker(path));
  }

  lemma OneExpands(lib: Library, content: Fields, el: Json)
    ensures ExpandSpreads(lib, content, [el]) == ExpandElement(lib, content, el)
  {
    hide ExpandElement;
    assert [el][1..] == [];
    assert ExpandSpreads(lib, content, [el]) == ExpandElement(lib, content, el) + [];
  }

  /** One marker between elements that are none: its place is taken by the array its path leads to. It is
      taken by nothing if and only if the path is empty, or leads to no array, or to an empty one. */
  lemma MarkerIsReplaced(lib: Library, content: Fields, pre: seq<Json>, path: string, post: seq<Json>, out: seq<Json>)
    requires forall i :: 0 <= i < |pre| ==> !IsMarker(pre[i])
    requires forall i :: 0 <= i < |post| ==> !IsMarker(post[i])
    requires IsExpansion(lib, content, pre + [Marker(path)] + post, out)
    ensures forall items :: path != "" && PathLeads(lib, content, path, JArray(items)) ==> out == pre + items + post
    ensures out == pre + post <==>
            path == "" || !LeadsToArray(lib, content, path) || PathLeads(lib, content, path, JArray([]))
  {
    hide IsExpansion, PathLeads, ExpandElement, ByDotPath, ExpandSpreads;
    var piece := ExpandElement(lib, content, Marker(path));
    SpreadsAreExpanded(lib, content, pre + [Marker(path)] + post, out);
    MarkerExpands(lib, content, pre, path, post);
    ElementStandsFor(lib, content, Marker(path), piece);
    assert Marker(path).s[|SPREAD|..] == path;
    forall items, more | PathLeads(lib, content, path, JArray(items)) && PathLeads(lib, content, path, JArray(more))
      ensures items == more
    {
      PathIsRead(lib, content, path, JArray(items));
      PathIsRead(lib, content, path, JArray(more));
    }
    assert out == pre + post ==> |piece| == 0 by {
      assert |out| == |pre| + |piece| + |post|;
    }
    assert piece == [] ==> out == pre + post;
  }
}
