/** Dotted and bracketed paths into the assembled document (services/test-agent/doc_path.go). */
module DocPath {
  import opened Options
  import opened Matching

  // ---------- segments ----------

  /** The index of the first ']', if any. */
  function CloseIndex(s: string): (r: Option<nat>)
    ensures r.Some? ==> r.value < |s| && s[r.value] == ']' && ']' !in s[..r.value]
  {
    if s == "" then None
    else if s[0] == ']' then Some(0)
    else
      match CloseIndex(s[1..])
      case None => None
      case Some(i) =>
        assert s[..i + 1] == [s[0]] + s[1..][..i];
        Some(i + 1)
  }

  function Flush(current: string): seq<string> {
    if current == "" then [] else [current]
  }

  /** The segments of `path` after the characters gathered in `current`; None on an open bracket. */
  function Segments(path: string, current: string): Option<seq<string>>
    decreases |path|
  {
    if path == "" then Some(Flush(current))
    else if path[0] == '.' then Prefixed(Flush(current), Segments(path[1..], ""))
    else if path[0] == '[' then
      match CloseIndex(path)
      case None => None
      case Some(close) => Prefixed(Flush(current) + [path[..close + 1]], Segments(path[close + 1..], ""))
    else Segments(path[1..], current + [path[0]])
  }

  function Prefixed(front: seq<string>, rest: Option<seq<string>>): Option<seq<string>> {
    if rest == None then None else Some(front + rest.value)
  }

  function Parse(path: string): Option<seq<string>> { Segments(path, "") }

  method ParsePathSegments(path: string) returns (segments: Option<seq<string>>)
    ensures segments == Parse(path)
  {
    var found: seq<string> := [];
    var current := "";
    var i := 0;
    PrefixedByNothing(Parse(path));
    while i < |path|
      invariant 0 <= i <= |path|
      invariant Prefixed(found, Segments(path[i..], current)) == Parse(path)
      decreases |path| - i
    {
      var rest := path[i..];
      if path[i] == '.' {
        PrefixedTwice(found, Flush(current), Segments(rest[1..], ""));
        found, current := found + Flush(current), "";
        DropMore(path, i, 1);
        i := i + 1;
      } else if path[i] == '[' {
        var close := CloseIndex(rest);
        if close == None {
          return None;
        }
        var n := close.value + 1;
        PrefixedTwice(found, Flush(current) + [rest[..n]], Segments(rest[n..], ""));
        found, current := found + (Flush(current) + [rest[..n]]), "";
        DropMore(path, i, n);
        i := i + n;
      } else {
        current := current + [path[i]];
        DropMore(path, i, 1);
        i := i + 1;
      }
    }
    return Some(found + Flush(current));
  }

  lemma PrefixedTwice(a: seq<string>, b: seq<string>, rest: Option<seq<string>>)
    ensures Prefixed(a, Prefixed(b, rest)) == Prefixed(a + b, rest)
  {
    if rest.Some? {
      assert a + (b + rest.value) == a + b + rest.value;
    }
  }

  lemma PrefixedByNothing(rest: Option<seq<string>>)
    ensures Prefixed([], rest) == rest
  {
    if rest.Some? {
      assert [] + rest.value == rest.value;
    }
  }

  lemma DropMore(s: string, i: nat, n: nat)
    requires i + n <= |s|
    ensures s[i..][n..] == s[i + n..]
  {
  }

  // ---------- canonical spelling ----------

  predicate IsBracket(s: string) {
    |s| >= 2 && s[0] == '[' && s[|s| - 1] == ']' && ']' !in s[..|s| - 1]
  }

  predicate IsName(s: string) { s != "" && '.' !in s && '[' !in s }

  predicate IsSegment(s: string) { IsBracket(s) || IsName(s) }

  predicate AllSegments(segs: seq<string>) {
    forall i :: 0 <= i < |segs| ==> IsSegment(segs[i])
  }

  /** Names separated by dots, brackets attached. */
  function Print(segs: seq<string>): string {
    if segs == [] then ""
    else if |segs| == 1 then segs[0]
    else segs[0] + (if IsBracket(segs[1]) then "" else ".") + Print(segs[1..])
  }

  /** Parsing yields only well-formed segments. */
  lemma {:induction false} ParsedSegmentsAreValid(path: string, current: string)
    requires current == "" || IsName(current)
    ensures Segments(path, current).Some? ==> AllSegments(Segments(path, current).value)
    decreases |path|
  {
    if path != "" {
      if path[0] == '.' {
        ParsedSegmentsAreValid(path[1..], "");
      } else if path[0] == '[' {
        var close := CloseIndex(path);
        if close.Some? {
          ParsedSegmentsAreValid(path[close.value + 1..], "");
          assert path[..close.value + 1][..close.value] == path[..close.value];
          assert IsBracket(path[..close.value + 1]);
        }
      } else {
        assert IsName(current + [path[0]]);
        ParsedSegmentsAreValid(path[1..], current + [path[0]]);
      }
    }
  }

  /** A name at the front is gathered character by character. */
  lemma {:induction false} NameIsGathered(name: string, rest: string, current: string)
    requires '.' !in name && '[' !in name
    ensures Segments(name + rest, current) == Segments(rest, current + name)
    decreases |name|
  {
    if name == "" {
      assert name + rest == rest && current + name == current;
    } else {
      assert (name + rest)[1..] == name[1..] + rest;
      assert current + [name[0]] + name[1..] == current + name;
      NameIsGathered(name[1..], rest, current + [name[0]]);
    }
  }

  lemma {:induction false} CloseOfBracket(s: string, rest: string)
    requires s != "" && s[|s| - 1] == ']' && ']' !in s[..|s| - 1]
    ensures CloseIndex(s + rest) == Some(|s| - 1)
  {
    if |s| > 1 {
      assert s[0] == s[..|s| - 1][0];
      assert (s + rest)[1..] == s[1..] + rest;
      assert s[1..][..|s| - 2] == s[..|s| - 1][1..];
      CloseOfBracket(s[1..], rest);
    }
  }

  lemma BracketIsCut(s: string, rest: string, current: string)
    requires IsBracket(s)
    ensures Segments(s + rest, current) == Prefixed(Flush(current) + [s], Segments(rest, ""))
  {
    CloseOfBracket(s, rest);
    assert (s + rest)[..|s|] == s && (s + rest)[|s|..] == rest;
  }

  lemma DotEnds(rest: string, current: string)
    ensures Segments("." + rest, current) == Prefixed(Flush(current), Segments(rest, ""))
  {
    assert ("." + rest)[1..] == rest;
  }

  /** Printing segments and parsing them again gives the same segments. */
  lemma {:induction false} PrintParses(segs: seq<string>)
    requires AllSegments(segs)
    ensures Parse(Print(segs)) == Some(segs)
    decreases |segs|
  {
    hide CloseIndex;
    if segs == [] {
    } else {
      var s := segs[0];
      var sep := if |segs| > 1 && !IsBracket(segs[1]) then "." else "";
      var rest := Print(segs[1..]);
      assert Print(segs) == s + (sep + rest);
      PrintParses(segs[1..]);
      assert segs == [s] + segs[1..];
      if |segs| > 1 {
        assert segs[1..][0] == segs[1];
      }
      if IsBracket(s) {
        BracketIsCut(s, sep + rest, "");
        if sep == "." {
          DotEnds(rest, "");
          assert Flush("") + segs[1..] == segs[1..];
        } else {
          assert sep + rest == rest;
        }
        assert Flush("") + [s] == [s];
      } else {
        NameIsGathered(s, sep + rest, "");
        assert "" + s == s;
        if sep == "." {
          DotEnds(rest, s);
        } else if |segs| > 1 {
          assert sep + rest == rest;
          FirstBracketFlushes(segs[1..], s);
        } else {
          assert sep + rest == "" && segs == [s];
        }
      }
    }
  }

  lemma FirstBracketFlushes(segs: seq<string>, current: string)
    requires segs != [] && IsBracket(segs[0]) && current != ""
    requires Parse(Print(segs)) == Some(segs)
    ensures Segments(Print(segs), current) == Some([current] + segs)
  {
    hide Segments, CloseIndex, IsBracket;
    var s := segs[0];
    var tail := if |segs| == 1 then "" else (if IsBracket(segs[1]) then "" else ".") + Print(segs[1..]);
    assert Print(segs) == s + tail;
    BracketIsCut(s, tail, current);
    BracketIsCut(s, tail, "");
    assert Flush("") + [s] == [s];
    var rest := Segments(tail, "");
    if rest.Some? {
      assert [current] + [s] + rest.value == [current] + ([s] + rest.value);
    }
  }

  /** Every parsable path has a canonical spelling that parses to the same segments. */
  lemma PathsHaveCanonicalSpelling(path: string)
    requires Parse(path).Some?
    ensures Parse(Print(Parse(path).value)) == Parse(path)
  {
    ParsedSegmentsAreValid(path, "");
    PrintParses(Parse(path).value);
  }

  // ---------- evaluation ----------

  /** The key a case-insensitive lookup settles on, given the keys of the object. */
  type KeyFolding = (set<string>, string) -> Option<string>

  function Step(fold: KeyFolding, value: Value, seg: string): Option<Value> {
    if value.Nil? then None
    else if IndexOf(seg).Some? then
      if !value.List? then None
      else
        var n := |value.items|;
        var i := if IndexOf(seg).value < 0 then n + IndexOf(seg).value else IndexOf(seg).value;
        if 0 <= i < n then Some(value.items[i]) else None
    else if !value.Object? then None
    else if seg in value.fields then Some(value.fields[seg])
    else
      match fold(value.fields.Keys, seg)
      case Some(k) => if k in value.fields then Some(value.fields[k]) else None
      case None => None
  }

  function Walk(fold: KeyFolding, value: Value, segs: seq<string>): Option<Value>
    decreases |segs|
  {
    if segs == [] then Some(value)
    else
      match Step(fold, value, segs[0])
      case None => None
      case Some(v) => Walk(fold, v, segs[1..])
  }

  /** The document and the path an expression starts from; None for the rejected spellings. */
  function Origin(doc: Value, path: string, scoped: Option<Value>): Option<(Value, string)> {
    if path == "" || doc.Nil? || path == "$$" then None
    else if "$$." <= path then
      if scoped == None || scoped.value.Nil? then None else Some((scoped.value, path[3..]))
    else if "$." <= path then Some((doc, path[2..]))
    else Some((doc, path))
  }

  function Evaluate(fold: KeyFolding, doc: Value, path: string, scoped: Option<Value>): Option<Value> {
    match Origin(doc, path, scoped)
    case None => None
    case Some((start, p)) =>
      match Parse(p)
      case None => None
      case Some(segs) => if segs == [] then None else Walk(fold, start, segs)
  }

  /** A path of one name reads the field of that name, else the one that differs from it in case alone, if
      there is one, and reads nothing in a value without fields. */
  lemma NamesSelect(fold: KeyFolding, doc: Value, name: string)
    requires name != "" && forall i :: 0 <= i < |name| ==> name[i] !in {'.', '[', '$'}
    ensures Evaluate(fold, doc, name, None) ==
            if !doc.Object? then None
            else if name in doc.fields then Some(doc.fields[name])
            else
              var other := fold(doc.fields.Keys, name);
              if other.Some? && other.value in doc.fields then Some(doc.fields[other.value]) else None
  {
    hide Segments, CloseIndex;
    PrintParses([name]);
    assert Print([name]) == name;
    assert IndexOf(name) == None;
    assert [name][1..] == [];
    assert name[0] != '$';
    assert Origin(doc, name, None) == if doc.Nil? then None else Some((doc, name));
    assert Parse(name) == Some([name]);
    var found := Step(fold, doc, name);
    assert found.Some? ==> Walk(fold, found.value, [name][1..]) == found;
    assert Walk(fold, doc, [name]) == found;
  }

  /** A path after "$." is read in the document, after "$$." in the scoped element, and nowhere when there is
      none. */
  lemma PrefixesChooseTheStart(fold: KeyFolding, doc: Value, p: string, scoped: Option<Value>)
    requires p != "" && p[0] != '$' && !doc.Nil?
    ensures Evaluate(fold, doc, "$." + p, scoped) == Evaluate(fold, doc, p, None)
    ensures Evaluate(fold, doc, "$$." + p, scoped) ==
            if scoped.Some? && !scoped.value.Nil? then Evaluate(fold, scoped.value, p, None) else None
  {
    hide Parse, Walk;
    assert ("$." + p)[..2] == "$." && ("$." + p)[2..] == p && ("$$." + p)[..3] == "$$." && ("$$." + p)[3..] == p;
    assert ("$." + p)[1] == '.' && ("$$." + p)[1] == '$' && |"$$." + p| > 2;
  }

  method EvaluateDocPath(fold: KeyFolding, doc: Value, path: string, scoped: Option<Value>) returns (result: Option<Value>)
    ensures result == Evaluate(fold, doc, path, scoped)
  {
    hide Step, Segments;
    var origin := Origin(doc, path, scoped);
    if origin == None {
      return None;
    }
    var (value, p) := origin.value;
    var segments := ParsePathSegments(p);
    if segments == None || segments.value == [] {
      return None;
    }
    var segs := segments.value;
    for i := 0 to |segs|
      invariant Walk(fold, value, segs[i..]) == Evaluate(fold, doc, path, scoped)
    {
      assert segs[i..][1..] == segs[i + 1..];
      var next := Step(fold, value, segs[i]);
      if next == None {
        return None;
      }
      value := next.value;
    }
    return Some(value);
  }

  lemma {:induction false} WalkConcat(fold: KeyFolding, value: Value, a: seq<string>, b: seq<string>)
    ensures Walk(fold, value, a + b) ==
            match Walk(fold, value, a) case None => None case Some(v) => Walk(fold, v, b)
    decreases |a|
  {
    hide Step;
    if a == [] {
      assert a + b == b;
    } else {
      assert (a + b)[1..] == a[1..] + b;
      var next := Step(fold, value, a[0]);
      if next.Some? {
        WalkConcat(fold, next.value, a[1..], b);
      }
    }
  }

  lemma {:induction false} ParseOfJoin(p: string, q: string, current: string)
    requires Segments(p, current).Some?
    ensures Segments(p + "." + q, current) == Prefixed(Segments(p, current).value, Parse(q))
    decreases |p|
  {
    if p == "" {
      assert p + "." + q == "." + q;
      DotEnds(q, current);
    } else if p[0] == '.' {
      assert (p + "." + q)[1..] == p[1..] + "." + q;
      ParseOfJoin(p[1..], q, "");
      PrefixedTwice(Flush(current), Segments(p[1..], "").value, Parse(q));
    } else if p[0] == '[' {
      var close := CloseIndex(p).value;
      var s, rest := p[..close + 1], p[close + 1..];
      assert s[..close] == p[..close];
      assert p == s + rest;
      assert p + "." + q == s + (rest + "." + q);
      ParseOfJoin(rest, q, "");
      BracketIsCut(s, rest + "." + q, current);
      PrefixedTwice(Flush(current) + [s], Segments(rest, "").value, Parse(q));
    } else {
      assert (p + "." + q)[1..] == p[1..] + "." + q;
      ParseOfJoin(p[1..], q, current + [p[0]]);
    }
  }

  /** A path that starts from the document it is given. */
  predicate Relative(q: string) { q != "" && q != "$$" && !("$." <= q) && !("$$." <= q) }

  /** Evaluating a joined path is evaluating its parts one after the other. The first part may start
      at the document or at the scoped element; it must not be a bare "$" or "$$". */
  lemma JoinedPathsCompose(fold: KeyFolding, doc: Value, scoped: Option<Value>, p: string, q: string)
    requires p != "$" && p != "$$" && Relative(q)
    requires Parse(q).Some? && Parse(q).value != []
    requires Origin(doc, p, scoped).Some?
    requires var start := Parse(Origin(doc, p, scoped).value.1); start.Some? && start.value != []
    ensures Evaluate(fold, doc, p + "." + q, scoped) ==
            match Evaluate(fold, doc, p, scoped) case None => None case Some(v) => Evaluate(fold, v, q, scoped)
  {
    hide Segments, Step;
    var (start, p') := Origin(doc, p, scoped).value;
    OriginOfJoin(doc, p, q, scoped);
    ParseOfJoin(p', q, "");
    WalkConcat(fold, start, Parse(p').value, Parse(q).value);
    var v := Evaluate(fold, doc, p, scoped);
    if v.Some? && v.value.Nil? {
      NilLeadsNowhere(fold, Parse(q).value);
    }
  }

  lemma OriginOfJoin(doc: Value, p: string, q: string, scoped: Option<Value>)
    requires p != "$" && p != "$$" && Origin(doc, p, scoped).Some?
    ensures var (start, p') := Origin(doc, p, scoped).value;
            Origin(doc, p + "." + q, scoped) == Some((start, p' + "." + q))
  {
    var joined := p + "." + q;
    assert |p| >= 3 ==> joined[..3] == p[..3];
    assert |p| >= 2 ==> joined[..2] == p[..2];
    if |p| >= 3 {
      assert joined[3..] == p[3..] + "." + q;
    }
    if |p| >= 2 {
      assert joined[2..] == p[2..] + "." + q;
    }
    if |p| == 1 {
      assert joined[0] == p[0] && joined[1] == '.';
    }
    if |p| == 2 {
      assert joined[0] == p[0] && joined[1] == p[1] && joined[2] == '.';
    }
  }

  lemma NilLeadsNowhere(fold: KeyFolding, segs: seq<string>)
    requires segs != []
    ensures Walk(fold, Nil, segs) == None
  {
  }

  // ---------- array indices ----------

  predicate IsDigit(c: char) { '0' <= c <= '9' }

  predicate IsDigits(s: string) { s != "" && forall i :: 0 <= i < |s| ==> IsDigit(s[i]) }

  function DigitsValue(s: string): nat
    requires forall i :: 0 <= i < |s| ==> IsDigit(s[i])
  {
    if s == "" then 0 else 10 * DigitsValue(s[..|s| - 1]) + DigitOf(s[|s| - 1])
  }

  function DigitOf(c: char): nat
    requires IsDigit(c)
  {
    c as int - '0' as int
  }

  /** The index of a segment of the form [n] or [-n]. */
  function IndexOf(seg: string): Option<int> {
    if |seg| < 3 || seg[0] != '[' || seg[|seg| - 1] != ']' then None
    else
      var inner := seg[1..|seg| - 1];
      var negative := inner[0] == '-';
      var digits := if negative then inner[1..] else inner;
      if !IsDigits(digits) then None
      else
        var n: int := DigitsValue(digits);
        Some(if negative then 0 - n else n)
  }

  function Decimal(n: nat): (s: string)
    ensures IsDigits(s)
  {
    if n < 10 then [('0' as int + n) as char] else Decimal(n / 10) + [('0' as int + n % 10) as char]
  }

  lemma {:induction false} DecimalValue(n: nat)
    ensures DigitsValue(Decimal(n)) == n
  {
    if n < 10 {
      assert Decimal(n)[..0] == "";
    } else {
      DecimalValue(n / 10);
      assert Decimal(n)[..|Decimal(n)| - 1] == Decimal(n / 10);
    }
  }

  /** [k] selects element k and [-k] element n - k of an array of length n; either fails exactly when
      that position is out of range. */
  lemma IndicesSelect(fold: KeyFolding, items: seq<Value>, k: nat)
    ensures Step(fold, List(items), "[" + Decimal(k) + "]") == if k < |items| then Some(items[k]) else None
    ensures k > 0 ==>
      Step(fold, List(items), "[-" + Decimal(k) + "]") == if k <= |items| then Some(items[|items| - k]) else None
  {
    DecimalValue(k);
    var digits := Decimal(k);
    hide Decimal;
    var plain, minus := "[" + digits + "]", "[-" + digits + "]";
    assert plain[1..|plain| - 1] == digits;
    assert minus[1..|minus| - 1] == ['-'] + digits;
    assert (['-'] + digits)[1..] == digits;
    assert digits[0] != '-';
  }
}
