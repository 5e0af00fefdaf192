/** Assertion blocks over a mutable document: match, loop, assertions, extract
    (services/test-agent/step_validator.go, lines 218 to 444, and block_validators.go, lines 99 to 141). */
module BlockValidator {
  import opened Options
  import opened Matching
  import opened Variables
  import ForRange

  datatype Rule = Rule(path: string, pattern: string)

  /** `loop` is the first of forEach, for and repeat that is present. Extract rules are in key order. */
  datatype Block = Block(
    match_: Option<Match>, loop: Option<Loop>, assertions: seq<Assertion>, extract: seq<(string, Rule)>)

  datatype LoopKind = ForEach(items: Value) | For(range: ForRange.Range) | Repeat(count: int, until: seq<Assertion>)

  /** The body is a list of blocks, or the fields of a single one. */
  datatype Loop = Loop(kind: LoopKind, as_: string, name: string, blocks: seq<Block>, flat: Block)

  /** An extracted value, or a failure, whose message may say that nothing was found. */
  datatype Extraction = Found(value: Value) | Fails(notFound: bool)

  /** Template resolution and the remaining evaluators, as functions of what they read. */
  datatype Env = Env(
    ev: Evaluator,
    passes: (Assertion, Root) -> bool,
    extract: (string, Rule, Root) -> Extraction,
    resolveKey: (string, Vars) -> string,
    resolveAssertion: (Assertion, Vars) -> Assertion,
    resolveWhere: (Where, Vars) -> Where,
    resolveItems: (Value, Vars, Root) -> Option<seq<Value>>,
    untilMet: (seq<Assertion>, Vars, Root) -> bool)

  datatype Verdict =
    | NoMatchSource
    | CountChecked(actual: int, count: Count)
    | NothingMatched(assertion: Assertion)
    | Checked(assertion: Assertion)
    | NoItems
    | Extracted(key: string, notFound: bool)

  datatype Result = Result(passed: bool, verdict: Verdict)

  /** The three keys a match defines, as they were before it; None when absent. */
  datatype Saved = Saved(matches: Option<Value>, match_: Option<Value>, lastMatch: Option<Value>)

  /** `generation` counts the updates of the variable context. */
  datatype State = State(vars: Vars, root: Root, stack: seq<Saved>, generation: nat)

  const VARIABLES := "variables"
  const MATCHES := "matches"
  const MATCH := "match"
  const LAST_MATCH := "lastMatch"

  // ---------- resolving templates ----------

  function ResolveAssertions(env: Env, assertions: seq<Assertion>, vars: Vars): seq<Assertion> {
    seq(|assertions|, i requires 0 <= i < |assertions| => env.resolveAssertion(assertions[i], vars))
  }

  function ResolveMatch(env: Env, m: Option<Match>, vars: Vars): Option<Match> {
    match m
    case None => None
    case Some(m) =>
      Some(m.(where_ := seq(|m.where_|, i requires 0 <= i < |m.where_| => env.resolveWhere(m.where_[i], vars))))
  }

  function ResolveBlock(env: Env, b: Block, vars: Vars): (r: Block)
    ensures Size(r) == Size(b)
    decreases b, 0
  {
    var loop := if b.loop == None then None else (assert b.loop.value < b; Some(ResolveLoop(env, b.loop.value, vars)));
    Block(ResolveMatch(env, b.match_, vars), loop, ResolveAssertions(env, b.assertions, vars), b.extract)
  }

  /** Nested blocks are resolved all the way down; of flat fields only the assertions are. */
  function ResolveLoop(env: Env, l: Loop, vars: Vars): (r: Loop)
    ensures LoopSize(r) == LoopSize(l)
    decreases l, 1
  {
    l.(blocks := ResolveBlocks(env, l.blocks, vars),
       flat := l.flat.(assertions := ResolveAssertions(env, l.flat.assertions, vars)))
  }

  function ResolveBlocks(env: Env, bs: seq<Block>, vars: Vars): (r: seq<Block>)
    ensures BlocksSize(r) == BlocksSize(bs) && |r| == |bs|
    decreases bs, 0
  {
    if bs == [] then [] else [ResolveBlock(env, bs[0], vars)] + ResolveBlocks(env, bs[1..], vars)
  }

  /** Size of the tree of blocks, which resolving keeps. */
  function Size(b: Block): (n: nat)
    ensures n > 0
    decreases b, 0
  {
    1 + if b.loop == None then 0 else (assert b.loop.value < b; LoopSize(b.loop.value))
  }

  function LoopSize(l: Loop): (n: nat)
    ensures n > BlocksSize(l.blocks)
    decreases l, 1
  {
    1 + BlocksSize(l.blocks) + Size(l.flat)
  }

  function BlocksSize(bs: seq<Block>): nat
    decreases bs, 0
  {
    if bs == [] then 0 else Size(bs[0]) + BlocksSize(bs[1..])
  }

  // ---------- the steps of a block ----------

  function Get(root: Root, key: string): Option<Value> {
    if key in root then Some(root[key]) else None
  }

  function Put(root: Root, key: string, v: Option<Value>): Root {
    if v.Some? then root[key := v.value] else root - {key}
  }

  function SavedOf(root: Root): Saved {
    Saved(Get(root, MATCHES), Get(root, MATCH), Get(root, LAST_MATCH))
  }

  function Push(st: State, ms: seq<Value>): State {
    var first := if ms == [] then Nil else ms[0];
    var last := if ms == [] then Nil else ms[|ms| - 1];
    st.(root := st.root[MATCHES := List(ms)][MATCH := first][LAST_MATCH := last], stack := st.stack + [SavedOf(st.root)])
  }

  function Pop(st: State): State {
    if st.stack == [] then st
    else
      var s := st.stack[|st.stack| - 1];
      st.(root := Put(Put(Put(st.root, MATCHES, s.matches), MATCH, s.match_), LAST_MATCH, s.lastMatch),
          stack := st.stack[..|st.stack| - 1])
  }

  /** Set a variable in the context and in the document's copy. */
  function SetBoth(st: State, name: string, v: Value): State {
    State(st.vars[name := v],
          if VARIABLES in st.root && st.root[VARIABLES].Object? then
            st.root[VARIABLES := Object(st.root[VARIABLES].fields[name := v])]
          else st.root,
          st.stack,
          st.generation + 1)
  }

  /** Replace the document's copy by a snapshot of the context. */
  function Refresh(st: State): State {
    st.(root := st.root[VARIABLES := Object(st.vars)])
  }

  predicate MentionsMatch(a: Assertion) {
    var p := if "$." <= a.path then a.path[2..] else a.path;
    "match." <= p || "lastMatch." <= p
  }

  function UnmatchedResults(assertions: seq<Assertion>): seq<Result> {
    if assertions == [] then []
    else if !assertions[0].disabled && MentionsMatch(assertions[0]) then
      [Result(false, NothingMatched(assertions[0]))] + UnmatchedResults(assertions[1..])
    else UnmatchedResults(assertions[1..])
  }

  function AssertionResults(env: Env, assertions: seq<Assertion>, emptyMatch: bool, root: Root): seq<Result> {
    if assertions == [] then []
    else if assertions[0].disabled || (emptyMatch && MentionsMatch(assertions[0])) then
      AssertionResults(env, assertions[1..], emptyMatch, root)
    else
      [Result(env.passes(assertions[0], root), Checked(assertions[0]))] +
      AssertionResults(env, assertions[1..], emptyMatch, root)
  }

  function ExtractKey(env: Env, st: State, key: string, rule: Rule): (State, Result) {
    match env.extract(key, rule, st.root)
    case Fails(notFound) => (st, Result(false, Extracted(key, notFound)))
    case Found(v) => (SetBoth(st, key, v), Result(true, Extracted(key, false)))
  }

  function ExtractOne(env: Env, st: State, rule: (string, Rule)): (State, Result) {
    ExtractKey(env, st, env.resolveKey(rule.0, st.vars), rule.1)
  }

  function ExtractAll(env: Env, st: State, rules: seq<(string, Rule)>): (State, seq<Result>)
    decreases |rules|
  {
    if rules == [] then (st, [])
    else
      var (next, r) := ExtractOne(env, st, rules[0]);
      var (last, rs) := ExtractAll(env, next, rules[1..]);
      (last, [r] + rs)
  }

  function IsEmptyMatch(b: Block, root: Root): bool {
    b.match_.Some? && !(MATCHES in root && root[MATCHES].List? && root[MATCHES].items != [])
  }

  /** Assertions, then extraction. */
  function Tail(env: Env, st: State, b: Block): (State, seq<Result>) {
    var empty := IsEmptyMatch(b, st.root);
    var (last, extracted) := ExtractAll(env, st, b.extract);
    (last, (if empty then UnmatchedResults(b.assertions) else []) +
           AssertionResults(env, b.assertions, empty, st.root) + extracted)
  }

  // ---------- blocks and loops ----------

  /** The variables an iteration binds: the item, and the loop object when the loop is named. */
  function Bind(st: State, l: Loop, item: Value, loopObject: Value): State {
    var withItem := st.vars[l.as_ := item];
    Refresh(st.(vars := if l.name == "" then withItem else withItem[l.name := loopObject],
                generation := st.generation + Names(l)))
  }

  function Unbind(st: State, l: Loop): State {
    Refresh(st.(vars := if l.name == "" then st.vars - {l.as_} else st.vars - {l.as_} - {l.name},
                generation := st.generation + Names(l)))
  }

  /** How many variables a loop binds. */
  function Names(l: Loop): nat { if l.name == "" then 1 else 2 }

  /** The items a loop runs over; None when they cannot be resolved. */
  function ItemsOf(env: Env, vars: Vars, root: Root, k: LoopKind): Option<seq<Value>> {
    match k
    case ForEach(items) => env.resolveItems(items, vars, root)
    case For(range) =>
      var vs := ForRange.ValuesFrom(range, range.from, ForRange.MAX_ITERATIONS);
      Some(seq(|vs|, i requires 0 <= i < |vs| => Number(vs[i])))
    case Repeat(count, _) => Some(seq(if count > 0 then count else 0, i => Number(i)))
  }

  function LoopObject(k: LoopKind, items: seq<Value>, i: nat): Value {
    if k.ForEach? then Object(map["index" := Number(i), "items" := List(items)]) else Object(map["index" := Number(i)])
  }

  predicate StopsAfter(env: Env, vars: Vars, root: Root, k: LoopKind) {
    k.Repeat? && env.untilMet(k.until, vars, root)
  }

  function RunBlock(env: Env, st: State, b: Block): (State, seq<Result>)
    decreases Size(b), 3
  {
    match b.match_
    case None =>
      var (looped, rs) := RunLoop(env, st, b);
      var (last, more) := Tail(env, looped, b);
      (last, rs + more)
    case Some(m) =>
      match Matches(env.ev, m, st.root)
      case None => (st, [Result(false, NoMatchSource)])
      case Some(ms) =>
        var named := if m.as_ == "" then Push(st, ms) else SetBoth(Push(st, ms), m.as_, List(ms));
        var counted :=
          if m.count == None then []
          else [Result(CountPasses(|ms|, m.count.value), CountChecked(|ms|, m.count.value))];
        if counted != [] && !counted[0].passed then (Pop(named), counted)
        else
          var (looped, rs) := RunLoop(env, named, b);
          var (last, more) := Tail(env, looped, b);
          (Pop(last), counted + rs + more)
  }

  function RunLoop(env: Env, st: State, b: Block): (State, seq<Result>)
    decreases Size(b), 2
  {
    if b.loop == None then (st, [])
    else
      var l := b.loop.value;
      match ItemsOf(env, st.vars, st.root, l.kind)
      case None => (st, [Result(false, NoItems)])
      case Some(items) =>
        var (last, rs) := RunIterations(env, st, l, items, 0);
        (Unbind(last, l), rs)
  }

  function RunIterations(env: Env, st: State, l: Loop, items: seq<Value>, i: nat): (State, seq<Result>)
    requires i <= |items|
    decreases LoopSize(l), 1, |items| - i
  {
    if i == |items| then (st, [])
    else
      var (after, rs) := RunBody(env, Bind(st, l, items[i], LoopObject(l.kind, items, i)), l);
      if StopsAfter(env, after.vars, after.root, l.kind) then (after, rs)
      else
        var (last, more) := RunIterations(env, after, l, items, i + 1);
        (last, rs + more)
  }

  /** One iteration: the body is resolved under the variables just bound. */
  function RunBody(env: Env, st: State, l: Loop): (State, seq<Result>)
    decreases LoopSize(l), 0
  {
    if l.blocks != [] then RunBlocks(env, st, ResolveBlocks(env, l.blocks, st.vars))
    else RunBlock(env, st, ResolveBlock(env, l.flat, st.vars))
  }

  function RunBlocks(env: Env, st: State, bs: seq<Block>): (State, seq<Result>)
    decreases BlocksSize(bs), 4, |bs|
  {
    if bs == [] then (st, [])
    else
      var (next, rs) := RunBlock(env, st, bs[0]);
      var (last, more) := RunBlocks(env, next, bs[1..]);
      (last, rs + more)
  }

  // ---------- what blocks keep ----------

  /** The document's `variables` are the variable context. */
  predicate InSync(st: State) {
    VARIABLES in st.root && st.root[VARIABLES] == Object(st.vars)
  }

  /** Everything in the document but `variables`, absent keys included. */
  function Rest(root: Root): Root { root - {VARIABLES} }

  /** The stack and the document outside `variables` are untouched, synchronisation is kept, and
      the generation moved unless the variables are the same. */
  ghost predicate Preserves(before: State, after: State) {
    && after.stack == before.stack && Rest(after.root) == Rest(before.root) && (InSync(before) ==> InSync(after))
    && before.generation <= after.generation
    && (before.generation == after.generation ==> after.vars == before.vars)
  }

  lemma SetBothPreserves(st: State, name: string, v: Value)
    ensures Preserves(st, SetBoth(st, name, v))
  {
  }

  lemma {:induction false} ExtractPreserves(env: Env, st: State, rules: seq<(string, Rule)>)
    ensures Preserves(st, ExtractAll(env, st, rules).0)
    decreases |rules|
  {
    hide SetBoth;
    if rules != [] {
      var key := env.resolveKey(rules[0].0, st.vars);
      var v := env.extract(key, rules[0].1, st.root);
      if v.Found? {
        SetBothPreserves(st, key, v.value);
      }
      ExtractPreserves(env, ExtractOne(env, st, rules[0]).0, rules[1..]);
    }
  }

  /** Popping restores what pushing saved, whatever happened in between outside the match keys. */
  lemma PopRestores(st: State, ms: seq<Value>, last: State)
    requires Preserves(Push(st, ms), last)
    ensures Preserves(st, Pop(last))
  {
    var pushed := Push(st, ms);
    var popped := Pop(last);
    assert last.stack[..|last.stack| - 1] == st.stack;
    forall k | k in Rest(st.root) || k in Rest(popped.root)
      ensures Get(Rest(popped.root), k) == Get(Rest(st.root), k)
    {
      assert Get(Rest(last.root), k) == Get(Rest(pushed.root), k);
    }
    assert Rest(popped.root) == Rest(st.root);
    assert InSync(st) ==> InSync(pushed);
  }

  lemma BindPreserves(st: State, l: Loop, item: Value, loopObject: Value)
    ensures Preserves(st, Bind(st, l, item, loopObject)) && InSync(Bind(st, l, item, loopObject))
  {
  }

  lemma UnbindPreserves(st: State, l: Loop)
    ensures Preserves(st, Unbind(st, l))
  {
  }

  lemma {:induction false} BlockPreserves(env: Env, st: State, b: Block)
    ensures Preserves(st, RunBlock(env, st, b).0)
    decreases Size(b), 3
  {
    hide Tail, RunLoop, Push, Pop, SetBoth, Rest, InSync, CountPasses, Matches;
    if b.match_ == None {
      LoopPreserves(env, st, b);
      TailPreserves(env, RunLoop(env, st, b).0, b);
    } else {
      var m := b.match_.value;
      var ms := Matches(env.ev, m, st.root);
      if ms.Some? {
        var pushed := Push(st, ms.value);
        var named := if m.as_ == "" then pushed else SetBoth(pushed, m.as_, List(ms.value));
        SetBothPreserves(pushed, m.as_, List(ms.value));
        PopRestores(st, ms.value, named);
        LoopPreserves(env, named, b);
        var looped := RunLoop(env, named, b).0;
        TailPreserves(env, looped, b);
        PopRestores(st, ms.value, Tail(env, looped, b).0);
      }
    }
  }

  lemma TailPreserves(env: Env, st: State, b: Block)
    ensures Preserves(st, Tail(env, st, b).0)
  {
    hide ExtractAll, Preserves;
    ExtractPreserves(env, st, b.extract);
  }

  lemma {:induction false} LoopPreserves(env: Env, st: State, b: Block)
    ensures Preserves(st, RunLoop(env, st, b).0)
    decreases Size(b), 2
  {
    hide RunIterations, Rest, InSync, Unbind;
    if b.loop.Some? {
      var l := b.loop.value;
      var items := ItemsOf(env, st.vars, st.root, l.kind);
      if items.Some? {
        IterationsPreserve(env, st, l, items.value, 0);
        UnbindPreserves(RunIterations(env, st, l, items.value, 0).0, l);
      }
    }
  }

  lemma {:induction false} IterationsPreserve(env: Env, st: State, l: Loop, items: seq<Value>, i: nat)
    requires i <= |items|
    ensures Preserves(st, RunIterations(env, st, l, items, i).0)
    decreases LoopSize(l), 1, |items| - i
  {
    hide RunBody, Rest, InSync, Bind;
    if i < |items| {
      var bound := Bind(st, l, items[i], LoopObject(l.kind, items, i));
      BindPreserves(st, l, items[i], LoopObject(l.kind, items, i));
      BodyPreserves(env, bound, l);
      var after := RunBody(env, bound, l).0;
      if !StopsAfter(env, after.vars, after.root, l.kind) {
        IterationsPreserve(env, after, l, items, i + 1);
      }
    }
  }

  lemma {:induction false} BodyPreserves(env: Env, st: State, l: Loop)
    ensures Preserves(st, RunBody(env, st, l).0)
    decreases LoopSize(l), 0
  {
    hide Preserves, RunBlock, RunBlocks;
    if l.blocks != [] {
      BlocksPreserve(env, st, ResolveBlocks(env, l.blocks, st.vars));
    } else {
      BlockPreserves(env, st, ResolveBlock(env, l.flat, st.vars));
    }
  }

  lemma {:induction false} BlocksPreserve(env: Env, st: State, bs: seq<Block>)
    ensures Preserves(st, RunBlocks(env, st, bs).0)
    decreases BlocksSize(bs), 4, |bs|
  {
    hide RunBlock, Rest, InSync;
    if bs != [] {
      BlockPreserves(env, st, bs[0]);
      BlocksPreserve(env, RunBlock(env, st, bs[0]).0, bs[1..]);
    }
  }

  /** Equal generations before and after a run of blocks mean equal variables. */
  lemma SameGenerationSameVariables(env: Env, st: State, bs: seq<Block>)
    ensures var last := RunBlocks(env, st, bs).0;
            st.generation <= last.generation && (last.generation == st.generation ==> last.vars == st.vars)
  {
    hide RunBlocks;
    BlocksPreserve(env, st, bs);
  }

  /** For every tree of blocks: running it leaves the match stack and every document key but
      `variables` as found, absent keys absent, and from a synchronised state ends in one. */
  lemma BlocksLeaveNoTrace(env: Env, st: State, bs: seq<Block>)
    requires InSync(st)
    ensures var last := RunBlocks(env, st, bs).0;
            && last.stack == st.stack
            && (forall k :: k != VARIABLES ==> Get(last.root, k) == Get(st.root, k))
            && InSync(last)
  {
    hide RunBlocks;
    BlocksPreserve(env, st, bs);
    var last := RunBlocks(env, st, bs).0;
    forall k | k != VARIABLES ensures Get(last.root, k) == Get(st.root, k) {
      assert Get(Rest(last.root), k) == Get(Rest(st.root), k);
    }
  }

  /** The state in which a block's loop and assertions run; None when its match or count ends it. */
  function Entered(env: Env, st: State, b: Block): Option<State> {
    match b.match_
    case None => Some(st)
    case Some(m) =>
      match Matches(env.ev, m, st.root)
      case None => None
      case Some(ms) =>
        if m.count.Some? && !CountPasses(|ms|, m.count.value) then None
        else Some(if m.as_ == "" then Push(st, ms) else SetBoth(Push(st, ms), m.as_, List(ms)))
  }

  /** A block as it runs, resolved, and the state it starts in. */
  datatype Start = Start(st: State, block: Block)

  /** The starts of a block and of the blocks nested in its loops, in the order they run. */
  function Starts(env: Env, st: State, b: Block): seq<Start>
    decreases Size(b), 3
  {
    [Start(st, b)] + (if Entered(env, st, b) == None then [] else LoopStarts(env, Entered(env, st, b).value, b))
  }

  function LoopStarts(env: Env, st: State, b: Block): seq<Start>
    decreases Size(b), 2
  {
    if b.loop == None then []
    else
      match ItemsOf(env, st.vars, st.root, b.loop.value.kind)
      case None => []
      case Some(items) => IterationStarts(env, st, b.loop.value, items, 0)
  }

  function IterationStarts(env: Env, st: State, l: Loop, items: seq<Value>, i: nat): seq<Start>
    requires i <= |items|
    decreases LoopSize(l), 1, |items| - i
  {
    if i == |items| then []
    else
      var bound := Bind(st, l, items[i], LoopObject(l.kind, items, i));
      var after := RunBody(env, bound, l).0;
      BodyStarts(env, bound, l) +
      (if StopsAfter(env, after.vars, after.root, l.kind) then [] else IterationStarts(env, after, l, items, i + 1))
  }

  function BodyStarts(env: Env, st: State, l: Loop): seq<Start>
    decreases LoopSize(l), 0
  {
    if l.blocks != [] then AllStarts(env, st, ResolveBlocks(env, l.blocks, st.vars))
    else Starts(env, st, ResolveBlock(env, l.flat, st.vars))
  }

  function AllStarts(env: Env, st: State, bs: seq<Block>): seq<Start>
    decreases BlocksSize(bs), 4, |bs|
  {
    if bs == [] then [] else Starts(env, st, bs[0]) + AllStarts(env, RunBlock(env, st, bs[0]).0, bs[1..])
  }

  predicate AllInSync(starts: seq<Start>) {
    forall i | 0 <= i < |starts| :: InSync(starts[i].st)
  }

  lemma EnteredInSync(env: Env, st: State, b: Block)
    requires InSync(st) && Entered(env, st, b).Some?
    ensures InSync(Entered(env, st, b).value)
  {
    hide Matches, CountPasses;
  }

  lemma {:induction false} StartsInSync(env: Env, st: State, b: Block)
    requires InSync(st)
    ensures AllInSync(Starts(env, st, b))
    decreases Size(b), 3
  {
    hide InSync, Entered, LoopStarts;
    var entered := Entered(env, st, b);
    if entered.Some? {
      EnteredInSync(env, st, b);
      LoopStartsInSync(env, entered.value, b);
    }
  }

  lemma {:induction false} LoopStartsInSync(env: Env, st: State, b: Block)
    ensures AllInSync(LoopStarts(env, st, b))
    decreases Size(b), 2
  {
    hide InSync, ItemsOf, IterationStarts;
    if b.loop.Some? {
      var items := ItemsOf(env, st.vars, st.root, b.loop.value.kind);
      if items.Some? {
        IterationStartsInSync(env, st, b.loop.value, items.value, 0);
      }
    }
  }

  lemma {:induction false} IterationStartsInSync(env: Env, st: State, l: Loop, items: seq<Value>, i: nat)
    requires i <= |items|
    ensures AllInSync(IterationStarts(env, st, l, items, i))
    decreases LoopSize(l), 1, |items| - i
  {
    hide InSync, Bind, RunBody, StopsAfter;
    if i < |items| {
      var bound := Bind(st, l, items[i], LoopObject(l.kind, items, i));
      BindPreserves(st, l, items[i], LoopObject(l.kind, items, i));
      if l.blocks != [] {
        AllStartsInSync(env, bound, ResolveBlocks(env, l.blocks, bound.vars));
      } else {
        StartsInSync(env, bound, ResolveBlock(env, l.flat, bound.vars));
      }
      IterationStartsInSync(env, RunBody(env, bound, l).0, l, items, i + 1);
    }
  }

  lemma {:induction false} AllStartsInSync(env: Env, st: State, bs: seq<Block>)
    requires InSync(st)
    ensures AllInSync(AllStarts(env, st, bs))
    decreases BlocksSize(bs), 4, |bs|
  {
    hide RunBlock, Starts, InSync;
    if bs != [] {
      StartsInSync(env, st, bs[0]);
      BlockPreserves(env, st, bs[0]);
      AllStartsInSync(env, RunBlock(env, st, bs[0]).0, bs[1..]);
    }
  }

  /** Every block of a tree, at every depth and in every iteration, starts with the document's
      `variables` equal to the variable context, and so does what follows the last. */
  lemma BoundariesAreInSync(env: Env, st: State, bs: seq<Block>)
    requires InSync(st)
    ensures AllInSync(AllStarts(env, st, bs)) && InSync(RunBlocks(env, st, bs).0)
  {
    hide AllStarts, RunBlocks;
    AllStartsInSync(env, st, bs);
    BlocksPreserve(env, st, bs);
  }

  function Enabled(assertions: seq<Assertion>): seq<Assertion> {
    if assertions == [] then []
    else if assertions[0].disabled then Enabled(assertions[1..])
    else [assertions[0]] + Enabled(assertions[1..])
  }

  function Reported(rs: seq<Result>): seq<Assertion> {
    if rs == [] then []
    else if rs[0].verdict.NothingMatched? || rs[0].verdict.Checked? then [rs[0].verdict.assertion] + Reported(rs[1..])
    else Reported(rs[1..])
  }

  lemma {:induction false} ReportedConcat(a: seq<Result>, b: seq<Result>)
    ensures Reported(a + b) == Reported(a) + Reported(b)
  {
    if a == [] {
      assert a + b == b;
    } else {
      assert (a + b)[1..] == a[1..] + b;
      ReportedConcat(a[1..], b);
    }
  }

  lemma {:induction false} WithMatchesAllAreChecked(env: Env, assertions: seq<Assertion>, root: Root)
    ensures Reported(AssertionResults(env, assertions, false, root)) == Enabled(assertions)
  {
    hide MentionsMatch;
    if assertions != [] {
      WithMatchesAllAreChecked(env, assertions[1..], root);
    }
  }

  /** The enabled assertions that do, or do not, read the match. */
  function Reading(assertions: seq<Assertion>, match_: bool): seq<Assertion> {
    if assertions == [] then []
    else if !assertions[0].disabled && MentionsMatch(assertions[0]) == match_ then
      [assertions[0]] + Reading(assertions[1..], match_)
    else Reading(assertions[1..], match_)
  }

  lemma {:induction false} WithoutMatchesTheyAreSplit(env: Env, assertions: seq<Assertion>, root: Root)
    ensures Reported(UnmatchedResults(assertions)) == Reading(assertions, true)
    ensures Reported(AssertionResults(env, assertions, true, root)) == Reading(assertions, false)
  {
    hide MentionsMatch;
    if assertions != [] {
      WithoutMatchesTheyAreSplit(env, assertions[1..], root);
    }
  }

  lemma {:induction false} ReadingPartitions(assertions: seq<Assertion>)
    ensures multiset(Reading(assertions, true)) + multiset(Reading(assertions, false)) == multiset(Enabled(assertions))
  {
    hide MentionsMatch;
    if assertions != [] {
      var a, rest := assertions[0], assertions[1..];
      ReadingPartitions(rest);
      ConsMultiset(a, Enabled(rest));
      ConsMultiset(a, Reading(rest, true));
      ConsMultiset(a, Reading(rest, false));
    }
  }

  lemma ConsMultiset(a: Assertion, s: seq<Assertion>)
    ensures multiset([a] + s) == multiset{a} + multiset(s)
  {
  }

  /** Whether or not the match found anything, every enabled assertion of a block is reported
      exactly once, and no disabled one is. */
  lemma EveryEnabledAssertionIsReportedOnce(env: Env, assertions: seq<Assertion>, emptyMatch: bool, root: Root)
    ensures var rs := (if emptyMatch then UnmatchedResults(assertions) else []) +
                      AssertionResults(env, assertions, emptyMatch, root);
            multiset(Reported(rs)) == multiset(Enabled(assertions))
  {
    hide UnmatchedResults, AssertionResults, Enabled, Reading, Reported;
    assert [] + AssertionResults(env, assertions, emptyMatch, root) == AssertionResults(env, assertions, emptyMatch, root);
    WithMatchesAllAreChecked(env, assertions, root);
    WithoutMatchesTheyAreSplit(env, assertions, root);
    ReadingPartitions(assertions);
    ReportedConcat(if emptyMatch then UnmatchedResults(assertions) else [], AssertionResults(env, assertions, emptyMatch, root));
  }

  /** A count that fails ends the block: its one result is the count's, and only `as` was set. */
  lemma FailedCountEndsTheBlock(env: Env, st: State, b: Block)
    requires b.match_.Some? && b.match_.value.count.Some? && Matches(env.ev, b.match_.value, st.root).Some?
    ensures var m := b.match_.value;
            var ms := Matches(env.ev, m, st.root).value;
            var (last, rs) := RunBlock(env, st, b);
            if CountPasses(|ms|, m.count.value) then
              rs != [] && rs[0] == Result(true, CountChecked(|ms|, m.count.value))
            else
              && rs == [Result(false, CountChecked(|ms|, m.count.value))]
              && last.vars == if m.as_ == "" then st.vars else st.vars[m.as_ := List(ms)]
  {
    hide RunLoop, Tail, CountPasses, Matches;
  }

  // ---------- the validator as the source runs it ----------

  class Validator {
    const env: Env
    const ctx: VariableContext
    var root: Root
    var stack: seq<Saved>

    ghost predicate Valid()
      reads ctx
    {
      ctx.Valid()
    }

    ghost function View(): State
      reads this, ctx
    {
      State(ctx.variables, root, stack, ctx.updates)
    }

    constructor (env: Env, ctx: VariableContext, root: Root)
      ensures this.env == env && this.ctx == ctx && View() == State(ctx.variables, root, [], ctx.updates)
    {
      this.env, this.ctx, this.root, stack := env, ctx, root, [];
    }

    method PushMatch(ms: seq<Value>)
      modifies this
      ensures View() == Push(old(View()), ms)
    {
      stack := stack + [SavedOf(root)];
      root := root[MATCHES := List(ms)];
      root := root[MATCH := if ms == [] then Nil else ms[0]];
      root := root[LAST_MATCH := if ms == [] then Nil else ms[|ms| - 1]];
    }

    method PopMatch()
      modifies this
      ensures View() == Pop(old(View()))
    {
      if |stack| == 0 {
        return;
      }
      var saved := stack[|stack| - 1];
      stack := stack[..|stack| - 1];
      root := Put(root, MATCHES, saved.matches);
      root := Put(root, MATCH, saved.match_);
      root := Put(root, LAST_MATCH, saved.lastMatch);
    }

    method SetVariable(name: string, v: Value)
      requires Valid()
      modifies this, ctx
      ensures Valid() && View() == SetBoth(old(View()), name, v)
    {
      ctx.Set(name, v);
      if VARIABLES in root && root[VARIABLES].Object? {
        root := root[VARIABLES := Object(root[VARIABLES].fields[name := v])];
      }
    }

    method ValidateBlock(b: Block) returns (results: seq<Result>)
      requires Valid()
      modifies this, ctx
      ensures Valid() && (View(), results) == RunBlock(env, old(View()), b)
      decreases Size(b), 3
    {
      hide RunLoop, Tail, Push, Pop, SetBoth, Matches, CountPasses;
      results := [];
      if b.match_.Some? {
        var m := b.match_.value;
        var ms := ExecuteMatch(env.ev, m, root);
        if ms == None {
          return [Result(false, NoMatchSource)];
        }
        PushMatch(ms.value);
        if m.as_ != "" {
          SetVariable(m.as_, List(ms.value));
        }
        if m.count.Some? {
          var r := Result(CountPasses(|ms.value|, m.count.value), CountChecked(|ms.value|, m.count.value));
          results := [r];
          if !r.passed {
            PopMatch();
            return;
          }
        }
      }
      var looped := ExecuteBlockLoop(b);
      var more := CheckAndExtract(b);
      results := results + looped + more;
      if b.match_.Some? {
        PopMatch();
      } else {
        assert [] + looped + more == looped + more;
      }
    }

    method CheckAndExtract(b: Block) returns (results: seq<Result>)
      requires Valid()
      modifies this, ctx
      ensures Valid() && (View(), results) == Tail(env, old(View()), b)
    {
      var emptyMatch := IsEmptyMatch(b, root);
      var unmatched := [];
      if emptyMatch {
        unmatched := ReportUnmatched(b.assertions);
      }
      var checked := CheckAssertions(b.assertions, emptyMatch);
      var extracted := ExecuteExtract(b.extract);
      results := unmatched + checked + extracted;
    }

    method ReportUnmatched(assertions: seq<Assertion>) returns (results: seq<Result>)
      ensures results == UnmatchedResults(assertions)
    {
      results := [];
      for i := 0 to |assertions|
        invariant results + UnmatchedResults(assertions[i..]) == UnmatchedResults(assertions)
      {
        assert assertions[i..][1..] == assertions[i + 1..];
        if !assertions[i].disabled && MentionsMatch(assertions[i]) {
          results := results + [Result(false, NothingMatched(assertions[i]))];
        }
      }
    }

    method CheckAssertions(assertions: seq<Assertion>, emptyMatch: bool) returns (results: seq<Result>)
      ensures results == AssertionResults(env, assertions, emptyMatch, root)
    {
      results := [];
      for i := 0 to |assertions|
        invariant results + AssertionResults(env, assertions[i..], emptyMatch, root)
               == AssertionResults(env, assertions, emptyMatch, root)
      {
        assert assertions[i..][1..] == assertions[i + 1..];
        if !assertions[i].disabled && !(emptyMatch && MentionsMatch(assertions[i])) {
          results := results + [Result(env.passes(assertions[i], root), Checked(assertions[i]))];
        }
      }
    }

    method ExtractRule(key: string, rule: Rule) returns (result: Result)
      requires Valid()
      modifies this, ctx
      ensures Valid() && (View(), result) == ExtractKey(env, old(View()), key, rule)
    {
      var v := env.extract(key, rule, root);
      if v.Fails? {
        return Result(false, Extracted(key, v.notFound));
      }
      SetVariable(key, v.value);
      return Result(true, Extracted(key, false));
    }

    method ExecuteExtract(rules: seq<(string, Rule)>) returns (results: seq<Result>)
      requires Valid()
      modifies this, ctx
      ensures Valid() && (View(), results) == ExtractAll(env, old(View()), rules)
    {
      hide ExtractKey;
      results := [];
      for i := 0 to |rules|
        invariant Valid()
        invariant ExtractAll(env, View(), rules[i..]).0 == ExtractAll(env, old(View()), rules).0
        invariant results + ExtractAll(env, View(), rules[i..]).1 == ExtractAll(env, old(View()), rules).1
      {
        assert rules[i..][1..] == rules[i + 1..];
        var r := ExtractRule(env.resolveKey(rules[i].0, ctx.variables), rules[i].1);
        results := results + [r];
      }
      assert results + [] == results;
    }

    /** The loop's items: inline or resolved ones, the range of a for, the indices of a repeat. */
    method ResolveItems(k: LoopKind) returns (items: Option<seq<Value>>)
      ensures items == ItemsOf(env, ctx.variables, root, k)
    {
      match k
      case ForEach(spec) =>
        return env.resolveItems(spec, ctx.variables, root);
      case For(range) =>
        var vs := ForRange.ForRangeValues(range);
        return Some(seq(|vs|, i requires 0 <= i < |vs| => Number(vs[i])));
      case Repeat(count, _) =>
        return Some(seq(if count > 0 then count else 0, i => Number(i)));
    }

    method ExecuteBlockLoop(b: Block) returns (results: seq<Result>)
      requires Valid()
      modifies this, ctx
      ensures Valid() && (View(), results) == RunLoop(env, old(View()), b)
      decreases Size(b), 2
    {
      hide RunIterations, ItemsOf, StopsAfter;
      if b.loop == None {
        return [];
      }
      var l := b.loop.value;
      var resolved := ResolveItems(l.kind);
      if resolved == None {
        return [Result(false, NoItems)];
      }
      results := RunAllIterations(l, resolved.value);
      ctx.Delete(l.as_);
      if l.name != "" {
        ctx.Delete(l.name);
      }
      root := root[VARIABLES := Object(ctx.variables)];
    }

    method RunAllIterations(l: Loop, items: seq<Value>) returns (results: seq<Result>)
      requires Valid()
      modifies this, ctx
      ensures Valid() && (View(), results) == RunIterations(env, old(View()), l, items, 0)
      decreases LoopSize(l), 1
    {
      hide RunBody, StopsAfter, LoopObject;
      results := [];
      for i := 0 to |items|
        invariant Valid()
        invariant RunIterations(env, View(), l, items, i).0 == RunIterations(env, old(View()), l, items, 0).0
        invariant results + RunIterations(env, View(), l, items, i).1 == RunIterations(env, old(View()), l, items, 0).1
      {
        ghost var st := View();
        ctx.Set(l.as_, items[i]);
        if l.name != "" {
          ctx.Set(l.name, LoopObject(l.kind, items, i));
        }
        root := root[VARIABLES := Object(ctx.variables)];
        assert View() == Bind(st, l, items[i], LoopObject(l.kind, items, i));
        var rs := RunIterationBody(l);
        results := results + rs;
        if StopsAfter(env, ctx.variables, root, l.kind) {
          return;
        }
      }
      assert results + [] == results;
    }

    method RunIterationBody(l: Loop) returns (results: seq<Result>)
      requires Valid()
      modifies this, ctx
      ensures Valid() && (View(), results) == RunBody(env, old(View()), l)
      decreases LoopSize(l), 0
    {
      hide RunBlock, RunBlocks, ResolveBlock, ResolveBlocks;
      if l.blocks != [] {
        results := ValidateBlocks(ResolveBlocks(env, l.blocks, ctx.variables));
      } else {
        results := ValidateBlock(ResolveBlock(env, l.flat, ctx.variables));
      }
    }

    method ValidateBlocks(bs: seq<Block>) returns (results: seq<Result>)
      requires Valid()
      modifies this, ctx
      ensures Valid() && (View(), results) == RunBlocks(env, old(View()), bs)
      decreases BlocksSize(bs), 4
    {
      hide RunBlock, Size;
      results := [];
      for i := 0 to |bs|
        invariant Valid()
        invariant RunBlocks(env, View(), bs[i..]).0 == RunBlocks(env, old(View()), bs).0
        invariant results + RunBlocks(env, View(), bs[i..]).1 == RunBlocks(env, old(View()), bs).1
      {
        assert bs[i..][1..] == bs[i + 1..];
        SizeOfMember(bs, i);
        var rs := ValidateBlock(bs[i]);
        results := results + rs;
      }
      assert results + [] == results;
    }
  }

  lemma {:induction false} SizeOfMember(bs: seq<Block>, i: nat)
    requires i < |bs|
    ensures Size(bs[i]) <= BlocksSize(bs)
  {
    hide Size;
    if i > 0 {
      SizeOfMember(bs[1..], i - 1);
    }
  }
}
