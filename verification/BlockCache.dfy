/** The cache of resolved assertion blocks, keyed by the variable context's generation counter
    (services/test-agent/step_validator.go, lines 14 to 22 and 193 to 200). */
module BlockCache {
  import opened Options
  import opened Matching
  import opened BlockValidator
  import opened Variables

  /** The cached blocks, or none yet. */
  datatype Cache = Empty | Holding(generation: nat, blocks: seq<Block>)

  function Serve(env: Env, cache: Cache, generation: nat, vars: Vars, assertions: seq<Block>): (Cache, seq<Block>) {
    if cache.Holding? && cache.generation == generation then (cache, cache.blocks)
    else
      var blocks := ResolveBlocks(env, assertions, vars);
      (Holding(generation, blocks), blocks)
  }

  class StepBlocks {
    const env: Env
    const ctx: VariableContext
    var cache: Cache

    constructor (env: Env, ctx: VariableContext)
      ensures this.env == env && this.ctx == ctx && cache == Empty
    {
      this.env, this.ctx, cache := env, ctx, Empty;
    }

    /** The start of a step. */
    method StartStep()
      modifies this
      ensures cache == Empty
    {
      cache := Empty;
    }

    /** The blocks a validation attempt runs. */
    method ResolvedBlocks(assertions: seq<Block>) returns (blocks: seq<Block>)
      modifies this
      ensures (cache, blocks) == Serve(env, old(cache), ctx.generation, ctx.variables, assertions)
    {
      if cache.Holding? && cache.generation == ctx.generation {
        blocks := cache.blocks;
      } else {
        blocks := ResolveBlocks(env, assertions, ctx.variables);
        cache := Holding(ctx.generation, blocks);
      }
    }
  }

  // ---------- whole steps ----------

  /** What happens between the start of a step and its end. */
  datatype Event = SetVar(name: string, value: Value) | DeleteVar(name: string) | ResetVars | Attempt

  datatype StepState = StepState(vars: Vars, generation: nat, cache: Cache)

  function Update(vars: Vars, e: Event): Vars {
    match e
    case SetVar(n, v) => vars[n := v]
    case DeleteVar(n) => vars - {n}
    case ResetVars => map[]
    case Attempt => vars
  }

  function Step(env: Env, assertions: seq<Block>, st: StepState, e: Event): StepState {
    if e.Attempt? then st.(cache := Serve(env, st.cache, st.generation, st.vars, assertions).0)
    else StepState(Update(st.vars, e), (st.generation + 1) % TWO64, st.cache)
  }

  /** The blocks served at each attempt of a run. */
  function Served(env: Env, assertions: seq<Block>, st: StepState, events: seq<Event>): seq<seq<Block>>
    decreases |events|
  {
    if events == [] then []
    else if events[0].Attempt? then
      [Serve(env, st.cache, st.generation, st.vars, assertions).1] +
      Served(env, assertions, Step(env, assertions, st, events[0]), events[1..])
    else Served(env, assertions, Step(env, assertions, st, events[0]), events[1..])
  }

  /** The blocks a fresh resolution would give at each attempt. */
  function Fresh(env: Env, assertions: seq<Block>, vars: Vars, events: seq<Event>): seq<seq<Block>>
    decreases |events|
  {
    if events == [] then []
    else if events[0].Attempt? then
      [ResolveBlocks(env, assertions, vars)] + Fresh(env, assertions, vars, events[1..])
    else Fresh(env, assertions, Update(vars, events[0]), events[1..])
  }

  function Updates(events: seq<Event>): nat {
    if events == [] then 0 else (if events[0].Attempt? then 0 else 1) + Updates(events[1..])
  }

  /** The cache was filled `age` updates ago: at age 0 it holds the current blocks. */
  ghost predicate FilledAgo(env: Env, assertions: seq<Block>, st: StepState, age: nat) {
    st.cache.Holding? ==>
      && st.generation == (st.cache.generation + age) % TWO64
      && st.cache.generation < TWO64
      && (age == 0 ==> st.cache.blocks == ResolveBlocks(env, assertions, st.vars))
  }

  lemma {:induction false} ServedIsFresh(env: Env, assertions: seq<Block>, st: StepState, events: seq<Event>, age: nat)
    requires FilledAgo(env, assertions, st, age) && st.generation < TWO64
    requires age + Updates(events) < TWO64
    ensures Served(env, assertions, st, events) == Fresh(env, assertions, st.vars, events)
    decreases |events|
  {
    hide ResolveBlocks;
    if events != [] {
      var next := Step(env, assertions, st, events[0]);
      if events[0].Attempt? {
        if st.cache.Holding? && st.cache.generation == st.generation {
          SameGenerationSameAge(st.cache.generation, age);
        }
        ServedIsFresh(env, assertions, next, events[1..], if st.cache.Holding? && st.cache.generation == st.generation then age else 0);
      } else {
        ServedIsFresh(env, assertions, next, events[1..], age + 1);
      }
    }
  }

  lemma SameGenerationSameAge(g: nat, age: nat)
    requires g < TWO64 && age < TWO64 && g == (g + age) % TWO64
    ensures age == 0
  {
  }

  /** Over any retries and updates within a step, fewer than 2^64 of them, every attempt is served
      exactly the blocks a fresh resolution under the current variables would give. */
  lemma CacheIsCoherent(env: Env, assertions: seq<Block>, vars: Vars, generation: nat, events: seq<Event>)
    requires generation < TWO64 && Updates(events) < TWO64
    ensures Served(env, assertions, StepState(vars, generation, Empty), events) == Fresh(env, assertions, vars, events)
  {
    ServedIsFresh(env, assertions, StepState(vars, generation, Empty), events, 0);
  }
}
