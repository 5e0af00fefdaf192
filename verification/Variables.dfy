/** The variable context (services/test-agent/variable_context.go, lines 12 to 59). */
module Variables {
  import opened Matching

  type Vars = map<string, Value>

  const TWO64 := 0x1_0000_0000_0000_0000

  /** The variables and the generation counter, which every update moves and which wraps at 64 bits. */
  class VariableContext {
    var variables: Vars
    var generation: nat
    /** The updates so far, of which `generation` keeps the residue. */
    ghost var updates: nat

    ghost predicate Valid()
      reads this
    {
      generation == updates % TWO64
    }

    constructor (vars: Vars)
      ensures Valid() && variables == vars && updates == 0
    {
      variables, generation, updates := vars, 0, 0;
    }

    method Set(name: string, value: Value)
      requires Valid()
      modifies this
      ensures Valid() && variables == old(variables)[name := value] && updates == old(updates) + 1
    {
      variables := variables[name := value];
      Touch();
    }

    method Delete(name: string)
      requires Valid()
      modifies this
      ensures Valid() && variables == old(variables) - {name} && updates == old(updates) + 1
    {
      variables := variables - {name};
      Touch();
    }

    method Reset()
      requires Valid()
      modifies this
      ensures Valid() && variables == map[] && updates == old(updates) + 1
    {
      variables := map[];
      Touch();
    }

    method Touch()
      requires Valid()
      modifies this`generation, this`updates
      ensures Valid() && updates == old(updates) + 1
    {
      generation := (generation + 1) % TWO64;
      updates := updates + 1;
    }
  }
}
