/**
  The recipes (zero-argument factories, `Func<object>` in the container) that bindings
  run to produce instances.

  A recipe is arbitrary caller code. The model makes two things about it observable:
  how many times it has been invoked (`Calls`), and what its k-th invocation yields
  (`Outcome(k)`, where `None` is a `null` result). Instances are opaque identities.
*/
module Recipes {
  import opened Wrappers

  /** An opaque instance identity. */
  type Instance = nat

  class Recipe {
    /** What the k-th invocation (counting from 0) returns; `None` models `null`. */
    const Outcome: nat -> Option<Instance>
    /** How many times this recipe has been invoked so far. */
    var Calls: nat

    constructor (outcome: nat -> Option<Instance>)
      ensures Outcome == outcome && Calls == 0
    {
      Outcome := outcome;
      Calls := 0;
    }

    /** Runs the recipe once. */
    method Invoke() returns (r: Option<Instance>)
      modifies this
      ensures Calls == old(Calls) + 1
      ensures r == Outcome(old(Calls))
    {
      r := Outcome(Calls);
      Calls := Calls + 1;
    }
  }

  /**
    The behaviour of the sample factories: each construction does `LocalCount = ++Count`,
    so the k-th invocation yields an instance whose counter is k + 1.
  */
  function CountingYield(k: nat): (r: Option<Instance>)
    ensures r.Some? && r.value > 0
  {
    Some(k + 1)
  }
}
