/** The three results about the schema interpreter taken together. */
module SchemaDecision {
  import opened JsonValues
  import opened SchemaRuntime
  import opened SchemaMeaning
  import opened SchemaScope
  import T = SchemaTermination

  /**
   For a registry with definitions at document roots and no reference cycle on one value, validation ends on every
   value, and it reports no issue exactly when the value meets the meaning of the document, where each local reference
   means the definition of the document it is written in.
   */
  lemma ValidationDecidesEveryValue(m: Meaning, v: Value, id: string, env: Env) returns (enough: nat)
    requires WellScoped(env) && T.NoSameValueCycle(env) && id in env.registry && IsMeaning(m, env)
    ensures forall depth :: depth >= enough ==>
              var outcome := Validate(depth, v, env.registry[id], "$", Dynamic([]), env);
              outcome.Done? && (outcome.value == [] <==> m(v, env.registry[id], Lexical(env.registry[id])))
  {
    enough := T.ValidationTerminates(v, id, env);
    forall depth | depth >= enough
      ensures var outcome := Validate(depth, v, env.registry[id], "$", Dynamic([]), env);
              outcome.Done? && (outcome.value == [] <==> m(v, env.registry[id], Lexical(env.registry[id])))
    {
      DynamicScopeIsLexical(depth, v, id, env);
      ValidateDecidesMeaning(m, depth, env);
    }
  }
}
