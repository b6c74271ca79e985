/**
 The other side of termination: a cycle of references and subschemas that the interpreter enters whatever the value
 is exhausts every call stack.
 */
module SchemaCycles {
  import opened Prelude
  import opened JsonValues
  import opened SchemaRuntime
  import Scoping = SchemaScope
  import T = SchemaTermination

  // ---------------------------------------------------------------- calls that no value avoids

  /** The subschemas that are always applied to the value itself: of `anyOf` only the first. */
  function Always(s: Schema): seq<Schema> {
    s.allOf + Scoping.Listed(s.oneOf) + (if Scoping.Listed(s.anyOf) == [] then [] else [Scoping.Listed(s.anyOf)[0]])
      + Scoping.Given(s.negated)
  }

  /** Validating a value against the first place always validates it against the second. */
  ghost predicate AlwaysCalls(env: Env, from: T.Place, to: T.Place) {
    var s := from.body;
    || (s.ref != "" && Resolve(env, Lexical(from.document), s.ref) == Some(Target(to.body, Lexical(to.document))))
    || ((s.ref == "" || Resolve(env, Lexical(from.document), s.ref).Some?) && to.document == from.document
        && to.body in Always(s))
  }

  lemma {:induction false} OneOverflows(depth: nat, tasks: seq<Task>, i: nat, scope: Scope, env: Env)
    requires i < |tasks|
    requires Validate(depth, tasks[i].value, tasks[i].schema, tasks[i].path, scope, env) == StackOverflow
    ensures Collect(depth, tasks, scope, env) == StackOverflow
            && CountMatches(depth, tasks, scope, env) == StackOverflow
    decreases |tasks|
  {
    if i > 0 { OneOverflows(depth, tasks[1..], i - 1, scope, env); }
  }

  lemma ChoiceOverflows(depth: nat, v: Value, s: Schema, t: Schema, path: string, scope: Scope, env: Env)
    requires t in Always(s) && t !in s.allOf && Validate(depth, v, t, path, scope, env) == StackOverflow
    ensures ChoiceIssues(depth, v, s, path, scope, env) == StackOverflow
  {
    hide Validate;
    if t in Scoping.Listed(s.oneOf) {
      var i :| 0 <= i < |s.oneOf.list| && s.oneOf.list[i] == t;
      OneOverflows(depth, BranchTasks(v, s.oneOf.list, path), i, scope, env);
      hide SomeMatches, CountMatches;
    } else if Scoping.Listed(s.anyOf) != [] && t == Scoping.Listed(s.anyOf)[0] {
      assert SomeMatches(depth, BranchTasks(v, s.anyOf.list, path), scope, env) == StackOverflow;
      hide SomeMatches, CountMatches, BranchTasks;
    } else {
      assert SomeMatches(depth, [Task(v, s.negated.value, path)], scope, env) == StackOverflow;
      hide SomeMatches, CountMatches;
    }
  }

  lemma KeywordsOverflow(depth: nat, v: Value, s: Schema, t: Schema, path: string, scope: Scope, env: Env)
    requires t in Always(s) && Validate(depth, v, t, path, scope, env) == StackOverflow
    ensures KeywordIssues(depth, v, s, path, scope, env) == StackOverflow
  {
    if t in s.allOf {
      var i :| 0 <= i < |s.allOf| && s.allOf[i] == t;
      OneOverflows(depth, BranchTasks(v, s.allOf, path), i, scope, env);
    } else {
      ChoiceOverflows(depth, v, s, t, path, scope, env);
    }
  }

  // ---------------------------------------------------------------- cycles

  /** A chain of such calls that comes back to one of its own places. */
  ghost predicate IsLasso(env: Env, chain: seq<T.Place>, back: nat) {
    && back < |chain| - 1 && chain[|chain| - 1] == chain[back]
    && forall i :: 0 <= i < |chain| - 1 ==> AlwaysCalls(env, chain[i], chain[i + 1])
  }

  lemma CallOverflows(depth: nat, v: Value, path: string, env: Env, from: T.Place, to: T.Place)
    requires AlwaysCalls(env, from, to) && Validate(depth, v, to.body, path, Lexical(to.document), env) == StackOverflow
    ensures Validate(depth + 1, v, from.body, path, Lexical(from.document), env) == StackOverflow
  {
    var here := Lexical(from.document);
    if to.document == from.document && to.body in Always(from.body) {
      KeywordsOverflow(depth, v, from.body, to.body, path, here, env);
    }
    hide KeywordIssues, Always;
  }

  lemma {:induction false} LassoOverflowsAt(depth: nat, v: Value, path: string, env: Env, chain: seq<T.Place>,
                                            back: nat, i: nat)
    requires IsLasso(env, chain, back) && i < |chain|
    ensures Validate(depth, v, chain[i].body, path, Lexical(chain[i].document), env) == StackOverflow
    decreases depth
  {
    if depth > 0 {
      hide Validate, AlwaysCalls;
      var at := if i == |chain| - 1 then back else i;
      LassoOverflowsAt(depth - 1, v, path, env, chain, back, at + 1);
      assert AlwaysCalls(env, chain[at], chain[at + 1]) && chain[i] == chain[at];
      CallOverflows(depth - 1, v, path, env, chain[at], chain[at + 1]);
    }
  }

  /**
   A registered document from which a chain of unconditional calls leads into a cycle exhausts every stack, on every
   value.
   */
  lemma UnconditionalCycleOverflows(depth: nat, v: Value, id: string, env: Env, chain: seq<T.Place>, back: nat)
    requires Scoping.WellScoped(env) && id in env.registry && IsLasso(env, chain, back)
    requires chain[0] == T.Place(env.registry[id], env.registry[id])
    ensures Validate(depth, v, env.registry[id], "$", Dynamic([]), env) == StackOverflow
  {
    Scoping.DynamicScopeIsLexical(depth, v, id, env);
    LassoOverflowsAt(depth, v, "$", env, chain, back, 0);
  }

  /** Every such cycle is among those that the condition of termination excludes. */
  lemma CycleIsExcluded(id: string, env: Env, chain: seq<T.Place>, back: nat)
    requires Scoping.WellScoped(env) && id in env.registry && IsLasso(env, chain, back)
    requires chain[0] == T.Place(env.registry[id], env.registry[id])
    ensures !T.NoSameValueCycle(env)
  {
    if T.NoSameValueCycle(env) {
      var enough := T.ValidationTerminates(Null, id, env);
      UnconditionalCycleOverflows(enough, Null, id, env, chain, back);
    }
  }

  /** The shortest one: a document that refers to itself. */
  lemma SelfReferenceOverflows(depth: nat, v: Value, env: Env)
    requires env.registry == map["A" := EMPTY_SCHEMA.(ref := "A")]
    ensures Validate(depth, v, env.registry["A"], "$", Dynamic([]), env) == StackOverflow
  {
    var place := T.Place(env.registry["A"], env.registry["A"]);
    assert !IsLocalRef("A");
    assert AlwaysCalls(env, place, place);
    UnconditionalCycleOverflows(depth, v, "A", env, [place, place], 0);
  }
}
