/**
 A declarative meaning for schemas, and the proof that the interpreter decides it.

 A meaning says which values meet which schemas. It must give every schema the conjunction of its keywords,
 each explained by the meaning of the subschemas. With `not` in the language such an equation may have no
 solution where a schema refers to itself, so it is asked for only where the interpreter returns. There it
 has exactly one solution, and the interpreter reports no issue precisely for the values that solution accepts.
 */
module SchemaMeaning {
  import opened Prelude
  import opened JsonValues
  import opened JsonMeaning
  import opened SchemaRuntime

  type Meaning = (Value, Schema, Scope) -> bool

  // ---------------------------------------------------------------- the equation

  ghost predicate Names(properties: seq<Property>, key: string) { exists p :: p in properties && p.name == key }

  /** The first of the properties with this name. */
  ghost predicate Defines(properties: seq<Property>, key: string, schema: Schema) {
    exists i :: 0 <= i < |properties| && properties[i] == Property(key, schema) && !Names(properties[..i], key)
  }

  /**
   The schema a reference means: a definition of the innermost schema on the path that has one of that name, or of the
   document itself; or a registered document.
   */
  ghost predicate RefersTo(env: Env, here: Scope, ref: string, target: Target) {
    if "#/$defs/" <= ref then
      var key := ref[8..];
      target.scope == here
      && match here
         case Dynamic(path) =>
           exists i :: 0 <= i < |path| && Defines(path[i].defs, key, target.schema)
                       && forall j :: 0 <= j < i ==> !Names(path[j].defs, key)
         case Lexical(document) => Defines(document.defs, key, target.schema)
    else
      ref in env.registry && target.schema == env.registry[ref]
      && target.scope == if here.Dynamic? then here else Lexical(target.schema)
  }

  ghost predicate SaysRef(m: Meaning, env: Env, v: Value, s: Schema, here: Scope) {
    s.ref != "" ==> exists target :: RefersTo(env, here, s.ref, target) && m(v, target.schema, target.scope)
  }

  ghost predicate SaysType(v: Value, rule: TypeRule) {
    match rule
    case AnyType => true
    case OneType(name) => HasType(v, name)
    case TypeList(names) => exists name :: name in names && HasType(v, name)
  }

  ghost predicate ExactlyOneHolds(m: Meaning, v: Value, branches: seq<Schema>, here: Scope) {
    exists i :: 0 <= i < |branches| && m(v, branches[i], here)
             && forall j :: 0 <= j < |branches| && j != i ==> !m(v, branches[j], here)
  }

  ghost predicate SaysCombinators(m: Meaning, v: Value, s: Schema, here: Scope) {
    && (forall i :: 0 <= i < |s.allOf| ==> m(v, s.allOf[i], here))
    && SaysChoices(m, v, s, here)
  }

  ghost predicate SaysChoices(m: Meaning, v: Value, s: Schema, here: Scope) {
    && (s.oneOf.Branches? ==> ExactlyOneHolds(m, v, s.oneOf.list, here))
    && (s.anyOf.Branches? ==> exists i :: 0 <= i < |s.anyOf.list| && m(v, s.anyOf.list[i], here))
    && (s.negated.Some? ==> !m(v, s.negated.value, here))
  }

  ghost predicate SaysLeaves(env: Env, v: Value, s: Schema) {
    && (s.constant.Some? ==> IsConstant(v, s.constant.value))
    && (s.oneOfValues.Some? ==> exists c :: c in s.oneOfValues.value && IsConstant(v, c))
    && (v.Text? ==>
          && (s.pattern != "" ==> env.matchesPattern(s.pattern, v.s))
          && (s.isDateTime ==> env.parsesAsDate(v.s))
          && (s.minLength.Some? ==> s.minLength.value <= |v.s|)
          && (s.maxLength.Some? ==> |v.s| <= s.maxLength.value))
    && (v.Number? ==>
          && (s.minimum.Some? ==> s.minimum.value <= v.n)
          && (s.maximum.Some? ==> v.n <= s.maximum.value))
  }

  ghost predicate SaysItems(m: Meaning, v: Value, s: Schema, here: Scope) {
    v.Array? ==>
      && (s.minItems.Some? ==> s.minItems.value <= |v.items|)
      && (s.uniqueItems ==> forall i, j :: 0 <= i < j < |v.items| ==> !SamePrint(v.items[i], v.items[j]))
      && (s.items.Some? ==> forall i :: 0 <= i < |v.items| ==> m(v.items[i], s.items.value, here))
      && (forall i :: 0 <= i < |v.items| && i < |s.prefixItems| ==> m(v.items[i], s.prefixItems[i], here))
      && (s.contains.Some? ==> exists i :: 0 <= i < |v.items| && m(v.items[i], s.contains.value, here))
  }

  ghost predicate IsPresent(v: Value, key: string) { exists w :: HasField(v, key, w) }

  ghost predicate ArePresent(v: Value, keys: seq<string>) { forall key :: key in keys ==> IsPresent(v, key) }

  ghost predicate SaysProperties(m: Meaning, v: Value, s: Schema, here: Scope) {
    && (forall p, w :: p in s.properties && HasField(v, p.name, w) ==> m(w, p.schema, here))
    && (s.propertyNames.Some? ==> forall key :: IsPresent(v, key) ==> m(Text(key), s.propertyNames.value, here))
    && match s.extra
       case ExtraAllowed => true
       case ExtraForbidden => forall key :: IsPresent(v, key) ==> Names(s.properties, key)
       case ExtraMust(schema) =>
         forall key, w :: HasField(v, key, w) && !Names(s.properties, key) ==> m(w, schema, here)
  }

  ghost predicate SaysFields(m: Meaning, v: Value, s: Schema, here: Scope) {
    v.Array? || v.Object? ==>
      && (s.minProperties.Some? ==> s.minProperties.value <= |DefinedPlaces(v)|)
      && (s.maxProperties.Some? ==> |DefinedPlaces(v)| <= s.maxProperties.value)
      && ArePresent(v, s.required)
      && (forall d :: d in s.dependentRequired && IsPresent(v, d.name) ==> ArePresent(v, d.needs))
      && SaysProperties(m, v, s, here)
  }

  ghost predicate SaysCondition(m: Meaning, v: Value, s: Schema, here: Scope) {
    s.ifSchema.Some? ==>
      if m(v, s.ifSchema.value, here)
      then s.thenSchema.Some? ==> m(v, s.thenSchema.value, here)
      else s.elseSchema.Some? ==> m(v, s.elseSchema.value, here)
  }

  /** What the keywords of `s` say about `v`, given what `m` says about the subschemas. */
  ghost predicate Says(m: Meaning, env: Env, v: Value, s: Schema, scope: Scope) {
    var here := if scope.Dynamic? then Dynamic([s] + scope.path) else scope;
    && SaysRef(m, env, v, s, here)
    && SaysCombinators(m, v, s, here)
    && SaysType(v, s.types)
    && SaysLeaves(env, v, s)
    && SaysItems(m, v, s, here)
    && SaysFields(m, v, s, here)
    && SaysCondition(m, v, s, here)
  }

  ghost predicate Returns(env: Env, v: Value, s: Schema, scope: Scope) {
    exists depth: nat :: Validate(depth, v, s, "$", scope, env).Done?
  }

  ghost predicate IsMeaning(m: Meaning, env: Env) {
    forall v, s, scope :: Returns(env, v, s, scope) ==> (m(v, s, scope) <==> Says(m, env, v, s, scope))
  }

  /** The values the interpreter reports no issue for. */
  ghost predicate Accepts(env: Env, v: Value, s: Schema, scope: Scope) {
    exists depth: nat :: Validate(depth, v, s, "$", scope, env) == Done([])
  }

  ghost function Acceptance(env: Env): Meaning {
    (v, s, scope) => Accepts(env, v, s, scope)
  }

  // ---------------------------------------------------------------- what the interpreter looks at

  lemma TypeMeaning(v: Value, rule: TypeRule)
    ensures TypeAllows(v, rule) <==> SaysType(v, rule)
  {
    forall name ensures IsTypeMatch(v, name) <==> HasType(v, name) { ShapeMeaning(v, name); }
  }

  lemma ShapeMeaning(v: Value, name: string)
    ensures IsTypeMatch(v, name) <==> HasType(v, name)
  {
    if v.Number? && v.n.Floor as real == v.n { assert v == Whole(v.n.Floor); }
  }

  lemma ConstantMeaning(v: Value, c: Value)
    ensures SameAs(v, c) <==> IsConstant(v, c)
  {
  }

  lemma LeavesMeaning(v: Value, s: Schema, path: string, env: Env)
    ensures LeafIssues(v, s, path, env) == [] <==> SaysLeaves(env, v, s)
  {
    if s.constant.Some? { ConstantMeaning(v, s.constant.value); }
    if s.oneOfValues.Some? { ListedMeaning(v, s.oneOfValues.value); }
    hide SameAs, IsConstant, Listed;
  }

  lemma ListedMeaning(v: Value, constants: seq<Value>)
    ensures Listed(v, constants) <==> exists c :: c in constants && IsConstant(v, c)
  {
    forall c ensures SameAs(v, c) <==> IsConstant(v, c) { ConstantMeaning(v, c); }
    hide SameAs, IsConstant;
  }

  lemma UniqueMeaning(items: seq<Value>)
    ensures !HasRepeat(items) <==> forall i, j :: 0 <= i < j < |items| ==> !SamePrint(items[i], items[j])
  {
    forall i, j | 0 <= i < j < |items|
      ensures Marker(items, i) == Marker(items, j) <==> SamePrint(items[i], items[j])
    {
      PrintMeaning(items[i], items[j]);
    }
  }

  lemma {:induction false} DefinesMeaning(properties: seq<Property>, key: string, schema: Schema)
    ensures FindProperty(properties, key) == Some(schema) <==> Defines(properties, key, schema)
    ensures FindProperty(properties, key).Some? <==> Names(properties, key)
  {
    if properties != [] {
      var rest := properties[1..];
      DefinesMeaning(rest, key, schema);
      DefinesStep(properties, key, schema);
    }
  }

  lemma DefinesStep(properties: seq<Property>, key: string, schema: Schema)
    requires properties != []
    ensures Defines(properties, key, schema) <==>
            properties[0] == Property(key, schema)
              || (properties[0].name != key && Defines(properties[1..], key, schema))
    ensures Names(properties, key) <==> properties[0].name == key || Names(properties[1..], key)
  {
    var rest := properties[1..];
    forall i | 0 < i <= |properties|
      ensures Names(properties[..i], key) <==> (properties[0].name == key || Names(rest[..i - 1], key))
    {
      assert properties[..i] == [properties[0]] + rest[..i - 1];
    }
    assert properties[..0] == [] && properties == [properties[0]] + rest;
    if i :| 0 <= i < |properties| && properties[i] == Property(key, schema) && !Names(properties[..i], key) {
      if i > 0 { assert rest[i - 1] == Property(key, schema) && !Names(rest[..i - 1], key); }
    }
    if i :| 0 <= i < |rest| && rest[i] == Property(key, schema) && !Names(rest[..i], key) {
      assert properties[i + 1] == Property(key, schema);
      if properties[0].name != key { assert !Names(properties[..i + 1], key); }
    }
  }

  lemma {:induction false} PathMeaning(path: seq<Schema>, key: string, schema: Schema)
    ensures FindOnPath(path, key) == Some(schema) <==>
            exists i :: 0 <= i < |path| && Defines(path[i].defs, key, schema)
                        && forall j :: 0 <= j < i ==> !Names(path[j].defs, key)
  {
    hide Defines, Names;
    if path != [] {
      var rest := path[1..];
      PathMeaning(rest, key, schema);
      DefinesMeaning(path[0].defs, key, schema);
      if i :| 0 <= i < |rest| && Defines(rest[i].defs, key, schema)
              && forall j :: 0 <= j < i ==> !Names(rest[j].defs, key) {
        assert Defines(path[i + 1].defs, key, schema);
        assert forall j :: 1 <= j < i + 1 ==> path[j] == rest[j - 1];
      }
      if i :| 0 <= i < |path| && Defines(path[i].defs, key, schema)
              && forall j :: 0 <= j < i ==> !Names(path[j].defs, key) {
        if i > 0 {
          assert Defines(rest[i - 1].defs, key, schema) && forall j :: 0 <= j < i - 1 ==> rest[j] == path[j + 1];
          assert !Names(path[0].defs, key);
        } else if FindProperty(path[0].defs, key).Some? {
          DefinesMeaning(path[0].defs, key, FindProperty(path[0].defs, key).value);
        }
      }
    }
  }

  lemma RefMeaning(env: Env, here: Scope, ref: string, target: Target)
    ensures Resolve(env, here, ref) == Some(target) <==> RefersTo(env, here, ref, target)
  {
    if IsLocalRef(ref) {
      if here.Dynamic? { PathMeaning(here.path, LocalKey(ref), target.schema); }
      else { DefinesMeaning(here.document.defs, LocalKey(ref), target.schema); }
    }
    hide FindOnPath, FindProperty, Defines, Names;
  }

  // ---------------------------------------------------------------- one step of the interpreter

  /** At this depth the interpreter agrees with `m` wherever it returns. */
  ghost predicate Agrees(m: Meaning, depth: nat, env: Env) {
    forall v, s, path, scope :: Validate(depth, v, s, path, scope, env).Done? ==>
      (Validate(depth, v, s, path, scope, env).value == [] <==> m(v, s, scope))
  }

  /** What `m` says about each task. */
  ghost function Verdicts(m: Meaning, tasks: seq<Task>, scope: Scope): (verdicts: seq<bool>)
    ensures |verdicts| == |tasks|
    ensures forall i :: 0 <= i < |tasks| ==> verdicts[i] == m(tasks[i].value, tasks[i].schema, scope)
  {
    seq(|tasks|, i requires 0 <= i < |tasks| => m(tasks[i].value, tasks[i].schema, scope))
  }

  function Trues(verdicts: seq<bool>): nat {
    if verdicts == [] then 0 else (if verdicts[0] then 1 else 0) + Trues(verdicts[1..])
  }

  ghost predicate ExactlyOneTrue(verdicts: seq<bool>) {
    exists i :: 0 <= i < |verdicts| && verdicts[i] && forall j :: 0 <= j < |verdicts| && j != i ==> !verdicts[j]
  }

  lemma {:induction false} NoneTrue(verdicts: seq<bool>)
    ensures Trues(verdicts) == 0 <==> true !in verdicts
  {
    if verdicts != [] {
      NoneTrue(verdicts[1..]);
      assert verdicts == [verdicts[0]] + verdicts[1..];
    }
  }

  lemma ExactlyOneStep(verdicts: seq<bool>)
    requires verdicts != []
    ensures ExactlyOneTrue(verdicts) <==>
            if verdicts[0] then true !in verdicts[1..] else ExactlyOneTrue(verdicts[1..])
  {
    var rest := verdicts[1..];
    if ExactlyOneTrue(verdicts) {
      var k :| 0 <= k < |verdicts| && verdicts[k] && forall j :: 0 <= j < |verdicts| && j != k ==> !verdicts[j];
      if k > 0 { assert rest[k - 1]; }
    }
    if !verdicts[0] && ExactlyOneTrue(rest) {
      var k :| 0 <= k < |rest| && rest[k] && forall j :: 0 <= j < |rest| && j != k ==> !rest[j];
      assert verdicts[k + 1] && forall j :: 1 <= j < |verdicts| ==> verdicts[j] == rest[j - 1];
    }
    if verdicts[0] && true !in rest {
      assert forall j :: 1 <= j < |verdicts| ==> verdicts[j] == rest[j - 1];
    }
  }

  /** Counting the matches and comparing with one is the quantifier the keyword means. */
  lemma {:induction false} OneTrue(verdicts: seq<bool>)
    ensures Trues(verdicts) == 1 <==> ExactlyOneTrue(verdicts)
  {
    if verdicts != [] {
      ExactlyOneStep(verdicts);
      OneTrue(verdicts[1..]);
      NoneTrue(verdicts[1..]);
    }
  }

  lemma {:induction false} CollectAgrees(m: Meaning, depth: nat, tasks: seq<Task>, scope: Scope, env: Env)
    requires Agrees(m, depth, env) && Collect(depth, tasks, scope, env).Done?
    ensures Collect(depth, tasks, scope, env).value == [] <==> false !in Verdicts(m, tasks, scope)
    decreases |tasks|
  {
    if tasks != [] {
      CollectAgrees(m, depth, tasks[1..], scope, env);
      assert Verdicts(m, tasks, scope) == [Verdicts(m, tasks, scope)[0]] + Verdicts(m, tasks[1..], scope);
    }
  }

  lemma {:induction false} SomeAgrees(m: Meaning, depth: nat, tasks: seq<Task>, scope: Scope, env: Env)
    requires Agrees(m, depth, env) && SomeMatches(depth, tasks, scope, env).Done?
    ensures SomeMatches(depth, tasks, scope, env).value <==> true in Verdicts(m, tasks, scope)
    decreases |tasks|
  {
    if tasks != [] {
      if Validate(depth, tasks[0].value, tasks[0].schema, tasks[0].path, scope, env).value != [] {
        SomeAgrees(m, depth, tasks[1..], scope, env);
      }
      assert Verdicts(m, tasks, scope) == [Verdicts(m, tasks, scope)[0]] + Verdicts(m, tasks[1..], scope);
    }
  }

  lemma {:induction false} CountAgrees(m: Meaning, depth: nat, tasks: seq<Task>, scope: Scope, env: Env)
    requires Agrees(m, depth, env) && CountMatches(depth, tasks, scope, env).Done?
    ensures CountMatches(depth, tasks, scope, env).value == Trues(Verdicts(m, tasks, scope))
    decreases |tasks|
  {
    if tasks != [] {
      CountAgrees(m, depth, tasks[1..], scope, env);
      assert Verdicts(m, tasks, scope)[1..] == Verdicts(m, tasks[1..], scope);
    }
  }

  lemma BranchVerdicts(m: Meaning, v: Value, branches: seq<Schema>, path: string, here: Scope)
    ensures false !in Verdicts(m, BranchTasks(v, branches, path), here) <==>
            forall i :: 0 <= i < |branches| ==> m(v, branches[i], here)
    ensures true in Verdicts(m, BranchTasks(v, branches, path), here) <==>
            exists i :: 0 <= i < |branches| && m(v, branches[i], here)
  {
    var verdicts := Verdicts(m, BranchTasks(v, branches, path), here);
    assert forall i :: 0 <= i < |branches| ==> (verdicts[i] <==> m(v, branches[i], here));
  }

  lemma SingleVerdict(m: Meaning, v: Value, s: Schema, path: string, here: Scope)
    ensures Verdicts(m, [Task(v, s, path)], here) == [m(v, s, here)]
  {
  }

  lemma OneOfVerdicts(m: Meaning, v: Value, branches: seq<Schema>, path: string, here: Scope)
    ensures ExactlyOneTrue(Verdicts(m, BranchTasks(v, branches, path), here)) <==> ExactlyOneHolds(m, v, branches, here)
  {
    var verdicts := Verdicts(m, BranchTasks(v, branches, path), here);
    assert forall i :: 0 <= i < |branches| ==> (verdicts[i] <==> m(v, branches[i], here));
    if ExactlyOneTrue(verdicts) {
      var k :| 0 <= k < |verdicts| && verdicts[k] && forall j :: 0 <= j < |verdicts| && j != k ==> !verdicts[j];
      assert m(v, branches[k], here);
    }
    if ExactlyOneHolds(m, v, branches, here) {
      var k :| 0 <= k < |branches| && m(v, branches[k], here)
            && forall j :: 0 <= j < |branches| && j != k ==> !m(v, branches[j], here);
      assert verdicts[k];
    }
  }

  lemma OneOfAgrees(m: Meaning, depth: nat, v: Value, s: Schema, path: string, here: Scope, env: Env)
    requires Agrees(m, depth, env) && OneOfHolds(depth, v, s, path, here, env).Done?
    ensures OneOfHolds(depth, v, s, path, here, env).value <==>
            (s.oneOf.Branches? ==> ExactlyOneHolds(m, v, s.oneOf.list, here))
  {
    if s.oneOf.Branches? {
      var tasks := BranchTasks(v, s.oneOf.list, path);
      CountAgrees(m, depth, tasks, here, env);
      OneTrue(Verdicts(m, tasks, here));
      OneOfVerdicts(m, v, s.oneOf.list, path, here);
    }
  }

  lemma AnyOfAgrees(m: Meaning, depth: nat, v: Value, s: Schema, path: string, here: Scope, env: Env)
    requires Agrees(m, depth, env) && AnyOfHolds(depth, v, s, path, here, env).Done?
    ensures AnyOfHolds(depth, v, s, path, here, env).value <==>
            (s.anyOf.Branches? ==> exists i :: 0 <= i < |s.anyOf.list| && m(v, s.anyOf.list[i], here))
  {
    if s.anyOf.Branches? {
      SomeAgrees(m, depth, BranchTasks(v, s.anyOf.list, path), here, env);
      BranchVerdicts(m, v, s.anyOf.list, path, here);
    }
  }

  lemma NotAgrees(m: Meaning, depth: nat, v: Value, s: Schema, path: string, here: Scope, env: Env)
    requires Agrees(m, depth, env) && NotFails(depth, v, s, path, here, env).Done?
    ensures NotFails(depth, v, s, path, here, env).value <==> s.negated.Some? && m(v, s.negated.value, here)
  {
    if s.negated.Some? {
      SomeAgrees(m, depth, [Task(v, s.negated.value, path)], here, env);
      SingleVerdict(m, v, s.negated.value, path, here);
    }
  }

  lemma ChoicesAgree(m: Meaning, depth: nat, v: Value, s: Schema, path: string, here: Scope, env: Env)
    requires Agrees(m, depth, env) && ChoiceIssues(depth, v, s, path, here, env).Done?
    ensures ChoiceIssues(depth, v, s, path, here, env).value == [] <==> SaysChoices(m, v, s, here)
  {
    OneOfAgrees(m, depth, v, s, path, here, env);
    AnyOfAgrees(m, depth, v, s, path, here, env);
    NotAgrees(m, depth, v, s, path, here, env);
  }

  lemma CombinatorsAgree(m: Meaning, depth: nat, v: Value, s: Schema, path: string, here: Scope, env: Env)
    requires Agrees(m, depth, env) && CombinatorIssues(depth, v, s, path, here, env).Done?
    ensures CombinatorIssues(depth, v, s, path, here, env).value == [] <==> SaysCombinators(m, v, s, here)
  {
    CollectAgrees(m, depth, BranchTasks(v, s.allOf, path), here, env);
    BranchVerdicts(m, v, s.allOf, path, here);
    ChoicesAgree(m, depth, v, s, path, here, env);
  }

  lemma ItemVerdicts(m: Meaning, items: seq<Value>, s: Schema, path: string, here: Scope)
    ensures false !in Verdicts(m, ItemTasks(items, s, path), here) <==>
            forall i :: 0 <= i < |items| ==> m(items[i], s, here)
    ensures true in Verdicts(m, ItemTasks(items, s, path), here) <==>
            exists i :: 0 <= i < |items| && m(items[i], s, here)
  {
    var verdicts := Verdicts(m, ItemTasks(items, s, path), here);
    assert forall i :: 0 <= i < |items| ==> (verdicts[i] <==> m(items[i], s, here));
  }

  lemma PrefixVerdicts(m: Meaning, items: seq<Value>, prefix: seq<Schema>, path: string, here: Scope)
    ensures false !in Verdicts(m, PrefixTasks(items, prefix, path), here) <==>
            forall i :: 0 <= i < |items| && i < |prefix| ==> m(items[i], prefix[i], here)
  {
    var verdicts := Verdicts(m, PrefixTasks(items, prefix, path), here);
    assert forall i :: 0 <= i < |verdicts| ==> (verdicts[i] <==> m(items[i], prefix[i], here));
  }

  lemma ItemsAgree(m: Meaning, depth: nat, items: seq<Value>, s: Schema, path: string, here: Scope, env: Env)
    requires Agrees(m, depth, env) && ItemsIssues(depth, items, s, path, here, env).Done?
    ensures ItemsIssues(depth, items, s, path, here, env).value == [] <==>
            (s.items.Some? ==> forall i :: 0 <= i < |items| ==> m(items[i], s.items.value, here))
  {
    if s.items.Some? {
      CollectAgrees(m, depth, ItemTasks(items, s.items.value, path), here, env);
      ItemVerdicts(m, items, s.items.value, path, here);
    }
  }

  lemma ContainsAgrees(m: Meaning, depth: nat, items: seq<Value>, s: Schema, path: string, here: Scope, env: Env)
    requires Agrees(m, depth, env) && ContainsHolds(depth, items, s, path, here, env).Done?
    ensures ContainsHolds(depth, items, s, path, here, env).value <==>
            (s.contains.Some? ==> exists i :: 0 <= i < |items| && m(items[i], s.contains.value, here))
  {
    if s.contains.Some? {
      SomeAgrees(m, depth, ItemTasks(items, s.contains.value, path), here, env);
      ItemVerdicts(m, items, s.contains.value, path, here);
    }
  }

  lemma ArrayAgrees(m: Meaning, depth: nat, v: Value, s: Schema, path: string, here: Scope, env: Env)
    requires Agrees(m, depth, env) && ArrayIssues(depth, v, s, path, here, env).Done?
    ensures ArrayIssues(depth, v, s, path, here, env).value == [] <==> SaysItems(m, v, s, here)
  {
    if v.Array? {
      UniqueMeaning(v.items);
      hide HasRepeat, SamePrint;
      ItemsAgree(m, depth, v.items, s, path, here, env);
      CollectAgrees(m, depth, PrefixTasks(v.items, s.prefixItems, path), here, env);
      PrefixVerdicts(m, v.items, s.prefixItems, path, here);
      ContainsAgrees(m, depth, v.items, s, path, here, env);
    }
  }

  // The same on the list of entries, which the interpreter goes through.

  ghost predicate AllPresent(keys: seq<string>, entries: seq<Field>) {
    forall i :: 0 <= i < |keys| ==> HasKey(entries, keys[i])
  }

  ghost predicate PropertiesHold(m: Meaning, entries: seq<Field>, properties: seq<Property>, here: Scope) {
    forall i :: 0 <= i < |properties| && HasKey(entries, properties[i].name) ==>
                  m(Lookup(entries, properties[i].name).value, properties[i].schema, here)
  }

  /** Entry `e` is not named by `properties`. */
  predicate IsExtra(properties: seq<Property>, e: Field) { FindProperty(properties, e.key).None? }

  ghost predicate ExtraHolds(m: Meaning, all: seq<Field>, properties: seq<Property>, schema: Schema, here: Scope,
                             e: Field)
  {
    IsExtra(properties, e) && HasKey(all, e.key) ==> m(Lookup(all, e.key).value, schema, here)
  }

  ghost predicate SaysExtra(m: Meaning, entries: seq<Field>, s: Schema, here: Scope) {
    match s.extra
    case ExtraAllowed => true
    case ExtraForbidden => forall i :: 0 <= i < |entries| ==> !IsExtra(s.properties, entries[i])
    case ExtraMust(schema) =>
      forall i :: 0 <= i < |entries| ==> ExtraHolds(m, entries, s.properties, schema, here, entries[i])
  }

  ghost predicate EntriesSay(m: Meaning, entries: seq<Field>, s: Schema, here: Scope) {
    && (s.minProperties.Some? ==> s.minProperties.value <= |entries|)
    && (s.maxProperties.Some? ==> |entries| <= s.maxProperties.value)
    && AllPresent(s.required, entries)
    && PropertiesHold(m, entries, s.properties, here)
    && (s.propertyNames.Some? ==>
          forall i :: 0 <= i < |entries| ==> m(Text(entries[i].key), s.propertyNames.value, here))
    && (forall i :: 0 <= i < |s.dependentRequired| && HasKey(entries, s.dependentRequired[i].name) ==>
                      AllPresent(s.dependentRequired[i].needs, entries))
    && SaysExtra(m, entries, s, here)
  }

  lemma {:induction false} MissingAgrees(required: seq<string>, entries: seq<Field>, path: string, rule: Rule)
    ensures MissingIssues(required, entries, path, rule) == [] <==> AllPresent(required, entries)
  {
    if required != [] {
      MissingAgrees(required[1..], entries, path, rule);
      assert required == [required[0]] + required[1..];
    }
  }

  lemma {:induction false} DependenciesAgree(dependencies: seq<Dependency>, entries: seq<Field>, path: string)
    ensures DependencyIssues(dependencies, entries, path) == [] <==>
            forall i :: 0 <= i < |dependencies| && HasKey(entries, dependencies[i].name) ==>
                          AllPresent(dependencies[i].needs, entries)
  {
    if dependencies != [] {
      var first, rest := dependencies[0], dependencies[1..];
      DependenciesAgree(rest, entries, path);
      MissingAgrees(first.needs, entries, path, RequiredBecause(first.name));
      assert forall i :: 1 <= i < |dependencies| ==> dependencies[i] == rest[i - 1];
      assert forall i :: 0 <= i < |rest| ==> rest[i] == dependencies[i + 1];
    }
  }

  lemma {:induction false} UnexpectedAgrees(entries: seq<Field>, properties: seq<Property>, path: string)
    ensures UnexpectedIssues(entries, properties, path) == [] <==>
            forall i :: 0 <= i < |entries| ==> !IsExtra(properties, entries[i])
  {
    if entries != [] {
      UnexpectedAgrees(entries[1..], properties, path);
      assert entries == [entries[0]] + entries[1..];
    }
  }

  lemma {:induction false} PropertyVerdicts(m: Meaning, entries: seq<Field>, properties: seq<Property>, path: string,
                                            here: Scope)
    ensures false !in Verdicts(m, PropertyTasks(entries, properties, path), here) <==>
            PropertiesHold(m, entries, properties, here)
  {
    if properties != [] {
      var first, rest := properties[0], properties[1..];
      PropertyVerdicts(m, entries, rest, path, here);
      var tail := Verdicts(m, PropertyTasks(entries, rest, path), here);
      if HasKey(entries, first.name) {
        assert Verdicts(m, PropertyTasks(entries, properties, path), here)
            == [m(Lookup(entries, first.name).value, first.schema, here)] + tail;
      } else {
        assert PropertyTasks(entries, properties, path) == PropertyTasks(entries, rest, path);
      }
      assert properties == [first] + rest;
    }
  }

  lemma {:induction false} ExtraVerdicts(m: Meaning, entries: seq<Field>, all: seq<Field>, properties: seq<Property>,
                                         schema: Schema, path: string, here: Scope)
    ensures false !in Verdicts(m, ExtraTasks(entries, all, properties, schema, path), here) <==>
            forall i :: 0 <= i < |entries| ==> ExtraHolds(m, all, properties, schema, here, entries[i])
  {
    if entries != [] {
      var first, rest := entries[0], entries[1..];
      ExtraVerdicts(m, rest, all, properties, schema, path, here);
      var tail := Verdicts(m, ExtraTasks(rest, all, properties, schema, path), here);
      if IsExtra(properties, first) && HasKey(all, first.key) {
        assert Verdicts(m, ExtraTasks(entries, all, properties, schema, path), here)
            == [m(Lookup(all, first.key).value, schema, here)] + tail;
      } else {
        assert ExtraTasks(entries, all, properties, schema, path) == ExtraTasks(rest, all, properties, schema, path);
      }
      assert entries == [first] + rest;
    }
  }

  lemma ExtraAgrees(m: Meaning, depth: nat, entries: seq<Field>, s: Schema, path: string, here: Scope, env: Env)
    requires Agrees(m, depth, env) && ExtraIssues(depth, entries, s, path, here, env).Done?
    ensures ExtraIssues(depth, entries, s, path, here, env).value == [] <==> SaysExtra(m, entries, s, here)
  {
    match s.extra {
      case ExtraAllowed =>
      case ExtraForbidden => UnexpectedAgrees(entries, s.properties, path);
      case ExtraMust(schema) =>
        CollectAgrees(m, depth, ExtraTasks(entries, entries, s.properties, schema, path), here, env);
        ExtraVerdicts(m, entries, entries, s.properties, schema, path, here);
    }
  }

  lemma NameVerdicts(m: Meaning, entries: seq<Field>, s: Schema, path: string, here: Scope)
    ensures false !in Verdicts(m, NameTasks(entries, s, path), here) <==>
            forall i :: 0 <= i < |entries| ==> m(Text(entries[i].key), s, here)
  {
    var verdicts := Verdicts(m, NameTasks(entries, s, path), here);
    assert forall i :: 0 <= i < |entries| ==> (verdicts[i] <==> m(Text(entries[i].key), s, here));
  }

  lemma NamesAgree(m: Meaning, depth: nat, entries: seq<Field>, s: Schema, path: string, here: Scope, env: Env)
    requires Agrees(m, depth, env) && NamesIssues(depth, entries, s, path, here, env).Done?
    ensures NamesIssues(depth, entries, s, path, here, env).value == [] <==>
            (s.propertyNames.Some? ==>
               forall i :: 0 <= i < |entries| ==> m(Text(entries[i].key), s.propertyNames.value, here))
  {
    if s.propertyNames.Some? {
      CollectAgrees(m, depth, NameTasks(entries, s.propertyNames.value, path), here, env);
      NameVerdicts(m, entries, s.propertyNames.value, path, here);
    }
  }

  /** The entries are the properties of the record. */
  ghost predicate ListsProperties(entries: seq<Field>, v: Value) {
    && (forall key, w :: Lookup(entries, key) == Some(w) <==> HasField(v, key, w))
    && (forall i :: 0 <= i < |entries| ==> IsPresent(v, entries[i].key))
    && (forall key :: IsPresent(v, key) ==>
          HasKey(entries, key) && exists i :: 0 <= i < |entries| && entries[i].key == key)
    && |entries| == |DefinedPlaces(v)|
  }

  lemma EntriesList(v: Value)
    requires v.IsRecord()
    ensures ListsProperties(Entries(v), v)
  {
    var entries := Entries(v);
    forall key, w ensures Lookup(entries, key) == Some(w) <==> HasField(v, key, w) { EntriesMeaning(v, key, w); }
    EntriesMeaning(v, "", Null);
    hide HasField, Lookup, Entries, DefinedPlaces;
    forall key ensures HasKey(entries, key) <==> exists i :: 0 <= i < |entries| && entries[i].key == key {
      HasKeyIffEntry(entries, key);
    }
    forall i | 0 <= i < |entries| ensures IsPresent(v, entries[i].key) {
      assert HasKey(entries, entries[i].key);
      assert HasField(v, entries[i].key, Lookup(entries, entries[i].key).value);
    }
  }

  lemma KeyMeaning(entries: seq<Field>, v: Value, key: string)
    requires ListsProperties(entries, v)
    ensures HasKey(entries, key) <==> IsPresent(v, key)
    ensures HasKey(entries, key) ==> HasField(v, key, Lookup(entries, key).value)
    ensures forall w :: HasField(v, key, w) ==> HasKey(entries, key) && Lookup(entries, key) == Some(w)
  {
    hide HasField, Lookup, DefinedPlaces;
  }

  lemma PropertiesMeaning(m: Meaning, entries: seq<Field>, v: Value, s: Schema, here: Scope)
    requires ListsProperties(entries, v)
    ensures PropertiesHold(m, entries, s.properties, here) <==>
            forall p, w :: p in s.properties && HasField(v, p.name, w) ==> m(w, p.schema, here)
  {
    forall key
      ensures HasKey(entries, key) ==> HasField(v, key, Lookup(entries, key).value)
      ensures forall w :: HasField(v, key, w) ==> HasKey(entries, key) && Lookup(entries, key) == Some(w)
    {
      KeyMeaning(entries, v, key);
    }
    hide HasField, Lookup, HasKey, ListsProperties;
    if forall p, w :: p in s.properties && HasField(v, p.name, w) ==> m(w, p.schema, here) {
      forall i | 0 <= i < |s.properties| && HasKey(entries, s.properties[i].name)
        ensures m(Lookup(entries, s.properties[i].name).value, s.properties[i].schema, here)
      {
        assert s.properties[i] in s.properties;
      }
    }
    if PropertiesHold(m, entries, s.properties, here) {
      forall p, w | p in s.properties && HasField(v, p.name, w) ensures m(w, p.schema, here) {
        var i :| 0 <= i < |s.properties| && s.properties[i] == p;
        assert HasKey(entries, s.properties[i].name);
      }
    }
  }

  lemma ExtraMeaning(m: Meaning, entries: seq<Field>, v: Value, s: Schema, here: Scope)
    requires ListsProperties(entries, v)
    ensures SaysExtra(m, entries, s, here) <==>
            match s.extra
            case ExtraAllowed => true
            case ExtraForbidden => forall key :: IsPresent(v, key) ==> Names(s.properties, key)
            case ExtraMust(schema) =>
              forall key, w :: HasField(v, key, w) && !Names(s.properties, key) ==> m(w, schema, here)
  {
    forall e ensures IsExtra(s.properties, e) <==> !Names(s.properties, e.key) {
      DefinesMeaning(s.properties, e.key, EMPTY_SCHEMA);
    }
    forall key
      ensures HasKey(entries, key) ==> HasField(v, key, Lookup(entries, key).value)
      ensures forall w :: HasField(v, key, w) ==> HasKey(entries, key) && Lookup(entries, key) == Some(w)
    {
      KeyMeaning(entries, v, key);
    }
    hide HasField, Lookup, IsExtra, Names, DefinedPlaces, HasKey;
    match s.extra {
      case ExtraAllowed =>
      case ExtraForbidden =>
      case ExtraMust(schema) =>
        forall key, w | SaysExtra(m, entries, s, here) && HasField(v, key, w) && !Names(s.properties, key)
          ensures m(w, schema, here)
        {
          assert IsPresent(v, key);
          var i :| 0 <= i < |entries| && entries[i].key == key;
          assert ExtraHolds(m, entries, s.properties, schema, here, entries[i]);
        }
    }
  }

  lemma RequiredMeaning(entries: seq<Field>, v: Value, keys: seq<string>)
    requires ListsProperties(entries, v)
    ensures AllPresent(keys, entries) <==> ArePresent(v, keys)
  {
    forall key ensures HasKey(entries, key) <==> IsPresent(v, key) { KeyMeaning(entries, v, key); }
    hide HasKey, IsPresent, ListsProperties;
  }

  lemma DependenciesMeaning(entries: seq<Field>, v: Value, s: Schema)
    requires ListsProperties(entries, v)
    ensures (forall i :: 0 <= i < |s.dependentRequired| && HasKey(entries, s.dependentRequired[i].name) ==>
                           AllPresent(s.dependentRequired[i].needs, entries)) <==>
            (forall d :: d in s.dependentRequired && IsPresent(v, d.name) ==> ArePresent(v, d.needs))
  {
    forall d
      ensures HasKey(entries, d) <==> IsPresent(v, d)
    {
      KeyMeaning(entries, v, d);
    }
    forall needs ensures AllPresent(needs, entries) <==> ArePresent(v, needs) { RequiredMeaning(entries, v, needs); }
    hide HasKey, IsPresent, AllPresent, ArePresent, ListsProperties;
  }

  /** Going through the entries decides what is said of the properties. */
  lemma FieldsMeaning(m: Meaning, v: Value, s: Schema, here: Scope)
    requires v.IsRecord()
    ensures SaysFields(m, v, s, here) <==> EntriesSay(m, Entries(v), s, here)
  {
    var entries := Entries(v);
    EntriesList(v);
    RequiredMeaning(entries, v, s.required);
    DependenciesMeaning(entries, v, s);
    PropertiesMeaning(m, entries, v, s, here);
    ExtraMeaning(m, entries, v, s, here);
    assert forall i :: 0 <= i < |entries| ==> IsPresent(v, entries[i].key);
    hide HasField, Entries, HasKey, Lookup, PropertiesHold, SaysExtra, DefinedPlaces, IsPresent, AllPresent,
         ArePresent, Names;
  }

  lemma RecordAgrees(m: Meaning, depth: nat, v: Value, s: Schema, path: string, here: Scope, env: Env)
    requires Agrees(m, depth, env) && RecordIssues(depth, v, s, path, here, env).Done?
    ensures RecordIssues(depth, v, s, path, here, env).value == [] <==> SaysFields(m, v, s, here)
  {
    if v.IsRecord() {
      var entries := Entries(v);
      FieldsMeaning(m, v, s, here);
      hide SaysFields, Entries;
      MissingAgrees(s.required, entries, path, MissingProperty);
      DependenciesAgree(s.dependentRequired, entries, path);
      CollectAgrees(m, depth, PropertyTasks(entries, s.properties, path), here, env);
      PropertyVerdicts(m, entries, s.properties, path, here);
      NamesAgree(m, depth, entries, s, path, here, env);
      ExtraAgrees(m, depth, entries, s, path, here, env);
    }
  }

  lemma ConditionAgrees(m: Meaning, depth: nat, v: Value, s: Schema, path: string, here: Scope, env: Env)
    requires Agrees(m, depth, env) && ConditionIssues(depth, v, s, path, here, env).Done?
    ensures ConditionIssues(depth, v, s, path, here, env).value == [] <==> SaysCondition(m, v, s, here)
  {
    if s.ifSchema.Some? {
      SomeAgrees(m, depth, [Task(v, s.ifSchema.value, path)], here, env);
      SingleVerdict(m, v, s.ifSchema.value, path, here);
      var branch := if m(v, s.ifSchema.value, here) then s.thenSchema else s.elseSchema;
      if branch.Some? {
        CollectAgrees(m, depth, [Task(v, branch.value, path)], here, env);
        SingleVerdict(m, v, branch.value, path, here);
      }
    }
  }

  /** If the nested calls agree with `m`, the call itself decides what the keywords say. */
  lemma StepAgrees(m: Meaning, depth: nat, v: Value, s: Schema, path: string, scope: Scope, env: Env)
    requires Agrees(m, depth, env) && Validate(depth + 1, v, s, path, scope, env).Done?
    ensures Validate(depth + 1, v, s, path, scope, env).value == [] <==> Says(m, env, v, s, scope)
  {
    var here := Enter(scope, s);
    SaysRefMeaning(m, env, v, s, here);
    TypeMeaning(v, s.types);
    LeavesMeaning(v, s, path, env);
    hide SaysRef, SaysType, SaysLeaves, SaysFields, SaysItems, SaysCondition, SaysCombinators, LeafIssues, TypeAllows,
         Resolve;
    if s.ref == "" || Resolve(env, here, s.ref).Some? {
      CombinatorsAgree(m, depth, v, s, path, here, env);
      if TypeAllows(v, s.types) {
        ArrayAgrees(m, depth, v, s, path, here, env);
        RecordAgrees(m, depth, v, s, path, here, env);
        ConditionAgrees(m, depth, v, s, path, here, env);
      }
    }
  }

  lemma SaysRefMeaning(m: Meaning, env: Env, v: Value, s: Schema, here: Scope)
    ensures SaysRef(m, env, v, s, here) <==>
            (s.ref != "" ==>
               var target := Resolve(env, here, s.ref);
               target.Some? && m(v, target.value.schema, target.value.scope))
  {
    forall target ensures Resolve(env, here, s.ref) == Some(target) <==> RefersTo(env, here, s.ref, target) {
      RefMeaning(env, here, s.ref, target);
    }
    hide Resolve, RefersTo;
  }

  // ---------------------------------------------------------------- more stack and other paths change nothing

  /** Once the first run returns, so does the second, and both report issues or neither does. */
  ghost predicate Similar(first: Outcome<seq<Issue>>, second: Outcome<seq<Issue>>) {
    first.Done? ==> second.Done? && (first.value == [] <==> second.value == [])
  }

  ghost predicate SameTasks(tasks: seq<Task>, others: seq<Task>) {
    |tasks| == |others|
    && forall i :: 0 <= i < |tasks| ==> tasks[i].value == others[i].value && tasks[i].schema == others[i].schema
  }

  lemma {:induction false} CollectSimilar(d: nat, e: nat, tasks: seq<Task>, others: seq<Task>, scope: Scope, env: Env)
    requires d <= e && SameTasks(tasks, others)
    ensures Similar(Collect(d, tasks, scope, env), Collect(e, others, scope, env))
    decreases d, 1, |tasks|
  {
    if tasks != [] {
      ValidateSimilar(d, e, tasks[0].value, tasks[0].schema, tasks[0].path, others[0].path, scope, env);
      CollectSimilar(d, e, tasks[1..], others[1..], scope, env);
    }
  }

  lemma {:induction false} CountSimilar(d: nat, e: nat, tasks: seq<Task>, others: seq<Task>, scope: Scope, env: Env)
    requires d <= e && SameTasks(tasks, others) && CountMatches(d, tasks, scope, env).Done?
    ensures CountMatches(d, tasks, scope, env) == CountMatches(e, others, scope, env)
    decreases d, 1, |tasks|
  {
    if tasks != [] {
      ValidateSimilar(d, e, tasks[0].value, tasks[0].schema, tasks[0].path, others[0].path, scope, env);
      CountSimilar(d, e, tasks[1..], others[1..], scope, env);
    }
  }

  lemma {:induction false} SomeSimilar(d: nat, e: nat, tasks: seq<Task>, others: seq<Task>, scope: Scope, env: Env)
    requires d <= e && SameTasks(tasks, others) && SomeMatches(d, tasks, scope, env).Done?
    ensures SomeMatches(d, tasks, scope, env) == SomeMatches(e, others, scope, env)
    decreases d, 1, |tasks|
  {
    if tasks != [] {
      ValidateSimilar(d, e, tasks[0].value, tasks[0].schema, tasks[0].path, others[0].path, scope, env);
      if Validate(d, tasks[0].value, tasks[0].schema, tasks[0].path, scope, env).value != [] {
        SomeSimilar(d, e, tasks[1..], others[1..], scope, env);
      }
    }
  }

  lemma ChoicesSimilar(d: nat, e: nat, v: Value, s: Schema, path: string, other: string, here: Scope, env: Env)
    requires d <= e
    ensures OneOfHolds(d, v, s, path, here, env).Done? ==>
              OneOfHolds(e, v, s, other, here, env) == OneOfHolds(d, v, s, path, here, env)
    ensures AnyOfHolds(d, v, s, path, here, env).Done? ==>
              AnyOfHolds(e, v, s, other, here, env) == AnyOfHolds(d, v, s, path, here, env)
    ensures NotFails(d, v, s, path, here, env).Done? ==>
              NotFails(e, v, s, other, here, env) == NotFails(d, v, s, path, here, env)
    decreases d, 2, 0
  {
    if OneOfHolds(d, v, s, path, here, env).Done? && s.oneOf.Branches? {
      CountSimilar(d, e, BranchTasks(v, s.oneOf.list, path), BranchTasks(v, s.oneOf.list, other), here, env);
    }
    if AnyOfHolds(d, v, s, path, here, env).Done? && s.anyOf.Branches? {
      SomeSimilar(d, e, BranchTasks(v, s.anyOf.list, path), BranchTasks(v, s.anyOf.list, other), here, env);
    }
    if NotFails(d, v, s, path, here, env).Done? && s.negated.Some? {
      SomeSimilar(d, e, [Task(v, s.negated.value, path)], [Task(v, s.negated.value, other)], here, env);
    }
  }

  lemma ChoiceIssuesSimilar(d: nat, e: nat, v: Value, s: Schema, path: string, other: string, here: Scope, env: Env)
    requires d <= e
    ensures Similar(ChoiceIssues(d, v, s, path, here, env), ChoiceIssues(e, v, s, other, here, env))
    decreases d, 3, 0
  {
    ChoicesSimilar(d, e, v, s, path, other, here, env);
  }

  lemma CombinatorsSimilar(d: nat, e: nat, v: Value, s: Schema, path: string, other: string, here: Scope, env: Env)
    requires d <= e
    ensures Similar(CombinatorIssues(d, v, s, path, here, env), CombinatorIssues(e, v, s, other, here, env))
    decreases d, 4, 0
  {
    CollectSimilar(d, e, BranchTasks(v, s.allOf, path), BranchTasks(v, s.allOf, other), here, env);
    ChoiceIssuesSimilar(d, e, v, s, path, other, here, env);
  }

  lemma ItemsSimilar(d: nat, e: nat, items: seq<Value>, s: Schema, path: string, other: string, here: Scope, env: Env)
    requires d <= e
    ensures Similar(ItemsIssues(d, items, s, path, here, env), ItemsIssues(e, items, s, other, here, env))
    ensures ContainsHolds(d, items, s, path, here, env).Done? ==>
              ContainsHolds(e, items, s, other, here, env) == ContainsHolds(d, items, s, path, here, env)
    decreases d, 2, 0
  {
    if s.items.Some? {
      CollectSimilar(d, e, ItemTasks(items, s.items.value, path), ItemTasks(items, s.items.value, other), here, env);
    }
    if ContainsHolds(d, items, s, path, here, env).Done? && s.contains.Some? {
      SomeSimilar(d, e, ItemTasks(items, s.contains.value, path), ItemTasks(items, s.contains.value, other), here, env);
    }
  }

  lemma ArraySimilar(d: nat, e: nat, v: Value, s: Schema, path: string, other: string, here: Scope, env: Env)
    requires d <= e
    ensures Similar(ArrayIssues(d, v, s, path, here, env), ArrayIssues(e, v, s, other, here, env))
    decreases d, 3, 0
  {
    if v.Array? {
      ItemsSimilar(d, e, v.items, s, path, other, here, env);
      CollectSimilar(d, e, PrefixTasks(v.items, s.prefixItems, path), PrefixTasks(v.items, s.prefixItems, other),
                     here, env);
    }
  }

  lemma {:induction false} PropertyTasksSame(entries: seq<Field>, properties: seq<Property>, path: string,
                                             other: string)
    ensures SameTasks(PropertyTasks(entries, properties, path), PropertyTasks(entries, properties, other))
  {
    if properties != [] { PropertyTasksSame(entries, properties[1..], path, other); }
  }

  lemma {:induction false} ExtraTasksSame(entries: seq<Field>, all: seq<Field>, properties: seq<Property>, s: Schema,
                                          path: string, other: string)
    ensures SameTasks(ExtraTasks(entries, all, properties, s, path), ExtraTasks(entries, all, properties, s, other))
  {
    if entries != [] { ExtraTasksSame(entries[1..], all, properties, s, path, other); }
  }

  lemma ExtraSimilar(d: nat, e: nat, entries: seq<Field>, s: Schema, path: string, other: string, here: Scope, env: Env)
    requires d <= e
    ensures Similar(ExtraIssues(d, entries, s, path, here, env), ExtraIssues(e, entries, s, other, here, env))
    decreases d, 2, 0
  {
    match s.extra {
      case ExtraAllowed =>
      case ExtraForbidden =>
        UnexpectedAgrees(entries, s.properties, path);
        UnexpectedAgrees(entries, s.properties, other);
      case ExtraMust(extra) =>
        ExtraTasksSame(entries, entries, s.properties, extra, path, other);
        CollectSimilar(d, e, ExtraTasks(entries, entries, s.properties, extra, path),
                       ExtraTasks(entries, entries, s.properties, extra, other), here, env);
    }
  }

  lemma RequirementsSimilar(entries: seq<Field>, s: Schema, path: string, other: string)
    ensures MissingIssues(s.required, entries, path, MissingProperty) == [] <==>
            MissingIssues(s.required, entries, other, MissingProperty) == []
    ensures DependencyIssues(s.dependentRequired, entries, path) == [] <==>
            DependencyIssues(s.dependentRequired, entries, other) == []
  {
    MissingAgrees(s.required, entries, path, MissingProperty);
    MissingAgrees(s.required, entries, other, MissingProperty);
    DependenciesAgree(s.dependentRequired, entries, path);
    DependenciesAgree(s.dependentRequired, entries, other);
  }

  lemma NamesSimilar(d: nat, e: nat, entries: seq<Field>, s: Schema, path: string, other: string, here: Scope, env: Env)
    requires d <= e
    ensures Similar(NamesIssues(d, entries, s, path, here, env), NamesIssues(e, entries, s, other, here, env))
    decreases d, 2, 0
  {
    if s.propertyNames.Some? {
      CollectSimilar(d, e, NameTasks(entries, s.propertyNames.value, path),
                     NameTasks(entries, s.propertyNames.value, other),
                     here, env);
    }
  }

  lemma RecordSimilar(d: nat, e: nat, v: Value, s: Schema, path: string, other: string, here: Scope, env: Env)
    requires d <= e
    ensures Similar(RecordIssues(d, v, s, path, here, env), RecordIssues(e, v, s, other, here, env))
    decreases d, 3, 0
  {
    if v.IsRecord() {
      var entries := Entries(v);
      PropertyTasksSame(entries, s.properties, path, other);
      CollectSimilar(d, e, PropertyTasks(entries, s.properties, path), PropertyTasks(entries, s.properties, other),
                     here, env);
      NamesSimilar(d, e, entries, s, path, other, here, env);
      ExtraSimilar(d, e, entries, s, path, other, here, env);
      RequirementsSimilar(entries, s, path, other);
    }
  }

  lemma ConditionSimilar(d: nat, e: nat, v: Value, s: Schema, path: string, other: string, here: Scope, env: Env)
    requires d <= e
    ensures Similar(ConditionIssues(d, v, s, path, here, env), ConditionIssues(e, v, s, other, here, env))
    decreases d, 2, 0
  {
    if s.ifSchema.Some? && ConditionIssues(d, v, s, path, here, env).Done? {
      SomeSimilar(d, e, [Task(v, s.ifSchema.value, path)], [Task(v, s.ifSchema.value, other)], here, env);
      var holds := SomeMatches(d, [Task(v, s.ifSchema.value, path)], here, env).value;
      var branch := if holds then s.thenSchema else s.elseSchema;
      if branch.Some? {
        CollectSimilar(d, e, [Task(v, branch.value, path)], [Task(v, branch.value, other)], here, env);
      }
    }
  }

  lemma KeywordsSimilar(d: nat, e: nat, v: Value, s: Schema, path: string, other: string, here: Scope, env: Env)
    requires d <= e
    ensures Similar(KeywordIssues(d, v, s, path, here, env), KeywordIssues(e, v, s, other, here, env))
    decreases d, 5, 0
  {
    CombinatorsSimilar(d, e, v, s, path, other, here, env);
    ArraySimilar(d, e, v, s, path, other, here, env);
    RecordSimilar(d, e, v, s, path, other, here, env);
    ConditionSimilar(d, e, v, s, path, other, here, env);
    assert LeafIssues(v, s, path, env) == [] <==> LeafIssues(v, s, other, env) == [];
  }

  /** A result does not depend on the report path, and a call that returned returns alike on a larger stack. */
  lemma {:induction false} ValidateSimilar(d: nat, e: nat, v: Value, s: Schema, path: string, other: string,
                                           scope: Scope,
                                           env: Env)
    requires d <= e
    ensures Similar(Validate(d, v, s, path, scope, env), Validate(e, v, s, other, scope, env))
    decreases d, 0, 0
  {
    if d > 0 {
      var here := Enter(scope, s);
      var target := Resolve(env, here, s.ref);
      if s.ref != "" && target.Some? {
        ValidateSimilar(d - 1, e - 1, v, target.value.schema, path, other, target.value.scope, env);
      }
      KeywordsSimilar(d - 1, e - 1, v, s, path, other, here, env);
    }
  }

  // ---------------------------------------------------------------- the theorems

  lemma AcceptanceAgrees(depth: nat, env: Env)
    ensures Agrees(Acceptance(env), depth, env)
  {
    forall v, s, path, scope | Validate(depth, v, s, path, scope, env).Done?
      ensures Validate(depth, v, s, path, scope, env).value == [] <==> Accepts(env, v, s, scope)
    {
      ValidateSimilar(depth, depth, v, s, path, "$", scope, env);
      if Accepts(env, v, s, scope) {
        var other: nat :| Validate(other, v, s, "$", scope, env) == Done([]);
        var larger := Max(depth, other);
        ValidateSimilar(depth, larger, v, s, path, "$", scope, env);
        ValidateSimilar(other, larger, v, s, "$", "$", scope, env);
      }
    }
  }

  /** What the interpreter accepts solves the equation: every keyword means what `Says` says it means. */
  lemma AcceptanceIsMeaning(env: Env)
    ensures IsMeaning(Acceptance(env), env)
  {
    var m := Acceptance(env);
    forall v, s, scope | Returns(env, v, s, scope)
      ensures m(v, s, scope) <==> Says(m, env, v, s, scope)
    {
      var depth: nat :| Validate(depth, v, s, "$", scope, env).Done?;
      assert depth > 0;
      AcceptanceAgrees(depth - 1, env);
      AcceptanceAgrees(depth, env);
      StepAgrees(m, depth - 1, v, s, "$", scope, env);
    }
  }

  lemma ReturnsAt(depth: nat, v: Value, s: Schema, path: string, scope: Scope, env: Env)
    requires Validate(depth, v, s, path, scope, env).Done?
    ensures Returns(env, v, s, scope)
  {
    ValidateSimilar(depth, depth, v, s, path, "$", scope, env);
    hide Validate;
  }

  /**
   Any solution of the equation accepts exactly the values for which the interpreter returns no issue, whatever
   the path, the scope and the stack, so the solution is unique where the interpreter returns.
   */
  lemma {:induction false} ValidateDecidesMeaning(m: Meaning, depth: nat, env: Env)
    requires IsMeaning(m, env)
    ensures Agrees(m, depth, env)
  {
    if depth > 0 {
      ValidateDecidesMeaning(m, depth - 1, env);
      forall v, s, path, scope | Validate(depth, v, s, path, scope, env).Done?
        ensures Validate(depth, v, s, path, scope, env).value == [] <==> m(v, s, scope)
      {
        ReturnsAt(depth, v, s, path, scope, env);
        hide Validate, Agrees, Says;
        StepAgrees(m, depth - 1, v, s, path, scope, env);
      }
    }
  }
}
