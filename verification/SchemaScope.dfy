/**
 Reference scoping. The interpreter looks `#/$defs/` references up on the path of schemas it came through, so
 in principle a definition of a calling document could capture a reference of the called one. It cannot when
 every document keeps its `$defs` at its root and defines the keys it uses, which all shipped schemas do.
 */
module SchemaScope {
  import opened Prelude
  import opened JsonValues
  import opened SchemaRuntime

  // ---------------------------------------------------------------- the shape of documents

  function Given(s: Option<Schema>): seq<Schema> { if s.Some? then [s.value] else [] }

  function Listed(branches: Branches): seq<Schema> { if branches.Branches? then branches.list else [] }

  function Schemas(properties: seq<Property>): (schemas: seq<Schema>)
    ensures |schemas| == |properties|
    ensures forall i :: 0 <= i < |properties| ==> schemas[i] == properties[i].schema
  {
    seq(|properties|, i requires 0 <= i < |properties| => properties[i].schema)
  }

  /** The subschemas applied to the value itself. */
  function SameValue(s: Schema): (children: seq<Schema>)
    ensures forall c :: c in children ==> c < s
  {
    s.allOf + Listed(s.anyOf) + Listed(s.oneOf) + Given(s.negated)
    + Given(s.ifSchema) + Given(s.thenSchema) + Given(s.elseSchema)
  }

  /** The subschemas applied to an item, a field or a key of the value. */
  function Descending(s: Schema): (children: seq<Schema>)
    ensures forall c :: c in children ==> c < s
  {
    Schemas(s.properties) + Given(s.propertyNames) + Given(s.items) + s.prefixItems
    + (if s.extra.ExtraMust? then [s.extra.schema] else []) + Given(s.contains)
  }

  predicate Defines(document: Schema, ref: string) {
    IsLocalRef(ref) ==> FindProperty(document.defs, LocalKey(ref)).Some?
  }

  /** `s` is a schema below the root of `document`: no `$defs`, and its local references are defined there. */
  ghost predicate Inside(s: Schema, document: Schema) {
    && s.defs == []
    && Defines(document, s.ref)
    && (forall c :: c in SameValue(s) ==> Inside(c, document))
    && (forall c :: c in Descending(s) ==> Inside(c, document))
  }

  ghost predicate ChildrenInside(s: Schema, document: Schema) {
    && Defines(document, s.ref)
    && (forall c :: c in SameValue(s) ==> Inside(c, document))
    && (forall c :: c in Descending(s) ==> Inside(c, document))
  }

  ghost predicate IsDocument(document: Schema) {
    && ChildrenInside(document, document)
    && (forall c :: c in Schemas(document.defs) ==> Inside(c, document))
  }

  ghost predicate WellScoped(env: Env) {
    forall id :: id in env.registry ==> IsDocument(env.registry[id])
  }

  /** On this path every definition of `document` is found, and it is the document's own. */
  ghost predicate Sees(path: seq<Schema>, document: Schema) {
    forall key :: FindProperty(document.defs, key).Some? ==> FindOnPath(path, key) == FindProperty(document.defs, key)
  }

  /** `s` is the root of `document`, or lies inside it and was reached along a path that sees it. */
  ghost predicate Belongs(s: Schema, document: Schema, path: seq<Schema>) {
    IsDocument(document) && (s == document || (Inside(s, document) && Sees(path, document)))
  }

  lemma EnteringSees(s: Schema, document: Schema, path: seq<Schema>)
    requires Belongs(s, document, path)
    ensures Sees([s] + path, document) && ChildrenInside(s, document)
  {
    assert ([s] + path)[1..] == path;
  }

  lemma {:induction false} FoundIsListed(properties: seq<Property>, key: string)
    requires FindProperty(properties, key).Some?
    ensures FindProperty(properties, key).value in Schemas(properties)
  {
    if properties[0].name == key {
      assert Schemas(properties)[0] == properties[0].schema;
    } else {
      FoundIsListed(properties[1..], key);
      var i :| 0 <= i < |properties[1..]| && Schemas(properties[1..])[i] == FindProperty(properties, key).value;
      assert Schemas(properties)[i + 1] == FindProperty(properties, key).value;
    }
  }

  // ---------------------------------------------------------------- both scopes give one result

  ghost predicate TasksInside(tasks: seq<Task>, document: Schema) {
    forall i :: 0 <= i < |tasks| ==> Inside(tasks[i].schema, document)
  }

  lemma {:induction false} CollectScopes(d: nat, tasks: seq<Task>, path: seq<Schema>, document: Schema, env: Env)
    requires WellScoped(env) && IsDocument(document) && Sees(path, document) && TasksInside(tasks, document)
    ensures Collect(d, tasks, Dynamic(path), env) == Collect(d, tasks, Lexical(document), env)
    decreases d, 1, |tasks|
  {
    if tasks != [] {
      ValidateScopes(d, tasks[0].value, tasks[0].schema, tasks[0].path, path, document, env);
      CollectScopes(d, tasks[1..], path, document, env);
    }
  }

  lemma {:induction false} CountScopes(d: nat, tasks: seq<Task>, path: seq<Schema>, document: Schema, env: Env)
    requires WellScoped(env) && IsDocument(document) && Sees(path, document) && TasksInside(tasks, document)
    ensures CountMatches(d, tasks, Dynamic(path), env) == CountMatches(d, tasks, Lexical(document), env)
    decreases d, 1, |tasks|
  {
    if tasks != [] {
      ValidateScopes(d, tasks[0].value, tasks[0].schema, tasks[0].path, path, document, env);
      CountScopes(d, tasks[1..], path, document, env);
    }
  }

  lemma {:induction false} SomeScopes(d: nat, tasks: seq<Task>, path: seq<Schema>, document: Schema, env: Env)
    requires WellScoped(env) && IsDocument(document) && Sees(path, document) && TasksInside(tasks, document)
    ensures SomeMatches(d, tasks, Dynamic(path), env) == SomeMatches(d, tasks, Lexical(document), env)
    decreases d, 1, |tasks|
  {
    if tasks != [] {
      ValidateScopes(d, tasks[0].value, tasks[0].schema, tasks[0].path, path, document, env);
      SomeScopes(d, tasks[1..], path, document, env);
    }
  }

  lemma ChoiceScopes(d: nat, v: Value, s: Schema, p: string, path: seq<Schema>, document: Schema, env: Env)
    requires WellScoped(env) && IsDocument(document) && Sees(path, document) && ChildrenInside(s, document)
    ensures ChoiceIssues(d, v, s, p, Dynamic(path), env) == ChoiceIssues(d, v, s, p, Lexical(document), env)
    decreases d, 2, 0
  {
    assert OneOfHolds(d, v, s, p, Dynamic(path), env) == OneOfHolds(d, v, s, p, Lexical(document), env) by {
      if s.oneOf.Branches? { CountScopes(d, BranchTasks(v, s.oneOf.list, p), path, document, env); }
    }
    assert AnyOfHolds(d, v, s, p, Dynamic(path), env) == AnyOfHolds(d, v, s, p, Lexical(document), env) by {
      if s.anyOf.Branches? { SomeScopes(d, BranchTasks(v, s.anyOf.list, p), path, document, env); }
    }
    assert NotFails(d, v, s, p, Dynamic(path), env) == NotFails(d, v, s, p, Lexical(document), env) by {
      if s.negated.Some? { SomeScopes(d, [Task(v, s.negated.value, p)], path, document, env); }
    }
  }

  lemma CombinatorScopes(d: nat, v: Value, s: Schema, p: string, path: seq<Schema>, document: Schema, env: Env)
    requires WellScoped(env) && IsDocument(document) && Sees(path, document) && ChildrenInside(s, document)
    ensures CombinatorIssues(d, v, s, p, Dynamic(path), env) == CombinatorIssues(d, v, s, p, Lexical(document), env)
    decreases d, 3, 0
  {
    CollectScopes(d, BranchTasks(v, s.allOf, p), path, document, env);
    ChoiceScopes(d, v, s, p, path, document, env);
  }

  lemma ItemScopes(d: nat, items: seq<Value>, s: Schema, p: string, path: seq<Schema>, document: Schema, env: Env)
    requires WellScoped(env) && IsDocument(document) && Sees(path, document) && ChildrenInside(s, document)
    ensures ItemsIssues(d, items, s, p, Dynamic(path), env) == ItemsIssues(d, items, s, p, Lexical(document), env)
    ensures ContainsHolds(d, items, s, p, Dynamic(path), env) == ContainsHolds(d, items, s, p, Lexical(document), env)
    decreases d, 2, 0
  {
    if s.items.Some? { CollectScopes(d, ItemTasks(items, s.items.value, p), path, document, env); }
    if s.contains.Some? { SomeScopes(d, ItemTasks(items, s.contains.value, p), path, document, env); }
  }

  lemma ArrayScopes(d: nat, v: Value, s: Schema, p: string, path: seq<Schema>, document: Schema, env: Env)
    requires WellScoped(env) && IsDocument(document) && Sees(path, document) && ChildrenInside(s, document)
    ensures ArrayIssues(d, v, s, p, Dynamic(path), env) == ArrayIssues(d, v, s, p, Lexical(document), env)
    decreases d, 3, 0
  {
    if v.Array? {
      ItemScopes(d, v.items, s, p, path, document, env);
      CollectScopes(d, PrefixTasks(v.items, s.prefixItems, p), path, document, env);
    }
  }

  lemma {:induction false} PropertyTasksInside(entries: seq<Field>, properties: seq<Property>, p: string,
                                               document: Schema)
    requires forall i :: 0 <= i < |properties| ==> Inside(properties[i].schema, document)
    ensures TasksInside(PropertyTasks(entries, properties, p), document)
  {
    if properties != [] { PropertyTasksInside(entries, properties[1..], p, document); }
  }

  lemma {:induction false} ExtraTasksInside(entries: seq<Field>, all: seq<Field>, properties: seq<Property>, s: Schema,
                                            p: string, document: Schema)
    requires Inside(s, document)
    ensures TasksInside(ExtraTasks(entries, all, properties, s, p), document)
  {
    if entries != [] { ExtraTasksInside(entries[1..], all, properties, s, p, document); }
  }

  lemma PropertyScopes(d: nat, entries: seq<Field>, s: Schema, p: string, path: seq<Schema>, document: Schema, env: Env)
    requires WellScoped(env) && IsDocument(document) && Sees(path, document) && ChildrenInside(s, document)
    ensures Collect(d, PropertyTasks(entries, s.properties, p), Dynamic(path), env)
         == Collect(d, PropertyTasks(entries, s.properties, p), Lexical(document), env)
    decreases d, 2, 0
  {
    forall i | 0 <= i < |s.properties| ensures Inside(s.properties[i].schema, document) {
      assert Schemas(s.properties)[i] in Descending(s);
    }
    PropertyTasksInside(entries, s.properties, p, document);
    CollectScopes(d, PropertyTasks(entries, s.properties, p), path, document, env);
  }

  lemma NameAndExtraScopes(d: nat, entries: seq<Field>, s: Schema, p: string, path: seq<Schema>, document: Schema,
                           env: Env)
    requires WellScoped(env) && IsDocument(document) && Sees(path, document) && ChildrenInside(s, document)
    ensures NamesIssues(d, entries, s, p, Dynamic(path), env) == NamesIssues(d, entries, s, p, Lexical(document), env)
    ensures ExtraIssues(d, entries, s, p, Dynamic(path), env) == ExtraIssues(d, entries, s, p, Lexical(document), env)
    decreases d, 2, 0
  {
    if s.propertyNames.Some? {
      CollectScopes(d, NameTasks(entries, s.propertyNames.value, p), path, document, env);
    }
    if s.extra.ExtraMust? {
      ExtraTasksInside(entries, entries, s.properties, s.extra.schema, p, document);
      CollectScopes(d, ExtraTasks(entries, entries, s.properties, s.extra.schema, p), path, document, env);
    }
  }

  lemma RecordScopes(d: nat, v: Value, s: Schema, p: string, path: seq<Schema>, document: Schema, env: Env)
    requires WellScoped(env) && IsDocument(document) && Sees(path, document) && ChildrenInside(s, document)
    ensures RecordIssues(d, v, s, p, Dynamic(path), env) == RecordIssues(d, v, s, p, Lexical(document), env)
    decreases d, 3, 0
  {
    if v.IsRecord() {
      PropertyScopes(d, Entries(v), s, p, path, document, env);
      NameAndExtraScopes(d, Entries(v), s, p, path, document, env);
    }
  }

  lemma ConditionScopes(d: nat, v: Value, s: Schema, p: string, path: seq<Schema>, document: Schema, env: Env)
    requires WellScoped(env) && IsDocument(document) && Sees(path, document) && ChildrenInside(s, document)
    ensures ConditionIssues(d, v, s, p, Dynamic(path), env) == ConditionIssues(d, v, s, p, Lexical(document), env)
    decreases d, 2, 0
  {
    if s.ifSchema.Some? {
      SomeScopes(d, [Task(v, s.ifSchema.value, p)], path, document, env);
      if s.thenSchema.Some? { CollectScopes(d, [Task(v, s.thenSchema.value, p)], path, document, env); }
      if s.elseSchema.Some? { CollectScopes(d, [Task(v, s.elseSchema.value, p)], path, document, env); }
    }
  }

  lemma KeywordScopes(d: nat, v: Value, s: Schema, p: string, path: seq<Schema>, document: Schema, env: Env)
    requires WellScoped(env) && IsDocument(document) && Sees(path, document) && ChildrenInside(s, document)
    ensures KeywordIssues(d, v, s, p, Dynamic(path), env) == KeywordIssues(d, v, s, p, Lexical(document), env)
    decreases d, 4, 0
  {
    CombinatorScopes(d, v, s, p, path, document, env);
    ArrayScopes(d, v, s, p, path, document, env);
    RecordScopes(d, v, s, p, path, document, env);
    ConditionScopes(d, v, s, p, path, document, env);
  }

  /** In scope of `document` both lookups find the same schema, which belongs to the document found with it. */
  lemma ResolveScopes(s: Schema, document: Schema, path: seq<Schema>, env: Env)
    requires WellScoped(env) && IsDocument(document) && Sees(path, document) && Defines(document, s.ref)
    ensures var found, expected := Resolve(env, Dynamic(path), s.ref), Resolve(env, Lexical(document), s.ref);
            && (found.Some? <==> expected.Some?)
            && (found.Some? ==>
                  && found.value.schema == expected.value.schema
                  && found.value.scope == Dynamic(path)
                  && expected.value.scope.Lexical?
                  && Belongs(found.value.schema, expected.value.scope.document, path))
  {
    if IsLocalRef(s.ref) {
      FoundIsListed(document.defs, LocalKey(s.ref));
    }
  }

  /**
   Dynamic scope is lexical scope: searching the path gives the interpreter the same result, issue by issue,
   as looking each local reference up in the document that contains it. This holds at every depth of every
   recursion, through references to other documents and back.
   */
  lemma {:induction false} ValidateScopes(d: nat, v: Value, s: Schema, p: string, path: seq<Schema>, document: Schema,
                                          env: Env)
    requires WellScoped(env) && Belongs(s, document, path)
    ensures Validate(d, v, s, p, Dynamic(path), env) == Validate(d, v, s, p, Lexical(document), env)
    decreases d, 0, 0
  {
    if d > 0 {
      var here := [s] + path;
      EnteringSees(s, document, path);
      ResolveScopes(s, document, here, env);
      var found, expected := Resolve(env, Dynamic(here), s.ref), Resolve(env, Lexical(document), s.ref);
      if s.ref != "" && found.Some? {
        ValidateScopes(d - 1, v, found.value.schema, p, here, expected.value.scope.document, env);
      }
      KeywordScopes(d - 1, v, s, p, here, document, env);
    }
  }

  /** The case of `validateAgainstSchema`, which starts at a registered document with an empty path. */
  lemma DynamicScopeIsLexical(d: nat, v: Value, id: string, env: Env)
    requires WellScoped(env) && id in env.registry
    ensures Validate(d, v, env.registry[id], "$", Dynamic([]), env)
         == Validate(d, v, env.registry[id], "$", Lexical(env.registry[id]), env)
  {
    ValidateScopes(d, v, env.registry[id], "$", [], env.registry[id], env);
  }

  /**
   The condition matters: a document that uses a key it does not define has its reference captured by the definition
   of whichever document refers to it, so that the referring document's definition decides in its place, on every value.
   */
  lemma UndefinedKeyIsCaptured(d: nat, v: Value, key: string, definition: Schema, env: Env)
    requires env.registry == map["B" := EMPTY_SCHEMA.(ref := LOCAL_PREFIX + key)]
    ensures var a := EMPTY_SCHEMA.(ref := "B", defs := [Property(key, definition)]);
            && Validate(d + 2, v, a, "$", Dynamic([]), env)
               == Validate(d, v, definition, "$", Dynamic([env.registry["B"], a]), env)
            && Validate(d + 2, v, a, "$", Lexical(a), env) == Done([Issue("$", UnresolvedRef(LOCAL_PREFIX + key))])
  {
    var b := env.registry["B"];
    var a := EMPTY_SCHEMA.(ref := "B", defs := [Property(key, definition)]);
    var local := LOCAL_PREFIX + key;
    assert local[|LOCAL_PREFIX|..] == key;
    assert LocalKey(local) == key && !IsLocalRef("B");
    assert FindOnPath([b, a], key) == Some(definition) by {
      assert [b, a][1..] == [a];
    }
    assert FindProperty(b.defs, key) == None;
    assert [b] + ([a] + []) == [b, a] && [a] + [] == [a];
    NoKeywords(d, v, b, Dynamic([b, a]), env);
    NoKeywords(d + 1, v, a, Dynamic([a]), env);
    NoKeywords(d + 1, v, a, Lexical(a), env);
    hide KeywordIssues, FindOnPath, FindProperty;
    RefAlone(d, v, b, Dynamic([a]), Target(definition, Dynamic([b, a])), env);
    RefAlone(d + 1, v, a, Dynamic([]), Target(b, Dynamic([a])), env);
    assert Validate(d + 1, v, b, "$", Lexical(b), env) == Done([Issue("$", UnresolvedRef(local))]);
    RefAlone(d + 1, v, a, Lexical(a), Target(b, Lexical(b)), env);
  }

  /** A schema that is only a reference decides as what it refers to. */
  lemma RefAlone(d: nat, v: Value, s: Schema, scope: Scope, target: Target, env: Env)
    requires s.ref != "" && Resolve(env, Enter(scope, s), s.ref) == Some(target)
    requires KeywordIssues(d, v, s, "$", Enter(scope, s), env) == Done([])
    ensures Validate(d + 1, v, s, "$", scope, env) == Validate(d, v, target.schema, "$", target.scope, env)
  {
    hide KeywordIssues, Resolve;
    var outcome := Validate(d, v, target.schema, "$", target.scope, env);
    if outcome.Done? { assert outcome.value + [] == outcome.value; }
  }

  lemma NoKeywords(depth: nat, v: Value, s: Schema, scope: Scope, env: Env)
    requires s == EMPTY_SCHEMA.(ref := s.ref, defs := s.defs)
    ensures KeywordIssues(depth, v, s, "$", scope, env) == Done([])
  {
    assert BranchTasks(v, [], "$") == [];
    assert ChoiceIssues(depth, v, s, "$", scope, env).Done? && ChoiceIssues(depth, v, s, "$", scope, env).value == [];
    assert CombinatorIssues(depth, v, s, "$", scope, env) == Done([]);
    assert LeafIssues(v, s, "$", env) == [];
    assert ArrayIssues(depth, v, s, "$", scope, env) == Done([]) by {
      if v.Array? { assert PrefixTasks(v.items, [], "$") == []; }
    }
    assert RecordIssues(depth, v, s, "$", scope, env) == Done([]);
    assert ConditionIssues(depth, v, s, "$", scope, env) == Done([]);
  }
}
