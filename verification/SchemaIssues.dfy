/**
 Which issues the schema interpreter reports, and where: the rule that is broken, at the path of the value that
 breaks it.
 */
module SchemaIssues {
  import opened Prelude
  import opened JsonValues
  import opened JsonMeaning
  import opened SchemaRuntime
  import opened SchemaMeaning

  function KeyPath(path: string, key: string): string { if path == "$" then key else path + "." + key }

  function IndexPath(path: string, i: nat): string { path + "[" + Decimal(i) + "]" }

  ghost predicate In(issue: Issue, outcome: Outcome<seq<Issue>>) { outcome.Done? && issue in outcome.value }

  /** What a call with this much stack accepts. */
  ghost function AcceptedAt(depth: nat, env: Env): Meaning {
    (v, s, scope) => Validate(depth, v, s, "$", scope, env) == Done([])
  }

  // ---------------------------------------------------------------- what is reported

  /** Rules about the value itself. */
  ghost predicate BreaksValue(env: Env, v: Value, s: Schema, rule: Rule) {
    || (rule == WrongConstant && s.constant.Some? && !IsConstant(v, s.constant.value))
    || (rule == NotListed && s.oneOfValues.Some? && forall c :: c in s.oneOfValues.value ==> !IsConstant(v, c))
    || (rule == PatternMismatch && v.Text? && s.pattern != "" && !env.matchesPattern(s.pattern, v.s))
    || (rule == NotDateTime && v.Text? && s.isDateTime && !env.parsesAsDate(v.s))
  }

  predicate BreaksSize(v: Value, s: Schema, rule: Rule) {
    || (rule == TooShort && v.Text? && s.minLength.Some? && |v.s| < s.minLength.value)
    || (rule == TooLong && v.Text? && s.maxLength.Some? && s.maxLength.value < |v.s|)
    || (rule == TooSmall && v.Number? && s.minimum.Some? && v.n < s.minimum.value)
    || (rule == TooLarge && v.Number? && s.maximum.Some? && s.maximum.value < v.n)
  }

  /** Rules about the items of an array. */
  ghost predicate BreaksItems(m: Meaning, v: Value, s: Schema, here: Scope, rule: Rule) {
    && v.Array?
    && (|| (rule == TooFewItems && s.minItems.Some? && |v.items| < s.minItems.value)
        || (rule == NotUnique && s.uniqueItems
            && exists i, j :: 0 <= i < j < |v.items| && SamePrint(v.items[i], v.items[j]))
        || (rule == NothingContained && s.contains.Some? && forall w :: w in v.items ==> !m(w, s.contains.value, here)))
  }

  /** Rules about the number of properties. */
  predicate BreaksCount(v: Value, s: Schema, rule: Rule) {
    && v.IsRecord()
    && (|| (rule == TooFewProperties && s.minProperties.Some? && |DefinedPlaces(v)| < s.minProperties.value)
        || (rule == TooManyProperties && s.maxProperties.Some? && s.maxProperties.value < |DefinedPlaces(v)|))
  }

  ghost predicate BreaksHere(m: Meaning, env: Env, v: Value, s: Schema, here: Scope, rule: Rule) {
    BreaksValue(env, v, s, rule) || BreaksSize(v, s, rule) || BreaksItems(m, v, s, here, rule)
      || BreaksCount(v, s, rule)
  }

  /** Rules about a property, which are reported at its path. */
  ghost predicate LacksRequired(v: Value, s: Schema, rule: Rule, key: string) {
    rule == MissingProperty && key in s.required && !IsPresent(v, key)
  }

  ghost predicate LacksNeeded(v: Value, s: Schema, rule: Rule, key: string) {
    && rule.RequiredBecause? && IsPresent(v, rule.key) && !IsPresent(v, key)
    && exists d :: d in s.dependentRequired && d.name == rule.key && key in d.needs
  }

  ghost predicate IsUnexpected(v: Value, s: Schema, rule: Rule, key: string) {
    rule == UnexpectedProperty && s.extra == ExtraForbidden && IsPresent(v, key) && !Names(s.properties, key)
  }

  ghost predicate BreaksAtKey(v: Value, s: Schema, rule: Rule, key: string) {
    v.IsRecord() && (LacksRequired(v, s, rule, key) || LacksNeeded(v, s, rule, key) || IsUnexpected(v, s, rule, key))
  }

  /** Rules about the choices between subschemas. */
  ghost predicate BreaksChoice(m: Meaning, v: Value, s: Schema, here: Scope, rule: Rule) {
    || (rule == ExactlyOne && s.oneOf.Branches? && !ExactlyOneHolds(m, v, s.oneOf.list, here))
    || (rule == AtLeastOne && s.anyOf.Branches? && forall b :: b in s.anyOf.list ==> !m(v, b, here))
    || (rule == ForbiddenMatch && s.negated.Some? && m(v, s.negated.value, here))
  }

  /** An issue of an item, reported at its index. */
  ghost predicate ItemsReport(depth: nat, v: Value, s: Schema, path: string, here: Scope, env: Env, issue: Issue) {
    v.Array? && exists i ::
      0 <= i < |v.items|
      && (|| (s.items.Some? && In(issue, Validate(depth, v.items[i], s.items.value, IndexPath(path, i), here, env)))
          || (i < |s.prefixItems|
              && In(issue, Validate(depth, v.items[i], s.prefixItems[i], IndexPath(path, i), here, env))))
  }

  /** An issue of a property under a schema for it, reported at the property. */
  ghost predicate PropertyReports(depth: nat, v: Value, p: Property, path: string, here: Scope, env: Env,
                                  issue: Issue) {
    exists w :: HasField(v, p.name, w) && In(issue, Validate(depth, w, p.schema, KeyPath(path, p.name), here, env))
  }

  ghost predicate ExtraReports(depth: nat, v: Value, properties: seq<Property>, extra: Schema, path: string,
                               here: Scope, env: Env, issue: Issue, key: string)
  {
    !Names(properties, key) && PropertyReports(depth, v, Property(key, extra), path, here, env, issue)
  }

  /** An issue of a property or of its name. */
  ghost predicate FieldsReport(depth: nat, v: Value, s: Schema, path: string, here: Scope, env: Env, issue: Issue) {
    && v.IsRecord()
    && (|| (exists p :: p in s.properties && PropertyReports(depth, v, p, path, here, env, issue))
        || (s.propertyNames.Some? && exists key ::
              IsPresent(v, key)
              && In(issue, Validate(depth, Text(key), s.propertyNames.value, KeyPath(path, key), here, env)))
        || (s.extra.ExtraMust? && exists key ::
              ExtraReports(depth, v, s.properties, s.extra.schema, path, here, env, issue, key)))
  }

  /** An issue of the branch that the condition selects. */
  ghost predicate BranchReports(depth: nat, v: Value, s: Schema, path: string, here: Scope, env: Env, issue: Issue) {
    && s.ifSchema.Some?
    && var branch := if AcceptedAt(depth, env)(v, s.ifSchema.value, here) then s.thenSchema else s.elseSchema;
       branch.Some? && In(issue, Validate(depth, v, branch.value, path, here, env))
  }

  /** After a wrong type only the subschemas that are combined with the schema report. */
  ghost predicate KeywordsReport(depth: nat, v: Value, s: Schema, path: string, here: Scope, env: Env, issue: Issue) {
    var m := AcceptedAt(depth, env);
    || (exists b :: b in s.allOf && In(issue, Validate(depth, v, b, path, here, env)))
    || (issue.path == path && BreaksChoice(m, v, s, here, issue.rule))
    || (if !SaysType(v, s.types) then issue == Issue(path, WrongType)
        else
          || (issue.path == path && BreaksHere(m, env, v, s, here, issue.rule))
          || (exists key :: BreaksAtKey(v, s, issue.rule, key) && issue.path == KeyPath(path, key))
          || ItemsReport(depth, v, s, path, here, env, issue) || FieldsReport(depth, v, s, path, here, env, issue)
          || BranchReports(depth, v, s, path, here, env, issue))
  }

  // ---------------------------------------------------------------- the proof, keyword by keyword

  ghost predicate TaskReports(depth: nat, t: Task, scope: Scope, env: Env, issue: Issue) {
    In(issue, Validate(depth, t.value, t.schema, t.path, scope, env))
  }

  lemma {:induction false} CollectReports(depth: nat, tasks: seq<Task>, scope: Scope, env: Env, issue: Issue)
    requires Collect(depth, tasks, scope, env).Done?
    ensures issue in Collect(depth, tasks, scope, env).value <==>
            exists t :: t in tasks && TaskReports(depth, t, scope, env, issue)
    decreases |tasks|
  {
    if tasks != [] {
      CollectReports(depth, tasks[1..], scope, env, issue);
      hide Validate;
      assert tasks == [tasks[0]] + tasks[1..];
      assert TaskReports(depth, tasks[0], scope, env, issue) <==>
             issue in Validate(depth, tasks[0].value, tasks[0].schema, tasks[0].path, scope, env).value;
    }
  }

  lemma AcceptedAgrees(depth: nat, env: Env)
    ensures Agrees(AcceptedAt(depth, env), depth, env)
  {
    forall v, s, path, scope | Validate(depth, v, s, path, scope, env).Done?
      ensures Validate(depth, v, s, path, scope, env).value == [] <==> AcceptedAt(depth, env)(v, s, scope)
    {
      ValidateSimilar(depth, depth, v, s, path, "$", scope, env);
      ValidateSimilar(depth, depth, v, s, "$", path, scope, env);
      hide Validate;
    }
  }

  lemma WhenReports(broken: bool, path: string, rule: Rule, issue: Issue)
    ensures issue in When(broken, path, rule) <==> broken && issue == Issue(path, rule)
  {
  }

  function ValueIssues(v: Value, s: Schema, path: string, env: Env): seq<Issue> {
    When(s.constant.Some? && !SameAs(v, s.constant.value), path, WrongConstant)
    + When(s.oneOfValues.Some? && !Listed(v, s.oneOfValues.value), path, NotListed)
    + When(s.pattern != "" && v.Text? && !env.matchesPattern(s.pattern, v.s), path, PatternMismatch)
    + When(s.isDateTime && v.Text? && !env.parsesAsDate(v.s), path, NotDateTime)
  }

  function SizeIssues(v: Value, s: Schema, path: string): seq<Issue> {
    When(v.Text? && s.minLength.Some? && |v.s| < s.minLength.value, path, TooShort)
    + When(v.Text? && s.maxLength.Some? && |v.s| > s.maxLength.value, path, TooLong)
    + When(v.Number? && s.minimum.Some? && v.n < s.minimum.value, path, TooSmall)
    + When(v.Number? && s.maximum.Some? && v.n > s.maximum.value, path, TooLarge)
  }

  lemma LeafSplit(v: Value, s: Schema, path: string, env: Env)
    ensures LeafIssues(v, s, path, env) == ValueIssues(v, s, path, env) + SizeIssues(v, s, path)
  {
    hide When, SameAs, Listed;
  }

  lemma ValueReports(v: Value, s: Schema, path: string, env: Env, issue: Issue)
    ensures issue in ValueIssues(v, s, path, env) <==> issue.path == path && BreaksValue(env, v, s, issue.rule)
  {
    if s.constant.Some? { ConstantMeaning(v, s.constant.value); }
    if s.oneOfValues.Some? { ListedMeaning(v, s.oneOfValues.value); }
    hide SameAs, IsConstant, Listed;
    WhenReports(s.constant.Some? && !SameAs(v, s.constant.value), path, WrongConstant, issue);
    WhenReports(s.oneOfValues.Some? && !Listed(v, s.oneOfValues.value), path, NotListed, issue);
    WhenReports(s.pattern != "" && v.Text? && !env.matchesPattern(s.pattern, v.s), path, PatternMismatch, issue);
    WhenReports(s.isDateTime && v.Text? && !env.parsesAsDate(v.s), path, NotDateTime, issue);
    hide When;
  }

  lemma SizeReports(v: Value, s: Schema, path: string, issue: Issue)
    ensures issue in SizeIssues(v, s, path) <==> issue.path == path && BreaksSize(v, s, issue.rule)
  {
    WhenReports(v.Text? && s.minLength.Some? && |v.s| < s.minLength.value, path, TooShort, issue);
    WhenReports(v.Text? && s.maxLength.Some? && |v.s| > s.maxLength.value, path, TooLong, issue);
    WhenReports(v.Number? && s.minimum.Some? && v.n < s.minimum.value, path, TooSmall, issue);
    WhenReports(v.Number? && s.maximum.Some? && v.n > s.maximum.value, path, TooLarge, issue);
    hide When;
  }

  lemma LeafReports(v: Value, s: Schema, path: string, env: Env, issue: Issue)
    ensures issue in LeafIssues(v, s, path, env) <==>
            issue.path == path && (BreaksValue(env, v, s, issue.rule) || BreaksSize(v, s, issue.rule))
  {
    ValueReports(v, s, path, env, issue);
    SizeReports(v, s, path, issue);
    LeafSplit(v, s, path, env);
    hide *;
  }

  lemma IndexedTasks(depth: nat, items: seq<Value>, s: Schema, path: string, here: Scope, env: Env, issue: Issue)
    ensures (exists t :: t in ItemTasks(items, s, path) && TaskReports(depth, t, here, env, issue)) <==>
            exists i :: 0 <= i < |items| && In(issue, Validate(depth, items[i], s, IndexPath(path, i), here, env))
  {
    hide Validate;
    var tasks := ItemTasks(items, s, path);
    if t :| t in tasks && TaskReports(depth, t, here, env, issue) {
      var i :| 0 <= i < |tasks| && tasks[i] == t;
      assert In(issue, Validate(depth, items[i], s, IndexPath(path, i), here, env));
    }
    if i :| 0 <= i < |items| && In(issue, Validate(depth, items[i], s, IndexPath(path, i), here, env)) {
      assert tasks[i] in tasks && TaskReports(depth, tasks[i], here, env, issue);
    }
  }

  lemma PrefixedTasks(depth: nat, items: seq<Value>, prefix: seq<Schema>, path: string, here: Scope, env: Env,
                      issue: Issue)
    ensures (exists t :: t in PrefixTasks(items, prefix, path) && TaskReports(depth, t, here, env, issue)) <==>
            exists i :: 0 <= i < |items| && i < |prefix|
                        && In(issue, Validate(depth, items[i], prefix[i], IndexPath(path, i), here, env))
  {
    hide Validate;
    var tasks := PrefixTasks(items, prefix, path);
    if t :| t in tasks && TaskReports(depth, t, here, env, issue) {
      var i :| 0 <= i < |tasks| && tasks[i] == t;
      assert In(issue, Validate(depth, items[i], prefix[i], IndexPath(path, i), here, env));
    }
    if i :| 0 <= i < |items| && i < |prefix|
            && In(issue, Validate(depth, items[i], prefix[i], IndexPath(path, i), here, env)) {
      assert tasks[i] in tasks && TaskReports(depth, tasks[i], here, env, issue);
    }
  }

  lemma ContainedMeaning(m: Meaning, items: seq<Value>, s: Schema, here: Scope)
    ensures (exists i :: 0 <= i < |items| && m(items[i], s, here)) <==> exists w :: w in items && m(w, s, here)
  {
    if i :| 0 <= i < |items| && m(items[i], s, here) { assert items[i] in items; }
  }

  lemma AllItemsReport(depth: nat, v: Value, s: Schema, path: string, here: Scope, env: Env, issue: Issue)
    requires v.Array? && ArrayIssues(depth, v, s, path, here, env).Done?
    ensures ItemsIssues(depth, v.items, s, path, here, env).Done?
            && Collect(depth, PrefixTasks(v.items, s.prefixItems, path), here, env).Done?
    ensures ItemsReport(depth, v, s, path, here, env, issue) <==>
            || issue in ItemsIssues(depth, v.items, s, path, here, env).value
            || issue in Collect(depth, PrefixTasks(v.items, s.prefixItems, path), here, env).value
  {
    if s.items.Some? {
      CollectReports(depth, ItemTasks(v.items, s.items.value, path), here, env, issue);
      IndexedTasks(depth, v.items, s.items.value, path, here, env, issue);
    }
    CollectReports(depth, PrefixTasks(v.items, s.prefixItems, path), here, env, issue);
    PrefixedTasks(depth, v.items, s.prefixItems, path, here, env, issue);
    hide Validate, HasRepeat, Collect, ItemTasks, PrefixTasks, In, TaskReports, ContainsHolds, IndexPath;
  }

  lemma ItemRules(depth: nat, v: Value, s: Schema, path: string, here: Scope, env: Env, rule: Rule)
    requires v.Array? && ArrayIssues(depth, v, s, path, here, env).Done?
    ensures ContainsHolds(depth, v.items, s, path, here, env).Done?
    ensures BreaksItems(AcceptedAt(depth, env), v, s, here, rule) <==>
            || (rule == TooFewItems && s.minItems.Some? && |v.items| < s.minItems.value)
            || (rule == NotUnique && s.uniqueItems && HasRepeat(v.items))
            || (rule == NothingContained && !ContainsHolds(depth, v.items, s, path, here, env).value)
  {
    var m := AcceptedAt(depth, env);
    UniqueMeaning(v.items);
    AcceptedAgrees(depth, env);
    ContainsAgrees(m, depth, v.items, s, path, here, env);
    if s.contains.Some? { ContainedMeaning(m, v.items, s.contains.value, here); }
    hide Validate, HasRepeat, SamePrint, Collect, ItemTasks, PrefixTasks, AcceptedAt, Agrees, ContainsHolds,
         ItemsIssues;
  }

  lemma InFive<T>(a: seq<T>, b: seq<T>, c: seq<T>, d: seq<T>, e: seq<T>, x: T)
    ensures x in a + b + c + d + e <==> x in a || x in b || x in c || x in d || x in e
  {
  }

  lemma ArrayReports(depth: nat, v: Value, s: Schema, path: string, here: Scope, env: Env, issue: Issue)
    requires v.Array? && ArrayIssues(depth, v, s, path, here, env).Done?
    ensures issue in ArrayIssues(depth, v, s, path, here, env).value <==>
            || (issue.path == path && BreaksItems(AcceptedAt(depth, env), v, s, here, issue.rule))
            || ItemsReport(depth, v, s, path, here, env, issue)
  {
    AllItemsReport(depth, v, s, path, here, env, issue);
    ItemRules(depth, v, s, path, here, env, issue.rule);
    hide Validate, HasRepeat, Collect, PrefixTasks, ItemsReport, BreaksItems, ContainsHolds, ItemsIssues;
    var few := When(s.minItems.Some? && |v.items| < s.minItems.value, path, TooFewItems);
    var repeated := When(s.uniqueItems && HasRepeat(v.items), path, NotUnique);
    var lacking := When(!ContainsHolds(depth, v.items, s, path, here, env).value, path, NothingContained);
    WhenReports(s.minItems.Some? && |v.items| < s.minItems.value, path, TooFewItems, issue);
    WhenReports(s.uniqueItems && HasRepeat(v.items), path, NotUnique, issue);
    WhenReports(!ContainsHolds(depth, v.items, s, path, here, env).value, path, NothingContained, issue);
    InFive(few, repeated, ItemsIssues(depth, v.items, s, path, here, env).value,
           Collect(depth, PrefixTasks(v.items, s.prefixItems, path), here, env).value, lacking, issue);
    hide When;
  }

  ghost predicate MissesKey(v: Value, keys: seq<string>, path: string, issue: Issue) {
    exists key :: key in keys && !IsPresent(v, key) && issue.path == KeyPath(path, key)
  }

  lemma {:induction false} MissingReports(keys: seq<string>, entries: seq<Field>, v: Value, path: string, rule: Rule,
                                          issue: Issue)
    requires ListsProperties(entries, v)
    ensures issue in MissingIssues(keys, entries, path, rule) <==> issue.rule == rule && MissesKey(v, keys, path, issue)
    decreases |keys|
  {
    if keys != [] {
      MissingReports(keys[1..], entries, v, path, rule, issue);
      KeyMeaning(entries, v, keys[0]);
      WhenReports(!HasKey(entries, keys[0]), ChildPath(path, keys[0]), rule, issue);
      hide HasKey, IsPresent, ListsProperties, When;
      assert keys == [keys[0]] + keys[1..];
    }
  }

  ghost predicate MissesNeeded(v: Value, d: Dependency, path: string, issue: Issue) {
    issue.rule == RequiredBecause(d.name) && IsPresent(v, d.name) && MissesKey(v, d.needs, path, issue)
  }

  lemma {:induction false} DependencyReports(list: seq<Dependency>, entries: seq<Field>, v: Value, path: string,
                                             issue: Issue)
    requires ListsProperties(entries, v)
    ensures issue in DependencyIssues(list, entries, path) <==> exists d :: d in list && MissesNeeded(v, d, path, issue)
    decreases |list|
  {
    if list != [] {
      var d, rest := list[0], DependencyIssues(list[1..], entries, path);
      DependencyReports(list[1..], entries, v, path, issue);
      KeyMeaning(entries, v, d.name);
      MissingReports(d.needs, entries, v, path, RequiredBecause(d.name), issue);
      var first := if HasKey(entries, d.name) then MissingIssues(d.needs, entries, path, RequiredBecause(d.name))
                   else [];
      assert DependencyIssues(list, entries, path) == first + rest;
      assert issue in first <==> MissesNeeded(v, d, path, issue);
      hide *;
      assert issue in first + rest <==> issue in first || issue in rest;
      assert forall x :: x in list <==> x == d || x in list[1..];
    }
  }

  lemma {:induction false} UnexpectedReports(entries: seq<Field>, properties: seq<Property>, path: string, issue: Issue)
    ensures issue in UnexpectedIssues(entries, properties, path) <==>
            issue.rule == UnexpectedProperty && exists i ::
              0 <= i < |entries| && !Names(properties, entries[i].key) && issue.path == KeyPath(path, entries[i].key)
    decreases |entries|
  {
    if entries != [] {
      var rest := entries[1..];
      UnexpectedReports(rest, properties, path, issue);
      DefinesMeaning(properties, entries[0].key, EMPTY_SCHEMA);
      WhenReports(FindProperty(properties, entries[0].key).None?, ChildPath(path, entries[0].key), UnexpectedProperty,
                  issue);
      hide Names, FindProperty, When;
      assert forall i :: 0 < i < |entries| ==> entries[i] == rest[i - 1];
      assert forall i :: 0 <= i < |rest| ==> rest[i] == entries[i + 1];
    }
  }

  lemma RequiredRule(entries: seq<Field>, v: Value, s: Schema, path: string, issue: Issue)
    requires ListsProperties(entries, v)
    ensures (exists key :: LacksRequired(v, s, issue.rule, key) && issue.path == KeyPath(path, key)) <==>
            issue in MissingIssues(s.required, entries, path, MissingProperty)
  {
    MissingReports(s.required, entries, v, path, MissingProperty, issue);
    hide ListsProperties, IsPresent, MissingIssues, KeyPath;
    if issue.rule == MissingProperty && MissesKey(v, s.required, path, issue) {
      var key :| key in s.required && !IsPresent(v, key) && issue.path == KeyPath(path, key);
      assert LacksRequired(v, s, issue.rule, key);
    }
  }

  lemma NeededRule(entries: seq<Field>, v: Value, s: Schema, path: string, issue: Issue)
    requires ListsProperties(entries, v)
    ensures (exists key :: LacksNeeded(v, s, issue.rule, key) && issue.path == KeyPath(path, key)) <==>
            issue in DependencyIssues(s.dependentRequired, entries, path)
  {
    DependencyReports(s.dependentRequired, entries, v, path, issue);
    hide ListsProperties, IsPresent, DependencyIssues, KeyPath;
    if key :| LacksNeeded(v, s, issue.rule, key) && issue.path == KeyPath(path, key) {
      var d :| d in s.dependentRequired && d.name == issue.rule.key && key in d.needs;
      assert MissesNeeded(v, d, path, issue);
    }
    if d :| d in s.dependentRequired && MissesNeeded(v, d, path, issue) {
      var key :| key in d.needs && !IsPresent(v, key) && issue.path == KeyPath(path, key);
      assert LacksNeeded(v, s, issue.rule, key);
    }
  }

  lemma UnexpectedRule(entries: seq<Field>, v: Value, s: Schema, path: string, issue: Issue)
    requires ListsProperties(entries, v)
    ensures (exists key :: IsUnexpected(v, s, issue.rule, key) && issue.path == KeyPath(path, key)) <==>
            s.extra == ExtraForbidden && issue in UnexpectedIssues(entries, s.properties, path)
  {
    UnexpectedReports(entries, s.properties, path, issue);
    assert forall i :: 0 <= i < |entries| ==> IsPresent(v, entries[i].key);
    assert forall key :: IsPresent(v, key) ==> exists i :: 0 <= i < |entries| && entries[i].key == key;
    hide ListsProperties, IsPresent, Names, UnexpectedIssues, KeyPath;
    if key :| IsUnexpected(v, s, issue.rule, key) && issue.path == KeyPath(path, key) {
      var i :| 0 <= i < |entries| && entries[i].key == key;
    }
    if s.extra == ExtraForbidden && issue.rule == UnexpectedProperty {
      if i :|
        0 <= i < |entries| && !Names(s.properties, entries[i].key) && issue.path == KeyPath(path, entries[i].key)
      {
        assert IsUnexpected(v, s, issue.rule, entries[i].key);
      }
    }
  }

  /** The rules that are broken at a property. */
  lemma KeyRules(entries: seq<Field>, v: Value, s: Schema, path: string, issue: Issue)
    requires v.IsRecord() && ListsProperties(entries, v)
    ensures (exists key :: BreaksAtKey(v, s, issue.rule, key) && issue.path == KeyPath(path, key)) <==>
            || issue in MissingIssues(s.required, entries, path, MissingProperty)
            || issue in DependencyIssues(s.dependentRequired, entries, path)
            || (s.extra == ExtraForbidden && issue in UnexpectedIssues(entries, s.properties, path))
  {
    RequiredRule(entries, v, s, path, issue);
    NeededRule(entries, v, s, path, issue);
    UnexpectedRule(entries, v, s, path, issue);
    hide ListsProperties, LacksRequired, LacksNeeded, IsUnexpected, MissingIssues, DependencyIssues, UnexpectedIssues,
         KeyPath;
    if key :| LacksRequired(v, s, issue.rule, key) && issue.path == KeyPath(path, key) {
      assert BreaksAtKey(v, s, issue.rule, key);
    }
    if key :| LacksNeeded(v, s, issue.rule, key) && issue.path == KeyPath(path, key) {
      assert BreaksAtKey(v, s, issue.rule, key);
    }
    if key :| IsUnexpected(v, s, issue.rule, key) && issue.path == KeyPath(path, key) {
      assert BreaksAtKey(v, s, issue.rule, key);
    }
  }

  lemma OneProperty(depth: nat, entries: seq<Field>, v: Value, p: Property, path: string, here: Scope, env: Env,
                    issue: Issue)
    requires ListsProperties(entries, v)
    ensures PropertyReports(depth, v, p, path, here, env, issue) <==>
            HasKey(entries, p.name)
            && TaskReports(depth, Task(Lookup(entries, p.name).value, p.schema, ChildPath(path, p.name)), here, env,
                           issue)
  {
    KeyMeaning(entries, v, p.name);
    hide Validate, HasField, ListsProperties, Lookup;
  }

  lemma {:induction false} PropertyTasksReport(depth: nat, entries: seq<Field>, v: Value, properties: seq<Property>,
                                               path: string, here: Scope, env: Env, issue: Issue)
    requires ListsProperties(entries, v)
    ensures (exists t :: t in PropertyTasks(entries, properties, path) && TaskReports(depth, t, here, env, issue)) <==>
            exists p :: p in properties && PropertyReports(depth, v, p, path, here, env, issue)
    decreases |properties|
  {
    if properties != [] {
      var p, rest := properties[0], PropertyTasks(entries, properties[1..], path);
      PropertyTasksReport(depth, entries, v, properties[1..], path, here, env, issue);
      OneProperty(depth, entries, v, p, path, here, env, issue);
      var first := if HasKey(entries, p.name)
        then [Task(Lookup(entries, p.name).value, p.schema, ChildPath(path, p.name))] else [];
      assert PropertyTasks(entries, properties, path) == first + rest;
      assert (exists t :: t in first && TaskReports(depth, t, here, env, issue)) <==>
             PropertyReports(depth, v, p, path, here, env, issue) by {
        hide TaskReports, PropertyReports, Lookup;
        if HasKey(entries, p.name) { assert first[0] in first; }
      }
      hide *;
      assert forall t :: t in first + rest <==> t in first || t in rest;
      assert forall x :: x in properties <==> x == p || x in properties[1..];
    }
  }

  lemma NameTasksReport(depth: nat, entries: seq<Field>, v: Value, s: Schema, path: string, here: Scope, env: Env,
                        issue: Issue)
    requires ListsProperties(entries, v)
    ensures (exists t :: t in NameTasks(entries, s, path) && TaskReports(depth, t, here, env, issue)) <==>
            exists key :: IsPresent(v, key) && In(issue, Validate(depth, Text(key), s, KeyPath(path, key), here, env))
  {
    var tasks := NameTasks(entries, s, path);
    assert forall i :: 0 <= i < |entries| ==> IsPresent(v, entries[i].key);
    assert forall key :: IsPresent(v, key) ==> exists i :: 0 <= i < |entries| && entries[i].key == key;
    hide Validate, ListsProperties, IsPresent;
    if t :| t in tasks && TaskReports(depth, t, here, env, issue) {
      var i :| 0 <= i < |tasks| && tasks[i] == t;
      assert In(issue, Validate(depth, Text(entries[i].key), s, KeyPath(path, entries[i].key), here, env));
    }
    if key :| IsPresent(v, key) && In(issue, Validate(depth, Text(key), s, KeyPath(path, key), here, env)) {
      var i :| 0 <= i < |entries| && entries[i].key == key;
      assert tasks[i] in tasks && TaskReports(depth, tasks[i], here, env, issue);
    }
  }

  lemma {:induction false} ExtraTasksReport(depth: nat, entries: seq<Field>, all: seq<Field>, v: Value,
                                            properties: seq<Property>, extra: Schema, path: string, here: Scope,
                                            env: Env, issue: Issue)
    requires ListsProperties(all, v)
    ensures (exists t ::
               t in ExtraTasks(entries, all, properties, extra, path) && TaskReports(depth, t, here, env, issue))
            <==> exists e :: e in entries && ExtraReports(depth, v, properties, extra, path, here, env, issue, e.key)
    decreases |entries|
  {
    if entries != [] {
      var e, rest := entries[0], ExtraTasks(entries[1..], all, properties, extra, path);
      ExtraTasksReport(depth, entries[1..], all, v, properties, extra, path, here, env, issue);
      OneProperty(depth, all, v, Property(e.key, extra), path, here, env, issue);
      DefinesMeaning(properties, e.key, extra);
      var first := if FindProperty(properties, e.key).None? && HasKey(all, e.key)
        then [Task(Lookup(all, e.key).value, extra, ChildPath(path, e.key))] else [];
      assert ExtraTasks(entries, all, properties, extra, path) == first + rest;
      assert (exists t :: t in first && TaskReports(depth, t, here, env, issue)) <==>
             ExtraReports(depth, v, properties, extra, path, here, env, issue, e.key) by {
        hide TaskReports, PropertyReports, Lookup, FindProperty, Names;
        if first != [] { assert first[0] in first; }
      }
      hide *;
      assert forall t :: t in first + rest <==> t in first || t in rest;
      assert forall x :: x in entries <==> x == e || x in entries[1..];
    }
  }

  lemma NamesReport(depth: nat, v: Value, entries: seq<Field>, s: Schema, path: string, here: Scope, env: Env,
                    issue: Issue)
    requires ListsProperties(entries, v) && NamesIssues(depth, entries, s, path, here, env).Done?
    ensures issue in NamesIssues(depth, entries, s, path, here, env).value <==>
            s.propertyNames.Some? && exists key ::
              IsPresent(v, key)
              && In(issue, Validate(depth, Text(key), s.propertyNames.value, KeyPath(path, key), here, env))
  {
    if s.propertyNames.Some? {
      CollectReports(depth, NameTasks(entries, s.propertyNames.value, path), here, env, issue);
      NameTasksReport(depth, entries, v, s.propertyNames.value, path, here, env, issue);
      hide ListsProperties, NameTasks, In, Validate, Collect, TaskReports;
    }
  }

  lemma ExtrasReport(depth: nat, v: Value, entries: seq<Field>, s: Schema, path: string, here: Scope, env: Env,
                     issue: Issue)
    requires ListsProperties(entries, v) && ExtraIssues(depth, entries, s, path, here, env).Done? && s.extra.ExtraMust?
    ensures issue in ExtraIssues(depth, entries, s, path, here, env).value <==>
            exists key :: ExtraReports(depth, v, s.properties, s.extra.schema, path, here, env, issue, key)
  {
    CollectReports(depth, ExtraTasks(entries, entries, s.properties, s.extra.schema, path), here, env, issue);
    ExtraTasksReport(depth, entries, entries, v, s.properties, s.extra.schema, path, here, env, issue);
    ExtraKeys(depth, entries, v, s.properties, s.extra.schema, path, here, env, issue);
    hide ListsProperties, ExtraTasks, In, Validate, Collect, TaskReports, ExtraReports;
  }

  lemma AllFieldsReport(depth: nat, v: Value, s: Schema, path: string, here: Scope, env: Env, issue: Issue)
    requires v.IsRecord() && RecordIssues(depth, v, s, path, here, env).Done?
    ensures Collect(depth, PropertyTasks(Entries(v), s.properties, path), here, env).Done?
            && NamesIssues(depth, Entries(v), s, path, here, env).Done?
            && ExtraIssues(depth, Entries(v), s, path, here, env).Done?
    ensures FieldsReport(depth, v, s, path, here, env, issue) <==>
            || issue in Collect(depth, PropertyTasks(Entries(v), s.properties, path), here, env).value
            || issue in NamesIssues(depth, Entries(v), s, path, here, env).value
            || (s.extra.ExtraMust? && issue in ExtraIssues(depth, Entries(v), s, path, here, env).value)
  {
    var entries := Entries(v);
    EntriesList(v);
    RecordParts(depth, v, s, path, here, env);
    hide Validate, RecordIssues, Collect, PropertyTasks, NamesIssues, ExtraIssues, Entries, ListsProperties,
         TaskReports, PropertyReports, ExtraReports, In, IsPresent, KeyPath;
    CollectReports(depth, PropertyTasks(entries, s.properties, path), here, env, issue);
    PropertyTasksReport(depth, entries, v, s.properties, path, here, env, issue);
    NamesReport(depth, v, entries, s, path, here, env, issue);
    if s.extra.ExtraMust? { ExtrasReport(depth, v, entries, s, path, here, env, issue); }
  }

  lemma RecordParts(depth: nat, v: Value, s: Schema, path: string, here: Scope, env: Env)
    requires v.IsRecord() && RecordIssues(depth, v, s, path, here, env).Done?
    ensures Collect(depth, PropertyTasks(Entries(v), s.properties, path), here, env).Done?
            && NamesIssues(depth, Entries(v), s, path, here, env).Done?
            && ExtraIssues(depth, Entries(v), s, path, here, env).Done?
    ensures RecordIssues(depth, v, s, path, here, env).value
            == When(s.minProperties.Some? && |Entries(v)| < s.minProperties.value, path, TooFewProperties)
               + When(s.maxProperties.Some? && |Entries(v)| > s.maxProperties.value, path, TooManyProperties)
               + MissingIssues(s.required, Entries(v), path, MissingProperty)
               + Collect(depth, PropertyTasks(Entries(v), s.properties, path), here, env).value
               + NamesIssues(depth, Entries(v), s, path, here, env).value
               + DependencyIssues(s.dependentRequired, Entries(v), path)
               + ExtraIssues(depth, Entries(v), s, path, here, env).value
  {
    hide Collect, NamesIssues, ExtraIssues, Entries, MissingIssues, DependencyIssues, When, PropertyTasks;
  }

  lemma ExtraKeys(depth: nat, entries: seq<Field>, v: Value, properties: seq<Property>, extra: Schema, path: string,
                  here: Scope, env: Env, issue: Issue)
    requires ListsProperties(entries, v)
    ensures (exists e :: e in entries && ExtraReports(depth, v, properties, extra, path, here, env, issue, e.key)) <==>
            exists key :: ExtraReports(depth, v, properties, extra, path, here, env, issue, key)
  {
    assert forall key :: IsPresent(v, key) ==> exists i :: 0 <= i < |entries| && entries[i].key == key;
    hide ListsProperties, Names, In, Validate, HasField;
    if key :| ExtraReports(depth, v, properties, extra, path, here, env, issue, key) {
      var w :| HasField(v, key, w);
      assert IsPresent(v, key);
      var i :| 0 <= i < |entries| && entries[i].key == key;
      assert entries[i] in entries;
    }
  }

  lemma InSeven<T>(a: seq<T>, b: seq<T>, c: seq<T>, d: seq<T>, e: seq<T>, f: seq<T>, g: seq<T>, x: T)
    ensures x in a + b + c + d + e + f + g <==> x in a || x in b || x in c || x in d || x in e || x in f || x in g
  {
  }

  lemma RecordReports(depth: nat, v: Value, s: Schema, path: string, here: Scope, env: Env, issue: Issue)
    requires v.IsRecord() && RecordIssues(depth, v, s, path, here, env).Done?
    ensures issue in RecordIssues(depth, v, s, path, here, env).value <==>
            || (issue.path == path && BreaksCount(v, s, issue.rule))
            || (exists key :: BreaksAtKey(v, s, issue.rule, key) && issue.path == KeyPath(path, key))
            || FieldsReport(depth, v, s, path, here, env, issue)
  {
    var entries := Entries(v);
    EntriesList(v);
    assert |entries| == |DefinedPlaces(v)|;
    KeyRules(entries, v, s, path, issue);
    AllFieldsReport(depth, v, s, path, here, env, issue);
    RecordParts(depth, v, s, path, here, env);
    ExtraIsForbidden(depth, entries, s, path, here, env);
    WhenReports(s.minProperties.Some? && |entries| < s.minProperties.value, path, TooFewProperties, issue);
    WhenReports(s.maxProperties.Some? && |entries| > s.maxProperties.value, path, TooManyProperties, issue);
    InSeven(When(s.minProperties.Some? && |entries| < s.minProperties.value, path, TooFewProperties),
            When(s.maxProperties.Some? && |entries| > s.maxProperties.value, path, TooManyProperties),
            MissingIssues(s.required, entries, path, MissingProperty),
            Collect(depth, PropertyTasks(entries, s.properties, path), here, env).value,
            NamesIssues(depth, entries, s, path, here, env).value,
            DependencyIssues(s.dependentRequired, entries, path),
            ExtraIssues(depth, entries, s, path, here, env).value, issue);
    hide Validate, RecordIssues, Collect, PropertyTasks, NamesIssues, ExtraIssues, Entries, ListsProperties,
         MissingIssues, DependencyIssues, UnexpectedIssues, FieldsReport, BreaksAtKey, When, DefinedPlaces, KeyPath;
  }

  lemma ExtraIsForbidden(depth: nat, entries: seq<Field>, s: Schema, path: string, here: Scope, env: Env)
    ensures s.extra == ExtraForbidden ==>
              ExtraIssues(depth, entries, s, path, here, env) == Done(UnexpectedIssues(entries, s.properties, path))
    ensures s.extra == ExtraAllowed ==> ExtraIssues(depth, entries, s, path, here, env) == Done([])
  {
  }

  lemma ConditionReports(depth: nat, v: Value, s: Schema, path: string, here: Scope, env: Env, issue: Issue)
    requires ConditionIssues(depth, v, s, path, here, env).Done?
    ensures issue in ConditionIssues(depth, v, s, path, here, env).value <==>
            BranchReports(depth, v, s, path, here, env, issue)
  {
    var m := AcceptedAt(depth, env);
    AcceptedAgrees(depth, env);
    if s.ifSchema.Some? {
      SomeAgrees(m, depth, [Task(v, s.ifSchema.value, path)], here, env);
      SingleVerdict(m, v, s.ifSchema.value, path, here);
      var branch := if m(v, s.ifSchema.value, here) then s.thenSchema else s.elseSchema;
      hide Agrees, AcceptedAt;
      if branch.Some? {
        CollectReports(depth, [Task(v, branch.value, path)], here, env, issue);
        hide Validate, Collect, SomeMatches;
      }
    }
  }

  lemma ChoiceReports(depth: nat, v: Value, s: Schema, path: string, here: Scope, env: Env, issue: Issue)
    requires ChoiceIssues(depth, v, s, path, here, env).Done?
    ensures issue in ChoiceIssues(depth, v, s, path, here, env).value <==>
            issue.path == path && BreaksChoice(AcceptedAt(depth, env), v, s, here, issue.rule)
  {
    var m := AcceptedAt(depth, env);
    AcceptedAgrees(depth, env);
    OneOfAgrees(m, depth, v, s, path, here, env);
    AnyOfAgrees(m, depth, v, s, path, here, env);
    NotAgrees(m, depth, v, s, path, here, env);
    if s.anyOf.Branches? { AnyMeaning(m, v, s.anyOf.list, here); }
    hide Agrees, AcceptedAt, OneOfHolds, AnyOfHolds, NotFails, ExactlyOneHolds, Validate;
    WhenReports(!OneOfHolds(depth, v, s, path, here, env).value, path, ExactlyOne, issue);
    WhenReports(!AnyOfHolds(depth, v, s, path, here, env).value, path, AtLeastOne, issue);
    WhenReports(NotFails(depth, v, s, path, here, env).value, path, ForbiddenMatch, issue);
    hide When;
  }

  lemma AnyMeaning(m: Meaning, v: Value, branches: seq<Schema>, here: Scope)
    ensures (exists i :: 0 <= i < |branches| && m(v, branches[i], here)) <==> exists b :: b in branches && m(v, b, here)
  {
    if i :| 0 <= i < |branches| && m(v, branches[i], here) { assert branches[i] in branches; }
  }

  lemma BranchesReport(depth: nat, v: Value, branches: seq<Schema>, path: string, here: Scope, env: Env, issue: Issue)
    ensures (exists t :: t in BranchTasks(v, branches, path) && TaskReports(depth, t, here, env, issue)) <==>
            exists b :: b in branches && In(issue, Validate(depth, v, b, path, here, env))
  {
    hide Validate;
    var tasks := BranchTasks(v, branches, path);
    if t :| t in tasks && TaskReports(depth, t, here, env, issue) {
      var i :| 0 <= i < |tasks| && tasks[i] == t;
      assert branches[i] in branches;
    }
    if b :| b in branches && In(issue, Validate(depth, v, b, path, here, env)) {
      var i :| 0 <= i < |branches| && branches[i] == b;
      assert tasks[i] in tasks && TaskReports(depth, tasks[i], here, env, issue);
    }
  }

  lemma CombinatorsReport(depth: nat, v: Value, s: Schema, path: string, here: Scope, env: Env, issue: Issue)
    requires CombinatorIssues(depth, v, s, path, here, env).Done?
    ensures issue in CombinatorIssues(depth, v, s, path, here, env).value <==>
            || (exists b :: b in s.allOf && In(issue, Validate(depth, v, b, path, here, env)))
            || (issue.path == path && BreaksChoice(AcceptedAt(depth, env), v, s, here, issue.rule))
  {
    CollectReports(depth, BranchTasks(v, s.allOf, path), here, env, issue);
    BranchesReport(depth, v, s.allOf, path, here, env, issue);
    ChoiceReports(depth, v, s, path, here, env, issue);
    hide Validate, Collect, BranchTasks, ChoiceIssues, BreaksChoice, In, TaskReports, AcceptedAt;
  }

  lemma KeywordsAgree(depth: nat, v: Value, s: Schema, path: string, here: Scope, env: Env, issue: Issue)
    requires KeywordIssues(depth, v, s, path, here, env).Done?
    ensures issue in KeywordIssues(depth, v, s, path, here, env).value <==>
            KeywordsReport(depth, v, s, path, here, env, issue)
  {
    CombinatorsReport(depth, v, s, path, here, env, issue);
    TypeMeaning(v, s.types);
    if TypeAllows(v, s.types) {
      hide TypeAllows, SaysType, CombinatorIssues, ArrayIssues, RecordIssues, ConditionIssues, LeafIssues, ItemsReport,
           FieldsReport, BranchReports, BreaksChoice, BreaksAtKey, BreaksValue, BreaksSize, BreaksItems, BreaksCount,
           In, AcceptedAt, Validate, KeyPath;
      LeafReports(v, s, path, env, issue);
      ArrayPart(depth, v, s, path, here, env, issue);
      RecordPart(depth, v, s, path, here, env, issue);
      ConditionReports(depth, v, s, path, here, env, issue);
      InFive(CombinatorIssues(depth, v, s, path, here, env).value, LeafIssues(v, s, path, env),
             ArrayIssues(depth, v, s, path, here, env).value, RecordIssues(depth, v, s, path, here, env).value,
             ConditionIssues(depth, v, s, path, here, env).value, issue);
    } else {
      hide CombinatorIssues, ArrayIssues, RecordIssues, ConditionIssues, LeafIssues, BreaksChoice, AcceptedAt,
           Validate, In;
    }
  }

  lemma ArrayPart(depth: nat, v: Value, s: Schema, path: string, here: Scope, env: Env, issue: Issue)
    requires ArrayIssues(depth, v, s, path, here, env).Done?
    ensures issue in ArrayIssues(depth, v, s, path, here, env).value <==>
            || (issue.path == path && BreaksItems(AcceptedAt(depth, env), v, s, here, issue.rule))
            || ItemsReport(depth, v, s, path, here, env, issue)
  {
    if v.Array? { ArrayReports(depth, v, s, path, here, env, issue); }
  }

  lemma RecordPart(depth: nat, v: Value, s: Schema, path: string, here: Scope, env: Env, issue: Issue)
    requires RecordIssues(depth, v, s, path, here, env).Done?
    ensures issue in RecordIssues(depth, v, s, path, here, env).value <==>
            || (issue.path == path && BreaksCount(v, s, issue.rule))
            || (exists key :: BreaksAtKey(v, s, issue.rule, key) && issue.path == KeyPath(path, key))
            || FieldsReport(depth, v, s, path, here, env, issue)
  {
    if v.IsRecord() { RecordReports(depth, v, s, path, here, env, issue); }
  }

  // ---------------------------------------------------------------- the theorem

  /**
   Which issues a call reports, when it returns: that a reference means nothing, and then nothing else; or what the
   referenced schema reports and what the keywords report, each at the path of the value, the item or the property.
   */
  lemma IssuesExactly(depth: nat, v: Value, s: Schema, path: string, scope: Scope, env: Env, issue: Issue)
    requires Validate(depth + 1, v, s, path, scope, env).Done?
    ensures var here := if scope.Dynamic? then Dynamic([s] + scope.path) else scope;
            issue in Validate(depth + 1, v, s, path, scope, env).value <==>
            if s.ref != "" && forall target :: !RefersTo(env, here, s.ref, target) then
              issue == Issue(path, UnresolvedRef(s.ref))
            else
              || (s.ref != "" && exists target ::
                    RefersTo(env, here, s.ref, target)
                    && In(issue, Validate(depth, v, target.schema, path, target.scope, env)))
              || KeywordsReport(depth, v, s, path, here, env, issue)
  {
    var here := Enter(scope, s);
    forall target ensures Resolve(env, here, s.ref) == Some(target) <==> RefersTo(env, here, s.ref, target) {
      RefMeaning(env, here, s.ref, target);
    }
    hide Resolve, RefersTo, KeywordIssues, KeywordsReport;
    var target := Resolve(env, here, s.ref);
    if s.ref == "" || target.Some? { KeywordsAgree(depth, v, s, path, here, env, issue); }
  }

  lemma OnlyTypes(depth: nat, v: Value, s: Schema, path: string, here: Scope, env: Env)
    requires s == EMPTY_SCHEMA.(types := s.types)
    ensures CombinatorIssues(depth, v, s, path, here, env) == Done([]) && LeafIssues(v, s, path, env) == []
    ensures ArrayIssues(depth, v, s, path, here, env) == Done([])
            && RecordIssues(depth, v, s, path, here, env) == Done([])
    ensures ConditionIssues(depth, v, s, path, here, env) == Done([])
  {
    assert BranchTasks(v, s.allOf, path) == [] && Collect(depth, [], here, env) == Done([]);
    assert OneOfHolds(depth, v, s, path, here, env) == Done(true)
           && AnyOfHolds(depth, v, s, path, here, env) == Done(true);
    assert NotFails(depth, v, s, path, here, env) == Done(false);
    assert When(false, path, ExactlyOne) + When(false, path, AtLeastOne) + When(false, path, ForbiddenMatch) == [];
    assert ChoiceIssues(depth, v, s, path, here, env).value == [];
    if v.Array? { assert PrefixTasks(v.items, s.prefixItems, path) == []; }
    assert PropertyTasks(Entries(v), s.properties, path) == [];
  }

  /** The type keyword on its own: nothing is reported exactly when the value has the shape of a type that it names. */
  lemma TypeDecides(depth: nat, v: Value, rule: TypeRule, path: string, scope: Scope, env: Env)
    ensures Validate(depth + 1, v, EMPTY_SCHEMA.(types := rule), path, scope, env)
            == Done(if SaysType(v, rule) then [] else [Issue(path, WrongType)])
  {
    var s := EMPTY_SCHEMA.(types := rule);
    TypeMeaning(v, rule);
    OnlyTypes(depth, v, s, path, Enter(scope, s), env);
    assert s.ref == "";
    hide TypeAllows, SaysType, CombinatorIssues, LeafIssues, ArrayIssues, RecordIssues, ConditionIssues, Resolve;
    assert [] + [Issue(path, WrongType)] == [Issue(path, WrongType)];
    var empty: seq<Issue> := [];
    assert empty + [] + [] + [] + [] == [];
    assert KeywordIssues(depth, v, s, path, Enter(scope, s), env)
        == Done(if SaysType(v, rule) then [] else [Issue(path, WrongType)]);
  }
}
