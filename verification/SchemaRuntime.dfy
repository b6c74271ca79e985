/**
 The JSON Schema interpreter of packages/core/src/schema-runtime.ts.

 `Validate` is the specification function and `ValidateNode` the program. Both take the number of
 nested calls that the JavaScript call stack still allows: running out is the RangeError that a
 `$ref` cycle causes, so the model is total on every schema, value and registry.
 */
module SchemaRuntime {
  import opened Prelude
  import opened JsonValues

  datatype TypeRule = AnyType | OneType(name: string) | TypeList(names: seq<string>)
  datatype Extra = ExtraAllowed | ExtraForbidden | ExtraMust(schema: Schema)
  datatype Branches = NoBranches | Branches(list: seq<Schema>)
  datatype Property = Property(name: string, schema: Schema)
  datatype Dependency = Dependency(name: string, needs: seq<string>)

  /** A schema document or subschema. An empty `ref`, `pattern` or list is an absent keyword. */
  datatype Schema = Schema(
    ref: string,
    defs: seq<Property>,
    allOf: seq<Schema>,
    anyOf: Branches,
    oneOf: Branches,
    negated: Option<Schema>,
    ifSchema: Option<Schema>,
    thenSchema: Option<Schema>,
    elseSchema: Option<Schema>,
    types: TypeRule,
    constant: Option<Value>,
    oneOfValues: Option<seq<Value>>,
    pattern: string,
    isDateTime: bool,
    minLength: Option<int>,
    maxLength: Option<int>,
    minimum: Option<real>,
    maximum: Option<real>,
    minProperties: Option<int>,
    maxProperties: Option<int>,
    properties: seq<Property>,
    propertyNames: Option<Schema>,
    required: seq<string>,
    dependentRequired: seq<Dependency>,
    items: Option<Schema>,
    prefixItems: seq<Schema>,
    minItems: Option<int>,
    uniqueItems: bool,
    extra: Extra,
    contains: Option<Schema>)

  /** The schema that constrains nothing, `{}`. */
  const EMPTY_SCHEMA := Schema("", [], [], NoBranches, NoBranches, None, None, None, None, AnyType, None, None, "",
                               false,
                               None, None, None, None, None, None, [], None, [], [], None, [], None, false,
                               ExtraAllowed, None)

  datatype Rule =
    | UnresolvedRef(ref: string) | ExactlyOne | AtLeastOne | ForbiddenMatch | WrongType
    | WrongConstant | NotListed | PatternMismatch | NotDateTime | TooShort | TooLong | TooSmall | TooLarge
    | TooFewItems | NotUnique | NothingContained | TooFewProperties | TooManyProperties
    | MissingProperty | UnexpectedProperty | RequiredBecause(key: string)

  datatype Issue = Issue(path: string, rule: Rule)

  /** The registry, and the two library calls the model leaves uninterpreted. */
  datatype Env = Env(
    registry: map<string, Schema>,
    matchesPattern: (string, string) -> bool,
    parsesAsDate: string -> bool)

  /** The result of a call: its value, or the RangeError of an exhausted call stack. */
  datatype Outcome<+T> = StackOverflow | Done(value: T) {
    predicate IsFailure() { StackOverflow? }
    function PropagateFailure<U>(): Outcome<U>
      requires StackOverflow?
    {
      StackOverflow
    }
    function Extract(): T
      requires Done?
    {
      value
    }
  }

  // ---------------------------------------------------------------- reference resolution

  /**
   Where `#/$defs/` references are looked up. The code searches the path of enclosing schemas, innermost
   first. `Lexical` names the document that contains the reference; no code uses it: it is the meaning the
   code is compared with in SchemaScope.
   */
  datatype Scope = Dynamic(path: seq<Schema>) | Lexical(document: Schema)
  datatype Target = Target(schema: Schema, scope: Scope)

  const LOCAL_PREFIX := "#/$defs/"

  predicate IsLocalRef(ref: string) { LOCAL_PREFIX <= ref }

  function LocalKey(ref: string): string
    requires IsLocalRef(ref)
  {
    ref[|LOCAL_PREFIX|..]
  }

  function FindProperty(properties: seq<Property>, name: string): Option<Schema> {
    if properties == [] then None
    else if properties[0].name == name then Some(properties[0].schema)
    else FindProperty(properties[1..], name)
  }

  function FindOnPath(path: seq<Schema>, key: string): Option<Schema> {
    if path == [] then None
    else
      var found := FindProperty(path[0].defs, key);
      if found.Some? then found else FindOnPath(path[1..], key)
  }

  function Enter(scope: Scope, schema: Schema): Scope {
    if scope.Dynamic? then Dynamic([schema] + scope.path) else scope
  }

  function Resolve(env: Env, scope: Scope, ref: string): Option<Target> {
    if IsLocalRef(ref) then
      var found := if scope.Dynamic? then FindOnPath(scope.path, LocalKey(ref))
                   else FindProperty(scope.document.defs, LocalKey(ref));
      if found.Some? then Some(Target(found.value, scope)) else None
    else if ref in env.registry then
      var document := env.registry[ref];
      Some(Target(document, if scope.Dynamic? then scope else Lexical(document)))
    else None
  }

  // ---------------------------------------------------------------- checks without recursion

  predicate IsTypeMatch(value: Value, expected: string) {
    match expected
    case "array" => value.Array?
    case "boolean" => value.Boolean?
    case "integer" => value.Number? && value.n.Floor as real == value.n
    case "null" => value.Null?
    case "number" => value.Number?
    case "object" => value.Object?
    case "string" => value.Text?
    case _ => true
  }

  predicate TypeAllows(value: Value, rule: TypeRule) {
    match rule
    case AnyType => true
    case OneType(name) => name == "" || IsTypeMatch(value, name)
    case TypeList(names) => exists i :: 0 <= i < |names| && IsTypeMatch(value, names[i])
  }

  /** Strict equality with a schema constant, which is a primitive. */
  predicate SameAs(value: Value, constant: Value) { value == constant && constant.IsPrimitive() }

  predicate Listed(value: Value, constants: seq<Value>) {
    exists i :: 0 <= i < |constants| && SameAs(value, constants[i])
  }

  function When(broken: bool, path: string, rule: Rule): seq<Issue> {
    if broken then [Issue(path, rule)] else []
  }

  function LeafIssues(value: Value, schema: Schema, path: string, env: Env): seq<Issue> {
    When(schema.constant.Some? && !SameAs(value, schema.constant.value), path, WrongConstant)
    + When(schema.oneOfValues.Some? && !Listed(value, schema.oneOfValues.value), path, NotListed)
    + When(schema.pattern != "" && value.Text? && !env.matchesPattern(schema.pattern, value.s), path, PatternMismatch)
    + When(schema.isDateTime && value.Text? && !env.parsesAsDate(value.s), path, NotDateTime)
    + When(value.Text? && schema.minLength.Some? && |value.s| < schema.minLength.value, path, TooShort)
    + When(value.Text? && schema.maxLength.Some? && |value.s| > schema.maxLength.value, path, TooLong)
    + When(value.Number? && schema.minimum.Some? && value.n < schema.minimum.value, path, TooSmall)
    + When(value.Number? && schema.maximum.Some? && value.n > schema.maximum.value, path, TooLarge)
  }

  function ChildPath(path: string, key: string): string {
    if path == "$" then key else path + "." + key
  }

  function ItemPath(path: string, index: nat): string { path + "[" + Decimal(index) + "]" }

  /** Some item prints like an earlier one. */
  predicate HasRepeat(items: seq<Value>) {
    exists i, j :: 0 <= i < j < |items| && Marker(items, i) == Marker(items, j)
  }

  function Marker(items: seq<Value>, i: nat): Value
    requires i < |items|
  {
    Printed(items[i])
  }

  function MissingIssues(required: seq<string>, entries: seq<Field>, path: string, rule: Rule): seq<Issue> {
    if required == [] then []
    else When(!HasKey(entries, required[0]), ChildPath(path, required[0]), rule)
         + MissingIssues(required[1..], entries, path, rule)
  }

  function DependencyIssues(dependencies: seq<Dependency>, entries: seq<Field>, path: string): seq<Issue> {
    if dependencies == [] then []
    else
      (if HasKey(entries, dependencies[0].name)
       then MissingIssues(dependencies[0].needs, entries, path, RequiredBecause(dependencies[0].name))
       else [])
      + DependencyIssues(dependencies[1..], entries, path)
  }

  function UnexpectedIssues(entries: seq<Field>, properties: seq<Property>, path: string): seq<Issue> {
    if entries == [] then []
    else When(FindProperty(properties, entries[0].key).None?, ChildPath(path, entries[0].key), UnexpectedProperty)
         + UnexpectedIssues(entries[1..], properties, path)
  }

  // ---------------------------------------------------------------- recursive checks

  /** One recursive call: a value, the schema it must meet, and where issues are reported. */
  datatype Task = Task(value: Value, schema: Schema, path: string)

  function BranchTasks(value: Value, branches: seq<Schema>, path: string): (tasks: seq<Task>)
    ensures |tasks| == |branches|
    ensures forall i :: 0 <= i < |branches| ==> tasks[i] == Task(value, branches[i], path)
  {
    seq(|branches|, i requires 0 <= i < |branches| => Task(value, branches[i], path))
  }

  function ItemTasks(items: seq<Value>, schema: Schema, path: string): (tasks: seq<Task>)
    ensures |tasks| == |items|
    ensures forall i :: 0 <= i < |items| ==> tasks[i] == Task(items[i], schema, ItemPath(path, i))
  {
    seq(|items|, i requires 0 <= i < |items| => Task(items[i], schema, ItemPath(path, i)))
  }

  function PrefixTasks(items: seq<Value>, prefix: seq<Schema>, path: string): (tasks: seq<Task>)
    ensures |tasks| == if |items| < |prefix| then |items| else |prefix|
    ensures forall i :: 0 <= i < |tasks| ==> tasks[i] == Task(items[i], prefix[i], ItemPath(path, i))
  {
    seq(if |items| < |prefix| then |items| else |prefix|,
        i requires 0 <= i < |items| && i < |prefix| => Task(items[i], prefix[i], ItemPath(path, i)))
  }

  function PropertyTasks(entries: seq<Field>, properties: seq<Property>, path: string): seq<Task> {
    if properties == [] then []
    else
      (if HasKey(entries, properties[0].name)
       then [Task(Lookup(entries, properties[0].name).value, properties[0].schema, ChildPath(path, properties[0].name))]
       else [])
      + PropertyTasks(entries, properties[1..], path)
  }

  function NameTasks(entries: seq<Field>, schema: Schema, path: string): (tasks: seq<Task>)
    ensures |tasks| == |entries|
    ensures forall i :: 0 <= i < |entries| ==>
              tasks[i] == Task(Text(entries[i].key), schema, ChildPath(path, entries[i].key))
  {
    seq(|entries|, i requires 0 <= i < |entries| => Task(Text(entries[i].key), schema, ChildPath(path, entries[i].key)))
  }

  /** The entries that no `properties` keyword names. */
  function ExtraTasks(entries: seq<Field>, all: seq<Field>, properties: seq<Property>, schema: Schema, path: string)
    : seq<Task>
  {
    if entries == [] then []
    else
      (if FindProperty(properties, entries[0].key).None? && HasKey(all, entries[0].key)
       then [Task(Lookup(all, entries[0].key).value, schema, ChildPath(path, entries[0].key))]
       else [])
      + ExtraTasks(entries[1..], all, properties, schema, path)
  }

  /** `issues` reported before `rest`. */
  function After(issues: seq<Issue>, rest: Outcome<seq<Issue>>): Outcome<seq<Issue>> {
    if rest.Done? then Done(issues + rest.value) else StackOverflow
  }

  /** The issues of all tasks in order. */
  function Collect(depth: nat, tasks: seq<Task>, scope: Scope, env: Env): Outcome<seq<Issue>>
    decreases depth, 1, |tasks|
  {
    if tasks == [] then Done([])
    else
      var first :- Validate(depth, tasks[0].value, tasks[0].schema, tasks[0].path, scope, env);
      After(first, Collect(depth, tasks[1..], scope, env))
  }

  /** How many tasks raise no issue: `filter(...).length`. */
  function CountMatches(depth: nat, tasks: seq<Task>, scope: Scope, env: Env): Outcome<nat>
    decreases depth, 1, |tasks|
  {
    if tasks == [] then Done(0)
    else
      var first :- Validate(depth, tasks[0].value, tasks[0].schema, tasks[0].path, scope, env);
      var rest :- CountMatches(depth, tasks[1..], scope, env);
      Done((if first == [] then 1 else 0) + rest)
  }

  /** Whether some task raises no issue; later tasks are not evaluated once one matched: `some(...)`. */
  function SomeMatches(depth: nat, tasks: seq<Task>, scope: Scope, env: Env): Outcome<bool>
    decreases depth, 1, |tasks|
  {
    if tasks == [] then Done(false)
    else
      var first :- Validate(depth, tasks[0].value, tasks[0].schema, tasks[0].path, scope, env);
      if first == [] then Done(true) else SomeMatches(depth, tasks[1..], scope, env)
  }

  function OneOfHolds(depth: nat, value: Value, schema: Schema, path: string, scope: Scope, env: Env): Outcome<bool>
    decreases depth, 2, 0
  {
    if schema.oneOf.NoBranches? then Done(true)
    else
      var matching :- CountMatches(depth, BranchTasks(value, schema.oneOf.list, path), scope, env);
      Done(matching == 1)
  }

  function AnyOfHolds(depth: nat, value: Value, schema: Schema, path: string, scope: Scope, env: Env): Outcome<bool>
    decreases depth, 2, 0
  {
    if schema.anyOf.NoBranches? then Done(true)
    else SomeMatches(depth, BranchTasks(value, schema.anyOf.list, path), scope, env)
  }

  function NotFails(depth: nat, value: Value, schema: Schema, path: string, scope: Scope, env: Env): Outcome<bool>
    decreases depth, 2, 0
  {
    if schema.negated.None? then Done(false)
    else SomeMatches(depth, [Task(value, schema.negated.value, path)], scope, env)
  }

  function ChoiceIssues(depth: nat, value: Value, schema: Schema, path: string, scope: Scope, env: Env)
    : Outcome<seq<Issue>>
    decreases depth, 3, 0
  {
    var one :- OneOfHolds(depth, value, schema, path, scope, env);
    var any :- AnyOfHolds(depth, value, schema, path, scope, env);
    var forbidden :- NotFails(depth, value, schema, path, scope, env);
    Done(When(!one, path, ExactlyOne) + When(!any, path, AtLeastOne) + When(forbidden, path, ForbiddenMatch))
  }

  function CombinatorIssues(depth: nat, value: Value, schema: Schema, path: string, scope: Scope, env: Env)
    : Outcome<seq<Issue>>
    decreases depth, 4, 0
  {
    var all :- Collect(depth, BranchTasks(value, schema.allOf, path), scope, env);
    var choices :- ChoiceIssues(depth, value, schema, path, scope, env);
    Done(all + choices)
  }

  function ItemsIssues(depth: nat, items: seq<Value>, schema: Schema, path: string, scope: Scope, env: Env)
    : Outcome<seq<Issue>>
    decreases depth, 2, 0
  {
    if schema.items.None? then Done([]) else Collect(depth, ItemTasks(items, schema.items.value, path), scope, env)
  }

  function ContainsHolds(depth: nat, items: seq<Value>, schema: Schema, path: string, scope: Scope, env: Env)
    : Outcome<bool>
    decreases depth, 2, 0
  {
    if schema.contains.None? then Done(true)
    else SomeMatches(depth, ItemTasks(items, schema.contains.value, path), scope, env)
  }

  function ArrayIssues(depth: nat, value: Value, schema: Schema, path: string, scope: Scope, env: Env)
    : Outcome<seq<Issue>>
    decreases depth, 3, 0
  {
    if !value.Array? then Done([])
    else
      var each :- ItemsIssues(depth, value.items, schema, path, scope, env);
      var prefix :- Collect(depth, PrefixTasks(value.items, schema.prefixItems, path), scope, env);
      var contained :- ContainsHolds(depth, value.items, schema, path, scope, env);
      Done(When(schema.minItems.Some? && |value.items| < schema.minItems.value, path, TooFewItems)
           + When(schema.uniqueItems && HasRepeat(value.items), path, NotUnique)
           + each + prefix + When(!contained, path, NothingContained))
  }

  function NamesIssues(depth: nat, entries: seq<Field>, schema: Schema, path: string, scope: Scope, env: Env)
    : Outcome<seq<Issue>>
    decreases depth, 2, 0
  {
    if schema.propertyNames.None? then Done([])
    else Collect(depth, NameTasks(entries, schema.propertyNames.value, path), scope, env)
  }

  function ExtraIssues(depth: nat, entries: seq<Field>, schema: Schema, path: string, scope: Scope, env: Env)
    : Outcome<seq<Issue>>
    decreases depth, 2, 0
  {
    match schema.extra
    case ExtraAllowed => Done([])
    case ExtraForbidden => Done(UnexpectedIssues(entries, schema.properties, path))
    case ExtraMust(extra) =>
      Collect(depth, ExtraTasks(entries, entries, schema.properties, extra, path), scope, env)
  }

  function RecordIssues(depth: nat, value: Value, schema: Schema, path: string, scope: Scope, env: Env)
    : Outcome<seq<Issue>>
    decreases depth, 3, 0
  {
    if !value.IsRecord() then Done([])
    else
      var entries := Entries(value);
      var named :- Collect(depth, PropertyTasks(entries, schema.properties, path), scope, env);
      var names :- NamesIssues(depth, entries, schema, path, scope, env);
      var extra :- ExtraIssues(depth, entries, schema, path, scope, env);
      Done(When(schema.minProperties.Some? && |entries| < schema.minProperties.value, path, TooFewProperties)
           + When(schema.maxProperties.Some? && |entries| > schema.maxProperties.value, path, TooManyProperties)
           + MissingIssues(schema.required, entries, path, MissingProperty)
           + named + names + DependencyIssues(schema.dependentRequired, entries, path) + extra)
  }

  function ConditionIssues(depth: nat, value: Value, schema: Schema, path: string, scope: Scope, env: Env)
    : Outcome<seq<Issue>>
    decreases depth, 2, 0
  {
    if schema.ifSchema.None? then Done([])
    else
      var holds :- SomeMatches(depth, [Task(value, schema.ifSchema.value, path)], scope, env);
      var branch := if holds then schema.thenSchema else schema.elseSchema;
      if branch.None? then Done([]) else Collect(depth, [Task(value, branch.value, path)], scope, env)
  }

  /** All keywords but `$ref`, with the early return on a wrong type. */
  function KeywordIssues(depth: nat, value: Value, schema: Schema, path: string, scope: Scope, env: Env)
    : Outcome<seq<Issue>>
    decreases depth, 5, 0
  {
    var combined :- CombinatorIssues(depth, value, schema, path, scope, env);
    if !TypeAllows(value, schema.types) then Done(combined + [Issue(path, WrongType)])
    else
      var onItems :- ArrayIssues(depth, value, schema, path, scope, env);
      var onFields :- RecordIssues(depth, value, schema, path, scope, env);
      var condition :- ConditionIssues(depth, value, schema, path, scope, env);
      Done(combined + LeafIssues(value, schema, path, env) + onItems + onFields + condition)
  }

  /** The issues `validateNode` returns when `depth` nested calls are available. */
  function Validate(depth: nat, value: Value, schema: Schema, path: string, scope: Scope, env: Env)
    : Outcome<seq<Issue>>
    decreases depth, 0, 0
  {
    if depth == 0 then StackOverflow
    else
      var here := Enter(scope, schema);
      var target := Resolve(env, here, schema.ref);
      if schema.ref != "" && target.None? then Done([Issue(path, UnresolvedRef(schema.ref))])
      else
        var referenced :- if schema.ref == "" then Done([])
                          else Validate(depth - 1, value, target.value.schema, path, target.value.scope, env);
        var rest :- KeywordIssues(depth - 1, value, schema, path, here, env);
        Done(referenced + rest)
  }

  // ---------------------------------------------------------------- the program

  /** The loops that push the issues of one call after another. */
  method PushIssues(depth: nat, tasks: seq<Task>, scope: Scope, env: Env) returns (r: Outcome<seq<Issue>>)
    ensures r == Collect(depth, tasks, scope, env)
    decreases depth, 1, |tasks|
  {
    var issues: seq<Issue> := [];
    ghost var whole := Collect(depth, tasks, scope, env);
    assert tasks[0..] == tasks && (whole.Done? ==> [] + whole.value == whole.value);
    for i := 0 to |tasks|
      invariant Collect(depth, tasks, scope, env) == After(issues, Collect(depth, tasks[i..], scope, env))
    {
      var more := ValidateNode(depth, tasks[i].value, tasks[i].schema, tasks[i].path, scope, env);
      ghost var rest := Collect(depth, tasks[i + 1..], scope, env);
      assert tasks[i..][1..] == tasks[i + 1..];
      if more.StackOverflow? { return StackOverflow; }
      assert rest.Done? ==> issues + (more.value + rest.value) == (issues + more.value) + rest.value;
      issues := issues + more.value;
    }
    assert issues + [] == issues;
    return Done(issues);
  }

  /** `branches.filter(...).length`. */
  method CountMatching(depth: nat, tasks: seq<Task>, scope: Scope, env: Env) returns (r: Outcome<nat>)
    ensures r == CountMatches(depth, tasks, scope, env)
    decreases depth, 1, |tasks|
  {
    var matching := 0;
    for i := 0 to |tasks|
      invariant CountMatches(depth, tasks, scope, env) ==
                var rest := CountMatches(depth, tasks[i..], scope, env);
                if rest.Done? then Done(matching + rest.value) else StackOverflow
    {
      var issues := ValidateNode(depth, tasks[i].value, tasks[i].schema, tasks[i].path, scope, env);
      assert tasks[i..][1..] == tasks[i + 1..];
      if issues.StackOverflow? { return StackOverflow; }
      if issues.value == [] { matching := matching + 1; }
    }
    return Done(matching);
  }

  /** `branches.some(...)`, which stops at the first match. */
  method SomeMatching(depth: nat, tasks: seq<Task>, scope: Scope, env: Env) returns (r: Outcome<bool>)
    ensures r == SomeMatches(depth, tasks, scope, env)
    decreases depth, 1, |tasks|
  {
    for i := 0 to |tasks|
      invariant SomeMatches(depth, tasks, scope, env) == SomeMatches(depth, tasks[i..], scope, env)
    {
      var issues := ValidateNode(depth, tasks[i].value, tasks[i].schema, tasks[i].path, scope, env);
      assert tasks[i..][1..] == tasks[i + 1..];
      if issues.StackOverflow? { return StackOverflow; }
      if issues.value == [] { return Done(true); }
    }
    return Done(false);
  }

  /** The `uniqueItems` loop: it keeps the set of printed items seen so far and stops at the first repeat. */
  method FindRepeat(items: seq<Value>) returns (repeated: bool)
    ensures repeated == HasRepeat(items)
  {
    var seen: set<Value> := {};
    for i := 0 to |items|
      invariant seen == set k | 0 <= k < i :: Marker(items, k)
      invariant forall j, k :: 0 <= j < k < i ==> Marker(items, j) != Marker(items, k)
    {
      var marker := Marker(items, i);
      if marker in seen { return true; }
      seen := seen + {marker};
    }
    return false;
  }

  /** The `required` loop, also run for the keys a present key depends on. */
  method CheckRequired(required: seq<string>, entries: seq<Field>, path: string, rule: Rule)
    returns (issues: seq<Issue>)
    ensures issues == MissingIssues(required, entries, path, rule)
  {
    issues := [];
    for i := 0 to |required|
      invariant MissingIssues(required, entries, path, rule)
             == issues + MissingIssues(required[i..], entries, path, rule)
    {
      var found := When(!HasKey(entries, required[i]), ChildPath(path, required[i]), rule);
      Regroup(issues, found, MissingIssues(required[i + 1..], entries, path, rule));
      assert required[i..][1..] == required[i + 1..];
      issues := issues + found;
    }
  }

  lemma Regroup(a: seq<Issue>, b: seq<Issue>, c: seq<Issue>)
    ensures a + (b + c) == (a + b) + c
  {
  }

  method CheckDependencies(dependencies: seq<Dependency>, entries: seq<Field>, path: string)
    returns (issues: seq<Issue>)
    ensures issues == DependencyIssues(dependencies, entries, path)
  {
    issues := [];
    for i := 0 to |dependencies|
      invariant DependencyIssues(dependencies, entries, path)
             == issues + DependencyIssues(dependencies[i..], entries, path)
    {
      var missing: seq<Issue> := [];
      if HasKey(entries, dependencies[i].name) {
        missing := CheckRequired(dependencies[i].needs, entries, path, RequiredBecause(dependencies[i].name));
      }
      Regroup(issues, missing, DependencyIssues(dependencies[i + 1..], entries, path));
      assert dependencies[i..][1..] == dependencies[i + 1..];
      issues := issues + missing;
    }
  }

  method CheckUnexpected(entries: seq<Field>, properties: seq<Property>, path: string) returns (issues: seq<Issue>)
    ensures issues == UnexpectedIssues(entries, properties, path)
  {
    issues := [];
    for i := 0 to |entries|
      invariant UnexpectedIssues(entries, properties, path) == issues + UnexpectedIssues(entries[i..], properties, path)
    {
      var found := When(FindProperty(properties, entries[i].key).None?, ChildPath(path, entries[i].key),
                        UnexpectedProperty);
      Regroup(issues, found, UnexpectedIssues(entries[i + 1..], properties, path));
      assert entries[i..][1..] == entries[i + 1..];
      issues := issues + found;
    }
  }

  method CheckOneOf(depth: nat, value: Value, schema: Schema, path: string, scope: Scope, env: Env)
    returns (r: Outcome<bool>)
    ensures r == OneOfHolds(depth, value, schema, path, scope, env)
    decreases depth, 2, 0
  {
    if schema.oneOf.NoBranches? { return Done(true); }
    var matching :- CountMatching(depth, BranchTasks(value, schema.oneOf.list, path), scope, env);
    return Done(matching == 1);
  }

  method CheckAnyOf(depth: nat, value: Value, schema: Schema, path: string, scope: Scope, env: Env)
    returns (r: Outcome<bool>)
    ensures r == AnyOfHolds(depth, value, schema, path, scope, env)
    decreases depth, 2, 0
  {
    if schema.anyOf.NoBranches? { return Done(true); }
    r := SomeMatching(depth, BranchTasks(value, schema.anyOf.list, path), scope, env);
  }

  method CheckNot(depth: nat, value: Value, schema: Schema, path: string, scope: Scope, env: Env)
    returns (r: Outcome<bool>)
    ensures r == NotFails(depth, value, schema, path, scope, env)
    decreases depth, 2, 0
  {
    if schema.negated.None? { return Done(false); }
    r := SomeMatching(depth, [Task(value, schema.negated.value, path)], scope, env);
  }

  method CheckChoices(depth: nat, value: Value, schema: Schema, path: string, scope: Scope, env: Env)
    returns (r: Outcome<seq<Issue>>)
    ensures r == ChoiceIssues(depth, value, schema, path, scope, env)
    decreases depth, 3, 0
  {
    var one :- CheckOneOf(depth, value, schema, path, scope, env);
    var issues := When(!one, path, ExactlyOne);
    var any :- CheckAnyOf(depth, value, schema, path, scope, env);
    issues := issues + When(!any, path, AtLeastOne);
    var forbidden :- CheckNot(depth, value, schema, path, scope, env);
    return Done(issues + When(forbidden, path, ForbiddenMatch));
  }

  method CheckArray(depth: nat, value: Value, schema: Schema, path: string, scope: Scope, env: Env)
    returns (r: Outcome<seq<Issue>>)
    requires value.Array?
    ensures r == ArrayIssues(depth, value, schema, path, scope, env)
    decreases depth, 2, 0
  {
    var repeated := false;
    if schema.uniqueItems {
      repeated := FindRepeat(value.items);
    }
    var issues := When(schema.minItems.Some? && |value.items| < schema.minItems.value, path, TooFewItems)
                  + When(repeated, path, NotUnique);
    var each: seq<Issue> := [];
    if schema.items.Some? {
      each :- PushIssues(depth, ItemTasks(value.items, schema.items.value, path), scope, env);
    }
    issues := issues + each;
    var prefix :- PushIssues(depth, PrefixTasks(value.items, schema.prefixItems, path), scope, env);
    issues := issues + prefix;
    var contained := true;
    if schema.contains.Some? {
      contained :- SomeMatching(depth, ItemTasks(value.items, schema.contains.value, path), scope, env);
    }
    return Done(issues + When(!contained, path, NothingContained));
  }

  method CheckExtra(depth: nat, entries: seq<Field>, schema: Schema, path: string, scope: Scope, env: Env)
    returns (r: Outcome<seq<Issue>>)
    ensures r == ExtraIssues(depth, entries, schema, path, scope, env)
    decreases depth, 2, 0
  {
    match schema.extra {
      case ExtraAllowed => return Done([]);
      case ExtraForbidden =>
        var issues := CheckUnexpected(entries, schema.properties, path);
        return Done(issues);
      case ExtraMust(extra) =>
        r := PushIssues(depth, ExtraTasks(entries, entries, schema.properties, extra, path), scope, env);
    }
  }

  method CheckRecord(depth: nat, value: Value, schema: Schema, path: string, scope: Scope, env: Env)
    returns (r: Outcome<seq<Issue>>)
    requires value.IsRecord()
    ensures r == RecordIssues(depth, value, schema, path, scope, env)
    decreases depth, 3, 0
  {
    var entries := Entries(value);
    var issues := When(schema.minProperties.Some? && |entries| < schema.minProperties.value, path, TooFewProperties)
                  + When(schema.maxProperties.Some? && |entries| > schema.maxProperties.value, path, TooManyProperties);
    var missing := CheckRequired(schema.required, entries, path, MissingProperty);
    issues := issues + missing;
    var named :- PushIssues(depth, PropertyTasks(entries, schema.properties, path), scope, env);
    issues := issues + named;
    var names: seq<Issue> := [];
    if schema.propertyNames.Some? {
      names :- PushIssues(depth, NameTasks(entries, schema.propertyNames.value, path), scope, env);
    }
    issues := issues + names;
    var dependent := CheckDependencies(schema.dependentRequired, entries, path);
    issues := issues + dependent;
    var extra :- CheckExtra(depth, entries, schema, path, scope, env);
    return Done(issues + extra);
  }

  method CheckCondition(depth: nat, value: Value, schema: Schema, path: string, scope: Scope, env: Env)
    returns (r: Outcome<seq<Issue>>)
    ensures r == ConditionIssues(depth, value, schema, path, scope, env)
    decreases depth, 2, 0
  {
    if schema.ifSchema.Some? {
      var holds :- SomeMatching(depth, [Task(value, schema.ifSchema.value, path)], scope, env);
      if holds && schema.thenSchema.Some? {
        r := PushIssues(depth, [Task(value, schema.thenSchema.value, path)], scope, env);
        return;
      }
      if !holds && schema.elseSchema.Some? {
        r := PushIssues(depth, [Task(value, schema.elseSchema.value, path)], scope, env);
        return;
      }
    }
    return Done([]);
  }

  /** Every keyword of `validateNode` but `$ref`. A wrong type ends it early. */
  method CheckKeywords(depth: nat, value: Value, schema: Schema, path: string, scope: Scope, env: Env)
    returns (r: Outcome<seq<Issue>>)
    ensures r == KeywordIssues(depth, value, schema, path, scope, env)
    decreases depth, 4, 0
  {
    var issues :- PushIssues(depth, BranchTasks(value, schema.allOf, path), scope, env);
    var choices :- CheckChoices(depth, value, schema, path, scope, env);
    issues := issues + choices;
    if !TypeAllows(value, schema.types) {
      return Done(issues + [Issue(path, WrongType)]);
    }
    issues := issues + LeafIssues(value, schema, path, env);
    var onItems: seq<Issue> := [];
    if value.Array? {
      onItems :- CheckArray(depth, value, schema, path, scope, env);
    }
    issues := issues + onItems;
    var onFields: seq<Issue> := [];
    if value.IsRecord() {
      onFields :- CheckRecord(depth, value, schema, path, scope, env);
    }
    issues := issues + onFields;
    var condition :- CheckCondition(depth, value, schema, path, scope, env);
    return Done(issues + condition);
  }

  /** `validateNode`: it accumulates issues and returns early on an unresolved reference. */
  method ValidateNode(depth: nat, value: Value, schema: Schema, path: string, scope: Scope, env: Env)
    returns (r: Outcome<seq<Issue>>)
    ensures r == Validate(depth, value, schema, path, scope, env)
    decreases depth, 0, 0
  {
    if depth == 0 { return StackOverflow; }
    var issues: seq<Issue> := [];
    var here := Enter(scope, schema);
    if schema.ref != "" {
      var target := Resolve(env, here, schema.ref);
      if target.None? { return Done([Issue(path, UnresolvedRef(schema.ref))]); }
      issues :- ValidateNode(depth - 1, value, target.value.schema, path, target.value.scope, env);
    }
    var rest :- CheckKeywords(depth - 1, value, schema, path, here, env);
    return Done(issues + rest);
  }

  /** `validateAgainstSchema`: an unknown id is an issue, not an exception. */
  method ValidateAgainstSchema(depth: nat, value: Value, schemaId: string, env: Env) returns (r: Outcome<seq<Issue>>)
    ensures r == if schemaId in env.registry
                 then Validate(depth, value, env.registry[schemaId], "$", Dynamic([]), env)
                 else Done([Issue("$", UnresolvedRef(schemaId))])
  {
    if schemaId !in env.registry { return Done([Issue("$", UnresolvedRef(schemaId))]); }
    r := ValidateNode(depth, value, env.registry[schemaId], "$", Dynamic([]), env);
  }
}
