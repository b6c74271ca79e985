/**
 Termination of the schema interpreter. Following a `$ref` applies another schema to the same value, so a
 cycle of references may never end. If no cycle stays on one value, that is if each passes through a keyword
 that moves to an item, a field or a key, the interpreter returns on every value, and the stack it needs is
 bounded lexicographically: first the height of the value, then the places a chain of references can still
 visit, then the nesting of the schema.
 */
module SchemaTermination {
  import opened Prelude
  import opened JsonValues
  import opened SchemaRuntime
  import opened SchemaScope

  // ---------------------------------------------------------------- reference graphs

  /** A schema a reference can lead to: a registered document, or a definition of one. */
  datatype Place = Place(document: Schema, body: Schema)

  function Bodies(document: Schema): seq<Schema> { [document] + Schemas(document.defs) }

  ghost function Places(env: Env): set<Place> {
    set id, body | id in env.registry && body in Bodies(env.registry[id]) :: Place(env.registry[id], body)
  }

  /** `s` refers to `ref` without leaving the value it is applied to. */
  ghost predicate RefersTo(s: Schema, ref: string) {
    (s.ref == ref && ref != "") || exists c :: c in SameValue(s) && RefersTo(c, ref)
  }

  ghost predicate Leads(env: Env, from: Place, ref: string, to: Place) {
    RefersTo(from.body, ref) && Resolve(env, Lexical(from.document), ref) == Some(Target(to.body, Lexical(to.document)))
  }

  ghost predicate Edge(env: Env, from: Place, to: Place) { exists ref :: Leads(env, from, ref, to) }

  ghost predicate IsChain(env: Env, chain: seq<Place>) {
    forall i :: 0 <= i < |chain| - 1 ==> Edge(env, chain[i], chain[i + 1])
  }

  /** No chain of references on one value returns to where it began. */
  ghost predicate NoSameValueCycle(env: Env) {
    forall chain :: |chain| >= 2 && IsChain(env, chain) ==> chain[0] != chain[|chain| - 1]
  }

  ghost predicate Distinct(chain: seq<Place>) {
    forall i, j :: 0 <= i < j < |chain| ==> chain[i] != chain[j]
  }

  lemma ChainGrows(env: Env, chain: seq<Place>, next: Place)
    requires NoSameValueCycle(env) && IsChain(env, chain) && Distinct(chain)
    requires chain != [] ==> Edge(env, chain[|chain| - 1], next)
    ensures IsChain(env, chain + [next]) && Distinct(chain + [next])
  {
    var longer := chain + [next];
    forall k | 0 <= k < |longer| - 1 ensures Edge(env, longer[k], longer[k + 1]) {
      assert k + 1 < |chain| ==> longer[k + 1] == chain[k + 1];
    }
    forall i | 0 <= i < |chain| ensures chain[i] != next {
      NoReturn(env, longer, i);
    }
  }

  lemma NoReturn(env: Env, chain: seq<Place>, i: nat)
    requires NoSameValueCycle(env) && IsChain(env, chain) && i < |chain| - 1
    ensures chain[i] != chain[|chain| - 1]
  {
    var part := chain[i..];
    forall k | 0 <= k < |part| - 1 ensures Edge(env, part[k], part[k + 1]) {
      assert Edge(env, chain[i + k], chain[i + k + 1]);
    }
    assert IsChain(env, part);
  }

  /** A chain without repetition is no longer than the number of places. */
  lemma {:induction false} DistinctIsShort(chain: seq<Place>, places: set<Place>)
    requires Distinct(chain) && forall p :: p in chain ==> p in places
    ensures |chain| <= |places|
  {
    if chain != [] {
      var rest := chain[..|chain| - 1];
      var last := chain[|chain| - 1];
      forall p | p in rest ensures p in places - {last} {
        var i :| 0 <= i < |rest| && rest[i] == p;
        assert chain[i] != chain[|chain| - 1];
      }
      DistinctIsShort(rest, places - {last});
    }
  }

  // ---------------------------------------------------------------- the bound

  /** The keywords of `s` nest at most `n` deep. */
  ghost predicate Nested(s: Schema, n: nat) {
    && n > 0
    && (forall c :: c in SameValue(s) ==> Nested(c, n - 1))
    && (forall c :: c in Descending(s) ==> Nested(c, n - 1))
  }

  ghost predicate AllNested(env: Env, width: nat) {
    forall p :: p in Places(env) ==> Nested(p.body, width)
  }

  /** The calls one value may cost while `left` places are unvisited and each place nests `width` deep. */
  ghost function Steps(left: nat, width: nat): nat {
    if left == 0 then 0 else Steps(left - 1, width) + width + 1
  }

  ghost function Rows(places: nat, width: nat, height: nat): nat {
    if height == 0 then 0 else Rows(places, width, height - 1) + Steps(places + 1, width)
  }

  /**
   The calls that suffice for a value of height `height` when `left` places are still unvisited on it and the
   schema nests `nesting` deep.
   */
  ghost function Budget(places: nat, width: nat, height: nat, left: nat, nesting: nat): nat {
    Rows(places, width, height) + Steps(left, width) + nesting
  }

  /** The bound is the product the recursion suggests. */
  lemma {:induction false} StepsAreProduct(left: nat, width: nat)
    ensures Steps(left, width) == left * (width + 1)
  {
    if left > 0 { StepsAreProduct(left - 1, width); }
  }

  lemma {:induction false} RowsAreProduct(places: nat, width: nat, height: nat)
    ensures Rows(places, width, height) == height * ((places + 1) * (width + 1))
  {
    StepsAreProduct(places + 1, width);
    if height > 0 {
      RowsAreProduct(places, width, height - 1);
      var step := (places + 1) * (width + 1);
      assert height * step == (height - 1) * step + step;
    }
  }

  lemma {:induction false} RowsGrow(places: nat, width: nat, h: nat, height: nat)
    requires h <= height
    ensures Rows(places, width, h) <= Rows(places, width, height)
    decreases height
  {
    if h < height { RowsGrow(places, width, h, height - 1); }
  }

  /** Each kind of nested call needs less than its caller. */
  lemma BudgetFalls(places: nat, width: nat, height: nat, left: nat, nesting: nat, h: nat)
    requires 0 < nesting <= width && left <= places
    ensures left > 0 ==> Budget(places, width, height, left - 1, width) < Budget(places, width, height, left, nesting)
    ensures h < height ==>
              Budget(places, width, h, places, nesting - 1) < Budget(places, width, height, left, nesting)
  {
    if h < height {
      RowsGrow(places, width, h, height - 1);
    }
  }

  // ---------------------------------------------------------------- a call returns when its nested calls do

  ghost predicate Returns(depth: nat, v: Value, s: Schema, scope: Scope, env: Env) {
    forall path :: Validate(depth, v, s, path, scope, env).Done?
  }

  ghost predicate Settled(depth: nat, tasks: seq<Task>, scope: Scope, env: Env) {
    forall i :: 0 <= i < |tasks| ==> Returns(depth, tasks[i].value, tasks[i].schema, scope, env)
  }

  lemma {:induction false} TasksReturn(depth: nat, tasks: seq<Task>, scope: Scope, env: Env)
    requires Settled(depth, tasks, scope, env)
    ensures Collect(depth, tasks, scope, env).Done?
    ensures CountMatches(depth, tasks, scope, env).Done?
    ensures SomeMatches(depth, tasks, scope, env).Done?
    decreases |tasks|
  {
    if tasks != [] {
      assert Returns(depth, tasks[0].value, tasks[0].schema, scope, env);
      TasksReturn(depth, tasks[1..], scope, env);
    }
  }

  ghost predicate SameValueReturns(depth: nat, v: Value, s: Schema, scope: Scope, env: Env) {
    forall c :: c in SameValue(s) ==> Returns(depth, v, c, scope, env)
  }

  ghost predicate DescendingReturns(depth: nat, v: Value, s: Schema, scope: Scope, env: Env) {
    forall c, w :: c in Descending(s) && Height(w) < Height(v) ==> Returns(depth, w, c, scope, env)
  }

  lemma ChoicesReturn(depth: nat, v: Value, s: Schema, path: string, scope: Scope, env: Env)
    requires SameValueReturns(depth, v, s, scope, env)
    ensures CombinatorIssues(depth, v, s, path, scope, env).Done?
  {
    TasksReturn(depth, BranchTasks(v, s.allOf, path), scope, env);
    assert OneOfHolds(depth, v, s, path, scope, env).Done? by {
      if s.oneOf.Branches? { TasksReturn(depth, BranchTasks(v, s.oneOf.list, path), scope, env); }
    }
    assert AnyOfHolds(depth, v, s, path, scope, env).Done? by {
      if s.anyOf.Branches? { TasksReturn(depth, BranchTasks(v, s.anyOf.list, path), scope, env); }
    }
    assert NotFails(depth, v, s, path, scope, env).Done? by {
      if s.negated.Some? { TasksReturn(depth, [Task(v, s.negated.value, path)], scope, env); }
    }
  }

  lemma ConditionReturns(depth: nat, v: Value, s: Schema, path: string, scope: Scope, env: Env)
    requires SameValueReturns(depth, v, s, scope, env)
    ensures ConditionIssues(depth, v, s, path, scope, env).Done?
  {
    if s.ifSchema.Some? { TasksReturn(depth, [Task(v, s.ifSchema.value, path)], scope, env); }
    if s.thenSchema.Some? { TasksReturn(depth, [Task(v, s.thenSchema.value, path)], scope, env); }
    if s.elseSchema.Some? { TasksReturn(depth, [Task(v, s.elseSchema.value, path)], scope, env); }
  }

  lemma ArrayReturns(depth: nat, v: Value, s: Schema, path: string, scope: Scope, env: Env)
    requires DescendingReturns(depth, v, s, scope, env)
    ensures ArrayIssues(depth, v, s, path, scope, env).Done?
  {
    if v.Array? {
      forall i | 0 <= i < |v.items| ensures Height(v.items[i]) < Height(v) { ItemIsLower(v.items, i); }
      if s.items.Some? { TasksReturn(depth, ItemTasks(v.items, s.items.value, path), scope, env); }
      TasksReturn(depth, PrefixTasks(v.items, s.prefixItems, path), scope, env);
      if s.contains.Some? { TasksReturn(depth, ItemTasks(v.items, s.contains.value, path), scope, env); }
    }
  }

  lemma {:induction false} PropertyTasksReturn(depth: nat, v: Value, s: Schema, properties: seq<Property>, path: string,
                                               scope: Scope, env: Env)
    requires DescendingReturns(depth, v, s, scope, env)
    requires forall p :: p in properties ==> p.schema in Descending(s)
    ensures Settled(depth, PropertyTasks(Entries(v), properties, path), scope, env)
    decreases |properties|
  {
    if properties != [] {
      var entries, first := Entries(v), properties[0];
      assert first in properties;
      PropertyTasksReturn(depth, v, s, properties[1..], path, scope, env);
      if HasKey(entries, first.name) {
        LookupIsEntry(entries, first.name);
        EntryIsLower(v, Field(first.name, Lookup(entries, first.name).value));
      }
    }
  }

  lemma {:induction false} ExtraTasksReturn(depth: nat, v: Value, s: Schema, entries: seq<Field>, path: string,
                                            scope: Scope, env: Env)
    requires DescendingReturns(depth, v, s, scope, env) && s.extra.ExtraMust?
    ensures Settled(depth, ExtraTasks(entries, Entries(v), s.properties, s.extra.schema, path), scope, env)
    decreases |entries|
  {
    if entries != [] {
      var all, first := Entries(v), entries[0];
      ExtraTasksReturn(depth, v, s, entries[1..], path, scope, env);
      if HasKey(all, first.key) {
        LookupIsEntry(all, first.key);
        EntryIsLower(v, Field(first.key, Lookup(all, first.key).value));
      }
    }
  }

  lemma RecordReturns(depth: nat, v: Value, s: Schema, path: string, scope: Scope, env: Env)
    requires DescendingReturns(depth, v, s, scope, env)
    ensures RecordIssues(depth, v, s, path, scope, env).Done?
  {
    if v.IsRecord() {
      var entries := Entries(v);
      forall p | p in s.properties ensures p.schema in Descending(s) {
        var i :| 0 <= i < |s.properties| && s.properties[i] == p;
        assert Schemas(s.properties)[i] == p.schema;
      }
      PropertyTasksReturn(depth, v, s, s.properties, path, scope, env);
      TasksReturn(depth, PropertyTasks(entries, s.properties, path), scope, env);
      if s.propertyNames.Some? {
        forall i | 0 <= i < |entries| ensures Height(Text(entries[i].key)) < Height(v) { EntryIsLower(v, entries[i]); }
        TasksReturn(depth, NameTasks(entries, s.propertyNames.value, path), scope, env);
      }
      if s.extra.ExtraMust? {
        ExtraTasksReturn(depth, v, s, entries, path, scope, env);
        TasksReturn(depth, ExtraTasks(entries, entries, s.properties, s.extra.schema, path), scope, env);
      }
    }
  }

  lemma KeywordsReturn(depth: nat, v: Value, s: Schema, path: string, scope: Scope, env: Env)
    requires SameValueReturns(depth, v, s, scope, env) && DescendingReturns(depth, v, s, scope, env)
    ensures KeywordIssues(depth, v, s, path, scope, env).Done?
  {
    ChoicesReturn(depth, v, s, path, scope, env);
    ConditionReturns(depth, v, s, path, scope, env);
    ArrayReturns(depth, v, s, path, scope, env);
    RecordReturns(depth, v, s, path, scope, env);
  }

  lemma StepReturns(depth: nat, v: Value, s: Schema, document: Schema, env: Env)
    requires depth > 0
    requires SameValueReturns(depth - 1, v, s, Lexical(document), env)
    requires DescendingReturns(depth - 1, v, s, Lexical(document), env)
    requires s.ref != "" && Resolve(env, Lexical(document), s.ref).Some? ==>
               var target := Resolve(env, Lexical(document), s.ref).value;
               Returns(depth - 1, v, target.schema, target.scope, env)
    ensures Returns(depth, v, s, Lexical(document), env)
  {
    forall path ensures Validate(depth, v, s, path, Lexical(document), env).Done? {
      KeywordsReturn(depth - 1, v, s, path, Lexical(document), env);
    }
  }

  // ---------------------------------------------------------------- every call returns

  ghost predicate Registered(env: Env, document: Schema) {
    exists id :: id in env.registry && env.registry[id] == document
  }

  /** `s` is reached on one value along `chain`, whose last place contains it. */
  ghost predicate Follows(env: Env, s: Schema, document: Schema, chain: seq<Place>) {
    && IsChain(env, chain) && Distinct(chain)
    && (forall p :: p in chain ==> p in Places(env))
    && (chain != [] ==>
          var last := chain[|chain| - 1];
          last.document == document && forall ref :: RefersTo(s, ref) ==> RefersTo(last.body, ref))
  }

  ghost predicate Ready(env: Env, width: nat) {
    WellScoped(env) && NoSameValueCycle(env) && AllNested(env, width)
  }

  /** A resolved reference leads to a place. */
  lemma RefLeadsToPlace(env: Env, document: Schema, ref: string, width: nat)
    requires Ready(env, width) && Registered(env, document) && Defines(document, ref)
    requires Resolve(env, Lexical(document), ref).Some?
    ensures var target := Resolve(env, Lexical(document), ref).value;
            && target.scope.Lexical? && Registered(env, target.scope.document)
            && ChildrenInside(target.schema, target.scope.document)
            && Nested(target.schema, width)
            && Place(target.scope.document, target.schema) in Places(env)
  {
    var target := Resolve(env, Lexical(document), ref).value;
    var id :| id in env.registry && env.registry[id] == document;
    if IsLocalRef(ref) {
      FoundIsListed(document.defs, LocalKey(ref));
      assert target.schema in Bodies(env.registry[id]);
    } else {
      assert env.registry[ref] == target.schema && target.schema == Bodies(env.registry[ref])[0];
    }
    var place := Place(target.scope.document, target.schema);
    assert place in Places(env);
    assert Nested(place.body, width);
  }

  /** What a call needs in order to return at `depth`. */
  ghost predicate Fits(env: Env, width: nat, depth: nat, v: Value, s: Schema, document: Schema, chain: seq<Place>,
                       nesting: nat)
  {
    && Registered(env, document) && ChildrenInside(s, document)
    && Follows(env, s, document, chain) && |chain| <= |Places(env)|
    && Nested(s, nesting) && nesting <= width
    && Budget(|Places(env)|, width, Height(v), |Places(env)| - |chain|, nesting) <= depth
  }

  lemma ChildFits(env: Env, width: nat, depth: nat, v: Value, s: Schema, document: Schema, chain: seq<Place>,
                  nesting: nat,
                  c: Schema)
    requires Fits(env, width, depth, v, s, document, chain, nesting) && c in SameValue(s)
    ensures depth > 0 && nesting > 0 && Fits(env, width, depth - 1, v, c, document, chain, nesting - 1)
  {
    assert Inside(c, document);
    assert forall ref :: RefersTo(c, ref) ==> RefersTo(s, ref);
  }

  lemma DescentFits(env: Env, width: nat, depth: nat, v: Value, s: Schema, document: Schema, chain: seq<Place>,
                    nesting: nat, c: Schema, w: Value)
    requires Fits(env, width, depth, v, s, document, chain, nesting) && c in Descending(s) && Height(w) < Height(v)
    ensures depth > 0 && nesting > 0 && Fits(env, width, depth - 1, w, c, document, [], nesting - 1)
  {
    assert Inside(c, document);
    BudgetFalls(|Places(env)|, width, Height(v), |Places(env)| - |chain|, nesting, Height(w));
  }

  lemma LongerFollows(env: Env, s: Schema, chain: seq<Place>, next: Place)
    requires NoSameValueCycle(env) && IsChain(env, chain) && Distinct(chain) && next in Places(env)
    requires forall p :: p in chain ==> p in Places(env)
    requires chain != [] ==> Edge(env, chain[|chain| - 1], next)
    requires next.body == s
    ensures Follows(env, s, next.document, chain + [next]) && |chain| < |Places(env)|
  {
    ChainGrows(env, chain, next);
    DistinctIsShort(chain + [next], Places(env));
  }

  lemma RefBudget(env: Env, width: nat, depth: nat, v: Value, s: Schema, document: Schema, chain: seq<Place>,
                  nesting: nat)
    requires Fits(env, width, depth, v, s, document, chain, nesting) && |chain| < |Places(env)|
    ensures depth > 0
    ensures Budget(|Places(env)|, width, Height(v), |Places(env)| - (|chain| + 1), width) <= depth - 1
  {
    BudgetFalls(|Places(env)|, width, Height(v), |Places(env)| - |chain|, nesting, 0);
  }

  /** A reference leads to a place the chain has not visited. */
  lemma RefFollows(env: Env, width: nat, depth: nat, v: Value, s: Schema, document: Schema, chain: seq<Place>,
                   nesting: nat,
                   next: Place)
    requires Ready(env, width) && Fits(env, width, depth, v, s, document, chain, nesting) && s.ref != ""
    requires Resolve(env, Lexical(document), s.ref) == Some(Target(next.body, Lexical(next.document)))
    requires next in Places(env)
    ensures Follows(env, next.body, next.document, chain + [next]) && |chain| < |Places(env)|
  {
    hide IsDocument, ChildrenInside, Inside, Nested, Places;
    assert RefersTo(s, s.ref);
    if chain != [] {
      assert Leads(env, chain[|chain| - 1], s.ref, next);
    }
    LongerFollows(env, next.body, chain, next);
  }

  lemma RefFits(env: Env, width: nat, depth: nat, v: Value, s: Schema, document: Schema, chain: seq<Place>,
                nesting: nat)
    returns (longer: seq<Place>)
    requires Ready(env, width) && Fits(env, width, depth, v, s, document, chain, nesting)
    requires s.ref != "" && Resolve(env, Lexical(document), s.ref).Some?
    ensures var target := Resolve(env, Lexical(document), s.ref).value;
            depth > 0 && target.scope.Lexical?
            && Fits(env, width, depth - 1, v, target.schema, target.scope.document, longer, width)
  {
    hide IsDocument, Inside, Nested, Places, Follows, RefersTo;
    var target := Resolve(env, Lexical(document), s.ref).value;
    RefLeadsToPlace(env, document, s.ref, width);
    var next := Place(target.scope.document, target.schema);
    RefFollows(env, width, depth, v, s, document, chain, nesting, next);
    RefBudget(env, width, depth, v, s, document, chain, nesting);
    longer := chain + [next];
  }

  lemma {:induction false} CallReturns(env: Env, width: nat, depth: nat, v: Value, s: Schema, document: Schema,
                                       chain: seq<Place>, nesting: nat)
    requires Ready(env, width) && Fits(env, width, depth, v, s, document, chain, nesting)
    ensures Returns(depth, v, s, Lexical(document), env)
    decreases depth, 1
  {
    assert depth > 0;
    SameValueCallsReturn(env, width, depth, v, s, document, chain, nesting);
    DescendingCallsReturn(env, width, depth, v, s, document, chain, nesting);
    if s.ref != "" && Resolve(env, Lexical(document), s.ref).Some? {
      RefCallReturns(env, width, depth, v, s, document, chain, nesting);
    }
    StepReturns(depth, v, s, document, env);
  }

  lemma {:induction false} SameValueCallsReturn(env: Env, width: nat, depth: nat, v: Value, s: Schema, document: Schema,
                                                chain: seq<Place>, nesting: nat)
    requires depth > 0 && Ready(env, width) && Fits(env, width, depth, v, s, document, chain, nesting)
    ensures SameValueReturns(depth - 1, v, s, Lexical(document), env)
    decreases depth, 0
  {
    hide Ready, Fits;
    forall c | c in SameValue(s) ensures Returns(depth - 1, v, c, Lexical(document), env) {
      ChildFits(env, width, depth, v, s, document, chain, nesting, c);
      CallReturns(env, width, depth - 1, v, c, document, chain, nesting - 1);
    }
  }

  lemma {:induction false} DescendingCallsReturn(env: Env, width: nat, depth: nat, v: Value, s: Schema,
                                                 document: Schema,
                                                 chain: seq<Place>, nesting: nat)
    requires depth > 0 && Ready(env, width) && Fits(env, width, depth, v, s, document, chain, nesting)
    ensures DescendingReturns(depth - 1, v, s, Lexical(document), env)
    decreases depth, 0
  {
    hide Ready, Fits;
    forall c, w | c in Descending(s) && Height(w) < Height(v) ensures Returns(depth - 1, w, c, Lexical(document), env) {
      DescentFits(env, width, depth, v, s, document, chain, nesting, c, w);
      CallReturns(env, width, depth - 1, w, c, document, [], nesting - 1);
    }
  }

  lemma {:induction false} RefCallReturns(env: Env, width: nat, depth: nat, v: Value, s: Schema, document: Schema,
                                          chain: seq<Place>, nesting: nat)
    requires depth > 0 && Ready(env, width) && Fits(env, width, depth, v, s, document, chain, nesting)
    requires s.ref != "" && Resolve(env, Lexical(document), s.ref).Some?
    ensures var target := Resolve(env, Lexical(document), s.ref).value;
            Returns(depth - 1, v, target.schema, target.scope, env)
    decreases depth, 0
  {
    hide Ready, Fits;
    var target := Resolve(env, Lexical(document), s.ref).value;
    var longer := RefFits(env, width, depth, v, s, document, chain, nesting);
    CallReturns(env, width, depth - 1, v, target.schema, target.scope.document, longer, width);
  }

  /** The bound in closed form, for `places` places that nest `width` deep. */
  function StackBound(places: nat, width: nat, height: nat): nat {
    height * ((places + 1) * (width + 1)) + places * (width + 1) + width
  }

  lemma BudgetInClosedForm(places: nat, width: nat, height: nat)
    ensures Budget(places, width, height, places, width) == StackBound(places, width, height)
  {
    RowsAreProduct(places, width, height);
    StepsAreProduct(places, width);
    hide Rows, Steps;
  }

  /** For the search the code performs: it returns on any stack of this size. */
  lemma ValidationTerminatesWithin(depth: nat, v: Value, id: string, width: nat, env: Env)
    requires Ready(env, width) && id in env.registry
    requires StackBound(|Places(env)|, width, Height(v)) <= depth
    ensures Validate(depth, v, env.registry[id], "$", Dynamic([]), env).Done?
  {
    var document := env.registry[id];
    assert document == Bodies(document)[0] && Place(document, document) in Places(env);
    BudgetInClosedForm(|Places(env)|, width, Height(v));
    hide StackBound, Budget, Ready, Places, Height, Validate;
    CallReturns(env, width, depth, v, document, document, [], width);
    DynamicScopeIsLexical(depth, v, id, env);
  }

  // ---------------------------------------------------------------- the bound exists

  lemma {:induction false} NestingMonotone(s: Schema, n: nat, m: nat)
    requires Nested(s, n) && n <= m
    ensures Nested(s, m)
    decreases n
  {
    forall c | c in SameValue(s) ensures Nested(c, m - 1) { NestingMonotone(c, n - 1, m - 1); }
    forall c | c in Descending(s) ensures Nested(c, m - 1) { NestingMonotone(c, n - 1, m - 1); }
  }

  lemma {:induction false} NestingOf(s: Schema) returns (n: nat)
    ensures Nested(s, n)
    decreases s, 1, 0
  {
    var a := NestingOfAll(s, SameValue(s));
    var b := NestingOfAll(s, Descending(s));
    n := Max(a, b) + 1;
    forall c | c in SameValue(s) ensures Nested(c, n - 1) { NestingMonotone(c, a, n - 1); }
    forall c | c in Descending(s) ensures Nested(c, n - 1) { NestingMonotone(c, b, n - 1); }
  }

  lemma {:induction false} NestingOfAll(parent: Schema, children: seq<Schema>) returns (n: nat)
    requires forall c :: c in children ==> c < parent
    ensures forall c :: c in children ==> Nested(c, n)
    decreases parent, 0, |children|
  {
    n := 0;
    if children != [] {
      assert children[0] in children && forall c :: c in children[1..] ==> c in children;
      var a := NestingOf(children[0]);
      var b := NestingOfAll(parent, children[1..]);
      n := Max(a, b);
      forall c | c in children ensures Nested(c, n) {
        if c == children[0] { NestingMonotone(c, a, n); } else { NestingMonotone(c, b, n); }
      }
    }
  }

  lemma {:induction false} NestingOfPlaces(places: set<Place>) returns (n: nat)
    ensures forall p :: p in places ==> Nested(p.body, n)
    decreases |places|
  {
    n := 0;
    if places != {} {
      var first :| first in places;
      var a := NestingOf(first.body);
      var b := NestingOfPlaces(places - {first});
      n := Max(a, b);
      forall p | p in places ensures Nested(p.body, n) {
        if p == first { NestingMonotone(p.body, a, n); } else { NestingMonotone(p.body, b, n); }
      }
    }
  }

  /** Without a reference cycle on one value, validation of any value against any document ends. */
  lemma ValidationTerminates(v: Value, id: string, env: Env) returns (enough: nat)
    requires WellScoped(env) && NoSameValueCycle(env) && id in env.registry
    ensures forall depth :: depth >= enough ==> Validate(depth, v, env.registry[id], "$", Dynamic([]), env).Done?
  {
    var width := NestingOfPlaces(Places(env));
    enough := StackBound(|Places(env)|, width, Height(v));
    forall depth | depth >= enough ensures Validate(depth, v, env.registry[id], "$", Dynamic([]), env).Done? {
      ValidationTerminatesWithin(depth, v, id, width, env);
    }
  }
}
