/** packages/core/src/adapter-sdk/runtime-projection.ts: choosing the latest projection of a runtime. */
module ProjectionSelection {
  import opened Prelude

  datatype Strategy = CheckpointConsistent | MixedState

  /** Whom and what a projection was compiled for; a missing and a null field read the same. */
  datatype Context = Context(actor: Option<string>, owner: Option<string>, instance: Option<string>,
                             session: Option<string>,
                             thread: Option<string>)

  datatype Manifest = Manifest(
    id: string,
    adapter: string,
    profile: string,
    audience: string,
    compiledAt: int,          // updated_at ?? created_at
    policyVersion: string,
    compilerVersion: string,
    context: Context,
    strategy: Strategy,
    checkpointRef: Option<string>,
    epoch: Option<string>,
    generation: Option<int>)

  datatype Requirement = AllowMixedState | RequireCheckpointConsistent

  datatype Filter = Filter(
    policyVersion: Option<string>,
    compilerVersion: Option<string>,
    context: Context,         // None: not filtered
    requirement: Option<Requirement>)

  // ---------------------------------------------------------------- the comparator

  function Sign(n: int): int { if n < 0 then -1 else if n > 0 then 1 else 0 }

  function GenerationOf(m: Manifest): int { if m.generation.Some? then m.generation.value else -1 }

  /** `compareProjectionTimestamps`, up to the size of the result; `less` is the order of ids. */
  function Compare(left: Manifest, right: Manifest, less: (string, string) -> bool): int {
    if left.context == right.context && left.strategy != right.strategy then
      if left.strategy == CheckpointConsistent then -1 else 1
    else if right.compiledAt != left.compiledAt then Sign(right.compiledAt - left.compiledAt)
    else if left.epoch.Some? && right.epoch.Some? && left.epoch == right.epoch
      && GenerationOf(right) != GenerationOf(left) then
      Sign(GenerationOf(right) - GenerationOf(left))
    else if less(right.id, left.id) then -1
    else if less(left.id, right.id) then 1
    else 0
  }

  predicate Before(left: Manifest, right: Manifest, less: (string, string) -> bool) { Compare(left, right, less) < 0 }

  ghost predicate StrictOrder(less: (string, string) -> bool) {
    && (forall a, b :: less(a, b) ==> !less(b, a))
    && (forall a, b :: a != b ==> less(a, b) || less(b, a))
    && (forall a, b, c :: less(a, b) && less(b, c) ==> less(a, c))
  }

  predicate ShareContext(list: seq<Manifest>) { forall a, b :: a in list && b in list ==> a.context == b.context }

  /**
   Two projections of one moment and epoch whose generations order them against their ids, with another epoch
   between.
   */
  predicate Twisted(a: Manifest, b: Manifest, c: Manifest, less: (string, string) -> bool) {
    && a.compiledAt == b.compiledAt == c.compiledAt && a.strategy == b.strategy == c.strategy
    && a.epoch.Some? && a.epoch == b.epoch != c.epoch && GenerationOf(a) > GenerationOf(b)
    && less(a.id, c.id) && less(c.id, b.id)
  }

  ghost predicate Untwisted(list: seq<Manifest>, less: (string, string) -> bool) {
    forall a, b, c :: a in list && b in list && c in list ==> !Twisted(a, b, c, less)
  }

  ghost predicate IsTransitive(list: seq<Manifest>, less: (string, string) -> bool) {
    forall a, b, c :: a in list && b in list && c in list && Before(a, b, less) && Before(b, c, less) ==>
      Before(a, c, less)
  }

  /** The order of two projections, field by field. */
  ghost predicate Precedes(a: Manifest, b: Manifest, less: (string, string) -> bool) {
    if a.context == b.context && a.strategy != b.strategy then a.strategy == CheckpointConsistent
    else
      || a.compiledAt > b.compiledAt
      || (a.compiledAt == b.compiledAt
          && var g, h := if a.generation.Some? then a.generation.value else -1,
                         if b.generation.Some? then b.generation.value else -1;
             if a.epoch.Some? && a.epoch == b.epoch && g != h then g > h else less(b.id, a.id))
  }

  lemma BeforeExactly(a: Manifest, b: Manifest, less: (string, string) -> bool)
    ensures Before(a, b, less) <==> Precedes(a, b, less)
  {
  }

  predicate IdsDiffer(list: seq<Manifest>) { forall a, b :: a in list && b in list && a.id == b.id ==> a == b }

  lemma ComparePair(a: Manifest, b: Manifest, less: (string, string) -> bool)
    requires StrictOrder(less)
    ensures Compare(a, b, less) == -Compare(b, a, less)
    ensures a.context == b.context && Compare(a, b, less) == 0 ==> a.id == b.id
  {
  }

  /** Such a triple is the only way round. */
  lemma CompareTriple(a: Manifest, b: Manifest, c: Manifest, less: (string, string) -> bool)
    requires StrictOrder(less) && a.context == b.context == c.context
    requires a.id == c.id ==> a == c
    requires Before(a, b, less) && Before(b, c, less) && !Before(a, c, less)
    ensures Twisted(a, b, c, less) || Twisted(b, c, a, less) || Twisted(c, a, b, less)
  {
  }

  lemma TwistedIsCircular(a: Manifest, b: Manifest, c: Manifest, less: (string, string) -> bool)
    requires StrictOrder(less) && a.context == b.context == c.context && Twisted(a, b, c, less)
    ensures Before(a, b, less) && Before(b, c, less) && Before(c, a, less) && !Before(a, c, less)
  {
  }

  /** Within one context the comparator is transitive on a list exactly when the list holds no such triple. */
  lemma TransitiveExactly(list: seq<Manifest>, less: (string, string) -> bool)
    requires StrictOrder(less) && ShareContext(list) && IdsDiffer(list)
    ensures IsTransitive(list, less) <==> Untwisted(list, less)
  {
    hide Twisted, Before, StrictOrder;
    if Untwisted(list, less) {
      forall a, b, c | a in list && b in list && c in list && Before(a, b, less) && Before(b, c, less)
        ensures Before(a, c, less) {
        if !Before(a, c, less) { CompareTriple(a, b, c, less); }
      }
    } else {
      var a, b, c :| a in list && b in list && c in list && Twisted(a, b, c, less);
      TwistedIsCircular(a, b, c, less);
    }
  }

  /** Within one context, and without such a triple, the comparator is a strict total order. */
  lemma ComparatorIsStrictTotal(list: seq<Manifest>, a: Manifest, b: Manifest, c: Manifest,
                                less: (string, string) -> bool)
    requires StrictOrder(less) && ShareContext(list) && Untwisted(list, less) && IdsDiffer(list)
    requires a in list && b in list && c in list
    ensures Compare(a, b, less) == -Compare(b, a, less)
    ensures a == b || Before(a, b, less) || Before(b, a, less)
    ensures !(Before(a, b, less) && Before(b, a, less)) && !Before(a, a, less)
    ensures Before(a, b, less) && Before(b, c, less) ==> Before(a, c, less)
  {
    assert a.context == b.context == c.context;
    ComparePair(a, b, less);
    ComparePair(a, a, less);
    TransitiveExactly(list, less);
  }

  // ---------------------------------------------------------------- the best of a list

  ghost predicate IsBest(m: Manifest, list: seq<Manifest>, less: (string, string) -> bool) {
    m in list && forall x :: x in list && x != m ==> Before(m, x, less)
  }

  lemma {:induction false} BestExists(list: seq<Manifest>, less: (string, string) -> bool) returns (best: Manifest)
    requires list != [] && StrictOrder(less) && ShareContext(list) && Untwisted(list, less) && IdsDiffer(list)
    ensures IsBest(best, list, less)
    decreases |list|
  {
    best := list[0];
    if |list| > 1 {
      var rest := list[1..];
      assert forall x :: x in rest ==> x in list;
      var other := BestExists(rest, less);
      assert list == [list[0]] + rest;
      ComparatorIsStrictTotal(list, list[0], other, other, less);
      if Before(other, list[0], less) { best := other; }
      forall x | x in list && x != best ensures Before(best, x, less) {
        if best == list[0] && x != other && x in rest { ComparatorIsStrictTotal(list, best, other, x, less); }
      }
    }
  }

  /** What any sort by the comparator promises: the same manifests, none with a better one after it. */
  ghost predicate SortedBy(sorted: seq<Manifest>, list: seq<Manifest>, less: (string, string) -> bool) {
    && (forall m :: m in sorted <==> m in list)
    && (forall i, j :: 0 <= i < j < |sorted| ==> !Before(sorted[j], sorted[i], less))
  }

  /** The first of the sorted list is the one best manifest, and a checkpoint-consistent one when there is any. */
  lemma HeadIsBest(sorted: seq<Manifest>, list: seq<Manifest>, less: (string, string) -> bool)
    requires StrictOrder(less) && ShareContext(list) && Untwisted(list, less) && IdsDiffer(list)
    requires list != [] && SortedBy(sorted, list, less)
    ensures sorted != [] && IsBest(sorted[0], list, less)
    ensures forall m :: IsBest(m, list, less) ==> m == sorted[0]
    ensures (exists m :: m in list && m.strategy == CheckpointConsistent) ==> sorted[0].strategy == CheckpointConsistent
    ensures forall m :: m in list && m.strategy == sorted[0].strategy ==> m.compiledAt <= sorted[0].compiledAt
  {
    assert list[0] in sorted;
    var best := BestExists(list, less);
    var i :| 0 <= i < |sorted| && sorted[i] == best;
    assert i > 0 ==> !Before(sorted[i], sorted[0], less);
    assert sorted[0] in list;
    forall m | IsBest(m, list, less) ensures m == best {
      ComparatorIsStrictTotal(list, m, best, best, less);
    }
    forall m | m in list && m != best
      ensures m.strategy == CheckpointConsistent ==> best.strategy == CheckpointConsistent
      ensures m.strategy == best.strategy ==> m.compiledAt <= best.compiledAt
    {
      assert Before(best, m, less) && m.context == best.context;
    }
  }

  /** When the projections of one moment and strategy are of one epoch, the comparator finds the best by any sort. */
  lemma OneEpochHasABest(sorted: seq<Manifest>, list: seq<Manifest>, less: (string, string) -> bool)
    requires StrictOrder(less) && ShareContext(list) && IdsDiffer(list) && list != [] && SortedBy(sorted, list, less)
    requires forall a, b :: a in list && b in list && a.compiledAt == b.compiledAt && a.strategy == b.strategy ==>
               a.epoch == b.epoch
    ensures IsTransitive(list, less)
    ensures sorted != [] && IsBest(sorted[0], list, less)
  {
    assert Untwisted(list, less);
    TransitiveExactly(list, less);
    HeadIsBest(sorted, list, less);
  }

  // ---------------------------------------------------------------- without the conditions

  /**
   Across contexts the comparator goes in circles: an old checkpoint of one context, a newer manifest of another, a
   newest mixed one of the first.
   */
  lemma ContextsMakeACycle(a: Manifest, b: Manifest, c: Manifest, less: (string, string) -> bool)
    requires a.context == b.context != c.context
    requires a.strategy == CheckpointConsistent && b.strategy == MixedState
    requires a.compiledAt < c.compiledAt < b.compiledAt
    ensures Before(a, b, less) && Before(b, c, less) && Before(c, a, less)
  {
  }

  /** So do two epochs at one moment: generations decide within the epoch, and ids, the other way, across epochs. */
  lemma EpochsMakeACycle(less: (string, string) -> bool, context: Context, moment: int)
    requires StrictOrder(less) && less("a", "b") && less("b", "c")
    ensures var a, b := OfEpoch("a", "x", 2, context, moment), OfEpoch("c", "x", 1, context, moment);
            var c := OfEpoch("b", "y", 1, context, moment);
            Before(a, b, less) && Before(b, c, less) && Before(c, a, less)
  {
    var a, b, c := OfEpoch("a", "x", 2, context, moment), OfEpoch("c", "x", 1, context, moment),
                   OfEpoch("b", "y", 1, context, moment);
    TwistedIsCircular(a, b, c, less);
  }

  function OfEpoch(id: string, epoch: string, generation: int, context: Context, moment: int): Manifest {
    Manifest(id, "hermes", "bootstrap", "runtime", moment, "policy", "compiler", context, CheckpointConsistent,
             Some("checkpoint"), Some(epoch), Some(generation))
  }

  /** And then a sorted list has a better manifest behind its first. */
  lemma CycleHasNoBest(a: Manifest, b: Manifest, c: Manifest, less: (string, string) -> bool)
    requires StrictOrder(less) && Before(a, b, less) && Before(b, c, less) && Before(c, a, less)
    requires a != b && b != c && a != c
    ensures forall m :: !IsBest(m, [a, b, c], less)
  {
    ComparePair(a, b, less);
    ComparePair(b, c, less);
    ComparePair(c, a, less);
    assert a in [a, b, c] && b in [a, b, c] && c in [a, b, c];
    assert forall m :: m in [a, b, c] ==> m == a || m == b || m == c;
  }

  // ---------------------------------------------------------------- the selection

  predicate Passes(wanted: Option<string>, actual: Option<string>) { wanted.None? || wanted == actual }

  predicate MatchesFilter(m: Manifest, f: Filter) {
    && (f.policyVersion.None? || f.policyVersion.value == m.policyVersion)
    && (f.compilerVersion.None? || f.compilerVersion.value == m.compilerVersion)
    && Passes(f.context.actor, m.context.actor) && Passes(f.context.owner, m.context.owner)
    && Passes(f.context.instance, m.context.instance) && Passes(f.context.session, m.context.session)
    && Passes(f.context.thread, m.context.thread)
  }

  predicate IsCheckpointConsistent(m: Manifest) {
    && m.strategy == CheckpointConsistent && m.checkpointRef.Some? && m.checkpointRef.value != ""
    && m.epoch.Some? && m.epoch.value != "" && m.generation.Some? && m.generation.value >= 0
  }

  predicate Survives(m: Manifest, adapter: string, f: Filter) {
    && m.adapter == adapter && m.profile == "bootstrap" && m.audience == "runtime" && MatchesFilter(m, f)
    && (f.requirement == Some(RequireCheckpointConsistent) ==> IsCheckpointConsistent(m))
  }

  function Survivors(manifests: seq<Manifest>, adapter: string, f: Filter): (list: seq<Manifest>)
    ensures forall m :: m in list <==> m in manifests && Survives(m, adapter, f)
  {
    if manifests == [] then []
    else (if Survives(manifests[0], adapter, f) then [manifests[0]] else []) + Survivors(manifests[1..], adapter, f)
  }

  /** A runtime bootstrap of the adapter that agrees with every field the filter gives. */
  ghost predicate IsWanted(m: Manifest, adapter: string, f: Filter) {
    && m.adapter == adapter && m.profile == "bootstrap" && m.audience == "runtime"
    && (forall v :: f.policyVersion == Some(v) ==> m.policyVersion == v)
    && (forall v :: f.compilerVersion == Some(v) ==> m.compilerVersion == v)
    && (forall v :: f.context.actor == Some(v) ==> m.context.actor == Some(v))
    && (forall v :: f.context.owner == Some(v) ==> m.context.owner == Some(v))
    && (forall v :: f.context.instance == Some(v) ==> m.context.instance == Some(v))
    && (forall v :: f.context.session == Some(v) ==> m.context.session == Some(v))
    && (forall v :: f.context.thread == Some(v) ==> m.context.thread == Some(v))
    && (f.requirement == Some(RequireCheckpointConsistent) ==>
          && m.strategy == CheckpointConsistent && m.checkpointRef !in {None, Some("")} && m.epoch !in {None, Some("")}
          && m.generation.Some? && m.generation.value >= 0)
  }

  lemma SurvivesExactly(m: Manifest, adapter: string, f: Filter)
    ensures Survives(m, adapter, f) <==> IsWanted(m, adapter, f)
  {
    hide IsCheckpointConsistent;
    assert IsCheckpointConsistent(m) <==>
             && m.strategy == CheckpointConsistent && m.checkpointRef !in {None, Some("")}
             && m.epoch !in {None, Some("")} && m.generation.Some? && m.generation.value >= 0 by {
      ConsistentExactly(m);
    }
  }

  lemma ConsistentExactly(m: Manifest)
    ensures IsCheckpointConsistent(m) <==>
              && m.strategy == CheckpointConsistent && m.checkpointRef !in {None, Some("")}
              && m.epoch !in {None, Some("")} && m.generation.Some? && m.generation.value >= 0
  {
  }

  /** `matchesProjectionIdentityFilter`: only the context stays. */
  function IdentityOnly(f: Filter): Filter { Filter(None, None, f.context, None) }

  function ActorOf(c: Context): Option<string> { c.actor }
  function OwnerOf(c: Context): Option<string> { c.owner }
  function InstanceOf(c: Context): Option<string> { c.instance }
  function SessionOf(c: Context): Option<string> { c.session }
  function ThreadOf(c: Context): Option<string> { c.thread }

  function Values(list: seq<Manifest>, dimension: Context -> Option<string>): set<Option<string>> {
    set m | m in list :: dimension(m.context)
  }

  predicate DimensionIsAmbiguous(list: seq<Manifest>, f: Filter, dimension: Context -> Option<string>) {
    dimension(f.context).None? && |Values(list, dimension)| > 1
  }

  predicate SelectionIsAmbiguous(list: seq<Manifest>, f: Filter) {
    |list| > 1 &&
    (DimensionIsAmbiguous(list, f, ActorOf) || DimensionIsAmbiguous(list, f, OwnerOf)
     || DimensionIsAmbiguous(list, f, InstanceOf) || DimensionIsAmbiguous(list, f, SessionOf)
     || DimensionIsAmbiguous(list, f, ThreadOf))
  }

  lemma {:induction false} TwoValues(list: seq<Manifest>, dimension: Context -> Option<string>, a: Manifest,
                                     b: Manifest)
    requires a in list && b in list && dimension(a.context) != dimension(b.context)
    ensures |Values(list, dimension)| > 1
  {
    var values := Values(list, dimension);
    var others := values - {dimension(a.context)};
    assert dimension(a.context) in values && dimension(b.context) in others;
    assert values == others + {dimension(a.context)};
  }

  lemma OneValue(list: seq<Manifest>, dimension: Context -> Option<string>)
    requires list != [] && forall a, b :: a in list && b in list ==> dimension(a.context) == dimension(b.context)
    ensures |Values(list, dimension)| == 1
  {
    assert list[0] in list;
    assert Values(list, dimension) == {dimension(list[0].context)};
  }

  predicate Differs(list: seq<Manifest>, dimension: Context -> Option<string>) {
    exists a, b :: a in list && b in list && dimension(a.context) != dimension(b.context)
  }

  lemma DimensionShared(list: seq<Manifest>, f: Filter, dimension: Context -> Option<string>)
    requires forall m :: m in list ==> Passes(dimension(f.context), dimension(m.context))
    ensures list != [] ==>
              (DimensionIsAmbiguous(list, f, dimension) <==>
               Differs(list, dimension))
  {
    if a, b :| a in list && b in list && dimension(a.context) != dimension(b.context) {
      TwoValues(list, dimension, a, b);
      assert Passes(dimension(f.context), dimension(a.context)) && Passes(dimension(f.context), dimension(b.context));
    } else if list != [] {
      OneValue(list, dimension);
    }
  }

  /** The guard refuses exactly the lists whose members differ in context. */
  lemma GuardMeansOneContext(manifests: seq<Manifest>, adapter: string, f: Filter)
    ensures var list := Survivors(manifests, adapter, f); !SelectionIsAmbiguous(list, f) <==> ShareContext(list)
  {
    var list := Survivors(manifests, adapter, f);
    hide Survivors;
    if |list| > 1 {
      DimensionShared(list, f, ActorOf);
      DimensionShared(list, f, OwnerOf);
      DimensionShared(list, f, InstanceOf);
      DimensionShared(list, f, SessionOf);
      DimensionShared(list, f, ThreadOf);
      hide DimensionIsAmbiguous, Survives, Differs, ShareContext;
      ContextsDiffer(list);
    } else {
      assert forall a, b :: a in list && b in list ==> a == b;
    }
  }

  lemma ContextsDiffer(list: seq<Manifest>)
    ensures !ShareContext(list) <==>
              Differs(list, ActorOf) || Differs(list, OwnerOf) || Differs(list, InstanceOf)
                  || Differs(list, SessionOf) || Differs(list, ThreadOf)
  {
    if !ShareContext(list) {
      var a, b :| a in list && b in list && a.context != b.context;
      assert ActorOf(a.context) != ActorOf(b.context) || OwnerOf(a.context) != OwnerOf(b.context)
          || InstanceOf(a.context) != InstanceOf(b.context) || SessionOf(a.context) != SessionOf(b.context)
          || ThreadOf(a.context) != ThreadOf(b.context);
    }
  }

  /** `loadLatestProjectionRuntimeView`, given the survivors as the comparator sorted them. */
  function LoadLatest(manifests: seq<Manifest>, adapter: string, f: Filter,
                      sorted: seq<Manifest>): Result<Option<Manifest>>
  {
    if f.requirement.None? then Thrown("explicit consistency requirement")
    else
      var others := Survivors(manifests, adapter, IdentityOnly(f));
      if sorted == [] && f.requirement.value == RequireCheckpointConsistent
          && others != [] then Thrown("not checkpoint consistent")
      else if sorted == [] && f.compilerVersion.Some? && others != [] then Thrown("compiler version")
      else if sorted == [] && f.policyVersion.Some? && others != [] then Thrown("read policy version")
      else if SelectionIsAmbiguous(sorted, f) then Thrown("ambiguous")
      else if sorted == [] then Ok(None)
      else Ok(Some(sorted[0]))
  }

  /** Sorting keeps what the guard looks at. */
  lemma AmbiguityIgnoresOrder(list: seq<Manifest>, sorted: seq<Manifest>, f: Filter)
    requires multiset(sorted) == multiset(list)
    ensures SelectionIsAmbiguous(sorted, f) <==> SelectionIsAmbiguous(list, f)
  {
    assert |sorted| == |multiset(sorted)| == |list|;
    forall m ensures m in sorted <==> m in list {
      assert m in sorted <==> m in multiset(sorted);
      assert m in list <==> m in multiset(list);
    }
    SameValues(list, sorted, ActorOf);
    SameValues(list, sorted, OwnerOf);
    SameValues(list, sorted, InstanceOf);
    SameValues(list, sorted, SessionOf);
    SameValues(list, sorted, ThreadOf);
  }

  lemma SameValues(list: seq<Manifest>, sorted: seq<Manifest>, dimension: Context -> Option<string>)
    requires forall m :: m in sorted <==> m in list
    ensures Values(sorted, dimension) == Values(list, dimension)
  {
  }

  /** A manifest is returned exactly when the survivors of the filter are not empty and share one context. */
  lemma LatestExists(manifests: seq<Manifest>, adapter: string, f: Filter, sorted: seq<Manifest>)
    requires f.requirement.Some? && multiset(sorted) == multiset(Survivors(manifests, adapter, f))
    ensures var list, latest := Survivors(manifests, adapter, f), LoadLatest(manifests, adapter, f, sorted);
            && (latest.Ok? && latest.value.Some? <==> list != [] && ShareContext(list))
            && (latest.Ok? && latest.value.None? <==>
                  list == [] && (Survivors(manifests, adapter, IdentityOnly(f)) == []
                                 || (f.requirement.value == AllowMixedState && f.compilerVersion.None?
                                     && f.policyVersion.None?)))
  {
    var list := Survivors(manifests, adapter, f);
    GuardMeansOneContext(manifests, adapter, f);
    assert list == [] ==> ShareContext(list);
    hide Survives, Survivors, ShareContext, SelectionIsAmbiguous;
    AmbiguityIgnoresOrder(list, sorted, f);
    SameSize(list, sorted);
  }

  lemma SameSize(list: seq<Manifest>, sorted: seq<Manifest>)
    requires multiset(sorted) == multiset(list)
    ensures |sorted| == |list|
  {
    assert |sorted| == |multiset(sorted)|;
  }

  /**
   When the survivors hold no twisted triple, what is returned comes before every other survivor, is
   checkpoint-consistent if any is, and is the newest of its kind.
   */
  lemma LatestIsTheBest(manifests: seq<Manifest>, adapter: string, f: Filter, sorted: seq<Manifest>,
                        less: (string, string) -> bool)
    requires StrictOrder(less) && f.requirement.Some? && IdsDiffer(manifests)
    requires var list := Survivors(manifests, adapter, f);
             SortedBy(sorted, list, less) && multiset(sorted) == multiset(list) && Untwisted(list, less)
    requires LoadLatest(manifests, adapter, f, sorted).Ok? && LoadLatest(manifests, adapter, f, sorted).value.Some?
    ensures var list, latest := Survivors(manifests, adapter, f), LoadLatest(manifests, adapter, f, sorted).value.value;
            && latest in manifests && IsWanted(latest, adapter, f)
            && (forall m :: m in manifests && IsWanted(m, adapter, f) && m != latest ==> Precedes(latest, m, less))
            && ((exists m :: m in list && m.strategy == CheckpointConsistent) ==>
                  latest.strategy == CheckpointConsistent)
            && (forall m :: m in list && m.strategy == latest.strategy ==> m.compiledAt <= latest.compiledAt)
  {
    var list := Survivors(manifests, adapter, f);
    LatestExists(manifests, adapter, f, sorted);
    hide SelectionIsAmbiguous, Survives;
    assert IdsDiffer(list);
    HeadIsBest(sorted, list, less);
    SurvivesExactly(sorted[0], adapter, f);
    hide IsWanted, Precedes, Before;
    forall m | m in manifests && IsWanted(m, adapter, f) && m != sorted[0] ensures Precedes(sorted[0], m, less) {
      SurvivesExactly(m, adapter, f);
      BeforeExactly(sorted[0], m, less);
    }
  }
}
