/**
 packages/core/src/session-continuity-store.ts: creating working-memory checkpoints. The lock of MkdirLock makes the
 creations serial; each can stop between its two writes, by a crash or because the second record is invalid.
 */
module SessionCheckpoints {
  import opened Prelude

  datatype CheckpointStatus = Active | Replaced | Invalidated

  /** What a checkpoint belongs to. */
  datatype Context = Context(instance: string, session: string, thread: string, epoch: string)

  datatype Checkpoint = Checkpoint(
    id: string,
    createdAt: int,
    context: Context,
    generation: int,
    policyVersion: string,
    policySnapshot: Option<string>,
    upstream: seq<string>,
    summary: Option<string>,
    status: CheckpointStatus,
    supersedes: Option<string>,
    supersededBy: Option<string>)

  /** By id: ids are looked up in all sessions before a checkpoint is written. */
  type Store = map<string, Checkpoint>

  datatype Input = Input(id: string, now: int, context: Context, generation: int, policyVersion: string,
                         policySnapshot: Option<string>, upstream: seq<string>, summary: Option<string>)

  predicate SameContract(c: Checkpoint, input: Input) {
    && c.status == Active && c.context == input.context && c.policyVersion == input.policyVersion
    && c.policySnapshot == input.policySnapshot && c.summary == input.summary && c.upstream == input.upstream
  }

  predicate Competes(c: Checkpoint, context: Context) { c.status == Active && c.context == context }

  /** `compareCheckpoint`: higher generation first, then newer; the order by id of full ties is left open. */
  predicate NotAfter(a: Checkpoint, b: Checkpoint) {
    a.generation > b.generation || (a.generation == b.generation && a.createdAt >= b.createdAt)
  }

  ghost predicate IsPrevious(store: Store, context: Context, previous: Option<Checkpoint>) {
    match previous
    case None => forall id :: id in store ==> !Competes(store[id], context)
    case Some(p) =>
      && p.id in store && store[p.id] == p && Competes(p, context)
      && forall id :: id in store && Competes(store[id], context) ==> NotAfter(p, store[id])
  }

  /** The rules of `validateWorkingMemoryCheckpoint` that a created or replaced checkpoint can break. */
  predicate ValidCheckpoint(c: Checkpoint, safe: string -> bool) {
    && safe(c.id) && safe(c.context.instance) && safe(c.context.session) && safe(c.context.thread)
       && safe(c.context.epoch)
    && c.policyVersion != "" && c.generation >= 1 && c.upstream != []
    && (forall i, j :: 0 <= i < j < |c.upstream| ==> c.upstream[i] != c.upstream[j])
    && (c.status == Active ==> c.supersededBy.None?)
    && (c.status == Replaced ==> c.supersededBy.Some? && c.supersededBy.value != "")
  }

  function Max(a: int, b: int): int { if a >= b then a else b }

  function NewCheckpoint(input: Input, previous: Option<Checkpoint>): Checkpoint {
    Checkpoint(input.id, input.now, input.context,
               if previous.Some? then Max(input.generation, previous.value.generation + 1) else input.generation,
               input.policyVersion, input.policySnapshot, input.upstream, input.summary, Active,
               if previous.Some? then Some(previous.value.id) else None, None)
  }

  function Closed(previous: Checkpoint, successor: string): Checkpoint {
    previous.(status := Replaced, supersededBy := Some(successor))
  }

  /** The records a creation writes, in order; none when the id is already there. */
  function PlanCreate(store: Store, input: Input, previous: Option<Checkpoint>): Result<seq<Checkpoint>> {
    if input.id in store then
      if SameContract(store[input.id], input) then Ok([])
      else Thrown("working memory checkpoint id already exists with a different checkpoint contract")
    else
      Ok((if previous.Some? then [Closed(previous.value, input.id)] else []) + [NewCheckpoint(input, previous)])
  }

  function WriteUpTo(store: Store, writes: seq<Checkpoint>, n: nat): Store
    requires n <= |writes|
    decreases n
  {
    if n == 0 then store else WriteUpTo(store, writes, n - 1)[writes[n - 1].id := writes[n - 1]]
  }

  /** A write of an invalid record throws, so only the valid records before it can be written. */
  predicate CanWrite(writes: seq<Checkpoint>, n: nat, safe: string -> bool) {
    n <= |writes| && forall i :: 0 <= i < n ==> ValidCheckpoint(writes[i], safe)
  }

  // ---------------------------------------------------------------- steps and runs

  /** A creation that stopped after `done` writes. */
  datatype Creation = Creation(input: Input, previous: Option<Checkpoint>, done: nat)

  ghost predicate Legal(store: Store, c: Creation, safe: string -> bool) {
    && IsPrevious(store, c.input.context, c.previous)
    && var plan := PlanCreate(store, c.input, c.previous); plan.Ok? ==> CanWrite(plan.value, c.done, safe)
  }

  function After(store: Store, c: Creation): Store {
    var plan := PlanCreate(store, c.input, c.previous);
    if plan.Ok? && c.done <= |plan.value| then WriteUpTo(store, plan.value, c.done) else store
  }

  /** It wrote everything it was to write, or nothing. */
  predicate Whole(store: Store, c: Creation) {
    var plan := PlanCreate(store, c.input, c.previous);
    plan.Ok? ==> c.done == 0 || c.done == |plan.value|
  }

  ghost predicate Run(store: Store, creations: seq<Creation>, safe: string -> bool)
    decreases |creations|
  {
    creations == [] || (Legal(store, creations[0], safe) && Run(After(store, creations[0]), creations[1..], safe))
  }

  function Final(store: Store, creations: seq<Creation>): Store
    decreases |creations|
  {
    if creations == [] then store else Final(After(store, creations[0]), creations[1..])
  }

  predicate AllWhole(store: Store, creations: seq<Creation>)
    decreases |creations|
  {
    creations == [] || (Whole(store, creations[0]) && AllWhole(After(store, creations[0]), creations[1..]))
  }

  // ---------------------------------------------------------------- what every state keeps

  predicate Keyed(store: Store) { forall id :: id in store ==> store[id].id == id }

  predicate OneActive(store: Store) {
    forall a, b :: a in store && b in store && store[a].status == Active && Competes(store[b], store[a].context) ==>
      a == b
  }

  /** A supersedes link leads to a replaced checkpoint of the same context with a smaller generation. */
  predicate LinksDescend(store: Store) {
    forall id :: id in store && store[id].supersedes.Some? ==> DescendsTo(store, store[id], store[id].supersedes.value)
  }

  predicate DescendsTo(store: Store, c: Checkpoint, prior: string) {
    && prior in store && store[prior].status != Active && store[prior].context == c.context
    && store[prior].generation < c.generation
  }

  predicate Sound(store: Store) { Keyed(store) && OneActive(store) && LinksDescend(store) }

  predicate IsPrior(previous: Option<Checkpoint>, id: string) { previous.Some? && previous.value.id == id }

  /**
   What a creation does to the store: it closes the previous checkpoint, and unless it stops there adds the new one.
   */
  ghost predicate Becomes(store: Store, after: Store, input: Input, previous: Option<Checkpoint>, adds: bool) {
    && input.id !in store && IsPrevious(store, input.context, previous) && (adds || previous.Some?)
    && (forall id :: id in after <==> id in store || (adds && id == input.id))
    && (forall id :: id in store ==>
          after[id] == if IsPrior(previous, id) then Closed(store[id], input.id) else store[id])
    && (adds ==> after[input.id] == NewCheckpoint(input, previous))
  }

  function Grown(store: Store, input: Input, previous: Option<Checkpoint>, adds: bool): Store {
    var closed := if previous.Some? then store[previous.value.id := Closed(previous.value, input.id)] else store;
    if adds then closed[input.id := NewCheckpoint(input, previous)] else closed
  }

  lemma AfterIsGrown(store: Store, c: Creation)
    requires PlanCreate(store, c.input, c.previous).Ok? && c.done <= |PlanCreate(store, c.input, c.previous).value|
    requires After(store, c) != store
    ensures c.input.id !in store && After(store, c) == Grown(store, c.input, c.previous, Whole(store, c))
    ensures Whole(store, c) || c.previous.Some?
  {
    hide SameContract, Closed, NewCheckpoint;
    var writes := PlanCreate(store, c.input, c.previous).value;
    assert c.previous.Some? ==>
             Closed(c.previous.value, c.input.id).id
               == c.previous.value.id by { ClosedKeepsId(c.previous, c.input.id); }
    assert NewCheckpoint(c.input, c.previous).id == c.input.id by { NewHasId(c.input, c.previous); }
    if c.done > 0 { WriteOne(store, writes, 0); }
    if c.done == 2 { WriteOne(store, writes, 1); }
  }

  lemma ClosedKeepsId(previous: Option<Checkpoint>, id: string)
    ensures previous.Some? ==> Closed(previous.value, id).id == previous.value.id
  {
  }

  lemma NewHasId(input: Input, previous: Option<Checkpoint>)
    ensures NewCheckpoint(input, previous).id == input.id
  {
  }

  lemma CreationShape(store: Store, c: Creation, safe: string -> bool)
    requires Keyed(store) && Legal(store, c, safe) && After(store, c) != store
    ensures Becomes(store, After(store, c), c.input, c.previous, Whole(store, c))
  {
    AfterIsGrown(store, c);
    hide After, PlanCreate, Whole, NewCheckpoint, Closed, CanWrite, Competes, NotAfter;
  }

  /**
   The stored checkpoint of a creation: what was given, linked to the previous one, and of the given generation or,
   if that is not above the previous one's, of the next.
   */
  ghost predicate IsCheckpointOf(c: Checkpoint, input: Input, previous: Option<Checkpoint>) {
    && c.id == input.id && c.createdAt == input.now && c.context == input.context
    && c.policyVersion == input.policyVersion && c.policySnapshot == input.policySnapshot
    && c.upstream == input.upstream && c.summary == input.summary && c.status == Active && c.supersededBy == None
    && match previous
       case None => c.supersedes == None && c.generation == input.generation
       case Some(p) =>
         && c.supersedes == Some(p.id)
         && (input.generation > p.generation ==> c.generation == input.generation)
         && (input.generation <= p.generation ==> c.generation == p.generation + 1)
  }

  /** Which records a creation changes, and how, where it stops after any of its writes. */
  lemma CreationExactly(store: Store, c: Creation, safe: string -> bool)
    requires Keyed(store) && Legal(store, c, safe) && After(store, c) != store
    ensures var after, input := After(store, c), c.input;
            && input.id !in store
            && (forall id :: id in store ==>
                  id in after
                  && if IsPrior(c.previous, id)
                     then after[id].status == Replaced && after[id].supersededBy == Some(input.id)
                          && SameFacts(store[id], after[id])
                     else after[id] == store[id])
            && (forall id :: id in after ==> id in store || id == input.id)
            && (input.id in after <==> Whole(store, c))
            && (Whole(store, c) ==> IsCheckpointOf(after[input.id], input, c.previous))
  {
    CreationShape(store, c, safe);
    hide After, Legal, Whole, IsPrevious;
  }

  /** When the validator lets a creation write all over a valid previous checkpoint, by the fields of the call. */
  lemma CreatesExactly(store: Store, input: Input, previous: Option<Checkpoint>, safe: string -> bool)
    requires input.id !in store && (previous.Some? ==> ValidCheckpoint(previous.value, safe))
    ensures var plan := PlanCreate(store, input, previous);
            && plan.Ok?
            && (CanWrite(plan.value, |plan.value|, safe) <==>
                  && safe(input.id) && safe(input.context.instance) && safe(input.context.session)
                  && safe(input.context.thread) && safe(input.context.epoch)
                  && input.policyVersion != "" && input.upstream != []
                  && (forall i, j :: 0 <= i < j < |input.upstream| ==> input.upstream[i] != input.upstream[j])
                  && (if previous.Some? then input.id != "" else input.generation >= 1))
  {
    var writes := PlanCreate(store, input, previous).value;
    assert previous.Some? ==> writes[0] == Closed(previous.value, input.id);
    assert writes[|writes| - 1] == NewCheckpoint(input, previous);
  }

  lemma AddingKeepsOneActive(store: Store, after: Store, input: Input, previous: Option<Checkpoint>, adds: bool)
    requires Keyed(store) && OneActive(store) && Becomes(store, after, input, previous, adds)
    ensures Keyed(after) && OneActive(after)
  {
    assert forall id :: id in store && Competes(store[id], input.context) ==> IsPrior(previous, id);
    assert forall id :: id in after && id in store ==> !Competes(after[id], input.context);
  }

  lemma AddingKeepsDescent(store: Store, after: Store, input: Input, previous: Option<Checkpoint>, adds: bool)
    requires LinksDescend(store) && Becomes(store, after, input, previous, adds)
    ensures LinksDescend(after)
  {
    forall id | id in after && after[id].supersedes.Some?
      ensures DescendsTo(after, after[id], after[id].supersedes.value) {
      if id in store { assert DescendsTo(store, store[id], store[id].supersedes.value); }
    }
  }

  lemma CreationKeepsSound(store: Store, c: Creation, safe: string -> bool)
    requires Sound(store) && Legal(store, c, safe)
    ensures Sound(After(store, c))
  {
    if After(store, c) != store {
      CreationShape(store, c, safe);
      var adds := Whole(store, c);
      hide After, Becomes, Legal, Whole, OneActive, LinksDescend;
      AddingKeepsOneActive(store, After(store, c), c.input, c.previous, adds);
      AddingKeepsDescent(store, After(store, c), c.input, c.previous, adds);
    }
  }

  /**
   In every reachable state, with creations stopped anywhere, each context has at most one active checkpoint and
   generations strictly increase along the supersedes links.
   */
  lemma {:induction false} RunKeepsSound(store: Store, creations: seq<Creation>, safe: string -> bool)
    requires Sound(store) && Run(store, creations, safe)
    ensures Sound(Final(store, creations))
    decreases |creations|
  {
    hide Sound, Legal, After;
    if creations != [] {
      CreationKeepsSound(store, creations[0], safe);
      RunKeepsSound(After(store, creations[0]), creations[1..], safe);
    }
  }

  // ---------------------------------------------------------------- what whole creations keep

  /** Every context that has a checkpoint has an active one, and its generation is the highest. */
  predicate ActiveIsHighest(store: Store) {
    forall id {:trigger HasTop(store, store[id])} :: id in store ==> HasTop(store, store[id])
  }

  predicate HasTop(store: Store, c: Checkpoint) { exists a :: a in store && IsTop(store[a], c) }

  predicate IsTop(a: Checkpoint, c: Checkpoint) { Competes(a, c.context) && c.generation <= a.generation }

  /** The links are inverse to each other. */
  predicate LinksInverse(store: Store) {
    && (forall id :: id in store && store[id].supersededBy.Some? ==>
          PointsBack(store, store[id].supersededBy.value, id))
    && (forall id :: id in store && store[id].supersedes.Some? ==> PointsForth(store, store[id].supersedes.value, id))
    && (forall id :: id in store && store[id].status == Active ==> store[id].supersededBy.None?)
  }

  predicate PointsBack(store: Store, later: string, id: string) {
    later in store && store[later].supersedes == Some(id)
  }

  predicate PointsForth(store: Store, prior: string, id: string) {
    prior in store && store[prior].supersededBy == Some(id)
  }

  predicate Healthy(store: Store) { Sound(store) && ActiveIsHighest(store) && LinksInverse(store) }

  lemma AddingKeepsHighest(store: Store, after: Store, input: Input, previous: Option<Checkpoint>)
    requires ActiveIsHighest(store) && Becomes(store, after, input, previous, true)
    ensures ActiveIsHighest(after)
  {
    forall id | id in after ensures HasTop(after, after[id]) {
      var a := input.id;
      if id in store {
        assert HasTop(store, store[id]);
        a :| a in store && IsTop(store[a], store[id]);
      }
      TopAfter(store, after, input, previous, id, a);
    }
  }

  lemma TopAfter(store: Store, after: Store, input: Input, previous: Option<Checkpoint>, id: string, a: string)
    requires Becomes(store, after, input, previous, true) && id in after
    requires id in store ==> a in store && IsTop(store[a], store[id])
    ensures HasTop(after, after[id])
  {
    var t := if id !in store || Competes(store[a], input.context) then input.id else a;
    assert t in after && IsTop(after[t], after[id]);
  }

  lemma AddingKeepsInverse(store: Store, after: Store, input: Input, previous: Option<Checkpoint>)
    requires Keyed(store) && LinksInverse(store) && Becomes(store, after, input, previous, true)
    ensures LinksInverse(after)
  {
    forall id | id in after && after[id].supersededBy.Some?
      ensures PointsBack(after, after[id].supersededBy.value, id) {
      if !IsPrior(previous, id) { assert PointsBack(store, store[id].supersededBy.value, id); }
    }
    forall id | id in after && after[id].supersedes.Some? ensures PointsForth(after, after[id].supersedes.value, id) {
      if id in store { assert PointsForth(store, store[id].supersedes.value, id); }
    }
  }

  /** A creation keeps the store healthy exactly when it does not stop between its two writes. */
  lemma HealthyExactlyWhenWhole(store: Store, c: Creation, safe: string -> bool)
    requires Healthy(store) && Legal(store, c, safe)
    ensures Healthy(After(store, c)) <==> Whole(store, c)
  {
    CreationKeepsSound(store, c, safe);
    if After(store, c) != store {
      CreationShape(store, c, safe);
      if Whole(store, c) {
        hide Becomes, Legal, After, Whole, OneActive, ActiveIsHighest, LinksInverse, LinksDescend, Keyed;
        AddingKeepsHighest(store, After(store, c), c.input, c.previous);
        AddingKeepsInverse(store, After(store, c), c.input, c.previous);
      } else {
        ClosingLeavesNoActive(store, After(store, c), c.input, c.previous);
      }
    } else {
      UnchangedIsWhole(store, c, safe);
    }
  }

  lemma UnchangedIsWhole(store: Store, c: Creation, safe: string -> bool)
    requires Keyed(store) && Legal(store, c, safe) && After(store, c) == store
    ensures Whole(store, c)
  {
    var plan := PlanCreate(store, c.input, c.previous);
    if plan.Ok? && plan.value != [] && 0 < c.done { WriteOne(store, plan.value, 0); }
  }

  lemma ClosingLeavesNoActive(store: Store, after: Store, input: Input, previous: Option<Checkpoint>)
    requires OneActive(store) && Becomes(store, after, input, previous, false)
    ensures forall id :: id in after ==> !Competes(after[id], input.context)
    ensures !ActiveIsHighest(after)
  {
    forall id | id in after ensures !Competes(after[id], input.context) {
      assert Competes(store[id], input.context) ==> IsPrior(previous, id);
    }
    var p := previous.value;
    assert p.id in after && after[p.id].context == input.context;
    assert !HasTop(after, after[p.id]);
  }

  /** In runs without a stop in between, the active checkpoint of a context is its highest, and links are inverse. */
  lemma {:induction false} WholeRunKeepsHealthy(store: Store, creations: seq<Creation>, safe: string -> bool)
    requires Healthy(store) && Run(store, creations, safe) && AllWhole(store, creations)
    ensures Healthy(Final(store, creations))
    decreases |creations|
  {
    hide Healthy, Legal, After, Whole;
    if creations != [] {
      HealthyExactlyWhenWhole(store, creations[0], safe);
      WholeRunKeepsHealthy(After(store, creations[0]), creations[1..], safe);
    }
  }

  // ---------------------------------------------------------------- what never changes

  /** Only the status and the link to the successor of a checkpoint change. */
  predicate SameFacts(c: Checkpoint, d: Checkpoint) { d.(status := c.status, supersededBy := c.supersededBy) == c }

  predicate Extends(store: Store, later: Store) {
    forall id :: id in store ==> id in later && SameFacts(store[id], later[id])
  }

  lemma CreationExtends(store: Store, c: Creation, safe: string -> bool)
    requires Sound(store) && Legal(store, c, safe)
    ensures Extends(store, After(store, c))
  {
    if After(store, c) != store {
      CreationShape(store, c, safe);
    }
  }

  /** What a creation adds or changes is a valid record. */
  lemma CreationWritesValid(store: Store, c: Creation, safe: string -> bool)
    requires Keyed(store) && Legal(store, c, safe)
    ensures forall id :: id in After(store, c) ==>
              (id in store && After(store, c)[id] == store[id]) || ValidCheckpoint(After(store, c)[id], safe)
  {
    hide ValidCheckpoint, IsPrevious, NewCheckpoint, Closed;
    var plan := PlanCreate(store, c.input, c.previous);
    if plan.Ok? { WritesAreValid(store, plan.value, c.done, safe); }
  }

  lemma {:induction false} WritesAreValid(store: Store, writes: seq<Checkpoint>, n: nat, safe: string -> bool)
    requires CanWrite(writes, n, safe)
    ensures forall id :: id in WriteUpTo(store, writes, n) ==>
              (id in store && WriteUpTo(store, writes, n)[id] == store[id])
                  || ValidCheckpoint(WriteUpTo(store, writes, n)[id], safe)
  {
    if n > 0 { WritesAreValid(store, writes, n - 1, safe); }
  }

  /** In every run the facts of a checkpoint stay as they were written. */
  lemma {:induction false} RunExtends(store: Store, creations: seq<Creation>, safe: string -> bool)
    requires Sound(store) && Run(store, creations, safe)
    ensures Extends(store, Final(store, creations))
    decreases |creations|
  {
    hide Sound, Legal, After;
    if creations != [] {
      CreationKeepsSound(store, creations[0], safe);
      CreationExtends(store, creations[0], safe);
      RunExtends(After(store, creations[0]), creations[1..], safe);
    }
  }

  // ---------------------------------------------------------------- calling again

  lemma PlanOnExisting(store: Store, input: Input, before: Option<Checkpoint>, again: Input,
                       previous: Option<Checkpoint>)
    requires again.id == input.id && again.id in store && store[again.id] == NewCheckpoint(input, before)
    ensures var plan := PlanCreate(store, again, previous);
            if again.context == input.context && again.policyVersion == input.policyVersion
              && again.summary == input.summary
               && again.policySnapshot == input.policySnapshot && again.upstream == input.upstream
            then plan == Ok([]) else plan.Thrown?
  {
  }

  /** After a whole creation, the same call with any clock writes nothing; another contract under the id throws. */
  lemma RetryWritesNothing(store: Store, c: Creation, safe: string -> bool, again: Input, previous: Option<Checkpoint>)
    requires Sound(store) && Legal(store, c, safe) && c.input.id !in store
    requires PlanCreate(store, c.input, c.previous).Ok? && c.done == |PlanCreate(store, c.input, c.previous).value|
    requires again.id == c.input.id
    ensures var plan := PlanCreate(After(store, c), again, previous);
            if again.context == c.input.context && again.policyVersion == c.input.policyVersion
                && again.summary == c.input.summary
               && again.policySnapshot == c.input.policySnapshot && again.upstream == c.input.upstream
            then plan == Ok([]) else plan.Thrown?
  {
    AfterIsGrown(store, c);
    NewHasId(c.input, c.previous);
    assert After(store, c)[c.input.id] == NewCheckpoint(c.input, c.previous);
    hide After, WriteUpTo, Closed, Legal, Sound;
    PlanOnExisting(After(store, c), c.input, c.previous, again, previous);
  }

  /**
   After a stop between the two writes the same call finds no previous checkpoint: it writes one without a link, of
   the generation it was given, and that is the highest of its context exactly when no older one is above it.
   */
  lemma RetryAfterStopForgets(store: Store, c: Creation, safe: string -> bool, again: Creation)
    requires Sound(store) && Legal(store, c, safe) && !Whole(store, c)
    requires again.input == c.input && Legal(After(store, c), again, safe) && again.done == 1
    ensures again.previous == None
    ensures After(After(store, c), again) == After(store, c)[c.input.id := NewCheckpoint(c.input, None)]
    ensures (forall id :: id in store && store[id].context == c.input.context ==>
               store[id].generation <= c.input.generation) <==>
            (forall id ::
               id in After(After(store, c), again) && After(After(store, c), again)[id].context == c.input.context ==>
                 After(After(store, c), again)[id].generation <= c.input.generation)
  {
    HalfThenAgain(store, c, safe, again);
    hide After, Legal, Whole, Sound, IsPrevious;
    var half := After(store, c);
    var after := After(half, again);
    forall id | id in store ensures id in after && after[id].context == store[id].context
        && after[id].generation == store[id].generation {}
  }

  lemma HalfThenAgain(store: Store, c: Creation, safe: string -> bool, again: Creation)
    requires Sound(store) && Legal(store, c, safe) && !Whole(store, c)
    requires again.input == c.input && Legal(After(store, c), again, safe) && again.done == 1
    ensures again.previous == None && Becomes(store, After(store, c), c.input, c.previous, false)
    ensures After(After(store, c), again) == After(store, c)[c.input.id := NewCheckpoint(c.input, None)]
  {
    var half := After(store, c);
    if half == store { UnchangedIsWhole(store, c, safe); }
    CreationShape(store, c, safe);
    ClosingLeavesNoActive(store, half, c.input, c.previous);
    var late := PlanCreate(half, c.input, None).value;
    WriteOne(half, late, 0);
  }

  // ---------------------------------------------------------------- the procedure

  /** A store whose process dies when `budget` records have been written. */
  class CheckpointStore {
    var checkpoints: Store
    var budget: nat

    method WriteCoreRecord(c: Checkpoint, safe: string -> bool) returns (ok: bool)
      modifies this
      ensures ok == (ValidCheckpoint(c, safe) && old(budget) > 0)
      ensures checkpoints == if ok then old(checkpoints)[c.id := c] else old(checkpoints)
      ensures budget == if ok then old(budget) - 1 else old(budget)
    {
      ok := ValidCheckpoint(c, safe) && budget > 0;
      if ok {
        checkpoints := checkpoints[c.id := c];
        budget := budget - 1;
      }
    }

    /** The first active checkpoint of the context in the order of `compareCheckpoint`. */
    method PreviousActive(context: Context) returns (previous: Option<Checkpoint>)
      requires Keyed(checkpoints)
      ensures IsPrevious(checkpoints, context, previous)
      ensures previous.Some? ==> previous.value.id in checkpoints
    {
      previous := None;
      var remaining := checkpoints.Keys;
      while remaining != {}
        invariant remaining <= checkpoints.Keys
        invariant previous.Some? ==>
                    previous.value.id in checkpoints && checkpoints[previous.value.id] == previous.value
                                     && Competes(previous.value, context)
        invariant forall id :: id in checkpoints && id !in remaining && Competes(checkpoints[id], context) ==>
                    previous.Some? && NotAfter(previous.value, checkpoints[id])
        decreases |remaining|
      {
        var id :| id in remaining;
        if Competes(checkpoints[id], context) && (previous.None? || !NotAfter(previous.value, checkpoints[id])) {
          previous := Some(checkpoints[id]);
        }
        remaining := remaining - {id};
      }
    }

    method CreateWorkingMemoryCheckpoint(input: Input, safe: string -> bool)
        returns (result: Result<Checkpoint>, ghost c: Creation)
      requires Keyed(checkpoints)
      modifies this
      ensures c.input == input && Legal(old(checkpoints), c, safe)
      ensures checkpoints == After(old(checkpoints), c)
      ensures result.Ok? ==> Whole(old(checkpoints), c) && PlanCreate(old(checkpoints), input, c.previous).Ok?
                             && input.id in checkpoints && result.value == checkpoints[input.id]
    {
      hide ValidCheckpoint, IsPrevious, SameContract;
      var previous := PreviousActive(input.context);
      assert previous.Some? ==> previous.value.id in checkpoints;
      c := Creation(input, previous, 0);
      if input.id in checkpoints {
        if SameContract(checkpoints[input.id], input) { return Ok(checkpoints[input.id]), c; }
        return Thrown("working memory checkpoint id already exists with a different checkpoint contract"), c;
      }
      ghost var writes := PlanCreate(checkpoints, input, previous).value;
      var checkpoint := NewCheckpoint(input, previous);
      if previous.Some? {
        var closed := WriteCoreRecord(Closed(previous.value, input.id), safe);
        if !closed { return Thrown("write of the previous checkpoint failed"), c; }
        assert writes[0] == Closed(previous.value, input.id);
        c := Creation(input, previous, 1);
        assert checkpoints == WriteUpTo(old(checkpoints), writes, 1) by { WriteOne(old(checkpoints), writes, 0); }
      }
      var written := WriteCoreRecord(checkpoint, safe);
      if !written { return Thrown("write of the checkpoint failed"), c; }
      WriteOne(old(checkpoints), writes, c.done);
      c := Creation(input, previous, |writes|);
      result := Ok(checkpoint);
    }
  }

  lemma WriteOne(store: Store, writes: seq<Checkpoint>, n: nat)
    requires n < |writes|
    ensures WriteUpTo(store, writes, n + 1) == WriteUpTo(store, writes, n)[writes[n].id := writes[n]]
    ensures WriteUpTo(store, writes, 0) == store
  {
  }
}
