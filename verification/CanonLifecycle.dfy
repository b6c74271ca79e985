/**
 The canon as a state machine: every step evaluates a proposal against the whole canon and, when all gates pass,
 writes the records the canon engine produces (packages/core/src/workflow-engine/pipeline.ts:1301-1335).
 */
module CanonLifecycle {
  import opened Prelude
  import opened GovernanceRecords
  import opened CanonEngine
  import GE = GovernanceEngine

  datatype Request = Request(
    proposal: Proposal,
    worldConflict: bool,
    actor: string,
    ratificationId: string,
    canonicalId: string,
    now: int)

  /** `executeCanonicalProposalWorkflow` and the writes of its result. A refused or throwing step writes nothing. */
  function Step(store: CanonStore, request: Request, normalize: string -> string): CanonStore {
    var c := GE.Case(request.proposal, store, request.worldConflict, normalize);
    var ratification := GE.Evaluate(c, request.ratificationId, request.actor, request.now);
    if ratification.decision != Approved then store
    else
      var applied := ApplyProposal(request.proposal, ratification, c.Target(), request.canonicalId, request.now);
      if applied.Ok? then WriteAll(store, Records(applied.value)) else store
  }

  function Run(store: CanonStore, requests: seq<Request>, normalize: string -> string): CanonStore
    decreases |requests|
  {
    if requests == [] then store else Run(Step(store, requests[0], normalize), requests[1..], normalize)
  }

  // ---------------------------------------------------------------- the invariant

  predicate HasId(store: CanonStore, id: string) { exists k :: k in store && k.id == id }

  ghost predicate WellKeyed(store: CanonStore) { forall k :: k in store ==> KeyOf(store[k]) == k }

  ghost predicate IdsUnique(store: CanonStore) { forall j, k :: j in store && k in store && j.id == k.id ==> j == k }

  /** Both records are active claims about one slot. */
  predicate Rivals(a: Canon, b: Canon) {
    a.state == Ratified && b.state == Ratified && a.kind == b.kind && a.slot == b.slot
  }

  /** At most one active record for each kind and semantic slot. */
  ghost predicate OneRatified(store: CanonStore) {
    forall j, k :: j in store && k in store && Rivals(store[j], store[k]) ==> j == k
  }

  /** `later` was created as the successor of `earlier`. */
  ghost predicate Succeeds(store: CanonStore, later: string, earlier: string) {
    exists k :: k in store && k.id == later && store[k].supersedes == Some(earlier)
  }

  ghost predicate ReplacedBy(store: CanonStore, earlier: string, later: string) {
    exists k :: k in store && k.id == earlier && store[k].supersededBy == Some(later)
  }

  /** `supersedes_ref` and `superseded_by_ref` are inverse to each other. */
  ghost predicate LinksInverse(store: CanonStore) {
    forall a, b :: Succeeds(store, a, b) <==> ReplacedBy(store, b, a)
  }

  ghost predicate IsChain(store: CanonStore, chain: seq<string>) {
    forall i :: 0 <= i < |chain| - 1 ==> Succeeds(store, chain[i], chain[i + 1])
  }

  ghost predicate Acyclic(store: CanonStore) {
    forall chain :: |chain| >= 2 && IsChain(store, chain) ==> chain[0] != chain[|chain| - 1]
  }

  /** An active record is the end of its chain, and only superseded records were replaced. */
  ghost predicate ActiveIsLast(store: CanonStore) {
    forall k :: k in store && store[k].supersededBy.Some? ==> store[k].state == Superseded
  }

  /** A replaced record shares kind and slot with its successor. */
  ghost predicate ChainsKeepSlot(store: CanonStore) {
    forall j, k :: j in store && k in store && store[j].supersedes == Some(k.id) ==>
      store[j].kind == store[k].kind && store[j].slot == store[k].slot
  }

  ghost predicate Valid(store: CanonStore) {
    && WellKeyed(store) && IdsUnique(store) && OneRatified(store) && LinksInverse(store) && Acyclic(store)
    && ActiveIsLast(store) && ChainsKeepSlot(store)
  }

  // ---------------------------------------------------------------- what a step does

  /** A new record that continues nothing. */
  ghost predicate Creates(before: CanonStore, after: CanonStore, r: Canon) {
    && !HasId(before, r.id) && after == before[KeyOf(r) := r]
    && r.state == Ratified && r.supersedes == None && r.supersededBy == None
  }

  /** A new record that replaces `prior`, which is closed. */
  ghost predicate Replaces(before: CanonStore, after: CanonStore, r: Canon, prior: Canon, closed: Canon) {
    && !HasId(before, r.id) && KeyOf(prior) in before && before[KeyOf(prior)] == prior
    && r.kind == prior.kind && r.state == Ratified && r.supersedes == Some(prior.id) && r.supersededBy == None
    && closed == prior.(updatedAt := closed.updatedAt, state := Superseded, temporal := closed.temporal,
                      supersededBy := Some(r.id), upstreamRefs := closed.upstreamRefs)
    && after == before[KeyOf(r) := r][KeyOf(closed) := closed]
  }

  /** `prior` is closed without a replacement. */
  ghost predicate Retires(before: CanonStore, after: CanonStore, prior: Canon, closed: Canon) {
    && KeyOf(prior) in before && before[KeyOf(prior)] == prior
    && closed == prior.(updatedAt := closed.updatedAt, state := Superseded, temporal := closed.temporal,
                      supersededBy := None, upstreamRefs := closed.upstreamRefs)
    && after == before[KeyOf(closed) := closed]
  }

  lemma CreateKeepsValid(before: CanonStore, after: CanonStore, r: Canon)
    requires Valid(before) && Creates(before, after, r)
    requires forall k :: k in before ==> !Rivals(before[k], r)
    ensures Valid(after)
  {
    var key := KeyOf(r);
    assert key !in before;
    forall a, b ensures Succeeds(after, a, b) <==> Succeeds(before, a, b) { SameLinks(before, after, a, b, key); }
    forall a, b ensures ReplacedBy(after, a, b) <==> ReplacedBy(before, a, b) { SameLinks(before, after, b, a, key); }
    AcyclicFollows(before, after);
    NothingSucceedsFresh(before, r.id);
  }

  /** Adding an unlinked record changes no link. */
  lemma SameLinks(before: CanonStore, after: CanonStore, a: string, b: string, key: CanonKey)
    requires key !in before && key in after && after[key].supersedes == None && after[key].supersededBy == None
    requires after == before[key := after[key]]
    ensures Succeeds(after, a, b) <==> Succeeds(before, a, b)
    ensures ReplacedBy(after, b, a) <==> ReplacedBy(before, b, a)
  {
    if Succeeds(before, a, b) {
      var k :| k in before && k.id == a && before[k].supersedes == Some(b);
      assert k in after && after[k] == before[k];
    }
    if ReplacedBy(before, b, a) {
      var k :| k in before && k.id == b && before[k].supersededBy == Some(a);
      assert k in after && after[k] == before[k];
    }
  }

  lemma AcyclicFollows(before: CanonStore, after: CanonStore)
    requires Acyclic(before) && forall a, b :: Succeeds(after, a, b) ==> Succeeds(before, a, b)
    ensures Acyclic(after)
  {
    forall chain | |chain| >= 2 && IsChain(after, chain) ensures chain[0] != chain[|chain| - 1] {
      assert IsChain(before, chain);
    }
  }

  /** No record can already refer to an id that is not in use. */
  lemma NothingSucceedsFresh(store: CanonStore, id: string)
    requires Valid(store) && !HasId(store, id)
    ensures forall a :: !Succeeds(store, a, id) && !Succeeds(store, id, a)
    ensures forall a :: !ReplacedBy(store, a, id) && !ReplacedBy(store, id, a)
    ensures forall k :: k in store ==> store[k].supersedes != Some(id) && store[k].supersededBy != Some(id)
  {
    forall a ensures !Succeeds(store, a, id) && !ReplacedBy(store, a, id) {
      assert Succeeds(store, a, id) <==> ReplacedBy(store, id, a);
      assert ReplacedBy(store, a, id) <==> Succeeds(store, id, a);
    }
    forall k | k in store ensures store[k].supersedes != Some(id) && store[k].supersededBy != Some(id) {
      if store[k].supersedes == Some(id) { assert Succeeds(store, k.id, id); }
      if store[k].supersededBy == Some(id) { assert ReplacedBy(store, k.id, id); }
    }
  }

  /** What a replacement does to the links: it adds the one from the successor to the replaced record. */
  lemma ReplaceLinks(before: CanonStore, after: CanonStore, r: Canon, prior: Canon, closed: Canon, a: string, b: string)
    requires Valid(before) && Replaces(before, after, r, prior, closed) && prior.supersededBy == None
    ensures Succeeds(after, a, b) <==> Succeeds(before, a, b) || (a == r.id && b == prior.id)
    ensures ReplacedBy(after, b, a) <==> ReplacedBy(before, b, a) || (a == r.id && b == prior.id)
  {
    hide Acyclic, ChainsKeepSlot, OneRatified, LinksInverse, IdsUnique;
    assert KeyOf(r) !in before && KeyOf(closed) == KeyOf(prior) && KeyOf(r) != KeyOf(prior);
    if Succeeds(before, a, b) {
      var k :| k in before && k.id == a && before[k].supersedes == Some(b);
      assert k in after && after[k].supersedes == Some(b);
    }
    if ReplacedBy(before, b, a) {
      var k :| k in before && k.id == b && before[k].supersededBy == Some(a);
      assert k != KeyOf(prior);
      assert k in after && after[k].supersededBy == Some(a);
    }
    if a == r.id && b == prior.id {
      assert after[KeyOf(r)].supersedes == Some(b);
      assert after[KeyOf(prior)].supersededBy == Some(a);
    }
  }

  lemma ReplaceKeepsAcyclic(before: CanonStore, after: CanonStore, r: Canon, prior: Canon, closed: Canon)
    requires Valid(before) && Replaces(before, after, r, prior, closed) && prior.supersededBy == None
    ensures Acyclic(after)
  {
    NothingSucceedsFresh(before, r.id);
    forall chain | |chain| >= 2 && IsChain(after, chain) ensures chain[0] != chain[|chain| - 1] {
      forall i | 1 <= i < |chain| ensures chain[i] != r.id {
        assert Succeeds(after, chain[i - 1], chain[i]);
        ReplaceLinks(before, after, r, prior, closed, chain[i - 1], chain[i]);
      }
      if chain[0] == chain[|chain| - 1] {
        forall i | 0 <= i < |chain| - 1 ensures Succeeds(before, chain[i], chain[i + 1]) {
          ReplaceLinks(before, after, r, prior, closed, chain[i], chain[i + 1]);
        }
        assert IsChain(before, chain);
      }
    }
  }

  lemma ReplaceKeepsOneRatified(before: CanonStore, after: CanonStore, r: Canon, prior: Canon, closed: Canon)
    requires WellKeyed(before) && OneRatified(before) && Replaces(before, after, r, prior, closed)
    requires forall k :: k in before && k != KeyOf(prior) ==> !Rivals(before[k], r)
    ensures WellKeyed(after) && OneRatified(after)
  {
    assert KeyOf(closed) == KeyOf(prior);
    forall j, k | j in after && k in after && Rivals(after[j], after[k]) ensures j == k {
      assert j != KeyOf(prior) && k != KeyOf(prior);
    }
  }

  lemma ReplaceKeepsRest(before: CanonStore, after: CanonStore, r: Canon, prior: Canon, closed: Canon)
    requires Valid(before) && Replaces(before, after, r, prior, closed) && prior.supersededBy == None
             && r.slot == prior.slot
    ensures IdsUnique(after) && ActiveIsLast(after) && ChainsKeepSlot(after)
  {
    hide Acyclic, LinksInverse, OneRatified, Succeeds, ReplacedBy;
    assert KeyOf(closed) == KeyOf(prior) && KeyOf(r) !in before;
    NothingSucceedsFresh(before, r.id);
    assert forall k :: k in after && k != KeyOf(r) ==> k in before && k.id != r.id;
  }

  lemma ReplaceKeepsValid(before: CanonStore, after: CanonStore, r: Canon, prior: Canon, closed: Canon)
    requires Valid(before) && Replaces(before, after, r, prior, closed) && prior.supersededBy == None
             && r.slot == prior.slot
    requires forall k :: k in before && k != KeyOf(prior) ==> !Rivals(before[k], r)
    ensures Valid(after)
  {
    ReplaceKeepsOneRatified(before, after, r, prior, closed);
    ReplaceKeepsAcyclic(before, after, r, prior, closed);
    ReplaceKeepsRest(before, after, r, prior, closed);
    assert LinksInverse(after) by {
      forall a, b ensures Succeeds(after, a, b) <==> ReplacedBy(after, b, a) {
        ReplaceLinks(before, after, r, prior, closed, a, b);
      }
    }
  }

  lemma RetireLinks(before: CanonStore, after: CanonStore, prior: Canon, closed: Canon, a: string, b: string)
    requires Valid(before) && Retires(before, after, prior, closed) && prior.supersededBy == None
    ensures Succeeds(after, a, b) <==> Succeeds(before, a, b)
    ensures ReplacedBy(after, b, a) <==> ReplacedBy(before, b, a)
  {
    assert KeyOf(closed) == KeyOf(prior);
    assert forall k :: k in before ==> k in after && after[k].supersedes == before[k].supersedes
                                       && after[k].supersededBy == before[k].supersededBy;
    assert forall k :: k in after ==> k in before;
  }

  lemma RetireKeepsValid(before: CanonStore, after: CanonStore, prior: Canon, closed: Canon)
    requires Valid(before) && Retires(before, after, prior, closed) && prior.supersededBy == None
    ensures Valid(after)
  {
    assert KeyOf(closed) == KeyOf(prior);
    forall a, b
      ensures Succeeds(after, a, b) <==> Succeeds(before, a, b)
      ensures ReplacedBy(after, b, a) <==> ReplacedBy(before, b, a)
    {
      RetireLinks(before, after, prior, closed, a, b);
    }
    AcyclicFollows(before, after);
  }

  // ---------------------------------------------------------------- one step

  function CaseOf(store: CanonStore, request: Request, normalize: string -> string): GE.Case {
    GE.Case(request.proposal, store, request.worldConflict, normalize)
  }

  function OutcomeOf(store: CanonStore, request: Request, normalize: string -> string): Result<Applied> {
    var c := CaseOf(store, request, normalize);
    ApplyProposal(request.proposal, GE.Evaluate(c, request.ratificationId, request.actor, request.now), c.Target(),
                  request.canonicalId, request.now)
  }

  predicate Accepted(store: CanonStore, request: Request, normalize: string -> string) {
    GE.Decide(CaseOf(store, request, normalize)) == Approved
  }

  /** The record makes the claim of the payload. */
  predicate Claims(r: Canon, payload: Payload) { payload.statement.IsText(r.statement) && payload.slot.IsText(r.slot) }

  /** An accepted proposal is applied unless it makes a claim without statement or slot; only then the engine throws. */
  lemma AcceptedProposalApplies(store: CanonStore, request: Request, normalize: string -> string)
    requires WellKeyed(store) && Accepted(store, request, normalize)
    ensures OutcomeOf(store, request, normalize).Ok? <==>
            request.proposal.operation == Supersede || HasClaim(request.proposal.payload)
  {
    GE.DecisionByGates(CaseOf(store, request, normalize));
  }

  lemma AcceptedCreate(store: CanonStore, request: Request, normalize: string -> string)
    requires WellKeyed(store) && !HasId(store, request.canonicalId)
    requires Accepted(store, request, normalize) && OutcomeOf(store, request, normalize).Ok?
    requires request.proposal.operation == Create
    ensures OutcomeOf(store, request, normalize).value.created.Some?
    ensures var r := OutcomeOf(store, request, normalize).value.created.value;
            && Creates(store, Step(store, request, normalize), r)
            && (forall k :: k in store ==> !Rivals(store[k], r)) && Claims(r, request.proposal.payload)
            && r.createdAt == request.now && r.temporal == Some(PayloadTemporal(request.proposal.payload, request.now))
  {
    var c := CaseOf(store, request, normalize);
    GE.DecisionByGates(c);
    var r := OutcomeOf(store, request, normalize).value.created.value;
    assert Records(OutcomeOf(store, request, normalize).value) == [r];
    assert WriteAll(store, [r]) == Write(store, r) by { assert [r][1..] == []; }
    forall k | k in store ensures !Rivals(store[k], r) {
      assert !c.Conflicts(store[k]);
    }
  }

  /** What the engine returns for a revision, whatever the store. */
  lemma RevisionShape(proposal: Proposal, ratification: Ratification, prior: Canon, id: string, now: int)
    requires ApplyProposal(proposal, ratification, Some(prior), id, now).Ok? && proposal.operation == Revise
    ensures var applied := ApplyProposal(proposal, ratification, Some(prior), id, now).value;
            && applied.created.Some? && |applied.updated| == 1
            && (var r, closed := applied.created.value, applied.updated[0];
                && r.id == id && r.kind == prior.kind && r.state == Ratified && Claims(r, proposal.payload)
                && r.supersedes == Some(prior.id) && r.supersededBy == None
                && r.createdAt == now && r.temporal == Some(PayloadTemporal(proposal.payload, now))
                && closed == prior.(updatedAt := now, state := Superseded, temporal := closed.temporal,
                                    supersededBy := Some(id), upstreamRefs := closed.upstreamRefs)
                && closed.temporal == Some(CloseAtSuccessor(prior, r, now)))
  {
  }

  lemma AcceptedRevise(store: CanonStore, request: Request, normalize: string -> string)
    requires WellKeyed(store) && !HasId(store, request.canonicalId)
    requires Accepted(store, request, normalize) && OutcomeOf(store, request, normalize).Ok?
    requires request.proposal.operation == Revise
    ensures CaseOf(store, request, normalize).Target().Some?
    ensures |OutcomeOf(store, request, normalize).value.updated| == 1
    ensures OutcomeOf(store, request, normalize).value.created.Some?
    ensures var prior := CaseOf(store, request, normalize).Target().value;
            var r, closed := OutcomeOf(store, request, normalize).value.created.value,
                             OutcomeOf(store, request, normalize).value.updated[0];
            && Replaces(store, Step(store, request, normalize), r, prior, closed)
            && prior.state == Ratified && r.slot == prior.slot && Claims(r, request.proposal.payload)
            && r.createdAt == request.now && r.temporal == Some(PayloadTemporal(request.proposal.payload, request.now))
            && closed.temporal == Some(CloseAtSuccessor(prior, r, request.now))
  {
    hide ApplyProposal, GE.Decide;
    var c := CaseOf(store, request, normalize);
    GE.DecisionByGates(c);
    var applied := OutcomeOf(store, request, normalize).value;
    assert c.Target().Some? && c.Target().value.state == Ratified && c.SameSlot(c.Target().value);
    RevisionShape(request.proposal, GE.Evaluate(c, request.ratificationId, request.actor, request.now),
                  c.Target().value,
                  request.canonicalId, request.now);
    var r, closed := applied.created.value, applied.updated[0];
    assert Records(applied) == [r, closed];
    WriteTwo(store, r, closed);
  }

  lemma WriteTwo(store: CanonStore, first: Canon, second: Canon)
    ensures WriteAll(store, [first, second]) == Write(Write(store, first), second)
  {
    assert [first, second][1..] == [second] && [second][1..] == [];
    assert WriteAll(Write(store, first), [second]) == Write(Write(store, first), second);
  }

  lemma AcceptedSupersede(store: CanonStore, request: Request, normalize: string -> string)
    requires WellKeyed(store)
    requires Accepted(store, request, normalize) && OutcomeOf(store, request, normalize).Ok?
    requires request.proposal.operation == Supersede
    ensures CaseOf(store, request, normalize).Target().Some?
    ensures |OutcomeOf(store, request, normalize).value.updated| == 1
    ensures var prior := CaseOf(store, request, normalize).Target().value;
            var closed := OutcomeOf(store, request, normalize).value.updated[0];
            && (prior.supersededBy == None ==> Retires(store, Step(store, request, normalize), prior, closed))
            && prior.state == Ratified && closed.temporal == Some(Close(prior, request.now))
  {
    var c := CaseOf(store, request, normalize);
    GE.DecisionByGates(c);
    var applied := OutcomeOf(store, request, normalize).value;
    var closed := applied.updated[0];
    assert Records(applied) == [closed];
    assert WriteAll(store, [closed]) == Write(store, closed) by { assert [closed][1..] == []; }
  }

  predicate Acts(store: CanonStore, request: Request, normalize: string -> string) {
    Accepted(store, request, normalize) && OutcomeOf(store, request, normalize).Ok?
  }

  /**
   A step writes exactly when the proposal is promotable, does not require the owner, and carries a claim or retires.
   */
  lemma ActsExactly(store: CanonStore, request: Request, normalize: string -> string)
    requires WellKeyed(store)
    ensures Acts(store, request, normalize) <==>
            && GE.IsPromotable(CaseOf(store, request, normalize)) && !request.proposal.ownerRatificationRequired
            && (request.proposal.operation == Supersede || HasClaim(request.proposal.payload))
  {
    if Accepted(store, request, normalize) { AcceptedProposalApplies(store, request, normalize); }
    GE.DecisionMeaning(CaseOf(store, request, normalize));
    hide GE.Decide, GE.IsPromotable, OutcomeOf;
  }

  /** The four things a step can do to the canon. */
  datatype Change = NoChange | Created(r: Canon) | Replaced(r: Canon, prior: Canon, closed: Canon)
                  | Retired(prior: Canon, closed: Canon)

  ghost predicate Describes(change: Change, before: CanonStore, after: CanonStore, payload: Payload, now: int) {
    match change
    case NoChange => after == before
    case Created(r) =>
      && Creates(before, after, r) && (forall k :: k in before ==> !Rivals(before[k], r)) && Claims(r, payload)
      && r.createdAt == now && r.temporal == Some(PayloadTemporal(payload, now))
    case Replaced(r, prior, closed) =>
      && Replaces(before, after, r, prior, closed) && prior.state == Ratified && r.slot == prior.slot
         && Claims(r, payload)
      && r.createdAt == now && r.temporal == Some(PayloadTemporal(payload, now))
      && closed.temporal == Some(CloseAtSuccessor(prior, r, now))
    case Retired(prior, closed) =>
      && Retires(before, after, prior, closed) && prior.state == Ratified
      && closed.temporal == Some(Close(prior, now))
  }

  /** Every step is one of them; a refused or throwing request changes nothing. */
  lemma StepChange(store: CanonStore, request: Request, normalize: string -> string) returns (change: Change)
    requires Valid(store) && !HasId(store, request.canonicalId)
    ensures Describes(change, store, Step(store, request, normalize), request.proposal.payload, request.now)
    ensures change == NoChange <==> !Acts(store, request, normalize)
    ensures change.Created? ==> request.proposal.operation == Create
    ensures change.Replaced? ==>
              request.proposal.operation == Revise && CaseOf(store, request, normalize).Target() == Some(change.prior)
    ensures change.Retired? ==>
              request.proposal.operation == Supersede
                && CaseOf(store, request, normalize).Target() == Some(change.prior)
  {
    if !Acts(store, request, normalize) {
      change := NoChange;
    } else {
      var applied, target := OutcomeOf(store, request, normalize).value, CaseOf(store, request, normalize).Target();
      match request.proposal.operation {
        case Create =>
          AcceptedCreate(store, request, normalize);
          change := Created(applied.created.value);
        case Revise =>
          AcceptedRevise(store, request, normalize);
          change := Replaced(applied.created.value, target.value, applied.updated[0]);
        case Supersede =>
          AcceptedSupersede(store, request, normalize);
          change := Retired(target.value, applied.updated[0]);
      }
    }
  }

  lemma ChangeKeepsValid(change: Change, before: CanonStore, after: CanonStore, payload: Payload, now: int)
    requires Valid(before) && Describes(change, before, after, payload, now)
    ensures Valid(after)
  {
    match change {
      case NoChange =>
      case Created(r) => CreateKeepsValid(before, after, r);
      case Replaced(r, prior, closed) =>
        assert forall k :: k in before && k != KeyOf(prior) ==> !Rivals(before[k], prior);
        ReplaceKeepsValid(before, after, r, prior, closed);
      case Retired(prior, closed) => RetireKeepsValid(before, after, prior, closed);
    }
  }

  // ---------------------------------------------------------------- validity intervals

  ghost predicate Ordered(store: CanonStore) {
    forall k :: k in store && store[k].state == Superseded ==> OrderedInterval(store[k].temporal)
  }

  predicate OrderedInterval(temporal: Option<Temporal>) {
    && temporal.Some? && temporal.value.validFrom.Some? && temporal.value.validTo.Some?
    && temporal.value.validFrom.value <= temporal.value.validTo.value
  }

  predicate StartsWith(payload: Payload, from: int) {
    payload.temporal.Some? && payload.temporal.value.validFrom.Some? && from <= payload.temporal.value.validFrom.value
  }

  /**
   Replacing a record leaves an ordered interval exactly when it started by now or its successor starts no earlier.
   */
  lemma ReplacedIntervalIsOrdered(prior: Canon, r: Canon, payload: Payload, now: int)
    requires r.temporal == Some(PayloadTemporal(payload, now))
    ensures OrderedInterval(Some(CloseAtSuccessor(prior, r, now))) <==>
              prior.Start() <= now || StartsWith(payload, prior.Start())
  {
  }

  /** The two intervals meet exactly when the successor does not start before its predecessor, or starts now. */
  lemma ReplacedIntervalsMeet(prior: Canon, r: Canon, now: int)
    requires r.temporal.Some? && r.createdAt == now
    ensures CloseAtSuccessor(prior, r, now).validTo == Some(r.Start()) <==>
              prior.Start() <= r.Start() || r.Start() == now
  {
  }

  /** Retiring a record leaves an ordered interval exactly when it started by now. */
  lemma RetiredIntervalIsOrdered(prior: Canon, now: int)
    ensures OrderedInterval(Some(Close(prior, now))) <==> prior.Start() <= now
  {
  }

  /** A successor that starts no earlier than its predecessor starts exactly when the predecessor ends. */
  ghost predicate IntervalsMeet(store: CanonStore) {
    forall j, k ::
      j in store && k in store && store[j].supersedes == Some(k.id) && store[k].Start() <= store[j].Start() ==>
        store[k].temporal.Some? && store[k].temporal.value.validTo == Some(store[j].Start())
  }

  lemma NothingSucceedsActive(store: CanonStore, prior: Canon, j: CanonKey)
    requires Valid(store) && KeyOf(prior) in store && store[KeyOf(prior)] == prior && prior.state == Ratified
             && j in store
    ensures store[j].supersedes != Some(prior.id)
  {
    hide Acyclic, OneRatified, ChainsKeepSlot;
    assert !ReplacedBy(store, prior.id, j.id);
    assert !Succeeds(store, j.id, prior.id);
  }

  lemma ReplaceKeepsMeeting(before: CanonStore, after: CanonStore, r: Canon, prior: Canon, closed: Canon, now: int)
    requires Valid(before) && Replaces(before, after, r, prior, closed) && prior.state == Ratified
             && IntervalsMeet(before)
    requires r.temporal.Some? && r.createdAt == now && closed.temporal == Some(CloseAtSuccessor(prior, r, now))
    ensures IntervalsMeet(after)
  {
    hide Acyclic, OneRatified, ChainsKeepSlot;
    NothingSucceedsFresh(before, r.id);
    ReplacedIntervalsMeet(prior, r, now);
    assert KeyOf(closed) == KeyOf(prior) && closed.Start() == prior.Start();
    forall j, k | j in after && k in after && after[j].supersedes == Some(k.id) && after[k].Start() <= after[j].Start()
      ensures after[k].temporal.Some? && after[k].temporal.value.validTo == Some(after[j].Start())
    {
      if j == KeyOf(r) {
        assert k.id == prior.id;
      } else {
        NothingSucceedsActive(before, prior, j);
        assert k != KeyOf(r);
      }
    }
  }

  lemma RetireKeepsMeeting(before: CanonStore, after: CanonStore, prior: Canon, closed: Canon, now: int)
    requires Valid(before) && Retires(before, after, prior, closed) && prior.state == Ratified && IntervalsMeet(before)
    requires closed.temporal == Some(Close(prior, now))
    ensures IntervalsMeet(after)
  {
    hide Acyclic, OneRatified, ChainsKeepSlot;
    assert KeyOf(closed) == KeyOf(prior) && closed.Start() == prior.Start();
    forall j, k | j in after && k in after && after[j].supersedes == Some(k.id) && after[k].Start() <= after[j].Start()
      ensures after[k].temporal.Some? && after[k].temporal.value.validTo == Some(after[j].Start())
    {
      NothingSucceedsActive(before, prior, j);
    }
  }

  lemma ChangeKeepsMeeting(change: Change, before: CanonStore, after: CanonStore, payload: Payload, now: int)
    requires Valid(before) && Describes(change, before, after, payload, now) && IntervalsMeet(before)
    ensures IntervalsMeet(after)
  {
    match change {
      case NoChange =>
      case Created(r) => NothingSucceedsFresh(before, r.id);
      case Replaced(r, prior, closed) => ReplaceKeepsMeeting(before, after, r, prior, closed, now);
      case Retired(prior, closed) => RetireKeepsMeeting(before, after, prior, closed, now);
    }
  }

  // ---------------------------------------------------------------- history

  /** Nothing is deleted or rewritten: records keep their claim and their origin, and closed records keep everything. */
  ghost predicate Extends(before: CanonStore, after: CanonStore) {
    forall k :: k in before ==>
      && k in after
      && after[k].statement == before[k].statement && after[k].slot == before[k].slot
      && after[k].createdAt == before[k].createdAt && after[k].supersedes == before[k].supersedes
      && after[k].Start() == before[k].Start()
      && (before[k].state != Ratified ==> after[k] == before[k])
  }

  lemma ChangeExtends(change: Change, before: CanonStore, after: CanonStore, payload: Payload, now: int)
    requires Valid(before) && Describes(change, before, after, payload, now)
    ensures Extends(before, after)
  {
    hide Acyclic, ChainsKeepSlot, OneRatified, LinksInverse, IdsUnique, ActiveIsLast;
  }

  lemma ExtendsIsTransitive(a: CanonStore, b: CanonStore, c: CanonStore)
    requires Extends(a, b) && Extends(b, c)
    ensures Extends(a, c)
  {
  }

  // ---------------------------------------------------------------- runs

  /** Every request brings a fresh id. */
  ghost predicate FreshIds(store: CanonStore, requests: seq<Request>, normalize: string -> string)
    decreases |requests|
  {
    requests != [] ==>
      !HasId(store, requests[0].canonicalId) && FreshIds(Step(store, requests[0], normalize), requests[1..], normalize)
  }

  /**
   The canon after any run of serial steps: one active record for each slot, inverse links, acyclic chains that
   end in the active record, adjacent intervals that meet, and nothing lost.
   */
  lemma {:induction false} RunKeepsValid(store: CanonStore, requests: seq<Request>, normalize: string -> string)
    requires Valid(store) && FreshIds(store, requests, normalize)
    ensures Valid(Run(store, requests, normalize))
    ensures IntervalsMeet(store) ==> IntervalsMeet(Run(store, requests, normalize))
    ensures Extends(store, Run(store, requests, normalize))
    decreases |requests|
  {
    hide Valid, IntervalsMeet, Extends, Step, Describes;
    if requests == [] {
      ExtendsItself(store);
    } else {
      var first, next := requests[0], Step(store, requests[0], normalize);
      var change := StepChange(store, first, normalize);
      ChangeKeepsValid(change, store, next, first.proposal.payload, first.now);
      if IntervalsMeet(store) { ChangeKeepsMeeting(change, store, next, first.proposal.payload, first.now); }
      ChangeExtends(change, store, next, first.proposal.payload, first.now);
      RunKeepsValid(next, requests[1..], normalize);
      ExtendsIsTransitive(store, next, Run(store, requests, normalize));
    }
  }

  lemma ExtendsItself(store: CanonStore)
    ensures Extends(store, store)
  {
  }

  // ---------------------------------------------------------------- when closed intervals are ordered

  /** A record that the request closes has started by now, or its successor starts no earlier. */
  predicate ClosesInOrder(store: CanonStore, request: Request, normalize: string -> string) {
    var target, payload := CaseOf(store, request, normalize).Target(), request.proposal.payload;
    Acts(store, request, normalize) && request.proposal.operation != Create && target.Some? ==>
      || target.value.Start() <= request.now
      || (request.proposal.operation == Revise && StartsWith(payload, target.value.Start()))
  }

  ghost predicate InOrderThroughout(store: CanonStore, requests: seq<Request>, normalize: string -> string)
    decreases |requests|
  {
    requests != [] ==>
      ClosesInOrder(store, requests[0], normalize)
        && InOrderThroughout(Step(store, requests[0], normalize), requests[1..], normalize)
  }

  predicate LeavesInOrder(change: Change) {
    match change
    case Replaced(_, _, closed) => OrderedInterval(closed.temporal)
    case Retired(_, closed) => OrderedInterval(closed.temporal)
    case _ => true
  }

  lemma ChangeOrders(change: Change, before: CanonStore, after: CanonStore, payload: Payload, now: int)
    requires Valid(before) && Describes(change, before, after, payload, now)
    ensures Ordered(after) <==> Ordered(before) && LeavesInOrder(change)
  {
    hide Acyclic, LinksInverse, OneRatified, ChainsKeepSlot, ActiveIsLast, IdsUnique, OrderedInterval;
    match change {
      case NoChange =>
      case Created(r) =>
        assert KeyOf(r) !in before;
        assert forall k :: k in before ==> after[k] == before[k];
      case Replaced(r, prior, closed) =>
        assert KeyOf(r) !in before && KeyOf(closed) == KeyOf(prior);
        assert forall k :: k in before && k != KeyOf(prior) ==> after[k] == before[k];
        assert after[KeyOf(prior)] == closed;
      case Retired(prior, closed) =>
        assert KeyOf(closed) == KeyOf(prior);
        assert forall k :: k in before && k != KeyOf(prior) ==> after[k] == before[k];
        assert after[KeyOf(prior)] == closed;
    }
  }

  lemma StepOrders(store: CanonStore, request: Request, normalize: string -> string)
    requires Valid(store) && !HasId(store, request.canonicalId)
    ensures Ordered(Step(store, request, normalize)) <==> Ordered(store) && ClosesInOrder(store, request, normalize)
  {
    var change := StepChange(store, request, normalize);
    ChangeOrders(change, store, Step(store, request, normalize), request.proposal.payload, request.now);
    hide Valid, Ordered, Step, Acts, Replaces, Retires, Creates, OrderedInterval;
    match change {
      case NoChange =>
      case Created(r) =>
      case Replaced(r, prior, closed) => ReplacedIntervalIsOrdered(prior, r, request.proposal.payload, request.now);
      case Retired(prior, closed) => RetiredIntervalIsOrdered(prior, request.now);
    }
  }

  /**
   After any run every closed record has an ordered interval exactly when it had one before and every step that closes
   a record closes one that has started by then, or gives it a successor that starts no earlier.
   */
  lemma {:induction false} RunOrdersExactly(store: CanonStore, requests: seq<Request>, normalize: string -> string)
    requires Valid(store) && FreshIds(store, requests, normalize)
    ensures Ordered(Run(store, requests, normalize)) <==>
              Ordered(store) && InOrderThroughout(store, requests, normalize)
    decreases |requests|
  {
    hide Valid, Ordered, Step, ClosesInOrder, Extends;
    if requests != [] {
      var first, next := requests[0], Step(store, requests[0], normalize);
      StepOrders(store, first, normalize);
      var change := StepChange(store, first, normalize);
      ChangeKeepsValid(change, store, next, first.proposal.payload, first.now);
      RunOrdersExactly(next, requests[1..], normalize);
    }
  }

  // ---------------------------------------------------------------- a clock that does not run backwards

  /** Every active record has started by `clock`. */
  ghost predicate ActiveStarted(store: CanonStore, clock: int) {
    forall k :: k in store && store[k].state == Ratified ==> store[k].Start() <= clock
  }

  /** The claim is not dated in the future. */
  predicate StartsBy(payload: Payload, now: int) {
    payload.temporal.Some? && payload.temporal.value.validFrom.Some? ==> payload.temporal.value.validFrom.value <= now
  }

  /** The clock never runs backwards and no claim is dated in the future. */
  ghost predicate Clocked(requests: seq<Request>, clock: int)
    decreases |requests|
  {
    requests != [] ==>
      && clock <= requests[0].now && StartsBy(requests[0].proposal.payload, requests[0].now)
      && Clocked(requests[1..], requests[0].now)
  }

  lemma ChangeKeepsStarted(change: Change, before: CanonStore, after: CanonStore, payload: Payload, clock: int,
                           now: int)
    requires Describes(change, before, after, payload, now)
    requires ActiveStarted(before, clock) && clock <= now && StartsBy(payload, now)
    ensures ActiveStarted(after, now)
  {
  }

  lemma StepKeepsStarted(store: CanonStore, request: Request, normalize: string -> string, clock: int)
    requires Valid(store) && !HasId(store, request.canonicalId) && ActiveStarted(store, clock)
    requires clock <= request.now && StartsBy(request.proposal.payload, request.now)
    ensures ClosesInOrder(store, request, normalize) && Valid(Step(store, request, normalize))
    ensures ActiveStarted(Step(store, request, normalize), request.now)
  {
    var change := StepChange(store, request, normalize);
    var next := Step(store, request, normalize);
    ChangeKeepsValid(change, store, next, request.proposal.payload, request.now);
    ChangeKeepsStarted(change, store, next, request.proposal.payload, clock, request.now);
    hide Step, Acts, CaseOf, Valid, Claims, Creates, Rivals, Close, CloseAtSuccessor, StartsBy;
  }

  /**
   With a monotone clock and no claim dated in the future every closing step closes in order, so after the run every
   closed record has an ordered interval.
   */
  lemma {:induction false} ClockedRunIsOrdered(store: CanonStore, requests: seq<Request>, normalize: string -> string,
                                               clock: int)
    requires Valid(store) && FreshIds(store, requests, normalize)
    requires ActiveStarted(store, clock) && Clocked(requests, clock)
    ensures InOrderThroughout(store, requests, normalize)
    ensures Ordered(store) ==> Ordered(Run(store, requests, normalize))
    decreases |requests|
  {
    hide Valid, Ordered, ActiveStarted, Step, ClosesInOrder, HasId, StartsBy;
    if requests != [] {
      StepKeepsStarted(store, requests[0], normalize, clock);
      ClockedRunIsOrdered(Step(store, requests[0], normalize), requests[1..], normalize, requests[0].now);
    }
    RunOrdersExactly(store, requests, normalize);
  }

  // ---------------------------------------------------------------- a claim dated in the future

  const DATED := Request(
    Proposal("prop_a", Create, "fact", "canon", None,
             Payload(Text("fact"), Text("statement"), Text("slot"), Some(Temporal("active", Some(10), None, None))),
             "reason", ["evidence"], false, true, Proposed),
    false, "owner", "rat_a", "mem_a", 1)

  const RETIRING := Request(
    Proposal("prop_b", Supersede, "fact", "canon", Some(Reference("mem_a", "fact", "canon")),
             Payload(Text("fact"), Absent, Text("slot"), None), "reason", ["evidence"], false, true, Proposed),
    false, "owner", "rat_b", "mem_b", 2)

  lemma EmptyIsValid()
    ensures Valid(map[]) && Ordered(map[])
  {
    forall chain | |chain| >= 2 ensures !IsChain(map[], chain) {
      assert !Succeeds(map[], chain[0], chain[1]);
    }
  }

  lemma DatedIsCreated(normalize: string -> string)
    ensures !HasId(map[], DATED.canonicalId)
    ensures var store := Step(map[], DATED, normalize);
            store.Keys == {CanonKey("fact", "mem_a")}
              && KeyOf(store[CanonKey("fact", "mem_a")]) == CanonKey("fact", "mem_a")
            && store[CanonKey("fact", "mem_a")].state == Ratified && store[CanonKey("fact", "mem_a")].Start() == 10
  {
    GE.DecisionByGates(CaseOf(map[], DATED, normalize));
    assert Accepted(map[], DATED, normalize);
    hide GE.Decide;
    AcceptedProposalApplies(map[], DATED, normalize);
    assert OutcomeOf(map[], DATED, normalize).value.created.value.id == "mem_a";
    AcceptedCreate(map[], DATED, normalize);
  }

  lemma RetiringActs(store: CanonStore, normalize: string -> string)
    requires WellKeyed(store) && store.Keys == {CanonKey("fact", "mem_a")}
    requires store[CanonKey("fact", "mem_a")].state == Ratified && store[CanonKey("fact", "mem_a")].Start() == 10
    ensures !HasId(store, RETIRING.canonicalId) && !ClosesInOrder(store, RETIRING, normalize)
  {
    var c := CaseOf(store, RETIRING, normalize);
    GE.DecisionByGates(c);
    assert c.Target() == Some(store[CanonKey("fact", "mem_a")]);
    assert Accepted(store, RETIRING, normalize);
    hide GE.Decide;
    AcceptedProposalApplies(store, RETIRING, normalize);
  }

  lemma DatedIsWellKeyed(normalize: string -> string)
    ensures WellKeyed(Step(map[], DATED, normalize))
  {
    DatedIsCreated(normalize);
    hide Step;
  }

  lemma TwoRequests(store: CanonStore, normalize: string -> string)
    requires store == Step(map[], DATED, normalize)
    requires !HasId(map[], DATED.canonicalId) && !HasId(store, RETIRING.canonicalId)
    requires !ClosesInOrder(store, RETIRING, normalize)
    ensures FreshIds(map[], [DATED, RETIRING], normalize) && !InOrderThroughout(map[], [DATED, RETIRING], normalize)
  {
    hide Step, ClosesInOrder, HasId;
    assert [DATED, RETIRING][1..] == [RETIRING] && [RETIRING][1..] == [];
    assert FreshIds(store, [RETIRING], normalize);
    assert !InOrderThroughout(store, [RETIRING], normalize);
  }

  /** A claim may be dated in the future, and its record may be retired before it starts. */
  lemma FutureClaimInvertsInterval(normalize: string -> string)
    ensures Valid(map[]) && Ordered(map[]) && FreshIds(map[], [DATED, RETIRING], normalize)
    ensures DATED.now <= RETIRING.now && !Ordered(Run(map[], [DATED, RETIRING], normalize))
  {
    EmptyIsValid();
    DatedIsCreated(normalize);
    assert DATED.now <= RETIRING.now;
    hide *;
    var store := Step(map[], DATED, normalize);
    DatedIsWellKeyed(normalize);
    RetiringActs(store, normalize);
    TwoRequests(store, normalize);
    RunOrdersExactly(map[], [DATED, RETIRING], normalize);
  }
}
