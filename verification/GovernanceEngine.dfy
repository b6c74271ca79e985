/** packages/core/src/governance/engine.ts: the five promotion gates and the decision they lead to. */
module GovernanceEngine {
  import opened Prelude
  import opened GovernanceRecords

  datatype Gate = Structural | Evidence | Conflict | Policy | RatificationGate

  datatype GateResult = GateResult(gate: Gate, passed: bool, reason: string)

  /** Everything an evaluation reads. `normalize` is the statement normalisation, left uninterpreted. */
  datatype Case = Case(
    proposal: Proposal,
    store: CanonStore,
    worldConflict: bool,
    normalize: string -> string)
  {
    function Target(): Option<Canon> { FindTarget(store, proposal.target) }

    predicate HasShape() {
      && proposal.targetLayer == "canon"
      && proposal.candidateKind in CANON_KINDS
      && proposal.payload.kind.IsText(proposal.candidateKind)
      && (proposal.operation == Supersede || proposal.payload.statement.Text?)
    }

    predicate IsTargeted() { proposal.operation == Revise || proposal.operation == Supersede }

    predicate HasLegalTarget() {
      || (proposal.operation == Create && proposal.target.None?)
      || (IsTargeted() && proposal.target.Some? && Target().Some? && Target().value.kind == proposal.candidateKind
          && proposal.payload.kind.IsText(Target().value.kind))
    }

    /** An active record that a create of this proposal would contradict. */
    predicate Conflicts(record: Canon) {
      && proposal.payload.slot.Text? && proposal.payload.slot.text != ""
      && record.kind == proposal.candidateKind
      && record.state == Ratified
      && record.slot == proposal.payload.slot.text
    }

    predicate SaysTheSame(record: Canon) {
      proposal.payload.statement.Text? && normalize(record.statement) == normalize(proposal.payload.statement.text)
    }

    predicate SameSlot(record: Canon) { proposal.payload.slot.IsText(record.slot) }

    function StructuralGate(): GateResult {
      GateResult(Structural, HasShape() && HasLegalTarget(),
                 if !HasShape() then "structural_contract"
                 else if proposal.operation == Create
                   && proposal.target.Some? then "create_must_not_target_existing_record"
                 else if IsTargeted() && proposal.target.None? then "targeted_operations_require_target_ref"
                 else if Target().None? then "missing_target_record"
                 else if Target().value.kind != proposal.candidateKind
                   || !proposal.payload.kind.IsText(Target().value.kind)
                 then "target_kind_mismatch"
                 else "structural_contract")
    }

    function EvidenceGate(): GateResult { GateResult(Evidence, proposal.evidenceRefs != [], "evidence_presence") }

    function RatifiableGate(): GateResult {
      GateResult(RatificationGate, proposal.state == Proposed, "ratification_state_ready")
    }

    function CreateConflictGate(): GateResult {
      if exists k :: k in store && Conflicts(store[k]) && SaysTheSame(store[k])
                   && proposal.payload.statement.text != "" then
        GateResult(Conflict, false, "duplicate_active_canonical_claim")
      else if exists k :: k in store && Conflicts(store[k]) then
        GateResult(Conflict, false, "conflicting_active_canonical_claim")
      else GateResult(Conflict, true, "no_duplicate_canonical_claim")
    }

    function ReviseConflictGate(): GateResult {
      if Target().None? then GateResult(Conflict, false, "missing_target_record")
      else
        var target := Target().value;
        GateResult(Conflict,
                   target.kind == proposal.candidateKind && target.state == Ratified && SameSlot(target)
                     && !SaysTheSame(target),
                   if target.kind != proposal.candidateKind then "revision_kind_mismatch"
                   else if !SameSlot(target) then "revision_semantic_slot_mismatch"
                   else if SaysTheSame(target) then "revision_statement_unchanged"
                   else "target_record_revisable")
    }

    function SupersedeConflictGate(): GateResult {
      if Target().None? then GateResult(Conflict, false, "missing_target_record")
      else
        var target := Target().value;
        GateResult(Conflict, target.kind == proposal.candidateKind && target.state == Ratified,
                   if target.kind != proposal.candidateKind then "supersede_kind_mismatch"
                   else "target_record_supersedable")
    }

    function ConflictGate(): GateResult {
      if worldConflict then GateResult(Conflict, false, "active_world_conflict")
      else match proposal.operation
        case Create => CreateConflictGate()
        case Revise => ReviseConflictGate()
        case Supersede => SupersedeConflictGate()
    }

    function PolicyGate(): GateResult {
      if proposal.ownerRatificationRequired then GateResult(Policy, false, "owner_ratification_required")
      else GateResult(Policy, !proposal.publicSafe || proposal.targetLayer == "canon", "policy_baseline")
    }

    function Gates(): seq<GateResult> {
      [StructuralGate(), EvidenceGate(), ConflictGate()] + [PolicyGate()] + [RatifiableGate()]
    }
  }

  function Failed(results: seq<GateResult>): seq<GateResult> {
    if results == [] then []
    else (if results[0].passed then [] else [results[0]]) + Failed(results[1..])
  }

  predicate ShouldDefer(failed: seq<GateResult>) {
    |failed| == 1 && failed[0].gate == Policy && failed[0].reason == "owner_ratification_required"
  }

  function Decide(c: Case): Decision {
    var failed := Failed(c.Gates());
    if failed == [] then Approved else if ShouldDefer(failed) then Deferred else Rejected
  }

  /** The ratification record an evaluation produces; a failure diagnostic accompanies every other decision. */
  function Evaluate(c: Case, ratificationId: string, actor: string, now: int): Ratification {
    Ratification(ratificationId, c.proposal.id, Decide(c), actor, now)
  }

  predicate AllButPolicyPass(c: Case) {
    && c.StructuralGate().passed && c.proposal.evidenceRefs != [] && c.ConflictGate().passed
       && c.proposal.state == Proposed
  }

  lemma {:induction false} FailedMeaning(results: seq<GateResult>)
    ensures Failed(results) == [] <==> forall r :: r in results ==> r.passed
    ensures forall r :: r in Failed(results) ==> r in results
  {
    if results != [] {
      FailedMeaning(results[1..]);
      assert results == [results[0]] + results[1..];
    }
  }

  lemma {:induction false} FailedConcat(left: seq<GateResult>, right: seq<GateResult>)
    ensures Failed(left + right) == Failed(left) + Failed(right)
  {
    if left == [] {
      assert left + right == right;
    } else {
      var rest := left[1..];
      FailedConcat(rest, right);
      assert (left + right)[1..] == rest + right && (left + right)[0] == left[0];
      var head := if left[0].passed then [] else [left[0]];
      assert Failed(left + right) == head + Failed(rest + right);
      assert head + (Failed(rest) + Failed(right)) == (head + Failed(rest)) + Failed(right);
    }
  }

  /** The proposal is deferred when the policy gate, and nothing before or after it, asks for the owner. */
  lemma OnlyPolicyFails(before: seq<GateResult>, policy: GateResult, last: GateResult)
    requires policy.gate == Policy && last.gate != Policy && forall r :: r in before ==> r.gate != Policy
    ensures var failed := Failed(before + [policy] + [last]);
            && (failed == [] <==> Failed(before) == [] && policy.passed && last.passed)
            && (ShouldDefer(failed) <==>
                  Failed(before) == [] && !policy.passed && policy.reason == "owner_ratification_required"
                    && last.passed)
  {
    FailedConcat(before + [policy], [last]);
    FailedConcat(before, [policy]);
    FailedMeaning(before);
    if Failed(before) != [] { assert Failed(before)[0] in Failed(before); }
  }

  /** The decision in terms of the gates. */
  lemma DecisionByGates(c: Case)
    ensures Decide(c) == Approved <==> AllButPolicyPass(c) && !c.proposal.ownerRatificationRequired
    ensures Decide(c) == Deferred <==> AllButPolicyPass(c) && c.proposal.ownerRatificationRequired
  {
    var before := [c.StructuralGate(), c.EvidenceGate(), c.ConflictGate()];
    OnlyPolicyFails(before, c.PolicyGate(), c.RatifiableGate());
    FailedMeaning(before);
    assert before[0] in before && before[1] in before && before[2] in before;
    assert before[0].passed ==> c.proposal.targetLayer == "canon";
  }

  // ---------------------------------------------------------------- in the fields of the case

  /** A claim for canon of a known kind, with a textual statement unless it only retires. */
  ghost predicate ClaimsForCanon(p: Proposal) {
    && p.targetLayer == "canon" && p.candidateKind in CANON_KINDS && p.payload.kind == Text(p.candidateKind)
    && (p.operation != Supersede ==> exists statement :: p.payload.statement == Text(statement))
  }

  /** The proposal refers to `r`, which is stored as a record of its kind. */
  predicate RefersTo(p: Proposal, store: CanonStore, r: Canon) {
    && r.kind == p.candidateKind && p.target.Some? && p.target.value.layer == "canon"
    && CanonKey(p.target.value.kind, p.target.value.id) in store
    && store[CanonKey(p.target.value.kind, p.target.value.id)] == r
  }

  /** A new claim has no target, and no active record has its kind and slot. */
  ghost predicate OpensFreeSlot(p: Proposal, store: CanonStore) {
    && p.target == None
    && forall k :: k in store ==>
         !(store[k].state == Ratified && store[k].kind == p.candidateKind && store[k].slot != ""
           && p.payload.slot == Text(store[k].slot))
  }

  /** A revision changes what an active record says about its slot; statements are compared in normal form. */
  ghost predicate ChangesActiveRecord(p: Proposal, store: CanonStore, normalize: string -> string) {
    exists k :: k in store && RefersTo(p, store, store[k]) && store[k].state == Ratified
                && p.payload.slot == Text(store[k].slot)
                && forall statement :: p.payload.statement == Text(statement) ==>
                     normalize(store[k].statement) != normalize(statement)
  }

  ghost predicate RetiresActiveRecord(p: Proposal, store: CanonStore) {
    exists k :: k in store && RefersTo(p, store, store[k]) && store[k].state == Ratified
  }

  /** Nothing but the owner can keep the proposal from being promoted. */
  ghost predicate IsPromotable(c: Case) {
    var p := c.proposal;
    && ClaimsForCanon(p) && |p.evidenceRefs| > 0 && p.state == Proposed && !c.worldConflict
    && match p.operation
       case Create => OpensFreeSlot(p, c.store)
       case Revise => ChangesActiveRecord(p, c.store, c.normalize)
       case Supersede => RetiresActiveRecord(p, c.store)
  }

  lemma TargetMeaning(c: Case, r: Canon)
    ensures c.Target() == Some(r) && r.kind == c.proposal.candidateKind <==> RefersTo(c.proposal, c.store, r)
  {
  }

  lemma CreateIsPromotable(c: Case)
    requires c.proposal.operation == Create
    ensures AllButPolicyPass(c) <==> IsPromotable(c)
  {
    hide FindTarget;
    assert c.CreateConflictGate().passed <==> !exists k :: k in c.store && c.Conflicts(c.store[k]);
    assert forall k :: k in c.store ==>
      (c.Conflicts(c.store[k]) <==>
       c.store[k].state == Ratified && c.store[k].kind == c.proposal.candidateKind && c.store[k].slot != ""
       && c.proposal.payload.slot == Text(c.store[k].slot));
  }

  lemma TargetedIsPromotable(c: Case)
    requires c.proposal.operation != Create
    ensures AllButPolicyPass(c) <==> IsPromotable(c)
  {
    if c.Target().Some? {
      TargetMeaning(c, c.Target().value);
      var key := CanonKey(c.proposal.target.value.kind, c.proposal.target.value.id);
      assert c.store[key] == c.Target().value;
      assert forall k :: k in c.store && RefersTo(c.proposal, c.store, c.store[k]) ==> c.store[k] == c.store[key];
    }
  }

  /**
   A proposal is approved when it is promotable and does not require the owner, deferred when it is promotable and
   does, and rejected otherwise: in the fields of the proposal and of the stored records.
   */
  lemma DecisionMeaning(c: Case)
    ensures Decide(c) == Approved <==> IsPromotable(c) && !c.proposal.ownerRatificationRequired
    ensures Decide(c) == Deferred <==> IsPromotable(c) && c.proposal.ownerRatificationRequired
  {
    DecisionByGates(c);
    hide *;
    if c.proposal.operation == Create { CreateIsPromotable(c); } else { TargetedIsPromotable(c); }
  }
}
