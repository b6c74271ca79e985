/** packages/core/src/canon/engine.ts: turning an approved proposal into canonical records. */
module CanonEngine {
  import opened Prelude
  import opened GovernanceRecords

  datatype Applied = Applied(created: Option<Canon>, updated: seq<Canon>)

  function CheckApproved(proposal: Proposal, ratification: Ratification): Result<()> {
    if proposal.targetLayer != "canon" then Thrown("proposal does not target canon")
    else if ratification.decision != Approved then Thrown("ratification is not approved")
    else if ratification.proposalRef != proposal.id then Thrown("ratification does not belong to proposal")
    else if proposal.state != Proposed then Thrown("proposal must be in proposed state")
    else Ok(())
  }

  function CheckCompatible(proposal: Proposal, existing: Canon): Result<()> {
    if proposal.candidateKind != existing.kind then Thrown("candidate_kind does not match")
    else if !proposal.payload.kind.Absent? && !proposal.payload.kind.IsText(existing.kind) then
      Thrown("candidate_payload.kind does not match")
    else if proposal.target.Some? && !Matches(proposal.target.value, existing) then Thrown("target_ref does not match")
    else Ok(())
  }

  function PayloadTemporal(payload: Payload, now: int): Temporal {
    if payload.temporal.Some? then payload.temporal.value else Temporal("active", Some(now), None, None)
  }

  function Close(record: Canon, validTo: int): Temporal {
    Temporal("historical", Some(record.Start()), Some(validTo),
             if record.temporal.Some? then record.temporal.value.confidence else None)
  }

  function CloseAtSuccessor(record: Canon, successor: Canon, now: int): Temporal {
    var successorFrom := if successor.temporal.Some? then successor.temporal.value.validFrom else None;
    Close(record, if successorFrom.Some? && successorFrom.value >= record.Start() then successorFrom.value else now)
  }

  function ApplyCreate(proposal: Proposal, ratification: Ratification, id: string, now: int): Result<Canon> {
    if proposal.operation != Create then Thrown("not a create operation")
    else
      var _ :- CheckApproved(proposal, ratification);
      var payload := proposal.payload;
      if !payload.statement.Text? || payload.statement.text == "" then Thrown("missing candidate_payload.statement")
      else if !payload.slot.Text? || payload.slot.text == "" then Thrown("missing candidate_payload.semantic_slot")
      else
        Ok(Canon(id, proposal.candidateKind, now, now, payload.statement.text, payload.slot.text, Ratified,
                 Some(PayloadTemporal(payload, now)), [proposal.id, ratification.id], None, None))
  }

  datatype Revision = Revision(revised: Canon, superseded: Canon)

  function ApplyRevise(proposal: Proposal, ratification: Ratification, existing: Canon, id: string, now: int)
    : Result<Revision>
  {
    var _ :- CheckApproved(proposal, ratification);
    if proposal.operation != Revise then Thrown("not a revise operation")
    else
      var _ :- CheckCompatible(proposal, existing);
      var asCreate := proposal.(operation := Create, candidateKind := existing.kind,
                                payload := proposal.payload.(kind := Text(existing.kind)));
      var created :- ApplyCreate(asCreate, ratification, id, now);
      var revised := created.(supersedes := Some(existing.id),
                              upstreamRefs := MergeRefs(created.upstreamRefs, [existing.id]));
      Ok(Revision(revised,
                  existing.(updatedAt := now, state := Superseded,
                            temporal := Some(CloseAtSuccessor(existing, revised, now)),
                            supersededBy := Some(revised.id),
                            upstreamRefs := MergeRefs(existing.upstreamRefs,
                                                      [proposal.id, ratification.id, revised.id]))))
  }

  /** Retirement without a replacement record. */
  function ApplySupersede(proposal: Proposal, ratification: Ratification, existing: Canon, now: int): Result<Canon> {
    var _ :- CheckApproved(proposal, ratification);
    if proposal.operation != Supersede then Thrown("not a supersede operation")
    else
      var _ :- CheckCompatible(proposal, existing);
      Ok(existing.(updatedAt := now, state := Superseded, temporal := Some(Close(existing, now)), supersededBy := None,
                   upstreamRefs := MergeRefs(existing.upstreamRefs, [proposal.id, ratification.id])))
  }

  function ApplyProposal(proposal: Proposal, ratification: Ratification, existing: Option<Canon>, id: string, now: int)
    : Result<Applied>
  {
    match proposal.operation
    case Create =>
      var created :- ApplyCreate(proposal, ratification, id, now);
      Ok(Applied(Some(created), []))
    case Revise =>
      if existing.None? then Thrown("revise requires an existing record")
      else
        var revision :- ApplyRevise(proposal, ratification, existing.value, id, now);
        Ok(Applied(Some(revision.revised), [revision.superseded]))
    case Supersede =>
      if existing.None? then Thrown("supersede requires an existing record")
      else
        var retired :- ApplySupersede(proposal, ratification, existing.value, now);
        Ok(Applied(None, [retired]))
  }

  function Write(store: CanonStore, record: Canon): CanonStore { store[KeyOf(record) := record] }

  function WriteAll(store: CanonStore, records: seq<Canon>): CanonStore
    decreases |records|
  {
    if records == [] then store else WriteAll(Write(store, records[0]), records[1..])
  }

  /** The records of an application in the order they are written. */
  function Records(applied: Applied): seq<Canon> {
    (if applied.created.Some? then [applied.created.value] else []) + applied.updated
  }

  // ---------------------------------------------------------------- what an application writes, field by field

  /** The refs are these, each once. */
  ghost predicate AreRefs(refs: seq<string>, expected: set<string>) {
    (forall r :: r in refs <==> r in expected) && forall i, j :: 0 <= i < j < |refs| ==> refs[i] != refs[j]
  }

  /** The record states the claim of the payload from the moment the payload gives, or from now. */
  predicate StatesClaim(r: Canon, p: Proposal, id: string, kind: string, now: int) {
    && r.id == id && r.kind == kind && r.createdAt == now && r.updatedAt == now && r.state == Ratified
    && p.payload.statement == Text(r.statement) && r.statement != "" && p.payload.slot == Text(r.slot) && r.slot != ""
    && r.supersededBy == None
    && r.temporal == (if p.payload.temporal.Some? then p.payload.temporal
                      else Some(Temporal("active", Some(now), None, None)))
  }

  /** The record is the earlier one, closed at `end`; nothing but its state, its end and its links changed. */
  ghost predicate IsClosedAt(closed: Canon, earlier: Canon, end: int, now: int, successor: Option<string>,
                       refs: set<string>)
  {
    && closed.id == earlier.id && closed.kind == earlier.kind && closed.createdAt == earlier.createdAt
    && closed.statement == earlier.statement && closed.slot == earlier.slot && closed.supersedes == earlier.supersedes
    && closed.updatedAt == now && closed.state == Superseded && closed.supersededBy == successor
    && closed.temporal.Some? && closed.temporal.value.status == "historical"
    && closed.temporal.value.validFrom == Some(earlier.Start()) && closed.temporal.value.validTo == Some(end)
    && closed.temporal.value.confidence == (if earlier.temporal.Some? then earlier.temporal.value.confidence else None)
    && AreRefs(closed.upstreamRefs, refs)
  }

  function SetOf(refs: seq<string>): set<string> { set r | r in refs }

  /** One new record, which continues nothing. */
  ghost predicate IsCreation(applied: Applied, p: Proposal, ratification: Ratification, id: string, now: int) {
    && applied.updated == [] && applied.created.Some?
    && var r := applied.created.value;
       && StatesClaim(r, p, id, p.candidateKind, now) && r.supersedes == None
       && r.upstreamRefs == [p.id, ratification.id]
  }

  /** A new record that continues `e`, and `e` closed where it starts, or now when that would be too early. */
  ghost predicate IsRevision(applied: Applied, p: Proposal, ratification: Ratification, e: Canon, id: string, now: int)
  {
    && |applied.updated| == 1 && applied.created.Some?
    && var r, from := applied.created.value, applied.created.value.Start();
       && StatesClaim(r, p, id, e.kind, now) && r.supersedes == Some(e.id)
       && AreRefs(r.upstreamRefs, {p.id, ratification.id, e.id})
       && IsClosedAt(applied.updated[0], e, if from >= e.Start() then from else now, now, Some(id),
                     SetOf(e.upstreamRefs) + {p.id, ratification.id, id})
  }

  /** `e` closed now. */
  ghost predicate IsRetirement(applied: Applied, p: Proposal, ratification: Ratification, e: Canon, now: int) {
    && |applied.updated| == 1 && applied.created.None?
    && IsClosedAt(applied.updated[0], e, now, now, None, SetOf(e.upstreamRefs) + {p.id, ratification.id})
  }

  lemma RevisionWrites(p: Proposal, ratification: Ratification, e: Canon, id: string, now: int)
    requires p.operation == Revise && ApplyProposal(p, ratification, Some(e), id, now).Ok?
    ensures IsRevision(ApplyProposal(p, ratification, Some(e), id, now).value, p, ratification, e, id, now)
  {
    hide MergeRefs;
    var r := ApplyProposal(p, ratification, Some(e), id, now).value.created.value;
    assert r.upstreamRefs == MergeRefs([p.id, ratification.id], [e.id]);
    MergedRefs([p.id, ratification.id], [e.id]);
    MergedRefs(e.upstreamRefs, [p.id, ratification.id, id]);
    assert SetOf([p.id, ratification.id]) + SetOf([e.id]) == {p.id, ratification.id, e.id};
    assert SetOf([p.id, ratification.id, id]) == {p.id, ratification.id, id};
  }

  lemma MergedRefs(left: seq<string>, right: seq<string>)
    ensures AreRefs(MergeRefs(left, right), SetOf(left) + SetOf(right))
  {
  }

  lemma RetirementWrites(p: Proposal, ratification: Ratification, e: Canon, id: string, now: int)
    requires p.operation == Supersede && ApplyProposal(p, ratification, Some(e), id, now).Ok?
    ensures IsRetirement(ApplyProposal(p, ratification, Some(e), id, now).value, p, ratification, e, now)
  {
    hide MergeRefs;
    MergedRefs(e.upstreamRefs, [p.id, ratification.id]);
    assert SetOf([p.id, ratification.id]) == {p.id, ratification.id};
  }

  /** What an application writes, field by field. Each record names the proposal and the ratification as sources. */
  lemma ApplicationWrites(p: Proposal, ratification: Ratification, existing: Option<Canon>, id: string, now: int)
    requires ApplyProposal(p, ratification, existing, id, now).Ok?
    ensures var applied := ApplyProposal(p, ratification, existing, id, now).value;
            match p.operation
            case Create => IsCreation(applied, p, ratification, id, now)
            case Revise => existing.Some? && IsRevision(applied, p, ratification, existing.value, id, now)
            case Supersede => existing.Some? && IsRetirement(applied, p, ratification, existing.value, now)
  {
    match p.operation {
      case Create =>
      case Revise =>
        hide IsRevision;
        RevisionWrites(p, ratification, existing.value, id, now);
      case Supersede =>
        hide IsRetirement;
        RetirementWrites(p, ratification, existing.value, id, now);
    }
  }

  /** What the engines demand of a payload although no gate checks it: a statement and a slot that are not empty. */
  predicate HasClaim(payload: Payload) {
    payload.statement.Text? && payload.statement.text != "" && payload.slot.Text? && payload.slot.text != ""
  }

  /** The proposal and its target are of one kind, and the reference, when there is one, is the target's. */
  predicate FitsTarget(p: Proposal, existing: Option<Canon>) {
    && existing.Some? && p.candidateKind == existing.value.kind
    && (p.payload.kind == Absent || p.payload.kind == Text(existing.value.kind))
    && (p.target == None || p.target == Some(Reference(existing.value.id, existing.value.kind, "canon")))
  }

  /** When the engine does not throw. */
  lemma AppliesExactly(p: Proposal, ratification: Ratification, existing: Option<Canon>, id: string, now: int)
    ensures ApplyProposal(p, ratification, existing, id, now).Ok? <==>
            && p.targetLayer == "canon" && p.state == Proposed
            && ratification.decision == Approved && ratification.proposalRef == p.id
            && (p.operation != Create ==> FitsTarget(p, existing))
            && (p.operation != Supersede ==> HasClaim(p.payload))
  {
  }
}
