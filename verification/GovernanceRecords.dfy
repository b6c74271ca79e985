/** The governance and canon records that the engines read and write. Timestamps are integers. */
module GovernanceRecords {
  import opened Prelude

  datatype Reference = Reference(id: string, kind: string, layer: string)

  datatype Operation = Create | Revise | Supersede

  datatype ProposalState = Draft | Proposed | ProposalArchived | ProposalRejected

  datatype CanonState = CanonDraft | CanonProposed | Ratified | Superseded | CanonArchived | CanonRejected

  datatype Temporal = Temporal(status: string, validFrom: Option<int>, validTo: Option<int>, confidence: Option<real>)

  /** An entry of the untyped `candidate_payload`. */
  datatype Entry = Absent | Text(text: string) | NotText {
    predicate IsText(s: string) { Text? && text == s }
  }

  /** `temporal` is present when the payload holds an object with a textual `temporal_status`. */
  datatype Payload = Payload(kind: Entry, statement: Entry, slot: Entry, temporal: Option<Temporal>)

  datatype Proposal = Proposal(
    id: string,
    operation: Operation,
    candidateKind: string,
    targetLayer: string,
    target: Option<Reference>,
    payload: Payload,
    reason: string,
    evidenceRefs: seq<string>,
    ownerRatificationRequired: bool,
    publicSafe: bool,
    state: ProposalState)

  datatype Decision = Approved | Deferred | Rejected

  datatype Ratification = Ratification(id: string, proposalRef: string, decision: Decision, actor: string, at: int)

  /** A canonical memory object; its layer is always `canon`. */
  datatype Canon = Canon(
    id: string,
    kind: string,
    createdAt: int,
    updatedAt: int,
    statement: string,
    slot: string,
    state: CanonState,
    temporal: Option<Temporal>,
    upstreamRefs: seq<string>,
    supersedes: Option<string>,
    supersededBy: Option<string>)
  {
    /** When the record starts to be valid: `temporal_state?.valid_from ?? created_at`. */
    function Start(): int {
      if temporal.Some? && temporal.value.validFrom.Some? then temporal.value.validFrom.value else createdAt
    }
  }

  /** The canon directories hold one file for each kind and id. */
  datatype CanonKey = CanonKey(kind: string, id: string)

  type CanonStore = map<CanonKey, Canon>

  const CANON_KINDS := {"fact", "belief", "preference", "constraint", "goal", "procedure", "value", "identity_trait"}

  function KeyOf(record: Canon): CanonKey { CanonKey(record.kind, record.id) }

  predicate Matches(reference: Reference, record: Canon) {
    reference.id == record.id && reference.kind == record.kind && reference.layer == "canon"
  }

  /** `records.find(record => referenceMatchesRecord(record, target))` over the records of the store. */
  function FindTarget(store: CanonStore, target: Option<Reference>): Option<Canon> {
    if target.Some? && target.value.layer == "canon" && CanonKey(target.value.kind, target.value.id) in store
    then Some(store[CanonKey(target.value.kind, target.value.id)])
    else None
  }

  /** `[...new Set([...left, ...right])]`. */
  function MergeRefs(left: seq<string>, right: seq<string>): (merged: seq<string>)
    ensures forall r :: r in merged <==> r in left || r in right
  {
    Deduplicated(left + right)
  }

  function Deduplicated(refs: seq<string>): (unique: seq<string>)
    ensures forall r :: r in unique <==> r in refs
    ensures forall i, j :: 0 <= i < j < |unique| ==> unique[i] != unique[j]
  {
    if refs == [] then []
    else
      var last, earlier := refs[|refs| - 1], Deduplicated(refs[..|refs| - 1]);
      assert refs == refs[..|refs| - 1] + [last];
      if last in earlier then earlier else earlier + [last]
  }
}
