/** packages/core/src/owner-decisions.ts: what one owner decision reads, writes and reports. */
module OwnerDecisions {
  import opened Prelude
  import opened GovernanceRecords
  import opened CanonEngine

  // ---------------------------------------------------------------- records

  datatype Action = Ratify | Subsume | KeepMaturing | Reject | MoveToWiki

  datatype PacketStatus = Pending | Answered | Expired | AppliedPacket

  datatype Packet = Packet(id: string, createdAt: int, updatedAt: int, proposalRefs: seq<string>, status: PacketStatus)

  datatype Disposition = Disposition(
    id: string,
    at: int,
    action: Option<Action>,
    inputRefs: seq<string>,
    proposalRefs: seq<string>,
    ratificationRef: Option<string>,
    targetCanon: Option<string>,
    pageRef: Option<string>,
    claimRef: Option<string>,
    proposalAfter: Option<ProposalState>,
    packetAfter: Option<PacketStatus>)

  datatype Page = Page(id: string, createdAt: int, updatedAt: int, sourceRefs: seq<string>, claimRefs: seq<string>)

  datatype Claim = Claim(id: string, createdAt: int, updatedAt: int, statement: string, pageRef: string,
                         sourceRefs: seq<string>)

  datatype Record =
    | OfProposal(proposal: Proposal)
    | OfPacket(packet: Packet)
    | OfRatification(ratification: Ratification)
    | OfCanon(canon: Canon)
    | OfDisposition(disposition: Disposition)
    | OfPage(page: Page)
    | OfClaim(claim: Claim)
  {
    function Id(): string {
      match this
      case OfProposal(r) => r.id
      case OfPacket(r) => r.id
      case OfRatification(r) => r.id
      case OfCanon(r) => r.id
      case OfDisposition(r) => r.id
      case OfPage(r) => r.id
      case OfClaim(r) => r.id
    }
  }

  /** The file of a record: its directory and its id. */
  datatype Key = ProposalKey(id: string) | PacketKey(id: string) | RatificationKey(id: string)
               | CanonFile(canon: CanonKey) | DispositionKey(id: string) | PageKey(id: string) | ClaimKey(id: string)

  function FileOf(r: Record): Key {
    match r
    case OfProposal(p) => ProposalKey(p.id)
    case OfPacket(p) => PacketKey(p.id)
    case OfRatification(p) => RatificationKey(p.id)
    case OfCanon(p) => CanonFile(KeyOf(p))
    case OfDisposition(p) => DispositionKey(p.id)
    case OfPage(p) => PageKey(p.id)
    case OfClaim(p) => ClaimKey(p.id)
  }

  type Records = map<Key, Record>

  predicate Filed(records: Records) { forall k :: k in records ==> FileOf(records[k]) == k }

  function WriteRecords(records: Records, writes: seq<Record>): Records
    decreases |writes|
  {
    if writes == [] then records else WriteRecords(records[FileOf(writes[0]) := writes[0]], writes[1..])
  }

  function Ids(writes: seq<Record>): (ids: seq<string>)
    ensures |ids| == |writes|
  {
    seq(|writes|, i requires 0 <= i < |writes| => writes[i].Id())
  }

  // ---------------------------------------------------------------- inputs

  /** The library calls on text: the safe form of an id, the id part of a proposal, and blankness. */
  datatype Texts = Texts(safe: string -> string, part: string -> string, blank: string -> bool)

  datatype Input = Input(
    proposalRef: string,
    action: Action,
    now: int,
    actor: string,
    targetCanon: Option<string>,
    wikiPage: Option<string>,
    dryRun: bool)

  datatype Status = WasApplied | WasDryRun | RejectedByValidation | WasAlreadyApplied

  /** `linked` is the sorted list of linked ids, as a set. */
  datatype Report = Report(status: Status, created: seq<string>, updated: seq<string>, linked: set<string>)

  function ActionName(action: Action): string {
    match action
    case Ratify => "ratify"
    case Subsume => "subsume"
    case KeepMaturing => "keep_maturing"
    case Reject => "reject"
    case MoveToWiki => "move_to_wiki"
  }

  function RatificationId(texts: Texts, proposalId: string, action: Action): string {
    "rat_owner_decision_" + texts.part(proposalId) + "_" + ActionName(action)
  }

  function DispositionId(texts: Texts, proposalId: string, action: Action): string {
    "disp_owner_decision_" + texts.part(proposalId) + "_" + ActionName(action)
  }

  // ---------------------------------------------------------------- reading the store

  predicate IsVerdict(r: Ratification) { r.decision == Approved || r.decision == Rejected }

  /** Some ratification approved or rejected the proposal. */
  predicate Decided(records: Records, proposalId: string) {
    exists k :: k in records && VerdictOn(records[k], proposalId)
  }

  predicate VerdictOn(r: Record, proposalId: string) {
    r.OfRatification? && r.ratification.proposalRef == proposalId && IsVerdict(r.ratification)
  }

  predicate Includes(d: Disposition, proposalId: string) { proposalId in d.proposalRefs || proposalId in d.inputRefs }

  predicate ActionTaken(records: Records, proposalId: string, action: Action) {
    exists k :: k in records && records[k].OfDisposition? && Includes(records[k].disposition, proposalId)
                && records[k].disposition.action == Some(action)
  }

  predicate IsAlreadyApplied(records: Records, proposalId: string, action: Action) {
    Decided(records, proposalId) || ActionTaken(records, proposalId, action)
  }

  function RequireProposal(records: Records, proposalRef: string): Result<Proposal> {
    if ProposalKey(proposalRef) !in records || !records[ProposalKey(proposalRef)].OfProposal? then
      Thrown("owner decision proposal was not found")
    else
      var proposal := records[ProposalKey(proposalRef)].proposal;
      if !proposal.ownerRatificationRequired then Thrown("proposal does not require owner ratification")
      else if proposal.state != Proposed then Thrown("expected proposed")
      else Ok(proposal)
  }

  predicate IsPacketOf(r: Record, proposalId: string) { r.OfPacket? && proposalId in r.packet.proposalRefs }

  /** `matchingCurationPacket`: one of the newest packets for the proposal, if there is any. */
  predicate IsNewestPacket(records: Records, proposalId: string, packet: Option<Packet>) {
    match packet
    case None => forall k :: k in records ==> !IsPacketOf(records[k], proposalId)
    case Some(p) =>
      && (exists k :: k in records && records[k] == OfPacket(p) && IsPacketOf(records[k], proposalId))
      && (forall k :: k in records && IsPacketOf(records[k], proposalId) ==> records[k].packet.createdAt <= p.createdAt)
  }

  function CanonIn(records: Records): CanonStore {
    map k | k in records && k.CanonFile? && records[k].OfCanon? :: k.canon := records[k].canon
  }

  /**
   `sameSlotCanonRefs`: records of any kind and state that share the proposal's slot, if it has one that is not
   blank.
   */
  function SameSlotRefs(records: Records, proposal: Proposal, texts: Texts): set<string> {
    if !proposal.payload.slot.Text? || texts.blank(proposal.payload.slot.text) then {}
    else
      set k | k in records && records[k].OfCanon? && records[k].canon.slot == proposal.payload.slot.text ::
        records[k].canon.id
  }

  predicate HasCanon(records: Records, id: string) {
    exists k :: k in records && records[k].OfCanon? && records[k].canon.id == id
  }

  // ---------------------------------------------------------------- building records

  function MakeRatification(texts: Texts, input: Input, proposal: Proposal, decision: Decision): Ratification {
    Ratification(RatificationId(texts, proposal.id, input.action), proposal.id, decision, input.actor, input.now)
  }

  function UpdatedPacket(packet: Option<Packet>, now: int, status: PacketStatus): Option<Packet> {
    if packet.Some? then Some(packet.value.(updatedAt := now, status := status)) else None
  }

  function MakeDisposition(texts: Texts, input: Input, proposal: Proposal, packet: Option<Packet>): Disposition {
    Disposition(DispositionId(texts, proposal.id, input.action), input.now, Some(input.action),
                Deduplicated([proposal.id] + (if packet.Some? then [packet.value.id] else [])),
                if input.action == Ratify || input.action == Subsume then [proposal.id] else [],
                None, None, None, None, None, None)
  }

  function StatusOf(packet: Option<Packet>): Option<PacketStatus> {
    if packet.Some? then Some(packet.value.status) else None
  }

  function PageId(texts: Texts, input: Input, proposal: Proposal): string {
    if input.wikiPage.Some? && input.wikiPage.value != "" && input.wikiPage.value != "auto" then
      texts.safe(input.wikiPage.value)
    else
      "wpg_" + texts.safe(if proposal.payload.slot.Text? && !texts.blank(proposal.payload.slot.text)
                          then proposal.payload.slot.text else proposal.id)
  }

  function MakeClaim(records: Records, texts: Texts, input: Input, proposal: Proposal): Claim {
    var id := "wclm_owner_decision_" + texts.part(proposal.id);
    var sources := Deduplicated(proposal.evidenceRefs);
    Claim(id,
          if ClaimKey(id) in records && records[ClaimKey(id)].OfClaim? then records[ClaimKey(id)].claim.createdAt
          else input.now,
          input.now,
          if proposal.payload.statement.Text? && !texts.blank(proposal.payload.statement.text)
          then proposal.payload.statement.text else proposal.reason,
          PageId(texts, input, proposal),
          if sources != [] then sources else [proposal.id])
  }

  function MakePage(records: Records, texts: Texts, input: Input, proposal: Proposal): Page {
    var id := PageId(texts, input, proposal);
    var claimId := "wclm_owner_decision_" + texts.part(proposal.id);
    var existing := if PageKey(id) in records && records[PageKey(id)].OfPage? then Some(records[PageKey(id)].page)
                    else None;
    if existing.Some? then
      existing.value.(updatedAt := input.now,
                      sourceRefs := MergeRefs(existing.value.sourceRefs, Deduplicated(proposal.evidenceRefs)),
                      claimRefs := MergeRefs(existing.value.claimRefs, [claimId]))
    else Page(id, input.now, input.now, Deduplicated(proposal.evidenceRefs), [claimId])
  }

  // ---------------------------------------------------------------- the decision

  /** What a decision writes, in order, and what it reports. */
  datatype Plan = Plan(writes: seq<Record>, report: Report)

  function PacketWrites(packet: Option<Packet>): seq<Record> {
    if packet.Some? then [OfPacket(packet.value)] else []
  }

  function PacketIds(packet: Option<Packet>): seq<string> { if packet.Some? then [packet.value.id] else [] }

  function Refuse(linked: set<string>): Plan { Plan([], Report(RejectedByValidation, [], [], linked)) }

  function CanonWrites(records: seq<Canon>): (writes: seq<Record>)
    ensures |writes| == |records|
  {
    seq(|records|, i requires 0 <= i < |records| => OfCanon(records[i]))
  }

  function CanonIds(records: seq<Canon>): (ids: seq<string>)
    ensures |ids| == |records|
  {
    seq(|records|, i requires 0 <= i < |records| => records[i].id)
  }

  function PlanRatify(records: Records, texts: Texts, input: Input, proposal: Proposal,
                      packet: Option<Packet>): Result<Plan>
  {
    var target := FindTarget(CanonIn(records), proposal.target);
    var sameSlot := SameSlotRefs(records, proposal, texts);
    if proposal.operation == Create && sameSlot != {} then Ok(Refuse(sameSlot))
    else if proposal.operation != Create && target.None? then Ok(Refuse(sameSlot))
    else
      var ratification := MakeRatification(texts, input, proposal, Approved);
      var canonical :- ApplyProposal(proposal, ratification, target, "mem_" + texts.part(proposal.id), input.now);
      var created := if canonical.created.Some? then [canonical.created.value] else [];
      var updatedPacket := UpdatedPacket(packet, input.now, AppliedPacket);
      var disposition := MakeDisposition(texts, input, proposal, packet).(
        ratificationRef := Some(ratification.id), proposalAfter := Some(proposal.state),
        packetAfter := StatusOf(updatedPacket));
      Ok(Plan([OfRatification(ratification)] + CanonWrites(created) + CanonWrites(canonical.updated)
              + PacketWrites(updatedPacket) + [OfDisposition(disposition)],
              Report(WasApplied, [ratification.id] + CanonIds(created) + [disposition.id],
                     CanonIds(canonical.updated) + PacketIds(updatedPacket), {})))
  }

  function PlanSubsume(records: Records, texts: Texts, input: Input, proposal: Proposal, packet: Option<Packet>): Plan {
    if input.targetCanon.None? || input.targetCanon.value == "" || !HasCanon(records, input.targetCanon.value) then
      Refuse(SameSlotRefs(records, proposal, texts))
    else
      var updatedPacket := UpdatedPacket(packet, input.now, Answered);
      var disposition := MakeDisposition(texts, input, proposal, packet).(
        targetCanon := input.targetCanon, packetAfter := StatusOf(updatedPacket));
      Plan(PacketWrites(updatedPacket) + [OfDisposition(disposition)],
           Report(WasApplied, [disposition.id], PacketIds(updatedPacket), {input.targetCanon.value}))
  }

  function PlanKeepMaturing(texts: Texts, input: Input, proposal: Proposal, packet: Option<Packet>): Plan {
    var ratification := MakeRatification(texts, input, proposal, Deferred);
    var updatedPacket := UpdatedPacket(packet, input.now, Answered);
    var disposition := MakeDisposition(texts, input, proposal, packet).(
      ratificationRef := Some(ratification.id), packetAfter := StatusOf(updatedPacket));
    Plan([OfRatification(ratification)] + PacketWrites(updatedPacket) + [OfDisposition(disposition)],
         Report(WasApplied, [ratification.id, disposition.id], PacketIds(updatedPacket), {}))
  }

  function PlanMoveToWiki(records: Records, texts: Texts, input: Input, proposal: Proposal,
                          packet: Option<Packet>): Plan
  {
    var page, claim := MakePage(records, texts, input, proposal), MakeClaim(records, texts, input, proposal);
    var updatedPacket := UpdatedPacket(packet, input.now, Answered);
    var disposition := MakeDisposition(texts, input, proposal, packet).(
      pageRef := Some(page.id), claimRef := Some(claim.id), packetAfter := StatusOf(updatedPacket));
    var isNew := PageKey(page.id) !in records;
    Plan([OfPage(page), OfClaim(claim)] + PacketWrites(updatedPacket) + [OfDisposition(disposition)],
         Report(WasApplied, [claim.id, disposition.id] + (if isNew then [page.id] else []),
                (if isNew then [] else [page.id]) + PacketIds(updatedPacket), {}))
  }

  function PlanReject(texts: Texts, input: Input, proposal: Proposal, packet: Option<Packet>): Plan {
    var ratification := MakeRatification(texts, input, proposal, Rejected);
    var rejected := proposal.(state := ProposalRejected);
    var updatedPacket := UpdatedPacket(packet, input.now, Answered);
    var disposition := MakeDisposition(texts, input, proposal, packet).(
      ratificationRef := Some(ratification.id), proposalAfter := Some(rejected.state),
      packetAfter := StatusOf(updatedPacket));
    Plan([OfProposal(rejected), OfRatification(ratification)] + PacketWrites(updatedPacket)
         + [OfDisposition(disposition)],
         Report(WasApplied, [ratification.id, disposition.id], [rejected.id] + PacketIds(updatedPacket), {}))
  }

  function PlanDecision(records: Records, texts: Texts, input: Input, packet: Option<Packet>): Result<Plan> {
    var proposal :- RequireProposal(records, input.proposalRef);
    if IsAlreadyApplied(records, proposal.id, input.action) then Ok(Plan([], Report(WasAlreadyApplied, [], [], {})))
    else match input.action
      case Ratify => PlanRatify(records, texts, input, proposal, packet)
      case Subsume => Ok(PlanSubsume(records, texts, input, proposal, packet))
      case KeepMaturing => Ok(PlanKeepMaturing(texts, input, proposal, packet))
      case MoveToWiki => Ok(PlanMoveToWiki(records, texts, input, proposal, packet))
      case Reject => Ok(PlanReject(texts, input, proposal, packet))
  }

  /** A dry run reports the plan without writing it. */
  function After(records: Records, plan: Result<Plan>, input: Input): Records {
    if plan.Ok? && !input.dryRun then WriteRecords(records, plan.value.writes) else records
  }

  function ReportOf(plan: Result<Plan>, input: Input): Result<Report> {
    if plan.Thrown? then Thrown(plan.message)
    else if plan.value.report.status == WasApplied && input.dryRun then Ok(plan.value.report.(status := WasDryRun))
    else Ok(plan.value.report)
  }

  // ---------------------------------------------------------------- what is reported is what is written

  lemma IdsConcat(a: seq<Record>, b: seq<Record>)
    ensures Ids(a + b) == Ids(a) + Ids(b)
  {
  }

  lemma CanonWriteIds(records: seq<Canon>)
    ensures Ids(CanonWrites(records)) == CanonIds(records)
  {
  }

  ghost predicate Reports(plan: Plan) {
    multiset(plan.report.created + plan.report.updated) == multiset(Ids(plan.writes))
  }

  lemma PacketWriteIds(packet: Option<Packet>)
    ensures Ids(PacketWrites(packet)) == PacketIds(packet)
  {
  }

  /** Writes of the form front, packet, disposition. */
  lemma WriteIds(front: seq<Record>, packet: Option<Packet>, disposition: Disposition)
    ensures multiset(Ids(front + PacketWrites(packet) + [OfDisposition(disposition)]))
         == multiset(Ids(front)) + multiset(PacketIds(packet)) + multiset{disposition.id}
  {
    PacketWriteIds(packet);
    IdsConcat(front, PacketWrites(packet));
    IdsConcat(front + PacketWrites(packet), [OfDisposition(disposition)]);
    assert Ids([OfDisposition(disposition)]) == [disposition.id];
  }

  /** Reordering lists of ids, for the orders in which the actions write and report. */
  lemma Reorder(front: seq<string>, first: seq<string>, last: string, second: seq<string>, packet: seq<string>)
    requires multiset(front) == multiset(first) + multiset(second)
    ensures multiset((first + [last]) + (second + packet)) == multiset(front) + multiset(packet) + multiset{last}
  {
    assert multiset((first + [last]) + (second + packet)) == multiset(first + [last]) + multiset(second + packet);
  }

  lemma PlanReports(plan: Plan, front: seq<Record>, packet: Option<Packet>, disposition: Disposition,
                    first: seq<string>, second: seq<string>)
    requires plan.writes == front + PacketWrites(packet) + [OfDisposition(disposition)]
    requires multiset(Ids(front)) == multiset(first) + multiset(second)
    requires multiset(plan.report.created) == multiset(first + [disposition.id])
    requires plan.report.updated == second + PacketIds(packet)
    ensures Reports(plan)
  {
    WriteIds(front, packet, disposition);
    Reorder(Ids(front), first, disposition.id, second, PacketIds(packet));
    var created, updated := plan.report.created, plan.report.updated;
    assert multiset(created + updated) == multiset(created) + multiset(updated);
    assert multiset((first + [disposition.id]) + updated) == multiset(first + [disposition.id]) + multiset(updated);
  }

  /** A refused or repeated decision writes nothing and reports nothing. */
  ghost predicate Honest(plan: Plan) { Reports(plan) && (plan.report.status != WasApplied ==> plan.writes == []) }

  lemma RatifyReports(records: Records, texts: Texts, input: Input, proposal: Proposal, packet: Option<Packet>)
    requires PlanRatify(records, texts, input, proposal, packet).Ok?
    ensures Honest(PlanRatify(records, texts, input, proposal, packet).value)
  {
    hide MakeDisposition, ApplyProposal, CanonIn, FindTarget, SameSlotRefs, RatificationId;
    var plan := PlanRatify(records, texts, input, proposal, packet).value;
    if plan.report.status == WasApplied {
      var ratification := MakeRatification(texts, input, proposal, Approved);
      var canonical := ApplyProposal(proposal, ratification, FindTarget(CanonIn(records), proposal.target),
                                     "mem_" + texts.part(proposal.id), input.now).value;
      var created := if canonical.created.Some? then [canonical.created.value] else [];
      var updatedPacket := UpdatedPacket(packet, input.now, AppliedPacket);
      var disposition := MakeDisposition(texts, input, proposal, packet).(
        ratificationRef := Some(ratification.id), proposalAfter := Some(proposal.state),
        packetAfter := StatusOf(updatedPacket));
      RatifyIds(ratification, created, canonical.updated);
      PlanReports(plan, [OfRatification(ratification)] + CanonWrites(created) + CanonWrites(canonical.updated),
                  updatedPacket, disposition, [ratification.id] + CanonIds(created), CanonIds(canonical.updated));
    }
  }

  lemma RatifyIds(ratification: Ratification, created: seq<Canon>, updated: seq<Canon>)
    ensures multiset(Ids([OfRatification(ratification)] + CanonWrites(created) + CanonWrites(updated)))
         == multiset([ratification.id] + CanonIds(created)) + multiset(CanonIds(updated))
  {
    IdsConcat([OfRatification(ratification)] + CanonWrites(created), CanonWrites(updated));
    IdsConcat([OfRatification(ratification)], CanonWrites(created));
    CanonWriteIds(created);
    CanonWriteIds(updated);
    assert Ids([OfRatification(ratification)]) == [ratification.id];
  }

  lemma SubsumeReports(records: Records, texts: Texts, input: Input, proposal: Proposal, packet: Option<Packet>)
    ensures Honest(PlanSubsume(records, texts, input, proposal, packet))
  {
    hide MakeDisposition, SameSlotRefs;
    var plan := PlanSubsume(records, texts, input, proposal, packet);
    if plan.report.status == WasApplied {
      var answered := UpdatedPacket(packet, input.now, Answered);
      var disposition := MakeDisposition(texts, input, proposal, packet).(
        targetCanon := input.targetCanon, packetAfter := StatusOf(answered));
      assert plan.writes == [] + PacketWrites(answered) + [OfDisposition(disposition)];
      assert plan.report.created == [] + [disposition.id] && plan.report.updated == [] + PacketIds(answered);
      PlanReports(plan, [], answered, disposition, [], []);
    }
  }

  lemma KeepMaturingReports(texts: Texts, input: Input, proposal: Proposal, packet: Option<Packet>)
    ensures Honest(PlanKeepMaturing(texts, input, proposal, packet))
  {
    hide MakeDisposition, RatificationId;
    var plan := PlanKeepMaturing(texts, input, proposal, packet);
    var ratification := MakeRatification(texts, input, proposal, Deferred);
    var answered := UpdatedPacket(packet, input.now, Answered);
    var disposition := MakeDisposition(texts, input, proposal, packet).(
      ratificationRef := Some(ratification.id), packetAfter := StatusOf(answered));
    assert Ids([OfRatification(ratification)]) == [ratification.id];
    assert plan.report.created == [ratification.id] + [disposition.id]
           && plan.report.updated == [] + PacketIds(answered);
    PlanReports(plan, [OfRatification(ratification)], answered, disposition, [ratification.id], []);
  }

  lemma RejectReports(texts: Texts, input: Input, proposal: Proposal, packet: Option<Packet>)
    ensures Honest(PlanReject(texts, input, proposal, packet))
  {
    hide MakeDisposition, RatificationId;
    var plan := PlanReject(texts, input, proposal, packet);
    var ratification := MakeRatification(texts, input, proposal, Rejected);
    var rejected := proposal.(state := ProposalRejected);
    var answered := UpdatedPacket(packet, input.now, Answered);
    var disposition := MakeDisposition(texts, input, proposal, packet).(
      ratificationRef := Some(ratification.id), proposalAfter := Some(rejected.state),
      packetAfter := StatusOf(answered));
    var front := [OfProposal(rejected), OfRatification(ratification)];
    assert Ids(front) == [rejected.id, ratification.id];
    assert plan.report.created == [ratification.id] + [disposition.id];
    PlanReports(plan, front, answered, disposition, [ratification.id], [rejected.id]);
  }

  lemma WikiReports(records: Records, texts: Texts, input: Input, proposal: Proposal, packet: Option<Packet>)
    ensures Honest(PlanMoveToWiki(records, texts, input, proposal, packet))
  {
    hide MakeDisposition, MakePage, MakeClaim;
    var plan := PlanMoveToWiki(records, texts, input, proposal, packet);
    var page, claim := MakePage(records, texts, input, proposal), MakeClaim(records, texts, input, proposal);
    var answered := UpdatedPacket(packet, input.now, Answered);
    var disposition := MakeDisposition(texts, input, proposal, packet).(
      pageRef := Some(page.id), claimRef := Some(claim.id), packetAfter := StatusOf(answered));
    WikiPlanReports(plan, page, claim, answered, disposition, PageKey(page.id) !in records);
  }

  lemma PageAndClaimIds(page: Page, claim: Claim)
    ensures Ids([OfPage(page), OfClaim(claim)]) == [page.id, claim.id]
  {
  }

  lemma SwapLast(a: string, b: string, c: string)
    ensures multiset([a, b] + [c]) == multiset([a, c] + [b])
  {
    assert [a, b] + [c] == [a, b, c] && [a, c] + [b] == [a, c, b];
  }

  lemma WikiPlanReports(plan: Plan, page: Page, claim: Claim, packet: Option<Packet>, disposition: Disposition,
                        isNew: bool)
    requires plan.writes == [OfPage(page), OfClaim(claim)] + PacketWrites(packet) + [OfDisposition(disposition)]
    requires plan.report.created == [claim.id, disposition.id] + (if isNew then [page.id] else [])
    requires plan.report.updated == (if isNew then [] else [page.id]) + PacketIds(packet)
    ensures Reports(plan)
  {
    PageAndClaimIds(page, claim);
    if isNew {
      SwapLast(claim.id, disposition.id, page.id);
      PlanReports(plan, [OfPage(page), OfClaim(claim)], packet, disposition, [claim.id, page.id], []);
    } else {
      assert plan.report.created == [claim.id] + [disposition.id];
      PlanReports(plan, [OfPage(page), OfClaim(claim)], packet, disposition, [claim.id], [page.id]);
    }
  }

  /** The created and updated refs are exactly the ids of the records written, each as often. */
  lemma ReportedRefsAreWritten(records: Records, texts: Texts, input: Input, packet: Option<Packet>)
    requires PlanDecision(records, texts, input, packet).Ok?
    ensures Honest(PlanDecision(records, texts, input, packet).value)
  {
    hide PlanRatify, PlanSubsume, PlanKeepMaturing, PlanReject, PlanMoveToWiki, IsAlreadyApplied;
    var proposal := RequireProposal(records, input.proposalRef).value;
    if !IsAlreadyApplied(records, proposal.id, input.action) {
      match input.action {
        case Ratify => RatifyReports(records, texts, input, proposal, packet);
        case Subsume => SubsumeReports(records, texts, input, proposal, packet);
        case KeepMaturing => KeepMaturingReports(texts, input, proposal, packet);
        case Reject => RejectReports(texts, input, proposal, packet);
        case MoveToWiki => WikiReports(records, texts, input, proposal, packet);
      }
    }
  }
}
