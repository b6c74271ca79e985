/**
 What a written owner decision leaves in the store, file by file and field by field, and when it is written at all.
 */
module OwnerOutcomes {
  import opened Prelude
  import opened GovernanceRecords
  import opened CanonEngine
  import opened OwnerDecisions
  import opened OwnerRuns
  import opened OwnerEffects
  import J = OwnerDecisionJournal
  import OwnerCanon

  // ---------------------------------------------------------------- what is left, in the fields of the input

  function NameOf(action: Action): string {
    match action
    case Ratify => "ratify"
    case Subsume => "subsume"
    case KeepMaturing => "keep_maturing"
    case Reject => "reject"
    case MoveToWiki => "move_to_wiki"
  }

  function FileId(prefix: string, texts: Texts, p: Proposal, action: Action): string {
    prefix + texts.part(p.id) + "_" + NameOf(action)
  }

  /** An answered packet has been decided on without a ratification. */
  function StatusAfter(action: Action): PacketStatus { if action == Ratify then AppliedPacket else Answered }

  function PacketAfter(packet: Packet, input: Input): Packet {
    Packet(packet.id, packet.createdAt, input.now, packet.proposalRefs, StatusAfter(input.action))
  }

  /** The verdict of a ratifying action; the others record none. */
  function DecisionOf(action: Action): Option<Decision> {
    match action
    case Ratify => Some(Approved)
    case KeepMaturing => Some(Deferred)
    case Reject => Some(Rejected)
    case _ => None
  }

  function RatificationAfter(texts: Texts, input: Input, p: Proposal, decision: Decision): Ratification {
    Ratification(FileId("rat_owner_decision_", texts, p, input.action), p.id, decision, input.actor, input.now)
  }

  /** The page that is asked for, or the page of the slot, or of the proposal when it has none. */
  function PageIdOf(texts: Texts, input: Input, p: Proposal): string {
    match input.wikiPage
    case Some(page) => if page == "" || page == "auto" then AutoPage(texts, p) else texts.safe(page)
    case None => AutoPage(texts, p)
  }

  function AutoPage(texts: Texts, p: Proposal): string {
    match p.payload.slot
    case Text(slot) => "wpg_" + texts.safe(if texts.blank(slot) then p.id else slot)
    case _ => "wpg_" + texts.safe(p.id)
  }

  function ClaimIdOf(texts: Texts, p: Proposal): string { "wclm_owner_decision_" + texts.part(p.id) }

  function DispositionAfter(texts: Texts, input: Input, p: Proposal, packet: Option<Packet>): Disposition {
    var onWiki, action := input.action == MoveToWiki, input.action;
    Disposition(
      FileId("disp_owner_decision_", texts, p, action), input.now, Some(action),
      if packet.Some? && packet.value.id != p.id then [p.id, packet.value.id] else [p.id],
      if action == Ratify || action == Subsume then [p.id] else [],
      if DecisionOf(action).Some? then Some(FileId("rat_owner_decision_", texts, p, action)) else None,
      if action == Subsume then input.targetCanon else None,
      if onWiki then Some(PageIdOf(texts, input, p)) else None,
      if onWiki then Some(ClaimIdOf(texts, p)) else None,
      if action == Ratify then Some(Proposed) else if action == Reject then Some(ProposalRejected) else None,
      if packet.Some? then Some(StatusAfter(action)) else None)
  }

  /** The page keeps what it had, and gains the evidence of the proposal and the claim. */
  ghost predicate IsPageAfter(page: Page, before: Option<Page>, texts: Texts, input: Input, p: Proposal) {
    && page.id == PageIdOf(texts, input, p) && page.updatedAt == input.now
    && page.createdAt == (if before.Some? then before.value.createdAt else input.now)
    && AreRefs(page.sourceRefs, (if before.Some? then SetOf(before.value.sourceRefs) else {}) + SetOf(p.evidenceRefs))
    && AreRefs(page.claimRefs, (if before.Some? then SetOf(before.value.claimRefs) else {}) + {ClaimIdOf(texts, p)})
  }

  /** The claim states what the proposal states, or else its reason. */
  ghost predicate IsClaimAfter(claim: Claim, before: Option<Claim>, texts: Texts, input: Input, p: Proposal) {
    && claim.id == ClaimIdOf(texts, p) && claim.updatedAt == input.now && claim.pageRef == PageIdOf(texts, input, p)
    && claim.createdAt == (if before.Some? then before.value.createdAt else input.now)
    && (match p.payload.statement
        case Text(statement) => claim.statement == if texts.blank(statement) then p.reason else statement
        case _ => claim.statement == p.reason)
    && AreRefs(claim.sourceRefs, if p.evidenceRefs == [] then {p.id} else SetOf(p.evidenceRefs))
  }

  function PageIn(records: Records, id: string): Option<Page> {
    if PageKey(id) in records && records[PageKey(id)].OfPage? then Some(records[PageKey(id)].page) else None
  }

  function ClaimIn(records: Records, id: string): Option<Claim> {
    if ClaimKey(id) in records && records[ClaimKey(id)].OfClaim? then Some(records[ClaimKey(id)].claim) else None
  }

  // ---------------------------------------------------------------- the records of each plan

  /** What a decision writes beside canon, in the fields of the input. */
  ghost predicate WritesExpected(records: Records, texts: Texts, input: Input, p: Proposal, packet: Option<Packet>,
                                 writes: seq<Record>)
  {
    && (forall w :: w in writes && w.OfPacket? ==> packet.Some? && w == OfPacket(PacketAfter(packet.value, input)))
    && (packet.Some? ==> OfPacket(PacketAfter(packet.value, input)) in writes)
    && (forall w :: w in writes && w.OfDisposition? ==> w == OfDisposition(DispositionAfter(texts, input, p, packet)))
    && OfDisposition(DispositionAfter(texts, input, p, packet)) in writes
    && (forall w :: w in writes && w.OfRatification? ==>
          DecisionOf(input.action).Some?
          && w == OfRatification(RatificationAfter(texts, input, p, DecisionOf(input.action).value)))
    && (DecisionOf(input.action).Some? ==>
          OfRatification(RatificationAfter(texts, input, p, DecisionOf(input.action).value)) in writes)
    && (forall w :: w in writes && w.OfProposal? ==>
          input.action == Reject && w == OfProposal(p.(state := ProposalRejected)))
    && (input.action == Reject ==> OfProposal(p.(state := ProposalRejected)) in writes)
    && WritesWiki(records, texts, input, p, writes)
  }

  ghost predicate WritesWiki(records: Records, texts: Texts, input: Input, p: Proposal, writes: seq<Record>) {
    if input.action != MoveToWiki then forall w :: w in writes ==> !w.OfPage? && !w.OfClaim?
    else
      exists page, claim ::
        && OfPage(page) in writes && OfClaim(claim) in writes
        && (forall w :: w in writes && w.OfPage? ==> w == OfPage(page))
        && (forall w :: w in writes && w.OfClaim? ==> w == OfClaim(claim))
        && IsPageAfter(page, PageIn(records, PageIdOf(texts, input, p)), texts, input, p)
        && IsClaimAfter(claim, ClaimIn(records, ClaimIdOf(texts, p)), texts, input, p)
  }

  lemma IdsMeet(texts: Texts, input: Input, p: Proposal)
    ensures RatificationId(texts, p.id, input.action) == FileId("rat_owner_decision_", texts, p, input.action)
    ensures DispositionId(texts, p.id, input.action) == FileId("disp_owner_decision_", texts, p, input.action)
  {
  }

  lemma PacketMeets(packet: Option<Packet>, input: Input, status: PacketStatus)
    requires status == StatusAfter(input.action)
    ensures UpdatedPacket(packet, input.now, status)
            == if packet.Some? then Some(PacketAfter(packet.value, input)) else None
  {
  }

  lemma InputRefs(p: Proposal, packet: Option<Packet>)
    ensures Deduplicated([p.id] + (if packet.Some? then [packet.value.id] else []))
            == if packet.Some? && packet.value.id != p.id then [p.id, packet.value.id] else [p.id]
  {
    assert [p.id] + [] == [p.id] && [p.id][..0] == [];
    assert Deduplicated([p.id]) == [p.id];
    if packet.Some? {
      var two := [p.id] + [packet.value.id];
      assert two == [p.id, packet.value.id] && two[..1] == [p.id];
    }
  }

  lemma DispositionMeets(texts: Texts, input: Input, p: Proposal, packet: Option<Packet>)
    ensures MakeDisposition(texts, input, p, packet)
            == DispositionAfter(texts, input, p, packet).(ratificationRef := None, targetCanon := None, pageRef := None,
                                                          claimRef := None, proposalAfter := None, packetAfter := None)
  {
    InputRefs(p, packet);
    IdsMeet(texts, input, p);
    hide Deduplicated, FileId;
  }

  /** The writes of a plan: those of its action, the packet when there is one, the disposition. */
  ghost predicate HasShape(writes: seq<Record>, front: seq<Record>, packet: Option<Packet>, input: Input,
                           disposition: Disposition)
  {
    forall w :: w in writes <==>
      w in front || (packet.Some? && w == OfPacket(PacketAfter(packet.value, input))) || w == OfDisposition(disposition)
  }

  lemma ShapeOf(front: seq<Record>, packet: Option<Packet>, input: Input, disposition: Disposition)
    ensures HasShape(front + PacketWrites(UpdatedPacket(packet, input.now, StatusAfter(input.action)))
                     + [OfDisposition(disposition)],
                     front, packet, input, disposition)
  {
    PacketMeets(packet, input, StatusAfter(input.action));
    hide PacketAfter, UpdatedPacket;
  }

  /** The records of the action alone. */
  ghost predicate FrontExpected(records: Records, texts: Texts, input: Input, p: Proposal, front: seq<Record>) {
    && (forall w :: w in front ==> !w.OfPacket? && !w.OfDisposition?)
    && (forall w :: w in front && w.OfRatification? ==>
          DecisionOf(input.action).Some?
          && w == OfRatification(RatificationAfter(texts, input, p, DecisionOf(input.action).value)))
    && (DecisionOf(input.action).Some? ==>
          OfRatification(RatificationAfter(texts, input, p, DecisionOf(input.action).value)) in front)
    && (forall w :: w in front && w.OfProposal? ==>
          input.action == Reject && w == OfProposal(p.(state := ProposalRejected)))
    && (input.action == Reject ==> OfProposal(p.(state := ProposalRejected)) in front)
    && WritesWiki(records, texts, input, p, front)
  }

  lemma ExpectedOf(records: Records, texts: Texts, input: Input, p: Proposal, packet: Option<Packet>,
                   writes: seq<Record>, front: seq<Record>)
    requires HasShape(writes, front, packet, input, DispositionAfter(texts, input, p, packet))
    requires FrontExpected(records, texts, input, p, front)
    ensures WritesExpected(records, texts, input, p, packet, writes)
  {
    hide DispositionAfter, RatificationAfter, PacketAfter, IsPageAfter, IsClaimAfter, PageIdOf;
    WikiOfFront(records, texts, input, p, packet, writes, front);
    hide WritesWiki;
  }

  lemma WikiOfFront(records: Records, texts: Texts, input: Input, p: Proposal, packet: Option<Packet>,
                    writes: seq<Record>, front: seq<Record>)
    requires HasShape(writes, front, packet, input, DispositionAfter(texts, input, p, packet))
    requires WritesWiki(records, texts, input, p, front)
    ensures WritesWiki(records, texts, input, p, writes)
  {
    hide DispositionAfter, PacketAfter, IsPageAfter, IsClaimAfter, PageIdOf;
    if input.action == MoveToWiki {
      var page, claim :|
        && OfPage(page) in front && OfClaim(claim) in front
        && (forall w :: w in front && w.OfPage? ==> w == OfPage(page))
        && (forall w :: w in front && w.OfClaim? ==> w == OfClaim(claim))
        && IsPageAfter(page, PageIn(records, PageIdOf(texts, input, p)), texts, input, p)
        && IsClaimAfter(claim, ClaimIn(records, ClaimIdOf(texts, p)), texts, input, p);
      assert OfPage(page) in writes && OfClaim(claim) in writes;
    }
  }

  lemma RatifyShape(records: Records, texts: Texts, input: Input, p: Proposal, packet: Option<Packet>)
      returns (front: seq<Record>)
    requires input.action == Ratify && p.state == Proposed && PlanRatify(records, texts, input, p, packet).Ok?
    requires PlanRatify(records, texts, input, p, packet).value.report.status == WasApplied
    ensures HasShape(PlanRatify(records, texts, input, p, packet).value.writes, front, packet, input,
                     DispositionAfter(texts, input, p, packet))
    ensures OfRatification(MakeRatification(texts, input, p, Approved)) in front
    ensures forall w :: w in front ==> w == OfRatification(MakeRatification(texts, input, p, Approved)) || w.OfCanon?
  {
    DispositionMeets(texts, input, p, packet);
    IdsMeet(texts, input, p);
    hide MakeDisposition, RatificationId, DispositionId, FileId, SameSlotRefs, ApplyProposal, FindTarget, CanonIn,
         CanonIds, PacketIds, AutoPage, UpdatedPacket, PacketWrites;
    var ratification := MakeRatification(texts, input, p, Approved);
    var applied := ApplyProposal(p, ratification, FindTarget(CanonIn(records), p.target), "mem_" + texts.part(p.id),
                                 input.now).value;
    var created := if applied.created.Some? then [applied.created.value] else [];
    var disposition := DispositionAfter(texts, input, p, packet);
    var update := UpdatedPacket(packet, input.now, AppliedPacket);
    PacketMeets(packet, input, AppliedPacket);
    assert MakeDisposition(texts, input, p, packet).(
      ratificationRef := Some(ratification.id), proposalAfter := Some(p.state),
      packetAfter := StatusOf(update)) == disposition;
    front := [OfRatification(ratification)] + CanonWrites(created) + CanonWrites(applied.updated);
    ShapeOf(front, packet, input, disposition);
    hide DispositionAfter, HasShape, StatusOf;
    assert PlanRatify(records, texts, input, p, packet).value.writes
        == front + PacketWrites(UpdatedPacket(packet, input.now, AppliedPacket)) + [OfDisposition(disposition)];
  }

  lemma RatifyMeets(records: Records, texts: Texts, input: Input, p: Proposal, packet: Option<Packet>)
    requires input.action == Ratify && p.state == Proposed && PlanRatify(records, texts, input, p, packet).Ok?
    requires PlanRatify(records, texts, input, p, packet).value.report.status == WasApplied
    ensures WritesExpected(records, texts, input, p, packet, PlanRatify(records, texts, input, p, packet).value.writes)
  {
    var front := RatifyShape(records, texts, input, p, packet);
    RatificationMeets(texts, input, p, Approved);
    hide *;
    RatifiedFront(records, texts, input, p, front);
    ExpectedOf(records, texts, input, p, packet, PlanRatify(records, texts, input, p, packet).value.writes, front);
  }

  lemma RatificationMeets(texts: Texts, input: Input, p: Proposal, decision: Decision)
    ensures MakeRatification(texts, input, p, decision) == RatificationAfter(texts, input, p, decision)
  {
    IdsMeet(texts, input, p);
  }

  lemma RatifiedFront(records: Records, texts: Texts, input: Input, p: Proposal, front: seq<Record>)
    requires input.action == Ratify && OfRatification(RatificationAfter(texts, input, p, Approved)) in front
    requires forall w :: w in front ==> w == OfRatification(RatificationAfter(texts, input, p, Approved)) || w.OfCanon?
    ensures FrontExpected(records, texts, input, p, front)
  {
    hide RatificationAfter;
  }

  lemma RejectMeets(records: Records, texts: Texts, input: Input, p: Proposal, packet: Option<Packet>)
    requires input.action == Reject
    ensures WritesExpected(records, texts, input, p, packet, PlanReject(texts, input, p, packet).writes)
  {
    var front := [OfProposal(p.(state := ProposalRejected)),
                  OfRatification(RatificationAfter(texts, input, p, Rejected))];
    RejectShape(texts, input, p, packet, front);
    RejectedFront(records, texts, input, p, front);
    hide *;
    ExpectedOf(records, texts, input, p, packet, PlanReject(texts, input, p, packet).writes, front);
  }

  lemma RejectShape(texts: Texts, input: Input, p: Proposal, packet: Option<Packet>, front: seq<Record>)
    requires input.action == Reject
    requires front == [OfProposal(p.(state := ProposalRejected)),
                       OfRatification(RatificationAfter(texts, input, p, Rejected))]
    ensures HasShape(PlanReject(texts, input, p, packet).writes, front, packet, input,
                     DispositionAfter(texts, input, p, packet))
  {
    DispositionMeets(texts, input, p, packet);
    IdsMeet(texts, input, p);
    PacketMeets(packet, input, Answered);
    hide MakeDisposition, RatificationId, DispositionId, FileId, PacketIds, AutoPage, UpdatedPacket, PacketWrites;
    var disposition := DispositionAfter(texts, input, p, packet);
    ShapeOf(front, packet, input, disposition);
    assert PlanReject(texts, input, p, packet).writes
        == front + PacketWrites(UpdatedPacket(packet, input.now, Answered)) + [OfDisposition(disposition)];
  }

  lemma RejectedFront(records: Records, texts: Texts, input: Input, p: Proposal, front: seq<Record>)
    requires input.action == Reject
    requires front == [OfProposal(p.(state := ProposalRejected)),
                       OfRatification(RatificationAfter(texts, input, p, Rejected))]
    ensures FrontExpected(records, texts, input, p, front)
  {
    hide RatificationAfter;
    assert front[0] in front && front[1] in front;
  }

  lemma KeepMaturingMeets(records: Records, texts: Texts, input: Input, p: Proposal, packet: Option<Packet>)
    requires input.action == KeepMaturing
    ensures WritesExpected(records, texts, input, p, packet, PlanKeepMaturing(texts, input, p, packet).writes)
  {
    var front := [OfRatification(RatificationAfter(texts, input, p, Deferred))];
    KeepMaturingShape(texts, input, p, packet, front);
    DeferredFront(records, texts, input, p, front);
    hide *;
    ExpectedOf(records, texts, input, p, packet, PlanKeepMaturing(texts, input, p, packet).writes, front);
  }

  lemma KeepMaturingShape(texts: Texts, input: Input, p: Proposal, packet: Option<Packet>, front: seq<Record>)
    requires input.action == KeepMaturing && front == [OfRatification(RatificationAfter(texts, input, p, Deferred))]
    ensures HasShape(PlanKeepMaturing(texts, input, p, packet).writes, front, packet, input,
                     DispositionAfter(texts, input, p, packet))
  {
    DispositionMeets(texts, input, p, packet);
    IdsMeet(texts, input, p);
    PacketMeets(packet, input, Answered);
    hide MakeDisposition, RatificationId, DispositionId, FileId, PacketIds, AutoPage, UpdatedPacket, PacketWrites;
    var disposition := DispositionAfter(texts, input, p, packet);
    ShapeOf(front, packet, input, disposition);
    assert PlanKeepMaturing(texts, input, p, packet).writes
        == front + PacketWrites(UpdatedPacket(packet, input.now, Answered)) + [OfDisposition(disposition)];
  }

  lemma DeferredFront(records: Records, texts: Texts, input: Input, p: Proposal, front: seq<Record>)
    requires input.action == KeepMaturing && front == [OfRatification(RatificationAfter(texts, input, p, Deferred))]
    ensures FrontExpected(records, texts, input, p, front)
  {
    hide RatificationAfter;
    assert front[0] in front;
  }

  lemma SubsumeMeets(records: Records, texts: Texts, input: Input, p: Proposal, packet: Option<Packet>)
    requires input.action == Subsume
    requires PlanSubsume(records, texts, input, p, packet).report.status == WasApplied
    ensures WritesExpected(records, texts, input, p, packet, PlanSubsume(records, texts, input, p, packet).writes)
  {
    DispositionMeets(texts, input, p, packet);
    PacketMeets(packet, input, Answered);
    hide MakeDisposition, DispositionId, FileId, PacketIds, AutoPage, SameSlotRefs, HasCanon, UpdatedPacket,
         PacketWrites;
    var disposition := DispositionAfter(texts, input, p, packet);
    ShapeOf([], packet, input, disposition);
    assert PlanSubsume(records, texts, input, p, packet).writes
        == [] + PacketWrites(UpdatedPacket(packet, input.now, Answered)) + [OfDisposition(disposition)];
    hide PlanSubsume, DispositionAfter, PacketAfter, HasShape;
    ExpectedOf(records, texts, input, p, packet, PlanSubsume(records, texts, input, p, packet).writes, []);
  }

  lemma PageIdMeets(texts: Texts, input: Input, p: Proposal)
    ensures PageId(texts, input, p) == PageIdOf(texts, input, p)
  {
  }

  lemma EvidenceOnce(p: Proposal)
    ensures AreRefs(Deduplicated(p.evidenceRefs), SetOf(p.evidenceRefs))
    ensures SetOf(Deduplicated(p.evidenceRefs)) == SetOf(p.evidenceRefs)
  {
  }

  lemma PageMeets(records: Records, texts: Texts, input: Input, p: Proposal)
    requires Filed(records)
    ensures IsPageAfter(MakePage(records, texts, input, p), PageIn(records, PageIdOf(texts, input, p)), texts, input, p)
  {
    PageIdMeets(texts, input, p);
    EvidenceOnce(p);
    var before := PageIn(records, PageIdOf(texts, input, p));
    var claimId := ClaimIdOf(texts, p);
    if before.Some? {
      MergedRefs(before.value.sourceRefs, Deduplicated(p.evidenceRefs));
      MergedRefs(before.value.claimRefs, [claimId]);
    }
    assert SetOf([claimId]) == {claimId} && AreRefs([claimId], {claimId});
    hide PageIdOf, PageId, Deduplicated, MergeRefs, AreRefs, SetOf;
    assert before.None? ==> {} + SetOf(p.evidenceRefs) == SetOf(p.evidenceRefs) && {} + {claimId} == {claimId};
  }

  lemma ClaimMeets(records: Records, texts: Texts, input: Input, p: Proposal)
    ensures IsClaimAfter(MakeClaim(records, texts, input, p), ClaimIn(records, ClaimIdOf(texts, p)), texts, input, p)
  {
    PageIdMeets(texts, input, p);
    EvidenceOnce(p);
    assert p.evidenceRefs == [] ==> Deduplicated(p.evidenceRefs) == [];
    hide PageIdOf, PageId, Deduplicated;
    if p.evidenceRefs != [] { assert p.evidenceRefs[0] in Deduplicated(p.evidenceRefs); }
    assert AreRefs([p.id], {p.id});
    hide AreRefs, SetOf;
  }

  lemma WikiShape(records: Records, texts: Texts, input: Input, p: Proposal, packet: Option<Packet>)
    requires Filed(records) && input.action == MoveToWiki
    ensures HasShape(PlanMoveToWiki(records, texts, input, p, packet).writes,
                     [OfPage(MakePage(records, texts, input, p)), OfClaim(MakeClaim(records, texts, input, p))],
                     packet, input, DispositionAfter(texts, input, p, packet))
  {
    PageIdMeets(texts, input, p);
    DispositionMeets(texts, input, p, packet);
    PacketMeets(packet, input, Answered);
    var page, claim := MakePage(records, texts, input, p), MakeClaim(records, texts, input, p);
    assert page.id == PageIdOf(texts, input, p) by { PageMeets(records, texts, input, p); }
    assert claim.id == ClaimIdOf(texts, p);
    hide MakeDisposition, DispositionId, FileId, PacketIds, AutoPage, MakePage, MakeClaim, PageIdOf, PageId,
         UpdatedPacket, PacketWrites, ClaimIdOf;
    var disposition := DispositionAfter(texts, input, p, packet);
    var front := [OfPage(page), OfClaim(claim)];
    ShapeOf(front, packet, input, disposition);
    assert MakeDisposition(texts, input, p, packet).(
      pageRef := Some(page.id), claimRef := Some(claim.id),
      packetAfter := StatusOf(UpdatedPacket(packet, input.now, Answered))) == disposition;
    hide DispositionAfter, HasShape, StatusOf;
    assert PlanMoveToWiki(records, texts, input, p, packet).writes
        == front + PacketWrites(UpdatedPacket(packet, input.now, Answered)) + [OfDisposition(disposition)];
  }

  lemma WikiMeets(records: Records, texts: Texts, input: Input, p: Proposal, packet: Option<Packet>)
    requires Filed(records) && input.action == MoveToWiki
    ensures WritesExpected(records, texts, input, p, packet, PlanMoveToWiki(records, texts, input, p, packet).writes)
  {
    WikiShape(records, texts, input, p, packet);
    PageMeets(records, texts, input, p);
    ClaimMeets(records, texts, input, p);
    var page, claim := MakePage(records, texts, input, p), MakeClaim(records, texts, input, p);
    var front := [OfPage(page), OfClaim(claim)];
    assert front[0] in front && front[1] in front;
    hide PlanMoveToWiki, DispositionAfter, IsPageAfter, IsClaimAfter, MakePage, MakeClaim, HasShape;
    assert FrontExpected(records, texts, input, p, front);
    hide *;
    ExpectedOf(records, texts, input, p, packet, PlanMoveToWiki(records, texts, input, p, packet).writes, front);
  }

  lemma PlanMeets(records: Records, texts: Texts, choice: Choice, p: Proposal)
    requires Filed(records) && IsWritten(records, texts, choice)
    requires RequireProposal(records, choice.input.proposalRef) == Ok(p)
    ensures WritesExpected(records, texts, choice.input, p, choice.packet,
                           PlanDecision(records, texts, choice.input, choice.packet).value.writes)
  {
    hide PlanRatify, PlanSubsume, PlanKeepMaturing, PlanReject, PlanMoveToWiki, IsAlreadyApplied, WritesExpected;
    match choice.input.action {
      case Ratify => RatifyMeets(records, texts, choice.input, p, choice.packet);
      case Subsume => SubsumeMeets(records, texts, choice.input, p, choice.packet);
      case KeepMaturing => KeepMaturingMeets(records, texts, choice.input, p, choice.packet);
      case Reject => RejectMeets(records, texts, choice.input, p, choice.packet);
      case MoveToWiki => WikiMeets(records, texts, choice.input, p, choice.packet);
    }
  }

  // ---------------------------------------------------------------- the store after a decision

  datatype Kind = Packets | Dispositions | Ratifications | Proposals | Pages | Claims | Canons

  predicate IsOf(k: Key, kind: Kind) {
    match kind
    case Packets => k.PacketKey?
    case Dispositions => k.DispositionKey?
    case Ratifications => k.RatificationKey?
    case Proposals => k.ProposalKey?
    case Pages => k.PageKey?
    case Claims => k.ClaimKey?
    case Canons => k.CanonFile?
  }

  /** The file holds the record, and no file of the kind but this one was touched. */
  ghost predicate OnlyChange(before: Records, after: Records, kind: Kind, r: Option<Record>) {
    && (r.Some? ==> FileOf(r.value) in after && after[FileOf(r.value)] == r.value)
    && forall k :: IsOf(k, kind) && (r.Some? ==> k != FileOf(r.value)) ==> J.SameRecord(before, after, k)
  }

  /** Everything a decision leaves beside canon. */
  ghost predicate LeavesExpected(before: Records, after: Records, texts: Texts, input: Input, p: Proposal,
                                 packet: Option<Packet>)
  {
    && OnlyChange(before, after, Packets,
                  if packet.Some? then Some(OfPacket(PacketAfter(packet.value, input))) else None)
    && OnlyChange(before, after, Dispositions,
                  Some(OfDisposition(DispositionAfter(texts, input, p, packet))))
    && OnlyChange(before, after, Ratifications,
                  if DecisionOf(input.action).None? then None
                  else Some(OfRatification(RatificationAfter(texts, input, p, DecisionOf(input.action).value))))
    && OnlyChange(before, after, Proposals,
                  if input.action == Reject then Some(OfProposal(p.(state := ProposalRejected))) else None)
    && (if input.action != MoveToWiki then OnlyChange(before, after, Pages, None)
        && OnlyChange(before, after, Claims, None)
        else
          exists page, claim ::
            && IsPageAfter(page, PageIn(before, PageIdOf(texts, input, p)), texts, input, p)
            && IsClaimAfter(claim, ClaimIn(before, ClaimIdOf(texts, p)), texts, input, p)
            && OnlyChange(before, after, Pages, Some(OfPage(page)))
            && OnlyChange(before, after, Claims, Some(OfClaim(claim))))
    && (input.action != Ratify ==> OnlyChange(before, after, Canons, None))
  }

  /** What is written to the files of a kind is what they hold. */
  lemma KindIsLeft(before: Records, writes: seq<Record>, kind: Kind, r: Option<Record>)
    requires forall w :: w in writes && IsOf(FileOf(w), kind) ==> r == Some(w)
    requires r.Some? ==> r.value in writes && IsOf(FileOf(r.value), kind)
    ensures OnlyChange(before, WriteRecords(before, writes), kind, r)
  {
    forall k | IsOf(k, kind) && (r.Some? ==> k != FileOf(r.value))
      ensures J.SameRecord(before, WriteRecords(before, writes), k) {
      J.NotWritten(before, writes, k);
    }
    if r.Some? { WrittenOrKept(before, writes, FileOf(r.value)); }
  }

  lemma WikiIsLeft(before: Records, texts: Texts, input: Input, p: Proposal, writes: seq<Record>)
    requires WritesWiki(before, texts, input, p, writes) && input.action == MoveToWiki
    ensures exists page, claim ::
              && IsPageAfter(page, PageIn(before, PageIdOf(texts, input, p)), texts, input, p)
              && IsClaimAfter(claim, ClaimIn(before, ClaimIdOf(texts, p)), texts, input, p)
              && OnlyChange(before, WriteRecords(before, writes), Pages, Some(OfPage(page)))
              && OnlyChange(before, WriteRecords(before, writes), Claims, Some(OfClaim(claim)))
  {
    hide IsPageAfter, IsClaimAfter, PageIdOf, WriteRecords, OnlyChange;
    var page, claim :|
      && OfPage(page) in writes && OfClaim(claim) in writes
      && (forall w :: w in writes && w.OfPage? ==> w == OfPage(page))
      && (forall w :: w in writes && w.OfClaim? ==> w == OfClaim(claim))
      && IsPageAfter(page, PageIn(before, PageIdOf(texts, input, p)), texts, input, p)
      && IsClaimAfter(claim, ClaimIn(before, ClaimIdOf(texts, p)), texts, input, p);
    KindIsLeft(before, writes, Pages, Some(OfPage(page)));
    KindIsLeft(before, writes, Claims, Some(OfClaim(claim)));
  }

  lemma ExpectedIsLeft(before: Records, texts: Texts, input: Input, p: Proposal, packet: Option<Packet>,
                       writes: seq<Record>)
    requires WritesExpected(before, texts, input, p, packet, writes)
    requires input.action != Ratify ==> forall w :: w in writes ==> !w.OfCanon?
    ensures LeavesExpected(before, WriteRecords(before, writes), texts, input, p, packet)
  {
    hide WriteRecords, OnlyChange, WritesWiki, IsPageAfter, IsClaimAfter, PageIdOf, PacketAfter, DispositionAfter,
         RatificationAfter;
    KindIsLeft(before, writes, Packets,
               if packet.Some? then Some(OfPacket(PacketAfter(packet.value, input))) else None);
    KindIsLeft(before, writes, Dispositions, Some(OfDisposition(DispositionAfter(texts, input, p, packet))));
    KindIsLeft(before, writes, Ratifications,
               if DecisionOf(input.action).None? then None
               else Some(OfRatification(RatificationAfter(texts, input, p, DecisionOf(input.action).value))));
    KindIsLeft(before, writes, Proposals,
               if input.action == Reject then Some(OfProposal(p.(state := ProposalRejected))) else None);
    if input.action == MoveToWiki {
      WikiIsLeft(before, texts, input, p, writes);
    } else {
      NoWiki(before, texts, input, p, writes);
      KindIsLeft(before, writes, Pages, None);
      KindIsLeft(before, writes, Claims, None);
    }
    if input.action != Ratify { KindIsLeft(before, writes, Canons, None); }
  }

  lemma NoWiki(before: Records, texts: Texts, input: Input, p: Proposal, writes: seq<Record>)
    requires WritesWiki(before, texts, input, p, writes) && input.action != MoveToWiki
    ensures forall w :: w in writes ==> !w.OfPage? && !w.OfClaim?
  {
  }

  /**
   What a written decision leaves beside canon: the packet that was answered or applied now, the disposition with
   everything it refers to, the ratification with its verdict, the proposal when it is rejected, the page and the claim;
   and nothing else of these kinds has changed.
   */
  lemma DecisionLeaves(records: Records, texts: Texts, choice: Choice, p: Proposal)
    requires Filed(records) && IsWritten(records, texts, choice)
    requires RequireProposal(records, choice.input.proposalRef) == Ok(p)
    ensures LeavesExpected(records, Apply(records, texts, choice), texts, choice.input, p, choice.packet)
  {
    PlanMeets(records, texts, choice, p);
    var writes := PlanDecision(records, texts, choice.input, choice.packet).value.writes;
    assert Apply(records, texts, choice) == WriteRecords(records, writes);
    if choice.input.action != Ratify { CanonIsLeft(records, texts, choice, p); }
    hide *;
    ExpectedIsLeft(records, texts, choice.input, p, choice.packet, writes);
  }

  lemma CanonIsLeft(records: Records, texts: Texts, choice: Choice, p: Proposal)
    requires Filed(records) && IsWritten(records, texts, choice) && choice.input.action != Ratify
    requires RequireProposal(records, choice.input.proposalRef) == Ok(p)
    ensures forall w :: w in PlanDecision(records, texts, choice.input, choice.packet).value.writes ==> !w.OfCanon?
  {
    OtherPlansLeaveCanon(records, texts, choice.input, p, choice.packet);
    hide PlanRatify, PlanSubsume, PlanKeepMaturing, PlanReject, PlanMoveToWiki, IsAlreadyApplied;
  }

  // ---------------------------------------------------------------- when a decision is written

  /** The stored proposal is open to the owner. */
  predicate IsOpen(records: Records, p: Proposal) {
    ProposalKey(p.id) in records && records[ProposalKey(p.id)] == OfProposal(p)
    && p.state == Proposed && p.ownerRatificationRequired
  }

  /** A stored ratification approved or rejected the proposal. */
  predicate HasVerdict(records: Records, id: string) {
    exists k :: k in records && records[k].OfRatification? && records[k].ratification.proposalRef == id
                && records[k].ratification.decision != Deferred
  }

  /** A stored disposition of the action refers to the proposal. */
  predicate WasTaken(records: Records, id: string, action: Action) {
    exists k :: k in records && records[k].OfDisposition? && records[k].disposition.action == Some(action)
                && (id in records[k].disposition.proposalRefs || id in records[k].disposition.inputRefs)
  }

  /** The canonical record that a subsumption names. */
  predicate NamesCanon(records: Records, target: Option<string>) {
    target.Some? && target.value != ""
    && exists k :: k in records && records[k].OfCanon? && records[k].canon.id == target.value
  }

  /**
   A decision other than a ratification is written exactly when the proposal is open, has no verdict, the action was not
   taken before, the run is not dry, and a subsumption names a stored canonical record.
   */
  lemma WrittenExactly(records: Records, texts: Texts, choice: Choice)
    requires Filed(records) && choice.input.action != Ratify
    ensures IsWritten(records, texts, choice) <==>
            && (exists p: Proposal :: p.id == choice.input.proposalRef && IsOpen(records, p))
            && !HasVerdict(records, choice.input.proposalRef)
            && !WasTaken(records, choice.input.proposalRef, choice.input.action)
            && !choice.input.dryRun
            && (choice.input.action == Subsume ==> NamesCanon(records, choice.input.targetCanon))
  {
    var id := choice.input.proposalRef;
    AppliedMeaning(records, id, choice.input.action);
    OpenMeaning(records, id);
    assert NamesCanon(records, choice.input.targetCanon) <==>
           choice.input.targetCanon.Some? && choice.input.targetCanon.value != ""
           && HasCanon(records, choice.input.targetCanon.value);
    hide IsAlreadyApplied, HasVerdict, WasTaken, NamesCanon, HasCanon, MakeDisposition, MakePage, MakeClaim,
         SameSlotRefs, IsOpen, UpdatedPacket, PacketWrites;
  }

  lemma AppliedMeaning(records: Records, id: string, action: Action)
    ensures IsAlreadyApplied(records, id, action) <==> HasVerdict(records, id) || WasTaken(records, id, action)
  {
    if k :| k in records && records[k].OfRatification? && records[k].ratification.proposalRef == id
            && records[k].ratification.decision != Deferred {
      assert VerdictOn(records[k], id);
    }
    if k :| k in records && VerdictOn(records[k], id) { assert records[k].ratification.decision != Deferred; }
  }

  lemma OpenMeaning(records: Records, id: string)
    requires Filed(records)
    ensures RequireProposal(records, id).Ok? <==> exists p: Proposal :: p.id == id && IsOpen(records, p)
    ensures RequireProposal(records, id).Ok? ==> RequireProposal(records, id).value.id == id
  {
    if RequireProposal(records, id).Ok? { assert IsOpen(records, RequireProposal(records, id).value); }
  }

  /** The stored record that the proposal refers to. */
  predicate IsTarget(records: Records, p: Proposal, r: Canon) {
    && p.target == Some(Reference(r.id, r.kind, "canon"))
    && CanonFile(CanonKey(r.kind, r.id)) in records && records[CanonFile(CanonKey(r.kind, r.id))] == OfCanon(r)
  }

  /** A canonical record of any kind and state has the slot of the proposal, which is not blank. */
  predicate SlotIsKnown(records: Records, texts: Texts, p: Proposal) {
    p.payload.slot.Text? && !texts.blank(p.payload.slot.text)
    && exists k :: k in records && records[k].OfCanon? && records[k].canon.slot == p.payload.slot.text
  }

  /** The decision refuses: a create of a known slot, or another operation without a stored target. */
  ghost predicate RefusesToRatify(records: Records, texts: Texts, p: Proposal) {
    if p.operation == Create then SlotIsKnown(records, texts, p) else forall r :: !IsTarget(records, p, r)
  }

  /** The engine applies: a claim for canon, and a target of the proposal's kind unless the record is new. */
  ghost predicate EngineApplies(records: Records, p: Proposal) {
    && p.targetLayer == "canon" && (p.operation != Supersede ==> HasClaim(p.payload))
    && (p.operation != Create ==>
          exists r :: IsTarget(records, p, r) && r.kind == p.candidateKind
                      && (p.payload.kind == Absent || p.payload.kind == Text(r.kind)))
  }

  lemma TargetMeaning(records: Records, p: Proposal, r: Canon)
    requires Filed(records)
    ensures FindTarget(CanonIn(records), p.target) == Some(r) <==> IsTarget(records, p, r)
  {
    if p.target.Some? {
      var key := CanonKey(p.target.value.kind, p.target.value.id);
      assert key in CanonIn(records) ==> CanonIn(records)[key] == records[CanonFile(key)].canon;
      assert key in CanonIn(records) <==> CanonFile(key) in records && records[CanonFile(key)].OfCanon?;
    }
  }

  lemma SlotMeaning(records: Records, texts: Texts, p: Proposal)
    ensures SameSlotRefs(records, p, texts) != {} <==> SlotIsKnown(records, texts, p)
    ensures forall id :: id in SameSlotRefs(records, p, texts) <==>
              p.payload.slot.Text? && !texts.blank(p.payload.slot.text)
              && exists k :: k in records && records[k].OfCanon? && records[k].canon.slot == p.payload.slot.text
                             && records[k].canon.id == id
  {
    if SlotIsKnown(records, texts, p) {
      var k :| k in records && records[k].OfCanon? && records[k].canon.slot == p.payload.slot.text;
      assert records[k].canon.id in SameSlotRefs(records, p, texts);
    }
    if SameSlotRefs(records, p, texts) != {} {
      var id :| id in SameSlotRefs(records, p, texts);
    }
  }

  lemma RefusalMeaning(records: Records, texts: Texts, p: Proposal)
    requires Filed(records)
    ensures RefusesToRatify(records, texts, p) <==>
            if p.operation == Create then SameSlotRefs(records, p, texts) != {}
            else FindTarget(CanonIn(records), p.target).None?
  {
    SlotMeaning(records, texts, p);
    forall r ensures FindTarget(CanonIn(records), p.target) == Some(r) <==> IsTarget(records, p, r) {
      TargetMeaning(records, p, r);
    }
    hide SlotIsKnown, SameSlotRefs, FindTarget, IsTarget, CanonIn;
    var found := FindTarget(CanonIn(records), p.target);
    if found.Some? { assert IsTarget(records, p, found.value); }
  }

  lemma EngineMeaning(records: Records, texts: Texts, input: Input, p: Proposal)
    requires Filed(records) && p.state == Proposed && !RefusesToRatify(records, texts, p)
    ensures EngineApplies(records, p) <==>
            ApplyProposal(p, MakeRatification(texts, input, p, Approved), FindTarget(CanonIn(records), p.target),
                          "mem_" + texts.part(p.id), input.now).Ok?
  {
    var target := FindTarget(CanonIn(records), p.target);
    AppliesExactly(p, MakeRatification(texts, input, p, Approved), target, "mem_" + texts.part(p.id), input.now);
    RefusalMeaning(records, texts, p);
    forall r ensures target == Some(r) <==> IsTarget(records, p, r) { TargetMeaning(records, p, r); }
    assert target.Some? ==> IsTarget(records, p, target.value);
    hide FindTarget, CanonIn, ApplyProposal, RatificationId, SameSlotRefs, SlotIsKnown, RefusesToRatify;
    if EngineApplies(records, p) && p.operation != Create {
      var r :| IsTarget(records, p, r) && r.kind == p.candidateKind
               && (p.payload.kind == Absent || p.payload.kind == Text(r.kind));
      assert target == Some(r);
    }
  }

  /** A ratification is written exactly when the proposal is open and undecided, and neither check stops it. */
  lemma RatifiedExactly(records: Records, texts: Texts, choice: Choice, p: Proposal)
    requires Filed(records) && choice.input.action == Ratify && p.id == choice.input.proposalRef && IsOpen(records, p)
    ensures IsWritten(records, texts, choice) <==>
            && !HasVerdict(records, p.id) && !WasTaken(records, p.id, Ratify) && !choice.input.dryRun
            && !RefusesToRatify(records, texts, p) && EngineApplies(records, p)
  {
    AppliedMeaning(records, p.id, Ratify);
    RefusalMeaning(records, texts, p);
    if !RefusesToRatify(records, texts, p) { EngineMeaning(records, texts, choice.input, p); }
    hide IsAlreadyApplied, HasVerdict, WasTaken, SameSlotRefs, FindTarget, CanonIn, RefusesToRatify, EngineApplies,
         ApplyProposal, MakeDisposition, RatificationId, UpdatedPacket, PacketWrites, CanonWrites;
  }

  // ---------------------------------------------------------------- what is reported

  function PacketRef(packet: Option<Packet>): seq<string> { if packet.Some? then [packet.value.id] else [] }

  /** The ids of the records that are new by their nature; a page is new when it has no file. */
  function CreatedRefs(records: Records, texts: Texts, input: Input, p: Proposal): seq<string> {
    var ratification := FileId("rat_owner_decision_", texts, p, input.action);
    var disposition := FileId("disp_owner_decision_", texts, p, input.action);
    match input.action
    case Ratify => [ratification] + (if p.operation == Supersede then [] else ["mem_" + texts.part(p.id)])
                   + [disposition]
    case Subsume => [disposition]
    case MoveToWiki =>
      [ClaimIdOf(texts, p), disposition]
      + (if PageKey(PageIdOf(texts, input, p)) in records then [] else [PageIdOf(texts, input, p)])
    case _ => [ratification, disposition]
  }

  /** The ids of the records that are rewritten: the target, the page, the proposal, and the packet. */
  function UpdatedRefs(records: Records, texts: Texts, input: Input, p: Proposal, packet: Option<Packet>): seq<string> {
    (match input.action
     case Ratify => if p.operation == Create || p.target.None? then [] else [p.target.value.id]
     case MoveToWiki =>
       if PageKey(PageIdOf(texts, input, p)) in records then [PageIdOf(texts, input, p)] else []
     case Reject => [p.id]
     case _ => [])
    + PacketRef(packet)
  }

  /** The decision is refused: a create of a known slot, a missing target, or no canonical record to subsume under. */
  ghost predicate IsRefused(records: Records, texts: Texts, input: Input, p: Proposal) {
    || (input.action == Ratify && RefusesToRatify(records, texts, p))
    || (input.action == Subsume && !NamesCanon(records, input.targetCanon))
  }

  lemma RatifyRefs(records: Records, texts: Texts, input: Input, p: Proposal, packet: Option<Packet>)
    requires Filed(records) && input.action == Ratify && IsOpen(records, p)
    requires !RefusesToRatify(records, texts, p) && EngineApplies(records, p)
    ensures PlanRatify(records, texts, input, p, packet).Ok?
    ensures PlanRatify(records, texts, input, p, packet).value.report
            == Report(WasApplied, CreatedRefs(records, texts, input, p),
                      UpdatedRefs(records, texts, input, p, packet), {})
  {
    RefusalMeaning(records, texts, p);
    EngineMeaning(records, texts, input, p);
    IdsMeet(texts, input, p);
    var ratification := MakeRatification(texts, input, p, Approved);
    var target := FindTarget(CanonIn(records), p.target);
    ApplicationWrites(p, ratification, target, "mem_" + texts.part(p.id), input.now);
    if target.Some? { TargetMeaning(records, p, target.value); }
    var applied := ApplyProposal(p, ratification, target, "mem_" + texts.part(p.id), input.now).value;
    AppliedIds(applied, p, ratification, target, "mem_" + texts.part(p.id), input.now);
    DispositionIdMeets(texts, input, p, packet);
    PacketIdMeets(packet, input.now, AppliedPacket);
    hide FindTarget, CanonIn, ApplyProposal, RatificationId, FileId, SameSlotRefs, RefusesToRatify, EngineApplies,
         MakeDisposition, CanonWrites, PacketWrites, IsCreation, IsRevision, IsRetirement, PacketIds, UpdatedPacket,
         PacketRef;
  }

  lemma AppliedIds(applied: Applied, p: Proposal, ratification: Ratification, target: Option<Canon>, id: string,
                   now: int)
    requires match p.operation
             case Create => IsCreation(applied, p, ratification, id, now)
             case Revise => target.Some? && IsRevision(applied, p, ratification, target.value, id, now)
             case Supersede => target.Some? && IsRetirement(applied, p, ratification, target.value, now)
    ensures (if applied.created.Some? then CanonIds([applied.created.value]) else [])
            == if p.operation == Supersede then [] else [id]
    ensures CanonIds(applied.updated) == if p.operation == Create then [] else [target.value.id]
  {
    hide AreRefs;
  }

  lemma PacketIdMeets(packet: Option<Packet>, now: int, status: PacketStatus)
    ensures PacketIds(UpdatedPacket(packet, now, status)) == PacketRef(packet)
  {
  }

  lemma DispositionIdMeets(texts: Texts, input: Input, p: Proposal, packet: Option<Packet>)
    ensures MakeDisposition(texts, input, p, packet).id == FileId("disp_owner_decision_", texts, p, input.action)
  {
    DispositionMeets(texts, input, p, packet);
    hide FileId, MakeDisposition;
  }

  /** The report of a decision that is neither repeated nor refused. */
  function FullReport(records: Records, texts: Texts, input: Input, p: Proposal, packet: Option<Packet>): Report {
    Report(WasApplied, CreatedRefs(records, texts, input, p), UpdatedRefs(records, texts, input, p, packet),
           if input.action == Subsume && input.targetCanon.Some? then {input.targetCanon.value} else {})
  }

  lemma OtherRefs(records: Records, texts: Texts, input: Input, p: Proposal, packet: Option<Packet>)
    ensures input.action == KeepMaturing ==>
              PlanKeepMaturing(texts, input, p, packet).report == FullReport(records, texts, input, p, packet)
    ensures input.action == Reject ==>
              PlanReject(texts, input, p, packet).report == FullReport(records, texts, input, p, packet)
    ensures input.action == Subsume && NamesCanon(records, input.targetCanon) ==>
              PlanSubsume(records, texts, input, p, packet).report == FullReport(records, texts, input, p, packet)
  {
    IdsMeet(texts, input, p);
    DispositionIdMeets(texts, input, p, packet);
    PacketIdMeets(packet, input.now, Answered);
    assert NamesCanon(records, input.targetCanon) ==> HasCanon(records, input.targetCanon.value);
    hide FileId, RatificationId, MakeDisposition, PacketIds, UpdatedPacket, PacketRef, SameSlotRefs, HasCanon,
         NamesCanon, PacketWrites;
    assert [] + PacketRef(packet) == PacketRef(packet);
  }

  lemma WikiRefs(records: Records, texts: Texts, input: Input, p: Proposal, packet: Option<Packet>)
    requires Filed(records) && input.action == MoveToWiki
    ensures PlanMoveToWiki(records, texts, input, p, packet).report == FullReport(records, texts, input, p, packet)
  {
    PageMeets(records, texts, input, p);
    ClaimMeets(records, texts, input, p);
    DispositionIdMeets(texts, input, p, packet);
    PacketIdMeets(packet, input.now, Answered);
    hide FileId, MakeDisposition, PacketIds, UpdatedPacket, PacketRef, MakePage, MakeClaim, PageIdOf, PacketWrites,
         AreRefs;
  }

  ghost predicate HasLinks(records: Records, texts: Texts, p: Proposal, linked: set<string>) {
    forall id :: id in linked <==>
      p.payload.slot.Text? && !texts.blank(p.payload.slot.text)
      && exists k :: k in records && records[k].OfCanon? && records[k].canon.slot == p.payload.slot.text
                     && records[k].canon.id == id
  }

  /**
   What a decision on an open proposal answers: nothing for one that was decided or taken before; the records of the
   slot for a refused one; an exception where the engine does not apply; and otherwise, dry run or not, the records
   that are new, those that are rewritten and the record it subsumes under.
   */
  lemma ReportExactly(records: Records, texts: Texts, input: Input, p: Proposal, packet: Option<Packet>)
    requires Filed(records) && p.id == input.proposalRef && IsOpen(records, p)
    ensures var r := ReportOf(PlanDecision(records, texts, input, packet), input);
            if HasVerdict(records, p.id) || WasTaken(records, p.id, input.action) then
              r == Ok(Report(WasAlreadyApplied, [], [], {}))
            else if IsRefused(records, texts, input, p) then
              exists linked :: r == Ok(Report(RejectedByValidation, [], [], linked))
                && HasLinks(records, texts, p, linked)
            else if input.action == Ratify && !EngineApplies(records, p) then r.Thrown?
            else
              r == Ok(FullReport(records, texts, input, p, packet).(
                        status := if input.dryRun then WasDryRun else WasApplied))
  {
    AppliedMeaning(records, p.id, input.action);
    hide HasVerdict, WasTaken, IsAlreadyApplied, FullReport, HasLinks;
    assert RequireProposal(records, input.proposalRef) == Ok(p);
    if !IsAlreadyApplied(records, p.id, input.action) {
      if IsRefused(records, texts, input, p) {
        RefusedReport(records, texts, input, p, packet);
      } else {
        UnrefusedReport(records, texts, input, p, packet);
      }
    }
    hide PlanRatify, PlanSubsume, PlanKeepMaturing, PlanReject, PlanMoveToWiki, IsRefused, EngineApplies;
  }

  lemma RefusedReport(records: Records, texts: Texts, input: Input, p: Proposal, packet: Option<Packet>)
    requires Filed(records) && IsRefused(records, texts, input, p)
    ensures HasLinks(records, texts, p, SameSlotRefs(records, p, texts))
    ensures var report := Report(RejectedByValidation, [], [], SameSlotRefs(records, p, texts));
            if input.action == Ratify then
              PlanRatify(records, texts, input, p, packet).Ok?
                && PlanRatify(records, texts, input, p, packet).value.report == report
            else input.action == Subsume && PlanSubsume(records, texts, input, p, packet).report == report
  {
    SlotMeaning(records, texts, p);
    RefusalMeaning(records, texts, p);
    assert NamesCanon(records, input.targetCanon) <==>
           input.targetCanon.Some? && input.targetCanon.value != "" && HasCanon(records, input.targetCanon.value);
    hide SameSlotRefs, RefusesToRatify, FindTarget, CanonIn, ApplyProposal, NamesCanon, HasCanon, MakeDisposition;
  }

  lemma UnrefusedReport(records: Records, texts: Texts, input: Input, p: Proposal, packet: Option<Packet>)
    requires Filed(records) && IsOpen(records, p) && !IsRefused(records, texts, input, p)
    ensures var report := FullReport(records, texts, input, p, packet);
            match input.action
            case Ratify =>
              var plan := PlanRatify(records, texts, input, p, packet);
              if EngineApplies(records, p) then plan.Ok? && plan.value.report == report else plan.Thrown?
            case Subsume => PlanSubsume(records, texts, input, p, packet).report == report
            case KeepMaturing => PlanKeepMaturing(texts, input, p, packet).report == report
            case Reject => PlanReject(texts, input, p, packet).report == report
            case MoveToWiki => PlanMoveToWiki(records, texts, input, p, packet).report == report
  {
    match input.action {
      case Ratify =>
        if EngineApplies(records, p) {
          RatifyRefs(records, texts, input, p, packet);
        } else {
          RefusalMeaning(records, texts, p);
          EngineMeaning(records, texts, input, p);
        }
        hide PacketWrites, EngineApplies, RefusesToRatify, FindTarget, CanonIn, ApplyProposal, SameSlotRefs,
             MakeDisposition, CreatedRefs, UpdatedRefs;
      case MoveToWiki => WikiRefs(records, texts, input, p, packet);
      case _ => OtherRefs(records, texts, input, p, packet);
    }
  }

  lemma OnlyOpenProposals(records: Records, texts: Texts, input: Input, packet: Option<Packet>)
    requires Filed(records) && forall p: Proposal :: p.id == input.proposalRef ==> !IsOpen(records, p)
    ensures ReportOf(PlanDecision(records, texts, input, packet), input).Thrown?
    ensures After(records, PlanDecision(records, texts, input, packet), input) == records
  {
    OpenMeaning(records, input.proposalRef);
    hide IsOpen, RequireProposal;
  }

  // ---------------------------------------------------------------- packets over runs

  /** Each decision of the run takes a newest packet of its proposal. */
  ghost predicate TakesNewest(records: Records, texts: Texts, choices: seq<Choice>)
    decreases |choices|
  {
    choices != [] ==>
      && IsNewestPacket(records, choices[0].input.proposalRef, choices[0].packet)
      && TakesNewest(Apply(records, texts, choices[0]), texts, choices[1..])
  }

  predicate UsesPacket(records: Records, texts: Texts, choice: Choice, id: string) {
    IsWritten(records, texts, choice) && choice.packet.Some? && choice.packet.value.id == id
  }

  /** The last decision of the run that was written with the packet. */
  function LastUse(records: Records, texts: Texts, choices: seq<Choice>, id: string): Option<Choice>
    decreases |choices|
  {
    if choices == [] then None
    else
      var later := LastUse(Apply(records, texts, choices[0]), texts, choices[1..], id);
      if later.Some? then later
      else if UsesPacket(records, texts, choices[0], id) then Some(choices[0]) else None
  }

  function StoredPacket(records: Records, id: string): Packet
    requires Filed(records) && PacketKey(id) in records
  {
    records[PacketKey(id)].packet
  }

  lemma PacketAfterOne(records: Records, texts: Texts, choice: Choice, id: string)
    requires Filed(records) && PacketKey(id) in records
    requires IsNewestPacket(records, choice.input.proposalRef, choice.packet)
    ensures Filed(Apply(records, texts, choice)) && PacketKey(id) in Apply(records, texts, choice)
    ensures StoredPacket(Apply(records, texts, choice), id)
            == if UsesPacket(records, texts, choice, id) then PacketAfter(StoredPacket(records, id), choice.input)
               else StoredPacket(records, id)
  {
    OwnerCanon.DecisionKeepsFiled(records, texts, choice);
    if IsWritten(records, texts, choice) {
      var p := RequireProposal(records, choice.input.proposalRef).value;
      DecisionLeaves(records, texts, choice, p);
      hide Apply, IsWritten, DispositionAfter, RatificationAfter, IsPageAfter, IsClaimAfter, PageIdOf;
      if choice.packet.Some? && choice.packet.value.id == id {
        var k :| k in records && records[k] == OfPacket(choice.packet.value);
        assert FileOf(records[k]) == k == PacketKey(id);
      } else {
        assert J.SameRecord(records, Apply(records, texts, choice), PacketKey(id));
      }
    } else {
      UnwrittenChangesNothing(records, texts, choice);
    }
  }

  /**
   Over any run a packet is never lost: it keeps its origin and its proposals, and it is as the last decision that was
   written with it left it, applied exactly when that was a ratification.
   */
  lemma {:induction false} PacketsOverRuns(records: Records, texts: Texts, choices: seq<Choice>, id: string)
    requires Filed(records) && PacketKey(id) in records && TakesNewest(records, texts, choices)
    ensures var end, use := RunDecisions(records, texts, choices), LastUse(records, texts, choices, id);
            && Filed(end) && PacketKey(id) in end
            && var before, after := StoredPacket(records, id), StoredPacket(end, id);
               && after.id == before.id && after.createdAt == before.createdAt
                  && after.proposalRefs == before.proposalRefs
               && if use.None? then after == before
                  else after.updatedAt == use.value.input.now
                       && after.status == if use.value.input.action == Ratify then AppliedPacket else Answered
    decreases |choices|
  {
    hide Apply, Filed, IsNewestPacket, UsesPacket;
    if choices != [] {
      PacketAfterOne(records, texts, choices[0], id);
      PacketsOverRuns(Apply(records, texts, choices[0]), texts, choices[1..], id);
    }
  }
}
