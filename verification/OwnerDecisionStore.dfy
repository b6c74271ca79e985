/** `applyOwnerDecisionUnlocked` as it updates the store, proved against the plan of the decision. */
module OwnerDecisionStore {
  import opened Prelude
  import opened GovernanceRecords
  import opened CanonEngine
  import opened OwnerDecisions

  class DecisionStore {
    var records: Records
    const texts: Texts

    constructor (records: Records, texts: Texts)
      ensures this.records == records && this.texts == texts
    {
      this.records := records;
      this.texts := texts;
    }

    method WriteCoreRecord(record: Record)
      modifies this`records
      ensures records == old(records)[FileOf(record) := record]
    {
      records := records[FileOf(record) := record];
    }

    /** The writes of a decision without a crash; OwnerDecisionJournal models them with one. */
    method WriteCoreRecords(writes: seq<Record>)
      modifies this`records
      ensures records == WriteRecords(old(records), writes)
    {
      var i := 0;
      while i < |writes|
        invariant 0 <= i <= |writes|
        invariant WriteRecords(records, writes[i..]) == WriteRecords(old(records), writes)
      {
        assert writes[i..][0] == writes[i] && writes[i..][1..] == writes[i + 1..];
        WriteCoreRecord(writes[i]);
        i := i + 1;
      }
    }

    /** The newest packet that mentions the proposal; the order of packets created at one time is left open. */
    method PendingCurationPacket(proposalId: string) returns (packet: Option<Packet>)
      ensures IsNewestPacket(records, proposalId, packet)
    {
      packet := None;
      var remaining := records.Keys;
      while remaining != {}
        invariant remaining <= records.Keys
        invariant IsNewestPacket(map k | k in records && k !in remaining :: records[k], proposalId, packet)
        decreases |remaining|
      {
        var k :| k in remaining;
        ghost var seen := map j | j in records && j !in remaining :: records[j];
        ghost var next := map j | j in records && j !in remaining - {k} :: records[j];
        assert next == seen[k := records[k]];
        if IsPacketOf(records[k], proposalId)
           && (packet.None? || packet.value.createdAt < records[k].packet.createdAt) {
          packet := Some(records[k].packet);
          assert next[k] == OfPacket(packet.value);
        } else if packet.Some? {
          ghost var j :| j in seen && seen[j] == OfPacket(packet.value) && IsPacketOf(seen[j], proposalId);
          assert next[j] == seen[j];
        }
        remaining := remaining - {k};
      }
      assert (map k | k in records && k !in remaining :: records[k]) == records;
    }

    /** The end of every action that is not refused: write the records unless the run is dry, and report. */
    method Finish(input: Input, writes: seq<Record>, created: seq<string>, updated: seq<string>, linked: set<string>)
        returns (result: Result<Report>)
      modifies this`records
      ensures result == Ok(Report(if input.dryRun then WasDryRun else WasApplied, created, updated, linked))
      ensures records == if input.dryRun then old(records) else WriteRecords(old(records), writes)
    {
      if !input.dryRun { WriteCoreRecords(writes); }
      result := Ok(Report(if input.dryRun then WasDryRun else WasApplied, created, updated, linked));
    }

    /** The `ratify` branch: refused, thrown or written. */
    method RatifyProposal(input: Input, proposal: Proposal, packet: Option<Packet>) returns (result: Result<Report>)
      modifies this`records
      ensures result == ReportOf(PlanRatify(old(records), texts, input, proposal, packet), input)
      ensures records == After(old(records), PlanRatify(old(records), texts, input, proposal, packet), input)
    {
      hide WriteRecords, MakeDisposition, RatificationId, SameSlotRefs, ApplyProposal, FindTarget;
      var target := FindTarget(CanonIn(records), proposal.target);
      var existing := SameSlotRefs(records, proposal, texts);
      if (proposal.operation == Create && existing != {}) || (proposal.operation != Create && target.None?) {
        result := Ok(Report(RejectedByValidation, [], [], existing));
        WriteNothing(records);
        return;
      }
      var ratification := MakeRatification(texts, input, proposal, Approved);
      var applied := ApplyProposal(proposal, ratification, target, "mem_" + texts.part(proposal.id), input.now);
      if applied.Thrown? { return Thrown(applied.message); }
      var made := if applied.value.created.Some? then [applied.value.created.value] else [];
      var update := UpdatedPacket(packet, input.now, AppliedPacket);
      var disposition := MakeDisposition(texts, input, proposal, packet).(
        ratificationRef := Some(ratification.id), proposalAfter := Some(proposal.state),
        packetAfter := StatusOf(update));
      var created := [ratification.id] + CanonIds(made) + [disposition.id];
      var updated := CanonIds(applied.value.updated) + PacketIds(update);
      var writes := [OfRatification(ratification)] + CanonWrites(made) + CanonWrites(applied.value.updated)
                    + PacketWrites(update) + [OfDisposition(disposition)];
      result := Finish(input, writes, created, updated, {});
    }

    /** The `subsume` branch. */
    method SubsumeProposal(input: Input, proposal: Proposal, packet: Option<Packet>) returns (result: Result<Report>)
      modifies this`records
      ensures result == ReportOf(Ok(PlanSubsume(old(records), texts, input, proposal, packet)), input)
      ensures records == After(old(records), Ok(PlanSubsume(old(records), texts, input, proposal, packet)), input)
    {
      hide WriteRecords, MakeDisposition, RatificationId, SameSlotRefs, HasCanon;
      if input.targetCanon.None? || input.targetCanon.value == "" || !HasCanon(records, input.targetCanon.value) {
        result := Ok(Report(RejectedByValidation, [], [], SameSlotRefs(records, proposal, texts)));
        WriteNothing(records);
        return;
      }
      var update := UpdatedPacket(packet, input.now, Answered);
      var disposition := MakeDisposition(texts, input, proposal, packet).(
        targetCanon := input.targetCanon, packetAfter := StatusOf(update));
      var writes := PacketWrites(update) + [OfDisposition(disposition)];
      result := Finish(input, writes, [disposition.id], PacketIds(update), {input.targetCanon.value});
    }

    /** The `keep_maturing` branch. */
    method KeepMaturingProposal(input: Input, proposal: Proposal, packet: Option<Packet>)
          returns (result: Result<Report>)
      modifies this`records
      ensures result == ReportOf(Ok(PlanKeepMaturing(texts, input, proposal, packet)), input)
      ensures records == After(old(records), Ok(PlanKeepMaturing(texts, input, proposal, packet)), input)
    {
      hide WriteRecords, MakeDisposition, RatificationId;
      var ratification := MakeRatification(texts, input, proposal, Deferred);
      var update := UpdatedPacket(packet, input.now, Answered);
      var disposition := MakeDisposition(texts, input, proposal, packet).(
        ratificationRef := Some(ratification.id), packetAfter := StatusOf(update));
      var writes := [OfRatification(ratification)] + PacketWrites(update) + [OfDisposition(disposition)];
      result := Finish(input, writes, [ratification.id, disposition.id], PacketIds(update), {});
    }

    /** The `move_to_wiki` branch. */
    method MoveProposalToWiki(input: Input, proposal: Proposal, packet: Option<Packet>) returns (result: Result<Report>)
      modifies this`records
      ensures result == ReportOf(Ok(PlanMoveToWiki(old(records), texts, input, proposal, packet)), input)
      ensures records == After(old(records), Ok(PlanMoveToWiki(old(records), texts, input, proposal, packet)), input)
    {
      hide WriteRecords, MakeDisposition, RatificationId, MakePage, MakeClaim;
      var page, claim := MakePage(records, texts, input, proposal), MakeClaim(records, texts, input, proposal);
      var update := UpdatedPacket(packet, input.now, Answered);
      var disposition := MakeDisposition(texts, input, proposal, packet).(
        pageRef := Some(page.id), claimRef := Some(claim.id), packetAfter := StatusOf(update));
      var created, updated := [claim.id, disposition.id], [];
      if PageKey(page.id) !in records { created := created + [page.id]; } else { updated := updated + [page.id]; }
      updated := updated + PacketIds(update);
      assert created == [claim.id, disposition.id] + if PageKey(page.id) !in records then [page.id] else [];
      assert updated == (if PageKey(page.id) !in records then [] else [page.id]) + PacketIds(update);
      var writes := [OfPage(page), OfClaim(claim)] + PacketWrites(update) + [OfDisposition(disposition)];
      result := Finish(input, writes, created, updated, {});
    }

    /** The `reject` branch. */
    method RejectProposal(input: Input, proposal: Proposal, packet: Option<Packet>) returns (result: Result<Report>)
      modifies this`records
      ensures result == ReportOf(Ok(PlanReject(texts, input, proposal, packet)), input)
      ensures records == After(old(records), Ok(PlanReject(texts, input, proposal, packet)), input)
    {
      hide WriteRecords, MakeDisposition, RatificationId;
      var ratification := MakeRatification(texts, input, proposal, Rejected);
      var rejected := proposal.(state := ProposalRejected);
      var update := UpdatedPacket(packet, input.now, Answered);
      var disposition := MakeDisposition(texts, input, proposal, packet).(
        ratificationRef := Some(ratification.id), proposalAfter := Some(rejected.state),
        packetAfter := StatusOf(update));
      var writes := [OfProposal(rejected), OfRatification(ratification)] + PacketWrites(update)
                    + [OfDisposition(disposition)];
      result := Finish(input, writes, [ratification.id, disposition.id], [rejected.id] + PacketIds(update), {});
    }

    /** One owner decision: its report and its effect on the store are those of its plan. */
    method ApplyOwnerDecision(input: Input) returns (result: Result<Report>, ghost packet: Option<Packet>)
      modifies this`records
      ensures IsNewestPacket(old(records), input.proposalRef, packet)
      ensures result == ReportOf(PlanDecision(old(records), texts, input, packet), input)
      ensures records == After(old(records), PlanDecision(old(records), texts, input, packet), input)
    {
      hide IsNewestPacket, IsAlreadyApplied, PlanRatify, PlanSubsume, PlanKeepMaturing, PlanMoveToWiki, PlanReject;
      var pending := PendingCurationPacket(input.proposalRef);
      packet := pending;
      var required := RequireProposal(records, input.proposalRef);
      if required.Thrown? { return Thrown(required.message), packet; }
      var proposal := required.value;
      if IsAlreadyApplied(records, proposal.id, input.action) {
        return Ok(Report(WasAlreadyApplied, [], [], {})), packet;
      }
      match input.action {
        case Ratify => result := RatifyProposal(input, proposal, pending);
        case Subsume => result := SubsumeProposal(input, proposal, pending);
        case KeepMaturing => result := KeepMaturingProposal(input, proposal, pending);
        case MoveToWiki => result := MoveProposalToWiki(input, proposal, pending);
        case Reject => result := RejectProposal(input, proposal, pending);
      }
    }
  }

  lemma WriteNothing(records: Records)
    ensures WriteRecords(records, []) == records
  {
  }
}
