/** What a ratified proposal does to the canon: when it is written, and which records it creates and closes. */
module OwnerEffects {
  import opened Prelude
  import opened GovernanceRecords
  import opened CanonEngine
  import opened OwnerDecisions
  import opened OwnerRuns
  import CL = CanonLifecycle

  // ---------------------------------------------------------------- the canon after a decision

  function CanonsOf(writes: seq<Record>): seq<Canon> {
    if writes == [] then []
    else (if writes[0].OfCanon? then [writes[0].canon] else []) + CanonsOf(writes[1..])
  }

  lemma {:induction false} CanonsConcat(a: seq<Record>, b: seq<Record>)
    ensures CanonsOf(a + b) == CanonsOf(a) + CanonsOf(b)
    decreases |a|
  {
    if a == [] {
      assert a + b == b;
    } else {
      var head := if a[0].OfCanon? then [a[0].canon] else [];
      assert (a + b)[1..] == a[1..] + b && (a + b)[0] == a[0];
      CanonsConcat(a[1..], b);
      Associate(head, CanonsOf(a[1..]), CanonsOf(b));
    }
  }

  lemma Associate<T>(a: seq<T>, b: seq<T>, c: seq<T>)
    ensures (a + b) + c == a + (b + c)
  {
  }

  lemma {:induction false} CanonsOfCanonWrites(records: seq<Canon>)
    ensures CanonsOf(CanonWrites(records)) == records
    decreases |records|
  {
    if records != [] {
      assert CanonWrites(records)[1..] == CanonWrites(records[1..]);
      CanonsOfCanonWrites(records[1..]);
    }
  }

  lemma CanonAfterWrite(records: Records, w: Record)
    ensures CanonIn(records[FileOf(w) := w]) == if w.OfCanon? then Write(CanonIn(records), w.canon)
            else CanonIn(records)
  {
    var after := records[FileOf(w) := w];
    forall k ensures k in CanonIn(after) <==> k in CanonIn(records) || (w.OfCanon? && k == KeyOf(w.canon)) {
      assert k in CanonIn(after) <==> CanonFile(k) in after && after[CanonFile(k)].OfCanon?;
    }
    forall k | k in CanonIn(after) ensures CanonIn(after)[k] == after[CanonFile(k)].canon {}
  }

  /** Writing records changes the canon by the canonical ones among them. */
  lemma {:induction false} CanonAfterWrites(records: Records, writes: seq<Record>)
    ensures CanonIn(WriteRecords(records, writes)) == WriteAll(CanonIn(records), CanonsOf(writes))
    decreases |writes|
  {
    hide CanonIn, Write;
    if writes != [] {
      var first, rest := writes[0], CanonsOf(writes[1..]);
      CanonAfterWrite(records, first);
      CanonAfterWrites(records[FileOf(first) := first], writes[1..]);
      if first.OfCanon? {
        assert ([first.canon] + rest)[0] == first.canon && ([first.canon] + rest)[1..] == rest;
      } else {
        assert [] + rest == rest;
      }
    }
  }

  function NewId(texts: Texts, proposal: Proposal): string { "mem_" + texts.part(proposal.id) }

  /** What the canon engine returns for the decision. */
  function Outcome(records: Records, texts: Texts, input: Input, proposal: Proposal): Result<Applied> {
    ApplyProposal(proposal, MakeRatification(texts, input, proposal, Approved),
                  FindTarget(CanonIn(records), proposal.target),
                  NewId(texts, proposal), input.now)
  }

  /** The decision ratifies `proposal`, and its records are written. */
  predicate Ratifies(records: Records, texts: Texts, choice: Choice, proposal: Proposal) {
    && choice.input.action == Ratify && IsWritten(records, texts, choice)
    && RequireProposal(records, choice.input.proposalRef) == Ok(proposal)
  }

  lemma RatifiesOne(records: Records, texts: Texts, choice: Choice, proposal: Proposal)
    requires Ratifies(records, texts, choice, proposal)
    ensures forall p :: Ratifies(records, texts, choice, p) ==> p == proposal
  {
    hide IsWritten, RequireProposal;
  }

  /** When a proposal that is open to a decision is ratified: the guards of the decision and of the engine together. */
  predicate MayBeRatified(records: Records, texts: Texts, proposal: Proposal) {
    var target := FindTarget(CanonIn(records), proposal.target);
    && proposal.targetLayer == "canon"
    && (proposal.operation == Create ==> SameSlotRefs(records, proposal, texts) == {})
    && (proposal.operation != Create ==>
          && target.Some? && proposal.candidateKind == target.value.kind
          && (proposal.payload.kind.Absent? || proposal.payload.kind.IsText(target.value.kind)))
    && (proposal.operation != Supersede ==> HasClaim(proposal.payload))
  }

  lemma OutcomeExists(records: Records, texts: Texts, input: Input, proposal: Proposal)
    requires Filed(records) && proposal.state == Proposed
    requires proposal.operation != Create ==> FindTarget(CanonIn(records), proposal.target).Some?
    ensures Outcome(records, texts, input, proposal).Ok? <==>
            && proposal.targetLayer == "canon"
            && (proposal.operation != Create ==>
                  var target := FindTarget(CanonIn(records), proposal.target).value;
                  proposal.candidateKind == target.kind
                  && (proposal.payload.kind.Absent? || proposal.payload.kind.IsText(target.kind)))
            && (proposal.operation != Supersede ==> HasClaim(proposal.payload))
  {
    hide RatificationId;
    if proposal.operation != Create {
      var key := CanonKey(proposal.target.value.kind, proposal.target.value.id);
      assert CanonIn(records)[key] == records[CanonFile(key)].canon;
    }
  }

  /** A ratification is written exactly when the proposal is open, may be ratified, and the run is not dry. */
  lemma RatifiesExactly(records: Records, texts: Texts, choice: Choice, proposal: Proposal)
    requires Filed(records) && choice.input.action == Ratify
    requires RequireProposal(records, choice.input.proposalRef) == Ok(proposal)
    ensures Ratifies(records, texts, choice, proposal) <==>
            && !choice.input.dryRun && !IsAlreadyApplied(records, proposal.id, Ratify)
            && MayBeRatified(records, texts, proposal)
  {
    hide MakeDisposition, IsAlreadyApplied, SameSlotRefs, ApplyProposal, RatificationId;
    if proposal.operation == Create || FindTarget(CanonIn(records), proposal.target).Some? {
      OutcomeExists(records, texts, choice.input, proposal);
    }
  }

  lemma PlanRatifyWrites(records: Records, texts: Texts, input: Input, proposal: Proposal, packet: Option<Packet>)
      returns (rest: seq<Record>)
    requires PlanRatify(records, texts, input, proposal, packet).Ok? && input.action == Ratify
    requires PlanRatify(records, texts, input, proposal, packet).value.report.status == WasApplied
    ensures Outcome(records, texts, input, proposal).Ok?
    ensures var applied := Outcome(records, texts, input, proposal).value;
            var first := OfRatification(MakeRatification(texts, input, proposal, Approved));
            PlanRatify(records, texts, input, proposal, packet).value.writes
            == [first] + CanonWrites(CanonEngine.Records(applied)) + rest
    ensures rest != [] && forall w :: w in rest ==> !w.OfCanon? && !w.OfRatification? && !w.OfProposal?
    ensures packet.None? ==>
              rest == [rest[0]] && rest[0].OfDisposition?
              && rest[0].disposition.inputRefs == [proposal.id] && rest[0].disposition.proposalRefs == [proposal.id]
  {
    DispositionOf(texts, input, proposal, packet);
    hide SameSlotRefs, ApplyProposal, RatificationId, FindTarget, CanonIn, CanonWrites, MakeDisposition;
    var ratification, applied := MakeRatification(texts, input, proposal, Approved),
                                 Outcome(records, texts, input, proposal).value;
    var update := UpdatedPacket(packet, input.now, AppliedPacket);
    var disposition := MakeDisposition(texts, input, proposal, packet).(
      ratificationRef := Some(ratification.id), proposalAfter := Some(proposal.state), packetAfter := StatusOf(update));
    rest := PacketWrites(update) + [OfDisposition(disposition)];
    assert rest[|rest| - 1] == OfDisposition(disposition);
    var created := if applied.created.Some? then [applied.created.value] else [];
    CanonWritesConcat(created, applied.updated);
    Regroup([OfRatification(ratification)], CanonWrites(created), CanonWrites(applied.updated),
            PacketWrites(update), [OfDisposition(disposition)]);
  }

  /**
   The writes of a ratification: the ratification, the records of the canon engine, the packet and the disposition.
   */
  lemma RatifyWrites(records: Records, texts: Texts, choice: Choice, proposal: Proposal) returns (rest: seq<Record>)
    requires Filed(records) && Ratifies(records, texts, choice, proposal)
    ensures Outcome(records, texts, choice.input, proposal).Ok?
    ensures var applied := Outcome(records, texts, choice.input, proposal).value;
            var writes := [OfRatification(MakeRatification(texts, choice.input, proposal, Approved))]
                          + CanonWrites(CanonEngine.Records(applied)) + rest;
            && PlanDecision(records, texts, choice.input, choice.packet).value.writes == writes
            && Apply(records, texts, choice) == WriteRecords(records, writes)
    ensures rest != [] && forall w :: w in rest ==> !w.OfCanon? && !w.OfRatification? && !w.OfProposal?
    ensures choice.packet.None? ==>
              rest == [rest[0]] && rest[0].OfDisposition?
              && rest[0].disposition.inputRefs == [proposal.id] && rest[0].disposition.proposalRefs == [proposal.id]
  {
    hide PlanRatify, IsAlreadyApplied, Outcome, CanonWrites, WriteRecords, MakeRatification;
    rest := PlanRatifyWrites(records, texts, choice.input, proposal, choice.packet);
  }

  lemma DispositionOf(texts: Texts, input: Input, proposal: Proposal, packet: Option<Packet>)
    requires input.action == Ratify
    ensures MakeDisposition(texts, input, proposal, packet).proposalRefs == [proposal.id]
    ensures packet.None? ==> MakeDisposition(texts, input, proposal, packet).inputRefs == [proposal.id]
  {
    hide DispositionId;
    assert [proposal.id] + [] == [proposal.id] && [proposal.id][..0] == [] && Deduplicated([]) == [];
  }

  lemma CanonWritesConcat(a: seq<Canon>, b: seq<Canon>)
    ensures CanonWrites(a + b) == CanonWrites(a) + CanonWrites(b)
  {
  }

  lemma Regroup<T>(a: seq<T>, b: seq<T>, c: seq<T>, d: seq<T>, e: seq<T>)
    ensures a + b + c + d + e == a + (b + c) + (d + e)
  {
  }

  lemma CanonsOfNone(writes: seq<Record>)
    requires forall w :: w in writes ==> !w.OfCanon?
    ensures CanonsOf(writes) == []
  {
  }

  lemma RatifyCanons(ratification: Ratification, canons: seq<Canon>, rest: seq<Record>)
    requires forall w :: w in rest ==> !w.OfCanon?
    ensures CanonsOf([OfRatification(ratification)] + CanonWrites(canons) + rest) == canons
  {
    CanonsConcat([OfRatification(ratification)] + CanonWrites(canons), rest);
    CanonsConcat([OfRatification(ratification)], CanonWrites(canons));
    CanonsOfCanonWrites(canons);
    CanonsOfNone(rest);
    CanonsOfNone([OfRatification(ratification)]);
  }

  lemma OtherPlansLeaveCanon(records: Records, texts: Texts, input: Input, proposal: Proposal, packet: Option<Packet>)
    ensures forall w :: w in PlanSubsume(records, texts, input, proposal, packet).writes ==> !w.OfCanon?
    ensures forall w :: w in PlanKeepMaturing(texts, input, proposal, packet).writes ==> !w.OfCanon?
    ensures forall w :: w in PlanMoveToWiki(records, texts, input, proposal, packet).writes ==> !w.OfCanon?
    ensures forall w :: w in PlanReject(texts, input, proposal, packet).writes ==> !w.OfCanon?
  {
    hide MakeDisposition, MakePage, MakeClaim, SameSlotRefs, RatificationId, HasCanon;
  }

  /** Only a written ratification changes the canon, and it changes it by the records of the canon engine. */
  lemma CanonAfterDecision(records: Records, texts: Texts, choice: Choice)
    requires Filed(records)
    ensures (forall p :: !Ratifies(records, texts, choice, p)) ==>
              CanonIn(Apply(records, texts, choice)) == CanonIn(records)
    ensures forall p :: Ratifies(records, texts, choice, p) ==>
              && Outcome(records, texts, choice.input, p).Ok?
              && CanonIn(Apply(records, texts, choice))
              == WriteAll(CanonIn(records), CanonEngine.Records(Outcome(records, texts, choice.input, p).value))
  {
    hide CanonIn, WriteAll, WriteRecords, Outcome;
    if !IsWritten(records, texts, choice) {
      UnwrittenChangesNothing(records, texts, choice);
    } else {
      var proposal := RequireProposal(records, choice.input.proposalRef).value;
      if choice.input.action == Ratify {
        assert Ratifies(records, texts, choice, proposal);
        var rest := RatifyWrites(records, texts, choice, proposal);
        hide Apply, PlanDecision;
        var canons := CanonEngine.Records(Outcome(records, texts, choice.input, proposal).value);
        var ratification := MakeRatification(texts, choice.input, proposal, Approved);
        RatifyCanons(ratification, canons, rest);
        CanonAfterWrites(records, [OfRatification(ratification)] + CanonWrites(canons) + rest);
      } else {
        OtherPlansLeaveCanon(records, texts, choice.input, proposal, choice.packet);
        hide PlanRatify, PlanSubsume, PlanKeepMaturing, PlanReject, PlanMoveToWiki, IsAlreadyApplied;
        var writes := PlanDecision(records, texts, choice.input, choice.packet).value.writes;
        CanonsOfNone(writes);
        CanonAfterWrites(records, writes);
        NothingWritten(CanonIn(records));
      }
    }
  }

  lemma NothingWritten(store: CanonStore)
    ensures WriteAll(store, []) == store
  {
  }

  // ---------------------------------------------------------------- the change in terms of the proposal

  /** A new record, and the record that it closes. */
  datatype Effect = Effect(created: Option<Canon>, closed: Option<Canon>)

  function EffectOf(applied: Applied): Effect {
    Effect(applied.created, if applied.updated == [] then None else Some(applied.updated[0]))
  }

  function TargetKey(proposal: Proposal): CanonKey
    requires proposal.target.Some?
  {
    CanonKey(proposal.target.value.kind, proposal.target.value.id)
  }

  function NewKey(texts: Texts, proposal: Proposal): CanonKey {
    CanonKey(proposal.candidateKind, NewId(texts, proposal))
  }

  /** The proposal points at a record of its kind. */
  predicate Targets(store: CanonStore, proposal: Proposal) {
    && proposal.target.Some? && TargetKey(proposal) in store && KeyOf(store[TargetKey(proposal)]) == TargetKey(proposal)
    && proposal.candidateKind == proposal.target.value.kind
  }

  predicate IsNew(r: Canon, texts: Texts, proposal: Proposal, now: int, supersedes: Option<string>) {
    && KeyOf(r) == NewKey(texts, proposal) && CL.Claims(r, proposal.payload) && r.state == Ratified
    && r.supersedes == supersedes && r.supersededBy == None
    && r.createdAt == now && r.temporal == Some(PayloadTemporal(proposal.payload, now))
  }

  /** The record that points forward from the closed one. */
  function SuccessorOf(texts: Texts, proposal: Proposal): Option<string> {
    if proposal.operation == Revise then Some(NewId(texts, proposal)) else None
  }

  /** Where the interval of the closed record ends: where the payload starts, unless that is too early or nowhere. */
  function ClosingTime(proposal: Proposal, prior: Canon, now: int): int {
    var from := PayloadTemporal(proposal.payload, now).validFrom;
    if proposal.operation == Revise && from.Some? && from.value >= prior.Start() then from.value else now
  }

  function ClosingRefs(texts: Texts, proposal: Proposal): seq<string> {
    [proposal.id, RatificationId(texts, proposal.id, Ratify)]
    + (if proposal.operation == Revise then [NewId(texts, proposal)] else [])
  }

  function ClosedRecord(prior: Canon, texts: Texts, proposal: Proposal, now: int): Canon {
    prior.(updatedAt := now, state := Superseded, temporal := Some(Close(prior, ClosingTime(proposal, prior, now))),
           supersededBy := SuccessorOf(texts, proposal),
           upstreamRefs := MergeRefs(prior.upstreamRefs, ClosingRefs(texts, proposal)))
  }

  predicate Closes(closed: Canon, prior: Canon, texts: Texts, proposal: Proposal, now: int) {
    && closed == prior.(updatedAt := closed.updatedAt, state := Superseded, temporal := closed.temporal,
                        upstreamRefs := closed.upstreamRefs, supersededBy := SuccessorOf(texts, proposal))
    && closed.Start() == prior.Start() && closed == ClosedRecord(prior, texts, proposal, now)
  }

  /** The canon after a ratification, in terms of the record created and the record closed by it. */
  ghost predicate Effects(before: CanonStore, after: CanonStore, texts: Texts, proposal: Proposal, now: int,
                          e: Effect) {
    match proposal.operation
    case Create =>
      && e.created.Some? && e.closed == None && IsNew(e.created.value, texts, proposal, now, None)
      && after == before[NewKey(texts, proposal) := e.created.value]
    case Revise =>
      && Targets(before, proposal) && e.created.Some? && e.closed.Some?
      && IsNew(e.created.value, texts, proposal, now, Some(proposal.target.value.id))
      && Closes(e.closed.value, before[TargetKey(proposal)], texts, proposal, now)
      && after == before[NewKey(texts, proposal) := e.created.value][TargetKey(proposal) := e.closed.value]
    case Supersede =>
      && Targets(before, proposal) && e.created == None && e.closed.Some?
      && Closes(e.closed.value, before[TargetKey(proposal)], texts, proposal, now)
      && after == before[TargetKey(proposal) := e.closed.value]
  }

  lemma FoundTarget(records: Records, target: Option<Reference>)
    requires Filed(records) && FindTarget(CanonIn(records), target).Some?
    ensures var key := CanonKey(target.value.kind, target.value.id);
            key in CanonIn(records) && CanonIn(records)[key] == FindTarget(CanonIn(records), target).value
            && KeyOf(CanonIn(records)[key]) == key
  {
    var key := CanonKey(target.value.kind, target.value.id);
    assert CanonIn(records)[key] == records[CanonFile(key)].canon;
  }

  lemma WriteOneOrTwo(store: CanonStore, a: Canon, b: Canon)
    ensures WriteAll(store, [a]) == Write(store, a) && WriteAll(store, [a, b]) == Write(Write(store, a), b)
  {
    assert [a, b][1..] == [b] && [b][1..] == [] && [a][1..] == [];
    assert WriteAll(Write(store, a), [b]) == Write(Write(store, a), b);
  }

  lemma CreateEffect(store: CanonStore, texts: Texts, proposal: Proposal, ratification: Ratification, now: int)
    requires proposal.operation == Create && ApplyCreate(proposal, ratification, NewId(texts, proposal), now).Ok?
    ensures var r := ApplyCreate(proposal, ratification, NewId(texts, proposal), now).value;
            Effects(store, WriteAll(store, [r]), texts, proposal, now, Effect(Some(r), None))
  {
    var r := ApplyCreate(proposal, ratification, NewId(texts, proposal), now).value;
    WriteOneOrTwo(store, r, r);
  }

  lemma ReviseEffect(store: CanonStore, texts: Texts, proposal: Proposal, ratification: Ratification, prior: Canon,
                     now: int)
    requires proposal.operation == Revise && ApplyRevise(proposal, ratification, prior, NewId(texts, proposal), now).Ok?
    requires FindTarget(store, proposal.target) == Some(prior) && KeyOf(prior) == TargetKey(proposal)
    requires ratification.id == RatificationId(texts, proposal.id, Ratify)
    ensures var revision := ApplyRevise(proposal, ratification, prior, NewId(texts, proposal), now).value;
            Effects(store, WriteAll(store, [revision.revised, revision.superseded]), texts, proposal, now,
                    Effect(Some(revision.revised), Some(revision.superseded)))
  {
    var revision := ApplyRevise(proposal, ratification, prior, NewId(texts, proposal), now).value;
    assert ClosingRefs(texts, proposal) == [proposal.id, ratification.id, revision.revised.id];
    WriteOneOrTwo(store, revision.revised, revision.superseded);
  }

  lemma SupersedeEffect(store: CanonStore, texts: Texts, proposal: Proposal, ratification: Ratification, prior: Canon,
                        now: int)
    requires proposal.operation == Supersede && ApplySupersede(proposal, ratification, prior, now).Ok?
    requires FindTarget(store, proposal.target) == Some(prior) && KeyOf(prior) == TargetKey(proposal)
    requires ratification.id == RatificationId(texts, proposal.id, Ratify)
    ensures var closed := ApplySupersede(proposal, ratification, prior, now).value;
            Effects(store, WriteAll(store, [closed]), texts, proposal, now, Effect(None, Some(closed)))
  {
    var closed := ApplySupersede(proposal, ratification, prior, now).value;
    assert ClosingRefs(texts, proposal) == [proposal.id, ratification.id];
    WriteOneOrTwo(store, closed, closed);
  }

  lemma EngineEffect(store: CanonStore, texts: Texts, proposal: Proposal, ratification: Ratification, now: int)
    requires ApplyProposal(proposal, ratification, FindTarget(store, proposal.target), NewId(texts, proposal), now).Ok?
    requires proposal.operation != Create ==>
               FindTarget(store, proposal.target).Some?
               && KeyOf(FindTarget(store, proposal.target).value) == TargetKey(proposal)
    requires ratification.id == RatificationId(texts, proposal.id, Ratify)
    ensures var applied := ApplyProposal(proposal, ratification, FindTarget(store, proposal.target),
                                         NewId(texts, proposal), now).value;
            Effects(store, WriteAll(store, CanonEngine.Records(applied)), texts, proposal, now, EffectOf(applied))
  {
    hide Effects, WriteAll, ApplyCreate, ApplyRevise, ApplySupersede, FindTarget;
    var applied := ApplyProposal(proposal, ratification, FindTarget(store, proposal.target), NewId(texts, proposal),
                                 now).value;
    match proposal.operation {
      case Create =>
        CreateEffect(store, texts, proposal, ratification, now);
        assert CanonEngine.Records(applied) == [applied.created.value];
      case Revise =>
        ReviseEffect(store, texts, proposal, ratification, FindTarget(store, proposal.target).value, now);
        assert CanonEngine.Records(applied) == [applied.created.value, applied.updated[0]];
      case Supersede =>
        SupersedeEffect(store, texts, proposal, ratification, FindTarget(store, proposal.target).value, now);
        assert CanonEngine.Records(applied) == [applied.updated[0]];
    }
  }

  /** Every ratification has such an effect. */
  lemma RatifyEffects(records: Records, texts: Texts, choice: Choice, proposal: Proposal) returns (e: Effect)
    requires Filed(records) && Ratifies(records, texts, choice, proposal)
    ensures Effects(CanonIn(records), CanonIn(Apply(records, texts, choice)), texts, proposal, choice.input.now, e)
    ensures Outcome(records, texts, choice.input, proposal).Ok?
    ensures e == EffectOf(Outcome(records, texts, choice.input, proposal).value)
  {
    CanonAfterDecision(records, texts, choice);
    RatifiesExactly(records, texts, choice, proposal);
    if proposal.operation != Create { FoundTarget(records, proposal.target); }
    hide Effects, WriteAll, Apply, Ratifies, IsAlreadyApplied, CanonIn, ApplyProposal, RatificationId, SameSlotRefs;
    e := EffectOf(Outcome(records, texts, choice.input, proposal).value);
    EngineEffect(CanonIn(records), texts, proposal, MakeRatification(texts, choice.input, proposal, Approved),
                 choice.input.now);
  }
}
