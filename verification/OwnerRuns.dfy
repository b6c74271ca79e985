/** Serial runs of owner decisions: verdicts are unique, and final exactly while no other decision writes over them. */
module OwnerRuns {
  import opened Prelude
  import opened GovernanceRecords
  import opened CanonEngine
  import opened OwnerDecisions

  // ---------------------------------------------------------------- one decision

  datatype Choice = Choice(input: Input, packet: Option<Packet>)

  function Apply(records: Records, texts: Texts, choice: Choice): Records {
    After(records, PlanDecision(records, texts, choice.input, choice.packet), choice.input)
  }

  /**
   A record of the result was there before or was written now; a written file holds one of the records written to it.
   */
  lemma {:induction false} WrittenOrKept(records: Records, writes: seq<Record>, k: Key)
    ensures k in WriteRecords(records, writes) <==> k in records || exists w :: w in writes && FileOf(w) == k
    ensures k in WriteRecords(records, writes) ==>
              var r := WriteRecords(records, writes)[k];
              if exists w :: w in writes && FileOf(w) == k then r in writes && FileOf(r) == k
              else k in records && r == records[k]
    decreases |writes|
  {
    if writes != [] {
      WrittenOrKept(records[FileOf(writes[0]) := writes[0]], writes[1..], k);
      assert writes == [writes[0]] + writes[1..];
    }
  }

  /** The ratifications and proposals among the records a decision on `p` writes. */
  ghost predicate WritesFor(writes: seq<Record>, texts: Texts, p: string, action: Action) {
    forall w :: w in writes ==>
      && (w.OfRatification? ==>
            w.ratification.id == RatificationId(texts, p, action) && w.ratification.proposalRef == p)
      && (w.OfProposal? ==> w.proposal.id == p)
  }

  lemma RatifyWritesFor(records: Records, texts: Texts, input: Input, proposal: Proposal, packet: Option<Packet>)
    requires PlanRatify(records, texts, input, proposal, packet).Ok?
    ensures WritesFor(PlanRatify(records, texts, input, proposal, packet).value.writes, texts, proposal.id,
                      input.action)
  {
    hide MakeDisposition, ApplyProposal, CanonIn, FindTarget, SameSlotRefs, RatificationId;
  }

  lemma OtherWritesFor(records: Records, texts: Texts, input: Input, proposal: Proposal, packet: Option<Packet>)
    ensures WritesFor(PlanSubsume(records, texts, input, proposal, packet).writes, texts, proposal.id, input.action)
    ensures WritesFor(PlanKeepMaturing(texts, input, proposal, packet).writes, texts, proposal.id, input.action)
    ensures WritesFor(PlanMoveToWiki(records, texts, input, proposal, packet).writes, texts, proposal.id, input.action)
    ensures WritesFor(PlanReject(texts, input, proposal, packet).writes, texts, proposal.id, input.action)
  {
    hide MakeDisposition, MakePage, MakeClaim, SameSlotRefs, RatificationId, HasCanon;
  }

  lemma PlanWritesFor(records: Records, texts: Texts, input: Input, packet: Option<Packet>)
    requires Filed(records) && PlanDecision(records, texts, input, packet).Ok?
    ensures WritesFor(PlanDecision(records, texts, input, packet).value.writes, texts, input.proposalRef, input.action)
  {
    hide PlanRatify, PlanSubsume, PlanKeepMaturing, PlanReject, PlanMoveToWiki, IsAlreadyApplied, RatificationId;
    var proposal := RequireProposal(records, input.proposalRef).value;
    assert proposal.id == input.proposalRef;
    if !IsAlreadyApplied(records, proposal.id, input.action) {
      if input.action == Ratify { RatifyWritesFor(records, texts, input, proposal, packet); }
      OtherWritesFor(records, texts, input, proposal, packet);
    }
  }

  // ---------------------------------------------------------------- verdicts

  ghost predicate OneVerdict(records: Records) {
    forall j, k, p :: j in records && k in records && VerdictOn(records[j], p) && VerdictOn(records[k], p) ==> j == k
  }

  /** The id parts of the stored proposals are distinct. */
  ghost predicate PartsDistinct(records: Records, texts: Texts) {
    forall p, q :: ProposalKey(p) in records && ProposalKey(q) in records && texts.part(p) == texts.part(q) ==> p == q
  }

  /** A ratification whose id names a stored proposal belongs to it. */
  ghost predicate RatificationsOwned(records: Records, texts: Texts) {
    forall k, q, a :: k in records && ProposalKey(q) in records && Names(records[k], texts, q, a) ==>
      records[k].ratification.proposalRef == q
  }

  predicate Names(r: Record, texts: Texts, proposalId: string, action: Action) {
    r.OfRatification? && r.ratification.id == RatificationId(texts, proposalId, action)
  }

  ghost predicate Orderly(records: Records, texts: Texts) {
    Filed(records) && OneVerdict(records) && PartsDistinct(records, texts) && RatificationsOwned(records, texts)
  }

  function LastLetter(action: Action): char {
    match action
    case Ratify => 'y'
    case Subsume => 'e'
    case KeepMaturing => 'g'
    case Reject => 't'
    case MoveToWiki => 'i'
  }

  lemma ActionNameEnds(action: Action)
    ensures ActionName(action) != [] && ActionName(action)[|ActionName(action)| - 1] == LastLetter(action)
  {
  }

  lemma Cancel(prefix: string, x: string, y: string, tail: string)
    requires prefix + x + tail == prefix + y + tail
    ensures x == y
  {
    var whole := prefix + x + tail;
    assert |x| == |y|;
    assert x == whole[|prefix|..|prefix| + |x|] && y == whole[|prefix|..|prefix| + |y|];
  }

  /** A ratification id determines the action and the id part of the proposal. */
  lemma RatificationIdIsInjective(texts: Texts, p: string, a: Action, q: string, b: Action)
    requires RatificationId(texts, p, a) == RatificationId(texts, q, b)
    ensures a == b && texts.part(p) == texts.part(q)
  {
    var left, right := RatificationId(texts, p, a), RatificationId(texts, q, b);
    ActionNameEnds(a);
    ActionNameEnds(b);
    assert left[|left| - 1] == LastLetter(a) && right[|right| - 1] == LastLetter(b);
    var prefix, tail := "rat_owner_decision_", "_" + ActionName(a);
    TailLast(prefix + texts.part(p), ActionName(a));
    TailLast(prefix + texts.part(q), ActionName(b));
    Cancel(prefix, texts.part(p), texts.part(q), tail);
  }

  lemma TailLast(front: string, name: string)
    ensures front + "_" + name == front + ("_" + name)
  {
  }

  lemma WritesKeepOneVerdict(records: Records, texts: Texts, writes: seq<Record>, p: string, action: Action)
    requires Filed(records) && OneVerdict(records) && WritesFor(writes, texts, p, action) && !Decided(records, p)
    ensures Filed(WriteRecords(records, writes)) && OneVerdict(WriteRecords(records, writes))
  {
    var after := WriteRecords(records, writes);
    forall k | k in after
      ensures (k in records && after[k] == records[k]) || (after[k] in writes && FileOf(after[k]) == k)
    {
      WrittenOrKept(records, writes, k);
    }
    forall j, k, q | j in after && k in after && VerdictOn(after[j], q) && VerdictOn(after[k], q) ensures j == k {
      if q != p {
        assert !(after[j] in writes) && !(after[k] in writes);
      } else {
        assert forall x :: x in records ==> !VerdictOn(records[x], p);
        assert after[j] in writes && after[k] in writes;
        assert j == RatificationKey(RatificationId(texts, p, action)) == k;
      }
    }
  }

  lemma WritesKeepOrderly(records: Records, texts: Texts, writes: seq<Record>, p: string, action: Action)
    requires Orderly(records, texts) && WritesFor(writes, texts, p, action)
    requires ProposalKey(p) in records && !Decided(records, p)
    ensures Orderly(WriteRecords(records, writes), texts)
  {
    WritesKeepOneVerdict(records, texts, writes, p, action);
    hide Decided, OneVerdict;
    var after := WriteRecords(records, writes);
    forall k | k in after
      ensures (k in records && after[k] == records[k]) || (after[k] in writes && FileOf(after[k]) == k)
    {
      WrittenOrKept(records, writes, k);
    }
    forall q ensures ProposalKey(q) in after <==> ProposalKey(q) in records {
      WrittenOrKept(records, writes, ProposalKey(q));
    }
    forall k, q, a | k in after && ProposalKey(q) in after && Names(after[k], texts, q, a)
      ensures after[k].ratification.proposalRef == q
    {
      if after[k] in writes {
        RatificationIdIsInjective(texts, p, action, q, a);
      }
    }
  }

  /** A file that holds a verdict on one proposal is never written by a decision on another. */
  lemma VerdictIsKept(records: Records, texts: Texts, writes: seq<Record>, p: string, action: Action, q: string)
    requires Orderly(records, texts) && WritesFor(writes, texts, p, action)
    requires ProposalKey(p) in records && Decided(records, q) && q != p
    ensures Decided(WriteRecords(records, writes), q)
  {
    var k :| k in records && VerdictOn(records[k], q);
    WrittenOrKept(records, writes, k);
    assert !Names(records[k], texts, p, action);
    forall w | w in writes ensures FileOf(w) != k {
      assert FileOf(records[k]) == k;
    }
    assert VerdictOn(WriteRecords(records, writes)[k], q);
  }

  /** One decision keeps the store orderly, and every verdict with it. */
  lemma DecisionKeepsOrderly(records: Records, texts: Texts, choice: Choice)
    requires Orderly(records, texts)
    ensures Orderly(Apply(records, texts, choice), texts)
    ensures forall q :: Decided(records, q) ==> Decided(Apply(records, texts, choice), q)
  {
    assert Filed(records);
    hide Orderly, WriteRecords, Decided;
    if Apply(records, texts, choice) != records {
      DecisionWrites(records, texts, choice);
      var p, writes := choice.input.proposalRef, PlanDecision(records, texts, choice.input, choice.packet).value.writes;
      WritesKeepOrderly(records, texts, writes, p, choice.input.action);
      forall q | Decided(records, q) ensures Decided(Apply(records, texts, choice), q) {
        VerdictIsKept(records, texts, writes, p, choice.input.action, q);
      }
    }
  }

  lemma DecisionWrites(records: Records, texts: Texts, choice: Choice)
    requires Filed(records) && Apply(records, texts, choice) != records
    ensures var plan := PlanDecision(records, texts, choice.input, choice.packet);
            && plan.Ok? && Apply(records, texts, choice) == WriteRecords(records, plan.value.writes)
            && WritesFor(plan.value.writes, texts, choice.input.proposalRef, choice.input.action)
    ensures ProposalKey(choice.input.proposalRef) in records && !Decided(records, choice.input.proposalRef)
  {
    hide PlanRatify, PlanSubsume, PlanKeepMaturing, PlanReject, PlanMoveToWiki;
    PlanWritesFor(records, texts, choice.input, choice.packet);
  }

  /** A decision on a proposal that has a verdict changes no record. */
  lemma DecidedIsFinal(records: Records, texts: Texts, choice: Choice)
    requires Filed(records) && Decided(records, choice.input.proposalRef)
    ensures Apply(records, texts, choice) == records
  {
    hide PlanRatify, PlanSubsume, PlanKeepMaturing, PlanReject, PlanMoveToWiki;
  }

  // ---------------------------------------------------------------- runs

  function RunDecisions(records: Records, texts: Texts, choices: seq<Choice>): Records
    decreases |choices|
  {
    if choices == [] then records else RunDecisions(Apply(records, texts, choices[0]), texts, choices[1..])
  }

  /** One decision keeps verdicts unique, whatever id parts the proposals share. */
  lemma DecisionKeepsOneVerdict(records: Records, texts: Texts, choice: Choice)
    requires Filed(records) && OneVerdict(records)
    ensures Filed(Apply(records, texts, choice)) && OneVerdict(Apply(records, texts, choice))
  {
    if Apply(records, texts, choice) != records {
      DecisionWrites(records, texts, choice);
      var p, writes := choice.input.proposalRef, PlanDecision(records, texts, choice.input, choice.packet).value.writes;
      hide Apply, PlanDecision, Decided;
      WritesKeepOneVerdict(records, texts, writes, p, choice.input.action);
    }
  }

  /** After any serial run each proposal has at most one verdict. */
  lemma {:induction false} VerdictsAreUnique(records: Records, texts: Texts, choices: seq<Choice>)
    requires Filed(records) && OneVerdict(records)
    ensures Filed(RunDecisions(records, texts, choices)) && OneVerdict(RunDecisions(records, texts, choices))
    decreases |choices|
  {
    hide Apply, OneVerdict, Filed;
    if choices != [] {
      DecisionKeepsOneVerdict(records, texts, choices[0]);
      VerdictsAreUnique(Apply(records, texts, choices[0]), texts, choices[1..]);
    }
  }

  // ---------------------------------------------------------------- when a verdict is lost

  predicate WritesRatification(action: Action) { action == Ratify || action == KeepMaturing || action == Reject }

  /** The decision is written, not refused, repeated, thrown or dry. */
  predicate IsWritten(records: Records, texts: Texts, choice: Choice) {
    var plan := PlanDecision(records, texts, choice.input, choice.packet);
    plan.Ok? && plan.value.report.status == WasApplied && !choice.input.dryRun
  }

  /** The decision on another proposal writes its ratification to the file that holds the verdict on `p`. */
  predicate Overwrites(records: Records, texts: Texts, choice: Choice, p: string) {
    && choice.input.proposalRef != p && IsWritten(records, texts, choice) && WritesRatification(choice.input.action)
    && var file := RatificationKey(RatificationId(texts, choice.input.proposalRef, choice.input.action));
       file in records && VerdictOn(records[file], p)
  }

  lemma OtherPlansRatify(records: Records, texts: Texts, input: Input, proposal: Proposal, packet: Option<Packet>)
    ensures forall w :: w in PlanSubsume(records, texts, input, proposal, packet).writes ==> !w.OfRatification?
    ensures forall w :: w in PlanMoveToWiki(records, texts, input, proposal, packet).writes ==> !w.OfRatification?
    ensures OfRatification(MakeRatification(texts, input, proposal, Deferred))
            in PlanKeepMaturing(texts, input, proposal, packet).writes
    ensures OfRatification(MakeRatification(texts, input, proposal, Rejected))
            in PlanReject(texts, input, proposal, packet).writes
  {
    hide MakeDisposition, MakePage, MakeClaim, SameSlotRefs, RatificationId, HasCanon;
    var rejected := PlanReject(texts, input, proposal, packet).writes;
    assert rejected[1] == OfRatification(MakeRatification(texts, input, proposal, Rejected));
    var kept := PlanKeepMaturing(texts, input, proposal, packet).writes;
    assert kept[0] == OfRatification(MakeRatification(texts, input, proposal, Deferred));
  }

  lemma RatifyPlanRatifies(records: Records, texts: Texts, input: Input, proposal: Proposal, packet: Option<Packet>)
    requires PlanRatify(records, texts, input, proposal, packet).Ok?
    requires PlanRatify(records, texts, input, proposal, packet).value.report.status == WasApplied
    ensures OfRatification(MakeRatification(texts, input, proposal, Approved))
            in PlanRatify(records, texts, input, proposal, packet).value.writes
  {
    hide MakeDisposition, ApplyProposal, CanonIn, FindTarget, SameSlotRefs, RatificationId, CanonWrites, PacketWrites;
    var writes := PlanRatify(records, texts, input, proposal, packet).value.writes;
    assert writes[0] == OfRatification(MakeRatification(texts, input, proposal, Approved));
  }

  lemma WrittenRatification(records: Records, texts: Texts, choice: Choice)
    requires Filed(records) && IsWritten(records, texts, choice)
    ensures var writes := PlanDecision(records, texts, choice.input, choice.packet).value.writes;
            WritesRatification(choice.input.action) <==> exists w :: w in writes && w.OfRatification?
  {
    hide PlanRatify, PlanSubsume, PlanKeepMaturing, PlanReject, PlanMoveToWiki, IsAlreadyApplied, RatificationId;
    var proposal := RequireProposal(records, choice.input.proposalRef).value;
    if choice.input.action == Ratify { RatifyPlanRatifies(records, texts, choice.input, proposal, choice.packet); }
    OtherPlansRatify(records, texts, choice.input, proposal, choice.packet);
  }

  /** A decision keeps the verdict on a proposal exactly when it does not write over the file that holds it. */
  lemma VerdictSurvivesExactly(records: Records, texts: Texts, choice: Choice, p: string)
    requires Filed(records) && OneVerdict(records) && Decided(records, p)
    ensures Decided(Apply(records, texts, choice), p) <==> !Overwrites(records, texts, choice, p)
  {
    var q := choice.input.proposalRef;
    if q == p {
      DecidedIsFinal(records, texts, choice);
    } else if IsWritten(records, texts, choice) {
      PlanWritesFor(records, texts, choice.input, choice.packet);
      WrittenRatification(records, texts, choice);
      hide PlanDecision;
      var writes := PlanDecision(records, texts, choice.input, choice.packet).value.writes;
      SurvivesWrites(records, texts, writes, q, choice.input.action, p);
    } else {
      UnwrittenChangesNothing(records, texts, choice);
    }
  }

  lemma UnwrittenChangesNothing(records: Records, texts: Texts, choice: Choice)
    requires !IsWritten(records, texts, choice)
    ensures Apply(records, texts, choice) == records
  {
    hide IsAlreadyApplied, MakePage, MakeClaim, MakeDisposition, ApplyProposal, SameSlotRefs, HasCanon, RatificationId;
  }

  lemma SurvivesWrites(records: Records, texts: Texts, writes: seq<Record>, q: string, action: Action, p: string)
    requires Filed(records) && OneVerdict(records) && Decided(records, p) && q != p
             && WritesFor(writes, texts, q, action)
    ensures var file := RatificationKey(RatificationId(texts, q, action));
            Decided(WriteRecords(records, writes), p) <==>
              !((exists w :: w in writes && w.OfRatification?) && file in records && VerdictOn(records[file], p))
  {
    var after, file := WriteRecords(records, writes), RatificationKey(RatificationId(texts, q, action));
    var held :| held in records && VerdictOn(records[held], p);
    assert FileOf(records[held]) == held;
    forall k | k in after
      ensures (k in records && after[k] == records[k]) || (after[k] in writes && FileOf(after[k]) == k)
    {
      WrittenOrKept(records, writes, k);
    }
    WrittenOrKept(records, writes, held);
    assert forall w :: w in writes ==> !VerdictOn(w, p);
    assert forall k :: k in records && VerdictOn(records[k], p) ==> k == held;
    if w :| w in writes && w.OfRatification? { assert FileOf(w) == file; }
    assert Decided(after, p) <==> held in after && after[held] == records[held];
  }

  ghost predicate NeverOverwrites(records: Records, texts: Texts, choices: seq<Choice>, p: string)
    decreases |choices|
  {
    choices != [] ==>
      !Overwrites(records, texts, choices[0], p)
        && NeverOverwrites(Apply(records, texts, choices[0]), texts, choices[1..], p)
  }

  ghost predicate StaysDecided(records: Records, texts: Texts, choices: seq<Choice>, p: string)
    decreases |choices|
  {
    Decided(records, p) && (choices != [] ==> StaysDecided(Apply(records, texts, choices[0]), texts, choices[1..], p))
  }

  /** Along any run a verdict stays exactly when no decision of the run writes over its file. */
  lemma {:induction false} VerdictStaysExactly(records: Records, texts: Texts, choices: seq<Choice>, p: string)
    requires Filed(records) && OneVerdict(records) && Decided(records, p)
    ensures StaysDecided(records, texts, choices, p) <==> NeverOverwrites(records, texts, choices, p)
    ensures StaysDecided(records, texts, choices, p) ==> Decided(RunDecisions(records, texts, choices), p)
    decreases |choices|
  {
    hide Apply, OneVerdict, Filed, Decided, Overwrites;
    if choices != [] {
      DecisionKeepsOneVerdict(records, texts, choices[0]);
      VerdictSurvivesExactly(records, texts, choices[0], p);
      if !Overwrites(records, texts, choices[0], p) {
        VerdictStaysExactly(Apply(records, texts, choices[0]), texts, choices[1..], p);
      }
    }
  }

  /**
   Once a proposal has a verdict, and as long as none writes over it, no decision on the proposal changes any record,
   however many decisions lie in between.
   */
  lemma VerdictIsTerminal(records: Records, texts: Texts, choices: seq<Choice>, last: Choice)
    requires Filed(records) && OneVerdict(records) && Decided(records, last.input.proposalRef)
    requires NeverOverwrites(records, texts, choices, last.input.proposalRef)
    ensures var reached := RunDecisions(records, texts, choices);
            Decided(reached, last.input.proposalRef) && Apply(reached, texts, last) == reached
  {
    VerdictStaysExactly(records, texts, choices, last.input.proposalRef);
    VerdictsAreUnique(records, texts, choices);
    DecidedIsFinal(RunDecisions(records, texts, choices), texts, last);
  }

  // ---------------------------------------------------------------- distinct id parts

  /** With distinct id parts no decision writes over a verdict: after any serial run no verdict is lost. */
  lemma {:induction false} VerdictsLast(records: Records, texts: Texts, choices: seq<Choice>)
    requires Orderly(records, texts)
    ensures Orderly(RunDecisions(records, texts, choices), texts)
    ensures forall q :: Decided(records, q) ==> Decided(RunDecisions(records, texts, choices), q)
    decreases |choices|
  {
    hide Apply, Orderly, Decided;
    if choices != [] {
      DecisionKeepsOrderly(records, texts, choices[0]);
      VerdictsLast(Apply(records, texts, choices[0]), texts, choices[1..]);
    }
  }
}
