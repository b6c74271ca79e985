/** The text functions of owner decisions, and runs of decisions in which properties of the store are lost. */
module OwnerWitnesses {
  import opened Prelude
  import opened GovernanceRecords
  import opened CanonEngine
  import opened OwnerDecisions
  import opened OwnerRuns
  import opened OwnerEffects
  import opened OwnerCanon
  import opened OwnerCrossing
  import opened SafeNames
  import OwnerRetry
  import J = OwnerDecisionJournal
  import CL = CanonLifecycle

  // ---------------------------------------------------------------- text

  /** `proposalIdPart`: the id without its first `prop_`. */
  function ProposalIdPart(id: string): string { SafeIdPart(if "prop_" <= id then id[5..] else id) }

  predicate IsSpace(c: char) {
    9 <= c as int <= 13 || 0x2000 <= c as int <= 0x200A
    || c as int in {0x20, 0xA0, 0x1680, 0x2028, 0x2029, 0x202F, 0x205F, 0x3000, 0xFEFF}
  }

  /** Nothing is left after `trim`. */
  predicate Blank(s: string) { forall c :: c in s ==> IsSpace(c) }

  const TEXTS := Texts(SafeIdPart, ProposalIdPart, Blank)

  lemma Parts()
    ensures ProposalIdPart("prop_A") == "a" && ProposalIdPart("prop_a") == "a" && ProposalIdPart("prop_b") == "b"
  {
    assert "prop_A"[5..] == "A" && "prop_a"[5..] == "a" && "prop_b"[5..] == "b";
    assert Replaced("A", IsSafe) == "a" && Replaced("a", IsSafe) == "a" && Replaced("b", IsSafe) == "b";
    assert TrimRight(TrimLeft("a")) == "a" && TrimRight(TrimLeft("b")) == "b";
  }

  // ---------------------------------------------------------------- two decisions in a row

  /** A ratification without a packet leaves other proposals as open as they were. */
  lemma OthersStayOpen(records: Records, texts: Texts, choice: Choice, p: Proposal, q: string)
    requires Filed(records) && Ratifies(records, texts, choice, p) && choice.packet.None? && q != p.id
    ensures RequireProposal(Apply(records, texts, choice), q) == RequireProposal(records, q)
    ensures IsAlreadyApplied(Apply(records, texts, choice), q, Ratify) ==> IsAlreadyApplied(records, q, Ratify)
  {
    var rest := RatifyWrites(records, texts, choice, p);
    var canons := CanonEngine.Records(Outcome(records, texts, choice.input, p).value);
    var ratification := MakeRatification(texts, choice.input, p, Approved);
    var after, writes := Apply(records, texts, choice), [OfRatification(ratification)] + CanonWrites(canons) + rest;
    assert ratification.proposalRef == p.id;
    hide Apply, Ratifies, Outcome, MakeRatification, PlanDecision, WriteRecords;
    forall w | w in writes
      ensures !VerdictOn(w, q) && !w.OfProposal? && (w.OfDisposition? ==> !Includes(w.disposition, q))
    {
      KindOfWrite(ratification, canons, rest, w);
    }
    UntouchedStaysOpen(records, writes, q);
  }

  lemma UntouchedStaysOpen(records: Records, writes: seq<Record>, q: string)
    requires forall w :: w in writes ==>
               !VerdictOn(w, q) && !w.OfProposal? && (w.OfDisposition? ==> !Includes(w.disposition, q))
    ensures RequireProposal(WriteRecords(records, writes), q) == RequireProposal(records, q)
    ensures IsAlreadyApplied(WriteRecords(records, writes), q, Ratify) ==> IsAlreadyApplied(records, q, Ratify)
  {
    var after := WriteRecords(records, writes);
    forall k | k in after
      ensures (k in records && after[k] == records[k]) || (after[k] in writes && FileOf(after[k]) == k)
    {
      WrittenOrKept(records, writes, k);
    }
    WrittenOrKept(records, writes, ProposalKey(q));
  }

  lemma KindOfWrite(ratification: Ratification, canons: seq<Canon>, rest: seq<Record>, w: Record)
    requires w in [OfRatification(ratification)] + CanonWrites(canons) + rest
    ensures w == OfRatification(ratification) || w.OfCanon? || w in rest
  {
  }

  /** The ratification is in its file after the decision. */
  lemma RatificationStands(records: Records, texts: Texts, choice: Choice, p: Proposal)
    requires Filed(records) && Ratifies(records, texts, choice, p)
    ensures var file := RatificationKey(RatificationId(texts, p.id, Ratify));
            file in Apply(records, texts, choice) && VerdictOn(Apply(records, texts, choice)[file], p.id)
  {
    var rest := RatifyWrites(records, texts, choice, p);
    var canons := CanonEngine.Records(Outcome(records, texts, choice.input, p).value);
    var ratification := MakeRatification(texts, choice.input, p, Approved);
    assert ratification.id == RatificationId(texts, p.id, Ratify) && VerdictOn(OfRatification(ratification), p.id);
    hide Apply, Ratifies, Outcome, MakeRatification, PlanDecision, WriteRecords, RatificationId;
    var writes, file := [OfRatification(ratification)] + CanonWrites(canons) + rest,
                        FileOf(OfRatification(ratification));
    assert OfRatification(ratification) in writes;
    WrittenOrKept(records, writes, file);
    var w := Apply(records, texts, choice)[file];
    KindOfWrite(ratification, canons, rest, w);
  }

  /** Two proposals that await the owner's decision, and perhaps one canonical record. */
  function Holding(p: Proposal, q: Proposal, canon: Option<Canon>): Records {
    var proposals: Records := map[ProposalKey(p.id) := OfProposal(p), ProposalKey(q.id) := OfProposal(q)];
    if canon.Some? then proposals[CanonFile(KeyOf(canon.value)) := OfCanon(canon.value)] else proposals
  }

  predicate IsOpen(p: Proposal) { p.ownerRatificationRequired && p.state == Proposed }

  function Ratifying(p: Proposal): Choice { Choice(Input(p.id, Ratify, 1, "owner", None, None, false), None) }

  function AfterFirst(p: Proposal, q: Proposal, canon: Option<Canon>): Records {
    Apply(Holding(p, q, canon), TEXTS, Ratifying(p))
  }

  function AfterBoth(p: Proposal, q: Proposal, canon: Option<Canon>): Records {
    RunDecisions(Holding(p, q, canon), TEXTS, [Ratifying(p), Ratifying(q)])
  }

  lemma BothOpen(p: Proposal, q: Proposal, canon: Option<Canon>)
    requires p.id != q.id && IsOpen(p) && IsOpen(q)
    ensures var start := Holding(p, q, canon);
            && Filed(start) && OneVerdict(start)
            && RequireProposal(start, p.id) == Ok(p) && RequireProposal(start, q.id) == Ok(q)
            && !IsAlreadyApplied(start, p.id, Ratify) && !IsAlreadyApplied(start, q.id, Ratify)
            && CanonIn(start) == if canon.Some? then map[KeyOf(canon.value) := canon.value] else map[]
  {
    var start := Holding(p, q, canon);
    assert forall k :: k in start ==> !start[k].OfRatification? && !start[k].OfDisposition?;
    assert forall id :: !Decided(start, id) && !ActionTaken(start, id, Ratify);
    CanonOfHolding(p, q, canon);
    hide CanonIn;
  }

  lemma CanonOfHolding(p: Proposal, q: Proposal, canon: Option<Canon>)
    ensures CanonIn(Holding(p, q, canon)) == if canon.Some? then map[KeyOf(canon.value) := canon.value] else map[]
  {
    if canon.Some? {
      assert forall k :: k in Holding(p, q, canon) && k.CanonFile? ==> k == CanonFile(KeyOf(canon.value));
    }
  }

  lemma FirstRatified(p: Proposal, q: Proposal, canon: Option<Canon>) returns (e: Effect)
    requires p.id != q.id && IsOpen(p) && IsOpen(q) && MayBeRatified(Holding(p, q, canon), TEXTS, p)
    ensures Filed(Holding(p, q, canon)) && OneVerdict(Holding(p, q, canon))
    ensures CanonIn(Holding(p, q, canon)) == if canon.Some? then map[KeyOf(canon.value) := canon.value] else map[]
    ensures Ratifies(Holding(p, q, canon), TEXTS, Ratifying(p), p)
    ensures Effects(CanonIn(Holding(p, q, canon)), CanonIn(AfterFirst(p, q, canon)), TEXTS, p, 1, e)
    ensures Filed(AfterFirst(p, q, canon)) && OneVerdict(AfterFirst(p, q, canon))
    ensures RequireProposal(AfterFirst(p, q, canon), q.id) == Ok(q)
            && !IsAlreadyApplied(AfterFirst(p, q, canon), q.id, Ratify)
  {
    var start := Holding(p, q, canon);
    BothOpen(p, q, canon);
    hide Holding, CanonIn, MayBeRatified, IsAlreadyApplied, RequireProposal, Apply, Effects, Ratifies;
    RatifiesExactly(start, TEXTS, Ratifying(p), p);
    e := RatifyEffects(start, TEXTS, Ratifying(p), p);
    DecisionKeepsOneVerdict(start, TEXTS, Ratifying(p));
    OthersStayOpen(start, TEXTS, Ratifying(p), p, q.id);
  }

  lemma SecondRatified(p: Proposal, q: Proposal, canon: Option<Canon>) returns (e: Effect)
    requires Filed(AfterFirst(p, q, canon)) && MayBeRatified(AfterFirst(p, q, canon), TEXTS, q)
    requires RequireProposal(AfterFirst(p, q, canon), q.id) == Ok(q)
             && !IsAlreadyApplied(AfterFirst(p, q, canon), q.id, Ratify)
    ensures Ratifies(AfterFirst(p, q, canon), TEXTS, Ratifying(q), q)
    ensures AfterBoth(p, q, canon) == Apply(AfterFirst(p, q, canon), TEXTS, Ratifying(q))
    ensures Effects(CanonIn(AfterFirst(p, q, canon)), CanonIn(AfterBoth(p, q, canon)), TEXTS, q, 1, e)
  {
    hide Apply, MayBeRatified, IsAlreadyApplied, Effects, Ratifies, RequireProposal;
    RatifiesExactly(AfterFirst(p, q, canon), TEXTS, Ratifying(q), q);
    e := RatifyEffects(AfterFirst(p, q, canon), TEXTS, Ratifying(q), q);
    RunOfTwo(Holding(p, q, canon), Ratifying(p), Ratifying(q));
  }

  lemma RunOfTwo(records: Records, a: Choice, b: Choice)
    ensures RunDecisions(records, TEXTS, [a, b]) == Apply(Apply(records, TEXTS, a), TEXTS, b)
  {
    hide Apply;
    assert [a, b][1..] == [b] && [b][1..] == [];
    assert RunDecisions(Apply(records, TEXTS, a), TEXTS, [b]) == Apply(Apply(records, TEXTS, a), TEXTS, b);
  }

  // ---------------------------------------------------------------- the runs

  function Proposing(id: string, operation: Operation, target: Option<Reference>, slot: string): Proposal {
    Proposal(id, operation, "fact", "canon", target, Payload(Absent, Text("statement"), Text(slot), None), "reason", [],
             true, true, Proposed)
  }

  /** An active record of the slot "name". */
  const NAME := Canon("mem_name", "fact", 0, 0, "statement", "name", Ratified,
                      Some(Temporal("active", Some(0), None, None)),
                      [], None, None)
  const NAME_REF := Reference("mem_name", "fact", "canon")

  lemma NoSharedSlot(records: Records, p: Proposal)
    requires Filed(records) && p.payload.slot.Text?
    requires forall k :: k in CanonIn(records) ==> CanonIn(records)[k].slot != p.payload.slot.text
    ensures SameSlotRefs(records, p, TEXTS) == {}
  {
    forall k | k in records && records[k].OfCanon? ensures records[k].canon.slot != p.payload.slot.text {
      assert k.CanonFile? && k.canon in CanonIn(records);
    }
  }

  lemma NewIds()
    ensures TEXTS.part("prop_A") == "a" && TEXTS.part("prop_a") == "a" && TEXTS.part("prop_b") == "b"
    ensures "mem_" + "a" == "mem_a" && "mem_" + "b" == "mem_b"
  {
    Parts();
  }

  lemma SharedFile(start: Records, one: Records, p: Proposal, q: Proposal)
    requires Filed(start) && Filed(one) && OneVerdict(one) && p.id == "prop_A" && q.id == "prop_a"
    requires Ratifies(start, TEXTS, Ratifying(p), p) && one == Apply(start, TEXTS, Ratifying(p))
    requires Ratifies(one, TEXTS, Ratifying(q), q)
    ensures Decided(one, p.id) && !Decided(Apply(one, TEXTS, Ratifying(q)), p.id)
            && Decided(Apply(one, TEXTS, Ratifying(q)), q.id)
  {
    NewIds();
    RatificationStands(start, TEXTS, Ratifying(p), p);
    RatificationStands(one, TEXTS, Ratifying(q), q);
    assert RatificationId(TEXTS, p.id, Ratify) == RatificationId(TEXTS, q.id, Ratify);
    hide Apply, RatificationId;
    assert Decided(one, p.id);
    VerdictSurvivesExactly(one, TEXTS, Ratifying(q), p.id);
  }

  const UPPER := Proposing("prop_A", Create, None, "x")
  const LOWER := Proposing("prop_a", Create, None, "y")
  const SHARED := CanonKey("fact", "mem_a")

  lemma SharedMayBeCreated(records: Records, p: Proposal)
    requires Filed(records) && (p == UPPER || p == LOWER)
    requires forall k :: k in CanonIn(records) ==> CanonIn(records)[k].slot != p.payload.slot.text
    ensures MayBeRatified(records, TEXTS, p)
  {
    NoSharedSlot(records, p);
  }

  lemma SharedStart()
    ensures UPPER.id != LOWER.id && IsOpen(UPPER) && IsOpen(LOWER)
            && MayBeRatified(Holding(UPPER, LOWER, None), TEXTS, UPPER)
  {
    BothOpen(UPPER, LOWER, None);
    hide Holding, MayBeRatified;
    SharedMayBeCreated(Holding(UPPER, LOWER, None), UPPER);
  }

  lemma CreatedAtShared(before: CanonStore, after: CanonStore, p: Proposal, e: Effect)
    requires (p == UPPER || p == LOWER) && Effects(before, after, TEXTS, p, 1, e) && before.Keys <= {SHARED}
    ensures SHARED in after && after.Keys == {SHARED} && after[SHARED].slot == p.payload.slot.text
    ensures p == UPPER ==> after[SHARED].slot == "x"
    ensures p == LOWER ==> after[SHARED].slot == "y"
    ensures p == UPPER ==> forall k :: k in after ==> after[k].slot != LOWER.payload.slot.text
  {
    NewIds();
  }

  lemma SharedFirst()
    ensures Filed(Holding(UPPER, LOWER, None)) && OneVerdict(Holding(UPPER, LOWER, None))
    ensures Ratifies(Holding(UPPER, LOWER, None), TEXTS, Ratifying(UPPER), UPPER)
    ensures var one := AfterFirst(UPPER, LOWER, None);
            && Filed(one) && OneVerdict(one) && RequireProposal(one, LOWER.id) == Ok(LOWER)
            && !IsAlreadyApplied(one, LOWER.id, Ratify) && MayBeRatified(one, TEXTS, LOWER)
            && CanonIn(one).Keys == {SHARED} && CanonIn(one)[SHARED].slot == "x"
  {
    SharedStart();
    hide *;
    var first := FirstRatified(UPPER, LOWER, None);
    CreatedAtShared(CanonIn(Holding(UPPER, LOWER, None)), CanonIn(AfterFirst(UPPER, LOWER, None)), UPPER, first);
    SharedMayBeCreated(AfterFirst(UPPER, LOWER, None), LOWER);
  }

  lemma SharedSecond()
    ensures Ratifies(AfterFirst(UPPER, LOWER, None), TEXTS, Ratifying(LOWER), LOWER)
    ensures AfterBoth(UPPER, LOWER, None) == Apply(AfterFirst(UPPER, LOWER, None), TEXTS, Ratifying(LOWER))
    ensures SHARED in CanonIn(AfterBoth(UPPER, LOWER, None))
            && CanonIn(AfterBoth(UPPER, LOWER, None))[SHARED].slot == "y"
  {
    hide *;
    SharedFirst();
    var second := SecondRatified(UPPER, LOWER, None);
    CreatedAtShared(CanonIn(AfterFirst(UPPER, LOWER, None)), CanonIn(AfterBoth(UPPER, LOWER, None)), LOWER, second);
  }

  /**
   The ids prop_A and prop_a have one id part. Ratifying both loses the verdict on the first, and the canonical record
   that it created is overwritten with a claim about another slot.
   */
  lemma SharedPartLosesVerdict()
    ensures Filed(Holding(UPPER, LOWER, None)) && OneVerdict(Holding(UPPER, LOWER, None))
    ensures var one, two := AfterFirst(UPPER, LOWER, None), AfterBoth(UPPER, LOWER, None);
            && Decided(one, "prop_A") && !Decided(two, "prop_A") && Decided(two, "prop_a")
            && SHARED in CanonIn(one) && CanonIn(one)[SHARED].slot == "x"
            && SHARED in CanonIn(two) && CanonIn(two)[SHARED].slot == "y"
  {
    assert UPPER.id == "prop_A" && LOWER.id == "prop_a";
    hide *;
    SharedFirst();
    SharedSecond();
    FirstIsApplied(UPPER, LOWER, None);
    SharedFile(Holding(UPPER, LOWER, None), AfterFirst(UPPER, LOWER, None), UPPER, LOWER);
  }

  lemma FirstIsApplied(p: Proposal, q: Proposal, canon: Option<Canon>)
    ensures AfterFirst(p, q, canon) == Apply(Holding(p, q, canon), TEXTS, Ratifying(p))
  {
    hide Apply;
  }

  lemma OneRecordIsValid()
    ensures CL.Valid(map[KeyOf(NAME) := NAME])
  {
    var store: CanonStore := map[KeyOf(NAME) := NAME];
    assert forall a, b :: !CL.Succeeds(store, a, b) && !CL.ReplacedBy(store, a, b);
    forall chain | |chain| >= 2 ensures !CL.IsChain(store, chain) {
      assert !CL.Succeeds(store, chain[0], chain[1]);
    }
  }

  const REVISION := Proposing("prop_a", Revise, Some(NAME_REF), "name")

  /** The canon after a first proposal has revised the record. */
  ghost predicate RevisedOnce(store: CanonStore) {
    && CL.Valid(store) && store.Keys == {KeyOf(NAME), CanonKey("fact", "mem_a")}
    && store[KeyOf(NAME)].state == Superseded && store[KeyOf(NAME)].supersededBy == Some("mem_a")
    && KeyOf(store[KeyOf(NAME)]) == KeyOf(NAME)
    && store[CanonKey("fact", "mem_a")].state == Ratified && store[CanonKey("fact", "mem_a")].slot == "name"
    && KeyOf(store[CanonKey("fact", "mem_a")]) == CanonKey("fact", "mem_a")
  }

  /** A proposal that revises or retires the record may be ratified, whatever became of the record. */
  lemma NameMayBeClosed(records: Records, q: Proposal)
    requires Filed(records) && KeyOf(NAME) in CanonIn(records)
    requires q.target == Some(NAME_REF) && q.operation != Create && q.candidateKind == "fact"
             && q.targetLayer == "canon"
    requires HasClaim(q.payload) && q.payload.kind.Absent?
    ensures MayBeRatified(records, TEXTS, q)
  {
    assert CanonFile(KeyOf(NAME)) in records;
    FoundTarget(records, q.target);
  }

  lemma RevisionEffect(after: CanonStore, e: Effect)
    requires Effects(map[KeyOf(NAME) := NAME], after, TEXTS, REVISION, 1, e)
    ensures RevisedOnce(after)
  {
    NewIds();
    OneRecordIsValid();
    hide CL.Valid;
    EffectKeepsValid(map[KeyOf(NAME) := NAME], after, TEXTS, REVISION, 1, e);
  }

  lemma FirstRevision(q: Proposal)
    requires q.id == "prop_b" && IsOpen(q)
    ensures Filed(AfterFirst(REVISION, q, Some(NAME))) && RevisedOnce(CanonIn(AfterFirst(REVISION, q, Some(NAME))))
    ensures CL.Valid(CanonIn(Holding(REVISION, q, Some(NAME))))
    ensures RequireProposal(AfterFirst(REVISION, q, Some(NAME)), q.id) == Ok(q)
         && !IsAlreadyApplied(AfterFirst(REVISION, q, Some(NAME)), q.id, Ratify)
  {
    BothOpen(REVISION, q, Some(NAME));
    NameMayBeClosed(Holding(REVISION, q, Some(NAME)), REVISION);
    OneRecordIsValid();
    hide *;
    var e := FirstRatified(REVISION, q, Some(NAME));
    RevisionEffect(CanonIn(AfterFirst(REVISION, q, Some(NAME))), e);
  }

  /**
   Two proposals that revise one record: ratifying both leaves two active records of its slot, a record whose successor
   is not the one that names it, and a closed record that was rewritten.
   */
  lemma TwoRevisionsBreakCanon()
    ensures var q := Proposing("prop_b", Revise, Some(NAME_REF), "name");
            var start, one, two := Holding(REVISION, q, Some(NAME)), AfterFirst(REVISION, q, Some(NAME)),
                                   AfterBoth(REVISION, q, Some(NAME));
            && CL.Valid(CanonIn(start)) && CL.Valid(CanonIn(one))
            && !CL.OneRatified(CanonIn(two)) && !CL.LinksInverse(CanonIn(two))
               && !CL.Extends(CanonIn(one), CanonIn(two))
  {
    var q := Proposing("prop_b", Revise, Some(NAME_REF), "name");
    FirstRevision(q);
    NameMayBeClosed(AfterFirst(REVISION, q, Some(NAME)), q);
    hide *;
    var e := SecondRatified(REVISION, q, Some(NAME));
    SecondRevisionBreaks(CanonIn(AfterFirst(REVISION, q, Some(NAME))), CanonIn(AfterBoth(REVISION, q, Some(NAME))), q,
                         e);
  }

  lemma SecondRevisionBreaks(one: CanonStore, two: CanonStore, q: Proposal, e: Effect)
    requires RevisedOnce(one) && q == Proposing("prop_b", Revise, Some(NAME_REF), "name")
             && Effects(one, two, TEXTS, q, 1, e)
    ensures !CL.OneRatified(two) && !CL.LinksInverse(two) && !CL.Extends(one, two)
  {
    assert CL.OneRatified(one) && q.operation == Revise;
    RenamedRival(one, q);
    ClosedIsRewritten(one, two, q, e);
    SuccessorIsLost(one, two, q, e);
    hide *;
    EffectKeepsUnique(one, two, TEXTS, q, 1, e);
  }

  lemma SuccessorIsLost(one: CanonStore, two: CanonStore, q: Proposal, e: Effect)
    requires RevisedOnce(one) && q == Proposing("prop_b", Revise, Some(NAME_REF), "name")
             && Effects(one, two, TEXTS, q, 1, e)
    ensures !CL.LinksInverse(two)
  {
    NewIds();
    hide CL.Valid, CL.LinksInverse, ClosedRecord, PayloadTemporal, RatificationId;
    RelinkBreaks(one, two, KeyOf(NAME));
  }

  lemma ClosedIsRewritten(one: CanonStore, two: CanonStore, q: Proposal, e: Effect)
    requires RevisedOnce(one) && q == Proposing("prop_b", Revise, Some(NAME_REF), "name")
             && Effects(one, two, TEXTS, q, 1, e)
    ensures !CL.Extends(one, two)
  {
    NewIds();
    hide CL.Valid, CL.Extends, ClosedRecord, ClosingRefs, ClosingTime, Distinct, RatificationId;
    EffectExtends(one, two, TEXTS, q, 1, e);
  }

  lemma RenamedRival(one: CanonStore, q: Proposal)
    requires RevisedOnce(one) && q == Proposing("prop_b", Revise, Some(NAME_REF), "name")
    ensures !KeepsUnique(one, TEXTS, q)
  {
    NewIds();
    hide CL.Valid;
    var a := CanonKey("fact", "mem_a");
    assert one[a].state == Ratified && NewKey(TEXTS, q) == CanonKey("fact", "mem_b") != TargetKey(q);
    assert HasRival(one, q, {NewKey(TEXTS, q), TargetKey(q)});
  }

  /** A proposal that retires a record which was already replaced cuts the link to its successor. */
  lemma RetiringReplacedBreaksCanon()
    ensures var q := Proposing("prop_b", Supersede, Some(NAME_REF), "name");
            var one, two := AfterFirst(REVISION, q, Some(NAME)), AfterBoth(REVISION, q, Some(NAME));
            && CL.Valid(CanonIn(one)) && !CL.LinksInverse(CanonIn(two)) && !CL.Extends(CanonIn(one), CanonIn(two))
  {
    var q := Proposing("prop_b", Supersede, Some(NAME_REF), "name");
    FirstRevision(q);
    NameMayBeClosed(AfterFirst(REVISION, q, Some(NAME)), q);
    hide *;
    var e := SecondRatified(REVISION, q, Some(NAME));
    RetirementBreaks(CanonIn(AfterFirst(REVISION, q, Some(NAME))), CanonIn(AfterBoth(REVISION, q, Some(NAME))), q, e);
  }

  lemma RetirementBreaks(one: CanonStore, two: CanonStore, q: Proposal, e: Effect)
    requires RevisedOnce(one) && q == Proposing("prop_b", Supersede, Some(NAME_REF), "name")
             && Effects(one, two, TEXTS, q, 1, e)
    ensures CL.Valid(one) && !CL.LinksInverse(two) && !CL.Extends(one, two)
  {
    NewIds();
    hide CL.LinksInverse, CL.Acyclic, CL.ChainsKeepSlot, CL.Extends;
    RelinkBreaks(one, two, KeyOf(NAME));
    EffectExtends(one, two, TEXTS, q, 1, e);
  }

  const BLANK_A := Proposing("prop_a", Create, None, " ")
  const BLANK_B := Proposing("prop_b", Create, None, " ")

  lemma BlankMayBeCreated(records: Records, p: Proposal)
    requires p == BLANK_A || p == BLANK_B
    ensures MayBeRatified(records, TEXTS, p)
  {
    assert Blank(" ");
  }

  lemma BlankRivals(one: CanonStore, two: CanonStore, first: Effect, second: Effect)
    requires Effects(map[], one, TEXTS, BLANK_A, 1, first) && Effects(one, two, TEXTS, BLANK_B, 1, second)
    ensures CL.OneRatified(one) && !CL.OneRatified(two)
  {
    NewIds();
    var a := CanonKey("fact", "mem_a");
    assert a in one && one[a].state == Ratified;
    assert HasRival(one, BLANK_B, {NewKey(TEXTS, BLANK_B)});
    EffectKeepsUnique(one, two, TEXTS, BLANK_B, 1, second);
  }

  /** A slot of blanks is not compared with the canon: two proposals can create an active record for it. */
  lemma BlankSlotBreaksUniqueness()
    ensures CL.OneRatified(CanonIn(AfterFirst(BLANK_A, BLANK_B, None)))
            && !CL.OneRatified(CanonIn(AfterBoth(BLANK_A, BLANK_B, None)))
  {
    BothOpen(BLANK_A, BLANK_B, None);
    BlankMayBeCreated(Holding(BLANK_A, BLANK_B, None), BLANK_A);
    BlankMayBeCreated(AfterFirst(BLANK_A, BLANK_B, None), BLANK_B);
    assert BLANK_A.id != BLANK_B.id && IsOpen(BLANK_A) && IsOpen(BLANK_B);
    hide *;
    var first := FirstRatified(BLANK_A, BLANK_B, None);
    var second := SecondRatified(BLANK_A, BLANK_B, None);
    BlankRivals(CanonIn(AfterFirst(BLANK_A, BLANK_B, None)), CanonIn(AfterBoth(BLANK_A, BLANK_B, None)), first, second);
  }

  const TAKING := Proposing("prop_a", Create, None, "home")
  const MOVING := Proposing("prop_b", Revise, Some(NAME_REF), "home")

  lemma MovedRivals(one: CanonStore, two: CanonStore, first: Effect, second: Effect)
    requires Effects(map[KeyOf(NAME) := NAME], one, TEXTS, TAKING, 1, first)
             && Effects(one, two, TEXTS, MOVING, 1, second)
    ensures CL.Valid(one) && !CL.OneRatified(two) && !CL.ChainsKeepSlot(two)
  {
    NewIds();
    OneRecordIsValid();
    hide CL.Valid, CL.OneRatified;
    EffectKeepsValid(map[KeyOf(NAME) := NAME], one, TEXTS, TAKING, 1, first);
    var a := CanonKey("fact", "mem_a");
    assert a in one && one[a].state == Ratified;
    assert HasRival(one, MOVING, {NewKey(TEXTS, MOVING), TargetKey(MOVING)});
    assert CL.OneRatified(one) by { MovedStart(one, first); }
    EffectKeepsUnique(one, two, TEXTS, MOVING, 1, second);
    assert two[CanonKey("fact", "mem_b")].supersedes == Some("mem_name") && two[KeyOf(NAME)].slot == "name";
  }

  lemma MovedStart(one: CanonStore, first: Effect)
    requires Effects(map[KeyOf(NAME) := NAME], one, TEXTS, TAKING, 1, first)
    ensures CL.OneRatified(one) && KeyOf(NAME) in one && one[KeyOf(NAME)] == NAME
  {
    NewIds();
  }

  /** A revision may move a record to a slot that has an active record. */
  lemma MovingBreaksUniqueness()
    ensures CL.Valid(CanonIn(AfterFirst(TAKING, MOVING, Some(NAME))))
    ensures var two := CanonIn(AfterBoth(TAKING, MOVING, Some(NAME)));
            !CL.OneRatified(two) && !CL.ChainsKeepSlot(two)
  {
    MayTake();
    BothOpen(TAKING, MOVING, Some(NAME));
    assert TAKING.id != MOVING.id && IsOpen(TAKING) && IsOpen(MOVING);
    hide *;
    var first := FirstRatified(TAKING, MOVING, Some(NAME));
    MovedStart(CanonIn(AfterFirst(TAKING, MOVING, Some(NAME))), first);
    MayMove();
    var second := SecondRatified(TAKING, MOVING, Some(NAME));
    MovedRivals(CanonIn(AfterFirst(TAKING, MOVING, Some(NAME))), CanonIn(AfterBoth(TAKING, MOVING, Some(NAME))),
                first, second);
  }

  lemma MayTake()
    ensures MayBeRatified(Holding(TAKING, MOVING, Some(NAME)), TEXTS, TAKING)
  {
    BothOpen(TAKING, MOVING, Some(NAME));
    NoSharedSlot(Holding(TAKING, MOVING, Some(NAME)), TAKING);
  }

  lemma MayMove()
    requires Filed(AfterFirst(TAKING, MOVING, Some(NAME)))
             && KeyOf(NAME) in CanonIn(AfterFirst(TAKING, MOVING, Some(NAME)))
    ensures MayBeRatified(AfterFirst(TAKING, MOVING, Some(NAME)), TEXTS, MOVING)
  {
    NameMayBeClosed(AfterFirst(TAKING, MOVING, Some(NAME)), MOVING);
  }

  // ---------------------------------------------------------------- two ratifications under way at once

  const ALSO_TAKING := Proposing("prop_b", Create, None, "home")

  lemma OpenCreateIsRatified(records: Records, p: Proposal)
    requires Filed(records) && CanonIn(records) == map[]
    requires RequireProposal(records, p.id) == Ok(p) && !IsAlreadyApplied(records, p.id, Ratify)
    requires p.operation == Create && p.targetLayer == "canon" && HasClaim(p.payload)
    ensures Ratifies(records, TEXTS, Ratifying(p), p)
  {
    NoSharedSlot(records, p);
    hide IsAlreadyApplied, RequireProposal, CanonIn, SameSlotRefs, Filed;
    RatifiesExactly(records, TEXTS, Ratifying(p), p);
  }

  lemma BothMayTake()
    ensures var start := Holding(TAKING, ALSO_TAKING, None);
            && Filed(start) && CanonIn(start) == map[]
            && Ratifies(start, TEXTS, Ratifying(TAKING), TAKING)
            && Ratifies(start, TEXTS, Ratifying(ALSO_TAKING), ALSO_TAKING)
  {
    assert TAKING.id != ALSO_TAKING.id && IsOpen(TAKING) && IsOpen(ALSO_TAKING);
    assert HasClaim(TAKING.payload) && HasClaim(ALSO_TAKING.payload);
    assert TAKING.operation == Create && ALSO_TAKING.operation == Create;
    assert TAKING.targetLayer == "canon" && ALSO_TAKING.targetLayer == "canon";
    hide *;
    BothOpen(TAKING, ALSO_TAKING, None);
    OpenCreateIsRatified(Holding(TAKING, ALSO_TAKING, None), TAKING);
    OpenCreateIsRatified(Holding(TAKING, ALSO_TAKING, None), ALSO_TAKING);
  }

  /** Each of two proposals finds the slot free; both are planned, both are written, and the slot has two records. */
  lemma CrossedCreatesBreakUniqueness()
    ensures var start := Holding(TAKING, ALSO_TAKING, None);
            && CL.OneRatified(CanonIn(start))
            && Ratifies(start, TEXTS, Ratifying(TAKING), TAKING)
            && Ratifies(start, TEXTS, Ratifying(ALSO_TAKING), ALSO_TAKING)
            && !CL.OneRatified(CanonIn(AfterCrossing(start, TEXTS, Ratifying(ALSO_TAKING), Ratifying(TAKING))))
  {
    BothMayTake();
    NewIds();
    assert NewKey(TEXTS, ALSO_TAKING) == CanonKey("fact", "mem_b")
           && NewKey(TEXTS, TAKING) == CanonKey("fact", "mem_a");
    assert SameSlot(ALSO_TAKING, TAKING) && !TEXTS.blank("home") by { assert 'h' in "home"; }
    hide Holding, CanonIn, Ratifies, AfterCrossing, NewKey, Blank;
    CrossedCreatesExactly(Holding(TAKING, ALSO_TAKING, None), TEXTS, Ratifying(ALSO_TAKING), ALSO_TAKING,
                          Ratifying(TAKING), TAKING);
  }

  // ---------------------------------------------------------------- a rejection while a ratification is pending

  /**
   The lock and the journal are those of one proposal and one action. When the process that ratifies a proposal dies
   with its journal in place, a rejection of the proposal is made all the same. The recovery of the ratification then
   writes over what the two share, which may be the packet, and leaves two verdicts.
   */
  lemma PendingRatificationMeetsRejection(files: J.Files, records: Records, texts: Texts, ratify: Choice,
                                          reject: Choice, d: J.Decision) returns (run: seq<J.State>)
    requires Filed(records) && OneVerdict(records) && J.Stores(files, records) && d.JournalName() !in files
    requires IsWritten(records, texts, ratify) && IsWritten(records, texts, reject)
    requires ratify.input.action == Ratify && reject.input.action == Reject
    requires ratify.input.proposalRef == reject.input.proposalRef
    requires d.proposalRef == ratify.input.proposalRef && d.action == Ratify
    requires d.records == PlanDecision(records, texts, ratify.input, ratify.packet).value.writes
             && forall r :: r in d.records ==> d.valid(r)
    ensures J.Run(run, d) && run[0].files == files && run[|run| - 1].phase == J.Recovered
    ensures var other := PlanDecision(records, texts, reject.input, reject.packet).value.writes;
            var stored := WriteRecords(WriteRecords(records, other), d.records);
            J.Stores(run[|run| - 1].files, stored) && !OneVerdict(stored)
  {
    OwnerRetry.StalePlanDoublesVerdict(records, texts, ratify, reject);
    var other := PlanDecision(records, texts, reject.input, reject.packet).value.writes;
    var start := J.State(files, records, J.Writing, J.WritePlan(d), false);
    assert J.Start(start, d);
    assert OwnerRetry.IsVerdictAction(Ratify) && OwnerRetry.IsVerdictAction(Reject);
    hide PlanDecision, J.Start, J.Run, J.Stores, WriteRecords, IsWritten, OneVerdict, Filed;
    run := OwnerRetry.PendingJournalIsReplayed(start, d, other);
  }
}
