/**
 Two ratifications under way at once. The lock of a decision is that of one proposal and one action
 (packages/core/src/owner-decisions.ts), so the plans of two proposals can be made from one store and both be written.
 */
module OwnerCrossing {
  import opened Prelude
  import opened GovernanceRecords
  import opened CanonEngine
  import opened OwnerDecisions
  import opened OwnerRuns
  import opened OwnerEffects
  import opened OwnerCanon
  import OwnerRetry
  import J = OwnerDecisionJournal
  import CL = CanonLifecycle

  function PlannedWrites(records: Records, texts: Texts, choice: Choice): seq<Record> {
    var plan := PlanDecision(records, texts, choice.input, choice.packet);
    if plan.Ok? then plan.value.writes else []
  }

  /** Both plans are made from one store; the plan of `early` is written last. */
  function AfterCrossing(records: Records, texts: Texts, early: Choice, late: Choice): Records {
    WriteRecords(WriteRecords(records, PlannedWrites(records, texts, late)), PlannedWrites(records, texts, early))
  }

  // ---------------------------------------------------------------- the canon that is left

  /** The records of an effect over any canon. */
  function Rewritten(store: CanonStore, e: Effect): CanonStore {
    var first := if e.created.Some? then Write(store, e.created.value) else store;
    if e.closed.Some? then Write(first, e.closed.value) else first
  }

  lemma EffectIsWritten(store: CanonStore, applied: Applied)
    requires |applied.updated| <= 1
    ensures WriteAll(store, CanonEngine.Records(applied)) == Rewritten(store, EffectOf(applied))
  {
    if applied.created.Some? && applied.updated != [] {
      WriteOneOrTwo(store, applied.created.value, applied.updated[0]);
      assert CanonEngine.Records(applied) == [applied.created.value, applied.updated[0]];
    } else if applied.created.Some? {
      WriteOneOrTwo(store, applied.created.value, applied.created.value);
      assert CanonEngine.Records(applied) == [applied.created.value];
    } else if applied.updated != [] {
      WriteOneOrTwo(store, applied.updated[0], applied.updated[0]);
      assert CanonEngine.Records(applied) == [applied.updated[0]];
    }
  }

  lemma OneIsClosed(proposal: Proposal, ratification: Ratification, existing: Option<Canon>, id: string, now: int)
    requires ApplyProposal(proposal, ratification, existing, id, now).Ok?
    ensures |ApplyProposal(proposal, ratification, existing, id, now).value.updated| <= 1
  {
    hide ApplyCreate, ApplyRevise, ApplySupersede;
  }

  /** The records that a ratification plans, written over the canon of any other store. */
  lemma PlannedEffect(records: Records, texts: Texts, choice: Choice, proposal: Proposal, others: Records)
      returns (e: Effect)
    requires Filed(records) && Ratifies(records, texts, choice, proposal)
    ensures Effects(CanonIn(records), CanonIn(Apply(records, texts, choice)), texts, proposal, choice.input.now, e)
    ensures CanonIn(WriteRecords(others, PlannedWrites(records, texts, choice))) == Rewritten(CanonIn(others), e)
    ensures CanonIn(Apply(records, texts, choice)) == Rewritten(CanonIn(records), e)
  {
    e := RatifyEffects(records, texts, choice, proposal);
    var rest := RatifyWrites(records, texts, choice, proposal);
    var ratification := MakeRatification(texts, choice.input, proposal, Approved);
    var applied := Outcome(records, texts, choice.input, proposal).value;
    OneIsClosed(proposal, ratification, FindTarget(CanonIn(records), proposal.target), NewId(texts, proposal),
                choice.input.now);
    hide Apply, Ratifies, PlanDecision, CanonIn, Effects, ApplyProposal, WriteRecords, Rewritten, EffectOf, WriteAll;
    var writes := [OfRatification(ratification)] + CanonWrites(CanonEngine.Records(applied)) + rest;
    RatifyCanons(ratification, CanonEngine.Records(applied), rest);
    CanonAfterWrites(others, writes);
    CanonAfterWrites(records, writes);
    EffectIsWritten(CanonIn(others), applied);
    EffectIsWritten(CanonIn(records), applied);
  }

  // ---------------------------------------------------------------- when one active record is left

  /** The files of the canon that a ratification writes. */
  function WrittenKeys(texts: Texts, proposal: Proposal): set<CanonKey> {
    (if proposal.operation != Supersede then {NewKey(texts, proposal)} else {})
    + (if proposal.operation != Create && proposal.target.Some? then {TargetKey(proposal)} else {})
  }

  /** The ratification leaves an active record: a revision under the id of its own target leaves a closed one. */
  predicate LeavesActive(texts: Texts, proposal: Proposal) { TakesFile(texts, proposal, NewKey(texts, proposal)) }

  predicate SameSlot(p: Proposal, q: Proposal) {
    p.candidateKind == q.candidateKind && p.payload.slot.Text? && q.payload.slot == p.payload.slot
  }

  /**
   The record of the one written last has no rival outside the files of both; nor has the record of the other, when it
   is not written over; and when both records are left they are not of one slot.
   */
  predicate CrossingKeepsUnique(store: CanonStore, texts: Texts, last: Proposal, first: Proposal) {
    var written := WrittenKeys(texts, last) + WrittenKeys(texts, first);
    var firstLasts := LeavesActive(texts, first) && NewKey(texts, first) !in WrittenKeys(texts, last);
    && (LeavesActive(texts, last) ==> !HasRival(store, last, written))
    && (firstLasts ==> !HasRival(store, first, written))
    && !(LeavesActive(texts, last) && firstLasts && SameSlot(last, first))
  }

  /** What the canon holds after the writes of one effect. */
  lemma RewrittenAt(base: CanonStore, planned: CanonStore, store: CanonStore, texts: Texts, proposal: Proposal,
                    now: int,
                    e: Effect, k: CanonKey)
    requires Effects(base, planned, texts, proposal, now, e)
    ensures k in Rewritten(store, e) <==> k in store || k in WrittenKeys(texts, proposal)
    ensures k !in WrittenKeys(texts, proposal) && k in store ==> Rewritten(store, e)[k] == store[k]
    ensures k in WrittenKeys(texts, proposal) ==>
              var r := Rewritten(store, e)[k];
              if LeavesActive(texts, proposal) && k == NewKey(texts, proposal)
              then KeyOf(r) == k && r.state == Ratified && proposal.payload.slot.IsText(r.slot)
              else r.state == Superseded
  {
    hide ClosedRecord, RatificationId, PayloadTemporal, NewId;
  }

  /** What the canon holds after the writes of both. */
  lemma CrossedAt(store: CanonStore, texts: Texts, q: Proposal, p: Proposal, afterQ: CanonStore, afterP: CanonStore,
                  nowQ: int, nowP: int, eq: Effect, ep: Effect, k: CanonKey)
    requires Effects(store, afterQ, texts, q, nowQ, eq) && Effects(store, afterP, texts, p, nowP, ep)
    ensures var two, q', p' := Rewritten(Rewritten(store, ep), eq), WrittenKeys(texts, q), WrittenKeys(texts, p);
            && (k in two <==> k in store || k in p' || k in q')
            && (k in two && k !in p' && k !in q' ==> two[k] == store[k])
            && (k in q' ==> if LeavesActive(texts, q) && k == NewKey(texts, q)
                            then KeyOf(two[k]) == k && two[k].state == Ratified && q.payload.slot.IsText(two[k].slot)
                            else two[k].state == Superseded)
            && (k in p' && k !in q' ==> if LeavesActive(texts, p) && k == NewKey(texts, p)
                                        then KeyOf(two[k]) == k && two[k].state == Ratified
                                          && p.payload.slot.IsText(two[k].slot)
                                        else two[k].state == Superseded)
  {
    hide Rewritten, Effects, WrittenKeys, LeavesActive;
    RewrittenAt(store, afterP, store, texts, p, nowP, ep, k);
    RewrittenAt(store, afterQ, Rewritten(store, ep), texts, q, nowQ, eq, k);
  }

  /** The record at `k` is left by the proposal, as an active record of its slot. */
  predicate IsLeft(two: CanonStore, k: CanonKey, proposal: Proposal) {
    k in two && KeyOf(two[k]) == k && two[k].state == Ratified && k.kind == proposal.candidateKind
    && proposal.payload.slot.IsText(two[k].slot)
  }

  /** Uniqueness of a canon that differs from a unique one in these files, two of which may hold a new active record. */
  lemma UniqueAfterTwo(store: CanonStore, two: CanonStore, written: set<CanonKey>, last: Proposal, first: Proposal,
                       l: Option<CanonKey>, f: Option<CanonKey>)
    requires CL.OneRatified(store)
    requires forall k :: k in two <==> k in store || k in written
    requires forall k :: k in two && k !in written ==> two[k] == store[k]
    requires forall k :: k in written && Some(k) != l && Some(k) != f ==> two[k].state == Superseded
    requires l.Some? ==> l.value in written && IsLeft(two, l.value, last)
    requires f.Some? ==> f.value in written && IsLeft(two, f.value, first)
    requires l.Some? && f.Some? ==> l != f
    ensures CL.OneRatified(two) <==>
            && (l.Some? ==> !HasRival(store, last, written)) && (f.Some? ==> !HasRival(store, first, written))
            && !(l.Some? && f.Some? && SameSlot(last, first))
  {
    if l.Some? && HasRival(store, last, written) {
      var k :| k in store && k !in written && store[k].state == Ratified
               && store[k].kind == last.candidateKind && last.payload.slot.IsText(store[k].slot);
      assert CL.Rivals(two[k], two[l.value]);
    }
    if f.Some? && HasRival(store, first, written) {
      var k :| k in store && k !in written && store[k].state == Ratified
               && store[k].kind == first.candidateKind && first.payload.slot.IsText(store[k].slot);
      assert CL.Rivals(two[k], two[f.value]);
    }
    if l.Some? && f.Some? && SameSlot(last, first) { assert CL.Rivals(two[l.value], two[f.value]); }
  }

  lemma CrossedUnique(store: CanonStore, two: CanonStore, texts: Texts, q: Proposal, p: Proposal, afterQ: CanonStore,
                      afterP: CanonStore, nowQ: int, nowP: int, eq: Effect, ep: Effect)
    requires CL.OneRatified(store) && two == Rewritten(Rewritten(store, ep), eq)
    requires Effects(store, afterQ, texts, q, nowQ, eq) && Effects(store, afterP, texts, p, nowP, ep)
    ensures CL.OneRatified(two) <==> CrossingKeepsUnique(store, texts, q, p)
  {
    hide Effects, Rewritten, CL.OneRatified, HasRival, NewId;
    forall k
      ensures k in two <==> k in store || k in WrittenKeys(texts, p) || k in WrittenKeys(texts, q)
      ensures k in two && k !in WrittenKeys(texts, p) && k !in WrittenKeys(texts, q) ==> two[k] == store[k]
    {
      CrossedAt(store, texts, q, p, afterQ, afterP, nowQ, nowP, eq, ep, k);
    }
    var l := if LeavesActive(texts, q) then Some(NewKey(texts, q)) else None;
    var f := if LeavesActive(texts, p) && NewKey(texts, p) !in WrittenKeys(texts, q) then Some(NewKey(texts, p))
             else None;
    var written := WrittenKeys(texts, q) + WrittenKeys(texts, p);
    forall k | k in written
      ensures Some(k) != l && Some(k) != f ==> two[k].state == Superseded
      ensures Some(k) == l ==> IsLeft(two, k, q)
      ensures Some(k) == f ==> IsLeft(two, k, p)
    {
      CrossedAt(store, texts, q, p, afterQ, afterP, nowQ, nowP, eq, ep, k);
    }
    UniqueAfterTwo(store, two, written, q, p, l, f);
  }

  /**
   Two ratifications that are planned from one store and both written leave at most one active record for each slot
   exactly under this condition on the two proposals and the store.
   */
  lemma CrossedUniqueExactly(records: Records, texts: Texts, early: Choice, q: Proposal, late: Choice, p: Proposal)
    requires Filed(records) && CL.OneRatified(CanonIn(records))
    requires Ratifies(records, texts, early, q) && Ratifies(records, texts, late, p)
    ensures CL.OneRatified(CanonIn(AfterCrossing(records, texts, early, late))) <==>
            CrossingKeepsUnique(CanonIn(records), texts, q, p)
  {
    var ep := PlannedEffect(records, texts, late, p, records);
    var eq := PlannedEffect(records, texts, early, q, WriteRecords(records, PlannedWrites(records, texts, late)));
    var store := CanonIn(records);
    var two := CanonIn(AfterCrossing(records, texts, early, late));
    var afterQ, afterP := CanonIn(Apply(records, texts, early)), CanonIn(Apply(records, texts, late));
    assert two == Rewritten(Rewritten(store, ep), eq);
    hide *;
    CrossedUnique(store, two, texts, q, p, afterQ, afterP, early.input.now, late.input.now, eq, ep);
  }

  /**
   Two new records of slots that are not blank: the decision looks for the slot in the canon, and so finds neither of
   them. Both are left, as active records of one slot, exactly when kind and slot are the same and the ids differ.
   */
  lemma CrossedCreatesExactly(records: Records, texts: Texts, early: Choice, q: Proposal, late: Choice, p: Proposal)
    requires Filed(records) && CL.OneRatified(CanonIn(records))
    requires Ratifies(records, texts, early, q) && Ratifies(records, texts, late, p)
    requires q.operation == Create && p.operation == Create
    requires q.payload.slot.Text? && !texts.blank(q.payload.slot.text)
    requires p.payload.slot.Text? && !texts.blank(p.payload.slot.text)
    ensures CL.OneRatified(CanonIn(AfterCrossing(records, texts, early, late))) <==>
            NewKey(texts, q) == NewKey(texts, p) || !SameSlot(q, p)
  {
    CrossedUniqueExactly(records, texts, early, q, late, p);
    UniqueExactly(records, texts, early, q);
    UniqueExactly(records, texts, late, p);
    hide Apply, Ratifies, CanonIn, CL.OneRatified, AfterCrossing, NewId;
  }

  // ---------------------------------------------------------------- the run

  /** No lock is shared: a write that was planned before the records of the other decision came finishes over them. */
  lemma CrossingIsStored(start: J.State, d: J.Decision, records: Records, texts: Texts, early: Choice, late: Choice)
      returns (run: seq<J.State>)
    requires Filed(records) && J.Start(start, d)
             && start.others == WriteRecords(records, PlannedWrites(records, texts, late))
    requires d.proposalRef == early.input.proposalRef && d.action == early.input.action
    requires d.records == PlannedWrites(records, texts, early) && forall r :: r in d.records ==> d.valid(r)
    ensures J.Run(run, d) && run[0] == start && run[|run| - 1].phase == J.Finished
    ensures J.Stores(run[|run| - 1].files, AfterCrossing(records, texts, early, late))
  {
    hide J.Start, J.Run, J.Stores, PlannedWrites, WriteRecords;
    OwnerRetry.FiledAfter(records, PlannedWrites(records, texts, late));
    run := J.WriteFinishes(start, d);
  }
}
