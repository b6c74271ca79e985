/** The canon under owner decisions: when a ratified proposal keeps it valid, and when it does not. */
module OwnerCanon {
  import opened Prelude
  import opened GovernanceRecords
  import opened CanonEngine
  import opened OwnerDecisions
  import opened OwnerRuns
  import opened OwnerEffects
  import OwnerRetry
  import CL = CanonLifecycle

  // ---------------------------------------------------------------- one active record for each slot

  /** An active record of the proposal's kind and slot, in a file that is not among `written`. */
  predicate HasRival(store: CanonStore, proposal: Proposal, written: set<CanonKey>) {
    exists k :: k in store && k !in written && store[k].state == Ratified
                && store[k].kind == proposal.candidateKind && proposal.payload.slot.IsText(store[k].slot)
  }

  /** When a ratification leaves at most one active record for each slot. */
  predicate KeepsUnique(store: CanonStore, texts: Texts, proposal: Proposal) {
    match proposal.operation
    case Create => !HasRival(store, proposal, {NewKey(texts, proposal)})
    case Revise =>
      proposal.target.Some? ==>
        || NewKey(texts, proposal) == TargetKey(proposal)
        || !HasRival(store, proposal, {NewKey(texts, proposal), TargetKey(proposal)})
    case Supersede => true
  }

  lemma EffectKeepsUnique(before: CanonStore, after: CanonStore, texts: Texts, proposal: Proposal, now: int, e: Effect)
    requires Effects(before, after, texts, proposal, now, e) && CL.OneRatified(before)
    ensures CL.OneRatified(after) <==> KeepsUnique(before, texts, proposal)
  {
    var key := NewKey(texts, proposal);
    match proposal.operation {
      case Create =>
        if k :| k in before && k != key && CL.Rivals(before[k], e.created.value) {
          assert k in after && key in after && CL.Rivals(after[k], after[key]);
        }
      case Revise =>
        var target := TargetKey(proposal);
        if k :| key != target && k in before && k != key && k != target && CL.Rivals(before[k], e.created.value) {
          assert k in after && key in after && CL.Rivals(after[k], after[key]);
        }
        assert after[target].state == Superseded;
      case Supersede =>
        assert after[TargetKey(proposal)].state == Superseded;
    }
  }

  /**
   A written ratification leaves one active record for each slot exactly when no other active record has the kind and
   slot of the proposal. The decision tests this only for proposals that create a record for a slot that is not blank.
   */
  lemma UniqueExactly(records: Records, texts: Texts, choice: Choice, proposal: Proposal)
    requires Filed(records) && CL.OneRatified(CanonIn(records)) && Ratifies(records, texts, choice, proposal)
    ensures CL.OneRatified(CanonIn(Apply(records, texts, choice))) <==> KeepsUnique(CanonIn(records), texts, proposal)
    ensures proposal.operation == Create && proposal.payload.slot.Text? && !texts.blank(proposal.payload.slot.text) ==>
              KeepsUnique(CanonIn(records), texts, proposal)
  {
    RatifiesExactly(records, texts, choice, proposal);
    var e := RatifyEffects(records, texts, choice, proposal);
    hide Apply, Ratifies, IsAlreadyApplied, Effects;
    EffectKeepsUnique(CanonIn(records), CanonIn(Apply(records, texts, choice)), texts, proposal, choice.input.now, e);
    if proposal.operation == Create && proposal.payload.slot.Text? && !texts.blank(proposal.payload.slot.text) {
      forall k | k in CanonIn(records) ensures CanonIn(records)[k].slot != proposal.payload.slot.text {
        SharedSlotIsListed(records, texts, proposal, k);
      }
    }
  }

  lemma SharedSlotIsListed(records: Records, texts: Texts, proposal: Proposal, k: CanonKey)
    requires k in CanonIn(records) && proposal.payload.slot.Text? && !texts.blank(proposal.payload.slot.text)
    ensures CanonIn(records)[k].slot == proposal.payload.slot.text ==>
              CanonIn(records)[k].id in SameSlotRefs(records, proposal, texts)
  {
    assert CanonFile(k) in records && records[CanonFile(k)].OfCanon?;
  }

  // ---------------------------------------------------------------- the whole invariant of the canon

  /** No record of another kind has the new id. */
  predicate KeepsIds(store: CanonStore, texts: Texts, proposal: Proposal) {
    proposal.operation != Supersede ==>
      forall k :: k in store && k.id == NewId(texts, proposal) ==> k == NewKey(texts, proposal)
  }

  /**
   When a ratification leaves the links between records intact. A record that is written over must have no link, but
   for the one to the target that the new record has as well.
   */
  predicate KeepsLinks(store: CanonStore, texts: Texts, proposal: Proposal) {
    var key := NewKey(texts, proposal);
    match proposal.operation
    case Create => key in store ==> store[key].supersedes == None && store[key].supersededBy == None
    case Revise =>
      proposal.target.Some? && TargetKey(proposal) in store ==>
        var prior := store[TargetKey(proposal)];
        && key != TargetKey(proposal) && proposal.payload.slot.IsText(prior.slot)
        && prior.supersededBy in {None, Some(key.id)}
        && (key in store ==> store[key].supersededBy == None && store[key].supersedes in {None, Some(prior.id)})
    case Supersede =>
      proposal.target.Some? && TargetKey(proposal) in store ==> store[TargetKey(proposal)].supersededBy == None
  }

  predicate KeepsCanon(store: CanonStore, texts: Texts, proposal: Proposal) {
    KeepsUnique(store, texts, proposal) && KeepsIds(store, texts, proposal) && KeepsLinks(store, texts, proposal)
  }

  lemma NoSelfLink(store: CanonStore, k: CanonKey)
    requires CL.Valid(store) && k in store
    ensures store[k].supersedes != Some(k.id) && store[k].supersededBy != Some(k.id)
  {
    hide CL.OneRatified, CL.ChainsKeepSlot, CL.ActiveIsLast;
    var loop := [k.id, k.id];
    assert loop[0] == loop[|loop| - 1];
    assert !CL.IsChain(store, loop);
    assert !CL.Succeeds(store, loop[0], loop[1]);
    assert CL.ReplacedBy(store, k.id, k.id) ==> CL.Succeeds(store, k.id, k.id);
  }

  /** A record that was replaced before loses the link to its successor, which still points back at it. */
  lemma RelinkBreaks(before: CanonStore, after: CanonStore, key: CanonKey)
    requires CL.Valid(before) && key in before && before[key].supersededBy.Some?
    requires key in after && after[key].supersededBy != before[key].supersededBy
    requires forall k :: k in before && before[k].supersedes == Some(key.id) ==>
               k in after && after[k].supersedes == Some(key.id)
    requires forall k :: k in after && k.id == key.id ==> k == key
    ensures !CL.LinksInverse(after)
  {
    hide CL.Acyclic, CL.OneRatified, CL.ChainsKeepSlot, CL.ActiveIsLast;
    var later := before[key].supersededBy.value;
    assert CL.ReplacedBy(before, key.id, later);
    assert CL.Succeeds(before, later, key.id);
    var j :| j in before && j.id == later && before[j].supersedes == Some(key.id);
    assert j in after && after[j].supersedes == Some(key.id);
    assert CL.Succeeds(after, later, key.id);
  }

  /** And a record that replaced another loses the link to it. */
  lemma UnlinkBreaks(before: CanonStore, after: CanonStore, key: CanonKey)
    requires CL.Valid(before) && key in before && before[key].supersedes.Some?
    requires key in after && after[key].supersedes != before[key].supersedes
    requires forall k ::
               (k in before && before[k].supersededBy == Some(key.id) && Some(k.id) == before[key].supersedes) ==>
                 k in after && after[k].supersededBy == Some(key.id)
    requires forall k :: k in after && k.id == key.id ==> k == key
    ensures !CL.LinksInverse(after)
  {
    hide CL.Acyclic, CL.OneRatified, CL.ChainsKeepSlot, CL.ActiveIsLast;
    var earlier := before[key].supersedes.value;
    assert CL.Succeeds(before, key.id, earlier);
    assert CL.ReplacedBy(before, earlier, key.id);
    var j :| j in before && j.id == earlier && before[j].supersededBy == Some(key.id);
    assert j in after && after[j].supersededBy == Some(key.id);
    assert CL.ReplacedBy(after, earlier, key.id);
  }

  lemma IdsAreNeeded(before: CanonStore, after: CanonStore, texts: Texts, proposal: Proposal, now: int, e: Effect)
    requires Effects(before, after, texts, proposal, now, e) && !KeepsIds(before, texts, proposal)
    ensures !CL.IdsUnique(after)
  {
    var k :| k in before && k.id == NewId(texts, proposal) && k != NewKey(texts, proposal);
    assert k in after && NewKey(texts, proposal) in after;
  }

  lemma CreateNeedsNoLinks(before: CanonStore, after: CanonStore, texts: Texts, proposal: Proposal, now: int, e: Effect)
    requires CL.Valid(before) && Effects(before, after, texts, proposal, now, e) && KeepsIds(before, texts, proposal)
    requires proposal.operation == Create && !KeepsLinks(before, texts, proposal)
    ensures !CL.LinksInverse(after)
  {
    var key := NewKey(texts, proposal);
    NoSelfLink(before, key);
    hide CL.Valid;
    if before[key].supersededBy.Some? { RelinkBreaks(before, after, key); } else { UnlinkBreaks(before, after, key); }
  }

  lemma SupersedeNeedsNoLink(before: CanonStore, after: CanonStore, texts: Texts, proposal: Proposal, now: int,
                             e: Effect)
    requires CL.Valid(before) && Effects(before, after, texts, proposal, now, e)
    requires proposal.operation == Supersede && !KeepsLinks(before, texts, proposal)
    ensures !CL.LinksInverse(after)
  {
    hide CL.Acyclic, CL.OneRatified, CL.LinksInverse, CL.ActiveIsLast, CL.ChainsKeepSlot, ClosedRecord;
    RelinkBreaks(before, after, TargetKey(proposal));
  }

  /** A revision under the id of its own target makes the record its own successor. */
  lemma OwnSuccessorBreaks(before: CanonStore, after: CanonStore, texts: Texts, proposal: Proposal, now: int, e: Effect)
    requires CL.Valid(before) && Effects(before, after, texts, proposal, now, e) && proposal.operation == Revise
    requires NewKey(texts, proposal) == TargetKey(proposal)
    ensures !CL.LinksInverse(after)
  {
    var key := TargetKey(proposal);
    NoSelfLink(before, key);
    hide CL.Acyclic, CL.OneRatified, CL.ActiveIsLast, CL.ChainsKeepSlot, ClosedRecord;
    assert after[key].supersededBy == Some(key.id);
    assert CL.ReplacedBy(after, key.id, key.id);
    assert forall k :: k in after && k.id == key.id ==> k == key;
    assert !CL.Succeeds(after, key.id, key.id);
  }

  lemma ReviseNeedsLinks(before: CanonStore, after: CanonStore, texts: Texts, proposal: Proposal, now: int, e: Effect)
    requires CL.Valid(before) && Effects(before, after, texts, proposal, now, e) && KeepsIds(before, texts, proposal)
    requires proposal.operation == Revise && !KeepsLinks(before, texts, proposal)
    ensures !CL.Valid(after)
  {
    hide ClosedRecord, PayloadTemporal, RatificationId, CL.Acyclic, CL.LinksInverse, CL.OneRatified, CL.ChainsKeepSlot;
    var key, target := NewKey(texts, proposal), TargetKey(proposal);
    var prior := before[target];
    if key == target {
      OwnSuccessorBreaks(before, after, texts, proposal, now, e);
    } else {
      assert CL.IdsUnique(before);
      assert key.id != target.id && forall k :: k in after && (k.id == key.id || k.id == target.id) ==>
               k == key || k == target;
      if key in before { NoSelfLink(before, key); }
      hide CL.Valid;
      if !proposal.payload.slot.IsText(prior.slot) {
        assert after[key].supersedes == Some(target.id) && after[key].slot != after[target].slot;
        SlotMoves(after, key, target);
      } else if prior.supersededBy !in {None, Some(key.id)} {
        RelinkBreaks(before, after, target);
        LinksMatter(after);
      } else if before[key].supersededBy.Some? {
        RelinkBreaks(before, after, key);
        LinksMatter(after);
      } else {
        UnlinkBreaks(before, after, key);
        LinksMatter(after);
      }
    }
  }

  lemma SlotMoves(store: CanonStore, j: CanonKey, k: CanonKey)
    requires j in store && k in store && store[j].supersedes == Some(k.id) && store[j].slot != store[k].slot
    ensures !CL.Valid(store)
  {
    hide CL.Acyclic, CL.OneRatified, CL.LinksInverse, CL.ActiveIsLast;
    assert !CL.ChainsKeepSlot(store);
  }

  lemma LinksMatter(store: CanonStore)
    requires !CL.LinksInverse(store)
    ensures !CL.Valid(store)
  {
  }

  // ---------------------------------------------------------------- and when it is kept

  lemma FreshReviseSuffices(before: CanonStore, after: CanonStore, texts: Texts, proposal: Proposal, now: int,
                            e: Effect)
    requires CL.Valid(before) && Effects(before, after, texts, proposal, now, e) && proposal.operation == Revise
    requires !CL.HasId(before, NewId(texts, proposal)) && KeepsCanon(before, texts, proposal)
    ensures CL.Valid(after)
  {
    CL.NothingSucceedsFresh(before, NewId(texts, proposal));
    var prior, r := before[TargetKey(proposal)], e.created.value;
    assert r.slot == prior.slot && !HasRival(before, proposal, {NewKey(texts, proposal), TargetKey(proposal)});
    hide CL.Valid, ClosedRecord, PayloadTemporal, RatificationId;
    assert NewKey(texts, proposal) !in before && prior.supersededBy == None;
    forall k | k in before && k != KeyOf(prior) ensures !CL.Rivals(before[k], r) {}
    CL.ReplaceKeepsValid(before, after, r, prior, e.closed.value);
  }

  lemma FreshSuffices(before: CanonStore, after: CanonStore, texts: Texts, proposal: Proposal, now: int, e: Effect)
    requires CL.Valid(before) && Effects(before, after, texts, proposal, now, e)
    requires proposal.operation != Supersede ==> !CL.HasId(before, NewId(texts, proposal))
    requires KeepsCanon(before, texts, proposal)
    ensures CL.Valid(after)
  {
    hide CL.Valid, ClosedRecord, PayloadTemporal, RatificationId;
    match proposal.operation {
      case Create =>
        assert NewKey(texts, proposal) !in before;
        CL.CreateKeepsValid(before, after, e.created.value);
      case Revise =>
        FreshReviseSuffices(before, after, texts, proposal, now, e);
      case Supersede =>
        CL.RetireKeepsValid(before, after, before[TargetKey(proposal)], e.closed.value);
    }
  }

  /** A record that nothing replaced has no successor. */
  lemma NothingSucceedsLast(store: CanonStore, key: CanonKey)
    requires CL.Valid(store) && key in store && store[key].supersededBy == None
    ensures forall a :: !CL.Succeeds(store, a, key.id)
    ensures forall k :: k in store ==> store[k].supersedes != Some(key.id)
  {
    hide CL.Acyclic, CL.OneRatified, CL.ChainsKeepSlot, CL.ActiveIsLast;
    forall a ensures !CL.Succeeds(store, a, key.id) {
      assert CL.Succeeds(store, a, key.id) <==> CL.ReplacedBy(store, key.id, a);
    }
    forall k | k in store ensures store[k].supersedes != Some(key.id) {
      assert !CL.Succeeds(store, k.id, key.id);
    }
  }

  /** A record written over by one with the same links, which are none, leaves all links as they were. */
  lemma OverwriteKeepsLinks(before: CanonStore, after: CanonStore, key: CanonKey, r: Canon)
    requires CL.Valid(before) && key in before && after == before[key := r] && KeyOf(r) == key && r.state == Ratified
    requires r.supersedes == before[key].supersedes == None && r.supersededBy == before[key].supersededBy == None
    ensures CL.LinksInverse(after) && CL.Acyclic(after)
    ensures CL.WellKeyed(after) && CL.IdsUnique(after) && CL.ActiveIsLast(after)
  {
    hide CL.OneRatified, CL.ChainsKeepSlot;
    assert forall k :: k in after <==> k in before;
    assert forall k :: k in before ==> after[k].supersedes == before[k].supersedes
                                       && after[k].supersededBy == before[k].supersededBy;
    forall a, b
      ensures CL.Succeeds(after, a, b) <==> CL.Succeeds(before, a, b)
      ensures CL.ReplacedBy(after, a, b) <==> CL.ReplacedBy(before, a, b)
    {
      hide CL.Valid;
    }
    CL.AcyclicFollows(before, after);
    hide CL.Acyclic, CL.Succeeds, CL.ReplacedBy;
  }

  lemma OverwriteKeepsChains(before: CanonStore, after: CanonStore, key: CanonKey, r: Canon)
    requires CL.ChainsKeepSlot(before) && CL.IdsUnique(before) && key in before && after == before[key := r]
    requires r.supersedes == None && forall k :: k in before ==> before[k].supersedes != Some(key.id)
    ensures CL.ChainsKeepSlot(after)
  {
    assert forall k :: k in before && k != key ==> after[k] == before[k];
  }

  lemma OverwriteCreateSuffices(before: CanonStore, after: CanonStore, texts: Texts, proposal: Proposal, now: int,
                                e: Effect)
    requires CL.Valid(before) && Effects(before, after, texts, proposal, now, e) && proposal.operation == Create
    requires NewKey(texts, proposal) in before && KeepsCanon(before, texts, proposal)
    ensures CL.Valid(after)
  {
    var key := NewKey(texts, proposal);
    NothingSucceedsLast(before, key);
    EffectKeepsUnique(before, after, texts, proposal, now, e);
    hide CL.OneRatified, CL.Acyclic, CL.LinksInverse, CL.ChainsKeepSlot, CL.IdsUnique, CL.WellKeyed, CL.ActiveIsLast,
         PayloadTemporal, ClosedRecord, KeepsUnique;
    OverwriteKeepsLinks(before, after, key, e.created.value);
    OverwriteKeepsChains(before, after, key, e.created.value);
  }

  /** The links after a revision that writes over a record: the one from it to the target is there, no other changes. */
  lemma OverwriteLinks(before: CanonStore, after: CanonStore, texts: Texts, proposal: Proposal, now: int, e: Effect,
                       a: string, b: string)
    requires CL.Valid(before) && Effects(before, after, texts, proposal, now, e) && proposal.operation == Revise
    requires NewKey(texts, proposal) in before && KeepsLinks(before, texts, proposal)
    ensures CL.Succeeds(after, a, b) <==>
            CL.Succeeds(before, a, b) || (a == NewId(texts, proposal) && b == proposal.target.value.id)
    ensures CL.ReplacedBy(after, b, a) <==>
            CL.ReplacedBy(before, b, a) || (a == NewId(texts, proposal) && b == proposal.target.value.id)
  {
    hide CL.Valid, ClosedRecord;
    var key, target := NewKey(texts, proposal), TargetKey(proposal);
    assert forall k :: k in after <==> k in before;
    assert forall k :: k in before && k != key && k != target ==> after[k] == before[k];
    assert after[target].supersedes == before[target].supersedes && after[target].supersededBy == Some(key.id);
    assert after[key].supersedes == Some(target.id) && after[key].supersededBy == before[key].supersededBy == None;
  }

  lemma OverwriteReviseSuffices(before: CanonStore, after: CanonStore, texts: Texts, proposal: Proposal, now: int,
                                e: Effect)
    requires CL.Valid(before) && Effects(before, after, texts, proposal, now, e) && proposal.operation == Revise
    requires NewKey(texts, proposal) in before && KeepsCanon(before, texts, proposal)
    ensures CL.Valid(after)
  {
    var key, target := NewKey(texts, proposal), TargetKey(proposal);
    NothingSucceedsLast(before, key);
    EffectKeepsUnique(before, after, texts, proposal, now, e);
    forall a, b ensures CL.Succeeds(after, a, b) <==> CL.ReplacedBy(after, b, a) {
      OverwriteLinks(before, after, texts, proposal, now, e, a, b);
    }
    OverwriteIsAcyclic(before, after, texts, proposal, now, e);
    OverwriteKeepsRest(before, after, texts, proposal, now, e);
    hide Effects, KeepsCanon, CL.Acyclic, CL.OneRatified, CL.Succeeds, CL.ReplacedBy, CL.IdsUnique, CL.WellKeyed,
         CL.ActiveIsLast, CL.ChainsKeepSlot;
  }

  lemma OverwriteKeepsRest(before: CanonStore, after: CanonStore, texts: Texts, proposal: Proposal, now: int, e: Effect)
    requires CL.Valid(before) && Effects(before, after, texts, proposal, now, e) && proposal.operation == Revise
    requires NewKey(texts, proposal) in before && KeepsLinks(before, texts, proposal)
    ensures CL.WellKeyed(after) && CL.IdsUnique(after) && CL.ActiveIsLast(after) && CL.ChainsKeepSlot(after)
  {
    var key, target := NewKey(texts, proposal), TargetKey(proposal);
    NothingSucceedsLast(before, key);
    hide CL.Acyclic, CL.OneRatified, CL.LinksInverse, CL.Succeeds, CL.ReplacedBy, ClosedRecord, ClosingRefs,
         ClosingTime;
    var r, closed := e.created.value, e.closed.value;
    assert closed.slot == r.slot && closed.kind == r.kind && r.supersedes == Some(target.id) && r.supersededBy == None;
    assert after == before[key := r][target := closed];
    hide Effects, Closes, IsNew, Targets;
    TwoReplaced(before, after, key, r, target, closed);
  }

  /**
   Two records replaced by records with the same ids, the first of which nothing refers to, and the second keeps what
   it was.
   */
  lemma TwoReplaced(before: CanonStore, after: CanonStore, key: CanonKey, r: Canon, target: CanonKey, closed: Canon)
    requires CL.WellKeyed(before) && CL.IdsUnique(before) && CL.ActiveIsLast(before) && CL.ChainsKeepSlot(before)
    requires key in before && target in before && key != target && after == before[key := r][target := closed]
    requires KeyOf(r) == key && KeyOf(closed) == target && closed.state == Superseded && r.supersededBy == None
    requires closed.slot == r.slot == before[target].slot && closed.kind == r.kind
             && closed.supersedes == before[target].supersedes
    requires r.supersedes == Some(target.id) && forall k :: k in before ==> before[k].supersedes != Some(key.id)
    ensures CL.WellKeyed(after) && CL.IdsUnique(after) && CL.ActiveIsLast(after) && CL.ChainsKeepSlot(after)
  {
    assert forall k :: k in after <==> k in before;
    forall j, k | j in after && k in after && after[j].supersedes == Some(k.id)
      ensures after[j].kind == after[k].kind && after[j].slot == after[k].slot
    {
      hide CL.WellKeyed, CL.ActiveIsLast;
      if j == key { assert k == target by { hide CL.ChainsKeepSlot; } } else { assert k != key; }
    }
    hide CL.ChainsKeepSlot;
  }

  lemma OverwriteIsAcyclic(before: CanonStore, after: CanonStore, texts: Texts, proposal: Proposal, now: int, e: Effect)
    requires CL.Valid(before) && Effects(before, after, texts, proposal, now, e) && proposal.operation == Revise
    requires NewKey(texts, proposal) in before && KeepsLinks(before, texts, proposal)
    ensures CL.Acyclic(after)
  {
    var key := NewKey(texts, proposal);
    NothingSucceedsLast(before, key);
    assert CL.Acyclic(before) && key.id != proposal.target.value.id;
    hide Effects, CL.Valid, CL.Succeeds;
    forall chain | |chain| >= 2 && CL.IsChain(after, chain) ensures chain[0] != chain[|chain| - 1] {
      forall i | 1 <= i < |chain| ensures chain[i] != key.id {
        assert CL.Succeeds(after, chain[i - 1], chain[i]);
        OverwriteLinks(before, after, texts, proposal, now, e, chain[i - 1], chain[i]);
      }
      if chain[0] != key.id {
        forall i | 0 <= i < |chain| - 1 ensures CL.Succeeds(before, chain[i], chain[i + 1]) {
          OverwriteLinks(before, after, texts, proposal, now, e, chain[i], chain[i + 1]);
        }
        assert CL.IsChain(before, chain);
      }
    }
  }

  /**
   From a valid canon, a ratification leaves a valid one exactly when it keeps slots unique, ids unique and links
   intact.
   */
  lemma EffectKeepsValid(before: CanonStore, after: CanonStore, texts: Texts, proposal: Proposal, now: int, e: Effect)
    requires CL.Valid(before) && Effects(before, after, texts, proposal, now, e)
    ensures CL.Valid(after) <==> KeepsCanon(before, texts, proposal)
  {
    EffectKeepsUnique(before, after, texts, proposal, now, e);
    if !KeepsIds(before, texts, proposal) {
      IdsAreNeeded(before, after, texts, proposal, now, e);
    } else if !KeepsLinks(before, texts, proposal) {
      match proposal.operation {
        case Create => CreateNeedsNoLinks(before, after, texts, proposal, now, e);
        case Revise => ReviseNeedsLinks(before, after, texts, proposal, now, e);
        case Supersede => SupersedeNeedsNoLink(before, after, texts, proposal, now, e);
      }
    } else if KeepsUnique(before, texts, proposal) {
      if NewKey(texts, proposal) !in before || proposal.operation == Supersede {
        FreshSuffices(before, after, texts, proposal, now, e);
      } else if proposal.operation == Create {
        OverwriteCreateSuffices(before, after, texts, proposal, now, e);
      } else {
        OverwriteReviseSuffices(before, after, texts, proposal, now, e);
      }
    }
  }

  // ---------------------------------------------------------------- nothing lost

  /**
   The proposal closes an active record of its slot, or opens a slot that has none, under an id that is not in use.
   */
  predicate ActsOnActive(store: CanonStore, texts: Texts, proposal: Proposal) {
    && (proposal.operation != Supersede ==> !CL.HasId(store, NewId(texts, proposal)))
    && match proposal.operation
       case Create => KeepsUnique(store, texts, proposal)
       case Revise => TargetIsActive(store, proposal) && proposal.payload.slot.IsText(store[TargetKey(proposal)].slot)
       case Supersede => TargetIsActive(store, proposal)
  }

  predicate TargetIsActive(store: CanonStore, proposal: Proposal) {
    proposal.target.Some? && TargetKey(proposal) in store && store[TargetKey(proposal)].state == Ratified
  }

  lemma ActiveKeepsCanon(store: CanonStore, texts: Texts, proposal: Proposal)
    requires CL.Valid(store) && ActsOnActive(store, texts, proposal)
    requires proposal.operation != Create ==> Targets(store, proposal)
    ensures KeepsCanon(store, texts, proposal)
  {
    hide CL.Acyclic, CL.LinksInverse, CL.ChainsKeepSlot;
  }

  predicate Distinct(refs: seq<string>) { forall i, j :: 0 <= i < j < |refs| ==> refs[i] != refs[j] }

  /** Merging references changes nothing exactly when the list has no repetition and holds them all. */
  lemma {:induction false} MergeChangesNothing(refs: seq<string>, more: seq<string>)
    ensures MergeRefs(refs, more) == refs <==> Distinct(refs) && forall r :: r in more ==> r in refs
    decreases |refs| + |more|
  {
    if Distinct(refs) && (forall r :: r in more ==> r in refs) {
      if more != [] {
        MergeChangesNothing(refs, more[..|more| - 1]);
        assert (refs + more)[..|refs + more| - 1] == refs + more[..|more| - 1];
      } else if refs != [] {
        MergeChangesNothing(refs[..|refs| - 1], []);
        assert refs + [] == refs && refs[..|refs| - 1] + [] == refs[..|refs| - 1];
      }
    }
  }

  /** The record already is as the proposal would leave it. */
  predicate IsClosedAlready(prior: Canon, texts: Texts, proposal: Proposal, now: int) {
    && prior.updatedAt == now && prior.state == Superseded && prior.supersededBy == SuccessorOf(texts, proposal)
    && prior.temporal == Some(Close(prior, ClosingTime(proposal, prior, now)))
    && Distinct(prior.upstreamRefs) && forall r :: r in ClosingRefs(texts, proposal) ==> r in prior.upstreamRefs
  }

  lemma ClosingChangesNothing(prior: Canon, texts: Texts, proposal: Proposal, now: int)
    ensures ClosedRecord(prior, texts, proposal, now) == prior <==> IsClosedAlready(prior, texts, proposal, now)
  {
    MergeChangesNothing(prior.upstreamRefs, ClosingRefs(texts, proposal));
    hide ClosingRefs, MergeRefs, SuccessorOf, ClosingTime, Distinct;
    var refs := MergeRefs(prior.upstreamRefs, ClosingRefs(texts, proposal));
    assert ClosedRecord(prior, texts, proposal, now).upstreamRefs == refs;
  }

  function Predecessor(proposal: Proposal): Option<string> {
    if proposal.operation == Revise && proposal.target.Some? then Some(proposal.target.value.id) else None
  }

  /** When the claim of the payload starts, for a record that is created now. */
  function StartOf(payload: Payload, now: int): int {
    var from := PayloadTemporal(payload, now).validFrom;
    if from.Some? then from.value else now
  }

  /** The new record takes the file of a stored one; when it is the target's, the target takes it back. */
  predicate TakesFile(texts: Texts, proposal: Proposal, k: CanonKey) {
    && proposal.operation != Supersede && k == NewKey(texts, proposal)
    && (proposal.operation == Revise && proposal.target.Some? ==> k != TargetKey(proposal))
  }

  /** The target is active, or already is as the proposal would leave it. */
  predicate KeepsTarget(store: CanonStore, texts: Texts, proposal: Proposal, now: int) {
    proposal.operation != Create && proposal.target.Some? && TargetKey(proposal) in store ==>
      TargetIsActive(store, proposal) || IsClosedAlready(store[TargetKey(proposal)], texts, proposal, now)
  }

  /** A record that is written over is an active one that was created now and makes the same claim. */
  predicate KeepsNamesake(store: CanonStore, texts: Texts, proposal: Proposal, now: int) {
    var key := NewKey(texts, proposal);
    key in store && TakesFile(texts, proposal, key) ==>
      && store[key].state == Ratified && CL.Claims(store[key], proposal.payload) && store[key].createdAt == now
      && store[key].supersedes == Predecessor(proposal) && store[key].Start() == StartOf(proposal.payload, now)
  }

  /** What `CL.Extends` says of one record. */
  predicate RecordExtends(before: CanonStore, after: CanonStore, k: CanonKey)
    requires k in before
  {
    && k in after
    && after[k].statement == before[k].statement && after[k].slot == before[k].slot
    && after[k].createdAt == before[k].createdAt && after[k].supersedes == before[k].supersedes
    && after[k].Start() == before[k].Start()
    && (before[k].state != Ratified ==> after[k] == before[k])
  }

  lemma NewRecordExtends(before: CanonStore, after: CanonStore, texts: Texts, proposal: Proposal, now: int, e: Effect)
    requires Effects(before, after, texts, proposal, now, e)
    requires NewKey(texts, proposal) in before && TakesFile(texts, proposal, NewKey(texts, proposal))
    ensures RecordExtends(before, after, NewKey(texts, proposal)) <==> KeepsNamesake(before, texts, proposal, now)
  {
    hide ClosedRecord, RatificationId, PayloadTemporal;
    assert after[NewKey(texts, proposal)] == e.created.value;
    assert e.created.value.Start() == StartOf(proposal.payload, now);
  }

  lemma TargetExtends(before: CanonStore, after: CanonStore, texts: Texts, proposal: Proposal, now: int, e: Effect)
    requires Effects(before, after, texts, proposal, now, e) && proposal.operation != Create
    ensures RecordExtends(before, after, TargetKey(proposal)) <==> KeepsTarget(before, texts, proposal, now)
  {
    ClosingChangesNothing(before[TargetKey(proposal)], texts, proposal, now);
    hide IsClosedAlready;
    assert after[TargetKey(proposal)] == ClosedRecord(before[TargetKey(proposal)], texts, proposal, now);
    hide ClosedRecord;
  }

  lemma OthersExtend(before: CanonStore, after: CanonStore, texts: Texts, proposal: Proposal, now: int, e: Effect,
                     k: CanonKey)
    requires Effects(before, after, texts, proposal, now, e) && k in before && !TakesFile(texts, proposal, k)
    requires proposal.operation != Create ==> k != TargetKey(proposal)
    ensures k in after && after[k] == before[k]
  {
    hide ClosedRecord, RatificationId, PayloadTemporal;
  }

  /** A ratification loses and rewrites nothing exactly when it keeps its target and the record whose file it takes. */
  lemma EffectExtends(before: CanonStore, after: CanonStore, texts: Texts, proposal: Proposal, now: int, e: Effect)
    requires Effects(before, after, texts, proposal, now, e)
    ensures CL.Extends(before, after) <==>
            KeepsTarget(before, texts, proposal, now) && KeepsNamesake(before, texts, proposal, now)
  {
    var key := NewKey(texts, proposal);
    if key in before && TakesFile(texts, proposal, key) { NewRecordExtends(before, after, texts, proposal, now, e); }
    if proposal.operation != Create { TargetExtends(before, after, texts, proposal, now, e); }
    forall k | k in before && !TakesFile(texts, proposal, k)
               && (proposal.operation != Create ==> k != TargetKey(proposal))
      ensures RecordExtends(before, after, k)
    {
      OthersExtend(before, after, texts, proposal, now, e, k);
    }
    assert CL.Extends(before, after) <==> forall k :: k in before ==>
             RecordExtends(before, after, k) by { hide Effects; }
    assert proposal.operation != Create ==> TargetKey(proposal) in before;
    assert forall k :: TakesFile(texts, proposal, k) ==> k == key;
    hide Effects, RecordExtends, IsClosedAlready, TakesFile, CL.Extends;
  }

  /**
   A written ratification rewrites no closed record, and no record's claim or origin, exactly when its target is active
   or already as it would leave it, and the record whose file it takes makes the same claim since the same moment.
   */
  lemma ExtendsExactly(records: Records, texts: Texts, choice: Choice, proposal: Proposal)
    requires Filed(records) && Ratifies(records, texts, choice, proposal)
    ensures CL.Extends(CanonIn(records), CanonIn(Apply(records, texts, choice))) <==>
            && KeepsTarget(CanonIn(records), texts, proposal, choice.input.now)
            && KeepsNamesake(CanonIn(records), texts, proposal, choice.input.now)
  {
    var e := RatifyEffects(records, texts, choice, proposal);
    hide Apply, Ratifies, CanonIn, CL.Extends;
    EffectExtends(CanonIn(records), CanonIn(Apply(records, texts, choice)), texts, proposal, choice.input.now, e);
  }

  // ---------------------------------------------------------------- when a record is written over

  lemma CreatedAtAfter(before: CanonStore, after: CanonStore, texts: Texts, proposal: Proposal, now: int, e: Effect,
                       k: CanonKey)
    requires Effects(before, after, texts, proposal, now, e) && k in before
    ensures k in after
            && after[k].createdAt == if TakesFile(texts, proposal, k) then now else before[k].createdAt
  {
    hide ClosedRecord, RatificationId, PayloadTemporal;
  }

  /** The decision ratifies a proposal whose new record takes the file. */
  ghost predicate IsWrittenOver(records: Records, texts: Texts, choice: Choice, k: CanonKey) {
    exists p :: Ratifies(records, texts, choice, p) && TakesFile(texts, p, k)
  }

  lemma RecordAfterDecision(records: Records, texts: Texts, choice: Choice, k: CanonKey)
    requires Filed(records) && k in CanonIn(records)
    ensures var after := CanonIn(Apply(records, texts, choice));
            && k in after
            && after[k].createdAt == if IsWrittenOver(records, texts, choice, k) then choice.input.now
                                     else CanonIn(records)[k].createdAt
  {
    CanonAfterDecision(records, texts, choice);
    if p :| Ratifies(records, texts, choice, p) {
      var e := RatifyEffects(records, texts, choice, p);
      RatifiesOne(records, texts, choice, p);
      hide Apply, Ratifies, CanonIn, TakesFile;
      CreatedAtAfter(CanonIn(records), CanonIn(Apply(records, texts, choice)), texts, p, choice.input.now, e, k);
    } else {
      hide Apply, Ratifies, CanonIn, TakesFile;
    }
  }

  /** The record is still in its file, with the origin it had. */
  predicate Survives(before: CanonStore, after: CanonStore, k: CanonKey)
    requires k in before
  {
    k in after && after[k].createdAt == before[k].createdAt
  }

  /**
   A decision keeps a canonical record from earlier exactly when it does not ratify another proposal's record into the
   file that holds it.
   */
  lemma RecordSurvivesExactly(records: Records, texts: Texts, choice: Choice, k: CanonKey)
    requires Filed(records) && k in CanonIn(records) && CanonIn(records)[k].createdAt < choice.input.now
    ensures Survives(CanonIn(records), CanonIn(Apply(records, texts, choice)), k) <==>
            !IsWrittenOver(records, texts, choice, k)
  {
    RecordAfterDecision(records, texts, choice, k);
    hide *;
    assert true;
  }

  /**
   With a clock that moves, a ratification writes over a canonical record exactly when the id of its new record is in
   use for the kind, and is not the id of the record that it revises.
   */
  lemma WritesOverExactly(records: Records, texts: Texts, choice: Choice, proposal: Proposal)
    requires Filed(records) && Ratifies(records, texts, choice, proposal)
    requires forall k :: k in CanonIn(records) ==> CanonIn(records)[k].createdAt < choice.input.now
    ensures (exists k :: k in CanonIn(records)
                         && !Survives(CanonIn(records), CanonIn(Apply(records, texts, choice)), k)) <==>
            && proposal.operation != Supersede && NewKey(texts, proposal) in CanonIn(records)
            && (proposal.operation == Revise ==>
                  proposal.target.Some? && NewKey(texts, proposal) != TargetKey(proposal))
  {
    RatifiesExactly(records, texts, choice, proposal);
    RatifiesOne(records, texts, choice, proposal);
    forall k | k in CanonIn(records)
      ensures Survives(CanonIn(records), CanonIn(Apply(records, texts, choice)), k) <==> !TakesFile(texts, proposal, k)
    {
      RecordSurvivesExactly(records, texts, choice, k);
    }
    hide Apply, Ratifies, CanonIn, Survives, SameSlotRefs, FindTarget;
  }

  // ---------------------------------------------------------------- the ids of new records

  /** The id reserved for the record of a proposal is in use only once the proposal has a verdict. */
  ghost predicate CanonOwned(records: Records, texts: Texts) {
    forall k, q :: k in CanonIn(records) && ProposalKey(q) in records && k.id == "mem_" + texts.part(q) ==>
      Decided(records, q)
  }

  lemma PrefixedIdsDiffer(p: string, q: string)
    requires "mem_" + p == "mem_" + q
    ensures p == q
  {
    assert ("mem_" + p)[4..] == p && ("mem_" + q)[4..] == q;
  }

  lemma NewIdIsFresh(records: Records, texts: Texts, choice: Choice, proposal: Proposal)
    requires Filed(records) && CanonOwned(records, texts) && Ratifies(records, texts, choice, proposal)
    ensures !CL.HasId(CanonIn(records), NewId(texts, proposal))
  {
    hide MayBeRatified, ActionTaken;
    RatifiesExactly(records, texts, choice, proposal);
    assert ProposalKey(proposal.id) in records;
  }

  ghost predicate IsFresh(records: Records, texts: Texts, choice: Choice) {
    forall p :: Ratifies(records, texts, choice, p) ==> !CL.HasId(CanonIn(records), NewId(texts, p))
  }

  lemma DecisionKeepsFiled(records: Records, texts: Texts, choice: Choice)
    requires Filed(records)
    ensures Filed(Apply(records, texts, choice))
  {
    if Apply(records, texts, choice) != records {
      DecisionWrites(records, texts, choice);
      hide Apply, PlanDecision, Filed, WriteRecords;
      OwnerRetry.FiledAfter(records, PlanDecision(records, texts, choice.input, choice.packet).value.writes);
    }
  }

  lemma DecisionKeepsOwned(records: Records, texts: Texts, choice: Choice)
    requires Orderly(records, texts) && CanonOwned(records, texts)
    ensures CanonOwned(Apply(records, texts, choice), texts)
  {
    DecisionKeepsOrderly(records, texts, choice);
    assert Filed(records);
    var after := Apply(records, texts, choice);
    forall q ensures ProposalKey(q) in after ==> ProposalKey(q) in records { ProposalsStay(records, texts, choice, q); }
    CanonAfterDecision(records, texts, choice);
    if p :| Ratifies(records, texts, choice, p) {
      RatifyOwns(records, texts, choice, p);
    } else {
      hide Apply, Orderly, Filed, Decided;
    }
  }

  lemma ProposalsStay(records: Records, texts: Texts, choice: Choice, q: string)
    requires Filed(records)
    ensures ProposalKey(q) in Apply(records, texts, choice) <==> ProposalKey(q) in records
  {
    hide Filed, PlanDecision, Decided, WritesFor;
    if Apply(records, texts, choice) != records {
      DecisionWrites(records, texts, choice);
      hide Apply;
      OwnProposalOnly(records, texts, PlanDecision(records, texts, choice.input, choice.packet).value.writes,
                      choice.input, q);
    }
  }

  lemma OwnProposalOnly(records: Records, texts: Texts, writes: seq<Record>, input: Input, q: string)
    requires ProposalKey(input.proposalRef) in records && WritesFor(writes, texts, input.proposalRef, input.action)
    ensures ProposalKey(q) in WriteRecords(records, writes) <==> ProposalKey(q) in records
  {
    WrittenOrKept(records, writes, ProposalKey(q));
  }

  lemma RatifyOwns(records: Records, texts: Texts, choice: Choice, p: Proposal)
    requires Orderly(records, texts) && CanonOwned(records, texts) && Ratifies(records, texts, choice, p)
    requires forall q :: Decided(records, q) ==> Decided(Apply(records, texts, choice), q)
    requires forall q :: ProposalKey(q) in Apply(records, texts, choice) ==> ProposalKey(q) in records
    ensures CanonOwned(Apply(records, texts, choice), texts)
  {
    assert Filed(records);
    var after := Apply(records, texts, choice);
    var e := RatifyEffects(records, texts, choice, p);
    RatifiedIsDecided(records, texts, choice, p);
    hide Apply, Ratifies, Decided, CanonIn;
    forall k, q | k in CanonIn(after) && ProposalKey(q) in after && k.id == "mem_" + texts.part(q)
      ensures Decided(after, q) {
      if k !in CanonIn(records) {
        assert k == NewKey(texts, p);
        PrefixedIdsDiffer(texts.part(p.id), texts.part(q));
      }
    }
  }

  lemma RatifiedIsDecided(records: Records, texts: Texts, choice: Choice, p: Proposal)
    requires Filed(records) && Ratifies(records, texts, choice, p)
    ensures Decided(Apply(records, texts, choice), p.id) && ProposalKey(p.id) in records
            && p.id == choice.input.proposalRef
  {
    hide PlanRatify, PlanSubsume, PlanKeepMaturing, PlanReject, PlanMoveToWiki, Decided, IsAlreadyApplied;
    OwnerRetry.AppliedDecisionSettles(records, texts, choice.input, choice.packet);
  }

  // ---------------------------------------------------------------- runs

  /** Every ratification written in the run meets the condition. */
  ghost predicate KeepsThroughout(records: Records, texts: Texts, choices: seq<Choice>)
    decreases |choices|
  {
    choices != [] ==>
      && (forall p :: Ratifies(records, texts, choices[0], p) ==> KeepsCanon(CanonIn(records), texts, p))
      && KeepsThroughout(Apply(records, texts, choices[0]), texts, choices[1..])
  }

  ghost predicate ValidThroughout(records: Records, texts: Texts, choices: seq<Choice>)
    decreases |choices|
  {
    CL.Valid(CanonIn(records))
    && (choices != [] ==> ValidThroughout(Apply(records, texts, choices[0]), texts, choices[1..]))
  }

  /** Every ratification written in the run brings an id that the canon does not use. */
  ghost predicate FreshThroughout(records: Records, texts: Texts, choices: seq<Choice>)
    decreases |choices|
  {
    choices != [] ==>
      IsFresh(records, texts, choices[0]) && FreshThroughout(Apply(records, texts, choices[0]), texts, choices[1..])
  }

  /** With distinct id parts, and the reserved ids unused at the start, every new id is unused when it is written. */
  lemma {:induction false} OwnedRunIsFresh(records: Records, texts: Texts, choices: seq<Choice>)
    requires Orderly(records, texts) && CanonOwned(records, texts)
    ensures FreshThroughout(records, texts, choices)
    decreases |choices|
  {
    assert Filed(records);
    if choices != [] {
      forall p | Ratifies(records, texts, choices[0], p) ensures !CL.HasId(CanonIn(records), NewId(texts, p)) {
        NewIdIsFresh(records, texts, choices[0], p);
      }
      hide Apply, Orderly, CanonOwned, Ratifies, CanonIn;
      DecisionKeepsOrderly(records, texts, choices[0]);
      DecisionKeepsOwned(records, texts, choices[0]);
      OwnedRunIsFresh(Apply(records, texts, choices[0]), texts, choices[1..]);
    }
  }

  /**
   A decision keeps a valid canon exactly when it is no written ratification or one that leaves one active record for
   each slot, gives its record an id that no record of another kind has, touches no record that was already replaced,
   writes over no linked record, and moves no record to another slot.
   */
  lemma DecisionKeepsValid(records: Records, texts: Texts, choice: Choice)
    requires Filed(records) && CL.Valid(CanonIn(records))
    ensures CL.Valid(CanonIn(Apply(records, texts, choice))) <==>
            forall p :: Ratifies(records, texts, choice, p) ==> KeepsCanon(CanonIn(records), texts, p)
  {
    CanonAfterDecision(records, texts, choice);
    if p :| Ratifies(records, texts, choice, p) {
      var e := RatifyEffects(records, texts, choice, p);
      RatifiesOne(records, texts, choice, p);
      hide *;
      EffectKeepsValid(CanonIn(records), CanonIn(Apply(records, texts, choice)), texts, p, choice.input.now, e);
    } else {
      hide Apply, Ratifies, CanonIn, CL.Valid, KeepsCanon;
    }
  }

  /** Along any run of decisions the canon stays valid exactly when every written ratification meets the condition. */
  lemma {:induction false} CanonStaysValidExactly(records: Records, texts: Texts, choices: seq<Choice>)
    requires Filed(records) && CL.Valid(CanonIn(records))
    ensures ValidThroughout(records, texts, choices) <==> KeepsThroughout(records, texts, choices)
    ensures ValidThroughout(records, texts, choices) ==> CL.Valid(CanonIn(RunDecisions(records, texts, choices)))
    decreases |choices|
  {
    hide Apply, Filed, Ratifies, KeepsCanon, CL.Valid, CanonIn;
    if choices != [] {
      DecisionKeepsValid(records, texts, choices[0]);
      DecisionKeepsFiled(records, texts, choices[0]);
      if CL.Valid(CanonIn(Apply(records, texts, choices[0]))) {
        CanonStaysValidExactly(Apply(records, texts, choices[0]), texts, choices[1..]);
      } else {
        InvalidFromHere(Apply(records, texts, choices[0]), texts, choices[1..]);
      }
    }
  }

  lemma InvalidFromHere(records: Records, texts: Texts, choices: seq<Choice>)
    requires !CL.Valid(CanonIn(records))
    ensures !ValidThroughout(records, texts, choices)
  {
  }

  ghost predicate ActiveThroughout(records: Records, texts: Texts, choices: seq<Choice>)
    decreases |choices|
  {
    choices != [] ==>
      && (forall p :: Ratifies(records, texts, choices[0], p) ==> ActsOnActive(CanonIn(records), texts, p))
      && ActiveThroughout(Apply(records, texts, choices[0]), texts, choices[1..])
  }

  lemma ActiveDecision(records: Records, texts: Texts, choice: Choice)
    requires Filed(records) && CL.Valid(CanonIn(records))
    requires forall p :: Ratifies(records, texts, choice, p) ==> ActsOnActive(CanonIn(records), texts, p)
    ensures CL.Valid(CanonIn(Apply(records, texts, choice)))
    ensures CL.Extends(CanonIn(records), CanonIn(Apply(records, texts, choice)))
  {
    CanonAfterDecision(records, texts, choice);
    DecisionKeepsValid(records, texts, choice);
    if p :| Ratifies(records, texts, choice, p) {
      var e := RatifyEffects(records, texts, choice, p);
      RatifiesOne(records, texts, choice, p);
      hide Apply, Ratifies, CanonIn, CL.Valid, KeepsCanon, ActsOnActive, TargetIsActive, CL.Extends;
      ActiveEffect(CanonIn(records), CanonIn(Apply(records, texts, choice)), texts, p, choice.input.now, e);
    } else {
      hide Apply, Ratifies, CanonIn, CL.Valid, KeepsCanon, CL.Extends;
      CL.ExtendsItself(CanonIn(records));
    }
  }

  lemma ActiveEffect(before: CanonStore, after: CanonStore, texts: Texts, p: Proposal, now: int, e: Effect)
    requires CL.Valid(before) && Effects(before, after, texts, p, now, e) && ActsOnActive(before, texts, p)
    ensures KeepsCanon(before, texts, p) && CL.Extends(before, after)
  {
    EffectExtends(before, after, texts, p, now, e);
    ActiveKeepsCanon(before, texts, p);
    hide CL.Valid, CL.Extends, KeepsCanon, IsNew, Closes, IsClosedAlready;
  }

  /**
   When every ratification in a run closes an active record of its slot or opens a slot that has none, the canon stays
   valid and nothing in it is lost or rewritten.
   */
  lemma {:induction false} ActiveRunKeepsCanon(records: Records, texts: Texts, choices: seq<Choice>)
    requires Filed(records) && CL.Valid(CanonIn(records))
    requires ActiveThroughout(records, texts, choices)
    ensures CL.Valid(CanonIn(RunDecisions(records, texts, choices)))
    ensures CL.Extends(CanonIn(records), CanonIn(RunDecisions(records, texts, choices)))
    decreases |choices|
  {
    hide Apply, Filed, Ratifies, ActsOnActive, CL.Valid, CL.Extends, CanonIn;
    if choices == [] {
      CL.ExtendsItself(CanonIn(records));
    } else {
      var next := Apply(records, texts, choices[0]);
      ActiveDecision(records, texts, choices[0]);
      DecisionKeepsFiled(records, texts, choices[0]);
      ActiveRunKeepsCanon(next, texts, choices[1..]);
      CL.ExtendsIsTransitive(CanonIn(records), CanonIn(next), CanonIn(RunDecisions(records, texts, choices)));
    }
  }

  ghost predicate NeverWrittenOver(records: Records, texts: Texts, choices: seq<Choice>, k: CanonKey)
    decreases |choices|
  {
    choices != [] ==>
      && !IsWrittenOver(records, texts, choices[0], k)
      && NeverWrittenOver(Apply(records, texts, choices[0]), texts, choices[1..], k)
  }

  lemma {:induction false} WrittenOverForGood(records: Records, texts: Texts, choices: seq<Choice>, k: CanonKey,
                                              origin: int)
    requires Filed(records) && k in CanonIn(records) && CanonIn(records)[k].createdAt != origin
    requires forall c :: c in choices ==> origin < c.input.now
    ensures k in CanonIn(RunDecisions(records, texts, choices))
    ensures CanonIn(RunDecisions(records, texts, choices))[k].createdAt != origin
    decreases |choices|
  {
    hide Apply, Filed, IsWrittenOver, CanonIn;
    if choices != [] {
      RecordAfterDecision(records, texts, choices[0], k);
      DecisionKeepsFiled(records, texts, choices[0]);
      WrittenOverForGood(Apply(records, texts, choices[0]), texts, choices[1..], k, origin);
    }
  }

  /** Over any run a canonical record from earlier survives exactly when no ratification of the run takes its file. */
  lemma {:induction false} RecordStaysExactly(records: Records, texts: Texts, choices: seq<Choice>, k: CanonKey)
    requires Filed(records) && k in CanonIn(records)
    requires forall c :: c in choices ==> CanonIn(records)[k].createdAt < c.input.now
    ensures Survives(CanonIn(records), CanonIn(RunDecisions(records, texts, choices)), k) <==>
            NeverWrittenOver(records, texts, choices, k)
    decreases |choices|
  {
    hide Apply, Filed, IsWrittenOver, CanonIn;
    if choices != [] {
      RecordAfterDecision(records, texts, choices[0], k);
      DecisionKeepsFiled(records, texts, choices[0]);
      assert choices[0] in choices;
      if IsWrittenOver(records, texts, choices[0], k) {
        WrittenOverForGood(Apply(records, texts, choices[0]), texts, choices[1..], k, CanonIn(records)[k].createdAt);
      } else {
        RecordStaysExactly(Apply(records, texts, choices[0]), texts, choices[1..], k);
      }
    }
  }

  lemma FreshTakesNoFile(records: Records, texts: Texts, choice: Choice, k: CanonKey)
    requires IsFresh(records, texts, choice) && k in CanonIn(records)
    ensures !IsWrittenOver(records, texts, choice, k)
  {
    hide Ratifies, CanonIn;
  }

  /** With distinct id parts, and the reserved ids unused at the start, no record is ever written over. */
  lemma {:induction false} OwnedRunLosesNoRecord(records: Records, texts: Texts, choices: seq<Choice>, k: CanonKey)
    requires Orderly(records, texts) && CanonOwned(records, texts) && k in CanonIn(records)
    ensures NeverWrittenOver(records, texts, choices, k)
    ensures Survives(CanonIn(records), CanonIn(RunDecisions(records, texts, choices)), k)
    decreases |choices|
  {
    assert Filed(records);
    OwnedRunIsFresh(records, texts, choices);
    hide Apply, Orderly, CanonOwned, IsFresh, IsWrittenOver, CanonIn;
    if choices != [] {
      FreshTakesNoFile(records, texts, choices[0], k);
      RecordAfterDecision(records, texts, choices[0], k);
      DecisionKeepsOrderly(records, texts, choices[0]);
      DecisionKeepsOwned(records, texts, choices[0]);
      OwnedRunLosesNoRecord(Apply(records, texts, choices[0]), texts, choices[1..], k);
    }
  }
}
