/**
 packages/core/src/memory-maturation.ts: what the matured candidates of a slot add up to, and the two rules that
 say when a candidate may become canon without the owner.
 */
module MaturationRules {
  import opened Prelude

  datatype Role = Owner | Agent | Participant | External

  datatype Level = Low | Medium | High

  datatype Epistemic = Observed | Inferred | Hypothesized | Confirmed | Disputed

  datatype Outcome = EvidenceOnly | RuntimeOnly | WorldUpdate | WikiUpdate | ProposalForCanon | QueuedReview
                   | DiagnosticOnly

  datatype Candidate = Candidate(
    id: string,
    statement: string,
    kind: string,
    epistemic: Epistemic,
    slot: string,
    role: Role,
    confidence: Level,
    risk: Level,
    support: seq<string>,
    outcomes: set<Outcome>,
    rationale: string,
    autoEligible: bool)   // corroboration?.auto_canon_eligible === true

  /** What the last folded candidate said. */
  datatype Latest = Latest(statement: string, kind: string, epistemic: Epistemic, confidence: Level, risk: Level,
                           role: Role, rationale: string)

  datatype Summary = Summary(
    slot: string,
    candidates: nat,
    supportCount: nat,
    days: nat,
    firstSeen: Option<int>,
    lastSeen: Option<int>,
    latest: Option<Latest>,
    roles: seq<Role>,
    support: seq<string>)

  // ---------------------------------------------------------------- merging lists of refs

  /** Adds the values that are new and not the skipped one, in order. */
  function Merge<T(==)>(seen: seq<T>, values: seq<T>, skipped: Option<T>): seq<T>
    decreases |values|
  {
    if values == [] then seen
    else Merge(if Some(values[0]) == skipped || values[0] in seen then seen else seen + [values[0]], values[1..],
               skipped)
  }

  predicate Distinct<T(==)>(values: seq<T>) { forall i, j :: 0 <= i < j < |values| ==> values[i] != values[j] }

  function Elements<T>(values: seq<T>): set<T> { set v | v in values }

  function Skip<T>(skipped: Option<T>): set<T> { if skipped.Some? then {skipped.value} else {} }

  lemma {:induction false} MergeElements<T>(seen: seq<T>, values: seq<T>, skipped: Option<T>)
    ensures Elements(Merge(seen, values, skipped)) == Elements(seen) + (Elements(values) - Skip(skipped))
    ensures Distinct(seen) ==> Distinct(Merge(seen, values, skipped))
    decreases |values|
  {
    if values != [] {
      var next := if Some(values[0]) == skipped || values[0] in seen then seen else seen + [values[0]];
      MergeElements(next, values[1..], skipped);
      assert values == [values[0]] + values[1..];
      assert Elements(values) == {values[0]} + Elements(values[1..]);
      assert Elements(next) == Elements(seen) + ({values[0]} - Skip(skipped));
    }
  }

  lemma {:induction false} MergeConcat<T>(seen: seq<T>, a: seq<T>, b: seq<T>, skipped: Option<T>)
    ensures Merge(seen, a + b, skipped) == Merge(Merge(seen, a, skipped), b, skipped)
    decreases |a|
  {
    if a == [] {
      assert a + b == b;
    } else {
      assert (a + b)[1..] == a[1..] + b;
      MergeConcat(if Some(a[0]) == skipped || a[0] in seen then seen else seen + [a[0]], a[1..], b, skipped);
    }
  }

  lemma {:induction false} DistinctSize<T>(values: seq<T>)
    requires Distinct(values)
    ensures |Elements(values)| == |values|
    decreases |values|
  {
    if values != [] {
      var front, last := values[..|values| - 1], values[|values| - 1];
      DistinctSize(front);
      assert values == front + [last];
      assert Elements(values) == Elements(front) + {last};
    }
  }

  function Flatten<T>(groups: seq<seq<T>>): seq<T> { if groups == [] then [] else groups[0] + Flatten(groups[1..]) }

  /** The values of all groups, each once, in the order of their first occurrence, without the empty string. */
  method MergeUniqueStrings(groups: seq<seq<string>>) returns (merged: seq<string>)
    ensures merged == Merge([], Flatten(groups), Some(""))
    ensures Distinct(merged) && Elements(merged) == Elements(Flatten(groups)) - {""}
  {
    merged := [];
    var g := 0;
    while g < |groups|
      invariant 0 <= g <= |groups|
      invariant Merge(merged, Flatten(groups[g..]), Some("")) == Merge([], Flatten(groups), Some(""))
    {
      var group := groups[g];
      assert groups[g..][1..] == groups[g + 1..];
      MergeConcat(merged, group, Flatten(groups[g + 1..]), Some(""));
      ghost var before := merged;
      var i := 0;
      while i < |group|
        invariant 0 <= i <= |group|
        invariant Merge(merged, group[i..], Some("")) == Merge(before, group, Some(""))
      {
        assert group[i..][0] == group[i] && group[i..][1..] == group[i + 1..];
        if group[i] != "" && group[i] !in merged { merged := merged + [group[i]]; }
        i := i + 1;
      }
      g := g + 1;
    }
    MergeElements<string>([], Flatten(groups), Some(""));
  }

  // ---------------------------------------------------------------- the summary of a slot

  function EmptySummary(slot: string): Summary { Summary(slot, 0, 0, 0, None, None, None, [], []) }

  /** The distinct days on which the refs were observed; refs without a day do not count. */
  function DaysOf(refs: seq<string>, days: map<string, string>): set<string> {
    set ref | ref in refs && ref in days && days[ref] != "" :: days[ref]
  }

  function Earlier(a: Option<int>, b: Option<int>): Option<int> {
    if a.None? then b else if b.None? then a else if a.value <= b.value then a else b
  }

  function Later(a: Option<int>, b: Option<int>): Option<int> {
    if a.None? then b else if b.None? then a else if a.value >= b.value then a else b
  }

  /** A candidate of a stored maturation, and when the maturation was made. */
  datatype Matured = Matured(candidate: Candidate, at: Option<int>)

  function Update(summary: Summary, m: Matured, days: map<string, string>): Summary {
    var support := Merge(summary.support, m.candidate.support, Some(""));
    var c := m.candidate;
    summary.(
      candidates := summary.candidates + 1,
      supportCount := |support|,
      days := |DaysOf(support, days)|,
      firstSeen := Earlier(summary.firstSeen, m.at),
      lastSeen := Later(summary.lastSeen, m.at),
      latest := Some(Latest(c.statement, c.kind, c.epistemic, c.confidence, c.risk, c.role, c.rationale)),
      roles := Merge(summary.roles, [c.role], None),
      support := support)
  }

  function Fold(summary: Summary, history: seq<Matured>, days: map<string, string>): Summary
    decreases |history|
  {
    if history == [] then summary else Fold(Update(summary, history[0], days), history[1..], days)
  }

  function OfSlot(history: seq<Matured>, slot: string): seq<Matured>
    decreases |history|
  {
    if history == [] then []
    else (if history[0].candidate.slot == slot then [history[0]] else []) + OfSlot(history[1..], slot)
  }

  predicate HasSlot(history: seq<Matured>, slot: string) { exists m :: m in history && m.candidate.slot == slot }

  /** Each slot that occurs has the summary of its own history. */
  ghost predicate Summarizes(summaries: map<string, Summary>, history: seq<Matured>, days: map<string, string>) {
    && (forall slot :: slot in summaries <==> slot != "" && HasSlot(history, slot))
    && (forall slot :: slot in summaries ==> summaries[slot] == Fold(EmptySummary(slot), OfSlot(history, slot), days))
  }

  /** `loadMemoryMaturationSlotSummaries` over the stored candidates in load order; those without a slot are skipped. */
  method LoadSlotSummaries(history: seq<Matured>, days: map<string, string>) returns (summaries: map<string, Summary>)
    ensures Summarizes(summaries, history, days)
  {
    summaries := map[];
    var i := 0;
    while i < |history|
      invariant 0 <= i <= |history|
      invariant Summarizes(summaries, history[..i], days)
    {
      SummarizesNext(summaries, history[..i], history[i], days);
      assert history[..i + 1] == history[..i] + [history[i]];
      hide Summarizes;
      var slot := history[i].candidate.slot;
      if slot != "" {
        var current := if slot in summaries then summaries[slot] else EmptySummary(slot);
        summaries := summaries[slot := Update(current, history[i], days)];
      }
      i := i + 1;
    }
    assert history[..i] == history;
  }

  lemma SummarizesNext(summaries: map<string, Summary>, history: seq<Matured>, m: Matured, days: map<string, string>)
    requires Summarizes(summaries, history, days)
    ensures var slot := m.candidate.slot;
            var current := if slot in summaries then summaries[slot] else EmptySummary(slot);
            Summarizes(if slot == "" then summaries else summaries[slot := Update(current, m, days)], history + [m],
                       days)
  {
    var slot := m.candidate.slot;
    var current := if slot in summaries then summaries[slot] else EmptySummary(slot);
    var after := if slot == "" then summaries else summaries[slot := Update(current, m, days)];
    hide Update, Fold, HasSlot, OfSlot, EmptySummary;
    forall other
      ensures other in after <==> other != "" && HasSlot(history + [m], other)
      ensures other in after ==> after[other] == Fold(EmptySummary(other), OfSlot(history + [m], other), days)
    {
      SlotNext(summaries, history, m, days, other);
    }
  }

  lemma SlotNext(summaries: map<string, Summary>, history: seq<Matured>, m: Matured, days: map<string, string>,
                 other: string)
    requires Summarizes(summaries, history, days)
    ensures var slot := m.candidate.slot;
            var current := if slot in summaries then summaries[slot] else EmptySummary(slot);
            var after := if slot == "" then summaries else summaries[slot := Update(current, m, days)];
            && (other in after <==> other != "" && HasSlot(history + [m], other))
            && (other in after ==> after[other] == Fold(EmptySummary(other), OfSlot(history + [m], other), days))
  {
    HasSlotAppend(history, m, other);
    OfSlotAppend(history, m, other);
    if m.candidate.slot != "" { SlotUpdated(summaries, history, m, days); }
    hide Update, Fold, HasSlot, OfSlot, EmptySummary;
  }

  lemma SlotUpdated(summaries: map<string, Summary>, history: seq<Matured>, m: Matured, days: map<string, string>)
    requires Summarizes(summaries, history, days) && m.candidate.slot != ""
    ensures var slot := m.candidate.slot;
            Update(if slot in summaries then summaries[slot] else EmptySummary(slot), m, days) ==
              Fold(EmptySummary(slot), OfSlot(history, slot) + [m], days)
  {
    var slot := m.candidate.slot;
    if slot !in summaries { NoneOfSlot(history, slot); }
    FoldAppend(EmptySummary(slot), OfSlot(history, slot), m, days);
  }

  lemma HasSlotAppend(history: seq<Matured>, m: Matured, slot: string)
    ensures HasSlot(history + [m], slot) <==> HasSlot(history, slot) || m.candidate.slot == slot
  {
    assert m in history + [m] && forall x :: x in history ==> x in history + [m];
    assert forall x :: x in history + [m] ==> x in history || x == m;
  }

  lemma {:induction false} OfSlotAppend(history: seq<Matured>, m: Matured, slot: string)
    ensures OfSlot(history + [m], slot) == if m.candidate.slot == slot then OfSlot(history, slot) + [m]
            else OfSlot(history, slot)
    decreases |history|
  {
    if history == [] {
      assert history + [m] == [m] && [m][1..] == [];
      assert OfSlot([m], slot) == (if m.candidate.slot == slot then [m] else []) + OfSlot([m][1..], slot);
    } else {
      var rest, head := history[1..], if history[0].candidate.slot == slot then [history[0]] else [];
      assert (history + [m])[1..] == rest + [m];
      OfSlotAppend(rest, m, slot);
      assert OfSlot(history + [m], slot) == head + OfSlot(rest + [m], slot);
      assert head + (OfSlot(rest, slot) + [m]) == head + OfSlot(rest, slot) + [m];
    }
  }

  lemma {:induction false} NoneOfSlot(history: seq<Matured>, slot: string)
    requires !HasSlot(history, slot)
    ensures OfSlot(history, slot) == []
    decreases |history|
  {
    if history != [] {
      assert history[0] in history;
      assert forall m :: m in history[1..] ==> m in history;
      NoneOfSlot(history[1..], slot);
    }
  }

  lemma {:induction false} FoldAppend(summary: Summary, history: seq<Matured>, m: Matured, days: map<string, string>)
    ensures Fold(summary, history + [m], days) == Update(Fold(summary, history, days), m, days)
    decreases |history|
  {
    if history == [] {
      assert history + [m] == [m] && [m][1..] == [];
    } else {
      assert (history + [m])[1..] == history[1..] + [m];
      FoldAppend(Update(summary, history[0], days), history[1..], m, days);
    }
  }

  // ---------------------------------------------------------------- the order of folding

  ghost predicate Supports(history: seq<Matured>, ref: string) {
    exists m :: m in history && ref in m.candidate.support
  }

  ghost predicate SaidBy(history: seq<Matured>, role: Role) { exists m :: m in history && m.candidate.role == role }

  /** The earliest (or latest) time among the maturations that have one. */
  ghost predicate IsFirst(history: seq<Matured>, at: Option<int>) {
    match at
    case None => forall m :: m in history ==> m.at == None
    case Some(t) => (exists m :: m in history && m.at == at) && forall m :: m in history && m.at.Some? ==>
                      t <= m.at.value
  }

  ghost predicate IsLast(history: seq<Matured>, at: Option<int>) {
    match at
    case None => forall m :: m in history ==> m.at == None
    case Some(t) => (exists m :: m in history && m.at == at) && forall m :: m in history && m.at.Some? ==>
                      m.at.value <= t
  }

  /** What a summary says about a history without mentioning its order. */
  ghost predicate Describes(s: Summary, history: seq<Matured>, days: map<string, string>) {
    && s.candidates == |history| && s.supportCount == |s.support| && s.days == |DaysOf(s.support, days)|
    && Distinct(s.support) && Distinct(s.roles)
    && (forall ref :: ref in s.support <==> ref != "" && Supports(history, ref))
    && (forall role :: role in s.roles <==> SaidBy(history, role))
    && IsFirst(history, s.firstSeen) && IsLast(history, s.lastSeen)
  }

  lemma UpdateDescribes(s: Summary, history: seq<Matured>, m: Matured, days: map<string, string>)
    requires Describes(s, history, days)
    ensures Describes(Update(s, m, days), history + [m], days)
  {
    var longer, t := history + [m], Update(s, m, days);
    MergeElements(s.support, m.candidate.support, Some(""));
    MergeElements(s.roles, [m.candidate.role], None);
    assert m in longer && forall x :: x in history ==> x in longer;
    assert forall x :: x in longer ==> x in history || x == m;
    forall ref ensures ref in t.support <==> ref != "" && Supports(longer, ref) {
      assert ref in t.support <==> ref in Elements(t.support);
      assert ref in s.support <==> ref in Elements(s.support);
      assert ref in m.candidate.support <==> ref in Elements(m.candidate.support);
    }
    forall role ensures role in t.roles <==> SaidBy(longer, role) {
      assert role in t.roles <==> role in Elements(t.roles);
      assert role in s.roles <==> role in Elements(s.roles);
    }
    SeenDescribes(s, history, m, t);
  }

  lemma SeenDescribes(s: Summary, history: seq<Matured>, m: Matured, t: Summary)
    requires IsFirst(history, s.firstSeen) && IsLast(history, s.lastSeen)
    requires t.firstSeen == Earlier(s.firstSeen, m.at) && t.lastSeen == Later(s.lastSeen, m.at)
    ensures IsFirst(history + [m], t.firstSeen) && IsLast(history + [m], t.lastSeen)
  {
    var longer := history + [m];
    assert m in longer && forall x :: x in history ==> x in longer;
    assert forall x :: x in longer ==> x in history || x == m;
  }

  lemma {:induction false} FoldDescribes(slot: string, history: seq<Matured>, days: map<string, string>)
    ensures Describes(Fold(EmptySummary(slot), history, days), history, days)
    decreases |history|
  {
    if history == [] {
    } else {
      var front, last := history[..|history| - 1], history[|history| - 1];
      FoldDescribes(slot, front, days);
      assert history == front + [last];
      FoldAppend(EmptySummary(slot), front, last, days);
      UpdateDescribes(Fold(EmptySummary(slot), front, days), front, last, days);
    }
  }

  /** The counts, the days, the dates, the roles and the refs of a summary do not depend on the order of the history. */
  lemma FoldOrderDoesNotMatter(slot: string, a: seq<Matured>, b: seq<Matured>, days: map<string, string>)
    requires multiset(a) == multiset(b)
    ensures var s, t := Fold(EmptySummary(slot), a, days), Fold(EmptySummary(slot), b, days);
            && s.candidates == t.candidates && s.supportCount == t.supportCount && s.days == t.days
            && s.firstSeen == t.firstSeen && s.lastSeen == t.lastSeen
            && Elements(s.roles) == Elements(t.roles) && Elements(s.support) == Elements(t.support)
  {
    var s, t := Fold(EmptySummary(slot), a, days), Fold(EmptySummary(slot), b, days);
    FoldDescribes(slot, a, days);
    FoldDescribes(slot, b, days);
    assert |a| == |multiset(a)| == |multiset(b)| == |b|;
    SameMembers(a, b);
    DescribedAlike(s, t, a, b, days);
  }

  lemma SameMembers(a: seq<Matured>, b: seq<Matured>)
    requires multiset(a) == multiset(b)
    ensures forall m :: m in a <==> m in b
  {
    forall m ensures m in a <==> m in b { assert m in a <==> m in multiset(a); assert m in b <==> m in multiset(b); }
  }

  lemma DescribedAlike(s: Summary, t: Summary, a: seq<Matured>, b: seq<Matured>, days: map<string, string>)
    requires Describes(s, a, days) && Describes(t, b, days) && |a| == |b| && forall m :: m in a <==> m in b
    ensures s.candidates == t.candidates && s.supportCount == t.supportCount && s.days == t.days
    ensures s.firstSeen == t.firstSeen && s.lastSeen == t.lastSeen
    ensures Elements(s.roles) == Elements(t.roles) && Elements(s.support) == Elements(t.support)
  {
    forall ref ensures Supports(a, ref) <==> Supports(b, ref) {}
    forall role ensures SaidBy(a, role) <==> SaidBy(b, role) {}
    assert Elements(s.support) == Elements(t.support);
    assert Elements(s.roles) == Elements(t.roles);
    assert DaysOf(s.support, days) == DaysOf(t.support, days) by {
      assert forall ref :: ref in s.support <==> ref in t.support;
    }
    DistinctSize(s.support);
    DistinctSize(t.support);
  }

  // ---------------------------------------------------------------- the two rules

  /** The thresholds both rules share, on the candidate counted with its history. */
  predicate Corroborated(supportCount: nat, days: nat, candidates: nat) {
    supportCount >= 5 || (supportCount >= 3 && days >= 2) || (candidates >= 2 && supportCount >= 3)
  }

  predicate IsLowRiskCanonEligible(c: Candidate, supportCount: nat, days: nat, priorCandidates: nat) {
    if c.role == Owner then false
    else if c.risk != Low then false
    else if c.confidence == Low then false
    else if c.epistemic == Hypothesized || c.epistemic == Disputed then false
    else if supportCount >= 5 then true
    else if supportCount >= 3 && days >= 2 then true
    else priorCandidates >= 1 && supportCount >= 3
  }

  predicate ShouldProposeReview(c: Candidate, supportCount: nat, days: nat) {
    if c.role == Owner then true else if c.risk == High then false else supportCount >= 5 || days >= 3
  }

  /** `applyCorroborationPolicy`; `history` is the summary of the slot before this candidate, if there is one. */
  function Corroborate(c: Candidate, history: Option<Summary>, days: map<string, string>): Candidate {
    var support := Merge(Merge([], if history.Some? then history.value.support else [], Some("")), c.support, Some(""));
    var dayCount, prior := |DaysOf(support, days)|, if history.Some? then history.value.candidates else 0;
    var auto := IsLowRiskCanonEligible(c, |support|, dayCount, prior);
    var review := !auto && ShouldProposeReview(c, |support|, dayCount);
    var raised := if auto || review then c.outcomes - {EvidenceOnly} + {WorldUpdate, WikiUpdate, ProposalForCanon}
                  else c.outcomes;
    c.(outcomes := if auto then raised - {QueuedReview} else if review then raised + {QueuedReview} else raised,
       autoEligible := auto)
  }

  datatype Action = AlreadyCanon | AutoCanonReady | NeedsMoreSupport | OwnerReview | KeepEvidence

  /** `finalizeCanonCandidateSummary`; `activeCanon` says that the slot has an active ratified record. */
  function SuggestedAction(s: Summary, activeCanon: bool): Action {
    var ownerScoped := Owner in s.roles;
    var lowRisk := s.latest.Some? && s.latest.value.risk == Low;
    var usable := s.latest.Some? && (s.latest.value.confidence == Medium || s.latest.value.confidence == High);
    if activeCanon then AlreadyCanon
    else if !ownerScoped && lowRisk && usable && Corroborated(s.supportCount, s.days, s.candidates) then AutoCanonReady
    else if ownerScoped then OwnerReview
    else if s.supportCount >= 3 then NeedsMoreSupport
    else KeepEvidence
  }

  lemma {:induction false} MergeOfDistinct(seen: seq<string>, values: seq<string>)
    requires Distinct(seen + values) && "" !in values
    ensures Merge(seen, values, Some("")) == seen + values
    decreases |values|
  {
    if values == [] {
      assert seen + values == seen;
    } else {
      assert (seen + values)[|seen|] == values[0];
      assert values[0] !in seen by {
        forall i | 0 <= i < |seen| ensures seen[i] != values[0] { assert (seen + values)[i] == seen[i]; }
      }
      assert seen + [values[0]] + values[1..] == seen + values;
      MergeOfDistinct(seen + [values[0]], values[1..]);
    }
  }

  /** The distinct refs of a history and one more candidate, and the days and candidates counted with them. */
  ghost predicate IsSupport(support: seq<string>, history: seq<Matured>, c: Candidate) {
    Distinct(support) && forall ref :: ref in support <==> ref != "" && (Supports(history, ref) || ref in c.support)
  }

  /** The rule that lets a candidate become canon without the owner, with its thresholds. */
  ghost predicate MayBecomeCanon(c: Candidate, refs: nat, days: nat, earlier: nat) {
    && c.role != Owner && c.risk == Low && (c.confidence == Medium || c.confidence == High)
    && (c.epistemic == Observed || c.epistemic == Inferred || c.epistemic == Confirmed)
    && (refs >= 5 || (refs >= 3 && (days >= 2 || earlier >= 1)))
  }

  /** The rule that sends a candidate to the owner. */
  ghost predicate NeedsReview(c: Candidate, refs: nat, days: nat, earlier: nat) {
    !MayBecomeCanon(c, refs, days, earlier)
    && (c.role == Owner || (c.risk != High && (refs >= 5 || days >= 3)))
  }

  /** A candidate as the policy leaves it, given whether it may become canon or needs a review. */
  ghost predicate IsPlaced(r: Candidate, c: Candidate, canon: bool, review: bool) {
    && r.autoEligible == canon && r.(outcomes := c.outcomes, autoEligible := c.autoEligible) == c
    && (WorldUpdate in r.outcomes <==> canon || review || WorldUpdate in c.outcomes)
    && (WikiUpdate in r.outcomes <==> canon || review || WikiUpdate in c.outcomes)
    && (ProposalForCanon in r.outcomes <==> canon || review || ProposalForCanon in c.outcomes)
    && (EvidenceOnly in r.outcomes <==> !canon && !review && EvidenceOnly in c.outcomes)
    && (QueuedReview in r.outcomes <==> !canon && (review || QueuedReview in c.outcomes))
    && (RuntimeOnly in r.outcomes <==> RuntimeOnly in c.outcomes)
    && (DiagnosticOnly in r.outcomes <==> DiagnosticOnly in c.outcomes)
  }

  /** What the corroboration policy makes of a candidate, counted with the history of its slot. */
  lemma CorroboratedExactly(c: Candidate, slot: string, history: seq<Matured>, days: map<string, string>)
      returns (support: seq<string>)
    ensures IsSupport(support, history, c)
    ensures IsPlaced(Corroborate(c, if history == [] then None else Some(Fold(EmptySummary(slot), history, days)),
                                 days),
                     c, MayBecomeCanon(c, |support|, |DaysOf(support, days)|, |history|),
                     NeedsReview(c, |support|, |DaysOf(support, days)|, |history|))
  {
    var s := Fold(EmptySummary(slot), history, days);
    FoldDescribes(slot, history, days);
    support := Merge(Merge([], s.support, Some("")), c.support, Some(""));
    SupportOf(s, history, c, days);
    if history == [] { assert s.support == []; }
    hide Fold, Merge, Describes, DaysOf, IsPlaced, MayBecomeCanon, NeedsReview, IsSupport;
    PlacedExactly(c, if history == [] then None else Some(s), days);
  }

  lemma SupportOf(s: Summary, history: seq<Matured>, c: Candidate, days: map<string, string>)
    requires Describes(s, history, days)
    ensures IsSupport(Merge(Merge([], s.support, Some("")), c.support, Some("")), history, c)
    ensures s.candidates == |history|
  {
    var support := Merge(Merge([], s.support, Some("")), c.support, Some(""));
    MergeElements<string>([], s.support, Some(""));
    MergeElements(Merge([], s.support, Some("")), c.support, Some(""));
    hide Merge, Supports, IsFirst, IsLast, SaidBy;
    forall ref ensures ref in support <==> ref != "" && (Supports(history, ref) || ref in c.support) {
      assert ref in support <==> ref in Elements(support);
      assert ref in s.support <==> ref in Elements(s.support);
      assert ref in c.support <==> ref in Elements(c.support);
    }
  }

  lemma PlacedExactly(c: Candidate, known: Option<Summary>, days: map<string, string>)
    ensures var before := if known.Some? then known.value.support else [];
            var support := Merge(Merge([], before, Some("")), c.support, Some(""));
            var earlier := if known.Some? then known.value.candidates else 0;
            IsPlaced(Corroborate(c, known, days), c, MayBecomeCanon(c, |support|, |DaysOf(support, days)|, earlier),
                     NeedsReview(c, |support|, |DaysOf(support, days)|, earlier))
  {
    hide Merge, DaysOf;
  }

  /** The action suggested for a slot, in terms of its history. */
  ghost predicate IsSuggested(action: Action, last: Candidate, owner: bool, refs: nat, days: nat, candidates: nat,
                              activeCanon: bool)
  {
    var ready := last.risk == Low && (last.confidence == Medium || last.confidence == High)
                 && (refs >= 5 || (refs >= 3 && (days >= 2 || candidates >= 2)));
    && (action == AlreadyCanon <==> activeCanon)
    && (action == OwnerReview <==> !activeCanon && owner)
    && (action == AutoCanonReady <==> !activeCanon && !owner && ready)
    && (action == NeedsMoreSupport <==> !activeCanon && !owner && !ready && refs >= 3)
    && (action == KeepEvidence <==> !activeCanon && !owner && !ready && refs < 3)
  }

  lemma ActionExactly(slot: string, history: seq<Matured>, days: map<string, string>, activeCanon: bool)
    requires history != []
    ensures var s, last := Fold(EmptySummary(slot), history, days), history[|history| - 1].candidate;
            && Distinct(s.support) && (forall ref :: ref in s.support <==> ref != "" && Supports(history, ref))
            && IsSuggested(SuggestedAction(s, activeCanon), last, SaidBy(history, Owner), |s.support|,
                           |DaysOf(s.support, days)|, |history|, activeCanon)
  {
    var front, m := history[..|history| - 1], history[|history| - 1];
    assert history == front + [m];
    FoldAppend(EmptySummary(slot), front, m, days);
    FoldDescribes(slot, history, days);
    LatestIsLast(Fold(EmptySummary(slot), front, days), m, days);
    hide Fold, Update, Supports, DaysOf, Distinct, IsFirst, IsLast, SuggestedAction, IsSuggested;
    SuggestedExactly(Fold(EmptySummary(slot), history, days), m.candidate, activeCanon);
  }

  lemma SuggestedExactly(s: Summary, last: Candidate, activeCanon: bool)
    requires s.latest.Some? && s.latest.value.risk == last.risk && s.latest.value.confidence == last.confidence
    ensures IsSuggested(SuggestedAction(s, activeCanon), last, Owner in s.roles, s.supportCount, s.days, s.candidates,
                        activeCanon)
  {
  }

  lemma LatestIsLast(s: Summary, m: Matured, days: map<string, string>)
    ensures Update(s, m, days).latest.Some? && Update(s, m, days).latest.value.risk == m.candidate.risk
        && Update(s, m, days).latest.value.confidence == m.candidate.confidence
  {
    hide Merge;
  }

  /** The support a candidate is judged by at compile time is the support its slot has once it is folded. */
  lemma CompiledSupport(c: Candidate, slot: string, history: seq<Matured>, days: map<string, string>)
    ensures var s := Fold(EmptySummary(slot), history, days);
            Merge(Merge([], s.support, Some("")), c.support, Some("")) == Update(s, Matured(c, None), days).support
  {
    var s := Fold(EmptySummary(slot), history, days);
    FoldDescribes(slot, history, days);
    assert [] + s.support == s.support;
    MergeOfDistinct([], s.support);
  }

  /**
   The two rules compared. Folded last, a candidate makes its slot ready for canon exactly when the slot has no
   active canon and no owner anywhere in its history and the compile-time rule accepts it once its epistemic state
   is set aside: the later rule does not look at the epistemic state, the earlier one not at the history's roles.
   */
  lemma RulesCompared(c: Candidate, at: Option<int>, slot: string, history: seq<Matured>, days: map<string, string>,
      activeCanon: bool)
    ensures var s := Fold(EmptySummary(slot), history, days);
            var known := if history == [] then None else Some(s);
            SuggestedAction(Fold(EmptySummary(slot), history + [Matured(c, at)], days), activeCanon)
              == AutoCanonReady <==>
              !activeCanon && !SaidBy(history, Owner)
                && Corroborate(c.(epistemic := Observed), known, days).autoEligible
  {
    var s := Fold(EmptySummary(slot), history, days);
    FoldAppend(EmptySummary(slot), history, Matured(c, at), days);
    FoldDescribes(slot, history, days);
    CompiledSupport(c, slot, history, days);
    MergeElements(s.roles, [c.role], None);
    var t := Update(s, Matured(c, at), days);
    assert Owner in t.roles <==> Owner in Elements(t.roles);
    assert Owner in s.roles <==> Owner in Elements(s.roles);
    if history == [] { assert s == EmptySummary(slot); }
  }

  /**
   So a candidate that compiles as eligible is ready for canon in the later summary, unless the owner or a canon
   record is there.
   */
  lemma EligibleIsReady(c: Candidate, at: Option<int>, slot: string, history: seq<Matured>, days: map<string, string>,
      activeCanon: bool)
    requires Corroborate(c, if history == [] then None else Some(Fold(EmptySummary(slot), history, days)),
                         days).autoEligible
    ensures SuggestedAction(Fold(EmptySummary(slot), history + [Matured(c, at)], days), activeCanon) ==
              if activeCanon then AlreadyCanon else if SaidBy(history, Owner) then OwnerReview else AutoCanonReady
  {
    RulesCompared(c, at, slot, history, days, false);
    FoldAppend(EmptySummary(slot), history, Matured(c, at), days);
    FoldDescribes(slot, history, days);
    var s := Fold(EmptySummary(slot), history, days);
    MergeElements(s.roles, [c.role], None);
    var t := Update(s, Matured(c, at), days);
    assert Owner in t.roles <==> Owner in Elements(t.roles);
    assert Owner in s.roles <==> Owner in Elements(s.roles);
  }
}
