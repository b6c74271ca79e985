/**
 packages/core/src/memory-maturation.ts: from a submitted candidate to a proposal, its decision and a canon record,
 directly and by the promotion of corroborated slots, over whole runs.
 */
module MaturationRuns {
  import opened Prelude
  import opened GovernanceRecords
  import opened MaturationRules
  import CE = CanonEngine
  import GE = GovernanceEngine

  // ---------------------------------------------------------------- one candidate

  /** Candidate diagnostics refuse a batch that breaks any of these. */
  predicate WellFormed(c: Candidate) { c.statement != "" && c.slot != "" && c.kind in CANON_KINDS && c.support != [] }

  /** `normalizeCandidate`: what the model says about corroboration is dropped, and risky proposals are queued. */
  function Normalize(raw: Candidate): Candidate {
    var c := raw.(autoEligible := false);
    if ProposalForCanon in c.outcomes && (c.role == Owner || c.confidence != High || c.risk == High)
    then c.(outcomes := c.outcomes + {QueuedReview}) else c
  }

  predicate CanSystemRatify(c: Candidate) {
    ProposalForCanon in c.outcomes && c.role != Owner && ((c.confidence == High && c.risk != High) || c.autoEligible)
  }

  /** The library calls and the caller's names. */
  datatype Setting = Setting(normalize: string -> string, safe: string -> string, lower: string -> string,
                             actor: string,
                             runtime: string)

  function ConfidenceOf(level: Level): real { if level == High then 0.9 else if level == Medium then 0.65 else 0.35 }

  function ProposalFor(c: Candidate, part: string, now: int): Proposal {
    Proposal("prop_" + part, Create, c.kind, "canon", None,
             Payload(Text(c.kind), Text(c.statement), Text(c.slot),
                     Some(Temporal(if c.epistemic == Disputed then "unresolved" else "active", Some(now), None,
                                   Some(ConfidenceOf(c.confidence))))),
             c.rationale, ["src_" + part, "obs_" + part, "wcl_" + part] + c.support,
             !CanSystemRatify(c), false, Proposed)
  }

  function CaseFor(store: CanonStore, c: Candidate, part: string, now: int, setting: Setting): GE.Case {
    GE.Case(ProposalFor(c, part, now), store, false, setting.normalize)
  }

  /** What applying a candidate writes besides its evidence. */
  datatype Effect = Effect(proposal: Option<Proposal>, ratification: Option<Ratification>, canon: Option<Canon>,
                           packet: bool, failureDiagnostic: bool)

  /** The proposal part of `applyCandidate`. */
  function ApplyCandidate(store: CanonStore, c: Candidate, part: string, now: int, setting: Setting): Result<Effect> {
    if ProposalForCanon !in c.outcomes then Ok(Effect(None, None, None, false, false))
    else
      var proposal := ProposalFor(c, part, now);
      var ratification := GE.Evaluate(CaseFor(store, c, part, now, setting), "rat_" + part, setting.actor, now);
      if ratification.decision == Approved then
        var applied :- CE.ApplyProposal(proposal, ratification, None, "mem_" + part, now);
        Ok(Effect(Some(proposal), Some(ratification), applied.created, false, false))
      else Ok(Effect(Some(proposal), Some(ratification), None, ratification.decision == Deferred, true))
  }

  /** A ratified record of the same kind and slot. */
  predicate Occupied(store: CanonStore, kind: string, slot: string) {
    exists k :: k in store && store[k].kind == kind && store[k].state == Ratified && store[k].slot == slot
  }

  lemma CandidateDecision(store: CanonStore, c: Candidate, part: string, now: int, setting: Setting)
    requires WellFormed(c)
    ensures GE.Decide(CaseFor(store, c, part, now, setting)) ==
              if Occupied(store, c.kind, c.slot) then Rejected else if CanSystemRatify(c) then Approved else Deferred
  {
    var gates := CaseFor(store, c, part, now, setting);
    GE.DecisionByGates(gates);
    assert gates.HasShape() && gates.HasLegalTarget() && gates.StructuralGate().passed;
    assert gates.ConflictGate().passed <==> !Occupied(store, c.kind, c.slot) by {
      assert forall k :: k in store ==> (gates.Conflicts(store[k]) <==>
        store[k].kind == c.kind && store[k].state == Ratified && store[k].slot == c.slot);
    }
  }

  /**
   A candidate that proposes canon ends in exactly one of three ways: a canon record that says what it says, when the
   system may ratify it and its kind and slot are free; a pending packet for the owner, when they are free and the
   system may not; a rejection with a diagnostic, when they are taken. Without a proposal it writes none of them.
   */
  lemma CandidateEndsInOneWay(store: CanonStore, c: Candidate, part: string, now: int, setting: Setting)
    requires WellFormed(c)
    ensures ApplyCandidate(store, c, part, now, setting).Ok?
    ensures var e := ApplyCandidate(store, c, part, now, setting).value;
            var proposes, free := ProposalForCanon in c.outcomes, !Occupied(store, c.kind, c.slot);
            var trusted := c.role != Owner && (c.autoEligible || (c.confidence == High && c.risk != High));
            && (e.canon.Some? <==> proposes && free && trusted)
            && (e.packet <==> proposes && free && !trusted)
            && (e.ratification.Some? && e.ratification.value.decision == Rejected <==> proposes && !free)
            && (e.failureDiagnostic <==> proposes && e.canon.None?)
    ensures var e := ApplyCandidate(store, c, part, now, setting).value;
            e.canon.Some? ==> Says(e.canon.value, c) && IsNewRecord(e.canon.value, c, part, now)
  {
    CandidateDecision(store, c, part, now, setting);
  }

  /** Valid from now, disputed or active, as sure as the candidate was, and named after its source. */
  ghost predicate IsNewRecord(record: Canon, c: Candidate, part: string, now: int) {
    && record.id == "mem_" + part && record.supersedes == None && record.supersededBy == None
    && record.createdAt == now && record.updatedAt == now
    && record.upstreamRefs == ["prop_" + part, "rat_" + part]
    && record.temporal.Some? && record.temporal.value.validFrom == Some(now) && record.temporal.value.validTo == None
    && (record.temporal.value.status == "unresolved" <==> c.epistemic == Disputed)
    && (c.epistemic != Disputed ==> record.temporal.value.status == "active")
    && (c.confidence == High ==> record.temporal.value.confidence == Some(0.9))
    && (c.confidence == Medium ==> record.temporal.value.confidence == Some(0.65))
    && (c.confidence == Low ==> record.temporal.value.confidence == Some(0.35))
  }

  predicate Says(record: Canon, c: Candidate) {
    record.statement == c.statement && record.slot == c.slot && record.kind == c.kind && record.state == Ratified
  }

  // ---------------------------------------------------------------- promotion

  /** `candidateFromSummary` for a slot that is ready; operational self-observations do not go to canon. */
  function FromSummary(s: Summary, setting: Setting): Candidate
    requires s.latest.Some?
  {
    var l, toCanon := s.latest.value, !IsOperational(s, setting);
    Candidate("candidate_" + setting.safe(s.slot), l.statement, l.kind, l.epistemic, s.slot, l.role, l.confidence,
              l.risk, s.support,
              if toCanon then {WorldUpdate, WikiUpdate, ProposalForCanon}
              else {WorldUpdate, WikiUpdate}, l.rationale, toCanon)
  }

  const PHRASES := {"heartbeat", "maturation_batch", "research workflow", "research method", "x/twitter scan",
                    "x/twitter research"}

  predicate Includes(text: string, phrase: string) { phrase <= text || (text != "" && Includes(text[1..], phrase)) }

  predicate SpeaksOfOperation(slot: string, statement: string, setting: Setting) {
    exists phrase :: phrase in PHRASES && Includes(setting.lower(slot + " " + statement), phrase)
  }

  /** `isOperationalSelfObservationSummary`: only agents said it, and it speaks of their own operation. */
  predicate IsOperational(s: Summary, setting: Setting) {
    (forall role :: role in s.roles ==> role == Agent)
    && SpeaksOfOperation(s.slot, if s.latest.Some? then s.latest.value.statement else "", setting)
  }

  predicate ActiveCanon(store: CanonStore, slot: string) {
    exists k :: k in store && store[k].slot == slot && store[k].state == Ratified
                && store[k].temporal.Some? && store[k].temporal.value.status == "active"
  }

  /** The file name part of a promoted slot: the same every time. */
  function PromotionPart(slot: string, setting: Setting): string {
    setting.safe(setting.runtime + "_memory_candidate_promotion_" + setting.runtime + "_candidate_"
                 + setting.safe(slot))
  }

  // ---------------------------------------------------------------- runs

  /** A canon record the pipeline wrote, and the candidate it was written for. */
  datatype Written = Written(record: Canon, candidate: Candidate)

  datatype State = State(canon: CanonStore, history: seq<Matured>, days: map<string, string>, written: seq<Written>)

  datatype Event =
    | Mature(raws: seq<Candidate>, parts: seq<string>, now: int)
    | Promote(slots: seq<string>, now: int)
    | Others(canon: CanonStore, days: map<string, string>)

  function SummaryOf(s: State, slot: string): Summary { Fold(EmptySummary(slot), OfSlot(s.history, slot), s.days) }

  function Compile(s: State, raw: Candidate): Candidate {
    var c := Normalize(raw);
    Corroborate(c, if HasSlot(s.history, c.slot) then Some(SummaryOf(s, c.slot)) else None, s.days)
  }

  /** Applying one candidate to the canon as it is now; an exception leaves it alone. */
  function ApplyOne(s: State, c: Candidate, part: string, now: int, setting: Setting): State {
    var effect := ApplyCandidate(s.canon, c, part, now, setting);
    if effect.Ok? && effect.value.canon.Some? then
      s.(canon := CE.Write(s.canon, effect.value.canon.value),
         written := s.written + [Written(effect.value.canon.value, c)])
    else s
  }

  /** The loop of a maturation: the candidates were all compiled before the first is applied. */
  function ApplyCompiled(s: State, compiled: seq<Candidate>, parts: seq<string>, now: int, setting: Setting): State
    requires |parts| == |compiled|
    decreases |compiled|
  {
    if compiled == [] then s
    else ApplyCompiled(ApplyOne(s, compiled[0], parts[0], now, setting), compiled[1..], parts[1..], now, setting)
  }

  function CompileAll(s: State, raws: seq<Candidate>): (compiled: seq<Candidate>)
    ensures |compiled| == |raws|
  {
    seq(|raws|, i requires 0 <= i < |raws| => Compile(s, raws[i]))
  }

  function Remember(compiled: seq<Candidate>, now: int): (history: seq<Matured>)
    ensures |history| == |compiled|
  {
    seq(|compiled|, i requires 0 <= i < |compiled| => Matured(compiled[i], Some(now)))
  }

  /** The summary of the slot is complete and its suggested action is the promotion. */
  predicate IsReady(s: State, slot: string) {
    && HasSlot(s.history, slot) && SummaryOf(s, slot).latest.Some?
    && SuggestedAction(SummaryOf(s, slot), ActiveCanon(s.canon, slot)) == AutoCanonReady
  }

  /** The loop of a promotion: what is ready was decided, with its summary, before the first slot is applied. */
  function PromoteSlots(s: State, report: State, slots: seq<string>, now: int, setting: Setting): State
    decreases |slots|
  {
    if slots == [] then s
    else
      var slot := slots[0];
      var next := if IsReady(report, slot)
                  then ApplyOne(s, FromSummary(SummaryOf(report, slot), setting), PromotionPart(slot, setting), now,
                                setting)
                  else s;
      PromoteSlots(next, report, slots[1..], now, setting)
  }

  function Next(s: State, e: Event, setting: Setting): State {
    match e
    case Mature(raws, parts, now) =>
      if |parts| != |raws| || exists raw :: raw in raws && !WellFormed(raw) then s   // diagnostics: nothing is applied
      else
        var compiled := CompileAll(s, raws);
        ApplyCompiled(s, compiled, parts, now, setting).(history := s.history + Remember(compiled, now))
    case Promote(slots, now) => PromoteSlots(s, s, slots, now, setting)
    case Others(canon, days) => s.(canon := canon, days := days)
  }

  function Run(s: State, events: seq<Event>, setting: Setting): State
    decreases |events|
  {
    if events == [] then s else Run(Next(s, events[0], setting), events[1..], setting)
  }

  // ---------------------------------------------------------------- one submitted candidate

  /** The support a submitted candidate is judged by. */
  function SupportOf(s: State, raw: Candidate): seq<string> {
    Merge(Merge([], if HasSlot(s.history, raw.slot) then SummaryOf(s, raw.slot).support else [], Some("")),
          raw.support, Some(""))
  }

  /** The candidates of its slot before it. */
  function EarlierOf(s: State, raw: Candidate): nat {
    if HasSlot(s.history, raw.slot) then SummaryOf(s, raw.slot).candidates else 0
  }

  ghost predicate IsEligible(s: State, raw: Candidate) {
    MayBecomeCanon(raw, |SupportOf(s, raw)|, |DaysOf(SupportOf(s, raw), s.days)|, EarlierOf(s, raw))
  }

  /** It asked for canon, or its corroboration does. */
  ghost predicate AsksForCanon(s: State, raw: Candidate) {
    ProposalForCanon in raw.outcomes || IsEligible(s, raw)
    || NeedsReview(raw, |SupportOf(s, raw)|, |DaysOf(SupportOf(s, raw), s.days)|, EarlierOf(s, raw))
  }

  /** It may be ratified without the owner: corroborated by the policy, or confident and not of high risk. */
  ghost predicate NeedsNoOwner(s: State, raw: Candidate) {
    raw.role != Owner && (IsEligible(s, raw) || (raw.confidence == High && raw.risk != High))
  }

  lemma CompiledRules(s: State, raw: Candidate)
    ensures var c := Compile(s, raw);
            && SameClaim(c, raw) && c.confidence == raw.confidence && c.support == raw.support
            && (ProposalForCanon in c.outcomes <==> AsksForCanon(s, raw)) && (c.autoEligible <==> IsEligible(s, raw))
  {
    hide HasSlot, SummaryOf, Merge, DaysOf;
  }

  /**
   From what was submitted to where it ends: with its kind and slot free, a candidate that asks for canon becomes canon
   when it needs no owner and waits for the owner otherwise; an owner's claim always asks, and never becomes canon here.
   */
  lemma SubmittedCandidateFate(s: State, raw: Candidate, part: string, now: int, setting: Setting)
    requires WellFormed(raw)
    ensures ApplyCandidate(s.canon, Compile(s, raw), part, now, setting).Ok?
    ensures var e := ApplyCandidate(s.canon, Compile(s, raw), part, now, setting).value;
            var free := !Occupied(s.canon, raw.kind, raw.slot);
            && (e.canon.Some? <==> free && AsksForCanon(s, raw) && NeedsNoOwner(s, raw))
            && (e.packet <==> free && AsksForCanon(s, raw) && !NeedsNoOwner(s, raw))
            && (raw.role == Owner ==> e.canon.None? && (free ==> e.packet))
  {
    CompiledRules(s, raw);
    var c := Compile(s, raw);
    CandidateEndsInOneWay(s.canon, c, part, now, setting);
    hide Compile, ApplyCandidate, Occupied, HasSlot, SummaryOf, SupportOf, DaysOf;
  }

  /** Risky proposals are queued for a review when they are submitted, unless the policy lets them become canon. */
  lemma QueuedExactly(s: State, raw: Candidate)
    ensures QueuedReview in Compile(s, raw).outcomes <==>
              && !IsEligible(s, raw)
              && (|| QueuedReview in raw.outcomes
                  || NeedsReview(raw, |SupportOf(s, raw)|, |DaysOf(SupportOf(s, raw), s.days)|, EarlierOf(s, raw))
                  || (ProposalForCanon in raw.outcomes
                      && (raw.role == Owner || raw.confidence != High || raw.risk == High)))
  {
    hide HasSlot, SummaryOf, Merge, DaysOf;
  }

  /** Everything a proposal needs is there. */
  ghost predicate IsComplete(raw: Candidate) {
    && raw.statement != "" && raw.slot != "" && raw.support != []
    && (|| raw.kind == "fact" || raw.kind == "belief" || raw.kind == "preference" || raw.kind == "constraint"
        || raw.kind == "goal" || raw.kind == "procedure" || raw.kind == "value" || raw.kind == "identity_trait")
  }

  /** A batch is refused as a whole, or remembered candidate by candidate with the claims it made. */
  lemma MaturesExactly(s: State, raws: seq<Candidate>, parts: seq<string>, now: int, setting: Setting)
    requires |parts| == |raws|
    ensures var after := Next(s, Mature(raws, parts, now), setting);
            if exists raw :: raw in raws && !IsComplete(raw) then after == s
            else
              && |after.history| == |s.history| + |raws| && after.history[..|s.history|] == s.history
              && forall i :: 0 <= i < |raws| ==>
                   var m := after.history[|s.history| + i];
                   m.at == Some(now) && SameClaim(m.candidate, raws[i]) && m.candidate.support == raws[i].support
                   && m.candidate.epistemic == raws[i].epistemic && m.candidate.confidence == raws[i].confidence
  {
    forall raw: Candidate ensures IsComplete(raw) <==> WellFormed(raw) {}
    hide IsComplete, WellFormed, Compile, ApplyCompiled;
    if forall raw :: raw in raws ==> WellFormed(raw) {
      forall i | 0 <= i < |raws| ensures SameClaim(Compile(s, raws[i]), raws[i]) { CompiledRules(s, raws[i]); }
    }
  }

  // ---------------------------------------------------------------- when a slot is promoted

  /** The slot is ready, in terms of its history and of the canon. */
  lemma ReadyExactly(s: State, slot: string)
    ensures IsReady(s, slot) <==>
              var own, sum := OfSlot(s.history, slot), SummaryOf(s, slot);
              && own != [] && !SaidBy(own, Owner)
              && (forall k :: k in s.canon && s.canon[k].slot == slot && s.canon[k].state == Ratified ==>
                    s.canon[k].temporal.None? || s.canon[k].temporal.value.status != "active")
              && var last, refs, days := own[|own| - 1].candidate, |sum.support|, |DaysOf(sum.support, s.days)|;
                 && last.risk == Low && last.confidence != Low
                 && (refs >= 5 || (refs >= 3 && (days >= 2 || |own| >= 2)))
  {
    var own := OfSlot(s.history, slot);
    OfSlotMembers(s.history, slot);
    hide Fold, SuggestedAction, SaidBy, DaysOf, OfSlot;
    if own != [] {
      ActionExactly(slot, own, s.days, ActiveCanon(s.canon, slot));
      LatestIsLast(slot, own, s.days);
      assert own[0] in own;
    }
  }

  /** The phrase stands somewhere in the text. */
  ghost predicate StandsIn(phrase: string, text: string) { exists a, b :: text == a + phrase + b }

  lemma {:induction false} IncludesExactly(text: string, phrase: string)
    ensures Includes(text, phrase) <==> StandsIn(phrase, text)
    decreases |text|
  {
    if phrase <= text {
      assert text == "" + phrase + text[|phrase|..];
    } else if text != "" {
      IncludesExactly(text[1..], phrase);
      if StandsIn(phrase, text[1..]) {
        var a, b :| text[1..] == a + phrase + b;
        assert text == [text[0]] + a + phrase + b;
      }
    }
    if StandsIn(phrase, text) && !(phrase <= text) {
      var a, b :| text == a + phrase + b;
      if a == "" { StandsInFront(text, phrase, b); } else { assert text[1..] == a[1..] + phrase + b; }
    }
  }

  lemma StandsInFront(text: string, phrase: string, b: string)
    requires text == "" + phrase + b
    ensures phrase <= text
  {
  }

  lemma SpeaksExactly(slot: string, statement: string, setting: Setting)
    ensures var text := setting.lower(slot + " " + statement);
            SpeaksOfOperation(slot, statement, setting) <==>
              exists phrase :: phrase in PHRASES && StandsIn(phrase, text)
  {
    hide Includes, StandsIn;
    var text := setting.lower(slot + " " + statement);
    forall phrase ensures Includes(text, phrase) <==> StandsIn(phrase, text) { IncludesExactly(text, phrase); }
  }

  lemma OnlyAgents(sum: Summary, own: seq<Matured>, days: map<string, string>)
    requires Describes(sum, own, days)
    ensures (forall role :: role in sum.roles ==> role == Agent) <==>
              (forall m :: m in own ==> m.candidate.role == Agent)
  {
    hide IsFirst, IsLast, DaysOf, Supports, Distinct;
    forall m | m in own ensures m.candidate.role in sum.roles { assert SaidBy(own, m.candidate.role); }
  }

  /** Only agents spoke in the slot, and its name or last statement has one of the phrases. */
  lemma OperationalExactly(s: State, slot: string, setting: Setting)
    requires HasSlot(s.history, slot)
    ensures var own := OfSlot(s.history, slot);
            && own != []
            && (IsOperational(SummaryOf(s, slot), setting) <==>
                  && (forall m :: m in own ==> m.candidate.role == Agent)
                  && var text := setting.lower(slot + " " + own[|own| - 1].candidate.statement);
                     exists phrase :: phrase in PHRASES && StandsIn(phrase, text))
  {
    var own := OfSlot(s.history, slot);
    OfSlotMembers(s.history, slot);
    var m :| m in s.history && m.candidate.slot == slot;
    assert m in own;
    LatestIsLast(slot, own, s.days);
    FoldDescribes(slot, own, s.days);
    OnlyAgents(SummaryOf(s, slot), own, s.days);
    SpeaksExactly(slot, own[|own| - 1].candidate.statement, setting);
    hide StandsIn, Fold, OfSlot, Describes, SpeaksOfOperation;
  }

  // ---------------------------------------------------------------- safety

  /** A submitted candidate that is neither the owner's nor of high risk made this claim. */
  ghost predicate Traced(w: Written, history: seq<Matured>) {
    && Says(w.record, w.candidate) && w.candidate.role != Owner && w.candidate.risk != High
    && exists m :: m in history && SameClaim(m.candidate, w.candidate)
  }

  predicate SameClaim(a: Candidate, b: Candidate) {
    a.statement == b.statement && a.slot == b.slot && a.kind == b.kind && a.role == b.role && a.risk == b.risk
  }

  ghost predicate Honest(s: State) {
    && (forall m :: m in s.history ==>
          WellFormed(m.candidate) && (m.candidate.autoEligible ==> m.candidate.risk == Low))
    && (forall w :: w in s.written ==> Traced(w, s.history))
  }

  /** What is applied may become canon only when it is neither the owner's nor of high risk, and was submitted. */
  ghost predicate Admissible(c: Candidate, history: seq<Matured>) {
    && WellFormed(c) && (c.autoEligible ==> c.risk != High)
    && exists m :: m in history && SameClaim(m.candidate, c)
  }

  lemma ApplyOneIsTraced(s: State, c: Candidate, part: string, now: int, setting: Setting, history: seq<Matured>)
    requires Admissible(c, history) && forall w :: w in s.written ==> Traced(w, history)
    ensures var t := ApplyOne(s, c, part, now, setting);
            t.history == s.history && t.days == s.days && forall w :: w in t.written ==> Traced(w, history)
  {
    CandidateEndsInOneWay(s.canon, c, part, now, setting);
    hide ApplyCandidate, Occupied;
  }

  lemma {:induction false} ApplyCompiledIsTraced(s: State, compiled: seq<Candidate>, parts: seq<string>, now: int,
                                                 setting: Setting,
                                                 history: seq<Matured>)
    requires |parts| == |compiled| && forall w :: w in s.written ==> Traced(w, history)
    requires forall c :: c in compiled ==> Admissible(c, history)
    ensures var t := ApplyCompiled(s, compiled, parts, now, setting);
            t.history == s.history && t.days == s.days && forall w :: w in t.written ==> Traced(w, history)
    decreases |compiled|
  {
    hide Traced, Admissible, ApplyOne;
    if compiled != [] {
      assert compiled[0] in compiled;
      ApplyOneIsTraced(s, compiled[0], parts[0], now, setting, history);
      ApplyCompiledIsTraced(ApplyOne(s, compiled[0], parts[0], now, setting), compiled[1..], parts[1..], now, setting,
                            history);
    }
  }

  lemma {:induction false} LatestIsLast(slot: string, history: seq<Matured>, days: map<string, string>)
    requires history != []
    ensures var s, m := Fold(EmptySummary(slot), history, days), history[|history| - 1].candidate;
            s.slot == slot
              && s.latest == Some(Latest(m.statement, m.kind, m.epistemic, m.confidence, m.risk, m.role, m.rationale))
  {
    assert history == history[..|history| - 1] + [history[|history| - 1]];
    FoldAppend(EmptySummary(slot), history[..|history| - 1], history[|history| - 1], days);
    FoldKeepsSlot(EmptySummary(slot), history, days);
  }

  lemma {:induction false} FoldKeepsSlot(summary: Summary, history: seq<Matured>, days: map<string, string>)
    ensures Fold(summary, history, days).slot == summary.slot
    decreases |history|
  {
    if history != [] { FoldKeepsSlot(Update(summary, history[0], days), history[1..], days); }
  }

  lemma {:induction false} OfSlotMembers(history: seq<Matured>, slot: string)
    ensures forall m :: m in OfSlot(history, slot) <==> m in history && m.candidate.slot == slot
    decreases |history|
  {
    if history != [] {
      OfSlotMembers(history[1..], slot);
      assert history == [history[0]] + history[1..];
    }
  }

  /** A slot that is ready is promoted as the claim of its last candidate, whom no owner preceded. */
  lemma ReadyIsAdmissible(s: State, slot: string, setting: Setting)
    requires Honest(s) && IsReady(s, slot)
    ensures var c := FromSummary(SummaryOf(s, slot), setting);
            Admissible(c, s.history) && c.role != Owner && c.risk == Low
  {
    hide ActiveCanon, Traced;
    var own := OfSlot(s.history, slot);
    OfSlotMembers(s.history, slot);
    var m :| m in s.history && m.candidate.slot == slot;
    assert m in own;
    LatestIsLast(slot, own, s.days);
    FoldDescribes(slot, own, s.days);
    var last := own[|own| - 1];
    assert last in own && SaidBy(own, last.candidate.role);
    SupportSurvives(own, last, slot, s.days);
    assert SameClaim(last.candidate, FromSummary(SummaryOf(s, slot), setting));
  }

  /** A ready slot has support, as it passed a threshold. */
  lemma SupportSurvives(own: seq<Matured>, last: Matured, slot: string, days: map<string, string>)
    requires Describes(Fold(EmptySummary(slot), own, days), own, days)
    ensures var s := Fold(EmptySummary(slot), own, days); Corroborated(s.supportCount, s.days, s.candidates) ==>
              s.support != []
  {
  }

  lemma {:induction false} PromotionIsTraced(s: State, report: State, slots: seq<string>,
      now: int, setting: Setting)
    requires Honest(report) && s.history == report.history && s.days == report.days
    requires forall w :: w in s.written ==> Traced(w, report.history)
    ensures var t := PromoteSlots(s, report, slots, now, setting);
            t.history == s.history && t.days == s.days && forall w :: w in t.written ==> Traced(w, report.history)
    decreases |slots|
  {
    hide Honest, Traced, Admissible, ApplyOne, SuggestedAction, ActiveCanon, SummaryOf, HasSlot, FromSummary;
    if slots != [] {
      var slot := slots[0];
      if IsReady(report, slot) {
        ReadyIsAdmissible(report, slot, setting);
        var c := FromSummary(SummaryOf(report, slot), setting);
        ApplyOneIsTraced(s, c, PromotionPart(slot, setting), now, setting, report.history);
        PromotionIsTraced(ApplyOne(s, c, PromotionPart(slot, setting), now, setting), report, slots[1..], now, setting);
      } else {
        PromotionIsTraced(s, report, slots[1..], now, setting);
      }
    }
  }

  /** Compilation takes no corroboration from the submitted text. */
  lemma CompileIsAdmissible(s: State, raw: Candidate)
    requires WellFormed(raw)
    ensures var c := Compile(s, raw);
            WellFormed(c) && SameClaim(c, raw) && (c.autoEligible ==> c.risk == Low && c.role != Owner)
  {
    hide HasSlot, SummaryOf, Merge, DaysOf;
  }

  lemma TracedInLonger(w: Written, history: seq<Matured>, more: seq<Matured>)
    requires Traced(w, history)
    ensures Traced(w, history + more)
  {
    var m :| m in history && SameClaim(m.candidate, w.candidate);
    assert m in history + more;
  }

  lemma MatureIsHonest(s: State, raws: seq<Candidate>, parts: seq<string>, now: int, setting: Setting)
    requires Honest(s)
    ensures Honest(Next(s, Mature(raws, parts, now), setting))
  {
    hide Compile, Traced;
    if |parts| == |raws| && forall raw :: raw in raws ==> WellFormed(raw) {
      var compiled := CompileAll(s, raws);
      var longer := s.history + Remember(compiled, now);
      forall i | 0 <= i < |raws| ensures WellFormed(compiled[i]) && Admissible(compiled[i], longer)
                                 ensures compiled[i].autoEligible ==> compiled[i].risk == Low {
        assert raws[i] in raws;
        CompileIsAdmissible(s, raws[i]);
        assert longer[|s.history| + i] == Matured(compiled[i], Some(now));
        assert SameClaim(longer[|s.history| + i].candidate, compiled[i]);
      }
      forall w | w in s.written ensures Traced(w, longer) { TracedInLonger(w, s.history, Remember(compiled, now)); }
      hide WellFormed, Admissible, CompileAll;
      ApplyCompiledIsTraced(s, compiled, parts, now, setting, longer);
      forall m | m in longer ensures WellFormed(m.candidate) && (m.candidate.autoEligible ==> m.candidate.risk == Low) {
        if m !in s.history {
          var j :| 0 <= j < |longer| && longer[j] == m;
          assert m == Remember(compiled, now)[j - |s.history|];
        }
      }
    }
  }

  lemma NextIsHonest(s: State, e: Event, setting: Setting)
    requires Honest(s)
    ensures Honest(Next(s, e, setting))
  {
    match e
    case Mature(raws, parts, now) => MatureIsHonest(s, raws, parts, now, setting);
    case Promote(slots, now) => PromotionIsTraced(s, s, slots, now, setting);
    case Others(_, _) =>
  }

  /**
   However maturations, promotions and changes by others are mixed, every canon record this pipeline writes states a
   claim that was submitted by a candidate that is not the owner's and not of high risk.
   */
  lemma {:induction false} OwnerClaimsNeverReachCanon(s: State, events: seq<Event>, setting: Setting)
    requires Honest(s)
    ensures Honest(Run(s, events, setting))
    ensures forall w :: w in Run(s, events, setting).written ==>
              w.candidate.role != Owner && w.candidate.risk != High && w.record.statement == w.candidate.statement
              && Traced(w, Run(s, events, setting).history)
    decreases |events|
  {
    hide Next;
    if events != [] {
      hide Honest;
      NextIsHonest(s, events[0], setting);
      OwnerClaimsNeverReachCanon(Next(s, events[0], setting), events[1..], setting);
    }
  }
}
