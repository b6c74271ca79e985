/** packages/core/src/memory-maturation.ts: what the promotion of corroborated slots does not look at. */
module MaturationPromotion {
  import opened Prelude
  import opened GovernanceRecords
  import opened MaturationRules
  import opened MaturationRuns
  import opened SafeNames
  import CE = CanonEngine

  // ---------------------------------------------------------------- one promotion

  /** The kind of the last candidate of the slot, and the file name that belongs to the slot. */
  function KeyFor(s: State, slot: string, setting: Setting): CanonKey
    requires IsReady(s, slot)
  {
    CanonKey(SummaryOf(s, slot).latest.value.kind, "mem_" + PromotionPart(slot, setting))
  }

  /**
   A slot that is ready, and is no operational self-observation, becomes canon exactly when no ratified record has its
   kind and slot, whatever its epistemic state: a disputed or hypothesized claim that the compile-time rule turned away
   is promoted here.
   */
  lemma PromotionIgnoresDoubt(s: State, slot: string, now: int, setting: Setting)
    requires Honest(s) && IsReady(s, slot)
    ensures var c := FromSummary(SummaryOf(s, slot), setting);
            var effect := ApplyCandidate(s.canon, c, PromotionPart(slot, setting), now, setting);
            && effect.Ok?
            && (effect.value.canon.Some? <==>
                  !IsOperational(SummaryOf(s, slot), setting) && !Occupied(s.canon, c.kind, slot))
            && (effect.value.canon.Some? ==>
                  Says(effect.value.canon.value, c) && KeyOf(effect.value.canon.value) == KeyFor(s, slot, setting)
                    && c.slot == slot)
  {
    ReadyIsAdmissible(s, slot, setting);
    var c := FromSummary(SummaryOf(s, slot), setting);
    assert c.slot == slot by { FoldKeepsSlot(EmptySummary(slot), OfSlot(s.history, slot), s.days); }
    CandidateEndsInOneWay(s.canon, c, PromotionPart(slot, setting), now, setting);
    hide ApplyCandidate, IsOperational, Occupied, SummaryOf, Honest, IsReady, SuggestedAction, ActiveCanon;
  }

  /**
   Exactly one record is written, in the file of the slot: the claim of the candidate, as the active record of the
   slot.
   */
  predicate WritesRecord(s: State, after: State, key: CanonKey, slot: string, c: Candidate) {
    && |after.written| == |s.written| + 1
    && var w := after.written[|s.written|];
       && after == s.(canon := s.canon[key := w.record], written := s.written + [w])
       && KeyOf(w.record) == key && w.record.state == Ratified && w.record.slot == slot
       && w.candidate == c && w.record.statement == c.statement
  }

  /** The state after one promotion: at most the one record of the slot is written. */
  lemma OnePromotion(s: State, slot: string, now: int, setting: Setting)
    requires Honest(s) && IsReady(s, slot)
    ensures var after, key := Next(s, Promote([slot], now), setting), KeyFor(s, slot, setting);
            if IsOperational(SummaryOf(s, slot), setting) || Occupied(s.canon, key.kind, slot) then after == s
            else WritesRecord(s, after, key, slot, FromSummary(SummaryOf(s, slot), setting))
  {
    PromotionIgnoresDoubt(s, slot, now, setting);
    hide SummaryOf, ApplyCandidate, Occupied, SuggestedAction, ActiveCanon, Honest, HasSlot, IsOperational;
    var next := ApplyOne(s, FromSummary(SummaryOf(s, slot), setting), PromotionPart(slot, setting), now, setting);
    assert [slot][1..] == [];
    assert PromoteSlots(next, s, [slot][1..], now, setting) == next;
  }

  /** The last record was written over one that the canon had. */
  predicate WritesOver(s: State, after: State) {
    |after.written| > |s.written| && KeyOf(after.written[|after.written| - 1].record) in s.canon
  }

  /**
   Promoting a ready slot writes over an existing record exactly when the canon has a record in the file of the slot,
   and its kind and slot are free all the same: that record was retired, or it is an active record of another slot.
   */
  lemma PromotionWritesOverExactly(s: State, slot: string, now: int, setting: Setting)
    requires Honest(s) && IsReady(s, slot)
    ensures var after, key := Next(s, Promote([slot], now), setting), KeyFor(s, slot, setting);
            && (WritesOver(s, after) <==>
                  key in s.canon && !Occupied(s.canon, key.kind, slot) && !IsOperational(SummaryOf(s, slot), setting))
            && (WritesOver(s, after) ==>
                  key in after.canon && after.canon[key].state == Ratified && after.canon[key].slot == slot)
            && (WritesOver(s, after) && key in s.canon && KeyOf(s.canon[key]) == key ==>
                  s.canon[key].state != Ratified || s.canon[key].slot != slot)
  {
    var key, after := KeyFor(s, slot, setting), Next(s, Promote([slot], now), setting);
    OnePromotion(s, slot, now, setting);
    if key in s.canon && KeyOf(s.canon[key]) == key { FreeMeansOther(s.canon, key, slot); }
    hide Next, IsOperational, SummaryOf, IsReady, Honest, Occupied, KeyFor, FromSummary, WritesOver, WritesRecord;
    if IsOperational(SummaryOf(s, slot), setting) || Occupied(s.canon, key.kind, slot) {
      NothingIsWrittenOver(s);
    } else {
      RecordIsWrittenOver(s, after, key, slot, FromSummary(SummaryOf(s, slot), setting));
    }
  }

  lemma NothingIsWrittenOver(s: State)
    ensures !WritesOver(s, s)
  {
  }

  lemma RecordIsWrittenOver(s: State, after: State, key: CanonKey, slot: string, c: Candidate)
    requires WritesRecord(s, after, key, slot, c)
    ensures WritesOver(s, after) <==> key in s.canon
    ensures key in after.canon && after.canon[key].state == Ratified && after.canon[key].slot == slot
  {
  }

  lemma FreeMeansOther(canon: CanonStore, key: CanonKey, slot: string)
    requires key in canon && KeyOf(canon[key]) == key
    ensures !Occupied(canon, key.kind, slot) ==> canon[key].state != Ratified || canon[key].slot != slot
  {
  }

  // ---------------------------------------------------------------- claims that wait for the owner

  /**
   A claim that the compile-time rule sends to the owner, though it is well supported: it is disputed, of medium
   confidence and low risk.
   */
  predicate SentToOwner(raw: Candidate, setting: Setting) {
    && WellFormed(raw) && raw.role != Owner && raw.risk == Low && raw.confidence == Medium && raw.epistemic == Disputed
    && |raw.support| >= 5 && Distinct(raw.support) && "" !in raw.support
    && !(raw.role == Agent && SpeaksOfOperation(raw.slot, raw.statement, setting))
  }

  lemma SentToOwnerCompiles(s: State, raw: Candidate, setting: Setting)
    requires SentToOwner(raw, setting) && !HasSlot(s.history, raw.slot)
    ensures var c := Compile(s, raw);
            SameClaim(c, raw) && c.support == raw.support && c.epistemic == Disputed && c.confidence == Medium
            && !c.autoEligible && ProposalForCanon in c.outcomes && WellFormed(c)
  {
    assert Merge<string>([], [], Some("")) == [];
    assert [] + raw.support == raw.support;
    MergeOfDistinct([], raw.support);
  }

  lemma OneCandidateIsReady(c: Candidate, at: int, days: map<string, string>)
    requires c.slot != "" && c.role != Owner && c.risk == Low && c.confidence == Medium
    requires |c.support| >= 5 && Distinct(c.support) && "" !in c.support
    ensures var s := Fold(EmptySummary(c.slot), [Matured(c, Some(at))], days);
            s.latest == Some(Latest(c.statement, c.kind, c.epistemic, c.confidence, c.risk, c.role, c.rationale))
            && s.roles == [c.role] && s.slot == c.slot && SuggestedAction(s, false) == AutoCanonReady
  {
    assert [] + c.support == c.support;
    MergeOfDistinct([], c.support);
    var m := Matured(c, Some(at));
    assert [m][1..] == [];
    assert Merge<Role>([], [c.role], None) == [c.role] by { assert [c.role][1..] == [] && [] + [c.role] == [c.role]; }
  }

  /** The maturation of such a claim, of a slot not heard of before, writes no canon: it waits for the owner. */
  lemma MaturesToWait(s: State, raw: Candidate, part: string, now: int, setting: Setting)
    requires SentToOwner(raw, setting) && !HasSlot(s.history, raw.slot)
    ensures var c := Compile(s, raw);
            && Next(s, Mature([raw], [part], now), setting) == s.(history := s.history + [Matured(c, Some(now))])
            && (!Occupied(s.canon, raw.kind, raw.slot) ==> ApplyCandidate(s.canon, c, part, now, setting).value.packet)
  {
    var c := Compile(s, raw);
    SentToOwnerCompiles(s, raw, setting);
    CandidateEndsInOneWay(s.canon, c, part, now, setting);
    hide Compile, SentToOwner, ApplyCandidate, Occupied, HasSlot;
    var compiled := CompileAll(s, [raw]);
    assert compiled == [c] && [c][1..] == [] && [part][1..] == [];
    assert ApplyCompiled(s, compiled, [part], now, setting) == s by {
      assert ApplyOne(s, c, part, now, setting) == s;
      assert ApplyCompiled(s, [c][1..], [part][1..], now, setting) == s;
    }
    assert Remember(compiled, now) == [Matured(c, Some(now))];
  }

  lemma OnlyOfSlot(history: seq<Matured>, c: Candidate, now: int)
    requires !HasSlot(history, c.slot)
    ensures OfSlot(history + [Matured(c, Some(now))], c.slot) == [Matured(c, Some(now))]
    ensures HasSlot(history + [Matured(c, Some(now))], c.slot)
  {
    NoneOfSlot(history, c.slot);
    OfSlotAppend(history, Matured(c, Some(now)), c.slot);
    HasSlotAppend(history, Matured(c, Some(now)), c.slot);
  }

  /** As long as nothing else is heard of the slot, the waiting claim is ready to be promoted, and goes to canon. */
  lemma WaitingIsReady(s: State, c: Candidate, now: int, setting: Setting)
    requires c.slot != "" && c.role != Owner && c.risk == Low && c.confidence == Medium && c.epistemic == Disputed
    requires |c.support| >= 5 && Distinct(c.support) && "" !in c.support
    requires !(c.role == Agent && SpeaksOfOperation(c.slot, c.statement, setting))
    requires HasSlot(s.history, c.slot) && OfSlot(s.history, c.slot) == [Matured(c, Some(now))]
             && !ActiveCanon(s.canon, c.slot)
    ensures IsReady(s, c.slot) && !IsOperational(SummaryOf(s, c.slot), setting)
    ensures KeyFor(s, c.slot, setting) == CanonKey(c.kind, "mem_" + PromotionPart(c.slot, setting))
    ensures var p := FromSummary(SummaryOf(s, c.slot), setting);
            p.statement == c.statement && p.epistemic == Disputed && p.kind == c.kind
  {
    OneCandidateIsReady(c, now, s.days);
    hide SuggestedAction, ActiveCanon, SpeaksOfOperation, HasSlot, OfSlot, Fold;
    var summary := SummaryOf(s, c.slot);
    assert summary.roles[0] == c.role && c.role in summary.roles;
  }

  // ---------------------------------------------------------------- runs

  lemma {:induction false} RunThen(s: State, first: seq<Event>, second: seq<Event>, setting: Setting)
    ensures Run(s, first + second, setting) == Run(Run(s, first, setting), second, setting)
    decreases |first|
  {
    hide Next;
    if first == [] {
      assert first + second == second;
    } else {
      assert (first + second)[1..] == first[1..] + second;
      RunThen(Next(s, first[0], setting), first[1..], second, setting);
    }
  }

  lemma RunTwo(s: State, e: Event, f: Event, setting: Setting)
    ensures Run(s, [e], setting) == Next(s, e, setting)
    ensures Run(s, [e, f], setting) == Next(Next(s, e, setting), f, setting)
  {
    hide Next;
    assert [e][1..] == [] && [e, f][1..] == [f] && [f][1..] == [];
    assert Run(Next(s, e, setting), [f], setting) == Next(Next(s, e, setting), f, setting);
  }

  function KeyOfSlot(raw: Candidate, setting: Setting): CanonKey {
    CanonKey(raw.kind, "mem_" + PromotionPart(raw.slot, setting))
  }

  /** Nothing was heard of the slot before, and the canon has no active record for it. */
  predicate IsNewSlot(s: State, raw: Candidate) {
    !HasSlot(s.history, raw.slot) && !ActiveCanon(s.canon, raw.slot) && !Occupied(s.canon, raw.kind, raw.slot)
  }

  function Submit(raw: Candidate, part: string, now: int): Event { Mature([raw], [part], now) }

  /** The state in which only a claim of the slot waits for the owner. */
  predicate Waits(s: State, raw: Candidate, now: int, c: Candidate) {
    && HasSlot(s.history, c.slot) && OfSlot(s.history, c.slot) == [Matured(c, Some(now))]
    && c.slot == raw.slot && c.kind == raw.kind && c.statement == raw.statement && c.role == raw.role && c.risk == Low
    && c.confidence == Medium && c.epistemic == Disputed && c.support == raw.support
  }

  lemma SubmittedWaits(s: State, raw: Candidate, part: string, now: int, setting: Setting)
    requires Honest(s) && SentToOwner(raw, setting) && !HasSlot(s.history, raw.slot)
    ensures var waiting := Next(s, Submit(raw, part, now), setting);
            && Honest(waiting) && waiting == s.(history := waiting.history) && Waits(waiting, raw, now, Compile(s, raw))
  {
    MaturesToWait(s, raw, part, now, setting);
    SentToOwnerCompiles(s, raw, setting);
    NextIsHonest(s, Submit(raw, part, now), setting);
    hide Next, Compile, Honest, HasSlot, OfSlot, SentToOwner;
    OnlyOfSlot(s.history, Compile(s, raw), now);
  }

  /** A waiting claim is written to canon by the next promotion, with no answer of the owner. */
  lemma WaitingIsPromoted(s: State, raw: Candidate, c: Candidate, at: int, now: int, setting: Setting)
    requires Honest(s) && SentToOwner(raw, setting) && Waits(s, raw, at, c)
    requires !ActiveCanon(s.canon, raw.slot) && !Occupied(s.canon, raw.kind, raw.slot)
    ensures var after, key := Next(s, Promote([raw.slot], now), setting), KeyOfSlot(raw, setting);
            && Honest(after) && |after.written| == |s.written| + 1
            && var w := after.written[|s.written|];
               && after == s.(canon := s.canon[key := w.record], written := s.written + [w])
               && KeyOf(w.record) == key && w.record.state == Ratified && w.record.slot == raw.slot
               && w.record.statement == raw.statement && w.candidate.epistemic == Disputed
  {
    WaitingIsReady(s, c, at, setting);
    NextIsHonest(s, Promote([raw.slot], now), setting);
    OnePromotion(s, raw.slot, now, setting);
    hide Next, Honest, HasSlot, OfSlot, SentToOwner, IsReady, IsOperational, Occupied, ActiveCanon, SummaryOf;
  }

  /** The maturation and the promotion of a new slot, one after the other. */
  lemma SubmitAndPromote(s: State, raw: Candidate, part: string, now: int, setting: Setting) returns (r: Canon)
    requires Honest(s) && SentToOwner(raw, setting) && IsNewSlot(s, raw)
    ensures var waiting := Run(s, [Submit(raw, part, now)], setting);
            waiting.canon == s.canon && waiting.written == s.written
    ensures var after := Run(s, [Submit(raw, part, now), Promote([raw.slot], now)], setting);
            && Honest(after) && Waits(after, raw, now, Compile(s, raw)) && after.days == s.days
            && after.history == Next(s, Submit(raw, part, now), setting).history
            && after.canon == s.canon[KeyOfSlot(raw, setting) := r] && r.state == Ratified && r.slot == raw.slot
            && |after.written| == |s.written| + 1
            && after.written[|s.written|].record.statement == raw.statement
            && after.written[|s.written|].candidate.epistemic == Disputed
  {
    RunTwo(s, Submit(raw, part, now), Promote([raw.slot], now), setting);
    SubmittedWaits(s, raw, part, now, setting);
    hide Run, Next, Honest, SentToOwner, Occupied, ActiveCanon, HasSlot, OfSlot, Compile, KeyOfSlot;
    var waiting := Next(s, Submit(raw, part, now), setting);
    WaitingIsPromoted(waiting, raw, Compile(s, raw), now, now, setting);
    r := Next(waiting, Promote([raw.slot], now), setting).written[|s.written|].record;
  }

  /**
   The doubt is real: such a claim waits for the owner after the maturation, which writes no canon, and the promotion
   that follows writes it to canon without an answer.
   */
  lemma PendingReviewIsPromoted(s: State, raw: Candidate, part: string, now: int, setting: Setting)
    requires Honest(s) && SentToOwner(raw, setting) && IsNewSlot(s, raw)
    ensures ApplyCandidate(s.canon, Compile(s, raw), part, now, setting).Ok?
         && ApplyCandidate(s.canon, Compile(s, raw), part, now, setting).value.packet
    ensures var waiting := Run(s, [Submit(raw, part, now)], setting);
            waiting.canon == s.canon && waiting.written == s.written
    ensures var promoted := Run(s, [Submit(raw, part, now), Promote([raw.slot], now)], setting);
            |promoted.written| == |s.written| + 1
            && promoted.written[|s.written|].record.statement == raw.statement
            && promoted.written[|s.written|].candidate.epistemic == Disputed
  {
    SubmittedFate(s, raw, part, now, setting);
    hide *;
    var r := SubmitAndPromote(s, raw, part, now, setting);
  }

  lemma SubmittedFate(s: State, raw: Candidate, part: string, now: int, setting: Setting)
    requires SentToOwner(raw, setting) && IsNewSlot(s, raw)
    ensures ApplyCandidate(s.canon, Compile(s, raw), part, now, setting).Ok?
         && ApplyCandidate(s.canon, Compile(s, raw), part, now, setting).value.packet
  {
    SentToOwnerCompiles(s, raw, setting);
    CandidateEndsInOneWay(s.canon, Compile(s, raw), part, now, setting);
    hide ApplyCandidate, Compile, Occupied;
  }

  /** The record closed by somebody else. */
  function Retire(record: Canon, now: int): Canon {
    record.(updatedAt := now, state := Superseded, temporal := Some(CE.Close(record, now)))
  }

  /**
   A promoted slot always has one file name: when its record was retired, the next promotion of the slot rewrites the
   closed record as an active one.
   */
  lemma PromotionRevivesRetired(s: State, raw: Candidate, part: string, now: int, setting: Setting)
    requires Honest(s) && SentToOwner(raw, setting) && IsNewSlot(s, raw)
    ensures var key := KeyOfSlot(raw, setting);
            var submit, promote := Submit(raw, part, now), Promote([raw.slot], now);
            var promoted := Run(s, [submit, promote], setting);
            && key in promoted.canon && promoted.canon[key].state == Ratified
            && var retired := promoted.canon[key := Retire(promoted.canon[key], now)];
               var again := Run(s, [submit, promote] + [Others(retired, s.days), promote], setting);
               && key in again.canon && again.canon[key].state == Ratified && again.canon.Keys == retired.Keys
  {
    hide *;
    var submit, promote := Submit(raw, part, now), Promote([raw.slot], now);
    var r := SubmitAndPromote(s, raw, part, now, setting);
    var promoted := Run(s, [submit, promote], setting);
    var retired := promoted.canon[KeyOfSlot(raw, setting) := Retire(r, now)];
    RunThen(s, [submit, promote], [Others(retired, s.days), promote], setting);
    RetiredAndPromoted(s, promoted, raw, Compile(s, raw), r, now, setting);
  }

  lemma RetiredAndPromoted(s: State, promoted: State, raw: Candidate, c: Candidate, r: Canon, now: int,
                           setting: Setting)
    requires Honest(promoted) && SentToOwner(raw, setting) && IsNewSlot(s, raw) && Waits(promoted, raw, now, c)
    requires promoted.canon == s.canon[KeyOfSlot(raw, setting) := r] && promoted.days == s.days
    ensures var key := KeyOfSlot(raw, setting);
            var retired := promoted.canon[key := Retire(r, now)];
            var again := Run(promoted, [Others(retired, s.days), Promote([raw.slot], now)], setting);
            key in again.canon && again.canon[key].state == Ratified && again.canon.Keys == retired.Keys
  {
    var key, promote := KeyOfSlot(raw, setting), Promote([raw.slot], now);
    var retired := promoted.canon[key := Retire(r, now)];
    RunTwo(promoted, Others(retired, s.days), promote, setting);
    RetiredIsFree(s.canon, key, retired, raw);
    var closed := Next(promoted, Others(retired, s.days), setting);
    assert closed == promoted.(canon := retired, days := s.days);
    assert Waits(closed, raw, now, c) && Honest(closed);
    hide *;
    WaitingIsPromoted(closed, raw, c, now, now, setting);
  }

  lemma RetiredIsFree(canon: CanonStore, key: CanonKey, retired: CanonStore, raw: Candidate)
    requires !ActiveCanon(canon, raw.slot) && !Occupied(canon, raw.kind, raw.slot)
    requires key in retired && retired == canon[key := retired[key]] && retired[key].state == Superseded
    ensures !ActiveCanon(retired, raw.slot) && !Occupied(retired, raw.kind, raw.slot)
  {
  }

  /** One slot after the other: what is left of both when their safe names are equal is the record of the second. */
  lemma SharedNameLosesRecord(s: State, first: Candidate, second: Candidate, part: string, now: int, setting: Setting)
    requires Honest(s) && SentToOwner(first, setting) && SentToOwner(second, setting)
    requires IsNewSlot(s, first) && IsNewSlot(s, second)
    requires first.slot != second.slot && setting.safe(first.slot) == setting.safe(second.slot)
             && first.kind == second.kind
    ensures var key := KeyOfSlot(first, setting);
            var one := Run(s, [Submit(first, part, now), Promote([first.slot], now)], setting);
            var two := Run(one, [Submit(second, part, now), Promote([second.slot], now)], setting);
            && key in one.canon && one.canon[key].state == Ratified && one.canon[key].slot == first.slot
            && key in two.canon && two.canon[key].state == Ratified && two.canon[key].slot == second.slot
            && two.canon.Keys == one.canon.Keys
  {
    assert KeyOfSlot(first, setting) == KeyOfSlot(second, setting);
    hide *;
    var r := SubmitAndPromote(s, first, part, now, setting);
    var one := Run(s, [Submit(first, part, now), Promote([first.slot], now)], setting);
    OtherSlotStaysNew(s, first, part, now, KeyOfSlot(first, setting), r, one, second, setting);
    var r' := SubmitAndPromote(one, second, part, now, setting);
  }

  lemma OtherSlotStaysNew(s: State, first: Candidate, part: string, now: int, key: CanonKey, r: Canon, one: State,
                          second: Candidate, setting: Setting)
    requires SentToOwner(first, setting) && IsNewSlot(s, first) && IsNewSlot(s, second) && first.slot != second.slot
    requires one.history == Next(s, Submit(first, part, now), setting).history
    requires one.canon == s.canon[key := r] && r.slot == first.slot
    ensures IsNewSlot(one, second)
  {
    MaturesToWait(s, first, part, now, setting);
    SentToOwnerCompiles(s, first, setting);
    HasSlotAppend(s.history, Matured(Compile(s, first), Some(now)), second.slot);
    hide Next, Compile, SentToOwner, HasSlot;
  }

  // ---------------------------------------------------------------- two slots with one name

  /** A disputed claim of a participant that five observations support. */
  function ClaimFor(slot: string): Candidate {
    Candidate("candidate_" + slot, "statement", "fact", Disputed, slot, Participant, Medium, Low,
              ["obs_1", "obs_2", "obs_3", "obs_4", "obs_5"], {ProposalForCanon}, "rationale", false)
  }

  /** The names of the source, with any other text functions. */
  function SettingWith(normalize: string -> string, lower: string -> string, digest: string -> string, actor: string,
                       runtime: string): Setting
  {
    Setting(normalize, value => SafeSlot(value, digest), lower, actor, runtime)
  }

  const NOTHING := State(map[], [], map[], [])

  lemma NamesAreShared(digest: string -> string)
    ensures SafeSlot("home.city", digest) == SafeSlot("home_city", digest) == "home_city"
  {
    JoinedParts("home", '.', "city", digest);
    JoinedParts("home", '_', "city", digest);
    assert "home" + ['.'] + "city" == "home.city" && "home" + ['_'] + "city" == "home_city";
  }

  lemma ClaimWaits(slot: string, setting: Setting)
    requires slot != ""
    ensures SentToOwner(ClaimFor(slot), setting) && IsNewSlot(NOTHING, ClaimFor(slot)) && Honest(NOTHING)
  {
    var support := ClaimFor(slot).support;
    assert forall i :: 0 <= i < |support| ==> support[i][4] == ['1', '2', '3', '4', '5'][i];
  }

  /** The slots home.city and home_city have one name: from an empty store, promoting both loses the first record. */
  lemma DotAndUnderscoreLoseRecord(part: string, now: int, normalize: string -> string, lower: string -> string,
                                   digest: string -> string, actor: string, runtime: string)
    ensures var setting := SettingWith(normalize, lower, digest, actor, runtime);
            var first, second := ClaimFor("home.city"), ClaimFor("home_city");
            var one := Run(NOTHING, [Submit(first, part, now), Promote(["home.city"], now)], setting);
            var two := Run(one, [Submit(second, part, now), Promote(["home_city"], now)], setting);
            && one.canon.Keys == two.canon.Keys == {KeyOfSlot(first, setting)}
            && one.canon[KeyOfSlot(first, setting)].slot == "home.city"
            && two.canon[KeyOfSlot(first, setting)].slot == "home_city"
  {
    var setting := SettingWith(normalize, lower, digest, actor, runtime);
    var first, second := ClaimFor("home.city"), ClaimFor("home_city");
    NamesAreShared(digest);
    ClaimWaits("home.city", setting);
    ClaimWaits("home_city", setting);
    assert first.slot != second.slot && setting.safe(first.slot) == setting.safe(second.slot);
    assert first.slot == "home.city" && second.slot == "home_city" && first.kind == second.kind;
    assert NOTHING.canon == map[];
    hide *;
    var r := SubmitAndPromote(NOTHING, first, part, now, setting);
    SharedNameLosesRecord(NOTHING, first, second, part, now, setting);
  }
}
