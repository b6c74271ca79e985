/** What a decision leaves in the store, and that a decision called again after a crash is made exactly once. */
module OwnerRetry {
  import opened Prelude
  import opened GovernanceRecords
  import opened CanonEngine
  import opened OwnerDecisions
  import OwnerRuns
  import J = OwnerDecisionJournal

  ghost predicate EndsWithDisposition(writes: seq<Record>, proposalId: string, action: Action) {
    writes != [] && var last := writes[|writes| - 1];
    last.OfDisposition? && last.disposition.action == Some(action) && proposalId in last.disposition.inputRefs
  }

  lemma DispositionNames(texts: Texts, input: Input, proposal: Proposal, packet: Option<Packet>)
    ensures MakeDisposition(texts, input, proposal, packet).action == Some(input.action)
    ensures proposal.id in MakeDisposition(texts, input, proposal, packet).inputRefs
  {
  }

  lemma RatifyEnds(records: Records, texts: Texts, input: Input, proposal: Proposal, packet: Option<Packet>)
    requires PlanRatify(records, texts, input, proposal, packet).Ok?
    requires PlanRatify(records, texts, input, proposal, packet).value.report.status == WasApplied
    ensures EndsWithDisposition(PlanRatify(records, texts, input, proposal, packet).value.writes, proposal.id,
                                input.action)
  {
    hide MakeDisposition, ApplyProposal, CanonIn, FindTarget, SameSlotRefs, RatificationId;
    DispositionNames(texts, input, proposal, packet);
  }

  lemma OthersEnd(records: Records, texts: Texts, input: Input, proposal: Proposal, packet: Option<Packet>)
    ensures PlanSubsume(records, texts, input, proposal, packet).report.status == WasApplied ==>
              EndsWithDisposition(PlanSubsume(records, texts, input, proposal, packet).writes, proposal.id,
                                  input.action)
    ensures EndsWithDisposition(PlanKeepMaturing(texts, input, proposal, packet).writes, proposal.id, input.action)
    ensures EndsWithDisposition(PlanMoveToWiki(records, texts, input, proposal, packet).writes, proposal.id,
                                input.action)
    ensures EndsWithDisposition(PlanReject(texts, input, proposal, packet).writes, proposal.id, input.action)
  {
    hide MakeDisposition, MakePage, MakeClaim, SameSlotRefs, RatificationId, HasCanon;
    DispositionNames(texts, input, proposal, packet);
  }

  lemma PlanEndsWithDisposition(records: Records, texts: Texts, input: Input, packet: Option<Packet>)
    requires Filed(records) && PlanDecision(records, texts, input, packet).Ok?
    requires PlanDecision(records, texts, input, packet).value.report.status == WasApplied
    ensures EndsWithDisposition(PlanDecision(records, texts, input, packet).value.writes, input.proposalRef,
                                input.action)
  {
    hide PlanRatify, PlanSubsume, PlanKeepMaturing, PlanReject, PlanMoveToWiki, IsAlreadyApplied, EndsWithDisposition;
    var proposal := RequireProposal(records, input.proposalRef).value;
    if input.action == Ratify { RatifyEnds(records, texts, input, proposal, packet); }
    OthersEnd(records, texts, input, proposal, packet);
  }

  lemma ActionStays(records: Records, writes: seq<Record>, proposalId: string, action: Action)
    requires EndsWithDisposition(writes, proposalId, action)
    ensures ActionTaken(WriteRecords(records, writes), proposalId, action)
  {
    J.LastWriteWins(records, writes, |writes| - 1);
  }

  // ---------------------------------------------------------------- what an applied decision leaves

  predicate IsVerdictAction(action: Action) { action == Ratify || action == Reject }

  /** The verdict among the records of a decision, and what becomes of the proposal. */
  ghost predicate Settles(writes: seq<Record>, proposalId: string, action: Action) {
    && (IsVerdictAction(action) <==> exists w :: w in writes && VerdictOn(w, proposalId))
    && (IsVerdictAction(action) ==> forall w :: w in writes && w.OfRatification? ==> VerdictOn(w, proposalId))
    && (forall w :: w in writes && VerdictOn(w, proposalId) ==>
          w.ratification.decision == if action == Ratify then Approved else Rejected)
    && (action == Reject <==> exists w :: w in writes && w.OfProposal?)
    && (forall w :: w in writes && w.OfProposal? ==>
          w.proposal.id == proposalId && w.proposal.state == ProposalRejected)
  }

  predicate IsPlain(writes: seq<Record>) { forall w :: w in writes ==> !w.OfRatification? && !w.OfProposal? }

  lemma PlainParts(created: seq<Canon>, updated: seq<Canon>, packet: Option<Packet>, disposition: Disposition)
    ensures IsPlain(CanonWrites(created)) && IsPlain(CanonWrites(updated)) && IsPlain(PacketWrites(packet))
        && IsPlain([OfDisposition(disposition)])
    ensures IsPlain(CanonWrites(created) + CanonWrites(updated) + PacketWrites(packet) + [OfDisposition(disposition)])
  {
  }

  lemma RatifyShape(records: Records, texts: Texts, input: Input, proposal: Proposal, packet: Option<Packet>)
      returns (rest: seq<Record>)
    requires PlanRatify(records, texts, input, proposal, packet).Ok?
    requires PlanRatify(records, texts, input, proposal, packet).value.report.status == WasApplied
    ensures IsPlain(rest)
    ensures PlanRatify(records, texts, input, proposal, packet).value.writes
         == [OfRatification(MakeRatification(texts, input, proposal, Approved))] + rest
  {
    hide MakeDisposition, ApplyProposal, CanonIn, FindTarget, SameSlotRefs, RatificationId, CanonWrites, PacketWrites;
    var ratification := MakeRatification(texts, input, proposal, Approved);
    var applied := ApplyProposal(proposal, ratification, FindTarget(CanonIn(records), proposal.target),
                                 "mem_" + texts.part(proposal.id), input.now).value;
    var created := if applied.created.Some? then [applied.created.value] else [];
    var update := UpdatedPacket(packet, input.now, AppliedPacket);
    var disposition := MakeDisposition(texts, input, proposal, packet).(
      ratificationRef := Some(ratification.id), proposalAfter := Some(proposal.state), packetAfter := StatusOf(update));
    rest := CanonWrites(created) + CanonWrites(applied.updated) + PacketWrites(update) + [OfDisposition(disposition)];
    PlainParts(created, applied.updated, update, disposition);
    hide IsPlain;
    assert PlanRatify(records, texts, input, proposal, packet).value.writes == [OfRatification(ratification)] + rest;
  }

  lemma RatifySettles(records: Records, texts: Texts, input: Input, proposal: Proposal, packet: Option<Packet>)
    requires PlanRatify(records, texts, input, proposal, packet).Ok? && input.action == Ratify
    requires PlanRatify(records, texts, input, proposal, packet).value.report.status == WasApplied
    ensures Settles(PlanRatify(records, texts, input, proposal, packet).value.writes, proposal.id, Ratify)
  {
    var rest := RatifyShape(records, texts, input, proposal, packet);
    hide PlanRatify, RatificationId;
    var first := OfRatification(MakeRatification(texts, input, proposal, Approved));
    assert VerdictOn(first, proposal.id) && first in [first] + rest;
  }

  lemma RejectSettles(texts: Texts, input: Input, proposal: Proposal, packet: Option<Packet>)
    requires input.action == Reject
    ensures Settles(PlanReject(texts, input, proposal, packet).writes, proposal.id, Reject)
  {
    hide MakeDisposition, RatificationId;
    var writes := PlanReject(texts, input, proposal, packet).writes;
    assert writes[0].OfProposal? && VerdictOn(writes[1], proposal.id);
  }

  lemma SubsumeSettles(records: Records, texts: Texts, input: Input, proposal: Proposal, packet: Option<Packet>)
    requires input.action == Subsume
    ensures Settles(PlanSubsume(records, texts, input, proposal, packet).writes, proposal.id, Subsume)
  {
    hide MakeDisposition, SameSlotRefs, HasCanon;
  }

  lemma KeepMaturingSettles(texts: Texts, input: Input, proposal: Proposal, packet: Option<Packet>)
    requires input.action == KeepMaturing
    ensures Settles(PlanKeepMaturing(texts, input, proposal, packet).writes, proposal.id, KeepMaturing)
  {
    hide MakeDisposition, RatificationId;
  }

  lemma WikiSettles(records: Records, texts: Texts, input: Input, proposal: Proposal, packet: Option<Packet>)
    requires input.action == MoveToWiki
    ensures Settles(PlanMoveToWiki(records, texts, input, proposal, packet).writes, proposal.id, MoveToWiki)
  {
    hide MakeDisposition, MakePage, MakeClaim;
  }

  lemma PlanSettles(records: Records, texts: Texts, input: Input, packet: Option<Packet>)
    requires Filed(records) && PlanDecision(records, texts, input, packet).Ok?
    requires PlanDecision(records, texts, input, packet).value.report.status == WasApplied
    ensures Settles(PlanDecision(records, texts, input, packet).value.writes, input.proposalRef, input.action)
    ensures RequireProposal(records, input.proposalRef).Ok? && !Decided(records, input.proposalRef)
  {
    hide PlanRatify, PlanSubsume, PlanKeepMaturing, PlanReject, PlanMoveToWiki, Settles, ActionTaken, Decided;
    var proposal := RequireProposal(records, input.proposalRef).value;
    match input.action {
      case Ratify => RatifySettles(records, texts, input, proposal, packet);
      case Reject => RejectSettles(texts, input, proposal, packet);
      case Subsume => SubsumeSettles(records, texts, input, proposal, packet);
      case KeepMaturing => KeepMaturingSettles(texts, input, proposal, packet);
      case MoveToWiki => WikiSettles(records, texts, input, proposal, packet);
    }
  }

  /**
   An applied decision leaves a verdict exactly when it ratifies or rejects, approving exactly when it ratifies; the
   proposal stays open to other actions exactly when it was not rejected; and the action is on record.
   */
  lemma AppliedDecisionSettles(records: Records, texts: Texts, input: Input, packet: Option<Packet>)
    requires Filed(records) && PlanDecision(records, texts, input, packet).Ok?
    requires PlanDecision(records, texts, input, packet).value.report.status == WasApplied
    ensures var after := WriteRecords(records, PlanDecision(records, texts, input, packet).value.writes);
            && (Decided(after, input.proposalRef) <==> IsVerdictAction(input.action))
            && (forall k :: k in after && VerdictOn(after[k], input.proposalRef) ==>
                  after[k].ratification.decision == if input.action == Ratify then Approved else Rejected)
            && (RequireProposal(after, input.proposalRef).Ok? <==> input.action != Reject)
            && ActionTaken(after, input.proposalRef, input.action)
  {
    PlanSettles(records, texts, input, packet);
    PlanEndsWithDisposition(records, texts, input, packet);
    var writes := PlanDecision(records, texts, input, packet).value.writes;
    ActionStays(records, writes, input.proposalRef, input.action);
    hide PlanDecision, ActionTaken, EndsWithDisposition, IsVerdictAction;
    SettledStore(records, writes, input.proposalRef, input.action);
  }

  lemma SettledStore(records: Records, writes: seq<Record>, p: string, action: Action)
    requires Filed(records) && Settles(writes, p, action) && RequireProposal(records, p).Ok? && !Decided(records, p)
    ensures var after := WriteRecords(records, writes);
            && (Decided(after, p) <==> IsVerdictAction(action))
            && (forall k :: k in after && VerdictOn(after[k], p) ==>
                  after[k].ratification.decision == if action == Ratify then Approved else Rejected)
            && (RequireProposal(after, p).Ok? <==> action != Reject)
  {
    hide WriteRecords;
    var after := WriteRecords(records, writes);
    forall k | k in after
      ensures (k in records && after[k] == records[k]) || (after[k] in writes && FileOf(after[k]) == k)
    {
      OwnerRuns.WrittenOrKept(records, writes, k);
    }
    assert forall k :: k in records ==> !VerdictOn(records[k], p);
    if w :| w in writes && VerdictOn(w, p) {
      OwnerRuns.WrittenOrKept(records, writes, FileOf(w));
      VerdictAtFile(after, writes, w, p);
    }
    OwnerRuns.WrittenOrKept(records, writes, ProposalKey(p));
    if w :| w in writes && w.OfProposal? { assert FileOf(w) == ProposalKey(p); }
  }

  /** A file that holds a record of the decision at the place of a verdict holds a ratification of the decision. */
  lemma VerdictAtFile(after: Records, writes: seq<Record>, w: Record, p: string)
    requires forall x :: x in writes && x.OfRatification? ==> VerdictOn(x, p)
    requires w in writes && VerdictOn(w, p) && FileOf(w) in after && after[FileOf(w)] in writes
        && FileOf(after[FileOf(w)]) == FileOf(w)
    ensures VerdictOn(after[FileOf(w)], p)
  {
  }

  // ---------------------------------------------------------------- the same decision again

  /** A store in which the action was taken on the proposal is not changed by the same decision. */
  lemma TakenIsFinal(records: Records, texts: Texts, choice: OwnerRuns.Choice)
    requires Filed(records) && ActionTaken(records, choice.input.proposalRef, choice.input.action)
    ensures OwnerRuns.Apply(records, texts, choice) == records
  {
    hide PlanRatify, PlanSubsume, PlanKeepMaturing, PlanReject, PlanMoveToWiki, ActionTaken;
  }

  /**
   After any crashes the recovered store already holds the decision, and making it again changes nothing, or it
   holds nothing of it, and the call starts from the store of the other processes.
   */
  lemma DecidedExactlyOnce(run: seq<J.State>, d: J.Decision, i: nat, texts: Texts, input: Input, packet: Option<Packet>,
                           again: OwnerRuns.Choice)
    requires J.Run(run, d) && Filed(run[0].others) && i < |run| && Filed(run[i].others)
    requires var plan := PlanDecision(run[0].others, texts, input, packet);
             plan.Ok? && plan.value.report.status == WasApplied
                 && d.proposalRef == input.proposalRef && d.action == input.action && d.records == plan.value.writes
    requires again.input.proposalRef == input.proposalRef && again.input.action == input.action
    requires run[i].phase == J.Recovered
    ensures exists stored :: J.Stores(run[i].files, stored) &&
              OwnerRuns.Apply(stored, texts, again) ==
                if run[i].committed then WriteRecords(run[i].others, d.records)
                else OwnerRuns.Apply(run[i].others, texts, again)
  {
    hide PlanDecision, OwnerRuns.Apply, J.Run, J.Stores, WriteRecords, EndsWithDisposition, ActionTaken;
    J.CrashAtomicity(run, d, i);
    var stored := J.Outcome(run[i], d);
    if run[i].committed {
      PlanEndsWithDisposition(run[0].others, texts, input, packet);
      ActionStays(run[i].others, d.records, input.proposalRef, input.action);
      FiledAfter(run[i].others, d.records);
      TakenIsFinal(stored, texts, again);
    }
    assert J.Stores(run[i].files, stored);
  }

  lemma FiledAfter(records: Records, writes: seq<Record>)
    requires Filed(records)
    ensures Filed(WriteRecords(records, writes))
  {
    forall k | k in WriteRecords(records, writes) ensures FileOf(WriteRecords(records, writes)[k]) == k {
      OwnerRuns.WrittenOrKept(records, writes, k);
    }
  }

  // ---------------------------------------------------------------- another action in between

  /** Where the records of two decisions on one proposal end up. */
  lemma FromBoth(records: Records, first: seq<Record>, second: seq<Record>, k: Key)
    ensures var after := WriteRecords(WriteRecords(records, first), second);
            k in after ==>
              || (after[k] in second && FileOf(after[k]) == k)
              || (after[k] in first && FileOf(after[k]) == k)
              || (k in records && after[k] == records[k])
    ensures (exists w :: w in second && FileOf(w) == k) ==>
              k in WriteRecords(WriteRecords(records, first), second)
              && WriteRecords(WriteRecords(records, first), second)[k] in second
    ensures (exists w :: w in first && FileOf(w) == k) && (forall w :: w in second ==> FileOf(w) != k) ==>
              k in WriteRecords(WriteRecords(records, first), second)
              && WriteRecords(WriteRecords(records, first), second)[k] in first
  {
    OwnerRuns.WrittenOrKept(records, first, k);
    OwnerRuns.WrittenOrKept(WriteRecords(records, first), second, k);
  }

  lemma VerdictsOfBoth(records: Records, texts: Texts, first: seq<Record>, a: Action, second: seq<Record>, b: Action,
                       p: string)
    requires Filed(records) && OwnerRuns.OneVerdict(records) && !Decided(records, p) && a != b
    requires OwnerRuns.WritesFor(first, texts, p, a) && OwnerRuns.WritesFor(second, texts, p, b)
    requires Settles(first, p, a) && Settles(second, p, b)
    ensures OwnerRuns.OneVerdict(WriteRecords(WriteRecords(records, first), second)) <==>
              !(IsVerdictAction(a) && IsVerdictAction(b))
  {
    hide WriteRecords, RatificationId;
    var after := WriteRecords(WriteRecords(records, first), second);
    var keyA, keyB := RatificationKey(RatificationId(texts, p, a)), RatificationKey(RatificationId(texts, p, b));
    if keyA == keyB { OwnerRuns.RatificationIdIsInjective(texts, p, a, p, b); }
    forall k | k in after
      ensures || (after[k] in second && FileOf(after[k]) == k) || (after[k] in first && FileOf(after[k]) == k)
              || (k in records && after[k] == records[k])
    {
      FromBoth(records, first, second, k);
    }
    assert forall k :: k in records ==> !VerdictOn(records[k], p);
    if IsVerdictAction(a) && IsVerdictAction(b) {
      var v, w :| v in first && VerdictOn(v, p) && w in second && VerdictOn(w, p);
      assert FileOf(v) == keyA && FileOf(w) == keyB;
      FromBoth(records, first, second, keyA);
      FromBoth(records, first, second, keyB);
      assert VerdictOn(after[keyB], p);
      assert VerdictOn(after[keyA], p);
    } else {
      forall j, k, q | j in after && k in after && VerdictOn(after[j], q) && VerdictOn(after[k], q) ensures j == k {
        assert q == p ==> j in {keyA, keyB} && k in {keyA, keyB};
      }
    }
  }

  /**
   A decision whose records are written after those of another action on the same proposal, although it was planned
   before them, leaves more than one verdict exactly when both are verdicts.
   */
  lemma StalePlanDoublesVerdict(records: Records, texts: Texts, early: OwnerRuns.Choice, late: OwnerRuns.Choice)
    requires Filed(records) && OwnerRuns.OneVerdict(records)
    requires OwnerRuns.IsWritten(records, texts, early) && OwnerRuns.IsWritten(records, texts, late)
    requires early.input.proposalRef == late.input.proposalRef && early.input.action != late.input.action
    ensures var plan := PlanDecision(records, texts, early.input, early.packet);
            var other := PlanDecision(records, texts, late.input, late.packet);
            OwnerRuns.OneVerdict(WriteRecords(WriteRecords(records, other.value.writes), plan.value.writes)) <==>
            !(IsVerdictAction(early.input.action) && IsVerdictAction(late.input.action))
  {
    PlanSettles(records, texts, early.input, early.packet);
    PlanSettles(records, texts, late.input, late.packet);
    OwnerRuns.PlanWritesFor(records, texts, early.input, early.packet);
    OwnerRuns.PlanWritesFor(records, texts, late.input, late.packet);
    hide PlanDecision, Settles, Decided, WriteRecords, OwnerRuns.OneVerdict, IsVerdictAction, OwnerRuns.WritesFor;
    var plan, other := PlanDecision(records, texts, early.input, early.packet),
                       PlanDecision(records, texts, late.input, late.packet);
    VerdictsOfBoth(records, texts, other.value.writes, late.input.action, plan.value.writes, early.input.action,
                   early.input.proposalRef);
  }

  // ---------------------------------------------------------------- a journal that is pending meanwhile

  /** The files after another process has written whole records. */
  function PutAll(files: J.Files, writes: seq<Record>): J.Files
    decreases |writes|
  {
    if writes == [] then files
    else PutAll(files[J.RecordFile(FileOf(writes[0])) := J.RecordText(writes[0])], writes[1..])
  }

  lemma {:induction false} PutAllStores(files: J.Files, records: Records, writes: seq<Record>, k: Key)
    requires J.Holds(files, k, records)
    ensures J.Holds(PutAll(files, writes), k, WriteRecords(records, writes))
    decreases |writes|
  {
    if writes != [] {
      PutAllStores(files[J.RecordFile(FileOf(writes[0])) := J.RecordText(writes[0])],
                   records[FileOf(writes[0]) := writes[0]],
                   writes[1..], k);
    }
  }

  lemma {:induction false} PutAllElsewhere(files: J.Files, writes: seq<Record>, n: J.Name)
    requires forall w :: w in writes ==> J.RecordFile(FileOf(w)) != n
    ensures J.SameAt(files, PutAll(files, writes), n)
    decreases |writes|
  {
    if writes != [] {
      assert writes[0] in writes;
      PutAllElsewhere(files[J.RecordFile(FileOf(writes[0])) := J.RecordText(writes[0])], writes[1..], n);
    }
  }

  /** The process dies when its journal is in place and no record has been written. */
  lemma CommitAndDie(start: J.State, d: J.Decision) returns (run: seq<J.State>)
    requires J.Start(start, d)
    ensures J.Run(run, d) && run[0] == start
    ensures run[|run| - 1] == start.(files := start.files[d.JournalName() := d.Text()] - {J.OwnTemp(d.JournalName())},
                                     phase := J.Down, todo := [], committed := true)
  {
    var journal, temp := d.JournalName(), J.OwnTemp(d.JournalName());
    var write := J.AtomicWrite(journal, d.Text());
    var plan := J.WritePlan(d);
    run := [start];
    var s := start;
    for n := 0 to 4
      invariant J.Run(run, d) && run[0] == start && run[|run| - 1] == s
      invariant s == start.(files := J.Exec(start.files, write[..n]), todo := plan[n..], committed := n == 4)
    {
      assert plan[n] == write[n] && plan[n..][1..] == plan[n + 1..];
      J.NextIsStep(s, d);
      J.RunGrows(run, J.NextOp(s, d), d);
      assert write[..n + 1] == write[..n] + [write[n]];
      J.ExecConcat(start.files, write[..n], [write[n]]);
      assert J.Exec(J.Exec(start.files, write[..n]), [write[n]]) == J.Do(J.Exec(start.files, write[..n]), write[n]) by {
        assert [write[n]][1..] == [];
      }
      s := J.NextOp(s, d);
      run := run + [s];
    }
    WrittenWhole(start.files, journal, d.Text());
    assert write[..4] == write;
    var down := s.(phase := J.Down, todo := []);
    assert J.CrashStep(s, down);
    J.RunGrows(run, down, d);
    run := run + [down];
  }

  lemma WrittenWhole(files: J.Files, target: J.Name, content: J.Content)
    requires !target.OwnTemp?
    ensures J.Exec(files, J.AtomicWrite(target, content)) == files[target := content] - {J.OwnTemp(target)}
  {
    var temp, ops := J.OwnTemp(target), J.AtomicWrite(target, content);
    var open, torn, full := files[temp := J.Blank], files[temp := J.Torn], files[temp := content];
    assert J.Exec(files, ops) == J.Exec(open, ops[1..]);
    assert open[temp := J.Torn] == torn && torn[temp := content] == full;
    assert J.Exec(open, ops[1..]) == J.Exec(torn, ops[2..]) by { assert ops[1..][1..] == ops[2..]; }
    assert J.Exec(torn, ops[2..]) == J.Exec(full, ops[3..]) by { assert ops[2..][1..] == ops[3..]; }
    var last := J.Do(full, ops[3]);
    assert J.Exec(full, ops[3..]) == last by { assert ops[3..][1..] == []; }
    assert last == files[target := content] - {temp};
  }

  /**
   The journal of the first decision is in place when the process dies; the other decision is made and written; the
   recovery of the first then leaves the records of both, the first over the other.
   */
  lemma PendingJournalIsReplayed(start: J.State, d: J.Decision, other: seq<Record>) returns (run: seq<J.State>)
    requires J.Start(start, d) && Filed(start.others) && forall r :: r in d.records ==> d.valid(r)
    ensures J.Run(run, d) && run[0] == start && run[|run| - 1].phase == J.Recovered
    ensures run[|run| - 1].others == WriteRecords(start.others, other)
    ensures J.Stores(run[|run| - 1].files, WriteRecords(WriteRecords(start.others, other), d.records))
  {
    run := CommitAndDie(start, d);
    var down := run[|run| - 1];
    var meanwhile := down.(files := PutAll(down.files, other), others := WriteRecords(start.others, other));
    OtherWrites(start, down, meanwhile, d, other);
    J.RunGrows(run, meanwhile, d);
    run := run + [meanwhile];
    hide J.Run, J.Start, PutAll, WriteRecords, J.Stores;
    run := J.NextCallCompletes(run, d);
    J.CrashAtomicity(run, d, |run| - 1);
  }

  lemma OtherWrites(start: J.State, down: J.State, t: J.State, d: J.Decision, other: seq<Record>)
    requires J.Start(start, d) && Filed(start.others)
    requires down == start.(files := start.files[d.JournalName() := d.Text()] - {J.OwnTemp(d.JournalName())},
                            phase := J.Down, todo := [], committed := true)
    requires t == down.(files := PutAll(down.files, other), others := WriteRecords(start.others, other))
    ensures J.Step(down, t, d)
  {
    FiledAfter(start.others, other);
    forall n: J.Name | !n.RecordFile? ensures J.SameAt(down.files, t.files, n) {
      PutAllElsewhere(down.files, other, n);
    }
    forall k ensures J.IsWhole(t, k) && J.Holds(t.files, k, t.others) {
      assert J.Holds(start.files, k, start.others);
      PutAllStores(down.files, start.others, other, k);
    }
    assert J.Interrupted(down, d);
    hide J.IsWhole, J.Start, PutAll, WriteRecords;
    forall k ensures if d.Writes(k) then J.Untouched(down, t, k) || (J.Interrupted(down, d) && J.IsWhole(t, k))
                     else J.Holds(t.files, k, t.others)
    {
      assert J.IsWhole(t, k);
    }
    assert J.OtherStep(down, t, d);
  }
}
