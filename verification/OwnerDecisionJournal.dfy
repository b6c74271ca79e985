/**
 The write-ahead journal of an owner decision (packages/core/src/owner-decisions.ts) over atomic file writes
 (packages/core/src/store/atomic-write.ts), with a crash after any file operation.
 */
module OwnerDecisionJournal {
  import opened Prelude
  import opened OwnerDecisions

  // ---------------------------------------------------------------- files

  /** `OwnTemp` names the temporary files of this decision; their random names are used by nobody else. */
  datatype Name = RecordFile(key: Key) | JournalFile(proposalRef: string,
                                                     action: Action) | OwnTemp(target: Name) | OtherFile(path: string)

  /** Blank is an empty file; Torn is any text cut short. */
  datatype Content = Blank | Torn | RecordText(record: Record) | JournalText(journal: Journal) | OtherText(text: string)

  datatype Journal = Journal(version: int, proposalRef: string, action: Action, records: seq<Record>)

  type Files = map<Name, Content>

  /** `Check` is the validation of a record, which touches no file. */
  datatype Op = Open(name: Name) | WriteSome(name: Name) | WriteAll(name: Name, content: Content)
              | Rename(from: Name, to: Name) | Remove(name: Name) | Check(record: Record)

  function Do(files: Files, op: Op): Files {
    match op
    case Open(name) => files[name := Blank]
    case WriteSome(name) => files[name := Torn]
    case WriteAll(name, content) => files[name := content]
    case Rename(from, to) => if from in files then files[to := files[from]] - {from} else files
    case Remove(name) => files - {name}
    case Check(_) => files
  }

  function Exec(files: Files, ops: seq<Op>): Files
    decreases |ops|
  {
    if ops == [] then files else Exec(Do(files, ops[0]), ops[1..])
  }

  /** `atomicWriteText`: fill a temporary file, then rename it over the target. */
  function AtomicWrite(target: Name, content: Content): seq<Op> {
    [Open(OwnTemp(target)), WriteSome(OwnTemp(target)), WriteAll(OwnTemp(target), content),
      Rename(OwnTemp(target), target)]
  }

  /** `writeCoreRecord`: the record is validated before its file is touched. */
  function WriteRecord(record: Record): seq<Op> {
    [Check(record)] + AtomicWrite(RecordFile(FileOf(record)), RecordText(record))
  }

  function WriteAllRecords(records: seq<Record>): seq<Op> {
    if records == [] then [] else WriteRecord(records[0]) + WriteAllRecords(records[1..])
  }

  /** `valid` is what the validator accepts. */
  datatype Decision = Decision(proposalRef: string, action: Action, records: seq<Record>, valid: Record -> bool) {
    function JournalName(): Name { JournalFile(proposalRef, action) }
    function Text(): Content { JournalText(Journal(1, proposalRef, action, records)) }
    predicate Writes(k: Key) { exists r :: r in records && FileOf(r) == k }

    /** The files that nobody else changes while the process of the decision is at work. */
    predicate Owns(name: Name) {
      match name
      case RecordFile(k) => Writes(k)
      case OwnTemp(_) => true
      case _ => name == JournalName()
    }
  }

  /** The operations of `writeOwnerDecisionCoreRecords`. */
  function WritePlan(d: Decision): seq<Op> {
    AtomicWrite(d.JournalName(), d.Text()) + (WriteAllRecords(d.records) + [Remove(d.JournalName())])
  }

  /** What `recoverOwnerDecisionJournal` does with the text it reads; nothing when there is no text or it is empty. */
  function RecoveryPlan(files: Files, proposalRef: string, action: Action): Result<seq<Op>> {
    var name := JournalFile(proposalRef, action);
    if name !in files || files[name] == Blank then Ok([])
    else match files[name]
      case JournalText(j) =>
        if j.version == 1 && j.proposalRef == proposalRef && j.action == action then
          Ok(WriteAllRecords(j.records) + [Remove(name)])
        else Thrown("owner decision recovery journal is malformed")
      case _ => Thrown("owner decision recovery journal is malformed")
  }

  // ---------------------------------------------------------------- runs with crashes

  datatype Phase = Writing | Down | Recovering | Recovered | Finished | Malformed

  /**
   `others` is the store as it would be without this decision. `committed` says that the journal has been
   renamed into place.
   */
  datatype State = State(files: Files, others: Records, phase: Phase, todo: seq<Op>, committed: bool)

  ghost predicate Holds(files: Files, k: Key, records: Records) {
    (RecordFile(k) in files <==> k in records) && (k in records ==> files[RecordFile(k)] == RecordText(records[k]))
  }

  /** The record files hold exactly these records. */
  ghost predicate Stores(files: Files, records: Records) { forall k :: Holds(files, k, records) }

  ghost predicate Start(s: State, d: Decision) {
    && s.phase == Writing && s.todo == WritePlan(d) && !s.committed
    && d.JournalName() !in s.files && Stores(s.files, s.others)
  }

  /** The validator throws. */
  predicate Refused(op: Op, valid: Record -> bool) { op.Check? && !valid(op.record) }

  ghost predicate OpStep(s: State, t: State, d: Decision) {
    && (s.phase == Writing || s.phase == Recovering) && s.todo != [] && !Refused(s.todo[0], d.valid)
    && t == s.(files := Do(s.files, s.todo[0]), todo := s.todo[1..],
               committed := s.committed || s.todo[0] == Rename(OwnTemp(d.JournalName()), d.JournalName()))
  }

  ghost predicate EndStep(s: State, t: State) {
    && (s.phase == Writing || s.phase == Recovering) && s.todo == []
    && t == s.(phase := if s.phase == Writing then Finished else Recovered)
  }

  /** The process dies or an operation throws; a throwing rename may take its temporary file with it. */
  ghost predicate CrashStep(s: State, t: State) {
    && (s.phase == Writing || s.phase == Recovering)
    && t == s.(files := t.files, phase := Down, todo := [])
    && SameBut(s.files, t.files, (n: Name) => n.OwnTemp?)
  }

  ghost predicate SameBut(files: Files, after: Files, free: Name -> bool) {
    forall n :: !free(n) ==> SameAt(files, after, n)
  }

  predicate SameAt(files: Files, after: Files, n: Name) {
    (n in after <==> n in files) && (n in files ==> after[n] == files[n])
  }

  /** The next call for the same proposal and action begins with the recovery. */
  ghost predicate RestartStep(s: State, t: State, d: Decision) {
    && s.phase == Down
    && var plan := RecoveryPlan(s.files, d.proposalRef, d.action);
       t == if plan.Ok? then s.(phase := Recovering, todo := plan.value) else s.(phase := Malformed)
  }

  /** The process is down, and what it has to write is still in the journal, or never got there. */
  predicate Interrupted(s: State, d: Decision) { s.phase == Down && (s.committed ==> d.JournalName() in s.files) }

  /**
   Other processes change files the decision does not own, and change records whole; while the decision is interrupted
   they may write over its records as well.
   */
  ghost predicate OtherStep(s: State, t: State, d: Decision) {
    && t == s.(files := t.files, others := t.others)
    && SameBut(s.files, t.files, (n: Name) => !d.Owns(n) || n.RecordFile?)
    && forall k ::
         if d.Writes(k) then Untouched(s, t, k) || (Interrupted(s, d) && IsWhole(t, k)) else Holds(t.files, k, t.others)
  }

  ghost predicate Untouched(s: State, t: State, k: Key) {
    SameAt(s.files, t.files, RecordFile(k)) && SameRecord(s.others, t.others, k)
  }

  ghost predicate IsWhole(t: State, k: Key) {
    Holds(t.files, k, t.others) && (k in t.others ==> FileOf(t.others[k]) == k)
  }

  predicate SameRecord(records: Records, after: Records, k: Key) {
    (k in after <==> k in records) && (k in records ==> after[k] == records[k])
  }

  ghost predicate Step(s: State, t: State, d: Decision) {
    OpStep(s, t, d) || EndStep(s, t) || CrashStep(s, t) || RestartStep(s, t, d) || OtherStep(s, t, d)
  }

  ghost predicate Run(run: seq<State>, d: Decision) {
    && run != [] && Start(run[0], d)
    && forall i :: 0 < i < |run| ==> Step(run[i - 1], run[i], d)
  }

  // ---------------------------------------------------------------- the invariant

  /** The file of a record the decision writes is never torn or misfiled. */
  ghost predicate Whole(files: Files, d: Decision) {
    forall k :: d.Writes(k) && RecordFile(k) in files ==>
      files[RecordFile(k)].RecordText? && FileOf(files[RecordFile(k)].record) == k
  }

  ghost predicate HoldsOwned(files: Files, d: Decision, records: Records) {
    forall k :: d.Writes(k) ==> Holds(files, k, records)
  }

  ghost predicate Good(files: Files, others: Records, committed: bool, d: Decision) {
    && Whole(files, d)
    && if !committed then d.JournalName() !in files && HoldsOwned(files, d, others)
       else if d.JournalName() in files then files[d.JournalName()] == d.Text()
       else HoldsOwned(files, d, WriteRecords(others, d.records))
  }

  predicate Touches(op: Op, name: Name) {
    match op
    case Rename(from, to) => from == name || to == name
    case Check(_) => false
    case _ => op.name == name
  }

  ghost predicate OwnOps(ops: seq<Op>, d: Decision) { forall op, n :: op in ops && Touches(op, n) ==> d.Owns(n) }

  /** Every state on the way through the remaining operations is good, and the journal is gone at the end. */
  ghost predicate Safe(files: Files, others: Records, committed: bool, ops: seq<Op>, d: Decision)
    decreases |ops|
  {
    && Good(files, others, committed, d)
    && if ops == [] then d.JournalName() !in files
       else Safe(Do(files, ops[0]), others,
                 committed || ops[0] == Rename(OwnTemp(d.JournalName()), d.JournalName()), ops[1..], d)
  }

  ghost predicate Inv(s: State, d: Decision) {
    && (forall k :: !d.Writes(k) ==> Holds(s.files, k, s.others))
    && OwnOps(s.todo, d)
    && match s.phase
       case Writing =>
         && Safe(s.files, s.others, s.committed, s.todo, d)
         && (s.committed || Rename(OwnTemp(d.JournalName()), d.JournalName()) in s.todo)
       case Recovering => Safe(s.files, s.others, s.committed, s.todo, d)
       case Down => Good(s.files, s.others, s.committed, d)
       case Recovered => Good(s.files, s.others, s.committed, d) && d.JournalName() !in s.files
       case Finished => s.committed && Good(s.files, s.others, s.committed, d) && d.JournalName() !in s.files
       case Malformed => false
  }

  // ---------------------------------------------------------------- frames

  /** Operations on owned files do the same to two stores that agree on them. */
  lemma DoFrame(files: Files, after: Files, op: Op, d: Decision)
    requires forall n :: d.Owns(n) ==> SameAt(files, after, n)
    requires forall n :: Touches(op, n) ==> d.Owns(n)
    ensures forall n :: d.Owns(n) ==> SameAt(Do(files, op), Do(after, op), n)
  {
    if op.Rename? { assert Touches(op, op.from) && Touches(op, op.to); }
    else if !op.Check? { assert Touches(op, op.name); }
  }

  lemma GoodFrame(files: Files, after: Files, others: Records, others': Records, committed: bool, d: Decision)
    requires forall n :: d.Owns(n) ==> SameAt(files, after, n)
    requires forall k :: d.Writes(k) ==> SameRecord(others, others', k)
    requires Good(files, others, committed, d)
    ensures Good(after, others', committed, d)
  {
    assert SameAt(files, after, d.JournalName());
    forall k | d.Writes(k)
      ensures SameAt(files, after, RecordFile(k))
      ensures SameRecord(WriteRecords(others, d.records), WriteRecords(others', d.records), k)
    {
      WritesAgree(others, others', d.records, k);
    }
  }

  lemma {:induction false} WritesAgree(records: Records, records': Records, writes: seq<Record>, k: Key)
    requires SameRecord(records, records', k)
    ensures SameRecord(WriteRecords(records, writes), WriteRecords(records', writes), k)
    decreases |writes|
  {
    if writes != [] {
      WritesAgree(records[FileOf(writes[0]) := writes[0]], records'[FileOf(writes[0]) := writes[0]], writes[1..], k);
    }
  }

  lemma {:induction false} SafeFrame(files: Files, after: Files, others: Records, others': Records, committed: bool,
                                     ops: seq<Op>, d: Decision)
    requires forall n :: d.Owns(n) ==> SameAt(files, after, n)
    requires forall k :: d.Writes(k) ==> SameRecord(others, others', k)
    requires OwnOps(ops, d) && Safe(files, others, committed, ops, d)
    ensures Safe(after, others', committed, ops, d)
    decreases |ops|
  {
    hide Good;
    GoodFrame(files, after, others, others', committed, d);
    assert SameAt(files, after, d.JournalName());
    if ops != [] {
      assert ops[0] in ops;
      DoFrame(files, after, ops[0], d);
      SafeFrame(Do(files, ops[0]), Do(after, ops[0]), others, others',
                committed || ops[0] == Rename(OwnTemp(d.JournalName()), d.JournalName()), ops[1..], d);
    }
  }

  // ---------------------------------------------------------------- the plans are safe

  /** Records still to be written, or already holding their final content. */
  ghost predicate Remaining(files: Files, others: Records, rest: seq<Record>, d: Decision) {
    forall k :: d.Writes(k) && (forall r :: r in rest ==> FileOf(r) != k) ==>
      Holds(files, k, WriteRecords(others, d.records))
  }

  lemma {:induction false} LastWriteWins(records: Records, writes: seq<Record>, i: nat)
    requires i < |writes| && forall j :: i < j < |writes| ==> FileOf(writes[j]) != FileOf(writes[i])
    ensures FileOf(writes[i]) in WriteRecords(records, writes)
    ensures WriteRecords(records, writes)[FileOf(writes[i])] == writes[i]
    decreases |writes|
  {
    var next := records[FileOf(writes[0]) := writes[0]];
    if i > 0 {
      LastWriteWins(next, writes[1..], i - 1);
    } else {
      NotWritten(next, writes[1..], FileOf(writes[0]));
    }
  }

  lemma {:induction false} NotWritten(records: Records, writes: seq<Record>, k: Key)
    requires forall r :: r in writes ==> FileOf(r) != k
    ensures SameRecord(records, WriteRecords(records, writes), k)
    decreases |writes|
  {
    if writes != [] {
      assert writes[0] in writes;
      NotWritten(records[FileOf(writes[0]) := writes[0]], writes[1..], k);
    }
  }

  /** From any state with the journal in place, writing the rest of the records and removing it is safe. */
  lemma {:induction false} ReplayIsSafe(files: Files, others: Records, done: seq<Record>, rest: seq<Record>,
                                        d: Decision)
    requires d.records == done + rest
    requires Good(files, others, true, d) && d.JournalName() in files && Remaining(files, others, rest, d)
    ensures Safe(files, others, true, WriteAllRecords(rest) + [Remove(d.JournalName())], d)
    decreases |rest|
  {
    var journal := Remove(d.JournalName());
    if rest == [] {
      var after := Do(files, journal);
      assert Good(after, others, true, d);
      assert [journal][1..] == [];
      assert Safe(after, others, true, [], d);
      assert WriteAllRecords(rest) + [journal] == [journal];
    } else {
      var r := rest[0];
      assert d.records[|done|] == r;
      assert d.Writes(FileOf(r));
      var after := files[RecordFile(FileOf(r)) := RecordText(r)] - {OwnTemp(RecordFile(FileOf(r)))};
      forall k | d.Writes(k) && (forall x :: x in rest[1..] ==> FileOf(x) != k)
        ensures Holds(after, k, WriteRecords(others, d.records))
      {
        if k == FileOf(r) {
          forall j | |done| < j < |d.records| ensures FileOf(d.records[j]) != k {
            assert d.records[j] == rest[1..][j - |done| - 1];
          }
          LastWriteWins(others, d.records, |done|);
        } else {
          assert forall x :: x in rest ==> x == r || x in rest[1..];
          assert Holds(files, k, WriteRecords(others, d.records));
        }
      }
      ReplayIsSafe(after, others, done + [r], rest[1..], d);
      OneWriteIsSafe(files, others, r, WriteAllRecords(rest[1..]) + [journal], d);
      assert WriteAllRecords(rest) + [journal] == WriteRecord(r) + (WriteAllRecords(rest[1..]) + [journal]);
    }
  }

  lemma OneWriteIsSafe(files: Files, others: Records, r: Record, tail: seq<Op>, d: Decision)
    requires d.Writes(FileOf(r)) && Good(files, others, true, d) && d.JournalName() in files
    requires Safe(files[RecordFile(FileOf(r)) := RecordText(r)] - {OwnTemp(RecordFile(FileOf(r)))}, others, true,
                  tail, d)
    ensures Safe(files, others, true, WriteRecord(r) + tail, d)
  {
    var target := RecordFile(FileOf(r));
    TempSteps(files, others, true, target, RecordText(r), tail, d);
    hide Good, Safe;
    SafeCons(files, others, true, Check(r), AtomicWrite(target, RecordText(r)) + tail, d);
    assert WriteRecord(r) + tail == [Check(r)] + (AtomicWrite(target, RecordText(r)) + tail);
  }

  /** The first three operations of an atomic write change only a temporary file. */
  lemma TempSteps(files: Files, others: Records, committed: bool, target: Name, content: Content, tail: seq<Op>,
                  d: Decision)
    requires Good(files, others, committed, d) && !target.OwnTemp?
    requires Safe(files[target := content] - {OwnTemp(target)}, others, committed || target == d.JournalName(), tail, d)
    ensures Safe(files, others, committed, AtomicWrite(target, content) + tail, d)
  {
    hide Good, Safe;
    var temp := OwnTemp(target);
    var blank, torn, full := files[temp := Blank], files[temp := Torn], files[temp := content];
    TempIsFree(files, others, committed, temp, Blank, d);
    TempIsFree(files, others, committed, temp, Torn, d);
    TempIsFree(files, others, committed, temp, content, d);
    assert blank[temp := Torn] == torn && torn[temp := content] == full;
    assert full[target := content] - {temp} == files[target := content] - {temp};
    var last := [Rename(temp, target)] + tail;
    SafeCons(full, others, committed, Rename(temp, target), tail, d);
    SafeCons(torn, others, committed, WriteAll(temp, content), last, d);
    SafeCons(blank, others, committed, WriteSome(temp), [WriteAll(temp, content)] + last, d);
    SafeCons(files, others, committed, Open(temp), [WriteSome(temp)] + ([WriteAll(temp, content)] + last), d);
    assert AtomicWrite(target, content) + tail
        == [Open(temp)] + ([WriteSome(temp)] + ([WriteAll(temp, content)] + last));
  }

  lemma SafeCons(files: Files, others: Records, committed: bool, op: Op, tail: seq<Op>, d: Decision)
    requires Good(files, others, committed, d)
    requires Safe(Do(files, op), others, committed || op == Rename(OwnTemp(d.JournalName()), d.JournalName()), tail, d)
    ensures Safe(files, others, committed, [op] + tail, d)
  {
    hide Good;
    assert ([op] + tail)[1..] == tail;
  }

  lemma TempIsFree(files: Files, others: Records, committed: bool, temp: Name, content: Content, d: Decision)
    requires Good(files, others, committed, d) && temp.OwnTemp?
    ensures Good(files[temp := content], others, committed, d)
  {
  }

  lemma WritePlanIsSafe(files: Files, others: Records, d: Decision)
    requires d.JournalName() !in files && Stores(files, others)
    requires forall k :: k in others ==> FileOf(others[k]) == k
    ensures Safe(files, others, false, WritePlan(d), d)
  {
    var journal := d.JournalName();
    var committed := files[journal := d.Text()] - {OwnTemp(journal)};
    forall k | d.Writes(k) && RecordFile(k) in committed
      ensures committed[RecordFile(k)].RecordText? && FileOf(committed[RecordFile(k)].record) == k
    {
      assert Holds(files, k, others);
    }
    assert Good(committed, others, true, d);
    assert Remaining(committed, others, d.records, d);
    assert d.records == [] + d.records;
    ReplayIsSafe(committed, others, [], d.records, d);
    TempSteps(files, others, false, journal, d.Text(), WriteAllRecords(d.records) + [Remove(journal)], d);
  }

  lemma {:induction false} ReplayIsOwn(rest: seq<Record>, d: Decision)
    requires forall r :: r in rest ==> r in d.records
    ensures OwnOps(WriteAllRecords(rest), d)
    decreases |rest|
  {
    if rest != [] {
      ReplayIsOwn(rest[1..], d);
      assert rest[0] in d.records && d.Writes(FileOf(rest[0]));
    }
  }

  // ---------------------------------------------------------------- every step keeps the invariant

  lemma StepKeepsInv(s: State, t: State, d: Decision)
    requires Inv(s, d) && Step(s, t, d)
    ensures Inv(t, d)
  {
    hide Safe, Good;
    if OpStep(s, t, d) { OpKeepsInv(s, t, d); }
    else if OtherStep(s, t, d) { OtherKeepsInv(s, t, d); }
    else if CrashStep(s, t) { CrashKeepsInv(s, t, d); }
    else if EndStep(s, t) { EndKeepsInv(s, t, d); }
    else { RestartKeepsInv(s, t, d); }
  }

  lemma OpKeepsInv(s: State, t: State, d: Decision)
    requires Inv(s, d) && OpStep(s, t, d)
    ensures Inv(t, d)
  {
    hide Good;
    var op := s.todo[0];
    assert op in s.todo && s.todo == [op] + s.todo[1..];
    forall k | !d.Writes(k) ensures Holds(t.files, k, s.others) {
      assert Holds(s.files, k, s.others);
      assert !d.Owns(RecordFile(k)) && !Touches(op, RecordFile(k));
    }
  }

  lemma EndKeepsInv(s: State, t: State, d: Decision)
    requires Inv(s, d) && EndStep(s, t)
    ensures Inv(t, d)
  {
    hide Good;
  }

  lemma CrashKeepsInv(s: State, t: State, d: Decision)
    requires Inv(s, d) && CrashStep(s, t)
    ensures Inv(t, d)
  {
    assert Good(s.files, s.others, s.committed, d);
    assert SameAt(s.files, t.files, d.JournalName());
    forall k ensures SameAt(s.files, t.files, RecordFile(k)) {}
  }

  lemma OtherKeepsInv(s: State, t: State, d: Decision)
    requires Inv(s, d) && OtherStep(s, t, d)
    ensures Inv(t, d)
  {
    hide Safe, Good;
    assert SameAt(s.files, t.files, d.JournalName());
    if Interrupted(s, d) {
      InterruptedStaysGood(s, t, d);
    } else {
      assert forall k :: d.Writes(k) ==> Untouched(s, t, k);
      assert forall n :: d.Owns(n) ==> SameAt(s.files, t.files, n);
      match s.phase
      case Writing => SafeFrame(s.files, t.files, s.others, t.others, s.committed, s.todo, d);
      case Recovering => SafeFrame(s.files, t.files, s.others, t.others, s.committed, s.todo, d);
      case _ => GoodFrame(s.files, t.files, s.others, t.others, s.committed, d);
    }
  }

  /** A journal in place writes its records over whatever others have written; without one, only the others have. */
  lemma InterruptedStaysGood(s: State, t: State, d: Decision)
    requires Good(s.files, s.others, s.committed, d) && Interrupted(s, d) && OtherStep(s, t, d)
    ensures Good(t.files, t.others, t.committed, d)
  {
    assert SameAt(s.files, t.files, d.JournalName());
    forall k | d.Writes(k)
      ensures RecordFile(k) in t.files ==>
                t.files[RecordFile(k)].RecordText? && FileOf(t.files[RecordFile(k)].record) == k
      ensures !s.committed ==> Holds(t.files, k, t.others)
    {
      assert Untouched(s, t, k) || IsWhole(t, k);
    }
  }

  lemma RestartKeepsInv(s: State, t: State, d: Decision)
    requires Inv(s, d) && RestartStep(s, t, d)
    ensures Inv(t, d)
  {
    var journal := d.JournalName();
    if journal in s.files {
      assert d.records == [] + d.records;
      ReplayIsSafe(s.files, s.others, [], d.records, d);
      ReplayIsOwn(d.records, d);
    } else {
      assert Safe(s.files, s.others, s.committed, [], d);
    }
  }

  lemma StartHolds(s: State, d: Decision)
    requires Start(s, d) && Filed(s.others)
    ensures Inv(s, d)
  {
    WritePlanIsSafe(s.files, s.others, d);
    ReplayIsOwn(d.records, d);
    forall k | !d.Writes(k) ensures Holds(s.files, k, s.others) {}
    var commit := Rename(OwnTemp(d.JournalName()), d.JournalName());
    assert AtomicWrite(d.JournalName(), d.Text())[3] == commit;
    assert WritePlan(d)[3] == commit;
  }

  lemma {:induction false} RunKeepsInv(run: seq<State>, d: Decision, i: nat)
    requires Run(run, d) && Filed(run[0].others) && i < |run|
    ensures Inv(run[i], d)
  {
    hide Inv, Step, Start;
    if i == 0 {
      assert Start(run[0], d);
      StartHolds(run[0], d);
    } else {
      RunKeepsInv(run, d, i - 1);
      StepKeepsInv(run[i - 1], run[i], d);
    }
  }

  // ---------------------------------------------------------------- main results

  function Outcome(s: State, d: Decision): Records {
    if s.committed then WriteRecords(s.others, d.records) else s.others
  }

  /**
   All or nothing: whatever crashes the write and the recoveries, the first recovery that completes leaves the
   journal gone and the store as the other processes alone would have it, with every journaled record written
   when the journal had been renamed into place and none otherwise.
   */
  lemma CrashAtomicity(run: seq<State>, d: Decision, i: nat)
    requires Run(run, d) && Filed(run[0].others) && i < |run|
    requires run[i].phase == Recovered || run[i].phase == Finished
    ensures d.JournalName() !in run[i].files
    ensures Stores(run[i].files, Outcome(run[i], d))
    ensures run[i].phase == Finished ==> run[i].committed
  {
    RunKeepsInv(run, d, i);
    var s := run[i];
    forall k ensures Holds(s.files, k, Outcome(s, d)) {
      if !d.Writes(k) {
        NotWritten(s.others, d.records, k);
      }
    }
  }

  /** At every moment of every run, crashes included, recovery can be run and each written record file is whole. */
  lemma RecoveryNeverRefuses(run: seq<State>, d: Decision, i: nat)
    requires Run(run, d) && Filed(run[0].others) && i < |run|
    ensures RecoveryPlan(run[i].files, d.proposalRef, d.action).Ok?
    ensures run[i].phase != Malformed
    ensures Whole(run[i].files, d)
  {
    RunKeepsInv(run, d, i);
    assert Good(run[i].files, run[i].others, run[i].committed, d);
  }

  // ---------------------------------------------------------------- when a recovery completes

  /** The operations come to a refused record before they touch the journal. */
  ghost predicate Blocked(ops: seq<Op>, d: Decision) {
    exists i :: 0 <= i < |ops| && Refused(ops[i], d.valid) && forall j :: 0 <= j < i ==>
      !Touches(ops[j], d.JournalName())
  }

  ghost predicate HasInvalid(d: Decision) { exists r :: r in d.records && !d.valid(r) }

  ghost predicate Approaching(s: State, d: Decision, n: nat)
    requires n <= 3
  {
    && s.todo == WritePlan(d)[n..]
    && (n == 3 ==> OwnTemp(d.JournalName()) in s.files && s.files[OwnTemp(d.JournalName())] == d.Text())
  }

  /**
   Once the journal is in place it stays, and every attempt is blocked; before that, the write is on its way to it.
   */
  ghost predicate Stuck(s: State, d: Decision) {
    if s.committed then
      && d.JournalName() in s.files && s.files[d.JournalName()] == d.Text()
      && (s.phase == Down || ((s.phase == Writing || s.phase == Recovering) && Blocked(s.todo, d)))
    else
      && (s.phase == Writing ==> exists n :: 0 <= n <= 3 && Approaching(s, d, n))
      && (s.phase == Recovering ==> s.todo == [])
  }

  lemma {:induction false} InvalidIsBlocked(rest: seq<Record>, tail: seq<Op>, d: Decision)
    requires exists r :: r in rest && !d.valid(r)
    ensures Blocked(WriteAllRecords(rest) + tail, d)
    decreases |rest|
  {
    var first, ops := WriteRecord(rest[0]), WriteAllRecords(rest) + tail;
    if !d.valid(rest[0]) {
      assert ops[0] == Check(rest[0]);
    } else {
      InvalidIsBlocked(rest[1..], tail, d);
      var later := WriteAllRecords(rest[1..]) + tail;
      assert ops == first + later;
      var i :| 0 <= i < |later| && Refused(later[i], d.valid) && forall j :: 0 <= j < i ==>
        !Touches(later[j], d.JournalName());
      assert Refused(ops[|first| + i], d.valid);
      forall j | 0 <= j < |first| + i ensures !Touches(ops[j], d.JournalName()) {
        if j >= |first| { assert ops[j] == later[j - |first|]; }
      }
    }
  }

  lemma BlockedTail(ops: seq<Op>, d: Decision)
    requires Blocked(ops, d) && !Refused(ops[0], d.valid)
    ensures Blocked(ops[1..], d) && !Touches(ops[0], d.JournalName())
  {
    var i :| 0 <= i < |ops| && Refused(ops[i], d.valid) && forall j :: 0 <= j < i ==> !Touches(ops[j], d.JournalName());
    assert ops[1..][i - 1] == ops[i];
    forall j | 0 <= j < i - 1 ensures !Touches(ops[1..][j], d.JournalName()) {
      assert ops[1..][j] == ops[j + 1];
    }
  }

  lemma OpKeepsStuck(s: State, t: State, d: Decision)
    requires HasInvalid(d) && Stuck(s, d) && OpStep(s, t, d)
    ensures Stuck(t, d)
  {
    var journal := d.JournalName();
    if s.committed {
      BlockedTail(s.todo, d);
    } else {
      var n :| 0 <= n <= 3 && Approaching(s, d, n);
      assert WritePlan(d)[n..][1..] == WritePlan(d)[n + 1..]
             && s.todo[0] == WritePlan(d)[n] == AtomicWrite(journal, d.Text())[n];
      if n == 3 {
        assert t.todo == WriteAllRecords(d.records) + [Remove(journal)];
        InvalidIsBlocked(d.records, [Remove(journal)], d);
      } else {
        assert Approaching(t, d, n + 1);
      }
    }
  }

  lemma RestartKeepsStuck(s: State, t: State, d: Decision)
    requires HasInvalid(d) && Stuck(s, d) && Inv(s, d) && RestartStep(s, t, d)
    ensures Stuck(t, d)
  {
    InvalidIsBlocked(d.records, [Remove(d.JournalName())], d);
  }

  lemma OtherKeepsStuck(s: State, t: State, d: Decision)
    requires Stuck(s, d) && OtherStep(s, t, d)
    ensures Stuck(t, d)
  {
    assert SameAt(s.files, t.files, d.JournalName()) && SameAt(s.files, t.files, OwnTemp(d.JournalName()));
    if !s.committed && s.phase == Writing {
      var n :| 0 <= n <= 3 && Approaching(s, d, n);
      assert Approaching(t, d, n);
    }
  }

  lemma StepKeepsStuck(s: State, t: State, d: Decision)
    requires HasInvalid(d) && Stuck(s, d) && Inv(s, d) && Step(s, t, d)
    ensures Stuck(t, d) && (s.committed ==> t.committed)
  {
    hide Inv, Blocked, HasInvalid;
    if OpStep(s, t, d) { OpKeepsStuck(s, t, d); }
    else if OtherStep(s, t, d) { OtherKeepsStuck(s, t, d); }
    else if CrashStep(s, t) { assert SameAt(s.files, t.files, d.JournalName()); }
    else if EndStep(s, t) { NothingIsNotBlocked(s, d); }
    else { RestartKeepsStuck(s, t, d); }
  }

  lemma NothingIsNotBlocked(s: State, d: Decision)
    requires s.todo == []
    ensures !Blocked(s.todo, d)
    ensures forall n :: 0 <= n <= 3 ==> s.todo != WritePlan(d)[n..]
  {
  }

  lemma {:induction false} RunKeepsStuck(run: seq<State>, d: Decision, i: nat, j: nat)
    requires Run(run, d) && Filed(run[0].others) && HasInvalid(d) && i <= j < |run|
    ensures Stuck(run[j], d) && (run[i].committed ==> run[j].committed)
  {
    hide Inv, Step, HasInvalid, Stuck;
    if j == 0 {
      StartIsStuck(run[0], d);
    } else {
      RunKeepsStuck(run, d, if i < j then i else j - 1, j - 1);
      RunKeepsInv(run, d, j - 1);
      StepKeepsStuck(run[j - 1], run[j], d);
    }
  }

  lemma StartIsStuck(s: State, d: Decision)
    requires Start(s, d)
    ensures Stuck(s, d)
  {
    assert WritePlan(d)[0..] == WritePlan(d);
    assert Approaching(s, d, 0);
  }

  lemma {:induction false} ValidIsNotRefused(rest: seq<Record>, d: Decision)
    requires forall r :: r in rest ==> d.valid(r)
    ensures forall op :: op in WriteAllRecords(rest) ==> !Refused(op, d.valid)
    decreases |rest|
  {
    if rest != [] {
      ValidIsNotRefused(rest[1..], d);
      assert forall op :: op in WriteRecord(rest[0]) ==> !Refused(op, d.valid);
    }
  }

  /** A write or a recovery in which nothing is refused runs to its end. */
  lemma {:induction false} RunsToItsEnd(run: seq<State>, d: Decision) returns (longer: seq<State>)
    requires Run(run, d) && (run[|run| - 1].phase == Writing || run[|run| - 1].phase == Recovering)
    requires forall op :: op in run[|run| - 1].todo ==> !Refused(op, d.valid)
    ensures Run(longer, d) && run <= longer
    ensures longer[|longer| - 1].phase == if run[|run| - 1].phase == Writing then Finished else Recovered
    ensures longer[|longer| - 1].others == run[|run| - 1].others
    ensures run[|run| - 1].committed ==> longer[|longer| - 1].committed
    decreases |run[|run| - 1].todo|
  {
    var s := run[|run| - 1];
    if s.todo == [] {
      var last := s.(phase := if s.phase == Writing then Finished else Recovered);
      RunGrows(run, last, d);
      longer := run + [last];
    } else {
      assert s.todo[0] in s.todo;
      NextIsStep(s, d);
      RunGrows(run, NextOp(s, d), d);
      longer := RunsToItsEnd(run + [NextOp(s, d)], d);
    }
  }

  /** A write that is not interrupted, and in which nothing is refused, finishes. */
  lemma WriteFinishes(start: State, d: Decision) returns (run: seq<State>)
    requires Start(start, d) && Filed(start.others) && forall r :: r in d.records ==> d.valid(r)
    ensures Run(run, d) && run[0] == start && run[|run| - 1].phase == Finished
    ensures Stores(run[|run| - 1].files, WriteRecords(start.others, d.records))
  {
    ValidIsNotRefused(d.records, d);
    assert Run([start], d);
    assert forall op :: op in WritePlan(d) ==> !Refused(op, d.valid);
    hide Run, Start, Stores;
    run := RunsToItsEnd([start], d);
    assert run[0] == [start][0];
    CrashAtomicity(run, d, |run| - 1);
  }

  /** The next call completes, when nothing in the journal is refused. */
  lemma NextCallCompletes(run: seq<State>, d: Decision) returns (longer: seq<State>)
    requires Run(run, d) && Filed(run[0].others) && run[|run| - 1].phase == Down
    requires run[|run| - 1].committed ==> forall r :: r in d.records ==> d.valid(r)
    ensures Run(longer, d) && run <= longer && longer[|longer| - 1].phase == Recovered
    ensures longer[|longer| - 1].others == run[|run| - 1].others
    ensures run[|run| - 1].committed ==> longer[|longer| - 1].committed
  {
    var s := run[|run| - 1];
    RunKeepsInv(run, d, |run| - 1);
    if s.committed { ValidIsNotRefused(d.records, d); }
    assert Good(s.files, s.others, s.committed, d);
    var plan := RecoveryPlan(s.files, d.proposalRef, d.action).value;
    var t := s.(phase := Recovering, todo := plan);
    assert RestartStep(s, t, d) && Step(s, t, d);
    assert forall op :: op in plan ==> !Refused(op, d.valid);
    RunGrows(run, t, d);
    hide Run, RestartStep, RecoveryPlan, Good, Inv;
    longer := RunsToItsEnd(run + [t], d);
  }

  /**
   After a crash some continuation of the run completes a recovery exactly when the journal was not in place or the
   validator accepts every record in it; otherwise every later call throws, for good.
   */
  lemma RecoveryCompletesExactly(run: seq<State>, d: Decision)
    requires Run(run, d) && Filed(run[0].others) && run[|run| - 1].phase == Down
    ensures (exists longer: seq<State> ::
               Run(longer, d) && run <= longer && longer[|longer| - 1].phase == Recovered) <==>
            !run[|run| - 1].committed || forall r :: r in d.records ==> d.valid(r)
  {
    if !run[|run| - 1].committed || forall r :: r in d.records ==> d.valid(r) {
      var longer := NextCallCompletes(run, d);
    } else {
      assert HasInvalid(d);
      forall longer: seq<State> | Run(longer, d) && run <= longer ensures longer[|longer| - 1].phase != Recovered {
        assert longer[|run| - 1] == run[|run| - 1] && longer[0] == run[0];
        RunKeepsStuck(longer, d, |run| - 1, |longer| - 1);
      }
    }
  }

  /** At no moment of any run is a committed decision with a refused record complete: its journal stays in place. */
  lemma RefusedJournalStays(run: seq<State>, d: Decision, i: nat)
    requires Run(run, d) && Filed(run[0].others) && i < |run| && HasInvalid(d) && run[i].committed
    ensures d.JournalName() in run[i].files && run[i].phase != Recovered && run[i].phase != Finished
  {
    RunKeepsStuck(run, d, i, i);
  }

  // ---------------------------------------------------------------- the procedures

  lemma {:induction false} ExecConcat(files: Files, a: seq<Op>, b: seq<Op>)
    ensures Exec(files, a + b) == Exec(Exec(files, a), b)
    decreases |a|
  {
    if a == [] {
      assert a + b == b;
    } else {
      assert (a + b)[1..] == a[1..] + b;
      ExecConcat(Do(files, a[0]), a[1..], b);
    }
  }

  function NextOp(s: State, d: Decision): State {
    if s.todo == [] then s
    else s.(files := Do(s.files, s.todo[0]), todo := s.todo[1..],
            committed := s.committed || s.todo[0] == Rename(OwnTemp(d.JournalName()), d.JournalName()))
  }

  /** How many of the operations are done before the process dies or the validator throws. */
  function Done(ops: seq<Op>, budget: nat, valid: Record -> bool): (n: nat)
    ensures n <= |ops| && n <= budget
  {
    if ops == [] || budget == 0 || Refused(ops[0], valid) then 0 else 1 + Done(ops[1..], budget - 1, valid)
  }

  lemma {:induction false} DoneBoth(first: seq<Op>, second: seq<Op>, budget: nat, valid: Record -> bool)
    ensures Done(first + second, budget, valid) ==
            if Done(first, budget, valid) == |first| then |first| + Done(second, budget - |first|, valid)
            else Done(first, budget, valid)
    decreases |first|
  {
    if first == [] {
      assert first + second == second;
    } else if budget > 0 && !Refused(first[0], valid) {
      assert (first + second)[0] == first[0] && (first + second)[1..] == first[1..] + second;
      DoneBoth(first[1..], second, budget - 1, valid);
    }
  }

  lemma {:induction false} NoneRefused(ops: seq<Op>, budget: nat, valid: Record -> bool, i: nat)
    requires i < Done(ops, budget, valid)
    ensures !Refused(ops[i], valid)
    decreases |ops|
  {
    if i > 0 { NoneRefused(ops[1..], budget - 1, valid, i - 1); }
  }

  /** The run in which the first `n` operations of the plan are done. */
  function OpRun(s: State, d: Decision, n: nat): (run: seq<State>)
    ensures |run| == n + 1
  {
    if n == 0 then [s] else OpRun(s, d, n - 1) + [NextOp(OpRun(s, d, n - 1)[n - 1], d)]
  }

  lemma {:induction false} OpRunShape(s: State, d: Decision, n: nat)
    requires n <= |s.todo|
    ensures var last := OpRun(s, d, n)[n];
            last == s.(files := Exec(s.files, s.todo[..n]), todo := s.todo[n..], committed := last.committed)
  {
    if n > 0 {
      OpRunShape(s, d, n - 1);
      assert s.todo[..n] == s.todo[..n - 1] + [s.todo[n - 1]];
      ExecConcat(s.files, s.todo[..n - 1], [s.todo[n - 1]]);
    }
  }

  /**
   What a procedure leaves when it stops after `n` operations is reached by a run, so the results above apply to it.
   */
  lemma {:induction false} PrefixIsRun(s: State, d: Decision, budget: nat, n: nat)
    requires Start(s, d) && n <= Done(s.todo, budget, d.valid)
    ensures Run(OpRun(s, d, n), d)
    ensures OpRun(s, d, n)[n].files == Exec(s.files, s.todo[..n])
  {
    OpRunShape(s, d, n);
    if n > 0 {
      PrefixIsRun(s, d, budget, n - 1);
      OpRunShape(s, d, n - 1);
      NoneRefused(s.todo, budget, d.valid, n - 1);
      var before := OpRun(s, d, n - 1);
      NextIsStep(before[n - 1], d);
      RunGrows(before, NextOp(before[n - 1], d), d);
    }
  }

  lemma NextIsStep(s: State, d: Decision)
    requires (s.phase == Writing || s.phase == Recovering) && s.todo != [] && !Refused(s.todo[0], d.valid)
    ensures Step(s, NextOp(s, d), d)
  {
  }

  lemma RunGrows(run: seq<State>, next: State, d: Decision)
    requires Run(run, d) && Step(run[|run| - 1], next, d)
    ensures Run(run + [next], d)
  {
    hide Step, Start;
    var longer := run + [next];
    forall i | 0 < i < |longer| ensures Step(longer[i - 1], longer[i], d) {
      if i < |run| { assert longer[i - 1] == run[i - 1] && longer[i] == run[i]; }
    }
  }

  predicate Performed(before: Files, after: Files, had: nat, left: nat, ops: seq<Op>, ok: bool, valid: Record -> bool) {
    var n := Done(ops, had, valid);
    ok == (n == |ops|) && left == had - n && after == Exec(before, ops[..n])
  }

  lemma PerformedBoth(f0: Files, f1: Files, f2: Files, b0: nat, b1: nat, b2: nat, first: seq<Op>, second: seq<Op>,
                      ok: bool,
                      valid: Record -> bool)
    requires Performed(f0, f1, b0, b1, first, true, valid) && Performed(f1, f2, b1, b2, second, ok, valid)
    ensures Performed(f0, f2, b0, b2, first + second, ok, valid)
  {
    DoneBoth(first, second, b0, valid);
    var n := Done(second, b1, valid);
    ExecConcat(f0, first, second[..n]);
    assert first[..|first|] == first && (first + second)[..|first| + n] == first + second[..n];
  }

  lemma PerformedFirst(f0: Files, f1: Files, b0: nat, b1: nat, first: seq<Op>, second: seq<Op>, valid: Record -> bool)
    requires Performed(f0, f1, b0, b1, first, false, valid)
    ensures Performed(f0, f1, b0, b1, first + second, false, valid)
  {
    DoneBoth(first, second, b0, valid);
    assert (first + second)[..Done(first, b0, valid)] == first[..Done(first, b0, valid)];
  }

  lemma PerformedNothing(files: Files, budget: nat, valid: Record -> bool)
    ensures Performed(files, files, budget, budget, [], true, valid)
  {
  }

  /**
   A file system on which the process dies when `budget` operations have been done; a refused record stops it as
   well.
   */
  class Disk {
    var files: Files
    var budget: nat
    const valid: Record -> bool

    constructor (files: Files, budget: nat, valid: Record -> bool)
      ensures this.files == files && this.budget == budget && this.valid == valid
    {
      this.files := files;
      this.budget := budget;
      this.valid := valid;
    }

    method Perform(op: Op) returns (ok: bool)
      modifies this
      ensures Performed(old(files), files, old(budget), budget, [op], ok, valid)
    {
      ok := budget > 0 && !(op.Check? && !valid(op.record));
      if ok {
        files := Do(files, op);
        budget := budget - 1;
        assert [op][..1] == [op] && [op][1..] == [];
      }
    }

    method AtomicWriteText(target: Name, content: Content) returns (ok: bool)
      modifies this
      ensures Performed(old(files), files, old(budget), budget, AtomicWrite(target, content), ok, valid)
    {
      var temp := OwnTemp(target);
      ghost var f0, b0 := files, budget;
      PerformedNothing(files, budget, valid);
      hide Performed;
      ok := PerformNext(Open(temp), true, f0, b0, []);
      ok := PerformNext(WriteSome(temp), ok, f0, b0, [] + [Open(temp)]);
      ok := PerformNext(WriteAll(temp, content), ok, f0, b0, [] + [Open(temp)] + [WriteSome(temp)]);
      ok := PerformNext(Rename(temp, target), ok, f0, b0,
                        [] + [Open(temp)] + [WriteSome(temp)] + [WriteAll(temp, content)]);
      assert [] + [Open(temp)] + [WriteSome(temp)] + [WriteAll(temp, content)] + [Rename(temp, target)]
          == AtomicWrite(target, content);
    }

    /** One more operation after `done`, unless the process stopped on the way. */
    method PerformNext(op: Op, alive: bool, ghost before: Files, ghost had: nat, ghost done: seq<Op>) returns (ok: bool)
      requires Performed(before, files, had, budget, done, alive, valid)
      modifies this
      ensures Performed(before, files, had, budget, done + [op], ok, valid)
    {
      ok := false;
      if alive {
        ok := Perform(op);
        PerformedBoth(before, old(files), files, had, old(budget), budget, done, [op], ok, valid);
      } else {
        PerformedFirst(before, files, had, budget, done, [op], valid);
      }
    }

    method WriteCoreRecord(record: Record) returns (ok: bool)
      modifies this
      ensures Performed(old(files), files, old(budget), budget, WriteRecord(record), ok, valid)
    {
      var target, content := RecordFile(FileOf(record)), RecordText(record);
      ok := Perform(Check(record));
      ghost var f1, b1 := files, budget;
      hide Performed;
      if ok {
        ok := AtomicWriteText(target, content);
        PerformedBoth(old(files), f1, files, old(budget), b1, budget, [Check(record)], AtomicWrite(target, content),
                      ok, valid);
      } else {
        PerformedFirst(old(files), files, old(budget), budget, [Check(record)], AtomicWrite(target, content), valid);
      }
    }

    /** The loop over the records and the removal of the journal, as both procedures end. */
    method WriteAndRemove(records: seq<Record>, journal: Name) returns (ok: bool)
      modifies this
      ensures Performed(old(files), files, old(budget), budget, WriteAllRecords(records) + [Remove(journal)], ok, valid)
    {
      ghost var done: seq<Op> := [];
      ok := true;
      var i := 0;
      PerformedNothing(files, budget, valid);
      hide Performed;
      while i < |records|
        invariant 0 <= i <= |records| && ok
        invariant done + WriteAllRecords(records[i..]) == WriteAllRecords(records)
        invariant Performed(old(files), files, old(budget), budget, done, true, valid)
      {
        ghost var f1, b1 := files, budget;
        assert records[i..][1..] == records[i + 1..];
        assert done + WriteAllRecords(records[i..])
            == (done + WriteRecord(records[i])) + WriteAllRecords(records[i + 1..]);
        ok := WriteCoreRecord(records[i]);
        PerformedBoth(old(files), f1, files, old(budget), b1, budget, done, WriteRecord(records[i]), ok, valid);
        done := done + WriteRecord(records[i]);
        i := i + 1;
        if !ok {
          PerformedFirst(old(files), files, old(budget), budget, done,
                         WriteAllRecords(records[i..]) + [Remove(journal)], valid);
          assert done + (WriteAllRecords(records[i..]) + [Remove(journal)])
              == WriteAllRecords(records) + [Remove(journal)];
          return;
        }
      }
      assert done == WriteAllRecords(records);
      ok := PerformNext(Remove(journal), true, old(files), old(budget), done);
    }

    method WriteOwnerDecisionCoreRecords(d: Decision) returns (ok: bool)
      requires d.valid == valid
      modifies this
      ensures Performed(old(files), files, old(budget), budget, WritePlan(d), ok, valid)
    {
      ghost var rest := WriteAllRecords(d.records) + [Remove(d.JournalName())];
      hide Performed;
      ok := AtomicWriteText(d.JournalName(), d.Text());
      if ok {
        ghost var f1, b1 := files, budget;
        ok := WriteAndRemove(d.records, d.JournalName());
        PerformedBoth(old(files), f1, files, old(budget), b1, budget, AtomicWrite(d.JournalName(), d.Text()), rest,
                      ok, valid);
      } else {
        PerformedFirst(old(files), files, old(budget), budget, AtomicWrite(d.JournalName(), d.Text()), rest, valid);
      }
    }

    method RecoverOwnerDecisionJournal(proposalRef: string, action: Action) returns (result: Result<bool>)
      modifies this
      ensures var plan := RecoveryPlan(old(files), proposalRef, action);
              if plan.Thrown? then result == Thrown(plan.message) && files == old(files) && budget == old(budget)
              else result.Ok? && Performed(old(files), files, old(budget), budget, plan.value, result.value, valid)
    {
      var name := JournalFile(proposalRef, action);
      if name !in files || files[name] == Blank { return Ok(true); }
      if !files[name].JournalText? { return Thrown("owner decision recovery journal is malformed"); }
      var journal := files[name].journal;
      if journal.version != 1 || journal.proposalRef != proposalRef || journal.action != action {
        return Thrown("owner decision recovery journal is malformed");
      }
      var ok := WriteAndRemove(journal.records, name);
      result := Ok(ok);
    }
  }
}
