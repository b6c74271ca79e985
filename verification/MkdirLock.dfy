/**
 The lock directory: any number of processes, one step of one process at a time, and a clock that only grows. The
 lock guards the append to the audit log.
 */
module MkdirLock {
  import opened Prelude
  import opened AuditLog

  /**
   When a waiting process reads the clock that it compares with the age of the lock: before `stat`, as
   audit/log.ts and session-continuity-store.ts do, or after it, as owner-decisions.ts does.
   */
  datatype Sampling = BeforeStat | AfterStat

  datatype Process =
    | Trying                              // about to mkdir
    | Taken                               // mkdir said EEXIST
    | Sampled(at: int)                    // clock read, about to stat
    | Statted(mtime: Option<int>)         // stat done, about to read the clock
    | Breaking                            // found the lock stale, about to remove it
    | Waiting
    | Holding                             // inside, about to read the log
    | HasRead(seen: seq<Entry>)           // inside, about to replace the log if its entry is new
    | Leaving(done: bool)                 // about to remove the lock
    | Finished
    | Failed
    | Dead
  {
    predicate Inside() { Holding? || HasRead? || Leaving? }
    predicate Over() { Finished? || Failed? || Dead? }
  }

  /** `dir` is the modification time of the lock directory; `writers` lists the processes that wrote, in order. */
  datatype State = State(now: int, dir: Option<int>, procs: seq<Process>, log: seq<Entry>, writers: seq<nat>)

  /** Process p appends work[p]; a lock older than `stale` is broken. */
  datatype System = System(sampling: Sampling, stale: nat, work: seq<Entry>)

  predicate IsStale(at: int, mtime: Option<int>, stale: nat) { mtime.Some? && at - mtime.value > stale }

  predicate TickStep(s: State, t: State) { t == s.(now := t.now) && s.now <= t.now }

  function Put(s: State, p: nat, q: Process): State
    requires p < |s.procs|
  {
    s.(procs := s.procs[p := q])
  }

  /** A step of acquiring the lock. */
  predicate AcquireStep(s: State, t: State, p: nat, sys: System)
    requires p < |s.procs|
  {
    match s.procs[p]
    case Trying => t == if s.dir.None? then Put(s, p, Holding).(dir := Some(s.now)) else Put(s, p, Taken)
    case Taken => t == Put(s, p, if sys.sampling.BeforeStat? then Sampled(s.now) else Statted(s.dir))
    case Sampled(at) => t == Put(s, p, if IsStale(at, s.dir, sys.stale) then Breaking else Waiting)
    case Statted(mtime) => t == Put(s, p, if IsStale(s.now, mtime, sys.stale) then Breaking else Waiting)
    case Breaking => t == Put(s, p, Trying).(dir := None)
    case Waiting => t == Put(s, p, Trying) || t == Put(s, p, Failed)
    case _ => false
  }

  /** A step under the lock: read the log, replace it whole, remove the lock; an error skips to the removal. */
  predicate InsideStep(s: State, t: State, p: nat, sys: System)
    requires p < |s.procs| == |sys.work|
  {
    match s.procs[p]
    case Holding => t == Put(s, p, HasRead(s.log)) || t == Put(s, p, Leaving(false))
    case HasRead(seen) =>
      || t == Put(s, p, Leaving(false))
      || t == (if Appended(seen, sys.work[p]) == seen then Put(s, p, Leaving(true))
               else Put(s, p, Leaving(true)).(log := Appended(seen, sys.work[p]), writers := s.writers + [p]))
    case Leaving(done) => t == Put(s, p, if done then Finished else Failed).(dir := None)
    case _ => false
  }

  /** A process may die anywhere; its lock directory stays. */
  predicate DieStep(s: State, t: State, p: nat)
    requires p < |s.procs|
  {
    !s.procs[p].Over() && t == Put(s, p, Dead)
  }

  ghost predicate Step(s: State, t: State, sys: System) {
    || TickStep(s, t)
    || (|s.procs| == |sys.work| && exists p :: 0 <= p < |s.procs| && Moves(s, t, p, sys))
  }

  predicate Moves(s: State, t: State, p: nat, sys: System)
    requires p < |s.procs| == |sys.work|
  {
    AcquireStep(s, t, p, sys) || InsideStep(s, t, p, sys) || DieStep(s, t, p)
  }

  ghost predicate Start(s: State, sys: System) {
    s.dir.None? && |s.procs| == |sys.work| && s.writers == [] && forall p :: 0 <= p < |s.procs| ==> s.procs[p] == Trying
  }

  ghost predicate Run(run: seq<State>, sys: System) {
    run != [] && Start(run[0], sys) && forall i :: 0 < i < |run| ==> Step(run[i - 1], run[i], sys)
  }

  /** The lock directory is not older than the bound. */
  predicate Fresh(s: State, sys: System) { s.dir.Some? ==> s.now - s.dir.value <= sys.stale }

  /** No process holds the age of a directory, seen by `stat` and perhaps gone since, that has passed the bound. */
  predicate Prompt(s: State, sys: System) {
    forall p :: 0 <= p < |s.procs| && s.procs[p].Statted? ==> !IsStale(s.now, s.procs[p].mtime, sys.stale)
  }

  /** What each order of reading needs. */
  predicate InTime(s: State, sys: System) { if sys.sampling.BeforeStat? then Fresh(s, sys) else Prompt(s, sys) }

  predicate InTimeUpTo(run: seq<State>, sys: System, i: nat)
    requires i < |run|
  {
    forall j :: 0 <= j <= i ==> InTime(run[j], sys)
  }

  predicate FreshUpTo(run: seq<State>, sys: System, i: nat)
    requires i < |run|
  {
    forall j :: 0 <= j <= i ==> Fresh(run[j], sys)
  }

  predicate Exclusive(s: State) {
    forall p, q :: 0 <= p < |s.procs| && 0 <= q < |s.procs| && s.procs[p].Inside() && s.procs[q].Inside() ==> p == q
  }

  // ---------------------------------------------------------------- the lock

  /** What the clock and the directory say about each process. */
  ghost predicate Locked(s: State, sys: System) {
    forall p :: 0 <= p < |s.procs| ==>
      match s.procs[p]
      case Sampled(at) => sys.sampling.BeforeStat? && at <= s.now
      case Statted(_) => sys.sampling.AfterStat?
      case Breaking => false
      case Holding => s.dir.Some?
      case HasRead(seen) => s.dir.Some? && seen == s.log
      case Leaving(_) => s.dir.Some?
      case _ => true
  }

  function EntriesOf(work: seq<Entry>, writers: seq<nat>): (entries: seq<Entry>)
    requires forall i :: 0 <= i < |writers| ==> writers[i] < |work|
    ensures |entries| == |writers|
  {
    seq(|writers|, i requires 0 <= i < |writers| => work[writers[i]])
  }

  predicate Distinct(writers: seq<nat>) {
    forall i, j :: 0 <= i < j < |writers| ==> writers[i] != writers[j]
  }

  predicate HasWritten(procs: seq<Process>, p: nat) { p < |procs| && (procs[p] == Leaving(true) || procs[p].Over()) }

  /** The log is the first log and one entry of every writer, in the order of writing. */
  ghost predicate Recorded(s: State, sys: System, first: seq<Entry>) {
    && Distinct(s.writers)
    && |s.procs| == |sys.work| && (forall i :: 0 <= i < |s.writers| ==> HasWritten(s.procs, s.writers[i]))
    && s.log == first + EntriesOf(sys.work, s.writers)
  }

  /** A process that has done its work wrote its entry, or found its id. */
  ghost predicate Served(s: State, sys: System) {
    && |s.procs| == |sys.work|
    && forall p :: 0 <= p < |s.procs| && (s.procs[p] == Leaving(true) || s.procs[p] == Finished) ==>
         HasServed(s, sys.work[p], p)
  }

  predicate HasServed(s: State, e: Entry, p: nat) { p in s.writers || (HasKey(e) && Contains(s.log, e.id.value)) }

  /** No entry id occurs twice. */
  ghost predicate KeysOnce(log: seq<Entry>) {
    forall i, j :: 0 <= i < j < |log| && HasKey(log[i]) ==> log[i].id != log[j].id
  }

  ghost predicate Inv(s: State, sys: System, first: seq<Entry>) {
    && |s.procs| == |sys.work| && Locked(s, sys) && Exclusive(s)
    && Recorded(s, sys, first) && Served(s, sys) && (KeysOnce(first) ==> KeysOnce(s.log))
  }

  lemma TickKeepsInv(s: State, t: State, sys: System, first: seq<Entry>)
    requires Inv(s, sys, first) && TickStep(s, t)
    ensures Inv(t, sys, first)
  {
    forall p | 0 <= p < |t.procs| && (t.procs[p] == Leaving(true)
        || t.procs[p] == Finished) ensures HasServed(t, sys.work[p], p) {
      assert HasServed(s, sys.work[p], p);
    }
  }

  /** In time nobody breaks a lock: read before, the clock is no later than the directory's age is taken. */
  lemma AcquireKeepsLocked(s: State, t: State, p: nat, sys: System)
    requires Locked(s, sys) && Exclusive(s) && InTime(s, sys)
    requires p < |s.procs| && AcquireStep(s, t, p, sys)
    ensures Locked(t, sys) && Exclusive(t) && s.procs[p] != Breaking
  {
    assert !s.procs[p].Breaking?;
    assert forall q :: 0 <= q < |s.procs| && q != p ==> t.procs[q] == s.procs[q];
  }

  lemma AcquireKeepsInv(s: State, t: State, p: nat, sys: System, first: seq<Entry>)
    requires Inv(s, sys, first) && InTime(s, sys)
    requires p < |s.procs| && AcquireStep(s, t, p, sys)
    ensures Inv(t, sys, first)
  {
    AcquireKeepsLocked(s, t, p, sys);
    assert t.log == s.log && t.writers == s.writers;
    assert forall q :: 0 <= q < |s.procs| && q != p ==> t.procs[q] == s.procs[q];
    assert t.procs[p] != Leaving(true) && t.procs[p] != Finished;
    hide Locked, Exclusive, AcquireStep, InTime;
    ServedStays(s, t, p, sys);
  }

  lemma ServedStays(s: State, t: State, p: nat, sys: System)
    requires Served(s, sys) && |t.procs| == |s.procs| && p < |s.procs|
    requires forall q :: 0 <= q < |s.procs| && q != p ==> t.procs[q] == s.procs[q]
    requires s.log <= t.log && forall q :: q in s.writers ==> q in t.writers
    requires t.procs[p] == Leaving(true) || t.procs[p] == Finished ==> HasServed(t, sys.work[p], p)
    ensures Served(t, sys)
  {
    forall q | 0 <= q < |t.procs| && (t.procs[q] == Leaving(true)
        || t.procs[q] == Finished) ensures HasServed(t, sys.work[q], q) {
      if q != p {
        assert HasServed(s, sys.work[q], q);
        if q !in s.writers { ContainsStays(s.log, t.log, sys.work[q].id.value); }
      }
    }
  }

  lemma ContainsStays(log: seq<Entry>, longer: seq<Entry>, id: string)
    requires log <= longer && Contains(log, id)
    ensures Contains(longer, id)
  {
    var e :| e in log && e.id == Some(id);
    assert longer == log + longer[|log|..];
    assert e in longer;
  }

  lemma DieKeepsInv(s: State, t: State, p: nat, sys: System, first: seq<Entry>)
    requires Inv(s, sys, first) && p < |s.procs| && DieStep(s, t, p)
    ensures Inv(t, sys, first)
  {
    assert forall q :: 0 <= q < |s.procs| && q != p ==> t.procs[q] == s.procs[q];
    ServedStays(s, t, p, sys);
  }

  lemma InsideKeepsInv(s: State, t: State, p: nat, sys: System, first: seq<Entry>)
    requires Inv(s, sys, first) && p < |s.procs| && InsideStep(s, t, p, sys)
    ensures Inv(t, sys, first)
  {
    assert forall q :: 0 <= q < |s.procs| && q != p ==> t.procs[q] == s.procs[q] && !s.procs[q].Inside();
    if t.log == s.log && t.writers == s.writers {
      if t.procs[p] == Finished { assert HasServed(s, sys.work[p], p); }
      else if t.procs[p] == Leaving(true) { assert HasServed(t, sys.work[p], p); }
      ServedStays(s, t, p, sys);
    } else {
      WriteKeepsInv(s, t, p, sys, first);
    }
  }

  lemma WriteKeepsInv(s: State, t: State, p: nat, sys: System, first: seq<Entry>)
    requires Inv(s, sys, first) && p < |s.procs| && s.procs[p] == HasRead(s.log)
    requires Appended(s.log, sys.work[p]) != s.log
    requires t == Put(s, p, Leaving(true)).(log := s.log + [sys.work[p]], writers := s.writers + [p])
    ensures Inv(t, sys, first)
  {
    var e := sys.work[p];
    assert forall q :: 0 <= q < |s.procs| && q != p ==> t.procs[q] == s.procs[q] && !s.procs[q].Inside();
    assert p !in s.writers;
    assert EntriesOf(sys.work, t.writers) == EntriesOf(sys.work, s.writers) + [e];
    ServedStays(s, t, p, sys);
    if KeysOnce(s.log) {
      forall i, j | 0 <= i < j < |t.log| && HasKey(t.log[i]) ensures t.log[i].id != t.log[j].id {
        if j == |s.log| { assert t.log[i] == s.log[i] && s.log[i] in s.log; }
      }
    }
  }

  lemma StepKeepsInv(s: State, t: State, sys: System, first: seq<Entry>)
    requires Inv(s, sys, first) && InTime(s, sys) && Step(s, t, sys)
    ensures Inv(t, sys, first) && s.log <= t.log
  {
    hide Inv;
    if TickStep(s, t) {
      TickKeepsInv(s, t, sys, first);
    } else {
      var p :| 0 <= p < |s.procs| && Moves(s, t, p, sys);
      if AcquireStep(s, t, p, sys) { AcquireKeepsInv(s, t, p, sys, first); }
      else if InsideStep(s, t, p, sys) { InsideKeepsInv(s, t, p, sys, first); InsideGrows(s, t, p, sys, first); }
      else { DieKeepsInv(s, t, p, sys, first); }
    }
  }

  lemma InsideGrows(s: State, t: State, p: nat, sys: System, first: seq<Entry>)
    requires Inv(s, sys, first) && p < |s.procs| && InsideStep(s, t, p, sys)
    ensures s.log <= t.log
  {
  }

  lemma {:induction false} RunKeepsInv(run: seq<State>, sys: System, i: nat)
    requires Run(run, sys) && i < |run| && InTimeUpTo(run, sys, i)
    ensures Inv(run[i], sys, run[0].log)
  {
    hide Step;
    if i > 0 {
      hide Inv;
      RunKeepsInv(run, sys, i - 1);
      StepKeepsInv(run[i - 1], run[i], sys, run[0].log);
    } else {
      assert run[0].log == run[0].log + EntriesOf(sys.work, []);
    }
  }

  // ---------------------------------------------------------------- main results

  /**
   At most one process is inside, in every interleaving in which no lock directory has outlived the bound, when the
   clock is read before `stat`; read after it, no process may hold on to an age that has passed the bound.
   */
  lemma MutualExclusion(run: seq<State>, sys: System, i: nat)
    requires Run(run, sys) && i < |run| && InTimeUpTo(run, sys, i)
    ensures Exclusive(run[i])
  {
    RunKeepsInv(run, sys, i);
  }

  /** The log only grows. */
  lemma {:induction false} LogOnlyGrows(run: seq<State>, sys: System, i: nat, j: nat)
    requires Run(run, sys) && i <= j < |run| && InTimeUpTo(run, sys, j)
    ensures run[i].log <= run[j].log
  {
    hide Inv, Step;
    if i < j {
      LogOnlyGrows(run, sys, i, j - 1);
      RunKeepsInv(run, sys, j - 1);
      StepKeepsInv(run[j - 1], run[j], sys, run[0].log);
    }
  }

  /**
   No append is lost or doubled: the log is the first log and one entry of each process that wrote; no entry id
   occurs twice; and a process that finished wrote its entry, or its entry id was there.
   */
  lemma LogIsExact(run: seq<State>, sys: System, i: nat)
    requires Run(run, sys) && i < |run| && InTimeUpTo(run, sys, i)
    ensures Recorded(run[i], sys, run[0].log)
    ensures KeysOnce(run[0].log) ==> KeysOnce(run[i].log)
    ensures forall p :: 0 <= p < |sys.work| == |run[i].procs| && run[i].procs[p] == Finished ==>
              if HasKey(sys.work[p]) then Contains(run[i].log, sys.work[p].id.value) else p in run[i].writers
  {
    RunKeepsInv(run, sys, i);
    var s := run[i];
    forall p | 0 <= p < |sys.work| && s.procs[p] == Finished
      ensures if HasKey(sys.work[p]) then Contains(s.log, sys.work[p].id.value) else p in s.writers
    {
      assert HasServed(s, sys.work[p], p);
      if p in s.writers {
        var k :| 0 <= k < |s.writers| && s.writers[k] == p;
        assert EntriesOf(sys.work, s.writers)[k] == sys.work[p];
        assert sys.work[p] in s.log;
      }
    }
  }

  // ---------------------------------------------------------------- runs step by step

  ghost predicate Trace(run: seq<State>, sys: System, bounded: bool) {
    Run(run, sys) && (bounded ==> FreshUpTo(run, sys, |run| - 1))
  }

  lemma Extend(run: seq<State>, sys: System, bounded: bool, next: State) returns (longer: seq<State>)
    requires Trace(run, sys, bounded) && Step(run[|run| - 1], next, sys) && (bounded ==> Fresh(next, sys))
    ensures longer == run + [next] && Trace(longer, sys, bounded) && longer[|longer| - 1] == next
  {
    hide Step, Start, Fresh;
    longer := run + [next];
    forall i | 0 < i < |longer| ensures Step(longer[i - 1], longer[i], sys) {
      if i < |run| { assert longer[i - 1] == run[i - 1] && longer[i] == run[i]; }
    }
    forall i | 0 <= i < |longer| && bounded ensures Fresh(longer[i], sys) {
      if i < |run| { assert longer[i] == run[i]; }
    }
  }

  lemma Move(run: seq<State>, sys: System, bounded: bool, p: nat, next: State) returns (longer: seq<State>)
    requires Trace(run, sys, bounded) && |run[|run| - 1].procs| == |sys.work| && p < |sys.work|
    requires Moves(run[|run| - 1], next, p, sys) && (bounded ==> Fresh(next, sys))
    ensures longer != [] && Trace(longer, sys, bounded) && longer[|longer| - 1] == next
  {
    longer := Extend(run, sys, bounded, next);
  }

  lemma Tick(run: seq<State>, sys: System, bounded: bool, now: int) returns (longer: seq<State>)
    requires Trace(run, sys, bounded) && run[|run| - 1].now <= now
             && (bounded ==> Fresh(run[|run| - 1].(now := now), sys))
    ensures longer != [] && Trace(longer, sys, bounded) && longer[|longer| - 1] == run[|run| - 1].(now := now)
  {
    longer := Extend(run, sys, bounded, run[|run| - 1].(now := now));
  }

  // ---------------------------------------------------------------- exactly when

  /** From state i on no time passes. */
  predicate StandsStill(run: seq<State>, i: nat)
    requires i < |run|
  {
    forall j :: i <= j < |run| ==> run[j].now == run[i].now
  }

  /** No other process is under way. */
  predicate Alone(s: State, q: nat) { forall p :: 0 <= p < |s.procs| && p != q ==> s.procs[p].Over() }

  /** Every state is in time as long as no time passes, whatever the processes do. */
  lemma {:induction false} StillInTime(run: seq<State>, sys: System, i: nat, j: nat)
    requires Run(run, sys) && i <= j < |run| && StandsStill(run, i) && Inv(run[i], sys, run[0].log)
    requires Fresh(run[i], sys) && Prompt(run[i], sys)
    ensures Fresh(run[j], sys) && Prompt(run[j], sys) && Inv(run[j], sys, run[0].log)
    decreases j - i
  {
    if i < j {
      StillInTime(run, sys, i, j - 1);
      assert Step(run[j - 1], run[j], sys) && run[j].now == run[j - 1].now;
      hide Inv, Step, Fresh, Prompt;
      StillStep(run[j - 1], run[j], sys, run[0].log);
    }
  }

  lemma StillStep(s: State, t: State, sys: System, first: seq<Entry>)
    requires Inv(s, sys, first) && Fresh(s, sys) && Prompt(s, sys) && Step(s, t, sys) && t.now == s.now
    ensures Fresh(t, sys) && Prompt(t, sys) && Inv(t, sys, first)
  {
    StepKeepsInv(s, t, sys, first);
    hide Inv, Fresh, Prompt, Moves;
    if p :| 0 <= p < |s.procs| == |sys.work| && Moves(s, t, p, sys) { StillMove(s, t, p, sys); }
  }

  lemma StillMove(s: State, t: State, p: nat, sys: System)
    requires Fresh(s, sys) && Prompt(s, sys) && p < |s.procs| == |sys.work| && Moves(s, t, p, sys)
    ensures Fresh(t, sys) && Prompt(t, sys)
  {
    assert t.now == s.now && forall r :: 0 <= r < |s.procs| && r != p ==> t.procs[r] == s.procs[r];
    assert t.procs[p].Statted? ==> t.procs[p].mtime == s.dir;
  }

  /** Processes that are over do not move. */
  lemma {:induction false} AloneStays(run: seq<State>, sys: System, q: nat, i: nat, j: nat)
    requires Run(run, sys) && i <= j < |run| && Alone(run[i], q)
    ensures Alone(run[j], q)
    decreases j - i
  {
    if i < j {
      AloneStays(run, sys, q, i, j - 1);
      assert Step(run[j - 1], run[j], sys);
    }
  }

  /** The process can remove the lock directory without waiting. */
  predicate CanBreak(s: State, sys: System, p: nat) {
    && p < |s.procs|
    && (|| s.procs[p].Breaking?
        || (s.procs[p].Statted? && IsStale(s.now, s.procs[p].mtime, sys.stale))
        || (!Fresh(s, sys) && !s.procs[p].Over() && !s.procs[p].Inside()))
  }

  /** How many of its steps the process is away from entering. */
  function Distance(s: State, sys: System, p: nat): nat
    requires p < |s.procs|
  {
    match s.procs[p]
    case Breaking => 1
    case Statted(mtime) => if IsStale(s.now, mtime, sys.stale) then 2 else 6
    case Sampled(at) => if IsStale(at, s.dir, sys.stale) then 2 else 6
    case Taken => 3
    case Trying => 4
    case _ => 5
  }

  /** Its next step on the way. */
  function Toward(s: State, sys: System, p: nat): State
    requires p < |s.procs|
  {
    match s.procs[p]
    case Breaking => Put(s, p, Trying).(dir := None)
    case Statted(mtime) => Put(s, p, if IsStale(s.now, mtime, sys.stale) then Breaking else Waiting)
    case Sampled(at) => Put(s, p, if IsStale(at, s.dir, sys.stale) then Breaking else Waiting)
    case Taken => Put(s, p, if sys.sampling.BeforeStat? then Sampled(s.now) else Statted(s.dir))
    case Trying => Put(s, p, Taken)
    case _ => Put(s, p, Trying)
  }

  lemma ComesCloser(s: State, sys: System, p: nat)
    requires |s.procs| == |sys.work| && CanBreak(s, sys, p)
    ensures var t := Toward(s, sys, p);
            && Moves(s, t, p, sys) && t.now == s.now && |t.procs| == |s.procs|
            && forall q :: 0 <= q < |s.procs| && q != p ==> t.procs[q] == s.procs[q]
    ensures if s.procs[p].Breaking? then Toward(s, sys, p).procs[p] == Trying && Toward(s, sys, p).dir == None
            else CanBreak(Toward(s, sys, p), sys, p) && Distance(Toward(s, sys, p), sys, p) < Distance(s, sys, p)
  {
  }

  /** A process that can remove the directory gets inside by its own steps, beside the one that is there. */
  lemma {:induction false} BreaksIn(run: seq<State>, sys: System, p: nat, q: nat) returns (longer: seq<State>)
    requires Run(run, sys) && |run[|run| - 1].procs| == |sys.work| && q < |sys.work| && q != p
    requires run[|run| - 1].procs[q].Inside() && CanBreak(run[|run| - 1], sys, p)
    ensures Run(longer, sys) && run <= longer && StandsStill(longer, |run| - 1) && !Exclusive(longer[|longer| - 1])
    decreases Distance(run[|run| - 1], sys, p)
  {
    var s := run[|run| - 1];
    var next := Toward(s, sys, p);
    ComesCloser(s, sys, p);
    hide Moves, Toward, CanBreak, Distance, Run;
    longer := Append(run, sys, p, next);
    if s.procs[p].Breaking? {
      longer := Append(longer, sys, p, Put(next, p, Holding).(dir := Some(s.now)));
      assert longer[|longer| - 1].procs[p].Inside() && longer[|longer| - 1].procs[q].Inside();
    } else {
      longer := BreaksIn(longer, sys, p, q);
    }
  }

  lemma Append(run: seq<State>, sys: System, p: nat, next: State) returns (longer: seq<State>)
    requires Run(run, sys) && p < |run[|run| - 1].procs| == |sys.work|
    requires Moves(run[|run| - 1], next, p, sys) || (run[|run| - 1].procs[p].Trying? && run[|run| - 1].dir == None
             && next == Put(run[|run| - 1], p, Holding).(dir := Some(run[|run| - 1].now)))
    ensures longer == run + [next] && Run(longer, sys)
  {
    assert Moves(run[|run| - 1], next, p, sys);
    longer := Extend(run, sys, false, next);
  }

  lemma SomeoneBreaks(s: State, sys: System, q: nat) returns (p: nat)
    requires Exclusive(s) && q < |s.procs| && s.procs[q].Inside()
    requires !Alone(s, q) && !(Fresh(s, sys) && Prompt(s, sys))
    ensures p < |s.procs| && p != q && CanBreak(s, sys, p)
  {
    if Prompt(s, sys) {
      p :| 0 <= p < |s.procs| && p != q && !s.procs[p].Over();
    } else {
      p :| 0 <= p < |s.procs| && s.procs[p].Statted? && IsStale(s.now, s.procs[p].mtime, sys.stale);
    }
  }

  lemma OneIsExclusive(s: State, q: nat)
    requires Alone(s, q)
    ensures Exclusive(s)
  {
  }

  lemma InvIsExclusive(s: State, sys: System, first: seq<Entry>)
    requires Inv(s, sys, first)
    ensures Exclusive(s) && |s.procs| == |sys.work|
  {
  }

  /**
   While a process is inside, and no time passes, exclusion is safe from every process exactly when no other is under
   way, or the directory is not older than the bound and nobody holds on to an age that is, whenever the clock is read.
   */
  lemma ExclusionExactly(run: seq<State>, sys: System, q: nat)
    requires Run(run, sys) && |run| > 1 && InTimeUpTo(run, sys, |run| - 2)
    requires q < |run[|run| - 1].procs| && run[|run| - 1].procs[q].Inside()
    ensures (forall longer: seq<State> ::
               Run(longer, sys) && run <= longer && StandsStill(longer, |run| - 1) ==>
                 Exclusive(longer[|longer| - 1])) <==>
            Alone(run[|run| - 1], q) || (Fresh(run[|run| - 1], sys) && Prompt(run[|run| - 1], sys))
  {
    hide Inv, Step, Fresh, Prompt, InTime;
    var s, n := run[|run| - 1], |run| - 1;
    RunKeepsInv(run, sys, |run| - 2);
    StepKeepsInv(run[|run| - 2], s, sys, run[0].log);
    if Alone(s, q) || (Fresh(s, sys) && Prompt(s, sys)) {
      forall longer: seq<State> | Run(longer, sys) && run <= longer && StandsStill(longer, n)
        ensures Exclusive(longer[|longer| - 1])
      {
        assert longer[n] == s && longer[0] == run[0];
        hide Run, StandsStill;
        if Alone(s, q) {
          AloneStays(longer, sys, q, n, |longer| - 1);
          OneIsExclusive(longer[|longer| - 1], q);
        } else {
          StillInTime(longer, sys, n, |longer| - 1);
          InvIsExclusive(longer[|longer| - 1], sys, run[0].log);
        }
      }
    } else {
      InvIsExclusive(s, sys, run[0].log);
      var p := SomeoneBreaks(s, sys, q);
      var longer := BreaksIn(run, sys, p, q);
    }
  }

  // ---------------------------------------------------------------- runs that break it

  /** Process 1 has seen the lock of process 0, which has left. */
  lemma LateClockFirstHalf(sys: System, log: seq<Entry>) returns (run: seq<State>)
    requires sys.sampling.AfterStat? && |sys.work| >= 3
    ensures run != [] && Trace(run, sys, true)
    ensures var s := run[|run| - 1];
            && |s.procs| == |sys.work| && s.now == 0 && s.dir == None
            && s.procs[1] == Statted(Some(0)) && s.procs[2] == Trying
  {
    var s0 := State(0, None, seq(|sys.work|, _ => Trying), log, []);
    run := [s0];
    assert Trace(run, sys, true);
    hide Trace;
    var s1 := Put(s0, 0, Holding).(dir := Some(0));
    var s2 := Put(s1, 1, Taken);
    var s3 := Put(s2, 1, Statted(Some(0)));
    var s4 := Put(s3, 0, Leaving(false));
    var s5 := Put(s4, 0, Failed).(dir := None);
    run := Move(run, sys, true, 0, s1);
    run := Move(run, sys, true, 1, s2);
    run := Move(run, sys, true, 1, s3);
    run := Move(run, sys, true, 0, s4);
    run := Move(run, sys, true, 0, s5);
  }

  /**
   With the clock read after `stat` the same bound is not enough. Process 1 sees the lock of process 0, which
   leaves in time; process 2 enters; then process 1 finds the age of the directory that is gone, removes the one of
   process 2, and enters beside it.
   */
  lemma LateClockBreaksExclusion(sys: System, log: seq<Entry>)
    requires sys.sampling.AfterStat? && |sys.work| >= 3
    ensures exists run :: Trace(run, sys, true) && !Exclusive(run[|run| - 1])
  {
    hide Trace;
    var late := sys.stale + 1;
    var run := LateClockFirstHalf(sys, log);
    var s5 := run[|run| - 1];
    var s6 := s5.(now := late);
    var s7 := Put(s6, 2, Holding).(dir := Some(late));
    var s8 := Put(s7, 1, Breaking);
    var s9 := Put(s8, 1, Trying).(dir := None);
    var s10 := Put(s9, 1, Holding).(dir := Some(late));
    run := Tick(run, sys, true, late);
    run := Move(run, sys, true, 2, s7);
    run := Move(run, sys, true, 1, s8);
    run := Move(run, sys, true, 1, s9);
    run := Move(run, sys, true, 1, s10);
    TwoInside(s10, 1, 2);
  }

  lemma TwoInside(s: State, p: nat, q: nat)
    requires p < q < |s.procs| && s.procs[p].Inside() && s.procs[q].Inside()
    ensures !Exclusive(s)
  {
  }

  /** Process 0 is dead, and processes 1 and 2 have both found its lock stale. */
  lemma DeadHolderFirstHalf(sys: System, log: seq<Entry>) returns (run: seq<State>)
    requires |sys.work| >= 3
    ensures run != [] && Trace(run, sys, false)
    ensures var s := run[|run| - 1];
            |s.procs| == |sys.work| && s.now == sys.stale + 1 && s.procs[1] == s.procs[2] == Breaking
  {
    var late := sys.stale + 1;
    var ready := if sys.sampling.BeforeStat? then Sampled(late) else Statted(Some(0));
    var s0 := State(0, None, seq(|sys.work|, _ => Trying), log, []);
    run := [s0];
    assert Trace(run, sys, false);
    hide Trace;
    var s1 := Put(s0, 0, Holding).(dir := Some(0));
    var s2 := Put(s1, 0, Dead);
    var s3 := s2.(now := late);
    var s4 := Put(s3, 1, Taken);
    var s5 := Put(s4, 2, Taken);
    var s6 := Put(s5, 1, ready);
    var s7 := Put(s6, 2, ready);
    var s8 := Put(s7, 1, Breaking);
    var s9 := Put(s8, 2, Breaking);
    run := Move(run, sys, false, 0, s1);
    run := Move(run, sys, false, 0, s2);
    run := Tick(run, sys, false, late);
    run := Move(run, sys, false, 1, s4);
    run := Move(run, sys, false, 2, s5);
    run := Move(run, sys, false, 1, s6);
    run := Move(run, sys, false, 2, s7);
    run := Move(run, sys, false, 1, s8);
    run := Move(run, sys, false, 2, s9);
  }

  /**
   The bound itself is needed, whenever the clock is read: process 0 dies inside, processes 1 and 2 both find its
   lock stale, process 1 removes it and enters, and process 2 then removes the lock of process 1.
   */
  lemma DeadHolderBreaksExclusion(sys: System, log: seq<Entry>)
    requires |sys.work| >= 3
    ensures exists run :: Trace(run, sys, false) && !Exclusive(run[|run| - 1])
  {
    hide Trace;
    var late := sys.stale + 1;
    var run := DeadHolderFirstHalf(sys, log);
    var s10 := Put(run[|run| - 1], 1, Trying).(dir := None);
    var s11 := Put(s10, 1, Holding).(dir := Some(late));
    var s12 := Put(s11, 2, Trying).(dir := None);
    var s13 := Put(s12, 2, Holding).(dir := Some(late));
    run := Move(run, sys, false, 1, s10);
    run := Move(run, sys, false, 1, s11);
    run := Move(run, sys, false, 2, s12);
    run := Move(run, sys, false, 2, s13);
    TwoInside(s13, 1, 2);
  }
}
