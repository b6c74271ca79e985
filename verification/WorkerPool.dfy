/**
 packages/core/src/memory-surface-audit.ts: `mapWithConcurrency`, for every order in which the workers make progress.
 */
module WorkerPool {
  import opened Prelude

  /** Between two awaits a worker is about to look for work, waits for its mapper, or has returned. */
  datatype Worker = Ready | Busy(index: nat) | Returned

  function CountBusy(workers: seq<Worker>): nat {
    if workers == [] then 0 else (if workers[0].Busy? then 1 else 0) + CountBusy(workers[1..])
  }

  function CountRunning(workers: seq<Worker>): nat {
    if workers == [] then 0 else (if workers[0].Returned? then 0 else 1) + CountRunning(workers[1..])
  }

  lemma {:induction false} CountsChange(workers: seq<Worker>, w: nat, next: Worker)
    requires w < |workers|
    ensures CountBusy(workers[w := next])
         == CountBusy(workers) - (if workers[w].Busy? then 1 else 0) + (if next.Busy? then 1 else 0)
    ensures CountRunning(workers[w := next]) ==
              CountRunning(workers) - (if workers[w].Returned? then 0 else 1) + (if next.Returned? then 0 else 1)
  {
    if w > 0 {
      assert workers[w := next][1..] == workers[1..][w - 1 := next];
      CountsChange(workers[1..], w - 1, next);
    } else {
      assert workers[w := next][1..] == workers[1..];
    }
  }

  lemma {:induction false} SomeRunning(workers: seq<Worker>)
    requires CountRunning(workers) > 0
    ensures exists w :: 0 <= w < |workers| && !workers[w].Returned?
  {
    if !workers[0].Returned? {
      assert 0 < |workers|;
    } else {
      SomeRunning(workers[1..]);
      var w :| 0 <= w < |workers[1..]| && !workers[1..][w].Returned?;
      assert workers[w + 1] == workers[1..][w];
    }
  }

  lemma {:induction false} NoneRunning(workers: seq<Worker>)
    requires CountRunning(workers) == 0
    ensures forall w :: 0 <= w < |workers| ==> workers[w] == Returned
  {
    if workers != [] {
      NoneRunning(workers[1..]);
      assert workers == [workers[0]] + workers[1..];
    }
  }

  lemma {:induction false} BusyAtMostAll(workers: seq<Worker>)
    ensures CountBusy(workers) <= |workers|
  {
    if workers != [] { BusyAtMostAll(workers[1..]); }
  }

  lemma {:induction false} AllReady(workers: seq<Worker>)
    requires forall w :: 0 <= w < |workers| ==> workers[w] == Ready
    ensures CountBusy(workers) == 0 && CountRunning(workers) == |workers|
  {
    if workers != [] { AllReady(workers[1..]); }
  }

  /** The length of `Array.from({ length: Math.min(concurrency, n) })`. */
  function PoolSize(concurrency: int, n: nat): nat {
    if concurrency <= 0 then 0 else if concurrency < n then concurrency else n
  }

  /**
   Whatever the schedule, the pool ends, starts the mapper once for each index in order, never has more mappers in
   flight than allowed, and leaves the mapped values; with no workers it leaves every slot empty.
   */
  method MapWithConcurrency<T, R>(values: seq<T>, concurrency: int, mapper: T -> R)
      returns (mapped: seq<Option<R>>, started: seq<nat>, peak: nat)
    ensures |mapped| == |values|
    ensures if concurrency >= 1 then forall i :: 0 <= i < |values| ==> mapped[i] == Some(mapper(values[i]))
            else forall i :: 0 <= i < |values| ==> mapped[i] == None
    ensures |started| == (if concurrency >= 1 then |values| else 0) && forall i :: 0 <= i < |started| ==>
              started[i] == i
    ensures concurrency >= 0 ==> peak <= concurrency
  {
    var results := new Option<R>[|values|](_ => None);
    var nextIndex := 0;
    var workers: seq<Worker> := seq(PoolSize(concurrency, |values|), _ => Ready);
    AllReady(workers);
    NobodyInFlight(workers);
    hide CountBusy, CountRunning, InFlight;
    ghost var size := |workers|;
    started, peak := [], 0;
    while CountRunning(workers) > 0
      invariant |workers| == size == PoolSize(concurrency, |values|) && peak <= size && nextIndex <= |values|
      invariant size == 0 ==> nextIndex == 0
      invariant |started| == nextIndex && forall i :: 0 <= i < |started| ==> started[i] == i
      invariant forall i :: 0 <= i < |values| ==>
                  if i >= nextIndex || InFlight(workers, i) then results[i] == None
                  else results[i] == Some(mapper(values[i]))
      invariant forall w :: 0 <= w < size && workers[w].Busy? ==> workers[w].index < nextIndex
      invariant forall v, w :: 0 <= v < w < size && workers[v].Busy? && workers[w].Busy? ==>
                  workers[v].index != workers[w].index
      invariant forall w :: 0 <= w < size && workers[w].Returned? ==> nextIndex == |values|
      decreases |values| - nextIndex, CountBusy(workers), CountRunning(workers)
    {
      SomeRunning(workers);
      var w :| 0 <= w < |workers| && !workers[w].Returned?;
      ghost var before := workers;
      if workers[w].Busy? {
        var index := workers[w].index;
        results[index] := Some(mapper(values[index]));
        CountsChange(workers, w, Ready);
        workers := workers[w := Ready];
        forall i ensures InFlight(workers, i) <==> InFlight(before, i) && i != index {
          FlightAfter(before, w, Ready, i);
        }
      } else if nextIndex < |values| {
        CountsChange(workers, w, Busy(nextIndex));
        workers := workers[w := Busy(nextIndex)];
        forall i ensures InFlight(workers, i) <==> InFlight(before, i) || i == nextIndex {
          FlightAfter(before, w, Busy(nextIndex), i);
        }
        started := started + [nextIndex];
        nextIndex := nextIndex + 1;
      } else {
        CountsChange(workers, w, Returned);
        workers := workers[w := Returned];
        forall i ensures InFlight(workers, i) <==> InFlight(before, i) { FlightAfter(before, w, Returned, i); }
      }
      BusyAtMostAll(workers);
      if CountBusy(workers) > peak { peak := CountBusy(workers); }
    }
    NoneRunning(workers);
    NobodyInFlight(workers);
    assert size > 0 ==> workers[0] == Returned;
    mapped := results[..];
  }

  predicate InFlight(workers: seq<Worker>, i: int) {
    exists w :: 0 <= w < |workers| && workers[w].Busy? && workers[w].index == i
  }

  lemma NobodyInFlight(workers: seq<Worker>)
    requires forall w :: 0 <= w < |workers| ==> !workers[w].Busy?
    ensures forall i :: !InFlight(workers, i)
  {
  }

  /** Only the index of the worker that moved enters or leaves the flight. */
  lemma FlightAfter(workers: seq<Worker>, w: nat, next: Worker, i: int)
    requires w < |workers|
    requires forall v, x :: 0 <= v < x < |workers| && workers[v].Busy? && workers[x].Busy? ==>
               workers[v].index != workers[x].index
    ensures InFlight(workers[w := next], i) <==>
              (InFlight(workers, i) && !(workers[w].Busy? && workers[w].index == i)) || (next.Busy? && next.index == i)
  {
    var after := workers[w := next];
    if InFlight(workers, i) {
      var v :| 0 <= v < |workers| && workers[v].Busy? && workers[v].index == i;
      if v != w { assert after[v] == workers[v]; }
    }
    if InFlight(after, i) {
      var v :| 0 <= v < |after| && after[v].Busy? && after[v].index == i;
      if v != w { assert after[v] == workers[v]; }
    }
    assert after[w] == next;
  }
}
