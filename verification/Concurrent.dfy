/** Bounded concurrent mapping: a fixed number of workers take indices from a shared counter and write results in place,
    resuming in any order. */
module Concurrent {
  import opened Basics

  /** A worker awaits the operation of one index, or has found no index left. */
  datatype Worker = Awaiting(index: nat) | Finished

  /** `taken` lists the indices handed out, in order. */
  datatype Pool<R> = Pool(next: nat, results: seq<Option<R>>, workers: seq<Worker>, taken: seq<nat>)

  /** A worker takes the next index, or ends. */
  function Take<R>(p: Pool<R>, w: nat): Pool<R>
    requires w < |p.workers|
  {
    if p.next >= |p.results| then p.(next := p.next + 1, workers := p.workers[w := Finished])
    else p.(next := p.next + 1, workers := p.workers[w := Awaiting(p.next)], taken := p.taken + [p.next])
  }

  /** The workers start one after the other, each running to its first await. */
  function StartWorkers<R>(p: Pool<R>, count: nat): Pool<R>
    requires count <= |p.workers|
    ensures |StartWorkers(p, count).workers| == |p.workers| && |StartWorkers(p, count).results| == |p.results|
  {
    if count == 0 then p else Take(StartWorkers(p, count - 1), count - 1)
  }

  function Start<T, R>(values: seq<T>, limit: nat): Pool<R>
  {
    var count := if limit < |values| then limit else |values|;
    StartWorkers(Pool(0, seq(|values|, _ => None), seq(count, _ => Finished), []), count)
  }

  /** The operation a worker awaits is done, and it stores the result. */
  function Store<T, R>(p: Pool<R>, values: seq<T>, f: T -> R, w: nat): Pool<R>
    requires w < |p.workers| && p.workers[w].Awaiting? && p.workers[w].index < |values| == |p.results|
  {
    var i := p.workers[w].index;
    p.(results := p.results[i := Some(f(values[i]))], workers := p.workers[w := Finished])
  }

  /** A worker whose operation is done goes on to its next await. */
  function Resume<T, R>(p: Pool<R>, values: seq<T>, f: T -> R, w: nat): Pool<R>
    requires |p.results| == |values|
  {
    if w >= |p.workers| || p.workers[w].Finished? || p.workers[w].index >= |values| then p
    else Take(Store(p, values, f, w), w)
  }

  /** A run resumes workers in the order of `schedule`. */
  function Run<T, R>(values: seq<T>, limit: nat, f: T -> R, schedule: seq<nat>): (p: Pool<R>)
    ensures |p.results| == |values|
  {
    if schedule == [] then Start(values, limit)
    else Resume(Run(values, limit, f, schedule[..|schedule| - 1]), values, f, schedule[|schedule| - 1])
  }

  predicate IsAwaited<R>(p: Pool<R>, i: nat)
  {
    exists w :: 0 <= w < |p.workers| && p.workers[w] == Awaiting(i)
  }

  function Handed<R>(p: Pool<R>): nat
  {
    if p.next < |p.results| then p.next else |p.results|
  }

  /** Indices are handed out in order and awaited by one worker each; every one handed out and no longer awaited has its
      result. */
  ghost predicate PoolOk<T, R>(p: Pool<R>, values: seq<T>, f: T -> R)
  {
    && |p.results| == |values|
    && p.taken == seq(Handed(p), i => i)
    && (forall w :: 0 <= w < |p.workers| && p.workers[w].Awaiting? ==> p.workers[w].index < Handed(p))
    && (forall v, w :: 0 <= v < w < |p.workers| && p.workers[v].Awaiting? ==> p.workers[v] != p.workers[w])
    && (forall i :: 0 <= i < Handed(p) && !IsAwaited(p, i) ==> p.results[i] == Some(f(values[i])))
  }

  /** Of the workers started, one ended only when no index was left; the others have not begun. */
  ghost predicate EndedLate<R>(p: Pool<R>, started: nat)
  {
    && started <= |p.workers|
    && (forall w :: 0 <= w < started && p.workers[w].Finished? ==> p.next >= |p.results|)
    && (forall w :: started <= w < |p.workers| ==> p.workers[w].Finished?)
  }

  lemma TakeKeeps<T, R>(p: Pool<R>, values: seq<T>, f: T -> R, w: nat)
    requires PoolOk(p, values, f) && w < |p.workers| && p.workers[w].Finished?
    ensures PoolOk(Take(p, w), values, f)
  {
    var q := Take(p, w);
    forall i | 0 <= i < Handed(q) && !IsAwaited(q, i) ensures q.results[i] == Some(f(values[i])) {
      TakeAwaits(p, w, i);
    }
  }

  lemma TakeAwaits<R>(p: Pool<R>, w: nat, i: nat)
    requires w < |p.workers| && p.workers[w].Finished?
    ensures IsAwaited(p, i) ==> IsAwaited(Take(p, w), i)
    ensures i == p.next < |p.results| ==> IsAwaited(Take(p, w), i)
  {
    var q := Take(p, w);
    if v :| 0 <= v < |p.workers| && p.workers[v] == Awaiting(i) {
      assert q.workers[v] == Awaiting(i);
    }
    if i == p.next < |p.results| {
      assert q.workers[w] == Awaiting(i);
    }
  }

  lemma StoreKeeps<T, R>(p: Pool<R>, values: seq<T>, f: T -> R, w: nat)
    requires PoolOk(p, values, f) && w < |p.workers| && p.workers[w].Awaiting?
    ensures PoolOk(Store(p, values, f, w), values, f)
  {
    var q := Store(p, values, f, w);
    forall i | 0 <= i < Handed(q) && !IsAwaited(q, i) ensures q.results[i] == Some(f(values[i])) {
      StoreAwaits(p, values, f, w, i);
    }
  }

  lemma StoreAwaits<T, R>(p: Pool<R>, values: seq<T>, f: T -> R, w: nat, i: nat)
    requires w < |p.workers| && p.workers[w].Awaiting? && p.workers[w].index < |values| == |p.results|
    ensures IsAwaited(p, i) && i != p.workers[w].index ==> IsAwaited(Store(p, values, f, w), i)
  {
    var q := Store(p, values, f, w);
    if v :| 0 <= v < |p.workers| && p.workers[v] == Awaiting(i) && i != p.workers[w].index {
      assert q.workers[v] == Awaiting(i);
    }
  }

  lemma {:induction false} StartKeeps<T, R>(p: Pool<R>, values: seq<T>, f: T -> R, count: nat)
    requires PoolOk(p, values, f) && EndedLate(p, 0) && count <= |p.workers|
    ensures PoolOk(StartWorkers(p, count), values, f) && EndedLate(StartWorkers(p, count), count)
  {
    hide PoolOk;
    if count > 0 {
      StartKeeps(p, values, f, count - 1);
      TakeKeeps(StartWorkers(p, count - 1), values, f, count - 1);
    }
  }

  lemma {:induction false} RunKeeps<T, R>(values: seq<T>, limit: nat, f: T -> R, schedule: seq<nat>)
    ensures var p := Run(values, limit, f, schedule);
            PoolOk(p, values, f) && EndedLate(p, |p.workers|) && (limit > 0 && values != [] ==> |p.workers| > 0)
  {
    if schedule == [] {
      var count := if limit < |values| then limit else |values|;
      var p: Pool<R> := Pool(0, seq(|values|, _ => None), seq(count, _ => Finished), []);
      assert PoolOk(p, values, f);
      StartKeeps(p, values, f, count);
    } else {
      var before := Run(values, limit, f, schedule[..|schedule| - 1]);
      RunKeeps(values, limit, f, schedule[..|schedule| - 1]);
      var w := schedule[|schedule| - 1];
      if w < |before.workers| && before.workers[w].Awaiting? {
        ResumeKeeps(before, values, f, w);
      }
    }
  }

  lemma ResumeKeeps<T, R>(p: Pool<R>, values: seq<T>, f: T -> R, w: nat)
    requires PoolOk(p, values, f) && EndedLate(p, |p.workers|) && w < |p.workers| && p.workers[w].Awaiting?
    ensures PoolOk(Resume(p, values, f, w), values, f) && EndedLate(Resume(p, values, f, w), |p.workers|)
  {
    StoreKeeps(p, values, f, w);
    TakeKeeps(Store(p, values, f, w), values, f, w);
  }

  /** Whatever the order in which operations complete: when all workers ended, every index was taken once, in order, and
      the results are those of a plain map. */
  lemma EveryScheduleMaps<T, R>(values: seq<T>, limit: nat, f: T -> R, schedule: seq<nat>)
    requires limit > 0
    requires forall w :: 0 <= w < |Run(values, limit, f, schedule).workers| ==> Run(values, limit, f, schedule).workers[w].Finished?
    ensures var p := Run(values, limit, f, schedule);
            && p.taken == seq(|values|, i => i)
            && p.results == seq(|values|, i requires 0 <= i < |values| => Some(f(values[i])))
  {
    hide Run;
    var p := Run(values, limit, f, schedule);
    RunKeeps(values, limit, f, schedule);
    if values != [] {
      assert p.workers[0].Finished?;
    }
    assert Handed(p) == |values|;
  }

  /** A completion stores its own result and moves the counter by one, with never more workers than the limit. */
  lemma OneCompletion<T, R>(values: seq<T>, limit: nat, f: T -> R, schedule: seq<nat>, w: nat)
    requires w < |Run(values, limit, f, schedule).workers| && Run(values, limit, f, schedule).workers[w].Awaiting?
    ensures var p := Run(values, limit, f, schedule);
            var q := Run(values, limit, f, schedule + [w]);
            && |p.workers| <= limit
            && p.workers[w].index < |values|
            && q.results[p.workers[w].index] == Some(f(values[p.workers[w].index]))
            && q.next == p.next + 1
  {
    RunKeeps(values, limit, f, schedule);
    assert (schedule + [w])[..|schedule + [w]| - 1] == schedule;
    WorkersBounded(values, limit, f, schedule);
  }

  lemma {:induction false} WorkersBounded<T, R>(values: seq<T>, limit: nat, f: T -> R, schedule: seq<nat>)
    ensures |Run(values, limit, f, schedule).workers| <= limit
  {
    if schedule != [] {
      WorkersBounded(values, limit, f, schedule[..|schedule| - 1]);
    }
  }

  // ---------------------------------------------------------------------------------------------
  // Termination
  // ---------------------------------------------------------------------------------------------

  /** How many workers await an operation. */
  function Working(workers: seq<Worker>): nat
  {
    if workers == [] then 0
    else Working(workers[..|workers| - 1]) + if workers[|workers| - 1].Awaiting? then 1 else 0
  }

  lemma {:induction false} WorkingAfter(workers: seq<Worker>, w: nat, worker: Worker)
    requires w < |workers|
    ensures Working(workers[w := worker]) + (if workers[w].Awaiting? then 1 else 0) ==
            Working(workers) + if worker.Awaiting? then 1 else 0
  {
    var n := |workers| - 1;
    if w < n {
      WorkingAfter(workers[..n], w, worker);
      assert workers[w := worker][..n] == workers[..n][w := worker];
    } else {
      assert workers[w := worker][..n] == workers[..n];
    }
  }

  lemma {:induction false} NobodyWorks(workers: seq<Worker>)
    ensures Working(workers) == 0 <==> forall w :: 0 <= w < |workers| ==> workers[w].Finished?
  {
    if workers != [] {
      var n := |workers| - 1;
      NobodyWorks(workers[..n]);
      assert workers == workers[..n] + [workers[n]];
    }
  }

  /** The operations still to complete: those under way and those of the indices not handed out. */
  function Remaining<R>(p: Pool<R>): nat
  {
    Working(p.workers) + |p.results| - Handed(p)
  }

  /** Every entry of the schedule is a worker whose operation is under way at that point. */
  ghost predicate Completes<T, R>(values: seq<T>, limit: nat, f: T -> R, schedule: seq<nat>)
  {
    schedule != [] ==>
      var init, w := schedule[..|schedule| - 1], schedule[|schedule| - 1];
      var p := Run(values, limit, f, init);
      Completes(values, limit, f, init) && w < |p.workers| && p.workers[w].Awaiting?
  }

  lemma {:induction false} AllStart<R>(p: Pool<R>, count: nat)
    requires count <= |p.workers| && count <= |p.results| && p.next == 0 && Working(p.workers) == 0
    ensures StartWorkers(p, count).next == count && Working(StartWorkers(p, count).workers) == count
  {
    if count > 0 {
      AllStart(p, count - 1);
      var q := StartWorkers(p, count - 1);
      StartsFinished(p, count - 1, count - 1);
      NobodyWorks(p.workers);
      WorkingAfter(q.workers, count - 1, Awaiting(q.next));
    }
  }

  /** Workers not started yet are as they were. */
  lemma {:induction false} StartsFinished<R>(p: Pool<R>, count: nat, w: nat)
    requires count <= w < |p.workers|
    ensures StartWorkers(p, count).workers[w] == p.workers[w]
  {
    if count > 0 {
      StartsFinished(p, count - 1, w);
    }
  }

  lemma CompletionCounts<T, R>(p: Pool<R>, values: seq<T>, f: T -> R, w: nat)
    requires PoolOk(p, values, f) && w < |p.workers| && p.workers[w].Awaiting?
    ensures Remaining(Resume(p, values, f, w)) + 1 == Remaining(p)
  {
    var q := Store(p, values, f, w);
    WorkingAfter(p.workers, w, Finished);
    WorkingAfter(q.workers, w, if p.next < |values| then Awaiting(p.next) else Finished);
  }

  lemma {:induction false} RemainingAfter<T, R>(values: seq<T>, limit: nat, f: T -> R, schedule: seq<nat>)
    requires Completes(values, limit, f, schedule)
    ensures Remaining(Run(values, limit, f, schedule)) + |schedule| == |values|
  {
    hide PoolOk, Resume, Working;
    if schedule == [] {
      var count := if limit < |values| then limit else |values|;
      var p: Pool<R> := Pool(0, seq(|values|, _ => None), seq(count, _ => Finished), []);
      NobodyWorks(p.workers);
      AllStart(p, count);
    } else {
      var init := schedule[..|schedule| - 1];
      RemainingAfter(values, limit, f, init);
      RunKeeps(values, limit, f, init);
      CompletionCounts(Run(values, limit, f, init), values, f, schedule[|schedule| - 1]);
    }
  }

  /** The map always ends: until it has some operation is under way, and it has ended exactly after as many completions as
      there are values. */
  lemma EveryMapEnds<T, R>(values: seq<T>, limit: nat, f: T -> R, schedule: seq<nat>)
    requires limit > 0 && Completes(values, limit, f, schedule)
    ensures var p := Run(values, limit, f, schedule);
            && |schedule| <= |values|
            && (|schedule| < |values| ==> exists w :: 0 <= w < |p.workers| && p.workers[w].Awaiting?)
            && (|schedule| == |values| <==> forall w :: 0 <= w < |p.workers| ==> p.workers[w].Finished?)
  {
    hide Run, Completes, PoolOk;
    var p := Run(values, limit, f, schedule);
    RemainingAfter(values, limit, f, schedule);
    RunKeeps(values, limit, f, schedule);
    NobodyWorks(p.workers);
    if Working(p.workers) == 0 {
      HandedOut(values, limit, f, schedule);
    }
  }

  /** When all workers ended, all indices were handed out. */
  lemma HandedOut<T, R>(values: seq<T>, limit: nat, f: T -> R, schedule: seq<nat>)
    requires limit > 0
    requires forall w :: 0 <= w < |Run(values, limit, f, schedule).workers| ==> Run(values, limit, f, schedule).workers[w].Finished?
    ensures Handed(Run(values, limit, f, schedule)) == |values|
  {
    hide Run, PoolOk;
    var p := Run(values, limit, f, schedule);
    RunKeeps(values, limit, f, schedule);
    if values != [] {
      assert p.workers[0].Finished?;
    }
  }
}
