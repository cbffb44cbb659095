/** No call of the agenda lock is stuck: from every reachable state the calls can finish in their order, each running its
    own operation. */
module AgendaLockProgress {
  import opened Basics
  import opened AgendaLock

  function Finished(s: Lock, n: nat): Lock
  {
    Next(Next(Next(Next(s, Proceed(n)), Admit(n, true)), Settle(n)), Close(n))
  }

  /** The first call of its event that has not ended gets through with its own steps alone. They end it, and change no
      other call. */
  lemma FirstFinishes(s: Lock, n: nat)
    requires Invariant(s) && n < |s.calls| && EarlierEnded(s, n)
    ensures var t := Finished(s, n);
            && Invariant(t)
            && t.calls == s.calls[n := Call(s.calls[n].event, s.calls[n].previous, Ended)]
  {
    hide Invariant, EarlierEnded, Next;
    var a := Next(s, Proceed(n));
    var b := Next(a, Admit(n, true));
    var c := Next(b, Settle(n));
    FirstMayProceed(s, n);
    NextKeeps(s, Proceed(n));
    NextKeeps(a, Admit(n, true));
    NextKeeps(b, Settle(n));
    NextKeeps(c, Close(n));
    ProceedsOrStays(s, n);
    AdmitsOrStays(a, n);
    SettlesOrStays(b, n);
    ClosesOrStays(c, n);
  }

  lemma ProceedsOrStays(s: Lock, n: nat)
    requires n < |s.calls| && CanProceed(s, n)
    ensures Next(s, Proceed(n)).calls == s.calls[n := s.calls[n].(stage := if s.calls[n].stage.Waiting? then Admitting else s.calls[n].stage)]
  {
  }

  lemma AdmitsOrStays(s: Lock, n: nat)
    requires n < |s.calls|
    ensures Next(s, Admit(n, true)).calls == s.calls[n := s.calls[n].(stage := if s.calls[n].stage.Admitting? then Running else s.calls[n].stage)]
  {
  }

  lemma SettlesOrStays(s: Lock, n: nat)
    requires n < |s.calls|
    ensures Next(s, Settle(n)).calls == s.calls[n := s.calls[n].(stage := if s.calls[n].stage.Running? then Closing else s.calls[n].stage)]
  {
  }

  lemma ClosesOrStays(s: Lock, n: nat)
    requires n < |s.calls|
    ensures Next(s, Close(n)).calls == s.calls[n := s.calls[n].(stage := if s.calls[n].stage.Closing? then Ended else s.calls[n].stage)]
  {
  }

  lemma FirstMayProceed(s: Lock, n: nat)
    requires Invariant(s) && n < |s.calls| && EarlierEnded(s, n)
    ensures CanProceed(s, n)
  {
    hide TailOk, ActiveOk;
    assert Chained(s, n);
  }

  /** A waiting call that is first runs its operation: once admitted it is the event's current operation. */
  lemma FirstOperates(s: Lock, n: nat)
    requires Invariant(s) && n < |s.calls| && EarlierEnded(s, n) && s.calls[n].stage.Waiting?
    ensures var t := Next(Next(s, Proceed(n)), Admit(n, true));
            t.calls[n].stage.Running? && CurrentOperation(t, s.calls[n].event) == Some(n)
  {
    hide Invariant, EarlierEnded;
    FirstMayProceed(s, n);
  }

  /** The state after the calls before `k` have finished in order. */
  function AllFinished(s: Lock, k: nat): Lock
  {
    if k == 0 then s else Finished(AllFinished(s, k - 1), k - 1)
  }

  lemma {:induction false} CallsFinish(s: Lock, k: nat)
    requires Invariant(s) && k <= |s.calls|
    ensures var t := AllFinished(s, k);
            && Invariant(t) && |t.calls| == |s.calls|
            && (forall n :: 0 <= n < k ==> t.calls[n].stage.Ended?)
            && (forall n :: k <= n < |s.calls| ==> t.calls[n] == s.calls[n])
  {
    hide Invariant, Finished;
    if k > 0 {
      CallsFinish(s, k - 1);
      FirstFinishes(AllFinished(s, k - 1), k - 1);
    }
  }

  /** From every reachable state all calls can finish, one after the other, and then the lock holds nothing. */
  lemma EveryCallCanFinish(steps: seq<Step>)
    ensures var s := Run(steps);
            var t := AllFinished(s, |s.calls|);
            && |t.calls| == |s.calls|
            && (forall n :: 0 <= n < |t.calls| ==> t.calls[n].stage.Ended?)
            && t.tails == map[] && t.active == map[]
  {
    hide Run, AllFinished, Chained, EarlierEnded;
    RunIsOk(steps);
    var s := Run(steps);
    CallsFinish(s, |s.calls|);
    var t := AllFinished(s, |s.calls|);
    forall event ensures event !in t.tails && event !in t.active {
      assert TailOk(t, event);
    }
    assert t.tails.Keys == {} && t.active.Keys == {};
  }
}
