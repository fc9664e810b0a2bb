/**
 The client of Project4/user.c: every thread makes `calls` calls of `barrier_wait` and then stops.
 */
module BarrierClient {
  import opened Words
  import opened BarrierMachine
  import opened BarrierInvariant
  import opened BarrierRuns

  /** An enabled event; a thread that has made all its calls starts no other. */
  predicate Permitted(calls: nat, s: State, e: Event) {
    Enabled(s, e) && (e.Run? && s.threads[e.thread].pc.Outside? ==> |s.threads[e.thread].returned| < calls)
  }

  predicate ClientRun(c: Config, calls: nat, s: State, es: seq<Event>)
    decreases |es|
  {
    es == [] || (Permitted(calls, s, es[0]) && ClientRun(c, calls, Apply(c, s, es[0]), es[1..]))
  }

  lemma {:induction false} ClientRunIsLegal(c: Config, calls: nat, s: State, es: seq<Event>)
    requires ClientRun(c, calls, s, es)
    ensures Legal(c, s, es)
    decreases |es|
  {
    if es == [] {
    } else {
      ClientRunIsLegal(c, calls, Apply(c, s, es[0]), es[1..]);
    }
  }

  function ClientExec(c: Config, calls: nat, s: State, es: seq<Event>): State
    requires ClientRun(c, calls, s, es)
  {
    ClientRunIsLegal(c, calls, s, es);
    Exec(c, s, es)
  }

  /** All calls made, all threads done. */
  ghost predicate Finished(calls: nat, s: State) {
    forall t :: 0 <= t < |s.threads| ==> s.threads[t].pc.Outside? && |s.threads[t].returned| == calls
  }

  /** A thread in a call has calls left. */
  ghost predicate Quota(calls: nat, s: State) {
    forall t :: 0 <= t < |s.threads| ==>
      && |s.threads[t].returned| <= calls
      && (!s.threads[t].pc.Outside? ==> |s.threads[t].returned| < calls)
  }

  /** `th` has arrived as often as the rounds say, and its calls succeeded. */
  ghost predicate Lockstep(c: Config, s: State, th: Thread) {
    && th.Arrived() == s.h.rounds + (if s.b.condFlag || s.Holder().ExitCount? || th.pc.Owes() then 1 else 0)
    && (s.b.condFlag ==> !th.pc.PastGate())
    && forall i :: 0 <= i < |th.returned| && th.returned[i].TimedOut? ==> c.garbage && i == 0
  }

  /**
   Exactly `init_count` threads and no timeout: all threads have arrived equally often, up to the one arrival
   in the round in progress; and while the gate is set nobody is between the gate and its `left--`.
   */
  ghost predicate InStep(c: Config, s: State) {
    && |s.threads| == c.initCount
    && forall t :: 0 <= t < |s.threads| ==> Lockstep(c, s, s.threads[t])
  }

  lemma StepQuota(c: Config, calls: nat, s: State, e: Event)
    requires Quota(calls, s) && Permitted(calls, s, e)
    ensures Quota(calls, Apply(c, s, e))
  {
  }

  ghost function UpTo(n: nat): (r: set<nat>)
    ensures forall t: nat :: t in r <==> t < n
    ensures |r| == n
  {
    if n == 0 then {} else UpTo(n - 1) + {n - 1}
  }

  /** How many of the `init_count` threads are not inside. */
  lemma Outsiders(c: Config, s: State)
    requires Conserved(c, s) && |s.threads| == c.initCount
    ensures s.b.left == 0 ==> forall t :: 0 <= t < |s.threads| ==> s.threads[t].pc.Owes()
    ensures s.b.left > 0 ==> exists t :: 0 <= t < |s.threads| && !s.threads[t].pc.Owes()
  {
    var all := UpTo(|s.threads|);
    assert s.Inside() <= all;
    assert |all - s.Inside()| == s.b.left;
    if s.b.left > 0 {
      var t :| t in all - s.Inside();
      assert !s.threads[t].pc.Owes();
    } else {
      assert all - s.Inside() == {};
      forall t | 0 <= t < |s.threads| ensures s.threads[t].pc.Owes() {
        assert t in all;
      }
    }
  }

  lemma ReleaseInStep(c: Config, s: State, t: nat)
    requires c.initCount >= 2 && c.timeout <= 0
    requires Inv(c, s) && InStep(c, s) && t < |s.threads| && s.threads[t].pc.LastRelease?
    ensures InStep(c, Apply(c, s, Run(t)))
  {
    Outsiders(c, s);
  }

  lemma ResetInStep(c: Config, s: State, t: nat)
    requires c.initCount >= 2 && c.timeout <= 0
    requires Inv(c, s) && InStep(c, s) && t < |s.threads|
    requires s.threads[t].pc.ExitClearCond? || s.threads[t].pc.ExitCount?
    ensures InStep(c, Apply(c, s, Run(t)))
  {
    SomeoneInside(c, s);
    HolderAfter(c, s, t);
  }

  /** The other statements leave gate, round and resetter alone. */
  lemma QuietStatement(c: Config, s: State, t: nat)
    requires Mutex(s) && Enabled(s, Run(t))
    requires
      var pc := s.threads[t].pc;
      !pc.LastRelease? && !pc.ExitClearCond? && !pc.ExitCount?
    ensures
      var s' := Apply(c, s, Run(t));
      && s'.b.condFlag == s.b.condFlag && s'.h.rounds == s.h.rounds
      && s'.Holder().ExitCount? == s.Holder().ExitCount?
  {
    HolderAfter(c, s, t);
  }

  /** A returning call was an arrival already; its code is that of an untimed barrier. */
  lemma ReturnLockstep(c: Config, s: State, t: nat)
    requires c.initCount >= 2 && c.timeout <= 0
    requires Inv(c, s) && t < |s.threads| && Lockstep(c, s, s.threads[t])
    requires s.threads[t].pc.LastInc? || s.threads[t].pc.ExitReturn?
    ensures Lockstep(c, Apply(c, s, Run(t)), Apply(c, s, Run(t)).threads[t])
  {
  }

  /** Any other statement of `t` leaves its codes alone, and only its `left--` is an arrival. */
  lemma OwnLockstep(c: Config, s: State, t: nat)
    requires c.initCount >= 2 && c.timeout <= 0
    requires Inv(c, s) && Enabled(s, Run(t)) && Lockstep(c, s, s.threads[t])
    requires
      var pc := s.threads[t].pc;
      && !pc.LastRelease? && !pc.ExitClearCond? && !pc.ExitCount?
      && !pc.LastInc? && !pc.ExitReturn?
    ensures Lockstep(c, Apply(c, s, Run(t)), Apply(c, s, Run(t)).threads[t])
  {
    QuietStatement(c, s, t);
    var th, th' := s.threads[t], Apply(c, s, Run(t)).threads[t];
    assert th'.returned == th.returned;
    if th.pc.Critical() {
      assert s.Holder() == th.pc;
    } else {
      assert th'.Arrived() == th.Arrived();
    }
  }

  lemma OwnInStep(c: Config, s: State, t: nat)
    requires c.initCount >= 2 && c.timeout <= 0
    requires Inv(c, s) && InStep(c, s) && Enabled(s, Run(t))
    requires
      var pc := s.threads[t].pc;
      !pc.LastRelease? && !pc.ExitClearCond? && !pc.ExitCount?
    ensures InStep(c, Apply(c, s, Run(t)))
  {
    QuietStatement(c, s, t);
    if s.threads[t].pc.LastInc? || s.threads[t].pc.ExitReturn? {
      ReturnLockstep(c, s, t);
    } else {
      OwnLockstep(c, s, t);
    }
  }

  lemma StepInStep(c: Config, s: State, e: Event)
    requires c.initCount >= 2 && c.timeout <= 0
    requires Inv(c, s) && InStep(c, s) && Enabled(s, e)
    ensures InStep(c, Apply(c, s, e))
  {
    var t := e.thread;
    var pc := s.threads[t].pc;
    if pc.LastRelease? {
      ReleaseInStep(c, s, t);
    } else if pc.ExitClearCond? || pc.ExitCount? {
      ResetInStep(c, s, t);
    } else {
      OwnInStep(c, s, t);
    }
  }

  lemma {:induction false} ExecClient(c: Config, calls: nat, s: State, es: seq<Event>)
    requires c.initCount >= 2 && Inv(c, s) && Quota(calls, s) && ClientRun(c, calls, s, es)
    ensures var s' := ClientExec(c, calls, s, es);
      && Inv(c, s') && Quota(calls, s') && |s'.threads| == |s.threads|
      && (c.timeout <= 0 && InStep(c, s) ==> InStep(c, s'))
    decreases |es|
  {
    if es == [] {
    } else {
      var s1 := Apply(c, s, es[0]);
      StepInv(c, s, es[0]);
      StepQuota(c, calls, s, es[0]);
      if c.timeout <= 0 && InStep(c, s) {
        StepInStep(c, s, es[0]);
      }
      ExecClient(c, calls, s1, es[1..]);
    }
  }

  /** A state of the client program with `threads` threads making `calls` calls each. */
  ghost predicate ClientReachable(c: Config, threads: nat, calls: nat, s: State) {
    exists es :: ClientRun(c, calls, Init(c, threads), es) && ClientExec(c, calls, Init(c, threads), es) == s
  }

  lemma ClientInv(c: Config, threads: nat, calls: nat, s: State)
    requires c.initCount >= 2 && ClientReachable(c, threads, calls, s)
    ensures Inv(c, s) && Quota(calls, s) && |s.threads| == threads
    ensures c.timeout <= 0 && threads == c.initCount ==> InStep(c, s)
  {
    var es :| ClientRun(c, calls, Init(c, threads), es) && ClientExec(c, calls, Init(c, threads), es) == s;
    InitInv(c, threads);
    ExecClient(c, calls, Init(c, threads), es);
  }

  // ---------- safety of the client ----------

  /**
   No thread returns from its r-th call before every thread has done its `left--` for its r-th call:
   the calls any thread has finished never exceed the arrivals of any other.
   */
  lemma BarrierSafe(c: Config, calls: nat, s: State, t: nat, u: nat)
    requires c.initCount >= 2 && c.timeout <= 0 && ClientReachable(c, c.initCount, calls, s)
    requires t < c.initCount && u < c.initCount
    ensures |s.threads| == c.initCount
    ensures |s.threads[t].returned| <= s.threads[u].Arrived()
  {
    ClientInv(c, c.initCount, calls, s);
  }

  /** Any two threads' finished calls differ by at most one, and nobody is past the gate while it is set. */
  lemma BoundedDrift(c: Config, calls: nat, s: State, t: nat, u: nat)
    requires c.initCount >= 2 && c.timeout <= 0 && ClientReachable(c, c.initCount, calls, s)
    requires t < c.initCount && u < c.initCount
    ensures |s.threads| == c.initCount
    ensures |s.threads[t].returned| <= |s.threads[u].returned| + 1
    ensures s.b.condFlag ==> !s.threads[t].pc.PastGate()
  {
    ClientInv(c, c.initCount, calls, s);
    if s.Holder() == ExitReturn(true) {
      SomeoneInside(c, s);
    }
  }

  /** With the mutex free, `sync_num` is the number of calls that every thread has finished (modulo the word). */
  lemma SyncIsMinimum(c: Config, calls: nat, s: State)
    requires c.initCount >= 2 && c.timeout <= 0 && ClientReachable(c, c.initCount, calls, s)
    requires s.b.owner.None?
    ensures |s.threads| == c.initCount && s.b.syncNum == s.h.rounds % WORD
    ensures forall t :: 0 <= t < |s.threads| ==> s.h.rounds <= |s.threads[t].returned|
    ensures exists t :: 0 <= t < |s.threads| && s.h.rounds == |s.threads[t].returned|
  {
    ClientInv(c, c.initCount, calls, s);
    SomeoneInside(c, s);
    if s.b.condFlag {
      var t: nat :| t < |s.threads| && s.threads[t].pc.Owes();
      assert |s.threads[t].returned| == s.h.rounds;
    } else {
      assert |s.threads[0].returned| == s.h.rounds;
    }
  }

  // ---------- progress ----------

  /**
   No deadlock: with a timeout and any number of threads, or without one and exactly `init_count` threads,
   some event is permitted until every thread has made all its calls.
   */
  lemma DeadlockFree(c: Config, threads: nat, calls: nat, s: State)
    requires c.initCount >= 2 && ClientReachable(c, threads, calls, s)
    requires c.timeout > 0 || threads == c.initCount
    ensures Finished(calls, s) || exists e :: Permitted(calls, s, e)
  {
    ClientInv(c, threads, calls, s);
    if forall e :: !Permitted(calls, s, e) {
      StuckMeansFinished(c, calls, s);
    }
  }

  lemma StuckMeansFinished(c: Config, calls: nat, s: State)
    requires c.initCount >= 2 && Inv(c, s) && Quota(calls, s)
    requires c.timeout > 0 || InStep(c, s)
    requires forall e :: !Permitted(calls, s, e)
    ensures Finished(calls, s) && s.b.owner.None? && !s.b.firing
  {
    var holderRuns := s.b.owner.Some? && Permitted(calls, s, Run(s.b.owner.value));
    var timerFires := Permitted(calls, s, Fire);
    var flagLands := Permitted(calls, s, Flag);
    forall t | 0 <= t < |s.threads|
      ensures s.threads[t].pc.Outside? || s.threads[t].pc.AtGate? || s.threads[t].pc.Sleeping?
      ensures s.threads[t].pc.Outside? ==> |s.threads[t].returned| == calls
      ensures s.threads[t].pc.AtGate? ==> s.b.condFlag
      ensures s.threads[t].pc.Sleeping? ==> !s.b.condFlag
    {
      var runs := Permitted(calls, s, Run(t));
    }
    SomeoneInside(c, s);
    if c.timeout <= 0 && |s.threads| > 0 {
      Outsiders(c, s);
    }
  }

  // ---------- termination ----------

  function ThreadWork(calls: nat, th: Thread): int {
    16 * (calls - |th.returned|) - if th.pc.Outside? then 0 else 16 - Rank(th.pc)
  }

  function Work(calls: nat, ths: seq<Thread>): int {
    if ths == [] then 0 else ThreadWork(calls, ths[0]) + Work(calls, ths[1..])
  }

  /** An upper bound on the events to come. */
  function Remaining(calls: nat, s: State): int {
    Work(calls, s.threads) + (if s.b.armed then 2 else 0) + if s.b.firing then 1 else 0
  }

  lemma {:induction false} WorkUpdate(calls: nat, ths: seq<Thread>, t: nat, th: Thread)
    requires t < |ths|
    ensures Work(calls, ths[t := th]) == Work(calls, ths) - ThreadWork(calls, ths[t]) + ThreadWork(calls, th)
  {
    if t == 0 {
      assert ths[t := th][1..] == ths[1..];
    } else {
      assert ths[t := th][1..] == ths[1..][t - 1 := th];
      WorkUpdate(calls, ths[1..], t - 1, th);
    }
  }

  lemma {:induction false} WorkBounds(calls: nat, ths: seq<Thread>)
    requires forall t :: 0 <= t < |ths| ==>
      |ths[t].returned| <= calls && (!ths[t].pc.Outside? ==> |ths[t].returned| < calls)
    ensures 0 <= Work(calls, ths) <= 16 * calls * |ths|
  {
    if ths == [] {
    } else {
      WorkBounds(calls, ths[1..]);
      assert 16 * calls * |ths| == 16 * calls * |ths[1..]| + 16 * calls;
    }
  }

  /** Every permitted event uses up some of the remaining work. */
  lemma StepTerminates(c: Config, calls: nat, s: State, e: Event)
    requires Quota(calls, s) && Permitted(calls, s, e)
    ensures Remaining(calls, Apply(c, s, e)) < Remaining(calls, s)
  {
    if e.Run? {
      var th, th' := s.threads[e.thread], Apply(c, s, e).threads[e.thread];
      WorkUpdate(calls, s.threads, e.thread, th');
      assert ThreadWork(calls, th') < ThreadWork(calls, th) - if th.pc.EntryCheck? then 2 else 0;
    }
  }

  lemma {:induction false} RunBound(c: Config, calls: nat, s: State, es: seq<Event>)
    requires Quota(calls, s) && ClientRun(c, calls, s, es)
    ensures |es| + Remaining(calls, ClientExec(c, calls, s, es)) <= Remaining(calls, s)
    ensures Quota(calls, ClientExec(c, calls, s, es))
    decreases |es|
  {
    if es == [] {
    } else {
      StepQuota(c, calls, s, es[0]);
      StepTerminates(c, calls, s, es[0]);
      RunBound(c, calls, Apply(c, s, es[0]), es[1..]);
    }
  }

  /** Every run of the client is finite: at most sixteen events for each call of each thread. */
  lemma ClientTerminates(c: Config, threads: nat, calls: nat, es: seq<Event>)
    requires ClientRun(c, calls, Init(c, threads), es)
    ensures |es| <= 16 * calls * threads
  {
    RunBound(c, calls, Init(c, threads), es);
    WorkBounds(calls, Init(c, threads).threads);
    WorkBounds(calls, ClientExec(c, calls, Init(c, threads), es).threads);
  }

  /**
   A run that cannot be extended has finished the client: every thread has made all its calls and the barrier
   is drained.  With exactly `init_count` threads and no timeout, `sync_num` has counted every call.
   */
  lemma MaximalRunsFinish(c: Config, threads: nat, calls: nat, s: State)
    requires c.initCount >= 2 && ClientReachable(c, threads, calls, s)
    requires c.timeout > 0 || threads == c.initCount
    requires forall e :: !Permitted(calls, s, e)
    ensures Finished(calls, s) && s.b.owner.None? && s.b.left == c.initCount
    ensures !s.b.condFlag && !s.b.armed && !s.b.firing
    ensures c.timeout <= 0 ==> s.h.rounds == calls && s.b.syncNum == calls % WORD
  {
    ClientInv(c, threads, calls, s);
    StuckMeansFinished(c, calls, s);
    SomeoneInside(c, s);
    if c.timeout <= 0 {
      assert s.threads[0].Arrived() == calls;
    }
  }

  lemma CanFinish(c: Config, calls: nat, s: State) returns (es: seq<Event>)
    requires c.initCount >= 2 && Inv(c, s) && Quota(calls, s)
    requires c.timeout > 0 || InStep(c, s)
    ensures ClientRun(c, calls, s, es) && Finished(calls, ClientExec(c, calls, s, es))
    decreases Remaining(calls, s)
  {
    WorkBounds(calls, s.threads);
    if e :| Permitted(calls, s, e) {
      var s' := Apply(c, s, e);
      StepInv(c, s, e);
      StepQuota(c, calls, s, e);
      StepTerminates(c, calls, s, e);
      if c.timeout <= 0 {
        StepInStep(c, s, e);
      }
      WorkBounds(calls, s'.threads);
      var rest := CanFinish(c, calls, s');
      es := [e] + rest;
      assert es[1..] == rest;
    } else {
      StuckMeansFinished(c, calls, s);
      es := [];
    }
  }

  /** From every state of the client some schedule finishes it. */
  lemma ClientCanFinish(c: Config, threads: nat, calls: nat, s: State) returns (es: seq<Event>)
    requires c.initCount >= 2 && ClientReachable(c, threads, calls, s)
    requires c.timeout > 0 || threads == c.initCount
    ensures ClientRun(c, calls, s, es) && Finished(calls, ClientExec(c, calls, s, es))
  {
    ClientInv(c, threads, calls, s);
    es := CanFinish(c, calls, s);
  }

  lemma {:induction false} SomeQuota(ths: seq<Thread>) returns (calls: nat)
    ensures forall t :: 0 <= t < |ths| ==> |ths[t].returned| < calls
  {
    if ths == [] {
      calls := 0;
    } else {
      var rest := SomeQuota(ths[1..]);
      calls := if rest > |ths[0].returned| then rest else |ths[0].returned| + 1;
      assert forall t :: 0 < t < |ths| ==> ths[t] == ths[1..][t - 1];
    }
  }

  /**
   With a timeout nobody is stranded, whatever the number of threads and calls so far: from every reachable
   state some schedule brings every thread out of the barrier and leaves it drained.
   */
  lemma EveryoneGetsOut(c: Config, threads: nat, s: State) returns (es: seq<Event>)
    requires c.initCount >= 2 && c.timeout > 0 && Reachable(c, threads, s)
    ensures Legal(c, s, es)
    ensures
      var s' := Exec(c, s, es);
      s'.b.left == c.initCount && forall t :: 0 <= t < |s'.threads| ==> s'.threads[t].pc.Outside?
  {
    ReachableInv(c, threads, s);
    var calls := SomeQuota(s.threads);
    es := CanFinish(c, calls, s);
    ClientRunIsLegal(c, calls, s, es);
    ExecInv(c, s, es);
    SomeoneInside(c, Exec(c, s, es));
  }
}
