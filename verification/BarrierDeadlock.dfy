/** The untimed barrier with fewer or more threads than its count: when the client can get stuck. */
module BarrierDeadlock {
  import opened Words
  import opened BarrierMachine
  import opened BarrierInvariant
  import opened BarrierClient
  import opened BarrierMoves

  // ---------- fewer threads than the count ----------

  /** On the way into its first call, or asleep in it. */
  predicate Entering(th: Thread) {
    && (th.pc.Outside? || th.pc.AtGate? || th.pc.PastGate() || th.pc.EntryBranch? || th.pc.Sleeping?)
    && th.returned == []
  }

  /** The gate was never set and nobody has finished a call. */
  ghost predicate Starved(c: Config, s: State) {
    && !s.b.condFlag && !s.b.armed && !s.b.firing && s.h.rounds == 0 && s.h.log == []
    && forall t :: 0 <= t < |s.threads| ==> Entering(s.threads[t])
  }

  /** `left` cannot get to zero with fewer threads than the count. */
  lemma FewerStayBelow(c: Config, s: State)
    requires Conserved(c, s) && |s.threads| < c.initCount
    ensures s.b.left > 0
  {
    var all := UpTo(|s.threads|);
    assert s.Inside() <= all;
    assert |all - s.Inside()| == |all| - |s.Inside()|;
  }

  lemma StepStarved(c: Config, s: State, e: Event)
    requires c.timeout <= 0 && |s.threads| < c.initCount
    requires Inv(c, s) && Starved(c, s) && Enabled(s, e)
    ensures Starved(c, Apply(c, s, e))
  {
    FewerStayBelow(c, s);
  }

  lemma {:induction false} ExecStarved(c: Config, s: State, es: seq<Event>)
    requires c.initCount >= 2 && c.timeout <= 0 && |s.threads| < c.initCount
    requires Inv(c, s) && Starved(c, s) && Legal(c, s, es)
    ensures Starved(c, Exec(c, s, es)) && |Exec(c, s, es).threads| == |s.threads|
    decreases |es|
  {
    if es == [] {
    } else {
      StepInv(c, s, es[0]);
      StepStarved(c, s, es[0]);
      ExecStarved(c, Apply(c, s, es[0]), es[1..]);
    }
  }

  lemma ReachableStarved(c: Config, threads: nat, s: State)
    requires c.initCount >= 2 && c.timeout <= 0 && threads < c.initCount && Reachable(c, threads, s)
    ensures Starved(c, s) && |s.threads| == threads
  {
    var es :| Legal(c, Init(c, threads), es) && Exec(c, Init(c, threads), es) == s;
    InitInv(c, threads);
    ExecStarved(c, Init(c, threads), es);
  }

  /**
   With fewer threads than the count and no timeout, in every run: the gate is never set, no round ends and no
   call ever returns.
   */
  lemma FewerThreadsStarve(c: Config, threads: nat, s: State)
    requires c.initCount >= 2 && c.timeout <= 0 && threads < c.initCount && Reachable(c, threads, s)
    ensures |s.threads| == threads && !s.b.condFlag && s.h.log == []
    ensures forall t :: 0 <= t < threads ==> s.threads[t].returned == []
  {
    ReachableStarved(c, threads, s);
  }

  /** Every maximal run of such a client ends with all threads asleep in their first call. */
  lemma FewerThreadsFallAsleep(c: Config, threads: nat, calls: nat, s: State)
    requires c.initCount >= 2 && c.timeout <= 0 && threads < c.initCount && calls >= 1
    requires ClientReachable(c, threads, calls, s) && forall e :: !Permitted(calls, s, e)
    ensures |s.threads| == threads && forall t :: 0 <= t < threads ==> s.threads[t].pc.Sleeping?
  {
    ClientInv(c, threads, calls, s);
    ClientIsReachable(c, threads, calls, s);
    ReachableStarved(c, threads, s);
    var holderRuns := s.b.owner.Some? && Permitted(calls, s, Run(s.b.owner.value));
    forall t | 0 <= t < threads ensures s.threads[t].pc.Sleeping? {
      var runs := Permitted(calls, s, Run(t));
      assert !runs;
    }
  }

  // ---------- more threads than the count ----------

  lemma CountsOn(done: nat)
    ensures Inc(done % WORD) == (done + 1) % WORD
  {
  }

  /** The first `m` threads make `done` calls together, round by round, while the others rest. */
  lemma {:induction false} RoundsTogether(c: Config, threads: nat, calls: nat, m: nat, done: nat) returns (s: State)
    requires c.initCount >= 2 && c.timeout <= 0 && c.initCount <= m <= threads && done <= calls
    ensures ClientReachable(c, threads, calls, s) && |s.threads| == threads && Fresh(c, s, m, done)
    ensures s.b.syncNum == done % WORD
  {
    if done == 0 {
      ClientStart(c, threads, calls);
      s := Init(c, threads);
    } else {
      s := RoundsTogether(c, threads, calls, m, done - 1);
      s := FullRound(c, threads, calls, s, m, done - 1);
      CountsOn(done - 1);
    }
  }

  /** All threads but the last make all their calls; the last one then sleeps alone, with nobody left to join. */
  lemma MoreThreadsStrand(c: Config, threads: nat, calls: nat) returns (s: State)
    requires c.initCount >= 2 && c.timeout <= 0 && threads > c.initCount && calls >= 1
    ensures ClientReachable(c, threads, calls, s) && |s.threads| == threads
    ensures s.threads[threads - 1].pc.Sleeping? && s.threads[threads - 1].returned == []
    ensures forall t :: 0 <= t < threads - 1 ==> s.threads[t].pc.Outside? && |s.threads[t].returned| == calls
    ensures forall e :: !Permitted(calls, s, e)
  {
    s := RoundsTogether(c, threads, calls, threads - 1, calls);
    s := MoveGate(c, threads, calls, s, threads - 1);
    s := MoveEntry(c, threads, calls, s, threads - 1);
  }

  // ---------- exactly when the client cannot get stuck ----------

  /**
   The client that has threads and calls to make can always go on until it has finished if and only if the
   barrier has a timeout or exactly as many threads as its count.
   */
  lemma DeadlockFreeExactly(c: Config, threads: nat, calls: nat)
    requires c.initCount >= 2 && threads >= 1 && calls >= 1
    ensures
      (forall s | ClientReachable(c, threads, calls, s) :: Finished(calls, s) || exists e :: Permitted(calls, s, e))
      <==> c.timeout > 0 || threads == c.initCount
  {
    if c.timeout > 0 || threads == c.initCount {
      forall s | ClientReachable(c, threads, calls, s)
        ensures Finished(calls, s) || exists e :: Permitted(calls, s, e)
      {
        DeadlockFree(c, threads, calls, s);
      }
    } else if threads < c.initCount {
      ClientStart(c, threads, calls);
      var s := RunToEnd(c, threads, calls, Init(c, threads));
      FewerThreadsFallAsleep(c, threads, calls, s);
      assert s.threads[0].pc.Sleeping?;
      assert !Finished(calls, s);
    } else {
      var s := MoreThreadsStrand(c, threads, calls);
      assert !Finished(calls, s);
    }
  }
}
