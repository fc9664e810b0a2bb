/** Exactly when a barrier keeps what its documentation promises about -ETIME, and when -ETIME is returned at all. */
module BarrierPromise {
  import opened BarrierMachine
  import opened BarrierInvariant
  import opened BarrierRuns
  import opened BarrierAccounting
  import opened BarrierScenarios
  import opened BarrierClient
  import opened BarrierMoves
  import opened BarrierDeadlock

  // ---------- barriers with one sleeper a round ----------

  /** A count of two or a single thread: there is never a second sleeper. */
  predicate Single(c: Config, threads: nat) {
    c.initCount == 2 || threads <= 1
  }

  /** A thread that counts out is the last one, and resets the barrier. */
  ghost predicate AlwaysResets(c: Config, s: State) {
    && (s.Holder().ExitTest? ==> s.b.left == c.initCount) && s.Holder() != ExitReturn(false)
    && s.h.cur.zeros == s.h.cur.etimes == 0
    && forall i :: 0 <= i < |s.h.log| ==> s.h.log[i].sleepers == 1
  }

  /** The thread about to count out is the only one inside. */
  lemma OnlySleeper(c: Config, s: State)
    requires c.initCount >= 2 && Single(c, |s.threads|) && Inv(c, s) && s.Holder().ExitInc?
    ensures s.b.left == c.initCount - 1
  {
    var t := s.b.owner.value;
    assert t in s.Inside();
    assert |s.Inside() - {t}| == |s.Inside()| - 1;
    if |s.threads| <= 1 {
      assert s.Inside() == {t};
    }
  }

  lemma RunAlwaysResets(c: Config, s: State, t: nat)
    requires c.initCount >= 2 && Single(c, |s.threads|)
    requires Inv(c, s) && Tally(c, s) && AlwaysResets(c, s) && Enabled(s, Run(t))
    ensures AlwaysResets(c, Apply(c, s, Run(t)))
  {
    HolderAfter(c, s, t);
    if s.Holder().ExitInc? {
      OnlySleeper(c, s);
    }
  }

  lemma {:induction false} ExecAlwaysResets(c: Config, s: State, es: seq<Event>)
    requires c.initCount >= 2 && Single(c, |s.threads|)
    requires Inv(c, s) && Accounts(c, s) && AlwaysResets(c, s) && Legal(c, s, es)
    ensures AlwaysResets(c, Exec(c, s, es))
    decreases |es|
  {
    if es == [] {
    } else {
      StepInv(c, s, es[0]);
      StepAccounts(c, s, es[0]);
      if es[0].Run? {
        RunAlwaysResets(c, s, es[0].thread);
      }
      ExecAlwaysResets(c, Apply(c, s, es[0]), es[1..]);
    }
  }

  lemma SingleAlwaysResets(c: Config, threads: nat, s: State)
    requires c.initCount >= 2 && Single(c, threads) && Reachable(c, threads, s)
    ensures AlwaysResets(c, s)
  {
    var es :| Legal(c, Init(c, threads), es) && Exec(c, Init(c, threads), es) == s;
    InitInv(c, threads);
    ExecAlwaysResets(c, Init(c, threads), es);
  }

  /** Of a barrier of count two every call returns 0, timed out or not, garbage or not, in an untorn history. */
  lemma CountTwoReturnsZero(c: Config, threads: nat, s: State, t: nat)
    requires c.initCount == 2 && Reachable(c, threads, s) && !s.h.torn
    requires t < |s.threads| && (s.threads[t].pc.ExitReturn? || s.threads[t].pc.LastInc?)
    ensures Apply(c, s, Run(t)).threads[t].returned == s.threads[t].returned + [Success]
  {
    ReachableInv(c, threads, s);
    SingleAlwaysResets(c, threads, s);
    CallReturns(c, threads, s, t);
    HolderAfter(c, s, t);
  }

  // ---------- rounds in which nobody returns -ETIME ----------

  lemma {:induction false} NoneTimedOut(log: seq<Round>)
    requires forall i :: 0 <= i < |log| ==> log[i].etimes == 0
    ensures TimedOuts(log) == 0
  {
    if log != [] {
      NoneTimedOut(log[..|log| - 1]);
    }
  }

  lemma {:induction false} ReturnedMember(ths: seq<Thread>, t: nat, code: Code)
    requires t < |ths| && code in ths[t].returned
    ensures Returned(ths, code) > 0
  {
    if t > 0 {
      ReturnedMember(ths[1..], t - 1, code);
    }
  }

  /** When no sleeper returns -ETIME in any round: the other half of `TimeoutReportedExactly`. */
  predicate Silent(c: Config, threads: nat) {
    Single(c, threads) || (c.timeout <= 0 && (!c.garbage || threads < c.initCount))
  }

  lemma SilentRounds(c: Config, threads: nat, s: State)
    requires c.initCount >= 2 && Reachable(c, threads, s) && !s.h.torn && Silent(c, threads)
    ensures s.h.cur.etimes == 0 && forall i :: 0 <= i < |s.h.log| ==> s.h.log[i].etimes == 0
  {
    ReachableInv(c, threads, s);
    ReachableAccounts(c, threads, s);
    if Single(c, threads) {
      SingleAlwaysResets(c, threads, s);
    } else if threads < c.initCount {
      ReachableStarved(c, threads, s);
    }
  }

  lemma SilentCalls(c: Config, threads: nat, s: State, t: nat)
    requires c.initCount >= 2 && Reachable(c, threads, s) && !s.h.torn && Silent(c, threads)
    requires t < |s.threads|
    ensures TimedOut !in s.threads[t].returned
  {
    SilentRounds(c, threads, s);
    NoneTimedOut(s.h.log);
    TalliesAreReturns(c, threads, s);
    if TimedOut in s.threads[t].returned {
      ReturnedMember(s.threads, t, TimedOut);
    }
  }

  // ---------- runs in which somebody does ----------

  /** No timer, but the flag's memory happened to be set: the first sleeper to leave returns -ETIME. */
  lemma GarbageReportsTimeout(c: Config, threads: nat, calls: nat) returns (s: State)
    requires c.initCount >= 3 && c.timeout <= 0 && c.garbage && threads >= c.initCount && calls >= 1
    ensures ClientReachable(c, threads, calls, s) && |s.threads| == threads
    ensures s.threads[0].returned == [TimedOut]
  {
    ClientStart(c, threads, calls);
    s := FillHouse(c, threads, calls, Init(c, threads), c.initCount, 0);
    s := MoveExit(c, threads, calls, s, 0);
  }

  /** Two sleepers time out: the first to leave returns -ETIME. */
  lemma TimerReportsTimeout(c: Config, threads: nat, calls: nat) returns (s: State)
    requires c.initCount >= 3 && c.timeout > 0 && threads >= 2 && calls >= 1
    ensures ClientReachable(c, threads, calls, s) && |s.threads| == threads && !s.h.torn
    ensures s.threads[0].returned == [TimedOut]
  {
    ClientStart(c, threads, calls);
    s := TwoAsleep(c, threads, calls);
    ClientStep(c, threads, calls, s, Fire);
    s := Apply(c, s, Fire);
    ClientStep(c, threads, calls, s, Flag);
    s := Apply(c, s, Flag);
    s := MoveExit(c, threads, calls, s, 0);
  }

  lemma TwoAsleep(c: Config, threads: nat, calls: nat) returns (s: State)
    requires c.initCount >= 3 && c.timeout > 0 && threads >= 2 && calls >= 1
    ensures ClientReachable(c, threads, calls, s) && |s.threads| == threads && !s.h.torn
    ensures s.threads[0].pc.Sleeping? && s.threads[0].returned == []
    ensures s.b == InitBarrier(c).(left := c.initCount - 2, armed := true)
  {
    ClientStart(c, threads, calls);
    s := MoveGate(c, threads, calls, Init(c, threads), 0);
    s := MoveGate(c, threads, calls, s, 1);
    s := MoveEntry(c, threads, calls, s, 0);
    s := MoveEntry(c, threads, calls, s, 1);
  }

  /** A whole first round without a timer whose sleepers, all but one, return -ETIME. */
  lemma GarbageRound(c: Config, threads: nat) returns (s: State)
    requires c.initCount >= 3 && c.timeout <= 0 && c.garbage && threads >= c.initCount
    ensures Reachable(c, threads, s) && !s.h.torn && |s.h.log| >= 1
    ensures !s.h.log[0].fired && s.h.log[0].etimes == s.h.log[0].sleepers - 1 >= c.initCount - 2
  {
    s := RoundsTogether(c, threads, 1, c.initCount, 1);
    ClientIsReachable(c, threads, 1, s);
    ReachableInv(c, threads, s);
    assert s.h.log != [];
    UnfiredRoundsAreFull(c, threads, s, 0);
    ReturnCodes(c, threads, s, 0);
  }

  // ---------- the exact conditions ----------

  /**
   README's promise to the sleepers of whole rounds, -ETIME to all of them if the timer fired and to none if
   not, is kept by all runs with an uninterrupted callback if and only if the barrier has no timeout and, should
   the memory of `timeout_flag` be set, the count is two or there are too few threads to end a round.
   */
  lemma ReadmePromiseExactly(c: Config, threads: nat)
    requires threads >= 1 && c.initCount >= 2
    ensures (forall s, i | Reachable(c, threads, s) && !s.h.torn && 0 <= i < |s.h.log| ::
        s.h.log[i].etimes == if s.h.log[i].fired then s.h.log[i].sleepers else 0)
      <==> c.timeout <= 0 && (c.garbage ==> c.initCount == 2 || threads < c.initCount)
  {
    if c.timeout > 0 {
      var s := TimedOutCallReturnsZero(c, threads);
      assert s.h.log[0].etimes != if s.h.log[0].fired then s.h.log[0].sleepers else 0;
    } else if c.garbage && c.initCount >= 3 && threads >= c.initCount {
      var s := GarbageRound(c, threads);
      assert s.h.log[0].etimes > 0;
    } else {
      forall s, i | Reachable(c, threads, s) && !s.h.torn && 0 <= i < |s.h.log|
        ensures s.h.log[i].etimes == if s.h.log[i].fired then s.h.log[i].sleepers else 0
      {
        SilentRounds(c, threads, s);
        UnfiredRoundsAreFull(c, threads, s, i);
      }
    }
  }

  /** Some call of the client returns -ETIME, in an untorn history. */
  ghost predicate TimeoutReported(c: Config, threads: nat, calls: nat) {
    exists s, t ::
      ClientReachable(c, threads, calls, s) && !s.h.torn && 0 <= t < |s.threads| && TimedOut in s.threads[t].returned
  }

  /**
   A client of `threads` threads can be told of a timeout if and only if the count is at least three and either
   the barrier has a timeout and there are two threads, or it has none, the memory of `timeout_flag` was set and
   there are threads enough for a round.
   */
  lemma TimeoutReportedExactly(c: Config, threads: nat, calls: nat)
    requires c.initCount >= 2 && calls >= 1
    ensures TimeoutReported(c, threads, calls)
      <==> c.initCount >= 3 && if c.timeout > 0 then threads >= 2 else c.garbage && threads >= c.initCount
  {
    if c.initCount >= 3 && c.timeout > 0 && threads >= 2 {
      var s := TimerReportsTimeout(c, threads, calls);
      assert TimedOut in s.threads[0].returned;
    } else if c.initCount >= 3 && c.timeout <= 0 && c.garbage && threads >= c.initCount {
      var s := GarbageReportsTimeout(c, threads, calls);
      assert TimedOut in s.threads[0].returned;
      UntimedIsUntorn(c, threads, calls, s);
    } else {
      forall s, t | ClientReachable(c, threads, calls, s) && !s.h.torn && 0 <= t < |s.threads|
        ensures TimedOut !in s.threads[t].returned
      {
        ClientIsReachable(c, threads, calls, s);
        SilentCalls(c, threads, s, t);
      }
    }
  }

  lemma UntimedIsUntorn(c: Config, threads: nat, calls: nat, s: State)
    requires c.initCount >= 2 && c.timeout <= 0 && ClientReachable(c, threads, calls, s)
    ensures !s.h.torn
  {
    ClientInv(c, threads, calls, s);
  }

  /** Without a timeout, only a thread's first call may fail, of a count of three or more and with the flag set. */
  lemma UntimedCallsSucceed(c: Config, calls: nat, s: State, t: nat, i: nat)
    requires c.initCount >= 2 && c.timeout <= 0 && ClientReachable(c, c.initCount, calls, s)
    requires t < |s.threads| && i < |s.threads[t].returned|
    ensures s.threads[t].returned[i] == Success || (c.garbage && c.initCount >= 3 && i == 0)
  {
    ClientInv(c, c.initCount, calls, s);
    if c.initCount == 2 {
      ClientIsReachable(c, c.initCount, calls, s);
      SilentCalls(c, c.initCount, s, t);
    }
  }

  /**
   Without a timeout all calls of the client of `init_count` threads succeed if and only if the memory of
   `timeout_flag` was clear or the count is two.
   */
  lemma UntimedCallsSucceedExactly(c: Config, calls: nat)
    requires c.initCount >= 2 && c.timeout <= 0 && calls >= 1
    ensures (forall s, t | ClientReachable(c, c.initCount, calls, s) && 0 <= t < |s.threads| ::
        TimedOut !in s.threads[t].returned) <==> !c.garbage || c.initCount == 2
  {
    TimeoutReportedExactly(c, c.initCount, calls);
    forall s | ClientReachable(c, c.initCount, calls, s) ensures !s.h.torn {
      UntimedIsUntorn(c, c.initCount, calls, s);
    }
  }
}
