/** Concrete runs of the barrier machine, for any number of threads: what one thread does while the others rest. */
module BarrierScenarios {
  import opened Words
  import opened BarrierMachine
  import opened BarrierRuns

  /** There are `threads` threads, and all but thread 0 have not started. */
  ghost predicate Solo(c: Config, threads: nat, s: State) {
    && Reachable(c, threads, s) && |s.threads| == threads >= 1
    && forall t :: 0 < t < threads ==> s.threads[t].pc == Outside
  }

  /** One more statement of thread 0. */
  lemma Forward(c: Config, threads: nat, s: State) returns (s': State)
    requires Solo(c, threads, s) && Guard(s.b, s.threads[0].pc)
    ensures Solo(c, threads, s')
    ensures (s'.b, s'.threads[0].pc) == Statement(c, s.b, 0, s.threads[0].pc)
    ensures s'.threads[0].returned == s.threads[0].returned + Returns(s.b, s.threads[0].pc)
    ensures s'.h == Record(c, s.b, s.threads[0].pc, s.h)
  {
    s' := Apply(c, s, Run(0));
    ReachableStep(c, threads, s, Run(0));
  }

  /** The two stores of the timer callback. */
  lemma ForwardCallback(c: Config, threads: nat, s: State, e: Event) returns (s': State)
    requires Solo(c, threads, s) && !e.Run? && Enabled(s, e)
    ensures Solo(c, threads, s') && s'.threads == s.threads
    ensures s'.b == if e.Fire? then Expire(s.b) else SetFlag(s.b)
    ensures s'.h == if e.Fire? then s.h.(cur := s.h.cur.(fired := true)) else s.h
  {
    s' := Apply(c, s, e);
    ReachableStep(c, threads, s, e);
  }

  /** With thread 0 outside too, nobody is inside. */
  lemma NobodyInside(c: Config, threads: nat, s: State)
    requires Solo(c, threads, s) && s.threads[0].pc == Outside
    ensures s.Inside() == {}
  {
  }

  /** Thread 0 has just done the first `left--`. */
  lemma Enters(c: Config, threads: nat) returns (s: State)
    requires threads >= 1
    ensures Solo(c, threads, s)
    ensures s.threads[0].pc == EntryBranch && s.threads[0].returned == []
    ensures s.b == InitBarrier(c).(left := Dec(c.initCount), armed := c.Timed(), owner := Some(0))
    ensures s.h == History(0, 0, false, FRESH_ROUND, [])
  {
    ReachableInit(c, threads);
    s := Init(c, threads);
    s := Forward(c, threads, s);
    s := Forward(c, threads, s);
    s := Forward(c, threads, s);
    s := Forward(c, threads, s);
    s := Forward(c, threads, s);
  }

  /** With count zero the first thread's `left--` wraps to the largest word. */
  lemma ZeroCountUnderflows(c: Config, threads: nat) returns (s: State)
    requires threads >= 1 && c.initCount == 0
    ensures Reachable(c, threads, s) && s.b.left == WORD - 1
  {
    s := Enters(c, threads);
  }

  /** One whole call on a barrier of count one: nobody is left to reset the gate it has set. */
  lemma SingleCountWedges(c: Config, threads: nat) returns (s: State)
    requires threads >= 1 && c.initCount == 1
    ensures Reachable(c, threads, s) && s.b.condFlag && s.b.owner.None? && s.Inside() == {}
  {
    s := Enters(c, threads);
    s := Forward(c, threads, s);
    s := Forward(c, threads, s);
    s := Forward(c, threads, s);
    s := Forward(c, threads, s);
    NobodyInside(c, threads, s);
  }

  /** Thread 0 sleeps alone and the timer has just expired. */
  lemma TimesOutAlone(c: Config, threads: nat) returns (s: State)
    requires threads >= 1 && c.initCount >= 2 && c.timeout > 0
    ensures Solo(c, threads, s)
    ensures s.threads[0].pc == Sleeping && s.threads[0].returned == []
    ensures s.b == Barrier(0, c.initCount - 1, true, c.garbage, false, true, None)
    ensures s.h == History(0, 0, false, Round(true, 1, 0, 0, 0, 0), [])
  {
    s := Enters(c, threads);
    s := Forward(c, threads, s);
    s := ForwardCallback(c, threads, s, Fire);
  }

  /** The lone sleeper wakes and counts out. */
  lemma CountsOutAlone(c: Config, threads: nat, s: State) returns (s': State)
    requires Solo(c, threads, s) && s.threads[0].pc == Sleeping
    requires s.b.condFlag && s.b.owner.None? && s.b.left == c.initCount - 1
    ensures Solo(c, threads, s')
    ensures s'.threads[0].pc == ExitTest && s'.threads[0].returned == s.threads[0].returned
    ensures s'.b == s.b.(left := c.initCount, owner := Some(0)) && s'.h == Record(c, s.b, ExitInc, s.h)
  {
    s' := Forward(c, threads, s);
    s' := Forward(c, threads, s');
    s' := Forward(c, threads, s');
  }

  /** It finds itself last and clears `timeout_flag`. */
  lemma WakesAlone(c: Config, threads: nat, s: State) returns (s': State)
    requires Solo(c, threads, s) && s.threads[0].pc == Sleeping
    requires s.b.condFlag && s.b.owner.None? && s.b.left == c.initCount - 1
    ensures Solo(c, threads, s')
    ensures s'.threads[0].pc == ExitClearCond && s'.threads[0].returned == s.threads[0].returned
    ensures s'.b == s.b.(left := c.initCount, timeoutFlag := false, owner := Some(0))
    ensures s'.h == Record(c, s.b, ExitInc, s.h)
  {
    s' := CountsOutAlone(c, threads, s);
    s' := Forward(c, threads, s');
    s' := Forward(c, threads, s');
  }

  /** The resetter clears the gate and counts the round. */
  lemma ReopensAlone(c: Config, threads: nat, s: State) returns (s': State)
    requires Solo(c, threads, s) && s.threads[0].pc == ExitClearCond
    ensures Solo(c, threads, s')
    ensures s'.threads[0].pc == ExitReturn(true) && s'.threads[0].returned == s.threads[0].returned
    ensures s'.b == s.b.(condFlag := false, syncNum := Inc(s.b.syncNum))
    ensures s'.h == s.h.(rounds := s.h.rounds + 1)
  {
    s' := Forward(c, threads, s);
    s' := Forward(c, threads, s');
  }

  /** The resetter returns. */
  lemma ResetsAlone(c: Config, threads: nat, s: State) returns (s': State)
    requires Solo(c, threads, s) && s.threads[0].pc == ExitClearCond
    ensures Solo(c, threads, s')
    ensures s'.threads[0].pc == Outside
    ensures s'.threads[0].returned == s.threads[0].returned + Returns(s.b, ExitReturn(true))
    ensures s'.b == s.b.(condFlag := false, syncNum := Inc(s.b.syncNum), owner := None)
    ensures s'.h == Record(c, s.b, ExitReturn(true), s.h.(rounds := s.h.rounds + 1))
  {
    s' := ReopensAlone(c, threads, s);
    s' := Forward(c, threads, s');
  }

  /**
   A call that times out and returns 0, with a callback that no thread interrupts: the lone sleeper resets the
   barrier, and with it the flag, before it looks.
   */
  lemma TimedOutCallReturnsZero(c: Config, threads: nat) returns (s: State)
    requires threads >= 1 && c.initCount >= 2 && c.timeout > 0
    ensures Reachable(c, threads, s) && |s.threads| == threads && !s.h.torn
    ensures s.h.log == [Round(true, 1, 0, 1, 0, 1)] && s.threads[0].returned == [Success]
  {
    s := TimesOutAlone(c, threads);
    s := ForwardCallback(c, threads, s, Flag);
    s := WakesAlone(c, threads, s);
    assert s.h == History(0, 0, false, Round(true, 1, 0, 0, 0, 1), []);
    s := ResetsAlone(c, threads, s);
  }

  /**
   The callback's second store lands after the resetter has returned: the drained barrier is left with
   `timeout_flag` set.
   */
  lemma FlagLandsAfterReset(c: Config, threads: nat) returns (s: State)
    requires threads >= 1 && c.initCount >= 2 && c.timeout > 0
    ensures Reachable(c, threads, s) && s.b.owner.None? && s.Inside() == {} && !s.b.firing
    ensures s.b.timeoutFlag && s.h.rounds == 1
  {
    s := TimesOutAlone(c, threads);
    s := WakesAlone(c, threads, s);
    s := ResetsAlone(c, threads, s);
    s := ForwardCallback(c, threads, s, Flag);
    NobodyInside(c, threads, s);
  }

  /** The second store lands between the resetter's clearing and its look: even the resetter returns -ETIME. */
  lemma FlagLandsDuringReset(c: Config, threads: nat) returns (s: State)
    requires threads >= 1 && c.initCount >= 2 && c.timeout > 0
    ensures Reachable(c, threads, s) && |s.h.log| == 1 && s.h.log[0].fired
    ensures s.h.log[0].sleepers == s.h.log[0].etimes == 1 && s.h.log[0].zeros == 0
  {
    s := TimesOutAlone(c, threads);
    s := WakesAlone(c, threads, s);
    s := ForwardCallback(c, threads, s, Flag);
    assert s.h.cur.(early := 0) == Round(true, 1, 0, 0, 0, 0) && s.h.log == [] && s.b.timeoutFlag;
    s := ResetsAlone(c, threads, s);
  }
}
