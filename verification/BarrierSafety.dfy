/** Safety of every run of the barrier, for any number of threads and any timer behaviour. */
module BarrierSafety {
  import opened Words
  import opened BarrierMachine
  import opened BarrierInvariant
  import opened BarrierRuns
  import opened BarrierAccounting
  import opened BarrierScenarios

  // ---------- conservation ----------

  lemma StepConserved(c: Config, s: State, e: Event)
    requires c.initCount >= 1 && Mutex(s) && Conserved(c, s) && Enabled(s, e)
    ensures Mutex(Apply(c, s, e)) && Conserved(c, Apply(c, s, e))
  {
    match e
    case Fire => assert Apply(c, s, e).Inside() == s.Inside();
    case Flag => assert Apply(c, s, e).Inside() == s.Inside();
    case Run(t) => RunMutex(c, s, t); RunConserved(c, s, t);
  }

  lemma {:induction false} ExecConserved(c: Config, s: State, es: seq<Event>)
    requires c.initCount >= 1 && Mutex(s) && Conserved(c, s) && Legal(c, s, es)
    ensures Mutex(Exec(c, s, es)) && Conserved(c, Exec(c, s, es))
    decreases |es|
  {
    if es == [] {
    } else {
      StepConserved(c, s, es[0]);
      ExecConserved(c, Apply(c, s, es[0]), es[1..]);
    }
  }

  lemma ReachableConserved(c: Config, threads: nat, s: State)
    requires c.initCount >= 1 && Reachable(c, threads, s)
    ensures Mutex(s) && Conserved(c, s)
  {
    var es :| Legal(c, Init(c, threads), es) && Exec(c, Init(c, threads), es) == s;
    InitInv(c, threads);
    ExecConserved(c, Init(c, threads), es);
  }

  /**
   `left` plus the threads that still owe a `left++` is the initial count at every reachable state.  With the
   mutex free `left` is between 1 and the count, and neither `left--` nor `left++` ever wraps.
   */
  lemma CounterNeverWraps(c: Config, threads: nat, s: State)
    requires c.initCount >= 1 && Reachable(c, threads, s)
    ensures s.b.left + |s.Inside()| == c.initCount
    ensures s.b.owner.None? ==> 1 <= s.b.left <= c.initCount
    ensures forall t: nat :: t < |s.threads| ==>
      && (s.threads[t].pc.EntryDec? ==> s.b.left >= 1)
      && (s.threads[t].pc.LastInc? || s.threads[t].pc.ExitInc? ==> s.b.left < c.initCount)
  {
    ReachableConserved(c, threads, s);
    SomeoneInside(c, s);
  }

  /** Conservation holds of every run exactly when the barrier was initialised with a positive count. */
  lemma ConservationExactly(c: Config, threads: nat)
    requires threads >= 1
    ensures (forall s | Reachable(c, threads, s) :: s.b.left + |s.Inside()| == c.initCount) <==> c.initCount >= 1
  {
    if c.initCount >= 1 {
      forall s | Reachable(c, threads, s) ensures s.b.left + |s.Inside()| == c.initCount {
        ReachableConserved(c, threads, s);
      }
    } else {
      var s := ZeroCountUnderflows(c, threads);
    }
  }

  // ---------- rounds ----------

  /** The gate reopens in one statement and the round is counted in one; both find the barrier drained. */
  lemma ReopeningIsDrained(c: Config, s: State, e: Event)
    requires c.initCount >= 2 && Inv(c, s) && Enabled(s, e)
    requires
      var s' := Apply(c, s, e);
      (s.b.condFlag && !s'.b.condFlag) || s.h.rounds != s'.h.rounds || s.b.syncNum != s'.b.syncNum
    ensures s.b.left == Apply(c, s, e).b.left == c.initCount
  {
    assert e.Run?;
    HolderAfter(c, s, e.thread);
    assert s.threads[e.thread].pc.ExitClearCond? || s.threads[e.thread].pc.ExitCount?;
  }

  /**
   A thread inside carries the number of the round in progress.  The gate reopens, and the round number
   moves, only when no thread is inside and `left` is back at the count.
   */
  lemma NoLapping(c: Config, threads: nat, s: State, e: Event)
    requires c.initCount >= 2 && Reachable(c, threads, s) && Enabled(s, e)
    ensures forall t: nat :: t < |s.threads| && s.threads[t].pc.Owes() ==> s.threads[t].ticket == s.h.rounds
    ensures
      var s' := Apply(c, s, e);
      (s.b.condFlag && !s'.b.condFlag) || s.h.rounds != s'.h.rounds || s.b.syncNum != s'.b.syncNum ==>
        s.Inside() == {} && s'.Inside() == {} && s.b.left == s'.b.left == c.initCount
  {
    ReachableInv(c, threads, s);
    StepInv(c, s, e);
    var s' := Apply(c, s, e);
    if (s.b.condFlag && !s'.b.condFlag) || s.h.rounds != s'.h.rounds || s.b.syncNum != s'.b.syncNum {
      ReopeningIsDrained(c, s, e);
    }
  }

  /**
   Whatever the other threads and the timer do while `t` is inside: the round `t` joined stays the current
   one, and once the sleepers are released the gate stays set until `t` has run.
   */
  lemma {:induction false} RoundHeldOpen(c: Config, threads: nat, s: State, es: seq<Event>, t: nat)
    requires c.initCount >= 2 && Reachable(c, threads, s) && Legal(c, s, es)
    requires t < |s.threads| && s.threads[t].pc.Owes() && Run(t) !in es
    ensures |Exec(c, s, es).threads| == |s.threads| && Exec(c, s, es).threads[t] == s.threads[t]
    ensures Exec(c, s, es).h.rounds == s.h.rounds && Exec(c, s, es).b.syncNum == s.b.syncNum
    ensures s.b.condFlag ==> Exec(c, s, es).b.condFlag
    decreases |es|
  {
    if es == [] {
    } else {
      NoLapping(c, threads, s, es[0]);
      assert t in s.Inside();
      ReachableStep(c, threads, s, es[0]);
      RoundHeldOpen(c, threads, Apply(c, s, es[0]), es[1..], t);
    }
  }

  /**
   The drained barrier is the freshly initialised one with a new `sync_num`, whatever the round was like:
   full or timed out, with any number of threads that slipped past the gate.  Without a timeout, or in an untorn
   history, the same goes for `timeout_flag`, which is the allocator's garbage until the first reset and clear
   afterwards.
   */
  lemma SelfRestoration(c: Config, threads: nat, s: State)
    requires c.initCount >= 2 && Reachable(c, threads, s)
    requires s.b.owner.None?
    ensures s.b.left == c.initCount <==> s.Inside() == {}
    ensures s.Inside() == {} ==>
      s.b.(timeoutFlag := false, firing := false) == InitBarrier(c).(syncNum := s.h.rounds % WORD, timeoutFlag := false)
    ensures s.Inside() == {} && (c.timeout <= 0 || !s.h.torn) ==>
      s.b == InitBarrier(c).(syncNum := s.h.rounds % WORD, timeoutFlag := c.garbage && s.h.rounds == 0)
  {
    ReachableInv(c, threads, s);
    ReachableAccounts(c, threads, s);
  }

  /**
   When a barrier can be left with `timeout_flag` set: some run reaches a drained barrier, callback over and at
   least one round done, with the flag set, if and only if the barrier was initialised with a timeout.
   */
  lemma StaleFlagExactly(c: Config, threads: nat)
    requires threads >= 1 && c.initCount >= 2
    ensures
      (exists s :: Reachable(c, threads, s) && Drained(s) && s.h.rounds >= 1 && s.b.timeoutFlag) <==> c.timeout > 0
  {
    if c.timeout > 0 {
      var s := FlagLandsAfterReset(c, threads);
      assert Drained(s);
    } else if s :| Reachable(c, threads, s) && Drained(s) && s.h.rounds >= 1 && s.b.timeoutFlag {
      ReachableInv(c, threads, s);
    }
  }

  /** Nobody is inside, nobody holds the mutex, no callback is in progress. */
  ghost predicate Drained(s: State) {
    s.Inside() == {} && s.b.owner.None? && !s.b.firing
  }

  // ---------- the timer ----------

  /**
   `hrtimer_start` is never called on an armed timer; an armed timer belongs to the round in progress, whose
   gate is still closed to sleepers, and that round has a participant.  From the cancelling until the last thread
   has left, the timer can neither expire nor is its callback still in progress.
   */
  lemma TimerDiscipline(c: Config, threads: nat, s: State)
    requires c.initCount >= 2 && Reachable(c, threads, s)
    ensures s.b.armed ==> c.timeout > 0 && !s.b.condFlag && s.h.armedIn == s.h.rounds
    ensures s.b.armed ==> exists t: nat :: t < |s.threads| && (s.threads[t].pc.Owes() || s.threads[t].pc.EntryDec?)
    ensures forall t: nat :: t < |s.threads| && s.threads[t].pc.EntryCheck? && s.b.left == c.initCount ==> !s.b.armed
    ensures forall t: nat :: t < |s.threads| && (s.threads[t].pc.LastRelease? || s.threads[t].pc.LastInc?) ==>
      !s.b.armed && !s.b.firing
  {
    ReachableInv(c, threads, s);
    SomeoneInside(c, s);
    if s.b.armed && s.b.left == c.initCount {
      assert s.threads[s.b.owner.value].pc.EntryDec?;
    }
  }

  /** With a timeout, a thread inside is never forgotten: the timer is armed or the release has begun. */
  lemma NobodyStranded(c: Config, threads: nat, s: State, t: nat)
    requires c.initCount >= 2 && c.timeout > 0 && Reachable(c, threads, s)
    requires t < |s.threads| && s.threads[t].pc.Owes()
    ensures s.b.armed || s.b.condFlag || s.Holder().LastRelease?
  {
    ReachableInv(c, threads, s);
    SomeoneInside(c, s);
  }

  // ---------- the gate ----------

  /** The gate is set, nobody holds the mutex and nobody is left to reset it. */
  ghost predicate Wedged(s: State) {
    s.b.condFlag && s.b.owner.None? && s.Inside() == {}
  }

  /** A barrier of positive count can wedge exactly when the count is one. */
  lemma GateWedgesExactly(c: Config, threads: nat)
    requires threads >= 1 && c.initCount >= 1
    ensures (exists s :: Reachable(c, threads, s) && Wedged(s)) <==> c.initCount == 1
  {
    if c.initCount == 1 {
      var s := SingleCountWedges(c, threads);
    } else if exists s :: Reachable(c, threads, s) && Wedged(s) {
      var s :| Reachable(c, threads, s) && Wedged(s);
      ReachableInv(c, threads, s);
    }
  }

  /** With count one nobody ever sleeps, so nobody ever resets. */
  ghost predicate NobodySleeps(s: State) {
    forall t :: 0 <= t < |s.threads| ==>
      var pc := s.threads[t].pc;
      !pc.Sleeping? && !pc.WantExit? && !pc.ExitInc? && !pc.PastIncrement()
  }

  lemma SingleRun(c: Config, s: State, t: nat)
    requires c.initCount == 1 && Mutex(s) && Conserved(c, s) && NobodySleeps(s) && Enabled(s, Run(t))
    ensures NobodySleeps(Apply(c, s, Run(t)))
    ensures s.b.condFlag ==> Apply(c, s, Run(t)).b.condFlag
  {
    if s.threads[t].pc.EntryBranch? {
      assert t in s.Inside();
    }
  }

  lemma SingleStep(c: Config, s: State, e: Event)
    requires c.initCount == 1 && Mutex(s) && Conserved(c, s) && NobodySleeps(s) && Enabled(s, e)
    ensures Mutex(Apply(c, s, e)) && Conserved(c, Apply(c, s, e)) && NobodySleeps(Apply(c, s, e))
    ensures s.b.condFlag ==> Apply(c, s, e).b.condFlag
  {
    StepConserved(c, s, e);
    if e.Run? {
      SingleRun(c, s, e.thread);
    }
  }

  lemma {:induction false} SingleStaysSet(c: Config, s: State, es: seq<Event>)
    requires c.initCount == 1 && Mutex(s) && Conserved(c, s) && NobodySleeps(s) && Legal(c, s, es)
    ensures Mutex(Exec(c, s, es)) && Conserved(c, Exec(c, s, es)) && NobodySleeps(Exec(c, s, es))
    ensures s.b.condFlag ==> Exec(c, s, es).b.condFlag
    ensures |Exec(c, s, es).threads| == |s.threads|
    ensures s.b.condFlag ==>
      forall t :: 0 <= t < |s.threads| && s.threads[t].pc.AtGate? ==> Exec(c, s, es).threads[t].pc.AtGate?
    decreases |es|
  {
    if es == [] {
    } else {
      SingleStep(c, s, es[0]);
      SingleStaysSet(c, Apply(c, s, es[0]), es[1..]);
    }
  }

  /** With count one, the gate that a finished call has set never reopens: a thread at it waits forever. */
  lemma SingleCountClosesForGood(c: Config, threads: nat, s: State, es: seq<Event>, t: nat)
    requires c.initCount == 1 && Reachable(c, threads, s) && s.b.condFlag && Legal(c, s, es)
    requires t < |s.threads| && s.threads[t].pc.AtGate?
    ensures t < |Exec(c, s, es).threads| && Exec(c, s, es).threads[t].pc.AtGate?
  {
    var fs :| Legal(c, Init(c, threads), fs) && Exec(c, Init(c, threads), fs) == s;
    InitInv(c, threads);
    SingleStaysSet(c, Init(c, threads), fs);
    SingleStaysSet(c, s, es);
  }
}
