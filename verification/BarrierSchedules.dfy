/**
 Which schedules the barrier has: whom the gate, the mutex and the timer hold up, and nobody else.  The timer and
 its callback are held up by no thread.
 */
module BarrierSchedules {
  import opened Words
  import opened BarrierMachine
  import opened BarrierInvariant
  import opened BarrierRuns
  import opened BarrierSafety
  import opened BarrierClient
  import opened BarrierMoves
  import opened BarrierDeadlock

  // ---------- the gate ----------

  /** In front of the gate. */
  predicate Waits(pc: PC) {
    pc.Outside? || pc.AtGate?
  }

  /** While the gate is set no event takes any thread past it, whatever the configuration. */
  lemma GateHolds(c: Config, s: State, e: Event, t: nat)
    requires Enabled(s, e) && s.b.condFlag && t < |s.threads| && !s.threads[t].pc.PastGate()
    ensures !Apply(c, s, e).threads[t].pc.PastGate()
    ensures Waits(s.threads[t].pc) ==>
      Apply(c, s, e).threads[t] == s.threads[t].(pc := Apply(c, s, e).threads[t].pc)
      && Waits(Apply(c, s, e).threads[t].pc)
  {
  }

  /** The gate is set in every state of the run. */
  predicate GateStaysSet(c: Config, s: State, es: seq<Event>)
    requires Legal(c, s, es)
    decreases |es|
  {
    s.b.condFlag && (es == [] || GateStaysSet(c, Apply(c, s, es[0]), es[1..]))
  }

  /** A thread in front of the gate stays there, in the call it was in, as long as the gate stays set. */
  lemma {:induction false} GateHoldsRun(c: Config, s: State, es: seq<Event>, t: nat)
    requires Legal(c, s, es) && GateStaysSet(c, s, es) && t < |s.threads| && Waits(s.threads[t].pc)
    ensures t < |Exec(c, s, es).threads| && Waits(Exec(c, s, es).threads[t].pc)
    ensures Exec(c, s, es).threads[t].returned == s.threads[t].returned
    decreases |es|
  {
    if es == [] {
    } else {
      GateHolds(c, s, es[0], t);
      GateHoldsRun(c, Apply(c, s, es[0]), es[1..], t);
    }
  }

  lemma {:induction false} HeldGateStaysSet(c: Config, threads: nat, s: State, es: seq<Event>, u: nat)
    requires c.initCount >= 2 && Reachable(c, threads, s) && Legal(c, s, es) && s.b.condFlag
    requires u < |s.threads| && s.threads[u].pc.Owes() && Run(u) !in es
    ensures GateStaysSet(c, s, es)
    decreases |es|
  {
    if es == [] {
    } else {
      NoLapping(c, threads, s, es[0]);
      assert u in s.Inside();
      ReachableStep(c, threads, s, es[0]);
      HeldGateStaysSet(c, threads, Apply(c, s, es[0]), es[1..], u);
    }
  }

  /**
   Nobody slips into a released round from in front of the gate: as long as a single thread `u` of the round has
   not counted out, with a timeout or without, a thread in front of the gate is still there.
   */
  lemma NewcomersWait(c: Config, threads: nat, s: State, es: seq<Event>, t: nat, u: nat)
    requires c.initCount >= 2 && Reachable(c, threads, s) && Legal(c, s, es) && s.b.condFlag
    requires u < |s.threads| && s.threads[u].pc.Owes() && Run(u) !in es
    requires t < |s.threads| && Waits(s.threads[t].pc)
    ensures t < |Exec(c, s, es).threads| && Waits(Exec(c, s, es).threads[t].pc)
    ensures Exec(c, s, es).threads[t].returned == s.threads[t].returned
  {
    HeldGateStaysSet(c, threads, s, es, u);
    GateHoldsRun(c, s, es, t);
  }

  /** A thread can walk from the start of its call to the mutex exactly if the gate is clear, and changes nothing. */
  lemma GateOpensExactly(c: Config, s: State, t: nat)
    requires t < |s.threads| && s.threads[t].pc.Outside?
    ensures Legal(c, s, [Run(t), Run(t)]) <==> !s.b.condFlag
    ensures !s.b.condFlag ==>
      Exec(c, s, [Run(t), Run(t)]) == s.(threads := s.threads[t := s.threads[t].(pc := WantEntry)])
  {
    var s1 := Apply(c, s, Run(t));
    assert [Run(t), Run(t)][1..] == [Run(t)] && [Run(t)][1..] == [];
    if !s.b.condFlag {
      var s2 := Apply(c, s1, Run(t));
      assert s2.threads[t] == s.threads[t].(pc := WantEntry);
      assert s2.threads == s.threads[t := s.threads[t].(pc := WantEntry)];
      assert s2 == s.(threads := s2.threads);
      assert Exec(c, s, [Run(t), Run(t)]) == Exec(c, s1, [Run(t)]) == Exec(c, s2, []) == s2;
    }
  }

  // ---------- whom the others hold up ----------

  /**
   Thread `t` has to wait: for the gate to open or to be set, for another thread to leave its critical section, or,
   cancelling the timer, for the callback.
   */
  ghost predicate Blocked(s: State, t: nat)
    requires t < |s.threads|
  {
    var pc := s.threads[t].pc;
    || (pc.AtGate? && s.b.condFlag)
    || (pc.Sleeping? && !s.b.condFlag)
    || ((pc.WantEntry? || pc.WantExit?) && exists u :: 0 <= u < |s.threads| && s.threads[u].pc.Critical())
    || (pc.LastCancel? && s.b.firing)
  }

  /** The timer of a barrier with a timeout runs while a round has a participant and its sleepers are not released. */
  ghost predicate TimerRuns(c: Config, s: State) {
    && c.timeout > 0 && !s.b.condFlag && !s.Holder().LastRelease?
    && exists t :: 0 <= t < |s.threads| && (s.threads[t].pc.Owes() || s.threads[t].pc.EntryDec?)
  }

  /** What can happen next. */
  ghost predicate Possible(c: Config, s: State, e: Event) {
    match e
    case Run(t) => t < |s.threads| && !Blocked(s, t)
    case Fire => TimerRuns(c, s) && !s.b.firing
    case Flag => s.b.firing
  }

  lemma {:induction false} ExecMutex(c: Config, s: State, es: seq<Event>)
    requires Mutex(s) && Legal(c, s, es)
    ensures Mutex(Exec(c, s, es))
    decreases |es|
  {
    if es == [] {
    } else {
      if es[0].Run? {
        RunMutex(c, s, es[0].thread);
      }
      ExecMutex(c, Apply(c, s, es[0]), es[1..]);
    }
  }

  /** For every count: a thread's next statement can run unless the thread is blocked, and only then. */
  lemma BlockedExactly(c: Config, threads: nat, s: State, t: nat)
    requires Reachable(c, threads, s) && t < |s.threads|
    ensures Legal(c, s, [Run(t)]) <==> !Blocked(s, t)
  {
    var es :| Legal(c, Init(c, threads), es) && Exec(c, Init(c, threads), es) == s;
    ExecMutex(c, Init(c, threads), es);
    assert s.b.owner.Some? ==> s.threads[s.b.owner.value].pc.Critical();
    assert [Run(t)][1..] == [];
  }

  /** A callback in progress holds up nobody but the thread that cancels the timer. */
  lemma ThreadsIgnoreCallback(c: Config, s: State, t: nat)
    requires t < |s.threads| && !s.threads[t].pc.LastCancel?
    ensures Legal(c, s, [Run(t)]) <==> Legal(c, s.(b := s.b.(firing := false)), [Run(t)])
  {
    assert [Run(t)][1..] == [];
  }

  /** An armed timer can expire and its callback complete whatever the threads are doing. */
  lemma CallbackNeedsNobody(c: Config, s: State)
    requires s.b.armed && !s.b.firing
    ensures Legal(c, s, [Fire, Flag])
    ensures Exec(c, s, [Fire, Flag]).threads == s.threads
    ensures Exec(c, s, [Fire, Flag]).b == s.b.(armed := false, condFlag := true, timeoutFlag := true)
  {
    var s1 := Apply(c, s, Fire);
    var s2 := Apply(c, s1, Flag);
    assert [Fire, Flag][1..] == [Flag] && [Flag][1..] == [];
    assert Exec(c, s1, [Flag]) == Exec(c, s2, []) == s2;
  }

  /** Nor can any run keep a callback from its second store, or start another callback before it. */
  lemma {:induction false} CallbackCompletes(c: Config, s: State, es: seq<Event>)
    requires s.b.firing && Legal(c, s, es) && Flag !in es
    ensures Fire !in es && Enabled(Exec(c, s, es), Flag)
    decreases |es|
  {
    if es == [] {
    } else {
      CallbackCompletes(c, Apply(c, s, es[0]), es[1..]);
    }
  }

  /** The timer is armed exactly while a round has a participant and its sleepers are not released. */
  lemma ArmedExactly(c: Config, threads: nat, s: State)
    requires c.initCount >= 2 && Reachable(c, threads, s)
    ensures s.b.armed <==> TimerRuns(c, s)
  {
    ReachableInv(c, threads, s);
    SomeoneInside(c, s);
    assert s.Holder().EntryDec? ==> s.threads[s.b.owner.value].pc.EntryDec?;
  }

  /** In every run, an event can come next if and only if it is possible in the sense above. */
  lemma PossibleExactly(c: Config, threads: nat, s: State, e: Event)
    requires c.initCount >= 2 && Reachable(c, threads, s)
    ensures Enabled(s, e) <==> Possible(c, s, e)
  {
    ArmedExactly(c, threads, s);
    if e.Run? && e.thread < |s.threads| {
      BlockedExactly(c, threads, s, e.thread);
      assert [e][1..] == [];
    }
  }

  lemma {:induction false} LegalPrefix(c: Config, s: State, es: seq<Event>, e: Event)
    ensures Legal(c, s, es + [e]) <==> Legal(c, s, es) && Enabled(Exec(c, s, es), e)
    decreases |es|
  {
    if es == [] {
      assert es + [e] == [e] && [e][1..] == [];
    } else {
      assert (es + [e])[0] == es[0] && (es + [e])[1..] == es[1..] + [e];
      if Enabled(s, es[0]) {
        LegalPrefix(c, Apply(c, s, es[0]), es[1..], e);
      }
    }
  }

  /** So the schedules of the barrier are exactly the sequences in which each event is possible when its turn comes. */
  lemma SchedulesExactly(c: Config, threads: nat, es: seq<Event>, e: Event)
    requires c.initCount >= 2
    ensures
      var s := Init(c, threads);
      Legal(c, s, es + [e]) <==> Legal(c, s, es) && Possible(c, Exec(c, s, es), e)
  {
    LegalPrefix(c, Init(c, threads), es, e);
    if Legal(c, Init(c, threads), es) {
      PossibleExactly(c, threads, Exec(c, Init(c, threads), es), e);
    }
  }

  lemma {:induction false} EnoughCalls(c: Config, calls: nat, s: State, es: seq<Event>)
    requires Legal(c, s, es) && forall t :: 0 <= t < |s.threads| ==> |s.threads[t].returned| + |es| <= calls
    ensures ClientRun(c, calls, s, es)
    decreases |es|
  {
    if es == [] {
    } else {
      EnoughCalls(c, calls, Apply(c, s, es[0]), es[1..]);
    }
  }

  /** The client cuts nothing short: every state of the barrier is a state of a client with calls enough. */
  lemma ReachableByClient(c: Config, threads: nat, s: State)
    ensures Reachable(c, threads, s) <==> exists calls: nat :: ClientReachable(c, threads, calls, s)
  {
    if Reachable(c, threads, s) {
      var es :| Legal(c, Init(c, threads), es) && Exec(c, Init(c, threads), es) == s;
      EnoughCalls(c, |es|, Init(c, threads), es);
      assert ClientReachable(c, threads, |es|, s);
    } else if calls: nat :| ClientReachable(c, threads, calls, s) {
      ClientIsReachable(c, threads, calls, s);
    }
  }

  /** Some sleeper counts out between the two stores of a callback. */
  predicate CountsOutInCallback(c: Config, s: State, es: seq<Event>)
    requires Legal(c, s, es)
    decreases |es|
  {
    es != [] && (
      || (es[0].Run? && s.threads[es[0].thread].pc.ExitInc? && s.b.firing)
      || CountsOutInCallback(c, Apply(c, s, es[0]), es[1..]))
  }

  /** A history is torn exactly if that has happened. */
  lemma {:induction false} TornExactly(c: Config, s: State, es: seq<Event>)
    requires Legal(c, s, es)
    ensures Exec(c, s, es).h.torn <==> s.h.torn || CountsOutInCallback(c, s, es)
    decreases |es|
  {
    if es != [] {
      TornExactly(c, Apply(c, s, es[0]), es[1..]);
    }
  }

  // ---------- the order of release and reset ----------

  /** The statement that opens the gate to the sleepers finds `left` at zero and timer and callback at rest. */
  lemma ReleaseInOrder(c: Config, threads: nat, s: State, e: Event)
    requires c.initCount >= 2 && Reachable(c, threads, s) && Enabled(s, e)
    requires e.Run? && !s.b.condFlag && Apply(c, s, e).b.condFlag
    ensures s.b.left == 0 && !s.b.armed && !s.b.firing
  {
    ReachableInv(c, threads, s);
    HolderAfter(c, s, e.thread);
    assert s.threads[e.thread].pc.LastRelease?;
  }

  /**
   The statement that reopens the gate finds `timeout_flag` clear, in an untorn history, and the round not counted
   yet; the one that counts the round finds the gate open.
   */
  lemma ResetInOrder(c: Config, threads: nat, s: State, e: Event)
    requires c.initCount >= 2 && Reachable(c, threads, s) && Enabled(s, e)
    ensures
      var s' := Apply(c, s, e);
      && (s.b.condFlag && !s'.b.condFlag ==> (s.h.torn || !s.b.timeoutFlag) && s.b.syncNum == |s.h.log| % WORD)
      && (s.b.syncNum != s'.b.syncNum ==> !s.b.condFlag)
  {
    ReachableInv(c, threads, s);
    if e.Run? {
      HolderAfter(c, s, e.thread);
    }
  }

  // ---------- the timer against the last thread ----------

  /** The last thread of the first round has done its `left--`; the timer is still armed. */
  lemma LastArrives(c: Config, threads: nat, calls: nat) returns (s: State)
    requires c.initCount >= 2 && c.timeout > 0 && threads >= c.initCount && calls >= 1
    ensures ClientReachable(c, threads, calls, s) && |s.threads| == threads && !s.h.torn
    ensures s.b == InitBarrier(c).(left := 0, armed := true, owner := Some(c.initCount - 1))
    ensures s.threads[c.initCount - 1].pc.EntryBranch? && s.threads[c.initCount - 1].returned == []
    ensures Row(s, 0, c.initCount - 1, Sleeping, 0)
  {
    ClientStart(c, threads, calls);
    s := AllGate(c, threads, calls, Init(c, threads), 0, c.initCount, 0);
    s := AllSleep(c, threads, calls, s, 0, c.initCount - 1, 0);
    s := MoveCountIn(c, threads, calls, s, c.initCount - 1);
  }

  /** The timer expires under the last thread, which holds the mutex with `left` at zero and has to wait. */
  lemma ExpiresUnderLastThread(c: Config, threads: nat, calls: nat) returns (s: State)
    requires c.initCount >= 2 && c.timeout > 0 && threads >= c.initCount && calls >= 1
    ensures ClientReachable(c, threads, calls, s) && |s.threads| == threads && !s.h.torn
    ensures s.b == InitBarrier(c).(left := 0, condFlag := true, firing := true, owner := Some(c.initCount - 1))
    ensures s.threads[c.initCount - 1].pc.LastCancel? && s.threads[c.initCount - 1].returned == []
    ensures !Enabled(s, Run(c.initCount - 1)) && Row(s, 0, c.initCount - 1, Sleeping, 0)
  {
    s := LastArrives(c, threads, calls);
    ClientStep(c, threads, calls, s, Fire);
    s := Apply(c, s, Fire);
    ClientStep(c, threads, calls, s, Run(c.initCount - 1));
    s := Apply(c, s, Run(c.initCount - 1));
  }

  /** The barrier can expire with `left` at zero if and only if it has a timeout and threads enough for a round. */
  lemma ExpiryMeetsReleaseExactly(c: Config, threads: nat)
    requires c.initCount >= 2
    ensures (exists s :: Reachable(c, threads, s) && s.b.left == 0 && Legal(c, s, [Fire, Flag]))
      <==> c.timeout > 0 && threads >= c.initCount
  {
    if c.timeout > 0 && threads >= c.initCount {
      var s := LastArrives(c, threads, 1);
      ClientIsReachable(c, threads, 1, s);
      CallbackNeedsNobody(c, s);
    } else if s :| Reachable(c, threads, s) && s.b.left == 0 && Legal(c, s, [Fire, Flag]) {
      ReachableInv(c, threads, s);
      ReachableThreads(c, threads, s);
      if threads < c.initCount {
        FewerStayBelow(c, s);
      }
    }
  }

  lemma ReachableThreads(c: Config, threads: nat, s: State)
    requires Reachable(c, threads, s)
    ensures |s.threads| == threads
  {
    var es :| Legal(c, Init(c, threads), es) && Exec(c, Init(c, threads), es) == s;
    ExecThreads(c, Init(c, threads), es);
  }

  lemma {:induction false} ExecThreads(c: Config, s: State, es: seq<Event>)
    requires Legal(c, s, es)
    ensures |Exec(c, s, es).threads| == |s.threads|
    decreases |es|
  {
    if es != [] {
      ExecThreads(c, Apply(c, s, es[0]), es[1..]);
    }
  }

  /**
   The outcome: the callback completes before the cancelling does, so the flag is set when the first sleeper leaves.
   The house was full, and the last thread returns 0 and the sleeper -ETIME.
   */
  lemma FullHouseTimesOut(c: Config, threads: nat, calls: nat) returns (s: State)
    requires c.initCount >= 3 && c.timeout > 0 && threads >= c.initCount && calls >= 1
    ensures ClientReachable(c, threads, calls, s) && |s.threads| == threads && !s.h.torn
    ensures s.threads[c.initCount - 1].returned == [Success] && s.threads[0].returned == [TimedOut]
  {
    var last := c.initCount - 1;
    s := ExpiresUnderLastThread(c, threads, calls);
    ClientStep(c, threads, calls, s, Flag);
    s := Apply(c, s, Flag);
    s := Move(c, threads, calls, s, last, LastCancel);
    s := Move(c, threads, calls, s, last, LastRelease);
    s := Move(c, threads, calls, s, last, LastInc);
    s := MoveExit(c, threads, calls, s, 0);
  }
}
