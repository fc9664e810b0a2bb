/** Return codes over whole rounds: who gets 0, who gets -ETIME. */
module BarrierAccounting {
  import opened BarrierMachine
  import opened BarrierInvariant
  import opened BarrierRuns
  import opened BarrierScenarios

  /** The timer fired in the current round, or its `timeout_flag` is the garbage `barrier_init` left. */
  predicate Flagged(c: Config, h: History) {
    h.cur.fired || (c.garbage && h.log == [])
  }

  /** The tally of the round in progress. */
  ghost predicate Tally(c: Config, s: State) {
    var b, pc, r := s.b, s.Holder(), s.h.cur;
    && r.sleepers + (if pc.Deciding() then 1 else 0)
       == r.zeros + r.etimes + (c.initCount - b.left) + (if pc.PastIncrement() then 1 else 0)
    && (!b.condFlag && !Closed(pc) ==> r.zeros == r.etimes == r.early == r.releasers == 0 && !r.fired)
    && (b.condFlag || Closed(pc) ==> r.fired || r.releasers >= 1)
    && (r.releasers >= 1 ==> r.sleepers >= c.initCount - 1)
    && (r.fired ==> c.Timed())
  }

  /** The codes returned so far in the round in progress, of an untorn history. */
  ghost predicate Codes(c: Config, s: State) {
    var b, pc, r := s.b, s.Holder(), s.h.cur;
    !s.h.torn ==>
      && (b.firing ==> r.fired && r.zeros == r.etimes == r.early == 0)
      && (!(pc.ExitClearCond? || Closed(pc) || b.firing) ==> (b.timeoutFlag <==> Flagged(c, s.h)))
      && (Flagged(c, s.h) ==> r.zeros == 0)
      && (Flagged(c, s.h) && !b.firing ==> r.early == r.etimes + (if pc.PastIncrement() then 1 else 0))
      && (!Flagged(c, s.h) ==> r.etimes == 0 && r.early == 0)
  }

  /** A finished round, the `i`-th one: who took part, and the return codes unless the history was torn. */
  ghost predicate Settled(c: Config, r: Round, i: nat, torn: bool) {
    var flagged := r.fired || (c.garbage && i == 0);
    && r.sleepers >= 1
    && r.zeros + r.etimes == r.sleepers
    && (!torn ==> r.zeros == (if flagged then 1 else r.sleepers))
    && (!torn ==> r.early == (if flagged then r.sleepers else 0))
    && (r.fired ==> c.Timed())
    && (!r.fired ==> r.releasers >= 1)
    && (r.releasers >= 1 ==> r.sleepers >= c.initCount - 1)
  }

  ghost predicate Accounts(c: Config, s: State) {
    Tally(c, s) && Codes(c, s) && Books(c, s)
  }

  /** All finished rounds are settled. */
  ghost predicate Books(c: Config, s: State) {
    forall i :: 0 <= i < |s.h.log| ==> Settled(c, s.h.log[i], i, s.h.torn)
  }

  lemma BooksKept(c: Config, s: State, t: nat)
    requires Books(c, s) && Enabled(s, Run(t)) && s.threads[t].pc != ExitReturn(true)
    ensures Books(c, Apply(c, s, Run(t)))
  {
  }

  lemma CallbackAccounts(c: Config, s: State, e: Event)
    requires c.initCount >= 2 && Inv(c, s) && Accounts(c, s) && !e.Run? && Enabled(s, e)
    ensures Accounts(c, Apply(c, s, e))
  {
  }

  /** Statements outside the critical sections leave the tally alone. */
  lemma IdleTally(c: Config, s: State, t: nat)
    requires c.initCount >= 2 && Inv(c, s) && Tally(c, s) && Codes(c, s) && Enabled(s, Run(t))
    requires !s.threads[t].pc.Critical()
    ensures Tally(c, Apply(c, s, Run(t))) && Codes(c, Apply(c, s, Run(t)))
  {
    IdleStatement(c, s, t);
  }

  lemma CountInTally(c: Config, s: State, t: nat)
    requires c.initCount >= 2 && Inv(c, s) && Tally(c, s) && Enabled(s, Run(t))
    requires s.threads[t].pc.EntryCheck? || s.threads[t].pc.EntryDec? || s.threads[t].pc.EntryBranch?
    ensures Tally(c, Apply(c, s, Run(t)))
  {
    HolderAfter(c, s, t);
    assert s.Holder() == s.threads[t].pc;
    var r, r' := s.h.cur, Apply(c, s, Run(t)).h.cur;
    assert r' == r.(sleepers := r'.sleepers);
  }

  lemma ReleaseTally(c: Config, s: State, t: nat)
    requires c.initCount >= 2 && Inv(c, s) && Tally(c, s) && Enabled(s, Run(t))
    requires s.threads[t].pc.LastCancel? || s.threads[t].pc.LastRelease? || s.threads[t].pc.LastInc?
    ensures Tally(c, Apply(c, s, Run(t)))
  {
  }

  /** The codes depend only on what sleepers returned, on `timeout_flag` and on the history. */
  lemma CodesFrame(c: Config, s: State, s': State)
    requires Codes(c, s) && !s.Holder().PastIncrement() && !s'.Holder().PastIncrement()
    requires s'.b.timeoutFlag == s.b.timeoutFlag && s'.b.firing == s.b.firing
    requires s'.h.torn == s.h.torn && s'.h.log == s.h.log
    requires s'.h.cur == s.h.cur.(sleepers := s'.h.cur.sleepers, releasers := s'.h.cur.releasers)
    ensures Codes(c, s')
  {
  }

  /** Entry sections return no sleeper's code and leave `timeout_flag` alone. */
  lemma EntryCodes(c: Config, s: State, t: nat)
    requires c.initCount >= 2 && Inv(c, s) && Codes(c, s) && Enabled(s, Run(t))
    requires s.threads[t].pc.EntryCheck? || s.threads[t].pc.EntryDec? || s.threads[t].pc.Deciding()
    ensures Codes(c, Apply(c, s, Run(t)))
  {
    HolderAfter(c, s, t);
    CodesFrame(c, s, Apply(c, s, Run(t)));
  }

  lemma ExitTally(c: Config, s: State, t: nat)
    requires c.initCount >= 2 && Inv(c, s) && Tally(c, s) && Enabled(s, Run(t))
    requires s.threads[t].pc.ExitInc? || s.threads[t].pc.PastIncrement()
    requires s.threads[t].pc != ExitReturn(true)
    ensures Tally(c, Apply(c, s, Run(t)))
  {
    HolderAfter(c, s, t);
    SomeoneInside(c, s);
  }

  lemma ExitCodes(c: Config, s: State, t: nat)
    requires c.initCount >= 2 && Inv(c, s) && Tally(c, s) && Codes(c, s) && Enabled(s, Run(t))
    requires s.threads[t].pc.ExitInc? || s.threads[t].pc.PastIncrement()
    requires s.threads[t].pc != ExitReturn(true)
    ensures Codes(c, Apply(c, s, Run(t)))
  {
    HolderAfter(c, s, t);
    var s' := Apply(c, s, Run(t));
    assert Flagged(c, s'.h) == Flagged(c, s.h);
  }

  /** The resetter's return closes the books of the round. */
  lemma SettleTally(c: Config, s: State, t: nat)
    requires c.initCount >= 2 && Inv(c, s) && Accounts(c, s) && Enabled(s, Run(t))
    requires s.threads[t].pc == ExitReturn(true)
    ensures Accounts(c, Apply(c, s, Run(t)))
  {
  }

  lemma StepAccounts(c: Config, s: State, e: Event)
    requires c.initCount >= 2
    requires Inv(c, s) && Accounts(c, s) && Enabled(s, e)
    ensures Accounts(c, Apply(c, s, e))
  {
    if !e.Run? {
      CallbackAccounts(c, s, e);
    } else if s.threads[e.thread].pc == ExitReturn(true) {
      SettleTally(c, s, e.thread);
    } else {
      if s.threads[e.thread].pc.ExitInc? || s.threads[e.thread].pc.PastIncrement() {
        ExitTally(c, s, e.thread);
        ExitCodes(c, s, e.thread);
      } else if s.threads[e.thread].pc.Critical() {
        if s.threads[e.thread].pc.Deciding() && !s.threads[e.thread].pc.EntryBranch? {
          ReleaseTally(c, s, e.thread);
        } else {
          CountInTally(c, s, e.thread);
        }
        EntryCodes(c, s, e.thread);
      } else {
        IdleTally(c, s, e.thread);
      }
      BooksKept(c, s, e.thread);
    }
  }

  lemma {:induction false} ExecAccounts(c: Config, s: State, es: seq<Event>)
    requires c.initCount >= 2 && Inv(c, s) && Accounts(c, s) && Legal(c, s, es)
    ensures Accounts(c, Exec(c, s, es))
    decreases |es|
  {
    if es == [] {
    } else {
      StepInv(c, s, es[0]);
      StepAccounts(c, s, es[0]);
      ExecAccounts(c, Apply(c, s, es[0]), es[1..]);
    }
  }

  lemma ReachableAccounts(c: Config, threads: nat, s: State)
    requires c.initCount >= 2 && Reachable(c, threads, s)
    ensures Accounts(c, s)
  {
    var es :| Legal(c, Init(c, threads), es) && Exec(c, Init(c, threads), es) == s;
    InitInv(c, threads);
    ExecAccounts(c, Init(c, threads), es);
  }

  /**
   In every finished round of every run, with any number of threads: if the timer did not fire, every sleeper
   returned 0; if it fired, exactly one sleeper (the resetter) returned 0 and all others -ETIME.  The first
   round counts as fired when `timeout_flag` happened to be set in the memory `barrier_init` was given.  The
   one proviso: no sleeper ever ran its exit section between the two stores of the timer callback.
   */
  lemma ReturnCodes(c: Config, threads: nat, s: State, i: nat)
    requires c.initCount >= 2 && Reachable(c, threads, s) && i < |s.h.log| && !s.h.torn
    ensures
      var r := s.h.log[i];
      && r.sleepers >= 1
      && (r.fired || (c.garbage && i == 0) ==> r.zeros == 1 && r.etimes == r.sleepers - 1)
      && (!r.fired && !(c.garbage && i == 0) ==> r.zeros == r.sleepers && r.etimes == 0)
  {
    ReachableAccounts(c, threads, s);
  }

  /**
   The code of each call, as it returns: -ETIME exactly for a sleeper of a flagged round that is not the one to
   reset the barrier; the resetter and the threads of the last-thread branch get 0.
   */
  lemma CallReturns(c: Config, threads: nat, s: State, t: nat)
    requires c.initCount >= 2 && Reachable(c, threads, s) && !s.h.torn
    requires t < |s.threads| && (s.threads[t].pc.ExitReturn? || s.threads[t].pc.LastInc?)
    ensures
      var th, th' := s.threads[t], Apply(c, s, Run(t)).threads[t];
      var code := if th.pc == ExitReturn(false) && Flagged(c, s.h) then TimedOut else Success;
      th'.pc == Outside && th'.returned == th.returned + [code]
  {
    ReachableInv(c, threads, s);
    ReachableAccounts(c, threads, s);
    HolderAfter(c, s, t);
  }

  /**
   When a returning call meets README's promise, -ETIME if the round timed out and 0 if not: the resetter and
   the last-thread branch if and only if the timer did not fire, any other sleeper if and only if it did or the
   flag did not start as garbage of the first round.
   */
  lemma CallMeetsReadmeExactly(c: Config, threads: nat, s: State, t: nat)
    requires c.initCount >= 2 && Reachable(c, threads, s) && !s.h.torn
    requires t < |s.threads| && (s.threads[t].pc.ExitReturn? || s.threads[t].pc.LastInc?)
    ensures
      var th, th' := s.threads[t], Apply(c, s, Run(t)).threads[t];
      var promised := if s.h.cur.fired then TimedOut else Success;
      th'.returned == th.returned + [promised] <==>
        if th.pc == ExitReturn(false) then s.h.cur.fired || !(c.garbage && s.h.log == []) else !s.h.cur.fired
  {
    CallReturns(c, threads, s, t);
    var th' := Apply(c, s, Run(t)).threads[t];
    assert th'.returned[|s.threads[t].returned|..] == [th'.returned[|s.threads[t].returned|]];
  }

  /**
   What README promises the sleepers is what a thread would return had it read `timeout_flag` on taking the
   mutex, before the reset: every sleeper then sees whether its round is flagged.
   */
  lemma EarlyReadSeesRound(c: Config, threads: nat, s: State, t: nat)
    requires c.initCount >= 2 && Reachable(c, threads, s) && !s.h.torn
    requires t < |s.threads| && s.threads[t].pc.ExitInc? && !s.b.firing
    ensures s.b.timeoutFlag <==> s.h.cur.fired || (c.garbage && s.h.log == [])
  {
    ReachableInv(c, threads, s);
    ReachableAccounts(c, threads, s);
    assert s.Holder().ExitInc?;
  }

  /** So in every finished round but a garbage first one, all sleepers or none see it set, as README promises. */
  lemma EarlyReadMeetsReadme(c: Config, threads: nat, s: State, i: nat)
    requires c.initCount >= 2 && Reachable(c, threads, s) && i < |s.h.log| && !s.h.torn && !(c.garbage && i == 0)
    ensures s.h.log[i].early == if s.h.log[i].fired then s.h.log[i].sleepers else 0
  {
    ReachableAccounts(c, threads, s);
  }

  /** The zeros of a round, as `ReturnCodes` gives them. */
  predicate OneZeroIfFlagged(c: Config, r: Round, i: nat) {
    r.zeros == if r.fired || (c.garbage && i == 0) then 1 else r.sleepers
  }

  /**
   The proviso of `ReturnCodes` can be dropped if and only if the barrier has no timeout: with one, a callback
   whose second store comes late makes the resetter return -ETIME as well.
   */
  lemma ReturnCodesExactly(c: Config, threads: nat)
    requires threads >= 1 && c.initCount >= 2
    ensures (forall s, i | Reachable(c, threads, s) && 0 <= i < |s.h.log| :: OneZeroIfFlagged(c, s.h.log[i], i))
      <==> c.timeout <= 0
  {
    if c.timeout > 0 {
      var s := FlagLandsDuringReset(c, threads);
      assert !OneZeroIfFlagged(c, s.h.log[0], 0);
    } else {
      forall s, i | Reachable(c, threads, s) && 0 <= i < |s.h.log| ensures OneZeroIfFlagged(c, s.h.log[i], i) {
        ReachableInv(c, threads, s);
        ReachableAccounts(c, threads, s);
      }
    }
  }

  // ---------- the tallies are what calls returned ----------

  /** How many of the calls that have returned got `code`. */
  function Returned(ths: seq<Thread>, code: Code): nat {
    if ths == [] then 0 else multiset(ths[0].returned)[code] + Returned(ths[1..], code)
  }

  lemma {:induction false} ReturnedUpdate(ths: seq<Thread>, t: nat, th: Thread, code: Code)
    requires t < |ths|
    ensures Returned(ths[t := th], code) ==
      Returned(ths, code) - multiset(ths[t].returned)[code] + multiset(th.returned)[code]
  {
    if t == 0 {
      assert ths[t := th][1..] == ths[1..];
    } else {
      assert ths[t := th][1..] == ths[1..][t - 1 := th];
      ReturnedUpdate(ths[1..], t - 1, th, code);
    }
  }

  /** The tallies of all rounds in a log: calls that got -ETIME, and calls that got 0 or are about to. */
  function TimedOuts(log: seq<Round>): nat {
    if log == [] then 0 else TimedOuts(log[..|log| - 1]) + log[|log| - 1].etimes
  }

  function Successes(log: seq<Round>): nat {
    if log == [] then 0 else Successes(log[..|log| - 1]) + log[|log| - 1].zeros + log[|log| - 1].releasers
  }

  /** A thread that has opened the gate returns 0 in its next statement. */
  ghost predicate Counted(s: State) {
    && Returned(s.threads, TimedOut) == TimedOuts(s.h.log) + s.h.cur.etimes
    && Returned(s.threads, Success) + (if s.Holder().LastInc? then 1 else 0)
       == Successes(s.h.log) + s.h.cur.zeros + s.h.cur.releasers
  }

  /** What a statement adds to the tallies. */
  lemma TallyAfter(c: Config, s: State, t: nat)
    requires Enabled(s, Run(t))
    ensures
      var pc, h, h' := s.threads[t].pc, s.h, Apply(c, s, Run(t)).h;
      var codes := if pc.ExitReturn? then Returns(s.b, pc) else [];
      && TimedOuts(h'.log) + h'.cur.etimes == TimedOuts(h.log) + h.cur.etimes + multiset(codes)[TimedOut]
      && Successes(h'.log) + h'.cur.zeros + h'.cur.releasers
         == Successes(h.log) + h.cur.zeros + h.cur.releasers + multiset(codes)[Success]
            + (if pc.LastRelease? then 1 else 0)
  {
    var pc, h, h' := s.threads[t].pc, s.h, Apply(c, s, Run(t)).h;
    if pc == ExitReturn(true) {
      assert h'.log[..|h.log|] == h.log;
    } else {
      assert h'.log == h.log;
    }
  }

  lemma RunCounted(c: Config, s: State, t: nat)
    requires Mutex(s) && Counted(s) && Enabled(s, Run(t))
    ensures Counted(Apply(c, s, Run(t)))
  {
    var th, th' := s.threads[t], Apply(c, s, Run(t)).threads[t];
    HolderAfter(c, s, t);
    TallyAfter(c, s, t);
    assert th'.returned == th.returned + Returns(s.b, th.pc);
    ReturnedUpdate(s.threads, t, th', TimedOut);
    ReturnedUpdate(s.threads, t, th', Success);
  }

  lemma {:induction false} ExecCounted(c: Config, s: State, es: seq<Event>)
    requires Mutex(s) && Counted(s) && Legal(c, s, es)
    ensures Mutex(Exec(c, s, es)) && Counted(Exec(c, s, es))
    decreases |es|
  {
    if es == [] {
    } else {
      if es[0].Run? {
        RunMutex(c, s, es[0].thread);
        RunCounted(c, s, es[0].thread);
      }
      ExecCounted(c, Apply(c, s, es[0]), es[1..]);
    }
  }

  lemma {:induction false} NothingReturned(threads: nat, code: Code)
    ensures Returned(seq(threads, i => Thread(Outside, 0, [])), code) == 0
  {
    var ths := seq(threads, i => Thread(Outside, 0, []));
    if threads > 0 {
      assert ths[1..] == seq(threads - 1, i => Thread(Outside, 0, []));
      NothingReturned(threads - 1, code);
    }
  }

  /**
   In every run the tallies of the rounds are what the calls returned: -ETIME as often as the `etimes` of all
   rounds say, and 0 as often as their `zeros` and `releasers` say, up to one releaser about to return.
   */
  lemma TalliesAreReturns(c: Config, threads: nat, s: State)
    requires Reachable(c, threads, s)
    ensures Counted(s)
  {
    var es :| Legal(c, Init(c, threads), es) && Exec(c, Init(c, threads), es) == s;
    NothingReturned(threads, TimedOut);
    NothingReturned(threads, Success);
    ExecCounted(c, Init(c, threads), es);
  }

  /**
   A round that the timer did not end was full: at least `init_count` threads took part, all but one asleep.
   In particular, without a timeout every round is full.
   */
  lemma UnfiredRoundsAreFull(c: Config, threads: nat, s: State, i: nat)
    requires c.initCount >= 2 && Reachable(c, threads, s) && i < |s.h.log|
    ensures !s.h.log[i].fired ==> s.h.log[i].releasers >= 1 && s.h.log[i].sleepers >= c.initCount - 1
    ensures c.timeout <= 0 ==> !s.h.log[i].fired
  {
    ReachableAccounts(c, threads, s);
  }

  // ---------- when the proviso holds ----------

  /** The callback's two stores follow each other with no thread in between, as on a single processor. */
  predicate AtomicCallback(es: seq<Event>)
    decreases |es|
  {
    if es == [] then true
    else if es[0].Fire? then |es| >= 2 && es[1].Flag? && AtomicCallback(es[2..])
    else !es[0].Flag? && AtomicCallback(es[1..])
  }

  /** With an atomic callback no history is torn. */
  lemma {:induction false} AtomicCallbackNeverTears(c: Config, s: State, es: seq<Event>)
    requires Legal(c, s, es) && AtomicCallback(es) && !s.b.firing && !s.h.torn
    ensures !Exec(c, s, es).h.torn && !Exec(c, s, es).b.firing
    decreases |es|
  {
    if es == [] {
    } else if es[0].Fire? {
      var s1 := Apply(c, s, es[0]);
      assert es[1..][0] == es[1] && es[1..][1..] == es[2..];
      AtomicCallbackNeverTears(c, Apply(c, s1, es[1]), es[2..]);
    } else {
      AtomicCallbackNeverTears(c, Apply(c, s, es[0]), es[1..]);
    }
  }
}
