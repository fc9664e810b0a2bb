/** Runs of the barrier machine: what holds at every reachable state, and how reachable states are built. */
module BarrierRuns {
  import opened BarrierMachine
  import opened BarrierInvariant

  lemma {:induction false} ExecInv(c: Config, s: State, es: seq<Event>)
    requires c.initCount >= 2 && Inv(c, s) && Legal(c, s, es)
    ensures Inv(c, Exec(c, s, es))
    decreases |es|
  {
    if es == [] {
    } else {
      StepInv(c, s, es[0]);
      ExecInv(c, Apply(c, s, es[0]), es[1..]);
    }
  }

  /** Every reachable state satisfies the invariant, for any number of threads and any timer behaviour. */
  lemma ReachableInv(c: Config, threads: nat, s: State)
    requires c.initCount >= 2 && Reachable(c, threads, s)
    ensures Inv(c, s)
  {
    var es :| Legal(c, Init(c, threads), es) && Exec(c, Init(c, threads), es) == s;
    InitInv(c, threads);
    ExecInv(c, Init(c, threads), es);
  }

  /** Running one schedule and then another is running their concatenation. */
  lemma {:induction false} ExecConcat(c: Config, s: State, es: seq<Event>, fs: seq<Event>)
    requires Legal(c, s, es) && Legal(c, Exec(c, s, es), fs)
    ensures Legal(c, s, es + fs)
    ensures Exec(c, s, es + fs) == Exec(c, Exec(c, s, es), fs)
    decreases |es|
  {
    if es == [] {
      assert es + fs == fs;
    } else {
      assert (es + fs)[0] == es[0] && (es + fs)[1..] == es[1..] + fs;
      ExecConcat(c, Apply(c, s, es[0]), es[1..], fs);
    }
  }

  lemma ReachableInit(c: Config, threads: nat)
    ensures Reachable(c, threads, Init(c, threads))
  {
    assert Exec(c, Init(c, threads), []) == Init(c, threads);
  }

  lemma ReachableExtend(c: Config, threads: nat, s: State, fs: seq<Event>)
    requires Reachable(c, threads, s) && Legal(c, s, fs)
    ensures Reachable(c, threads, Exec(c, s, fs))
  {
    var es :| Legal(c, Init(c, threads), es) && Exec(c, Init(c, threads), es) == s;
    ExecConcat(c, Init(c, threads), es, fs);
  }

  lemma ReachableStep(c: Config, threads: nat, s: State, e: Event)
    requires Reachable(c, threads, s) && Enabled(s, e)
    ensures Reachable(c, threads, Apply(c, s, e))
  {
    var s' := Apply(c, s, e);
    assert [e][1..] == [];
    assert Legal(c, s', []) && Exec(c, s', []) == s';
    assert Legal(c, s, [e]) && Exec(c, s, [e]) == s';
    ReachableExtend(c, threads, s, [e]);
  }
}
