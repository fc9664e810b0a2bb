/** The inductive invariant of the barrier machine, for any number of threads and any timer behaviour. */
module BarrierInvariant {
  import opened Words
  import opened BarrierMachine

  /** Mutual exclusion: exactly the holder is in a critical section. */
  ghost predicate Mutex(s: State) {
    && (s.b.owner.Some? ==> s.b.owner.value < |s.threads|)
    && forall t :: 0 <= t < |s.threads| ==> (s.threads[t].pc.Critical() <==> s.b.owner == Some(t))
  }

  /** Conservation, with the words' wrap-around written out: nothing is lost and `left` never underflows. */
  ghost predicate Conserved(c: Config, s: State) {
    && s.b.left + |s.Inside()| == c.initCount
    && (s.b.left == 0 ==> s.Holder().Deciding())
    && (s.Holder().LastCancel? || s.Holder().LastRelease? || s.Holder().LastInc? ==> s.b.left == 0)
  }

  /** What the gate and the timer say about the round in progress. */
  ghost predicate Flags(c: Config, s: State) {
    var b, pc, full := s.b, s.Holder(), s.b.left == c.initCount;
    && (b.armed ==> c.Timed() && !b.condFlag && (!full || pc.EntryDec?) && s.h.armedIn == s.h.rounds)
    && (b.condFlag && full ==> pc.EntryDec? || pc.ExitTest? || pc.ExitClearTimeout? || pc.ExitClearCond?)
    && (c.Timed() && !b.condFlag && (!full || pc.EntryDec?) ==> b.armed || pc.LastRelease?)
    && (pc.LastRelease? || pc.LastInc? ==> !b.armed && !b.firing)
    && (pc.LastInc? || pc.ExitTest? ==> b.condFlag)
    && (pc.ExitClearTimeout? || pc.ExitClearCond? ==> full && b.condFlag)
    && (Closed(pc) ==> full && !b.condFlag)
    && (pc == ExitReturn(false) ==> !full && b.condFlag)
    && (pc.EntryBranch? ==> !full)
    && (b.firing || s.h.torn ==> c.Timed())
  }

  /** The resetter has reopened the gate and has not returned yet. */
  predicate Closed(pc: PC) {
    pc.ExitCount? || pc == ExitReturn(true)
  }

  /** In an untorn history `timeout_flag` is set only while sleepers are released, garbage aside. */
  ghost predicate Untorn(c: Config, s: State) {
    var b, pc := s.b, s.Holder();
    !s.h.torn ==>
      && (b.firing ==> b.condFlag && !pc.PastIncrement())
      && (b.timeoutFlag && (!b.condFlag || !c.Timed()) ==> c.garbage && s.h.log == [] && s.h.rounds == 0)
      && (pc.ExitClearCond? || Closed(pc) ==> !b.timeoutFlag)
  }

  /** A woken thread sees the gate still closed, and no thread is carried from one round into another. */
  ghost predicate NotLapped(s: State) {
    forall t :: 0 <= t < |s.threads| ==>
      && (s.threads[t].pc.WantExit? || s.threads[t].pc.ExitInc? ==> s.b.condFlag)
      && (s.threads[t].pc.Owes() ==> s.threads[t].ticket == s.h.rounds)
  }

  ghost predicate Rounds(s: State) {
    && s.h.rounds == |s.h.log| + (if s.Holder() == ExitReturn(true) then 1 else 0)
    && s.b.syncNum == s.h.rounds % WORD
  }

  /** Mutual exclusion, conservation and the protocol of flags, timer and rounds. */
  ghost predicate Inv(c: Config, s: State) {
    Mutex(s) && Conserved(c, s) && Flags(c, s) && Untorn(c, s) && NotLapped(s) && Rounds(s)
  }

  // ---------- counting the threads inside ----------

  lemma InsideUpdate(s: State, s': State, t: nat)
    requires t < |s.threads| == |s'.threads|
    requires s'.threads == s.threads[t := s'.threads[t]]
    ensures |s'.Inside()| == |s.Inside()|
      + (if s'.threads[t].pc.Owes() then 1 else 0) - (if s.threads[t].pc.Owes() then 1 else 0)
  {
    assert t in s.Inside() <==> s.threads[t].pc.Owes();
    assert s'.Inside() == if s'.threads[t].pc.Owes() then s.Inside() + {t} else s.Inside() - {t};
  }

  /** `left` is below the count exactly when some thread is inside. */
  lemma SomeoneInside(c: Config, s: State)
    requires Conserved(c, s)
    ensures s.b.left < c.initCount <==> exists t: nat :: t < |s.threads| && s.threads[t].pc.Owes()
  {
    if s.Inside() != {} {
      var t :| t in s.Inside();
      assert s.threads[t].pc.Owes();
    } else {
      assert forall t: nat | t < |s.threads| :: s.threads[t].pc.Owes() ==> t in s.Inside();
    }
  }

  // ---------- the invariant is inductive ----------

  lemma InitInv(c: Config, threads: nat)
    requires c.initCount >= 1
    ensures Inv(c, Init(c, threads))
  {
  }

  lemma CallbackInv(c: Config, s: State, e: Event)
    requires Inv(c, s) && !e.Run? && Enabled(s, e)
    ensures Inv(c, Apply(c, s, e))
  {
  }

  /** A statement takes the mutex on entering a section, frees it on leaving, and otherwise leaves it alone. */
  lemma StatementMutex(c: Config, b: Barrier, t: nat, pc: PC)
    requires Guard(b, pc) && (pc.Critical() <==> b.owner == Some(t))
    ensures
      var (b', next) := Statement(c, b, t, pc);
      && (next.Critical() <==> b'.owner == Some(t))
      && (pc.Critical() || next.Critical() || b'.owner == b.owner)
      && (pc.Critical() && !next.Critical() ==> b'.owner.None?)
      && (!pc.Critical() && next.Critical() ==> b.owner.None?)
  {
  }

  lemma RunMutex(c: Config, s: State, t: nat)
    requires Mutex(s) && Enabled(s, Run(t))
    ensures Mutex(Apply(c, s, Run(t)))
  {
    StatementMutex(c, s.b, t, s.threads[t].pc);
  }

  /** Who holds the mutex after a statement of `t`, and where the holder is. */
  lemma HolderAfter(c: Config, s: State, t: nat)
    requires Mutex(s) && Enabled(s, Run(t))
    ensures
      var pc, next := s.threads[t].pc, Statement(c, s.b, t, s.threads[t].pc).1;
      && (pc.Critical() ==> s.Holder() == pc)
      && (pc.WantEntry? || pc.WantExit? ==> s.Holder() == Outside)
      && Apply(c, s, Run(t)).Holder() ==
           if next.Critical() then next else if pc.Critical() then Outside else s.Holder()
  {
    StatementMutex(c, s.b, t, s.threads[t].pc);
  }

  /** Outside the critical sections a statement changes nothing but the mutex. */
  lemma IdleStatement(c: Config, s: State, t: nat)
    requires Mutex(s) && Enabled(s, Run(t)) && !s.threads[t].pc.Critical()
    ensures
      var s', pc := Apply(c, s, Run(t)), s.threads[t].pc;
      && s'.h == s.h && s'.b == s.b.(owner := s'.b.owner)
      && s'.Holder() == (if pc.WantEntry? then EntryCheck else if pc.WantExit? then ExitInc else s.Holder())
      && (pc.WantEntry? || pc.WantExit? ==> s.Holder() == Outside)
      && (s'.threads[t].pc.Owes() <==> pc.Owes())
  {
  }

  lemma IdleConserved(c: Config, s: State, t: nat)
    requires Mutex(s) && Conserved(c, s) && Enabled(s, Run(t)) && !s.threads[t].pc.Critical()
    ensures Conserved(c, Apply(c, s, Run(t)))
  {
    IdleStatement(c, s, t);
    InsideUpdate(s, Apply(c, s, Run(t)), t);
  }

  lemma CriticalConserved(c: Config, s: State, t: nat)
    requires c.initCount >= 1
    requires Mutex(s) && Conserved(c, s) && Enabled(s, Run(t)) && s.threads[t].pc.Critical()
    ensures Conserved(c, Apply(c, s, Run(t)))
  {
    HolderAfter(c, s, t);
    InsideUpdate(s, Apply(c, s, Run(t)), t);
    assert s.threads[t].pc.Owes() ==> t in s.Inside();
  }

  lemma RunConserved(c: Config, s: State, t: nat)
    requires c.initCount >= 1
    requires Mutex(s) && Conserved(c, s) && Enabled(s, Run(t))
    ensures Conserved(c, Apply(c, s, Run(t)))
  {
    if s.threads[t].pc.Critical() {
      CriticalConserved(c, s, t);
    } else {
      IdleConserved(c, s, t);
    }
  }

  lemma IdleFlags(c: Config, s: State, t: nat)
    requires Inv(c, s) && Enabled(s, Run(t)) && !s.threads[t].pc.Critical()
    ensures Flags(c, Apply(c, s, Run(t)))
  {
    IdleStatement(c, s, t);
  }

  lemma CriticalFlags(c: Config, s: State, t: nat)
    requires c.initCount >= 2
    requires Inv(c, s) && Enabled(s, Run(t)) && s.threads[t].pc.Critical()
    ensures Flags(c, Apply(c, s, Run(t)))
  {
    HolderAfter(c, s, t);
    assert t in s.Inside() <==> s.threads[t].pc.Owes();
  }

  lemma RunFlags(c: Config, s: State, t: nat)
    requires c.initCount >= 2
    requires Inv(c, s) && Enabled(s, Run(t))
    ensures Flags(c, Apply(c, s, Run(t)))
  {
    if s.threads[t].pc.Critical() {
      CriticalFlags(c, s, t);
    } else {
      IdleFlags(c, s, t);
    }
  }

  lemma RunUntorn(c: Config, s: State, t: nat)
    requires Inv(c, s) && Enabled(s, Run(t))
    ensures Untorn(c, Apply(c, s, Run(t)))
  {
    if s.threads[t].pc.Critical() {
      HolderAfter(c, s, t);
    } else {
      IdleStatement(c, s, t);
    }
  }

  lemma RunNotLapped(c: Config, s: State, t: nat)
    requires Inv(c, s) && Enabled(s, Run(t))
    ensures NotLapped(Apply(c, s, Run(t)))
  {
    SomeoneInside(c, s);
  }

  lemma RunRounds(c: Config, s: State, t: nat)
    requires Inv(c, s) && Enabled(s, Run(t))
    ensures Rounds(Apply(c, s, Run(t)))
  {
    HolderAfter(c, s, t);
    if !s.threads[t].pc.Critical() {
      IdleStatement(c, s, t);
    }
  }

  lemma StepInv(c: Config, s: State, e: Event)
    requires c.initCount >= 2
    requires Inv(c, s) && Enabled(s, e)
    ensures Inv(c, Apply(c, s, e))
  {
    match e
    case Fire => CallbackInv(c, s, e);
    case Flag => CallbackInv(c, s, e);
    case Run(t) =>
      RunMutex(c, s, t);
      RunConserved(c, s, t);
      RunFlags(c, s, t);
      RunUntorn(c, s, t);
      RunNotLapped(c, s, t);
      RunRounds(c, s, t);
  }
}
