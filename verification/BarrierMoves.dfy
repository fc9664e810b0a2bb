/** Building runs of the client: one statement, one half of a call or one round at a time. */
module BarrierMoves {
  import opened Words
  import opened BarrierMachine
  import opened BarrierClient

  lemma {:induction false} ClientConcat(c: Config, calls: nat, s: State, es: seq<Event>, fs: seq<Event>)
    requires ClientRun(c, calls, s, es) && ClientRun(c, calls, ClientExec(c, calls, s, es), fs)
    ensures ClientRun(c, calls, s, es + fs)
    ensures ClientExec(c, calls, s, es + fs) == ClientExec(c, calls, ClientExec(c, calls, s, es), fs)
    decreases |es|
  {
    if es == [] {
      assert es + fs == fs;
    } else {
      assert (es + fs)[0] == es[0] && (es + fs)[1..] == es[1..] + fs;
      ClientConcat(c, calls, Apply(c, s, es[0]), es[1..], fs);
    }
  }

  lemma ClientStart(c: Config, threads: nat, calls: nat)
    ensures ClientReachable(c, threads, calls, Init(c, threads))
  {
    assert ClientExec(c, calls, Init(c, threads), []) == Init(c, threads);
  }

  lemma ClientExtend(c: Config, threads: nat, calls: nat, s: State, fs: seq<Event>)
    requires ClientReachable(c, threads, calls, s) && ClientRun(c, calls, s, fs)
    ensures ClientReachable(c, threads, calls, ClientExec(c, calls, s, fs))
  {
    var es :| ClientRun(c, calls, Init(c, threads), es) && ClientExec(c, calls, Init(c, threads), es) == s;
    ClientConcat(c, calls, Init(c, threads), es, fs);
  }

  /** A state of the client is a reachable state. */
  lemma ClientIsReachable(c: Config, threads: nat, calls: nat, s: State)
    requires ClientReachable(c, threads, calls, s)
    ensures Reachable(c, threads, s)
  {
    var es :| ClientRun(c, calls, Init(c, threads), es) && ClientExec(c, calls, Init(c, threads), es) == s;
    ClientRunIsLegal(c, calls, Init(c, threads), es);
  }

  lemma ClientStep(c: Config, threads: nat, calls: nat, s: State, e: Event)
    requires ClientReachable(c, threads, calls, s) && Permitted(calls, s, e)
    ensures ClientReachable(c, threads, calls, Apply(c, s, e))
  {
    var s' := Apply(c, s, e);
    assert [e][1..] == [];
    assert ClientRun(c, calls, s', []) && ClientExec(c, calls, s', []) == s';
    assert ClientRun(c, calls, s, [e]) && ClientExec(c, calls, s, [e]) == s';
    ClientExtend(c, threads, calls, s, [e]);
  }

  /** Only thread `t` differs. */
  predicate OnlyMoves(s: State, s': State, t: nat) {
    |s'.threads| == |s.threads| && forall u :: 0 <= u < |s.threads| && u != t ==> s'.threads[u] == s.threads[u]
  }

  /** One statement of `t`, which is at `pc`. */
  lemma Move(c: Config, threads: nat, calls: nat, s: State, t: nat, pc: PC) returns (s': State)
    requires ClientReachable(c, threads, calls, s) && t < |s.threads| && s.threads[t].pc == pc && Guard(s.b, pc)
    requires pc.Outside? ==> |s.threads[t].returned| < calls
    ensures ClientReachable(c, threads, calls, s') && OnlyMoves(s, s', t)
    ensures s'.b == Statement(c, s.b, t, pc).0 && s'.threads[t].pc == Statement(c, s.b, t, pc).1
    ensures s'.threads[t].returned == s.threads[t].returned + Returns(s.b, pc)
    ensures !s.b.firing ==> s'.h.torn == s.h.torn
  {
    s' := Apply(c, s, Run(t));
    ClientStep(c, threads, calls, s, Run(t));
  }

  /** From the gate to the mutex, with the gate open. */
  lemma MoveGate(c: Config, threads: nat, calls: nat, s: State, t: nat) returns (s': State)
    requires ClientReachable(c, threads, calls, s) && t < |s.threads|
    requires s.threads[t].pc.Outside? && |s.threads[t].returned| < calls && !s.b.condFlag && !s.b.firing
    ensures ClientReachable(c, threads, calls, s') && OnlyMoves(s, s', t)
    ensures s'.b == s.b && s'.h.torn == s.h.torn
    ensures s'.threads[t].pc.WantEntry? && s'.threads[t].returned == s.threads[t].returned
  {
    s' := Move(c, threads, calls, s, t, Outside);
    s' := Move(c, threads, calls, s', t, AtGate);
  }

  /** The first statements of an entry section, up to the test of `left`. */
  lemma MoveCountIn(c: Config, threads: nat, calls: nat, s: State, t: nat) returns (s': State)
    requires ClientReachable(c, threads, calls, s) && t < |s.threads|
    requires s.threads[t].pc.WantEntry? && s.b.owner.None? && !s.b.firing
    ensures ClientReachable(c, threads, calls, s') && OnlyMoves(s, s', t)
    ensures s'.b == s.b.(left := Dec(s.b.left), armed := s.b.armed || (s.b.left == c.initCount && c.Timed()),
                         owner := Some(t))
    ensures s'.threads[t].pc.EntryBranch? && s'.threads[t].returned == s.threads[t].returned
    ensures s'.h.torn == s.h.torn
  {
    s' := Move(c, threads, calls, s, t, WantEntry);
    s' := Move(c, threads, calls, s', t, EntryCheck);
    s' := Move(c, threads, calls, s', t, EntryDec);
  }

  /** A whole entry section that ends asleep. */
  lemma MoveEntry(c: Config, threads: nat, calls: nat, s: State, t: nat) returns (s': State)
    requires ClientReachable(c, threads, calls, s) && t < |s.threads|
    requires s.threads[t].pc.WantEntry? && s.b.owner.None? && !s.b.firing && s.b.left >= 2
    ensures ClientReachable(c, threads, calls, s') && OnlyMoves(s, s', t)
    ensures s'.b == s.b.(left := s.b.left - 1, armed := s.b.armed || (s.b.left == c.initCount && c.Timed()))
    ensures s'.threads[t].pc.Sleeping? && s'.threads[t].returned == s.threads[t].returned
    ensures s'.h.torn == s.h.torn
  {
    s' := MoveCountIn(c, threads, calls, s, t);
    s' := Move(c, threads, calls, s', t, EntryBranch);
  }

  /** The last thread finds itself last and cancels the timer, if there is one. */
  lemma MoveCancel(c: Config, threads: nat, calls: nat, s: State, t: nat) returns (s': State)
    requires ClientReachable(c, threads, calls, s) && t < |s.threads|
    requires s.threads[t].pc.EntryBranch? && !s.b.firing && s.b.left == 0
    ensures ClientReachable(c, threads, calls, s') && OnlyMoves(s, s', t)
    ensures s'.b == s.b.(armed := s.b.armed && !c.Timed()) && s'.h.torn == s.h.torn
    ensures s'.threads[t].pc.LastRelease? && s'.threads[t].returned == s.threads[t].returned
  {
    s' := Move(c, threads, calls, s, t, EntryBranch);
    s' := Move(c, threads, calls, s', t, LastCancel);
  }

  /** The last thread opens the gate and returns. */
  lemma MoveOpen(c: Config, threads: nat, calls: nat, s: State, t: nat) returns (s': State)
    requires ClientReachable(c, threads, calls, s) && t < |s.threads|
    requires s.threads[t].pc.EntryBranch? && !s.b.firing && s.b.left == 0
    ensures ClientReachable(c, threads, calls, s') && OnlyMoves(s, s', t)
    ensures s'.b == s.b.(left := 1, armed := s.b.armed && !c.Timed(), condFlag := true, owner := None)
    ensures s'.h.torn == s.h.torn
    ensures s'.threads[t].pc.Outside? && s'.threads[t].returned == s.threads[t].returned + [Success]
  {
    s' := MoveCancel(c, threads, calls, s, t);
    s' := Move(c, threads, calls, s', t, LastRelease);
    s' := Move(c, threads, calls, s', t, LastInc);
  }

  /** A whole entry section of the last thread, which opens the gate and returns. */
  lemma MoveRelease(c: Config, threads: nat, calls: nat, s: State, t: nat) returns (s': State)
    requires c.initCount >= 2 && c.timeout <= 0
    requires ClientReachable(c, threads, calls, s) && t < |s.threads|
    requires s.threads[t].pc.WantEntry? && s.b.owner.None? && !s.b.firing && s.b.left == 1
    ensures ClientReachable(c, threads, calls, s') && OnlyMoves(s, s', t)
    ensures s'.b == s.b.(condFlag := true)
    ensures s'.threads[t].pc.Outside? && s'.threads[t].returned == s.threads[t].returned + [Success]
  {
    s' := MoveCountIn(c, threads, calls, s, t);
    s' := MoveOpen(c, threads, calls, s', t);
  }

  /** The first statements of an exit section, up to the test of `left`. */
  lemma MoveCountOut(c: Config, threads: nat, calls: nat, s: State, t: nat) returns (s': State)
    requires ClientReachable(c, threads, calls, s) && t < |s.threads|
    requires s.threads[t].pc.Sleeping? && s.b.condFlag && s.b.owner.None? && !s.b.firing
    ensures ClientReachable(c, threads, calls, s') && OnlyMoves(s, s', t)
    ensures s'.b == s.b.(left := Inc(s.b.left), owner := Some(t)) && s'.h.torn == s.h.torn
    ensures s'.threads[t].pc.ExitTest? && s'.threads[t].returned == s.threads[t].returned
  {
    s' := Move(c, threads, calls, s, t, Sleeping);
    s' := Move(c, threads, calls, s', t, WantExit);
    s' := Move(c, threads, calls, s', t, ExitInc);
  }

  /** A sleeper leaves while others are inside. */
  lemma MoveExit(c: Config, threads: nat, calls: nat, s: State, t: nat) returns (s': State)
    requires ClientReachable(c, threads, calls, s) && t < |s.threads| && s.b.left < c.initCount - 1
    requires s.threads[t].pc.Sleeping? && s.b.condFlag && s.b.owner.None? && !s.b.firing
    ensures ClientReachable(c, threads, calls, s') && OnlyMoves(s, s', t)
    ensures s'.b == s.b.(left := s.b.left + 1) && s'.h.torn == s.h.torn
    ensures s'.threads[t].pc.Outside?
    ensures s'.threads[t].returned == s.threads[t].returned + [if s.b.timeoutFlag then TimedOut else Success]
  {
    s' := MoveCountOut(c, threads, calls, s, t);
    s' := Move(c, threads, calls, s', t, ExitTest);
    s' := Move(c, threads, calls, s', t, ExitReturn(false));
  }

  /** The last sleeper clears both flags. */
  lemma MoveClear(c: Config, threads: nat, calls: nat, s: State, t: nat) returns (s': State)
    requires ClientReachable(c, threads, calls, s) && t < |s.threads|
    requires s.threads[t].pc.ExitClearTimeout?
    ensures ClientReachable(c, threads, calls, s') && OnlyMoves(s, s', t)
    ensures s'.b == s.b.(timeoutFlag := false, condFlag := false)
    ensures s'.threads[t].pc.ExitCount? && s'.threads[t].returned == s.threads[t].returned
  {
    s' := Move(c, threads, calls, s, t, ExitClearTimeout);
    s' := Move(c, threads, calls, s', t, ExitClearCond);
  }

  /** The last sleeper leaves and resets the barrier. */
  lemma MoveReset(c: Config, threads: nat, calls: nat, s: State, t: nat) returns (s': State)
    requires ClientReachable(c, threads, calls, s) && t < |s.threads| && s.b.left == c.initCount - 1
    requires s.threads[t].pc.Sleeping? && s.b.condFlag && s.b.owner.None? && !s.b.firing
    ensures ClientReachable(c, threads, calls, s') && OnlyMoves(s, s', t)
    ensures s'.b == s.b.(left := c.initCount, timeoutFlag := false, condFlag := false, syncNum := Inc(s.b.syncNum))
    ensures s'.threads[t].pc.Outside? && s'.threads[t].returned == s.threads[t].returned + [Success]
  {
    s' := MoveCountOut(c, threads, calls, s, t);
    s' := Move(c, threads, calls, s', t, ExitTest);
    s' := MoveClear(c, threads, calls, s', t);
    s' := Move(c, threads, calls, s', t, ExitCount);
    s' := Move(c, threads, calls, s', t, ExitReturn(true));
  }

  // ---------- many threads, one after the other ----------

  /** Threads `lo` to `hi` are at `pc` and have finished `done` calls. */
  predicate Row(s: State, lo: nat, hi: nat, pc: PC, done: nat) {
    hi <= |s.threads| && forall t :: lo <= t < hi ==> s.threads[t].pc == pc && |s.threads[t].returned| == done
  }

  /** Only the threads `lo` to `hi` differ. */
  predicate OnlyRow(s: State, s': State, lo: nat, hi: nat) {
    && |s'.threads| == |s.threads|
    && forall u :: 0 <= u < |s.threads| && !(lo <= u < hi) ==> s'.threads[u] == s.threads[u]
  }

  /** No mutex holder, no timer. */
  predicate Quiet(b: Barrier) {
    b.owner.None? && !b.armed && !b.firing
  }

  lemma {:induction false} AllGate(c: Config, threads: nat, calls: nat, s: State, lo: nat, hi: nat, done: nat)
      returns (s': State)
    requires ClientReachable(c, threads, calls, s) && lo <= hi && Row(s, lo, hi, Outside, done) && done < calls
    requires Quiet(s.b) && !s.b.condFlag
    ensures ClientReachable(c, threads, calls, s') && OnlyRow(s, s', lo, hi) && Row(s', lo, hi, WantEntry, done)
    ensures s'.b == s.b && s'.h.torn == s.h.torn
    decreases hi - lo
  {
    if lo == hi {
      s' := s;
    } else {
      s' := MoveGate(c, threads, calls, s, lo);
      s' := AllGate(c, threads, calls, s', lo + 1, hi, done);
    }
  }

  lemma {:induction false} AllSleep(c: Config, threads: nat, calls: nat, s: State, lo: nat, hi: nat, done: nat)
      returns (s': State)
    requires ClientReachable(c, threads, calls, s) && lo <= hi && Row(s, lo, hi, WantEntry, done)
    requires s.b.owner.None? && !s.b.firing && hi - lo < s.b.left <= c.initCount
    ensures ClientReachable(c, threads, calls, s') && OnlyRow(s, s', lo, hi) && Row(s', lo, hi, Sleeping, done)
    ensures s'.b == s.b.(left := s.b.left - (hi - lo),
                         armed := s.b.armed || (lo < hi && s.b.left == c.initCount && c.Timed()))
    ensures s'.h.torn == s.h.torn
    decreases hi - lo
  {
    if lo == hi {
      s' := s;
    } else {
      s' := MoveEntry(c, threads, calls, s, lo);
      s' := AllSleep(c, threads, calls, s', lo + 1, hi, done);
    }
  }

  lemma {:induction false} AllRelease(c: Config, threads: nat, calls: nat, s: State, lo: nat, hi: nat, done: nat)
      returns (s': State)
    requires c.initCount >= 2 && c.timeout <= 0
    requires ClientReachable(c, threads, calls, s) && lo <= hi && Row(s, lo, hi, WantEntry, done)
    requires Quiet(s.b) && s.b.left == 1
    ensures ClientReachable(c, threads, calls, s') && OnlyRow(s, s', lo, hi) && Row(s', lo, hi, Outside, done + 1)
    ensures s'.b == if lo == hi then s.b else s.b.(condFlag := true)
    decreases hi - lo
  {
    if lo == hi {
      s' := s;
    } else {
      s' := MoveRelease(c, threads, calls, s, lo);
      s' := AllRelease(c, threads, calls, s', lo + 1, hi, done);
    }
  }

  lemma {:induction false} AllExit(c: Config, threads: nat, calls: nat, s: State, lo: nat, hi: nat, done: nat)
      returns (s': State)
    requires ClientReachable(c, threads, calls, s) && lo <= hi && Row(s, lo, hi, Sleeping, done)
    requires Quiet(s.b) && s.b.condFlag && s.b.left + (hi - lo) < c.initCount
    ensures ClientReachable(c, threads, calls, s') && OnlyRow(s, s', lo, hi) && Row(s', lo, hi, Outside, done + 1)
    ensures s'.b == s.b.(left := s.b.left + (hi - lo))
    decreases hi - lo
  {
    if lo == hi {
      s' := s;
    } else {
      s' := MoveExit(c, threads, calls, s, lo);
      s' := AllExit(c, threads, calls, s', lo + 1, hi, done);
    }
  }

  /** A drained untimed barrier before a call of the first `m` threads; the others have not started. */
  predicate Fresh(c: Config, s: State, m: nat, done: nat) {
    && Quiet(s.b) && !s.b.condFlag && s.b.left == c.initCount
    && Row(s, 0, m, Outside, done) && Row(s, m, |s.threads|, Outside, 0)
  }

  /** The first `m` threads pass the gate; `init_count - 1` of them sleep and the others open the gate. */
  lemma FillHouse(c: Config, threads: nat, calls: nat, s: State, m: nat, done: nat) returns (s': State)
    requires c.initCount >= 2 && c.timeout <= 0 && c.initCount <= m && done < calls
    requires ClientReachable(c, threads, calls, s) && Fresh(c, s, m, done)
    ensures ClientReachable(c, threads, calls, s') && OnlyRow(s, s', 0, m)
    ensures Row(s', 0, c.initCount - 1, Sleeping, done) && Row(s', c.initCount - 1, m, Outside, done + 1)
    ensures s'.b == s.b.(left := 1, condFlag := true)
  {
    s' := AllGate(c, threads, calls, s, 0, m, done);
    s' := AllSleep(c, threads, calls, s', 0, c.initCount - 1, done);
    s' := AllRelease(c, threads, calls, s', c.initCount - 1, m, done);
  }

  /** One round of the first `m` threads. */
  lemma FullRound(c: Config, threads: nat, calls: nat, s: State, m: nat, done: nat) returns (s': State)
    requires c.initCount >= 2 && c.timeout <= 0 && c.initCount <= m && done < calls
    requires ClientReachable(c, threads, calls, s) && Fresh(c, s, m, done)
    ensures ClientReachable(c, threads, calls, s') && |s'.threads| == |s.threads| && Fresh(c, s', m, done + 1)
    ensures s'.b.syncNum == Inc(s.b.syncNum)
  {
    s' := FillHouse(c, threads, calls, s, m, done);
    s' := AllExit(c, threads, calls, s', 0, c.initCount - 2, done);
    s' := MoveReset(c, threads, calls, s', c.initCount - 2);
  }

  /** A run that stops only when nothing is permitted any more. */
  lemma {:induction false} RunToEnd(c: Config, threads: nat, calls: nat, s: State) returns (s': State)
    requires ClientReachable(c, threads, calls, s) && Quota(calls, s)
    ensures ClientReachable(c, threads, calls, s') && forall e :: !Permitted(calls, s', e)
    decreases Remaining(calls, s)
  {
    WorkBounds(calls, s.threads);
    if e :| Permitted(calls, s, e) {
      var next := Apply(c, s, e);
      StepQuota(c, calls, s, e);
      StepTerminates(c, calls, s, e);
      ClientStep(c, threads, calls, s, e);
      WorkBounds(calls, next.threads);
      s' := RunToEnd(c, threads, calls, next);
    } else {
      s' := s;
    }
  }
}
