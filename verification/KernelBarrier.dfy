/**
 `struct barrier` as an object whose fields the system call updates in place.  Its statements are those of the
 machine, its critical sections are written as the source writes them, and a schedule run on the object ends
 in the state the machine ends in.
 */
module KernelBarrier {
  import opened Words
  import opened BarrierMachine
  import opened BarrierInvariant
  import opened BarrierRuns

  class Struct {
    const initCount: u32
    const timeout: int
    const garbage: bool
    var syncNum: u32
    var left: u32
    var condFlag: bool
    var timeoutFlag: bool
    var timerArmed: bool
    var callbackRunning: bool
    var lockHolder: Option<nat>

    /** `barrier_init`; `memory` is what the allocated memory held where `timeout_flag` is. */
    constructor (count: u32, timeout: int, memory: bool)
      ensures Cfg() == Config(count, timeout, memory)
      ensures View() == InitBarrier(Cfg())
    {
      this.initCount, this.timeout, this.garbage := count, timeout, memory;
      syncNum := 0;
      left := count;
      lockHolder := None;
      condFlag := false;
      timeoutFlag := memory;
      timerArmed := false;
      callbackRunning := false;
    }

    function Cfg(): Config {
      Config(initCount, timeout, garbage)
    }

    function View(): Barrier
      reads this
    {
      Barrier(syncNum, left, condFlag, timeoutFlag, timerArmed, callbackRunning, lockHolder)
    }

    /** The timer expires and its callback opens the gate. */
    method CallbackOpens()
      requires timerArmed && !callbackRunning
      modifies this
      ensures View() == Expire(old(View()))
    {
      timerArmed := false;
      callbackRunning := true;
      condFlag := true;
    }

    /** The rest of the timer callback. */
    method CallbackReports()
      requires callbackRunning
      modifies this
      ensures View() == SetFlag(old(View()))
    {
      timeoutFlag := true;
      callbackRunning := false;
    }

    /** The next statement of thread `t`, whose guard holds. */
    method Execute(t: nat, pc: PC) returns (next: PC, returned: seq<Code>)
      requires Guard(View(), pc)
      modifies this
      ensures (View(), next) == Statement(Cfg(), old(View()), t, pc)
      ensures returned == Returns(old(View()), pc)
    {
      returned := [];
      match pc {
        case Outside => next := AtGate;
        case AtGate => next := WantEntry;
        case WantEntry =>
          lockHolder := Some(t);
          next := EntryCheck;
        case EntryCheck =>
          if left == initCount {
            if timeout > 0 {
              timerArmed := true;
            }
          }
          next := EntryDec;
        case EntryDec =>
          left := Dec(left);
          next := EntryBranch;
        case EntryBranch =>
          if left != 0 {
            lockHolder := None;
            next := Sleeping;
          } else {
            next := LastCancel;
          }
        case LastCancel =>
          if timeout > 0 {
            timerArmed := false;
          }
          next := LastRelease;
        case LastRelease =>
          condFlag := true;
          next := LastInc;
        case LastInc =>
          left := Inc(left);
          lockHolder := None;
          next, returned := Outside, [Success];
        case Sleeping => next := WantExit;
        case WantExit =>
          lockHolder := Some(t);
          next := ExitInc;
        case ExitInc =>
          left := Inc(left);
          next := ExitTest;
        case ExitTest =>
          next := if left == initCount then ExitClearTimeout else ExitReturn(false);
        case ExitClearTimeout =>
          timeoutFlag := false;
          next := ExitClearCond;
        case ExitClearCond =>
          condFlag := false;
          next := ExitCount;
        case ExitCount =>
          syncNum := Inc(syncNum);
          next := ExitReturn(true);
        case ExitReturn(_) =>
          returned := [if timeoutFlag then TimedOut else Success];
          lockHolder := None;
          next := Outside;
      }
    }

    /**
     The entry section with no other thread in between: true when the caller goes to sleep.  Cancelling the
     timer waits for a callback in progress, which there can only be on a barrier with a timeout.
     */
    method EntrySection(t: nat) returns (sleeps: bool)
      requires lockHolder.None? && (callbackRunning ==> timeout > 0)
      modifies this
      ensures Section(Cfg(), old(View()).(owner := Some(t)), t, EntryCheck)
           == (View(), if sleeps then Sleeping else Outside)
    {
      lockHolder := Some(t);
      EntryEffect(Cfg(), View(), t);
      if left == initCount {
        if timeout > 0 {
          timerArmed := true;
        }
      }
      left := Dec(left);
      if left != 0 {
        lockHolder := None;
        return true;
      }
      if timeout > 0 {
        if callbackRunning {
          CallbackReports();
        }
        timerArmed := false;
      }
      condFlag := true;
      left := Inc(left);
      lockHolder := None;
      return false;
    }

    /** The exit section without interruption, and what the call returns. */
    method ExitSection(t: nat) returns (code: Code)
      requires lockHolder.None?
      modifies this
      ensures Section(Cfg(), old(View()).(owner := Some(t)), t, ExitInc) == (View(), Outside)
      ensures code == if View().timeoutFlag then TimedOut else Success
    {
      lockHolder := Some(t);
      ExitEffect(Cfg(), View(), t);
      left := Inc(left);
      if left == initCount {
        timeoutFlag := false;
        condFlag := false;
        syncNum := Inc(syncNum);
      }
      if timeoutFlag {
        lockHolder := None;
        return TimedOut;
      } else {
        lockHolder := None;
        return Success;
      }
    }
  }

  /** The statements from `pc` until the mutex is free again; a callback in progress ends before the cancelling. */
  function Section(c: Config, b: Barrier, t: nat, pc: PC): (Barrier, PC)
    decreases Rank(pc), if b.firing then 1 else 0
  {
    if !pc.Critical() then (b, pc)
    else if pc.LastCancel? && b.firing then Section(c, SetFlag(b), t, pc)
    else
      var (b', next) := Statement(c, b, t, pc);
      Section(c, b', t, next)
  }

  /** What the last thread of a round does to the struct. */
  lemma ReleaseEffect(c: Config, b: Barrier, t: nat)
    requires b.left == 0
    ensures Section(c, b, t, EntryBranch) ==
      (b.(left := 1, armed := b.armed && !c.Timed(), condFlag := true,
          timeoutFlag := b.timeoutFlag || b.firing, firing := false, owner := None), Outside)
  {
    var b1 := if b.firing then SetFlag(b) else b;
    var b2 := Statement(c, b1, t, LastCancel).0;
    var b3 := Statement(c, b2, t, LastRelease).0;
    assert Section(c, b, t, EntryBranch) == Section(c, b, t, LastCancel) == Section(c, b1, t, LastCancel);
    assert Section(c, b1, t, LastCancel) == Section(c, b2, t, LastRelease) == Section(c, b3, t, LastInc);
    assert Section(c, b3, t, LastInc) == (b3.(left := 1, owner := None), Outside);
  }

  /** What an entry section does: count in, and either sleep or open the gate for the sleepers. */
  lemma EntryEffect(c: Config, b: Barrier, t: nat)
    ensures
      var armed := b.armed || (b.left == c.initCount && c.Timed());
      Section(c, b, t, EntryCheck) ==
        if b.left != 1 then (b.(left := Dec(b.left), armed := armed, owner := None), Sleeping)
        else (b.(armed := armed && !c.Timed(), condFlag := true,
                 timeoutFlag := b.timeoutFlag || b.firing, firing := false, owner := None), Outside)
  {
    var b1 := Statement(c, b, t, EntryCheck).0;
    var b2 := Statement(c, b1, t, EntryDec).0;
    assert Section(c, b, t, EntryCheck) == Section(c, b1, t, EntryDec) == Section(c, b2, t, EntryBranch);
    if b2.left == 0 {
      ReleaseEffect(c, b2, t);
    }
  }

  lemma ResetEffect(c: Config, b: Barrier, t: nat)
    requires b.left == c.initCount
    ensures Section(c, b, t, ExitTest) ==
      (b.(timeoutFlag := false, condFlag := false, syncNum := Inc(b.syncNum), owner := None), Outside)
  {
    var b2 := b.(timeoutFlag := false);
    var b3 := b2.(condFlag := false);
    assert Section(c, b, t, ExitTest) == Section(c, b, t, ExitClearTimeout) == Section(c, b2, t, ExitClearCond);
    var b4 := b3.(syncNum := Inc(b.syncNum));
    assert Section(c, b2, t, ExitClearCond) == Section(c, b3, t, ExitCount) == Section(c, b4, t, ExitReturn(true));
    assert Section(c, b4, t, ExitReturn(true)) == (b4.(owner := None), Outside);
  }

  /** What an exit section does: count out, and reset flags and round if nobody is left inside. */
  lemma ExitEffect(c: Config, b: Barrier, t: nat)
    ensures
      var left := Inc(b.left);
      Section(c, b, t, ExitInc) == (
        if left != c.initCount then b.(left := left, owner := None)
        else b.(left := left, timeoutFlag := false, condFlag := false, syncNum := Inc(b.syncNum), owner := None),
        Outside)
  {
    var b1 := b.(left := Inc(b.left));
    assert Section(c, b, t, ExitInc) == Section(c, b1, t, ExitTest);
    if b1.left == c.initCount {
      ResetEffect(c, b1, t);
    } else {
      assert Section(c, b1, t, ExitTest) == Section(c, b1, t, ExitReturn(false)) == (b1.(owner := None), Outside);
    }
  }

  /**
   A critical section of the source is a run of the machine in which no other thread moves: it ends with the
   struct as `Section` says and every other thread untouched.
   */
  lemma {:induction false} SectionIsRun(c: Config, s: State, t: nat) returns (es: seq<Event>)
    requires t < |s.threads|
    ensures Legal(c, s, es) && forall e :: e in es ==> e == Run(t) || e == Flag
    ensures
      var s' := Exec(c, s, es);
      && |s'.threads| == |s.threads|
      && (s'.b, s'.threads[t].pc) == Section(c, s.b, t, s.threads[t].pc)
      && forall u :: 0 <= u < |s.threads| && u != t ==> s'.threads[u] == s.threads[u]
    decreases Rank(s.threads[t].pc), if s.b.firing then 1 else 0
  {
    if !s.threads[t].pc.Critical() {
      es := [];
    } else {
      var e := if s.threads[t].pc.LastCancel? && s.b.firing then Flag else Run(t);
      var rest := SectionIsRun(c, Apply(c, s, e), t);
      es := [e] + rest;
      assert es[1..] == rest;
    }
  }

  /** Runs the schedule `es` of `n` threads on the object `barrier`, one event after the other. */
  method Interleave(barrier: Struct, n: nat, es: seq<Event>) returns (pcs: seq<PC>, codes: seq<seq<Code>>)
    requires barrier.View() == InitBarrier(barrier.Cfg())
    requires Legal(barrier.Cfg(), Init(barrier.Cfg(), n), es)
    modifies barrier
    ensures
      var s := Exec(barrier.Cfg(), Init(barrier.Cfg(), n), es);
      && barrier.View() == s.b && |pcs| == |codes| == |s.threads|
      && (forall t :: 0 <= t < |pcs| ==> pcs[t] == s.threads[t].pc && codes[t] == s.threads[t].returned)
      && (barrier.initCount >= 2 ==> Inv(barrier.Cfg(), s))
  {
    ghost var c := barrier.Cfg();
    ghost var s := Init(c, n);
    pcs := seq(n, i => Outside);
    codes := seq(n, i => []);
    var k := 0;
    while k < |es|
      invariant 0 <= k <= |es|
      invariant barrier.View() == s.b && |pcs| == |codes| == |s.threads|
      invariant forall t :: 0 <= t < |pcs| ==> pcs[t] == s.threads[t].pc && codes[t] == s.threads[t].returned
      invariant Legal(c, s, es[k..]) && Exec(c, s, es[k..]) == Exec(c, Init(c, n), es)
    {
      assert es[k..][0] == es[k] && es[k..][1..] == es[k + 1..];
      match es[k] {
        case Fire =>
          barrier.CallbackOpens();
        case Flag =>
          barrier.CallbackReports();
        case Run(t) =>
          var next, returned := barrier.Execute(t, pcs[t]);
          pcs, codes := pcs[t := next], codes[t := codes[t] + returned];
      }
      s := Apply(c, s, es[k]);
      k := k + 1;
    }
    if barrier.initCount >= 2 {
      InitInv(c, n);
      ExecInv(c, Init(c, n), es);
    }
  }
}
