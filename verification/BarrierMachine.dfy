/**
 The barrier protocol as a transition system over any number of threads.

 Every access of `barrier_wait` to a field that another thread or the timer can touch is one step, so the
 timer callback may run between any two of them, inside critical sections too, and other threads may run
 between the callback's two stores.  The unlock at the end of a critical section is one step with the access
 before it.  `wait_event` is a guarded step, the per-barrier mutex a holder field, and
 the high resolution timer a one-shot armed bit.
 */
module BarrierMachine {
  import opened Words

  /** What `barrier_init` was called with.  `garbage` is the content of the uninitialised `timeout_flag`. */
  datatype Config = Config(initCount: u32, timeout: int, garbage: bool) {
    predicate Timed() {
      timeout > 0
    }
  }

  /**
   The fields of `struct barrier` that change, with the timer and the mutex.  `firing` says that the timer
   callback is between its store to `cond_flag` and its store to `timeout_flag`.
   */
  datatype Barrier = Barrier(syncNum: u32, left: u32, condFlag: bool, timeoutFlag: bool,
                             armed: bool, firing: bool, owner: Option<nat>)

  /** Where a thread is; each name says what the thread does next. */
  datatype PC =
    | Outside                    // start a call (the registry lookup has its own module)
    | AtGate                     // wait for cond_flag == 0
    | WantEntry                  // take the mutex
    | EntryCheck                 // arm the timer if first
    | EntryDec                   // left--
    | EntryBranch                // sleep, or act as the last thread
    | LastCancel                 // cancel the timer
    | LastRelease                // cond_flag = 1
    | LastInc                    // left++, unlock, return 0
    | Sleeping                   // wait for cond_flag == 1
    | WantExit                   // take the mutex again
    | ExitInc                    // left++
    | ExitTest                   // is left == init_count?
    | ExitClearTimeout           // timeout_flag = 0
    | ExitClearCond              // cond_flag = 0
    | ExitCount                  // sync_num++
    | ExitReturn(reset: bool)    // read timeout_flag, unlock, return
  {
    /** The thread holds the mutex. */
    predicate Critical() {
      EntryCheck? || EntryDec? || EntryBranch? || LastCancel? || LastRelease? || LastInc? || PastIncrement() || ExitInc?
    }

    /** In the exit section, after its own `left++`. */
    predicate PastIncrement() {
      ExitTest? || ExitClearTimeout? || ExitClearCond? || ExitCount? || ExitReturn?
    }

    /** In the entry section with `left` at zero or about to be tested. */
    predicate Deciding() {
      EntryBranch? || LastCancel? || LastRelease? || LastInc?
    }

    /** Past its `left--` and before its own `left++`. */
    predicate Owes() {
      Deciding() || Sleeping? || WantExit? || ExitInc?
    }

    /** Past the gate, `left--` still ahead. */
    predicate PastGate() {
      WantEntry? || EntryCheck? || EntryDec?
    }
  }

  datatype Code = Success | TimedOut

  /** A thread: where it is, the round of its last `left--`, and what its finished calls returned. */
  datatype Thread = Thread(pc: PC, ticket: nat, returned: seq<Code>) {
    /** Calls in which this thread has done its `left--`. */
    function Arrived(): nat {
      |returned| + if pc.Owes() || pc.PastIncrement() then 1 else 0
    }
  }

  /** What happened in one round; auxiliary. */
  datatype Round = Round(
    fired: bool,       // the timer fired
    sleepers: nat,     // threads that took the sleep branch
    releasers: nat,    // threads that took the last-thread branch
    zeros: nat,        // sleepers that returned 0
    etimes: nat,       // sleepers that returned -ETIME
    early: nat         // sleepers that saw timeout_flag set on waking with the mutex, before their left++
  )

  const FRESH_ROUND := Round(false, 0, 0, 0, 0, 0)

  /**
   Auxiliary history: rounds counted without wrap-around, the round the timer was armed in, the current round
   and the finished ones.  `torn` says that once a sleeper ran its exit section inside the callback.
   */
  datatype History = History(rounds: nat, armedIn: nat, torn: bool, cur: Round, log: seq<Round>)

  datatype State = State(b: Barrier, threads: seq<Thread>, h: History) {
    /** The program counter of the mutex holder, `Outside` when the mutex is free. */
    function Holder(): PC {
      if b.owner.Some? && b.owner.value < |threads| then threads[b.owner.value].pc else Outside
    }

    /** The threads that owe a `left++`. */
    ghost function Inside(): set<nat> {
      set t: nat | t < |threads| && threads[t].pc.Owes()
    }
  }

  datatype Event =
    | Run(thread: nat)   // one statement of a thread
    | Fire               // the timer expires: the callback's store to cond_flag
    | Flag               // the callback's store to timeout_flag

  /** The struct as `barrier_init` leaves it. */
  function InitBarrier(c: Config): Barrier {
    Barrier(0, c.initCount, false, c.garbage, false, false, None)
  }

  function Init(c: Config, threads: nat): State {
    State(InitBarrier(c), seq(threads, i => Thread(Outside, 0, [])), History(0, 0, false, FRESH_ROUND, []))
  }

  /** The guard of the statement at `pc`; cancelling the timer waits for its callback to end. */
  predicate Guard(b: Barrier, pc: PC) {
    match pc
    case LastCancel => !b.firing
    case AtGate => !b.condFlag
    case Sleeping => b.condFlag
    case WantEntry => b.owner.None?
    case WantExit => b.owner.None?
    case _ => true
  }

  /** One statement of `barrier_wait`, run by thread `t`: its effect on the struct and where `t` goes next. */
  function Statement(c: Config, b: Barrier, t: nat, pc: PC): (Barrier, PC) {
    match pc
    case Outside => (b, AtGate)
    case AtGate => (b, WantEntry)
    case WantEntry => (b.(owner := Some(t)), EntryCheck)
    case EntryCheck => (if b.left == c.initCount && c.Timed() then b.(armed := true) else b, EntryDec)
    case EntryDec => (b.(left := Dec(b.left)), EntryBranch)
    case EntryBranch => if b.left != 0 then (b.(owner := None), Sleeping) else (b, LastCancel)
    case LastCancel => (if c.Timed() then b.(armed := false) else b, LastRelease)
    case LastRelease => (b.(condFlag := true), LastInc)
    case LastInc => (b.(left := Inc(b.left), owner := None), Outside)
    case Sleeping => (b, WantExit)
    case WantExit => (b.(owner := Some(t)), ExitInc)
    case ExitInc => (b.(left := Inc(b.left)), ExitTest)
    case ExitTest => (b, if b.left == c.initCount then ExitClearTimeout else ExitReturn(false))
    case ExitClearTimeout => (b.(timeoutFlag := false), ExitClearCond)
    case ExitClearCond => (b.(condFlag := false), ExitCount)
    case ExitCount => (b.(syncNum := Inc(b.syncNum)), ExitReturn(true))
    case ExitReturn(_) => (b.(owner := None), Outside)
  }

  /** What the statement at `pc` adds to the values returned so far. */
  function Returns(b: Barrier, pc: PC): seq<Code> {
    match pc
    case LastInc => [Success]
    case ExitReturn(_) => [if b.timeoutFlag then TimedOut else Success]
    case _ => []
  }

  /** The history after the statement at `pc`. */
  function Record(c: Config, b: Barrier, pc: PC, h: History): History {
    match pc
    case EntryCheck => if b.left == c.initCount && c.Timed() then h.(armedIn := h.rounds) else h
    case EntryBranch => if b.left != 0 then h.(cur := h.cur.(sleepers := h.cur.sleepers + 1)) else h
    case LastRelease => h.(cur := h.cur.(releasers := h.cur.releasers + 1))
    case ExitInc =>
      h.(torn := h.torn || b.firing, cur := if b.timeoutFlag then h.cur.(early := h.cur.early + 1) else h.cur)
    case ExitCount => h.(rounds := h.rounds + 1)
    case ExitReturn(reset) =>
      var r := if b.timeoutFlag then h.cur.(etimes := h.cur.etimes + 1) else h.cur.(zeros := h.cur.zeros + 1);
      if reset then h.(cur := FRESH_ROUND, log := h.log + [r]) else h.(cur := r)
    case _ => h
  }

  /** Statements a call may still execute, with two spare at the check that may arm the timer. */
  function Rank(pc: PC): nat {
    match pc
    case Outside => 0
    case AtGate => 15
    case WantEntry => 14
    case EntryCheck => 13
    case EntryDec => 10
    case EntryBranch => 9
    case LastCancel => 3
    case LastRelease => 2
    case LastInc => 1
    case Sleeping => 8
    case WantExit => 7
    case ExitInc => 6
    case ExitTest => 5
    case ExitClearTimeout => 4
    case ExitClearCond => 3
    case ExitCount => 2
    case ExitReturn(_) => 1
  }

  function Advance(th: Thread, b: Barrier, next: PC, rounds: nat): Thread {
    Thread(next, if th.pc.EntryDec? then rounds else th.ticket, th.returned + Returns(b, th.pc))
  }

  predicate Enabled(s: State, e: Event) {
    match e
    case Run(t) => t < |s.threads| && Guard(s.b, s.threads[t].pc)
    case Fire => s.b.armed && !s.b.firing
    case Flag => s.b.firing
  }

  /** The timer callback in two steps; it needs no mutex. */
  function Expire(b: Barrier): Barrier {
    b.(armed := false, firing := true, condFlag := true)
  }

  function SetFlag(b: Barrier): Barrier {
    b.(timeoutFlag := true, firing := false)
  }

  function Apply(c: Config, s: State, e: Event): State
    requires Enabled(s, e)
  {
    match e
    case Run(t) =>
      var th := s.threads[t];
      var (b, next) := Statement(c, s.b, t, th.pc);
      State(b, s.threads[t := Advance(th, s.b, next, s.h.rounds)], Record(c, s.b, th.pc, s.h))
    case Fire =>
      State(Expire(s.b), s.threads, s.h.(cur := s.h.cur.(fired := true)))
    case Flag =>
      State(SetFlag(s.b), s.threads, s.h)
  }

  /** Every event of the schedule is enabled when its turn comes. */
  predicate Legal(c: Config, s: State, es: seq<Event>)
    decreases |es|
  {
    es == [] || (Enabled(s, es[0]) && Legal(c, Apply(c, s, es[0]), es[1..]))
  }

  function Exec(c: Config, s: State, es: seq<Event>): State
    requires Legal(c, s, es)
    decreases |es|
  {
    if es == [] then s else Exec(c, Apply(c, s, es[0]), es[1..])
  }

  /** `s` is reached by some schedule of `threads` threads and the timer. */
  ghost predicate Reachable(c: Config, threads: nat, s: State) {
    exists es :: Legal(c, Init(c, threads), es) && Exec(c, Init(c, threads), es) == s
  }
}
