/**
 The barrier a user thinks of: a generation, the threads waiting for it to open, and the released threads
 still on their way out.  The machine refines it step by step and run by run.
 */
module BarrierRefinement {
  import opened Words
  import opened BarrierMachine
  import opened BarrierInvariant

  datatype Abstract = Abstract(gen: nat, waiting: set<nat>, released: set<nat>)

  datatype Action =
    | Join(t: nat)     // arrive; after a release, straight among the released
    | Release          // open the generation for all waiting threads at once
    | Leave(t: nat)

  const FRESH := Abstract(0, {}, {})

  /** A release needs a full barrier, or at least one thread if the barrier has a timeout. */
  ghost predicate Allowed(c: Config, a: Abstract, x: Action) {
    match x
    case Join(t) => t !in a.waiting + a.released && (a.released == {} ==> |a.waiting| < c.initCount)
    case Release => a.released == {} && a.waiting != {} && (|a.waiting| == c.initCount || c.timeout > 0)
    case Leave(t) => t in a.released
  }

  ghost function Act(a: Abstract, x: Action): Abstract {
    match x
    case Join(t) => if a.released == {} then a.(waiting := a.waiting + {t}) else a.(released := a.released + {t})
    case Release => Abstract(a.gen + 1, {}, a.waiting)
    case Leave(t) => a.(released := a.released - {t})
  }

  ghost predicate AllAllowed(c: Config, a: Abstract, xs: seq<Action>)
    decreases |xs|
  {
    xs == [] || (Allowed(c, a, xs[0]) && AllAllowed(c, Act(a, xs[0]), xs[1..]))
  }

  ghost function ActAll(a: Abstract, xs: seq<Action>): Abstract
    decreases |xs|
  {
    if xs == [] then a else ActAll(Act(a, xs[0]), xs[1..])
  }

  // ---------- the refinement map ----------

  /** Joining is taking the mutex in the entry section, leaving is the thread's own `left++`. */
  predicate Joined(pc: PC) {
    pc.Owes() || pc.EntryCheck? || pc.EntryDec?
  }

  ghost function Participants(s: State): set<nat> {
    set t: nat | t < |s.threads| && Joined(s.threads[t].pc)
  }

  /**
   The generation is `sync_num` without wrap-around, plus one from the release on.  The resetter clears
   `cond_flag` one statement before it counts the round, so the correction lasts until it has counted.
   */
  ghost function Abstraction(s: State): Abstract {
    var gen := s.h.rounds + if s.b.condFlag || s.Holder().ExitCount? then 1 else 0;
    if s.b.condFlag then Abstract(gen, {}, Participants(s)) else Abstract(gen, Participants(s), {})
  }

  /** The abstract action of an event, if it has one. */
  function Meaning(s: State, e: Event): Option<Action>
    requires Enabled(s, e)
  {
    match e
    case Fire => Some(Release)
    case Flag => None
    case Run(t) =>
      match s.threads[t].pc
      case WantEntry => Some(Join(t))
      case LastRelease => if s.b.condFlag then None else Some(Release)
      case LastInc => Some(Leave(t))
      case ExitInc => Some(Leave(t))
      case _ => None
  }

  function Meanings(c: Config, s: State, es: seq<Event>): seq<Action>
    requires Legal(c, s, es)
    decreases |es|
  {
    if es == [] then [] else
      (match Meaning(s, es[0]) case Some(x) => [x] case None => []) + Meanings(c, Apply(c, s, es[0]), es[1..])
  }

  lemma ParticipantsUpdate(c: Config, s: State, t: nat)
    requires Enabled(s, Run(t))
    ensures
      var s' := Apply(c, s, Run(t));
      Participants(s') ==
        if Joined(s'.threads[t].pc) then Participants(s) + {t} else Participants(s) - {t}
  {
  }

  /** Outside the entry section's first two statements, the participants are the threads inside. */
  lemma ParticipantsInside(s: State)
    requires Mutex(s)
    ensures !s.Holder().EntryCheck? && !s.Holder().EntryDec? ==> Participants(s) == s.Inside()
    ensures s.Holder().EntryCheck? || s.Holder().EntryDec? ==>
      Participants(s) == s.Inside() + {s.b.owner.value} && s.b.owner.value !in s.Inside()
  {
  }

  /** What an event does to the abstraction: the action it means, or nothing. */
  ghost predicate Simulates(c: Config, s: State, e: Event)
    requires Enabled(s, e)
  {
    match Meaning(s, e)
    case Some(x) => Allowed(c, Abstraction(s), x) && Abstraction(Apply(c, s, e)) == Act(Abstraction(s), x)
    case None => Abstraction(Apply(c, s, e)) == Abstraction(s)
  }

  lemma FireRefines(c: Config, s: State)
    requires c.initCount >= 2 && Inv(c, s) && Enabled(s, Fire)
    ensures Simulates(c, s, Fire)
  {
    var s' := Apply(c, s, Fire);
    ParticipantsInside(s);
    assert Participants(s') == Participants(s);
    assert s.b.left < c.initCount ==> s.Inside() != {};
    assert Participants(s) != {};
  }

  lemma FlagRefines(c: Config, s: State)
    requires Enabled(s, Flag)
    ensures Simulates(c, s, Flag)
  {
  }

  lemma JoinParticipants(c: Config, s: State, t: nat)
    requires c.initCount >= 2 && Inv(c, s) && Enabled(s, Run(t)) && s.threads[t].pc.WantEntry?
    ensures t !in Participants(s) && Participants(Apply(c, s, Run(t))) == Participants(s) + {t}
    ensures |Participants(s)| < c.initCount && (s.b.condFlag ==> Participants(s) != {})
  {
    ParticipantsInside(s);
    ParticipantsUpdate(c, s, t);
    assert Participants(s) == s.Inside();
    assert s.b.left < c.initCount ==> s.Inside() != {};
  }

  lemma JoinRefines(c: Config, s: State, t: nat)
    requires c.initCount >= 2 && Inv(c, s) && Enabled(s, Run(t)) && s.threads[t].pc.WantEntry?
    ensures Simulates(c, s, Run(t))
  {
    JoinParticipants(c, s, t);
    HolderAfter(c, s, t);
    var s' := Apply(c, s, Run(t));
    assert s'.b.condFlag == s.b.condFlag && !s.Holder().ExitCount? && !s'.Holder().ExitCount?;
  }

  lemma ReleaseRefines(c: Config, s: State, t: nat)
    requires c.initCount >= 2 && Inv(c, s) && Enabled(s, Run(t)) && s.threads[t].pc.LastRelease?
    ensures Simulates(c, s, Run(t))
  {
    ParticipantsInside(s);
    ParticipantsUpdate(c, s, t);
    HolderAfter(c, s, t);
    assert t in s.Inside();
  }

  lemma LeaveRefines(c: Config, s: State, t: nat)
    requires c.initCount >= 2 && Inv(c, s) && Enabled(s, Run(t))
    requires s.threads[t].pc.LastInc? || s.threads[t].pc.ExitInc?
    ensures Simulates(c, s, Run(t))
  {
    ParticipantsUpdate(c, s, t);
    HolderAfter(c, s, t);
    assert t in Participants(s);
    assert s.b.condFlag && Apply(c, s, Run(t)).b.condFlag;
  }

  /** The resetter closes the gate's release with nobody inside, and keeps the generation while it does. */
  lemma ResetRefines(c: Config, s: State, t: nat)
    requires c.initCount >= 2 && Inv(c, s) && Enabled(s, Run(t))
    requires s.threads[t].pc.ExitClearCond? || s.threads[t].pc.ExitCount?
    ensures Simulates(c, s, Run(t))
  {
    ParticipantsInside(s);
    ParticipantsUpdate(c, s, t);
    HolderAfter(c, s, t);
    assert s.Inside() == {};
  }

  lemma SilentRefines(c: Config, s: State, t: nat)
    requires c.initCount >= 2 && Inv(c, s) && Enabled(s, Run(t))
    requires
      var pc := s.threads[t].pc;
      && !pc.WantEntry? && !pc.LastRelease? && !pc.LastInc? && !pc.ExitInc?
      && !pc.ExitClearCond? && !pc.ExitCount?
    ensures Simulates(c, s, Run(t))
  {
    var s' := Apply(c, s, Run(t));
    ParticipantsUpdate(c, s, t);
    HolderAfter(c, s, t);
    assert Participants(s') == Participants(s) by {
      assert t in Participants(s) <==> Joined(s.threads[t].pc);
    }
    assert s'.h.rounds == s.h.rounds && s'.b.condFlag == s.b.condFlag;
    assert s'.Holder().ExitCount? == s.Holder().ExitCount?;
  }

  /** Every step of the machine is the abstract action it means, or leaves the abstract barrier alone. */
  lemma StepRefines(c: Config, s: State, e: Event)
    requires c.initCount >= 2 && Inv(c, s) && Enabled(s, e)
    ensures Simulates(c, s, e)
  {
    match e
    case Fire => FireRefines(c, s);
    case Flag => FlagRefines(c, s);
    case Run(t) =>
      match s.threads[t].pc
      case WantEntry => JoinRefines(c, s, t);
      case LastRelease => ReleaseRefines(c, s, t);
      case LastInc => LeaveRefines(c, s, t);
      case ExitInc => LeaveRefines(c, s, t);
      case ExitClearCond => ResetRefines(c, s, t);
      case ExitCount => ResetRefines(c, s, t);
      case _ => SilentRefines(c, s, t);
  }

  /**
   Every run of the machine, with any number of threads, any interleaving and any timer behaviour, is a run of
   the abstract barrier ending in the abstraction of the machine's last state.
   */
  lemma {:induction false} RunRefines(c: Config, s: State, es: seq<Event>)
    requires c.initCount >= 2 && Inv(c, s) && Legal(c, s, es)
    ensures AllAllowed(c, Abstraction(s), Meanings(c, s, es))
    ensures ActAll(Abstraction(s), Meanings(c, s, es)) == Abstraction(Exec(c, s, es))
    decreases |es|
  {
    if es == [] {
    } else {
      StepRefines(c, s, es[0]);
      StepInv(c, s, es[0]);
      RunRefines(c, Apply(c, s, es[0]), es[1..]);
      var rest := Meanings(c, Apply(c, s, es[0]), es[1..]);
      match Meaning(s, es[0])
      case Some(x) => assert ([x] + rest)[1..] == rest;
      case None => assert [] + rest == rest;
    }
  }

  lemma MachineRefinesBarrier(c: Config, threads: nat, es: seq<Event>)
    requires c.initCount >= 2 && Legal(c, Init(c, threads), es)
    ensures AllAllowed(c, FRESH, Meanings(c, Init(c, threads), es))
    ensures ActAll(FRESH, Meanings(c, Init(c, threads), es)) == Abstraction(Exec(c, Init(c, threads), es))
  {
    InitInv(c, threads);
    assert Participants(Init(c, threads)) == {};
    RunRefines(c, Init(c, threads), es);
  }

  // ---------- what the abstract barrier guarantees ----------

  function Joins(xs: seq<Action>): nat {
    if xs == [] then 0 else (if xs[0].Join? then 1 else 0) + Joins(xs[1..])
  }

  lemma Times(n: int, k: int)
    ensures n * (k + 1) == n * k + n
  {
  }

  lemma {:induction false} GenerationsPaid(c: Config, a: Abstract, xs: seq<Action>)
    requires c.timeout <= 0 && AllAllowed(c, a, xs)
    ensures
      var a' := ActAll(a, xs);
      c.initCount * (a'.gen - a.gen) + |a'.waiting| <= |a.waiting| + Joins(xs)
    decreases |xs|
  {
    if xs == [] {
    } else {
      var a1 := Act(a, xs[0]);
      GenerationsPaid(c, a1, xs[1..]);
      Times(c.initCount, ActAll(a1, xs[1..]).gen - a1.gen);
    }
  }

  /**
   Without a timeout every generation is paid for by `init_count` arrivals of its own: at any point of any run,
   with any number of threads, the barrier has opened at most once for every `init_count` arrivals.
   */
  lemma OpenedOncePerFullHouse(c: Config, threads: nat, es: seq<Event>)
    requires c.initCount >= 2 && c.timeout <= 0 && Legal(c, Init(c, threads), es)
    ensures c.initCount * Abstraction(Exec(c, Init(c, threads), es)).gen <= Joins(Meanings(c, Init(c, threads), es))
  {
    MachineRefinesBarrier(c, threads, es);
    GenerationsPaid(c, FRESH, Meanings(c, Init(c, threads), es));
  }
}
