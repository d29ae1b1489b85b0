/**
  The hand-off of functors from any number of threads to one event loop
  (netlib/net/EventLoop.cc), as the atomic steps of the loop thread and of the
  foreign threads: a push under the mutex, the eventfd wakeup, the poll, the
  swap of the queue and the calls.
 */
module EventLoop {

  /** Who pushed a functor. */
  datatype Source = Owner | Foreign(thread: nat)

  datatype Functor = Functor(from: Source, tag: int)

  /** Where the loop thread is. */
  datatype LoopPc =
    | NotLooping              // before `loop`
    | CheckingQuit            // at the guard of the while loop
    | Polling                 // in `poll`, or about to enter it
    | Handling(wake: bool)    // calling the active channels, the wakeup channel still to come if `wake`
    | BeforeSwap              // in doPendingFunctors, before the lock
    | Running                 // calling the functors taken
    | RunningPushed           // a functor has pushed and not yet woken the loop
    | Exited

  /** Where a foreign thread is: between calls, after its push, or after its store to quit_. */
  datatype ForeignPc = Idle | Pushed | QuitStored

  datatype State = State(
    pc: LoopPc,
    pending: seq<Functor>,            // pendingFunctors_
    functors: seq<Functor>,           // the local vector, without those already called
    calling: bool,                    // callingPendingFunctors_
    quit: bool,                       // quit_
    eventfd: nat,                     // the counter
    foreign: map<nat, ForeignPc>,
    pushed: seq<Functor>,             // every push so far
    executed: seq<Functor>)           // every call so far

  const EVENTFD_MAX := 0xFFFF_FFFF_FFFF_FFFE

  datatype Step =
    | PushFrom(thread: nat, tag: int) | QuitFrom(thread: nat) | WakeupFrom(thread: nat)
    | OwnerPushesEarly(tag: int)
    | StartLooping | CheckQuit | PollReturns(wake: bool) | ReadEventfd
    | HandlerPushes(tag: int) | HandlerQuits | EndHandling
    | Swap | CallNext | FunctorPushes(tag: int) | FunctorWakesUp | FunctorQuits | EndCalling

  const INITIAL_STATE := State(NotLooping, [], [], false, false, 0, map[], [], [])

  function PcOf(s: State, t: nat): ForeignPc {
    if t in s.foreign then s.foreign[t] else Idle
  }

  /** `write` of one to the eventfd; a full counter refuses it and stays full. */
  function Woken(s: State): State {
    s.(eventfd := if s.eventfd < EVENTFD_MAX then s.eventfd + 1 else s.eventfd)
  }

  function PushedBy(s: State, f: Functor): State {
    s.(pending := s.pending + [f], pushed := s.pushed + [f])
  }

  predicate Enabled(s: State, step: Step) {
    match step
    case PushFrom(t, _) => PcOf(s, t) == Idle
    case QuitFrom(t) => PcOf(s, t) == Idle
    case WakeupFrom(t) => PcOf(s, t) != Idle
    case OwnerPushesEarly(_) => s.pc == NotLooping
    case StartLooping => s.pc == NotLooping
    case CheckQuit => s.pc == CheckingQuit
    case PollReturns(wake) => s.pc == Polling && (wake ==> s.eventfd > 0)
    case ReadEventfd => s.pc == Handling(true)
    case HandlerPushes(_) => s.pc.Handling?
    case HandlerQuits => s.pc.Handling?
    case EndHandling => s.pc == Handling(false)
    case Swap => s.pc == BeforeSwap
    case CallNext => s.pc == Running && s.functors != []
    case FunctorPushes(_) => s.pc == Running
    case FunctorWakesUp => s.pc == RunningPushed
    case FunctorQuits => s.pc == Running
    case EndCalling => s.pc == Running && s.functors == []
  }

  /** `queueInLoop` in the loop's own thread: a wakeup follows only while functors are being called. */
  function QueueInOwnThread(s: State, tag: int): State {
    var s' := PushedBy(s, Functor(Owner, tag));
    if s.calling then s'.(pc := RunningPushed) else s'
  }

  function Apply(s: State, step: Step): State
    requires Enabled(s, step)
  {
    match step
    case PushFrom(t, tag) => PushedBy(s, Functor(Foreign(t), tag)).(foreign := s.foreign[t := Pushed])
    case QuitFrom(t) => s.(quit := true, foreign := s.foreign[t := QuitStored])
    case WakeupFrom(t) => Woken(s).(foreign := s.foreign[t := Idle])
    case OwnerPushesEarly(tag) => QueueInOwnThread(s, tag)
    case StartLooping => s.(pc := CheckingQuit, quit := false)
    case CheckQuit => s.(pc := if s.quit then Exited else Polling)
    case PollReturns(wake) => s.(pc := Handling(wake))
    case ReadEventfd => s.(pc := Handling(false), eventfd := 0)
    case HandlerPushes(tag) => QueueInOwnThread(s, tag)
    case HandlerQuits => s.(quit := true)
    case EndHandling => s.(pc := BeforeSwap, calling := true)
    case Swap => s.(pc := Running, functors := s.pending, pending := [])
    case CallNext => s.(functors := s.functors[1..], executed := s.executed + [s.functors[0]])
    case FunctorPushes(tag) => QueueInOwnThread(s, tag)
    case FunctorWakesUp => Woken(s).(pc := Running)
    case FunctorQuits => s.(quit := true)
    case EndCalling => s.(pc := CheckingQuit, calling := false)
  }

  // ---------- runs ----------

  ghost predicate IsRun(s: State, steps: seq<Step>, s': State)
    decreases |steps|
  {
    if steps == [] then s' == s
    else Enabled(s, steps[0]) && IsRun(Apply(s, steps[0]), steps[1..], s')
  }

  /** The owner does not queue functors in its own thread before it loops. */
  ghost predicate NoEarlyPush(steps: seq<Step>) {
    forall step <- steps :: !step.OwnerPushesEarly?
  }

  /** Reachable from the start by such a run. */
  ghost predicate Reachable(s: State) {
    exists steps :: NoEarlyPush(steps) && IsRun(INITIAL_STATE, steps, s)
  }

  // ---------- the invariant ----------

  /** Calls made, calls to come and the queue together are the history of pushes. */
  ghost predicate InOrder(s: State) {
    s.executed + (s.functors + s.pending) == s.pushed
  }

  ghost predicate InPhase(s: State) {
    && (s.calling <==> s.pc in {BeforeSwap, Running, RunningPushed})
    && (s.functors != [] ==> s.pc in {Running, RunningPushed})
  }

  /** Some foreign thread is between a push, or its store to quit_, and its wakeup. */
  ghost predicate WakeupComing(s: State, pc: ForeignPc) {
    exists t :: PcOf(s, t) == pc
  }

  /** The queue is watched outside the part of the loop that leads to the swap. */
  ghost predicate QueueWatched(s: State) {
    s.pending != [] && s.pc in {NotLooping, CheckingQuit, Polling, Running}
    ==> s.eventfd > 0 || WakeupComing(s, Pushed)
  }

  ghost predicate QuitWatched(s: State) {
    s.quit && s.pc == Polling ==> s.eventfd > 0 || WakeupComing(s, QuitStored)
  }

  /** What holds even if the owner queues functors before it loops. */
  ghost predicate WeakInv(s: State) {
    InOrder(s) && InPhase(s) && QuitWatched(s)
  }

  ghost predicate Inv(s: State) {
    WeakInv(s) && QueueWatched(s)
  }

  lemma OtherThreads(s: State, s': State, t: nat, pc: ForeignPc)
    requires s'.foreign == s.foreign[t := PcOf(s', t)] && PcOf(s, t) != pc
    requires WakeupComing(s, pc)
    ensures WakeupComing(s', pc)
  {
    var u :| PcOf(s, u) == pc;
    assert PcOf(s', u) == pc;
  }

  lemma SameThreads(s: State, s': State, pc: ForeignPc)
    requires s'.foreign == s.foreign
    ensures WakeupComing(s, pc) <==> WakeupComing(s', pc)
  {
    assert forall t :: PcOf(s, t) == PcOf(s', t);
  }

  lemma StepKeepsWeakInv(s: State, step: Step)
    requires WeakInv(s) && Enabled(s, step)
    ensures WeakInv(Apply(s, step))
  {
    var s' := Apply(s, step);
    match step
    case PushFrom(t, _) =>
      if WakeupComing(s, QuitStored) { OtherThreads(s, s', t, QuitStored); }
    case QuitFrom(t) => assert PcOf(s', t) == QuitStored;
    case WakeupFrom(_) =>
    case _ => SameThreads(s, s', QuitStored);
  }

  /** A push of the owner before it loops is the only step that may leave the queue unwatched. */
  lemma StepKeepsWatch(s: State, step: Step)
    requires Inv(s) && Enabled(s, step) && !step.OwnerPushesEarly?
    ensures QueueWatched(Apply(s, step))
  {
    var s' := Apply(s, step);
    match step
    case PushFrom(t, _) => assert PcOf(s', t) == Pushed;
    case QuitFrom(t) =>
      if WakeupComing(s, Pushed) { OtherThreads(s, s', t, Pushed); }
    case WakeupFrom(_) =>
    case _ => SameThreads(s, s', Pushed);
  }

  lemma StepKeepsInv(s: State, step: Step)
    requires Inv(s) && Enabled(s, step) && !step.OwnerPushesEarly?
    ensures Inv(Apply(s, step))
  {
    StepKeepsWeakInv(s, step);
    StepKeepsWatch(s, step);
  }

  lemma {:induction false} RunKeepsInv(s: State, steps: seq<Step>, s': State)
    requires Inv(s) && NoEarlyPush(steps) && IsRun(s, steps, s')
    ensures Inv(s')
    decreases |steps|
  {
    if steps != [] {
      StepKeepsInv(s, steps[0]);
      RunKeepsInv(Apply(s, steps[0]), steps[1..], s');
    }
  }

  lemma ReachableInv(s: State)
    requires Reachable(s)
    ensures Inv(s)
  {
    var steps :| NoEarlyPush(steps) && IsRun(INITIAL_STATE, steps, s);
    RunKeepsInv(INITIAL_STATE, steps, s);
  }

  // ---------- main results ----------

  /**
    No lost wakeup: whenever the loop is about to block with work queued or quit
    set, the eventfd is readable or some thread has yet to write to it.
   */
  lemma NoLostWakeup(s: State)
    requires Reachable(s) && s.pc == Polling && s.eventfd == 0
    ensures s.pending != [] ==> exists t :: PcOf(s, t) == Pushed
    ensures s.quit ==> exists t :: PcOf(s, t) == QuitStored
  {
    ReachableInv(s);
  }

  /** A loop that sleeps while every other thread is idle has nothing left to do. */
  lemma AsleepMeansDone(s: State)
    requires Reachable(s) && s.pc == Polling && s.eventfd == 0
    requires forall t :: PcOf(s, t) == Idle
    ensures s.executed == s.pushed && !s.quit
  {
    NoLostWakeup(s);
    ReachableInv(s);
  }

  /** The functors of one source, in order. */
  function From(fs: seq<Functor>, from: Source): seq<Functor> {
    if fs == [] then []
    else From(fs[..|fs| - 1], from) + if fs[|fs| - 1].from == from then [fs[|fs| - 1]] else []
  }

  lemma {:induction false} FromPrefix(a: seq<Functor>, b: seq<Functor>, from: Source)
    requires a <= b
    ensures From(a, from) <= From(b, from)
  {
    if |a| < |b| {
      FromPrefix(a, b[..|b| - 1], from);
    } else {
      assert a == b;
    }
  }

  /** Functors run in push order, each at most once, and each thread's own order is kept. */
  lemma FirstInFirstOut(s: State)
    requires Reachable(s)
    ensures s.executed <= s.pushed
    ensures s.pushed == s.executed + s.functors + s.pending
    ensures forall from :: From(s.executed, from) <= From(s.pushed, from)
  {
    ReachableInv(s);
    forall from ensures From(s.executed, from) <= From(s.pushed, from) {
      FromPrefix(s.executed, s.pushed, from);
    }
  }

  // ---------- nothing queued stays queued ----------

  function Calls(n: nat): (r: seq<Step>)
    ensures |r| == n && forall step <- r :: step == CallNext
  {
    if n == 0 then [] else [CallNext] + Calls(n - 1)
  }

  /** One iteration of the loop, when nobody interferes. */
  function Iteration(n: nat): seq<Step> {
    [PollReturns(true)] + ([ReadEventfd] + ([EndHandling] + ([Swap] + (Calls(n) + [EndCalling]))))
  }

  lemma {:induction false} CallsRunAll(s: State)
    requires s.pc == Running
    ensures IsRun(s, Calls(|s.functors|) + [EndCalling],
                  s.(pc := CheckingQuit, calling := false, functors := [], executed := s.executed + s.functors))
    decreases |s.functors|
  {
    var steps := Calls(|s.functors|) + [EndCalling];
    if s.functors == [] {
      assert steps == [EndCalling] && steps[1..] == [];
      assert s.executed + s.functors == s.executed;
    } else {
      var s1 := Apply(s, CallNext);
      CallsRunAll(s1);
      assert steps[1..] == Calls(|s1.functors|) + [EndCalling];
      assert s1.executed + s1.functors == s.executed + s.functors;
    }
  }

  lemma RunStep(s: State, step: Step, steps: seq<Step>, mid: State, s': State)
    requires Enabled(s, step) && Apply(s, step) == mid && IsRun(mid, steps, s')
    ensures IsRun(s, [step] + steps, s')
  {}

  /** The part of an iteration that leads from a readable eventfd to the swap. */
  lemma IntoSwap(s: State, steps: seq<Step>, s': State)
    requires s.pc == Polling && s.eventfd > 0
    requires IsRun(s.(pc := BeforeSwap, eventfd := 0, calling := true), steps, s')
    ensures IsRun(s, [PollReturns(true)] + ([ReadEventfd] + ([EndHandling] + steps)), s')
  {
    var s1 := s.(pc := Handling(true));
    var s2 := s.(pc := Handling(false), eventfd := 0);
    var s3 := s.(pc := BeforeSwap, eventfd := 0, calling := true);
    RunStep(s2, EndHandling, steps, s3, s');
    RunStep(s1, ReadEventfd, [EndHandling] + steps, s2, s');
    RunStep(s, PollReturns(true), [ReadEventfd] + ([EndHandling] + steps), s1, s');
  }

  /** Once woken, one iteration runs everything that was queued, and nothing twice. */
  lemma WokenLoopRunsAll(s: State)
    requires Reachable(s) && s.pc == Polling && s.eventfd > 0
    ensures IsRun(s, Iteration(|s.pending|),
                  s.(pc := CheckingQuit, eventfd := 0, pending := [], executed := s.pushed))
  {
    ReachableInv(s);
    var s3 := s.(pc := BeforeSwap, eventfd := 0, calling := true);
    var s4 := s3.(pc := Running, functors := s.pending, pending := []);
    var s5 := s.(pc := CheckingQuit, eventfd := 0, pending := [], executed := s.pushed);
    assert s4.(pc := CheckingQuit, calling := false, functors := [], executed := s4.executed + s4.functors) == s5 by {
      assert s.executed + ([] + s.pending) == s.executed + s.pending;
    }
    CallsRunAll(s4);
    var tail := Calls(|s.pending|) + [EndCalling];
    RunStep(s3, Swap, tail, s4, s5);
    IntoSwap(s, [Swap] + tail, s5);
  }

  // ---------- whatever the interleaving ----------

  /** The first pushes, up to `base`, are waiting for the swap, taken, or called. */
  ghost predicate OnTheirWay(s: State, base: seq<Functor>) {
    || base <= s.executed
    || (s.pc in {Running, RunningPushed} && base <= s.executed + s.functors)
    || (s.pc in {Polling, Handling(true), Handling(false), BeforeSwap} && base <= s.pushed)
  }

  lemma StepOnTheirWay(s: State, step: Step, base: seq<Functor>)
    requires WeakInv(s) && Enabled(s, step) && OnTheirWay(s, base)
    ensures OnTheirWay(Apply(s, step), base)
    ensures base <= s.executed || step == EndCalling ==> base <= Apply(s, step).executed
  {
    var s' := Apply(s, step);
    if step == Swap {
      assert s.executed + (s.functors + s.pending) == s'.executed + s'.functors by {
        assert s.functors + s.pending == s.pending;
      }
    } else if step == CallNext {
      assert s'.executed + s'.functors == s.executed + s.functors;
    }
  }

  lemma {:induction false} StayOnTheirWay(s: State, steps: seq<Step>, s': State, base: seq<Functor>)
    requires WeakInv(s) && IsRun(s, steps, s') && OnTheirWay(s, base)
    ensures base <= s.executed || EndCalling in steps ==> base <= s'.executed
    decreases |steps|
  {
    if steps != [] {
      var s1 := Apply(s, steps[0]);
      StepKeepsWeakInv(s, steps[0]);
      StepOnTheirWay(s, steps[0], base);
      StayOnTheirWay(s1, steps[1..], s', base);
    }
  }

  /**
    In every interleaving, when the loop ends an iteration every functor pushed
    before the poll of that iteration has run.
   */
  lemma IterationRunsAll(s: State, steps: seq<Step>, s': State)
    requires WeakInv(s) && s.pc == Polling && IsRun(s, steps, s') && EndCalling in steps
    ensures s.pushed <= s'.executed
  {
    StayOnTheirWay(s, steps, s', s.pushed);
  }

  // ---------- functors queued by the owner before it loops ----------

  lemma {:induction false} RunKeepsWeakInv(s: State, steps: seq<Step>, s': State)
    requires WeakInv(s) && IsRun(s, steps, s')
    ensures WeakInv(s')
    decreases |steps|
  {
    if steps != [] {
      StepKeepsWeakInv(s, steps[0]);
      RunKeepsWeakInv(Apply(s, steps[0]), steps[1..], s');
    }
  }

  /** An early push is watched exactly when the eventfd is readable already or some thread will write to it. */
  lemma EarlyPushWatchedExactly(steps: seq<Step>, s: State, tag: int)
    requires IsRun(INITIAL_STATE, steps, s) && s.pc == NotLooping
    ensures QueueWatched(Apply(s, OwnerPushesEarly(tag))) <==> s.eventfd > 0 || WakeupComing(s, Pushed)
  {
    RunKeepsWeakInv(INITIAL_STATE, steps, s);
    SameThreads(s, Apply(s, OwnerPushesEarly(tag)), Pushed);
  }

  /** The loop never goes back to where early pushes are possible. */
  lemma {:induction false} LoopingKeepsInv(s: State, steps: seq<Step>, s': State)
    requires Inv(s) && s.pc != NotLooping && IsRun(s, steps, s')
    ensures Inv(s')
    decreases |steps|
  {
    if steps != [] {
      StepKeepsInv(s, steps[0]);
      LoopingKeepsInv(Apply(s, steps[0]), steps[1..], s');
    }
  }

  /** From the first swap on, nothing is lost, whatever was pushed early. */
  lemma {:induction false} SwapRestoresInv(s: State, steps: seq<Step>, s': State)
    requires WeakInv(s) && IsRun(s, steps, s') && Swap in steps
    ensures Inv(s')
    decreases |steps|
  {
    StepKeepsWeakInv(s, steps[0]);
    if steps[0] == Swap {
      LoopingKeepsInv(Apply(s, Swap), steps[1..], s');
    } else {
      SwapRestoresInv(Apply(s, steps[0]), steps[1..], s');
    }
  }

  /** Without a swap the queue only grows. */
  lemma {:induction false} UnswappedGrows(s: State, steps: seq<Step>, s': State)
    requires IsRun(s, steps, s') && Swap !in steps
    ensures |s.pending| <= |s'.pending|
    ensures !NoEarlyPush(steps) ==> s'.pending != []
    decreases |steps|
  {
    if steps != [] {
      UnswappedGrows(Apply(s, steps[0]), steps[1..], s');
    }
  }

  /**
    Over all runs, early pushes included: a loop asleep with nothing to read and
    every other thread idle has work queued exactly when the owner pushed before
    it looped and the queue has not been swapped since.
   */
  lemma StrandedExactly(steps: seq<Step>, s: State)
    requires IsRun(INITIAL_STATE, steps, s) && s.pc == Polling && s.eventfd == 0
    requires forall t :: PcOf(s, t) == Idle
    ensures s.pending != [] <==> !NoEarlyPush(steps) && Swap !in steps
  {
    if Swap in steps {
      SwapRestoresInv(INITIAL_STATE, steps, s);
    } else {
      UnswappedGrows(INITIAL_STATE, steps, s);
      if NoEarlyPush(steps) {
        RunKeepsInv(INITIAL_STATE, steps, s);
      }
    }
  }

  /** The shortest such run. */
  lemma EarlyPushIsLost(tag: int)
    ensures exists s ::
              && IsRun(INITIAL_STATE, [OwnerPushesEarly(tag), StartLooping, CheckQuit], s)
              && s.pc == Polling && s.eventfd == 0 && s.pending == [Functor(Owner, tag)]
              && forall t :: PcOf(s, t) == Idle
  {
    var s1 := Apply(INITIAL_STATE, OwnerPushesEarly(tag));
    var s2 := Apply(s1, StartLooping);
    var s3 := Apply(s2, CheckQuit);
    RunStep(s2, CheckQuit, [], s3, s3);
    RunStep(s1, StartLooping, [CheckQuit], s2, s3);
    RunStep(INITIAL_STATE, OwnerPushesEarly(tag), [StartLooping, CheckQuit], s1, s3);
    assert [OwnerPushesEarly(tag)] + [StartLooping, CheckQuit] == [OwnerPushesEarly(tag), StartLooping, CheckQuit];
  }

  // ---------- quitting before the loop, and what the end of the loop leaves ----------

  predicate Quits(step: Step) {
    step.QuitFrom? || step.HandlerQuits? || step.FunctorQuits?
  }

  ghost predicate StandsAt(steps: seq<Step>, i: nat) {
    i < |steps| && Quits(steps[i]) && StartLooping !in steps[i + 1..]
  }

  /** Some call of `quit` has no start of the loop after it. */
  ghost predicate QuitStands(steps: seq<Step>) {
    exists i: nat :: StandsAt(steps, i)
  }

  lemma StandsAtNext(steps: seq<Step>, i: nat)
    requires steps != []
    ensures StandsAt(steps, i + 1) <==> StandsAt(steps[1..], i)
  {
    if i + 1 < |steps| {
      assert steps[1..][i] == steps[i + 1] && steps[1..][i + 1..] == steps[i + 2..];
    }
  }

  lemma QuitStandsCons(steps: seq<Step>)
    requires steps != []
    ensures QuitStands(steps) <==> QuitStands(steps[1..]) || (Quits(steps[0]) && StartLooping !in steps[1..])
  {
    if i: nat :| StandsAt(steps[1..], i) {
      StandsAtNext(steps, i);
    }
    if i: nat :| StandsAt(steps, i) {
      if i > 0 {
        StandsAtNext(steps, i - 1);
      }
    }
    assert StandsAt(steps, 0) <==> Quits(steps[0]) && StartLooping !in steps[1..];
    hide StandsAt;
  }

  lemma {:induction false} QuitFollows(s: State, steps: seq<Step>, s': State)
    requires IsRun(s, steps, s')
    ensures s'.quit <==> QuitStands(steps) || (s.quit && StartLooping !in steps)
    decreases |steps|
  {
    if steps != [] {
      QuitFollows(Apply(s, steps[0]), steps[1..], s');
      QuitStandsCons(steps);
    }
  }

  /**
    The loop is told to quit exactly if some `quit` was called after it started: the
    start of the loop takes back every call before it.
   */
  lemma QuitKeptExactly(steps: seq<Step>, s: State)
    requires IsRun(INITIAL_STATE, steps, s)
    ensures s.quit <==> QuitStands(steps)
  {
    QuitFollows(INITIAL_STATE, steps, s);
  }

  /** A loop that has ended runs nothing any more. */
  lemma {:induction false} ExitedForGood(s: State, steps: seq<Step>, s': State)
    requires s.pc == Exited && InPhase(s) && IsRun(s, steps, s')
    ensures s'.pc == Exited && s'.executed == s.executed
    decreases |steps|
  {
    if steps != [] {
      ExitedForGood(Apply(s, steps[0]), steps[1..], s');
    }
  }

  lemma Grows(s: State, step: Step)
    requires Enabled(s, step) && step != Swap
    ensures s.pending <= Apply(s, step).pending
    ensures Apply(s, step).pushed == s.pushed + Apply(s, step).pending[|s.pending|..]
  {}

  /** Without a swap, what is pushed is what the queue gains. */
  lemma {:induction false} QueueGains(s: State, steps: seq<Step>, s': State)
    requires IsRun(s, steps, s') && Swap !in steps
    ensures s.pending <= s'.pending && s'.pushed == s.pushed + s'.pending[|s.pending|..]
    decreases |steps|
  {
    if steps != [] {
      var s1 := Apply(s, steps[0]);
      QueueGains(s1, steps[1..], s');
      assert s'.pending[|s.pending|..] == s1.pending[|s.pending|..] + s'.pending[|s1.pending|..];
      Grows(s, steps[0]);
      assert s'.pushed == s.pushed + s1.pending[|s.pending|..] + s'.pending[|s1.pending|..];
    }
  }

  /**
    A loop that has ended ran exactly what had been pushed when the queue was last
    swapped; what was pushed since stays in the queue for good.
   */
  lemma ExitedRanExactly(before: seq<Step>, mid: State, after: seq<Step>, s: State, later: seq<Step>, s': State)
    requires IsRun(INITIAL_STATE, before, mid) && Enabled(mid, Swap)
    requires IsRun(Apply(mid, Swap), after, s) && Swap !in after && s.pc == Exited
    requires IsRun(s, later, s')
    ensures s'.executed == s.executed == mid.pushed && s.pushed == mid.pushed + s.pending
    ensures s'.executed == s.pushed <==> s.pending == []
  {
    var swapped := Apply(mid, Swap);
    RunKeepsWeakInv(INITIAL_STATE, before, mid);
    StepKeepsWeakInv(mid, Swap);
    RunKeepsWeakInv(swapped, after, s);
    QueueGains(swapped, after, s);
    ExitedForGood(s, later, s');
    assert s.pending[0..] == s.pending;
    assert s.functors + s.pending == s.pending;
    assert |s.executed| == |mid.pushed|;
    assert s.executed == (s.executed + s.pending)[..|s.executed|];
    assert (mid.pushed + s.pending)[..|mid.pushed|] == mid.pushed;
  }

  // ---------- the state as a function of the history ----------

  /** The functors that a history pushes, in order. */
  function PushesOf(steps: seq<Step>): seq<Functor> {
    if steps == [] then []
    else
      var before := PushesOf(steps[..|steps| - 1]);
      match steps[|steps| - 1]
      case PushFrom(t, tag) => before + [Functor(Foreign(t), tag)]
      case OwnerPushesEarly(tag) => before + [Functor(Owner, tag)]
      case HandlerPushes(tag) => before + [Functor(Owner, tag)]
      case FunctorPushes(tag) => before + [Functor(Owner, tag)]
      case _ => before
  }

  /** How many functors were pushed up to the last swap of the queue. */
  function SwappedOut(steps: seq<Step>): nat {
    if steps == [] then 0
    else if steps[|steps| - 1] == Swap then |PushesOf(steps)|
    else SwappedOut(steps[..|steps| - 1])
  }

  function CallsOf(steps: seq<Step>): nat {
    if steps == [] then 0
    else CallsOf(steps[..|steps| - 1]) + if steps[|steps| - 1] == CallNext then 1 else 0
  }

  /** Writes to the eventfd since it was last read, as far as its counter goes. */
  function Counted(n: nat, step: Step): nat {
    if step == ReadEventfd then 0
    else if (step.WakeupFrom? || step == FunctorWakesUp) && n < EVENTFD_MAX then n + 1
    else n
  }

  function WakeupsOf(steps: seq<Step>): nat {
    if steps == [] then 0 else Counted(WakeupsOf(steps[..|steps| - 1]), steps[|steps| - 1])
  }

  /** Where a thread is after a step, its own or not. */
  function ThreadMoves(pc: ForeignPc, step: Step, t: nat): ForeignPc {
    match step
    case PushFrom(u, _) => if u == t then Pushed else pc
    case QuitFrom(u) => if u == t then QuitStored else pc
    case WakeupFrom(u) => if u == t then Idle else pc
    case _ => pc
  }

  function ForeignAfter(steps: seq<Step>, t: nat): ForeignPc {
    if steps == [] then Idle
    else ThreadMoves(ForeignAfter(steps[..|steps| - 1], t), steps[|steps| - 1], t)
  }

  /** Where the loop thread is after a step, given whether a call of `quit` stands. */
  function LoopMoves(pc: LoopPc, step: Step, quit: bool): LoopPc {
    match step
    case StartLooping => CheckingQuit
    case CheckQuit => if quit then Exited else Polling
    case PollReturns(wake) => Handling(wake)
    case ReadEventfd => Handling(false)
    case EndHandling => BeforeSwap
    case Swap => Running
    case FunctorPushes(_) => RunningPushed
    case FunctorWakesUp => Running
    case EndCalling => CheckingQuit
    case _ => pc
  }

  ghost function PcAfter(steps: seq<Step>): LoopPc {
    if steps == [] then NotLooping
    else
      var before := steps[..|steps| - 1];
      LoopMoves(PcAfter(before), steps[|steps| - 1], QuitStands(before))
  }

  /** A run ends with its last step. */
  lemma {:induction false} LastStep(s: State, steps: seq<Step>, s': State) returns (mid: State)
    requires steps != [] && IsRun(s, steps, s')
    ensures IsRun(s, steps[..|steps| - 1], mid) && Enabled(mid, steps[|steps| - 1])
    ensures Apply(mid, steps[|steps| - 1]) == s'
    decreases |steps|
  {
    if |steps| == 1 {
      mid := s;
    } else {
      hide Enabled, Apply;
      mid := LastStep(Apply(s, steps[0]), steps[1..], s');
      assert steps[1..][..|steps| - 2] == steps[..|steps| - 1][1..];
      assert steps[1..][|steps| - 2] == steps[|steps| - 1];
    }
  }

  /** The queue and the calls are cut out of the history of pushes. */
  ghost predicate QueueDetermined(steps: seq<Step>, s: State) {
    && s.pushed == PushesOf(steps)
    && SwappedOut(steps) <= |s.pushed| && s.pending == s.pushed[SwappedOut(steps)..]
    && CallsOf(steps) <= |s.pushed| && s.executed == s.pushed[..CallsOf(steps)]
  }

  /** What the threads did determines the queue, the eventfd and where every thread is. */
  ghost predicate Determined(steps: seq<Step>, s: State) {
    && QueueDetermined(steps, s)
    && s.eventfd == WakeupsOf(steps)
    && s.pc == PcAfter(steps) && (s.quit <==> QuitStands(steps))
    && forall t :: PcOf(s, t) == ForeignAfter(steps, t)
  }

  lemma Appended<T>(a: seq<T>, x: T, k: nat, n: nat)
    requires k <= |a| && n <= |a|
    ensures (a + [x])[k..] == a[k..] + [x] && (a + [x])[..n] == a[..n]
  {}

  lemma CalledNext(s: State, n: nat)
    requires InOrder(s) && s.functors != [] && n <= |s.pushed| && s.executed == s.pushed[..n]
    ensures n < |s.pushed| && s.functors[0] == s.pushed[n] && s.pushed[..n + 1] == s.pushed[..n] + [s.pushed[n]]
  {
    assert s.pushed[n] == (s.executed + (s.functors + s.pending))[n];
  }

  lemma QueueLast(before: seq<Step>, step: Step)
    ensures PushesOf(before + [step]) == PushesOf(before) + PushesOf([step])
    ensures SwappedOut(before + [step]) == if step == Swap then |PushesOf(before)| else SwappedOut(before)
    ensures CallsOf(before + [step]) == CallsOf(before) + if step == CallNext then 1 else 0
  {
    var steps := before + [step];
    assert steps[..|steps| - 1] == before && steps[|steps| - 1] == step;
    assert [step][..0] == [];
  }

  lemma StepDeterminesQueue(before: seq<Step>, s: State, step: Step)
    requires QueueDetermined(before, s) && InOrder(s) && Enabled(s, step)
    ensures QueueDetermined(before + [step], Apply(s, step))
  {
    QueueLast(before, step);
    assert [step][..0] == [];
    var s' := Apply(s, step);
    if step == CallNext {
      CalledNext(s, CallsOf(before));
    } else if s'.pushed != s.pushed {
      Appended(s.pushed, s'.pushed[|s.pushed|], SwappedOut(before), CallsOf(before));
    }
    hide InOrder, SwappedOut, CallsOf;
  }

  lemma ForeignLast(before: seq<Step>, step: Step, t: nat)
    ensures ForeignAfter(before + [step], t) == ThreadMoves(ForeignAfter(before, t), step, t)
  {
    var steps := before + [step];
    assert steps[..|steps| - 1] == before && steps[|steps| - 1] == step;
    hide ThreadMoves;
  }

  lemma StepDeterminesThread(before: seq<Step>, s: State, step: Step, t: nat)
    requires PcOf(s, t) == ForeignAfter(before, t) && Enabled(s, step)
    ensures PcOf(Apply(s, step), t) == ForeignAfter(before + [step], t)
  {
    ForeignLast(before, step, t);
    hide ForeignAfter, Enabled;
  }

  lemma LoopLast(before: seq<Step>, step: Step)
    ensures PcAfter(before + [step]) == LoopMoves(PcAfter(before), step, QuitStands(before))
    ensures WakeupsOf(before + [step]) == Counted(WakeupsOf(before), step)
  {
    var steps := before + [step];
    assert steps[..|steps| - 1] == before && steps[|steps| - 1] == step;
    hide LoopMoves, Counted, QuitStands;
  }

  lemma StepDeterminesLoop(before: seq<Step>, s: State, step: Step)
    requires s.pc == PcAfter(before) && s.eventfd == WakeupsOf(before) && (s.quit <==> QuitStands(before))
    requires InPhase(s) && Enabled(s, step)
    ensures Apply(s, step).pc == PcAfter(before + [step]) && Apply(s, step).eventfd == WakeupsOf(before + [step])
  {
    LoopLast(before, step);
    hide PcAfter, WakeupsOf, QuitStands;
  }

  lemma StepDetermines(before: seq<Step>, s: State, step: Step)
    requires Determined(before, s) && WeakInv(s) && Enabled(s, step)
    requires Apply(s, step).quit <==> QuitStands(before + [step])
    ensures Determined(before + [step], Apply(s, step))
  {
    StepDeterminesQueue(before, s, step);
    StepDeterminesLoop(before, s, step);
    forall t ensures PcOf(Apply(s, step), t) == ForeignAfter(before + [step], t) {
      StepDeterminesThread(before, s, step, t);
    }
    hide QuitStands, QueueDetermined, WeakInv, Apply, Enabled, PcOf, ForeignAfter, PcAfter, WakeupsOf;
  }

  lemma {:induction false} HistoryDetermines(steps: seq<Step>, s: State)
    requires IsRun(INITIAL_STATE, steps, s)
    ensures Determined(steps, s)
    decreases |steps|
  {
    QuitKeptExactly(steps, s);
    if steps == [] {
      QuitKeptExactly([], INITIAL_STATE);
    } else {
      var before := steps[..|steps| - 1];
      var mid := LastStep(INITIAL_STATE, steps, s);
      assert steps == before + [steps[|steps| - 1]];
      HistoryDetermines(before, mid);
      RunKeepsWeakInv(INITIAL_STATE, before, mid);
      hide Determined, WeakInv, IsRun, Enabled, Apply, QuitStands;
      StepDetermines(before, mid, steps[|steps| - 1]);
    }
  }

  /** The guard of the loop was tested while a call of `quit` stood. */
  ghost predicate FoundQuit(steps: seq<Step>) {
    exists i :: 0 <= i < |steps| && steps[i] == CheckQuit && QuitStands(steps[..i])
  }

  lemma FoundQuitLast(steps: seq<Step>)
    requires steps != []
    ensures var before := steps[..|steps| - 1];
            FoundQuit(steps) <==> FoundQuit(before) || (steps[|steps| - 1] == CheckQuit && QuitStands(before))
  {
    var before := steps[..|steps| - 1];
    hide QuitStands;
    assert forall i :: 0 <= i < |before| ==> before[i] == steps[i] && before[..i] == steps[..i];
    if FoundQuit(before) {
      var i :| 0 <= i < |before| && before[i] == CheckQuit && QuitStands(before[..i]);
      assert steps[i] == CheckQuit && QuitStands(steps[..i]);
    }
  }

  /** Over every run the loop has ended exactly if it tested its guard while some call of `quit` stood. */
  lemma {:induction false} ExitedExactly(steps: seq<Step>, s: State)
    requires IsRun(INITIAL_STATE, steps, s)
    ensures s.pc == Exited <==> FoundQuit(steps)
    ensures s.pc == Exited ==> QuitStands(steps)
    decreases |steps|
  {
    if steps != [] {
      var before := steps[..|steps| - 1];
      var mid := LastStep(INITIAL_STATE, steps, s);
      ExitedExactly(before, mid);
      FoundQuitLast(steps);
      QuitKeptExactly(before, mid);
      QuitKeptExactly(steps, s);
      RunKeepsWeakInv(INITIAL_STATE, before, mid);
      hide FoundQuit, QuitStands, IsRun;
    }
  }

  /** At its guard the loop ends if some call of `quit` stands, and polls again if none does. */
  lemma GuardDecides(steps: seq<Step>, s: State)
    requires IsRun(INITIAL_STATE, steps, s) && s.pc == CheckingQuit
    ensures Enabled(s, CheckQuit) && Apply(s, CheckQuit).pc == if QuitStands(steps) then Exited else Polling
  {
    QuitKeptExactly(steps, s);
    hide QuitStands, IsRun;
  }

  // ---------- nobody is stuck ----------

  /** The step of the loop thread when nothing is pushed by it and the poll times out if it has to. */
  function OwnStep(s: State): Step {
    match s.pc
    case NotLooping => StartLooping
    case CheckingQuit => CheckQuit
    case Polling => PollReturns(s.eventfd > 0)
    case Handling(wake) => if wake then ReadEventfd else EndHandling
    case BeforeSwap => Swap
    case Running => if s.functors != [] then CallNext else EndCalling
    case RunningPushed => FunctorWakesUp
    case Exited => StartLooping
  }

  /** The loop thread can always go on until it has ended, and other threads are never kept waiting. */
  lemma NobodyIsStuck(s: State, t: nat, tag: int)
    ensures s.pc != Exited ==> Enabled(s, OwnStep(s))
    ensures if PcOf(s, t) == Idle then Enabled(s, PushFrom(t, tag)) && Enabled(s, QuitFrom(t))
            else Enabled(s, WakeupFrom(t))
  {}

  /** How many steps of its own the loop is away from its end, once told to quit. */
  function Distance(s: State): nat {
    match s.pc
    case Exited => 0
    case NotLooping => 0
    case CheckingQuit => 1
    case Running => 2 + |s.functors|
    case RunningPushed => 3 + |s.functors|
    case BeforeSwap => 3 + |s.pending|
    case Handling(wake) => (if wake then 5 else 4) + |s.pending|
    case Polling => (if s.eventfd > 0 then 6 else 5) + |s.pending|
  }

  /** What is still to be called before the loop ends. */
  function Due(s: State): seq<Functor> {
    match s.pc
    case Running => s.functors
    case RunningPushed => s.functors
    case CheckingQuit => []
    case _ => s.pending
  }

  /** Told to quit, a loop that has started ends by its own steps, after the calls that are due. */
  lemma {:induction false} QuitEnds(s: State) returns (steps: seq<Step>, s': State)
    requires s.quit && s.pc != NotLooping && s.pc != Exited
    ensures IsRun(s, steps, s') && s'.pc == Exited && |steps| == Distance(s)
    ensures s'.executed == s.executed + Due(s)
    decreases Distance(s)
  {
    var step := OwnStep(s);
    NobodyIsStuck(s, 0, 0);
    var s1 := Apply(s, step);
    if s1.pc == Exited {
      steps, s' := [step], s1;
      assert [step][1..] == [];
    } else {
      var more;
      more, s' := QuitEnds(s1);
      steps := [step] + more;
      assert steps[1..] == more;
      assert s1.executed + Due(s1) == s.executed + Due(s);
    }
  }
}
