/**
  The thread pool (base/threadPool.h) as the atomic steps of its workers, of the
  threads that enqueue, of tasks that enqueue, and of the destructor.  A worker's
  test of the predicate and its wait or its pop happen under one lock.
 */
module WorkerPool {

  type Task = nat

  datatype WorkerPc =
    | Looking                  // about to take the lock and test the predicate
    | Blocked                  // inside cv.wait
    | Working(task: Task)      // calling the task
    | Enqueuing(task: Task)    // the task has pushed and not yet notified
    | Exited

  datatype CallerPc = Idle | Pushed

  datatype Destructor = Alive | FlagCleared | NotifiedAll

  datatype State = State(
    works: seq<Task>,
    workers: seq<WorkerPc>,
    callers: map<nat, CallerPc>,
    destructor: Destructor,
    enqueued: seq<Task>,       // every push so far
    dequeued: seq<Task>,       // every pop so far
    finished: seq<Task>)       // every task call that returned
  {
    predicate RunFlag() { destructor == Alive }
  }

  /** `woken` is the worker that notify_one picks, out of range when none waits. */
  datatype Step =
    | Enqueue(caller: nat, task: Task) | Notify(caller: nat, woken: nat)
    | Look(worker: nat) | Finish(worker: nat)
    | TaskEnqueues(worker: nat, task: Task) | TaskNotifies(worker: nat, woken: nat)
    | WakeSpuriously(worker: nat)
    | ClearFlag | NotifyAll

  function CallerOf(s: State, c: nat): CallerPc {
    if c in s.callers then s.callers[c] else Idle
  }

  predicate At(s: State, i: nat, pc: WorkerPc) {
    i < |s.workers| && s.workers[i] == pc
  }

  /** notify_one wakes some waiting worker, if there is one. */
  predicate Picks(s: State, woken: nat) {
    if Blocked in s.workers then At(s, woken, Blocked) else woken >= |s.workers|
  }

  predicate Enabled(s: State, step: Step) {
    match step
    // the pool may be used until its destructor starts, and by its own tasks until they end
    case Enqueue(c, _) => CallerOf(s, c) == Idle && s.RunFlag()
    case Notify(c, woken) => CallerOf(s, c) == Pushed && Picks(s, woken)
    case Look(i) => At(s, i, Looking)
    case Finish(i) => i < |s.workers| && s.workers[i].Working?
    case TaskEnqueues(i, _) => i < |s.workers| && s.workers[i].Working?
    case TaskNotifies(i, woken) => i < |s.workers| && s.workers[i].Enqueuing? && Picks(s, woken)
    case WakeSpuriously(i) => At(s, i, Blocked)
    case ClearFlag => s.destructor == Alive
    case NotifyAll => s.destructor == FlagCleared
  }

  function Moved(s: State, i: nat, pc: WorkerPc): State
    requires i < |s.workers|
  {
    s.(workers := s.workers[i := pc])
  }

  function WokenUp(s: State, woken: nat): State {
    if woken < |s.workers| then Moved(s, woken, Looking) else s
  }

  function Push(s: State, task: Task): State {
    s.(works := s.works + [task], enqueued := s.enqueued + [task])
  }

  /** One turn of the worker loop, from the lock to the unlock. */
  function Looked(s: State, i: nat): State
    requires i < |s.workers|
  {
    if s.works != [] then
      Moved(s, i, Working(s.works[0])).(works := s.works[1..], dequeued := s.dequeued + [s.works[0]])
    else if !s.RunFlag() then Moved(s, i, Exited)
    else Moved(s, i, Blocked)
  }

  function AllWoken(workers: seq<WorkerPc>): (r: seq<WorkerPc>)
    ensures |r| == |workers|
    ensures forall i :: 0 <= i < |r| ==> r[i] == if workers[i] == Blocked then Looking else workers[i]
  {
    if workers == [] then [] else [if workers[0] == Blocked then Looking else workers[0]] + AllWoken(workers[1..])
  }

  function Apply(s: State, step: Step): State
    requires Enabled(s, step)
  {
    match step
    case Enqueue(c, task) => Push(s, task).(callers := s.callers[c := Pushed])
    case Notify(c, woken) => WokenUp(s, woken).(callers := s.callers[c := Idle])
    case Look(i) => Looked(s, i)
    case Finish(i) => Moved(s, i, Looking).(finished := s.finished + [s.workers[i].task])
    case TaskEnqueues(i, task) => Moved(Push(s, task), i, Enqueuing(s.workers[i].task))
    case TaskNotifies(i, woken) => WokenUp(Moved(s, i, Working(s.workers[i].task)), woken)
    case WakeSpuriously(i) => Moved(s, i, Looking)
    case ClearFlag => s.(destructor := FlagCleared)
    case NotifyAll => s.(destructor := NotifiedAll, workers := AllWoken(s.workers))
  }

  function Initially(n: nat): State {
    State([], seq(n, _ => Looking), map[], Alive, [], [], [])
  }

  ghost predicate IsRun(s: State, steps: seq<Step>, s': State)
    decreases |steps|
  {
    if steps == [] then s' == s
    else Enabled(s, steps[0]) && IsRun(Apply(s, steps[0]), steps[1..], s')
  }

  ghost predicate Reachable(n: nat, s: State) {
    exists steps :: IsRun(Initially(n), steps, s)
  }

  // ---------- the invariant ----------

  /** A worker that will look at the queue again by itself. */
  predicate Awake(pc: WorkerPc) {
    pc != Blocked && pc != Exited
  }

  ghost predicate SomeoneAwake(s: State) {
    exists i :: 0 <= i < |s.workers| && Awake(s.workers[i])
  }

  ghost predicate NotifyComing(s: State) {
    exists c :: CallerOf(s, c) == Pushed
  }

  function Holds(pc: WorkerPc, t: Task): nat {
    if (pc.Working? || pc.Enqueuing?) && pc.task == t then 1 else 0
  }

  /** How many workers have taken this task and not returned from it. */
  function Held(workers: seq<WorkerPc>, t: Task): nat {
    if workers == [] then 0 else Held(workers[1..], t) + Holds(workers[0], t)
  }

  ghost predicate InOrder(s: State) {
    s.dequeued + s.works == s.enqueued
  }

  ghost predicate ConservedAt(s: State, t: Task) {
    multiset(s.dequeued)[t] == multiset(s.finished)[t] + Held(s.workers, t)
  }

  /** Every task taken was either returned from or is being run. */
  ghost predicate Conserved(s: State) {
    forall t :: ConservedAt(s, t)
  }

  ghost predicate Watched(s: State) {
    s.works != [] ==> SomeoneAwake(s) || NotifyComing(s)
  }

  ghost predicate Exits(s: State) {
    && (Exited in s.workers ==> !s.RunFlag())
    && (Blocked in s.workers ==> s.destructor != NotifiedAll)
    && (s.works != [] ==> exists i :: 0 <= i < |s.workers| && s.workers[i] != Exited)
  }

  ghost predicate Inv(s: State) {
    |s.workers| > 0 && InOrder(s) && Conserved(s) && Watched(s) && Exits(s)
  }

  /** All workers were notified: none waits, and none will. */
  ghost predicate Ending(s: State) {
    Inv(s) && s.destructor == NotifiedAll
  }

  // ---------- each step keeps it ----------

  lemma {:induction false} HeldAt(workers: seq<WorkerPc>, i: nat, pc: WorkerPc, t: Task)
    requires i < |workers|
    ensures Held(workers[i := pc], t) + Holds(workers[i], t) == Held(workers, t) + Holds(pc, t)
  {
    var updated := workers[i := pc];
    if i == 0 {
      assert updated[1..] == workers[1..];
    } else {
      HeldAt(workers[1..], i - 1, pc, t);
      assert updated[1..] == workers[1..][i - 1 := pc];
    }
  }

  lemma {:induction false} HeldWoken(workers: seq<WorkerPc>, t: Task)
    ensures Held(AllWoken(workers), t) == Held(workers, t)
  {
    if workers != [] {
      HeldWoken(workers[1..], t);
      assert AllWoken(workers)[1..] == AllWoken(workers[1..]);
    }
  }

  lemma StepKeepsOrder(s: State, step: Step)
    requires InOrder(s) && Enabled(s, step)
    ensures InOrder(Apply(s, step))
  {}

  lemma LookConserves(s: State, i: nat, t: Task)
    requires ConservedAt(s, t) && At(s, i, Looking)
    ensures ConservedAt(Looked(s, i), t)
  {
    HeldAt(s.workers, i, Looked(s, i).workers[i], t);
    hide Held;
  }

  lemma FinishConserves(s: State, i: nat, t: Task)
    requires ConservedAt(s, t) && i < |s.workers| && s.workers[i].Working?
    ensures ConservedAt(Apply(s, Finish(i)), t)
  {
    HeldAt(s.workers, i, Looking, t);
    hide Held;
  }

  lemma WakingHolds(s: State, woken: nat, t: Task)
    requires woken < |s.workers| ==> s.workers[woken] == Blocked
    ensures Held(WokenUp(s, woken).workers, t) == Held(s.workers, t)
  {
    if woken < |s.workers| {
      HeldAt(s.workers, woken, Looking, t);
    }
  }

  lemma StepConserves(s: State, step: Step, t: Task)
    requires ConservedAt(s, t) && Enabled(s, step)
    ensures ConservedAt(Apply(s, step), t)
  {
    hide Held, Looked;
    match step
    case Look(i) => LookConserves(s, i, t);
    case Finish(i) => FinishConserves(s, i, t);
    case TaskEnqueues(i, _) => HeldAt(s.workers, i, Enqueuing(s.workers[i].task), t);
    case TaskNotifies(i, woken) =>
      HeldAt(s.workers, i, Working(s.workers[i].task), t);
      WakingHolds(Moved(s, i, Working(s.workers[i].task)), woken, t);
    case Notify(_, woken) => WakingHolds(s, woken, t);
    case WakeSpuriously(i) => HeldAt(s.workers, i, Looking, t);
    case NotifyAll => HeldWoken(s.workers, t);
    case _ =>
  }

  lemma NotifyLeavesSomeoneAwake(s: State, woken: nat)
    requires Exits(s) && s.works != [] && Picks(s, woken)
    ensures SomeoneAwake(WokenUp(s, woken))
  {
    var i :| 0 <= i < |s.workers| && s.workers[i] != Exited;
    if Blocked in s.workers {
      assert Awake(WokenUp(s, woken).workers[woken]);
    } else {
      assert Awake(WokenUp(s, woken).workers[i]);
    }
  }

  /** A push or a taken task leaves someone who will look again, or a notify to come. */
  lemma StepKeepsWatch(s: State, step: Step)
    requires Inv(s) && Enabled(s, step)
    ensures Watched(Apply(s, step))
  {
    var s' := Apply(s, step);
    match step
    case Enqueue(c, _) =>
      assert CallerOf(s', c) == Pushed;
    case Notify(_, woken) =>
      if s.works != [] {
        NotifyLeavesSomeoneAwake(s, woken);
        assert SomeoneAwake(s');
      }
    case Look(i) =>
      if s'.works != [] {
        assert Awake(s'.workers[i]);
      }
    case Finish(i) => assert Awake(s'.workers[i]);
    case TaskEnqueues(i, _) => assert Awake(s'.workers[i]);
    case TaskNotifies(i, woken) => assert Awake(s'.workers[i]);
    case WakeSpuriously(i) => assert Awake(s'.workers[i]);
    case ClearFlag =>
      if NotifyComing(s) {
        var c :| CallerOf(s, c) == Pushed;
        assert CallerOf(s', c) == Pushed;
      }
    case NotifyAll =>
      if s.works != [] {
        var i :| 0 <= i < |s.workers| && s.workers[i] != Exited;
        assert Awake(s'.workers[i]);
      }
  }

  lemma StepKeepsExits(s: State, step: Step)
    requires Inv(s) && Enabled(s, step)
    ensures Exits(Apply(s, step)) && |Apply(s, step).workers| == |s.workers|
  {
    var s' := Apply(s, step);
    if s'.works != [] {
      match step
      case Enqueue(_, _) => assert s'.workers[0] != Exited;
      case Look(i) => assert s'.workers[i] != Exited;
      case Finish(i) => assert s'.workers[i] != Exited;
      case TaskEnqueues(i, _) => assert s'.workers[i] != Exited;
      case TaskNotifies(i, _) => assert s'.workers[i] != Exited;
      case WakeSpuriously(i) => assert s'.workers[i] != Exited;
      case _ =>
        var i :| 0 <= i < |s.workers| && s.workers[i] != Exited;
        assert s'.workers[i] != Exited;
    }
  }

  lemma StepKeepsInv(s: State, step: Step)
    requires Inv(s) && Enabled(s, step)
    ensures Inv(Apply(s, step)) && |Apply(s, step).workers| == |s.workers|
  {
    StepKeepsOrder(s, step);
    forall t ensures ConservedAt(Apply(s, step), t) {
      StepConserves(s, step, t);
    }
    StepKeepsWatch(s, step);
    StepKeepsExits(s, step);
  }

  lemma {:induction false} RunKeepsInv(s: State, steps: seq<Step>, s': State)
    requires Inv(s) && IsRun(s, steps, s')
    ensures Inv(s') && |s'.workers| == |s.workers|
    decreases |steps|
  {
    if steps != [] {
      StepKeepsInv(s, steps[0]);
      RunKeepsInv(Apply(s, steps[0]), steps[1..], s');
    }
  }

  lemma {:induction false} IdleWorkersHoldNothing(workers: seq<WorkerPc>, t: Task)
    requires forall pc <- workers :: pc == Looking || pc == Exited
    ensures Held(workers, t) == 0
  {
    if workers != [] {
      assert workers[0] in workers && forall pc <- workers[1..] :: pc in workers;
      IdleWorkersHoldNothing(workers[1..], t);
    }
  }

  lemma ReachableInv(n: nat, s: State)
    requires n > 0 && Reachable(n, s)
    ensures Inv(s) && |s.workers| == n && (s.destructor == NotifiedAll ==> Ending(s))
  {
    var steps :| IsRun(Initially(n), steps, s);
    forall t ensures Held(Initially(n).workers, t) == 0 {
      IdleWorkersHoldNothing(Initially(n).workers, t);
    }
    RunKeepsInv(Initially(n), steps, s);
  }

  // ---------- main results ----------

  /** No task waits while every worker waits or is gone and no notify is on its way. */
  lemma NoStrandedTask(n: nat, s: State)
    requires n > 0 && Reachable(n, s)
    requires forall pc <- s.workers :: pc == Blocked || pc == Exited
    requires forall c :: CallerOf(s, c) == Idle
    ensures s.works == []
  {
    ReachableInv(n, s);
    assert forall i :: 0 <= i < |s.workers| ==> s.workers[i] in s.workers;
  }

  /** Tasks leave in the order they came. */
  lemma FirstInFirstOut(n: nat, s: State)
    requires n > 0 && Reachable(n, s)
    ensures s.enqueued == s.dequeued + s.works
  {
    ReachableInv(n, s);
  }

  lemma AllGone(s: State)
    requires Inv(s) && forall pc <- s.workers :: pc == Exited
    ensures s.dequeued == s.enqueued
    ensures multiset(s.finished) == multiset(s.enqueued)
  {
    assert forall i :: 0 <= i < |s.workers| ==> s.workers[i] in s.workers;
    assert s.dequeued + [] == s.dequeued;
    forall t ensures multiset(s.finished)[t] == multiset(s.enqueued)[t] {
      IdleWorkersHoldNothing(s.workers, t);
      assert ConservedAt(s, t);
    }
  }

  /** When all workers are gone, every task ever enqueued has run, and run once. */
  lemma AllTasksRunOnce(n: nat, s: State)
    requires n > 0 && Reachable(n, s)
    requires forall pc <- s.workers :: pc == Exited
    ensures s.dequeued == s.enqueued
    ensures multiset(s.finished) == multiset(s.enqueued)
  {
    ReachableInv(n, s);
    AllGone(s);
  }

  // ---------- the join in the destructor ends ----------

  function Rank(pc: WorkerPc): nat {
    match pc
    case Exited => 0
    case Looking => 1
    case Blocked => 2
    case Working(_) => 2
    case Enqueuing(_) => 3
  }

  function Ranks(workers: seq<WorkerPc>): nat {
    if workers == [] then 0 else Rank(workers[0]) + Ranks(workers[1..])
  }

  function Remaining(s: State): nat {
    3 * |s.works| + Ranks(s.workers)
  }

  lemma {:induction false} RanksAt(workers: seq<WorkerPc>, i: nat, pc: WorkerPc)
    requires i < |workers|
    ensures Ranks(workers[i := pc]) + Rank(workers[i]) == Ranks(workers) + Rank(pc)
  {
    var updated := workers[i := pc];
    if i == 0 {
      assert updated[1..] == workers[1..];
    } else {
      RanksAt(workers[1..], i - 1, pc);
      assert updated[1..] == workers[1..][i - 1 := pc];
    }
  }

  /** A step of a worker that enqueues nothing and is not woken by chance. */
  predicate Ends(step: Step) {
    step.Look? || step.Finish? || step.TaskNotifies?
  }

  lemma EndingStep(s: State, step: Step)
    requires Ending(s) && Enabled(s, step) && Ends(step)
    ensures Ending(Apply(s, step)) && Remaining(Apply(s, step)) < Remaining(s)
  {
    StepKeepsInv(s, step);
    hide Inv;
    assert Blocked !in s.workers;
    match step
    case Look(i) => RanksAt(s.workers, i, Looked(s, i).workers[i]);
    case Finish(i) => RanksAt(s.workers, i, Looking);
    case TaskNotifies(i, _) => RanksAt(s.workers, i, Working(s.workers[i].task));
  }

  /** The step that a worker which is not gone can take. */
  function NextOf(s: State, i: nat): Step
    requires i < |s.workers|
  {
    match s.workers[i]
    case Looking => Look(i)
    case Enqueuing(_) => TaskNotifies(i, |s.workers|)
    case _ => Finish(i)
  }

  /**
    The joins return: once all workers are notified, every run of worker steps that
    enqueue nothing is no longer than the work remaining, and as long as a worker
    is not gone it has such a step to take.
   */
  lemma {:induction false} JoinEnds(s: State, steps: seq<Step>, s': State)
    requires Ending(s) && IsRun(s, steps, s') && forall step <- steps :: Ends(step)
    ensures Ending(s') && |steps| + Remaining(s') <= Remaining(s)
    ensures forall i: nat | i < |s'.workers| && s'.workers[i] != Exited ::
              Enabled(s', NextOf(s', i)) && Ends(NextOf(s', i))
    decreases |steps|
  {
    if steps != [] {
      EndingStep(s, steps[0]);
      JoinEnds(Apply(s, steps[0]), steps[1..], s');
    }
  }

  /** Such a run does reach the end, with every task ever enqueued run once. */
  lemma {:induction false} JoinReached(s: State) returns (steps: seq<Step>, s': State)
    requires Ending(s)
    ensures IsRun(s, steps, s') && forall step <- steps :: Ends(step)
    ensures forall pc <- s'.workers :: pc == Exited
    ensures s'.enqueued == s.enqueued && multiset(s'.finished) == multiset(s.enqueued)
    decreases Remaining(s)
  {
    if i: nat :| i < |s.workers| && s.workers[i] != Exited {
      JoinEnds(s, [], s);
      var step := NextOf(s, i);
      EndingStep(s, step);
      var more;
      more, s' := JoinReached(Apply(s, step));
      steps := [step] + more;
      assert steps[1..] == more;
    } else {
      steps, s' := [], s;
      AllGone(s);
    }
  }

  // ---------- a pool without workers ----------

  /** With no workers (a count of zero or less) nothing is ever taken. */
  lemma {:induction false} NoWorkersNoWork(s: State, steps: seq<Step>, s': State)
    requires s.workers == [] && IsRun(s, steps, s')
    ensures s'.workers == [] && s'.dequeued == s.dequeued && s'.finished == s.finished
    decreases |steps|
  {
    if steps != [] {
      NoWorkersNoWork(Apply(s, steps[0]), steps[1..], s');
    }
  }

  // ---------- the state as a function of the history ----------

  function Pushes(before: seq<Task>, step: Step): seq<Task> {
    match step
    case Enqueue(_, task) => before + [task]
    case TaskEnqueues(_, task) => before + [task]
    case _ => before
  }

  /** The tasks that a history enqueues, in order. */
  function PushesOf(steps: seq<Step>): seq<Task> {
    if steps == [] then [] else Pushes(PushesOf(steps[..|steps| - 1]), steps[|steps| - 1])
  }

  /** How many looks found a task. */
  function TakenOf(steps: seq<Step>): nat {
    if steps == [] then 0
    else
      var before := steps[..|steps| - 1];
      var n := TakenOf(before);
      if steps[|steps| - 1].Look? && n < |PushesOf(before)| then n + 1 else n
  }

  function DestructorAfter(steps: seq<Step>): Destructor {
    if NotifyAll in steps then NotifiedAll else if ClearFlag in steps then FlagCleared else Alive
  }

  /** The destructor has not started. */
  predicate RunsOn(steps: seq<Step>) {
    ClearFlag !in steps
  }

  /** Where an enqueuing thread is after a step, its own or not. */
  function CallerMoves(pc: CallerPc, step: Step, c: nat): CallerPc {
    match step
    case Enqueue(d, _) => if d == c then Pushed else pc
    case Notify(d, _) => if d == c then Idle else pc
    case _ => pc
  }

  function CallerAfter(steps: seq<Step>, c: nat): CallerPc {
    if steps == [] then Idle else CallerMoves(CallerAfter(steps[..|steps| - 1], c), steps[|steps| - 1], c)
  }

  /** Where a worker is after a step, given the queue and the flag that a look finds. */
  function WorkerMoves(pc: WorkerPc, step: Step, i: nat, works: seq<Task>, running: bool): WorkerPc {
    match step
    case Look(j) =>
      if j != i then pc else if works != [] then Working(works[0]) else if running then Blocked else Exited
    case Finish(j) => if j == i then Looking else pc
    case TaskEnqueues(j, _) => if j == i && pc.Working? then Enqueuing(pc.task) else pc
    case TaskNotifies(j, woken) =>
      if woken == i then Looking else if j == i && pc.Enqueuing? then Working(pc.task) else pc
    case Notify(_, woken) => if woken == i then Looking else pc
    case WakeSpuriously(j) => if j == i then Looking else pc
    case NotifyAll => if pc == Blocked then Looking else pc
    case _ => pc
  }

  function WorkerAfter(steps: seq<Step>, i: nat): WorkerPc {
    if steps == [] then Looking
    else
      var before := steps[..|steps| - 1];
      var n := if TakenOf(before) <= |PushesOf(before)| then TakenOf(before) else 0;
      WorkerMoves(WorkerAfter(before, i), steps[|steps| - 1], i, PushesOf(before)[n..], RunsOn(before))
  }

  /** The tasks that a history returns from, in order. */
  function ReturnsOf(steps: seq<Step>): seq<Task> {
    if steps == [] then []
    else
      var before, last := steps[..|steps| - 1], steps[|steps| - 1];
      if last.Finish? && WorkerAfter(before, last.worker).Working?
      then ReturnsOf(before) + [WorkerAfter(before, last.worker).task]
      else ReturnsOf(before)
  }

  ghost predicate QueueDetermined(steps: seq<Step>, s: State) {
    && s.enqueued == PushesOf(steps) && TakenOf(steps) <= |s.enqueued|
    && s.dequeued == s.enqueued[..TakenOf(steps)] && s.works == s.enqueued[TakenOf(steps)..]
  }

  /** The whole state, from what the threads did. */
  ghost predicate Determined(steps: seq<Step>, s: State) {
    && QueueDetermined(steps, s) && s.destructor == DestructorAfter(steps) && s.finished == ReturnsOf(steps)
    && (forall c :: CallerOf(s, c) == CallerAfter(steps, c))
    && (forall i: nat | i < |s.workers| :: s.workers[i] == WorkerAfter(steps, i))
  }

  lemma {:induction false} LastStep(s: State, steps: seq<Step>, s': State) returns (mid: State)
    requires steps != [] && IsRun(s, steps, s')
    ensures IsRun(s, steps[..|steps| - 1], mid) && Enabled(mid, steps[|steps| - 1])
    ensures Apply(mid, steps[|steps| - 1]) == s'
    decreases |steps|
  {
    if |steps| == 1 {
      mid := s;
    } else {
      hide Enabled, Apply;
      mid := LastStep(Apply(s, steps[0]), steps[1..], s');
      assert steps[1..][..|steps| - 2] == steps[..|steps| - 1][1..];
      assert steps[1..][|steps| - 2] == steps[|steps| - 1];
    }
  }

  lemma Slices<T>(a: seq<T>, x: T, n: nat)
    requires n <= |a|
    ensures (a + [x])[n..] == a[n..] + [x] && (a + [x])[..n] == a[..n]
    ensures n < |a| ==> a[n..][0] == a[n] && a[n..][1..] == a[n + 1..] && a[..n + 1] == a[..n] + [a[n]]
  {}

  lemma QueueLast(before: seq<Step>, step: Step)
    ensures PushesOf(before + [step]) == Pushes(PushesOf(before), step)
    ensures TakenOf(before + [step]) ==
              TakenOf(before) + if step.Look? && TakenOf(before) < |PushesOf(before)| then 1 else 0
  {
    var steps := before + [step];
    assert steps[..|steps| - 1] == before && steps[|steps| - 1] == step;
    hide Pushes;
  }

  lemma StepDeterminesQueue(before: seq<Step>, s: State, step: Step)
    requires QueueDetermined(before, s) && Enabled(s, step)
    ensures QueueDetermined(before + [step], Apply(s, step))
  {
    QueueLast(before, step);
    var n, s' := TakenOf(before), Apply(s, step);
    hide PushesOf, TakenOf, AllWoken;
    if s'.enqueued != s.enqueued {
      Slices(s.enqueued, s'.enqueued[|s.enqueued|], n);
    } else if step.Look? && n < |s.enqueued| {
      Slices(s.enqueued, s.enqueued[n], n);
    }
  }

  lemma CallerLast(before: seq<Step>, step: Step, c: nat)
    ensures CallerAfter(before + [step], c) == CallerMoves(CallerAfter(before, c), step, c)
  {
    var steps := before + [step];
    assert steps[..|steps| - 1] == before && steps[|steps| - 1] == step;
    hide CallerMoves;
  }

  lemma StepDeterminesCaller(before: seq<Step>, s: State, step: Step, c: nat)
    requires CallerOf(s, c) == CallerAfter(before, c) && Enabled(s, step)
    ensures CallerOf(Apply(s, step), c) == CallerAfter(before + [step], c)
  {
    CallerLast(before, step, c);
    hide CallerAfter, AllWoken;
  }

  lemma WorkerLast(before: seq<Step>, s: State, step: Step, i: nat)
    requires QueueDetermined(before, s)
    ensures WorkerAfter(before + [step], i) ==
              WorkerMoves(WorkerAfter(before, i), step, i, s.works, RunsOn(before))
    ensures ReturnsOf(before + [step]) ==
              ReturnsOf(before) + if step.Finish? && WorkerAfter(before, step.worker).Working?
                                  then [WorkerAfter(before, step.worker).task] else []
  {
    var steps := before + [step];
    assert steps[..|steps| - 1] == before && steps[|steps| - 1] == step;
    hide WorkerMoves, PushesOf, TakenOf;
  }

  lemma StepDeterminesWorker(before: seq<Step>, s: State, step: Step, i: nat)
    requires QueueDetermined(before, s) && Enabled(s, step) && i < |s.workers|
    requires s.workers[i] == WorkerAfter(before, i) && (s.RunFlag() <==> RunsOn(before))
    ensures |Apply(s, step).workers| == |s.workers| && Apply(s, step).workers[i] == WorkerAfter(before + [step], i)
  {
    hide WorkerAfter, ReturnsOf;
    WorkerLast(before, s, step, i);
    hide QueueDetermined;
  }

  lemma DestructorLast(before: seq<Step>, s: State, step: Step)
    requires s.destructor == DestructorAfter(before) && Enabled(s, step)
    requires NotifyAll in before ==> ClearFlag in before
    ensures Apply(s, step).destructor == DestructorAfter(before + [step])
    ensures s.RunFlag() <==> RunsOn(before)
    ensures NotifyAll in before + [step] ==> ClearFlag in before + [step]
  {}

  lemma StepDeterminesReturns(before: seq<Step>, s: State, step: Step)
    requires QueueDetermined(before, s) && Enabled(s, step) && s.finished == ReturnsOf(before)
    requires forall i: nat | i < |s.workers| :: s.workers[i] == WorkerAfter(before, i)
    ensures |Apply(s, step).workers| == |s.workers| && Apply(s, step).finished == ReturnsOf(before + [step])
  {
    hide WorkerAfter, ReturnsOf, QueueDetermined;
    WorkerLast(before, s, step, 0);
  }

  lemma StepDetermines(before: seq<Step>, s: State, step: Step)
    requires Determined(before, s) && Enabled(s, step) && (NotifyAll in before ==> ClearFlag in before)
    ensures Determined(before + [step], Apply(s, step)) && |Apply(s, step).workers| == |s.workers|
    ensures NotifyAll in before + [step] ==> ClearFlag in before + [step]
  {
    hide QueueDetermined, Apply, Enabled, CallerOf, CallerAfter, WorkerAfter, ReturnsOf, DestructorAfter, RunsOn;
    var s' := Apply(s, step);
    StepDeterminesQueue(before, s, step);
    DestructorLast(before, s, step);
    StepDeterminesReturns(before, s, step);
    forall c ensures CallerOf(s', c) == CallerAfter(before + [step], c) {
      StepDeterminesCaller(before, s, step, c);
    }
    forall i: nat | i < |s'.workers| ensures s'.workers[i] == WorkerAfter(before + [step], i) {
      StepDeterminesWorker(before, s, step, i);
    }
  }

  /**
    Over every run: the tasks enqueued, taken, queued and returned from, and where
    every thread is, are those of the history of steps.
   */
  lemma {:induction false} HistoryDetermines(n: nat, steps: seq<Step>, s: State)
    requires IsRun(Initially(n), steps, s)
    ensures Determined(steps, s) && |s.workers| == n
    ensures NotifyAll in steps ==> ClearFlag in steps
    decreases |steps|
  {
    if steps != [] {
      var before := steps[..|steps| - 1];
      var mid := LastStep(Initially(n), steps, s);
      assert steps == before + [steps[|steps| - 1]];
      HistoryDetermines(n, before, mid);
      hide Determined, IsRun, Enabled, Apply;
      StepDetermines(before, mid, steps[|steps| - 1]);
    }
  }

  // ---------- nobody is kept from a step ----------

  /** A thread may enqueue while the pool runs; a notify wakes any worker that waits, and none only if none does. */
  lemma NobodyIsStuck(s: State, c: nat, task: Task, i: nat)
    requires i < |s.workers|
    ensures CallerOf(s, c) == Idle && s.RunFlag() ==> Enabled(s, Enqueue(c, task))
    ensures CallerOf(s, c) == Pushed && s.workers[i] == Blocked ==> Enabled(s, Notify(c, i))
    ensures CallerOf(s, c) == Pushed && Blocked !in s.workers ==> Enabled(s, Notify(c, |s.workers|))
    ensures match s.workers[i]
            case Looking => Enabled(s, Look(i))
            case Blocked => Enabled(s, WakeSpuriously(i))
            case Working(_) => Enabled(s, Finish(i)) && Enabled(s, TaskEnqueues(i, task))
            case Enqueuing(_) => exists woken :: Enabled(s, TaskNotifies(i, woken))
            case Exited => true
  {
    if s.workers[i].Enqueuing? {
      if Blocked in s.workers {
        var j :| 0 <= j < |s.workers| && s.workers[j] == Blocked;
        assert Enabled(s, TaskNotifies(i, j));
      } else {
        assert Enabled(s, TaskNotifies(i, |s.workers|));
      }
    }
  }
}
