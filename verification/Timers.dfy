/**
  The timer queue (netlib/net/TimerQueue.cc, Timer.cc): two ordered indexes over
  timers owned by address, batches of expired timers whose callbacks add and
  cancel arbitrarily, re-arming and deletion.  Addresses are reused freely.
 */
module Timers {

  const UINTPTR_MAX := 0xFFFF_FFFF_FFFF_FFFF
  const MICROSECONDS_PER_SECOND := 1000000

  /** The address of an allocated timer; no object lives at the last address. */
  type Addr = a: nat | a < UINTPTR_MAX

  datatype Option<T> = None | Some(value: T)

  /** Times are microseconds since the epoch, intervals are seconds. */
  datatype Timer = Timer(expiration: int, interval: real, sequence: nat) {
    predicate Repeat() { interval > 0.0 }

    /** `restart` of a repeating timer: `now` plus the interval, truncated to microseconds. */
    function Restarted(now: int): (t: Timer)
      requires Repeat()
      ensures t.sequence == sequence && t.interval == interval && t.expiration >= now
      ensures 0.0 <= interval * MICROSECONDS_PER_SECOND as real - (t.expiration - now) as real < 1.0
    {
      this.(expiration := now + (interval * MICROSECONDS_PER_SECOND as real).Floor)
    }
  }

  /** An element of `timers_`. */
  datatype Entry = Entry(when: int, addr: Addr)

  /** An element of `activeTimers_` and `cancelingTimers_`, and the content of a TimerId. */
  datatype ActiveTimer = ActiveTimer(addr: Addr, sequence: nat)

  /** `addTimer` and `cancel` as another thread calls them; `at` is the address the allocator returns. */
  datatype Submission = Submit(at: Addr, when: int, interval: real) | SubmitCancel(id: ActiveTimer)

  /** What a callback may do, and what other threads do in the meantime. */
  datatype Op = Add(at: Addr, when: int, interval: real) | Cancel(id: ActiveTimer) | Elsewhere(what: Submission)

  /** A closure handed to `runInLoop` by another thread. */
  datatype Closure = AddInLoop(addr: Addr) | CancelInLoop(id: ActiveTimer)

  // ---------- the order of std::set<Entry> ----------

  predicate Less(a: Entry, b: Entry) {
    a.when < b.when || (a.when == b.when && a.addr < b.addr)
  }

  ghost predicate IsFirst(s: set<Entry>, e: Entry) {
    e in s && forall x <- s :: x == e || Less(e, x)
  }

  lemma {:induction false} FirstExists(s: set<Entry>)
    requires s != {}
    ensures exists e :: IsFirst(s, e)
  {
    var x :| x in s;
    if s == {x} {
      assert IsFirst(s, x);
    } else {
      FirstExists(s - {x});
      var e :| IsFirst(s - {x}, e);
      var least := if Less(x, e) then x else e;
      forall y <- s ensures y == least || Less(least, y) {
        assert y == x || y in s - {x};
      }
      assert IsFirst(s, least);
    }
  }

  /** `*begin()`. */
  ghost function First(s: set<Entry>): (e: Entry)
    requires s != {}
    ensures IsFirst(s, e)
  {
    FirstExists(s);
    var e :| IsFirst(s, e); e
  }

  function Addrs(es: seq<Entry>): set<Addr> {
    set e <- es :: e.addr
  }

  ghost predicate Distinct(es: seq<Entry>) {
    forall i, j :: 0 <= i < j < |es| ==> es[i].addr != es[j].addr
  }

  lemma AddrsStep(es: seq<Entry>, i: nat)
    requires i < |es| && Distinct(es)
    ensures es[i].addr in Addrs(es[i..]) && Addrs(es[i + 1..]) == Addrs(es[i..]) - {es[i].addr}
  {}

  method Begin(s: set<Entry>) returns (e: Entry)
    requires s != {}
    ensures e == First(s)
  {
    FirstExists(s);
    e :| e in s && forall x <- s :: x == e || Less(e, x);
    var f := First(s);
    assert IsFirst(s, f);
    assert f == e || Less(e, f);
  }

  /** The entries below the sentry (now, UINTPTR_MAX): no address is that high, so all that are due. */
  function Due(s: set<Entry>, now: int): set<Entry> {
    set e <- s | e.when <= now
  }

  /** The elements in iteration order. */
  ghost predicate Enumerates(es: seq<Entry>, s: set<Entry>) {
    && (forall i, j :: 0 <= i < j < |es| ==> Less(es[i], es[j]))
    && (forall e :: e in es <==> e in s)
  }

  /** `std::copy` from `begin()`: the elements one by one, least first. */
  method Copy(s: set<Entry>) returns (es: seq<Entry>)
    ensures Enumerates(es, s) && |es| == |s|
  {
    es := [];
    var rest := s;
    while rest != {}
      invariant rest <= s && Enumerates(es, s - rest) && |es| == |s| - |rest|
      invariant forall e <- es, x <- rest :: Less(e, x)
    {
      var e := Begin(rest);
      es := es + [e];
      rest := rest - {e};
    }
    assert s - rest == s;
  }

  // ---------- the batch, as the source decides it ----------

  function IdOf(heap: map<Addr, Timer>, a: Addr): ActiveTimer
    requires a in heap
  {
    ActiveTimer(a, heap[a].sequence)
  }

  function EntryOf(heap: map<Addr, Timer>, a: Addr): Entry
    requires a in heap
  {
    Entry(heap[a].expiration, a)
  }

  /** `timers_` holds exactly the queued timers, under their expiration. */
  ghost predicate ByTime(heap: map<Addr, Timer>, queued: set<Addr>, timers: set<Entry>)
    requires queued <= heap.Keys
  {
    forall e :: e in timers <==> e.addr in queued && EntryOf(heap, e.addr) == e
  }

  /** `activeTimers_` holds exactly the queued timers, under their sequence number. */
  ghost predicate BySequence(heap: map<Addr, Timer>, queued: set<Addr>, active: set<ActiveTimer>)
    requires queued <= heap.Keys
  {
    forall t :: t in active <==> t.addr in queued && IdOf(heap, t.addr) == t
  }

  /** The indexes depend on the queued timers only. */
  lemma IndexFrame(heap: map<Addr, Timer>, heap': map<Addr, Timer>, queued: set<Addr>,
                   timers: set<Entry>, active: set<ActiveTimer>)
    requires queued <= heap.Keys && queued <= heap'.Keys
    requires forall a <- queued :: heap'[a] == heap[a]
    ensures ByTime(heap, queued, timers) == ByTime(heap', queued, timers)
    ensures BySequence(heap, queued, active) == BySequence(heap', queued, active)
  {}

  lemma CardinalityOfDifference<T>(s: set<T>, t: set<T>)
    requires t <= s
    ensures |s - t| == |s| - |t|
  {}

  /** Taking the due entries out of `timers_` is taking their timers out of the queue. */
  lemma DueLeaves(heap: map<Addr, Timer>, queued: set<Addr>, timers: set<Entry>, expired: seq<Entry>, now: int)
    requires queued <= heap.Keys && ByTime(heap, queued, timers)
    requires forall e :: e in expired <==> e in Due(timers, now)
    ensures ByTime(heap, queued - Addrs(expired), timers - Due(timers, now))
  {}

  /** What the callbacks do, one list of operations per expired timer. */
  type Script = seq<seq<Op>>

  function OpsOf(script: Script, i: nat): seq<Op> {
    if i < |script| then script[i] else []
  }

  /** One of the first `n` callbacks cancels this id. */
  ghost predicate CancelledIn(script: Script, n: nat, id: ActiveTimer) {
    n > 0 && (CancelledIn(script, n - 1, id) || Cancel(id) in OpsOf(script, n - 1))
  }

  /**
    Between two states the descriptor was set to the time of the earliest timer,
    or left alone while the earliest timer did not move forward.
   */
  ghost predicate KeptArmed(ts: set<Entry>, armed: Option<int>, ts': set<Entry>, armed': Option<int>) {
    || ts' == {}
    || armed' == Some(First(ts').when)
    || (armed' == armed && ts != {} && First(ts).when <= First(ts').when)
  }

  /** The two indexes describe the same timers, with the expiration and sequence those have. */
  ghost predicate AgreeIn(heap: map<Addr, Timer>, queued: set<Addr>, timers: set<Entry>, active: set<ActiveTimer>) {
    && queued <= heap.Keys
    && ByTime(heap, queued, timers) && BySequence(heap, queued, active)
    && |timers| == |active|
  }

  /** Every allocated timer is in exactly one place. */
  ghost predicate OwnedIn(heap: map<Addr, Timer>, pending: set<Addr>, queued: set<Addr>, batch: set<Addr>) {
    && (forall a :: a in heap <==> a in pending || a in queued || a in batch)
    && (forall a <- pending :: a !in queued && a !in batch)
    && (forall a <- queued :: a !in batch)
  }

  lemma OwnedActive(heap: map<Addr, Timer>, pending: set<Addr>, queued: set<Addr>, batch: set<Addr>, a: Addr)
    requires OwnedIn(heap, pending, queued, batch) && a in pending
    ensures OwnedIn(heap, pending - {a}, queued + {a}, batch)
  {}

  lemma OwnedNew(heap: map<Addr, Timer>, pending: set<Addr>, queued: set<Addr>, batch: set<Addr>, at: Addr, t: Timer)
    requires OwnedIn(heap, pending, queued, batch) && at !in heap
    ensures OwnedIn(heap[at := t], pending + {at}, queued, batch)
  {}

  lemma NotDueStays(heap: map<Addr, Timer>, queued: set<Addr>, queued': set<Addr>, timers: set<Entry>,
                    timers': set<Entry>, active: set<ActiveTimer>, active': set<ActiveTimer>,
                    batch: set<Addr>, now: int)
    requires AgreeIn(heap, queued, timers, active) && AgreeIn(heap, queued', timers', active')
    requires queued' == queued - batch
    requires forall a <- heap :: heap[a].expiration > now ==> a !in batch
    ensures forall t <- active :: t.addr in heap && (heap[t.addr].expiration > now ==> t in active')
  {
    hide ByTime;
  }

  lemma OwnedMove(heap: map<Addr, Timer>, pending: set<Addr>, queued: set<Addr>, batch: set<Addr>, a: Addr)
    requires OwnedIn(heap, pending, queued, batch) && a in batch
    ensures OwnedIn(heap, pending, queued + {a}, batch - {a}) && a in heap && a !in queued
  {}

  lemma AgreeNew(heap: map<Addr, Timer>, queued: set<Addr>, timers: set<Entry>, active: set<ActiveTimer>,
                 at: Addr, t: Timer)
    requires AgreeIn(heap, queued, timers, active) && at !in heap
    ensures AgreeIn(heap[at := t], queued, timers, active)
  {
    IndexFrame(heap, heap[at := t], queued, timers, active);
    hide ByTime, BySequence;
  }

  /**
    What is known of the numbers given so far: which are deleted, which do not repeat
    and how many there are; and every closure ever handed in.
   */
  datatype Ledger = Ledger(freed: set<nat>, oneShot: set<nat>, created: nat, submitted: seq<Closure>)

  /** Deleted stays deleted, numbers go up, and a timer's kind is settled when it is created. */
  ghost predicate Onward(a: Ledger, b: Ledger) {
    && a.freed <= b.freed && a.created <= b.created && a.submitted <= b.submitted
    && forall q | q < a.created :: q in b.oneShot <==> q in a.oneShot
  }

  lemma OnwardOn(a: Ledger, b: Ledger, c: Ledger)
    requires Onward(a, b) && Onward(b, c)
    ensures Onward(a, c)
  {}

  function Numbered(a: Ledger, repeats: bool): Ledger {
    a.(created := a.created + 1, oneShot := if repeats then a.oneShot else a.oneShot + {a.created})
  }

  function HandedIn(a: Ledger, closure: Closure): Ledger {
    a.(submitted := a.submitted + [closure])
  }

  function Deleted(a: Ledger, q: nat): Ledger {
    a.(freed := a.freed + {q})
  }

  lemma OnwardNew(a: Ledger, repeats: bool, q: nat)
    ensures Onward(a, Numbered(a, repeats)) && Onward(a, Deleted(a, q)) && Onward(a, a)
  {}

  ghost predicate Kinds(heap: map<Addr, Timer>, ledger: Ledger) {
    && (forall a <- heap :: heap[a].sequence in ledger.oneShot <==> !heap[a].Repeat())
    && (forall q <- ledger.oneShot :: q < ledger.created)
  }

  lemma KindsNew(heap: map<Addr, Timer>, ledger: Ledger, at: Addr, t: Timer)
    requires Kinds(heap, ledger) && t.sequence == ledger.created
    requires forall a <- heap :: heap[a].sequence < ledger.created
    ensures Kinds(heap[at := t], Numbered(ledger, t.Repeat()))
  {}

  lemma KindsQueue(heap: map<Addr, Timer>, a: Ledger, closure: Closure)
    requires Kinds(heap, a)
    ensures Kinds(heap, HandedIn(a, closure)) && Onward(a, HandedIn(a, closure))
  {}

  lemma KindsLess(heap: map<Addr, Timer>, a: Addr, ledger: Ledger, q: nat)
    requires Kinds(heap, ledger)
    ensures Kinds(heap - {a}, Deleted(ledger, q))
  {}

  lemma KindsSame(heap: map<Addr, Timer>, a: Addr, t: Timer, ledger: Ledger)
    requires Kinds(heap, ledger) && a in heap && t.sequence == heap[a].sequence && t.interval == heap[a].interval
    ensures Kinds(heap[a := t], ledger)
  {}

  /** Every timer ever created is allocated, under its own number, or deleted. */
  ghost predicate CountedIn(heap: map<Addr, Timer>, live: map<nat, Addr>, freed: set<nat>, created: nat) {
    && (forall a <- heap :: heap[a].sequence in live && live[heap[a].sequence] == a)
    && (forall q <- live :: live[q] in heap && heap[live[q]].sequence == q)
    && (forall q <- live :: q < created)
    && (forall q <- freed :: q < created && q !in live)
    && (forall q: nat | q < created :: q in live || q in freed)
  }

  lemma CountedNew(heap: map<Addr, Timer>, live: map<nat, Addr>, freed: set<nat>, created: nat, at: Addr, t: Timer)
    requires CountedIn(heap, live, freed, created) && at !in heap && t.sequence == created
    ensures CountedIn(heap[at := t], live[created := at], freed, created + 1)
    ensures forall a <- heap :: heap[a].sequence < created
  {}

  /** The timers waiting to be added are those of the closures not yet called, one each. */
  ghost predicate Waiting(closures: seq<Closure>, pending: set<Addr>) {
    && (forall a: Addr :: a in pending <==> AddInLoop(a) in closures)
    && (forall i, j :: 0 <= i < j < |closures| && closures[i].AddInLoop? ==> closures[i] != closures[j])
  }

  lemma Called(closures: seq<Closure>, pending: set<Addr>)
    requires Waiting(closures, pending) && closures != []
    ensures closures[0].AddInLoop? ==>
              closures[0].addr in pending && Waiting(closures[1..], pending - {closures[0].addr})
    ensures !closures[0].AddInLoop? ==> Waiting(closures[1..], pending)
  {}

  lemma Submitted(closures: seq<Closure>, pending: set<Addr>, a: Addr)
    requires Waiting(closures, pending) && a !in pending
    ensures Waiting(closures + [AddInLoop(a)], pending + {a})
  {}

  lemma SubmittedCancel(closures: seq<Closure>, pending: set<Addr>, id: ActiveTimer)
    requires Waiting(closures, pending)
    ensures Waiting(closures + [CancelInLoop(id)], pending)
  {}

  // ---------- the queue as one table of timers ----------

  /**
    The same queue without indexes, numbers of owners or batches: the timers by
    address, which of them wait for the loop and which are active, the closures the
    loop has to call, the cancellations of the last firing and the time the
    descriptor is set to.
   */
  datatype Table = Table(heap: map<Addr, Timer>, pending: set<Addr>, queued: set<Addr>, created: nat,
                         closures: seq<Closure>, canceling: set<ActiveTimer>, armed: Option<int>)

  const EMPTY_TABLE := Table(map[], {}, {}, 0, [], {}, None)

  /** The timer asked for, at a free address, under the next number. */
  function Created(v: Table, at: Addr, when: int, interval: real): Table {
    v.(heap := v.heap[at := Timer(when, interval, v.created)], created := v.created + 1)
  }

  /** No active timer is due by this time. */
  predicate IsEarliest(v: Table, when: int) {
    forall a <- v.queued :: a in v.heap ==> when < v.heap[a].expiration
  }

  /** The timer becomes active, and the descriptor is set only if it is the new earliest. */
  function Activated(v: Table, a: Addr): Table {
    v.(queued := v.queued + {a},
       armed := if a in v.heap && IsEarliest(v, v.heap[a].expiration) then Some(v.heap[a].expiration) else v.armed)
  }

  lemma EarliestIs(v: Table, timers: set<Entry>, when: int)
    requires v.queued <= v.heap.Keys && ByTime(v.heap, v.queued, timers)
    ensures IsEarliest(v, when) <==> timers == {} || when < First(timers).when
  {
    if timers != {} {
      assert First(timers) in timers;
      forall a | a in v.queued ensures First(timers).when <= v.heap[a].expiration {
        assert EntryOf(v.heap, a) in timers;
      }
    } else {
      forall a ensures a !in v.queued {
        assert a in v.queued ==> EntryOf(v.heap, a) in timers;
      }
    }
  }

  lemma ActivatedIs(v: Table, timers: set<Entry>, a: Addr, earliestChanged: bool)
    requires v.queued <= v.heap.Keys && ByTime(v.heap, v.queued, timers) && a in v.heap
    requires earliestChanged <==> timers == {} || v.heap[a].expiration < First(timers).when
    ensures Activated(v, a) ==
              v.(queued := v.queued + {a}, armed := if earliestChanged then Some(v.heap[a].expiration) else v.armed)
  {
    EarliestIs(v, timers, v.heap[a].expiration);
    hide IsEarliest, ByTime;
  }

  predicate IsActive(v: Table, id: ActiveTimer) {
    id.addr in v.queued && id.addr in v.heap && v.heap[id.addr].sequence == id.sequence
  }

  /** A cancellation in the loop; a firing remembers those that find nothing. */
  function Cancelled(v: Table, id: ActiveTimer, firing: bool): Table {
    if IsActive(v, id) then v.(heap := v.heap - {id.addr}, queued := v.queued - {id.addr})
    else if firing then v.(canceling := v.canceling + {id})
    else v
  }

  lemma CancelledIs(v: Table, v': Table, id: ActiveTimer, firing: bool, found: bool)
    requires found <==> IsActive(v, id)
    requires v' == v.(heap := v'.heap, queued := v'.queued, canceling := v'.canceling)
    requires found ==>
               v'.heap == v.heap - {id.addr} && v'.queued == v.queued - {id.addr} && v'.canceling == v.canceling
    requires !found ==>
               v'.heap == v.heap && v'.queued == v.queued && v'.canceling == v.canceling + if firing then {id} else {}
    ensures v' == Cancelled(v, id, firing)
  {}

  function Submitting(v: Table, what: Submission): Table {
    match what
    case Submit(at, when, interval) =>
      if at in v.heap then v
      else Created(v, at, when, interval).(pending := v.pending + {at}, closures := v.closures + [AddInLoop(at)])
    case SubmitCancel(id) => v.(closures := v.closures + [CancelInLoop(id)])
  }

  function Did(v: Table, op: Op): Table {
    match op
    case Add(at, when, interval) =>
      if at in v.heap then v else Activated(Created(v, at, when, interval), at)
    case Cancel(id) => Cancelled(v, id, true)
    case Elsewhere(what) => Submitting(v, what)
  }

  function DidAll(v: Table, ops: seq<Op>): Table {
    if ops == [] then v else Did(DidAll(v, ops[..|ops| - 1]), ops[|ops| - 1])
  }

  lemma DidNone(v: Table)
    ensures DidAll(v, []) == v
  {}

  lemma DidOne(v: Table, ops: seq<Op>, i: nat)
    requires i < |ops|
    ensures DidAll(v, ops[..i + 1]) == Did(DidAll(v, ops[..i]), ops[i])
  {
    assert ops[..i + 1][..i] == ops[..i];
  }

  /** The first `n` callbacks of a firing. */
  function CalledBack(v: Table, script: Script, n: nat): Table {
    if n == 0 then v else DidAll(CalledBack(v, script, n - 1), OpsOf(script, n - 1))
  }

  /** A timer of the batch that will be active again. */
  predicate Stays(heap: map<Addr, Timer>, canceling: set<ActiveTimer>, a: Addr) {
    a in heap && heap[a].Repeat() && IdOf(heap, a) !in canceling
  }

  function ResetHeap(heap: map<Addr, Timer>, canceling: set<ActiveTimer>, done: set<Addr>, now: int): map<Addr, Timer> {
    map a | a in heap && (a !in done || Stays(heap, canceling, a)) ::
      if a in done then heap[a].Restarted(now) else heap[a]
  }

  function ResetQueued(heap: map<Addr, Timer>, canceling: set<ActiveTimer>, done: set<Addr>, queued: set<Addr>)
    : set<Addr>
  {
    queued + set a | a in done && Stays(heap, canceling, a)
  }

  /** The timers that are due, in time order. */
  ghost function InTimeOrder(s: set<Entry>): (es: seq<Entry>)
    ensures forall e :: e in es <==> e in s
  {
    if s == {} then [] else [First(s)] + InTimeOrder(s - {First(s)})
  }

  function DueOf(v: Table, now: int): set<Addr> {
    set a | a in v.queued && a in v.heap && v.heap[a].expiration <= now
  }

  function DueEntries(v: Table, now: int): set<Entry> {
    set a | a in DueOf(v, now) :: EntryOf(v.heap, a)
  }

  /** Which timers are due does not depend on the descriptor. */
  lemma DueAnyway(v: Table, now: int, armed: Option<int>)
    ensures DueOf(v.(armed := armed), now) == DueOf(v, now)
    ensures DueEntries(v.(armed := armed), now) == DueEntries(v, now)
  {}

  function NumbersOf(heap: map<Addr, Timer>, es: seq<Entry>): seq<nat>
    requires forall e <- es :: e.addr in heap
  {
    seq(|es|, i requires 0 <= i < |es| => heap[es[i].addr].sequence)
  }

  /** What the descriptor is set to at the end: the earliest time, if there is a valid one. */
  ghost function NextArmed(heap: map<Addr, Timer>, queued: set<Addr>, armed: Option<int>): Option<int> {
    var ts := set a | a in queued && a in heap :: EntryOf(heap, a);
    if ts != {} && First(ts).when > 0 then Some(First(ts).when) else armed
  }

  lemma NextArmedIs(heap: map<Addr, Timer>, queued: set<Addr>, timers: set<Entry>, armed: Option<int>)
    requires queued <= heap.Keys && ByTime(heap, queued, timers)
    ensures NextArmed(heap, queued, armed) ==
              if timers != {} && First(timers).when > 0 then Some(First(timers).when) else armed
  {
    assert timers == set a | a in queued && a in heap :: EntryOf(heap, a);
  }

  /**
    A firing: a callback for each due timer, then the repeating ones not cancelled
    start again, and the descriptor is set.
   */
  ghost function Fired(v: Table, now: int, script: Script): Table {
    var due := DueOf(v, now);
    var called := CalledBack(v.(queued := v.queued - due, canceling := {}, armed := None), script, |due|);
    var heap := ResetHeap(called.heap, called.canceling, due, now);
    var queued := ResetQueued(called.heap, called.canceling, due, called.queued);
    called.(heap := heap, queued := queued, armed := NextArmed(heap, queued, called.armed))
  }

  /** The numbers that a firing runs. */
  ghost function Runs(v: Table, now: int): seq<nat> {
    NumbersOf(v.heap, InTimeOrder(DueEntries(v, now)))
  }

  /** The oldest closure is called. */
  function ClosureCalled(v: Table): Table {
    if v.closures == [] then v
    else
      var rest := v.(closures := v.closures[1..]);
      match v.closures[0]
      case AddInLoop(a) => Activated(rest.(pending := v.pending - {a}), a)
      case CancelInLoop(id) => Cancelled(rest, id, false)
  }

  lemma StaysIs(heap: map<Addr, Timer>, before: map<Addr, Timer>, canceling: set<ActiveTimer>, a: Addr)
    requires a in heap && a in before && heap[a] == before[a]
    ensures Stays(before, canceling, a) <==> heap[a].Repeat() && ActiveTimer(a, heap[a].sequence) !in canceling
  {}

  lemma EmptyReset(heap: map<Addr, Timer>, canceling: set<ActiveTimer>, queued: set<Addr>, now: int)
    ensures ResetHeap(heap, canceling, {}, now) == heap && ResetQueued(heap, canceling, {}, queued) == queued
  {}

  lemma ResetMore(heap: map<Addr, Timer>, canceling: set<ActiveTimer>, done: set<Addr>, queued: set<Addr>, now: int,
                  a: Addr)
    requires a !in done && a in heap
    ensures var before, after := ResetHeap(heap, canceling, done, now), ResetHeap(heap, canceling, done + {a}, now);
            a in before && before[a] == heap[a] &&
            after == if Stays(heap, canceling, a) then before[a := heap[a].Restarted(now)] else before - {a}
    ensures ResetQueued(heap, canceling, done + {a}, queued) ==
              ResetQueued(heap, canceling, done, queued) + if Stays(heap, canceling, a) then {a} else {}
  {}

  lemma {:induction false} DistinctSize(es: seq<Entry>)
    requires Distinct(es)
    ensures |Addrs(es)| == |es|
  {
    if es != [] {
      AddrsStep(es, 0);
      DistinctSize(es[1..]);
      assert es[0..] == es;
      assert Addrs(es) == Addrs(es[1..]) + {es[0].addr};
    }
  }

  /** In terms of the table, the batch is made of the timers due. */
  lemma DueIs(v: Table, timers: set<Entry>, now: int)
    requires v.queued <= v.heap.Keys && ByTime(v.heap, v.queued, timers)
    ensures DueEntries(v, now) == Due(timers, now)
    ensures DueOf(v, now) == set e <- Due(timers, now) :: e.addr
  {
    forall a | a in DueOf(v, now) ensures a in set e <- Due(timers, now) :: e.addr {
      assert EntryOf(v.heap, a) in Due(timers, now);
    }
  }

  /** The iteration order of a set is unique. */
  lemma {:induction false} OrderIsUnique(es: seq<Entry>, s: set<Entry>)
    requires Enumerates(es, s)
    ensures es == InTimeOrder(s)
  {
    if es == [] {
      assert s == {};
    } else {
      var first, rest := es[0], s - {es[0]};
      assert first in es && first in s;
      assert First(s) in es;
      assert IsFirst(s, First(s));
      assert First(s) == first || Less(First(s), first);
      forall e ensures e in es[1..] <==> e in rest {
        if e in es[1..] {
          var i :| 0 <= i < |es[1..]| && es[1..][i] == e;
          assert Less(es[0], es[i + 1]);
        }
      }
      OrderIsUnique(es[1..], rest);
      assert es == [first] + es[1..];
    }
  }

  lemma BatchIs(v: Table, timers: set<Entry>, expired: seq<Entry>, now: int)
    requires v.queued <= v.heap.Keys && ByTime(v.heap, v.queued, timers)
    requires Enumerates(expired, Due(timers, now)) && Distinct(expired)
    ensures Addrs(expired) == DueOf(v, now) && |expired| == |DueOf(v, now)|
    ensures expired == InTimeOrder(DueEntries(v, now))
  {
    DueIs(v, timers, now);
    DistinctSize(expired);
    OrderIsUnique(expired, Due(timers, now));
    hide DueOf, DueEntries, InTimeOrder, Due;
  }

  class TimerQueue {
    var heap: map<Addr, Timer>          // the allocated timers
    var created: nat                    // s_numCreated
    var timers: set<Entry>              // timers_
    var active: set<ActiveTimer>        // activeTimers_
    var callingExpired: bool
    var canceling: set<ActiveTimer>
    var armed: Option<int>              // what timerfd was last set to, None once it has fired
    var closures: seq<Closure>          // of the loop: handed in, not yet called

    ghost var pending: set<Addr>        // allocated, not yet added in the loop
    ghost var queued: set<Addr>         // in both indexes
    ghost var batch: set<Addr>          // taken by getExpired, not yet reset
    ghost var live: map<nat, Addr>      // sequence number to address
    ghost var ledger: Ledger            // what is known of the numbers given
    ghost var called: nat               // how many closures were called
    ghost var ran: seq<nat>             // sequence numbers in the order their callbacks ran

    /** What the queue amounts to. */
    ghost function Value(): Table
      reads this`heap, this`pending, this`queued, this`created, this`closures, this`canceling, this`armed
    {
      Table(heap, pending, queued, created, closures, canceling, armed)
    }

    ghost predicate Agree()
      reads this`heap, this`queued, this`timers, this`active
    {
      AgreeIn(heap, queued, timers, active)
    }

    ghost predicate Owned()
      reads this`heap, this`pending, this`queued, this`batch
    {
      OwnedIn(heap, pending, queued, batch)
    }

    ghost predicate Counted()
      reads this`heap, this`live, this`ledger, this`created
    {
      CountedIn(heap, live, ledger.freed, created) && ledger.created == created
    }

    /** The closures are those handed in and not yet called, in order, and each waiting timer has one. */
    ghost predicate Queued()
      reads this`closures, this`called, this`ledger, this`pending
    {
      called <= |ledger.submitted| && closures == ledger.submitted[called..] && Waiting(closures, pending)
    }

    ghost predicate Valid()
      reads this
    {
      Agree() && Owned() && Counted() && Kinds(heap, ledger)
    }

    /** The descriptor will fire no later than the earliest timer. */
    ghost predicate Awake()
      reads this`timers, this`armed
    {
      timers != {} ==> armed.Some? && armed.value <= First(timers).when
    }

    /** The same, as far as timers due by `now` go. */
    ghost predicate AwakeUpTo(now: int)
      reads this`timers, this`armed
    {
      timers != {} && First(timers).when <= now ==> armed.Some? && armed.value <= First(timers).when
    }

    /** The descriptor is set to the time of the earliest timer, if that is a valid time. */
    ghost predicate FollowsFirst()
      reads this`timers, this`armed
    {
      timers != {} && First(timers).when > 0 ==> armed == Some(First(timers).when)
    }

    constructor ()
      ensures Valid() && Awake() && batch == {} && !callingExpired && created == 0 && ran == []
      ensures pending == {} && ledger == Ledger({}, {}, 0, []) && Queued() && Value() == EMPTY_TABLE
    {
      heap, created, timers, active, callingExpired, canceling, armed := map[], 0, {}, {}, false, {}, None;
      pending, queued, batch, live, ledger, ran := {}, {}, {}, map[], Ledger({}, {}, 0, []), [];
      closures, called := [], 0;
    }

    /** `new Timer`: any free address will do. */
    method NewTimer(at: Addr, when: int, interval: real) returns (id: ActiveTimer)
      requires Valid() && at !in heap
      modifies this`heap, this`created, this`ledger, this`pending, this`live
      ensures Valid() && id == ActiveTimer(at, old(created)) && created == old(created) + 1
      ensures heap == old(heap)[at := Timer(when, interval, old(created))]
      ensures pending == old(pending) + {at} && Onward(old(ledger), ledger)
      ensures ledger.submitted == old(ledger).submitted
    {
      var timer := Timer(when, interval, created);
      CountedNew(heap, live, ledger.freed, created, at, timer);
      KindsNew(heap, ledger, at, timer);
      OnwardNew(ledger, timer.Repeat(), 0);
      OwnedNew(heap, pending, queued, batch, at, timer);
      AgreeNew(heap, queued, timers, active, at, timer);
      hide Kinds, CountedIn, Onward, AgreeIn, OwnedIn;
      id := ActiveTimer(at, created);
      heap := heap[at := timer];
      live := live[created := at];
      pending := pending + {at};
      ledger := Numbered(ledger, timer.Repeat());
      created := created + 1;
    }

    /** `delete`: of an allocated timer only, so no timer is deleted twice. */
    method Free(a: Addr)
      requires a in heap && Counted()
      modifies this`heap, this`live, this`ledger
      ensures Counted() && heap == old(heap) - {a}
      ensures ledger == Deleted(old(ledger), old(heap)[a].sequence) && old(heap)[a].sequence !in old(ledger).freed
    {
      ledger := Deleted(ledger, heap[a].sequence);
      live := live - {heap[a].sequence};
      heap := heap - {a};
    }

    /** `insert`: both indexes or neither. */
    method InsertTimer(a: Addr) returns (earliestChanged: bool)
      requires Agree() && a in heap && a !in queued
      modifies this`timers, this`active, this`queued
      ensures Agree() && queued == old(queued) + {a}
      ensures timers == old(timers) + {EntryOf(heap, a)}
      ensures earliestChanged <==> old(timers) == {} || heap[a].expiration < First(old(timers)).when
      ensures First(timers).when == if earliestChanged then heap[a].expiration else First(old(timers)).when
    {
      var e := Entry(heap[a].expiration, a);
      earliestChanged := forall x <- timers :: e.when < x.when;
      assert e !in timers && IdOf(heap, a) !in active;
      timers := timers + {e};
      active := active + {ActiveTimer(a, heap[a].sequence)};
      queued := queued + {a};
    }

    lemma WaitsElsewhere(a: Addr)
      requires Valid() && a in pending
      ensures a in heap && a !in queued && queued <= heap.Keys && ByTime(heap, queued, timers)
    {}

    method AddTimerInLoop(a: Addr)
      requires Valid() && a in pending
      modifies this`timers, this`active, this`queued, this`pending, this`armed
      ensures Valid() && pending == old(pending) - {a} && Value() == Activated(old(Value()).(pending := pending), a)
      ensures KeptArmed(old(timers), old(armed), timers, armed)
    {
      hide AgreeIn, OwnedIn, CountedIn, Kinds, ByTime, Activated;
      WaitsElsewhere(a);
      OwnedActive(heap, pending, queued, batch, a);
      ghost var v, ts := Value(), timers;
      pending := pending - {a};
      var earliestChanged := InsertTimer(a);
      if earliestChanged {
        armed := Some(heap[a].expiration);
      }
      ActivatedIs(v.(pending := pending), ts, a, earliestChanged);
    }

    /** Takes a timer out of both indexes. */
    method EraseTimer(id: ActiveTimer)
      requires Agree() && id in active
      modifies this`timers, this`active, this`queued
      ensures Agree() && id.addr in old(queued) && queued == old(queued) - {id.addr}
      ensures IdOf(heap, id.addr) == id
      ensures timers < old(timers)
      ensures KeptArmed(old(timers), armed, timers, armed)
    {
      var e := Entry(heap[id.addr].expiration, id.addr);
      assert e in timers;
      timers := timers - {e};
      active := active - {id};
      queued := queued - {id.addr};
    }

    method DeleteActive(id: ActiveTimer)
      requires Valid() && id in active
      modifies this`timers, this`active, this`queued, this`heap, this`live, this`ledger
      ensures Valid()
      ensures heap == old(heap) - {id.addr} && queued == old(queued) - {id.addr}
      ensures ledger == Deleted(old(ledger), id.sequence)
      ensures KeptArmed(old(timers), armed, timers, armed)
    {
      EraseTimer(id);
      hide Counted, ByTime, BySequence, Kinds;
      ghost var before := heap;
      KindsLess(heap, id.addr, ledger, heap[id.addr].sequence);
      hide Kinds;
      Free(id.addr);
      IndexFrame(before, heap, queued, timers, active);
    }

    lemma ActiveIs(id: ActiveTimer)
      requires Agree()
      ensures id in active <==> IsActive(Value(), id)
    {
      hide ByTime;
    }

    /**
      An id acts on the timer it was issued for and on no other: when that timer
      is not active, nothing but the list of cancellations changes.
     */
    method CancelInLoop(id: ActiveTimer)
      requires Valid()
      modifies this`timers, this`active, this`queued, this`heap, this`live, this`ledger, this`canceling
      ensures Valid()
      ensures id in old(active) ==>
                heap == old(heap) - {id.addr} && queued == old(queued) - {id.addr}
                && ledger == Deleted(old(ledger), id.sequence) && canceling == old(canceling)
      ensures id !in old(active) ==>
                heap == old(heap) && queued == old(queued) && ledger == old(ledger)
                && canceling == old(canceling) + if callingExpired then {id} else {}
      ensures KeptArmed(old(timers), old(armed), timers, armed)
    {
      hide Agree, Owned, Counted, Kinds;
      if id in active {
        DeleteActive(id);
      } else if callingExpired {
        canceling := canceling + {id};
      }
    }

    /** The first half of `getExpired`: the batch leaves `timers_`. */
    method TakeDue(now: int) returns (expired: seq<Entry>)
      requires Agree()
      modifies this`timers
      ensures Enumerates(expired, Due(old(timers), now)) && timers == old(timers) - Due(old(timers), now)
      ensures forall e <- expired :: e.addr in queued && EntryOf(heap, e.addr) == e
      ensures Distinct(expired) && AwakeUpTo(now)
      ensures forall a <- heap :: heap[a].expiration > now ==> a !in Addrs(expired)
      ensures ByTime(heap, queued - Addrs(expired), timers)
      ensures |timers| == |active| - |expired|
    {
      expired := Copy(Due(timers, now));
      DueLeaves(heap, queued, timers, expired, now);
      CardinalityOfDifference(timers, Due(timers, now));
      forall e | e in expired ensures e.addr in queued && EntryOf(heap, e.addr) == e {
        assert e in timers;
      }
      forall i, j | 0 <= i < j < |expired| ensures expired[i].addr != expired[j].addr {
        assert expired[i] in expired && expired[j] in expired && Less(expired[i], expired[j]);
      }
      timers := timers - Due(timers, now);
    }

    method EraseOne(e: Entry)
      requires Owned() && e.addr in queued && BySequence(heap, queued, active)
      modifies this`active, this`queued, this`batch
      ensures Owned() && BySequence(heap, queued, active)
      ensures queued == old(queued) - {e.addr} && batch == old(batch) + {e.addr}
      ensures |active| == |old(active)| - 1
    {
      var t := ActiveTimer(e.addr, heap[e.addr].sequence);
      assert t in active;
      active := active - {t};
      queued := queued - {e.addr};
      batch := batch + {e.addr};
    }

    /** The loop of `getExpired`: the batch leaves the second index too. */
    method EraseActive(expired: seq<Entry>)
      requires Owned() && batch == {}
      requires forall e <- expired :: e.addr in queued && EntryOf(heap, e.addr) == e
      requires Distinct(expired)
      requires BySequence(heap, queued, active)
      modifies this`active, this`queued, this`batch
      ensures Owned() && batch == Addrs(expired)
      ensures queued == old(queued) - batch
      ensures BySequence(heap, queued, active)
      ensures |active| == |old(active)| - |expired|
    {
      hide Counted, BySequence, Less, Kinds;
      for i := 0 to |expired|
        invariant Owned() && batch == Addrs(expired[..i])
        invariant queued == old(queued) - batch
        invariant BySequence(heap, queued, active)
        invariant |active| == |old(active)| - i
      {
        var e := expired[i];
        assert e in expired && e.addr in old(queued);
        assert expired[..i + 1] == expired[..i] + [e];
        EraseOne(e);
      }
      assert expired[..|expired|] == expired;
    }

    lemma QueueIs()
      requires Agree()
      ensures Value().queued <= Value().heap.Keys && ByTime(Value().heap, Value().queued, timers)
    {}

    /** Takes all and only the timers due, in time order, out of both indexes. */
    method GetExpired(now: int) returns (expired: seq<Entry>)
      requires Valid() && batch == {}
      modifies this`timers, this`active, this`queued, this`batch
      ensures Valid()
      ensures Enumerates(expired, Due(old(timers), now)) && timers == old(timers) - Due(old(timers), now)
      ensures batch == Addrs(expired) && queued == old(queued) - batch
      ensures forall e <- expired :: e.addr in heap && EntryOf(heap, e.addr) == e
      ensures Distinct(expired) && AwakeUpTo(now)
      ensures forall a <- heap :: heap[a].expiration > now ==> a !in batch
    {
      hide Owned, ByTime, BySequence, Due, Counted, Enumerates, Addrs, EntryOf, IdOf, Kinds;
      expired := TakeDue(now);
      EraseActive(expired);
    }

    /** In terms of the table: the timers due, in time order. */
    method TakeBatch(now: int) returns (expired: seq<Entry>)
      requires Valid() && batch == {}
      modifies this`timers, this`active, this`queued, this`batch
      ensures Valid() && AwakeUpTo(now)
      ensures Enumerates(expired, Due(old(timers), now)) && batch == Addrs(expired) && Distinct(expired)
      ensures queued == old(queued) - batch
      ensures forall a <- heap :: heap[a].expiration > now ==> a !in batch
      ensures |expired| == |batch| && expired == InTimeOrder(DueEntries(old(Value()), now))
      ensures batch == DueOf(old(Value()), now)
    {
      ghost var v, ts := Value(), timers;
      QueueIs();
      hide Valid, ByTime, Due, Enumerates, Addrs, InTimeOrder, DueEntries, DueOf, Distinct, AwakeUpTo;
      expired := GetExpired(now);
      BatchIs(v, ts, expired, now);
    }

    /** The timer is still active and is the one it was. */
    ghost predicate Unharmed(t: ActiveTimer, before: map<Addr, Timer>)
      reads this`heap, this`active
    {
      t in active && t.addr in heap && t.addr in before && heap[t.addr] == before[t.addr]
    }

    /** What becomes of a timer of the batch. */
    ghost predicate Settled(t: Timer, id: ActiveTimer, cancelled: bool, now: int)
      reads this`heap, this`active, this`ledger
    {
      if t.Repeat() && !cancelled
      then id in active && id.addr in heap && heap[id.addr] == t.Restarted(now)
      else t.sequence in ledger.freed
    }

    method Restart(a: Addr, now: int)
      requires Valid() && a in batch && heap[a].Repeat()
      modifies this`heap
      ensures Valid() && heap == old(heap)[a := old(heap)[a].Restarted(now)]
    {
      ghost var h := heap;
      KindsSame(heap, a, heap[a].Restarted(now), ledger);
      hide Kinds;
      heap := heap[a := heap[a].Restarted(now)];
      IndexFrame(h, heap, queued, timers, active);
      hide ByTime, BySequence;
    }

    /** `restart` and `insert` of a timer of the batch. */
    method Rearm(a: Addr, now: int)
      requires Valid() && a in batch && heap[a].Repeat()
      modifies this`heap, this`timers, this`active, this`queued, this`batch
      ensures Valid() && batch == old(batch) - {a} && queued == old(queued) + {a}
      ensures heap == old(heap)[a := old(heap)[a].Restarted(now)]
      ensures timers == old(timers) + {EntryOf(heap, a)}
    {
      Restart(a, now);
      OwnedMove(heap, pending, queued, batch, a);
      hide Counted, AgreeIn, OwnedIn, First, Less, Kinds;
      var _ := InsertTimer(a);
      batch := batch - {a};
    }

    /** The timers of the batch not yet reset are as they were. */
    ghost predicate BatchAsWas(all: set<Addr>, before: map<Addr, Timer>)
      reads this`heap, this`batch
    {
      batch <= all <= before.Keys && forall a <- batch :: a in heap && heap[a] == before[a]
    }

    ghost predicate AllUnharmed(ts: set<ActiveTimer>, before: map<Addr, Timer>)
      reads this`heap, this`active
    {
      forall t <- ts :: Unharmed(t, before)
    }

    ghost predicate AllSettled(batch: set<Addr>, before: map<Addr, Timer>, now: int)
      reads this`heap, this`active, this`ledger, this`canceling
    {
      forall a <- batch :: a in before && Settled(before[a], IdOf(before, a), IdOf(before, a) in canceling, now)
    }

    /** Nothing left `timers_`, and what came is not before `now`. */
    ghost predicate Grown(ts: set<Entry>, now: int)
      reads this`timers
    {
      ts <= timers && forall e <- timers :: e in ts || now <= e.when
    }

    /**
      The state between two rounds of the loop of `reset`: the timers of the batch
      that were reset have their outcome, the rest of the batch is untouched.
     */
    ghost predicate Resetting(all: set<Addr>, actives: set<ActiveTimer>, before: map<Addr, Timer>,
                              ts: set<Entry>, book: Ledger, now: int)
      reads this
    {
      && Valid() && BatchAsWas(all, before) && Onward(book, ledger) && ledger.submitted == book.submitted
      && AllSettled(all - batch, before, now) && AllUnharmed(actives, before)
      && Grown(ts, now)
    }

    method RearmOne(a: Addr, now: int, ghost all: set<Addr>, ghost actives: set<ActiveTimer>,
                    ghost before: map<Addr, Timer>, ghost ts: set<Entry>, ghost book: Ledger)
      requires Resetting(all, actives, before, ts, book, now) && a in batch
      requires heap[a].Repeat() && IdOf(heap, a) !in canceling
      modifies this`heap, this`timers, this`active, this`queued, this`batch
      ensures Resetting(all, actives, before, ts, book, now) && batch == old(batch) - {a}
      ensures heap == old(heap)[a := old(heap)[a].Restarted(now)] && queued == old(queued) + {a}
    {
      Rearm(a, now);
      hide Counted, Less, Kinds;
      assert IdOf(heap, a) in active;
    }

    /** `delete` of a timer of the batch. */
    method Drop(a: Addr)
      requires Valid() && a in batch
      modifies this`heap, this`live, this`ledger, this`batch
      ensures Valid() && batch == old(batch) - {a} && heap == old(heap) - {a}
      ensures ledger == Deleted(old(ledger), old(heap)[a].sequence)
    {
      ghost var h := heap;
      KindsLess(heap, a, ledger, heap[a].sequence);
      hide Kinds, ByTime, BySequence;
      batch := batch - {a};
      Free(a);
      hide Counted;
      IndexFrame(h, heap, queued, timers, active);
    }

    method DropOne(a: Addr, now: int, ghost all: set<Addr>, ghost actives: set<ActiveTimer>,
                   ghost before: map<Addr, Timer>, ghost ts: set<Entry>, ghost book: Ledger)
      requires Resetting(all, actives, before, ts, book, now) && a in batch
      requires !(heap[a].Repeat() && IdOf(heap, a) !in canceling)
      modifies this`heap, this`live, this`ledger, this`batch
      ensures Resetting(all, actives, before, ts, book, now) && batch == old(batch) - {a}
      ensures heap == old(heap) - {a}
    {
      OnwardNew(ledger, false, heap[a].sequence);
      OnwardOn(book, ledger, Deleted(ledger, heap[a].sequence));
      hide Counted, Kinds, ByTime, BySequence, Onward;
      Drop(a);
    }

    lemma StillAllocated(a: Addr, all: set<Addr>, actives: set<ActiveTimer>, before: map<Addr, Timer>,
                         ts: set<Entry>, book: Ledger, now: int)
      requires Resetting(all, actives, before, ts, book, now) && a in batch
      ensures a in heap && a in before && heap[a] == before[a] && a !in all - batch
      ensures all - (batch - {a}) == all - batch + {a}
    {}

    /** After the timers of `done` were reset. */
    ghost predicate Partly(before: map<Addr, Timer>, queuedBefore: set<Addr>, done: set<Addr>, now: int)
      reads this`heap, this`queued, this`canceling
    {
      heap == ResetHeap(before, canceling, done, now) && queued == ResetQueued(before, canceling, done, queuedBefore)
    }

    /** One round of the loop. */
    method ResetOne(a: Addr, now: int, ghost all: set<Addr>, ghost actives: set<ActiveTimer>,
                    ghost before: map<Addr, Timer>, ghost queuedBefore: set<Addr>, ghost ts: set<Entry>,
                    ghost book: Ledger)
      requires Resetting(all, actives, before, ts, book, now) && a in batch
      requires Partly(before, queuedBefore, all - batch, now)
      modifies this`heap, this`live, this`ledger, this`timers, this`active, this`queued, this`batch
      ensures Resetting(all, actives, before, ts, book, now) && batch == old(batch) - {a}
      ensures Partly(before, queuedBefore, all - batch, now)
    {
      StillAllocated(a, all, actives, before, ts, book, now);
      ResetMore(before, canceling, all - batch, queuedBefore, now, a);
      StaysIs(heap, before, canceling, a);
      hide Resetting, Valid, ResetHeap, ResetQueued, Stays;
      if heap[a].Repeat() && ActiveTimer(a, heap[a].sequence) !in canceling {
        RearmOne(a, now, all, actives, before, ts, book);
      } else {
        DropOne(a, now, all, actives, before, ts, book);
      }
    }

    method ResetLoop(expired: seq<Entry>, now: int)
      requires Valid() && batch == Addrs(expired) && Distinct(expired)
      modifies this`heap, this`live, this`ledger, this`timers, this`active, this`queued, this`batch
      ensures batch == {} && Resetting(old(batch), old(active), old(heap), old(timers), old(ledger), now)
      ensures Partly(old(heap), old(queued), old(batch), now)
    {
      assert Resetting(batch, active, heap, timers, ledger, now);
      EmptyReset(heap, canceling, queued, now);
      assert expired[0..] == expired && Addrs(expired[|expired|..]) == {} && batch - batch == {};
      assert Partly(heap, queued, batch - batch, now);
      hide Resetting, Valid, Partly, Addrs, Distinct;
      for i := 0 to |expired|
        invariant batch == Addrs(expired[i..])
        invariant Resetting(old(batch), old(active), old(heap), old(timers), old(ledger), now)
        invariant Partly(old(heap), old(queued), old(batch) - batch, now)
      {
        AddrsStep(expired, i);
        ResetOne(expired[i].addr, now, old(batch), old(active), old(heap), old(queued), old(timers), old(ledger));
      }
      assert old(batch) - {} == old(batch);
    }

    lemma ResetDone(all: set<Addr>, actives: set<ActiveTimer>, before: map<Addr, Timer>,
                    ts: set<Entry>, book: Ledger, now: int)
      requires Resetting(all, actives, before, ts, book, now) && batch == {}
      ensures Valid() && Onward(book, ledger) && ledger.submitted == book.submitted
      ensures AllSettled(all, before, now) && AllUnharmed(actives, before) && Grown(ts, now)
    {
      assert all - {} == all;
    }

    /** The tail of `reset`: the descriptor follows the earliest timer, unless that has no valid time. */
    method SetNext(now: int, ghost before: set<Entry>)
      requires Agree()
      requires Grown(before, now)
      requires before != {} && First(before).when <= now ==> armed.Some? && armed.value <= First(before).when
      modifies this`armed
      ensures 0 < now ==> Awake()
      ensures FollowsFirst() && armed == NextArmed(heap, queued, old(armed))
      ensures Awake() <==> timers == {} || First(timers).when > 0
                           || (old(armed).Some? && old(armed).value <= First(timers).when)
    {
      NextArmedIs(heap, queued, timers, armed);
      if timers != {} {
        var first := Begin(timers);
        assert first in timers;
        var nextExpire := heap[first.addr].expiration;
        if nextExpire > 0 {
          armed := Some(nextExpire);
        } else if 0 < now {
          assert first in before && First(before) in timers;
        }
      }
    }

    /** Re-arms the repeating timers that were not cancelled, deletes the others, and sets the descriptor. */
    method Reset(expired: seq<Entry>, now: int)
      requires Valid() && AwakeUpTo(now)
      requires batch == Addrs(expired) && Distinct(expired)
      modifies this`heap, this`live, this`ledger, this`timers, this`active, this`queued, this`batch, this`armed
      ensures Valid() && batch == {} && Onward(old(ledger), ledger) && ledger.submitted == old(ledger).submitted
      ensures 0 < now ==> Awake()
      ensures FollowsFirst() && armed == NextArmed(heap, queued, old(armed))
      ensures AllSettled(old(batch), old(heap), now) && AllUnharmed(old(active), old(heap))
      ensures Partly(old(heap), old(queued), old(batch), now)
    {
      hide Partly, CountedIn, AgreeIn, OwnedIn, AllSettled, AllUnharmed, Kinds, Resetting, Addrs, Distinct, Onward;
      ResetLoop(expired, now);
      ResetDone(old(batch), old(active), old(heap), old(timers), old(ledger), now);
      SetNext(now, old(timers));
    }

    lemma FreeIsNotPending(a: Addr)
      requires Owned() && a !in heap
      ensures a !in pending
    {}

    /** `addTimer` called in the loop thread. */
    method AddTimer(at: Addr, when: int, interval: real, ghost now: int) returns (id: ActiveTimer)
      requires Valid() && at !in heap && AwakeUpTo(now)
      modifies this`heap, this`created, this`ledger, this`pending, this`live
      modifies this`timers, this`active, this`queued, this`armed
      ensures Valid() && AwakeUpTo(now) && id == ActiveTimer(at, old(created)) && id in active
      ensures heap == old(heap)[at := Timer(when, interval, old(created))]
      ensures Value() == Activated(Created(old(Value()), at, when, interval), at)
      ensures old(Awake()) ==> Awake()
      ensures Onward(old(ledger), ledger) && ledger.submitted == old(ledger).submitted
    {
      hide OwnedIn, CountedIn, ByTime, Kinds, IsEarliest, Onward;
      FreeIsNotPending(at);
      id := NewTimer(at, when, interval);
      AddTimerInLoop(at);
      assert id in active;
    }

    /** `cancel` called by a callback. */
    method CancelFromCallback(id: ActiveTimer, ghost now: int)
      requires Valid() && callingExpired && AwakeUpTo(now)
      modifies this`heap, this`live, this`ledger, this`timers, this`active, this`queued, this`canceling
      ensures Valid() && AwakeUpTo(now) && batch <= heap.Keys
      ensures forall a <- batch :: heap[a] == old(heap)[a]
      ensures forall a <- batch ::
                IdOf(heap, a) in canceling <==> IdOf(heap, a) in old(canceling) || id == IdOf(heap, a)
      ensures forall t <- old(active) :: id != t ==> Unharmed(t, old(heap))
      ensures Onward(old(ledger), ledger) && ledger.submitted == old(ledger).submitted
      ensures Value() == Cancelled(old(Value()), id, true)
    {
      ActiveIs(id);
      CancelInLoop(id);
      CancelledIs(old(Value()), Value(), id, true, id in old(active));
      hide Counted, ByTime, First, Kinds, Cancelled, IsActive;
    }

    /** `queueInLoop` of a closure. */
    method HandIn(closure: Closure, ghost book: Ledger)
      requires Valid() && Onward(book, ledger) && called <= |ledger.submitted|
      requires closures == ledger.submitted[called..] && Waiting(closures + [closure], pending)
      modifies this`closures, this`ledger
      ensures Valid() && Queued() && Onward(book, ledger) && closures == old(closures) + [closure]
    {
      KindsQueue(heap, ledger, closure);
      OnwardOn(book, ledger, HandedIn(ledger, closure));
      hide Waiting, Agree, Owned, CountedIn, Kinds, Onward;
      assert (ledger.submitted + [closure])[called..] == ledger.submitted[called..] + [closure];
      ledger := HandedIn(ledger, closure);
      closures := closures + [closure];
    }

    /** Another thread adds or cancels: the timer is created, the rest waits for the loop. */
    method FromThread(s: Submission)
      requires Valid() && Queued()
      modifies this`heap, this`created, this`pending, this`live, this`ledger, this`closures
      ensures Valid() && Queued() && Onward(old(ledger), ledger)
      ensures Value() == Submitting(old(Value()), s)
      ensures match s
              case Submit(at, when, interval) =>
                at !in old(heap) ==>
                  heap == old(heap)[at := Timer(when, interval, old(created))]
                  && closures == old(closures) + [AddInLoop(at)]
              case SubmitCancel(id) => heap == old(heap) && closures == old(closures) + [Closure.CancelInLoop(id)]
    {
      hide Waiting, Agree, Counted, Kinds, Onward;
      match s
      case Submit(at, when, interval) =>
        if at !in heap {
          FreeIsNotPending(at);
          Submitted(closures, pending, at);
          ghost var book := ledger;
          var _ := NewTimer(at, when, interval);
          HandIn(AddInLoop(at), book);
        } else {
          OnwardNew(ledger, false, 0);
        }
      case SubmitCancel(id) =>
        SubmittedCancel(closures, pending, id);
        OnwardNew(ledger, false, 0);
        HandIn(Closure.CancelInLoop(id), ledger);
    }

    /** One operation of a callback; an address that is in use cannot come back from the allocator. */
    method RunOp(op: Op, ghost now: int)
      requires Valid() && Queued() && callingExpired && AwakeUpTo(now)
      modifies this`heap, this`created, this`pending, this`live, this`ledger, this`closures
      modifies this`timers, this`active, this`queued, this`armed, this`canceling
      ensures Valid() && Queued() && AwakeUpTo(now) && batch <= heap.Keys
      ensures forall a <- batch :: heap[a] == old(heap)[a]
      ensures forall a <- batch ::
                IdOf(heap, a) in canceling <==> IdOf(heap, a) in old(canceling) || op == Cancel(IdOf(heap, a))
      ensures forall t <- old(active) :: op != Cancel(t) ==> Unharmed(t, old(heap))
      ensures Onward(old(ledger), ledger) && Value() == Did(old(Value()), op)
    {
      hide Counted, ByTime, AwakeUpTo, Awake, Kinds, Waiting, Onward;
      match op
      case Add(at, when, interval) =>
        if at !in heap {
          var _ := AddTimer(at, when, interval, now);
        } else {
          OnwardNew(ledger, false, 0);
        }
      case Cancel(id) =>
        CancelFromCallback(id, now);
      case Elsewhere(what) =>
        FromThread(what);
    }

    /** The state after some operations of a callback. */
    ghost predicate After(ops: seq<Op>, before: map<Addr, Timer>, cancelled: set<ActiveTimer>,
                          actives: set<ActiveTimer>, book: Ledger, now: int)
      reads this
    {
      && Valid() && Queued() && AwakeUpTo(now) && batch <= heap.Keys && Onward(book, ledger)
      && (forall a <- batch :: a in before && heap[a] == before[a])
      && (forall a <- batch ::
            IdOf(heap, a) in canceling <==> IdOf(heap, a) in cancelled || Cancel(IdOf(heap, a)) in ops)
      && (forall t <- actives :: Cancel(t) !in ops ==> Unharmed(t, before))
    }

    method RunNext(op: Op, ghost ops: seq<Op>, ghost before: map<Addr, Timer>, ghost cancelled: set<ActiveTimer>,
                   ghost actives: set<ActiveTimer>, ghost book: Ledger, ghost now: int)
      requires callingExpired && After(ops, before, cancelled, actives, book, now)
      modifies this`heap, this`created, this`pending, this`live, this`ledger, this`closures
      modifies this`timers, this`active, this`queued, this`armed, this`canceling
      ensures After(ops + [op], before, cancelled, actives, book, now) && Value() == Did(old(Value()), op)
    {
      hide Agree, Counted, Owned, AwakeUpTo, Kinds, Onward, Queued;
      ghost var mid := ledger;
      RunOp(op, now);
      OnwardOn(book, mid, ledger);
    }

    lemma AfterNothing(now: int)
      requires Valid() && Queued() && AwakeUpTo(now)
      ensures After([], heap, canceling, active, ledger, now)
    {
      hide Counted, Kinds, AwakeUpTo;
    }

    method RunCallback(ops: seq<Op>, ghost now: int)
      requires Valid() && Queued() && callingExpired && AwakeUpTo(now)
      modifies this`heap, this`created, this`pending, this`live, this`ledger, this`closures
      modifies this`timers, this`active, this`queued, this`armed, this`canceling
      ensures After(ops, old(heap), old(canceling), old(active), old(ledger), now)
      ensures Value() == DidAll(old(Value()), ops)
    {
      AfterNothing(now);
      DidNone(Value());
      hide *;
      for i := 0 to |ops|
        invariant After(ops[..i], old(heap), old(canceling), old(active), old(ledger), now)
        invariant Value() == DidAll(old(Value()), ops[..i])
      {
        RunNext(ops[i], ops[..i], old(heap), old(canceling), old(active), old(ledger), now);
        DidOne(old(Value()), ops, i);
        assert ops[..i + 1] == ops[..i] + [ops[i]];
      }
      assert ops[..|ops|] == ops;
    }

    /** The state after `i` callbacks of the batch. */
    ghost predicate Calling(script: Script, i: nat, actives: set<ActiveTimer>, before: map<Addr, Timer>,
                            book: Ledger, now: int)
      reads this
    {
      && Valid() && Queued() && AwakeUpTo(now) && callingExpired && Onward(book, ledger)
      && BatchAsWas(batch, before)
      && (forall a <- batch :: IdOf(before, a) in canceling <==> CancelledIn(script, i, IdOf(before, a)))
      && (forall t <- actives :: !CancelledIn(script, i, t) ==> Unharmed(t, before))
    }

    lemma NotFreed(a: Addr)
      requires Counted() && a in heap
      ensures heap[a].sequence !in ledger.freed
    {}

    /** `run` of one timer: it is still allocated, whatever the callbacks before it did, and was never deleted. */
    method RunTimer(a: Addr, script: Script, i: nat, ghost actives: set<ActiveTimer>,
                    ghost before: map<Addr, Timer>, ghost book: Ledger, ghost now: int)
      requires Calling(script, i, actives, before, book, now) && a in batch
      modifies this`heap, this`created, this`pending, this`live, this`ledger, this`closures, this`ran
      modifies this`timers, this`active, this`queued, this`armed, this`canceling
      ensures Calling(script, i + 1, actives, before, book, now)
      ensures ran == old(ran) + [before[a].sequence] && Value() == DidAll(old(Value()), OpsOf(script, i))
      ensures before[a].sequence !in old(ledger).freed
    {
      hide OpsOf, DidAll, AwakeUpTo, Agree, Counted, Kinds, Onward, Queued;
      assert a in heap;
      NotFreed(a);
      hide Owned;
      ghost var mid := ledger;
      ran := ran + [heap[a].sequence];
      RunCallback(OpsOf(script, i), now);
      OnwardOn(book, mid, ledger);
    }

    /** The callbacks of the first `n` entries ran, in order and once each. */
    ghost predicate RanInOrder(earlier: seq<nat>, expired: seq<Entry>, before: map<Addr, Timer>, n: nat)
      reads this`ran
    {
      && n <= |expired| && |ran| == |earlier| + n && earlier <= ran
      && forall i :: 0 <= i < n ==>
           expired[i].addr in before && ran[|earlier| + i] == before[expired[i].addr].sequence
    }

    lemma BatchAllocated(script: Script, i: nat, actives: set<ActiveTimer>, before: map<Addr, Timer>, book: Ledger,
                         now: int)
      requires Calling(script, i, actives, before, book, now)
      ensures batch <= heap.Keys
    {
      hide Agree, Counted, Kinds;
    }

    /** The loop of `handleRead`. */
    method RunBatch(expired: seq<Entry>, script: Script, ghost now: int)
      requires Calling(script, 0, active, heap, ledger, now)
      requires forall e <- expired :: e.addr in batch
      modifies this`heap, this`created, this`pending, this`live, this`ledger, this`closures, this`ran
      modifies this`timers, this`active, this`queued, this`armed, this`canceling
      ensures Calling(script, |expired|, old(active), old(heap), old(ledger), now)
      ensures RanInOrder(old(ran), expired, old(heap), |expired|)
      ensures Value() == CalledBack(old(Value()), script, |expired|)
    {
      hide Calling;
      BatchAllocated(script, 0, active, heap, ledger, now);
      assert forall e <- expired :: e.addr in heap;
      for i := 0 to |expired|
        invariant Calling(script, i, old(active), old(heap), old(ledger), now)
        invariant RanInOrder(old(ran), expired, old(heap), i)
        invariant Value() == CalledBack(old(Value()), script, i)
      {
        RunTimer(expired[i].addr, script, i, old(active), old(heap), old(ledger), now);
      }
    }

    /** Every timer of the batch has the outcome that the callbacks decided. */
    ghost predicate Outcome(expired: seq<Entry>, script: Script, before: map<Addr, Timer>, now: int)
      reads this`heap, this`active, this`ledger
    {
      forall e <- expired ::
        e.addr in before &&
        var id := IdOf(before, e.addr); Settled(before[e.addr], id, CancelledIn(script, |expired|, id), now)
    }

    lemma CallingStarts(script: Script, now: int)
      requires Valid() && Queued() && AwakeUpTo(now) && callingExpired && canceling == {}
      ensures Calling(script, 0, active, heap, ledger, now)
    {}

    /** The beginning of `handleRead`, up to the first callback. */
    method Start(now: int, ghost script: Script) returns (expired: seq<Entry>)
      requires Valid() && Queued() && batch == {} && !callingExpired
      modifies this`armed, this`timers, this`active, this`queued, this`batch, this`callingExpired, this`canceling
      ensures Calling(script, 0, active, heap, ledger, now)
      ensures Enumerates(expired, Due(old(timers), now)) && batch == Addrs(expired) && Distinct(expired)
      ensures forall t <- old(active) :: t.addr in heap && (heap[t.addr].expiration > now ==> t in active)
      ensures armed == None && |expired| == |batch| && expired == InTimeOrder(DueEntries(old(Value()), now))
      ensures batch == DueOf(old(Value()), now)
      ensures Value() == old(Value()).(queued := old(queued) - batch, canceling := {}, armed := None)
    {
      hide InTimeOrder, DueEntries, DueOf, AgreeIn, Owned, Counted, Enumerates;
      hide Due, Addrs, Calling, AwakeUpTo, Distinct, Kinds, Waiting;
      DueAnyway(Value(), now, None);
      armed := None;
      expired := TakeBatch(now);
      NotDueStays(heap, old(queued), queued, old(timers), timers, old(active), active, batch, now);
      callingExpired := true;
      canceling := {};
      CallingStarts(script, now);
    }

    /** The end of `handleRead`, after the last callback. */
    method Finish(expired: seq<Entry>, script: Script, now: int,
                  ghost actives: set<ActiveTimer>, ghost before: map<Addr, Timer>, ghost book: Ledger)
      requires Calling(script, |expired|, actives, before, book, now)
      requires batch == Addrs(expired) && Distinct(expired)
      modifies this`heap, this`live, this`ledger, this`timers, this`active, this`queued, this`batch, this`armed
      modifies this`callingExpired
      ensures Valid() && Queued() && batch == {} && !callingExpired && Onward(book, ledger)
      ensures (0 < now ==> Awake()) && FollowsFirst() && armed == NextArmed(heap, queued, old(armed))
      ensures Outcome(expired, script, before, now)
      ensures forall t <- actives :: !CancelledIn(script, |expired|, t) ==> Unharmed(t, before)
      ensures Partly(old(heap), old(queued), old(batch), now)
    {
      hide Partly, Agree, Owned, Counted, AwakeUpTo, Awake, Kinds, Onward, Waiting;
      callingExpired := false;
      ghost var h, mid := heap, ledger;
      Reset(expired, now);
      OnwardOn(book, mid, ledger);
    }

    /** The timers of the batch are allocated, each under a number of its own that was never deleted. */
    ghost predicate NewIn(expired: seq<Entry>, heap: map<Addr, Timer>, ledger: Ledger) {
      && (forall e <- expired ::
            e.addr in heap && heap[e.addr].sequence < ledger.created && heap[e.addr].sequence !in ledger.freed)
      && (forall i, j :: 0 <= i < j < |expired| ==> heap[expired[i].addr].sequence != heap[expired[j].addr].sequence)
    }

    lemma CallingIsValid(script: Script, i: nat, actives: set<ActiveTimer>, before: map<Addr, Timer>, book: Ledger,
                         now: int)
      requires Calling(script, i, actives, before, book, now)
      ensures Valid()
    {}

    lemma InBatch(expired: seq<Entry>)
      requires batch == Addrs(expired)
      ensures forall e <- expired :: e.addr in batch
    {}

    lemma BatchIsNew(expired: seq<Entry>)
      requires Valid() && Distinct(expired) && forall e <- expired :: e.addr in heap
      ensures NewIn(expired, heap, ledger)
    {
      forall i, j | 0 <= i < j < |expired| ensures heap[expired[i].addr].sequence != heap[expired[j].addr].sequence {
        assert expired[i] in expired && expired[j] in expired;
      }
    }

    lemma QueuedIs()
      requires Queued()
      ensures called <= |ledger.submitted| && closures == ledger.submitted[called..]
    {}

    lemma ClosuresGrow(before: seq<Closure>, book: Ledger)
      requires Queued() && Onward(book, ledger)
      requires called <= |book.submitted| && before == book.submitted[called..]
      ensures before <= closures
    {}

    lemma RanIs(v: Table, earlier: seq<nat>, expired: seq<Entry>, now: int)
      requires RanInOrder(earlier, expired, v.heap, |expired|) && expired == InTimeOrder(DueEntries(v, now))
      ensures ran == earlier + Runs(v, now)
    {}

    /**
      The timer descriptor fired.  Exactly the due timers run, in time order and
      once each; then exactly those that repeat and were not cancelled by any
      callback of the batch are active again, one interval from now, and all the
      others are deleted.  Timers that were not due and not cancelled are as before.
      A clock before the epoch may leave the descriptor unset, for timers without a
      valid time only.  What other threads hand in meanwhile waits for the loop.
     */
    method HandleRead(now: int, script: Script) returns (expired: seq<Entry>)
      requires Valid() && Queued() && batch == {} && !callingExpired
      modifies this
      ensures Valid() && Queued() && batch == {} && !callingExpired && Onward(old(ledger), ledger)
      ensures called == old(called) && old(closures) <= closures
      ensures (0 < now ==> Awake()) && FollowsFirst()
      ensures Enumerates(expired, Due(old(timers), now))
      ensures NewIn(expired, old(heap), old(ledger))
      ensures RanInOrder(old(ran), expired, old(heap), |expired|)
      ensures Outcome(expired, script, old(heap), now)
      ensures forall t <- old(active) ::
                t.addr in old(heap) && old(heap)[t.addr].expiration > now && !CancelledIn(script, |expired|, t)
                ==> Unharmed(t, old(heap))
      ensures Value() == Fired(old(Value()), now, script) && ran == old(ran) + Runs(old(Value()), now)
    {
      hide Valid, Queued, Agree, Owned, Counted, Kinds, Awake, FollowsFirst, Calling, Outcome, Unharmed, NewIn, Onward;
      hide Enumerates, Due, Addrs, Distinct, CancelledIn, RanInOrder, ResetHeap, ResetQueued, Runs;
      hide CalledBack, DueOf, DueEntries, InTimeOrder;
      QueuedIs();
      expired := Start(now, script);
      ghost var actives := active;
      BatchAllocated(script, 0, active, heap, ledger, now);
      CallingIsValid(script, 0, active, heap, ledger, now);
      InBatch(expired);
      BatchIsNew(expired);
      RunBatch(expired, script, now);
      Finish(expired, script, now, actives, old(heap), old(ledger));
      ClosuresGrow(old(closures), old(ledger));
      RanIs(old(Value()), old(ran), expired, now);
    }

    /** Every timer ever created is waiting to be added, active, in the batch, or deleted, and only one of these. */
    lemma Fate(q: nat)
      requires Valid() && q < created
      ensures q in ledger.freed <==> q !in live
      ensures q in ledger.freed <==> forall a <- heap :: heap[a].sequence != q
      ensures q in live ==>
                && heap[live[q]].sequence == q
                && (live[q] in pending || live[q] in batch || ActiveTimer(live[q], q) in active)
                && !(live[q] in pending && live[q] in batch)
                && (ActiveTimer(live[q], q) in active <==> EntryOf(heap, live[q]) in timers)
                && (ActiveTimer(live[q], q) in active ==> live[q] !in pending && live[q] !in batch)
    {}

    /**
      A cancellation deletes the timer of its id when it is called in the loop while
      that timer is active.  A timer still waiting to be added is out of its reach,
      and so is one of the batch, unless a callback cancels it.
     */
    lemma CancelReachesExactly(id: ActiveTimer)
      requires Valid() && id.addr in heap && IdOf(heap, id.addr) == id
      ensures id in active <==> id.addr !in pending && id.addr !in batch
    {
      hide Counted, Kinds;
    }

    /** Numbers are never reused: an id whose timer was deleted matches no timer, even at the same address. */
    lemma StaleIdMatchesNothing(id: ActiveTimer)
      requires Valid() && id.sequence in ledger.freed
      ensures id !in active
      ensures id.addr in heap ==> IdOf(heap, id.addr) != id
    {}
  }

  // ---------- whole runs ----------

  /** What happens to the queue between two polls. */
  datatype Event = Outside(what: Submission) | CallClosure | Fires(now: int, script: Script)

  ghost function TableMoves(v: Table, e: Event): Table {
    match e
    case Outside(what) => Submitting(v, what)
    case CallClosure => ClosureCalled(v)
    case Fires(now, script) => Fired(v, now, script)
  }

  /** The table after some events. */
  ghost function TableAfter(events: seq<Event>): Table {
    if events == [] then EMPTY_TABLE else TableMoves(TableAfter(events[..|events| - 1]), events[|events| - 1])
  }

  /** The numbers that ran. */
  ghost function RanAfter(events: seq<Event>): seq<nat> {
    if events == [] then []
    else
      var before, last := events[..|events| - 1], events[|events| - 1];
      RanAfter(before) + if last.Fires? then Runs(TableAfter(before), last.now) else []
  }

  lemma AfterOne(events: seq<Event>, i: nat)
    requires i < |events|
    ensures TableAfter(events[..i + 1]) == TableMoves(TableAfter(events[..i]), events[i])
    ensures RanAfter(events[..i + 1]) ==
              RanAfter(events[..i]) + if events[i].Fires? then Runs(TableAfter(events[..i]), events[i].now) else []
  {
    assert events[..i + 1][..i] == events[..i];
    hide TableMoves, Runs;
  }

  lemma StaysAwake(ts: set<Entry>, armed: Option<int>, ts': set<Entry>, armed': Option<int>)
    requires ts != {} ==> armed.Some? && armed.value <= First(ts).when
    requires KeptArmed(ts, armed, ts', armed')
    ensures ts' != {} ==> armed'.Some? && armed'.value <= First(ts').when
  {}

  /** One-shot timers that ran are deleted, and ran once. */
  ghost predicate History(ran: seq<nat>, ledger: Ledger) {
    && (forall q <- ran :: q < ledger.created && (q in ledger.oneShot ==> q in ledger.freed))
    && (forall i, j :: 0 <= i < j < |ran| && ran[i] == ran[j] ==> ran[i] !in ledger.oneShot)
  }

  lemma HistoryFrame(q: TimerQueue, ran: seq<nat>, ledger: Ledger)
    requires History(ran, ledger) && Onward(ledger, q.ledger)
    ensures History(ran, q.ledger)
  {}

  /** A batch of timers never deleted before adds numbers that are not there yet, or repeat. */
  lemma HistoryFires(q: TimerQueue, expired: seq<Entry>, before: map<Addr, Timer>,
                     ran: seq<nat>, ledger: Ledger)
    requires History(ran, ledger) && Onward(ledger, q.ledger)
    requires q.NewIn(expired, before, ledger) && q.RanInOrder(ran, expired, before, |expired|)
    requires forall e <- expired ::
               before[e.addr].sequence in ledger.oneShot ==> before[e.addr].sequence in q.ledger.freed
    ensures History(q.ran, q.ledger)
    ensures forall i :: |ran| <= i < |q.ran| ==> q.ran[i] !in ledger.freed
  {
    forall i | |ran| <= i < |q.ran| ensures q.ran[i] == before[expired[i - |ran|].addr].sequence {
      var k := i - |ran|;
      assert q.ran[|ran| + k] == before[expired[k].addr].sequence;
    }
    assert forall i :: 0 <= i < |expired| ==> expired[i] in expired;
    assert forall i :: 0 <= i < |ran| ==> q.ran[i] == ran[i] && ran[i] in ran;
  }

  /** The loop calls the oldest closure. */
  method Call(q: TimerQueue)
    requires q.Valid() && q.Queued() && q.closures != []
    modifies q`heap, q`live, q`ledger, q`timers, q`active, q`queued, q`pending, q`armed, q`canceling
    modifies q`closures, q`called
    ensures q.Valid() && q.Queued() && Onward(old(q.ledger), q.ledger)
    ensures q.closures == old(q.closures)[1..] && q.called == old(q.called) + 1
    ensures match old(q.closures)[0]
            case AddInLoop(a) =>
              q.pending == old(q.pending) - {a} && q.queued == old(q.queued) + {a} && q.heap == old(q.heap)
            case CancelInLoop(id) =>
              q.pending == old(q.pending)
              && q.queued == old(q.queued) - (if id in old(q.active) then {id.addr} else {})
              && q.heap == old(q.heap) - (if id in old(q.active) then {id.addr} else {})
    ensures old(q.Awake()) ==> q.Awake()
    ensures !q.callingExpired ==> q.Value() == ClosureCalled(old(q.Value()))
  {
    hide TimerQueue.Agree, TimerQueue.Owned, TimerQueue.Counted, Kinds, First, KeptArmed, Onward, Waiting;
    hide IsEarliest, Cancelled, IsActive;
    Called(q.closures, q.pending);
    OnwardNew(q.ledger, false, 0);
    ghost var v, ts := q.Value(), q.timers;
    var closure := q.closures[0];
    q.closures, q.called := q.closures[1..], q.called + 1;
    match closure {
      case AddInLoop(a) =>
        q.AddTimerInLoop(a);
      case CancelInLoop(id) =>
        OnwardNew(q.ledger, false, id.sequence);
        q.ActiveIs(id);
        q.CancelInLoop(id);
        CancelledIs(v.(closures := q.closures), q.Value(), id, q.callingExpired, id in old(q.active));
    }
    if old(q.Awake()) {
      StaysAwake(ts, v.armed, q.timers, q.armed);
    }
  }

  /** A firing at a time before the epoch. */
  predicate BeforeEpoch(e: Event) {
    e.Fires? && e.now <= 0
  }

  /** The state between events. */
  ghost predicate Steady(q: TimerQueue)
    reads q
  {
    && q.Valid() && q.Queued() && q.batch == {} && !q.callingExpired
    && History(q.ran, q.ledger)
  }

  lemma KindsKnown(q: TimerQueue)
    requires q.Valid()
    ensures forall a <- q.heap :: q.heap[a].sequence in q.ledger.oneShot <==> !q.heap[a].Repeat()
  {}

  /** A firing runs only timers that were never deleted before it. */
  method Fire(q: TimerQueue, now: int, script: Script)
    requires Steady(q)
    modifies q
    ensures Steady(q) && Onward(old(q.ledger), q.ledger) && q.called == old(q.called)
    ensures q.Value() == Fired(old(q.Value()), now, script) && q.ran == old(q.ran) + Runs(old(q.Value()), now)
    ensures (0 < now ==> q.Awake()) && q.FollowsFirst()
    ensures old(q.ran) <= q.ran && forall i :: |old(q.ran)| <= i < |q.ran| ==> q.ran[i] !in old(q.ledger).freed
  {
    hide TimerQueue.Queued, Enumerates, Due;
    ghost var before, ran, ledger := q.heap, q.ran, q.ledger;
    KindsKnown(q);
    var expired := q.HandleRead(now, script);
    hide TimerQueue.Valid, TimerQueue.Awake, TimerQueue.FollowsFirst, TimerQueue.Unharmed;
    assert forall e <- expired ::
             before[e.addr].sequence in ledger.oneShot ==> before[e.addr].sequence in q.ledger.freed;
    HistoryFires(q, expired, before, ran, ledger);
  }

  /** One event; after a firing the descriptor follows the earliest timer, whatever the clock was. */
  method Happen(q: TimerQueue, e: Event)
    requires Steady(q)
    modifies q
    ensures Steady(q) && Onward(old(q.ledger), q.ledger)
    ensures q.called == old(q.called) + if e.CallClosure? && old(q.closures) != [] then 1 else 0
    ensures old(q.Awake()) && !BeforeEpoch(e) ==> q.Awake()
    ensures e.Fires? ==> q.FollowsFirst()
    ensures old(q.ran) <= q.ran && (!e.Fires? ==> q.ran == old(q.ran))
    ensures forall i :: |old(q.ran)| <= i < |q.ran| ==> q.ran[i] !in old(q.ledger).freed
    ensures q.Value() == TableMoves(old(q.Value()), e)
    ensures q.ran == old(q.ran) + if e.Fires? then Runs(old(q.Value()), e.now) else []
  {
    hide Fired, Submitting, Runs, Cancelled;
    hide TimerQueue.Valid, TimerQueue.Queued, TimerQueue.Awake, TimerQueue.FollowsFirst, History, Onward;
    ghost var ran, ledger := q.ran, q.ledger;
    match e
    case Outside(what) =>
      q.FromThread(what);
      HistoryFrame(q, ran, ledger);
    case CallClosure =>
      OnwardNew(q.ledger, false, 0);
      if q.closures != [] {
        Call(q);
        HistoryFrame(q, ran, ledger);
      }
    case Fires(now, script) =>
      Fire(q, now, script);
  }

  /**
    Every run, from an empty queue: threads add and cancel, closures are called in
    order, the descriptor fires at any time with any callbacks.  The indexes agree,
    every timer is in one place, a timer that does not repeat has run at most once,
    and unless the clock was before the epoch the descriptor is never late.  Timers,
    closures and the numbers that ran are those of the one table that has no indexes.
   */
  method Run(events: seq<Event>) returns (q: TimerQueue)
    ensures q.Valid() && q.Queued() && q.batch == {} && !q.callingExpired
    ensures History(q.ran, q.ledger)
    ensures (forall e <- events :: !BeforeEpoch(e)) ==> q.Awake()
    ensures events != [] && events[|events| - 1].Fires? ==> q.FollowsFirst()
    ensures q.Value() == TableAfter(events) && q.ran == RanAfter(events)
  {
    q := new TimerQueue();
    assert Steady(q) && TableAfter([]) == EMPTY_TABLE && RanAfter([]) == [];
    assert events[..0] == [];
    hide Steady, TimerQueue.Awake, TimerQueue.FollowsFirst, TableAfter, RanAfter, TableMoves, Runs, TimerQueue.Value;
    for i := 0 to |events|
      invariant Steady(q) && fresh(q)
      invariant (forall e <- events :: !BeforeEpoch(e)) ==> q.Awake()
      invariant 0 < i && events[i - 1].Fires? ==> q.FollowsFirst()
      invariant q.Value() == TableAfter(events[..i]) && q.ran == RanAfter(events[..i])
    {
      assert events[i] in events;
      AfterOne(events, i);
      Happen(q, events[i]);
    }
    assert events[..|events|] == events;
    assert Steady(q);
  }
}
