/** The timer queue as a transition system over its whole state: the allocated timers, the two
    index sets, the batch in flight and the armed deadline of the timerfd.  Callbacks are arbitrary:
    any creations, additions and cancellations may happen between two steps of a batch. */
module TimerModel {
  import opened TimerSet

  const UINTPTR_MAX := 0xFFFF_FFFF_FFFF_FFFF
  const MICROS_PER_SECOND := 1000000

  /** `Timer`: `repeat_` is fixed by the sign of the interval when the timer is built. */
  datatype Timer = Timer(expiration: int, interval: real, sequence: int) {
    predicate Repeat() { interval > 0.0 }

    function Restart(now: int): Timer {
      this.(expiration := if Repeat() then AddTime(now, interval) else 0)
    }
  }

  /** `addTime` for a positive delay, whose truncation towards zero is the floor. */
  function AddTime(now: int, seconds: real): (t: int)
    requires seconds > 0.0
    ensures t >= now
  {
    now + (seconds * (MICROS_PER_SECOND as real)).Floor
  }

  /** A `TimerId`, and the element type of `activeTimers_` and `cancelingTimers_`. */
  datatype TimerId = TimerId(timer: int, sequence: int)

  datatype Timerfd = Disarmed | Armed(deadline: int, at: int)

  function Max(a: int, b: int): int { if a < b then b else a }

  /** The relative time handed to `timerfd_settime`, as seconds and nanoseconds. */
  function HowMuchTimeFromNow(when: int, now: int): (ts: (int, int))
    ensures 0 <= ts.1 < 1000000000
    ensures ts.0 * 1000000000 + ts.1 == 1000 * Max(when - now, 100)
  {
    var micros := if when - now < 100 then 100 else when - now;
    (micros / MICROS_PER_SECOND, (micros % MICROS_PER_SECOND) * 1000)
  }

  /** The timerfd after `resetTimerfd(when)` at clock reading `clock`. */
  function Arm(when: int, clock: int): Timerfd {
    var ts := HowMuchTimeFromNow(when, clock);
    Armed(clock + ts.0 * MICROS_PER_SECOND + ts.1 / 1000, clock)
  }

  lemma ArmDeadline(when: int, clock: int)
    ensures Arm(when, clock) == Armed(Max(when, clock + 100), clock)
  {
    var ts := HowMuchTimeFromNow(when, clock);
    var micros := Max(when - clock, 100);
    assert ts.1 / 1000 == micros % MICROS_PER_SECOND;
  }

  /** `posted` holds the timers allocated by `addTimer` whose `addTimerInLoop` has not run yet;
      `inflight` is the part of the expired batch not yet put back or deleted; `called` counts the
      callbacks made; `calls` and `deleted` record the sequence numbers of callbacks and deletions. */
  datatype State = State(
    heap: map<int, Timer>,
    created: nat,
    timers: seq<Entry>,
    active: set<TimerId>,
    canceling: set<TimerId>,
    calling: bool,
    inflight: seq<Entry>,
    called: nat,
    now: int,
    fd: Timerfd,
    posted: set<int>,
    deleted: multiset<int>,
    calls: seq<int>)
  {
    predicate Idle() { !calling && inflight == [] }
  }

  const Init := State(map[], 0, [], {}, {}, false, [], 0, 0, Disarmed, {}, multiset{}, [])

  function IdOf(s: State, a: int): TimerId
    requires a in s.heap
  {
    TimerId(a, s.heap[a].sequence)
  }

  // ----- Invariant -----------------------------------------------------------------------------

  ghost predicate Queued(s: State, a: int) {
    a in s.heap && IdOf(s, a) in s.active
  }

  ghost predicate InFlight(s: State, a: int) {
    exists e :: e in s.inflight && e.timer == a
  }

  /** `timers_` and `activeTimers_` describe the same allocated timers, at their expirations. */
  ghost predicate SameTimers(s: State) {
    && (forall e :: e in s.timers ==> Queued(s, e.timer) && s.heap[e.timer].expiration == e.when)
    && (forall t :: t in s.active ==>
          t.timer in s.heap && s.heap[t.timer].sequence == t.sequence
          && Entry(s.heap[t.timer].expiration, t.timer) in s.timers)
  }

  /** The batch in flight is ordered and holds allocated timers. */
  ghost predicate BatchOk(s: State) {
    && Sorted(s.inflight)
    && (forall e :: e in s.inflight ==> e.timer in s.heap && s.heap[e.timer].expiration == e.when)
  }

  /** The number of owners of an allocated timer. */
  ghost function Owners(s: State, a: int): nat {
    (if Queued(s, a) then 1 else 0) + (if InFlight(s, a) then 1 else 0) + (if a in s.posted then 1 else 0)
  }

  /** Every allocated timer has exactly one owner, except those in `free`, which are in the hands
      of the operation being carried out. */
  ghost predicate OwnedOnce(s: State, free: set<int>) {
    forall a :: a in s.heap ==> 0 < a < UINTPTR_MAX && Owners(s, a) == if a in free then 0 else 1
  }

  ghost predicate Live(s: State, q: int) {
    exists a :: a in s.heap && s.heap[a].sequence == q
  }

  /** Sequence numbers are unique, and each one ever given out is either live or deleted once. */
  ghost predicate DeletedOnce(s: State) {
    && (forall a, b :: a in s.heap && b in s.heap && s.heap[a].sequence == s.heap[b].sequence ==> a == b)
    && (forall q :: s.deleted[q] == if 1 <= q <= s.created && !Live(s, q) then 1 else 0)
    && (forall q :: Live(s, q) ==> 1 <= q <= s.created)
  }

  ghost predicate Inv(s: State) { InvBut(s, {}) }

  /** The states between two steps: a batch is in flight only while callbacks are being made. */
  ghost predicate Stable(s: State) {
    Inv(s) && (s.calling || s.inflight == [])
  }

  ghost predicate InvBut(s: State, free: set<int>) {
    && Sorted(s.timers)
    && SameTimers(s)
    && BatchOk(s)
    && OwnedOnce(s, free)
    && s.posted <= s.heap.Keys
    && DeletedOnce(s)
    && (s.calling ==> s.called <= |s.inflight|)
  }

  // ----- The operations ------------------------------------------------------------------------

  /** `insert`: the new state and `earliestChanged`. */
  function InsertTimer(s: State, a: int): (State, bool)
    requires a in s.heap
  {
    var when := s.heap[a].expiration;
    (s.(timers := Insert(s.timers, Entry(when, a)), active := s.active + {IdOf(s, a)}),
     s.timers == [] || when < s.timers[0].when)
  }

  function Delete(s: State, a: int): State
    requires a in s.heap
  {
    s.(heap := s.heap - {a}, deleted := s.deleted + multiset{s.heap[a].sequence})
  }

  /** `new Timer` inside `addTimer`, on any thread. */
  function Create(s: State, a: int, when: int, interval: real): State {
    s.(heap := s.heap[a := Timer(when, interval, s.created + 1)],
       created := s.created + 1,
       posted := s.posted + {a})
  }

  function AddTimerInLoop(s: State, a: int, clock: int): State
    requires a in s.heap
  {
    var (s', earliestChanged) := InsertTimer(s.(posted := s.posted - {a}), a);
    if earliestChanged then s'.(fd := Arm(s.heap[a].expiration, clock)) else s'
  }

  function CancelInLoop(s: State, id: TimerId): State
    requires SameTimers(s)
  {
    if id in s.active then
      var s' := s.(timers := Erase(s.timers, Entry(s.heap[id.timer].expiration, id.timer)));
      Delete(s', id.timer).(active := s.active - {id})
    else if s.calling then
      s.(canceling := s.canceling + {id})
    else
      s
  }

  function Sentry(now: int): Entry { Entry(now, UINTPTR_MAX) }

  ghost function IdsOf(s: State, es: seq<Entry>): set<TimerId>
    requires forall e :: e in es ==> e.timer in s.heap
  {
    set e | e in es :: IdOf(s, e.timer)
  }

  /** `getExpired(now)` followed by the start of the callback loop. */
  ghost function BeginRead(s: State, now: int, stillArmed: bool): State
    requires SameTimers(s)
  {
    var k := LowerBound(s.timers, Sentry(now));
    var expired := s.timers[..k];
    assert forall e :: e in expired ==> e in s.timers;
    s.(timers := s.timers[k..], active := s.active - IdsOf(s, expired), canceling := {},
       calling := true, inflight := expired, called := 0, now := now,
       fd := if stillArmed then s.fd else Disarmed)
  }

  /** One callback of the batch is entered; what it does are later steps. */
  function CallNext(s: State): State
    requires s.called < |s.inflight| && s.inflight[s.called].timer in s.heap
  {
    s.(called := s.called + 1, calls := s.calls + [s.heap[s.inflight[s.called].timer].sequence])
  }

  /** One round of the loop in `reset`. */
  function ResetOne(s: State): State
    requires s.inflight != [] && s.inflight[0].timer in s.heap
  {
    var a := s.inflight[0].timer;
    var rest := s.(inflight := s.inflight[1..]);
    if s.heap[a].Repeat() && IdOf(s, a) !in s.canceling then
      InsertTimer(rest.(heap := s.heap[a := s.heap[a].Restart(s.now)]), a).0
    else
      Delete(rest, a)
  }

  ghost function ResetAll(s: State): (r: State)
    requires Inv(s) && !s.calling
    ensures Inv(r) && r.inflight == [] && !r.calling
    decreases |s.inflight|
  {
    if s.inflight == [] then s
    else
      ResetOneKeepsInv(s);
      ResetAll(ResetOne(s))
  }

  /** The end of `reset`: `nextExpire.valid()` means a positive timestamp. */
  function Rearm(s: State, clock: int): State {
    if s.timers != [] && s.timers[0].when > 0 then s.(fd := Arm(s.timers[0].when, clock)) else s
  }

  ghost function EndRead(s: State, clock: int): State
    requires Inv(s)
  {
    var s' := s.(calling := false);
    assert Inv(s') by { Untouched(s, s'); }
    Rearm(ResetAll(s'), clock)
  }

  datatype Step =
    | CreateTimer(addr: int, when: int, interval: real)
    | AddInLoop(addr: int, clock: int)
    | Cancel(id: TimerId)
    | Begin(now: int, stillArmed: bool)
    | Call
    | End(clock: int)

  /** What the environment guarantees: the allocator returns a free address; each timer is handed
      once to `addTimerInLoop`; `handleRead` is not re-entered and makes every callback. */
  predicate Enabled(s: State, st: Step) {
    match st
    case CreateTimer(a, _, _) => 0 < a < UINTPTR_MAX && a !in s.heap
    case AddInLoop(a, _) => a in s.posted
    case Cancel(_) => true
    case Begin(_, _) => s.Idle()
    case Call => s.calling && s.called < |s.inflight|
    case End(_) => s.calling && s.called == |s.inflight|
  }

  ghost function Next(s: State, st: Step): (r: State)
    requires Stable(s) && Enabled(s, st)
    ensures Stable(r)
  {
    StepKeepsInv(s, st);
    Effect(s, st)
  }

  ghost function Effect(s: State, st: Step): State
    requires Inv(s) && Enabled(s, st)
  {
    match st
    case CreateTimer(a, when, interval) => Create(s, a, when, interval)
    case AddInLoop(a, clock) => AddTimerInLoop(s, a, clock)
    case Cancel(id) => CancelInLoop(s, id)
    case Begin(now, stillArmed) => BeginRead(s, now, stillArmed)
    case Call => CallNext(s)
    case End(clock) => EndRead(s, clock)
  }

  // ----- Every step keeps the invariant --------------------------------------------------------

  /** The fields the invariant does not speak about may change freely. */
  lemma Untouched(s: State, r: State)
    requires Inv(s)
    requires r == s.(fd := r.fd, calling := r.calling, canceling := r.canceling, called := r.called, calls := r.calls)
    requires r.calling ==> r.called <= |r.inflight|
    ensures Inv(r)
  {
    assert forall a :: Queued(r, a) == Queued(s, a) && InFlight(r, a) == InFlight(s, a);
    assert forall a :: a in s.heap ==> Owners(r, a) == Owners(s, a);
    assert forall q :: Live(r, q) == Live(s, q);
  }

  // Each operation takes a timer out of the hands of its owner and then inserts or deletes it.

  lemma TakePosted(s: State, a: int)
    requires Inv(s) && a in s.posted
    ensures InvBut(s.(posted := s.posted - {a}), {a})
  {
    var r := s.(posted := s.posted - {a});
    assert forall b :: Queued(r, b) == Queued(s, b) && InFlight(r, b) == InFlight(s, b);
    assert forall b :: b in s.heap ==> Owners(s, b) == 1;
    assert forall q :: Live(r, q) == Live(s, q);
  }

  lemma TakeHead(s: State)
    requires Inv(s) && !s.calling && s.inflight != []
    ensures InvBut(s.(inflight := s.inflight[1..]), {s.inflight[0].timer}) && s.inflight[0].timer in s.heap
  {
    var r := s.(inflight := s.inflight[1..]);
    var h := s.inflight[0];
    assert s.inflight == [h] + r.inflight;
    forall b | b in s.heap
      ensures Owners(r, b) == if b == h.timer then 0 else 1
    {
      assert Owners(s, b) == 1;
      assert Queued(r, b) == Queued(s, b);
      assert InFlight(s, b) <==> b == h.timer || InFlight(r, b);
    }
    assert forall q :: Live(r, q) == Live(s, q);
  }

  lemma TakeQueued(s: State, a: int)
    requires Inv(s) && Queued(s, a)
    ensures InvBut(s.(timers := Erase(s.timers, Entry(s.heap[a].expiration, a)),
                      active := s.active - {IdOf(s, a)}), {a})
  {
    var e := Entry(s.heap[a].expiration, a);
    var r := s.(timers := Erase(s.timers, e), active := s.active - {IdOf(s, a)});
    EraseKeepsOrder(s.timers, e);
    EraseMembers(s.timers, e);
    forall b | b in s.heap
      ensures Owners(r, b) == if b == a then 0 else 1
    {
      assert Owners(s, b) == 1;
      assert InFlight(r, b) == InFlight(s, b);
    }
    assert forall q :: Live(r, q) == Live(s, q);
  }

  lemma InsertKeepsInv(s: State, a: int)
    requires InvBut(s, {a}) && a in s.heap
    ensures Inv(InsertTimer(s, a).0)
  {
    var e := Entry(s.heap[a].expiration, a);
    var r := InsertTimer(s, a).0;
    assert Owners(s, a) == 0;
    InsertMembers(s.timers, e);
    InsertKeepsOrder(s.timers, e);
    forall b | b in s.heap
      ensures Owners(r, b) == 1
    {
      assert Owners(s, b) == if b == a then 0 else 1;
      assert InFlight(r, b) == InFlight(s, b);
    }
    assert forall q :: Live(r, q) == Live(s, q);
  }

  lemma DeleteKeepsInv(s: State, a: int)
    requires InvBut(s, {a}) && a in s.heap
    ensures Inv(Delete(s, a))
  {
    var r := Delete(s, a);
    assert Owners(s, a) == 0;
    forall b | b in r.heap
      ensures Owners(r, b) == 1 && Queued(r, b) == Queued(s, b)
    {
      assert Owners(s, b) == 1;
      assert InFlight(r, b) == InFlight(s, b);
    }
    DeleteOnce(s, a);
  }

  lemma DeleteOnce(s: State, a: int)
    requires DeletedOnce(s) && a in s.heap
    ensures DeletedOnce(Delete(s, a))
  {
    var r, d := Delete(s, a), s.heap[a].sequence;
    assert Live(s, d);
    forall q
      ensures Live(r, q) <==> Live(s, q) && q != d
    {
      if Live(s, q) && q != d {
        var b :| b in s.heap && s.heap[b].sequence == q;
        assert b in r.heap && r.heap[b] == s.heap[b];
      }
    }
    forall q
      ensures r.deleted[q] == if 1 <= q <= r.created && !Live(r, q) then 1 else 0
    {
      assert r.deleted[q] == s.deleted[q] + if q == d then 1 else 0;
    }
  }

  lemma RestartKeepsInv(s: State, a: int)
    requires InvBut(s, {a}) && a in s.heap
    ensures InvBut(s.(heap := s.heap[a := s.heap[a].Restart(s.now)]), {a})
  {
    var r := s.(heap := s.heap[a := s.heap[a].Restart(s.now)]);
    assert Owners(s, a) == 0;
    forall b | b in r.heap
      ensures Owners(r, b) == Owners(s, b)
    {
      assert InFlight(r, b) == InFlight(s, b) && Queued(r, b) == Queued(s, b);
    }
    assert forall q :: Live(s, q) == Live(r, q);
  }

  lemma ResetOneKeepsInv(s: State)
    requires Inv(s) && !s.calling && s.inflight != []
    ensures Inv(ResetOne(s))
  {
    var a := s.inflight[0].timer;
    TakeHead(s);
    var rest := s.(inflight := s.inflight[1..]);
    if s.heap[a].Repeat() && IdOf(s, a) !in s.canceling {
      RestartKeepsInv(rest, a);
      InsertKeepsInv(rest.(heap := s.heap[a := s.heap[a].Restart(s.now)]), a);
    } else {
      DeleteKeepsInv(rest, a);
    }
  }

  lemma CreateKeepsInv(s: State, a: int, when: int, interval: real)
    requires Inv(s) && 0 < a < UINTPTR_MAX && a !in s.heap
    ensures Inv(Create(s, a, when, interval))
  {
    var r := Create(s, a, when, interval);
    assert forall b :: b in s.heap ==> r.heap[b] == s.heap[b];
    forall b | b in r.heap
      ensures Owners(r, b) == 1
    {
      assert InFlight(r, b) == InFlight(s, b) && Queued(r, b) == Queued(s, b);
      assert b != a ==> Owners(s, b) == 1;
    }
    assert r.heap[a].sequence == s.created + 1;
    assert !Live(s, s.created + 1);
    assert forall q :: Live(r, q) <==> q == s.created + 1 || Live(s, q);
  }

  /** A timer is queued exactly when its entry is in `timers_`. */
  lemma QueuedByEntry(s: State, a: int)
    requires SameTimers(s) && a in s.heap
    ensures Queued(s, a) <==> Entry(s.heap[a].expiration, a) in s.timers
  {
  }

  lemma SplitSorted(ts: seq<Entry>, k: nat)
    requires Sorted(ts) && k <= |ts|
    ensures Sorted(ts[..k]) && Sorted(ts[k..]) && forall e :: e in ts[..k] ==> e !in ts[k..]
  {
    forall i, j | 0 <= i < k && 0 <= j < |ts| - k
      ensures ts[..k][i] != ts[k..][j]
    {
      assert Less(ts[i], ts[j + k]);
    }
  }

  lemma BeginSets(s: State, now: int, stillArmed: bool)
    requires Sorted(s.timers) && SameTimers(s)
    ensures var r := BeginRead(s, now, stillArmed);
            Sorted(r.timers) && SameTimers(r) && BatchOk(r)
  {
    hide Sorted;
    var r := BeginRead(s, now, stillArmed);
    SplitSorted(s.timers, |r.inflight|);
    assert s.timers == r.inflight + r.timers;
    forall e, f | e in r.inflight && f in r.timers
      ensures e.timer != f.timer
    {
      assert e in s.timers && f in s.timers;
    }
    forall t | t in r.active
      ensures Entry(s.heap[t.timer].expiration, t.timer) in r.timers
    {
      var e := Entry(s.heap[t.timer].expiration, t.timer);
      assert e in s.timers && t == IdOf(s, e.timer);
    }
  }

  lemma BeginKeepsInv(s: State, now: int, stillArmed: bool)
    requires Inv(s) && s.Idle()
    ensures Inv(BeginRead(s, now, stillArmed))
  {
    hide Sorted, SameTimers, BatchOk;
    assert SameTimers(s);
    var r := BeginRead(s, now, stillArmed);
    BeginSets(s, now, stillArmed);
    assert s.timers == r.inflight + r.timers;
    forall b | b in s.heap
      ensures Owners(r, b) == 1
    {
      assert Owners(s, b) == 1 && !InFlight(s, b);
      QueuedByEntry(s, b);
      QueuedByEntry(r, b);
      InFlightByEntry(r, b);
      BeginSplits(s, now, stillArmed, Entry(s.heap[b].expiration, b));
    }
    assert forall q :: Live(r, q) == Live(s, q);
  }

  lemma InFlightByEntry(s: State, a: int)
    requires BatchOk(s) && a in s.heap
    ensures InFlight(s, a) <==> Entry(s.heap[a].expiration, a) in s.inflight
  {
  }

  /** An entry goes either to the batch or stays in the queue. */
  lemma BeginSplits(s: State, now: int, stillArmed: bool, e: Entry)
    requires Sorted(s.timers) && SameTimers(s)
    ensures var r := BeginRead(s, now, stillArmed);
            && (e in s.timers <==> e in r.inflight || e in r.timers)
            && !(e in r.inflight && e in r.timers)
  {
    var r := BeginRead(s, now, stillArmed);
    assert s.timers == r.inflight + r.timers;
    SplitSorted(s.timers, |r.inflight|);
  }

  lemma StepKeepsInv(s: State, st: Step)
    requires Stable(s) && Enabled(s, st)
    ensures Stable(Effect(s, st))
  {
    match st
    case CreateTimer(a, when, interval) =>
      CreateKeepsInv(s, a, when, interval);
    case AddInLoop(a, clock) =>
      TakePosted(s, a);
      InsertKeepsInv(s.(posted := s.posted - {a}), a);
      Untouched(InsertTimer(s.(posted := s.posted - {a}), a).0, AddTimerInLoop(s, a, clock));
    case Cancel(id) =>
      if id in s.active {
        TakeQueued(s, id.timer);
        DeleteKeepsInv(s.(timers := Erase(s.timers, Entry(s.heap[id.timer].expiration, id.timer)),
                          active := s.active - {id}), id.timer);
      } else {
        Untouched(s, CancelInLoop(s, id));
      }
    case Begin(now, stillArmed) =>
      BeginKeepsInv(s, now, stillArmed);
    case Call =>
      Untouched(s, CallNext(s));
    case End(clock) =>
      Untouched(s, s.(calling := false));
      Untouched(ResetAll(s.(calling := false)), EndRead(s, clock));
  }
}
