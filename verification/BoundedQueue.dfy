/** The monitor behind `BoundedBlockingQueue` and the task queue of `ThreadPool`: one mutex, two
    condition variables, single notification.  A step is one critical section: from acquiring the
    mutex to releasing it or going to sleep.  Waits may also wake spuriously. */
module BoundedQueue {
  import opened Common

  /** A blocking queue of capacity `cap`, or a thread pool with `maxQueueSize_ == cap`, where zero
      means unbounded. */
  datatype Config = BlockingQueue(cap: nat) | Pool(cap: nat)

  /** Threads asleep on a condition variable, threads woken but not yet run, the item each blocked
      producer brings, and the histories of items put and taken. */
  datatype State<T> = State(
    cfg: Config,
    queue: seq<T>,
    running: bool,
    consumers: set<nat>,
    wokenConsumers: set<nat>,
    producers: set<nat>,
    wokenProducers: set<nat>,
    items: map<nat, T>,
    accepted: seq<T>,
    taken: seq<T>)

  function Init<T>(cfg: Config): State<T> {
    State(cfg, [], true, {}, {}, {}, {}, map[], [], [])
  }

  predicate Full<T>(s: State<T>) {
    match s.cfg
    case BlockingQueue(cap) => |s.queue| >= cap
    case Pool(cap) => cap > 0 && |s.queue| >= cap
  }

  predicate Blocked<T>(s: State<T>, t: nat) {
    t in s.consumers || t in s.wokenConsumers || t in s.producers || t in s.wokenProducers
  }

  // ----- Notification --------------------------------------------------------------------------

  /** `notify`: one sleeper, chosen by the scheduler, is woken if there is any. */
  predicate Chooses(sleepers: set<nat>, wake: Option<nat>) {
    if sleepers == {} then wake == None else wake.Some? && wake.value in sleepers
  }

  function NotifyConsumer<T>(s: State<T>, wake: Option<nat>): State<T> {
    if wake.Some? then
      s.(consumers := s.consumers - {wake.value}, wokenConsumers := s.wokenConsumers + {wake.value})
    else s
  }

  function NotifyProducer<T>(s: State<T>, wake: Option<nat>): State<T> {
    if wake.Some? then
      s.(producers := s.producers - {wake.value}, wokenProducers := s.wokenProducers + {wake.value})
    else s
  }

  // ----- The critical sections -----------------------------------------------------------------

  /** The body of `put` and `run` for thread `t`, from the test of the wait loop on. */
  function TryPut<T>(s: State<T>, t: nat, x: T, wake: Option<nat>): State<T> {
    if Full(s) && s.running then s.(producers := s.producers + {t}, items := s.items[t := x])
    else if !s.running then s
    else NotifyConsumer(s.(queue := s.queue + [x], accepted := s.accepted + [x]), wake)
  }

  /** The body of `take`. */
  function TryTake<T>(s: State<T>, t: nat, wake: Option<nat>): State<T> {
    if s.queue == [] && s.running then s.(consumers := s.consumers + {t})
    else if s.queue == [] then s
    else
      var s' := s.(queue := s.queue[1..], taken := s.taken + [s.queue[0]]);
      if s.cfg.Pool? && s.cfg.cap == 0 then s' else NotifyProducer(s', wake)
  }

  datatype Step<T> =
    | Put(t: nat, x: T, wake: Option<nat>)
    | ResumePut(t: nat, wake: Option<nat>)
    | Take(t: nat, wake: Option<nat>)
    | ResumeTake(t: nat, wake: Option<nat>)
    | SpuriousConsumer(t: nat)
    | SpuriousProducer(t: nat)
    | Stop

  predicate Enabled<T>(s: State<T>, st: Step<T>) {
    match st
    case Put(t, _, wake) => !Blocked(s, t) && Chooses(s.consumers, wake)
    case ResumePut(t, wake) => t in s.wokenProducers && t in s.items && Chooses(s.consumers, wake)
    case Take(t, wake) => !Blocked(s, t) && Chooses(s.producers, wake)
    case ResumeTake(t, wake) => t in s.wokenConsumers && Chooses(s.producers, wake)
    case SpuriousConsumer(t) => t in s.consumers
    case SpuriousProducer(t) => t in s.producers
    case Stop => s.cfg.Pool?
  }

  function Next<T>(s: State<T>, st: Step<T>): State<T>
    requires Enabled(s, st)
  {
    match st
    case Put(t, x, wake) => TryPut(s, t, x, wake)
    case ResumePut(t, wake) => TryPut(s.(wokenProducers := s.wokenProducers - {t}), t, s.items[t], wake)
    case Take(t, wake) => TryTake(s, t, wake)
    case ResumeTake(t, wake) => TryTake(s.(wokenConsumers := s.wokenConsumers - {t}), t, wake)
    case SpuriousConsumer(t) => NotifyConsumer(s, Some(t))
    case SpuriousProducer(t) => NotifyProducer(s, Some(t))
    case Stop =>
      s.(running := false,
         wokenConsumers := s.wokenConsumers + s.consumers, consumers := {},
         wokenProducers := s.wokenProducers + s.producers, producers := {})
  }

  // ----- Invariant -----------------------------------------------------------------------------

  /** First in, first out, within the bound. */
  ghost predicate Fifo<T>(s: State<T>) {
    && s.taken + s.queue == s.accepted
    && (s.cfg.BlockingQueue? || s.cfg.cap > 0 ==> |s.queue| <= s.cfg.cap)
  }

  /** Nobody sleeps while there is something to do for more threads than have been woken for it;
      `c` and `p` count consumers and producers that are just running. */
  ghost predicate NoLostWakeup<T>(s: State<T>, c: nat, p: nat) {
    && (s.consumers != {} ==> |s.queue| <= |s.wokenConsumers| + c)
    && (s.producers != {} ==> s.cfg.cap - |s.queue| <= |s.wokenProducers| + p)
  }

  /** A thread is in one place. */
  ghost predicate Apart<T>(s: State<T>) {
    && s.consumers !! s.wokenConsumers
    && s.producers !! s.wokenProducers
    && (s.consumers + s.wokenConsumers) !! (s.producers + s.wokenProducers)
    && s.producers <= s.items.Keys && s.wokenProducers <= s.items.Keys
  }

  /** Nobody sleeps in a stopped pool, and no producer in an unbounded one. */
  ghost predicate SleepOk<T>(s: State<T>) {
    && (!s.running ==> s.consumers == {} && s.producers == {})
    && (s.cfg.Pool? && s.cfg.cap == 0 ==> s.producers == {})
  }

  ghost predicate InvWith<T>(s: State<T>, c: nat, p: nat) {
    Fifo(s) && NoLostWakeup(s, c, p) && Apart(s) && SleepOk(s)
  }

  ghost predicate Inv<T>(s: State<T>) { InvWith(s, 0, 0) }

  lemma NotifyConsumerCounts<T>(s: State<T>, wake: Option<nat>)
    requires Apart(s) && Chooses(s.consumers, wake)
    ensures var r := NotifyConsumer(s, wake);
            Apart(r) && (s.consumers != {} ==> |r.wokenConsumers| == |s.wokenConsumers| + 1)
  {
  }

  lemma NotifyProducerCounts<T>(s: State<T>, wake: Option<nat>)
    requires Apart(s) && Chooses(s.producers, wake)
    ensures var r := NotifyProducer(s, wake);
            Apart(r) && (s.producers != {} ==> |r.wokenProducers| == |s.wokenProducers| + 1)
  {
  }

  lemma FifoPut<T>(s: State<T>, x: T)
    requires Fifo(s) && !Full(s)
    ensures Fifo(s.(queue := s.queue + [x], accepted := s.accepted + [x]))
  {
    assert s.taken + (s.queue + [x]) == (s.taken + s.queue) + [x];
  }

  lemma FifoTake<T>(s: State<T>)
    requires Fifo(s) && s.queue != []
    ensures Fifo(s.(queue := s.queue[1..], taken := s.taken + [s.queue[0]]))
  {
    assert s.queue == [s.queue[0]] + s.queue[1..];
    assert s.taken + s.queue == (s.taken + [s.queue[0]]) + s.queue[1..];
  }

  /** The critical section of a producer that is awake. */
  lemma PutInv<T>(s: State<T>, t: nat, x: T, wake: Option<nat>)
    requires InvWith(s, 0, 1) && !Blocked(s, t) && Chooses(s.consumers, wake)
    ensures Inv(TryPut(s, t, x, wake))
  {
    if s.running && !Full(s) {
      var m := s.(queue := s.queue + [x], accepted := s.accepted + [x]);
      FifoPut(s, x);
      NotifyConsumerCounts(m, wake);
      var r := TryPut(s, t, x, wake);
      assert Apart(r) && SleepOk(r);
      assert NoLostWakeup(r, 0, 0);
    }
  }

  /** The critical section of a consumer that is awake. */
  lemma TakeInv<T>(s: State<T>, t: nat, wake: Option<nat>)
    requires InvWith(s, 1, 0) && !Blocked(s, t) && Chooses(s.producers, wake)
    ensures Inv(TryTake(s, t, wake))
  {
    if s.queue != [] {
      var m := s.(queue := s.queue[1..], taken := s.taken + [s.queue[0]]);
      FifoTake(s);
      NotifyProducerCounts(m, wake);
      var r := TryTake(s, t, wake);
      assert Apart(r) && SleepOk(r);
      assert NoLostWakeup(r, 0, 0);
    }
  }

  lemma ResumePutInv<T>(s: State<T>, t: nat, wake: Option<nat>)
    requires Inv(s) && Enabled(s, ResumePut(t, wake))
    ensures Inv(Next(s, ResumePut(t, wake)))
  {
    var m := s.(wokenProducers := s.wokenProducers - {t});
    assert |m.wokenProducers| + 1 == |s.wokenProducers|;
    assert InvWith(m, 0, 1);
    PutInv(m, t, s.items[t], wake);
  }

  lemma ResumeTakeInv<T>(s: State<T>, t: nat, wake: Option<nat>)
    requires Inv(s) && Enabled(s, ResumeTake(t, wake))
    ensures Inv(Next(s, ResumeTake(t, wake)))
  {
    var m := s.(wokenConsumers := s.wokenConsumers - {t});
    assert |m.wokenConsumers| + 1 == |s.wokenConsumers|;
    assert InvWith(m, 1, 0);
    TakeInv(m, t, wake);
  }

  lemma StopInv<T>(s: State<T>)
    requires Inv(s) && s.cfg.Pool?
    ensures Inv(Next(s, Stop))
  {
  }

  lemma StepInv<T>(s: State<T>, st: Step<T>)
    requires Inv(s) && Enabled(s, st)
    ensures Inv(Next(s, st))
  {
    match st
    case Put(t, x, wake) => PutInv(s, t, x, wake);
    case ResumePut(t, wake) => ResumePutInv(s, t, wake);
    case Take(t, wake) => TakeInv(s, t, wake);
    case ResumeTake(t, wake) => ResumeTakeInv(s, t, wake);
    case SpuriousConsumer(t) => NotifyConsumerCounts(s, Some(t));
    case SpuriousProducer(t) => NotifyProducerCounts(s, Some(t));
    case Stop => StopInv(s);
  }

  // ----- Runs ----------------------------------------------------------------------------------

  ghost predicate Legal<T>(s: State<T>, steps: seq<Step<T>>)
    decreases |steps|
  {
    steps == [] || (Enabled(s, steps[0]) && Legal(Next(s, steps[0]), steps[1..]))
  }

  ghost function Run<T>(s: State<T>, steps: seq<Step<T>>): State<T>
    requires Legal(s, steps)
    decreases |steps|
  {
    if steps == [] then s else Run(Next(s, steps[0]), steps[1..])
  }

  lemma {:induction false} RunInv<T>(s: State<T>, steps: seq<Step<T>>)
    requires Inv(s) && Legal(s, steps)
    ensures Inv(Run(s, steps)) && Run(s, steps).cfg == s.cfg && (!s.running ==> !Run(s, steps).running)
    decreases |steps|
  {
    hide Inv, Enabled;
    if steps != [] {
      StepInv(s, steps[0]);
      RunInv(Next(s, steps[0]), steps[1..]);
    }
  }

  // ----- What goes in and comes out, read off the steps ----------------------------------------

  predicate HasRoom<T>(s: State<T>) {
    match s.cfg
    case BlockingQueue(cap) => |s.queue| < cap
    case Pool(cap) => cap == 0 || |s.queue| < cap
  }

  /** The item each thread last called `put` with. */
  function LastPut<T>(last: map<nat, T>, st: Step<T>): map<nat, T> {
    if st.Put? then last[st.t := st.x] else last
  }

  /** The item of a call of `put`, fresh or resumed, that finds the queue running and not full. */
  ghost function Entering<T>(s: State<T>, last: map<nat, T>, st: Step<T>): seq<T> {
    if (st.Put? || st.ResumePut?) && s.running && HasRoom(s) && st.t in LastPut(last, st) then [LastPut(last, st)[st.t]]
    else []
  }

  ghost function Entered<T>(s: State<T>, last: map<nat, T>, steps: seq<Step<T>>): seq<T>
    requires Legal(s, steps)
    decreases |steps|
  {
    if steps == [] then []
    else Entering(s, last, steps[0]) + Entered(Next(s, steps[0]), LastPut(last, steps[0]), steps[1..])
  }

  /** The front of the queue for a call of `take` that finds an item. */
  ghost function Leaving<T>(s: State<T>, st: Step<T>): seq<T> {
    if (st.Take? || st.ResumeTake?) && s.queue != [] then [s.queue[0]] else []
  }

  ghost function Removed<T>(s: State<T>, steps: seq<Step<T>>): seq<T>
    requires Legal(s, steps)
    decreases |steps|
  {
    if steps == [] then [] else Leaving(s, steps[0]) + Removed(Next(s, steps[0]), steps[1..])
  }

  /** A blocked producer still brings the item it called `put` with. */
  ghost predicate Brings<T>(s: State<T>, last: map<nat, T>) {
    forall t :: t in s.producers || t in s.wokenProducers ==> t in s.items && t in last && s.items[t] == last[t]
  }

  lemma BringsStep<T>(s: State<T>, last: map<nat, T>, st: Step<T>)
    requires Brings(s, last) && Enabled(s, st)
    ensures Brings(Next(s, st), LastPut(last, st))
  {
  }

  lemma FlowStep<T>(s: State<T>, last: map<nat, T>, st: Step<T>)
    requires Brings(s, last) && Enabled(s, st)
    ensures Next(s, st).accepted == s.accepted + Entering(s, last, st)
    ensures Next(s, st).taken == s.taken + Leaving(s, st)
    ensures st.Put? || st.ResumePut? ==> st.t in LastPut(last, st)
  {
    assert s.accepted + [] == s.accepted && s.taken + [] == s.taken;
  }

  lemma {:induction false} FlowRun<T>(s: State<T>, last: map<nat, T>, steps: seq<Step<T>>)
    requires Brings(s, last) && Legal(s, steps)
    ensures Run(s, steps).accepted == s.accepted + Entered(s, last, steps)
    ensures Run(s, steps).taken == s.taken + Removed(s, steps)
    decreases |steps|
  {
    if steps != [] {
      FlowStep(s, last, steps[0]);
      BringsStep(s, last, steps[0]);
      hide Enabled, Next, Brings, Entering, Leaving, LastPut;
      var r, known := Next(s, steps[0]), LastPut(last, steps[0]);
      FlowRun(r, known, steps[1..]);
      Assoc(s.accepted, Entering(s, last, steps[0]), Entered(r, known, steps[1..]));
      Assoc(s.taken, Leaving(s, steps[0]), Removed(r, steps[1..]));
    }
  }

  lemma Assoc<T>(a: seq<T>, b: seq<T>, c: seq<T>)
    ensures (a + b) + c == a + (b + c)
  {
  }

  /** In every interleaving, what was taken followed by what is queued are, in order, the items of
      those calls of `put` that found the queue running and not full; nothing else gets in, and each
      call of `take` that found an item took the front one. */
  lemma NothingIsLost<T>(cfg: Config, steps: seq<Step<T>>)
    requires Legal(Init(cfg), steps)
    ensures var s := Run(Init<T>(cfg), steps);
            && s.taken + s.queue == Entered(Init<T>(cfg), map[], steps)
            && s.taken == Removed(Init<T>(cfg), steps)
  {
    RunInv(Init<T>(cfg), steps);
    FlowRun(Init<T>(cfg), map[], steps);
    hide Run, Legal, Entered, Removed;
    assert [] + Entered(Init<T>(cfg), map[], steps) == Entered(Init<T>(cfg), map[], steps);
    assert [] + Removed(Init<T>(cfg), steps) == Removed(Init<T>(cfg), steps);
  }

  /** Who goes to sleep and who is woken: a producer sleeps exactly when it finds a running queue full,
      a consumer when it finds a running queue empty; a call that goes through wakes one sleeper of
      the other kind, if there is any, and `stop` wakes all. */
  lemma WhoSleeps<T>(s: State<T>, st: Step<T>)
    requires Enabled(s, st)
    ensures var r := Next(s, st);
            match st
            case Put(t, _, wake) => PutSleeps(s, r, t, wake)
            case ResumePut(t, wake) => PutSleeps(s, r, t, wake)
            case Take(t, wake) => TakeSleeps(s, r, t, wake)
            case ResumeTake(t, wake) => TakeSleeps(s, r, t, wake)
            case SpuriousConsumer(t) =>
              r.consumers == s.consumers - {t} && r.wokenConsumers == s.wokenConsumers + {t} && r.running == s.running
            case SpuriousProducer(t) =>
              r.producers == s.producers - {t} && r.wokenProducers == s.wokenProducers + {t} && r.running == s.running
            case Stop =>
              && !r.running && r.consumers == {} && r.producers == {} && r.queue == s.queue
              && r.wokenConsumers == s.wokenConsumers + s.consumers
              && r.wokenProducers == s.wokenProducers + s.producers
  {
    hide PutSleeps, TakeSleeps, TryPut, TryTake, HasRoom;
    match st
    case Put(t, x, wake) =>
      assert s.wokenProducers - {t} == s.wokenProducers;
      PutDecides(s, s.wokenProducers - {t}, t, x, wake);
    case ResumePut(t, wake) => PutDecides(s, s.wokenProducers - {t}, t, s.items[t], wake);
    case Take(t, wake) =>
      assert s.wokenConsumers - {t} == s.wokenConsumers;
      TakeDecides(s, s.wokenConsumers - {t}, t, wake);
    case ResumeTake(t, wake) => TakeDecides(s, s.wokenConsumers - {t}, t, wake);
    case _ =>
  }

  lemma PutDecides<T>(s: State<T>, woken: set<nat>, t: nat, x: T, wake: Option<nat>)
    requires woken == s.wokenProducers - {t}
    ensures PutSleeps(s, TryPut(s.(wokenProducers := woken), t, x, wake), t, wake)
  {
  }

  lemma TakeDecides<T>(s: State<T>, woken: set<nat>, t: nat, wake: Option<nat>)
    requires woken == s.wokenConsumers - {t}
    ensures TakeSleeps(s, TryTake(s.(wokenConsumers := woken), t, wake), t, wake)
  {
  }

  ghost predicate PutSleeps<T>(s: State<T>, r: State<T>, t: nat, wake: Option<nat>) {
    && r.wokenProducers == s.wokenProducers - {t} && r.running == s.running && r.cfg == s.cfg
    && if s.running && !HasRoom(s) then
         r.producers == s.producers + {t} && r.consumers == s.consumers && r.wokenConsumers == s.wokenConsumers
       else if s.running && wake.Some? then
         && r.producers == s.producers && r.consumers == s.consumers - {wake.value}
         && r.wokenConsumers == s.wokenConsumers + {wake.value}
       else
         r.producers == s.producers && r.consumers == s.consumers && r.wokenConsumers == s.wokenConsumers
  }

  ghost predicate TakeSleeps<T>(s: State<T>, r: State<T>, t: nat, wake: Option<nat>) {
    && r.wokenConsumers == s.wokenConsumers - {t} && r.running == s.running && r.cfg == s.cfg
    && if s.running && s.queue == [] then
         r.consumers == s.consumers + {t} && r.producers == s.producers && r.wokenProducers == s.wokenProducers
       else if s.queue != [] && s.cfg != Pool(0) && wake.Some? then
         && r.consumers == s.consumers && r.producers == s.producers - {wake.value}
         && r.wokenProducers == s.wokenProducers + {wake.value}
       else
         r.consumers == s.consumers && r.producers == s.producers && r.wokenProducers == s.wokenProducers
  }

  /** In every interleaving the queue is first in, first out, never exceeds its bound, and no wakeup
      is lost: a sleeping consumer means no more items than consumers already woken, and a sleeping
      producer no more free slots than producers already woken. */
  lemma NeverLosesAWakeup<T>(cfg: Config, steps: seq<Step<T>>)
    requires Legal(Init(cfg), steps)
    ensures var s := Run(Init<T>(cfg), steps);
            && s.taken + s.queue == s.accepted
            && (cfg.BlockingQueue? || cfg.cap > 0 ==> |s.queue| <= cfg.cap)
            && (s.consumers != {} ==> |s.queue| <= |s.wokenConsumers|)
            && (s.producers != {} ==> cfg.cap - |s.queue| <= |s.wokenProducers|)
  {
    RunInv(Init<T>(cfg), steps);
  }

  /** So it never happens that consumers and producers all sleep, unless the capacity is zero. */
  lemma NotEverybodySleeps<T>(cfg: Config, steps: seq<Step<T>>)
    requires Legal(Init(cfg), steps) && cfg.cap > 0
    ensures var s := Run(Init<T>(cfg), steps);
            s.consumers != {} && s.producers != {} ==> s.wokenConsumers != {} || s.wokenProducers != {}
  {
    RunInv(Init<T>(cfg), steps);
  }

  /** After `stop` no thread sleeps, ever again, and no further task is accepted. */
  lemma StopWakesEverybody<T>(max: nat, before: seq<Step<T>>, after: seq<Step<T>>)
    requires Legal(Init(Pool(max)), before) && Run(Init<T>(Pool(max)), before).cfg.Pool?
    requires Legal(Next(Run(Init<T>(Pool(max)), before), Stop), after)
    ensures var s := Next(Run(Init<T>(Pool(max)), before), Stop);
            var r := Run(s, after);
            !r.running && r.consumers == {} && r.producers == {} && r.accepted == s.accepted
  {
    RunInv(Init<T>(Pool(max)), before);
    var s := Next(Run(Init<T>(Pool(max)), before), Stop);
    StepInv(Run(Init<T>(Pool(max)), before), Stop);
    RunInv(s, after);
    StopAcceptsNothing(s, after);
  }

  lemma {:induction false} StopAcceptsNothing<T>(s: State<T>, steps: seq<Step<T>>)
    requires Inv(s) && !s.running && Legal(s, steps)
    ensures Run(s, steps).accepted == s.accepted
    decreases |steps|
  {
    if steps != [] {
      StepInv(s, steps[0]);
      StopAcceptsNothing(Next(s, steps[0]), steps[1..]);
    }
  }
}
