/** The event loop's functor queue and its wakeups, as interleaved steps of the loop thread and any
    number of other threads.  Each step is one critical section or one system call. */
module EventLoops {

  /** Where the loop thread is: before or after `loop()`, in `poll`, in the handlers of active
      channels, in `doPendingFunctors` before the swap, or running the swapped-out batch. */
  datatype Phase = Outside | Polling | Handling | BeforeSwap | Running

  /** Functors and threads are numbered.  `queuers` are the other threads between the push and the
      `wakeup()` of their `queueInLoop`; `selfQueuing` says the same of the loop thread.  `pushed`
      and `executed` are histories, and `swapped` is how many had been pushed at the last swap. */
  datatype State = State(
    phase: Phase,
    calling: bool,
    pending: seq<nat>,
    batch: seq<nat>,
    eventfd: nat,
    queuers: set<nat>,
    selfQueuing: bool,
    pushed: seq<nat>,
    executed: seq<nat>,
    swapped: nat)

  const Init := State(Outside, false, [], [], 0, {}, false, [], [], 0)

  datatype Step =
    | EnterLoop
    | PollReturns
    | ReadEventfd
    | StartPending
    | Swap
    | RunNext
    | FinishPending(quit: bool)
    | QueueOnLoop(f: nat)
    | WakeSelf
    | QueueFrom(thread: nat, f: nat)
    | WakeFrom(thread: nat)
    | Kick
    | QueueOutsideLoop(f: nat)

  /** The order of the code.  User code on the loop thread runs in handlers and in functors, and
      finishes one `queueInLoop` before doing anything else. */
  predicate Enabled(s: State, st: Step) {
    match st
    case EnterLoop => s.phase == Outside
    case PollReturns => s.phase == Polling
    case ReadEventfd => s.phase == Handling
    case StartPending => s.phase == Handling
    case Swap => s.phase == BeforeSwap
    case RunNext => s.phase == Running && s.batch != [] && !s.selfQueuing
    case FinishPending(_) => s.phase == Running && s.batch == [] && !s.selfQueuing
    case QueueOnLoop(_) => (s.phase == Handling || s.phase == Running) && !s.selfQueuing
    case WakeSelf => s.selfQueuing
    case QueueFrom(t, _) => t !in s.queuers
    case WakeFrom(t) => t in s.queuers
    case Kick => true
    case QueueOutsideLoop(_) => s.phase == Outside
  }

  function Push(s: State, f: nat): State {
    s.(pending := s.pending + [f], pushed := s.pushed + [f])
  }

  function Next(s: State, st: Step): State
    requires Enabled(s, st)
  {
    match st
    case EnterLoop => s.(phase := Polling)
    case PollReturns => s.(phase := Handling)
    case ReadEventfd => s.(eventfd := 0)
    case StartPending => s.(phase := BeforeSwap, calling := true)
    case Swap => s.(phase := Running, batch := s.pending, pending := [], swapped := |s.pushed|)
    case RunNext => s.(batch := s.batch[1..], executed := s.executed + [s.batch[0]])
    case FinishPending(quit) => s.(phase := if quit then Outside else Polling, calling := false)
    case QueueOnLoop(f) => Push(s, f).(selfQueuing := s.calling)
    case WakeSelf => s.(eventfd := s.eventfd + 1, selfQueuing := false)
    case QueueFrom(t, f) => Push(s, f).(queuers := s.queuers + {t})
    case WakeFrom(t) => s.(eventfd := s.eventfd + 1, queuers := s.queuers - {t})
    case Kick => s.(eventfd := s.eventfd + 1)
    case QueueOutsideLoop(f) => Push(s, f)
  }

  ghost predicate Legal(s: State, steps: seq<Step>)
    decreases |steps|
  {
    steps == [] || (Enabled(s, steps[0]) && Legal(Next(s, steps[0]), steps[1..]))
  }

  function Run(s: State, steps: seq<Step>): State
    requires Legal(s, steps)
    decreases |steps|
  {
    if steps == [] then s else Run(Next(s, steps[0]), steps[1..])
  }

  // ----- Order ---------------------------------------------------------------------------------

  /** What has run, what is about to run and what is queued is what was pushed, in order; the batch
      is what remains of the functors pushed before the swap. */
  ghost predicate InOrder(s: State) {
    && s.executed + s.batch + s.pending == s.pushed
    && (s.phase == Running ==> |s.executed| + |s.batch| == s.swapped)
    && (s.phase != Running ==> s.batch == [])
    && (s.phase == Polling || s.phase == Outside ==> |s.executed| == s.swapped)
    && s.calling == (s.phase == BeforeSwap || s.phase == Running)
    && (s.selfQueuing ==> s.phase == Running)
  }

  lemma InOrderStep(s: State, st: Step)
    requires InOrder(s) && Enabled(s, st)
    ensures InOrder(Next(s, st))
  {
    if st.RunNext? {
      assert s.batch == [s.batch[0]] + s.batch[1..];
      assert s.executed + s.batch == (s.executed + [s.batch[0]]) + s.batch[1..];
    } else if st.QueueOnLoop? || st.QueueFrom? || st.QueueOutsideLoop? {
      assert (s.executed + s.batch + s.pending) + [st.f] == s.executed + s.batch + (s.pending + [st.f]);
    } else if st.Swap? {
      assert s.executed + [] + s.pending == s.executed + s.pending + [];
    }
  }

  // ----- Wakeups -------------------------------------------------------------------------------

  /** Past the swap, a queued functor is announced: the eventfd is readable, or whoever queued it
      has yet to write to it. */
  ghost predicate Announced(s: State) {
    s.pending != [] && (s.phase == Running || s.phase == Polling || s.phase == Outside) ==>
      s.eventfd > 0 || s.queuers != {} || s.selfQueuing
  }

  lemma AnnouncedStep(s: State, st: Step)
    requires InOrder(s) && Announced(s) && Enabled(s, st) && !st.QueueOutsideLoop?
    ensures Announced(Next(s, st))
  {
    if st.QueueFrom? {
      assert st.thread in Next(s, st).queuers;
    }
  }

  lemma {:induction false} InOrderRun(s: State, steps: seq<Step>)
    requires InOrder(s) && Legal(s, steps)
    ensures InOrder(Run(s, steps))
    decreases |steps|
  {
    if steps != [] {
      InOrderStep(s, steps[0]);
      InOrderRun(Next(s, steps[0]), steps[1..]);
    }
  }

  // What happened, read off the steps alone.

  function Pushed(st: Step): seq<nat> {
    if st.QueueOnLoop? || st.QueueFrom? || st.QueueOutsideLoop? then [st.f] else []
  }

  /** The functors queued, in order, by whatever thread. */
  function Pushes(steps: seq<Step>): seq<nat> {
    if steps == [] then [] else Pushed(steps[0]) + Pushes(steps[1..])
  }

  function Runs(steps: seq<Step>): nat {
    if steps == [] then 0 else (if steps[0].RunNext? then 1 else 0) + Runs(steps[1..])
  }

  /** Reading resets the eventfd, every wakeup adds one. */
  function EventfdAfter(n: nat, st: Step): nat {
    if st.ReadEventfd? then 0 else if st.WakeSelf? || st.WakeFrom? || st.Kick? then n + 1 else n
  }

  function Eventfd(n: nat, steps: seq<Step>): nat
    decreases |steps|
  {
    if steps == [] then n else Eventfd(EventfdAfter(n, steps[0]), steps[1..])
  }

  /** How many functors had been queued at the last swap, when `pushed` are queued so far. */
  function AtLastSwap(mark: nat, pushed: nat, steps: seq<Step>): nat
    decreases |steps|
  {
    if steps == [] then mark
    else AtLastSwap(if steps[0].Swap? then pushed else mark, pushed + |Pushed(steps[0])|, steps[1..])
  }

  /** Where the loop thread is after a step. */
  function PhaseAfter(p: Phase, st: Step): Phase {
    match st
    case EnterLoop => Polling
    case PollReturns => Handling
    case StartPending => BeforeSwap
    case Swap => Running
    case FinishPending(quit) => if quit then Outside else Polling
    case _ => p
  }

  function LastPhase(p: Phase, steps: seq<Step>): Phase
    decreases |steps|
  {
    if steps == [] then p else LastPhase(PhaseAfter(p, steps[0]), steps[1..])
  }

  /** The threads between the push and the wakeup of their `queueInLoop`. */
  function QueuersAfter(threads: set<nat>, st: Step): set<nat> {
    if st.QueueFrom? then threads + {st.thread} else if st.WakeFrom? then threads - {st.thread} else threads
  }

  function Queuers(threads: set<nat>, steps: seq<Step>): set<nat>
    decreases |steps|
  {
    if steps == [] then threads else Queuers(QueuersAfter(threads, steps[0]), steps[1..])
  }

  /** On the loop thread only a call made while functors are run has a wakeup to write. */
  lemma SelfWakeup(s: State, st: Step)
    requires InOrder(s) && Enabled(s, st)
    ensures Next(s, st).selfQueuing
            == if st.QueueOnLoop? then s.phase == Running else s.selfQueuing && !st.WakeSelf?
  {
  }

  lemma StepTells(s: State, st: Step)
    requires Enabled(s, st)
    ensures var r := Next(s, st);
            && r.pushed == s.pushed + Pushed(st) && |r.executed| == |s.executed| + (if st.RunNext? then 1 else 0)
            && r.eventfd == EventfdAfter(s.eventfd, st) && r.swapped == if st.Swap? then |s.pushed| else s.swapped
    ensures Next(s, st).phase == PhaseAfter(s.phase, st) && Next(s, st).queuers == QueuersAfter(s.queuers, st)
  {
    assert s.pushed + [] == s.pushed;
  }

  lemma {:induction false} StepsTell(s: State, steps: seq<Step>)
    requires Legal(s, steps)
    ensures var r := Run(s, steps);
            && r.pushed == s.pushed + Pushes(steps) && |r.executed| == |s.executed| + Runs(steps)
            && r.eventfd == Eventfd(s.eventfd, steps) && r.swapped == AtLastSwap(s.swapped, |s.pushed|, steps)
            && r.phase == LastPhase(s.phase, steps) && r.queuers == Queuers(s.queuers, steps)
    decreases |steps|
  {
    if steps == [] {
      assert s.pushed + [] == s.pushed;
    } else {
      StepTells(s, steps[0]);
      hide Enabled, Next, Pushed, EventfdAfter, PhaseAfter, QueuersAfter;
      StepsTell(Next(s, steps[0]), steps[1..]);
      var first, rest := Pushed(steps[0]), Pushes(steps[1..]);
      assert (s.pushed + first) + rest == s.pushed + (first + rest);
    }
  }

  lemma Prefix(a: seq<nat>, b: seq<nat>, c: seq<nat>)
    ensures |a| <= |a + b + c| && (a + b + c)[..|a|] == a
  {
  }

  /** In every interleaving, the functors queued run at most once, on the loop thread, in the order of
      queueing: those executed, the rest of the batch and the pending ones are all that were queued.
      Whenever the loop is back in `poll` it has run everything queued before its last swap. */
  lemma FunctorsRunInOrder(steps: seq<Step>)
    requires Legal(Init, steps)
    ensures var s := Run(Init, steps); var all := Pushes(steps);
            && Runs(steps) <= |all| && s.executed == all[..Runs(steps)]
            && s.executed + s.batch + s.pending == all
            && s.eventfd == Eventfd(0, steps) && s.phase == LastPhase(Outside, steps) && s.queuers == Queuers({}, steps)
            && (s.phase == Polling ==> Runs(steps) == AtLastSwap(0, 0, steps))
  {
    InOrderRun(Init, steps);
    StepsTell(Init, steps);
    hide Run, Legal, Pushes, Runs, Eventfd, AtLastSwap, LastPhase, Queuers;
    var s := Run(Init, steps);
    assert [] + Pushes(steps) == Pushes(steps);
    Prefix(s.executed, s.batch, s.pending);
  }

  /** The loop sits in `poll` with a functor queued and nothing to wake it. */
  predicate Silent(s: State) {
    s.phase == Polling && s.pending != [] && s.eventfd == 0 && s.queuers == {}
  }

  /** `queueInLoop` on the loop thread outside `loop()` wakes nobody.  Its functor is announced
      exactly when somebody else has written to the eventfd or is about to; otherwise entering
      `loop()` leads straight into a silent `poll`. */
  lemma QueueOutsideLoopExactly(s: State, f: nat)
    requires InOrder(s) && Announced(s) && s.phase == Outside
    ensures var r := Next(s, QueueOutsideLoop(f)); var covered := s.eventfd > 0 || s.queuers != {};
            && (Announced(r) <==> covered)
            && (Silent(Next(r, EnterLoop)) <==> !covered)
  {
    var r := Next(s, QueueOutsideLoop(f));
    assert r.pending[|r.pending| - 1] == f;
  }

  /** Whatever the loop thread queues outside `loop()` is covered in that way. */
  ghost predicate Covered(s: State, steps: seq<Step>)
    requires Legal(s, steps)
    decreases |steps|
  {
    steps == []
    || ((steps[0].QueueOutsideLoop? ==> s.eventfd > 0 || s.queuers != {}) && Covered(Next(s, steps[0]), steps[1..]))
  }

  ghost predicate AlwaysAnnounced(s: State, steps: seq<Step>)
    requires Legal(s, steps)
    decreases |steps|
  {
    Announced(s) && (steps == [] || AlwaysAnnounced(Next(s, steps[0]), steps[1..]))
  }

  /** So the runs in which every queued functor stays announced are exactly the covered ones. */
  lemma {:induction false} AnnouncedExactlyWhenCovered(s: State, steps: seq<Step>)
    requires InOrder(s) && Announced(s) && Legal(s, steps)
    ensures AlwaysAnnounced(s, steps) <==> Covered(s, steps)
    decreases |steps|
  {
    if steps != [] {
      var r := Next(s, steps[0]);
      InOrderStep(s, steps[0]);
      if steps[0].QueueOutsideLoop? {
        QueueOutsideLoopExactly(s, steps[0].f);
      } else {
        AnnouncedStep(s, steps[0]);
      }
      if Announced(r) {
        AnnouncedExactlyWhenCovered(r, steps[1..]);
      }
    }
  }

  lemma {:induction false} AlwaysHoldsAtTheEnd(s: State, steps: seq<Step>)
    requires Legal(s, steps) && AlwaysAnnounced(s, steps)
    ensures Announced(Run(s, steps))
    decreases |steps|
  {
    if steps != [] {
      AlwaysHoldsAtTheEnd(Next(s, steps[0]), steps[1..]);
    }
  }

  /** In every covered interleaving, in particular when loop-thread calls come from inside `loop()`,
      the loop never sits silently in `poll`: if a functor is queued, the eventfd is readable or a
      queuer is still between its push and its wakeup. */
  lemma NoLostWakeup(steps: seq<Step>)
    requires Legal(Init, steps) && Covered(Init, steps)
    ensures !Silent(Run(Init, steps))
    ensures LastPhase(Outside, steps) == Polling && Run(Init, steps).pending != [] ==>
              Eventfd(0, steps) > 0 || Queuers({}, steps) != {}
  {
    StepsTell(Init, steps);
    AnnouncedExactlyWhenCovered(Init, steps);
    AlwaysHoldsAtTheEnd(Init, steps);
    InOrderRun(Init, steps);
  }

  lemma {:induction false} InsideLoopIsCovered(s: State, steps: seq<Step>)
    requires Legal(s, steps) && forall st :: st in steps ==> !st.QueueOutsideLoop?
    ensures Covered(s, steps)
    decreases |steps|
  {
    if steps != [] {
      assert steps[0] in steps;
      InsideLoopIsCovered(Next(s, steps[0]), steps[1..]);
    }
  }

  /** One call of `queueInLoop`, from the loop thread or from another one. */
  datatype Queueing = Queueing(f: nat, onLoopThread: bool)

  class EventLoop {
    var pending: seq<nat>
    var calling: bool
    ghost var executed: seq<nat>
    ghost var wakeups: nat

    /** `queueInLoop`. */
    method QueueInLoop(q: Queueing)
      modifies this
      ensures pending == old(pending) + [q.f] && calling == old(calling) && executed == old(executed)
      ensures wakeups == old(wakeups) + if !q.onLoopThread || old(calling) then 1 else 0
    {
      pending := pending + [q.f];
      if !q.onLoopThread || calling {
        wakeups := wakeups + 1;
      }
    }

    method QueueAll(script: seq<Queueing>)
      requires calling
      modifies this
      ensures pending == old(pending) + Functors(script) && calling && executed == old(executed)
      ensures wakeups == old(wakeups) + |script|
    {
      var k := 0;
      while k < |script|
        invariant 0 <= k <= |script| && calling && executed == old(executed)
        invariant pending == old(pending) + Functors(script[..k]) && wakeups == old(wakeups) + k
      {
        assert script[..k + 1][..k] == script[..k];
        QueueInLoop(script[k]);
        k := k + 1;
      }
      assert script[..k] == script;
    }

    /** `doPendingFunctors`, where `scripts[i]` lists what is queued while the i-th functor of the
        batch runs, by that functor or by other threads, and the entry behind the last functor what
        other threads queue before the end.  The batch is run in order, whatever is queued meanwhile
        stays for the next round in the order of queueing, and each queueing writes one wakeup. */
    method DoPendingFunctors(scripts: seq<seq<Queueing>>)
      requires !calling
      modifies this
      ensures executed == old(executed) + old(pending) && !calling
      ensures pending == Functors(Queued(scripts, |old(pending)| + 1))
      ensures wakeups == old(wakeups) + |pending|
    {
      calling := true;
      var functors := pending;
      pending := [];
      QueuedNext(scripts, 0);
      var i := 0;
      hide Functors, Queued;
      while i < |functors|
        invariant 0 <= i <= |functors| && calling
        invariant executed == old(executed) + functors[..i]
        invariant pending == Functors(Queued(scripts, i)) && wakeups == old(wakeups) + |pending|
      {
        QueuedNext(scripts, i);
        OneMore(old(executed), functors, i);
        executed := executed + [functors[i]];
        QueueAll(ScriptAt(scripts, i));
        i := i + 1;
      }
      assert functors[..i] == functors;
      QueuedNext(scripts, i);
      QueueAll(ScriptAt(scripts, i));
      calling := false;
    }
  }

  lemma OneMore(a: seq<nat>, b: seq<nat>, i: nat)
    requires i < |b|
    ensures (a + b[..i]) + [b[i]] == a + b[..i + 1]
  {
  }

  lemma QueuedNext(scripts: seq<seq<Queueing>>, i: nat)
    ensures Functors(Queued(scripts, 0)) == []
    ensures Functors(Queued(scripts, i + 1)) == Functors(Queued(scripts, i)) + Functors(ScriptAt(scripts, i))
  {
    FunctorsConcat(Queued(scripts, i), ScriptAt(scripts, i));
  }

  function ScriptAt(scripts: seq<seq<Queueing>>, i: nat): seq<Queueing> { if i < |scripts| then scripts[i] else [] }

  function Functors(script: seq<Queueing>): (fs: seq<nat>)
    ensures |fs| == |script|
  {
    if script == [] then [] else Functors(script[..|script| - 1]) + [script[|script| - 1].f]
  }

  lemma {:induction false} FunctorsConcat(a: seq<Queueing>, b: seq<Queueing>)
    ensures Functors(a + b) == Functors(a) + Functors(b)
    decreases |b|
  {
    if b == [] {
      assert a + b == a;
    } else {
      assert (a + b)[..|a + b| - 1] == a + b[..|b| - 1];
      FunctorsConcat(a, b[..|b| - 1]);
    }
  }

  /** Everything queued during the first `n` entries. */
  function Queued(scripts: seq<seq<Queueing>>, n: nat): seq<Queueing> {
    if n == 0 then [] else Queued(scripts, n - 1) + ScriptAt(scripts, n - 1)
  }
}
