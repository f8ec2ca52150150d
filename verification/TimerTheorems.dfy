/** What holds of the timer queue in every run, started from the empty queue, of creations,
    additions, cancellations and expiry rounds. */
module TimerTheorems {
  import opened TimerSet
  import opened TimerModel

  ghost predicate Legal(s: State, steps: seq<Step>)
    decreases |steps|
  {
    Stable(s) && (steps == [] || (Enabled(s, steps[0]) && Legal(Next(s, steps[0]), steps[1..])))
  }

  ghost function Run(s: State, steps: seq<Step>): (r: State)
    requires Legal(s, steps)
    ensures Stable(r)
    decreases |steps|
  {
    if steps == [] then s else Run(Next(s, steps[0]), steps[1..])
  }

  /** The empty queue is where runs start. */
  lemma InitIsStable()
    ensures Legal(Init, [])
  {
    assert forall q :: !Live(Init, q);
  }

  // ----- The two sets agree; ownership ---------------------------------------------------------

  lemma {:induction false} IdsCount(s: State, ts: seq<Entry>)
    requires Sorted(ts)
    requires forall e :: e in ts ==> e.timer in s.heap && s.heap[e.timer].expiration == e.when
    ensures |IdsOf(s, ts)| == |ts|
  {
    if ts != [] {
      var n := |ts| - 1;
      var last := ts[n];
      assert ts == ts[..n] + [last];
      IdsCount(s, ts[..n]);
      assert IdsOf(s, ts) == IdsOf(s, ts[..n]) + {IdOf(s, last.timer)};
      forall e | e in ts[..n]
        ensures e.timer != last.timer
      {
        var i :| 0 <= i < n && ts[i] == e;
        assert Less(ts[i], ts[n]);
      }
    }
  }

  /** The assertion `timers_.size() == activeTimers_.size()`. */
  lemma SizesAgree(s: State)
    requires Sorted(s.timers) && SameTimers(s)
    ensures |s.timers| == |s.active|
  {
    IdsCount(s, s.timers);
    assert s.active == IdsOf(s, s.timers);
  }

  /** In every reachable state the two sets hold the same timers at their current expirations, and
      every timer ever created is either deleted, once, or allocated with exactly one owner. */
  lemma EveryRun(steps: seq<Step>)
    requires Legal(Init, steps)
    ensures var s := Run(Init, steps);
            && |s.timers| == |s.active|
            && (forall a :: Queued(s, a) <==> a in s.heap && Entry(s.heap[a].expiration, a) in s.timers)
            && (forall a :: a in s.heap ==> Owners(s, a) == 1)
            && (forall q :: 1 <= q <= s.created ==> s.deleted[q] + (if Live(s, q) then 1 else 0) == 1)
            && (s.Idle() && s.posted == {} ==> s.heap.Keys == set e | e in s.timers :: e.timer)
  {
    var s := Run(Init, steps);
    SizesAgree(s);
    if s.Idle() && s.posted == {} {
      forall a | a in s.heap
        ensures Entry(s.heap[a].expiration, a) in s.timers
      {
        assert Owners(s, a) == 1 && !InFlight(s, a);
      }
      var queue := set e | e in s.timers :: e.timer;
      assert forall a :: a in s.heap ==> Entry(s.heap[a].expiration, a).timer in queue;
    }
  }

  // ----- The expired batch ---------------------------------------------------------------------

  /** `lower_bound` of the sentry separates the due entries from the others. */
  lemma SentrySplits(ts: seq<Entry>, now: int)
    requires Sorted(ts) && forall e :: e in ts ==> e.timer < UINTPTR_MAX
    ensures var k := LowerBound(ts, Sentry(now));
            && (forall e :: e in ts[..k] ==> e.when <= now)
            && (forall e :: e in ts[k..] ==> e.when > now)
  {
    var k := LowerBound(ts, Sentry(now));
    LowerBoundSplits(ts, Sentry(now));
    forall i | k <= i < |ts|
      ensures ts[i].when > now
    {
      assert ts[i] in ts && !Less(ts[i], Sentry(now));
    }
  }

  lemma AddressesBelowSentry(s: State)
    requires Inv(s)
    ensures forall e :: e in s.timers ==> e.timer < UINTPTR_MAX
  {
    forall e | e in s.timers
      ensures e.timer < UINTPTR_MAX
    {
      assert Owners(s, e.timer) == 1;
    }
  }

  lemma ActiveSplits(s: State, now: int, stillArmed: bool)
    requires SameTimers(s) && Sorted(s.timers) && forall e :: e in s.timers ==> e.timer < UINTPTR_MAX
    ensures var r := BeginRead(s, now, stillArmed);
            forall t :: t in r.active <==> t in s.active && s.heap[t.timer].expiration > now
  {
    hide Sorted, LowerBound;
    var r := BeginRead(s, now, stillArmed);
    SentrySplits(s.timers, now);
    assert s.timers == r.inflight + r.timers;
    forall t | t in s.active
      ensures t in r.active <==> s.heap[t.timer].expiration > now
    {
      IdOfEntry(s, r.inflight, t);
      assert Entry(s.heap[t.timer].expiration, t.timer) in s.timers;
    }
  }

  lemma IdOfEntry(s: State, es: seq<Entry>, t: TimerId)
    requires SameTimers(s) && t in s.active && forall e :: e in es ==> e in s.timers
    ensures t in IdsOf(s, es) <==> Entry(s.heap[t.timer].expiration, t.timer) in es
  {
    var e := Entry(s.heap[t.timer].expiration, t.timer);
    assert t == IdOf(s, e.timer);
  }

  /** `getExpired(now)` removes exactly the timers due at `now`, in order, from both sets, and the
      assertion after `lower_bound` holds. */
  lemma BatchIsExactlyTheDue(s: State, now: int, stillArmed: bool)
    requires Stable(s) && s.Idle()
    ensures var r := Next(s, Begin(now, stillArmed));
            && r.inflight + r.timers == s.timers
            && Sorted(r.inflight)
            && (forall e :: e in r.inflight <==> e in s.timers && e.when <= now)
            && (forall e :: e in r.timers <==> e in s.timers && e.when > now)
            && (forall t :: t in r.active <==> t in s.active && s.heap[t.timer].expiration > now)
  {
    hide SameTimers, OwnedOnce, DeletedOnce, IdsOf;
    var r := Next(s, Begin(now, stillArmed));
    AddressesBelowSentry(s);
    SentrySplits(s.timers, now);
    assert s.timers == r.inflight + r.timers;
    ActiveSplits(s, now, stillArmed);
  }

  ghost function Sequences(s: State, es: seq<Entry>): seq<int>
    requires forall e :: e in es ==> e.timer in s.heap
  {
    seq(|es|, i requires 0 <= i < |es| => assert es[i] in es; s.heap[es[i].timer].sequence)
  }

  ghost predicate NoEnd(steps: seq<Step>) {
    forall st :: st in steps ==> !st.End?
  }

  /** No step but the end of the round touches the batch or the timers in it, and the callbacks
      made by a step are the next ones of the batch. */
  lemma BatchStep(s: State, st: Step)
    requires Stable(s) && s.calling && Enabled(s, st) && !st.End?
    ensures var r := Next(s, st);
            && r.calling && r.inflight == s.inflight && s.called <= r.called
            && Sequences(r, r.inflight) == Sequences(s, s.inflight)
            && r.calls == s.calls + Sequences(s, s.inflight)[s.called..r.called]
  {
    var r := Next(s, st);
    forall e | e in s.inflight
      ensures e.timer in r.heap && r.heap[e.timer] == s.heap[e.timer]
    {
      FlightUntouched(s, st, e);
    }
    var qs := Sequences(s, s.inflight);
    SameSequences(s, r, s.inflight);
    if st.Call? {
      assert s.called < |qs| && qs[s.called] == s.heap[s.inflight[s.called].timer].sequence;
      assert qs[s.called..s.called + 1] == [qs[s.called]];
    } else {
      assert qs[s.called..s.called] == [] && s.calls + [] == s.calls;
    }
    hide Stable, Sequences;
  }

  lemma FlightUntouched(s: State, st: Step, e: Entry)
    requires Stable(s) && s.calling && Enabled(s, st) && !st.End? && e in s.inflight
    ensures var r := Next(s, st); r.inflight == s.inflight && e.timer in r.heap && r.heap[e.timer] == s.heap[e.timer]
  {
    assert Owners(s, e.timer) == 1;
    assert InFlight(s, e.timer);
    hide DeletedOnce, Sorted;
  }

  lemma SameSequences(s: State, r: State, es: seq<Entry>)
    requires forall e :: e in es ==> e.timer in s.heap && e.timer in r.heap && r.heap[e.timer] == s.heap[e.timer]
    ensures Sequences(r, es) == Sequences(s, es)
  {
    assert forall i :: 0 <= i < |es| ==> es[i] in es;
  }

  lemma Join<T>(a: seq<T>, b: seq<T>, c: seq<T>, qs: seq<T>, i: nat, j: nat, k: nat)
    requires i <= j <= k <= |qs| && b == a + qs[i..j] && c == b + qs[j..k]
    ensures c == a + qs[i..k]
  {
  }

  /** The batch is fixed once it is taken: whatever the callbacks add or cancel, the callbacks made
      up to the end of the round are those of the batch, in order.  So a cancellation from inside a
      batch does not stop a callback of that batch. */
  lemma {:induction false} BatchIsCalledInFull(s: State, steps: seq<Step>)
    requires s.calling && Legal(s, steps) && NoEnd(steps)
    ensures var r := Run(s, steps);
            && s.called <= r.called <= |s.inflight|
            && r.calls == s.calls + Sequences(s, s.inflight)[s.called..r.called]
    decreases |steps|
  {
    if steps == [] {
      assert Sequences(s, s.inflight)[s.called..s.called] == [];
    } else {
      var m := Next(s, steps[0]);
      assert steps[0] in steps;
      BatchStep(s, steps[0]);
      BatchIsCalledInFull(m, steps[1..]);
      var r := Run(m, steps[1..]);
      Join(s.calls, m.calls, r.calls, Sequences(s, s.inflight), s.called, m.called, r.called);
    }
  }

  // ----- What a round, an addition and a cancellation do ---------------------------------------

  /** `e` is `seconds` after `now`, cut to whole microseconds. */
  ghost predicate After(e: int, now: int, seconds: real) {
    (e - now) as real <= seconds * 1000000.0 < (e - now + 1) as real
  }

  /** What the end of a round makes of timer `a`. */
  ghost predicate Settled(s: State, r: State, a: int)
    requires a in s.heap
  {
    if !InFlight(s, a) then
      a in r.heap && r.heap[a] == s.heap[a] && (Queued(r, a) <==> Queued(s, a))
    else if s.heap[a].interval > 0.0 && IdOf(s, a) !in s.canceling then
      a in r.heap && RestartedAt(s.heap[a], r.heap[a], s.now) && Queued(r, a)
    else
      a !in r.heap
  }

  ghost predicate RestartedAt(t: Timer, u: Timer, now: int) {
    u.sequence == t.sequence && u.interval == t.interval && After(u.expiration, now, t.interval)
  }

  lemma RestartIsOneIntervalLater(t: Timer, now: int)
    requires t.interval > 0.0
    ensures t.Repeat() && RestartedAt(t, t.Restart(now), now)
  {
    var d := t.interval * (MICROS_PER_SECOND as real);
    assert d == t.interval * 1000000.0;
    assert d.Floor as real <= d < (d.Floor + 1) as real;
  }

  lemma ResetOneSettles(s: State, a: int)
    requires Inv(s) && !s.calling && s.inflight != [] && a in s.heap
    ensures var m := ResetOne(s);
            && m.canceling == s.canceling && m.now == s.now
            && (if a != s.inflight[0].timer then
                  && a in m.heap && m.heap[a] == s.heap[a]
                  && Queued(m, a) == Queued(s, a) && InFlight(m, a) == InFlight(s, a)
                else if s.heap[a].interval > 0.0 && IdOf(s, a) !in s.canceling then
                  a in m.heap && RestartedAt(s.heap[a], m.heap[a], s.now) && Queued(m, a) && !InFlight(m, a)
                else a !in m.heap)
  {
    var h := s.inflight[0];
    assert s.inflight == [h] + s.inflight[1..];
    TakeHead(s);
    var rest := s.(inflight := s.inflight[1..]);
    assert Owners(rest, h.timer) == 0;
    if s.heap[a].interval > 0.0 { RestartIsOneIntervalLater(s.heap[a], s.now); }
    hide RestartedAt;
  }

  lemma {:induction false} ResetSettles(s: State, a: int)
    requires Inv(s) && !s.calling && a in s.heap
    ensures Settled(s, ResetAll(s), a)
    decreases |s.inflight|
  {
    hide InvBut, ResetOne, RestartedAt;
    if s.inflight == [] {
      assert !InFlight(s, a);
    } else {
      TakeHead(s);
      ResetOneKeepsInv(s);
      ResetOneSettles(s, a);
      var m := ResetOne(s);
      var h := s.inflight[0].timer;
      assert InFlight(s, h);
      if a in m.heap {
        ResetShrinks(s);
        ResetSettles(m, a);
      } else {
        ResetShrinks(s);
        GoneStaysGone(m, a);
      }
    }
  }

  lemma ResetShrinks(s: State)
    requires Inv(s) && !s.calling && s.inflight != []
    ensures ResetOne(s).inflight == s.inflight[1..] && !ResetOne(s).calling
  {
  }

  lemma {:induction false} GoneStaysGone(s: State, a: int)
    requires Inv(s) && !s.calling && a !in s.heap
    ensures a !in ResetAll(s).heap
    decreases |s.inflight|
  {
    if s.inflight != [] {
      ResetOneKeepsInv(s);
      GoneStaysGone(ResetOne(s), a);
    }
  }

  /** At the end of a round every timer of the batch that repeats and was not cancelled is queued
      again, one interval after `now`; the others of the batch are deleted; no other timer changes. */
  lemma RoundOutcome(s: State, clock: int, a: int)
    requires Stable(s) && Enabled(s, End(clock)) && a in s.heap
    ensures Settled(s, Next(s, End(clock)), a)
  {
    hide RestartedAt;
    var m := s.(calling := false);
    Untouched(s, m);
    ResetSettles(m, a);
    assert InFlight(m, a) == InFlight(s, a) && Queued(m, a) == Queued(s, a);
    var r := ResetAll(m);
    assert a in r.heap ==> Queued(Next(s, End(clock)), a) == Queued(r, a);
  }

  /** `addTimerInLoop` queues its timer and `cancelInLoop` deletes its timer if queued; neither
      touches any other timer. */
  lemma AddAndCancelOutcome(s: State, st: Step, a: int)
    requires Stable(s) && Enabled(s, st) && (st.AddInLoop? || st.Cancel?) && a in s.heap
    ensures var r := Next(s, st);
            if st.Cancel? && st.id == IdOf(s, a) && Queued(s, a) then a !in r.heap
            else
              && a in r.heap && r.heap[a] == s.heap[a]
              && (Queued(r, a) <==> Queued(s, a) || (st.AddInLoop? && st.addr == a))
  {
  }

  /** During a round the batch, its timers and the clock reading stay, and a timer of the batch is
      among the cancelled ones exactly if a callback cancels it. */
  lemma FlightStep(s: State, st: Step, e: Entry)
    requires Stable(s) && s.calling && Enabled(s, st) && !st.End? && e in s.inflight
    ensures var r := Next(s, st);
            && r.calling && r.now == s.now && r.inflight == s.inflight
            && e.timer in r.heap && r.heap[e.timer] == s.heap[e.timer]
            && (IdOf(s, e.timer) in r.canceling <==> IdOf(s, e.timer) in s.canceling || st == Cancel(IdOf(s, e.timer)))
  {
    FlightUntouched(s, st, e);
    assert Owners(s, e.timer) == 1;
    assert InFlight(s, e.timer);
    hide InvBut;
  }

  lemma {:induction false} FlightRun(s: State, steps: seq<Step>, e: Entry)
    requires Legal(s, steps) && NoEnd(steps) && s.calling && e in s.inflight
    ensures e.timer in s.heap
    ensures var r := Run(s, steps); var id := IdOf(s, e.timer);
            && r.calling && r.now == s.now && e in r.inflight
            && e.timer in r.heap && r.heap[e.timer] == s.heap[e.timer]
            && (id in r.canceling <==> id in s.canceling || Cancel(id) in steps)
    decreases |steps|
  {
    if steps != [] {
      assert steps[0] in steps;
      FlightStep(s, steps[0], e);
      hide Stable, Enabled, Effect;
      assert steps == [steps[0]] + steps[1..];
      FlightRun(Next(s, steps[0]), steps[1..], e);
    }
  }

  /** A whole round at clock reading `now`, whatever its callbacks do: a due timer that repeats and
      is not cancelled by any of them is queued again one interval after `now`, with its sequence
      number and interval; any other due timer is deleted. */
  lemma RoundReschedules(s: State, a: int, now: int, stillArmed: bool, steps: seq<Step>, clock: int)
    requires Stable(s) && s.Idle() && Queued(s, a) && s.heap[a].expiration <= now
    requires Legal(Next(s, Begin(now, stillArmed)), steps) && NoEnd(steps)
    requires Enabled(Run(Next(s, Begin(now, stillArmed)), steps), End(clock))
    ensures var r := Next(Run(Next(s, Begin(now, stillArmed)), steps), End(clock)); var t := s.heap[a];
            if t.interval > 0.0 && Cancel(TimerId(a, t.sequence)) !in steps then
              && Queued(r, a) && r.heap[a].sequence == t.sequence && r.heap[a].interval == t.interval
              && (r.heap[a].expiration - now) as real <= t.interval * 1000000.0
              && t.interval * 1000000.0 < (r.heap[a].expiration - now + 1) as real
            else a !in r.heap
  {
    var e := Entry(s.heap[a].expiration, a);
    BatchIsExactlyTheDue(s, now, stillArmed);
    BeginKeepsTimers(s, now, stillArmed);
    hide Stable, Enabled, Effect;
    var m := Next(s, Begin(now, stillArmed));
    assert e in m.inflight;
    FlightRun(m, steps, e);
    assert InFlight(Run(m, steps), a);
    RoundOutcome(Run(m, steps), clock, a);
  }

  lemma BeginKeepsTimers(s: State, now: int, stillArmed: bool)
    requires Stable(s) && s.Idle()
    ensures var r := Next(s, Begin(now, stillArmed));
            r.calling && r.now == now && r.heap == s.heap && r.canceling == {}
    ensures forall a :: Queued(s, a) ==> Entry(s.heap[a].expiration, a) in s.timers
  {
  }

  /** `addTimer` creates one timer, as asked for and with a new sequence number, and changes no other. */
  lemma CreateOutcome(s: State, a: int, when: int, interval: real)
    requires Stable(s) && Enabled(s, CreateTimer(a, when, interval))
    ensures var r := Next(s, CreateTimer(a, when, interval));
            && r.heap.Keys == s.heap.Keys + {a} && r.posted == s.posted + {a} && r.created == s.created + 1
            && r.heap[a].expiration == when && r.heap[a].interval == interval && r.heap[a].sequence == r.created
            && (forall b :: b in s.heap ==> r.heap[b] == s.heap[b] && s.heap[b].sequence < r.created)
            && r.timers == s.timers && r.active == s.active && r.inflight == s.inflight
  {
    forall b | b in s.heap
      ensures s.heap[b].sequence <= s.created
    {
      assert Live(s, s.heap[b].sequence);
    }
  }

  /** When and for what the timerfd is set: by an addition that becomes the earliest, and at the end
      of a round for a queue with a positive earliest expiration; never before it is due. */
  lemma ArmingOutcome(s: State, st: Step)
    requires Stable(s) && Enabled(s, st)
    ensures var r := Next(s, st);
            match st
            case AddInLoop(a, clock) =>
              a in s.heap && r.fd == if s.timers == [] || s.heap[a].expiration < s.timers[0].when
                                     then Armed(Max(s.heap[a].expiration, clock + 100), clock) else s.fd
            case Begin(_, stillArmed) => r.fd == if stillArmed then s.fd else Disarmed
            case End(clock) =>
              r.fd == if r.timers != [] && r.timers[0].when > 0
                      then Armed(Max(r.timers[0].when, clock + 100), clock) else s.fd
            case _ => r.fd == s.fd
  {
    assert st.AddInLoop? ==> st.addr in s.heap;
    hide InvBut, Arm;
    match st
    case AddInLoop(a, clock) => ArmDeadline(s.heap[a].expiration, clock);
    case End(clock) => ArmingAtEnd(s, clock);
    case _ =>
  }

  lemma ArmingAtEnd(s: State, clock: int)
    requires Stable(s) && Enabled(s, End(clock))
    ensures var r := Next(s, End(clock));
            r.fd == if r.timers != [] && r.timers[0].when > 0
                    then Armed(Max(r.timers[0].when, clock + 100), clock) else s.fd
  {
    var m := s.(calling := false);
    Untouched(s, m);
    hide InvBut, Arm;
    ResetKeepsFd(m);
    var r := ResetAll(m);
    if r.timers != [] { ArmDeadline(r.timers[0].when, clock); }
  }

  lemma {:induction false} ResetKeepsFd(s: State)
    requires Inv(s) && !s.calling
    ensures ResetAll(s).fd == s.fd
    decreases |s.inflight|
  {
    if s.inflight != [] {
      ResetOneKeepsInv(s);
      ResetKeepsFd(ResetOne(s));
    }
  }

  // ----- Cancellation --------------------------------------------------------------------------

  /** The batches taken during a run, as the sequence numbers of their timers. */
  ghost function Batches(s: State, steps: seq<Step>): seq<seq<int>>
    requires Legal(s, steps)
    decreases |steps|
  {
    if steps == [] then []
    else
      var m := Next(s, steps[0]);
      (if steps[0].Begin? then [Sequences(m, m.inflight)] else []) + Batches(m, steps[1..])
  }

  /** Sequence number `q` can never enter a batch again. */
  ghost predicate Doomed(s: State, q: int) {
    && q <= s.created
    && (forall a :: a in s.heap && s.heap[a].sequence == q ==>
          InFlight(s, a) && s.calling && TimerId(a, q) in s.canceling)
  }

  lemma {:induction false} DoomedThroughReset(s: State, q: int)
    requires Inv(s) && !s.calling
    requires forall a :: a in s.heap && s.heap[a].sequence == q ==> InFlight(s, a) && TimerId(a, q) in s.canceling
    ensures var r := ResetAll(s);
            r.created == s.created && forall a :: a in r.heap ==> r.heap[a].sequence != q
    decreases |s.inflight|
  {
    if s.inflight == [] {
      assert forall a :: !InFlight(s, a);
    } else {
      ResetOneKeepsInv(s);
      var m := ResetOne(s);
      var h := s.inflight[0];
      forall a | a in m.heap && m.heap[a].sequence == q
        ensures InFlight(m, a) && TimerId(a, q) in m.canceling
      {
        var e :| e in s.inflight && e.timer == a;
        assert e != h;
        assert e in m.inflight;
      }
      DoomedThroughReset(m, q);
    }
  }

  lemma DoomedBegin(s: State, st: Step, q: int)
    requires Stable(s) && Enabled(s, st) && st.Begin? && Doomed(s, q)
    ensures Doomed(Next(s, st), q) && q !in Sequences(Next(s, st), Next(s, st).inflight)
  {
    hide DeletedOnce, Sorted;
    assert forall a :: !InFlight(s, a);
  }

  lemma DoomedEnd(s: State, st: Step, q: int)
    requires Stable(s) && Enabled(s, st) && st.End? && Doomed(s, q)
    ensures Doomed(Next(s, st), q)
  {
    var m := s.(calling := false);
    Untouched(s, m);
    assert forall a :: InFlight(m, a) == InFlight(s, a);
    hide Stable, Inv;
    DoomedThroughReset(m, q);
  }

  lemma DoomedOther(s: State, st: Step, q: int)
    requires Stable(s) && Enabled(s, st) && !st.Begin? && !st.End? && Doomed(s, q)
    ensures Doomed(Next(s, st), q)
  {
    hide Stable, Inv;
    var r := Next(s, st);
    forall a | a in r.heap && r.heap[a].sequence == q
      ensures InFlight(r, a)
    {
      assert InFlight(s, a);
      assert r.inflight == s.inflight;
    }
  }

  lemma DoomedStep(s: State, st: Step, q: int)
    requires Stable(s) && Enabled(s, st) && Doomed(s, q)
    ensures Doomed(Next(s, st), q)
    ensures st.Begin? ==> q !in Sequences(Next(s, st), Next(s, st).inflight)
  {
    hide Stable, Doomed, Effect, Enabled, Next;
    if st.Begin? {
      DoomedBegin(s, st, q);
    } else if st.End? {
      DoomedEnd(s, st, q);
    } else {
      DoomedOther(s, st, q);
    }
  }

  lemma {:induction false} DoomedForever(s: State, steps: seq<Step>, q: int)
    requires Legal(s, steps) && Doomed(s, q)
    ensures forall b :: b in Batches(s, steps) ==> q !in b
    decreases |steps|
  {
    if steps != [] {
      DoomedStep(s, steps[0], q);
      DoomedForever(Next(s, steps[0]), steps[1..], q);
    }
  }

  /** A timer cancelled while it is queued or in the batch in flight, be it a repeating timer
      cancelled from its own or a sibling's callback, enters no later batch of any run. */
  lemma CancelledNeverExpiresAgain(s: State, a: int, steps: seq<Step>)
    requires Stable(s) && a in s.heap && a !in s.posted
    requires Legal(Next(s, Cancel(IdOf(s, a))), steps)
    ensures forall b :: b in Batches(Next(s, Cancel(IdOf(s, a))), steps) ==> s.heap[a].sequence !in b
  {
    var q := s.heap[a].sequence;
    var r := Next(s, Cancel(IdOf(s, a)));
    assert Owners(s, a) == 1;
    assert Live(s, q);
    forall b | b in r.heap && r.heap[b].sequence == q
      ensures InFlight(r, b) && r.calling && TimerId(b, q) in r.canceling
    {
      assert b == a && !Queued(s, a) && InFlight(s, a);
      assert r.inflight == s.inflight;
    }
    DoomedForever(r, steps, q);
  }

  lemma DueEntersBatch(s: State, a: int, now: int)
    requires Stable(s) && s.Idle() && Queued(s, a) && s.heap[a].expiration <= now
    ensures var r := Next(s, Begin(now, false)); s.heap[a].sequence in Sequences(r, r.inflight)
  {
    BatchIsExactlyTheDue(s, now, false);
    var r := Next(s, Begin(now, false));
    var e := Entry(s.heap[a].expiration, a);
    assert e in r.inflight;
    var i :| 0 <= i < |r.inflight| && r.inflight[i] == e;
    assert Sequences(r, r.inflight)[i] == s.heap[a].sequence;
  }

  /** The remaining case: a cancellation that overtakes the `addTimerInLoop` of its timer, be it
      between two rounds or from inside a callback, does not keep the timer out of the queue. */
  lemma CancelBeforeAddIsLost(s: State, a: int, clock: int)
    requires Stable(s) && a in s.posted
    ensures a in Next(s, Cancel(IdOf(s, a))).posted
    ensures var r := Next(Next(s, Cancel(IdOf(s, a))), AddInLoop(a, clock));
            Queued(r, a) && r.heap[a] == s.heap[a]
  {
    assert Owners(s, a) == 1;
  }

  /** From any state, the rest of the round and a next round that finds it due put a queued timer
      into a batch, also when its id is among those cancelled during the present round. */
  lemma {:induction false} QueuedCanExpire(s: State, a: int) returns (steps: seq<Step>)
    requires Stable(s) && Queued(s, a)
    ensures Legal(s, steps) && exists b :: b in Batches(s, steps) && s.heap[a].sequence in b
    decreases s.calling, |s.inflight| - s.called
  {
    var q := s.heap[a].sequence;
    var st := if s.Idle() then Begin(s.heap[a].expiration, false) else if s.called < |s.inflight| then Call else End(0);
    var m := Next(s, st);
    var rest := [];
    if s.Idle() {
      DueEntersBatch(s, a, s.heap[a].expiration);
    } else {
      QueuedStays(s, st, a);
      rest := QueuedCanExpire(m, a);
    }
    steps := [st] + rest;
    assert steps[1..] == rest;
    BatchesOf(s, steps);
  }

  lemma BatchesOf(s: State, steps: seq<Step>)
    requires Legal(s, steps) && steps != []
    ensures var m := Next(s, steps[0]); var later := Batches(m, steps[1..]);
            && (forall b :: b in later ==> b in Batches(s, steps))
            && (steps[0].Begin? ==> Sequences(m, m.inflight) in Batches(s, steps))
  {
  }

  lemma QueuedStays(s: State, st: Step, a: int)
    requires Stable(s) && Queued(s, a) && Enabled(s, st) && (st.Call? || st.End?)
    ensures var r := Next(s, st); Queued(r, a) && r.heap[a] == s.heap[a] && (st.End? ==> r.Idle())
    ensures st.Call? ==> Next(s, st).calling && Next(s, st).inflight == s.inflight && Next(s, st).called == s.called + 1
  {
    assert Owners(s, a) == 1;
    if st.End? {
      RoundOutcome(s, st.clock, a);
    }
  }

  lemma LostCancelExpires(s: State, a: int) returns (steps: seq<Step>)
    requires Stable(s) && a in s.posted
    ensures var r := Next(s, Cancel(IdOf(s, a)));
            Legal(r, steps) && exists b :: b in Batches(r, steps) && s.heap[a].sequence in b
  {
    CancelBeforeAddIsLost(s, a, 0);
    var r := Next(s, Cancel(IdOf(s, a)));
    assert Enabled(r, AddInLoop(a, 0));
    hide Stable, Enabled, Effect, Batches, Next;
    var m := Next(r, AddInLoop(a, 0));
    var rest := QueuedCanExpire(m, a);
    steps := [AddInLoop(a, 0)] + rest;
    assert steps[1..] == rest;
    BatchesOf(r, steps);
  }

  /** Cancelling an allocated timer is final exactly when its `addTimerInLoop` has run. */
  lemma CancelIsFinalExactly(s: State, a: int)
    requires Stable(s) && a in s.heap
    ensures var r := Next(s, Cancel(IdOf(s, a)));
            (forall steps, b :: Legal(r, steps) && b in Batches(r, steps) ==> s.heap[a].sequence !in b)
            <==> a !in s.posted
  {
    hide Stable, Effect, Legal, Batches, Next;
    var q := s.heap[a].sequence;
    var r := Next(s, Cancel(IdOf(s, a)));
    if a in s.posted {
      var steps := LostCancelExpires(s, a);
    } else {
      forall steps, b | Legal(r, steps) && b in Batches(r, steps)
        ensures q !in b
      {
        CancelledNeverExpiresAgain(s, a, steps);
      }
    }
  }

  /** Cancelling an id whose timer is gone changes nothing about any live timer, even when a live
      timer has the same address. */
  lemma StaleCancelIsHarmless(s: State, id: TimerId)
    requires Stable(s) && !(id.timer in s.heap && IdOf(s, id.timer) == id)
    ensures var r := Next(s, Cancel(id));
            && r == s.(canceling := if s.calling then s.canceling + {id} else s.canceling)
            && (forall a :: a in s.heap ==> (IdOf(s, a) in r.canceling <==> IdOf(s, a) in s.canceling))
  {
  }

  // ----- The armed deadline --------------------------------------------------------------------

  /** The timerfd fires no later than the earliest expiration or 100 microseconds after it was set. */
  ghost predicate DeadlineOk(s: State) {
    s.timers != [] ==> s.fd.Armed? && s.fd.deadline <= Max(s.timers[0].when, s.fd.at + 100)
  }

  /** While a batch is in flight the fd may be disarmed, if nothing already due is queued. */
  ghost predicate DeadlineInv(s: State) {
    DeadlineOk(s) || (!s.Idle() && s.now > 0 && s.timers[0].when > s.now)
  }

  lemma {:induction false} ResetDeadline(s: State)
    requires Inv(s) && !s.calling && s.now > 0
    ensures var r := ResetAll(s);
            && r.fd == s.fd && r.now == s.now
            && (r.timers != [] && r.timers[0].when <= 0 ==> s.timers != [] && s.timers[0] == r.timers[0])
    decreases |s.inflight|
  {
    if s.inflight != [] {
      var a := s.inflight[0].timer;
      ResetOneKeepsInv(s);
      if s.heap[a].Repeat() && IdOf(s, a) !in s.canceling {
        TakeHead(s);
        assert Owners(s.(inflight := s.inflight[1..]), a) == 0;
        var e := Entry(s.heap[a].Restart(s.now).expiration, a);
        assert e !in s.timers;
        InsertKeepsOrder(s.timers, e);
      }
      ResetDeadline(ResetOne(s));
    }
  }

  lemma DeadlineAdd(s: State, a: int, clock: int)
    requires Stable(s) && a in s.posted && DeadlineInv(s)
    ensures DeadlineInv(Next(s, AddInLoop(a, clock)))
  {
    var e := Entry(s.heap[a].expiration, a);
    assert Owners(s, a) == 1;
    InsertKeepsOrder(s.timers, e);
    ArmDeadline(e.when, clock);
  }

  lemma DeadlineCancel(s: State, id: TimerId)
    requires Stable(s) && DeadlineInv(s)
    ensures DeadlineInv(Next(s, Cancel(id)))
  {
    if id in s.active {
      EraseKeepsOrder(s.timers, Entry(s.heap[id.timer].expiration, id.timer));
    }
  }

  lemma DeadlineBegin(s: State, now: int, stillArmed: bool)
    requires Stable(s) && s.Idle() && DeadlineInv(s) && now > 0
    ensures DeadlineInv(Next(s, Begin(now, stillArmed)))
  {
    var r := Next(s, Begin(now, stillArmed));
    BatchIsExactlyTheDue(s, now, stillArmed);
    if r.timers != [] {
      assert r.timers[0] in r.timers;
    }
  }

  lemma DeadlineEnd(s: State, clock: int)
    requires Stable(s) && Enabled(s, End(clock)) && DeadlineInv(s) && s.now > 0
    ensures DeadlineOk(Next(s, End(clock)))
  {
    var m := s.(calling := false);
    Untouched(s, m);
    ResetDeadline(m);
    var r := ResetAll(m);
    if r.timers != [] {
      ArmDeadline(r.timers[0].when, clock);
    }
  }

  lemma DeadlineStep(s: State, st: Step)
    requires Stable(s) && Enabled(s, st) && DeadlineInv(s)
    requires st.Begin? ==> st.now > 0
    requires !s.Idle() ==> s.now > 0
    ensures DeadlineInv(Next(s, st))
    ensures !Next(s, st).Idle() ==> Next(s, st).now > 0
  {
    match st
    case AddInLoop(a, clock) => DeadlineAdd(s, a, clock);
    case Cancel(id) => DeadlineCancel(s, id);
    case Begin(now, stillArmed) => DeadlineBegin(s, now, stillArmed);
    case End(clock) => DeadlineEnd(s, clock);
    case _ =>
  }

  ghost predicate PositiveClock(steps: seq<Step>) {
    forall st :: st in steps ==> (st.Begin? ==> st.now > 0)
  }

  lemma {:induction false} DeadlineRun(s: State, steps: seq<Step>)
    requires DeadlineInv(s) && (!s.Idle() ==> s.now > 0)
    requires Legal(s, steps) && PositiveClock(steps)
    ensures DeadlineInv(Run(s, steps))
    decreases |steps|
  {
    if steps != [] {
      assert steps[0] in steps;
      DeadlineStep(s, steps[0]);
      DeadlineRun(Next(s, steps[0]), steps[1..]);
    }
  }

  /** Outside `handleRead`, a non-empty queue always has the timerfd armed in time, provided that
      expiry rounds read a positive clock. */
  lemma AlwaysArmedInTime(steps: seq<Step>)
    requires Legal(Init, steps) && PositiveClock(steps)
    requires Run(Init, steps).Idle()
    ensures DeadlineOk(Run(Init, steps))
  {
    DeadlineRun(Init, steps);
  }

  /** `reset` skips the arming exactly when the earliest expiration is not a valid timestamp: the
      round ends with the fd armed in time if and only if that does not happen or the fd already was. */
  lemma RearmExactly(s: State, clock: int)
    ensures DeadlineOk(Rearm(s, clock)) <==> s.timers == [] || s.timers[0].when > 0 || DeadlineOk(s)
  {
    if s.timers != [] {
      ArmDeadline(s.timers[0].when, clock);
    }
  }

  /** With a clock at or before the epoch the promise fails: a round that finds nothing due leaves
      a timer that is due by the epoch without a deadline. */
  lemma NonPositiveClockLosesTheDeadline(s: State, now: int, clock: int)
    requires Stable(s) && s.Idle() && s.timers != [] && now < s.timers[0].when <= 0
    ensures var r := Next(s, Begin(now, false));
            && Enabled(r, End(clock))
            && var r' := Next(r, End(clock)); r'.timers == s.timers && r'.fd == Disarmed && !DeadlineOk(r')
  {
    var r := Next(s, Begin(now, false));
    assert LowerBound(s.timers, Sentry(now)) == 0;
    Untouched(r, r.(calling := false));
    assert ResetAll(r.(calling := false)) == r.(calling := false);
  }
}
