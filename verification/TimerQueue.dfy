/** `TimerQueue` itself: the methods that run on the loop thread, with the assertions of the
    source, each proved to take the transition of the model. */
module TimerQueues {
  import opened TimerSet
  import opened TimerModel
  import opened TimerTheorems

  /** What a callback may do besides returning: create, add and cancel timers. */
  predicate CallbackStep(st: Step) { st.CreateTimer? || st.AddInLoop? || st.Cancel? }

  /** A callback as a finite script; a step the environment cannot take is passed over. */
  ghost function Script(s: State, ops: seq<Step>): (r: State)
    requires Stable(s) && s.calling
    ensures Stable(r) && r.calling && r.inflight == s.inflight && r.called == s.called
    decreases |ops|
  {
    if ops == [] then s
    else if CallbackStep(ops[0]) && Enabled(s, ops[0]) then
      Script(Next(s, ops[0]), ops[1..])
    else
      Script(s, ops[1..])
  }

  function ScriptOf(scripts: seq<seq<Step>>, i: nat): seq<Step> {
    if i < |scripts| then scripts[i] else []
  }

  /** The rest of the callback loop of `handleRead`, the i-th callback running `scripts[i]`. */
  ghost function Callbacks(s: State, scripts: seq<seq<Step>>): (r: State)
    requires Stable(s) && s.calling
    ensures Stable(r) && r.calling && r.inflight == s.inflight && r.called == |r.inflight|
    decreases |s.inflight| - s.called
  {
    if s.called == |s.inflight| then s
    else Callbacks(Script(Next(s, Call), ScriptOf(scripts, s.called)), scripts)
  }

  lemma {:induction false} RunConcat(s: State, xs: seq<Step>, ys: seq<Step>)
    requires Legal(s, xs) && Legal(Run(s, xs), ys)
    ensures Legal(s, xs + ys) && Run(s, xs + ys) == Run(Run(s, xs), ys)
    decreases |xs|
  {
    hide Stable, Enabled, Effect;
    if xs == [] {
      assert xs + ys == ys;
    } else {
      RunConcat(Next(s, xs[0]), xs[1..], ys);
      assert (xs + ys)[1..] == xs[1..] + ys;
    }
  }

  lemma {:induction false} ScriptIsRun(s: State, ops: seq<Step>) returns (steps: seq<Step>)
    requires Stable(s) && s.calling
    ensures Legal(s, steps) && Run(s, steps) == Script(s, ops) && NoEnd(steps)
    decreases |ops|
  {
    if ops == [] {
      steps := [];
    } else if CallbackStep(ops[0]) && Enabled(s, ops[0]) {
      var rest := ScriptIsRun(Next(s, ops[0]), ops[1..]);
      steps := [ops[0]] + rest;
      assert steps[1..] == rest;
    } else {
      steps := ScriptIsRun(s, ops[1..]);
    }
  }

  /** The callback loop, whatever the callbacks do, is a run of the model. */
  lemma {:induction false} CallbacksAreARun(s: State, scripts: seq<seq<Step>>) returns (steps: seq<Step>)
    requires Stable(s) && s.calling
    ensures Legal(s, steps) && Run(s, steps) == Callbacks(s, scripts) && NoEnd(steps)
    decreases |s.inflight| - s.called
  {
    if s.called == |s.inflight| {
      steps := [];
    } else {
      var m := Next(s, Call);
      var script := ScriptIsRun(m, ScriptOf(scripts, s.called));
      var rest := CallbacksAreARun(Run(m, script), scripts);
      RunConcat(m, script, rest);
      steps := [Call] + (script + rest);
      assert steps[1..] == script + rest;
    }
  }

  class TimerQueue {
    var heap: map<int, Timer>
    var created: nat
    var timers: seq<Entry>
    var active: set<TimerId>
    var canceling: set<TimerId>
    var calling: bool
    var fd: Timerfd
    var posted: set<int>
    ghost var inflight: seq<Entry>
    ghost var called: nat
    ghost var now: int
    ghost var deleted: multiset<int>
    ghost var calls: seq<int>

    ghost function State(): State
      reads this
    {
      TimerModel.State(heap, created, timers, active, canceling, calling, inflight, called, now, fd,
                       posted, deleted, calls)
    }

    constructor ()
      ensures State() == Init && Stable(State())
    {
      heap, created, timers, active, canceling, calling := map[], 0, [], {}, {}, false;
      fd, posted, inflight, called, now, deleted, calls := Disarmed, {}, [], 0, 0, multiset{}, [];
      new;
      InitIsStable();
    }

    /** `new Timer(cb, when, interval)` in `addTimer`; the allocator chooses the address. */
    method NewTimer(a: int, when: int, interval: real) returns (id: TimerId)
      requires Stable(State()) && Enabled(State(), CreateTimer(a, when, interval))
      modifies this
      ensures State() == Next(old(State()), CreateTimer(a, when, interval))
      ensures id == IdOf(State(), a)
    {
      created := created + 1;
      heap := heap[a := Timer(when, interval, created)];
      posted := posted + {a};
      id := TimerId(a, heap[a].sequence);
    }

    method InsertEntry(a: int) returns (earliestChanged: bool)
      requires InvBut(State(), {a}) && a in heap
      modifies this`timers, this`active
      ensures (State(), earliestChanged) == InsertTimer(old(State()), a)
      ensures Inv(State())
    {
      SizesAgree(State());
      assert |timers| == |active|;
      assert Owners(State(), a) == 0;
      InsertKeepsInv(State(), a);
      earliestChanged := false;
      var when := heap[a].expiration;
      if timers == [] || when < timers[0].when {
        earliestChanged := true;
      }
      assert Entry(when, a) !in timers;
      timers := Insert(timers, Entry(when, a));
      assert TimerId(a, heap[a].sequence) !in active;
      active := active + {TimerId(a, heap[a].sequence)};
      SizesAgree(State());
      assert |timers| == |active|;
    }

    method AddTimerInLoop(a: int, clock: int)
      requires Stable(State()) && Enabled(State(), AddInLoop(a, clock))
      modifies this
      ensures State() == Next(old(State()), AddInLoop(a, clock))
    {
      TakePosted(State(), a);
      posted := posted - {a};
      var earliestChanged := InsertEntry(a);
      if earliestChanged {
        fd := Arm(heap[a].expiration, clock);
      }
    }

    method CancelInLoop(id: TimerId)
      requires Stable(State())
      modifies this
      ensures State() == Next(old(State()), Cancel(id))
    {
      hide Stable, SameTimers, Effect, Sorted, Insert, Erase, LowerBound;
      CancelFacts(State(), id);
      assert |timers| == |active|;
      if id in active {
        var e := Entry(heap[id.timer].expiration, id.timer);
        assert e in timers;
        timers := Erase(timers, e);
        deleted := deleted + multiset{heap[id.timer].sequence};
        heap := heap - {id.timer};
        active := active - {id};
      } else if calling {
        canceling := canceling + {id};
      }
      assert State() == Next(old(State()), Cancel(id));
      assert |timers| == |active|;
    }

    /** What `cancelInLoop` asserts before, in the middle and after. */
    static lemma CancelFacts(s: State, id: TimerId)
      requires Stable(s)
      ensures |s.timers| == |s.active| && SameTimers(s)
      ensures id in s.active ==> id.timer in s.heap && Entry(s.heap[id.timer].expiration, id.timer) in s.timers
      ensures var r := Next(s, Cancel(id)); |r.timers| == |r.active| && r == TimerModel.CancelInLoop(s, id)
    {
      SizesAgree(s);
      SizesAgree(Next(s, Cancel(id)));
    }

    /** The loop of `getExpired` over `activeTimers_`: every erasure finds its element. */
    method EraseActive(expired: seq<Entry>)
      requires forall e :: e in expired ==> e.timer in heap && IdOf(State(), e.timer) in active
      requires forall i, j :: 0 <= i < j < |expired| ==> expired[i].timer != expired[j].timer
      modifies this`active
      ensures active == old(active) - IdsOf(old(State()), expired)
    {
      ghost var s := State();
      var i := 0;
      while i < |expired|
        invariant 0 <= i <= |expired|
        invariant active == s.active - IdsOf(s, expired[..i])
      {
        var t := TimerId(expired[i].timer, heap[expired[i].timer].sequence);
        assert expired[i] in expired && t == IdOf(s, expired[i].timer);
        assert t in active;
        assert expired[..i + 1] == expired[..i] + [expired[i]];
        active := active - {t};
        i := i + 1;
      }
      assert expired[..i] == expired;
    }

    method GetExpired(at: int) returns (expired: seq<Entry>)
      requires Stable(State()) && State().Idle()
      modifies this`timers, this`active
      ensures var r := Next(old(State()), Begin(at, false));
              expired == r.inflight && timers == r.timers && active == r.active
    {
      hide Stable, Inv;
      ghost var s := State();
      BatchFacts(s, at);
      assert |timers| == |active|;
      var k := LowerBound(timers, Sentry(at));
      assert k == |timers| || at < timers[k].when;
      expired := timers[..k];
      timers := timers[k..];
      ghost var s' := State();
      EraseActive(expired);
      assert IdsOf(s', expired) == IdsOf(s, expired);
      assert |timers| == |active|;
    }

    /** What `getExpired` asserts about the sets before and after. */
    static lemma BatchFacts(s: State, at: int)
      requires Stable(s) && s.Idle()
      ensures SameTimers(s) && |s.timers| == |s.active|
      ensures var r := Next(s, Begin(at, false)); r == BeginRead(s, at, false) && |r.timers| == |r.active|
      ensures var k := LowerBound(s.timers, Sentry(at)); k == |s.timers| || at < s.timers[k].when
      ensures var b := Next(s, Begin(at, false)).inflight;
              && (forall e :: e in b ==> e.timer in s.heap && IdOf(s, e.timer) in s.active)
              && (forall i, j :: 0 <= i < j < |b| ==> b[i].timer != b[j].timer)
    {
      SizesAgree(s);
      BatchIsExactlyTheDue(s, at, false);
      var r := Next(s, Begin(at, false));
      SizesAgree(r);
      var k := LowerBound(s.timers, Sentry(at));
      if k < |s.timers| {
        assert s.timers[k] == r.timers[0] && r.timers[0] in r.timers;
      }
      forall i, j | 0 <= i < j < |r.inflight|
        ensures r.inflight[i].timer != r.inflight[j].timer
      {
        assert Less(r.inflight[i], r.inflight[j]) && r.inflight[i] in r.inflight && r.inflight[j] in r.inflight;
      }
    }

    /** One round of the loop in `reset`. */
    method ResetEntry(a: int, at: int)
      requires Inv(State()) && !calling && inflight != [] && a == inflight[0].timer && at == now
      modifies this
      ensures State() == ResetOne(old(State())) && Inv(State())
    {
      hide SameTimers, BatchOk, OwnedOnce, DeletedOnce;
      ghost var s := State();
      TakeHead(s);
      ResetOneKeepsInv(s);
      inflight := inflight[1..];
      if heap[a].Repeat() && TimerId(a, heap[a].sequence) !in canceling {
        RestartKeepsInv(State(), a);
        heap := heap[a := heap[a].Restart(at)];
        var _ := InsertEntry(a);
      } else {
        deleted := deleted + multiset{heap[a].sequence};
        heap := heap - {a};
      }
    }

    method Reset(expired: seq<Entry>, at: int, clock: int)
      requires Inv(State()) && !calling && expired == inflight && at == now
      modifies this
      ensures State() == Rearm(ResetAll(old(State())), clock)
    {
      hide InvBut;
      ghost var goal := ResetAll(State());
      var i := 0;
      while i < |expired|
        invariant 0 <= i <= |expired| && inflight == expired[i..] && at == now && !calling
        invariant Inv(State()) && ResetAll(State()) == goal
      {
        ResetEntry(expired[i].timer, at);
        i := i + 1;
      }
      if timers != [] {
        var nextExpire := timers[0].when;
        if nextExpire > 0 {
          fd := Arm(nextExpire, clock);
        }
      }
    }

    static lemma CallbackKeepsRound(s: State, st: Step)
      requires Stable(s)
      ensures CallbackStep(st) && Enabled(s, st) ==>
        var r := Next(s, st);
        r.calling == s.calling && r.inflight == s.inflight && r.called == s.called && r.now == s.now
    {
      hide InvBut;
    }

    method RunScript(ops: seq<Step>)
      requires Stable(State()) && calling
      modifies this
      ensures State() == Script(old(State()), ops)
      ensures Stable(State()) && calling && inflight == old(inflight) && called == old(called) && now == old(now)
    {
      hide Stable, Effect;
      ghost var goal := Script(State(), ops);
      var i := 0;
      while i < |ops|
        invariant 0 <= i <= |ops| && Stable(State()) && calling
        invariant inflight == old(inflight) && called == old(called) && now == old(now)
        invariant Script(State(), ops[i..]) == goal
      {
        assert ops[i..][0] == ops[i] && ops[i..][1..] == ops[i + 1..];
        CallbackKeepsRound(State(), ops[i]);
        match ops[i] {
          case CreateTimer(a, when, interval) =>
            if 0 < a < UINTPTR_MAX && a !in heap {
              var _ := NewTimer(a, when, interval);
            }
          case AddInLoop(a, clock) =>
            if a in posted {
              AddTimerInLoop(a, clock);
            }
          case Cancel(id) =>
            CancelInLoop(id);
          case _ =>
        }
        i := i + 1;
      }
    }

    static lemma BeginFields(s: State, at: int, stillArmed: bool)
      requires Stable(s) && s.Idle()
      ensures var r := Next(s, Begin(at, false));
              Next(s, Begin(at, stillArmed))
              == s.(timers := r.timers, active := r.active, inflight := r.inflight, canceling := {}, calling := true,
                    called := 0, now := at, fd := if stillArmed then s.fd else Disarmed)
    {
    }

    /** `handleRead` up to the first callback. */
    method StartRound(at: int, stillArmed: bool) returns (expired: seq<Entry>)
      requires Stable(State()) && State().Idle()
      modifies this
      ensures State() == Next(old(State()), Begin(at, stillArmed)) && expired == inflight
    {
      hide Stable, Effect;
      BeginFields(State(), at, stillArmed);
      expired := GetExpired(at);
      if !stillArmed {
        fd := Disarmed;
      }
      calling := true;
      canceling := {};
      inflight, called, now := expired, 0, at;
    }

    /** One round of the callback loop: `it->second->run()`. */
    method CallEntry(e: Entry, script: seq<Step>)
      requires Stable(State()) && calling && called < |inflight| && e == inflight[called]
      modifies this
      ensures State() == Script(Next(old(State()), Call), script) && now == old(now)
    {
      ghost var m := Next(State(), Call);
      assert e in inflight;
      calls := calls + [heap[e.timer].sequence];
      called := called + 1;
      assert State() == m;
      RunScript(script);
    }

    /** `handleRead` after the last callback. */
    method FinishRound(expired: seq<Entry>, at: int, clock: int)
      requires Stable(State()) && calling && called == |inflight| && expired == inflight && at == now
      modifies this
      ensures State() == Next(old(State()), End(clock))
    {
      hide InvBut;
      ghost var s := State();
      calling := false;
      Untouched(s, State());
      Reset(expired, at, clock);
    }

    method HandleRead(at: int, stillArmed: bool, scripts: seq<seq<Step>>, clock: int)
      requires Stable(State()) && State().Idle()
      modifies this
      ensures State() == Next(Callbacks(Next(old(State()), Begin(at, stillArmed)), scripts), End(clock))
    {
      hide InvBut;
      ghost var goal := Callbacks(Next(State(), Begin(at, stillArmed)), scripts);
      var expired := StartRound(at, stillArmed);
      var i := 0;
      while i < |expired|
        invariant 0 <= i <= |expired| && Stable(State()) && calling && inflight == expired && called == i
        invariant now == at && Callbacks(State(), scripts) == goal
      {
        CallEntry(expired[i], ScriptOf(scripts, i));
        i := i + 1;
      }
      FinishRound(expired, at, clock);
    }
  }
}
