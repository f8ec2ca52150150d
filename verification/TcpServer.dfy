/** The life of connections on a server with a base loop and any number of IO loops: creation,
    establishment, closing, removal from the server's map and destruction, over all interleavings
    of the loops.  Loop 0 is the base loop; a connection may also live on it. */
module TcpServers {
  import opened Common

  /** How far a connection has come; the sequence of stages is the history of the connection. */
  datatype Stage = Created | Up | Closing | Erased | Gone

  function Later(stage: Stage, next: Stage): Stage { if Rank(stage) < Rank(next) then next else stage }

  datatype Conn = Conn(io: nat, st: ConnState, inPoller: bool, reading: bool, stage: Stage)

  /** The functors posted to loops; each holds a reference to its connection. */
  datatype Task = Establish(c: nat) | Remove(c: nat) | Destroy(c: nat)

  datatype Event =
    | EstablishedEvent(c: nat)
    | ClosedEvent(c: nat)
    | ErasedEvent(c: nat)
    | DestroyedEvent(c: nat, loop: nat, inFunctors: bool)

  /** A loop is either handling channel events or running the functors swapped out of its queue. */
  datatype Loop = Loop(inFunctors: bool, batch: seq<Task>, pending: seq<Task>) {
    function Queue(): seq<Task> { batch + pending }
  }

  datatype State = State(
    loops: seq<Loop>,
    conns: map<nat, Conn>,
    connections: set<nat>,
    nextId: nat,
    log: seq<Event>)

  const BASE: nat := 0

  function Init(n: nat): State {
    State(seq(n, i => Loop(false, [], [])), map[], {}, 1, [])
  }

  // ----- The operations ------------------------------------------------------------------------

  function Post(s: State, l: nat, t: Task): State
    requires l < |s.loops|
  {
    s.(loops := s.loops[l := s.loops[l].(pending := s.loops[l].pending + [t])])
  }

  function SetConn(s: State, c: nat, x: Conn): State { s.(conns := s.conns[c := x]) }

  function Note(s: State, e: Event): State { s.(log := s.log + [e]) }

  function ConnectEstablished(s: State, c: nat): State
    requires c in s.conns
  {
    Note(SetConn(s, c, s.conns[c].(st := Connected, inPoller := true, reading := true, stage := Up)),
         EstablishedEvent(c))
  }

  /** `removeConnectionInLoop`: out of the map, and the destruction queued on the connection's loop. */
  function RemoveConnectionInLoop(s: State, c: nat): State
    requires c in s.conns && s.conns[c].io < |s.loops|
  {
    var s1 := Note(s.(connections := s.connections - {c}), ErasedEvent(c));
    var x := s.conns[c].(stage := Later(s.conns[c].stage, Erased));
    Post(SetConn(s1, c, x), x.io, Destroy(c))
  }

  /** `handleClose` and the close callback, `removeConnection`. */
  function HandleClose(s: State, c: nat): State
    requires c in s.conns && s.conns[c].io < |s.loops| && BASE < |s.loops|
  {
    var x := s.conns[c].(reading := false, stage := Later(s.conns[c].stage, Closing));
    var s1 := Note(SetConn(s, c, x), ClosedEvent(c));
    if x.io == BASE then RemoveConnectionInLoop(s1, c) else Post(s1, BASE, Remove(c))
  }

  function ConnectDestroyed(s: State, c: nat, l: nat): State
    requires c in s.conns && l < |s.loops|
  {
    Note(SetConn(s, c, s.conns[c].(st := Disconnected, inPoller := false, reading := false, stage := Gone)),
         DestroyedEvent(c, l, s.loops[l].inFunctors))
  }

  /** The new connection, before it is established or its establishment is posted. */
  function Fresh(s: State, io: nat): State {
    var c := s.nextId;
    SetConn(s, c, Conn(io, Connecting, false, false, Created)).(connections := s.connections + {c}, nextId := c + 1)
  }

  function NewConnection(s: State, io: nat): State
    requires io < |s.loops|
  {
    var c := s.nextId;
    var s1 := Fresh(s, io);
    if io == BASE then ConnectEstablished(s1, c) else Post(s1, io, Establish(c))
  }

  function Execute(s: State, l: nat, t: Task): State
    requires l < |s.loops| && t.c in s.conns && s.conns[t.c].io < |s.loops|
  {
    match t
    case Establish(c) => ConnectEstablished(s, c)
    case Remove(c) => RemoveConnectionInLoop(s, c)
    case Destroy(c) => ConnectDestroyed(s, c, l)
  }

  datatype Step =
    | Accept(io: nat)
    | CloseTrigger(c: nat)
    | CloseAgain(c: nat)
    | Shutdown(c: nat)
    | StartFunctors(loop: nat)
    | RunFunctor(loop: nat)
    | EndFunctors(loop: nat)

  /** The state assertion of `handleClose`. */
  predicate MayClose(s: State, c: nat) {
    c in s.conns && (s.conns[c].st == Connected || s.conns[c].st == Disconnecting)
  }

  predicate InHandlers(s: State, l: nat) { l < |s.loops| && !s.loops[l].inFunctors }

  /** The acceptor and the channels are handled outside the functor phase of their loop.  A channel
      whose interest is off reports nothing, so `CloseTrigger` is the one close trigger that each
      connection should have; `CloseAgain` is any further one that passes the state assertion, as
      when one event report leads to `handleClose` twice. */
  predicate Enabled(s: State, step: Step) {
    match step
    case Accept(io) => io < |s.loops| && InHandlers(s, BASE)
    case CloseTrigger(c) => c in s.conns && s.conns[c].reading && InHandlers(s, s.conns[c].io)
    case CloseAgain(c) => MayClose(s, c) && !s.conns[c].reading && InHandlers(s, s.conns[c].io)
    case Shutdown(c) => c in s.conns
    case StartFunctors(l) => l < |s.loops| && !s.loops[l].inFunctors
    case RunFunctor(l) => l < |s.loops| && s.loops[l].inFunctors && s.loops[l].batch != []
    case EndFunctors(l) => l < |s.loops| && s.loops[l].inFunctors && s.loops[l].batch == []
  }

  function Pop(s: State, l: nat): State
    requires l < |s.loops| && s.loops[l].batch != []
  {
    s.(loops := s.loops[l := s.loops[l].(batch := s.loops[l].batch[1..])])
  }

  /** Between the functor phases no batch is left; the functors in the queues refer to existing
      connections, and removals are posted to the base loop only. */
  ghost predicate Sane(s: State) {
    && BASE < |s.loops|
    && (forall c :: c in s.conns ==> s.conns[c].io < |s.loops| && c < s.nextId)
    && (forall l: nat :: l < |s.loops| && !s.loops[l].inFunctors ==> s.loops[l].batch == [])
    && (forall l: nat, t: Task :: l < |s.loops| && t in s.loops[l].Queue() ==>
          t.c in s.conns && (t.Remove? ==> l == BASE))
  }

  ghost function Next(s: State, step: Step): State
    requires Sane(s) && Enabled(s, step)
  {
    match step
    case Accept(io) => NewConnection(s, io)
    case CloseTrigger(c) => HandleClose(s, c)
    case CloseAgain(c) => HandleClose(s, c)
    case Shutdown(c) =>
      if s.conns[c].st == Connected then SetConn(s, c, s.conns[c].(st := Disconnecting)) else s
    case StartFunctors(l) =>
      s.(loops := s.loops[l := Loop(true, s.loops[l].pending, [])])
    case RunFunctor(l) =>
      var t := s.loops[l].batch[0];
      assert t in s.loops[l].Queue();
      Execute(Pop(s, l), l, t)
    case EndFunctors(l) => s.(loops := s.loops[l := s.loops[l].(inFunctors := false)])
  }

  // ----- Invariant -----------------------------------------------------------------------------

  /** The one functor, if any, that a connection is waiting for, and the loop it is queued on. */
  predicate Awaits(s: State, l: nat, t: Task) {
    t.c in s.conns && var x := s.conns[t.c];
    match t
    case Establish(_) => x.stage == Created && l == x.io
    case Remove(_) => x.stage == Closing && l == BASE
    case Destroy(_) => x.stage == Erased && l == x.io
  }

  predicate StageOk(s: State, c: nat)
    requires c in s.conns
  {
    var x := s.conns[c];
    && x.io < |s.loops| && c < s.nextId
    && (c in s.connections <==> x.stage == Created || x.stage == Up || x.stage == Closing)
    && (x.inPoller <==> x.stage == Up || x.stage == Closing || x.stage == Erased)
    && (x.reading <==> x.stage == Up)
    && (x.stage == Created <==> x.st == Connecting)
    && (x.stage == Gone <==> x.st == Disconnected)
  }

  ghost predicate NoDup(q: seq<Task>) {
    forall i, j :: 0 <= i < j < |q| ==> q[i] != q[j]
  }

  /** The queues hold exactly the awaited functors, each once, except those in `missing`, which are
      being run or about to be posted. */
  ghost predicate QueuesBut(s: State, missing: set<(nat, Task)>) {
    && (forall l: nat :: l < |s.loops| ==>
          NoDup(s.loops[l].Queue()) && (!s.loops[l].inFunctors ==> s.loops[l].batch == []))
    && (forall l: nat, t: Task :: l < |s.loops| ==>
          (t in s.loops[l].Queue() <==> Awaits(s, l, t) && (l, t) !in missing))
  }

  ghost predicate QueuesOk(s: State) { QueuesBut(s, {}) }

  function Rank(stage: Stage): nat {
    match stage
    case Created => 0
    case Up => 1
    case Closing => 2
    case Erased => 3
    case Gone => 4
  }

  /** The whole life of connection `c` on loop `io`. */
  function Life(c: nat, io: nat): seq<Event> {
    [EstablishedEvent(c), ClosedEvent(c), ErasedEvent(c), DestroyedEvent(c, io, true)]
  }

  /** The events of the log that concern connection `c`. */
  function Of(log: seq<Event>, c: nat): seq<Event> {
    if log == [] then []
    else Of(log[..|log| - 1], c) + if log[|log| - 1].c == c then [log[|log| - 1]] else []
  }

  ghost predicate LogOk(s: State) {
    && (forall c :: c in s.conns ==> Of(s.log, c) == Life(c, s.conns[c].io)[..Rank(s.conns[c].stage)])
    && (forall c: nat :: c !in s.conns ==> Of(s.log, c) == [])
  }

  ghost predicate Inv(s: State) { InvBut(s, {}) }

  ghost predicate InvBut(s: State, missing: set<(nat, Task)>) {
    && BASE < |s.loops|
    && (forall c :: c in s.conns ==> StageOk(s, c))
    && s.connections <= s.conns.Keys
    && s.nextId !in s.conns && (forall c :: c in s.conns ==> c < s.nextId)
    && QueuesBut(s, missing)
    && LogOk(s)
    && ClosedAtOnce(s, missing)
  }

  /** On the base loop closing and erasing are one step. */
  ghost predicate ClosedAtOnce(s: State, missing: set<(nat, Task)>) {
    forall c :: c in s.conns && s.conns[c].stage == Closing && s.conns[c].io == BASE ==> (BASE, Remove(c)) in missing
  }

  // ----- Every step keeps the invariant --------------------------------------------------------

  lemma OfNote(log: seq<Event>, e: Event, c: nat)
    ensures Of(log + [e], c) == Of(log, c) + if e.c == c then [e] else []
  {
    assert (log + [e])[..|log|] == log;
  }

  lemma LifeStep(c: nat, io: nat, k: nat)
    requires k < 4
    ensures |Life(c, io)| == 4 && Life(c, io)[..k + 1] == Life(c, io)[..k] + [Life(c, io)[k]]
  {
  }

  /** Noting the next event of one connection and moving that connection on by one stage. */
  lemma LogStep(s: State, c: nat, e: Event, x: Conn)
    requires LogOk(s) && c in s.conns && x.io == s.conns[c].io && e.c == c
    requires Rank(x.stage) == Rank(s.conns[c].stage) + 1 && e == Life(c, x.io)[Rank(s.conns[c].stage)]
    ensures LogOk(Note(SetConn(s, c, x), e))
  {
    hide Of;
    var r := Note(SetConn(s, c, x), e);
    var k := Rank(s.conns[c].stage);
    LifeStep(c, x.io, k);
    hide Life, Rank;
    forall d: nat
      ensures Of(r.log, d) == if d in r.conns then Life(d, r.conns[d].io)[..Rank(r.conns[d].stage)] else []
    {
      OfNote(s.log, e, d);
    }
  }

  lemma PopQueues(s: State, l: nat)
    requires QueuesOk(s) && l < |s.loops| && s.loops[l].inFunctors && s.loops[l].batch != []
    ensures QueuesBut(Pop(s, l), {(l, s.loops[l].batch[0])})
  {
    var r := Pop(s, l);
    var t := s.loops[l].batch[0];
    var q, q' := s.loops[l].Queue(), r.loops[l].Queue();
    assert q == [t] + q';
    forall i | 0 <= i < |q'|
      ensures q'[i] == q[i + 1] && q'[i] != t
    {
      assert q[0] != q[i + 1];
    }
  }

  lemma PostQueues(s: State, l: nat, t: Task)
    requires QueuesBut(s, {(l, t)}) && l < |s.loops| && Awaits(s, l, t)
    ensures QueuesOk(Post(s, l, t))
  {
    var r := Post(s, l, t);
    var q, q' := s.loops[l].Queue(), r.loops[l].Queue();
    assert q' == q + [t];
    assert t !in q;
    forall k: nat, u: Task | k < |r.loops|
      ensures u in r.loops[k].Queue() <==> Awaits(r, k, u)
    {
      assert Awaits(r, k, u) == Awaits(s, k, u);
    }
  }

  /** Moving one connection on, when none of its functors is queued. */
  lemma AdvanceQueues(s: State, c: nat, x: Conn, before: set<(nat, Task)>, after: set<(nat, Task)>)
    requires QueuesBut(s, before)
    requires forall p :: p in before || p in after ==> p.1.c == c
    requires forall l: nat, t: Task :: l < |s.loops| && t.c == c && Awaits(s, l, t) ==> (l, t) in before
    requires forall l: nat, t: Task :: l < |s.loops| && t.c == c && Awaits(SetConn(s, c, x), l, t) ==> (l, t) in after
    ensures QueuesBut(SetConn(s, c, x), after)
  {
    var r := SetConn(s, c, x);
    forall l: nat, t: Task | l < |r.loops|
      ensures t in r.loops[l].Queue() <==> Awaits(r, l, t) && (l, t) !in after
    {
      assert t in s.loops[l].Queue() <==> Awaits(s, l, t) && (l, t) !in before;
      if t.c != c {
        assert Awaits(r, l, t) == Awaits(s, l, t);
      }
    }
  }

  /** Only the queues and the connections matter to `QueuesBut`. */
  lemma SameQueues(s: State, r: State, missing: set<(nat, Task)>)
    requires QueuesBut(s, missing) && r.loops == s.loops && r.conns == s.conns
    ensures QueuesBut(r, missing)
  {
    assert forall l: nat, t: Task :: Awaits(r, l, t) == Awaits(s, l, t);
  }

  lemma SameLog(s: State, r: State)
    requires LogOk(s) && r.log == s.log && r.conns == s.conns
    ensures LogOk(r)
  {
  }

  /** Only stage and loop of a connection matter to `LogOk`. */
  lemma SameStages(s: State, r: State)
    requires LogOk(s) && r.log == s.log && r.conns.Keys == s.conns.Keys
    requires forall c :: c in s.conns ==> r.conns[c].stage == s.conns[c].stage && r.conns[c].io == s.conns[c].io
    ensures LogOk(r)
  {
    hide Of, Life, Rank;
  }

  lemma PopInv(s: State, l: nat)
    requires Inv(s) && l < |s.loops| && s.loops[l].inFunctors && s.loops[l].batch != []
    ensures InvBut(Pop(s, l), {(l, s.loops[l].batch[0])})
  {
    PopQueues(s, l);
    assert forall c :: c in s.conns ==> StageOk(s, c);
  }

  lemma PostInv(s: State, l: nat, t: Task)
    requires InvBut(s, {(l, t)}) && l < |s.loops| && Awaits(s, l, t) && (t.Remove? ==> s.conns[t.c].io != BASE)
    ensures Inv(Post(s, l, t))
  {
    PostQueues(s, l, t);
    assert forall c :: c in s.conns ==> StageOk(s, c);
  }

  lemma EstablishInv(s: State, c: nat)
    requires c in s.conns && s.conns[c].stage == Created && InvBut(s, {(s.conns[c].io, Establish(c))})
    ensures Inv(ConnectEstablished(s, c))
  {
    hide LogOk, NoDup;
    var x := s.conns[c].(st := Connected, inPoller := true, reading := true, stage := Up);
    AdvanceQueues(s, c, x, {(x.io, Establish(c))}, {});
    LogStep(s, c, EstablishedEvent(c), x);
    var r := ConnectEstablished(s, c);
    SameQueues(SetConn(s, c, x), r, {});
    assert forall d :: d in s.conns ==> StageOk(s, d);
    assert forall d :: d in r.conns ==> StageOk(r, d);
  }

  lemma RemoveInv(s: State, c: nat)
    requires c in s.conns && s.conns[c].stage == Closing && InvBut(s, {(BASE, Remove(c))})
    ensures Inv(RemoveConnectionInLoop(s, c))
  {
    hide LogOk, NoDup;
    assert StageOk(s, c);
    var x := s.conns[c].(stage := Erased);
    var t := Destroy(c);
    AdvanceQueues(s, c, x, {(BASE, Remove(c))}, {(x.io, t)});
    LogStep(s, c, ErasedEvent(c), x);
    var r := Note(SetConn(s, c, x), ErasedEvent(c)).(connections := s.connections - {c});
    SameQueues(SetConn(s, c, x), r, {(x.io, t)});
    SameLog(Note(SetConn(s, c, x), ErasedEvent(c)), r);
    assert forall d :: d in s.conns ==> StageOk(s, d);
    assert forall d :: d in r.conns ==> StageOk(r, d);
    PostInv(r, x.io, t);
    assert RemoveConnectionInLoop(s, c) == Post(r, x.io, t);
  }

  lemma DestroyInv(s: State, c: nat, l: nat)
    requires c in s.conns && s.conns[c].stage == Erased && l == s.conns[c].io && l < |s.loops| && s.loops[l].inFunctors
    requires InvBut(s, {(l, Destroy(c))})
    ensures Inv(ConnectDestroyed(s, c, l))
  {
    hide LogOk, NoDup;
    var x := s.conns[c].(st := Disconnected, inPoller := false, reading := false, stage := Gone);
    AdvanceQueues(s, c, x, {(l, Destroy(c))}, {});
    LogStep(s, c, DestroyedEvent(c, l, true), x);
    var r := ConnectDestroyed(s, c, l);
    SameQueues(SetConn(s, c, x), r, {});
    assert forall d :: d in s.conns ==> StageOk(s, d);
    assert forall d :: d in r.conns ==> StageOk(r, d);
  }

  lemma CloseInv(s: State, c: nat)
    requires c in s.conns && s.conns[c].stage == Up && Inv(s)
    ensures StageOk(s, c) && Inv(HandleClose(s, c))
  {
    hide LogOk, NoDup;
    assert StageOk(s, c);
    var x := s.conns[c].(reading := false, stage := Closing);
    var t := Remove(c);
    AdvanceQueues(s, c, x, {}, {(BASE, t)});
    LogStep(s, c, ClosedEvent(c), x);
    var r := Note(SetConn(s, c, x), ClosedEvent(c));
    SameQueues(SetConn(s, c, x), r, {(BASE, t)});
    assert forall d :: d in s.conns ==> StageOk(s, d);
    assert forall d :: d in r.conns ==> StageOk(r, d);
    if x.io == BASE {
      RemoveInv(r, c);
    } else {
      PostInv(r, BASE, t);
    }
  }

  lemma CreateInv(s: State, io: nat)
    requires Inv(s) && io < |s.loops|
    ensures InvBut(Fresh(s, io), {(io, Establish(s.nextId))})
  {
    hide LogOk, NoDup;
    var c := s.nextId;
    var x := Conn(io, Connecting, false, false, Created);
    var t := Establish(c);
    AdvanceQueues(s, c, x, {}, {(io, t)});
    var r := Fresh(s, io);
    SameQueues(SetConn(s, c, x), r, {(io, t)});
    assert forall d :: d in s.conns ==> StageOk(s, d);
    assert forall d :: d in r.conns ==> StageOk(r, d);
    CreateLog(s, io);
  }

  lemma CreateLog(s: State, io: nat)
    requires LogOk(s) && s.nextId !in s.conns
    ensures LogOk(Fresh(s, io))
  {
    hide Of;
    assert Life(s.nextId, io)[..0] == [];
  }

  lemma AcceptInv(s: State, io: nat)
    requires Inv(s) && io < |s.loops|
    ensures Inv(NewConnection(s, io))
  {
    hide InvBut;
    CreateInv(s, io);
    if io == BASE {
      EstablishInv(Fresh(s, io), s.nextId);
    } else {
      PostInv(Fresh(s, io), io, Establish(s.nextId));
    }
  }

  lemma ShutdownInv(s: State, c: nat)
    requires Inv(s) && Sane(s) && c in s.conns
    ensures Inv(Next(s, Shutdown(c)))
  {
    hide LogOk, NoDup;
    if s.conns[c].st == Connected {
      var x := s.conns[c].(st := Disconnecting);
      var r := SetConn(s, c, x);
      assert StageOk(s, c);
      SameStages(s, r);
      assert forall l: nat, t: Task :: Awaits(r, l, t) == Awaits(s, l, t);
      assert forall d :: d in s.conns ==> StageOk(s, d);
      assert forall d :: d in r.conns ==> StageOk(r, d);
    }
  }

  lemma LoopInv(s: State, l: nat, loop: Loop)
    requires Inv(s) && l < |s.loops| && loop.Queue() == s.loops[l].Queue() && (!loop.inFunctors ==> loop.batch == [])
    ensures Inv(s.(loops := s.loops[l := loop]))
  {
    var r := s.(loops := s.loops[l := loop]);
    assert forall k: nat :: k < |r.loops| ==> r.loops[k].Queue() == s.loops[k].Queue();
    assert forall k: nat, t: Task :: Awaits(r, k, t) == Awaits(s, k, t);
    assert forall d :: d in s.conns ==> StageOk(s, d);
    assert forall d :: d in r.conns ==> StageOk(r, d);
  }

  lemma RunFunctorInv(s: State, l: nat)
    requires Inv(s) && Sane(s) && Enabled(s, RunFunctor(l))
    ensures Inv(Next(s, RunFunctor(l)))
  {
    var t := s.loops[l].batch[0];
    assert t in s.loops[l].Queue();
    assert Awaits(s, l, t);
    PopInv(s, l);
    var m := Pop(s, l);
    match t
    case Establish(c) => EstablishInv(m, c);
    case Remove(c) => RemoveInv(m, c);
    case Destroy(c) => DestroyInv(m, c, l);
  }

  lemma StepInv(s: State, step: Step)
    requires Inv(s) && Sane(s) && Enabled(s, step) && !step.CloseAgain?
    ensures Inv(Next(s, step))
  {
    match step
    case Accept(io) => AcceptInv(s, io);
    case CloseTrigger(c) =>
      assert StageOk(s, c);
      CloseInv(s, c);
    case Shutdown(c) => ShutdownInv(s, c);
    case StartFunctors(l) => LoopInv(s, l, Loop(true, s.loops[l].pending, []));
    case RunFunctor(l) => RunFunctorInv(s, l);
    case EndFunctors(l) => LoopInv(s, l, s.loops[l].(inFunctors := false));
  }

  // ----- Runs ----------------------------------------------------------------------------------

  lemma SanePost(s: State, l: nat, t: Task)
    requires Sane(s) && l < |s.loops| && t.c in s.conns && (t.Remove? ==> l == BASE)
    ensures Sane(Post(s, l, t))
  {
    var r := Post(s, l, t);
    assert r.loops[l].Queue() == s.loops[l].Queue() + [t];
  }

  lemma SaneRemove(s: State, c: nat)
    requires Sane(s) && c in s.conns
    ensures Sane(RemoveConnectionInLoop(s, c))
  {
    var x := s.conns[c].(stage := Later(s.conns[c].stage, Erased));
    SanePost(SetConn(Note(s.(connections := s.connections - {c}), ErasedEvent(c)), c, x), x.io, Destroy(c));
  }

  lemma SaneClose(s: State, c: nat)
    requires Sane(s) && c in s.conns
    ensures Sane(HandleClose(s, c))
  {
    var x := s.conns[c].(reading := false, stage := Later(s.conns[c].stage, Closing));
    var s1 := Note(SetConn(s, c, x), ClosedEvent(c));
    if x.io == BASE {
      SaneRemove(s1, c);
    } else {
      SanePost(s1, BASE, Remove(c));
    }
  }

  lemma SaneAccept(s: State, io: nat)
    requires Sane(s) && io < |s.loops|
    ensures Sane(NewConnection(s, io))
  {
    var s1 := Fresh(s, io);
    assert Sane(s1);
    if io != BASE {
      SanePost(s1, io, Establish(s.nextId));
    }
  }

  lemma SaneLoop(s: State, l: nat, loop: Loop)
    requires Sane(s) && l < |s.loops| && (!loop.inFunctors ==> loop.batch == [])
    requires forall t :: t in loop.Queue() ==> t in s.loops[l].Queue()
    ensures Sane(s.(loops := s.loops[l := loop]))
  {
  }

  lemma SaneStep(s: State, step: Step)
    requires Sane(s) && Enabled(s, step)
    ensures Sane(Next(s, step))
  {
    match step
    case Accept(io) => SaneAccept(s, io);
    case CloseTrigger(c) => SaneClose(s, c);
    case CloseAgain(c) => SaneClose(s, c);
    case Shutdown(c) =>
    case StartFunctors(l) => SaneLoop(s, l, Loop(true, s.loops[l].pending, []));
    case RunFunctor(l) =>
      var t := s.loops[l].batch[0];
      assert t in s.loops[l].Queue();
      SaneLoop(s, l, s.loops[l].(batch := s.loops[l].batch[1..]));
      if t.Remove? { SaneRemove(Pop(s, l), t.c); }
    case EndFunctors(l) => SaneLoop(s, l, s.loops[l].(inFunctors := false));
  }

  ghost predicate Legal(s: State, steps: seq<Step>)
    decreases |steps|
  {
    Sane(s) && (steps == [] || (Enabled(s, steps[0]) && Legal(Next(s, steps[0]), steps[1..])))
  }

  ghost function Run(s: State, steps: seq<Step>): (r: State)
    requires Legal(s, steps)
    ensures Sane(r)
    decreases |steps|
  {
    if steps == [] then s else Run(Next(s, steps[0]), steps[1..])
  }

  /** With at least one loop, the initial state starts runs, and no run gets stuck on `Sane`. */
  lemma InitLegal(n: nat)
    requires n > 0
    ensures Legal(Init(n), []) && Inv(Init(n))
  {
  }

  lemma {:induction false} LegalExtends(s: State, steps: seq<Step>, step: Step)
    requires Legal(s, steps) && Enabled(Run(s, steps), step)
    ensures Legal(s, steps + [step])
    decreases |steps|
  {
    hide Sane, Enabled;
    if steps == [] {
      SaneStep(s, step);
      assert [step][1..] == [];
      assert steps + [step] == [step];
    } else {
      LegalExtends(Next(s, steps[0]), steps[1..], step);
      assert (steps + [step])[1..] == steps[1..] + [step];
    }
  }

  /** At most one close trigger per connection. */
  predicate ClosedOnce(steps: seq<Step>) { forall step :: step in steps ==> !step.CloseAgain? }

  lemma {:induction false} InvRun(s: State, steps: seq<Step>)
    requires Inv(s) && Legal(s, steps) && ClosedOnce(steps)
    ensures Inv(Run(s, steps))
    decreases |steps|
  {
    hide Inv, Sane, Enabled;
    if steps != [] {
      assert steps[0] in steps;
      StepInv(s, steps[0]);
      InvRun(Next(s, steps[0]), steps[1..]);
    }
  }

  /** What the source asserts before the effect of a step. */
  predicate StateAsserts(s: State, t: Task) {
    t.c in s.conns && var x := s.conns[t.c];
    match t
    case Establish(_) => x.st == Connecting
    case Remove(c) => c in s.connections
    case Destroy(_) => (x.st == Connected || x.st == Disconnecting) && x.inPoller
  }

  ghost predicate AssertsHold(s: State, step: Step) {
    match step
    case CloseTrigger(c) => MayClose(s, c) && (s.conns[c].io == BASE ==> c in s.connections)
    case CloseAgain(c) => MayClose(s, c) && (s.conns[c].io == BASE ==> c in s.connections)
    case RunFunctor(l) => l < |s.loops| && s.loops[l].batch != [] && StateAsserts(s, s.loops[l].batch[0])
    case _ => true
  }

  lemma StepAsserts(s: State, step: Step)
    requires Inv(s) && Sane(s) && Enabled(s, step) && !step.CloseAgain?
    ensures AssertsHold(s, step)
  {
    hide LogOk, NoDup, Sane;
    match step
    case CloseTrigger(c) =>
      assert StageOk(s, c);
    case RunFunctor(l) =>
      var t := s.loops[l].batch[0];
      assert t in s.loops[l].Queue();
      assert Awaits(s, l, t);
      assert StageOk(s, t.c);
    case _ =>
  }

  /** In every interleaving with one close trigger per connection, every assertion about connection
      states and about the erasure from the map holds when it is reached. */
  lemma EveryAssertHolds(n: nat, steps: seq<Step>, step: Step)
    requires Legal(Init(n), steps) && Enabled(Run(Init(n), steps), step) && ClosedOnce(steps + [step])
    ensures AssertsHold(Run(Init(n), steps), step)
  {
    hide Inv, Enabled, AssertsHold;
    assert forall st :: st in steps || st == step ==> st in steps + [step];
    InitLegal(n);
    InvRun(Init(n), steps);
    StepAsserts(Run(Init(n), steps), step);
  }

  ghost predicate Referenced(s: State, c: nat) {
    c in s.connections || exists l: nat, t: Task :: l < |s.loops| && t in s.loops[l].Queue() && t.c == c
  }

  /** What happened to `c` is a prefix of: established, closed, erased from the map, destroyed in the
      functor phase of its own loop, each once; and while its channel is in the poller the connection
      is referenced by the map or by a queued functor. */
  ghost predicate Lived(s: State, c: nat)
    requires c in s.conns
  {
    && Of(s.log, c) <= Life(c, s.conns[c].io)
    && (c in s.connections <==> |Of(s.log, c)| < 3)
    && (s.conns[c].inPoller <==> 1 <= |Of(s.log, c)| < 4)
    && (s.conns[c].inPoller ==> Referenced(s, c))
    && (s.conns[c].st == Disconnected <==> Of(s.log, c) == Life(c, s.conns[c].io))
  }

  lemma StageTellsLife(s: State, c: nat)
    requires Inv(s) && c in s.conns
    ensures Lived(s, c)
  {
    hide NoDup, Of;
    assert StageOk(s, c);
    var x := s.conns[c];
    assert Of(s.log, c) == Life(c, x.io)[..Rank(x.stage)];
    if x.stage == Erased {
      assert Awaits(s, x.io, Destroy(c));
      assert Destroy(c) in s.loops[x.io].Queue();
    }
  }

  /** This holds of every connection in every interleaving with one close trigger per connection. */
  lemma LifeInOrder(n: nat, steps: seq<Step>, c: nat)
    requires Legal(Init(n), steps) && ClosedOnce(steps) && c in Run(Init(n), steps).conns
    ensures Lived(Run(Init(n), steps), c)
  {
    hide Inv, Lived;
    InitLegal(n);
    InvRun(Init(n), steps);
    StageTellsLife(Run(Init(n), steps), c);
  }

  // ----- What the steps say --------------------------------------------------------------------

  /** The loops of the connections accepted, in order. */
  function Accepted(steps: seq<Step>): seq<nat> {
    if steps == [] then [] else (if steps[0].Accept? then [steps[0].io] else []) + Accepted(steps[1..])
  }

  /** Numbering starts at `first`; connections keep their loop. */
  ghost predicate Holds(s: State, r: State, first: nat, ios: seq<nat>) {
    && r.nextId == first + |ios|
    && (forall c :: c in r.conns <==> c in s.conns || first <= c < r.nextId)
    && (forall c :: c in s.conns ==> c in r.conns && r.conns[c].io == s.conns[c].io)
    && (forall c: nat :: first <= c < first + |ios| ==> c in r.conns && r.conns[c].io == ios[c - first])
  }

  lemma AcceptStep(s: State, step: Step)
    requires Sane(s) && Enabled(s, step)
    ensures Holds(s, Next(s, step), s.nextId, if step.Accept? then [step.io] else [])
  {
    if step.RunFunctor? {
      assert s.loops[step.loop].batch[0] in s.loops[step.loop].Queue();
    }
  }

  lemma HoldsJoin(s: State, m: State, r: State, first: nat, a: seq<nat>, b: seq<nat>)
    requires Holds(s, m, first, a) && Holds(m, r, m.nextId, b)
    ensures Holds(s, r, first, a + b)
  {
  }

  lemma {:induction false} AcceptRun(s: State, steps: seq<Step>)
    requires Legal(s, steps)
    ensures Holds(s, Run(s, steps), s.nextId, Accepted(steps))
    decreases |steps|
  {
    if steps != [] {
      AcceptStep(s, steps[0]);
      hide Enabled, Next, Sane, Holds;
      var m := Next(s, steps[0]);
      AcceptRun(m, steps[1..]);
      var first := if steps[0].Accept? then [steps[0].io] else [];
      HoldsJoin(s, m, Run(m, steps[1..]), s.nextId, first, Accepted(steps[1..]));
    }
  }

  ghost predicate Closed(s: State, c: nat) {
    c in s.conns && (s.conns[c].stage == Closing || s.conns[c].stage == Erased || s.conns[c].stage == Gone)
  }

  lemma ClosedStep(s: State, step: Step, c: nat)
    requires Inv(s) && Sane(s) && Enabled(s, step) && !step.CloseAgain?
    ensures Closed(Next(s, step), c) <==> Closed(s, c) || step == CloseTrigger(c)
  {
    hide LogOk, NoDup, Sane;
    if step.RunFunctor? {
      var t := s.loops[step.loop].batch[0];
      assert t in s.loops[step.loop].Queue();
      assert Awaits(s, step.loop, t);
    } else if step == CloseTrigger(c) {
      assert StageOk(s, c);
    }
  }

  lemma {:induction false} ClosedRun(s: State, steps: seq<Step>, c: nat)
    requires Inv(s) && Legal(s, steps) && ClosedOnce(steps)
    ensures Closed(Run(s, steps), c) <==> Closed(s, c) || CloseTrigger(c) in steps
    decreases |steps|
  {
    if steps != [] {
      assert steps[0] in steps && steps == [steps[0]] + steps[1..];
      ClosedStep(s, steps[0], c);
      StepInv(s, steps[0]);
      hide Inv, Sane, Enabled, Next, Closed;
      ClosedRun(Next(s, steps[0]), steps[1..], c);
    }
  }

  ghost predicate Quiet(s: State) { forall l: nat :: l < |s.loops| ==> s.loops[l].Queue() == [] }

  lemma QuietStage(s: State, c: nat)
    requires Inv(s) && Quiet(s) && c in s.conns
    ensures s.conns[c].stage == Up || s.conns[c].stage == Gone
  {
    hide LogOk, NoDup;
    assert StageOk(s, c);
    var io := s.conns[c].io;
    assert Establish(c) in s.loops[io].Queue() <==> Awaits(s, io, Establish(c));
    assert Remove(c) in s.loops[BASE].Queue() <==> Awaits(s, BASE, Remove(c));
    assert Destroy(c) in s.loops[io].Queue() <==> Awaits(s, io, Destroy(c));
  }

  /** In every interleaving there is one connection for each one accepted, on the loop it was given
      to, and it is closed or beyond exactly if it has had its close trigger.  Once the queues of all
      loops are empty, a connection without one is up, and one with it has been destroyed. */
  lemma EveryAcceptedIsServed(n: nat, steps: seq<Step>, c: nat)
    requires Legal(Init(n), steps) && ClosedOnce(steps)
    ensures var s := Run(Init(n), steps); var ios := Accepted(steps);
            && (c in s.conns <==> 1 <= c <= |ios|)
            && (c in s.conns ==>
                  && s.conns[c].io == ios[c - 1]
                  && (Closed(s, c) <==> CloseTrigger(c) in steps)
                  && (Quiet(s) && CloseTrigger(c) !in steps ==>
                        s.conns[c].reading && s.conns[c].inPoller && c in s.connections)
                  && (Quiet(s) && CloseTrigger(c) in steps ==>
                        s.conns[c].st == Disconnected && !s.conns[c].inPoller && c !in s.connections))
  {
    hide Inv, Closed;
    InitLegal(n);
    AcceptRun(Init(n), steps);
    ClosedRun(Init(n), steps, c);
    InvRun(Init(n), steps);
    InitNotClosed(n, c);
    var s := Run(Init(n), steps);
    if c in s.conns && Quiet(s) {
      QuietFacts(s, c);
    }
  }

  lemma InitNotClosed(n: nat, c: nat)
    ensures !Closed(Init(n), c)
  {
  }

  lemma QuietFacts(s: State, c: nat)
    requires Inv(s) && Quiet(s) && c in s.conns
    ensures !Closed(s, c) ==> s.conns[c].reading && s.conns[c].inPoller && c in s.connections
    ensures Closed(s, c) ==> s.conns[c].st == Disconnected && !s.conns[c].inPoller && c !in s.connections
  {
    hide LogOk, NoDup, QueuesBut, Quiet;
    QuietStage(s, c);
    assert StageOk(s, c);
  }

  /** A loop enters its functor phase with all functors queued so far, runs them from the front, and
      leaves it when none is left; no other step changes the phase of a loop. */
  lemma LoopPhases(s: State, step: Step, l: nat)
    requires Sane(s) && Enabled(s, step) && l < |s.loops|
    ensures var r := Next(s, step);
            && |r.loops| == |s.loops|
            && r.loops[l].inFunctors == (if step == StartFunctors(l) then true
                                         else if step == EndFunctors(l) then false else s.loops[l].inFunctors)
            && r.loops[l].batch == (if step == StartFunctors(l) then s.loops[l].pending
                                    else if step == RunFunctor(l) then s.loops[l].batch[1..] else s.loops[l].batch)
            && (if step == StartFunctors(l) then r.loops[l].pending == [] else s.loops[l].pending <= r.loops[l].pending)
  {
    if step.RunFunctor? {
      assert s.loops[step.loop].batch[0] in s.loops[step.loop].Queue();
    }
  }

  /** `shutdown` on an open connection leaves it disconnecting; otherwise it does nothing. */
  lemma ShutdownOutcome(s: State, c: nat)
    requires Sane(s) && c in s.conns
    ensures var r := Next(s, Shutdown(c));
            && r == s.(conns := s.conns[c := r.conns[c]])
            && r.conns[c] == s.conns[c].(st := if s.conns[c].st == Connected then Disconnecting else s.conns[c].st)
  {
  }

  // ----- A second close trigger ----------------------------------------------------------------

  /** How many functors the base loop runs. */
  function BaseRuns(steps: seq<Step>): nat {
    if steps == [] then 0 else (if steps[0] == RunFunctor(BASE) then 1 else 0) + BaseRuns(steps[1..])
  }

  lemma PostPrefix(s: State, l: nat, t: Task, q: seq<Task>)
    requires BASE < |s.loops| && l < |s.loops| && q <= s.loops[BASE].Queue()
    ensures q <= Post(s, l, t).loops[BASE].Queue()
  {
    assert l == BASE ==> Post(s, l, t).loops[BASE].Queue() == s.loops[BASE].Queue() + [t];
  }

  /** Functors leave the base queue at the front only. */
  lemma QueuePrefix(s: State, step: Step, q: seq<Task>)
    requires Sane(s) && Enabled(s, step) && q <= s.loops[BASE].Queue() && q != []
    ensures var q' := if step == RunFunctor(BASE) then q[1..] else q;
            q' <= Next(s, step).loops[BASE].Queue()
    ensures step == RunFunctor(BASE) ==> s.loops[BASE].batch[0] == q[0]
  {
    match step
    case Accept(io) =>
      if io != BASE { PostPrefix(Fresh(s, io), io, Establish(s.nextId), q); }
    case CloseTrigger(c) => ClosePrefix(s, c, q);
    case CloseAgain(c) => ClosePrefix(s, c, q);
    case RunFunctor(l) =>
      var t := s.loops[l].batch[0];
      assert t in s.loops[l].Queue();
      var m := Pop(s, l);
      if l == BASE {
        assert s.loops[l].Queue() == [t] + m.loops[l].Queue();
      }
      if t.Remove? { RemovePrefix(m, t.c, if l == BASE then q[1..] else q); }
    case _ =>
  }

  lemma RemovePrefix(s: State, c: nat, q: seq<Task>)
    requires BASE < |s.loops| && c in s.conns && s.conns[c].io < |s.loops| && q <= s.loops[BASE].Queue()
    ensures q <= RemoveConnectionInLoop(s, c).loops[BASE].Queue()
  {
    var x := s.conns[c].(stage := Later(s.conns[c].stage, Erased));
    PostPrefix(SetConn(Note(s.(connections := s.connections - {c}), ErasedEvent(c)), c, x), x.io, Destroy(c), q);
  }

  lemma ClosePrefix(s: State, c: nat, q: seq<Task>)
    requires BASE < |s.loops| && c in s.conns && s.conns[c].io < |s.loops| && q <= s.loops[BASE].Queue()
    ensures q <= HandleClose(s, c).loops[BASE].Queue()
  {
    var x := s.conns[c].(reading := false, stage := Later(s.conns[c].stage, Closing));
    var s1 := Note(SetConn(s, c, x), ClosedEvent(c));
    if x.io == BASE {
      RemovePrefix(s1, c, q);
    } else {
      PostPrefix(s1, BASE, Remove(c), q);
    }
  }

  /** A connection of another loop leaves the map only when the base loop runs its removal. */
  lemma MapStep(s: State, step: Step, c: nat)
    requires Sane(s) && Enabled(s, step) && c in s.conns && s.conns[c].io != BASE
    ensures var r := Next(s, step);
            && c in r.conns && r.conns[c].io == s.conns[c].io
            && (c in r.connections
                <==> c in s.connections && !(step == RunFunctor(BASE) && s.loops[BASE].batch[0] == Remove(c)))
  {
    if step.RunFunctor? {
      assert s.loops[step.loop].batch[0] in s.loops[step.loop].Queue();
    }
  }

  /** `q` is the front part of the base queue up to and including a removal of `c` that is being
      watched; `c` is in the map when it runs if it is now and no other removal comes first. */
  ghost predicate Watched(s: State, c: nat, q: seq<Task>, inMap: bool) {
    && Sane(s) && c in s.conns && s.conns[c].io != BASE
    && q != [] && q <= s.loops[BASE].Queue() && q[|q| - 1] == Remove(c)
    && (inMap <==> c in s.connections && Remove(c) !in q[..|q| - 1])
  }

  lemma WatchedStep(s: State, step: Step, c: nat, q: seq<Task>, inMap: bool)
    requires Watched(s, c, q, inMap) && Enabled(s, step) && (step == RunFunctor(BASE) ==> |q| > 1)
    ensures Watched(Next(s, step), c, if step == RunFunctor(BASE) then q[1..] else q, inMap)
  {
    hide Sane, Next, Enabled;
    SaneStep(s, step);
    QueuePrefix(s, step, q);
    MapStep(s, step, c);
    if step == RunFunctor(BASE) {
      ButFirst(q, Remove(c));
    }
  }

  lemma ButFirst(q: seq<Task>, t: Task)
    requires |q| > 1
    ensures q[1..][|q| - 2] == q[|q| - 1]
    ensures t in q[..|q| - 1] <==> t == q[0] || t in q[1..][..|q| - 2]
  {
    assert q[..|q| - 1] == [q[0]] + q[1..][..|q| - 2];
  }

  lemma {:induction false} WatchedRun(s: State, steps: seq<Step>, c: nat, q: seq<Task>, inMap: bool)
    requires Watched(s, c, q, inMap) && Legal(s, steps) && BaseRuns(steps) == |q| - 1
    ensures Watched(Run(s, steps), c, [Remove(c)], inMap)
    decreases |steps|
  {
    if steps == [] {
      assert q == [Remove(c)];
    } else {
      WatchedStep(s, steps[0], c, q, inMap);
      hide Watched, Sane;
      WatchedRun(Next(s, steps[0]), steps[1..], c, if steps[0] == RunFunctor(BASE) then q[1..] else q, inMap);
    }
  }

  /** The trigger that `c` can have in `s`: its first one, or a further one. */
  function Trigger(s: State, c: nat): Step
    requires c in s.conns
  {
    if s.conns[c].reading then CloseTrigger(c) else CloseAgain(c)
  }

  /** On the base loop the erasure follows at once, and its assertion holds exactly for the first
      trigger, while the channel is still reading. */
  lemma EraseAssertOnBaseLoop(s: State, c: nat)
    requires Inv(s) && Sane(s) && MayClose(s, c) && s.conns[c].io == BASE
    ensures AssertsHold(s, Trigger(s, c)) <==> s.conns[c].reading
  {
    assert StageOk(s, c);
  }

  /** From another loop the removal is posted.  Whatever happens until the base loop has run the
      functors queued before it, further triggers included, the next functor is that removal, and
      its assertion holds exactly if it comes from the first trigger. */
  lemma EraseAssertAcrossLoops(s: State, c: nat, steps: seq<Step>)
    requires Inv(s) && Sane(s) && MayClose(s, c) && s.conns[c].io != BASE && Enabled(s, Trigger(s, c))
    requires Legal(Next(s, Trigger(s, c)), steps) && BaseRuns(steps) == |s.loops[BASE].Queue()|
    requires Enabled(Run(Next(s, Trigger(s, c)), steps), RunFunctor(BASE))
    ensures var r := Run(Next(s, Trigger(s, c)), steps);
            && r.loops[BASE].batch[0] == Remove(c)
            && (AssertsHold(r, RunFunctor(BASE)) <==> s.conns[c].reading)
  {
    assert BASE < |s.loops|;
    hide Inv, Sane, Enabled, Watched;
    TriggerWatched(s, c);
    WatchedRun(Next(s, Trigger(s, c)), steps, c, s.loops[BASE].Queue() + [Remove(c)], s.conns[c].reading);
    WatchedFront(Run(Next(s, Trigger(s, c)), steps), c, s.conns[c].reading);
  }

  lemma TriggerWatched(s: State, c: nat)
    requires Inv(s) && Sane(s) && MayClose(s, c) && s.conns[c].io != BASE && Enabled(s, Trigger(s, c))
    ensures Watched(Next(s, Trigger(s, c)), c, s.loops[BASE].Queue() + [Remove(c)], s.conns[c].reading)
  {
    var m := Next(s, Trigger(s, c));
    assert BASE < |s.loops| && s.conns[c].io < |s.loops|;
    assert m == HandleClose(s, c);
    hide Inv, Sane, Enabled, Next;
    SaneStep(s, Trigger(s, c));
    FirstRemoval(s, c);
    var before := s.loops[BASE].Queue();
    assert m.loops[BASE].Queue() == before + [Remove(c)];
    assert (before + [Remove(c)])[..|before|] == before;
  }

  lemma FirstRemoval(s: State, c: nat)
    requires Inv(s) && MayClose(s, c)
    ensures s.conns[c].reading <==> c in s.connections && Remove(c) !in s.loops[BASE].Queue()
  {
    hide LogOk, NoDup;
    assert StageOk(s, c);
    assert Remove(c) in s.loops[BASE].Queue() <==> Awaits(s, BASE, Remove(c));
  }

  lemma WatchedFront(s: State, c: nat, inMap: bool)
    requires Watched(s, c, [Remove(c)], inMap) && Enabled(s, RunFunctor(BASE))
    ensures s.loops[BASE].batch[0] == Remove(c) && (AssertsHold(s, RunFunctor(BASE)) <==> inMap)
  {
    hide Sane;
    assert [Remove(c)][..0] == [];
    assert s.loops[BASE].Queue()[0] == s.loops[BASE].batch[0];
  }
}
