/** The sending side of a `TcpConnection`: output buffer, write interest and half-close. */
module ConnectionModel {
  import opened Common
  import opened Wire

  /** The result of `write(2)`: how many bytes the kernel took, or an error. */
  datatype WriteResult = Wrote(n: nat) | Failed

  /** `sent` are the bytes handed to `sendInLoop`, `wire` those the kernel took, `late` those it was
      given after `shutdown(SHUT_WR)`; `shut` counts these calls, `completes` the write-complete
      callbacks queued; `mark` is the high-water mark and `alarms` are the buffer sizes that its
      callback was queued with. */
  datatype State = State(
    st: ConnState,
    reading: bool,
    writing: bool,
    out: seq<byte>,
    sent: seq<byte>,
    wire: seq<byte>,
    late: seq<byte>,
    shut: nat,
    completes: nat,
    closed: bool,
    mark: nat,
    alarms: seq<nat>)

  function Init(mark: nat): State { State(Connecting, false, false, [], [], [], [], 0, 0, false, mark, []) }

  // ----- The operations ------------------------------------------------------------------------

  /** The kernel takes `bytes`. */
  function ToWire(s: State, bytes: seq<byte>): State {
    s.(wire := s.wire + bytes, late := if s.shut > 0 then s.late + bytes else s.late)
  }

  /** How much of a message is written at once: only with nothing pending. */
  function Taken(s: State, w: WriteResult): nat {
    if !s.writing && s.out == [] && w.Wrote? then w.n else 0
  }

  /** The first half of `sendInLoop`: the direct write. */
  function WriteDirectly(s: State, msg: seq<byte>, w: WriteResult): State
    requires w.Wrote? ==> w.n <= |msg|
  {
    var complete := !s.writing && s.out == [] && w.Wrote? && w.n == |msg|;
    ToWire(s, msg[..Taken(s, w)]).(sent := s.sent + msg, completes := s.completes + if complete then 1 else 0)
  }

  /** The second half: the rest goes to the output buffer. */
  function Enqueue(s: State, rest: seq<byte>): State {
    if rest == [] then s
    else
      var size := |s.out| + |rest|;
      s.(out := s.out + rest, writing := true,
         alarms := if size >= s.mark && |s.out| < s.mark then s.alarms + [size] else s.alarms)
  }

  function SendInLoop(s: State, msg: seq<byte>, w: WriteResult): State
    requires w.Wrote? ==> w.n <= |msg|
  {
    Enqueue(WriteDirectly(s, msg, w), msg[Taken(s, w)..])
  }

  function ShutdownInLoop(s: State): State {
    if s.writing then s else s.(shut := s.shut + 1)
  }

  function HandleWrite(s: State, w: WriteResult): State
    requires w.Wrote? ==> w.n <= |s.out|
  {
    if s.writing && w.Wrote? && w.n > 0 then
      var s1 := ToWire(s, s.out[..w.n]).(out := s.out[w.n..]);
      if s1.out == [] then
        var s2 := s1.(writing := false, completes := s.completes + 1);
        if s.st == Disconnecting then ShutdownInLoop(s2) else s2
      else s1
    else s
  }

  /** What happens to a connection.  The last three come from `send` and `shutdown` called on
      another thread: the functors they post, and the state change made at once. */
  datatype Step =
    | Establish
    | Send(msg: seq<byte>, w: WriteResult)
    | Writable(w: WriteResult)
    | Shutdown
    | Close
    | Destroy
    | PostedSend(msg: seq<byte>, w: WriteResult)
    | OffThreadShutdown
    | PostedShutdown

  predicate Enabled(s: State, step: Step) {
    match step
    case Establish => s.st == Connecting
    case Send(msg, w) => w.Wrote? ==> w.n <= |msg|
    case Writable(w) => w.Wrote? ==> w.n <= |s.out|
    case Shutdown => true
    case Close => s.st == Connected || s.st == Disconnecting
    case Destroy => s.st == Connected || s.st == Disconnecting
    case PostedSend(msg, w) => w.Wrote? ==> w.n <= |msg|
    case OffThreadShutdown => true
    case PostedShutdown => true
  }

  function Next(s: State, step: Step): State
    requires Enabled(s, step)
  {
    match step
    case Establish => s.(st := Connected, reading := true)
    case Send(msg, w) => if s.st == Connected then SendInLoop(s, msg, w) else s
    case Writable(w) => HandleWrite(s, w)
    case Shutdown => if s.st == Connected then ShutdownInLoop(s.(st := Disconnecting)) else s
    case Close => s.(reading := false, writing := false, closed := true)
    case Destroy => s.(st := Disconnected, reading := false, writing := false)
    case PostedSend(msg, w) => SendInLoop(s, msg, w)
    case OffThreadShutdown => if s.st == Connected then s.(st := Disconnecting) else s
    case PostedShutdown => ShutdownInLoop(s)
  }

  ghost predicate Legal(s: State, steps: seq<Step>)
    decreases |steps|
  {
    steps == [] || (Enabled(s, steps[0]) && Legal(Next(s, steps[0]), steps[1..]))
  }

  function Run(s: State, steps: seq<Step>): State
    requires Legal(s, steps)
    decreases |steps|
  {
    if steps == [] then s else Run(Next(s, steps[0]), steps[1..])
  }

  // ----- Nothing is lost, duplicated or reordered ----------------------------------------------

  ghost predicate Conserved(s: State) { s.wire + s.out == s.sent }

  lemma SendConserves(s: State, msg: seq<byte>, w: WriteResult)
    requires Conserved(s) && (w.Wrote? ==> w.n <= |msg|)
    ensures Conserved(SendInLoop(s, msg, w))
  {
    if !s.writing && s.out == [] {
      var n := if w.Wrote? then w.n else 0;
      assert s.wire == s.sent;
      Split(s.wire, msg, n);
    } else {
      assert msg[..0] == [] && msg[0..] == msg;
      assert s.wire + [] == s.wire;
      Assoc(s.wire, s.out, msg);
    }
  }

  lemma Assoc(a: seq<byte>, b: seq<byte>, c: seq<byte>)
    ensures (a + b) + c == a + (b + c)
  {
  }

  lemma Split(a: seq<byte>, msg: seq<byte>, n: nat)
    requires n <= |msg|
    ensures (a + msg[..n]) + ([] + msg[n..]) == a + msg
    ensures n == |msg| ==> (a + msg[..n]) + [] == a + msg
  {
    assert msg == msg[..n] + msg[n..];
  }

  lemma WriteConserves(s: State, w: WriteResult)
    requires Conserved(s) && (w.Wrote? ==> w.n <= |s.out|)
    ensures Conserved(HandleWrite(s, w))
  {
    if s.writing && w.Wrote? && w.n > 0 {
      assert s.out == s.out[..w.n] + s.out[w.n..];
      assert s.wire + s.out == (s.wire + s.out[..w.n]) + s.out[w.n..];
    }
  }

  lemma ConservedStep(s: State, step: Step)
    requires Conserved(s) && Enabled(s, step)
    ensures Conserved(Next(s, step))
  {
    match step
    case Send(msg, w) => SendConserves(s, msg, w);
    case PostedSend(msg, w) => SendConserves(s, msg, w);
    case Writable(w) => WriteConserves(s, w);
    case _ =>
  }

  lemma {:induction false} ConservedRun(s: State, steps: seq<Step>)
    requires Conserved(s) && Legal(s, steps)
    ensures Conserved(Run(s, steps))
    decreases |steps|
  {
    if steps != [] {
      ConservedStep(s, steps[0]);
      ConservedRun(Next(s, steps[0]), steps[1..]);
    }
  }

  // What the callers asked for, read off the steps alone.

  /** The state of the connection after a step. */
  function StateAfter(st: ConnState, step: Step): ConnState {
    match step
    case Establish => Connected
    case Shutdown => if st == Connected then Disconnecting else st
    case OffThreadShutdown => if st == Connected then Disconnecting else st
    case Destroy => Disconnected
    case _ => st
  }

  /** The message of a step: `send` counts while the connection is open, a posted one always. */
  function Message(st: ConnState, step: Step): seq<byte> {
    match step
    case Send(msg, _) => if st == Connected then msg else []
    case PostedSend(msg, _) => msg
    case _ => []
  }

  function FinalState(st: ConnState, steps: seq<Step>): ConnState
    decreases |steps|
  {
    if steps == [] then st else FinalState(StateAfter(st, steps[0]), steps[1..])
  }

  function Messages(st: ConnState, steps: seq<Step>): seq<byte>
    decreases |steps|
  {
    if steps == [] then [] else Message(st, steps[0]) + Messages(StateAfter(st, steps[0]), steps[1..])
  }

  lemma StepHandsOver(s: State, step: Step)
    requires Enabled(s, step)
    ensures Next(s, step).st == StateAfter(s.st, step) && Next(s, step).sent == s.sent + Message(s.st, step)
  {
    assert s.sent + [] == s.sent;
    match step
    case Send(msg, w) => SendSent(s, msg, w);
    case PostedSend(msg, w) => SendSent(s, msg, w);
    case _ =>
  }

  lemma SendSent(s: State, msg: seq<byte>, w: WriteResult)
    requires w.Wrote? ==> w.n <= |msg|
    ensures SendInLoop(s, msg, w).sent == s.sent + msg && SendInLoop(s, msg, w).st == s.st
  {
    DirectFields(s, msg, w);
    hide WriteDirectly;
    EnqueueFields(WriteDirectly(s, msg, w), msg[Taken(s, w)..]);
  }

  lemma {:induction false} RunHandsOver(s: State, steps: seq<Step>)
    requires Legal(s, steps)
    ensures Run(s, steps).st == FinalState(s.st, steps) && Run(s, steps).sent == s.sent + Messages(s.st, steps)
    decreases |steps|
  {
    if steps != [] {
      StepHandsOver(s, steps[0]);
      hide Enabled, Next, Message, StateAfter;
      RunHandsOver(Next(s, steps[0]), steps[1..]);
      Assoc(s.sent, Message(s.st, steps[0]), Messages(StateAfter(s.st, steps[0]), steps[1..]));
    }
  }

  /** In every run, on any threads, with any short writes and errors, and also after closing: the
      bytes on the wire followed by the output buffer are the messages handed over, in order. */
  lemma WireIsPrefixOfSent(mark: nat, steps: seq<Step>)
    requires Legal(Init(mark), steps)
    ensures var s := Run(Init(mark), steps);
            && s.wire + s.out == Messages(Connecting, steps) == s.sent
            && s.st == FinalState(Connecting, steps)
  {
    ConservedRun(Init(mark), steps);
    RunHandsOver(Init(mark), steps);
    assert [] + Messages(Connecting, steps) == Messages(Connecting, steps);
  }

  /** What the kernel takes in a step: of a message only with nothing pending, otherwise from the
      front of the buffer and only with write interest. */
  function Took(s: State, step: Step): seq<byte>
    requires Enabled(s, step)
  {
    match step
    case Send(msg, w) => if s.st == Connected && !s.writing && s.out == [] && w.Wrote? then msg[..w.n] else []
    case PostedSend(msg, w) => if !s.writing && s.out == [] && w.Wrote? then msg[..w.n] else []
    case Writable(w) => if s.writing && w.Wrote? then s.out[..w.n] else []
    case _ => []
  }

  /** That is what appears on the wire, and on top of it the buffer changes by the message. */
  lemma WrittenExactly(s: State, step: Step)
    requires Enabled(s, step)
    ensures var r := Next(s, step);
            && r.wire == s.wire + Took(s, step)
            && r.late == s.late + (if s.shut > 0 then Took(s, step) else [])
            && Took(s, step) + r.out == s.out + Message(s.st, step)
  {
    hide SendInLoop, HandleWrite;
    NothingAdded(s.wire);
    NothingAdded(s.late);
    NothingAdded(s.out);
    match step
    case Send(msg, w) =>
      SendWrites(s, msg, w);
      assert msg[..0] == [];
    case PostedSend(msg, w) =>
      SendWrites(s, msg, w);
      assert msg[..0] == [];
    case Writable(w) => HandleWriteWrites(s, w);
    case _ =>
  }

  lemma NothingAdded(a: seq<byte>)
    ensures a + [] == a && [] + a == a
  {
  }

  lemma HandleWriteWrites(s: State, w: WriteResult)
    requires w.Wrote? ==> w.n <= |s.out|
    ensures var r := HandleWrite(s, w); var took := if s.writing && w.Wrote? then s.out[..w.n] else [];
            && r.wire == s.wire + took && r.late == s.late + (if s.shut > 0 then took else [])
            && took + r.out == s.out
  {
    NothingAdded(s.wire);
    NothingAdded(s.late);
    NothingAdded(s.out);
    assert w.Wrote? ==> s.out[..w.n] + s.out[w.n..] == s.out;
  }

  lemma SendWrites(s: State, msg: seq<byte>, w: WriteResult)
    requires w.Wrote? ==> w.n <= |msg|
    ensures var r := SendInLoop(s, msg, w);
            var n := if !s.writing && s.out == [] && w.Wrote? then w.n else 0;
            && r.wire == s.wire + msg[..n] && r.out == s.out + msg[n..]
            && r.late == s.late + (if s.shut > 0 then msg[..n] else [])
            && msg[..n] + r.out == s.out + msg
  {
    DirectFields(s, msg, w);
    hide WriteDirectly;
    var n := Taken(s, w);
    EnqueueFields(WriteDirectly(s, msg, w), msg[n..]);
    hide Enqueue;
    Rejoin(s.out, msg, n);
  }

  lemma Rejoin(out: seq<byte>, msg: seq<byte>, n: nat)
    requires n <= |msg| && (n > 0 ==> out == [])
    ensures msg[..n] + (out + msg[n..]) == out + msg
  {
  }

  lemma DirectFields(s: State, msg: seq<byte>, w: WriteResult)
    requires w.Wrote? ==> w.n <= |msg|
    ensures var r := WriteDirectly(s, msg, w); var taken := msg[..Taken(s, w)];
            && r.wire == s.wire + taken && r.late == s.late + (if s.shut > 0 then taken else [])
            && r.out == s.out && r.sent == s.sent + msg && r.st == s.st
  {
    assert s.late + [] == s.late;
  }

  lemma EnqueueFields(s: State, rest: seq<byte>)
    ensures var r := Enqueue(s, rest);
            r.wire == s.wire && r.late == s.late && r.out == s.out + rest && r.sent == s.sent && r.st == s.st
  {
    assert s.out + [] == s.out;
  }

  /** What establishing, closing and destroying do to the interest in events. */
  lemma InterestAfter(s: State, step: Step)
    requires Enabled(s, step) && (step.Establish? || step.Close? || step.Destroy?)
    ensures var r := Next(s, step);
            && r.reading == step.Establish? && r.writing == (step.Establish? && s.writing)
            && r.out == s.out && r.shut == s.shut && r.closed == (s.closed || step.Close?)
  {
  }

  /** The high-water-mark callback is queued, with the new size, exactly when a step takes the output
      buffer from below the mark to the mark or above. */
  lemma AlarmMeansCrossing(s: State, step: Step)
    requires Enabled(s, step)
    ensures var r := Next(s, step);
            && r.mark == s.mark
            && r.alarms == if |s.out| < s.mark <= |r.out| then s.alarms + [|r.out|] else s.alarms
  {
    match step
    case Send(msg, w) => SendAlarms(s, msg, w);
    case PostedSend(msg, w) => SendAlarms(s, msg, w);
    case _ =>
  }

  lemma SendAlarms(s: State, msg: seq<byte>, w: WriteResult)
    requires w.Wrote? ==> w.n <= |msg|
    ensures var r := SendInLoop(s, msg, w);
            && r.mark == s.mark
            && r.alarms == if |s.out| < s.mark <= |r.out| then s.alarms + [|r.out|] else s.alarms
  {
    var m := WriteDirectly(s, msg, w);
    assert m.out == s.out && m.mark == s.mark && m.alarms == s.alarms;
    hide WriteDirectly;
  }

  /** A step that writes the whole of what it has to write: all of the buffer, or all of a message
      that finds nothing pending. */
  predicate Flushes(s: State, step: Step) {
    match step
    case Send(msg, w) => s.st == Connected && !s.writing && s.out == [] && w == Wrote(|msg|)
    case PostedSend(msg, w) => !s.writing && s.out == [] && w == Wrote(|msg|)
    case Writable(w) => s.writing && s.out != [] && w == Wrote(|s.out|)
    case _ => false
  }

  /** The write-complete callback means flushed: it is queued exactly by such a step, then everything
      sent is on the wire, and it is queued whenever pending bytes become flushed. */
  lemma CompleteMeansFlushed(s: State, step: Step)
    requires Conserved(s) && Enabled(s, step)
    ensures var r := Next(s, step);
            && r.completes == s.completes + (if Flushes(s, step) then 1 else 0)
            && (r.completes > s.completes ==> r.wire == r.sent)
            && (s.wire != s.sent && r.wire == r.sent ==> r.completes == s.completes + 1)
  {
    ConservedStep(s, step);
    var r := Next(s, step);
    assert r.out == [] ==> r.wire == r.sent;
    assert |r.wire| + |r.out| == |r.sent| && |s.wire| + |s.out| == |s.sent|;
  }

  // ----- Write interest and half-close ---------------------------------------------------------

  /** Until the connection is closed: write interest means unsent bytes, and in half-close the
      write side is shut down, once, as soon as the buffer is drained, and nothing is written after. */
  ghost predicate Orderly(s: State) {
    && (s.writing <==> s.out != [])
    && s.shut == (if s.st == Disconnecting && s.out == [] then 1 else 0)
    && s.late == []
    && (s.st == Connecting ==> s.out == [])
    && s.st != Disconnected
  }

  /** `send` and `shutdown` are called on the loop thread and the connection is not yet closed. */
  predicate OnLoop(step: Step) { step.Establish? || step.Send? || step.Writable? || step.Shutdown? }

  lemma OrderlyStep(s: State, step: Step)
    requires Orderly(s) && Enabled(s, step) && OnLoop(step)
    ensures Orderly(Next(s, step))
  {
  }

  lemma {:induction false} OrderlyRun(s: State, steps: seq<Step>)
    requires Orderly(s) && Legal(s, steps) && forall step :: step in steps ==> OnLoop(step)
    ensures Orderly(Run(s, steps))
    decreases |steps|
  {
    if steps != [] {
      assert steps[0] in steps;
      OrderlyStep(s, steps[0]);
      OrderlyRun(Next(s, steps[0]), steps[1..]);
    }
  }

  /** Every such run keeps the order; in particular SHUT_WR is issued at most once, exactly when
      half-closing and drained, and no byte follows it. */
  lemma HalfCloseIsOrderly(mark: nat, steps: seq<Step>)
    requires Legal(Init(mark), steps) && forall step :: step in steps ==> OnLoop(step)
    ensures Orderly(Run(Init(mark), steps))
  {
    OrderlyRun(Init(mark), steps);
  }

  // ----- Calls on other threads ----------------------------------------------------------------

  /** A posted `sendInLoop` does not look at the state.  On an established connection it keeps the
      order exactly when it has nothing to send, finds the connection still open, or finds bytes of
      an unfinished half-close to queue behind; otherwise it writes after SHUT_WR. */
  lemma PostedSendExactly(s: State, msg: seq<byte>, w: WriteResult)
    requires Orderly(s) && s.st != Connecting && Enabled(s, PostedSend(msg, w))
    ensures var r := Next(s, PostedSend(msg, w));
            && (Orderly(r) <==> msg == [] || s.st == Connected || s.out != [])
            && r.late == if s.st == Disconnecting && s.out == [] && w.Wrote? then msg[..w.n] else []
  {
  }

  /** Steps on the loop thread, and functors posted by `send` calls that found it connected. */
  ghost predicate WithPostedSends(s: State, steps: seq<Step>)
    requires Legal(s, steps)
    decreases |steps|
  {
    steps == []
    || ((OnLoop(steps[0]) || (steps[0].PostedSend? && s.st != Connecting))
        && WithPostedSends(Next(s, steps[0]), steps[1..]))
  }

  /** Every posted message finds the connection open or an unfinished half-close. */
  ghost predicate SentInTime(s: State, steps: seq<Step>)
    requires Legal(s, steps)
    decreases |steps|
  {
    steps == []
    || ((steps[0].PostedSend? ==> steps[0].msg == [] || s.st == Connected || s.out != [])
        && SentInTime(Next(s, steps[0]), steps[1..]))
  }

  ghost predicate AlwaysOrderly(s: State, steps: seq<Step>)
    requires Legal(s, steps)
    decreases |steps|
  {
    Orderly(s) && (steps == [] || AlwaysOrderly(Next(s, steps[0]), steps[1..]))
  }

  /** With `send` on any thread, the runs that keep the order throughout are exactly those. */
  lemma {:induction false} OrderlyExactlyInTime(s: State, steps: seq<Step>)
    requires Orderly(s) && Legal(s, steps) && WithPostedSends(s, steps)
    ensures AlwaysOrderly(s, steps) <==> SentInTime(s, steps)
    decreases |steps|
  {
    if steps != [] {
      var r := Next(s, steps[0]);
      if steps[0].PostedSend? {
        PostedSendExactly(s, steps[0].msg, steps[0].w);
      } else {
        OrderlyStep(s, steps[0]);
      }
      hide Orderly;
      if Orderly(r) {
        OrderlyExactlyInTime(r, steps[1..]);
      }
    }
  }

  /** What may run between the state change of a `shutdown` on another thread and its functor. */
  predicate Between(step: Step) { step.Send? || step.Writable? || step.Shutdown? || step.PostedSend? }

  /** Some write of the run empties the output buffer. */
  ghost predicate Drains(s: State, steps: seq<Step>)
    requires Legal(s, steps)
    decreases |steps|
  {
    steps != []
    && ((steps[0].Writable? && s.out != [] && Next(s, steps[0]).out == []) || Drains(Next(s, steps[0]), steps[1..]))
  }

  ghost predicate HalfClosing(s: State) {
    s.st == Disconnecting && (s.writing <==> s.out != []) && (s.shut == 0 ==> s.late == [])
  }

  lemma BetweenStep(s: State, step: Step)
    requires HalfClosing(s) && Enabled(s, step) && Between(step)
    ensures var r := Next(s, step);
            && HalfClosing(r)
            && r.shut == s.shut + if step.Writable? && s.out != [] && r.out == [] then 1 else 0
  {
  }

  lemma {:induction false} BetweenRun(s: State, steps: seq<Step>)
    requires HalfClosing(s) && Legal(s, steps) && forall step :: step in steps ==> Between(step)
    ensures var r := Run(s, steps);
            && HalfClosing(r) && r.shut >= s.shut
            && (r.shut > s.shut <==> Drains(s, steps))
    decreases |steps|
  {
    if steps != [] {
      assert steps[0] in steps;
      BetweenStep(s, steps[0]);
      BetweenRun(Next(s, steps[0]), steps[1..]);
    }
  }

  /** A `shutdown` on another thread keeps the order exactly when no write empties the buffer
      between its state change and its functor: such a write shuts down already. */
  lemma OffThreadShutdownExactly(s: State, steps: seq<Step>)
    requires Orderly(s) && s.st == Connected
    requires Legal(Next(s, OffThreadShutdown), steps) && forall step :: step in steps ==> Between(step)
    ensures var m := Next(s, OffThreadShutdown);
            Orderly(Next(Run(m, steps), PostedShutdown)) <==> !Drains(m, steps)
  {
    BetweenRun(Next(s, OffThreadShutdown), steps);
  }

  lemma {:induction false} LoopThreadBetween(s: State, steps: seq<Step>)
    requires HalfClosing(s) && Legal(s, steps) && forall step :: step in steps ==> OnLoop(step)
    ensures var r := Run(s, steps);
            && HalfClosing(r)
            && if s.out == [] then r == s else r.shut == s.shut + if r.out == [] then 1 else 0
    decreases |steps|
  {
    if steps != [] {
      assert steps[0] in steps;
      BetweenStep(s, steps[0]);
      LoopThreadBetween(Next(s, steps[0]), steps[1..]);
    }
  }

  /** How often it shuts down when the steps in between are those of the loop thread: twice exactly
      when bytes were pending at the state change and are gone when the functor runs. */
  lemma OffThreadShutdownCount(s: State, steps: seq<Step>)
    requires Orderly(s) && s.st == Connected
    requires Legal(Next(s, OffThreadShutdown), steps) && forall step :: step in steps ==> OnLoop(step)
    ensures var r := Run(Next(s, OffThreadShutdown), steps);
            Next(r, PostedShutdown).shut == if s.out == [] then 1 else if r.out == [] then 2 else 0
  {
    LoopThreadBetween(Next(s, OffThreadShutdown), steps);
  }

  /** Both outcomes occur: a write that takes everything in between makes it two. */
  lemma OffThreadShutdownTwice(s: State)
    requires Orderly(s) && s.st == Connected && s.out != []
    ensures var w := Writable(Wrote(|s.out|)); var m := Next(s, OffThreadShutdown);
            Legal(m, [w]) && Next(Run(m, [w]), PostedShutdown).shut == 2
  {
    var w := Writable(Wrote(|s.out|));
    var m := Next(s, OffThreadShutdown);
    assert [w][1..] == [] && Next(m, w).out == [];
    OffThreadShutdownCount(s, [w]);
  }
}
