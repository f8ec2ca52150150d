/** `TcpConnection`: its handlers, each proved to take the transition of the model. */
module TcpConnections {
  import opened Common
  import opened Buffers
  import opened Wire
  import Model = ConnectionModel

  class TcpConnection {
    var state: ConnState
    var reading: bool
    var writing: bool
    const output: Buffer<byte>
    ghost var sent: seq<byte>
    ghost var wire: seq<byte>
    ghost var late: seq<byte>
    ghost var shut: nat
    ghost var completes: nat
    ghost var closed: bool
    const highWaterMark: nat
    ghost var alarms: seq<nat>

    ghost predicate Valid()
      reads this, output
    {
      output.Valid()
    }

    ghost function State(): Model.State
      requires Valid()
      reads this, output, output.buffer
    {
      Model.State.State(state, reading, writing, output.Contents(), sent, wire, late, shut, completes, closed,
                        highWaterMark, alarms)
    }

    constructor (mark: nat)
      ensures Valid() && State() == Model.Init(mark) && fresh(output) && fresh(output.buffer)
    {
      state, reading, writing := Connecting, false, false;
      output := new Buffer<byte>();
      sent, wire, late, shut, completes, closed := [], [], [], 0, 0, false;
      highWaterMark, alarms := mark, [];
    }

    /** `write(2)` on the socket: `n` bytes of `data` are taken. */
    ghost method KernelTakes(data: seq<byte>)
      modifies this`wire, this`late
      ensures wire == old(wire) + data
      ensures late == if shut > 0 then old(late) + data else old(late)
    {
      wire := wire + data;
      late := if shut > 0 then late + data else late;
    }

    method ConnectEstablished()
      requires Valid() && state == Connecting
      modifies this
      ensures Valid() && State() == Model.Next(old(State()), Model.Establish)
      ensures state == Connected && reading
    {
      state := Connected;
      reading := true;
    }

    /** The first half of `sendInLoop`. */
    method WriteDirectly(msg: seq<byte>, w: Model.WriteResult) returns (nwrote: nat)
      requires Valid() && (w.Wrote? ==> w.n <= |msg|)
      modifies this
      ensures Valid() && State() == Model.WriteDirectly(old(State()), msg, w)
      ensures nwrote == Model.Taken(old(State()), w) <= |msg|
    {
      nwrote := 0;
      if !writing && output.ReadableBytes() == 0 {
        if w.Wrote? {
          nwrote := w.n;
          if !(nwrote < |msg|) {
            completes := completes + 1;
          }
        } else {
          nwrote := 0;
        }
      }
      KernelTakes(msg[..nwrote]);
      sent := sent + msg;
    }

    /** The second half. */
    method Enqueue(msg: seq<byte>, nwrote: nat)
      requires Valid() && nwrote <= |msg|
      modifies this, output, output.buffer
      ensures Valid() && State() == Model.Enqueue(old(State()), msg[nwrote..])
      ensures output.buffer == old(output.buffer) || fresh(output.buffer)
    {
      hide WithRoom, Appended;
      if nwrote < |msg| {
        var oldLen := output.ReadableBytes();
        var remaining := |msg| - nwrote;
        if oldLen + remaining >= highWaterMark && oldLen < highWaterMark {
          alarms := alarms + [oldLen + remaining];
        }
        output.Append(msg[nwrote..]);
        if !writing {
          writing := true;
        }
      }
    }

    static lemma Grows(s: Model.State, msg: seq<byte>, w: Model.WriteResult)
      requires w.Wrote? ==> w.n <= |msg|
      ensures var r := Model.SendInLoop(s, msg, w);
              && r == Model.Enqueue(Model.WriteDirectly(s, msg, w), msg[Model.Taken(s, w)..])
              && r.wire + r.out == (s.wire + s.out) + msg
    {
      Model.SendWrites(s, msg, w);
      hide Model.WriteDirectly, Model.Enqueue;
      var r := Model.SendInLoop(s, msg, w);
      var n := if !s.writing && s.out == [] && w.Wrote? then w.n else 0;
      Model.Assoc(s.wire, msg[..n], r.out);
      Model.Assoc(s.wire, s.out, msg);
    }

    method SendInLoop(msg: seq<byte>, w: Model.WriteResult)
      requires Valid() && (w.Wrote? ==> w.n <= |msg|)
      modifies this, output, output.buffer
      ensures Valid() && State() == Model.SendInLoop(old(State()), msg, w)
      ensures output.buffer == old(output.buffer) || fresh(output.buffer)
      ensures wire + output.Contents() == old(wire + output.Contents()) + msg
    {
      Grows(State(), msg, w);
      hide Model.SendInLoop, Model.WriteDirectly, Model.Enqueue;
      var nwrote := WriteDirectly(msg, w);
      Enqueue(msg, nwrote);
    }

    method Send(msg: seq<byte>, w: Model.WriteResult)
      requires Valid() && (w.Wrote? ==> w.n <= |msg|)
      modifies this, output, output.buffer
      ensures Valid() && State() == Model.Next(old(State()), Model.Send(msg, w))
      ensures output.buffer == old(output.buffer) || fresh(output.buffer)
      ensures wire + output.Contents()
           == old(wire + output.Contents()) + if old(state) == Connected then msg else []
    {
      if state == Connected {
        SendInLoop(msg, w);
      }
    }

    method ShutdownInLoop()
      requires Valid()
      modifies this`shut
      ensures Valid() && State() == Model.ShutdownInLoop(old(State()))
    {
      if !writing {
        shut := shut + 1;
      }
    }

    method Shutdown()
      requires Valid()
      modifies this
      ensures Valid() && State() == Model.Next(old(State()), Model.Shutdown)
      ensures state == if old(state) == Connected then Disconnecting else old(state)
    {
      if state == Connected {
        state := Disconnecting;
        ShutdownInLoop();
      }
    }

    method HandleWrite(w: Model.WriteResult)
      requires Valid() && (w.Wrote? ==> w.n <= |output.Contents()|)
      modifies this, output
      ensures Valid() && output.buffer == old(output.buffer) && State() == Model.Next(old(State()), Model.Writable(w))
      ensures old(writing) && w.Wrote? ==>
        wire == old(wire) + old(output.Contents())[..w.n] && output.Contents() == old(output.Contents())[w.n..]
    {
      if writing {
        if w.Wrote? && w.n > 0 {
          KernelTakes(output.Contents()[..w.n]);
          output.Retrieve(w.n);
          if output.ReadableBytes() == 0 {
            writing := false;
            completes := completes + 1;
            if state == Disconnecting {
              ShutdownInLoop();
            }
          }
        }
      }
    }

    method HandleClose()
      requires Valid() && (state == Connected || state == Disconnecting)
      modifies this
      ensures Valid() && State() == Model.Next(old(State()), Model.Close)
      ensures !reading && !writing && state == old(state) && output.Contents() == old(output.Contents())
    {
      reading, writing := false, false;
      closed := true;
    }

    method ConnectDestroyed()
      requires Valid() && (state == Connected || state == Disconnecting)
      modifies this
      ensures Valid() && State() == Model.Next(old(State()), Model.Destroy)
      ensures state == Disconnected && !reading && !writing
    {
      state := Disconnected;
      reading, writing := false, false;
    }
  }
}
