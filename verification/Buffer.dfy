/** `net::Buffer`: a growable array with a reader and a writer index, used as a queue of bytes.
    The element type is a parameter: the codec reads its elements as numbers, the HTTP parser as
    characters. */
module Buffers {

  const CHEAP_PREPEND: nat := 8
  const INITIAL_SIZE: nat := 1024
  const EXTRA_SIZE: nat := 65536

  /** The two indices and the size of the array. */
  datatype Layout = Indices(reader: nat, writer: nat, size: nat) {
    predicate Valid() { reader <= writer <= size && CHEAP_PREPEND <= size }
  }

  /** The layout once `len` more elements can be written. */
  function WithRoom(l: Layout, len: nat): (r: Layout)
    requires l.Valid()
    ensures r.Valid() && r.size - r.writer >= len && r.writer - r.reader == l.writer - l.reader
    ensures r.reader == l.reader || r.reader == CHEAP_PREPEND
  {
    if l.size - l.writer >= len then l
    else if l.size - l.writer + l.reader < len + CHEAP_PREPEND then l.(size := l.writer + len)
    else Indices(CHEAP_PREPEND, CHEAP_PREPEND + l.writer - l.reader, l.size)
  }

  function Appended(l: Layout, len: nat): (r: Layout)
    requires l.Valid()
    ensures r.Valid() && r.writer - r.reader == l.writer - l.reader + len
  {
    var m := WithRoom(l, len);
    m.(writer := m.writer + len)
  }

  /** After `readv` delivered `n` elements: what the array can not hold is appended. */
  function AfterRead(l: Layout, n: nat): (r: Layout)
    requires l.Valid()
    ensures r.Valid() && r.writer - r.reader == l.writer - l.reader + n
  {
    if l.writer + n <= l.size then l.(writer := l.writer + n)
    else Appended(l.(writer := l.size), l.writer + n - l.size)
  }

  /** `std::copy` of `data` into the array. */
  method Store<T>(a: array<T>, at: nat, data: seq<T>)
    requires at + |data| <= a.Length
    modifies a
    ensures a[at..at + |data|] == data
    ensures forall k :: 0 <= k < a.Length && !(at <= k < at + |data|) ==> a[k] == old(a[k])
  {
    forall i | 0 <= i < |data| {
      a[at + i] := data[i];
    }
  }

  /** `std::copy` to a position further to the front. */
  method CopyDown<T>(a: array<T>, to: nat, from: nat, n: nat)
    requires to < from && from + n <= a.Length
    modifies a
    ensures a[to..to + n] == old(a[from..from + n])
  {
    ghost var was := a[from..from + n];
    var i := 0;
    while i < n
      invariant 0 <= i <= n
      invariant forall k :: 0 <= k < i ==> a[to + k] == was[k]
      invariant forall k :: i <= k < n ==> a[from + k] == was[k]
    {
      a[to + i] := a[from + i];
      i := i + 1;
    }
  }

  class Buffer<T(0)> {
    var buffer: array<T>
    var readerIndex: nat
    var writerIndex: nat

    ghost predicate Valid()
      reads this
    {
      Layout().Valid()
    }

    ghost function Layout(): Layout
      reads this
    {
      Indices(readerIndex, writerIndex, buffer.Length)
    }

    /** The queue that the buffer stands for. */
    ghost function Contents(): seq<T>
      requires Valid()
      reads this, buffer
    {
      buffer[readerIndex..writerIndex]
    }

    constructor ()
      ensures Valid() && Contents() == [] && fresh(buffer)
      ensures readerIndex == 8 && WritableBytes() == 1024
    {
      buffer := new T[CHEAP_PREPEND + INITIAL_SIZE];
      readerIndex := CHEAP_PREPEND;
      writerIndex := CHEAP_PREPEND;
    }

    function ReadableBytes(): (n: nat)
      requires Valid()
      reads this, buffer
      ensures n == |Contents()|
    {
      writerIndex - readerIndex
    }

    function WritableBytes(): nat
      requires Valid()
      reads this
    {
      buffer.Length - writerIndex
    }

    function PrependableBytes(): nat
      reads this
    {
      readerIndex
    }

    /** The first `n` readable elements, as seen through `peek()`. */
    function Peek(n: nat): (s: seq<T>)
      requires Valid() && n <= ReadableBytes()
      reads this, buffer
      ensures s == Contents()[..n]
    {
      buffer[readerIndex..readerIndex + n]
    }

    method Retrieve(len: nat)
      requires Valid() && len <= |Contents()|
      modifies this
      ensures Valid() && buffer == old(buffer) && Contents() == old(Contents())[len..]
      ensures Layout() == old(Layout()).(reader := old(readerIndex) + len)
    {
      readerIndex := readerIndex + len;
    }

    method RetrieveAll()
      requires Valid()
      modifies this
      ensures Valid() && buffer == old(buffer) && Contents() == []
      ensures readerIndex == writerIndex == CHEAP_PREPEND
    {
      readerIndex := CHEAP_PREPEND;
      writerIndex := CHEAP_PREPEND;
    }

    method RetrieveAsString() returns (s: seq<T>)
      requires Valid()
      modifies this
      ensures Valid() && buffer == old(buffer) && s == old(Contents()) && Contents() == []
      ensures readerIndex == writerIndex == CHEAP_PREPEND
    {
      s := buffer[readerIndex..writerIndex];
      RetrieveAll();
    }

    /** `makeSpace`: grows the array, or slides the contents to the front when that is enough. */
    method MakeSpace(len: nat)
      requires Valid() && WritableBytes() < len
      modifies this, buffer
      ensures Valid() && (buffer == old(buffer) || fresh(buffer)) && Contents() == old(Contents())
      ensures Layout() == WithRoom(old(Layout()), len)
    {
      if WritableBytes() + PrependableBytes() < len + CHEAP_PREPEND {
        Grow(len);
      } else {
        assert CHEAP_PREPEND < readerIndex;
        Slide();
      }
    }

    /** `buffer_.resize(writerIndex_ + len)`. */
    method Grow(len: nat)
      requires Valid() && WritableBytes() < len
      modifies this`buffer
      ensures Valid() && fresh(buffer) && Contents() == old(Contents())
      ensures buffer.Length == writerIndex + len
    {
      var grown := new T[writerIndex + len];
      forall i | 0 <= i < writerIndex {
        grown[i] := buffer[i];
      }
      buffer := grown;
    }

    /** Slides the contents to the front. */
    method Slide()
      requires Valid() && CHEAP_PREPEND < readerIndex
      modifies this`readerIndex, this`writerIndex, buffer
      ensures Valid() && Contents() == old(Contents()) && readerIndex == CHEAP_PREPEND
    {
      var readable := ReadableBytes();
      CopyDown(buffer, CHEAP_PREPEND, readerIndex, readable);
      readerIndex := CHEAP_PREPEND;
      writerIndex := readerIndex + readable;
    }

    method EnsureWritableBytes(len: nat)
      requires Valid()
      modifies this, buffer
      ensures Valid() && (buffer == old(buffer) || fresh(buffer)) && Contents() == old(Contents())
      ensures WritableBytes() >= len && Layout() == WithRoom(old(Layout()), len)
    {
      if WritableBytes() < len {
        MakeSpace(len);
      }
    }

    /** Writes `data` behind the contents and takes it over: `beginWrite` followed by `hasWritten`. */
    method Write(data: seq<T>)
      requires Valid() && |data| <= WritableBytes()
      modifies this, buffer
      ensures Valid() && buffer == old(buffer) && readerIndex == old(readerIndex)
      ensures Contents() == old(Contents()) + data && writerIndex == old(writerIndex) + |data|
    {
      Store(buffer, writerIndex, data);
      writerIndex := writerIndex + |data|;
    }

    method Append(data: seq<T>)
      requires Valid()
      modifies this, buffer
      ensures Valid() && (buffer == old(buffer) || fresh(buffer)) && Contents() == old(Contents()) + data
      ensures Layout() == Appended(old(Layout()), |data|)
      ensures readerIndex == old(readerIndex) || readerIndex == CHEAP_PREPEND
    {
      EnsureWritableBytes(|data|);
      Write(data);
    }

    method Prepend(data: seq<T>)
      requires Valid() && |data| <= PrependableBytes()
      modifies this, buffer
      ensures Valid() && buffer == old(buffer) && Contents() == data + old(Contents())
      ensures Layout() == old(Layout()).(reader := old(readerIndex) - |data|)
    {
      readerIndex := readerIndex - |data|;
      Store(buffer, readerIndex, data);
      assert buffer[readerIndex..writerIndex]
          == buffer[readerIndex..readerIndex + |data|] + buffer[readerIndex + |data|..writerIndex];
    }

    /** `readFd`: `readv` scatters what it read over the free part of the buffer and an extra
        64 KiB area on the stack; `read` is what arrived, or nothing on an error. */
    method ReadFd(read: seq<T>)
      requires Valid() && |read| <= WritableBytes() + 65536
      modifies this, buffer
      ensures Valid() && (buffer == old(buffer) || fresh(buffer)) && Contents() == old(Contents()) + read
      ensures Layout() == AfterRead(old(Layout()), |read|)
    {
      var writable := WritableBytes();
      if |read| <= writable {
        Write(read);
      } else {
        Write(read[..writable]);
        assert writerIndex == buffer.Length;
        Append(read[writable..]);
        assert read == read[..writable] + read[writable..];
      }
    }
  }

  // ----- Runs ----------------------------------------------------------------------------------

  datatype Op<T> =
    | OpAppend(data: seq<T>)
    | OpPrepend(data: seq<T>)
    | OpRetrieve(len: nat)
    | OpTakeAll
    | OpReadFd(data: seq<T>)

  /** What an operation does to a plain queue: the elements it returns and the queue after it. */
  function Apply<T>(q: seq<T>, op: Op<T>): (seq<T>, seq<T>) {
    match op
    case OpAppend(data) => ([], q + data)
    case OpPrepend(data) => ([], data + q)
    case OpRetrieve(len) => if len <= |q| then (q[..len], q[len..]) else ([], q)
    case OpTakeAll => (q, [])
    case OpReadFd(data) => ([], q + data)
  }

  function Replay<T>(q: seq<T>, ops: seq<Op<T>>): (seq<T>, seq<T>)
    decreases |ops|
  {
    if ops == [] then ([], q)
    else
      var (out, q') := Apply(q, ops[0]);
      var (rest, q'') := Replay(q', ops[1..]);
      (out + rest, q'')
  }

  function Brought<T>(op: Op<T>): seq<T> { if op.OpAppend? || op.OpReadFd? then op.data else [] }

  /** Everything appended or read in, in order. */
  function Arrived<T>(ops: seq<Op<T>>): seq<T>
    decreases |ops|
  {
    if ops == [] then [] else Brought(ops[0]) + Arrived(ops[1..])
  }

  ghost predicate NoPrepend<T>(ops: seq<Op<T>>) { forall op :: op in ops ==> !op.OpPrepend? }

  lemma ApplyConserves<T>(q: seq<T>, op: Op<T>)
    requires !op.OpPrepend?
    ensures Apply(q, op).0 + Apply(q, op).1 == q + Brought(op)
  {
  }

  /** Without prepending, nothing is lost, duplicated or reordered: what came out followed by what
      is left is what was there followed by what arrived. */
  lemma {:induction false} Conserved<T>(q: seq<T>, ops: seq<Op<T>>)
    requires NoPrepend(ops)
    ensures Replay(q, ops).0 + Replay(q, ops).1 == q + Arrived(ops)
    decreases |ops|
  {
    if ops != [] {
      hide Apply, Brought;
      assert ops[0] in ops;
      ApplyConserves(q, ops[0]);
      var (out, q') := Apply(q, ops[0]);
      Conserved(q', ops[1..]);
      var (rest, q'') := Replay(q', ops[1..]);
      Regroup(out, rest, q'', q', Arrived(ops[1..]), q, Brought(ops[0]));
    }
  }

  lemma Regroup<T>(a: seq<T>, b: seq<T>, c: seq<T>, d: seq<T>, e: seq<T>, f: seq<T>, g: seq<T>)
    requires b + c == d + e && a + d == f + g
    ensures (a + b) + c == f + (g + e)
  {
    assert (a + b) + c == a + (b + c);
    assert a + (d + e) == (a + d) + e;
  }

  // ----- Which operations are carried out ------------------------------------------------------

  /** What the assertions in the source demand of the caller of one operation. */
  predicate Fits<T>(l: Layout, op: Op<T>) {
    match op
    case OpAppend(_) => true
    case OpPrepend(data) => |data| <= l.reader
    case OpRetrieve(len) => l.reader + len <= l.writer
    case OpTakeAll => true
    case OpReadFd(data) => l.writer + |data| <= l.size + EXTRA_SIZE
  }

  function Moved<T>(l: Layout, op: Op<T>): (r: Layout)
    requires l.Valid() && Fits(l, op)
    ensures r.Valid()
  {
    match op
    case OpAppend(data) => Appended(l, |data|)
    case OpPrepend(data) => l.(reader := l.reader - |data|)
    case OpRetrieve(len) => l.(reader := l.reader + len)
    case OpTakeAll => l.(reader := CHEAP_PREPEND, writer := CHEAP_PREPEND)
    case OpReadFd(data) => AfterRead(l, |data|)
  }

  /** The operations of a sequence that are carried out when those whose caller breaks an assertion
      are passed over. */
  function Accepted<T>(l: Layout, ops: seq<Op<T>>): seq<Op<T>>
    requires l.Valid()
    decreases |ops|
  {
    if ops == [] then []
    else if Fits(l, ops[0]) then [ops[0]] + Accepted(Moved(l, ops[0]), ops[1..])
    else Accepted(l, ops[1..])
  }

  // Seen from the plain queue only its length matters, and only a retrieval can ask for too much.

  predicate Can<T>(len: nat, op: Op<T>) { op.OpRetrieve? ==> op.len <= len }

  function Length<T>(len: nat, op: Op<T>): nat
    requires Can(len, op)
  {
    match op
    case OpRetrieve(n) => len - n
    case OpTakeAll => 0
    case _ => len + |op.data|
  }

  /** The operations that are possible on a plain queue of length `len`. */
  function Possible<T>(len: nat, ops: seq<Op<T>>): seq<Op<T>>
    decreases |ops|
  {
    if ops == [] then []
    else if Can(len, ops[0]) then [ops[0]] + Possible(Length(len, ops[0]), ops[1..])
    else Possible(len, ops[1..])
  }

  /** Nothing is prepended, and no read is larger than the extra area. */
  ghost predicate Plain<T>(ops: seq<Op<T>>) {
    NoPrepend(ops) && forall op :: op in ops && op.OpReadFd? ==> |op.data| <= 65536
  }

  /** Then indices and array size never matter: the buffer takes what the plain queue can. */
  lemma {:induction false} AcceptedIsPossible<T>(l: Layout, ops: seq<Op<T>>)
    requires l.Valid() && Plain(ops)
    ensures Accepted(l, ops) == Possible(l.writer - l.reader, ops)
    decreases |ops|
  {
    if ops != [] {
      assert ops[0] in ops;
      LengthDecides(l, ops[0]);
      hide Fits, Moved, Can, Length;
      if Fits(l, ops[0]) {
        AcceptedIsPossible(Moved(l, ops[0]), ops[1..]);
      } else {
        AcceptedIsPossible(l, ops[1..]);
      }
    }
  }

  lemma LengthDecides<T>(l: Layout, op: Op<T>)
    requires l.Valid() && !op.OpPrepend? && (op.OpReadFd? ==> |op.data| <= 65536)
    ensures Fits(l, op) <==> Can(l.writer - l.reader, op)
    ensures Fits(l, op) ==> Moved(l, op).writer - Moved(l, op).reader == Length(l.writer - l.reader, op)
  {
    hide Appended, AfterRead;
  }

  /** Passing over impossible retrievals drops no data. */
  lemma {:induction false} PossibleArrives<T>(len: nat, ops: seq<Op<T>>)
    requires NoPrepend(ops)
    ensures Arrived(Possible(len, ops)) == Arrived(ops) && NoPrepend(Possible(len, ops))
    decreases |ops|
  {
    if ops != [] {
      var op, rest := ops[0], ops[1..];
      assert op in ops;
      assert !Can(len, op) ==> Brought(op) == [];
      if Can(len, op) {
        hide Length, Can;
        PossibleArrives(Length(len, op), rest);
        ArrivedCons(op, Possible(Length(len, op), rest));
      } else {
        PossibleArrives(len, rest);
      }
    }
  }

  lemma ArrivedCons<T>(op: Op<T>, ops: seq<Op<T>>)
    ensures Arrived([op] + ops) == Brought(op) + Arrived(ops)
    ensures NoPrepend(ops) && !op.OpPrepend? ==> NoPrepend([op] + ops)
  {
    assert ([op] + ops)[1..] == ops;
  }

  /** Any sequence of operations acts on a buffer as on a plain queue.  Operations whose caller
      breaks an assertion are passed over, and `done` lists those carried out: without prepending
      just those possible on the plain queue, so that every element that arrives comes out, in
      order, or is still there. */
  method Drive<T(0)>(b: Buffer<T>, ops: seq<Op<T>>) returns (out: seq<T>, done: seq<Op<T>>)
    requires b.Valid()
    modifies b, b.buffer
    ensures b.Valid() && (b.buffer == old(b.buffer) || fresh(b.buffer))
    ensures done == Accepted(old(b.Layout()), ops)
    ensures (out, b.Contents()) == Replay(old(b.Contents()), done)
    ensures Plain(ops) ==> done == Possible(|old(b.Contents())|, ops)
    ensures Plain(ops) ==> out + b.Contents() == old(b.Contents()) + Arrived(ops)
    decreases |ops|
  {
    AllComesOut(b.Layout(), b.Contents(), ops);
    hide Plain, Possible, Arrived, Apply, Moved, Fits;
    if ops == [] {
      out, done := [], [];
    } else if Accepts(b, ops[0]) {
      var s := Perform(b, ops[0]);
      out, done := Drive(b, ops[1..]);
      assert ([ops[0]] + done)[1..] == done;
      out, done := s + out, [ops[0]] + done;
    } else {
      out, done := Drive(b, ops[1..]);
    }
  }

  lemma AllComesOut<T>(l: Layout, q: seq<T>, ops: seq<Op<T>>)
    requires l.Valid() && |q| == l.writer - l.reader
    ensures Plain(ops) ==> Accepted(l, ops) == Possible(|q|, ops)
    ensures Plain(ops) ==> var r := Replay(q, Accepted(l, ops)); r.0 + r.1 == q + Arrived(ops)
  {
    if Plain(ops) {
      AcceptedIsPossible(l, ops);
      PossibleArrives(|q|, ops);
      Conserved(q, Possible(|q|, ops));
    }
  }

  predicate Accepts<T(0)>(b: Buffer<T>, op: Op<T>)
    requires b.Valid()
    reads b, b.buffer
    ensures Accepts(b, op) == Fits(b.Layout(), op)
  {
    match op
    case OpAppend(_) => true
    case OpPrepend(data) => |data| <= b.PrependableBytes()
    case OpRetrieve(len) => len <= b.ReadableBytes()
    case OpTakeAll => true
    case OpReadFd(data) => |data| <= b.WritableBytes() + EXTRA_SIZE
  }

  method Perform<T(0)>(b: Buffer<T>, op: Op<T>) returns (s: seq<T>)
    requires b.Valid() && Fits(b.Layout(), op)
    modifies b, b.buffer
    ensures b.Valid() && (b.buffer == old(b.buffer) || fresh(b.buffer))
    ensures (s, b.Contents()) == Apply(old(b.Contents()), op) && b.Layout() == Moved(old(b.Layout()), op)
  {
    s := [];
    match op {
      case OpAppend(data) => b.Append(data);
      case OpPrepend(data) => b.Prepend(data);
      case OpRetrieve(len) =>
        s := b.Peek(len);
        b.Retrieve(len);
      case OpTakeAll => s := b.RetrieveAsString();
      case OpReadFd(data) => b.ReadFd(data);
    }
  }
}
