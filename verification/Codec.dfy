/** The framed protobuf codec.  Serialization itself is a parameter: a schema names the message
    types and gives an encoder and a decoder. */
module Codec {
  import opened Common
  import opened Buffers
  import opened Wire

  const HEADER_LEN := 4
  const MIN_MESSAGE_LEN := 10
  const MAX_MESSAGE_LEN := 64 * 1024 * 1024

  datatype ErrorCode = InvalidLength | CheckSumError | InvalidNameLen | UnknownMessageType | ParseError

  datatype Parsed<M> = Message(message: M) | Error(code: ErrorCode)

  /** `GetTypeName`, serialization, the descriptor pool behind `createMessage`, `ParseFromArray`. */
  datatype Schema<!M> = Schema(
    typeName: M -> seq<byte>,
    serialize: M -> seq<byte>,
    known: seq<byte> -> bool,
    deserialize: (seq<byte>, seq<byte>) -> Option<M>)

  /** Names are non-empty and registered, and deserialization undoes serialization. */
  ghost predicate Lawful<M(!new)>(sc: Schema<M>) {
    forall m: M :: |sc.typeName(m)| >= 1 && sc.known(sc.typeName(m))
      && sc.deserialize(sc.typeName(m), sc.serialize(m)) == Some(m)
  }

  // ----- Encoding ------------------------------------------------------------------------------

  /** The part of the body that the checksum covers: name length, name with its NUL, payload. */
  function Checked<M>(sc: Schema<M>, m: M): seq<byte>
    requires |sc.typeName(m)| + 1 < 0x8000_0000
  {
    EncodeInt32(|sc.typeName(m)| + 1) + (sc.typeName(m) + [0]) + sc.serialize(m)
  }

  function WithCheckSum(checked: seq<byte>): seq<byte> {
    checked + EncodeInt32(Signed(Adler32(checked)))
  }

  function BodyLen<M>(sc: Schema<M>, m: M): nat {
    4 + (|sc.typeName(m)| + 1) + |sc.serialize(m)| + 4
  }

  predicate Fits<M>(sc: Schema<M>, m: M) { BodyLen(sc, m) <= MAX_MESSAGE_LEN }

  function Body<M>(sc: Schema<M>, m: M): (s: seq<byte>)
    requires BodyLen(sc, m) < 0x8000_0000
    ensures |s| == BodyLen(sc, m)
  {
    WithCheckSum(Checked(sc, m))
  }

  function Frame<M>(sc: Schema<M>, m: M): seq<byte>
    requires BodyLen(sc, m) < 0x8000_0000
  {
    EncodeInt32(BodyLen(sc, m)) + Body(sc, m)
  }

  /** The first half of `fillEmptyBuffer`: name length, name and payload. */
  method FillChecked<M>(sc: Schema<M>, buf: Buffer<byte>, m: M)
    requires buf.Valid() && buf.Contents() == [] && buf.PrependableBytes() >= HEADER_LEN
    requires BodyLen(sc, m) < 0x8000_0000
    modifies buf, buf.buffer
    ensures buf.Valid() && (buf.buffer == old(buf.buffer) || fresh(buf.buffer))
    ensures buf.Contents() == Checked(sc, m) && buf.PrependableBytes() >= HEADER_LEN
  {
    hide EncodeInt32, WithRoom, Appended;
    var typeName := sc.typeName(m);
    var nameLen := |typeName| + 1;
    buf.Append(EncodeInt32(nameLen));
    assert buf.Contents() == EncodeInt32(nameLen);
    buf.Append(typeName + [0]);
    var data := sc.serialize(m);
    buf.EnsureWritableBytes(|data|);
    buf.Write(data);
  }

  /** `fillEmptyBuffer`: the buffer ends up holding exactly one frame.  The length fields are 32-bit. */
  method FillEmptyBuffer<M>(sc: Schema<M>, buf: Buffer<byte>, m: M)
    requires buf.Valid() && buf.Contents() == [] && buf.PrependableBytes() >= HEADER_LEN
    requires BodyLen(sc, m) < 0x8000_0000
    modifies buf, buf.buffer
    ensures buf.Valid() && buf.Contents() == Frame(sc, m)
  {
    hide EncodeInt32, Adler32, WithRoom, Appended;
    FillChecked(sc, buf, m);
    var checkSum := Signed(Adler32(buf.Peek(buf.ReadableBytes())));
    buf.Append(EncodeInt32(checkSum));
    assert buf.Contents() == Body(sc, m);
    buf.Prepend(EncodeInt32(buf.ReadableBytes()));
  }

  // ----- Decoding ------------------------------------------------------------------------------

  function CheckSumOk(body: seq<byte>): bool
    requires |body| >= HEADER_LEN
  {
    var n := |body| - HEADER_LEN;
    DecodeInt32(body[n..]) == Signed(Adler32(body[..n]))
  }

  /** `parse`: the checks in the order of the source. */
  function Parse<M>(sc: Schema<M>, body: seq<byte>): Parsed<M>
    requires |body| >= MIN_MESSAGE_LEN
  {
    var len := |body|;
    if !CheckSumOk(body) then Error(CheckSumError)
    else
      var nameLen := DecodeInt32(body[..HEADER_LEN]);
      if !(2 <= nameLen <= len - 2 * HEADER_LEN) then Error(InvalidNameLen)
      else
        var typeName := body[HEADER_LEN..HEADER_LEN + nameLen - 1];
        if !sc.known(typeName) then Error(UnknownMessageType)
        else
          match sc.deserialize(typeName, body[HEADER_LEN + nameLen..len - HEADER_LEN])
          case Some(m) => Message(m)
          case None => Error(ParseError)
  }

  // ----- The format, byte by byte --------------------------------------------------------------

  /** `sum` is the Adler-32 checksum of `s`, by the formula of section 2.2 of RFC 1950. */
  ghost predicate IsAdler(sum: int, s: seq<byte>) {
    sum % 65536 == (1 + Total(s)) % 65521 && sum / 65536 == (|s| + Weighted(s)) % 65521
  }

  lemma AdlerExactly(sum: int, s: seq<byte>)
    ensures IsAdler(sum, s) <==> sum == Adler32(s)
  {
    hide Adler32, Total, Weighted;
    AdlerIsStandard(s);
  }

  /** Where everything is in a frame: the length of the rest, the length of the name with its NUL,
      the name, the NUL, the payload, and the checksum of all but the first and last four bytes. */
  lemma FrameLayout<M>(sc: Schema<M>, m: M)
    requires BodyLen(sc, m) < 0x8000_0000
    ensures var f, name, payload := Frame(sc, m), sc.typeName(m), sc.serialize(m); var n := |name|;
            && |f| == 13 + n + |payload|
            && BigEndian(f[..4]) == |f| - 4
            && BigEndian(f[4..8]) == n + 1
            && f[8..8 + n] == name && f[8 + n] == 0 && f[9 + n..|f| - 4] == payload
            && IsAdler(BigEndian(f[|f| - 4..]), f[4..|f| - 4])
  {
    hide EncodeInt32, Adler32, BigEndian, IsAdler;
    var f, name, payload, n := Frame(sc, m), sc.typeName(m), sc.serialize(m), |sc.typeName(m)|;
    var len, nameLen := EncodeInt32(BodyLen(sc, m)), EncodeInt32(n + 1);
    var checked := Checked(sc, m);
    var sum := EncodeInt32(Signed(Adler32(checked)));
    assert f == len + (checked + sum);
    assert checked == nameLen + (name + [0]) + payload;
    assert f[..4] == len && f[4..|f| - 4] == checked && f[|f| - 4..] == sum;
    assert f[4..8] == nameLen && f[8..8 + n] == name && f[9 + n..|f| - 4] == payload;
    NetworkOrder(BodyLen(sc, m));
    NetworkOrder(n + 1);
    NetworkOrder(Signed(Adler32(checked)));
    AdlerExactly(Adler32(checked), checked);
  }

  ghost predicate SumMatches(body: seq<byte>)
    requires |body| >= 4
  {
    IsAdler(BigEndian(body[|body| - 4..]), body[..|body| - 4])
  }

  lemma CheckSumExactly(body: seq<byte>)
    requires |body| >= 4
    ensures CheckSumOk(body) <==> SumMatches(body)
  {
    hide Adler32, BigEndian, IsAdler, DecodeInt32;
    var n := |body| - 4;
    NetworkOrderBack(body[n..]);
    AdlerExactly(BigEndian(body[n..]), body[..n]);
  }

  /** When `parse` reports which error, and what it delivers otherwise, for the body lengths that
      `onMessage` lets through. */
  lemma ParseDecides<M>(sc: Schema<M>, body: seq<byte>)
    requires 10 <= |body| <= 67108864
    ensures var n := BigEndian(body[..4]); var r := Parse(sc, body);
            if !SumMatches(body) then r == Error(CheckSumError)
            else if n < 2 || n > |body| - 8 then r == Error(InvalidNameLen)
            else
              var name, payload := body[4..3 + n], body[4 + n..|body| - 4];
              if !sc.known(name) then r == Error(UnknownMessageType)
              else
                match sc.deserialize(name, payload)
                case None => r == Error(ParseError)
                case Some(m) => r == Message(m)
  {
    hide BigEndian, CheckSumOk, SumMatches, DecodeInt32;
    CheckSumExactly(body);
    NetworkOrderBack(body[..4]);
    assert body[..HEADER_LEN] == body[..4];
  }

  /** What one call of `onMessage` delivers, what it leaves in the buffer, and the error it reports. */
  datatype Drained<M> = Drained(msgs: seq<M>, rest: seq<byte>, error: Option<ErrorCode>)

  predicate LengthOk(len: int) { MIN_MESSAGE_LEN <= len <= MAX_MESSAGE_LEN }

  /** A whole frame with an acceptable length stands at the front. */
  predicate HasFrame(s: seq<byte>) {
    |s| >= HEADER_LEN + MIN_MESSAGE_LEN && LengthOk(DecodeInt32(s[..HEADER_LEN]))
    && |s| >= HEADER_LEN + DecodeInt32(s[..HEADER_LEN])
  }

  function FrameLen(s: seq<byte>): (n: nat)
    requires HasFrame(s)
    ensures HEADER_LEN + MIN_MESSAGE_LEN <= n <= |s|
  {
    HEADER_LEN + DecodeInt32(s[..HEADER_LEN])
  }

  function Drain<M>(sc: Schema<M>, s: seq<byte>): Drained<M>
    decreases |s|
  {
    if |s| < HEADER_LEN + MIN_MESSAGE_LEN then Drained([], s, None)
    else if !LengthOk(DecodeInt32(s[..HEADER_LEN])) then Drained([], s, Some(InvalidLength))
    else if !HasFrame(s) then Drained([], s, None)
    else
      match Parse(sc, s[HEADER_LEN..FrameLen(s)])
      case Message(m) =>
        var r := Drain(sc, s[FrameLen(s)..]);
        Drained([m] + r.msgs, r.rest, r.error)
      case Error(code) => Drained([], s, Some(code))
  }

  /** A whole valid frame stands at the front. */
  predicate Ready<M>(sc: Schema<M>, s: seq<byte>) {
    HasFrame(s) && Parse(sc, s[HEADER_LEN..FrameLen(s)]).Message?
  }

  /** What `onMessage` does with the front of the buffer before it parses anything. */
  lemma FrontDecides<M>(sc: Schema<M>, s: seq<byte>)
    ensures |s| < 14 ==> Drain(sc, s) == Drained([], s, None)
    ensures |s| >= 14 ==>
      var n := BigEndian(s[..4]);
      if n < 10 || n > 67108864 then Drain(sc, s) == Drained([], s, Some(InvalidLength))
      else if |s| < 4 + n then Drain(sc, s) == Drained([], s, None)
      else
        match Parse(sc, s[4..4 + n])
        case Error(code) => Drain(sc, s) == Drained([], s, Some(code))
        case Message(m) =>
          var r := Drain(sc, s[4 + n..]);
          Drain(sc, s) == Drained([m] + r.msgs, r.rest, r.error)
  {
    hide BigEndian, Parse, DecodeInt32;
    if |s| >= 14 { NetworkOrderBack(s[..4]); }
  }

  lemma DrainNext<M>(sc: Schema<M>, s: seq<byte>)
    requires Ready(sc, s)
    ensures var r := Drain(sc, s[FrameLen(s)..]);
            Drain(sc, s) == r.(msgs := [Parse(sc, s[HEADER_LEN..FrameLen(s)]).message] + r.msgs)
  {
  }

  lemma DrainStops<M>(sc: Schema<M>, s: seq<byte>)
    requires !Ready(sc, s)
    ensures Drain(sc, s).msgs == [] && Drain(sc, s).rest == s
  {
  }

  lemma DrainShort<M>(sc: Schema<M>, s: seq<byte>)
    requires |s| < HEADER_LEN + MIN_MESSAGE_LEN
    ensures Drain(sc, s) == Drained([], s, None)
  {
  }

  lemma FrameAppend(a: seq<byte>, b: seq<byte>)
    requires HasFrame(a)
    ensures HasFrame(a + b) && FrameLen(a + b) == FrameLen(a)
    ensures var n := FrameLen(a); (a + b)[HEADER_LEN..n] == a[HEADER_LEN..n] && (a + b)[n..] == a[n..] + b
  {
    assert (a + b)[..HEADER_LEN] == a[..HEADER_LEN];
  }

  /** One round of the loop in `onMessage`: `more` tells whether it goes on. */
  method NextMessage<M>(sc: Schema<M>, buf: Buffer<byte>) returns (more: bool, msg: Option<M>, error: Option<ErrorCode>)
    requires buf.Valid() && |buf.Contents()| >= HEADER_LEN + MIN_MESSAGE_LEN
    modifies buf
    ensures buf.Valid() && buf.buffer == old(buf.buffer)
    ensures more == Ready(sc, old(buf.Contents())) == msg.Some?
    ensures more ==> error == None && var s := old(buf.Contents());
      buf.Contents() == s[FrameLen(s)..] && Message(msg.value) == Parse(sc, s[HEADER_LEN..FrameLen(s)])
    ensures !more ==> buf.Contents() == old(buf.Contents()) && error == Drain(sc, old(buf.Contents())).error
  {
    hide CheckSumOk, DecodeInt32;
    ghost var s := buf.Contents();
    more, msg, error := false, None, None;
    var len := DecodeInt32(buf.Peek(HEADER_LEN));
    if len > MAX_MESSAGE_LEN || len < MIN_MESSAGE_LEN {
      error := Some(InvalidLength);
    } else if buf.ReadableBytes() >= HEADER_LEN + len {
      var body := buf.Peek(HEADER_LEN + len)[HEADER_LEN..];
      assert body == s[HEADER_LEN..FrameLen(s)];
      match Parse(sc, body) {
        case Message(m) =>
          msg := Some(m);
          buf.Retrieve(HEADER_LEN + len);
          more := true;
        case Error(code) =>
          error := Some(code);
      }
    }
  }

  /** `onMessage`: the loop over the frames in the buffer. */
  method OnMessage<M>(sc: Schema<M>, buf: Buffer<byte>) returns (msgs: seq<M>, error: Option<ErrorCode>)
    requires buf.Valid()
    modifies buf
    ensures buf.Valid() && buf.buffer == old(buf.buffer)
    ensures Drained(msgs, buf.Contents(), error) == Drain(sc, old(buf.Contents()))
  {
    msgs, error := [], None;
    ghost var goal := Drain(sc, buf.Contents());
    hide Drain, Parse, HasFrame, FrameLen, Ready;
    while buf.ReadableBytes() >= HEADER_LEN + MIN_MESSAGE_LEN
      invariant buf.Valid() && buf.buffer == old(buf.buffer) && error == None
      invariant goal == After(msgs, Drain(sc, buf.Contents()))
      decreases |buf.Contents()|
    {
      ghost var s := buf.Contents();
      var more, msg, code := NextMessage(sc, buf);
      if more {
        DrainNext(sc, s);
        AfterOne(msgs, msg.value, Drain(sc, buf.Contents()));
        msgs := msgs + [msg.value];
      } else {
        DrainStops(sc, s);
        error := code;
        return;
      }
    }
    DrainShort(sc, buf.Contents());
  }

  /** What is drained in all, when `msgs` have been drained already. */
  function After<M>(msgs: seq<M>, r: Drained<M>): Drained<M> { r.(msgs := msgs + r.msgs) }

  lemma AfterOne<M>(msgs: seq<M>, m: M, r: Drained<M>)
    ensures After(msgs, After([m], r)) == After(msgs + [m], r)
  {
    assert msgs + ([m] + r.msgs) == (msgs + [m]) + r.msgs;
  }

  // ----- Round trip ----------------------------------------------------------------------------

  lemma CheckSumMatches(checked: seq<byte>)
    ensures CheckSumOk(WithCheckSum(checked))
  {
    var s := WithCheckSum(checked);
    assert s[|s| - HEADER_LEN..] == EncodeInt32(Signed(Adler32(checked))) && s[..|s| - HEADER_LEN] == checked;
    Int32RoundTrip(Signed(Adler32(checked)));
  }

  lemma ParseUndoesEncode<M(!new)>(sc: Schema<M>, m: M)
    requires Lawful(sc) && BodyLen(sc, m) < 0x8000_0000
    ensures Parse(sc, Body(sc, m)) == Message(m)
  {
    hide CheckSumOk, Adler32, EncodeInt32, DecodeInt32;
    var name, payload, body := sc.typeName(m), sc.serialize(m), Body(sc, m);
    var nameLen := |name| + 1;
    CheckSumMatches(Checked(sc, m));
    assert body[..HEADER_LEN] == EncodeInt32(nameLen);
    Int32RoundTrip(nameLen);
    assert body[HEADER_LEN..HEADER_LEN + nameLen - 1] == name;
    assert body[HEADER_LEN + nameLen..|body| - HEADER_LEN] == payload;
  }

  /** A frame in front of any bytes is delivered first. */
  lemma DrainFrame<M(!new)>(sc: Schema<M>, m: M, s: seq<byte>)
    requires Lawful(sc) && Fits(sc, m)
    ensures var r := Drain(sc, s); Drain(sc, Frame(sc, m) + s) == r.(msgs := [m] + r.msgs)
  {
    var f := Frame(sc, m) + s;
    assert |sc.typeName(m)| >= 1;
    Int32RoundTrip(BodyLen(sc, m));
    assert f[..HEADER_LEN] == EncodeInt32(BodyLen(sc, m));
    assert f[HEADER_LEN..FrameLen(f)] == Body(sc, m);
    assert f[FrameLen(f)..] == s;
    ParseUndoesEncode(sc, m);
  }

  function Frames<M>(sc: Schema<M>, ms: seq<M>): seq<byte>
    requires forall m :: m in ms ==> Fits(sc, m)
  {
    if ms == [] then [] else assert ms[0] in ms && Fits(sc, ms[0]); Frame(sc, ms[0]) + Frames(sc, ms[1..])
  }

  lemma {:induction false} DrainFrames<M(!new)>(sc: Schema<M>, ms: seq<M>, s: seq<byte>)
    requires Lawful(sc) && forall m :: m in ms ==> Fits(sc, m)
    ensures var r := Drain(sc, s); Drain(sc, Frames(sc, ms) + s) == r.(msgs := ms + r.msgs)
  {
    hide Drain, Frame;
    if ms == [] {
      assert Frames(sc, ms) + s == s;
    } else {
      assert ms[0] in ms && Fits(sc, ms[0]);
      assert Frames(sc, ms) + s == Frame(sc, ms[0]) + (Frames(sc, ms[1..]) + s);
      DrainFrames(sc, ms[1..], s);
      DrainFrame(sc, ms[0], Frames(sc, ms[1..]) + s);
      assert [ms[0]] + (ms[1..] + Drain(sc, s).msgs) == ms + Drain(sc, s).msgs;
    }
  }

  /** An incomplete frame is left alone, without an error. */
  lemma DrainPartial<M(!new)>(sc: Schema<M>, m: M, k: nat)
    requires Lawful(sc) && Fits(sc, m) && k < |Frame(sc, m)|
    ensures Drain(sc, Frame(sc, m)[..k]) == Drained([], Frame(sc, m)[..k], None)
  {
    var f := Frame(sc, m);
    Int32RoundTrip(BodyLen(sc, m));
    assert |sc.typeName(m)| >= 1;
    if k >= HEADER_LEN {
      assert f[..k][..HEADER_LEN] == EncodeInt32(BodyLen(sc, m));
    }
  }

  // ----- Chunks --------------------------------------------------------------------------------

  /** Draining before and after more bytes arrive is draining once at the end, on any input. */
  lemma {:induction false} DrainAppend<M>(sc: Schema<M>, a: seq<byte>, b: seq<byte>)
    ensures var ra := Drain(sc, a);
            var rb := Drain(sc, ra.rest + b);
            Drain(sc, a + b) == rb.(msgs := ra.msgs + rb.msgs)
    decreases |a|
  {
    hide Drain, Parse, HasFrame, FrameLen;
    var ra := Drain(sc, a);
    if Ready(sc, a) {
      var n := FrameLen(a);
      FrameAppend(a, b);
      DrainNext(sc, a);
      DrainNext(sc, a + b);
      DrainAppend(sc, a[n..], b);
      var m := Parse(sc, a[HEADER_LEN..n]).message;
      var rest, rb := Drain(sc, a[n..]).msgs, Drain(sc, ra.rest + b).msgs;
      assert [m] + (rest + rb) == ([m] + rest) + rb;
    } else {
      DrainStops(sc, a);
      var rb := Drain(sc, a + b);
      assert [] + rb.msgs == rb.msgs;
    }
  }

  function Concat(chunks: seq<seq<byte>>): seq<byte> {
    if chunks == [] then [] else chunks[0] + Concat(chunks[1..])
  }

  /** `onMessage` called after each chunk: all messages delivered and the final buffer contents. */
  function Feed<M>(sc: Schema<M>, pending: seq<byte>, chunks: seq<seq<byte>>): (seq<M>, seq<byte>)
    decreases |chunks|
  {
    if chunks == [] then ([], pending)
    else
      var r := Drain(sc, pending + chunks[0]);
      var (msgs, rest) := Feed(sc, r.rest, chunks[1..]);
      (r.msgs + msgs, rest)
  }

  /** The receiving side of a connection: every chunk is appended and `onMessage` is called. */
  method Receive<M>(sc: Schema<M>, buf: Buffer<byte>, chunks: seq<seq<byte>>) returns (msgs: seq<M>)
    requires buf.Valid()
    modifies buf, buf.buffer
    ensures buf.Valid() && (msgs, buf.Contents()) == Feed(sc, old(buf.Contents()), chunks)
  {
    msgs := [];
    ghost var goal := Feed(sc, buf.Contents(), chunks);
    var i := 0;
    assert chunks[0..] == chunks && [] + goal.0 == goal.0;
    hide Drain, Feed;
    while i < |chunks|
      invariant 0 <= i <= |chunks| && buf.Valid() && (buf.buffer == old(buf.buffer) || fresh(buf.buffer))
      invariant goal == (var r := Feed(sc, buf.Contents(), chunks[i..]); (msgs + r.0, r.1))
    {
      FeedUnfold(sc, buf.Contents(), chunks, i);
      buf.Append(chunks[i]);
      var more, _ := OnMessage(sc, buf);
      Assoc(msgs, more, Feed(sc, buf.Contents(), chunks[i + 1..]).0);
      msgs := msgs + more;
      i := i + 1;
    }
    FeedNothing(sc, buf.Contents());
    assert chunks[i..] == [] && msgs + [] == msgs;
  }

  lemma FeedUnfold<M>(sc: Schema<M>, pending: seq<byte>, chunks: seq<seq<byte>>, i: nat)
    requires i < |chunks|
    ensures var r := Drain(sc, pending + chunks[i]);
            var f := Feed(sc, r.rest, chunks[i + 1..]);
            Feed(sc, pending, chunks[i..]) == (r.msgs + f.0, f.1)
  {
    assert chunks[i..][1..] == chunks[i + 1..];
  }

  lemma FeedNothing<M>(sc: Schema<M>, pending: seq<byte>)
    ensures Feed(sc, pending, []) == ([], pending)
  {
  }

  lemma Assoc<M>(a: seq<M>, b: seq<M>, c: seq<M>)
    ensures a + (b + c) == (a + b) + c
  {
  }

  /** On any input whatsoever, how the stream is cut into chunks makes no difference. */
  lemma {:induction false} ChunksDoNotMatter<M>(sc: Schema<M>, pending: seq<byte>, chunks: seq<seq<byte>>)
    requires Drain(sc, pending).msgs == [] && Drain(sc, pending).rest == pending
    ensures var r := Drain(sc, pending + Concat(chunks)); Feed(sc, pending, chunks) == (r.msgs, r.rest)
    decreases |chunks|
  {
    if chunks == [] {
      assert pending + Concat(chunks) == pending;
    } else {
      var a, b := pending + chunks[0], Concat(chunks[1..]);
      assert pending + Concat(chunks) == a + b;
      DrainAppend(sc, a, b);
      DrainIdle(sc, a);
      ChunksDoNotMatter(sc, Drain(sc, a).rest, chunks[1..]);
    }
  }

  /** What is left after draining holds no further message. */
  lemma {:induction false} DrainIdle<M>(sc: Schema<M>, s: seq<byte>)
    ensures var r := Drain(sc, s); Drain(sc, r.rest) == Drained([], r.rest, r.error)
    decreases |s|
  {
    if HasFrame(s) && Parse(sc, s[HEADER_LEN..FrameLen(s)]).Message? {
      DrainIdle(sc, s[FrameLen(s)..]);
    }
  }

  /** Messages that fit, encoded, concatenated, followed by an incomplete frame and delivered in
      arbitrary chunks, come out exactly, in order, and only the incomplete frame is left. */
  lemma StreamRoundTrip<M(!new)>(sc: Schema<M>, ms: seq<M>, next: M, k: nat, chunks: seq<seq<byte>>)
    requires Lawful(sc) && (forall m :: m in ms ==> Fits(sc, m))
    requires Fits(sc, next) && k < |Frame(sc, next)|
    requires Concat(chunks) == Frames(sc, ms) + Frame(sc, next)[..k]
    ensures Feed(sc, [], chunks) == (ms, Frame(sc, next)[..k])
  {
    var tail := Frame(sc, next)[..k];
    ChunksDoNotMatter(sc, [], chunks);
    assert [] + Concat(chunks) == Concat(chunks);
    DrainFrames(sc, ms, tail);
    DrainPartial(sc, next, k);
    assert ms + [] == ms;
  }

  /** `s` is a sequence of whole frames with acceptable lengths that parse to `ms`. */
  ghost predicate ValidFrames<M>(sc: Schema<M>, s: seq<byte>, ms: seq<M>)
    decreases |ms|
  {
    if ms == [] then s == []
    else
      && HasFrame(s)
      && Parse(sc, s[HEADER_LEN..FrameLen(s)]) == Message(ms[0])
      && ValidFrames(sc, s[FrameLen(s)..], ms[1..])
  }

  /** On any input, exactly a prefix of whole valid frames is consumed, and what remains does not
      start with one. */
  lemma {:induction false} OnlyValidFramesConsumed<M>(sc: Schema<M>, s: seq<byte>) returns (n: nat)
    ensures var r := Drain(sc, s);
            n <= |s| && r.rest == s[n..] && ValidFrames(sc, s[..n], r.msgs) && !Ready(sc, r.rest)
    decreases |s|
  {
    hide Drain, Parse, HasFrame, FrameLen;
    if Ready(sc, s) {
      var k := FrameLen(s);
      DrainNext(sc, s);
      var n' := OnlyValidFramesConsumed(sc, s[k..]);
      n := k + n';
      assert s[n..] == s[k..][n'..];
      FrameTake(s, n);
      assert s[..n][k..] == s[k..][..n'];
    } else {
      n := 0;
      DrainStops(sc, s);
      assert s[..0] == [];
    }
  }

  lemma FrameTake(s: seq<byte>, n: nat)
    requires HasFrame(s) && FrameLen(s) <= n <= |s|
    ensures HasFrame(s[..n]) && FrameLen(s[..n]) == FrameLen(s)
    ensures s[..n][HEADER_LEN..FrameLen(s)] == s[HEADER_LEN..FrameLen(s)]
  {
    assert s[..n][..HEADER_LEN] == s[..HEADER_LEN];
  }

  /** An error is final: whatever arrives later, nothing more is delivered and the same error is
      reported again. */
  lemma ErrorIsFinal<M>(sc: Schema<M>, s: seq<byte>, t: seq<byte>)
    requires Drain(sc, s).error.Some? && Drain(sc, s).msgs == []
    ensures Drain(sc, s + t) == Drained([], s + t, Drain(sc, s).error)
  {
    hide Parse, DecodeInt32;
    assert (s + t)[..HEADER_LEN] == s[..HEADER_LEN];
    if HasFrame(s) {
      var n := FrameLen(s);
      assert (s + t)[HEADER_LEN..n] == s[HEADER_LEN..n];
    }
  }

  // ----- Corruption ----------------------------------------------------------------------------

  /** Changing any one byte of a body with a matching checksum, the checksum included, is detected. */
  lemma ChangeIsDetected<M>(sc: Schema<M>, body: seq<byte>, i: nat, x: byte)
    requires |body| >= MIN_MESSAGE_LEN && CheckSumOk(body) && i < |body| && x != body[i]
    ensures Parse(sc, body[i := x]) == Error(CheckSumError)
  {
    hide Adler32, DecodeInt32;
    var n := |body| - HEADER_LEN;
    var body' := body[i := x];
    if i < n {
      assert body'[..n] == body[..n][i := x] && body'[n..] == body[n..];
      AdlerDetectsChange(body[..n], i, x);
    } else {
      assert body'[..n] == body[..n] && body'[n..][i - n] == x;
      if DecodeInt32(body'[n..]) == DecodeInt32(body[n..]) {
        DecodeInjective(body'[n..], body[n..]);
      }
    }
  }

  /** Exchanging two adjacent unequal checksummed bytes is detected. */
  lemma SwapIsDetected<M>(sc: Schema<M>, body: seq<byte>, i: nat)
    requires |body| >= MIN_MESSAGE_LEN && CheckSumOk(body) && i + 1 < |body| - HEADER_LEN && body[i] != body[i + 1]
    ensures Parse(sc, body[i := body[i + 1]][i + 1 := body[i]]) == Error(CheckSumError)
  {
    hide Adler32, DecodeInt32;
    var n := |body| - HEADER_LEN;
    var body' := body[i := body[i + 1]][i + 1 := body[i]];
    assert body'[..n] == body[..n][i := body[i + 1]][i + 1 := body[i]] && body'[n..] == body[n..];
    AdlerDetectsSwap(body[..n], i);
  }

  /** Every body that `fillEmptyBuffer` writes has a matching checksum, so both kinds of damage to an
      encoded message are reported and nothing is delivered from it. */
  lemma EncodedDamageIsDetected<M(!new)>(sc: Schema<M>, m: M, i: nat, x: byte)
    requires Lawful(sc) && BodyLen(sc, m) < 0x8000_0000 && i < BodyLen(sc, m) && x != Body(sc, m)[i]
    ensures Parse(sc, Body(sc, m)[i := x]) == Error(CheckSumError)
    ensures i + 1 < BodyLen(sc, m) - HEADER_LEN && Body(sc, m)[i] != Body(sc, m)[i + 1] ==>
      Parse(sc, Body(sc, m)[i := Body(sc, m)[i + 1]][i + 1 := Body(sc, m)[i]]) == Error(CheckSumError)
  {
    CheckSumMatches(Checked(sc, m));
    assert |sc.typeName(m)| >= 1;
    ChangeIsDetected(sc, Body(sc, m), i, x);
    if i + 1 < BodyLen(sc, m) - HEADER_LEN && Body(sc, m)[i] != Body(sc, m)[i + 1] {
      SwapIsDetected(sc, Body(sc, m), i);
    }
  }
}
