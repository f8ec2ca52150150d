/** The asynchronous logger: front ends append lines to the current buffer, the back-end thread
    collects full buffers, writes them out and recycles them.  Buffers are moved, never shared, so
    they are values with an identity. */
module LoggingModel {
  import opened Common

  /** A `FixedBuffer` held by a `unique_ptr`. */
  datatype Buf = Buf(id: nat, text: string)

  /** What happened to the text handed to the logger, in order: written to the file, dropped from an
      over-long batch, or a notice about that, written in addition. */
  datatype Chunk = Written(text: string) | Dropped(bufs: seq<Buf>) | Notice(buffers: nat)

  /** Where the back-end thread is: at the loop top, with a batch just collected, or writing it. */
  datatype Pc = Top | Collected | Writing

  /** `size` is the capacity of a buffer; `written` counts the buffers of the batch already written;
      `lost` are the buffers just dropped; `ids` is the next fresh buffer identity. */
  datatype State = State(
    size: nat,
    current: Buf,
    next: Option<Buf>,
    buffers: seq<Buf>,
    new1: Option<Buf>,
    new2: Option<Buf>,
    toWrite: seq<Buf>,
    written: nat,
    lost: seq<Buf>,
    pc: Pc,
    ids: nat,
    history: seq<Chunk>)

  const MAX_BATCH := 25

  function Init(size: nat): State {
    State(size, Buf(0, ""), Some(Buf(1, "")), [], Some(Buf(2, "")), Some(Buf(3, "")), [], 0, [], Top, 4, [])
  }

  // ----- The operations ------------------------------------------------------------------------

  /** `FixedBuffer::append`: all of the line if more than its length is available, else nothing. */
  function Fill(b: Buf, line: string, size: nat): Buf {
    if size - |b.text| > |line| then b.(text := b.text + line) else b
  }

  function Append(s: State, line: string): State {
    if s.size - |s.current.text| > |line| then s.(current := Fill(s.current, line, s.size))
    else
      var full := s.(buffers := s.buffers + [s.current]);
      match s.next
      case Some(b) => full.(current := Fill(b, line, s.size), next := None)
      case None => full.(current := Fill(Buf(s.ids, ""), line, s.size), ids := s.ids + 1)
  }

  /** The critical section of the back end. */
  function Collect(s: State): State
    requires s.new1.Some?
  {
    var s1 := s.(toWrite := s.buffers + [s.current], buffers := [], current := s.new1.value, new1 := None,
                 written := 0, pc := Collected);
    if s.next == None then s1.(next := s.new2, new2 := None) else s1
  }

  /** An over-long batch is cut down to its first two buffers, and a notice is written. */
  function DropExcess(s: State): State {
    if |s.toWrite| > MAX_BATCH then
      s.(history := s.history + [Notice(|s.toWrite| - 2)], lost := s.toWrite[2..],
         toWrite := s.toWrite[..2], pc := Writing)
    else s.(lost := [], pc := Writing)
  }

  function WriteNext(s: State): State
    requires s.written < |s.toWrite|
  {
    s.(history := s.history + [Written(s.toWrite[s.written].text)], written := s.written + 1)
  }

  /** The end of the round: two buffers are emptied and kept as spares, the others are freed. */
  function Refill(s: State): State
    requires (s.new1 == None ==> |s.toWrite| >= 1) && (s.new1 == None && s.new2 == None ==> |s.toWrite| >= 2)
    requires s.new2 == None ==> |s.toWrite| >= 1
  {
    var s0 := s.(history := s.history + [Dropped(s.lost)], lost := [], written := 0, pc := Top);
    var kept := if |s.toWrite| > 2 then s.toWrite[..2] else s.toWrite;
    var (n1, rest) := Take(s.new1, kept);
    var (n2, _) := Take(s.new2, rest);
    s0.(new1 := n1, new2 := n2, toWrite := [])
  }

  /** Spelled out for the situation at the end of a round. */
  lemma RefillFields(s: State)
    requires s.new1 == None && |s.toWrite| >= (if s.new2 == None then 2 else 1)
    ensures var kept := if |s.toWrite| > 2 then s.toWrite[..2] else s.toWrite; var n := |kept|;
            Refill(s) == s.(history := s.history + [Dropped(s.lost)], lost := [], written := 0, pc := Top,
                            new1 := Some(kept[n - 1].(text := "")),
                            new2 := if s.new2 == None then Some(kept[n - 2].(text := "")) else s.new2,
                            toWrite := [])
  {
  }

  /** A missing spare is taken from the back of `bs` and emptied. */
  function Take(spare: Option<Buf>, bs: seq<Buf>): (Option<Buf>, seq<Buf>)
    requires spare == None ==> bs != []
  {
    if spare.Some? then (spare, bs)
    else (Some(bs[|bs| - 1].(text := "")), bs[..|bs| - 1])
  }

  datatype Step = AppendLine(line: string) | CollectBatch | CheckBatch | WriteBuffer | FinishRound

  predicate Enabled(s: State, st: Step) {
    match st
    case AppendLine(_) => true
    case CollectBatch => s.pc == Top
    case CheckBatch => s.pc == Collected
    case WriteBuffer => s.pc == Writing && s.written < |s.toWrite|
    case FinishRound => s.pc == Writing && s.written == |s.toWrite|
  }

  ghost function Next(s: State, st: Step): State
    requires SparesOk(s) && Enabled(s, st)
  {
    match st
    case AppendLine(line) => Append(s, line)
    case CollectBatch => Collect(s)
    case CheckBatch => DropExcess(s)
    case WriteBuffer => WriteNext(s)
    case FinishRound => Refill(s)
  }

  // ----- Text ----------------------------------------------------------------------------------

  function Texts(bs: seq<Buf>): string {
    if bs == [] then "" else Texts(bs[..|bs| - 1]) + bs[|bs| - 1].text
  }

  /** The text that came from the front ends: written or dropped. */
  function Original(h: seq<Chunk>): string {
    if h == [] then "" else Original(h[..|h| - 1]) + ChunkText(h[|h| - 1])
  }

  function ChunkText(c: Chunk): string {
    match c
    case Notice(_) => ""
    case Written(t) => t
    case Dropped(bs) => Texts(bs)
  }

  /** Everything handed to the logger, wherever it is now. */
  function AllText(s: State): string
    requires s.written <= |s.toWrite|
  {
    Original(s.history) + (Texts(s.toWrite[s.written..]) + Texts(s.lost)) + (Texts(s.buffers) + s.current.text)
  }

  lemma {:induction false} TextsConcat(a: seq<Buf>, b: seq<Buf>)
    ensures Texts(a + b) == Texts(a) + Texts(b)
    decreases |b|
  {
    if b == [] {
      assert a + b == a;
    } else {
      var n := |b| - 1;
      assert (a + b)[..|a + b| - 1] == a + b[..n];
      TextsConcat(a, b[..n]);
      assert (Texts(a) + Texts(b[..n])) + b[n].text == Texts(a) + (Texts(b[..n]) + b[n].text);
    }
  }

  lemma TextsOne(b: Buf)
    ensures Texts([b]) == b.text
  {
    assert [b][..0] == [];
  }

  lemma OriginalSnoc(h: seq<Chunk>, c: Chunk)
    ensures Original(h + [c]) == Original(h) + ChunkText(c)
  {
    assert (h + [c])[..|h|] == h;
  }

  // ----- Spare buffers -------------------------------------------------------------------------

  ghost predicate EmptyOrNone(b: Option<Buf>) { b.Some? ==> b.value.text == "" }

  /** The spares are there and empty when they are needed.  `nextBuffer_` missing means a full buffer
      is waiting, so a batch collected then has at least two buffers. */
  ghost predicate SparesOk(s: State) {
    && EmptyOrNone(s.next) && EmptyOrNone(s.new1) && EmptyOrNone(s.new2)
    && (s.next == None ==> s.buffers != [])
    && s.written <= |s.toWrite|
    && (s.pc == Top ==> s.new1.Some? && s.new2.Some? && s.toWrite == [] && s.written == 0 && s.lost == [])
    && (s.pc != Top ==> s.new1 == None && |s.toWrite| >= (if s.new2 == None then 2 else 1))
    && (s.pc == Collected ==> s.written == 0 && s.lost == [])
    && (s.pc == Writing ==> |s.toWrite| <= MAX_BATCH)
  }

  lemma SparesStep(s: State, st: Step)
    requires SparesOk(s) && Enabled(s, st)
    ensures SparesOk(Next(s, st))
  {
  }

  // ----- Identities ----------------------------------------------------------------------------

  function Count(bs: seq<Buf>, x: nat): nat {
    if bs == [] then 0 else Count(bs[..|bs| - 1], x) + if bs[|bs| - 1].id == x then 1 else 0
  }

  function CountOpt(b: Option<Buf>, x: nat): nat { if b.Some? && b.value.id == x then 1 else 0 }

  /** How many times the buffer with identity `x` is held. */
  function Held(s: State, x: nat): nat {
    (if s.current.id == x then 1 else 0) + CountOpt(s.next, x) + Count(s.buffers, x)
    + CountOpt(s.new1, x) + CountOpt(s.new2, x) + Count(s.toWrite, x)
  }

  /** No buffer is held twice. */
  ghost predicate Owned(s: State) {
    forall x: nat :: Held(s, x) <= if x < s.ids then 1 else 0
  }

  lemma {:induction false} CountConcat(a: seq<Buf>, b: seq<Buf>, x: nat)
    ensures Count(a + b, x) == Count(a, x) + Count(b, x)
    decreases |b|
  {
    if b == [] {
      assert a + b == a;
    } else {
      assert (a + b)[..|a + b| - 1] == a + b[..|b| - 1];
      CountConcat(a, b[..|b| - 1], x);
    }
  }

  lemma CountOne(b: Buf, x: nat)
    ensures Count([b], x) == if b.id == x then 1 else 0
  {
    assert [b][..0] == [];
  }

  lemma CountPrefix(a: seq<Buf>, n: nat, x: nat)
    requires n <= |a|
    ensures Count(a[..n], x) <= Count(a, x)
  {
    assert a == a[..n] + a[n..];
    CountConcat(a[..n], a[n..], x);
  }

  /** The spares taken at the end of a round come from the batch. */
  lemma RefillHeld(s: State, x: nat)
    requires SparesOk(s) && Enabled(s, FinishRound)
    ensures Held(Refill(s), x) <= Held(s, x)
  {
    var r := Refill(s);
    var kept := if |s.toWrite| > 2 then s.toWrite[..2] else s.toWrite;
    CountPrefix(s.toWrite, |kept|, x);
    assert s.toWrite[..|kept|] == kept;
    var rest := kept[..|kept| - 1];
    assert Count(kept, x) == Count(rest, x) + if kept[|kept| - 1].id == x then 1 else 0;
    if s.new2 == None {
      assert Count(rest, x) >= if rest[|rest| - 1].id == x then 1 else 0;
    }
    assert Count(r.toWrite, x) == 0;
  }

  lemma AppendHeld(s: State, line: string, x: nat)
    requires SparesOk(s)
    ensures var r := Append(s, line);
            && s.ids <= r.ids <= s.ids + 1
            && Held(r, x) <= Held(s, x) + if r.ids > s.ids && x == s.ids then 1 else 0
  {
    hide Count;
    CountConcat(s.buffers, [s.current], x);
    CountOne(s.current, x);
  }

  lemma CollectHeld(s: State, x: nat)
    requires SparesOk(s) && s.pc == Top
    ensures Collect(s).ids == s.ids && Held(Collect(s), x) == Held(s, x)
  {
    CountConcat(s.buffers, [s.current], x);
    CountOne(s.current, x);
    assert Count([], x) == 0;
    hide Count;
  }

  lemma DropHeld(s: State, x: nat)
    ensures DropExcess(s).ids == s.ids && Held(DropExcess(s), x) <= Held(s, x)
  {
    hide Count;
    if |s.toWrite| > MAX_BATCH { CountPrefix(s.toWrite, 2, x); }
  }

  /** A step only moves or frees buffers, except that `append` may allocate a fresh one. */
  lemma HeldStep(s: State, st: Step, x: nat)
    requires SparesOk(s) && Enabled(s, st)
    ensures var r := Next(s, st);
            && s.ids <= r.ids <= s.ids + 1
            && Held(r, x) <= Held(s, x) + if r.ids > s.ids && x == s.ids then 1 else 0
  {
    match st
    case AppendLine(line) =>
      hide Held, SparesOk, Append;
      AppendHeld(s, line, x);
    case CollectBatch =>
      hide Held, Collect;
      CollectHeld(s, x);
    case CheckBatch =>
      hide Held, SparesOk, DropExcess;
      DropHeld(s, x);
    case WriteBuffer =>
    case FinishRound =>
      hide Held;
      RefillHeld(s, x);
  }

  lemma OwnedStep(s: State, st: Step)
    requires SparesOk(s) && Owned(s) && Enabled(s, st)
    ensures Owned(Next(s, st))
  {
    hide Held, Next;
    var r := Next(s, st);
    forall x: nat
      ensures Held(r, x) <= if x < r.ids then 1 else 0
    {
      HeldStep(s, st, x);
      assert Held(s, x) <= if x < s.ids then 1 else 0;
    }
  }

  // ----- Conservation --------------------------------------------------------------------------

  lemma AppendText(s: State, line: string)
    requires SparesOk(s)
    ensures AllText(Append(s, line)) == AllText(s) + if |line| < s.size then line else ""
  {
    var r := Append(s, line);
    var before := Original(s.history) + (Texts(s.toWrite[s.written..]) + Texts(s.lost));
    if s.size - |s.current.text| > |line| {
      Regroup(before, Texts(s.buffers), s.current.text, line);
    } else {
      TextsConcat(s.buffers, [s.current]);
      TextsOne(s.current);
      assert r.current.text == if |line| < s.size then line else "";
      Regroup(before, Texts(s.buffers), s.current.text, r.current.text);
    }
  }

  /** A line is kept exactly when it is shorter than a buffer (or empty). */
  lemma AppendKeepsLineExactly(s: State, line: string)
    requires SparesOk(s)
    ensures AllText(Append(s, line)) == AllText(s) + line <==> |line| < s.size || line == ""
  {
    AppendText(s, line);
    assert |AllText(s) + line| == |AllText(s)| + |line|;
  }

  lemma Regroup(a: string, b: string, c: string, d: string)
    ensures a + (b + (c + d)) == (a + (b + c)) + d
    ensures a + ((b + c) + d) == (a + (b + c)) + d
  {
  }

  lemma CollectText(s: State)
    requires SparesOk(s) && s.pc == Top
    ensures AllText(Collect(s)) == AllText(s)
  {
    var r := Collect(s);
    assert Texts([]) == "";
    hide Texts, Original;
    TextsConcat(s.buffers, [s.current]);
    TextsOne(s.current);
    assert s.toWrite[s.written..] == [] && r.toWrite[r.written..] == r.toWrite;
    var h, t := Original(s.history), Texts(r.toWrite);
    assert h + ("" + "") + t == h + (t + "") + ("" + "");
  }

  lemma DropText(s: State)
    requires SparesOk(s) && s.pc == Collected
    ensures AllText(DropExcess(s)) == AllText(s)
  {
    assert Texts(s.lost) == "";
    hide Texts, Original;
    var r := DropExcess(s);
    assert s.toWrite[s.written..] == s.toWrite && r.toWrite[r.written..] == r.toWrite;
    if |s.toWrite| > MAX_BATCH {
      var kept, dropped := s.toWrite[..2], s.toWrite[2..];
      OriginalSnoc(s.history, Notice(|s.toWrite| - 2));
      assert Original(r.history) == Original(s.history);
      TextsConcat(kept, dropped);
      assert s.toWrite == kept + dropped && r.toWrite == kept && r.lost == dropped;
      assert Texts(s.toWrite) + "" == Texts(kept) + Texts(dropped);
    } else {
      assert r == s.(pc := Writing);
    }
  }

  lemma WriteText(s: State)
    requires SparesOk(s) && Enabled(s, WriteBuffer)
    ensures AllText(WriteNext(s)) == AllText(s)
  {
    hide Texts, Original;
    var r := WriteNext(s);
    var b, later := s.toWrite[s.written], r.toWrite[r.written..];
    OriginalSnoc(s.history, Written(b.text));
    assert s.toWrite[s.written..] == [b] + later;
    TextsConcat([b], later);
    TextsOne(b);
    Regroup4(Original(s.history), b.text, Texts(later), Texts(s.lost));
  }

  lemma Regroup4(a: string, b: string, c: string, d: string)
    ensures (a + b) + (c + d) == a + ((b + c) + d)
  {
  }

  lemma RefillText(s: State)
    requires SparesOk(s) && Enabled(s, FinishRound)
    ensures AllText(Refill(s)) == AllText(s)
  {
    var r := Refill(s);
    assert Texts([]) == "";
    hide Texts, Original;
    OriginalSnoc(s.history, Dropped(s.lost));
    assert s.toWrite[s.written..] == [] && r.toWrite[r.written..] == [];
    var lost := Texts(s.lost);
    assert (Original(s.history) + lost) + ("" + "") == Original(s.history) + ("" + lost);
  }

  lemma SizeStep(s: State, st: Step)
    requires SparesOk(s) && Enabled(s, st)
    ensures Next(s, st).size == s.size
  {
  }

  /** What a step adds to the text: a line, if it is shorter than a buffer. */
  function Added(st: Step, size: nat): string {
    if st.AppendLine? && |st.line| < size then st.line else ""
  }

  lemma TextStep(s: State, st: Step)
    requires SparesOk(s) && Enabled(s, st)
    ensures SparesOk(Next(s, st)) && AllText(Next(s, st)) == AllText(s) + Added(st, s.size)
  {
    SparesStep(s, st);
    hide AllText, Texts, Original, Append, Collect, DropExcess, WriteNext, Refill;
    assert AllText(s) + "" == AllText(s);
    match st
    case AppendLine(line) => AppendText(s, line);
    case CollectBatch => CollectText(s);
    case CheckBatch => DropText(s);
    case WriteBuffer => WriteText(s);
    case FinishRound => RefillText(s);
  }

  // ----- Drops are announced -------------------------------------------------------------------

  /** Buffers are only ever dropped after a notice about exactly that many buffers, at least 24, and
      the two buffers written before them. */
  ghost predicate DropsNoticed(h: seq<Chunk>) {
    forall i :: 0 <= i < |h| && h[i].Dropped? && h[i].bufs != [] ==> DropNoticed(h, i)
  }

  ghost predicate DropNoticed(h: seq<Chunk>, i: nat)
    requires i < |h| && h[i].Dropped?
  {
    i >= 3 && h[i - 3] == Notice(|h[i].bufs|) && |h[i].bufs| >= 24 && h[i - 2].Written? && h[i - 1].Written?
  }

  /** And every notice before position `n` is followed by such a drop. */
  ghost predicate NoticesTrue(h: seq<Chunk>, n: nat) {
    forall i :: 0 <= i < n <= |h| && h[i].Notice? ==>
      i + 3 < |h| && h[i + 3].Dropped? && |h[i + 3].bufs| == h[i].buffers
  }

  ghost predicate NoticeOk(s: State) {
    && DropsNoticed(s.history)
    && (s.lost == [] ==> NoticesTrue(s.history, |s.history|))
    && (s.lost != [] ==>
          && s.pc == Writing && |s.toWrite| == 2 && s.written <= 2 && |s.history| > s.written
          && var k := |s.history| - s.written - 1;
          && s.history[k] == Notice(|s.lost|) && |s.lost| >= 24 && NoticesTrue(s.history, k)
          && forall j :: k < j < |s.history| ==> s.history[j].Written?)
  }

  lemma NoticeStep(s: State, st: Step)
    requires SparesOk(s) && NoticeOk(s) && Enabled(s, st)
    ensures NoticeOk(Next(s, st))
  {
    hide Append, Texts;
    match st
    case AppendLine(line) => AppendKeepsBatch(s, line);
    case CollectBatch =>
    case CheckBatch => CheckNotices(s);
    case WriteBuffer => WriteNotices(s);
    case FinishRound => FinishNotices(s);
  }

  lemma CheckNotices(s: State)
    requires SparesOk(s) && NoticeOk(s) && s.pc == Collected
    ensures NoticeOk(DropExcess(s))
  {
    hide Texts;
  }

  lemma WriteNotices(s: State)
    requires SparesOk(s) && NoticeOk(s) && Enabled(s, WriteBuffer)
    ensures NoticeOk(WriteNext(s))
  {
  }

  lemma FinishNotices(s: State)
    requires SparesOk(s) && NoticeOk(s) && Enabled(s, FinishRound)
    ensures NoticeOk(Refill(s))
  {
    var r := Refill(s);
    assert r.history == s.history + [Dropped(s.lost)];
  }

  lemma AppendKeepsBatch(s: State, line: string)
    ensures var r := Append(s, line);
            && r.history == s.history && r.lost == s.lost && r.pc == s.pc
            && r.toWrite == s.toWrite && r.written == s.written
  {
  }

  // ----- Runs ----------------------------------------------------------------------------------

  ghost predicate Inv(s: State) {
    SparesOk(s) && Owned(s) && NoticeOk(s)
  }

  ghost predicate Legal(s: State, steps: seq<Step>)
    decreases |steps|
  {
    Inv(s) && (steps == [] || (Enabled(s, steps[0]) && Legal(Next(s, steps[0]), steps[1..])))
  }

  ghost function Run(s: State, steps: seq<Step>): (r: State)
    requires Legal(s, steps)
    ensures Inv(r)
    decreases |steps|
  {
    if steps == [] then s else Run(Next(s, steps[0]), steps[1..])
  }

  lemma InitLegal(size: nat)
    ensures Legal(Init(size), [])
  {
  }

  lemma StepInv(s: State, st: Step)
    requires Inv(s) && Enabled(s, st)
    ensures Inv(Next(s, st))
  {
    SparesStep(s, st);
    OwnedStep(s, st);
    NoticeStep(s, st);
  }

  /** No enabled step leads out of the legal runs. */
  lemma {:induction false} LegalExtends(s: State, steps: seq<Step>, st: Step)
    requires Legal(s, steps) && Enabled(Run(s, steps), st)
    ensures Legal(s, steps + [st])
    decreases |steps|
  {
    hide Enabled, SparesOk, Owned, NoticeOk;
    if steps == [] {
      StepInv(s, st);
      assert [st][1..] == [] && steps + [st] == [st];
    } else {
      LegalExtends(Next(s, steps[0]), steps[1..], st);
      assert (steps + [st])[1..] == steps[1..] + [st];
    }
  }

  /** All lines appended that are shorter than a buffer, in order. */
  function Lines(steps: seq<Step>, size: nat): string {
    if steps == [] then "" else Added(steps[0], size) + Lines(steps[1..], size)
  }

  lemma {:induction false} TextRun(s: State, steps: seq<Step>)
    requires Legal(s, steps)
    ensures AllText(Run(s, steps)) == AllText(s) + Lines(steps, s.size)
    decreases |steps|
  {
    if steps == [] {
      assert AllText(s) + "" == AllText(s);
    } else {
      SizeStep(s, steps[0]);
      TextStep(s, steps[0]);
      hide AllText, SparesOk, Owned, NoticeOk, Enabled, Next, Added;
      TextRun(Next(s, steps[0]), steps[1..]);
      Assoc(AllText(s), Added(steps[0], s.size), Lines(steps[1..], s.size));
    }
  }

  lemma Assoc(a: string, b: string, c: string)
    ensures (a + b) + c == a + (b + c)
  {
  }

  /** In every interleaving of front ends and back end: what has been written or dropped, the rest of
      the batch, the full buffers and the current buffer together are, in order, all appended lines
      that are shorter than a buffer; drops come only from over-long batches and are announced in the
      file with their number. */
  lemma EveryLineIsAccountedFor(size: nat, steps: seq<Step>)
    requires Legal(Init(size), steps)
    ensures var s := Run(Init(size), steps);
            && s.written <= |s.toWrite|
            && Original(s.history) + (Texts(s.toWrite[s.written..]) + Texts(s.lost))
               + (Texts(s.buffers) + s.current.text) == Lines(steps, size)
            && DropsNoticed(s.history)
            && (s.lost == [] ==> NoticesTrue(s.history, |s.history|))
  {
    TextRun(Init(size), steps);
    assert AllText(Init(size)) == "";
    assert "" + Lines(steps, size) == Lines(steps, size);
  }

  /** Where a line goes: to the current buffer if more than its length is free there; otherwise that
      buffer is queued as full and the line goes to the next buffer, or to a newly allocated one. */
  lemma AppendOutcome(s: State, line: string)
    requires SparesOk(s)
    ensures var r := Next(s, AppendLine(line)); var kept := if |line| < s.size then line else "";
            if |s.current.text| + |line| < s.size then
              r == s.(current := Buf(s.current.id, s.current.text + line))
            else
              && r.buffers == s.buffers + [s.current] && r.next == None && r.current.text == kept
              && r.current.id == (if s.next.Some? then s.next.value.id else s.ids)
              && r.ids == (if s.next.Some? then s.ids else s.ids + 1)
              && r.toWrite == s.toWrite && r.history == s.history && r.pc == s.pc
  {
    if s.next.Some? { assert "" + line == line; }
  }

  /** The batch collected is all full buffers and the current one, which is replaced by a spare; the
      next buffer is replaced if it has been used. */
  lemma CollectOutcome(s: State)
    requires SparesOk(s) && s.pc == Top
    ensures var r := Next(s, CollectBatch);
            && r.toWrite == s.buffers + [s.current] && r.buffers == [] && r.written == 0 && r.pc == Collected
            && Some(r.current) == s.new1 && r.next == (if s.next == None then s.new2 else s.next)
            && r.history == s.history
  {
  }

  /** A batch is cut, to its first two buffers and with a notice, exactly when it has more than 25. */
  lemma CutOutcome(s: State)
    requires SparesOk(s) && s.pc == Collected
    ensures var r := Next(s, CheckBatch);
            && r.pc == Writing && r.buffers == s.buffers && r.current == s.current
            && if |s.toWrite| > 25 then
                 && r.toWrite == s.toWrite[..2] && r.lost == s.toWrite[2..]
                 && r.history == s.history + [Notice(|s.toWrite| - 2)]
               else r.toWrite == s.toWrite && r.lost == [] && r.history == s.history
  {
  }

  /** At the top of its loop the back end always finds both spares present, empty and distinct, and
      no batch left over; a batch being written has at most 25 buffers; and a missing next buffer
      always means a full one is queued. */
  lemma SparesAtTop(size: nat, steps: seq<Step>)
    requires Legal(Init(size), steps)
    ensures var s := Run(Init(size), steps);
            && (s.next == None ==> s.buffers != [])
            && (s.pc == Writing ==> |s.toWrite| <= 25)
            && (s.pc == Top ==>
                  && s.new1.Some? && s.new1.value.text == "" && s.new2.Some? && s.new2.value.text == ""
                  && s.new1.value.id != s.new2.value.id && s.toWrite == [])
  {
    var s := Run(Init(size), steps);
    if s.pc == Top {
      assert Held(s, s.new1.value.id) <= 1;
    }
  }
}
