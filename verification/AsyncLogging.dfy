/** `AsyncLogging`: `append` and the loop of `threadFunc`, with the assertions of the source, each
    part proved to take the transition of the model. */
module AsyncLoggings {
  import opened Common
  import opened LoggingModel

  /** The loop that writes out the rest of the batch. */
  ghost function WriteAll(s: State): (r: State)
    requires Inv(s) && s.pc == Writing
    ensures Inv(r) && r.pc == Writing && r.written == |r.toWrite|
    decreases |s.toWrite| - s.written
  {
    if s.written == |s.toWrite| then s
    else
      StepInv(s, WriteBuffer);
      WriteAll(Next(s, WriteBuffer))
  }

  class AsyncLogging {
    const size: nat
    // Guarded by the mutex.
    var current: Buf
    var next: Option<Buf>
    var buffers: seq<Buf>
    // Local to the back-end thread.
    var new1: Option<Buf>
    var new2: Option<Buf>
    var toWrite: seq<Buf>
    var ids: nat
    ghost var written: nat
    ghost var lost: seq<Buf>
    ghost var pc: Pc
    ghost var history: seq<Chunk>

    ghost function State(): State
      reads this
    {
      LoggingModel.State(size, current, next, buffers, new1, new2, toWrite, written, lost, pc, ids, history)
    }

    constructor (size: nat)
      ensures State() == Init(size) && Inv(State())
    {
      this.size := size;
      current, next, buffers := Buf(0, ""), Some(Buf(1, "")), [];
      new1, new2, toWrite, ids := Some(Buf(2, "")), Some(Buf(3, "")), [], 4;
      written, lost, pc, history := 0, [], Top, [];
      new;
      InitLegal(size);
    }

    method AppendLine(line: string)
      requires Inv(State())
      modifies this
      ensures State() == Next(old(State()), Step.AppendLine(line)) && Inv(State())
    {
      StepInv(State(), Step.AppendLine(line));
      hide Owned, NoticeOk;
      if size - |current.text| > |line| {
        current := Fill(current, line, size);
      } else {
        buffers := buffers + [current];
        if next.Some? {
          current := next.value;
          next := None;
        } else {
          current := Buf(ids, "");
          ids := ids + 1;
        }
        current := Fill(current, line, size);
      }
    }

    static lemma CollectFacts(s: State)
      requires Inv(s) && s.pc == Top
      ensures s.new1.Some? && s.new1.value.text == "" && s.new2.Some? && s.new2.value.text == "" && s.toWrite == []
      ensures Next(s, Step.CollectBatch) == Collect(s) && Inv(Collect(s))
    {
      hide Owned, NoticeOk, Collect;
      StepInv(s, Step.CollectBatch);
    }

    /** The critical section of the loop. */
    method CollectBatch()
      requires Inv(State()) && pc == Top
      modifies this
      ensures State() == Next(old(State()), Step.CollectBatch) && Inv(State())
    {
      hide Inv, Next;
      CollectFacts(State());
      assert new1.Some? && new1.value.text == "";
      assert new2.Some? && new2.value.text == "";
      assert toWrite == [];
      buffers := buffers + [current];
      current := new1.value;
      new1 := None;
      if next == None {
        next := new2;
        new2 := None;
      }
      toWrite, buffers := buffers, [];
      written, pc := 0, Collected;
      assert toWrite != [];
    }

    method CheckBatch()
      requires Inv(State()) && pc == Collected
      modifies this
      ensures State() == Next(old(State()), Step.CheckBatch) && Inv(State())
    {
      StepInv(State(), Step.CheckBatch);
      hide Owned, NoticeOk, Texts;
      lost := [];
      if |toWrite| > MAX_BATCH {
        history := history + [Notice(|toWrite| - 2)];
        lost := toWrite[2..];
        toWrite := toWrite[..2];
      }
      pc := Writing;
    }

    method WriteOut()
      requires Inv(State()) && pc == Writing && written == 0
      modifies this`history, this`written
      ensures State() == WriteAll(old(State())) && Inv(State())
    {
      hide Inv;
      ghost var goal := WriteAll(State());
      var i := 0;
      while i < |toWrite|
        invariant 0 <= i <= |toWrite| && written == i && pc == Writing
        invariant Inv(State()) && WriteAll(State()) == goal
      {
        StepInv(State(), WriteBuffer);
        Unfold(State());
        history := history + [Written(toWrite[i].text)];
        written := written + 1;
        i := i + 1;
      }
    }

    static lemma Unfold(s: State)
      requires Inv(s) && s.pc == Writing && s.written < |s.toWrite|
      ensures Next(s, WriteBuffer) == WriteNext(s) && Inv(WriteNext(s)) && WriteAll(s) == WriteAll(WriteNext(s))
    {
      StepInv(s, WriteBuffer);
    }

    static lemma FinishFacts(s: State)
      requires Inv(s) && s.pc == Writing && s.written == |s.toWrite|
      ensures s.new1 == None && |s.toWrite| >= if s.new2 == None then 2 else 1
      ensures Next(s, Step.FinishRound) == Refill(s) && Inv(Refill(s))
    {
      hide Owned, NoticeOk, Refill;
      StepInv(s, Step.FinishRound);
    }

    method FinishRound()
      requires Inv(State()) && pc == Writing && written == |toWrite|
      modifies this
      ensures State() == Next(old(State()), Step.FinishRound) && Inv(State())
    {
      hide Inv, Refill, Next;
      FinishFacts(State());
      assert new1 == None && |toWrite| >= (if new2 == None then 2 else 1);
      RefillFields(State());
      var kept := toWrite;
      if |kept| > 2 {
        kept := kept[..2];
      }
      var spare1, spare2 := new1, new2;
      if spare1 == None {
        assert kept != [];
        spare1 := Some(kept[|kept| - 1].(text := ""));
        kept := kept[..|kept| - 1];
      }
      if spare2 == None {
        assert kept != [];
        spare2 := Some(kept[|kept| - 1].(text := ""));
        kept := kept[..|kept| - 1];
      }
      new1, new2, toWrite := spare1, spare2, [];
      history := history + [Dropped(lost)];
      lost, written, pc := [], 0, Top;
    }

    /** One round of the back-end loop without interference: nothing handed to the logger is lost,
        and all that had been appended is now in the file or announced as dropped. */
    method Round()
      requires Inv(State()) && pc == Top
      modifies this
      ensures Inv(State()) && pc == Top && AllText(State()) == old(AllText(State()))
      ensures buffers == [] && current.text == "" && Original(history) == AllText(State())
    {
      hide Inv, AllText, WriteAll, Original;
      ghost var s := State();
      RoundText(s);
      CollectBatch();
      CheckBatch();
      WriteOut();
      FinishRound();
      assert State() == RoundOf(s);
    }
  }

  /** The state after one undisturbed round. */
  ghost function RoundOf(s: State): (r: State)
    requires Inv(s) && s.pc == Top
  {
    StepInv(s, CollectBatch);
    var s1 := Next(s, CollectBatch);
    StepInv(s1, CheckBatch);
    var s2 := Next(s1, CheckBatch);
    Next(WriteAll(s2), FinishRound)
  }

  lemma {:induction false} WriteAllText(s: State)
    requires Inv(s) && s.pc == Writing
    ensures var r := WriteAll(s);
            AllText(r) == AllText(s) && r == s.(history := r.history, written := r.written)
    decreases |s.toWrite| - s.written
  {
    if s.written < |s.toWrite| {
      AsyncLogging.Unfold(s);
      TextStep(s, WriteBuffer);
      WriteAllText(WriteNext(s));
    }
  }

  lemma RoundText(s: State)
    requires Inv(s) && s.pc == Top
    ensures var r := RoundOf(s);
            && AllText(r) == AllText(s) && r.pc == Top
            && r.buffers == [] && r.current.text == "" && Original(r.history) == AllText(r)
  {
    hide AllText, WriteAll, Original, Owned, NoticeOk;
    StepInv(s, CollectBatch);
    TextStep(s, CollectBatch);
    var s1 := Next(s, CollectBatch);
    StepInv(s1, CheckBatch);
    TextStep(s1, CheckBatch);
    var s2 := Next(s1, CheckBatch);
    WriteAllText(s2);
    var s3 := WriteAll(s2);
    TextStep(s3, FinishRound);
    var r := Next(s3, FinishRound);
    StepInv(s3, FinishRound);
    AllWritten(r);
    assert AllText(s) + "" + "" + "" == AllText(s);
  }

  lemma AllWritten(s: State)
    requires SparesOk(s) && s.pc == Top && s.buffers == [] && s.current.text == ""
    ensures AllText(s) == Original(s.history)
  {
    assert s.toWrite[s.written..] == [];
    assert Original(s.history) + ("" + "") + ("" + "") == Original(s.history);
  }
}
