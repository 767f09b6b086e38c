/** Under every interleaving of the threads the receiver's buffer goes through a run of its own
    operations, so what holds over all such runs holds inside the receiver. */
module ReceiverBuffer {
  import opened Types
  import opened Progressions
  import opened BufferWindows
  import opened Receivers
  import B = BufferRuns
  import BufferTheorems
  import O = PlaybackOrder

  /** What a step does to the buffer. */
  function OpOf(s: State, a: Action): seq<B.Op> {
    if !Enabled(s, a) then []
    else
      match a
      case WriteBuffer => [B.WriteOp(s.data.d.msg)]
      case Play => [B.ReadOp]
      case ResetBuffer => [B.ResetOp]
      case _ => []
  }

  function Ops(maxSize: nat, rtime: nat, actions: seq<Action>): seq<B.Op> {
    if actions == [] then []
    else
      var before := actions[..|actions| - 1];
      Ops(maxSize, rtime, before) + OpOf(Run(maxSize, rtime, before), actions[|actions| - 1])
  }

  /** The buffer and what was played, as the run of operations has them. */
  ghost predicate Matches(s: State, t: B.Trace) {
    t.w == s.buffer && t.played == O.Ids(s.played)
  }

  lemma PlayMatches(s: State, t: B.Trace)
    requires Valid(s.buffer) && Matches(s, t)
    ensures Matches(AfterPlay(s), B.TraceRead(t))
  {
    if AfterPlay(s).played != s.played {
      O.IdsOfSum(s.played, Message(s.buffer.Front(), Read(s.buffer).1.value.value));
    }
  }

  lemma WriteMatches(s: State, t: B.Trace)
    requires Valid(s.buffer) && Matches(s, t) && Enabled(s, WriteBuffer)
    ensures Matches(AfterWrite(s), B.TraceWrite(t, s.data.d.msg))
  {
    B.WritePlaysNothing(t, s.data.d.msg);
  }

  /** A step of the receiver is what its operations do to the run. */
  lemma StepMatches(s: State, t: B.Trace, a: Action)
    requires Valid(s.buffer) && Matches(s, t)
    ensures OpOf(s, a) == [] ==> Matches(Do(s, a), t)
    ensures OpOf(s, a) != [] ==> |OpOf(s, a)| == 1 && Matches(Do(s, a), B.Step(t, OpOf(s, a)[0]))
  {
    if !Enabled(s, a) {
    } else if a.WriteBuffer? {
      WriteMatches(s, t);
    } else if a.Play? {
      PlayMatches(s, t);
    }
  }

  lemma OneMoreOp(maxSize: nat, ops: seq<B.Op>, more: seq<B.Op>)
    requires |more| <= 1
    ensures B.Run(maxSize, ops + more)
         == if more == [] then B.Run(maxSize, ops) else B.Step(B.Run(maxSize, ops), more[0])
  {
    if more == [] {
      assert ops + more == ops;
    } else {
      assert more == [more[0]];
      B.RunOneMore(maxSize, ops, more[0]);
    }
  }

  lemma {:induction false} BufferRunsItsOps(maxSize: nat, rtime: nat, actions: seq<Action>)
    ensures Matches(Run(maxSize, rtime, actions), B.Run(maxSize, Ops(maxSize, rtime, actions)))
  {
    if actions != [] {
      var before, a := actions[..|actions| - 1], actions[|actions| - 1];
      var s, ops := Run(maxSize, rtime, before), Ops(maxSize, rtime, before);
      BufferRunsItsOps(maxSize, rtime, before);
      StepMatches(s, B.Run(maxSize, ops), a);
      OneMoreOp(maxSize, ops, OpOf(s, a));
    } else {
      assert Matches(Receivers.Start(maxSize, rtime), B.Start(maxSize));
    }
  }

  /** Under every interleaving, every hole in the buffer was reported to the data receiver since the last
      reset. What was played is in strictly increasing order exactly if each read that was the first since a
      packet entered an empty window was above the last id played before it; and so it is, across resets too,
      if every packet that entered an empty window was above all ids played. */
  lemma GapsAndOrderUnderInterleaving(maxSize: nat, rtime: nat, actions: seq<Action>)
    ensures var s, ops := Run(maxSize, rtime, actions), Ops(maxSize, rtime, actions);
            && |s.buffer.vals| == |s.buffer.ids|
            && Holes(s.buffer) <= B.Run(maxSize, ops).requested
            && (Increasing(O.Ids(s.played)) <==> O.FirstReadsAdvance(maxSize, ops))
            && (O.EntriesAdvance(maxSize, ops) ==> Increasing(O.Ids(s.played)))
  {
    var ops := Ops(maxSize, rtime, actions);
    BufferRunsItsOps(maxSize, rtime, actions);
    BufferTheorems.NoGapIsSilent(maxSize, ops);
    O.OrderIsFirstReadsAdvance(maxSize, ops);
    if O.EntriesAdvance(maxSize, ops) { O.PlayedInOrder(maxSize, ops); }
  }

  // ---------- What was played since the window was last entered ----------

  lemma PlayEndsWith(s: State, t: B.Trace)
    requires Valid(s.buffer) && t.w == s.buffer && EndsWith(s.played, O.PlayedSince(t.popped))
    ensures EndsWith(AfterPlay(s).played, O.PlayedSince(B.TraceRead(t).popped))
  {
    O.ReadPopped(t);
    if O.ReadSucceeds(s.buffer) {
      EndsWithOneMore(s.played, O.PlayedSince(t.popped), Message(s.buffer.Front(), s.buffer.vals[0].value));
    }
  }

  lemma WriteEndsWith(s: State, t: B.Trace)
    requires Valid(s.buffer) && t.w == s.buffer && EndsWith(s.played, O.PlayedSince(t.popped))
    requires Enabled(s, WriteBuffer)
    ensures EndsWith(AfterWrite(s).played, O.PlayedSince(B.TraceWrite(t, s.data.d.msg).popped))
  {
    O.WritePopped(t, s.data.d.msg);
  }

  /** The packets popped by reads stay at the end of what was played. */
  lemma StepEndsWith(s: State, t: B.Trace, a: Action)
    requires Valid(s.buffer) && t.w == s.buffer && EndsWith(s.played, O.PlayedSince(t.popped))
    ensures OpOf(s, a) == [] ==> Do(s, a).played == s.played
    ensures OpOf(s, a) != [] ==> EndsWith(Do(s, a).played, O.PlayedSince(B.Step(t, OpOf(s, a)[0]).popped))
  {
    if !Enabled(s, a) {
    } else if a.WriteBuffer? {
      WriteEndsWith(s, t);
    } else if a.Play? {
      PlayEndsWith(s, t);
    }
  }

  lemma NextEndsWith(s: State, t: B.Trace, a: Action, s': State, t': B.Trace)
    requires Valid(s.buffer) && t.w == s.buffer && EndsWith(s.played, O.PlayedSince(t.popped))
    requires s' == Do(s, a) && t' == if OpOf(s, a) == [] then t else B.Step(t, OpOf(s, a)[0])
    ensures EndsWith(s'.played, O.PlayedSince(t'.popped))
  {
    StepEndsWith(s, t, a);
  }

  /** Under every interleaving, the packets the window has given to reads since it was last entered are the
      last that were played. */
  lemma {:induction false} PlayedSinceIsLast(maxSize: nat, rtime: nat, actions: seq<Action>)
    ensures EndsWith(Run(maxSize, rtime, actions).played,
                     O.PlayedSince(B.Run(maxSize, Ops(maxSize, rtime, actions)).popped))
  {
    if actions != [] {
      var before, a := actions[..|actions| - 1], actions[|actions| - 1];
      var s, ops := Run(maxSize, rtime, before), Ops(maxSize, rtime, before);
      PlayedSinceIsLast(maxSize, rtime, before);
      BufferRunsItsOps(maxSize, rtime, before);
      OneMoreOp(maxSize, ops, OpOf(s, a));
      NextEndsWith(s, B.Run(maxSize, ops), a, Run(maxSize, rtime, actions), B.Run(maxSize, ops + OpOf(s, a)));
    }
  }
}
