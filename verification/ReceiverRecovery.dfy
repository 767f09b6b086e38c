/** What the receiver's threads do about packets they cannot use, under every interleaving: which datagrams are
    taken, which reads and writes fail, and how a failure leads to a reset of the playback. */
module ReceiverRecovery {
  import opened Types
  import opened BufferWindows
  import opened Contents
  import opened Receivers
  import opened SessionPurity
  import B = BufferRuns
  import RB = ReceiverBuffer
  import R = Readiness

  // ---------- Reads ----------

  /** A read plays nothing while the buffer waits. Of a readable buffer it fails, and plays nothing, exactly if the
      window is empty or starts with a hole; otherwise it plays the first id with the payload last written in
      this session under it. */
  lemma PlayOutcome(maxSize: nat, rtime: nat, actions: seq<Action>)
    requires !Run(maxSize, rtime, actions).readFailed
    ensures var s, msgs := Run(maxSize, rtime, actions), R.Written(RB.Ops(maxSize, rtime, actions));
            var s' := Do(s, Play);
            && |s.buffer.vals| == |s.buffer.ids|
            && (R.AllShort(maxSize, msgs) ==> s' == s)
            && (!R.AllShort(maxSize, msgs) ==>
                  if R.NothingToRead(s.buffer) then s' == s.(readFailed := true)
                  else
                    && R.LastOf(msgs, s.buffer.ids[0]).Some? && !s'.readFailed
                    && s'.played == s.played + [Message(s.buffer.ids[0], R.LastOf(msgs, s.buffer.ids[0]).value)]
                    && s'.buffer.ids == s.buffer.ids[1..])
  {
    var ops := RB.Ops(maxSize, rtime, actions);
    RB.BufferRunsItsOps(maxSize, rtime, actions);
    R.ReadOutcome(maxSize, ops);
    PlayIsRead(Run(maxSize, rtime, actions));
  }

  lemma PlayIsRead(s: State)
    requires Valid(s.buffer) && !s.readFailed
    ensures var (v, r) := Read(s.buffer);
            && (r.Err? ==> Do(s, Play) == s.(readFailed := true))
            && (r == Ok(None) ==> Do(s, Play) == s)
            && (r.Ok? && r.value.Some? ==>
                  && s.buffer.ids != []
                  && Do(s, Play) == s.(buffer := v, played := s.played + [Message(s.buffer.ids[0], r.value.value)]))
  {
  }

  // ---------- Failures are not forgotten ----------

  /** While the streamer handles a failed read it plays nothing. */
  lemma {:induction false} FailedReadIsHeld(s: State, actions: seq<Action>)
    requires Valid(s.buffer) && s.readFailed && MarkReadFailed !in actions
    ensures RunFrom(s, actions).readFailed && RunFrom(s, actions).played == s.played
  {
    if actions != [] {
      FailedReadIsHeld(s, actions[..|actions| - 1]);
      HeldStep(RunFrom(s, actions[..|actions| - 1]), actions[|actions| - 1]);
    }
  }

  lemma HeldStep(s: State, a: Action)
    requires Valid(s.buffer)
    ensures s.readFailed && a != MarkReadFailed ==> Do(s, a).readFailed && Do(s, a).played == s.played
    ensures s.data.WriteFailed? && a != MarkWriteFailed ==> Do(s, a).data.WriteFailed?
  {
    if !Enabled(s, a) {
    } else if a.WriteBuffer? {
      AfterWriteFrame(s);
      assert Do(s, a).readFailed == s.readFailed by { assert Do(s, a) == AfterWrite(s); }
    } else if a.Register? {
      assert Do(s, a) == AfterRegister(s);
    } else if a.Play? {
      assert Do(s, a) == AfterPlay(s);
    }
  }

  lemma {:induction false} FailedWriteIsHeld(s: State, actions: seq<Action>)
    requires Valid(s.buffer) && s.data.WriteFailed? && MarkWriteFailed !in actions
    ensures RunFrom(s, actions).data.WriteFailed?
  {
    if actions != [] {
      FailedWriteIsHeld(s, actions[..|actions| - 1]);
      HeldStep(RunFrom(s, actions[..|actions| - 1]), actions[|actions| - 1]);
    }
  }

  // ---------- What makes the state dirty ----------

  /** A failed read or write is handled, the station changes, or a larger session is registered. */
  predicate Cause(s: State, a: Action) {
    && Enabled(s, a)
    && (a.MarkReadFailed? || a.MarkWriteFailed? || a.ChangeStation? || (a.Register? && s.data.d.session > s.sessionId))
  }

  predicate Takes(s: State, a: Action, b: Action) {
    a == b && Enabled(s, a)
  }

  /** Exactly these steps make the state dirty, and it stays so until the resetter looks. */
  lemma DirtyStep(s: State, a: Action)
    requires Valid(s.buffer)
    ensures Do(s, a).dirty <==> Cause(s, a) || (s.dirty && !Takes(s, a, CheckDirty))
  {
    if !Enabled(s, a) {
    } else if a.WriteBuffer? {
      AfterWriteFrame(s);
    } else if a.Register? {
      RegisterFrame(s);
    } else if a.Play? {
      assert Do(s, a) == AfterPlay(s);
    }
  }

  /** The resetter goes on to clear the buffer exactly when it finds the state dirty. */
  lemma ResetterStep(s: State, a: Action)
    requires Valid(s.buffer)
    ensures Do(s, a).resetter
         == if Takes(s, a, CheckDirty) && s.dirty then ResettingBuffer
            else if Takes(s, a, ResetBuffer) then ResettingSchedule
            else if Takes(s, a, ResetSchedule) then Watching
            else s.resetter
  {
    if !Enabled(s, a) {
    } else if a.WriteBuffer? {
      AfterWriteFrame(s);
    } else if a.Register? {
      RegisterFrame(s);
    } else if a.Play? {
      assert Do(s, a) == AfterPlay(s);
    }
  }

  /** Clearing the buffer ends the session. */
  lemma ResetEndsSession(s: State)
    requires Valid(s.buffer) && s.resetter.ResettingBuffer?
    ensures var s' := Do(s, ResetBuffer);
            s'.buffer.state == NoSession && s'.buffer.ids == [] && s'.buffer.vals == []
  {
  }

  ghost predicate NotReset(s: State, actions: seq<Action>)
    requires Valid(s.buffer)
  {
    actions != [] ==>
      && NotReset(s, actions[..|actions| - 1])
      && !Takes(RunFrom(s, actions[..|actions| - 1]), actions[|actions| - 1], ResetBuffer)
  }

  /** A reset that is due stays due until the buffer is cleared, whatever the threads do. */
  lemma {:induction false} ResetStaysDue(s: State, actions: seq<Action>)
    requires Valid(s.buffer) && ResetPending(s) && NotReset(s, actions)
    ensures ResetPending(RunFrom(s, actions))
  {
    if actions != [] {
      var before, a := RunFrom(s, actions[..|actions| - 1]), actions[|actions| - 1];
      ResetStaysDue(s, actions[..|actions| - 1]);
      DirtyStep(before, a);
      ResetterStep(before, a);
    }
  }

  /** The next two steps of the resetter, when a reset is due: if it is not busy it finds the state dirty, and then
      it ends the session. */
  ghost predicate Recovers(s: State)
    requires Valid(s.buffer)
  {
    && ResetPending(s)
    && (s.resetter.Watching? ==> Do(s, CheckDirty).resetter.ResettingBuffer?)
    && (s.resetter.ResettingBuffer? ==>
          Do(s, ResetBuffer).buffer.state == NoSession && Do(s, ResetBuffer).buffer.ids == [])
  }

  lemma PendingRecovers(s: State)
    requires Valid(s.buffer) && ResetPending(s)
    ensures Recovers(s)
  {
    ResetterStep(s, CheckDirty);
    if s.resetter.ResettingBuffer? { ResetEndsSession(s); }
  }

  /** Under every interleaving: a read that finds a readable buffer empty, or a hole at its front, fails; nothing is
      played until the failure is handled, and from then on a reset is due until the buffer is cleared. */
  lemma HoleLeadsToReset(maxSize: nat, rtime: nat, actions: seq<Action>, first: seq<Action>, second: seq<Action>)
    requires var s := Run(maxSize, rtime, actions);
             && !s.readFailed && |s.buffer.vals| == |s.buffer.ids| && R.NothingToRead(s.buffer)
             && !R.AllShort(maxSize, R.Written(RB.Ops(maxSize, rtime, actions)))
    requires MarkReadFailed !in first
    requires var s1 := RunFrom(Run(maxSize, rtime, actions + [Play]), first);
             Valid(Do(s1, MarkReadFailed).buffer) && NotReset(Do(s1, MarkReadFailed), second)
    ensures var s1 := RunFrom(Run(maxSize, rtime, actions + [Play]), first);
            && s1.readFailed && s1.played == Run(maxSize, rtime, actions).played
            && Do(s1, MarkReadFailed).dirty
            && Recovers(RunFrom(Do(s1, MarkReadFailed), second))
  {
    var s := Run(maxSize, rtime, actions);
    PlayOutcome(maxSize, rtime, actions);
    assert (actions + [Play])[..|actions|] == actions;
    FailedReadIsHeld(Do(s, Play), first);
    var s1 := RunFrom(Do(s, Play), first);
    DirtyStep(s1, MarkReadFailed);
    ResetStaysDue(Do(s1, MarkReadFailed), second);
    PendingRecovers(RunFrom(Do(s1, MarkReadFailed), second));
  }

  /** Under every interleaving a write fails exactly if its id is no multiple of the length of the packet that
      opened the session. */
  lemma WriteFailsIff(maxSize: nat, rtime: nat, actions: seq<Action>)
    requires Enabled(Run(maxSize, rtime, actions), WriteBuffer)
    ensures var s := Run(maxSize, rtime, actions);
            var msgs := R.Written(RB.Ops(maxSize, rtime, actions) + [B.WriteOp(s.data.d.msg)]);
            msgs != [] && (Do(s, WriteBuffer).data.WriteFailed? <==> s.data.d.msg.id % |msgs[0].data| != 0)
  {
    RB.BufferRunsItsOps(maxSize, rtime, actions);
    R.WriteThrowsIff(maxSize, RB.Ops(maxSize, rtime, actions), Run(maxSize, rtime, actions).data.d.msg);
  }

  /** And once its failure is handled a reset is due until the buffer is cleared. */
  lemma FailedWriteLeadsToReset(s: State, first: seq<Action>, second: seq<Action>)
    requires Valid(s.buffer) && s.data.WriteFailed? && MarkWriteFailed !in first
    requires var s1 := RunFrom(s, first);
             Valid(Do(s1, MarkWriteFailed).buffer) && NotReset(Do(s1, MarkWriteFailed), second)
    ensures var s1 := RunFrom(s, first);
            && s1.data.WriteFailed? && Do(s1, MarkWriteFailed).dirty
            && Recovers(RunFrom(Do(s1, MarkWriteFailed), second))
  {
    FailedWriteIsHeld(s, first);
    var s1 := RunFrom(s, first);
    DirtyStep(s1, MarkWriteFailed);
    ResetStaysDue(Do(s1, MarkWriteFailed), second);
    PendingRecovers(RunFrom(Do(s1, MarkWriteFailed), second));
  }

  // ---------- No reset without a cause ----------

  /** Step i caused a reset where none was due, and it has been due ever since. */
  ghost predicate DueSince(maxSize: nat, rtime: nat, actions: seq<Action>, i: nat)
    requires i < |actions|
    decreases |actions|
  {
    var before, a := actions[..|actions| - 1], actions[|actions| - 1];
    && ResetPending(Run(maxSize, rtime, actions))
    && if i == |actions| - 1 then
         Cause(Run(maxSize, rtime, before), a) && !ResetPending(Run(maxSize, rtime, before))
       else DueSince(maxSize, rtime, before, i)
  }

  /** Whenever a reset is due, some step caused it. */
  lemma {:induction false} ResetHasCause(maxSize: nat, rtime: nat, actions: seq<Action>) returns (i: nat)
    requires ResetPending(Run(maxSize, rtime, actions))
    ensures i < |actions| && DueSince(maxSize, rtime, actions, i)
  {
    var before, a := actions[..|actions| - 1], actions[|actions| - 1];
    var s := Run(maxSize, rtime, before);
    DirtyStep(s, a);
    ResetterStep(s, a);
    if ResetPending(s) {
      i := ResetHasCause(maxSize, rtime, before);
    } else {
      i := |actions| - 1;
    }
  }

  // ---------- Which datagrams are taken ----------

  /** Under every interleaving a datagram is taken exactly if its session is the largest registered before it; otherwise
      it is dropped, and a larger session makes a reset due. */
  lemma TakenIffCurrent(maxSize: nat, rtime: nat, actions: seq<Action>)
    requires Run(maxSize, rtime, actions).data.Received?
    ensures var s := Run(maxSize, rtime, actions);
            var s' := Do(s, Register);
            && s'.data == (if s.data.d.session == Max(s.registered) then Accepted(s.data.d) else Listening)
            && (s'.dirty <==> s.dirty || s.data.d.session > Max(s.registered))
  {
    SessionPurity.RunKeeps(maxSize, rtime, actions);
    RegisterFrame(Run(maxSize, rtime, actions));
  }
}
