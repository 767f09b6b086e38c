/** Coverage over whole runs, with resets. */
module CoverageResets {
  import opened Types
  import opened BufferWindows
  import opened Contents
  import opened Receivers
  import opened Coverage

  /** Neither thread holds an id of the session that is ending. */
  predicate Settled(s: State) {
    Pending(s) == {} && s.toForget == {} && s.toCheck == {}
  }

  /** A reset begins only when the threads hold no ids; between its halves the data receiver does not write
      and the rexmit sender does not take ids; and a packet that enters an empty window is newer than all
      since the last reset. */
  predicate Careful(s: State, a: Action)
    requires Valid(s.buffer)
  {
    Enabled(s, a) ==>
      && (a.ResetBuffer? ==> Settled(s))
      && (s.resetter.ResettingSchedule? ==> !a.WriteBuffer? && !a.FilterSchedule?)
      && (Reopens(s, a) ==> s.data.d.msg.id > s.high)
  }

  ghost predicate AllCareful(s: State, actions: seq<Action>)
    requires Valid(s.buffer)
  {
    actions != [] ==>
      && AllCareful(s, actions[..|actions| - 1])
      && Careful(RunFrom(s, actions[..|actions| - 1]), actions[|actions| - 1])
  }

  /** Between the halves of a reset there is nothing in the buffer or with the threads. */
  ghost predicate Halfway(s: State) {
    Valid(s.buffer) && s.buffer.ids == [] && Settled(s)
  }

  ghost predicate Calm(s: State) {
    if s.resetter.ResettingSchedule? then Halfway(s) else Ahead(s)
  }

  lemma ResetEndsCalm(s: State)
    requires Halfway(s) && s.resetter.ResettingSchedule?
    ensures Ahead(Do(s, ResetSchedule))
  {
  }

  lemma HalfwayKeeps(s: State, a: Action)
    requires Halfway(s) && s.resetter.ResettingSchedule? && !a.WriteBuffer? && !a.FilterSchedule? && !a.ResetSchedule?
    ensures Halfway(Do(s, a))
  {
    DoValid(s, a);
    if !Enabled(s, a) {
    } else if a.Play? {
    } else if Elsewhere(a) {
      ElsewhereFrame(s, a);
    }
  }

  lemma StepCalm(s: State, a: Action)
    requires Calm(s) && Careful(s, a)
    ensures Calm(Do(s, a))
  {
    if s.resetter.ResettingSchedule? {
      if a.ResetSchedule? {
        ResetEndsCalm(s);
      } else if Enabled(s, a) {
        HalfwayKeeps(s, a);
      }
    } else if !(a.ResetBuffer? && s.resetter.ResettingBuffer?) {
      DoAhead(s, a);
    }
  }

  lemma CalmIsClean(s: State, a: Action)
    requires Calm(s) && Careful(s, a)
    ensures Clean(s, a)
  {
    BetweenEnds(s.buffer);
  }

  lemma {:induction false} CalmAndClean(s: State, actions: seq<Action>)
    requires Fresh(s) && !s.resetter.ResettingSchedule? && AllCareful(s, actions)
    ensures Calm(RunFrom(s, actions)) && AlwaysClean(s, actions)
  {
    if actions != [] {
      var before := RunFrom(s, actions[..|actions| - 1]);
      CalmAndClean(s, actions[..|actions| - 1]);
      StepCalm(before, actions[|actions| - 1]);
      CalmIsClean(before, actions[|actions| - 1]);
    }
  }

  /** Retransmission coverage over a whole run of the receiver, with any number of resets, as long as each
      is careful: every hole is in the schedule or about to be appended to it, at every interleaving. */
  lemma CoveredAcrossResets(maxSize: nat, rtime: nat, actions: seq<Action>)
    requires AllCareful(Start(maxSize, rtime), actions)
    ensures AlwaysCovered(Start(maxSize, rtime), actions)
  {
    CalmAndClean(Start(maxSize, rtime), actions);
    CoveredExactlyIfClean(Start(maxSize, rtime), actions);
  }
}
