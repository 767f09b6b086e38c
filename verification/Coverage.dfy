/** Whether every hole in the window is going to be requested, under every interleaving. */
module Coverage {
  import opened Types
  import opened BufferWindows
  import opened Contents
  import opened Rexmit
  import opened Receivers

  /** The ids the data receiver holds between the write that returned them and their append. */
  function Pending(s: State): set<nat> {
    if s.data.Reporting? then s.data.missed else {}
  }

  ghost predicate Covered(s: State)
    requires |s.buffer.vals| == |s.buffer.ids|
  {
    Holes(s.buffer) <= s.schedule.Keys + Pending(s)
  }

  /** A step is clean unless it filters the schedule while a hole is among the ids to forget, or resets
      the schedule while there is a hole, that the data receiver is not about to append. */
  ghost predicate Clean(s: State, a: Action)
    requires |s.buffer.vals| == |s.buffer.ids|
  {
    Enabled(s, a) ==>
      && (a.FilterSchedule? ==> Holes(s.buffer) * s.toForget <= Pending(s))
      && (a.ResetSchedule? ==> Holes(s.buffer) <= Pending(s))
  }

  lemma WriteCovered(s: State)
    requires Valid(s.buffer) && Covered(s) && Enabled(s, WriteBuffer)
    ensures Covered(AfterWrite(s))
  {
    WriteContents(s.buffer, s.data.d.msg);
    match Write(s.buffer, s.data.d.msg).1
    case Ok(missed) => assert Pending(AfterWrite(s)) == missed;
    case Err(_) => assert Holes(AfterWrite(s).buffer) == Holes(s.buffer);
  }

  lemma PlayCovered(s: State)
    requires Valid(s.buffer) && Covered(s)
    ensures Covered(AfterPlay(s))
  {
    ReadContents(s.buffer);
  }

  lemma FilterCovered(s: State, now: int)
    requires Valid(s.buffer) && Covered(s)
    ensures Covered(AfterFilter(s, now)) <==> Holes(s.buffer) * s.toForget <= Pending(s)
  {
    assert AfterFilter(s, now).schedule.Keys == s.schedule.Keys - s.toForget;
  }

  lemma ReportCovered(s: State, now: int)
    requires Valid(s.buffer) && Covered(s) && s.data.Reporting?
    ensures Covered(Do(s, Report(now)))
  {
    assert Do(s, Report(now)).schedule.Keys == s.schedule.Keys + s.data.missed;
  }

  /** A step that touches neither the window nor the schedule nor the pending ids. */
  lemma OtherCovered(s: State, s': State)
    requires Valid(s.buffer) && Covered(s)
    requires s'.buffer == s.buffer && s'.schedule == s.schedule && Pending(s') == Pending(s)
    ensures Covered(s')
  {
  }

  /** From a covered state exactly the clean steps lead to a covered state. */
  lemma StepCovered(s: State, a: Action)
    requires Valid(s.buffer) && Covered(s)
    ensures Valid(Do(s, a).buffer)
    ensures Covered(Do(s, a)) <==> Clean(s, a)
  {
    DoValid(s, a);
    if !Enabled(s, a) {
    } else if a.WriteBuffer? {
      WriteCovered(s);
    } else if a.Play? {
      PlayCovered(s);
    } else if a.Report? {
      ReportCovered(s, a.now);
    } else if a.FilterSchedule? {
      FilterCovered(s, a.now);
    } else if a.ResetBuffer? {
      assert Holes(Do(s, a).buffer) == {};
    } else if a.ResetSchedule? {
      assert Do(s, a).schedule.Keys + Pending(Do(s, a)) == Pending(s);
    } else {
      OtherCovered(s, Do(s, a));
    }
  }

  ghost predicate AlwaysCovered(s: State, actions: seq<Action>)
    requires Valid(s.buffer)
  {
    && Covered(RunFrom(s, actions))
    && (actions != [] ==> AlwaysCovered(s, actions[..|actions| - 1]))
  }

  ghost predicate AlwaysClean(s: State, actions: seq<Action>)
    requires Valid(s.buffer)
  {
    actions != [] ==>
      && AlwaysClean(s, actions[..|actions| - 1])
      && Clean(RunFrom(s, actions[..|actions| - 1]), actions[|actions| - 1])
  }

  /** Every hole is scheduled or about to be, throughout a run, exactly if every step of it is clean. */
  lemma {:induction false} CoveredExactlyIfClean(s: State, actions: seq<Action>)
    requires Valid(s.buffer) && Covered(s)
    ensures AlwaysCovered(s, actions) <==> AlwaysClean(s, actions)
  {
    if actions != [] {
      var before := RunFrom(s, actions[..|actions| - 1]);
      CoveredExactlyIfClean(s, actions[..|actions| - 1]);
      if Covered(before) {
        StepCovered(before, actions[|actions| - 1]);
      }
    }
  }

  // ---------- Stretches without resets, in which the window never moves back ----------

  /** A packet is about to enter an empty window. */
  predicate Reopens(s: State, a: Action)
    requires Valid(s.buffer) && Enabled(s, a)
  {
    a.WriteBuffer? && s.buffer.ids == [] && Write(s.buffer, s.data.d.msg).1.Ok?
  }

  /** No reset; and a packet that enters an empty window is newer than all before it. */
  predicate Forward(s: State, a: Action)
    requires Valid(s.buffer)
  {
    Enabled(s, a) ==>
      && !a.ResetBuffer? && !a.ResetSchedule?
      && (Reopens(s, a) ==> s.data.d.msg.id > s.high)
  }

  ghost predicate AllForward(s: State, actions: seq<Action>)
    requires Valid(s.buffer)
  {
    actions != [] ==>
      && AllForward(s, actions[..|actions| - 1])
      && Forward(RunFrom(s, actions[..|actions| - 1]), actions[|actions| - 1])
  }

  /** An id that can never be in the window again, unless the window moves back. */
  predicate Gone(s: State, id: nat) {
    id <= s.high && (s.buffer.ids != [] ==> id < s.buffer.Front())
  }

  /** Every id in the rexmit machinery has been in the window, and those to forget have left it. */
  ghost predicate Ahead(s: State) {
    && Valid(s.buffer)
    && (s.buffer.ids != [] ==> s.buffer.Back() == s.high)
    && (forall id :: id in s.schedule.Keys + Pending(s) + s.toCheck ==> id <= s.high)
    && (forall id :: id in s.toForget ==> Gone(s, id))
  }

  ghost predicate Fresh(s: State) {
    && Valid(s.buffer) && s.buffer.ids == [] && s.schedule == map[] && Pending(s) == {}
    && s.toForget == s.toCheck == {}
  }

  lemma WriteMovesOn(w: Window, high: int, msg: Message)
    requires Valid(w) && (w.state == NoSession ==> msg.data != []) && Write(w, msg).1.Ok?
    requires if w.ids == [] then msg.id > high else w.Back() == high
    ensures var v, high' := Write(w, msg).0, if msg.id > high then msg.id else high;
            && v.ids != [] && v.Back() == high'
            && (forall id :: id in Write(w, msg).1.value ==> id <= high')
            && if w.ids == [] then high < v.Front() else w.Front() <= v.Front()
  {
    var v := Write(w, msg).0;
    WriteValid(w, msg);
    WriteContents(w, msg);
    WriteIds(w, msg);
    BetweenEnds(w);
    BetweenEnds(v);
    assert v.Front() in v.ids;
    if w.ids != [] { assert w.Front() in w.ids; }
  }

  /** The window moves on, and nothing else changes but the ids pending. */
  lemma MovingOnKeeps(s: State, s': State)
    requires Ahead(s) && Valid(s'.buffer) && s.high <= s'.high
    requires s'.buffer.ids != [] && s'.buffer.Back() == s'.high
    requires if s.buffer.ids == [] then s.high < s'.buffer.Front() else s.buffer.Front() <= s'.buffer.Front()
    requires s'.schedule == s.schedule && s'.toCheck == s.toCheck && s'.toForget == s.toForget
    requires forall id :: id in Pending(s') ==> id <= s'.high
    ensures Ahead(s')
    ensures forall id :: Gone(s, id) ==> Gone(s', id)
  {
  }

  lemma WriteAhead(s: State)
    requires Ahead(s) && Enabled(s, WriteBuffer) && Forward(s, WriteBuffer)
    ensures Ahead(AfterWrite(s))
    ensures forall id :: Gone(s, id) ==> Gone(AfterWrite(s), id)
  {
    WriteValid(s.buffer, s.data.d.msg);
    AfterWriteMeans(s);
    if Write(s.buffer, s.data.d.msg).1.Ok? {
      WriteMovesOn(s.buffer, s.high, s.data.d.msg);
      MovingOnKeeps(s, AfterWrite(s));
    }
  }

  lemma AfterWriteMeans(s: State)
    requires Valid(s.buffer) && Enabled(s, WriteBuffer)
    ensures var s', (w, r) := AfterWrite(s), Write(s.buffer, s.data.d.msg);
            && s'.buffer == w && s'.schedule == s.schedule
            && s'.toCheck == s.toCheck && s'.toForget == s.toForget
            && Pending(s') == (if r.Ok? then r.value else {})
            && s'.high == (if r.Ok? && s.data.d.msg.id > s.high then s.data.d.msg.id else s.high)
            && (r.Err? ==> w.ids == s.buffer.ids)
  {
    WriteContents(s.buffer, s.data.d.msg);
  }

  lemma PlayAhead(s: State)
    requires Ahead(s)
    ensures Ahead(AfterPlay(s))
    ensures forall id :: Gone(s, id) ==> Gone(AfterPlay(s), id)
  {
    ReadValid(s.buffer);
    ReadContents(s.buffer);
    BetweenEnds(s.buffer);
    var s' := AfterPlay(s);
    if s'.buffer.ids != [] { assert s'.buffer.Front() in s.buffer.ids; }
  }

  /** What the sender forgets is gone: an id it checks has been in the window. */
  lemma CheckAhead(s: State, id: nat)
    requires Ahead(s) && id in s.toCheck
    ensures Ahead(AfterCheck(s, id))
  {
  }

  /** The steps of the other threads. */
  predicate Elsewhere(a: Action) {
    !a.WriteBuffer? && !a.Play? && !a.Check? && !a.FilterSchedule? && !a.Report? && !a.ResetBuffer? && !a.ResetSchedule?
  }

  lemma ElsewhereFrame(s: State, a: Action)
    requires Valid(s.buffer) && Elsewhere(a)
    ensures var s' := Do(s, a);
            && s'.buffer == s.buffer && s'.high == s.high && s'.schedule == s.schedule && Pending(s') == Pending(s)
            && s'.toForget == s.toForget && s'.toCheck == s.toCheck
  {
    if Enabled(s, a) && a.Register? {
      assert Do(s, a) == AfterRegister(s);
    }
  }

  lemma DoAhead(s: State, a: Action)
    requires Ahead(s) && Forward(s, a)
    ensures Ahead(Do(s, a))
    ensures forall id :: Gone(s, id) ==> Gone(Do(s, a), id)
  {
    if !Enabled(s, a) {
    } else if Elsewhere(a) {
      ElsewhereFrame(s, a);
    } else if a.WriteBuffer? {
      WriteAhead(s);
    } else if a.Play? {
      PlayAhead(s);
    } else if a.Check? {
      CheckAhead(s, a.id);
    }
  }

  /** Ahead, no step of a forward stretch is unclean. */
  lemma ForwardIsClean(s: State, a: Action)
    requires Ahead(s) && Forward(s, a)
    ensures Clean(s, a)
  {
    BetweenEnds(s.buffer);
  }

  lemma {:induction false} AheadAndClean(s: State, actions: seq<Action>)
    requires Fresh(s) && AllForward(s, actions)
    ensures Ahead(RunFrom(s, actions)) && AlwaysClean(s, actions)
  {
    if actions != [] {
      var before := RunFrom(s, actions[..|actions| - 1]);
      AheadAndClean(s, actions[..|actions| - 1]);
      DoAhead(before, actions[|actions| - 1]);
      ForwardIsClean(before, actions[|actions| - 1]);
    }
  }

  /** Retransmission coverage: in any stretch from fresh components, without resets and with the window
      never moving back, every hole is in the schedule or about to be appended to it, at every
      interleaving; and the ids to forget have left the window behind its front. */
  lemma EveryHoleIsCovered(s: State, actions: seq<Action>)
    requires Fresh(s) && AllForward(s, actions)
    ensures AlwaysCovered(s, actions)
    ensures forall id :: id in RunFrom(s, actions).toForget ==> Gone(RunFrom(s, actions), id)
  {
    AheadAndClean(s, actions);
    CoveredExactlyIfClean(s, actions);
  }

  /** An id to forget never becomes a slot of the window again, in any continuation of the stretch. */
  lemma {:induction false} ForgottenForGood(s: State, actions: seq<Action>, id: nat)
    requires Ahead(s) && Gone(s, id) && AllForward(s, actions)
    ensures Ahead(RunFrom(s, actions)) && Gone(RunFrom(s, actions), id) && id !in RunFrom(s, actions).buffer.ids
  {
    if actions != [] {
      ForgottenForGood(s, actions[..|actions| - 1], id);
      DoAhead(RunFrom(s, actions[..|actions| - 1]), actions[|actions| - 1]);
    }
    BetweenEnds(RunFrom(s, actions).buffer);
  }
}
