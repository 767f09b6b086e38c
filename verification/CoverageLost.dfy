/** Runs with a reset that leave a hole neither scheduled nor about to be, and when such a hole is reported
    again. */
module CoverageLost {
  import opened Types
  import opened Progressions
  import opened BufferWindows
  import opened Rexmit
  import opened Receivers
  import opened Coverage
  import BufferBounds
  import Contents

  const ZERO := Message(0, [0])
  const TWO := Message(2, [0])
  const ONE := Window(8, 8, Waiting, 0, 0, 1, [0], [Some([0])])
  const THREE := Window(8, 8, Waiting, 2, 0, 1, [0, 1, 2], [Some([0]), None, Some([0])])

  lemma WriteZero()
    ensures Write(BufferWindows.Initial(8), ZERO) == (ONE, Ok({}))
  {
    var w := Store(Open(BufferWindows.Initial(8), ZERO), ZERO);
    assert w == ONE;
    assert Missed(w, 0, 0) == {};
  }

  lemma WriteTwo()
    ensures Valid(ONE) && Write(ONE, TWO) == (THREE, Ok({1}))
  {
    assert Progression(0, 1, 1) == [0];
    assert Aligned(2, 1) by { assert Aligned(1, 1); }
    assert PushSlot(ONE, 1, None) == ONE.(ids := [0, 1], vals := [Some([0]), None]);
    assert PushHoles(ONE, 2) == PushSlot(ONE, 1, None);
    var w := Store(ONE, TWO);
    assert w == THREE.(lastId := 0);
    assert Missed(w, 0, 2) == {1} by {
      assert w.ids[1] == 1 && w.vals[1].None?;
    }
  }

  const RESTART := [ChangeStation, CheckDirty, ResetBuffer]

  /** The three steps of the data receiver that take a datagram of the first session. */
  function Take(msg: Message): seq<Action> {
    [Receive(Datagram(0, msg)), Register, WriteBuffer]
  }

  const FINISH := [Report(0), ResetSchedule]

  lemma RunThree(s: State, a: Action, b: Action, c: Action)
    requires Valid(s.buffer)
    ensures Valid(Do(s, a).buffer) && Valid(Do(Do(s, a), b).buffer)
    ensures RunFrom(s, [a, b, c]) == Do(Do(Do(s, a), b), c)
  {
    DoValid(s, a);
    DoValid(Do(s, a), b);
    RunAppend(s, [a], [b]);
    RunAppend(s, [a] + [b], [c]);
    assert [a] + [b] + [c] == [a, b, c];
  }

  function Cleared(s: State): State {
    s.(buffer := Reset(s.buffer), resetter := ResettingSchedule, since := |s.written|, high := -1)
  }

  lemma RestartSteps(s: State, s1: State, s2: State)
    requires Valid(s.buffer) && s.resetter.Watching?
    requires s1 == s.(dirty := true) && s2 == s1.(dirty := false, resetter := ResettingBuffer)
    ensures RunFrom(s, RESTART) == Cleared(s2)
  {
    RunThree(s, ChangeStation, CheckDirty, ResetBuffer);
    assert Do(s, ChangeStation) == s1;
  }

  lemma AfterRestart()
    ensures var s := Run(8, 1, RESTART);
            && s.buffer == BufferWindows.Initial(8) && s.data == Listening && s.sessionId == 0
            && s.schedule == map[] && s.resetter == ResettingSchedule
  {
    var s := Start(8, 1);
    var s1 := s.(dirty := true);
    RestartSteps(s, s1, s1.(dirty := false, resetter := ResettingBuffer));
  }

  lemma AfterTake(s: State, msg: Message)
    requires Valid(s.buffer) && s.data.Listening? && s.sessionId == 0 && msg.data != []
    ensures var s' := RunFrom(s, Take(msg));
            && s'.buffer == Write(s.buffer, msg).0 && s'.schedule == s.schedule && s'.resetter == s.resetter
            && s'.sessionId == 0 && s'.rtime == s.rtime && s'.toForget == s.toForget && s'.toCheck == s.toCheck
            && (Write(s.buffer, msg).1.Ok? ==>
                  s'.data == if Write(s.buffer, msg).1.value == {} then Listening
                             else Reporting(Write(s.buffer, msg).1.value))
  {
    RunThree(s, Receive(Datagram(0, msg)), Register, WriteBuffer);
  }

  lemma AfterFinish(s: State)
    requires Valid(s.buffer) && s.data.Reporting? && s.resetter == ResettingSchedule
    ensures var s' := RunFrom(s, FINISH);
            && s'.buffer == s.buffer && s'.schedule == map[] && Pending(s') == {}
            && s'.data == Listening && s'.sessionId == s.sessionId
  {
    RunAppend(s, [Report(0)], [ResetSchedule]);
    assert [Report(0)] + [ResetSchedule] == FINISH;
  }

  const UNCOVER := RESTART + Take(ZERO) + Take(TWO) + FINISH

  lemma AfterUncover()
    ensures var s := Run(8, 1, UNCOVER);
            && s.buffer == THREE && s.schedule == map[] && s.data == Listening && s.sessionId == 0
  {
    var start := Start(8, 1);
    var s1 := RunFrom(start, RESTART);
    AfterRestart();
    RunAppend(start, RESTART, Take(ZERO));
    var s2 := RunFrom(s1, Take(ZERO));
    AfterTake(s1, ZERO);
    WriteZero();
    RunAppend(start, RESTART + Take(ZERO), Take(TWO));
    var s3 := RunFrom(s2, Take(TWO));
    AfterTake(s2, TWO);
    WriteTwo();
    RunAppend(start, RESTART + Take(ZERO) + Take(TWO), FINISH);
    AfterFinish(s3);
  }

  /** The resetter clears the buffer; the data receiver fills it again, leaves a hole and appends its
      id; then the resetter clears the schedule. Nothing asks for the hole until it is reported again. */
  lemma ResetUncoversHole()
    ensures !Covered(Run(8, 1, UNCOVER))
  {
    AfterUncover();
    HoleAtOne();
  }

  lemma HoleAtOne()
    ensures 1 in Holes(THREE)
  {
    assert THREE.ids[1] == 1 && THREE.vals[1].None?;
  }

  // ---------- Exactly when such a hole comes back ----------

  /** A write reports a hole that was there before exactly if it lies between the last packet and this one. The
      last id may have been moved back by an older packet (src/receiver/buffer.hpp:115). */
  lemma HoleIsReportedAgain(w: Window, msg: Message, h: nat)
    requires Valid(w) && h in Holes(w) && Write(w, msg).1.Ok?
    ensures var (v, r) := Write(w, msg);
            |v.vals| == |v.ids| && (h in r.value <==> h in Holes(v) && w.lastId < h < msg.id)
  {
    BufferBounds.MissedIsExact(w, msg, h);
    var v := Write(w, msg).0;
    assert h in Holes(v) <==> BufferBounds.HoleAt(v, h);
  }

  predicate HoleCovered(s: State, h: nat) {
    h in s.schedule || h in Pending(s)
  }

  /** The data receiver is about to write a packet on the grid past the hole, after one before it. */
  predicate Reports(s: State, a: Action, h: nat)
    requires Valid(s.buffer)
  {
    && Enabled(s, a) && a.WriteBuffer? && Write(s.buffer, s.data.d.msg).1.Ok?
    && s.buffer.lastId < h < s.data.d.msg.id
  }

  lemma WriteUncovered(s: State, h: nat)
    requires Valid(s.buffer) && Enabled(s, WriteBuffer) && h in Holes(s.buffer) && !HoleCovered(s, h)
    requires Valid(AfterWrite(s).buffer) && h in Holes(AfterWrite(s).buffer)
    ensures HoleCovered(AfterWrite(s), h) <==> Reports(s, WriteBuffer, h)
  {
    AfterWriteMeans(s);
    if Write(s.buffer, s.data.d.msg).1.Ok? { HoleIsReportedAgain(s.buffer, s.data.d.msg, h); }
  }

  /** No other step brings in a new id. */
  lemma OtherUncovered(s: State, a: Action, h: nat)
    requires Valid(s.buffer) && !HoleCovered(s, h) && Enabled(s, a) && !a.WriteBuffer?
    ensures !HoleCovered(Do(s, a), h)
  {
    if Elsewhere(a) {
      ElsewhereFrame(s, a);
    } else if a.Play? {
      assert AfterPlay(s).schedule == s.schedule && AfterPlay(s).data == s.data;
    }
  }

  /** A hole that is neither scheduled nor about to be, and that stays, is covered by exactly such a step. */
  lemma UncoveredStep(s: State, a: Action, h: nat)
    requires Valid(s.buffer) && h in Holes(s.buffer) && !HoleCovered(s, h)
    requires Valid(Do(s, a).buffer) && h in Holes(Do(s, a).buffer)
    ensures HoleCovered(Do(s, a), h) <==> Reports(s, a, h)
  {
    if !Enabled(s, a) {
    } else if a.WriteBuffer? {
      WriteUncovered(s, h);
    } else {
      OtherUncovered(s, a, h);
    }
  }

  ghost predicate StaysHole(s: State, actions: seq<Action>, h: nat)
    requires Valid(s.buffer)
  {
    && h in Holes(RunFrom(s, actions).buffer)
    && (actions != [] ==> StaysHole(s, actions[..|actions| - 1], h))
  }

  ghost predicate NeverCovered(s: State, actions: seq<Action>, h: nat)
    requires Valid(s.buffer)
  {
    && !HoleCovered(RunFrom(s, actions), h)
    && (actions != [] ==> NeverCovered(s, actions[..|actions| - 1], h))
  }

  ghost predicate NeverReported(s: State, actions: seq<Action>, h: nat)
    requires Valid(s.buffer)
  {
    actions != [] ==>
      && NeverReported(s, actions[..|actions| - 1], h)
      && !Reports(RunFrom(s, actions[..|actions| - 1]), actions[|actions| - 1], h)
  }

  /** Over any continuation, under every interleaving, in which it stays a hole, an uncovered hole stays uncovered
      exactly as long as no packet past it is written after one before it. */
  lemma {:induction false} UncoveredUntilReported(s: State, actions: seq<Action>, h: nat)
    requires Valid(s.buffer) && !HoleCovered(s, h) && StaysHole(s, actions, h)
    ensures NeverCovered(s, actions, h) <==> NeverReported(s, actions, h)
  {
    if actions != [] {
      var rest, a := actions[..|actions| - 1], actions[|actions| - 1];
      UncoveredUntilReported(s, rest, h);
      if NeverCovered(s, rest, h) {
        UncoveredNow(s, rest, h);
        UncoveredStep(RunFrom(s, rest), a, h);
      }
    }
  }

  lemma UncoveredNow(s: State, actions: seq<Action>, h: nat)
    requires Valid(s.buffer) && StaysHole(s, actions, h) && NeverCovered(s, actions, h)
    ensures h in Holes(RunFrom(s, actions).buffer) && !HoleCovered(RunFrom(s, actions), h)
  {
  }

  const NEXT := Message(3, [0])
  const BACK := THREE.(lastId := 0)

  lemma WriteZeroAgain()
    ensures Valid(THREE) && Write(THREE, ZERO) == (BACK, Ok({}))
  {
    assert Progression(0, 1, 3) == [0, 1, 2] by { assert Progression(0, 1, 2) == [0, 1]; }
    assert Aligned(2, 1) by { assert Aligned(1, 1); }
    assert Store(THREE, ZERO) == THREE;
    assert Missed(THREE, 2, 0) == {};
  }

  lemma WriteNext()
    ensures Valid(BACK) && Write(BACK, NEXT).1 == Ok({1})
  {
    WriteZeroAgain();
    assert Aligned(3, 1) by { assert Aligned(1, 1) && Aligned(2, 1); }
    var w := Store(BACK, NEXT);
    assert PushHoles(BACK, 3) == BACK;
    assert w == BACK.(ids := [0, 1, 2, 3], vals := [Some([0]), None, Some([0]), Some([0])]);
    assert Missed(w, 0, 3) == {1} by { assert w.ids[1] == 1 && w.vals[1].None?; }
  }

  /** The run of ResetUncoversHole goes on with packet 0, once more, and packet 3; hole 1 is reported. */
  lemma LateCopyRecoversHole()
    ensures Run(8, 1, UNCOVER + Take(ZERO) + Take(NEXT)).data == Reporting({1})
  {
    var start := Start(8, 1);
    var s := RunFrom(start, UNCOVER);
    AfterUncover();
    RunAppend(start, UNCOVER, Take(ZERO));
    var s1 := RunFrom(s, Take(ZERO));
    WriteZeroAgain();
    AfterTake(s, ZERO);
    RunAppend(start, UNCOVER + Take(ZERO), Take(NEXT));
    WriteNext();
    AfterTake(s1, NEXT);
  }

  // ---------- The rexmit sender remembers an id across a reset ----------

  const REQUEST := [Report(0), FilterSchedule(1)]
  const FORGET := [Check(1), ResetSchedule]
  const AGAIN := [Report(2), FilterSchedule(2)]
  const FORGOTTEN := Take(ZERO) + Take(TWO) + REQUEST + RESTART + FORGET

  lemma RunTwo(s: State, a: Action, b: Action)
    requires Valid(s.buffer)
    ensures Valid(Do(s, a).buffer)
    ensures RunFrom(s, [a, b]) == Do(Do(s, a), b)
  {
    DoValid(s, a);
    RunAppend(s, [a], [b]);
    assert [a] + [b] == [a, b];
  }

  /** The hole is scheduled, and due; the rexmit sender takes its id. */
  lemma AfterRequest(s: State)
    requires Valid(s.buffer) && s.data == Reporting({1}) && s.schedule == map[] && s.rtime == 1
    requires s.toCheck == {} && s.toForget == {}
    ensures var s' := RunFrom(s, REQUEST);
            && s'.buffer == s.buffer && s'.data == Listening && s'.resetter == s.resetter
            && s'.sessionId == s.sessionId && s'.rtime == 1 && s'.toCheck == {1} && s'.toForget == {}
  {
    var s1 := s.(data := Listening, schedule := Append(map[], {1}, 1));
    RunTwo(s, Report(0), FilterSchedule(1));
  }

  /** The buffer has been cleared, and so the id is to be forgotten; then the schedule is cleared. */
  lemma AfterForget(s: State)
    requires Valid(s.buffer) && s.buffer.ids == [] && s.toCheck == {1} && s.toForget == {}
    requires s.resetter == ResettingSchedule
    ensures var s' := RunFrom(s, FORGET);
            && s'.buffer == s.buffer && s'.data == s.data && s'.sessionId == s.sessionId && s'.rtime == s.rtime
            && s'.schedule == map[] && s'.toCheck == {} && s'.toForget == {1}
  {
    RunTwo(s, Check(1), ResetSchedule);
    assert Do(s, Check(1)) == AfterCheck(s, 1);
    assert AfterCheck(s, 1) == s.(toCheck := {}, toForget := {1});
  }

  /** The same id, missed again, is scheduled and at once forgotten. */
  lemma AfterAgain(s: State)
    requires Valid(s.buffer) && s.data == Reporting({1}) && s.schedule == map[] && s.rtime == 1
    requires s.toCheck == {} && s.toForget == {1}
    ensures var s' := RunFrom(s, AGAIN);
            s'.buffer == s.buffer && s'.schedule == map[] && Pending(s') == {}
  {
    var s1 := s.(data := Listening, schedule := Append(map[], {1}, 3));
    RunTwo(s, Report(2), FilterSchedule(2));
    assert Forget(Append(map[], {1}, 3), {1}) == map[];
  }

  /** What the first part of the run leaves: the hole at 1 requested, and its id being checked. */
  lemma RequestedThenReset()
    ensures var s := Run(8, 1, FORGOTTEN);
            && s.buffer.maxSize == 8 && s.buffer.state == NoSession && s.buffer.ids == [] && s.buffer.vals == []
            && s.data == Listening && s.sessionId == 0 && s.rtime == 1
            && s.schedule == map[] && s.toCheck == {} && s.toForget == {1}
  {
    var start := Start(8, 1);
    var s1 := RunFrom(start, Take(ZERO));
    AfterTake(start, ZERO);
    WriteZero();
    RunAppend(start, Take(ZERO), Take(TWO));
    var s2 := RunFrom(s1, Take(TWO));
    AfterTake(s1, TWO);
    WriteTwo();
    RunAppend(start, Take(ZERO) + Take(TWO), REQUEST);
    var s3 := RunFrom(s2, REQUEST);
    AfterRequest(s2);
    RunAppend(start, Take(ZERO) + Take(TWO) + REQUEST, RESTART);
    var dirty := s3.(dirty := true);
    RestartSteps(s3, dirty, dirty.(dirty := false, resetter := ResettingBuffer));
    RunAppend(start, Take(ZERO) + Take(TWO) + REQUEST + RESTART, FORGET);
    AfterForget(RunFrom(s3, RESTART));
  }

  /** The same hole, in the next session. */
  lemma MissedAgain()
    ensures var s := Run(8, 1, FORGOTTEN + Take(ZERO) + Take(TWO));
            && s.buffer == THREE && s.data == Reporting({1}) && s.schedule == map[] && s.rtime == 1
            && s.toCheck == {} && s.toForget == {1}
  {
    var start := Start(8, 1);
    var s := RunFrom(start, FORGOTTEN);
    RequestedThenReset();
    RunAppend(start, FORGOTTEN, Take(ZERO));
    var s1 := RunFrom(s, Take(ZERO));
    AfterTake(s, ZERO);
    WriteZero();
    RunAppend(start, FORGOTTEN + Take(ZERO), Take(TWO));
    AfterTake(s1, TWO);
    WriteTwo();
  }

  /** A hole is requested; a reset clears the buffer while the rexmit sender checks its id, which it so keeps
      to be forgotten; the session starts over, and the same id is missed and scheduled; then it is
      forgotten. Nothing asks for it until it is reported again, although no thread stepped between the halves
      of the reset but the one that checked. */
  lemma StaleIdUncoversHole()
    ensures !Covered(Run(8, 1, FORGOTTEN + Take(ZERO) + Take(TWO) + AGAIN))
  {
    var start, before := Start(8, 1), FORGOTTEN + Take(ZERO) + Take(TWO);
    MissedAgain();
    RunAppend(start, before, AGAIN);
    AfterAgain(RunFrom(start, before));
    HoleAtOne();
  }
}
