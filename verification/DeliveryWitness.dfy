/** A run of the whole system in which audio goes from a sender's input to the receiver's output. */
module DeliveryWitness {
  import opened Types
  import opened InputPackets
  import opened EndToEnd
  import C = CoverageLost
  import R = Receivers
  import W = BufferWindows

  const SOURCE := Source([7], 1)
  const SOURCES := map[1 := SOURCE]
  const FIRST := Message(0, [7])
  const SENT := Datagram(1, FIRST)

  lemma OneMore(actions: seq<Action>, a: Action)
    ensures Run(SOURCES, 1, 1, actions + [a]) == Do(Run(SOURCES, 1, 1, actions), a)
  {
    assert (actions + [a])[..|actions|] == actions;
  }

  // ---------- The sender ----------

  lemma FirstPacket()
    ensures var packets := PacketsOf(SOURCE);
            packets != [] && packets[0] == FIRST
  {
    PacketsMeanInput([7], 1, 0);
  }

  const SENDING := [SenderDoes(1, ReadPacket)] + [SenderDoes(1, SendPacket)]

  lemma AfterSending()
    ensures var s := Run(SOURCES, 1, 1, SENDING);
            SENT in s.wire && s.receiver == R.Start(1, 1)
  {
    FirstPacket();
    var start := Run(SOURCES, 1, 1, []);
    OneMore([], SenderDoes(1, ReadPacket));
    assert [] + [SenderDoes(1, ReadPacket)] == [SenderDoes(1, ReadPacket)];
    var s := Run(SOURCES, 1, 1, [SenderDoes(1, ReadPacket)]);
    assert s.senders[1].sendQ == [FIRST] && s.receiver == R.Start(1, 1);
    OneMore([SenderDoes(1, ReadPacket)], SenderDoes(1, SendPacket));
    assert SENT in OnWire(1, [FIRST]);
  }

  // ---------- The receiver ----------

  function ByReceiver(steps: seq<R.Action>): (r: seq<Action>)
    ensures |r| == |steps|
  {
    if steps == [] then [] else ByReceiver(steps[..|steps| - 1]) + [ReceiverDoes(steps[|steps| - 1])]
  }

  /** The receiver takes its steps, if what it receives is on the wire. */
  lemma {:induction false} ReceiverTakes(actions: seq<Action>, steps: seq<R.Action>)
    requires forall d :: R.Receive(d) in steps ==> d in Run(SOURCES, 1, 1, actions).wire
    ensures var s, s' := Run(SOURCES, 1, 1, actions), Run(SOURCES, 1, 1, actions + ByReceiver(steps));
            s'.wire == s.wire && s'.receiver == R.RunFrom(s.receiver, steps)
  {
    if steps == [] {
      assert actions + ByReceiver(steps) == actions;
    } else {
      var before, a := steps[..|steps| - 1], steps[|steps| - 1];
      ReceiverTakes(actions, before);
      OneMore(actions + ByReceiver(before), ReceiverDoes(a));
      assert actions + ByReceiver(before) + [ReceiverDoes(a)] == actions + ByReceiver(steps);
      if a.Receive? { assert R.Receive(a.d) in steps; }
    }
  }

  const NOTICE := [R.Receive(SENT), R.Register]
  const RESET := [R.CheckDirty, R.ResetBuffer, R.ResetSchedule]
  const TAKE := [R.Receive(SENT), R.Register, R.WriteBuffer]
  const STEPS := NOTICE + RESET + TAKE + [R.Play]

  /** The first datagram shows that there is a new session, and is dropped. */
  lemma AfterNotice(s: R.State)
    requires s == R.Start(1, 1)
    ensures R.RunFrom(s, NOTICE) == s.(sessionId := 1, dirty := true, registered := [1])
  {
    C.RunTwo(s, R.Receive(SENT), R.Register);
    assert s.registered + [1] == [1];
  }

  lemma AfterReset(s: R.State)
    requires W.Valid(s.buffer) && s.dirty && s.resetter == R.Watching
    ensures R.RunFrom(s, RESET)
         == s.(dirty := false, buffer := W.Reset(s.buffer), schedule := map[], since := |s.written|, high := -1)
  {
    C.RunThree(s, R.CheckDirty, R.ResetBuffer, R.ResetSchedule);
  }

  lemma WriteFirst(w: W.Window)
    requires w == W.Initial(1)
    ensures W.Write(w, FIRST) == (W.Window(1, 1, W.Readable, 0, 0, 1, [0], [Some([7])]), Ok({}))
  {
    var started := W.Open(w, FIRST);
    assert started == W.Window(1, 1, W.Readable, 0, 0, 1, [], []);
    var stored := W.Store(started, FIRST);
    assert stored == started.(ids := [0], vals := [Some([7])]);
    assert W.Missed(stored, 0, 0) == {};
  }

  /** A copy of it is taken; one packet fills a buffer of one byte, which can be read at once. */
  lemma AfterTake(s: R.State)
    requires s.buffer == W.Initial(1) && s.data.Listening? && s.sessionId == 1
    ensures var s' := R.RunFrom(s, TAKE);
            && s'.buffer == W.Window(1, 1, W.Readable, 0, 0, 1, [0], [Some([7])])
            && s'.readFailed == s.readFailed && s'.played == s.played
  {
    C.RunThree(s, R.Receive(SENT), R.Register, R.WriteBuffer);
    WriteFirst(s.buffer);
  }

  lemma AfterPlay(s: R.State)
    requires W.Valid(s.buffer) && s.buffer == W.Window(1, 1, W.Readable, 0, 0, 1, [0], [Some([7])]) && !s.readFailed
    ensures R.RunFrom(s, [R.Play]).played == s.played + [FIRST]
  {
    assert R.RunFrom(s, []) == s && [R.Play][..0] == [];
  }

  lemma StepsPlay()
    ensures R.RunFrom(R.Start(1, 1), STEPS).played == [FIRST]
  {
    var s := R.Start(1, 1);
    AfterNotice(s);
    var s1 := R.RunFrom(s, NOTICE);
    R.RunAppend(s, NOTICE, RESET);
    AfterReset(s1);
    var s2 := R.RunFrom(s1, RESET);
    R.RunAppend(s, NOTICE + RESET, TAKE);
    AfterTake(s2);
    R.RunAppend(s, NOTICE + RESET + TAKE, [R.Play]);
    AfterPlay(R.RunFrom(s2, TAKE));
  }

  /** The sender reads its one byte and sends it; the receiver learns of the session from a first copy, resets, takes a
      second copy, and plays it. */
  lemma AudioArrives()
    ensures Run(SOURCES, 1, 1, SENDING + ByReceiver(STEPS)).receiver.played == [FIRST]
  {
    AfterSending();
    forall d | R.Receive(d) in STEPS ensures d == SENT { }
    ReceiverTakes(SENDING, STEPS);
    StepsPlay();
  }
}
