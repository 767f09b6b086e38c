/** Which sessions the packets in the buffer belong to, under every interleaving. */
module SessionPurity {
  import opened Types
  import opened BufferWindows
  import opened Contents
  import opened Receivers

  /** The datagrams written since the last buffer reset. */
  function Current(s: State): seq<Datagram>
    requires s.since <= |s.written|
  {
    s.written[s.since..]
  }

  function Max(registered: seq<nat>): nat {
    if registered == [] then 0
    else
      var rest, last := Max(registered[..|registered| - 1]), registered[|registered| - 1];
      if last > rest then last else rest
  }

  ghost predicate FromDatagrams(ps: set<Message>, ds: seq<Datagram>) {
    forall p :: p in ps ==> exists d :: d in ds && d.msg == p
  }

  ghost predicate AllOf(ds: seq<Datagram>, session: nat) {
    forall d :: d in ds ==> d.session == session
  }

  ghost predicate NonDecreasing(ds: seq<Datagram>) {
    forall i, j :: 0 <= i < j < |ds| ==> ds[i].session <= ds[j].session
  }

  /** The sessions: the current one is the largest registered, and no written one exceeds it. */
  ghost predicate Sessions(s: State) {
    && s.sessionId == Max(s.registered)
    && NonDecreasing(s.written)
    && (forall d :: d in s.written ==> d.session <= s.sessionId)
    && (s.data.Accepted? ==> s.data.d.session == s.sessionId)
  }

  function Played(s: State): set<Message> {
    set p | p in s.played
  }

  predicate ResetPending(s: State) {
    s.dirty || s.resetter.ResettingBuffer?
  }

  ghost predicate Inv(s: State) {
    && Valid(s.buffer) && s.since <= |s.written|
    && Sessions(s)
    && (AllOf(Current(s), s.sessionId) || ResetPending(s))
    && FromDatagrams(Packets(s.buffer), Current(s))
    && FromDatagrams(Played(s), s.written)
  }

  lemma RegisterKeeps(s: State)
    requires Inv(s) && s.data.Received?
    ensures Inv(AfterRegister(s))
  {
    RegisterFrame(s);
  }

  lemma RegisterFrame(s: State)
    requires s.data.Received?
    ensures var s', session := AfterRegister(s), s.data.d.session;
            && s'.buffer == s.buffer && s'.since == s.since && s'.written == s.written && s'.played == s.played
            && s'.registered == s.registered + [session]
            && s'.sessionId == (if session > s.sessionId then session else s.sessionId)
            && (s'.data.Accepted? ==> s'.data.d.session == s'.sessionId)
            && (s'.dirty <==> s.dirty || session > s.sessionId)
            && s'.resetter == s.resetter
  {
  }

  lemma WrittenSessions(s: State)
    requires s.since <= |s.written| && Sessions(s) && s.data.Accepted?
    ensures var written := s.written + [s.data.d];
            && NonDecreasing(written)
            && (forall d :: d in written ==> d.session <= s.sessionId)
            && (AllOf(Current(s), s.sessionId) ==> AllOf(written[s.since..], s.sessionId))
            && written[s.since..] == Current(s) + [s.data.d]
  {
  }

  lemma WrittenPackets(s: State)
    requires Inv(s) && Enabled(s, WriteBuffer)
    ensures var w := Write(s.buffer, s.data.d.msg).0;
            Valid(w) && FromDatagrams(Packets(w), Current(s) + [s.data.d])
  {
    WriteValid(s.buffer, s.data.d.msg);
    WriteContents(s.buffer, s.data.d.msg);
  }

  lemma WriteKeeps(s: State)
    requires Inv(s) && Enabled(s, WriteBuffer)
    ensures Inv(AfterWrite(s))
  {
    WrittenSessions(s);
    WrittenPackets(s);
    assert Played(s) <= Played(s) + {s.data.d.msg};
    AfterWriteFrame(s);
  }

  lemma AfterWriteFrame(s: State)
    requires Valid(s.buffer) && Enabled(s, WriteBuffer)
    ensures var s' := AfterWrite(s);
            && s'.buffer == Write(s.buffer, s.data.d.msg).0 && s'.written == s.written + [s.data.d]
            && s'.since == s.since && s'.played == s.played && !s'.data.Accepted?
            && s'.sessionId == s.sessionId && s'.registered == s.registered
            && s'.dirty == s.dirty && s'.resetter == s.resetter
  {
  }

  lemma PlayKeeps(s: State)
    requires Inv(s)
    ensures Inv(AfterPlay(s))
  {
    var s' := AfterPlay(s);
    ReadValid(s.buffer);
    ReadContents(s.buffer);
    forall p | p in Played(s') ensures exists d :: d in s'.written && d.msg == p {
      if p in s.played {
        assert p in Played(s);
      } else {
        var d :| d in Current(s) && d.msg == p;
      }
    }
  }

  /** A step that touches none of this, and loses no pending reset. */
  lemma OtherKeeps(s: State, s': State)
    requires Inv(s)
    requires s'.buffer == s.buffer && s'.since == s.since && s'.written == s.written && s'.played == s.played
    requires s'.sessionId == s.sessionId && s'.registered == s.registered
    requires s'.data.Accepted? ==> s'.data == s.data
    requires ResetPending(s) ==> ResetPending(s')
    ensures Inv(s')
  {
  }

  lemma DoKeeps(s: State, a: Action)
    requires Inv(s)
    ensures Inv(Do(s, a))
  {
    if !Enabled(s, a) {
    } else if a.Register? {
      RegisterKeeps(s);
    } else if a.WriteBuffer? {
      WriteKeeps(s);
    } else if a.Play? {
      PlayKeeps(s);
    } else if a.ResetBuffer? {
      assert Packets(Do(s, a).buffer) == {} && Current(Do(s, a)) == [];
    } else {
      OtherKeeps(s, Do(s, a));
    }
  }

  lemma {:induction false} RunKeeps(maxSize: nat, rtime: nat, actions: seq<Action>)
    ensures Inv(Run(maxSize, rtime, actions))
  {
    if actions != [] {
      RunKeeps(maxSize, rtime, actions[..|actions| - 1]);
      DoKeeps(Run(maxSize, rtime, actions[..|actions| - 1]), actions[|actions| - 1]);
    }
  }

  /** Whenever the dirty flag is clear and no buffer reset is pending, every packet in the buffer came
      in a datagram of the current session; over the whole run the sessions written never decrease,
      and the current session is the largest registered. */
  lemma BufferIsPure(maxSize: nat, rtime: nat, actions: seq<Action>)
    ensures var s := Run(maxSize, rtime, actions);
            && s.since <= |s.written|
            && (!s.dirty && !s.resetter.ResettingBuffer? ==>
                  forall p :: p in Packets(s.buffer)
                              ==> exists d :: d in Current(s) && d.msg == p && d.session == s.sessionId)
            && NonDecreasing(s.written)
            && s.sessionId == Max(s.registered)
  {
    RunKeeps(maxSize, rtime, actions);
  }

  /** A datagram is written under the largest session registered so far, which is its own. */
  lemma WrittenUnderMaximum(maxSize: nat, rtime: nat, actions: seq<Action>)
    requires Run(maxSize, rtime, actions).data.Accepted?
    ensures var s := Run(maxSize, rtime, actions); s.data.d.session == Max(s.registered)
  {
    RunKeeps(maxSize, rtime, actions);
  }
}
