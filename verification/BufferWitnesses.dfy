/** Runs that show where the conditions of the buffer's promises matter. */
module BufferWitnesses {
  import opened Types
  import opened Progressions
  import opened BufferWindows
  import opened BufferRuns
  import opened BufferTheorems
  import O = PlaybackOrder

  /** The first packet of a run, on the grid and short of the threshold or not. */
  lemma FirstWrite(maxSize: nat, msg: Message)
    requires msg.data != [] && Aligned(msg.id, |msg.data|)
    ensures var w := Run(maxSize, [WriteOp(msg)]).w;
            w == Open(Initial(maxSize), msg).(ids := [msg.id], vals := [Some(msg.data)])
  {
    var started := Open(Initial(maxSize), msg);
    assert Run(maxSize, []) == Start(maxSize);
    assert [] + [WriteOp(msg)] == [WriteOp(msg)];
    assert Store(started, msg) == started.(ids := [msg.id], vals := [Some(msg.data)]);
    assert Write(Initial(maxSize), msg).0 == Store(started, msg).(lastId := msg.id);
  }

  /** The next packet in order, in a run that holds something. */
  lemma NextWrite(maxSize: nat, ops: seq<Op>, msg: Message, w: Window, v: Window)
    requires w == Run(maxSize, ops).w && w.ids != [] && msg.id == w.Back() + w.packageSize
    requires v == Open(w, msg)
    ensures Run(maxSize, ops + [WriteOp(msg)]).w == PushSlot(v, msg.id, Some(msg.data)).(lastId := msg.id)
  {
    WriteNext(w, msg, v);
  }

  lemma WriteNext(w: Window, msg: Message, v: Window)
    requires Valid(w) && w.ids != [] && msg.id == w.Back() + w.packageSize && v == Open(w, msg)
    ensures Write(w, msg).0 == PushSlot(v, msg.id, Some(msg.data)).(lastId := msg.id)
  {
    BackAligned(w.ids, w.packageSize);
    NthAligned(w.Back(), w.packageSize, 1);
    assert PushHoles(v, msg.id) == v;
  }

  // ---------- The first packet lost ----------

  /** A packet of four bytes, with a buffer of eight. */
  function Quad(id: nat): Message {
    Message(id, [0, 0, 0, 0])
  }

  lemma TwoQuads()
    ensures var w := Run(8, [WriteOp(Quad(0))] + [WriteOp(Quad(4))]).w;
            && w.state == Waiting && w.maxElements == 2 && w.packageSize == 4 && w.byteZero == 0
            && w.ids == [0, 4] && Threshold(w) == 6
  {
    var w := Run(8, [WriteOp(Quad(0))]).w;
    FirstWrite(8, Quad(0));
    assert w == Window(8, 2, Waiting, 0, 0, 4, [0], [Some([0, 0, 0, 0])]);
    assert Open(w, Quad(4)) == w;
    NextWrite(8, [WriteOp(Quad(0))], Quad(4), w, w);
    assert [0] + [4] == [0, 4];
  }

  /** Three packets in order, none lost on the way: the third makes the buffer readable and evicts the
      first, which will never be played. */
  lemma FirstPacketLost()
    ensures var t := Run(8, [WriteOp(Quad(0))] + [WriteOp(Quad(4))] + [WriteOp(Quad(8))]);
            t.w.state == Readable && t.popped == [Evicted(0)]
  {
    TwoQuads();
    FirstPlayedInRuns(8, [WriteOp(Quad(0))] + [WriteOp(Quad(4))], Quad(8));
  }

  // ---------- A packet skipped ----------

  function Single(id: nat): Message {
    Message(id, [0])
  }

  /** The next packet in order. */
  lemma PushSingle(t: Trace, id: nat, w: Window)
    requires Inv(t) && t.w.ids != [] && t.w.packageSize == 1 && id == t.w.Back() + 1
    requires w == Open(t.w, Single(id))
    ensures var t' := Step(t, WriteOp(Single(id)));
            && Inv(t') && t'.w == PushSlot(w, id, Some([0])).(lastId := id) && t'.played == t.played
            && t'.popped == if |t.w.ids| == t.w.maxElements then t.popped + [Evicted(t.w.Front())] else t.popped
  {
    StepKeeps(t, WriteOp(Single(id)));
    WriteNext(t.w, Single(id), w);
    InOrderWrite(t, Single(id));
  }

  lemma ReadFront(t: Trace, data: Payload)
    requires Inv(t) && t.w.state == Readable && t.w.ids != [] && t.w.vals[0] == Some(data)
    ensures var t' := Step(t, ReadOp);
            && Inv(t') && t'.w == t.w.(ids := t.w.ids[1..], vals := t.w.vals[1..])
            && t'.popped == t.popped + [Played(t.w.Front(), data)] && t'.played == t.played + [t.w.Front()]
  {
    StepKeeps(t, ReadOp);
  }

  lemma FirstSingle()
    ensures var t := Run(2, [WriteOp(Single(0))]);
            && Inv(t) && t.w == Window(2, 2, Waiting, 0, 0, 1, [0], [Some([0])])
            && t.popped == [] && t.played == []
  {
    RunKeeps(2, [WriteOp(Single(0))]);
    FirstWrite(2, Single(0));
    assert [WriteOp(Single(0))][..0] == [] && Run(2, []) == Start(2);
    WritePlaysNothing(Start(2), Single(0));
  }

  /** The second packet makes the buffer readable, and the first is read. */
  lemma SecondSingle(t: Trace)
    requires Inv(t) && t.w == Window(2, 2, Waiting, 0, 0, 1, [0], [Some([0])]) && t.popped == [] && t.played == []
    ensures var t' := Step(Step(t, WriteOp(Single(1))), ReadOp);
            && Inv(t') && t'.w == Window(2, 2, Readable, 1, 0, 1, [1], [Some([0])])
            && t'.popped == [Played(0, [0])] && t'.played == [0]
  {
    PushSingle(t, 1, t.w.(state := Readable));
    var t1 := Step(t, WriteOp(Single(1)));
    assert t1.w == Window(2, 2, Readable, 1, 0, 1, [0, 1], [Some([0]), Some([0])]);
    ReadFront(t1, [0]);
  }

  lemma ThirdSingle(t: Trace)
    requires Inv(t) && t.w == Window(2, 2, Readable, 1, 0, 1, [1], [Some([0])])
    ensures var t' := Step(t, WriteOp(Single(2)));
            && Inv(t') && t'.w == Window(2, 2, Readable, 2, 0, 1, [1, 2], [Some([0]), Some([0])])
            && t'.popped == t.popped && t'.played == t.played
  {
    PushSingle(t, 2, t.w);
    assert [1] + [2] == [1, 2];
  }

  /** The fourth packet is one too many; the front that is read is no longer packet 1. */
  lemma FourthSingle(t: Trace)
    requires Inv(t) && t.w == Window(2, 2, Readable, 2, 0, 1, [1, 2], [Some([0]), Some([0])])
    ensures var t' := Step(Step(t, WriteOp(Single(3))), ReadOp);
            t'.popped == t.popped + [Evicted(1)] + [Played(2, [0])] && t'.played == t.played + [2]
  {
    PushSingle(t, 3, t.w);
    var t1 := Step(t, WriteOp(Single(3)));
    assert t1.w.ids == [2, 3] && t1.w.vals == [Some([0]), Some([0])];
    ReadFront(t1, [0]);
  }

  lemma ReadAfterEviction()
    ensures !O.Unbroken([Played(0, [0])] + [Evicted(1)] + [Played(2, [0])])
  {
    var before := [Played(0, [0])] + [Evicted(1)];
    assert (before + [Played(2, [0])])[..2] == before && before[..1] == [Played(0, [0])];
    assert O.PlayedSince([Played(0, [0])]) != [];
    assert O.PlayedSince(before) == O.PlayedSince([Played(0, [0])]) + [];
  }

  const FIRST := [WriteOp(Single(0))]
  const PLAYING := FIRST + [WriteOp(Single(1))] + [ReadOp]
  const FULL := PLAYING + [WriteOp(Single(2))]

  /** Four packets in order, none lost on the way, of which the second is evicted between two reads. */
  lemma EvictionSkips()
    ensures var t := Run(2, FULL + [WriteOp(Single(3))] + [ReadOp]);
            t.played == [0] + [2] && !O.Unbroken(t.popped)
  {
    var t1 := Run(2, FIRST);
    FirstSingle();
    RunOneMore(2, FIRST, WriteOp(Single(1)));
    RunOneMore(2, FIRST + [WriteOp(Single(1))], ReadOp);
    SecondSingle(t1);
    var t2 := Run(2, PLAYING);
    RunOneMore(2, PLAYING, WriteOp(Single(2)));
    ThirdSingle(t2);
    RunOneMore(2, FULL, WriteOp(Single(3)));
    RunOneMore(2, FULL + [WriteOp(Single(3))], ReadOp);
    FourthSingle(Run(2, FULL));
    ReadAfterEviction();
  }

  // ---------- The buffer overfull ----------

  /** A packet of two bytes, with a buffer of one. */
  function Pair(id: nat): Message {
    Message(id, [0, 0])
  }

  /** A first packet larger than the buffer gives capacity 0; nothing is evicted, and two packets take
      four bytes in a buffer of one. */
  lemma BufferOverfull()
    ensures var w := Run(1, [WriteOp(Pair(0))] + [WriteOp(Pair(2))]).w;
            w.maxSize == 1 && w.maxElements == 0 && w.ids == [0, 2] && |w.ids| * w.packageSize == 4
  {
    var w := Run(1, [WriteOp(Pair(0))]).w;
    FirstWrite(1, Pair(0));
    assert w == Window(1, 0, Readable, 0, 0, 2, [0], [Some([0, 0])]);
    assert Open(w, Pair(2)) == w;
    NextWrite(1, [WriteOp(Pair(0))], Pair(2), w, w);
    assert [0] + [2] == [0, 2];
  }

  // ---------- The subscript of the scan ----------

  /** Packets 4 and 8 of two bytes come, packet 6 is missed. It is to be reported; but the source reads the
      deque at subscript 6, which is past its end (src/receiver/buffer.hpp:111). */
  lemma SubscriptPastEnd()
    ensures var (v, r) := Write(Run(6, [WriteOp(Pair(4))]).w, Pair(8));
            v.ids == [4, 6, 8] && r == Ok({6}) && 6 >= |v.vals|
  {
    var w := Run(6, [WriteOp(Pair(4))]).w;
    assert Aligned(4, 2) && Aligned(8, 2) by { assert Aligned(0, 2) && Aligned(2, 2) && Aligned(6, 2); }
    FirstWrite(6, Pair(4));
    assert w == Window(6, 3, Waiting, 4, 4, 2, [4], [Some([0, 0])]);
    var w1 := w.(state := Readable);
    assert Open(w, Pair(8)) == w1;
    GapOfOne(w1);
  }

  lemma GapOfOne(w: Window)
    requires w == Window(6, 3, Readable, 4, 4, 2, [4], [Some([0, 0])])
    ensures var v := Store(w, Pair(8));
            v.ids == [4, 6, 8] && v.vals == [Some([0, 0]), None, Some([0, 0])] && Missed(v, 4, 8) == {6}
  {
    var hole := PushSlot(w, 6, None);
    assert hole.ids == [4, 6] && hole.vals == [Some([0, 0]), None];
    assert PushHoles(hole, 8) == hole && PushHoles(w, 8) == hole;
    var v := Store(w, Pair(8));
    assert v.ids == [4, 6, 8] && v.vals == [Some([0, 0]), None, Some([0, 0])];
    assert v.ids[1] == 6 && v.vals[1].None?;
  }
}
