/** The promises of the receiver's buffer, over every run. */
module BufferTheorems {
  import opened Types
  import opened Progressions
  import opened BufferWindows
  import opened BufferRuns

  // ---------- Conservation and order ----------

  /** Since the window was last empty, the ids popped by reads, the ids popped by eviction and the ids
      still in the window are, in that order and each exactly once, an arithmetic progression; what
      was played and what is in the slots is what was last stored under each id. */
  lemma ConservationAndOrder(maxSize: nat, ops: seq<Op>)
    ensures var t := Run(maxSize, ops);
            && (Line(t) != [] ==> Line(t) == Progression(Line(t)[0], t.w.packageSize, |Line(t)|))
            && (forall i, j :: 0 <= i < j < |Line(t)| ==> Line(t)[i] < Line(t)[j])
            && SlotsMatch(t.w, t.stored)
            && PlayedMatch(t.popped, t.stored)
  {
    var t := Run(maxSize, ops);
    RunKeeps(maxSize, ops);
    if Line(t) != [] {
      GridIncreasing(Line(t), t.w.packageSize);
    }
  }

  /** Every hole in the window was reported by a write since the last reset. */
  lemma NoGapIsSilent(maxSize: nat, ops: seq<Op>)
    ensures Holes(Run(maxSize, ops).w) <= Run(maxSize, ops).requested
  {
    RunKeeps(maxSize, ops);
  }

  // ---------- Pre-buffering ----------

  /** From its first packet on, if that is aligned, a waiting buffer starts at that packet, has popped
      nothing and ends short of the threshold, whatever the order of arrival. */
  ghost predicate Prebuffering(t: Trace)
    requires |t.w.vals| == |t.w.ids|
  {
    t.w.state == Waiting && t.w.packageSize > 0 && Aligned(t.w.byteZero, t.w.packageSize) ==>
      && t.w.ids != [] && t.w.Front() == t.w.byteZero && t.w.vals[0].Some?
      && t.popped == [] && t.w.Back() < Threshold(t.w)
  }

  /** Below the threshold there is room for one more slot. */
  lemma RoomBelow(w: Window)
    requires Bounded(w) && w.Front() == w.byteZero && w.Back() + w.packageSize < Threshold(w)
    ensures |w.ids| < w.maxElements
  {
    var n, c, p := |w.ids|, w.maxElements, w.packageSize;
    GridAt(w.ids, p, n - 1);
    NthIsProduct(w.Front(), p, n - 1);
    RoomBelowArithmetic(n, c, p);
  }

  lemma RoomBelowArithmetic(n: int, c: int, p: int)
    requires p > 0 && n > 0 && c >= 0 && (n - 1) * p + p < c * p * 3 / 4
    ensures n < c
  {
    assert (n - 1) * p + p == n * p;
    if c < n { MulGap(c, n, p); }
  }

  /** There are at least four slots, or packets of fewer bytes than the rounding needs to show. */
  predicate RoomForFirst(w: Window) {
    (4 - w.maxElements) * w.packageSize < 4
  }

  /** Three quarters of the slots, rounded in bytes, leave room for one more exactly if there are at
      least four slots, or the packets are too small for the rounding to show. */
  lemma RoomAt(w: Window)
    requires Bounded(w) && w.Front() == w.byteZero && w.Back() < Threshold(w) <= w.Back() + w.packageSize
    ensures |w.ids| < w.maxElements <==> RoomForFirst(w)
  {
    var n, c, p := |w.ids|, w.maxElements, w.packageSize;
    GridAt(w.ids, p, n - 1);
    NthIsProduct(w.Front(), p, n - 1);
    RoomArithmetic(n, c, p, c * p * 3 / 4);
  }

  lemma RoomArithmetic(n: int, c: int, p: int, t: int)
    requires p > 0 && t == c * p * 3 / 4 && (n - 1) * p < t <= (n - 1) * p + p
    ensures n < c <==> (4 - c) * p < 4
  {
    assert (4 - c) * p == 4 * p - c * p && (c - 1) * p == c * p - p;
    if n < c {
      if n - 1 < c - 2 { MulGap(n - 1, c - 2, p); }
      assert (c - 2) * p == c * p - 2 * p;
    } else if c - 1 < n - 1 {
      MulGap(c - 1, n - 1, p);
    }
  }

  lemma {:induction false} WaitingHoles(t: Trace, id: nat)
    requires Bounded(t.w) && t.w.Front() == t.w.byteZero && t.w.Back() < id < Threshold(t.w)
    requires Aligned(id, t.w.packageSize)
    ensures var t' := TraceHoles(t, id);
            && t'.popped == t.popped && |t'.w.ids| < t'.w.maxElements
            && t'.w.Front() == t.w.Front() && t'.w.vals[0] == t.w.vals[0]
    decreases id - t.w.Back()
  {
    var next := t.w.Back() + t.w.packageSize;
    BackAligned(t.w.ids, t.w.packageSize);
    AlignedBelow(t.w.Back(), id, t.w.packageSize);
    RoomBelow(t.w);
    if next < id {
      WaitingPush(t);
      WaitingHoles(TracePush(t, next, None), id);
      TraceHolesStep(t, id);
    }
  }

  /** A hole pushed where there is room. */
  lemma WaitingPush(t: Trace)
    requires Bounded(t.w) && |t.w.ids| < t.w.maxElements
    ensures var next := t.w.Back() + t.w.packageSize;
            var t1 := TracePush(t, next, None);
            && Bounded(t1.w) && t1.popped == t.popped && t1.w == t.w.(ids := t1.w.ids, vals := t1.w.vals)
            && t1.w.Front() == t.w.Front() && t1.w.vals[0] == t.w.vals[0] && t1.w.Back() == next
  {
    PushSlotGrid(t.w, None);
  }

  lemma WaitingStore(t: Trace, msg: Message)
    requires Inv(t) && Prebuffering(t) && t.w.state == Waiting && t.w.ids != []
    requires Aligned(t.w.byteZero, t.w.packageSize) && Aligned(msg.id, t.w.packageSize) && msg.id < Threshold(t.w)
    ensures Prebuffering(TraceStore(t, msg).(w := TraceStore(t, msg).w.(lastId := msg.id)))
  {
    if msg.id > t.w.Back() {
      WaitingHoles(t, msg.id);
      PushHolesGrid(t.w, msg.id);
    }
  }

  lemma WaitingWrite(t: Trace, msg: Message)
    requires Inv(t) && Prebuffering(t) && Enabled(t.w, WriteOp(msg))
    ensures Prebuffering(TraceWrite(t, msg))
  {
    var t1 := t.(w := Open(t.w, msg));
    OpenKeeps(t, msg);
    if Aligned(msg.id, t1.w.packageSize) {
      var t2 := TraceStore(t1, msg);
      StoreFrame(t1.w, msg);
      assert TraceWrite(t, msg).w == t2.w.(lastId := msg.id) && TraceWrite(t, msg).popped == t2.popped;
      if t1.w.state == Waiting && Aligned(t1.w.byteZero, t1.w.packageSize) {
        if t.w.state == Waiting {
          WaitingStore(t, msg);
        } else {
          assert t2.w.ids == [msg.id] && t2.w.vals == [Some(msg.data)] && t2.popped == [];
        }
      }
    }
  }

  /** While the buffer waits after an aligned first packet, no slot is evicted and the window starts
      at that packet, for every order of arrival. */
  lemma {:induction false} WaitingEvictsNothing(maxSize: nat, ops: seq<Op>)
    ensures Prebuffering(Run(maxSize, ops))
  {
    if ops != [] {
      var t, op := Run(maxSize, ops[..|ops| - 1]), ops[|ops| - 1];
      WaitingEvictsNothing(maxSize, ops[..|ops| - 1]);
      RunKeeps(maxSize, ops[..|ops| - 1]);
      if op.WriteOp? && Enabled(t.w, op) { WaitingWrite(t, op.msg); }
    }
  }

  /** The next packet in order that makes a waiting buffer readable evicts nothing exactly if there
      are at least four slots or the packets are tiny; then the first packet is the first played, and
      otherwise the first packet is lost to eviction. */
  lemma FirstPlayedIsFirstPacket(t: Trace, msg: Message)
    requires Inv(t) && Prebuffering(t) && t.w.state == Waiting && Aligned(t.w.byteZero, t.w.packageSize)
    requires msg.id == t.w.Back() + t.w.packageSize >= Threshold(t.w)
    ensures var t' := Step(t, WriteOp(msg));
            && t'.w.state == Readable
            && (t'.popped == [] <==> RoomForFirst(t.w))
            && (t'.popped == [] ==> Step(t', ReadOp).played == t.played + [t.w.byteZero])
            && (t'.popped != [] ==> t'.popped == [Evicted(t.w.byteZero)])
  {
    InOrderWrite(t, msg);
    AfterInOrder(t, Step(t, WriteOp(msg)), msg);
  }

  /** So it is in every run whose buffer waits after an aligned first packet. */
  lemma FirstPlayedInRuns(maxSize: nat, ops: seq<Op>, msg: Message)
    requires var w := Run(maxSize, ops).w;
             && w.state == Waiting && Aligned(w.byteZero, w.packageSize)
             && w.ids != [] && msg.id == w.Back() + w.packageSize >= Threshold(w)
    ensures var t, t' := Run(maxSize, ops), Run(maxSize, ops + [WriteOp(msg)]);
            && t'.w.state == Readable
            && (t'.popped == [] <==> RoomForFirst(t.w))
            && (t'.popped == [] ==> Run(maxSize, ops + [WriteOp(msg)] + [ReadOp]).played == t.played + [t.w.byteZero])
            && (t'.popped != [] ==> t'.popped == [Evicted(t.w.byteZero)])
  {
    RunKeeps(maxSize, ops);
    WaitingEvictsNothing(maxSize, ops);
    FirstPlayedNext(Run(maxSize, ops), Run(maxSize, ops + [WriteOp(msg)]),
                    Run(maxSize, ops + [WriteOp(msg)] + [ReadOp]), msg);
  }

  lemma FirstPlayedNext(t: Trace, t': Trace, t'': Trace, msg: Message)
    requires Inv(t) && Prebuffering(t) && t.w.state == Waiting && Aligned(t.w.byteZero, t.w.packageSize)
    requires msg.id == t.w.Back() + t.w.packageSize >= Threshold(t.w)
    requires t' == Step(t, WriteOp(msg)) && Valid(t'.w) && t'' == Step(t', ReadOp)
    ensures t'.w.state == Readable
    ensures t'.popped == [] <==> RoomForFirst(t.w)
    ensures t'.popped == [] ==> t''.played == t.played + [t.w.byteZero]
    ensures t'.popped != [] ==> t'.popped == [Evicted(t.w.byteZero)]
  {
    FirstPlayedIsFirstPacket(t, msg);
  }

  lemma AfterInOrder(t: Trace, t': Trace, msg: Message)
    requires Inv(t) && Prebuffering(t) && t.w.state == Waiting && Aligned(t.w.byteZero, t.w.packageSize)
    requires msg.id == t.w.Back() + t.w.packageSize >= Threshold(t.w)
    requires Valid(t'.w) && t'.w.state == Readable && t'.played == t.played && t'.w.ids != []
    requires t'.popped == TracePush(t, msg.id, Some(msg.data)).popped
    requires t'.popped == t.popped ==> t'.w.Front() == t.w.Front() && t'.w.vals[0] == t.w.vals[0]
    ensures t'.popped == [] <==> RoomForFirst(t.w)
    ensures t'.popped == [] ==> Step(t', ReadOp).played == t.played + [t.w.byteZero]
    ensures t'.popped != [] ==> t'.popped == [Evicted(t.w.byteZero)]
  {
    FullOrRoom(t.w);
  }

  lemma FullOrRoom(w: Window)
    requires Bounded(w) && w.Front() == w.byteZero && w.Back() < Threshold(w) <= w.Back() + w.packageSize
    ensures |w.ids| != w.maxElements <==> RoomForFirst(w)
  {
    RoomAt(w);
    GridIncreasing(w.ids, w.packageSize);
  }

  /** The next packet in order is one push. */
  lemma InOrderWrite(t: Trace, msg: Message)
    requires Inv(t) && t.w.ids != [] && msg.id == t.w.Back() + t.w.packageSize
    ensures var t' := Step(t, WriteOp(msg));
            && t'.w.ids != [] && t'.w.state == Open(t.w, msg).state && t'.played == t.played
            && t'.popped == TracePush(t, msg.id, Some(msg.data)).popped
            && (t'.popped == t.popped ==> t'.w.Front() == t.w.Front() && t'.w.vals[0] == t.w.vals[0])
  {
    var t1 := t.(w := Open(t.w, msg));
    BackAligned(t.w.ids, t.w.packageSize);
    NthAligned(t.w.Back(), t.w.packageSize, 1);
    InOrderTrace(t, t1, msg);
  }

  lemma InOrderTrace(t: Trace, t1: Trace, msg: Message)
    requires Valid(t.w) && Enabled(t.w, WriteOp(msg)) && t1 == t.(w := Open(t.w, msg))
    requires |t1.w.vals| == |t1.w.ids| > 0 && t1.w.packageSize > 0 && Aligned(msg.id, t1.w.packageSize)
    requires TraceStore(t1, msg) == TracePush(t1, msg.id, Some(msg.data)).(stored := t1.stored[msg.id := msg.data])
    ensures var t', pushed := Step(t, WriteOp(msg)), TracePush(t1, msg.id, Some(msg.data));
            && t'.w == pushed.w.(lastId := msg.id) && t'.popped == pushed.popped && t'.played == t.played
  {
    assert Step(t, WriteOp(msg)) == TraceWrite(t, msg);
  }

  /** Before it is readable a buffer is not changed by reads, and readable it stays until a reset. */
  lemma ReadableLasts(t: Trace, op: Op)
    requires Inv(t)
    ensures t.w.state != Readable && op.ReadOp? ==> Step(t, op) == t
    ensures t.w.state == Readable ==> (Step(t, op).w.state == Readable <==> !op.ResetOp?)
  {
    if t.w.state == Readable && op.WriteOp? && Aligned(op.msg.id, t.w.packageSize) {
      StoreFrame(Open(t.w, op.msg), op.msg);
    }
  }
}
