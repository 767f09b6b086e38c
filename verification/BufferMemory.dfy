/** How much a buffer holds, over every run. The capacity is counted in packets of the session's first size
    (src/receiver/buffer.hpp:91), but a slot holds its packet whatever the length of that. */
module BufferMemory {
  import opened Types
  import opened Progressions
  import opened BufferWindows
  import opened Contents
  import opened BufferRuns
  import opened BufferWitnesses
  import opened InputPackets

  // ---------- Slots ----------

  /** The capacity is what fits of packets of the session's size. */
  ghost predicate Fits(w: Window) {
    w.state != NoSession ==> w.packageSize > 0 && w.maxElements == w.maxSize / w.packageSize
  }

  /** The parameters of the session are fixed by its first packet. */
  lemma WriteFits(w: Window, msg: Message)
    requires Valid(w) && Fits(w) && (w.state == NoSession ==> msg.data != [])
    ensures Fits(Write(w, msg).0) && Write(w, msg).0.maxSize == w.maxSize
    ensures Write(w, msg).0.packageSize == Open(w, msg).packageSize
  {
    var w1 := Open(w, msg);
    assert Fits(w1) && w1.maxSize == w.maxSize && w1.state != NoSession;
    if Aligned(msg.id, w1.packageSize) {
      StoreFrame(w1, msg);
    }
  }

  lemma {:induction false} RunFits(maxSize: nat, ops: seq<Op>)
    ensures Fits(Run(maxSize, ops).w) && Run(maxSize, ops).w.maxSize == maxSize
  {
    if ops != [] {
      var t, op := Run(maxSize, ops[..|ops| - 1]), ops[|ops| - 1];
      RunFits(maxSize, ops[..|ops| - 1]);
      if op.WriteOp? && Enabled(t.w, op) { WriteFits(t.w, op.msg); }
    }
  }

  /** In every run the slots of a nonempty window, each counted as the session's first packet, take up no more
      than the size of the buffer exactly if one does not; otherwise the capacity is 0, which evicts nothing. */
  lemma SlotsFitIffPacketDoes(maxSize: nat, ops: seq<Op>)
    requires Run(maxSize, ops).w.ids != []
    ensures var w := Run(maxSize, ops).w;
            && (|w.ids| * w.packageSize <= maxSize <==> w.packageSize <= maxSize)
            && (w.packageSize > maxSize <==> w.maxElements == 0)
  {
    var w := Run(maxSize, ops).w;
    RunFits(maxSize, ops);
    BufferRuns.RunKeeps(maxSize, ops);
    FitsArithmetic(|w.ids|, w.packageSize, w.maxElements, maxSize);
  }

  lemma FitsArithmetic(n: nat, p: nat, c: nat, size: nat)
    requires n > 0 && p > 0 && c == size / p && (c > 0 ==> n <= c)
    ensures n * p <= size <==> p <= size
    ensures p > size <==> c == 0
  {
    assert c * p <= size < c * p + p;
    if p <= size {
      if n < c { MulGap(n, c, p); }
    } else {
      if 0 < c { MulGap(0, c, p); }
      if 1 < n { MulGap(1, n, p); }
    }
  }

  // ---------- Bytes ----------

  /** The bytes of the packets in the slots. */
  function HeldBytes(vals: seq<Option<Payload>>): nat {
    if vals == [] then 0
    else
      var last := vals[|vals| - 1];
      HeldBytes(vals[..|vals| - 1]) + if last.Some? then |last.value| else 0
  }

  /** No packet in the window is longer than `limit`. */
  ghost predicate Short(w: Window, limit: nat)
    requires |w.vals| == |w.ids|
  {
    forall m :: m in Packets(w) ==> |m.data| <= limit
  }

  lemma ShortHolds(w: Window, limit: nat)
    requires |w.vals| == |w.ids| && Short(w, limit)
    ensures HeldBytes(w.vals) <= |w.ids| * limit
  {
    forall k | 0 <= k < |w.vals| && w.vals[k].Some? ensures |w.vals[k].value| <= limit {
      assert Message(w.ids[k], w.vals[k].value) in Packets(w);
    }
    HeldAtMost(w.vals, limit);
  }

  lemma {:induction false} HeldAtMost(vals: seq<Option<Payload>>, limit: nat)
    requires forall k :: 0 <= k < |vals| && vals[k].Some? ==> |vals[k].value| <= limit
    ensures HeldBytes(vals) <= |vals| * limit
  {
    if vals != [] {
      var n := |vals| - 1;
      HeldAtMost(vals[..n], limit);
      assert (n + 1) * limit == n * limit + limit;
    }
  }

  lemma WriteShort(w: Window, msg: Message, limit: nat)
    requires Valid(w) && (w.state == NoSession ==> msg.data != [])
    requires Short(w, limit) && |msg.data| <= limit
    ensures |Write(w, msg).0.vals| == |Write(w, msg).0.ids| && Short(Write(w, msg).0, limit)
  {
    WriteContents(w, msg);
  }

  /** Every packet written is no longer than the one that opened its session. */
  ghost predicate NoneLonger(maxSize: nat, ops: seq<Op>) {
    ops == [] ||
    var before, op := Run(maxSize, ops[..|ops| - 1]), ops[|ops| - 1];
    && NoneLonger(maxSize, ops[..|ops| - 1])
    && (op.WriteOp? && Enabled(before.w, op) ==> |op.msg.data| <= Open(before.w, op.msg).packageSize)
  }

  lemma {:induction false} NoneLongerIsShort(maxSize: nat, ops: seq<Op>)
    requires NoneLonger(maxSize, ops)
    ensures var w := Run(maxSize, ops).w;
            Short(w, w.packageSize)
  {
    if ops != [] {
      var t, op := Run(maxSize, ops[..|ops| - 1]), ops[|ops| - 1];
      NoneLongerIsShort(maxSize, ops[..|ops| - 1]);
      if Enabled(t.w, op) {
        match op
        case WriteOp(msg) =>
          RunFits(maxSize, ops[..|ops| - 1]);
          WriteFits(t.w, msg);
          WriteShort(t.w, msg, Open(t.w, msg).packageSize);
        case ReadOp => ReadContents(t.w);
        case ResetOp =>
      }
    }
  }

  /** Then in every run, over any number of sessions, a buffer that has room for one packet of its session
      holds no more bytes than its size. */
  lemma HeldBytesFit(maxSize: nat, ops: seq<Op>)
    requires NoneLonger(maxSize, ops) && Run(maxSize, ops).w.packageSize <= maxSize
    ensures HeldBytes(Run(maxSize, ops).w.vals) <= maxSize
  {
    var w := Run(maxSize, ops).w;
    NoneLongerIsShort(maxSize, ops);
    ShortHolds(w, w.packageSize);
    if w.ids != [] { SlotsFitIffPacketDoes(maxSize, ops); }
  }

  // ---------- Exactly for which packet sizes the buffer is large enough ----------

  /** Sessions open with packets of `p` bytes, and no packet is longer than `limit`. */
  ghost predicate Sized(maxSize: nat, ops: seq<Op>, p: nat, limit: nat) {
    ops == [] ||
    var before, op := Run(maxSize, ops[..|ops| - 1]), ops[|ops| - 1];
    && Sized(maxSize, ops[..|ops| - 1], p, limit)
    && (op.WriteOp? ==> |op.msg.data| <= limit && (before.w.state == NoSession ==> |op.msg.data| == p))
  }

  ghost predicate AlwaysFits(maxSize: nat, p: nat, limit: nat) {
    forall ops :: Sized(maxSize, ops, p, limit) ==> HeldBytes(Run(maxSize, ops).w.vals) <= maxSize
  }

  /** A buffer holds no more bytes than its size in all runs of such packets, exactly if a packet that opens a
      session fits, and so do as many packets of the greatest length as the capacity counts. */
  lemma AlwaysFitsIff(maxSize: nat, p: nat, limit: nat)
    requires 0 < p <= limit
    ensures AlwaysFits(maxSize, p, limit) <==> p <= maxSize && maxSize / p * limit <= maxSize
  {
    if p <= maxSize && maxSize / p * limit <= maxSize {
      forall ops | Sized(maxSize, ops, p, limit) ensures HeldBytes(Run(maxSize, ops).w.vals) <= maxSize {
        SizedFits(maxSize, ops, p, limit, maxSize / p);
      }
    } else {
      FillOverflows(maxSize, Zeros(p), Zeros(limit), maxSize / p);
    }
  }

  lemma {:induction false} SizedIsShort(maxSize: nat, ops: seq<Op>, p: nat, limit: nat)
    requires 0 < p <= limit && Sized(maxSize, ops, p, limit)
    ensures var w := Run(maxSize, ops).w;
            Short(w, limit) && (w.state != NoSession ==> w.packageSize == p)
  {
    if ops != [] {
      var t, op := Run(maxSize, ops[..|ops| - 1]), ops[|ops| - 1];
      SizedIsShort(maxSize, ops[..|ops| - 1], p, limit);
      if Enabled(t.w, op) {
        match op
        case WriteOp(msg) =>
          RunFits(maxSize, ops[..|ops| - 1]);
          WriteFits(t.w, msg);
          WriteShort(t.w, msg, limit);
        case ReadOp => ReadContents(t.w);
        case ResetOp =>
      }
    }
  }

  lemma SizedFits(maxSize: nat, ops: seq<Op>, p: nat, limit: nat, c: nat)
    requires 0 < p <= limit && Sized(maxSize, ops, p, limit)
    requires c == maxSize / p && p <= maxSize && c * limit <= maxSize
    ensures HeldBytes(Run(maxSize, ops).w.vals) <= maxSize
  {
    SizedIsShort(maxSize, ops, p, limit);
    BufferRuns.RunKeeps(maxSize, ops);
    RunFits(maxSize, ops);
    CapacityHolds(Run(maxSize, ops).w, p, limit, c);
  }

  lemma CapacityHolds(w: Window, p: nat, limit: nat, c: nat)
    requires Valid(w) && Fits(w) && Short(w, limit) && (w.state != NoSession ==> w.packageSize == p)
    requires 0 < p <= w.maxSize && c == w.maxSize / p && c * limit <= w.maxSize
    ensures HeldBytes(w.vals) <= w.maxSize
  {
    ShortHolds(w, limit);
    FitsArithmetic(1, p, c, w.maxSize);
    if |w.ids| < c { MulGap(|w.ids|, c, limit); }
  }

  /** The window after a packet with `first` and, in order, `n` with `later`: as many slots as fit, all with
      `later`, but the first while that is there. */
  ghost predicate Filling(w: Window, first: Payload, later: Payload, c: nat, n: nat) {
    && w.state != NoSession && w.packageSize == |first| && w.maxElements == c
    && |w.ids| == |w.vals| == (if c == 0 || n < c then n + 1 else c)
    && w.ids != [] && w.Back() == Nth(0, |first|, n)
    && w.vals[0] == Some(if c == 0 || n < c then first else later)
    && forall k :: 0 < k < |w.vals| ==> w.vals[k] == Some(later)
  }

  lemma PushFills(w: Window, v: Window, id: nat, first: Payload, later: Payload, c: nat, n: nat)
    requires n > 0 && Filling(w, first, later, c, n - 1) && id == Nth(0, |first|, n)
    requires v == PushSlot(w, id, Some(later))
    ensures Filling(v, first, later, c, n)
  {
    if |w.ids| == c {
      assert v.vals == w.vals[1..] + [Some(later)];
    } else {
      assert v.vals == w.vals + [Some(later)];
    }
  }

  /** Neither the state nor the last id matters to it. */
  lemma NextFills(w: Window, v: Window, msg: Message, first: Payload, c: nat, n: nat)
    requires n > 0 && Filling(w, first, msg.data, c, n - 1) && msg.id == Nth(0, |first|, n)
    requires v == PushSlot(Open(w, msg), msg.id, Some(msg.data)).(lastId := msg.id)
    ensures Filling(v, first, msg.data, c, n)
  {
    PushFills(w, PushSlot(w, msg.id, Some(msg.data)), msg.id, first, msg.data, c, n);
  }

  /** Some run leads to such a window. */
  ghost predicate Fillable(maxSize: nat, first: Payload, later: Payload, c: nat, n: nat) {
    exists ops :: Sized(maxSize, ops, |first|, |later|) && Filling(Run(maxSize, ops).w, first, later, c, n)
  }

  lemma FillFirst(maxSize: nat, first: Payload, later: Payload, c: nat)
    requires 0 < |first| <= |later| && c == maxSize / |first|
    ensures Fillable(maxSize, first, later, c, 0)
  {
    var ops := [WriteOp(Message(0, first))];
    FirstWrite(maxSize, Message(0, first));
    assert ops[..0] == [] && Run(maxSize, []) == Start(maxSize);
    assert Sized(maxSize, ops, |first|, |later|);
  }

  lemma {:induction false} FromZero(reached: nat -> bool, n: nat)
    requires reached(0) && forall k: nat :: reached(k) ==> reached(k + 1)
    ensures reached(n)
  {
    if n > 0 { FromZero(reached, n - 1); }
  }

  lemma FillNext(maxSize: nat, before: seq<Op>, v: Window, msg: Message, first: Payload, c: nat, n: nat)
    requires n > 0 && msg.id == Nth(0, |first|, n)
    requires Sized(maxSize, before, |first|, |msg.data|) && v == Run(maxSize, before).w
    requires Filling(v, first, msg.data, c, n - 1)
    ensures Fillable(maxSize, first, msg.data, c, n)
  {
    var ops := before + [WriteOp(msg)];
    NextWrite(maxSize, before, msg, v, Open(v, msg));
    NextFills(v, Run(maxSize, ops).w, msg, first, c, n);
    assert ops[..|before|] == before;
    assert Sized(maxSize, ops, |first|, |msg.data|);
  }

  lemma FillMore(maxSize: nat, first: Payload, later: Payload, c: nat, n: nat)
    requires Fillable(maxSize, first, later, c, n)
    ensures Fillable(maxSize, first, later, c, n + 1)
  {
    var before :| Sized(maxSize, before, |first|, |later|)
                  && Filling(Run(maxSize, before).w, first, later, c, n);
    FillNext(maxSize, before, Run(maxSize, before).w, Message(Nth(0, |first|, n + 1), later), first, c, n + 1);
  }

  lemma FillUp(maxSize: nat, first: Payload, later: Payload, c: nat)
    requires 0 < |first| <= |later| && c == maxSize / |first|
    ensures Fillable(maxSize, first, later, c, c)
  {
    var reached := (n: nat) => Fillable(maxSize, first, later, c, n);
    FillFirst(maxSize, first, later, c);
    forall k: nat | reached(k) ensures reached(k + 1) { FillMore(maxSize, first, later, c, k); }
    FromZero(reached, c);
  }

  lemma {:induction false} HeldExactly(vals: seq<Option<Payload>>, x: Payload)
    requires forall k :: 0 <= k < |vals| ==> vals[k] == Some(x)
    ensures HeldBytes(vals) == |vals| * |x|
  {
    if vals != [] {
      var n := |vals| - 1;
      HeldExactly(vals[..n], x);
      assert (n + 1) * |x| == n * |x| + |x|;
    }
  }

  /** Filled up, the window holds its capacity of longer packets; without capacity, the first packet. */
  lemma FilledOverflows(w: Window, first: Payload, later: Payload, c: nat, maxSize: nat)
    requires 0 < |first| <= |later| && c == maxSize / |first| && Filling(w, first, later, c, c)
    requires |first| > maxSize || c * |later| > maxSize
    ensures HeldBytes(w.vals) > maxSize
  {
    FitsArithmetic(1, |first|, c, maxSize);
    HeldExactly(w.vals, if c == 0 then first else later);
  }

  lemma FillOverflows(maxSize: nat, first: Payload, later: Payload, c: nat)
    requires 0 < |first| <= |later| && c == maxSize / |first|
    requires |first| > maxSize || c * |later| > maxSize
    ensures !AlwaysFits(maxSize, |first|, |later|)
  {
    FillUp(maxSize, first, later, c);
    var ops :| Sized(maxSize, ops, |first|, |later|) && Filling(Run(maxSize, ops).w, first, later, c, c);
    FilledOverflows(Run(maxSize, ops).w, first, later, c, maxSize);
  }

  const SHORT := Message(0, [0])
  const LONG := Message(1, [0, 0, 0, 0, 0, 0, 0, 0])

  lemma ShortThenLong()
    ensures Run(4, [WriteOp(SHORT)] + [WriteOp(LONG)]).w
         == Window(4, 4, Waiting, 1, 0, 1, [0, 1], [Some(SHORT.data)] + [Some(LONG.data)])
  {
    var w := Run(4, [WriteOp(SHORT)]).w;
    FirstWrite(4, SHORT);
    assert w == Window(4, 4, Waiting, 0, 0, 1, [0], [Some([0])]);
    assert Open(w, LONG) == w;
    NextWrite(4, [WriteOp(SHORT)], LONG, w, w);
    assert [0] + [1] == [0, 1];
  }

  /** A buffer of four bytes whose session opens with one byte: a packet of eight takes one slot of four, and
      nine bytes are held. */
  lemma LongerPacketOverfills()
    ensures var w := Run(4, [WriteOp(SHORT)] + [WriteOp(LONG)]).w;
            w.packageSize == 1 && w.maxElements == 4 && |w.ids| == 2 && HeldBytes(w.vals) == 9
  {
    ShortThenLong();
    HeldOneMore([], SHORT.data);
    HeldOneMore([Some(SHORT.data)], LONG.data);
    assert [] + [Some(SHORT.data)] == [Some(SHORT.data)];
  }

  lemma HeldOneMore(vals: seq<Option<Payload>>, data: Payload)
    ensures HeldBytes(vals + [Some(data)]) == HeldBytes(vals) + |data|
  {
    assert (vals + [Some(data)])[..|vals|] == vals;
  }
}
