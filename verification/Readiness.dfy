/** When a buffer can be read, and what a read returns, over every run and in terms of what was written. */
module Readiness {
  import opened Types
  import opened Progressions
  import opened BufferWindows
  import opened Contents
  import opened BufferRuns

  // ---------- The packets of a session ----------

  /** The packets written since the last reset, from the one that opened the session on, also those that were
      not on its grid. A packet without data cannot open a session. */
  function Written(ops: seq<Op>): (msgs: seq<Message>)
    ensures msgs != [] ==> msgs[0].data != []
  {
    if ops == [] then []
    else
      var before, op := Written(ops[..|ops| - 1]), ops[|ops| - 1];
      match op
      case WriteOp(msg) => if before == [] && msg.data == [] then [] else before + [msg]
      case ReadOp => before
      case ResetOp => []
  }

  /** Every packet is short of three quarters, in bytes, of the slots that fit of the first packet's size. */
  ghost predicate AllShort(maxSize: nat, msgs: seq<Message>)
    requires msgs != [] ==> msgs[0].data != []
  {
    forall m :: m in msgs ==>
      m.id < msgs[0].id + maxSize / |msgs[0].data| * |msgs[0].data| * 3 / 4
  }

  /** The parameters of the session are those of its first packet. */
  ghost predicate OpenedBy(w: Window, maxSize: nat, msgs: seq<Message>) {
    && (w.state == NoSession <==> msgs == [])
    && w.maxSize == maxSize
    && (msgs != [] ==>
          && msgs[0].data != [] && w.byteZero == msgs[0].id && w.packageSize == |msgs[0].data|
          && w.maxElements == maxSize / |msgs[0].data|
          && (w.state == Waiting <==> AllShort(maxSize, msgs)))
  }

  lemma ShortAppend(maxSize: nat, msgs: seq<Message>, m: Message)
    requires msgs != [] && msgs[0].data != []
    ensures AllShort(maxSize, msgs + [m]) <==>
              AllShort(maxSize, msgs)
              && m.id < msgs[0].id + maxSize / |msgs[0].data| * |msgs[0].data| * 3 / 4
  {
    var all := msgs + [m];
    assert all[0] == msgs[0];
    if AllShort(maxSize, all) {
      forall x | x in msgs ensures x in all { }
      assert m in all;
    }
  }

  lemma WriteOpens(w: Window, maxSize: nat, msgs: seq<Message>, msg: Message)
    requires Valid(w) && OpenedBy(w, maxSize, msgs) && (w.state == NoSession ==> msg.data != [])
    ensures OpenedBy(Write(w, msg).0, maxSize, msgs + [msg])
  {
    var w1 := Open(w, msg);
    if msgs == [] {
      assert msgs + [msg] == [msg];
    } else {
      ShortAppend(maxSize, msgs, msg);
    }
    assert OpenedBy(w1, maxSize, msgs + [msg]);
    if Aligned(msg.id, w1.packageSize) { StoreFrame(w1, msg); }
  }

  lemma StepOpens(t: Trace, op: Op, maxSize: nat, msgs: seq<Message>, msgs': seq<Message>)
    requires Valid(t.w) && OpenedBy(t.w, maxSize, msgs)
    requires msgs' == match op
                      case WriteOp(msg) => if msgs == [] && msg.data == [] then [] else msgs + [msg]
                      case ReadOp => msgs
                      case ResetOp => []
    ensures OpenedBy(Step(t, op).w, maxSize, msgs')
  {
    if op.WriteOp? && Enabled(t.w, op) { WriteOpens(t.w, maxSize, msgs, op.msg); }
  }

  lemma {:induction false} RunOpens(maxSize: nat, ops: seq<Op>)
    ensures OpenedBy(Run(maxSize, ops).w, maxSize, Written(ops))
  {
    if ops != [] {
      RunOpens(maxSize, ops[..|ops| - 1]);
      StepOpens(Run(maxSize, ops[..|ops| - 1]), ops[|ops| - 1], maxSize, Written(ops[..|ops| - 1]), Written(ops));
    }
  }

  /** In every run an open buffer waits exactly as long as every packet written since its session opened, on the
      grid or not, is below the first id plus three quarters of the capacity in bytes, rounded down; otherwise
      it can be read. */
  lemma WaitsExactlyBelowThreeQuarters(maxSize: nat, ops: seq<Op>)
    ensures var w, msgs := Run(maxSize, ops).w, Written(ops);
            && (w.state == NoSession <==> msgs == [])
            && (msgs != [] ==> (w.state == Waiting <==> AllShort(maxSize, msgs)))
            && (msgs != [] ==> (w.state == Readable <==> !AllShort(maxSize, msgs)))
  {
    RunOpens(maxSize, ops);
  }

  // ---------- Nothing is played before ----------

  /** Where the last reset ended. */
  function SinceReset(ops: seq<Op>): (k: nat)
    ensures k <= |ops|
  {
    if ops == [] then 0
    else if ops[|ops| - 1].ResetOp? then |ops|
    else SinceReset(ops[..|ops| - 1])
  }

  lemma WrittenGrows(ops: seq<Op>, op: Op)
    ensures Written(ops + [op])
         == match op
            case WriteOp(msg) => if Written(ops) == [] && msg.data == [] then [] else Written(ops) + [msg]
            case ReadOp => Written(ops)
            case ResetOp => []
  {
    assert (ops + [op])[..|ops|] == ops;
  }

  lemma WriteState(w: Window, msg: Message)
    requires Valid(w) && (w.state == NoSession ==> msg.data != [])
    ensures Write(w, msg).0.state == Open(w, msg).state
  {
    if Aligned(msg.id, Open(w, msg).packageSize) { StoreFrame(Open(w, msg), msg); }
  }

  lemma StaysClosed(t: Trace, op: Op)
    requires Valid(t.w) && !op.ResetOp? && Step(t, op).w.state != Readable
    ensures t.w.state != Readable && Step(t, op).played == t.played
  {
    if op.WriteOp? && Enabled(t.w, op) {
      WritePlaysNothing(t, op.msg);
      WriteState(t.w, op.msg);
    }
  }

  /** In every run, as long as the packets written since the last reset leave the buffer waiting, nothing has been
      played since that reset. */
  lemma NothingPlayedBelow(maxSize: nat, ops: seq<Op>)
    requires AllShort(maxSize, Written(ops))
    ensures Run(maxSize, ops).played == Run(maxSize, ops[..SinceReset(ops)]).played
  {
    WaitsExactlyBelowThreeQuarters(maxSize, ops);
    ClosedPlaysNothing(maxSize, ops);
  }

  lemma {:induction false} ClosedPlaysNothing(maxSize: nat, ops: seq<Op>)
    requires Run(maxSize, ops).w.state != Readable
    ensures Run(maxSize, ops).played == Run(maxSize, ops[..SinceReset(ops)]).played
  {
    if ops == [] || ops[|ops| - 1].ResetOp? {
      assert ops[..SinceReset(ops)] == ops;
    } else {
      var before := ops[..|ops| - 1];
      StaysClosed(Run(maxSize, before), ops[|ops| - 1]);
      ClosedPlaysNothing(maxSize, before);
      assert ops[..SinceReset(ops)] == before[..SinceReset(before)];
    }
  }

  // ---------- What a write and a read return ----------

  /** A write throws exactly if its id is no multiple of the length of the packet that opened the session. */
  lemma WriteThrowsIff(maxSize: nat, ops: seq<Op>, msg: Message)
    requires Enabled(Run(maxSize, ops).w, WriteOp(msg))
    ensures var msgs := Written(ops + [WriteOp(msg)]);
            msgs != [] && (Write(Run(maxSize, ops).w, msg).1.Err? <==> msg.id % |msgs[0].data| != 0)
  {
    var w := Run(maxSize, ops).w;
    RunOpens(maxSize, ops);
    WrittenGrows(ops, WriteOp(msg));
    StepsIsQuotient(msg.id, Open(w, msg).packageSize);
  }

  /** The data of the last packet with an id. */
  function LastOf(msgs: seq<Message>, id: nat): Option<Payload> {
    if msgs == [] then None
    else if msgs[|msgs| - 1].id == id then Some(msgs[|msgs| - 1].data)
    else LastOf(msgs[..|msgs| - 1], id)
  }

  ghost predicate HoldsLast(ps: set<Message>, msgs: seq<Message>) {
    forall p :: p in ps ==> LastOf(msgs, p.id) == Some(p.data)
  }

  /** After a write the slot of its id holds its packet, if there is one. */
  lemma SlotOfWritten(w: Window, msg: Message, p: Message)
    requires Valid(w) && w.state != NoSession && Aligned(msg.id, w.packageSize)
    requires p in Packets(Store(w, msg)) && p.id == msg.id
    ensures p == msg
  {
    var v := Store(w, msg);
    var k :| 0 <= k < |v.ids| && v.vals[k].Some? && Message(v.ids[k], v.vals[k].value) == p;
    if w.ids != [] && msg.id > w.Back() {
      StoreNew(w, msg);
      GridOrder(v.ids, v.packageSize, k, |v.ids| - 1);
    }
  }

  /** Ids in the window are on the grid. */
  lemma PacketOnGrid(w: Window, p: Message)
    requires Valid(w) && p in Packets(w)
    ensures w.packageSize > 0 && Aligned(p.id, w.packageSize)
  {
    var k :| 0 <= k < |w.ids| && w.vals[k].Some? && Message(w.ids[k], w.vals[k].value) == p;
    GridAt(w.ids, w.packageSize, k);
  }

  lemma WriteHoldsLast(w: Window, msgs: seq<Message>, msg: Message)
    requires Valid(w) && HoldsLast(Packets(w), msgs) && (w.state == NoSession ==> msg.data != [])
    ensures |Write(w, msg).0.vals| == |Write(w, msg).0.ids|
    ensures HoldsLast(Packets(Write(w, msg).0), msgs + [msg])
  {
    var w1, v := Open(w, msg), Write(w, msg).0;
    WriteContents(w, msg);
    assert (msgs + [msg])[..|msgs|] == msgs;
    forall p | p in Packets(v) ensures LastOf(msgs + [msg], p.id) == Some(p.data) {
      if Aligned(msg.id, w1.packageSize) {
        if p.id == msg.id { SlotOfWritten(w1, msg, p); }
      } else {
        PacketOnGrid(w1, p);
      }
    }
  }

  lemma {:induction false} RunHoldsLast(maxSize: nat, ops: seq<Op>)
    ensures HoldsLast(Packets(Run(maxSize, ops).w), Written(ops))
  {
    if ops != [] {
      var t, op := Run(maxSize, ops[..|ops| - 1]), ops[|ops| - 1];
      RunHoldsLast(maxSize, ops[..|ops| - 1]);
      RunOpens(maxSize, ops[..|ops| - 1]);
      if Enabled(t.w, op) {
        match op
        case WriteOp(msg) => WriteHoldsLast(t.w, Written(ops[..|ops| - 1]), msg);
        case ReadOp => ReadContents(t.w);
        case ResetOp =>
      }
    }
  }

  /** A hole or nothing at the front. */
  predicate NothingToRead(w: Window)
    requires |w.vals| == |w.ids|
  {
    w.ids == [] || w.ids[0] in Holes(w)
  }

  lemma FrontIsHole(w: Window)
    requires Valid(w) && w.ids != []
    ensures w.ids[0] in Holes(w) <==> w.vals[0].None?
  {
    if w.ids[0] in Holes(w) {
      var k :| 0 <= k < |w.ids| && w.vals[k].None? && w.ids[k] == w.ids[0];
      GridOrder(w.ids, w.packageSize, 0, k);
    }
  }

  /** In every run: a read before the buffer is readable returns nothing and changes nothing. Of a readable buffer
      it is an error, and changes nothing, exactly if the window is empty or starts with a hole; otherwise it
      returns the payload last written in this session under the first id, which leaves the window. */
  lemma ReadOutcome(maxSize: nat, ops: seq<Op>)
    ensures var w, msgs := Run(maxSize, ops).w, Written(ops);
            var (v, r) := Read(w);
            && |w.vals| == |w.ids|
            && (AllShort(maxSize, msgs) ==> r == Ok(None) && v == w)
            && (!AllShort(maxSize, msgs) ==>
                  && (r.Err? <==> NothingToRead(w))
                  && (r.Err? ==> v == w)
                  && (r.Ok? ==> LastOf(msgs, w.ids[0]).Some? && r == Ok(LastOf(msgs, w.ids[0]))
                                && v.ids == w.ids[1..] && v.vals == w.vals[1..]))
  {
    var w := Run(maxSize, ops).w;
    RunOpens(maxSize, ops);
    RunHoldsLast(maxSize, ops);
    if w.ids != [] {
      FrontIsHole(w);
      if w.vals[0].Some? { assert Message(w.ids[0], w.vals[0].value) in Packets(w); }
    }
  }
}
