/** In which order packets are played, over every run. A window that has been drained takes any aligned
    packet, however old (src/receiver/buffer.hpp:99), and so the order can be lost. */
module PlaybackOrder {
  import opened Types
  import opened Progressions
  import opened BufferWindows
  import opened Contents
  import opened BufferRuns

  ghost predicate AllBelow(ids: seq<nat>, bound: nat) {
    forall id :: id in ids ==> id < bound
  }

  predicate ReadSucceeds(w: Window) {
    w.state == Readable && w.ids != [] && |w.vals| == |w.ids| && w.vals[0].Some?
  }

  /** A packet that is about to enter an empty window, the first one or after a reset or a drain. */
  predicate Enters(w: Window, op: Op)
    requires Valid(w)
  {
    op.WriteOp? && Enabled(w, op) && w.ids == [] && Write(w, op.msg).1.Ok?
  }

  lemma StepPlays(t: Trace, op: Op)
    requires Valid(t.w)
    ensures Step(t, op).played
         == if op.ReadOp? && ReadSucceeds(t.w) then t.played + [t.w.Front()] else t.played
  {
    if op.WriteOp? && Enabled(t.w, op) { WritePlaysNothing(t, op.msg); }
  }

  // ---------- What was played since the window was last entered ----------

  function Ids(msgs: seq<Message>): (r: seq<nat>)
    ensures |r| == |msgs|
  {
    seq(|msgs|, i requires 0 <= i < |msgs| => msgs[i].id)
  }

  lemma IdsAt(msgs: seq<Message>, i: nat)
    requires i < |msgs|
    ensures Ids(msgs)[i] == msgs[i].id
  {
  }

  lemma IdsOnGrid(msgs: seq<Message>, step: nat, i: nat)
    requires Grid(Ids(msgs), step) && i < |msgs|
    ensures msgs[i].id == Nth(msgs[0].id, step, i)
  {
    IdsAt(msgs, 0);
    IdsAt(msgs, i);
    GridAt(Ids(msgs), step, i);
  }

  /** The packets that left the window by a read, in order. */
  function PlayedSince(popped: seq<Pop>): seq<Message> {
    if popped == [] then []
    else
      var last := popped[|popped| - 1];
      PlayedSince(popped[..|popped| - 1]) + if last.Played? then [Message(last.id, last.data)] else []
  }

  /** They start afresh when a packet enters an empty window; otherwise only a read adds to them. */
  lemma StepPopped(t: Trace, op: Op)
    requires Valid(t.w)
    ensures PlayedSince(Step(t, op).popped)
         == if Enters(t.w, op) || op.ResetOp? then []
            else if op.ReadOp? && ReadSucceeds(t.w)
            then PlayedSince(t.popped) + [Message(t.w.Front(), t.w.vals[0].value)]
            else PlayedSince(t.popped)
  {
    if Enabled(t.w, op) {
      match op
      case WriteOp(msg) => WritePopped(t, msg);
      case ReadOp => ReadPopped(t);
      case ResetOp =>
    }
  }

  lemma ReadPopped(t: Trace)
    requires Valid(t.w)
    ensures PlayedSince(TraceRead(t).popped)
         == if ReadSucceeds(t.w) then PlayedSince(t.popped) + [Message(t.w.Front(), t.w.vals[0].value)]
            else PlayedSince(t.popped)
  {
    if ReadSucceeds(t.w) {
      assert (t.popped + [Played(t.w.Front(), t.w.vals[0].value)])[..|t.popped|] == t.popped;
    }
  }

  lemma WritePopped(t: Trace, msg: Message)
    requires Valid(t.w) && Enabled(t.w, WriteOp(msg))
    ensures PlayedSince(TraceWrite(t, msg).popped)
         == if Enters(t.w, WriteOp(msg)) then [] else PlayedSince(t.popped)
  {
    var t1 := t.(w := Open(t.w, msg));
    if Aligned(msg.id, t1.w.packageSize) && t1.w.ids != [] && msg.id > t1.w.Back() {
      HolesPopped(t1, msg.id);
      PushPopped(TraceHoles(t1, msg.id), msg.id, Some(msg.data));
    }
  }

  lemma PushPopped(t: Trace, id: nat, val: Option<Payload>)
    requires |t.w.vals| == |t.w.ids| > 0
    ensures PlayedSince(TracePush(t, id, val).popped) == PlayedSince(t.popped)
  {
    assert (t.popped + [Evicted(t.w.Front())])[..|t.popped|] == t.popped;
  }

  lemma {:induction false} HolesPopped(t: Trace, id: nat)
    requires Bounded(t.w)
    ensures PlayedSince(TraceHoles(t, id).popped) == PlayedSince(t.popped)
    decreases id - t.w.Back()
  {
    var next := t.w.Back() + t.w.packageSize;
    if next < id {
      PushSlotGrid(t.w, None);
      PushPopped(t, next, None);
      HolesPopped(TracePush(t, next, None), id);
      TraceHolesStep(t, id);
    }
  }

  /** In every run, with resets and drained windows, they are the last of all that was played. */
  lemma {:induction false} PlayedSinceIsLast(maxSize: nat, ops: seq<Op>)
    ensures var t := Run(maxSize, ops);
            EndsWith<nat>(t.played, Ids(PlayedSince(t.popped)))
  {
    if ops != [] {
      PlayedSinceIsLast(maxSize, ops[..|ops| - 1]);
      StepEndsWith(Run(maxSize, ops[..|ops| - 1]), ops[|ops| - 1]);
    }
  }

  lemma StepEndsWith(t: Trace, op: Op)
    requires Valid(t.w) && EndsWith<nat>(t.played, Ids(PlayedSince(t.popped)))
    ensures EndsWith<nat>(Step(t, op).played, Ids(PlayedSince(Step(t, op).popped)))
  {
    StepPlays(t, op);
    StepPopped(t, op);
    if op.ReadOp? && ReadSucceeds(t.w) {
      IdsOfSum(PlayedSince(t.popped), Message(t.w.Front(), t.w.vals[0].value));
      EndsWithOneMore(t.played, Ids(PlayedSince(t.popped)), t.w.Front());
    }
  }

  lemma IdsOfSum(msgs: seq<Message>, m: Message)
    ensures Ids(msgs + [m]) == Ids(msgs) + [m.id]
  {
  }

  // ---------- Exactly when the order is kept ----------

  /** A read that succeeds, if it is the first since a packet entered an empty window, is above the last id
      played before it. */
  ghost predicate FirstReadAdvances(t: Trace, op: Op) {
    op.ReadOp? && ReadSucceeds(t.w) && PlayedSince(t.popped) == [] && t.played != [] ==>
      t.played[|t.played| - 1] < t.w.Front()
  }

  ghost predicate FirstReadsAdvance(maxSize: nat, ops: seq<Op>) {
    ops == [] ||
    (FirstReadsAdvance(maxSize, ops[..|ops| - 1])
     && FirstReadAdvances(Run(maxSize, ops[..|ops| - 1]), ops[|ops| - 1]))
  }

  /** Over every run, with resets and drained windows, what was played is increasing exactly if every such
      first read advanced. The window keeps the order of all the reads that follow. */
  lemma {:induction false} OrderIsFirstReadsAdvance(maxSize: nat, ops: seq<Op>)
    ensures Increasing(Run(maxSize, ops).played) <==> FirstReadsAdvance(maxSize, ops)
  {
    if ops != [] {
      OrderIsFirstReadsAdvance(maxSize, ops[..|ops| - 1]);
      RunKeeps(maxSize, ops[..|ops| - 1]);
      PlayedSinceIsLast(maxSize, ops[..|ops| - 1]);
      StepOrder(Run(maxSize, ops[..|ops| - 1]), ops[|ops| - 1]);
    }
  }

  lemma StepOrder(t: Trace, op: Op)
    requires Inv(t) && EndsWith<nat>(t.played, Ids(PlayedSince(t.popped)))
    ensures Increasing(Step(t, op).played) <==> Increasing(t.played) && FirstReadAdvances(t, op)
  {
    StepPlays(t, op);
    if op.ReadOp? && ReadSucceeds(t.w) {
      IncreasingLast(t.played, t.w.Front());
      if PlayedSince(t.popped) != [] { LaterReadAdvances(t); }
    }
  }

  lemma LaterReadAdvances(t: Trace)
    requires Inv(t) && t.w.ids != [] && PlayedSince(t.popped) != []
    requires EndsWith<nat>(t.played, Ids(PlayedSince(t.popped)))
    ensures t.played != [] && t.played[|t.played| - 1] < t.w.Front()
  {
    var since := PlayedSince(t.popped);
    var last := since[|since| - 1];
    LineBounds(t);
    PlayedWasPopped(t.popped, last);
    assert t.played[|t.played| - |since|..][|since| - 1] == Ids(since)[|since| - 1];
  }

  lemma {:induction false} PlayedWasPopped(popped: seq<Pop>, m: Message)
    requires m in PlayedSince(popped)
    ensures Played(m.id, m.data) in popped
  {
    var last := popped[|popped| - 1];
    if last != Played(m.id, m.data) { PlayedWasPopped(popped[..|popped| - 1], m); }
  }

  // ---------- What a caller can see to ----------

  /** Every packet that enters an empty window is above all ids played before it. */
  ghost predicate EntriesAdvance(maxSize: nat, ops: seq<Op>) {
    ops == [] ||
    var before, op := Run(maxSize, ops[..|ops| - 1]), ops[|ops| - 1];
    && EntriesAdvance(maxSize, ops[..|ops| - 1])
    && (Enters(before.w, op) ==> AllBelow(before.played, op.msg.id))
  }

  /** What is in the window comes after what was played. */
  ghost predicate InOrder(t: Trace) {
    && Valid(t.w) && Increasing(t.played)
    && (t.w.ids != [] ==> AllBelow(t.played, t.w.Front()))
  }

  /** The front of the window never moves back while the window holds anything. */
  lemma WriteMovesFront(w: Window, msg: Message)
    requires Valid(w) && Enabled(w, WriteOp(msg))
    ensures var (v, r) := Write(w, msg);
            && (r.Err? ==> v.ids == w.ids)
            && (r.Ok? && w.ids == [] ==> v.ids == [msg.id])
            && (r.Ok? && w.ids != [] ==> v.ids != [] && w.Front() <= v.Front())
  {
    var (v, r) := Write(w, msg);
    if r.Ok? {
      WriteIds(w, msg);
      BetweenEnds(w);
      assert v.Front() in v.ids;
      if w.ids != [] { assert w.Front() in w.ids; }
    } else {
      WriteContents(w, msg);
    }
  }

  lemma ReadMovesFront(w: Window)
    requires Valid(w)
    ensures var v := Read(w).0;
            if ReadSucceeds(w) then v.ids == w.ids[1..] && (v.ids != [] ==> w.Front() < v.Front()) else v == w
  {
    if w.ids != [] { GridIncreasing(w.ids, w.packageSize); }
  }

  lemma StepInOrder(t: Trace, op: Op)
    requires InOrder(t) && (Enters(t.w, op) ==> AllBelow(t.played, op.msg.id))
    ensures InOrder(Step(t, op))
  {
    if Enabled(t.w, op) {
      match op
      case WriteOp(msg) => WriteInOrder(t, msg);
      case ReadOp => ReadInOrder(t);
      case ResetOp =>
    }
  }

  lemma WriteInOrder(t: Trace, msg: Message)
    requires InOrder(t) && Enabled(t.w, WriteOp(msg)) && (Enters(t.w, WriteOp(msg)) ==> AllBelow(t.played, msg.id))
    ensures InOrder(Step(t, WriteOp(msg)))
  {
    StepPlays(t, WriteOp(msg));
    WriteMovesFront(t.w, msg);
  }

  lemma ReadInOrder(t: Trace)
    requires InOrder(t)
    ensures InOrder(Step(t, ReadOp))
  {
    StepPlays(t, ReadOp);
    ReadMovesFront(t.w);
    if ReadSucceeds(t.w) { IncreasingAppend(t.played, t.w.Front()); }
  }

  /** In every run, resets and drained windows included, in which every packet that enters an empty window
      is above all ids played before it, the ids played are strictly increasing. */
  lemma PlayedInOrder(maxSize: nat, ops: seq<Op>)
    requires EntriesAdvance(maxSize, ops)
    ensures Increasing(Run(maxSize, ops).played)
  {
    RunInOrder(maxSize, ops);
  }

  lemma {:induction false} RunInOrder(maxSize: nat, ops: seq<Op>)
    requires EntriesAdvance(maxSize, ops)
    ensures InOrder(Run(maxSize, ops))
  {
    if ops != [] {
      RunInOrder(maxSize, ops[..|ops| - 1]);
      StepInOrder(Run(maxSize, ops[..|ops| - 1]), ops[|ops| - 1]);
    }
  }

  // ---------- Runs in which the window is not refilled ----------

  /** A run in which no packet enters an empty window once something has been played. Resets before that
      are allowed: the receiver makes them before it takes its first packet. */
  ghost predicate NotRefilled(maxSize: nat, ops: seq<Op>) {
    ops == [] ||
    var before, op := Run(maxSize, ops[..|ops| - 1]), ops[|ops| - 1];
    NotRefilled(maxSize, ops[..|ops| - 1]) && (Enters(before.w, op) ==> before.played == [])
  }

  /** Such a run is in order, whatever the network does to its packets. */
  lemma {:induction false} NotRefilledInOrder(maxSize: nat, ops: seq<Op>)
    requires NotRefilled(maxSize, ops)
    ensures EntriesAdvance(maxSize, ops)
    ensures Increasing(Run(maxSize, ops).played)
  {
    if ops != [] {
      NotRefilledInOrder(maxSize, ops[..|ops| - 1]);
    }
    PlayedInOrder(maxSize, ops);
  }

  // ---------- Exactly when nothing is skipped ----------

  /** Once a slot was read, the next slot read came right after it: none was evicted in between. */
  ghost predicate Unbroken(popped: seq<Pop>) {
    popped == [] ||
    var before, last := popped[..|popped| - 1], popped[|popped| - 1];
    && Unbroken(before)
    && (last.Played? && PlayedSince(before) != [] ==> before[|before| - 1].Played?)
  }

  /** In every run, with resets and drained windows, the last ids played are those the window has given since
      it was last entered. They are one packet size apart exactly if no eviction came between two of the
      reads. */
  lemma NothingSkippedIff(maxSize: nat, ops: seq<Op>)
    ensures var t := Run(maxSize, ops);
            && EndsWith<nat>(t.played, Ids(PlayedSince(t.popped)))
            && (t.popped != [] ==> (Grid(Ids(PlayedSince(t.popped)), t.w.packageSize) <==> Unbroken(t.popped)))
  {
    var t := Run(maxSize, ops);
    RunKeeps(maxSize, ops);
    PlayedSinceIsLast(maxSize, ops);
    if t.popped != [] {
      GridPrefix(PoppedIds(t.popped), t.w.ids, t.w.packageSize);
      UnbrokenIsGrid(t.popped, t.w.packageSize);
    }
  }

  lemma {:induction false} UnbrokenIsGrid(popped: seq<Pop>, step: nat)
    requires Grid(PoppedIds(popped), step)
    ensures Grid(Ids(PlayedSince(popped)), step) <==> Unbroken(popped)
  {
    if popped != [] {
      var before, last := popped[..|popped| - 1], popped[|popped| - 1];
      GridPrefix(PoppedIds(before), [last.id], step);
      UnbrokenIsGrid(before, step);
      OneMorePopped(popped, before, last);
      if last.Played? {
        NextOnGrid(PoppedIds(before), Ids(PlayedSince(before)), step, last.id);
        if PlayedSince(before) != [] {
          var m := PlayedSince(before)[|PlayedSince(before)| - 1];
          IdsAt(PlayedSince(before), |PlayedSince(before)| - 1);
          LastRead(before, step, last.id, m);
        }
      }
    }
  }

  /** What one more slot popped does. */
  lemma OneMorePopped(popped: seq<Pop>, before: seq<Pop>, last: Pop)
    requires popped != [] && before == popped[..|popped| - 1] && last == popped[|popped| - 1]
    ensures Ids(PlayedSince(popped)) == Ids(PlayedSince(before)) + if last.Played? then [last.id] else []
    ensures last.Evicted? || PlayedSince(before) == [] ==> (Unbroken(popped) <==> Unbroken(before))
    ensures last.Played? && PlayedSince(before) != [] ==>
              (Unbroken(popped) <==> Unbroken(before) && before[|before| - 1].Played?)
  {
    if last.Played? { IdsOfSum(PlayedSince(before), Message(last.id, last.data)); }
  }

  lemma NextOnGrid(line: seq<nat>, ids: seq<nat>, step: nat, id: nat)
    requires Grid(line + [id], step)
    ensures Grid(ids + [id], step) <==> Grid(ids, step) && (ids != [] ==> id == ids[|ids| - 1] + step)
  {
    GridAt(line + [id], step, |line|);
    GridOneMore(ids, step, id);
  }

  /** A read goes on from the last one exactly if that was of the slot before. */
  lemma LastRead(before: seq<Pop>, step: nat, id: nat, m: Message)
    requires Grid(PoppedIds(before) + [id], step)
    requires PlayedSince(before) != [] && m == PlayedSince(before)[|PlayedSince(before)| - 1]
    ensures before[|before| - 1].Played? <==> id == m.id + step
  {
    var n := |before| - 1;
    GridAt(PoppedIds(before) + [id], step, n + 1);
    GridPrefix(PoppedIds(before), [id], step);
    GridOneMore(PoppedIds(before), step, id);
    if before[n].Evicted? {
      PlayedBefore(before[..n], before[n].id, m, step);
    }
  }

  /** A read before an eviction is of a smaller id. */
  lemma PlayedBefore(popped: seq<Pop>, id: nat, m: Message, step: nat)
    requires Grid(PoppedIds(popped) + [id], step) && m in PlayedSince(popped)
    ensures m.id < id
  {
    PlayedWasPopped(popped, m);
    var i :| 0 <= i < |popped| && popped[i] == Played(m.id, m.data);
    PoppedAt(popped, i);
    GridOrder(PoppedIds(popped) + [id], step, i, |popped|);
  }

  // ---------- One packet into a drained window ----------

  /** A drained window takes any aligned packet. Read next, it leaves the order of what was played intact
      exactly if it is newer than everything before it. */
  lemma ReopenedOrder(t: Trace, msg: Message)
    requires Inv(t) && t.w.state == Readable && t.w.ids == [] && Increasing(t.played)
    requires Aligned(msg.id, t.w.packageSize)
    ensures var t' := Step(Step(t, WriteOp(msg)), ReadOp);
            Increasing(t'.played) <==> forall id :: id in t.played ==> id < msg.id
  {
    EnterDrained(t, msg);
    IncreasingAppend(t.played, msg.id);
  }

  /** The packet is alone in the window. */
  lemma EnterDrained(t: Trace, msg: Message)
    requires Valid(t.w) && t.w.state == Readable && t.w.ids == [] && Aligned(msg.id, t.w.packageSize)
    ensures var t1 := Step(t, WriteOp(msg));
            && t1.w.state == Readable && t1.w.ids == [msg.id] && t1.w.vals == [Some(msg.data)]
            && t1.played == t.played
  {
    assert Open(t.w, msg) == t.w;
    WritePlaysNothing(t, msg);
  }

  const FIVE := WriteOp(Message(5, [0]))
  const THREE := WriteOp(Message(3, [0]))

  lemma PlayFive()
    ensures var t := Run(1, [FIVE] + [ReadOp]);
            t.played == [5] && t.w.ids == [] && t.w.state == Readable && t.w.packageSize == 1
  {
    RunOneMore(1, [], FIVE);
    assert [] + [FIVE] == [FIVE] && Run(1, []) == Start(1);
    WriteFive();
    RunOneMore(1, [FIVE], ReadOp);
    ReadFive(Step(Start(1), FIVE));
  }

  lemma ReadFive(t: Trace)
    requires Valid(t.w) && t.w == Window(1, 1, Readable, 5, 5, 1, [5], [Some([0])]) && t.played == []
    ensures var t' := Step(t, ReadOp);
            t'.played == [5] && t'.w.ids == [] && t'.w.state == Readable && t'.w.packageSize == 1
  {
    assert Step(t, ReadOp).w == Read(t.w).0;
  }

  lemma WriteFive()
    ensures var t := Step(Start(1), FIVE);
            t.w == Window(1, 1, Readable, 5, 5, 1, [5], [Some([0])]) && t.played == []
  {
    AlwaysAligned(5);
    var w := Open(Initial(1), FIVE.msg);
    assert w == Window(1, 1, Readable, 5, 5, 1, [], []);
    assert Store(w, FIVE.msg) == w.(ids := [5], vals := [Some([0])]);
  }

  /** A run that plays id 5 and then id 3. */
  lemma DrainLosesOrder()
    ensures !Increasing(Run(1, [FIVE] + [ReadOp] + [THREE] + [ReadOp]).played)
  {
    PlayFive();
    RunKeeps(1, [FIVE] + [ReadOp]);
    ThreeAfterFive(Run(1, [FIVE] + [ReadOp]));
  }

  lemma ThreeAfterFive(t: Trace)
    requires Inv(t) && t.played == [5] && t.w.ids == [] && t.w.state == Readable && t.w.packageSize == 1
    ensures !Increasing(Step(Step(t, THREE), ReadOp).played)
  {
    AlwaysAligned(3);
    ReopenedOrder(t, THREE.msg);
    assert 5 in t.played;
  }

  lemma {:induction false} AlwaysAligned(id: nat)
    ensures Aligned(id, 1)
  {
    if id > 0 { AlwaysAligned(id - 1); }
  }
}
