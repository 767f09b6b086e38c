/** What holds over every sequence of buffer operations. A trace pairs the window with a record of
    what happened to it: which ids were reported missing since the last reset, which payload was last
    stored for each id, and which slots left at the front. The last two start afresh when a packet
    enters an empty window, because such a packet is accepted whatever its id. */
module BufferRuns {
  import opened Types
  import opened Progressions
  import opened BufferWindows
  import opened Contents

  datatype Op = WriteOp(msg: Message) | ReadOp | ResetOp

  datatype Pop = Played(id: nat, data: Payload) | Evicted(id: nat)

  datatype Trace = Trace(
    w: Window,
    requested: set<nat>,
    stored: map<nat, Payload>,
    popped: seq<Pop>,
    played: seq<nat>)

  /** The source divides by the size of the packet that opens a session. */
  predicate Enabled(w: Window, op: Op) {
    op.WriteOp? && w.state == NoSession ==> op.msg.data != []
  }

  /** PushSlot, recording the slot it evicts. */
  function TracePush(t: Trace, id: nat, val: Option<Payload>): Trace
    requires |t.w.vals| == |t.w.ids| > 0
  {
    t.(w := PushSlot(t.w, id, val),
       popped := if |t.w.ids| == t.w.maxElements then t.popped + [Evicted(t.w.Front())] else t.popped)
  }

  /** PushHoles, recording the slots it evicts. */
  function TraceHoles(t: Trace, id: nat): (t': Trace)
    requires |t.w.vals| == |t.w.ids| > 0 && t.w.packageSize > 0
    ensures |t'.w.vals| == |t'.w.ids| > 0
    decreases id - t.w.Back()
  {
    var next := t.w.Back() + t.w.packageSize;
    if next < id then TraceHoles(TracePush(t, next, None), id) else t
  }

  lemma {:induction false} TraceHolesWindow(t: Trace, id: nat)
    requires |t.w.vals| == |t.w.ids| > 0 && t.w.packageSize > 0
    ensures TraceHoles(t, id).w == PushHoles(t.w, id)
    decreases id - t.w.Back()
  {
    var next := t.w.Back() + t.w.packageSize;
    if next < id {
      TraceHolesWindow(TracePush(t, next, None), id);
    }
  }

  function TraceStore(t: Trace, msg: Message): (t': Trace)
    requires |t.w.vals| == |t.w.ids| && (t.w.ids != [] ==> t.w.packageSize > 0)
    ensures t'.w == Store(t.w, msg)
  {
    if t.w.ids == [] then
      t.(w := Store(t.w, msg), stored := map[msg.id := msg.data], popped := [])
    else if msg.id > t.w.Back() then
      TraceHolesWindow(t, msg.id);
      var t1 := TracePush(TraceHoles(t, msg.id), msg.id, Some(msg.data));
      t1.(stored := t1.stored[msg.id := msg.data])
    else if msg.id < t.w.Front() then
      t.(w := Store(t.w, msg))
    else
      t.(w := Store(t.w, msg), stored := t.stored[msg.id := msg.data])
  }

  function TraceWrite(t: Trace, msg: Message): (t': Trace)
    requires Valid(t.w) && Enabled(t.w, WriteOp(msg))
    ensures t'.w == Write(t.w, msg).0
  {
    var t1 := t.(w := Open(t.w, msg));
    if !Aligned(msg.id, t1.w.packageSize) then t1
    else
      var t2 := TraceStore(t1, msg);
      t2.(w := t2.w.(lastId := msg.id), requested := t.requested + Write(t.w, msg).1.value)
  }

  function TraceRead(t: Trace): (t': Trace)
    requires Valid(t.w)
    ensures t'.w == Read(t.w).0
  {
    match Read(t.w)
    case (w', Ok(Some(data))) =>
      t.(w := w', popped := t.popped + [Played(t.w.Front(), data)], played := t.played + [t.w.Front()])
    case _ => t
  }

  /** One operation; an operation that is not enabled leaves the trace alone. */
  function Step(t: Trace, op: Op): (t': Trace)
    requires Valid(t.w)
    ensures Valid(t'.w)
  {
    if !Enabled(t.w, op) then t
    else
      match op
      case WriteOp(msg) => WriteValid(t.w, msg); TraceWrite(t, msg)
      case ReadOp => ReadValid(t.w); TraceRead(t)
      case ResetOp => Trace(Reset(t.w), {}, map[], [], t.played)
  }

  function Start(maxSize: nat): Trace {
    Trace(Initial(maxSize), {}, map[], [], [])
  }

  function Run(maxSize: nat, ops: seq<Op>): (t: Trace)
    ensures Valid(t.w)
  {
    if ops == [] then Start(maxSize) else Step(Run(maxSize, ops[..|ops| - 1]), ops[|ops| - 1])
  }

  lemma RunOneMore(maxSize: nat, ops: seq<Op>, op: Op)
    ensures Run(maxSize, ops + [op]) == Step(Run(maxSize, ops), op)
  {
    assert (ops + [op])[..|ops|] == ops;
  }

  // ---------- The invariant ----------

  function PoppedIds(popped: seq<Pop>): (r: seq<nat>)
    ensures |r| == |popped|
  {
    if popped == [] then [] else PoppedIds(popped[..|popped| - 1]) + [popped[|popped| - 1].id]
  }

  /** Every id that has been in the window since it was last empty, in the order of the slots. */
  function Line(t: Trace): seq<nat> {
    PoppedIds(t.popped) + t.w.ids
  }

  function Get(stored: map<nat, Payload>, id: nat): Option<Payload> {
    if id in stored then Some(stored[id]) else None
  }

  /** The slots hold what was last stored under their ids. */
  ghost predicate SlotsMatch(w: Window, stored: map<nat, Payload>)
    requires |w.vals| == |w.ids|
  {
    forall k :: 0 <= k < |w.ids| ==> w.vals[k] == Get(stored, w.ids[k])
  }

  ghost predicate StoredBelow(stored: map<nat, Payload>, bound: nat) {
    forall id :: id in stored ==> id <= bound
  }

  /** What was played is what was last stored under its id. */
  ghost predicate PlayedMatch(popped: seq<Pop>, stored: map<nat, Payload>) {
    forall p :: p in popped && p.Played? ==> p.id in stored && stored[p.id] == p.data
  }

  ghost predicate Conserved(t: Trace) {
    Line(t) != [] ==> Grid(Line(t), t.w.packageSize)
  }

  ghost predicate History(t: Trace)
    requires |t.w.vals| == |t.w.ids|
  {
    && Conserved(t)
    && SlotsMatch(t.w, t.stored)
    && PlayedMatch(t.popped, t.stored)
    && (t.w.ids != [] ==> StoredBelow(t.stored, t.w.Back()))
  }

  ghost predicate NoSilentGaps(t: Trace)
    requires |t.w.vals| == |t.w.ids|
  {
    Holes(t.w) <= t.requested
  }

  ghost predicate Inv(t: Trace) {
    Valid(t.w) && History(t) && NoSilentGaps(t) && (t.w.state == NoSession ==> t.popped == [])
  }

  /** What holds between two pushes. */
  ghost predicate Pushing(t: Trace) {
    Bounded(t.w) && History(t)
  }

  lemma LineOfPush(t: Trace, id: nat, val: Option<Payload>)
    requires |t.w.vals| == |t.w.ids| > 0
    ensures Line(TracePush(t, id, val)) == Line(t) + [id]
  {
    if |t.w.ids| == t.w.maxElements {
      var popped := t.popped + [Evicted(t.w.Front())];
      assert popped[..|popped| - 1] == t.popped;
      assert PoppedIds(t.popped) + [t.w.Front()] + (t.w.ids[1..] + [id]) == PoppedIds(t.popped) + t.w.ids + [id];
    } else {
      Assoc<nat>(PoppedIds(t.popped), t.w.ids, [id]);
    }
  }

  lemma PushConserves(t: Trace, val: Option<Payload>)
    requires Bounded(t.w) && Conserved(t)
    ensures Conserved(TracePush(t, t.w.Back() + t.w.packageSize, val))
  {
    LineOfPush(t, t.w.Back() + t.w.packageSize, val);
    assert Line(t)[|Line(t)| - 1] == t.w.Back();
  }

  /** Pushing a later slot, with the value the record gives it. */
  lemma PushMatches(w: Window, stored: map<nat, Payload>, id: nat, val: Option<Payload>)
    requires Bounded(w) && SlotsMatch(w, stored) && StoredBelow(stored, w.Back()) && w.Back() < id
    ensures SlotsMatch(PushSlot(w, id, val), if val.Some? then stored[id := val.value] else stored)
  {
    GridIncreasing(w.ids, w.packageSize);
  }

  lemma PushHoleKeeps(t: Trace)
    requires Pushing(t)
    ensures Pushing(TracePush(t, t.w.Back() + t.w.packageSize, None))
  {
    var id := t.w.Back() + t.w.packageSize;
    var t' := TracePush(t, id, None);
    PushSlotGrid(t.w, None);
    PushConserves(t, None);
    PushMatches(t.w, t.stored, id, None);
    assert t'.w.Back() == id;
    assert PlayedMatch(t'.popped, t'.stored);
  }

  lemma {:induction false} TraceHolesFrame(t: Trace, id: nat)
    requires Bounded(t.w) && Aligned(id, t.w.packageSize) && t.w.Back() < id
    ensures TraceHoles(t, id) == t.(w := TraceHoles(t, id).w, popped := TraceHoles(t, id).popped)
    decreases id - t.w.Back()
  {
    if t.w.Back() + t.w.packageSize < id {
      PushSlotGrid(t.w, None);
      TraceHolesFrame(TracePush(t, t.w.Back() + t.w.packageSize, None), id);
    }
  }

  lemma {:induction false} TraceHolesKeeps(t: Trace, id: nat)
    requires Pushing(t)
    ensures Pushing(TraceHoles(t, id))
    decreases id - t.w.Back()
  {
    var next := t.w.Back() + t.w.packageSize;
    if next < id {
      PushHoleKeeps(t);
      TraceHolesKeeps(TracePush(t, next, None), id);
      TraceHolesStep(t, id);
    }
  }

  lemma TraceHolesStep(t: Trace, id: nat)
    requires |t.w.vals| == |t.w.ids| > 0 && t.w.packageSize > 0 && t.w.Back() + t.w.packageSize < id
    ensures TraceHoles(t, id) == TraceHoles(TracePush(t, t.w.Back() + t.w.packageSize, None), id)
  {
  }

  /** The packet's own slot, once the holes before it are in place. */
  lemma PushPacketKeeps(t: Trace, msg: Message)
    requires Pushing(t) && msg.id == t.w.Back() + t.w.packageSize
    ensures History(TracePush(t, msg.id, Some(msg.data)).(stored := t.stored[msg.id := msg.data]))
  {
    var t1 := TracePush(t, msg.id, Some(msg.data));
    var t' := t1.(stored := t.stored[msg.id := msg.data]);
    PushConserves(t, Some(msg.data));
    assert Line(t') == Line(t1);
    PushMatches(t.w, t.stored, msg.id, Some(msg.data));
    assert PlayedMatch(t'.popped, t'.stored) by { LineBounds(t); GridIncreasing(t.w.ids, t.w.packageSize); }
  }

  lemma StoreNewKeeps(t: Trace, msg: Message)
    requires Pushing(t) && Aligned(msg.id, t.w.packageSize) && t.w.Back() < msg.id
    ensures History(TraceStore(t, msg))
  {
    var t1 := TraceHoles(t, msg.id);
    TraceHolesFrame(t, msg.id);
    TraceHolesKeeps(t, msg.id);
    PushHolesGrid(t.w, msg.id);
    TraceHolesWindow(t, msg.id);
    PushPacketKeeps(t1, msg);
    assert TraceStore(t, msg) == TracePush(t1, msg.id, Some(msg.data)).(stored := t1.stored[msg.id := msg.data]);
  }

  /** What was popped lies before the window. */
  lemma LineBounds(t: Trace)
    requires Bounded(t.w) && Conserved(t)
    ensures forall p :: p in t.popped ==> p.id < t.w.Front()
  {
    forall p | p in t.popped ensures p.id < t.w.Front() {
      var i :| 0 <= i < |t.popped| && t.popped[i] == p;
      PoppedAt(t.popped, i);
      GridOrder(Line(t), t.w.packageSize, i, |t.popped|);
    }
  }

  lemma {:induction false} PoppedAt(popped: seq<Pop>, i: nat)
    requires i < |popped|
    ensures PoppedIds(popped)[i] == popped[i].id
  {
    if i < |popped| - 1 { PoppedAt(popped[..|popped| - 1], i); }
  }

  /** A packet inside the window, or before it. */
  lemma StoreOldKeeps(t: Trace, msg: Message)
    requires Bounded(t.w) && History(t) && msg.id <= t.w.Back() && Aligned(msg.id, t.w.packageSize)
    ensures History(TraceStore(t, msg))
  {
    LineBounds(t);
    GridIncreasing(t.w.ids, t.w.packageSize);
    assert Line(TraceStore(t, msg)) == Line(t);
  }

  /** An empty window starts a new line. */
  lemma StoreFirstKeeps(t: Trace, msg: Message)
    requires t.w.ids == [] && t.w.vals == [] && t.w.packageSize > 0 && Aligned(msg.id, t.w.packageSize)
    ensures History(TraceStore(t, msg))
  {
    assert Line(TraceStore(t, msg)) == [msg.id];
    assert Progression(msg.id, t.w.packageSize, 1) == [msg.id];
  }

  lemma StoreKeeps(t: Trace, msg: Message)
    requires t.w.state != NoSession && Inv(t) && Aligned(msg.id, t.w.packageSize)
    ensures History(TraceStore(t, msg))
  {
    if t.w.ids == [] {
      StoreFirstKeeps(t, msg);
    } else if msg.id > t.w.Back() {
      StoreNewKeeps(t, msg);
    } else {
      StoreOldKeeps(t, msg);
    }
  }

  lemma OpenKeeps(t: Trace, msg: Message)
    requires Inv(t) && Enabled(t.w, WriteOp(msg))
    ensures Inv(t.(w := Open(t.w, msg))) && Open(t.w, msg).state != NoSession
  {
    assert Line(t.(w := Open(t.w, msg))) == Line(t);
  }

  lemma TraceWriteKeeps(t: Trace, msg: Message)
    requires Inv(t) && Enabled(t.w, WriteOp(msg))
    ensures Inv(TraceWrite(t, msg))
  {
    var t1 := t.(w := Open(t.w, msg));
    OpenKeeps(t, msg);
    WriteContents(t.w, msg);
    if Aligned(msg.id, t1.w.packageSize) {
      var t2, t' := TraceStore(t1, msg), TraceWrite(t, msg);
      StoreKeeps(t1, msg);
      WriteValid(t.w, msg);
      assert Line(t') == Line(t2);
    }
  }

  /** A slot that is read moves from the window to what was popped. */
  lemma ReadLine(t: Trace)
    requires Valid(t.w)
    ensures Line(TraceRead(t)) == Line(t)
  {
    var t' := TraceRead(t);
    if t' != t {
      assert t'.popped[..|t'.popped| - 1] == t.popped;
      Assoc<nat>(PoppedIds(t.popped), [t.w.Front()], t.w.ids[1..]);
      assert t.w.ids == [t.w.Front()] + t.w.ids[1..];
    }
  }

  lemma TraceReadKeeps(t: Trace)
    requires Inv(t)
    ensures Inv(TraceRead(t))
  {
    ReadLine(t);
    ReadValid(t.w);
    ReadContents(t.w);
  }

  lemma StepKeeps(t: Trace, op: Op)
    requires Inv(t)
    ensures Inv(Step(t, op))
  {
    if Enabled(t.w, op) {
      match op
      case WriteOp(msg) => TraceWriteKeeps(t, msg);
      case ReadOp => TraceReadKeeps(t);
      case ResetOp => assert Line(Step(t, op)) == [];
    }
  }

  lemma {:induction false} RunKeeps(maxSize: nat, ops: seq<Op>)
    ensures Inv(Run(maxSize, ops))
  {
    if ops == [] {
      assert Line(Start(maxSize)) == [];
    } else {
      RunKeeps(maxSize, ops[..|ops| - 1]);
      StepKeeps(Run(maxSize, ops[..|ops| - 1]), ops[|ops| - 1]);
    }
  }

  // ---------- What operations play ----------

  lemma {:induction false} HolesPlayNothing(t: Trace, id: nat)
    requires |t.w.vals| == |t.w.ids| > 0 && t.w.packageSize > 0
    ensures TraceHoles(t, id).played == t.played
    decreases id - t.w.Back()
  {
    var next := t.w.Back() + t.w.packageSize;
    if next < id { HolesPlayNothing(TracePush(t, next, None), id); }
  }

  lemma WritePlaysNothing(t: Trace, msg: Message)
    requires Valid(t.w) && Enabled(t.w, WriteOp(msg))
    ensures TraceWrite(t, msg).played == t.played
  {
    var t1 := t.(w := Open(t.w, msg));
    if t1.w.ids != [] && msg.id > t1.w.Back() { HolesPlayNothing(t1, msg.id); }
  }
}
