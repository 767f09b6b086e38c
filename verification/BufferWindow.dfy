/** What each operation of the receiver's buffer (src/receiver/buffer.hpp) means, on values.

    The window is a run of slots `packageSize` apart; a slot without a value is a hole left for a
    packet that was missed. Three points of the source are settled here:
    - The scan for missed ids subscripts the deque with a byte id. The slot position of
      save_missed_message is meant, and modelled; SubscriptIsPosition says when the two agree.
    - has_space_for reads the ends of a deque that may be empty; an empty deque has no space.
    - A first packet larger than the whole buffer gives capacity 0, which never evicts. */
module BufferWindows {
  import opened Types
  import opened Progressions

  datatype SessionState = NoSession | Waiting | Readable

  datatype BufferError = Misaligned | NotReadable

  datatype Window = Window(
    maxSize: nat, maxElements: nat, state: SessionState, lastId: nat, byteZero: nat, packageSize: nat,
    ids: seq<nat>, vals: seq<Option<Payload>>)
  {
    function Front(): nat requires ids != [] { ids[0] }
    function Back(): nat requires ids != [] { ids[|ids| - 1] }
  }

  function Initial(maxSize: nat): Window {
    Window(maxSize, 0, NoSession, 0, 0, 0, [], [])
  }

  /** At least one slot, at most what fits, on the grid of the packet size. */
  ghost predicate Bounded(w: Window) {
    && |w.vals| == |w.ids| > 0
    && (w.maxElements > 0 ==> |w.ids| <= w.maxElements)
    && Grid(w.ids, w.packageSize)
  }

  ghost predicate Valid(w: Window) {
    && |w.vals| == |w.ids|
    && (w.state == NoSession ==> w.ids == [])
    && (w.state != NoSession ==> w.packageSize > 0)
    && (w.ids != [] ==>
          && Bounded(w)
          && w.vals[|w.vals| - 1].Some?
          && Aligned(w.lastId, w.packageSize)
          && w.lastId <= w.Back())
  }

  /** What the scan relies on. Before the first packet is stored the last id may be unaligned; then
      the window is one slot and nothing is scanned. */
  ghost predicate Scannable(w: Window, after: nat, before: nat) {
    && |w.ids| == |w.vals| > 0 && Grid(w.ids, w.packageSize) && w.vals[|w.vals| - 1].Some?
    && Aligned(before, w.packageSize)
    && (Aligned(after, w.packageSize) || |w.ids| == 1)
  }

  /** The ids of the empty slots. */
  function Holes(w: Window): set<nat>
    requires |w.vals| == |w.ids|
  {
    set k | 0 <= k < |w.ids| && w.vals[k].None? :: w.ids[k]
  }

  /** The id from which on a packet makes the buffer readable: three quarters full. */
  function Threshold(w: Window): nat {
    w.byteZero + w.maxElements * w.packageSize * 3 / 4
  }

  /** A packet may open the session, and may make the buffer readable, before it is looked at. */
  function Open(w: Window, msg: Message): Window
    requires w.state == NoSession ==> msg.data != []
  {
    var started :=
      if w.state == NoSession then
        w.(byteZero := msg.id, lastId := msg.id, packageSize := |msg.data|,
           maxElements := w.maxSize / |msg.data|, state := Waiting)
      else w;
    if msg.id >= Threshold(started) then started.(state := Readable) else started
  }

  /** A slot pushed at the back, after the front is popped if the window is full. */
  function PushSlot(w: Window, id: nat, val: Option<Payload>): Window
    requires |w.vals| == |w.ids| > 0
  {
    if |w.ids| == w.maxElements then w.(ids := w.ids[1..] + [id], vals := w.vals[1..] + [val])
    else w.(ids := w.ids + [id], vals := w.vals + [val])
  }

  /** A hole pushed for each id skipped between the back and a later id. */
  function PushHoles(w: Window, id: nat): (w': Window)
    requires |w.vals| == |w.ids| > 0 && w.packageSize > 0
    ensures |w'.vals| == |w'.ids| > 0
    decreases id - w.Back()
  {
    var next := w.Back() + w.packageSize;
    if next < id then PushHoles(PushSlot(w, next, None), id) else w
  }

  /** The values with a packet's data in the slot that bears its id, if any. */
  function Filled(ids: seq<nat>, vals: seq<Option<Payload>>, msg: Message): (r: seq<Option<Payload>>)
    requires |vals| == |ids|
    ensures |r| == |vals|
    ensures forall k :: 0 <= k < |r| ==> r[k] == if ids[k] == msg.id then Some(msg.data) else vals[k]
  {
    seq(|vals|, k requires 0 <= k < |vals| => if ids[k] == msg.id then Some(msg.data) else vals[k])
  }

  /** The window with a packet saved: alone in an empty window; past the back, after one hole for
      each id skipped, keeping the newest slots that fit; inside, in the slot that bears its id;
      before the front, nowhere. */
  function Store(w: Window, msg: Message): (w': Window)
    requires |w.vals| == |w.ids| && (w.ids != [] ==> w.packageSize > 0)
    ensures |w'.vals| == |w'.ids| > 0
  {
    if w.ids == [] then w.(ids := [msg.id], vals := [Some(msg.data)])
    else if msg.id > w.Back() then PushSlot(PushHoles(w, msg.id), msg.id, Some(msg.data))
    else w.(vals := Filled(w.ids, w.vals, msg))
  }

  /** The ids strictly between two ids whose slots are in the window and empty. */
  function Missed(w: Window, after: nat, before: nat): set<nat>
    requires |w.vals| == |w.ids|
  {
    set k | 0 <= k < |w.ids| && w.vals[k].None? && after < w.ids[k] < before :: w.ids[k]
  }

  function Write(w: Window, msg: Message): (r: (Window, Result<set<nat>, BufferError>))
    requires Valid(w)
    requires w.state == NoSession ==> msg.data != []
  {
    var started := Open(w, msg);
    if !Aligned(msg.id, started.packageSize) then
      (started, Err(Misaligned))
    else
      var stored := Store(started, msg);
      StoreValid(started, msg);
      (stored.(lastId := msg.id), Ok(Missed(stored, started.lastId, msg.id)))
  }

  function Read(w: Window): (r: (Window, Result<Option<Payload>, BufferError>))
    requires Valid(w)
  {
    if w.state != Readable then (w, Ok(None))
    else if w.ids == [] || w.vals[0].None? then (w, Err(NotReadable))
    else (w.(ids := w.ids[1..], vals := w.vals[1..]), Ok(w.vals[0]))
  }

  function Reset(w: Window): Window {
    w.(state := NoSession, ids := [], vals := [])
  }

  predicate HasSpaceFor(w: Window, id: nat) {
    w.state != NoSession && w.ids != [] && w.Front() <= id <= w.Back()
  }

  // ---------- Every operation keeps the representation ----------

  lemma StoreValid(w: Window, msg: Message)
    requires Valid(w) && w.state != NoSession && Aligned(msg.id, w.packageSize)
    ensures Valid(Store(w, msg).(lastId := msg.id))
    ensures Scannable(Store(w, msg), w.lastId, msg.id)
    ensures w.ids == [] || msg.id > w.Back() ==> Store(w, msg).Back() == msg.id
    ensures w.ids != [] && msg.id <= w.Back() ==> Store(w, msg).ids == w.ids
  {
    if w.ids != [] {
      if msg.id > w.Back() {
        StoreNew(w, msg);
      } else {
        BackAligned(w.ids, w.packageSize);
      }
    }
  }

  /** A packet past the back ends the window, filled. */
  lemma StoreNew(w: Window, msg: Message)
    requires Bounded(w) && Aligned(msg.id, w.packageSize) && msg.id > w.Back()
    ensures var w' := Store(w, msg);
            && Bounded(w') && w'.Back() == msg.id && w'.vals[|w'.vals| - 1] == Some(msg.data)
            && w' == w.(ids := w'.ids, vals := w'.vals)
  {
    var w1 := PushHoles(w, msg.id);
    PushHolesGrid(w, msg.id);
    PushSlotGrid(w1, Some(msg.data));
    assert Store(w, msg) == PushSlot(w1, msg.id, Some(msg.data));
  }

  lemma PushSlotGrid(w: Window, val: Option<Payload>)
    requires Bounded(w)
    ensures Bounded(PushSlot(w, w.Back() + w.packageSize, val))
  {
    if |w.ids| == w.maxElements {
      GridSlide(w.ids, w.packageSize);
    }
  }

  /** After the holes for an aligned id, that id is the next one. */
  lemma {:induction false} PushHolesGrid(w: Window, id: nat)
    requires Bounded(w) && Aligned(id, w.packageSize) && w.Back() < id
    ensures var w' := PushHoles(w, id);
            Bounded(w') && id == w'.Back() + w.packageSize && w' == w.(ids := w'.ids, vals := w'.vals)
    decreases id - w.Back()
  {
    var next := w.Back() + w.packageSize;
    BackAligned(w.ids, w.packageSize);
    AlignedBelow(w.Back(), id, w.packageSize);
    if next < id {
      var w1 := PushSlot(w, next, None);
      PushSlotGrid(w, None);
      PushHolesGrid(w1, id);
      assert PushHoles(w, id) == PushHoles(w1, id);
    }
  }

  lemma StoreFrame(w: Window, msg: Message)
    requires Valid(w) && w.state != NoSession && Aligned(msg.id, w.packageSize)
    ensures Store(w, msg) == w.(ids := Store(w, msg).ids, vals := Store(w, msg).vals)
  {
    if w.ids != [] && msg.id > w.Back() { StoreNew(w, msg); }
  }

  lemma WriteValid(w: Window, msg: Message)
    requires Valid(w) && (w.state == NoSession ==> msg.data != [])
    ensures Valid(Write(w, msg).0)
  {
    var started := Open(w, msg);
    if Aligned(msg.id, started.packageSize) {
      StoreValid(started, msg);
    }
  }

  lemma ReadValid(w: Window)
    requires Valid(w)
    ensures Valid(Read(w).0)
  {
    if w.state == Readable && w.ids != [] {
      GridTail(w.ids, w.packageSize);
    }
  }

  // ---------- What the positions and the space test mean ----------

  /** An aligned id has space exactly when it is the id of a slot. */
  lemma SpaceIsMembership(w: Window, id: nat)
    requires Valid(w)
    requires w.state != NoSession ==> Aligned(id, w.packageSize)
    ensures HasSpaceFor(w, id) <==> id in w.ids
  {
    if HasSpaceFor(w, id) {
      PositionOf(w.ids, w.packageSize, id);
    }
    if id in w.ids {
      GridIncreasing(w.ids, w.packageSize);
    }
  }

  /** The scan subscripts the deque with the id itself. For an id it can reach that subscript is the
      position of the id only with one-byte packets in a window that starts at id 0. */
  lemma SubscriptIsPosition(w: Window, id: nat)
    requires Valid(w) && 0 < id && id in w.ids
    ensures id < |w.ids| && w.ids[id] == id <==> w.packageSize == 1 && w.Front() == 0
  {
    var k :| 0 <= k < |w.ids| && w.ids[k] == id;
    NthIsProduct(w.Front(), w.packageSize, k);
    if w.packageSize == 1 && w.Front() == 0 {
      GridAt(w.ids, w.packageSize, k);
      assert k == id;
    } else if id < |w.ids| && w.ids[id] == id {
      GridAt(w.ids, w.packageSize, id);
      NthIsProduct(w.Front(), w.packageSize, id);
      if w.packageSize > 1 { MulGap(1, w.packageSize, id); }
    }
  }

  // ---------- The loop of pushes, in closed form ----------

  /** A packet past the back leaves the newest slots that fit of: the old window, one hole for each
      multiple skipped, the packet. Any gap length, any capacity. */
  lemma StoreClosedForm(w: Window, msg: Message)
    requires Valid(w) && w.ids != [] && Aligned(msg.id, w.packageSize) && msg.id > w.Back()
    ensures var n := (msg.id - w.Back()) / w.packageSize;
            && n > 0
            && Store(w, msg).ids
               == Keep<nat>(w.maxElements, w.ids + Progression(w.Back() + w.packageSize, w.packageSize, n))
            && Store(w, msg).vals
               == Keep(w.maxElements, w.vals + Repeat(None, n - 1) + [Some(msg.data)])
  {
    BackAligned(w.ids, w.packageSize);
    StepsOfNext(w.Back(), msg.id, w.packageSize);
    StoreIds(w, msg);
    StoreVals(w, msg);
  }

  lemma StoreVals(w: Window, msg: Message)
    requires Bounded(w) && Aligned(msg.id, w.packageSize) && msg.id > w.Back()
    ensures Store(w, msg).vals
         == Keep(w.maxElements, w.vals + Repeat(None, Steps(msg.id - w.Back() - 1, w.packageSize)) + [Some(msg.data)])
  {
    var k := Steps(msg.id - w.Back() - 1, w.packageSize);
    PushHolesGrid(w, msg.id);
    HoleVals(w, msg.id);
    PushIsKeep(PushHoles(w, msg.id), msg.id, Some(msg.data));
    KeepTwice(w.maxElements, w.vals + Repeat(None, k), [Some(msg.data)]);
  }

  /** The ids a window would hold after `n` more, less what does not fit. */
  function Grown(w: Window, n: nat): seq<nat>
    requires w.ids != []
  {
    Keep<nat>(w.maxElements, w.ids + Progression(w.Back() + w.packageSize, w.packageSize, n))
  }

  lemma StoreIds(w: Window, msg: Message)
    requires Bounded(w) && Aligned(msg.id, w.packageSize) && msg.id > w.Back()
    ensures Store(w, msg).ids == Grown(w, Steps(msg.id - w.Back() - 1, w.packageSize) + 1)
  {
    var w1, k := PushHoles(w, msg.id), Steps(msg.id - w.Back() - 1, w.packageSize);
    assert w1.ids == Grown(w, k) by { HoleIds(w, msg.id); }
    assert Bounded(w1) && w1.maxElements == w.maxElements by { PushHolesGrid(w, msg.id); }
    assert Store(w, msg).ids == Keep<nat>(w.maxElements, w1.ids + [msg.id]) by {
      PushIsKeep(w1, msg.id, Some(msg.data));
    }
    assert msg.id == Nth(w.Back() + w.packageSize, w.packageSize, k) by {
      BackAligned(w.ids, w.packageSize);
      SkippedSteps(w.Back(), msg.id, w.packageSize);
    }
    KeepLast(w.maxElements, w.ids, w.Back() + w.packageSize, w.packageSize, k);
  }

  lemma PushIsKeep(w: Window, id: nat, val: Option<Payload>)
    requires Bounded(w)
    ensures PushSlot(w, id, val).ids == Keep<nat>(w.maxElements, w.ids + [id])
    ensures PushSlot(w, id, val).vals == Keep(w.maxElements, w.vals + [val])
  {
  }

  /** The first of the holes, and then the others. */
  lemma HolesStep(w: Window, id: nat)
    requires Bounded(w) && w.Back() + w.packageSize < id
    ensures var next, k := w.Back() + w.packageSize, Steps(id - w.Back() - 1, w.packageSize);
            var w1 := PushSlot(w, next, None);
            && Bounded(w1) && w1.Back() == next && PushHoles(w, id) == PushHoles(w1, id)
            && k > 0 && Steps(id - next - 1, w.packageSize) == k - 1
            && Grown(w1, k - 1) == Grown(w, k)
            && Keep(w.maxElements, w1.vals + Repeat(None, k - 1)) == Keep(w.maxElements, w.vals + Repeat(None, k))
  {
    var next, k := w.Back() + w.packageSize, Steps(id - w.Back() - 1, w.packageSize);
    PushSlotGrid(w, None);
    PushIsKeep(w, next, None);
    KeepProgression(w.maxElements, w.ids, next, w.packageSize, k);
    KeepRepeat<Option<Payload>>(w.maxElements, w.vals, None, k);
  }

  lemma {:induction false} HoleIds(w: Window, id: nat)
    requires Bounded(w) && w.Back() < id
    ensures PushHoles(w, id).ids == Grown(w, Steps(id - w.Back() - 1, w.packageSize))
    decreases id - w.Back()
  {
    var next := w.Back() + w.packageSize;
    if next < id {
      HolesStep(w, id);
      HoleIds(PushSlot(w, next, None), id);
    } else {
      assert w.ids + Progression(next, w.packageSize, 0) == w.ids;
    }
  }

  lemma {:induction false} HoleVals(w: Window, id: nat)
    requires Bounded(w) && w.Back() < id
    ensures PushHoles(w, id).vals
         == Keep(w.maxElements, w.vals + Repeat(None, Steps(id - w.Back() - 1, w.packageSize)))
    decreases id - w.Back()
  {
    if w.Back() + w.packageSize < id {
      HolesStep(w, id);
      HoleVals(PushSlot(w, w.Back() + w.packageSize, None), id);
    } else {
      assert w.vals + Repeat(None, 0) == w.vals;
    }
  }

  // ---------- The scan for missed ids ----------

  /** The scan may start one step after the last id, or at the front if that is later. */
  lemma MissedStart(w: Window, after: nat, before: nat, next: nat)
    requires Scannable(w, after, before)
    requires next == if after + w.packageSize < w.Front() then w.Front() else after + w.packageSize
    ensures var end := if before < w.Back() then before else w.Back();
            if next < end
            then Aligned(next, w.packageSize) && w.Front() <= next && after < next && Missed(w, after, next) == {}
            else Missed(w, after, before) == {}
  {
    GridIncreasing(w.ids, w.packageSize);
    if |w.ids| > 1 {
      GridAt(w.ids, w.packageSize, 0);
      NthAligned(after, w.packageSize, 1);
      NothingBetween(w.ids, w.packageSize, after);
    }
  }

  /** One turn of the scan looks at one slot. */
  lemma MissedStep(w: Window, after: nat, before: nat, pos: nat)
    requires Scannable(w, after, before) && pos < |w.ids| - 1 && after < w.ids[pos] < before
    ensures var end, next := if before < w.Back() then before else w.Back(), w.ids[pos] + w.packageSize;
            && next <= end && Aligned(next, w.packageSize) && w.Front() <= next
            && Missed(w, after, if next < end then next else before)
               == Missed(w, after, w.ids[pos]) + if w.vals[pos].None? then {w.ids[pos]} else {}
  {
    GridIncreasing(w.ids, w.packageSize);
    GridAt(w.ids, w.packageSize, pos);
    BackAligned(w.ids, w.packageSize);
    NthAligned(w.ids[pos], w.packageSize, 1);
    AlignedBelow(w.ids[pos], w.Back(), w.packageSize);
    AlignedBelow(w.ids[pos], before, w.packageSize);
    NothingBetween(w.ids, w.packageSize, w.ids[pos]);
  }
}
