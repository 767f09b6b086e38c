/** Which packets, holes and ids an operation can put into the window. */
module Contents {
  import opened Types
  import opened Progressions
  import opened BufferWindows

  /** The filled slots. */
  function Packets(w: Window): set<Message>
    requires |w.vals| == |w.ids|
  {
    set k | 0 <= k < |w.ids| && w.vals[k].Some? :: Message(w.ids[k], w.vals[k].value)
  }

  /** `v` has no new packets, and what else is new in it lies past the back of `w` and before `bound`. */
  ghost predicate Grew(w: Window, v: Window, bound: nat)
    requires |w.vals| == |w.ids| > 0 && |v.vals| == |v.ids|
  {
    && Packets(v) <= Packets(w)
    && (forall h :: h in Holes(v) ==> h in Holes(w) || w.Back() < h < bound)
    && (forall i :: i in v.ids ==> i in w.ids || w.Back() < i < bound)
  }

  lemma PushHoleGrew(w: Window, id: nat, bound: nat)
    requires |w.vals| == |w.ids| > 0 && w.Back() < id < bound
    ensures Grew(w, PushSlot(w, id, None), bound)
  {
    var v := PushSlot(w, id, None);
    var d := if |w.ids| == w.maxElements then 1 else 0;
    assert forall k :: 0 <= k < |v.ids| - 1 ==> v.ids[k] == w.ids[k + d] && v.vals[k] == w.vals[k + d];
  }

  lemma {:induction false} PushHolesGrew(w: Window, id: nat)
    requires Bounded(w) && w.Back() < id
    ensures Grew(w, PushHoles(w, id), id)
    decreases id - w.Back()
  {
    var next := w.Back() + w.packageSize;
    if next < id {
      var w1 := PushSlot(w, next, None);
      PushSlotGrid(w, None);
      PushHoleGrew(w, next, id);
      PushHolesGrew(w1, id);
      assert PushHoles(w, id) == PushHoles(w1, id);
    }
  }

  lemma StoreContents(w: Window, msg: Message)
    requires Valid(w) && w.state != NoSession && Aligned(msg.id, w.packageSize)
    ensures var v := Store(w, msg);
            && Packets(v) <= Packets(w) + {msg}
            && (w.ids == [] ==> Holes(v) == {})
            && (w.ids != [] ==> forall h :: h in Holes(v) ==> h in Holes(w) || w.Back() < h < msg.id)
            && (w.ids != [] ==> forall i :: i in v.ids ==> i in w.ids || w.Back() < i <= msg.id)
  {
    if w.ids != [] && msg.id > w.Back() {
      PushHolesGrew(w, msg.id);
    }
  }

  /** A write brings in no packet but its own; every hole it leaves was there before, or is reported. */
  lemma WriteContents(w: Window, msg: Message)
    requires Valid(w) && (w.state == NoSession ==> msg.data != [])
    ensures var (v, r) := Write(w, msg);
            && |v.vals| == |v.ids|
            && Packets(v) <= Packets(w) + {msg}
            && (r.Err? ==> v.ids == w.ids && v.vals == w.vals)
            && (r.Ok? ==> Holes(v) <= Holes(w) + r.value)
            && (r.Ok? ==> forall h :: h in r.value ==> h in Holes(v))
  {
    var w1 := Open(w, msg);
    assert Holes(w1) == Holes(w) && Packets(w1) == Packets(w);
    if Aligned(msg.id, w1.packageSize) {
      StoreContents(w1, msg);
      StoredHoles(w1, msg);
      var stored := Store(w1, msg);
      assert Write(w, msg) == (stored.(lastId := msg.id), Ok(Missed(stored, w1.lastId, msg.id)));
    }
  }

  /** A hole that was not there before lies past the last id, and so is missed. */
  lemma StoredHoles(w: Window, msg: Message)
    requires Valid(w) && w.state != NoSession && Aligned(msg.id, w.packageSize)
    ensures var v := Store(w, msg);
            && Holes(v) <= Holes(w) + Missed(v, w.lastId, msg.id)
            && Missed(v, w.lastId, msg.id) <= Holes(v)
  {
    var v := Store(w, msg);
    StoreContents(w, msg);
    forall h | h in Holes(v) ensures h in Holes(w) || h in Missed(v, w.lastId, msg.id) {
      var k :| 0 <= k < |v.ids| && v.vals[k].None? && v.ids[k] == h;
    }
  }

  /** Where the ids of a window lie after a write that stores. */
  lemma WriteIds(w: Window, msg: Message)
    requires Valid(w) && (w.state == NoSession ==> msg.data != [])
    requires Write(w, msg).1.Ok?
    ensures var v := Write(w, msg).0;
            && v.ids != []
            && (w.ids == [] ==> v.ids == [msg.id])
            && (w.ids != [] ==> v.Back() == if msg.id > w.Back() then msg.id else w.Back())
            && (w.ids != [] ==> forall i :: i in v.ids ==> i in w.ids || w.Back() < i <= msg.id)
  {
    var w1 := Open(w, msg);
    StoreContents(w1, msg);
    StoreValid(w1, msg);
  }

  lemma ReadContents(w: Window)
    requires Valid(w)
    ensures var (v, r) := Read(w);
            && |v.vals| == |v.ids|
            && Packets(v) <= Packets(w) && Holes(v) <= Holes(w)
            && (v != w ==> w.ids != [] && v.ids == w.ids[1..] && r.Ok? && r.value.Some?
                           && Message(w.Front(), r.value.value) in Packets(w))
  {
    var v := Read(w).0;
    if v != w {
      assert forall k :: 0 <= k < |v.ids| ==> v.ids[k] == w.ids[k + 1] && v.vals[k] == w.vals[k + 1];
    }
  }

  lemma BetweenEnds(w: Window)
    requires Valid(w)
    ensures w.ids != [] ==> forall i :: i in w.ids ==> w.Front() <= i <= w.Back()
    ensures forall h :: h in Holes(w) ==> h in w.ids
  {
    if w.ids != [] {
      GridIncreasing(w.ids, w.packageSize);
    }
  }
}
