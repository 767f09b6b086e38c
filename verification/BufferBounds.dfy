/** Which ids a write reports as missed. */
module BufferBounds {
  import opened Types
  import opened Progressions
  import opened BufferWindows
  import opened Contents
  import opened BufferRuns

  /** A slot without a packet. */
  ghost predicate HoleAt(w: Window, id: nat)
    requires |w.vals| == |w.ids|
  {
    exists k :: 0 <= k < |w.ids| && w.ids[k] == id && w.vals[k].None?
  }

  /** A write reports exactly the ids whose slots are empty after it, and that lie between the last
      packet and this one. All of them are multiples of the packet size inside the window; there are
      none for a packet that enters an empty window, nor for one that is no newer than the last. */
  lemma MissedIsExact(w: Window, msg: Message, id: nat)
    requires Valid(w) && (w.state == NoSession ==> msg.data != []) && Write(w, msg).1.Ok?
    ensures var (v, r) := Write(w, msg);
            && |v.vals| == |v.ids|
            && (id in r.value <==> HoleAt(v, id) && Open(w, msg).lastId < id < msg.id)
            && (id in r.value ==> v.ids != [] && v.packageSize > 0
                                  && v.Front() <= id < v.Back() && Aligned(id, v.packageSize))
            && (w.ids == [] || msg.id <= w.lastId ==> r.value == {})
  {
    var (v, r) := Write(w, msg);
    WriteValid(w, msg);
    WriteIds(w, msg);
    if id in r.value {
      var k :| 0 <= k < |v.ids| && v.ids[k] == id && v.vals[k].None?;
      HolePlace(v, k);
    }
  }

  /** Where a hole can be. */
  lemma HolePlace(w: Window, k: nat)
    requires Valid(w) && k < |w.ids| && w.vals[k].None?
    ensures Aligned(w.ids[k], w.packageSize) && w.Front() <= w.ids[k] < w.Back()
  {
    GridAt(w.ids, w.packageSize, k);
    GridIncreasing(w.ids, w.packageSize);
  }
}
