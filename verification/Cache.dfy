/** The sender's cache of recent packets (src/sender/lockable_cache.hpp).

    The source slots a packet by its id modulo the number of slots, and refuses ids not below the number
    of packets held; but the transmitter's ids count bytes. Both readings are modelled: ByByte is the
    source as written, ByPacket(psize) slots by packet number, without the guard. */
module Caches {
  import opened Types
  import opened Progressions

  datatype Slotting = ByByte | ByPacket(psize: nat)

  datatype Cache = Cache(slotting: Slotting, size: nat, container: seq<Message>)

  ghost predicate Valid(c: Cache) {
    && c.size > 0 && |c.container| <= c.size
    && (c.slotting.ByPacket? ==> c.slotting.psize > 0)
  }

  function Slot(c: Cache, id: nat): nat
    requires c.size > 0 && (c.slotting.ByPacket? ==> c.slotting.psize > 0)
  {
    match c.slotting
    case ByByte => id % c.size
    case ByPacket(psize) => (id / psize) % c.size
  }

  function Get(c: Cache, id: nat): Option<Message>
    requires c.size > 0 && (c.slotting.ByPacket? ==> c.slotting.psize > 0)
  {
    if c.slotting.ByByte? && id >= |c.container| then None
    else if Slot(c, id) >= |c.container| then None
    else Some(c.container[Slot(c, id)])
  }

  /** The cache after a push, or None where the source writes past the end of its vector. */
  function Push(c: Cache, msg: Message): Option<Cache>
    requires c.size > 0 && (c.slotting.ByPacket? ==> c.slotting.psize > 0)
  {
    var slot := Slot(c, msg.id);
    if slot == |c.container| then Some(c.(container := c.container + [msg]))
    else if slot < |c.container| then Some(c.(container := c.container[slot := msg]))
    else None
  }

  /** A lookup followed by the check that the packet found has the id asked for. */
  function Retrieve(c: Cache, id: nat): Option<Message>
    requires c.size > 0 && (c.slotting.ByPacket? ==> c.slotting.psize > 0)
  {
    match Get(c, id)
    case Some(msg) => if msg.id == id then Some(msg) else None
    case None => None
  }

  class LockableCache {
    const slotting: Slotting
    const containerSize: nat
    var container: seq<Message>

    ghost function View(): Cache
      reads this
    {
      Cache(slotting, containerSize, container)
    }

    constructor (slotting: Slotting, containerSize: nat)
      requires containerSize > 0 && (slotting.ByPacket? ==> slotting.psize > 0)
      ensures View() == Cache(slotting, containerSize, []) && Valid(View())
    {
      this.slotting := slotting;
      this.containerSize := containerSize;
      container := [];
    }

    function InternalId(id: nat): (slot: nat)
      requires containerSize > 0 && (slotting.ByPacket? ==> slotting.psize > 0)
      reads this
      ensures slot < containerSize && slot == Slot(View(), id)
    {
      match slotting
      case ByByte => id % containerSize
      case ByPacket(psize) => (id / psize) % containerSize
    }

    method AtomicGet(id: nat) returns (r: Option<Message>)
      requires Valid(View())
      ensures r == Get(View(), id)
    {
      if slotting.ByByte? && id >= |container| {
        return None;
      }
      var slot := InternalId(id);
      if slot >= |container| {
        return None;
      }
      r := Some(container[slot]);
    }

    /** False where the source would write past the end of its vector. */
    method AtomicPush(msg: Message) returns (inRange: bool)
      requires Valid(View())
      modifies this
      ensures Valid(View())
      ensures Push(old(View()), msg) == if inRange then Some(View()) else None
      ensures !inRange ==> View() == old(View())
    {
      var slot := InternalId(msg.id);
      if slot > |container| {
        return false;
      }
      if slot == |container| {
        container := container + [msg];
      }
      assert container[slot := msg] == if slot == |old(container)| then container else container[slot := msg];
      container := container[slot := msg];
      inRange := true;
    }
  }

  // ---------- After pushes of consecutive packets ----------

  /** The packets of a stream, numbered by their first byte. */
  ghost predicate Consecutive(packets: seq<Message>, psize: nat) {
    forall k :: 0 <= k < |packets| ==> packets[k].id == k * psize
  }

  /** The cache after every packet has been pushed in turn, or None if one push was out of range. */
  function PushAll(slotting: Slotting, size: nat, packets: seq<Message>): (c: Option<Cache>)
    requires size > 0 && (slotting.ByPacket? ==> slotting.psize > 0)
    ensures c.Some? ==> c.value.slotting == slotting && c.value.size == size
    ensures c.Some? ==> |c.value.container| <= |packets| && |c.value.container| <= size
  {
    if packets == [] then Some(Cache(slotting, size, []))
    else
      match PushAll(slotting, size, packets[..|packets| - 1])
      case Some(c) => Push(c, packets[|packets| - 1])
      case None => None
  }

  /** What a cache of the most recent `size` packets answers. */
  ghost function Recent(packets: seq<Message>, psize: nat, size: nat, id: nat): Option<Message>
    requires psize > 0
  {
    var k := Steps(id, psize);
    if Aligned(id, psize) && |packets| - size <= k < |packets| then Some(packets[k]) else None
  }

  function Residue(k: nat, size: nat): (j: nat)
    requires size > 0
    ensures j < size
  {
    k % size
  }

  /** The largest number below n that is j modulo size. */
  function Latest(n: nat, size: nat, j: nat): int
    requires size > 0
  {
    if n == 0 then -1 else if Residue(n - 1, size) == j then n - 1 else Latest(n - 1, size, j)
  }

  lemma {:induction false} LatestIsRecent(n: nat, size: nat, j: nat)
    requires size > 0 && j < size && j < n
    ensures 0 <= Latest(n, size, j) < n && n - size <= Latest(n, size, j) && Residue(Latest(n, size, j), size) == j
  {
    if Residue(n - 1, size) != j {
      if j < n - 1 {
        LatestIsRecent(n - 1, size, j);
        if Latest(n - 1, size, j) == n - 1 - size {
          SameResidue(n - 1 - size, size);
        }
      } else {
        DivUnique(j, 0, j, size);
      }
    }
  }

  lemma SameResidue(k: nat, size: nat)
    requires size > 0
    ensures Residue(k + size, size) == Residue(k, size)
  {
    var q := k / size;
    assert (q + 1) * size == q * size + size;
    DivUnique(k + size, q + 1, k % size, size);
  }

  lemma ResiduesDiffer(a: nat, b: nat, size: nat)
    requires size > 0 && a < b < a + size
    ensures Residue(a, size) != Residue(b, size)
  {
    if a % size == b % size {
      var p, q := a / size, b / size;
      assert b - a == q * size - p * size;
      if p < q { MulGap(p, q, size); }
      if q < p { MulGap(q, p, size); }
    }
  }

  lemma NumberOf(k: nat, psize: nat)
    requires psize > 0
    ensures Steps(k * psize, psize) == k && Aligned(k * psize, psize)
  {
    DivUnique(k * psize, k, 0, psize);
    StepsIsQuotient(k * psize, psize);
  }

  /** Slot j holds the latest packet whose number is j modulo the number of slots. */
  ghost predicate HoldsLatest(container: seq<Message>, size: nat, packets: seq<Message>, j: nat)
    requires size > 0 && j < |container|
  {
    && 0 <= Latest(|packets|, size, j) < |packets|
    && container[j] == packets[Latest(|packets|, size, j)]
  }

  /** As many slots are filled as there are packets, up to all, and each holds its latest. */
  ghost predicate AllLatest(container: seq<Message>, size: nat, packets: seq<Message>)
    requires size > 0
  {
    && |container| == (if |packets| < size then |packets| else size)
    && forall j: nat :: j < |container| ==> HoldsLatest(container, size, packets, j)
  }

  lemma SlotOf(c: Cache, psize: nat, id: nat, k: nat)
    requires psize > 0 && c.size > 0 && c.slotting == ByPacket(psize) && k == Steps(id, psize)
    ensures Slot(c, id) == Residue(k, c.size) < c.size
  {
    StepsIsQuotient(id, psize);
  }

  /** The slot a packet goes to. */
  lemma PushedSlot(c: Cache, psize: nat, msg: Message, k: nat)
    requires psize > 0 && c.size > 0 && c.slotting == ByPacket(psize) && msg.id == k * psize
    ensures Slot(c, msg.id) == Residue(k, c.size)
    ensures k < c.size ==> Residue(k, c.size) == k
  {
    NumberOf(k, psize);
    SlotOf(c, psize, msg.id, k);
    if k < c.size { DivUnique(k, 0, k, c.size); }
  }

  /** Every other slot holds what it held. */
  lemma OtherIsLatest(before: seq<Message>, container: seq<Message>, size: nat, packets: seq<Message>, j: nat)
    requires size > 0 && packets != [] && j < |before| && j < |container| && j != Residue(|packets| - 1, size)
    requires HoldsLatest(before, size, packets[..|packets| - 1], j) && container[j] == before[j]
    ensures HoldsLatest(container, size, packets, j)
  {
    assert Latest(|packets|, size, j) == Latest(|packets| - 1, size, j);
  }

  lemma PushKeepsLatest(before: seq<Message>, container: seq<Message>, size: nat, packets: seq<Message>, slot: nat)
    requires size > 0 && packets != [] && slot == Residue(|packets| - 1, size)
    requires |packets| - 1 < size ==> slot == |packets| - 1
    requires AllLatest(before, size, packets[..|packets| - 1])
    requires slot <= |before|
    requires container == if slot == |before| then before + [packets[|packets| - 1]]
                          else before[slot := packets[|packets| - 1]]
    ensures AllLatest(container, size, packets)
  {
    forall j: nat | j < |container| ensures HoldsLatest(container, size, packets, j) {
      if j != slot {
        OtherIsLatest(before, container, size, packets, j);
      }
    }
  }

  /** Slotted by packet number, every push is in range, and every slot holds the latest packet of its
      residue. */
  lemma {:induction false} SlotsHoldLatest(packets: seq<Message>, psize: nat, size: nat)
    requires psize > 0 && size > 0 && Consecutive(packets, psize)
    ensures var c := PushAll(ByPacket(psize), size, packets);
            c.Some? && AllLatest(c.value.container, size, packets)
  {
    if packets != [] {
      var n, rest := |packets|, packets[..|packets| - 1];
      SlotsHoldLatest(rest, psize, size);
      var c := PushAll(ByPacket(psize), size, rest).value;
      var slot := Residue(n - 1, size);
      PushedSlot(c, psize, packets[n - 1], n - 1);
      assert PushAll(ByPacket(psize), size, packets) == Push(c, packets[n - 1]);
      PushKeepsLatest(c.container, Push(c, packets[n - 1]).value.container, size, packets, slot);
    }
  }

  /** A recent number is the latest of its residue. */
  lemma RecentIsLatest(n: nat, size: nat, k: nat, j: nat)
    requires size > 0 && n - size <= k < n && j == Residue(k, size)
    ensures j < n && Latest(n, size, j) == k
  {
    assert j <= k by {
      if k < size { DivUnique(k, 0, k, size); }
    }
    var l := Latest(n, size, j);
    LatestIsRecent(n, size, j);
    if k < l { ResiduesDiffer(k, l, size); }
    if l < k { ResiduesDiffer(l, k, size); }
  }

  /** What a slot holds once the pushes are over. */
  lemma SlotHolds(packets: seq<Message>, psize: nat, size: nat, c: Cache, j: nat)
    requires psize > 0 && size > 0 && Consecutive(packets, psize) && PushAll(ByPacket(psize), size, packets) == Some(c)
    requires j < size
    ensures j < |c.container| <==> j < |packets|
    ensures j < |packets| ==> 0 <= Latest(|packets|, size, j) < |packets|
    ensures j < |packets| ==> c.container[j] == packets[Latest(|packets|, size, j)]
  {
    SlotsHoldLatest(packets, psize, size);
    if j < |c.container| { assert HoldsLatest(c.container, size, packets, j); }
  }

  lemma RetrieveRecent(packets: seq<Message>, psize: nat, size: nat, c: Cache, id: nat, k: nat)
    requires psize > 0 && size > 0 && Consecutive(packets, psize) && PushAll(ByPacket(psize), size, packets) == Some(c)
    requires id == k * psize && |packets| - size <= k < |packets|
    ensures Retrieve(c, id) == Some(packets[k])
  {
    var j := Residue(k, size);
    NumberOf(k, psize);
    SlotOf(c, psize, id, k);
    RecentIsLatest(|packets|, size, k, j);
    SlotHolds(packets, psize, size, c, j);
  }

  lemma RetrieveOther(packets: seq<Message>, psize: nat, size: nat, c: Cache, id: nat, k: nat)
    requires psize > 0 && size > 0 && Consecutive(packets, psize) && PushAll(ByPacket(psize), size, packets) == Some(c)
    requires Retrieve(c, id).Some? && k == Steps(id, psize)
    ensures id == k * psize && |packets| - size <= k < |packets|
  {
    var j := Residue(k, size);
    SlotOf(c, psize, id, k);
    SlotHolds(packets, psize, size, c, j);
    LatestIsRecent(|packets|, size, j);
    var l := Latest(|packets|, size, j);
    NumberOf(l, psize);
  }

  lemma RecentMeans(packets: seq<Message>, psize: nat, size: nat, id: nat, k: nat)
    requires psize > 0 && k == Steps(id, psize)
    ensures Recent(packets, psize, size, id) ==
            if id == k * psize && |packets| - size <= k < |packets| then Some(packets[k]) else None
  {
    StepsIsQuotient(id, psize);
    NumberOf(k, psize);
  }

  lemma PushesFit(packets: seq<Message>, psize: nat, size: nat)
    requires psize > 0 && size > 0 && Consecutive(packets, psize)
    ensures PushAll(ByPacket(psize), size, packets).Some?
  {
    SlotsHoldLatest(packets, psize, size);
  }

  lemma RecentIsRetrieved(packets: seq<Message>, psize: nat, size: nat, c: Cache, id: nat, k: nat)
    requires psize > 0 && size > 0 && Consecutive(packets, psize) && PushAll(ByPacket(psize), size, packets) == Some(c)
    requires Recent(packets, psize, size, id).Some? && k == Steps(id, psize)
    ensures Retrieve(c, id) == Recent(packets, psize, size, id)
  {
    RecentMeans(packets, psize, size, id, k);
    RetrieveRecent(packets, psize, size, c, id, k);
  }

  lemma RetrievedIsRecent(packets: seq<Message>, psize: nat, size: nat, c: Cache, id: nat, k: nat)
    requires psize > 0 && size > 0 && Consecutive(packets, psize) && PushAll(ByPacket(psize), size, packets) == Some(c)
    requires Retrieve(c, id).Some? && k == Steps(id, psize)
    ensures Recent(packets, psize, size, id).Some?
  {
    assert id == k * psize && |packets| - size <= k < |packets| by { RetrieveOther(packets, psize, size, c, id, k); }
    RecentMeans(packets, psize, size, id, k);
  }

  /** Slotted by packet number, a lookup followed by the id check succeeds exactly for the most recent
      packets, as many as there are slots, and returns the packet that was pushed. */
  lemma RetrievesExactlyRecent(packets: seq<Message>, psize: nat, size: nat, id: nat)
    requires psize > 0 && size > 0 && Consecutive(packets, psize)
    ensures var c := PushAll(ByPacket(psize), size, packets);
            c.Some? && Retrieve(c.value, id) == Recent(packets, psize, size, id)
  {
    PushesFit(packets, psize, size);
    var c := PushAll(ByPacket(psize), size, packets).value;
    if Recent(packets, psize, size, id).Some? {
      RecentIsRetrieved(packets, psize, size, c, id, Steps(id, psize));
    } else if Retrieve(c, id).Some? {
      RetrievedIsRecent(packets, psize, size, c, id, Steps(id, psize));
    }
  }

  /** With as many slots as the transmitter asks for, every packet that holds one of the last `fsize`
      bytes sent is retrievable. */
  lemma LastBytesAreRetrievable(packets: seq<Message>, psize: nat, fsize: nat, size: nat, k: nat)
    requires psize > 0 && fsize > 0 && Consecutive(packets, psize) && size == 1 + (fsize - 1) / psize
    requires k < |packets| && (k + 1) * psize > |packets| * psize - fsize
    ensures var c := PushAll(ByPacket(psize), size, packets);
            c.Some? && Retrieve(c.value, k * psize) == Some(packets[k])
  {
    SlotsHoldLatest(packets, psize, size);
    SlotsCover(psize, fsize);
    LastBytesAreRecent(|packets|, psize, fsize, size, k);
    RetrieveRecent(packets, psize, size, PushAll(ByPacket(psize), size, packets).value, k * psize, k);
  }

  lemma LastBytesAreRecent(n: nat, psize: nat, fsize: nat, size: nat, k: nat)
    requires size * psize >= fsize && (k + 1) * psize > n * psize - fsize
    ensures n - size <= k
  {
    assert (n - size) * psize == n * psize - size * psize;
    assert (k + 1) * psize == k * psize + psize;
    if k < n - size { MulGap(k, n - size, psize); }
  }

  lemma SlotsCover(psize: nat, fsize: nat)
    requires psize > 0 && fsize > 0
    ensures (1 + (fsize - 1) / psize) * psize >= fsize
  {
    var q := (fsize - 1) / psize;
    assert (1 + q) * psize == psize + q * psize;
  }

  // ---------- The source as written ----------

  /** Slotted by byte id, the cache keeps its promise after n pushes exactly if there was at most one
      packet, or packets are one byte and no more than the slots. */
  ghost predicate KeepsPromise(packets: seq<Message>, psize: nat, size: nat)
    requires psize > 0 && size > 0
  {
    var c := PushAll(ByByte, size, packets);
    c.Some? && forall id: nat :: Retrieve(c.value, id) == Recent(packets, psize, size, id)
  }

  lemma ByteIdsKeepPromiseIff(packets: seq<Message>, psize: nat, size: nat)
    requires psize > 0 && size > 0 && Consecutive(packets, psize)
    ensures KeepsPromise(packets, psize, size) <==> |packets| <= 1 || (psize == 1 && |packets| <= size)
  {
    var n := |packets|;
    if n <= 1 || (psize == 1 && n <= size) {
      NoWrapYet(packets, psize, size);
      var c := PushAll(ByByte, size, packets).value;
      forall id: nat ensures Retrieve(c, id) == Recent(packets, psize, size, id) {
        UnwrappedRetrieve(packets, psize, size, id);
      }
    } else {
      LatestIsRefused(packets, psize, size);
      NumberOf(n - 1, psize);
      var c, last: nat := PushAll(ByByte, size, packets), (n - 1) * psize;
      RecentMeans(packets, psize, size, last, n - 1);
      if c.Some? {
        assert Retrieve(c.value, last) != Recent(packets, psize, size, last);
      }
    }
  }

  lemma {:induction false} NoWrapYet(packets: seq<Message>, psize: nat, size: nat)
    requires psize > 0 && size > 0 && Consecutive(packets, psize)
    requires |packets| <= 1 || (psize == 1 && |packets| <= size)
    ensures PushAll(ByByte, size, packets) == Some(Cache(ByByte, size, packets))
  {
    if packets != [] {
      var n, rest := |packets|, packets[..|packets| - 1];
      NoWrapYet(rest, psize, size);
      DivUnique(n - 1, 0, n - 1, size);
      assert packets[n - 1].id == (n - 1) * psize == n - 1;
      assert rest + [packets[n - 1]] == packets;
    }
  }

  lemma UnwrappedRetrieve(packets: seq<Message>, psize: nat, size: nat, id: nat)
    requires psize > 0 && size > 0 && Consecutive(packets, psize)
    requires |packets| <= 1 || (psize == 1 && |packets| <= size)
    ensures Retrieve(Cache(ByByte, size, packets), id) == Recent(packets, psize, size, id)
  {
    StepsIsQuotient(id, psize);
    if id < |packets| {
      DivUnique(id, 0, id, size);
    }
    if psize == 1 {
      DivUnique(id, id, 0, 1);
    } else if Steps(id, psize) == 0 && Aligned(id, psize) {
      assert id == 0;
    }
  }

  /** The guard compares a byte id with a number of packets, so the latest packet is refused. */
  lemma LatestIsRefused(packets: seq<Message>, psize: nat, size: nat)
    requires psize > 0 && size > 0 && |packets| > 1 && !(psize == 1 && |packets| <= size)
    ensures var c := PushAll(ByByte, size, packets);
            c.Some? ==> Retrieve(c.value, (|packets| - 1) * psize) == None
  {
    var n := |packets|;
    if psize > 1 {
      assert (n - 1) * psize >= (n - 1) * 2 by {
        if psize > 2 { MulGap(2, psize, n - 1); }
      }
    }
  }

  /** With the default sizes, 512-byte packets and 256 slots, every packet lands in slot 0: from the
      second packet on nothing can be retrieved. */
  lemma DefaultsRetrieveNothing(packets: seq<Message>, id: nat)
    requires Consecutive(packets, 512) && |packets| > 1
    ensures 1 + (131072 - 1) / 512 == 256
    ensures var c := PushAll(ByByte, 256, packets);
            c.Some? && Retrieve(c.value, id) == None
  {
    OnlyLatest(packets);
  }

  lemma {:induction false} OnlyLatest(packets: seq<Message>)
    requires Consecutive(packets, 512) && packets != []
    ensures PushAll(ByByte, 256, packets) == Some(Cache(ByByte, 256, [packets[|packets| - 1]]))
  {
    var n, rest := |packets|, packets[..|packets| - 1];
    assert packets[n - 1].id % 256 == 0;
    if n > 1 {
      OnlyLatest(rest);
      assert [rest[n - 2]][0 := packets[n - 1]] == [packets[n - 1]];
    } else {
      assert rest == [] && packets == [packets[0]];
      assert [] + [packets[0]] == [packets[0]];
    }
  }
}
