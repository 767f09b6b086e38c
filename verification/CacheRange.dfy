/** When the cache as written stays inside its vector. A push looks only whether its slot is the next one
    (src/sender/lockable_cache.hpp:38-40); with byte ids the slots may come out of turn. */
module CacheRange {
  import opened Types
  import opened Progressions
  import opened InputPackets
  import opened Caches
  import opened Transmitters

  // ---------- The slots of consecutive packets ----------

  /** The slot of packet k, from what a packet's length leaves over of the slots. */
  lemma SlotOfPacket(psize: nat, size: nat, k: nat, r: nat)
    requires psize > 0 && size > 0 && r == psize % size
    ensures r == 0 ==> k * psize % size == 0
    ensures r == 1 ==> k * psize % size == k % size
  {
    var q := psize / size;
    assert k * psize == k * (q * size) + k * r && k * (q * size) == k * q * size by {
      assert psize == q * size + r;
    }
    if r == 0 {
      DivUnique(k * psize, k * q, 0, size);
    } else if r == 1 {
      var a := k / size;
      assert (k * q + a) * size == k * q * size + a * size;
      DivUnique(k * psize, k * q + a, k % size, size);
    }
  }

  /** With nothing left over every packet goes to the first slot. */
  lemma {:induction false} OneSlot(packets: seq<Message>, psize: nat, size: nat)
    requires psize > 0 && size > 0 && Consecutive(packets, psize) && psize % size == 0
    ensures var c := PushAll(ByByte, size, packets);
            c.Some? && |c.value.container| == (if packets == [] then 0 else 1)
  {
    if packets != [] {
      OneSlot(packets[..|packets| - 1], psize, size);
      SlotOfPacket(psize, size, |packets| - 1, 0);
    }
  }

  /** With one left over the packets go to the slots in turn. */
  lemma {:induction false} SlotsInTurn(packets: seq<Message>, psize: nat, size: nat)
    requires psize > 0 && size > 0 && Consecutive(packets, psize) && psize % size == 1
    ensures var c := PushAll(ByByte, size, packets);
            c.Some? && |c.value.container| == (if |packets| < size then |packets| else size)
  {
    if packets != [] {
      var k := |packets| - 1;
      SlotsInTurn(packets[..k], psize, size);
      SlotOfPacket(psize, size, k, 1);
      if k < size { DivUnique(k, 0, k, size); }
    }
  }

  /** The first packet. */
  lemma FirstPush(packets: seq<Message>, psize: nat, size: nat)
    requires size > 0 && Consecutive(packets, psize) && |packets| == 1
    ensures var c := PushAll(ByByte, size, packets);
            c.Some? && |c.value.container| == 1
  {
    assert packets[..0] == [];
    assert packets[0].id == 0 * psize == 0;
  }

  /** With more left over the second packet is past the end. */
  lemma SecondPush(packets: seq<Message>, psize: nat, size: nat)
    requires size > 0 && Consecutive(packets, psize) && |packets| == 2 && psize % size > 1
    ensures PushAll(ByByte, size, packets) == None
  {
    FirstPush(packets[..1], psize, size);
    assert packets[1].id == 1 * psize == psize;
  }

  lemma {:induction false} NoneStays(packets: seq<Message>, size: nat, n: nat)
    requires size > 0 && n <= |packets| && PushAll(ByByte, size, packets[..n]) == None
    ensures PushAll(ByByte, size, packets) == None
  {
    if n == |packets| {
      assert packets[..n] == packets;
    } else {
      assert packets[..|packets| - 1][..n] == packets[..n];
      NoneStays(packets[..|packets| - 1], size, n);
    }
  }

  // ---------- Exactly when every push is in range ----------

  /** As written, with slots by byte id, no push of consecutive packets is past the end of the vector exactly if
      there is at most one packet, or a packet's length leaves at most one over of the number of slots. */
  lemma PushesInRangeIff(packets: seq<Message>, psize: nat, size: nat)
    requires psize > 0 && size > 0 && Consecutive(packets, psize)
    ensures PushAll(ByByte, size, packets).Some? <==> |packets| <= 1 || psize % size <= 1
  {
    if packets == [] {
    } else if |packets| == 1 {
      FirstPush(packets, psize, size);
    } else if psize % size == 0 {
      OneSlot(packets, psize, size);
    } else if psize % size == 1 {
      SlotsInTurn(packets, psize, size);
    } else {
      SecondPush(packets[..2], psize, size);
      NoneStays(packets, size, 2);
    }
  }

  /** So the reading of a whole input stays in range exactly if the input does not fill one packet, or the packet
      size and the number of slots that the transmitter makes of PSIZE and FSIZE are so related. */
  lemma InputInRangeIff(input: Payload, psize: nat, fsize: nat, size: nat)
    requires psize > 0 && fsize > 0 && size == 1 + (fsize - 1) / psize
    ensures PushAll(ByByte, size, PacketsRead(input, psize)).Some? <==> |input| < psize || psize % size <= 1
  {
    PacketsAreConsecutive(input, psize);
    PushesInRangeIff(PacketsRead(input, psize), psize, size);
    PacketsMeanInput(input, psize, 0);
    FewPackets(|input|, psize);
  }

  lemma FewPackets(n: nat, psize: nat)
    requires psize > 0
    ensures n / psize + 1 <= 1 <==> n < psize
  {
    if n < psize { DivUnique(n, 0, n, psize); }
  }

  /** A cache of 200000 bytes for packets of the default size, 512 bytes, has 391 slots: the second packet of any
      input goes to slot 121 of a vector of one. */
  lemma SecondPacketOutOfRange(input: Payload)
    requires |input| >= 512
    ensures 1 + (200000 - 1) / 512 == 391 && 512 % 391 == 121
    ensures PushAll(ByByte, 391, PacketsRead(input, 512)) == None
  {
    InputInRangeIff(input, 512, 200000, 391);
  }
}
