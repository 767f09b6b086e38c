/** A request for retransmission, from the receiver's set of ids to the sender's resend queue, by way
    of its text. */
module Requests {
  import opened Types
  import opened Caches
  import opened Transmitters
  import opened RexmitText

  /** The receiver writes the ids it misses; the sender reads them and puts on its resend queue exactly
      those of its packets that are asked for and still among the most recent, as many as its cache has
      slots. */
  lemma RequestReachesTheCache(packets: seq<Message>, psize: nat, size: nat, missed: set<nat>, k: nat)
    requires psize > 0 && size > 0 && Consecutive(packets, psize) && k < |packets|
    requires forall id :: id in missed ==> id < TWO_TO_THE_64
    ensures var r, c := RexmitIds(RexmitTextOf(Sorted(missed))), PushAll(ByPacket(psize), size, packets);
            && r.Ok? && c.Some?
            && (packets[k] in Found(c.value, r.value) <==> k * psize in missed && |packets| - size <= k)
  {
    SetIsRead(missed);
    RequestIsAnswered(packets, psize, size, Sorted(missed), k);
  }
}
