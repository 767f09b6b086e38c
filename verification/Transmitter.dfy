/** The sender (src/sender/transmitter.hpp, src/sender/lockable_queue.hpp): its two queues and its
    cache. Each method is what one thread does by itself; EndToEnd interleaves the threads. */
module Transmitters {
  import opened Types
  import opened Progressions
  import opened InputPackets
  import opened Caches

  // ---------- Answering a request for retransmission ----------

  /** What a request puts on the resend queue. */
  function Found(c: Cache, ids: seq<nat>): seq<Message>
    requires c.size > 0 && (c.slotting.ByPacket? ==> c.slotting.psize > 0)
  {
    if ids == [] then []
    else
      (match Retrieve(c, ids[0]) case Some(msg) => [msg] case None => []) + Found(c, ids[1..])
  }

  /** What is resent was asked for and cached, and what was asked for and cached is resent. */
  lemma {:induction false} FoundMeans(c: Cache, ids: seq<nat>, msg: Message)
    requires c.size > 0 && (c.slotting.ByPacket? ==> c.slotting.psize > 0)
    ensures msg in Found(c, ids) <==> msg.id in ids && Retrieve(c, msg.id) == Some(msg)
  {
    if ids != [] {
      FoundMeans(c, ids[1..], msg);
      assert msg.id in ids <==> msg.id == ids[0] || msg.id in ids[1..];
    }
  }

  /** With slots by packet number, a request is answered with exactly those of the packets asked for
      that are among the most recent, as many as there are slots. */
  lemma RequestIsAnswered(packets: seq<Message>, psize: nat, size: nat, ids: seq<nat>, k: nat)
    requires psize > 0 && size > 0 && Consecutive(packets, psize) && k < |packets|
    ensures var c := PushAll(ByPacket(psize), size, packets);
            c.Some? && (packets[k] in Found(c.value, ids) <==> k * psize in ids && |packets| - size <= k)
  {
    RetrievesExactlyRecent(packets, psize, size, k * psize);
    RecentMeans(packets, psize, size, k * psize, k) by { NumberOf(k, psize); }
    FoundMeans(PushAll(ByPacket(psize), size, packets).value, ids, packets[k]);
  }

  /** What is read is numbered as the cache expects; so slotted by packet number, every push of a whole
      input is in range and the last fsize bytes sent stay retrievable. */
  lemma ReadPacketsAreCached(input: Payload, psize: nat, fsize: nat, k: nat)
    requires psize > 0 && fsize > 0 && k < |PacketsRead(input, psize)|
    requires (k + 1) * psize > |PacketsRead(input, psize)| * psize - fsize
    ensures var c := PushAll(ByPacket(psize), 1 + (fsize - 1) / psize, PacketsRead(input, psize));
            c.Some? && Retrieve(c.value, k * psize) == Some(PacketsRead(input, psize)[k])
  {
    PacketsAreConsecutive(input, psize);
    LastBytesAreRetrievable(PacketsRead(input, psize), psize, fsize, 1 + (fsize - 1) / psize, k);
  }

  lemma PacketsAreConsecutive(input: Payload, psize: nat)
    requires psize > 0
    ensures Consecutive(PacketsRead(input, psize), psize)
  {
    forall k | 0 <= k < |PacketsRead(input, psize)| ensures PacketsRead(input, psize)[k].id == k * psize {
      PacketsMeanInput(input, psize, k);
    }
  }

  // ---------- Draining the resend queue into a set ordered by id ----------

  /** Insertion into a set ordered by id: an id already present is kept as it is. */
  function InsertUnique(s: seq<Message>, m: Message): seq<Message> {
    if s == [] || m.id < s[0].id then [m] + s
    else if m.id == s[0].id then s
    else [s[0]] + InsertUnique(s[1..], m)
  }

  function Collect(s: seq<Message>, q: seq<Message>): seq<Message>
    decreases |q|
  {
    if q == [] then s else Collect(InsertUnique(s, q[0]), q[1..])
  }

  ghost predicate Ascending(s: seq<Message>) {
    s == [] || ((forall m :: m in s[1..] ==> s[0].id < m.id) && Ascending(s[1..]))
  }

  /** The first message of a queue with an id. */
  function First(q: seq<Message>, id: nat): Option<Message> {
    if q == [] then None else if q[0].id == id then Some(q[0]) else First(q[1..], id)
  }

  lemma {:induction false} InsertAscends(s: seq<Message>, m: Message)
    requires Ascending(s)
    ensures Ascending(InsertUnique(s, m))
    ensures forall x :: x in InsertUnique(s, m) ==> x in s || x == m
  {
    if s == [] || m.id < s[0].id {
      assert ([m] + s)[1..] == s;
      if s != [] { assert s == [s[0]] + s[1..]; }
    } else if m.id > s[0].id {
      InsertAscends(s[1..], m);
      assert InsertUnique(s, m)[1..] == InsertUnique(s[1..], m);
    }
  }

  /** Below the first id of an ascending sequence there is nothing. */
  lemma {:induction false} NothingBelow(s: seq<Message>, id: nat)
    requires Ascending(s) && (s != [] ==> id < s[0].id)
    ensures First(s, id) == None
  {
    if s != [] {
      if s[1..] != [] { assert s[1..][0] in s[1..]; }
      NothingBelow(s[1..], id);
    }
  }

  lemma {:induction false} InsertFirst(s: seq<Message>, m: Message, id: nat)
    requires Ascending(s)
    ensures First(InsertUnique(s, m), id) == First(s + [m], id)
  {
    if s == [] {
      assert [m] + s == s + [m];
    } else if m.id <= s[0].id {
      if m.id < s[0].id && id == m.id { NothingBelow(s, id); }
      FirstOfSum(s, [m], id);
      assert ([m] + s)[1..] == s;
    } else {
      InsertFirst(s[1..], m, id);
      assert (s + [m])[1..] == s[1..] + [m];
      assert InsertUnique(s, m)[1..] == InsertUnique(s[1..], m);
    }
  }

  lemma {:induction false} FirstOfSum(a: seq<Message>, b: seq<Message>, id: nat)
    ensures First(a + b, id) == if First(a, id).Some? then First(a, id) else First(b, id)
  {
    if a == [] {
      assert a + b == b;
    } else {
      FirstOfSum(a[1..], b, id);
      assert (a + b)[1..] == a[1..] + b;
    }
  }

  /** Draining gives each id once, in ascending order, with the message queued first under it. */
  lemma {:induction false} DrainIsUnique(s: seq<Message>, q: seq<Message>, id: nat)
    requires Ascending(s)
    ensures Ascending(Collect(s, q))
    ensures First(Collect(s, q), id) == First(s + q, id)
    decreases |q|
  {
    if q == [] {
      assert s + q == s;
    } else {
      var s1 := InsertUnique(s, q[0]);
      InsertAscends(s, q[0]);
      DrainIsUnique(s1, q[1..], id);
      InsertFirst(s, q[0], id);
      FirstOfSum(s1, q[1..], id);
      FirstOfSum(s + [q[0]], q[1..], id);
      assert s + [q[0]] + q[1..] == s + q;
    }
  }

  lemma {:induction false} CollectFrom(s: seq<Message>, q: seq<Message>)
    ensures forall m :: m in Collect(s, q) ==> m in s || m in q
    decreases |q|
  {
    if q != [] {
      CollectFrom(InsertUnique(s, q[0]), q[1..]);
      InsertFrom(s, q[0]);
    }
  }

  lemma {:induction false} InsertFrom(s: seq<Message>, m: Message)
    ensures forall x :: x in InsertUnique(s, m) ==> x in s || x == m
  {
    if s != [] && m.id > s[0].id { InsertFrom(s[1..], m); }
  }

  /** The datagrams of messages, under one session. */
  function Stamp(session: nat, msgs: seq<Message>): (r: seq<Datagram>)
    ensures |r| == |msgs| && forall k :: 0 <= k < |r| ==> r[k] == Datagram(session, msgs[k])
  {
    seq(|msgs|, k requires 0 <= k < |msgs| => Datagram(session, msgs[k]))
  }

  // ---------- The cache fills as packets are read ----------

  /** The cache after further pushes. */
  function PushFrom(c: Cache, msgs: seq<Message>): (r: Option<Cache>)
    requires c.size > 0 && (c.slotting.ByPacket? ==> c.slotting.psize > 0)
    ensures r.Some? ==> r.value.size == c.size && r.value.slotting == c.slotting
    decreases |msgs|
  {
    if msgs == [] then Some(c)
    else
      match Push(c, msgs[0])
      case Some(c1) => PushFrom(c1, msgs[1..])
      case None => None
  }

  lemma {:induction false} PushFromIsPushAll(slotting: Slotting, size: nat, msgs: seq<Message>)
    requires size > 0 && (slotting.ByPacket? ==> slotting.psize > 0)
    ensures PushAll(slotting, size, msgs) == PushFrom(Cache(slotting, size, []), msgs)
  {
    if msgs != [] {
      PushFromIsPushAll(slotting, size, msgs[..|msgs| - 1]);
      PushFromLast(Cache(slotting, size, []), msgs);
    }
  }

  lemma {:induction false} PushFromLast(c: Cache, msgs: seq<Message>)
    requires c.size > 0 && (c.slotting.ByPacket? ==> c.slotting.psize > 0) && msgs != []
    ensures var before := PushFrom(c, msgs[..|msgs| - 1]);
            PushFrom(c, msgs) == if before.Some? then Push(before.value, msgs[|msgs| - 1]) else None
    decreases |msgs|
  {
    if |msgs| == 1 {
      assert PushFrom(c, msgs[..0]) == Some(c);
    } else {
      assert msgs[..|msgs| - 1][1..] == msgs[1..][..|msgs| - 2];
      if Push(c, msgs[0]).Some? { PushFromLast(Push(c, msgs[0]).value, msgs[1..]); }
    }
  }

  /** What a read leaves of the input. */
  function Left(buf: Payload, rest: Payload): (r: Payload)
    ensures |buf| > 0 && rest != [] ==> |r| < |rest|
  {
    if |rest| >= |buf| then rest[|buf|..] else []
  }

  /** The queue, and the cache if every push was in range, once the rest of the input is read. */
  function ReadAll(q: seq<Message>, c: Cache, id: nat, buf: Payload, rest: Payload): (seq<Message>, Option<Cache>)
    requires |buf| > 0 && c.size > 0 && (c.slotting.ByPacket? ==> c.slotting.psize > 0)
    decreases |rest|
  {
    var msg := Message(id, ReadInto(buf, rest));
    match Push(c, msg)
    case None => (q + [msg], None)
    case Some(c1) =>
      if |rest| < |buf| then (q + [msg], Some(c1))
      else ReadAll(q + [msg], c1, id + |buf|, msg.data, Left(buf, rest))
  }

  lemma PushFirst(q: seq<Message>, c: Cache, msg: Message, later: seq<Message>)
    requires c.size > 0 && (c.slotting.ByPacket? ==> c.slotting.psize > 0)
    ensures (q + [msg]) + later == q + ([msg] + later)
    ensures PushFrom(c, [msg] + later)
         == match Push(c, msg) case Some(c1) => PushFrom(c1, later) case None => None
  {
    assert ([msg] + later)[1..] == later;
  }

  /** All the packets go to the queue, in order, and to the cache. */
  lemma {:induction false} ReadAllMeans(q: seq<Message>, c: Cache, id: nat, buf: Payload, rest: Payload)
    requires |buf| > 0 && c.size > 0 && (c.slotting.ByPacket? ==> c.slotting.psize > 0)
    ensures var msgs, (q', c') := Numbered(id, |buf|, Chunks(rest, buf)), ReadAll(q, c, id, buf, rest);
            c' == PushFrom(c, msgs) && (c'.Some? ==> q' == q + msgs)
    decreases |rest|
  {
    var msg := Message(id, ReadInto(buf, rest));
    var later := if |rest| < |buf| then [] else Numbered(id + |buf|, |buf|, Chunks(Left(buf, rest), msg.data));
    PushFirst(q, c, msg, later);
    if Push(c, msg).Some? && |rest| >= |buf| {
      ReadAllMeans(q + [msg], Push(c, msg).value, id + |buf|, msg.data, Left(buf, rest));
    }
  }

  /** The whole input, read into an empty cache. */
  lemma ReadAllIsPackets(q: seq<Message>, slotting: Slotting, size: nat, input: Payload, psize: nat)
    requires psize > 0 && size > 0 && (slotting.ByPacket? ==> slotting.psize > 0)
    ensures var (q', c') := ReadAll(q, Cache(slotting, size, []), 0, Zeros(psize), input);
            && c' == PushAll(slotting, size, PacketsRead(input, psize))
            && (c'.Some? ==> q' == q + PacketsRead(input, psize))
  {
    ReadAllMeans(q, Cache(slotting, size, []), 0, Zeros(psize), input);
    PushFromIsPushAll(slotting, size, PacketsRead(input, psize));
  }

  class Transmitter {
    const psize: nat
    const sessionId: nat
    const sentMsgs: LockableCache
    var sendQ: seq<Message>
    var resendQ: seq<Message>

    ghost predicate Valid()
      reads this, sentMsgs
    {
      psize > 0 && Caches.Valid(sentMsgs.View())
    }

    /** The cache has a slot for each packet of the last fsize bytes. */
    constructor (psize: nat, fsize: nat, sessionId: nat, slotting: Slotting)
      requires psize > 0 && fsize > 0 && (slotting.ByPacket? ==> slotting.psize > 0)
      ensures Valid() && fresh(sentMsgs) && sentMsgs.View() == Cache(slotting, 1 + (fsize - 1) / psize, [])
      ensures this.psize == psize && this.sessionId == sessionId && sendQ == resendQ == []
    {
      this.psize := psize;
      this.sessionId := sessionId;
      sentMsgs := new LockableCache(slotting, 1 + (fsize - 1) / psize);
      sendQ := [];
      resendQ := [];
    }

    /** A packet read goes to the queue and then to the cache. False where the source would write past
        the end of the cache. */
    method Enqueue(msg: Message) returns (inRange: bool)
      requires Valid()
      modifies this`sendQ, sentMsgs
      ensures Valid() && sendQ == old(sendQ) + [msg]
      ensures Push(old(sentMsgs.View()), msg) == if inRange then Some(sentMsgs.View()) else None
    {
      sendQ := sendQ + [msg];
      inRange := sentMsgs.AtomicPush(msg);
    }

    /** Reads all the input, or as much as goes into the cache. */
    method ReadInput(input: Payload) returns (inRange: bool)
      requires Valid() && sentMsgs.container == []
      modifies this`sendQ, sentMsgs
      ensures Valid()
      ensures var c := PushAll(sentMsgs.slotting, sentMsgs.containerSize, PacketsRead(input, psize));
              && (inRange <==> c.Some?)
              && (inRange ==> c == Some(sentMsgs.View()) && sendQ == old(sendQ) + PacketsRead(input, psize))
    {
      ReadAllIsPackets(sendQ, sentMsgs.slotting, sentMsgs.containerSize, input, psize);
      var buf, rest, eof := Zeros(psize), input, false;
      var currentMsgId: nat := 0;
      ghost var all := ReadAll(sendQ, sentMsgs.View(), 0, buf, input);
      while !eof
        invariant Valid() && |buf| == psize
        invariant all == if eof then (sendQ, Some(sentMsgs.View()))
                         else ReadAll(sendQ, sentMsgs.View(), currentMsgId, buf, rest)
        decreases if eof then 0 else |rest| + 1
      {
        eof := |rest| < |buf|;
        buf, rest := ReadInto(buf, rest), Left(buf, rest);
        inRange := Enqueue(Message(currentMsgId, buf));
        if !inRange {
          return;
        }
        currentMsgId := currentMsgId + psize;
      }
      inRange := true;
    }

    /** The id check after the lookup is what makes the answer right. */
    method RetransmitIds(ids: seq<nat>)
      requires Valid()
      modifies this`resendQ
      ensures resendQ == old(resendQ) + Found(sentMsgs.View(), ids)
    {
      ghost var all := old(resendQ) + Found(sentMsgs.View(), ids);
      var i := 0;
      while i < |ids|
        invariant i <= |ids|
        invariant resendQ + Found(sentMsgs.View(), ids[i..]) == all
      {
        assert ids[i..][1..] == ids[i + 1..];
        var msg := sentMsgs.AtomicGet(ids[i]);
        if msg.Some? && msg.value.id == ids[i] {
          resendQ := resendQ + [msg.value];
        }
        i := i + 1;
      }
    }

    /** One turn of run_sender. */
    method SendOne() returns (d: Option<Datagram>)
      modifies this`sendQ
      ensures old(sendQ) == [] ==> d == None && sendQ == []
      ensures old(sendQ) != [] ==> d.Some? && d.value.session == sessionId && old(sendQ) == [d.value.msg] + sendQ
    {
      if |sendQ| == 0 {
        return None;
      }
      d := Some(Datagram(sessionId, sendQ[0]));
      sendQ := sendQ[1..];
    }

    /** One turn of run_retransmitter, up to its sleep. */
    method Retransmit() returns (ds: seq<Datagram>)
      modifies this`resendQ
      ensures resendQ == [] && ds == Stamp(sessionId, Collect([], old(resendQ)))
    {
      var unique: seq<Message> := [];
      while |resendQ| > 0
        invariant Collect(unique, resendQ) == Collect([], old(resendQ))
        decreases |resendQ|
      {
        unique := InsertUnique(unique, resendQ[0]);
        resendQ := resendQ[1..];
      }
      ds := Stamp(sessionId, unique);
    }
  }
}
