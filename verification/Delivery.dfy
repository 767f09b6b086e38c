/** That senders do send: what is read goes out, in order; what is asked for again and found is sent again; and
    nothing else is on the wire. In every run of the system of EndToEnd. */
module Delivery {
  import opened Types
  import opened Progressions
  import opened InputPackets
  import opened EndToEnd
  import C = Caches
  import R = Receivers
  import T = Transmitters
  import W = BufferWindows

  // ---------- The steps of a sender are turns of the transmitter's threads ----------

  /** What SendOne returns is what SendPacket puts on the wire, and both leave the same queue. */
  lemma SendPacketIsSendOne(packets: seq<Message>, s: Sender, session: nat, d: Datagram, rest: seq<Message>)
    requires d.session == session && s.sendQ == [d.msg] + rest
    ensures SenderEnabled(packets, s, SendPacket)
    ensures SenderDo(packets, s, SendPacket).0 == s.(sendQ := rest)
    ensures T.Stamp(session, SenderDo(packets, s, SendPacket).1) == [d]
  {
  }

  /** A number of packets of the batch sent in turn. */
  function Resends(packets: seq<Message>, s: Sender, n: nat): (r: (Sender, seq<Message>))
    requires n <= |s.batch|
    decreases n
  {
    if n == 0 then (s, [])
    else
      var (s1, sent) := SenderDo(packets, s, Resend);
      var (s2, later) := Resends(packets, s1, n - 1);
      (s2, sent + later)
  }

  lemma {:induction false} ResendsMean(packets: seq<Message>, s: Sender, n: nat)
    requires n <= |s.batch|
    ensures Resends(packets, s, n) == (s.(batch := s.batch[n..], resent := s.resent + s.batch[..n]), s.batch[..n])
    decreases n
  {
    if n == 0 {
      assert s.batch[0..] == s.batch && s.resent + [] == s.resent;
    } else {
      var s1 := SenderDo(packets, s, Resend).0;
      ResendsMean(packets, s1, n - 1);
      assert [s.batch[0]] + s1.batch[..n - 1] == s.batch[..n];
      Assoc(s.resent, [s.batch[0]], s1.batch[..n - 1]);
    }
  }

  /** What Retransmit returns is what DrainResends, followed by as many Resends as there are packets in the batch,
      puts on the wire; both leave the resend queue empty. */
  lemma DrainAndResendIsRetransmit(packets: seq<Message>, s: Sender, session: nat, ds: seq<Datagram>)
    requires s.batch == [] && ds == T.Stamp(session, T.Collect([], s.resendQ))
    ensures SenderEnabled(packets, s, DrainResends)
    ensures var s1 := SenderDo(packets, s, DrainResends).0;
            var (s2, sent) := Resends(packets, s1, |s1.batch|);
            s1.resendQ == [] && s2.batch == [] && s2.resendQ == [] && T.Stamp(session, sent) == ds
  {
    var s1 := SenderDo(packets, s, DrainResends).0;
    ResendsMean(packets, s1, |s1.batch|);
    assert s1.batch[..|s1.batch|] == s1.batch;
  }

  // ---------- Exactly what is on the wire ----------

  /** The queue holds the packets read last, in order; and the wire has of this session exactly the packets read
      before those, and what was resent. */
  ghost predicate Sent(packets: seq<Message>, s: Sender, session: nat, wire: set<Datagram>) {
    && |s.sendQ| <= s.read <= |packets|
    && s.sendQ == packets[s.read - |s.sendQ|..s.read]
    && forall m :: Datagram(session, m) in wire <==> m in packets[..s.read - |s.sendQ|] || m in s.resent
  }

  lemma ReadSent(packets: seq<Message>, s: Sender, session: nat, wire: set<Datagram>)
    requires Sent(packets, s, session, wire) && SenderEnabled(packets, s, ReadPacket)
    ensures Sent(packets, SenderDo(packets, s, ReadPacket).0, session, wire)
  {
    var n := s.read - |s.sendQ|;
    assert packets[n..s.read + 1] == packets[n..s.read] + [packets[s.read]];
  }

  lemma SendSent(packets: seq<Message>, s: Sender, session: nat, wire: set<Datagram>)
    requires Sent(packets, s, session, wire) && SenderEnabled(packets, s, SendPacket)
    ensures Sent(packets, SenderDo(packets, s, SendPacket).0, session, wire + OnWire(session, [s.sendQ[0]]))
  {
    var n := s.read - |s.sendQ|;
    assert s.sendQ[0] == packets[n];
    assert packets[..n + 1] == packets[..n] + [packets[n]];
    assert s.sendQ[1..] == packets[n + 1..s.read];
  }

  /** Steps that touch neither the queue nor the wire. */
  lemma OtherSends(packets: seq<Message>, s: Sender, a: SenderAction, session: nat, wire: set<Datagram>)
    requires Sent(packets, s, session, wire) && SenderEnabled(packets, s, a)
    requires !a.ReadPacket? && !a.SendPacket? && !a.Resend?
    ensures Sent(packets, SenderDo(packets, s, a).0, session, wire) && SenderDo(packets, s, a).1 == []
  {
  }

  lemma ResendSent(packets: seq<Message>, s: Sender, session: nat, wire: set<Datagram>)
    requires Sent(packets, s, session, wire) && SenderEnabled(packets, s, Resend)
    ensures Sent(packets, SenderDo(packets, s, Resend).0, session, wire + OnWire(session, [s.batch[0]]))
  {
  }

  lemma SenderSends(packets: seq<Message>, s: Sender, a: SenderAction, session: nat, wire: set<Datagram>)
    requires Sent(packets, s, session, wire) && SenderEnabled(packets, s, a)
    ensures var (s', sent) := SenderDo(packets, s, a);
            Sent(packets, s', session, wire + OnWire(session, sent))
  {
    assert wire + OnWire(session, []) == wire;
    match a
    case ReadPacket => ReadSent(packets, s, session, wire);
    case SendPacket => SendSent(packets, s, session, wire);
    case Resend => ResendSent(packets, s, session, wire);
    case _ => OtherSends(packets, s, a, session, wire);
  }

  ghost predicate AllSent(s: System) {
    forall session :: session in s.sources ==>
      session in s.senders && Sent(PacketsOf(s.sources[session]), s.senders[session], session, s.wire)
  }

  /** Another sender's datagrams are of another session. */
  lemma OthersSent(packets: seq<Message>, s: Sender, session: nat, wire: set<Datagram>, other: nat, sent: seq<Message>)
    requires Sent(packets, s, session, wire) && other != session
    ensures Sent(packets, s, session, wire + OnWire(other, sent))
  {
  }

  lemma StepSends(s: System, a: EndToEnd.Action)
    requires W.Valid(s.receiver.buffer) && AllSent(s)
    ensures AllSent(Do(s, a))
  {
    if EndToEnd.Enabled(s, a) && a.SenderDoes? {
      var packets := PacketsOf(s.sources[a.session]);
      var sent := SenderDo(packets, s.senders[a.session], a.does).1;
      SenderSends(packets, s.senders[a.session], a.does, a.session, s.wire);
      forall session | session in s.sources && session != a.session
        ensures Sent(PacketsOf(s.sources[session]), s.senders[session], session, Do(s, a).wire)
      {
        OthersSent(PacketsOf(s.sources[session]), s.senders[session], session, s.wire, a.session, sent);
      }
    }
  }

  lemma {:induction false} RunSends(sources: map<nat, Source>, maxSize: nat, rtime: nat, actions: seq<EndToEnd.Action>)
    ensures AllSent(Run(sources, maxSize, rtime, actions))
  {
    if actions != [] {
      RunSends(sources, maxSize, rtime, actions[..|actions| - 1]);
      StepSends(Run(sources, maxSize, rtime, actions[..|actions| - 1]), actions[|actions| - 1]);
    }
  }

  /** What that comes to, packet by packet: of the first n packets read, all are on the wire, and the others are in
      the queue, at their places. */
  ghost predicate WireHas(packets: seq<Message>, s: Sender, session: nat, wire: set<Datagram>, n: int) {
    && n == s.read - |s.sendQ| && 0 <= n <= s.read <= |packets|
    && (forall k :: 0 <= k < n ==> Datagram(session, packets[k]) in wire)
    && (forall k :: n <= k < s.read ==> packets[k] == s.sendQ[k - n])
    && (forall m :: Datagram(session, m) in wire <==> m in packets[..n] || m in s.resent)
  }

  lemma SentMeans(packets: seq<Message>, s: Sender, session: nat, wire: set<Datagram>)
    requires Sent(packets, s, session, wire)
    ensures WireHas(packets, s, session, wire, s.read - |s.sendQ|)
  {
    var n := s.read - |s.sendQ|;
    forall k | 0 <= k < n ensures Datagram(session, packets[k]) in wire {
      assert packets[k] in packets[..n];
    }
  }

  /** In every run the packets read are on the wire under their session, the oldest first, unless they are still in the
      queue of their sender, in order; every packet resent is on the wire; and of that session nothing else. */
  lemma WireIsExact(sources: map<nat, Source>, maxSize: nat, rtime: nat, actions: seq<EndToEnd.Action>, session: nat)
    returns (sender: Sender)
    requires session in sources
    ensures var s := Run(sources, maxSize, rtime, actions);
            && session in s.senders && sender == s.senders[session]
            && WireHas(PacketsOf(sources[session]), sender, session, s.wire, sender.read - |sender.sendQ|)
  {
    var s := Run(sources, maxSize, rtime, actions);
    RunSends(sources, maxSize, rtime, actions);
    sender := s.senders[session];
    SentMeans(PacketsOf(sources[session]), sender, session, s.wire);
  }

  // ---------- What is found is sent again ----------

  /** Packets of a source with one id are one packet. */
  lemma OnePacketPerId(source: Source, a: Message, b: Message)
    requires a in PacketsOf(source) && b in PacketsOf(source) && a.id == b.id
    ensures a == b
  {
    var packets := PacketsRead(source.input, source.psize);
    var j: nat, k: nat :| j < |packets| && packets[j] == a && k < |packets| && packets[k] == b;
    PacketsMeanInput(source.input, source.psize, j);
    PacketsMeanInput(source.input, source.psize, k);
    if j < k { MulGap(j, k, source.psize); }
    if k < j { MulGap(k, j, source.psize); }
  }

  /** The packet found is waiting to be resent, or has been after the first n. */
  ghost predicate InHand(s: Sender, m: Message, n: nat) {
    && n <= |s.resent|
    && (s.found == Some(m) || m in s.resendQ || m in s.batch || m in s.resent[n..])
  }

  lemma {:induction false} FirstOf(q: seq<Message>, m: Message)
    requires m in q
    ensures T.First(q, m.id).Some? && T.First(q, m.id).value in q && T.First(q, m.id).value.id == m.id
  {
    if q[0].id != m.id { FirstOf(q[1..], m); }
  }

  lemma {:induction false} FirstIn(q: seq<Message>, id: nat)
    requires T.First(q, id).Some?
    ensures T.First(q, id).value in q
  {
    if q[0].id != id { FirstIn(q[1..], id); }
  }

  lemma DrainKeeps(source: Source, q: seq<Message>, m: Message)
    requires m in q && Among(q, PacketsOf(source))
    ensures m in T.Collect([], q)
  {
    FirstOf(q, m);
    T.DrainIsUnique([], q, m.id);
    assert [] + q == q;
    OnePacketPerId(source, T.First(q, m.id).value, m);
    FirstIn(T.Collect([], q), m.id);
  }

  lemma StepInHand(source: Source, s: Sender, a: SenderAction, m: Message, n: nat)
    requires Honest(PacketsOf(source), s) && InHand(s, m, n) && SenderEnabled(PacketsOf(source), s, a)
    ensures InHand(SenderDo(PacketsOf(source), s, a).0, m, n)
  {
    match a
    case DrainResends => if m in s.resendQ { DrainKeeps(source, s.resendQ, m); }
    case Resend =>
      assert (s.resent + [s.batch[0]])[n..] == s.resent[n..] + [s.batch[0]];
      assert s.batch == [s.batch[0]] + s.batch[1..];
    case _ =>
  }

  lemma SystemInHand(s: System, a: EndToEnd.Action, session: nat, m: Message, n: nat)
    requires EndToEnd.Inv(s) && session in s.sources && session in s.senders && InHand(s.senders[session], m, n)
    ensures session in Do(s, a).senders && InHand(Do(s, a).senders[session], m, n)
  {
    if EndToEnd.Enabled(s, a) && a.SenderDoes? && a.session == session {
      StepInHand(s.sources[session], s.senders[session], a.does, m, n);
    }
  }

  lemma {:induction false} RunInHand(sources: map<nat, Source>, maxSize: nat, rtime: nat, actions: seq<EndToEnd.Action>,
                                     i: nat, session: nat, m: Message, n: nat)
    requires i <= |actions| && session in sources
    requires var before := Run(sources, maxSize, rtime, actions[..i]);
             session in before.senders && InHand(before.senders[session], m, n)
    ensures var s := Run(sources, maxSize, rtime, actions);
            session in s.senders && InHand(s.senders[session], m, n)
  {
    if i == |actions| {
      assert actions[..i] == actions;
    } else {
      var rest := actions[..|actions| - 1];
      assert rest[..i] == actions[..i];
      RunInHand(sources, maxSize, rtime, rest, i, session, m, n);
      EndToEnd.RunKeeps(sources, maxSize, rtime, rest);
      SystemInHand(Run(sources, maxSize, rtime, rest), actions[|actions| - 1], session, m, n);
    }
  }

  /** In every run: a packet that a lookup found is, at every later time, with the listener, on the resend queue, in
      the batch of the retransmitter, or it has been sent since, and is on the wire. */
  lemma FoundIsResent(sources: map<nat, Source>, maxSize: nat, rtime: nat, actions: seq<EndToEnd.Action>,
                      i: nat, session: nat, m: Message)
    requires i <= |actions| && session in sources
    requires var before := Run(sources, maxSize, rtime, actions[..i]);
             session in before.senders && before.senders[session].found == Some(m)
    ensures var n, s := |Run(sources, maxSize, rtime, actions[..i]).senders[session].resent|,
                        Run(sources, maxSize, rtime, actions);
            && session in s.senders && InHand(s.senders[session], m, n)
            && (m in s.senders[session].resent ==> Datagram(session, m) in s.wire)
  {
    RunInHand(sources, maxSize, rtime, actions, i, session, m,
              |Run(sources, maxSize, rtime, actions[..i]).senders[session].resent|);
    RunSends(sources, maxSize, rtime, actions);
  }

  // ---------- What is read is cached, and so found ----------

  /** Every packet is stored in the slot the cache would use. */
  ghost predicate UsesSlots(sources: map<nat, Source>, maxSize: nat, rtime: nat, actions: seq<EndToEnd.Action>,
                            session: nat, slotting: C.Slotting, size: nat)
    requires size > 0 && (slotting.ByPacket? ==> slotting.psize > 0)
  {
    actions != [] ==>
      var before, a := Run(sources, maxSize, rtime, actions[..|actions| - 1]), actions[|actions| - 1];
      && UsesSlots(sources, maxSize, rtime, actions[..|actions| - 1], session, slotting, size)
      && (EndToEnd.Enabled(before, a) && a.SenderDoes? && a.session == session && a.does.CachePacket? ==>
            var sender := before.senders[session];
            a.does.slot == C.Slot(C.Cache(slotting, size, sender.container), sender.uncached.value.id))
  }

  /** How many packets have gone to the cache: all that were read, but the last while it is on its way. */
  function Cached(s: Sender): int {
    s.read - if s.uncached.Some? then 1 else 0
  }

  /** The cache is that of the transmitter after as many pushes. */
  ghost predicate CachedInOrder(packets: seq<Message>, s: Sender, slotting: C.Slotting, size: nat)
    requires size > 0 && (slotting.ByPacket? ==> slotting.psize > 0)
  {
    && 0 <= Cached(s) <= s.read <= |packets|
    && (s.uncached.Some? ==> s.uncached.value == packets[s.read - 1])
    && C.PushAll(slotting, size, packets[..Cached(s)]) == Some(C.Cache(slotting, size, s.container))
  }

  lemma StoreCaches(packets: seq<Message>, s: Sender, slotting: C.Slotting, size: nat, slot: nat)
    requires size > 0 && (slotting.ByPacket? ==> slotting.psize > 0)
    requires CachedInOrder(packets, s, slotting, size) && SenderEnabled(packets, s, CachePacket(slot))
    requires slot == C.Slot(C.Cache(slotting, size, s.container), s.uncached.value.id)
    ensures CachedInOrder(packets, SenderDo(packets, s, CachePacket(slot)).0, slotting, size)
  {
    var n := s.read - 1;
    assert packets[..s.read][..n] == packets[..n] && packets[..s.read][n] == s.uncached.value;
  }

  lemma SenderCaches(packets: seq<Message>, s: Sender, a: SenderAction, slotting: C.Slotting, size: nat)
    requires size > 0 && (slotting.ByPacket? ==> slotting.psize > 0)
    requires CachedInOrder(packets, s, slotting, size) && SenderEnabled(packets, s, a)
    requires a.CachePacket? ==> a.slot == C.Slot(C.Cache(slotting, size, s.container), s.uncached.value.id)
    ensures CachedInOrder(packets, SenderDo(packets, s, a).0, slotting, size)
  {
    if a.CachePacket? { StoreCaches(packets, s, slotting, size, a.slot); }
  }

  /** In every run whose stores use the slots of a cache, the cache is that of the transmitter after as many pushes as
      packets were read; the last may still be on its way. */
  lemma {:induction false} RunCaches(sources: map<nat, Source>, maxSize: nat, rtime: nat, actions: seq<EndToEnd.Action>,
                                     session: nat, slotting: C.Slotting, size: nat)
    requires session in sources && size > 0 && (slotting.ByPacket? ==> slotting.psize > 0)
    requires UsesSlots(sources, maxSize, rtime, actions, session, slotting, size)
    ensures var s := Run(sources, maxSize, rtime, actions);
            && session in s.senders
            && CachedInOrder(PacketsOf(sources[session]), s.senders[session], slotting, size)
  {
    if actions == [] {
      assert PacketsOf(sources[session])[..0] == [];
    } else {
      var rest, a := actions[..|actions| - 1], actions[|actions| - 1];
      RunCaches(sources, maxSize, rtime, rest, session, slotting, size);
      var s := Run(sources, maxSize, rtime, rest);
      if EndToEnd.Enabled(s, a) && a.SenderDoes? && a.session == session {
        SenderCaches(PacketsOf(sources[session]), s.senders[session], a.does, slotting, size);
      }
    }
  }

  lemma PrefixConsecutive(source: Source, n: nat)
    requires n <= |PacketsOf(source)| && source.psize > 0
    ensures C.Consecutive(PacketsOf(source)[..n], source.psize)
  {
    T.PacketsAreConsecutive(source.input, source.psize);
  }

  /** With slots by packet number, in every run: a lookup for packet k, in its slot, is possible and finds it, if it is
      among the last cached, as many as there are slots. FoundIsResent says what becomes of it. */
  lemma LookupFinds(sources: map<nat, Source>, maxSize: nat, rtime: nat, actions: seq<EndToEnd.Action>,
                    session: nat, size: nat, k: nat)
    requires session in sources && size > 0 && sources[session].psize > 0
    requires UsesSlots(sources, maxSize, rtime, actions, session, C.ByPacket(sources[session].psize), size)
    requires var s := Run(sources, maxSize, rtime, actions);
             session in s.senders && s.senders[session].found.None?
             && Cached(s.senders[session]) - size <= k < Cached(s.senders[session])
    ensures var psize, packets := sources[session].psize, PacketsOf(sources[session]);
            var sender := Run(sources, maxSize, rtime, actions).senders[session];
            var look := Lookup(k * psize, C.Slot(C.Cache(C.ByPacket(psize), size, sender.container), k * psize));
            && k < |packets| && SenderEnabled(packets, sender, look)
            && SenderDo(packets, sender, look).0.found == Some(packets[k])
  {
    var source := sources[session];
    var sender := Run(sources, maxSize, rtime, actions).senders[session];
    RunCaches(sources, maxSize, rtime, actions, session, C.ByPacket(source.psize), size);
    PrefixConsecutive(source, Cached(sender));
    FindsRecent(PacketsOf(source), sender, source.psize, size, k);
  }

  lemma FindsRecent(packets: seq<Message>, s: Sender, psize: nat, size: nat, k: nat)
    requires psize > 0 && size > 0 && s.found.None? && CachedInOrder(packets, s, C.ByPacket(psize), size)
    requires C.Consecutive(packets[..Cached(s)], psize) && Cached(s) - size <= k < Cached(s)
    ensures var c := C.Cache(C.ByPacket(psize), size, s.container);
            && SenderEnabled(packets, s, Lookup(k * psize, C.Slot(c, k * psize)))
            && SenderDo(packets, s, Lookup(k * psize, C.Slot(c, k * psize))).0.found == Some(packets[k])
  {
    var c := C.Cache(C.ByPacket(psize), size, s.container);
    C.RetrieveRecent(packets[..Cached(s)], psize, size, c, k * psize, k);
    StepsUseTheCache(packets, s, c, k * psize);
  }

  // ---------- A sender can always finish ----------

  /** The turns the threads still have to take. */
  function Work(packets: seq<Message>, s: Sender): (n: nat)
    requires s.read <= |packets|
  {
    3 * (|packets| - s.read) + (if s.uncached.Some? then 1 else 0) + |s.sendQ|
    + (if s.found.Some? then 3 else 0) + 2 * |s.resendQ| + |s.batch|
  }

  /** Everything is read and sent, and nothing waits to be resent. */
  predicate Finished(packets: seq<Message>, s: Sender) {
    && s.read == |packets| && s.uncached.None? && s.sendQ == []
    && s.found.None? && s.resendQ == [] && s.batch == []
  }

  function NextTurn(packets: seq<Message>, s: Sender): SenderAction {
    if s.sendQ != [] then SendPacket
    else if s.uncached.Some? then CachePacket(|s.container|)
    else if s.found.Some? then QueueFound
    else if s.batch != [] then Resend
    else if s.resendQ != [] then DrainResends
    else ReadPacket
  }

  lemma {:induction false} CollectIsShorter(s: seq<Message>, q: seq<Message>)
    ensures |T.Collect(s, q)| <= |s| + |q|
    decreases |q|
  {
    if q != [] {
      CollectIsShorter(T.InsertUnique(s, q[0]), q[1..]);
      InsertIsShorter(s, q[0]);
    }
  }

  lemma {:induction false} InsertIsShorter(s: seq<Message>, m: Message)
    ensures |T.InsertUnique(s, m)| <= |s| + 1
  {
    if s != [] && m.id > s[0].id { InsertIsShorter(s[1..], m); }
  }

  lemma TurnIsProgress(packets: seq<Message>, s: Sender)
    requires s.read <= |packets| && !Finished(packets, s)
    ensures var a := NextTurn(packets, s);
            && SenderEnabled(packets, s, a) && SenderDo(packets, s, a).0.read <= |packets|
            && Work(packets, SenderDo(packets, s, a).0) < Work(packets, s)
  {
    CollectIsShorter([], s.resendQ);
  }

  /** The system after further steps. */
  function Follow(s: System, more: seq<EndToEnd.Action>): System
    requires W.Valid(s.receiver.buffer)
    decreases |more|
  {
    if more == [] then s
    else
      StepValid(s, more[0]);
      Follow(Do(s, more[0]), more[1..])
  }

  lemma {:induction false} RunFollows(sources: map<nat, Source>, maxSize: nat, rtime: nat,
                                      actions: seq<EndToEnd.Action>, more: seq<EndToEnd.Action>)
    ensures Run(sources, maxSize, rtime, actions + more) == Follow(Run(sources, maxSize, rtime, actions), more)
    decreases |more|
  {
    if more == [] {
      assert actions + more == actions;
    } else {
      var next := actions + [more[0]];
      assert next[..|actions|] == actions;
      RunFollows(sources, maxSize, rtime, next, more[1..]);
      assert next + more[1..] == actions + more;
    }
  }

  ghost predicate OnlyBy(actions: seq<EndToEnd.Action>, session: nat) {
    forall a :: a in actions ==> a.SenderDoes? && a.session == session
  }

  /** So many turns to go. */
  ghost predicate ToGo(s: System, session: nat, packets: seq<Message>, work: nat) {
    session in s.senders && s.senders[session].read <= |packets| && Work(packets, s.senders[session]) == work
  }

  lemma OneTurn(s: System, session: nat, packets: seq<Message>, work: nat) returns (a: EndToEnd.Action, left: nat)
    requires W.Valid(s.receiver.buffer) && session in s.sources && packets == PacketsOf(s.sources[session])
    requires ToGo(s, session, packets, work) && !Finished(packets, s.senders[session])
    ensures a.SenderDoes? && a.session == session && left < work && ToGo(Do(s, a), session, packets, left)
  {
    a := SenderDoes(session, NextTurn(packets, s.senders[session]));
    TurnIsProgress(packets, s.senders[session]);
    left := Work(packets, Do(s, a).senders[session]);
  }

  lemma {:induction false} Finish(s: System, session: nat, packets: seq<Message>, work: nat)
    returns (more: seq<EndToEnd.Action>)
    requires W.Valid(s.receiver.buffer) && session in s.sources && packets == PacketsOf(s.sources[session])
    requires ToGo(s, session, packets, work)
    ensures OnlyBy(more, session)
    ensures session in Follow(s, more).senders && Finished(packets, Follow(s, more).senders[session])
    decreases work
  {
    if Finished(packets, s.senders[session]) {
      more := [];
    } else {
      var a, left := OneTurn(s, session, packets, work);
      StepValid(s, a);
      var rest := Finish(Do(s, a), session, packets, left);
      more := [a] + rest;
      assert more[1..] == rest;
    }
  }

  /** From every state of every run, a sender can go on, by itself, until all its packets are on the wire and all that
      it found for requests is sent. */
  lemma CanFinish(sources: map<nat, Source>, maxSize: nat, rtime: nat, actions: seq<EndToEnd.Action>, session: nat)
    returns (more: seq<EndToEnd.Action>)
    requires session in sources
    ensures OnlyBy(more, session)
    ensures var s, packets := Run(sources, maxSize, rtime, actions + more), PacketsOf(sources[session]);
            && session in s.senders && Finished(packets, s.senders[session])
            && forall k :: 0 <= k < |packets| ==> Datagram(session, packets[k]) in s.wire
  {
    var packets := PacketsOf(sources[session]);
    var sender := WireIsExact(sources, maxSize, rtime, actions, session);
    more := Finish(Run(sources, maxSize, rtime, actions), session, packets, Work(packets, sender));
    RunFollows(sources, maxSize, rtime, actions, more);
    var finished := WireIsExact(sources, maxSize, rtime, actions + more, session);
  }
}
