/** Senders, a network and a receiver, one step at a time. The network may lose, duplicate, delay and
    reorder: a datagram once sent can reach the receiver at any later step, any number of times or
    never. Each sender is one session, which it shares with no other, and has its own input; requests for
    retransmission may ask for anything at any time. The cache may keep a packet in any slot and look in
    any slot: that what is resent was asked for is due to the id check after the lookup
    (src/sender/transmitter.hpp:35-43), and that it holds the right bytes to each packet carrying its id. */
module EndToEnd {
  import opened Types
  import opened InputPackets
  import opened BufferWindows
  import opened Contents
  import opened Receivers
  import opened SessionPurity
  import C = Caches
  import T = Transmitters

  datatype Source = Source(input: Payload, psize: nat)

  /** A sender's threads between their calls of the shared queues and cache: the reader has read
      `read` packets and may still have to cache the last; the listener may have found a packet to
      resend; the retransmitter has a batch to send. The history: the ids asked for, and what was resent. */
  datatype Sender = Sender(
    read: nat, uncached: Option<Message>, sendQ: seq<Message>, container: seq<Message>,
    found: Option<Message>, resendQ: seq<Message>, batch: seq<Message>,
    asked: set<nat>, resent: seq<Message>)

  datatype SenderAction =
    | ReadPacket | CachePacket(slot: nat) | SendPacket
    | Lookup(id: nat, slot: nat) | QueueFound
    | DrainResends | Resend

  datatype System = System(
    sources: map<nat, Source>, senders: map<nat, Sender>, wire: set<Datagram>, receiver: State)

  datatype Action = SenderDoes(session: nat, does: SenderAction) | ReceiverDoes(step: Receivers.Action)

  /** The packets of a source. */
  function PacketsOf(source: Source): seq<Message> {
    if source.psize == 0 then [] else PacketsRead(source.input, source.psize)
  }

  function Idle(): Sender {
    Sender(0, None, [], [], None, [], [], {}, [])
  }

  predicate SenderEnabled(packets: seq<Message>, s: Sender, a: SenderAction) {
    match a
    case ReadPacket => s.uncached.None? && s.read < |packets|
    case CachePacket(slot) => s.uncached.Some? && slot <= |s.container|
    case SendPacket => s.sendQ != []
    case Lookup(_, slot) => s.found.None? && slot < |s.container|
    case QueueFound => s.found.Some?
    case DrainResends => s.batch == []
    case Resend => s.batch != []
  }

  /** The sender after a step, and what it puts on the wire. */
  function SenderDo(packets: seq<Message>, s: Sender, a: SenderAction): (Sender, seq<Message>)
    requires SenderEnabled(packets, s, a)
  {
    match a
    case ReadPacket =>
      (s.(read := s.read + 1, uncached := Some(packets[s.read]), sendQ := s.sendQ + [packets[s.read]]), [])
    case CachePacket(slot) =>
      (s.(uncached := None,
          container := if slot == |s.container| then s.container + [s.uncached.value]
                       else s.container[slot := s.uncached.value]), [])
    case SendPacket => (s.(sendQ := s.sendQ[1..]), [s.sendQ[0]])
    case Lookup(id, slot) =>
      (s.(asked := s.asked + {id}, found := if s.container[slot].id == id then Some(s.container[slot]) else None), [])
    case QueueFound => (s.(found := None, resendQ := s.resendQ + [s.found.value]), [])
    case DrainResends => (s.(resendQ := [], batch := T.Collect([], s.resendQ)), [])
    case Resend => (s.(batch := s.batch[1..], resent := s.resent + [s.batch[0]]), [s.batch[0]])
  }

  function OnWire(session: nat, msgs: seq<Message>): set<Datagram> {
    set m | m in msgs :: Datagram(session, m)
  }

  predicate Enabled(s: System, a: Action) {
    match a
    case SenderDoes(session, does) =>
      && session in s.sources && session in s.senders
      && SenderEnabled(PacketsOf(s.sources[session]), s.senders[session], does)
    case ReceiverDoes(Receive(d)) => d in s.wire
    case ReceiverDoes(_) => true
  }

  function Do(s: System, a: Action): System
    requires BufferWindows.Valid(s.receiver.buffer)
  {
    if !Enabled(s, a) then s
    else
      match a
      case SenderDoes(session, does) =>
        var (sender, sent) := SenderDo(PacketsOf(s.sources[session]), s.senders[session], does);
        s.(senders := s.senders[session := sender], wire := s.wire + OnWire(session, sent))
      case ReceiverDoes(step) => s.(receiver := Receivers.Do(s.receiver, step))
  }

  function Start(sources: map<nat, Source>, maxSize: nat, rtime: nat): System {
    System(sources, map session | session in sources :: Idle(), {}, Receivers.Start(maxSize, rtime))
  }

  function Run(sources: map<nat, Source>, maxSize: nat, rtime: nat, actions: seq<Action>): (s: System)
    ensures BufferWindows.Valid(s.receiver.buffer) && s.sources == sources
  {
    if actions == [] then Start(sources, maxSize, rtime)
    else
      var before := Run(sources, maxSize, rtime, actions[..|actions| - 1]);
      StepValid(before, actions[|actions| - 1]);
      Do(before, actions[|actions| - 1])
  }

  lemma StepValid(s: System, a: Action)
    requires BufferWindows.Valid(s.receiver.buffer)
    ensures BufferWindows.Valid(Do(s, a).receiver.buffer)
  {
    if a.ReceiverDoes? { DoValid(s.receiver, a.step); }
  }

  // ---------- The steps are the transmitter's ----------

  /** With either slotting: looking up in the slot the cache uses, where its guard lets it, and then checking
      the id, is Retrieve, which finds nothing where there is no such step; and storing in the slot the cache
      uses is Push, which is out of range where there is no such step. */
  lemma StepsUseTheCache(packets: seq<Message>, s: Sender, c: C.Cache, id: nat)
    requires C.Valid(c) && s.container == c.container && s.found.None?
    ensures C.Get(c, id).Some? ==>
              && SenderEnabled(packets, s, Lookup(id, C.Slot(c, id)))
              && SenderDo(packets, s, Lookup(id, C.Slot(c, id))).0.found == C.Retrieve(c, id)
    ensures C.Get(c, id).None? ==>
              && C.Retrieve(c, id) == None
              && (SenderEnabled(packets, s, Lookup(id, C.Slot(c, id))) ==> c.slotting.ByByte? && id >= |c.container|)
    ensures s.uncached.Some? ==>
              var slot := C.Slot(c, s.uncached.value.id);
              && (C.Push(c, s.uncached.value).Some? <==> SenderEnabled(packets, s, CachePacket(slot)))
              && (C.Push(c, s.uncached.value).Some? ==>
                    SenderDo(packets, s, CachePacket(slot)).0.container == C.Push(c, s.uncached.value).value.container)
  {
  }

  // ---------- Everything, everywhere, is a packet of its source ----------

  ghost predicate Among(msgs: seq<Message>, packets: seq<Message>) {
    forall m :: m in msgs ==> m in packets
  }

  ghost predicate Honest(packets: seq<Message>, s: Sender) {
    && Among(s.sendQ, packets) && Among(s.container, packets)
    && Among(s.resendQ, packets) && Among(s.batch, packets)
    && (s.uncached.Some? ==> s.uncached.value in packets)
    && (s.found.Some? ==> s.found.value in packets)
    && Among(s.resent, packets)
  }

  ghost predicate AllAsked(msgs: seq<Message>, asked: set<nat>) {
    forall m :: m in msgs ==> m.id in asked
  }

  /** Everything on its way to be resent, and everything resent, was asked for. */
  ghost predicate OnlyAsked(s: Sender) {
    && (s.found.Some? ==> s.found.value.id in s.asked)
    && AllAsked(s.resendQ, s.asked) && AllAsked(s.batch, s.asked) && AllAsked(s.resent, s.asked)
  }

  /** A datagram of a known session with one of its packets. */
  predicate Genuine(sources: map<nat, Source>, d: Datagram) {
    d.session in sources && d.msg in PacketsOf(sources[d.session])
  }

  ghost predicate AllGenuine(sources: map<nat, Source>, ds: seq<Datagram>) {
    forall d :: d in ds ==> Genuine(sources, d)
  }

  ghost predicate WireGenuine(sources: map<nat, Source>, wire: set<Datagram>) {
    forall d :: d in wire ==> Genuine(sources, d)
  }

  ghost predicate SendersHonest(sources: map<nat, Source>, senders: map<nat, Sender>) {
    forall session :: session in senders && session in sources ==>
      Honest(PacketsOf(sources[session]), senders[session]) && OnlyAsked(senders[session])
  }

  ghost predicate ReceiverGenuine(sources: map<nat, Source>, r: State) {
    && SessionPurity.Inv(r)
    && AllGenuine(sources, r.written)
    && (r.data.Received? || r.data.Accepted? ==> Genuine(sources, r.data.d))
  }

  ghost predicate Inv(s: System) {
    SendersHonest(s.sources, s.senders) && WireGenuine(s.sources, s.wire) && ReceiverGenuine(s.sources, s.receiver)
  }

  lemma SenderKeeps(packets: seq<Message>, s: Sender, a: SenderAction)
    requires Honest(packets, s) && SenderEnabled(packets, s, a)
    ensures Honest(packets, SenderDo(packets, s, a).0) && Among(SenderDo(packets, s, a).1, packets)
  {
    if a.DrainResends? { T.CollectFrom([], s.resendQ); }
  }

  lemma SenderAsked(packets: seq<Message>, s: Sender, a: SenderAction)
    requires OnlyAsked(s) && SenderEnabled(packets, s, a)
    ensures OnlyAsked(SenderDo(packets, s, a).0)
  {
    if a.DrainResends? { T.CollectFrom([], s.resendQ); }
  }

  lemma SenderDoesKeeps(s: System, session: nat, does: SenderAction)
    requires Inv(s) && Enabled(s, SenderDoes(session, does))
    ensures Inv(Do(s, SenderDoes(session, does)))
  {
    SenderKeeps(PacketsOf(s.sources[session]), s.senders[session], does);
    SenderAsked(PacketsOf(s.sources[session]), s.senders[session], does);
  }

  lemma WriteGenuine(sources: map<nat, Source>, r: State)
    requires ReceiverGenuine(sources, r) && Receivers.Enabled(r, WriteBuffer)
    ensures ReceiverGenuine(sources, AfterWrite(r))
  {
    SessionPurity.WriteKeeps(r);
    AfterWriteFrame(r);
  }

  /** Nothing is written, and no datagram is taken in. */
  ghost predicate Quiet(r: State, r': State) {
    && r'.written == r.written
    && (r'.data.Received? || r'.data.Accepted? ==> (r.data.Received? || r.data.Accepted?) && r'.data.d == r.data.d)
  }

  lemma ReceiverDoesKeeps(s: System, step: Receivers.Action)
    requires Inv(s) && Enabled(s, ReceiverDoes(step))
    ensures ReceiverGenuine(s.sources, Receivers.Do(s.receiver, step))
  {
    if step.Receive? {
    } else if step.WriteBuffer? && Receivers.Enabled(s.receiver, step) {
      WriteGenuine(s.sources, s.receiver);
    } else if !step.WriteBuffer? {
      SessionPurity.DoKeeps(s.receiver, step);
    }
  }

  lemma {:induction false} RunKeeps(sources: map<nat, Source>, maxSize: nat, rtime: nat, actions: seq<Action>)
    ensures Inv(Run(sources, maxSize, rtime, actions))
  {
    if actions != [] {
      var before, a := Run(sources, maxSize, rtime, actions[..|actions| - 1]), actions[|actions| - 1];
      RunKeeps(sources, maxSize, rtime, actions[..|actions| - 1]);
      if Enabled(before, a) {
        match a
        case SenderDoes(session, does) => SenderDoesKeeps(before, session, does);
        case ReceiverDoes(step) => ReceiverDoesKeeps(before, step);
      }
    }
  }

  /** In every run, whichever slots the cache uses, a sender resends no packet that was not asked for. */
  lemma ResentWasAsked(sources: map<nat, Source>, maxSize: nat, rtime: nat, actions: seq<Action>,
                       session: nat, m: Message)
    ensures var s := Run(sources, maxSize, rtime, actions);
            session in sources && session in s.senders && m in s.senders[session].resent ==>
              m.id in s.senders[session].asked && m in PacketsOf(sources[session])
  {
    RunKeeps(sources, maxSize, rtime, actions);
  }

  /** A message is the k-th packet of a source: it is numbered k * psize and holds the k-th piece of the
      input, which is the input's own bytes wherever the input fills the packet. */
  ghost predicate IsChunk(source: Source, m: Message, k: nat) {
    && source.psize > 0 && k <= |source.input| / source.psize
    && k < |Chunks(source.input, Zeros(source.psize))|
    && m == Message(k * source.psize, Chunks(source.input, Zeros(source.psize))[k])
    && (k * source.psize + source.psize <= |source.input| ==>
          m.data == Slice(source.input, k * source.psize, source.psize))
  }

  lemma PacketIsChunk(source: Source, m: Message)
    requires m in PacketsOf(source)
    ensures exists k: nat :: IsChunk(source, m, k)
  {
    var packets := PacketsRead(source.input, source.psize);
    var k: nat :| k < |packets| && packets[k] == m;
    PacketsMeanInput(source.input, source.psize, k);
    assert IsChunk(source, m, k);
  }

  /** A message that came in a written datagram is a piece of the input of the datagram's sender. */
  lemma FromSource(s: System, ps: set<Message>, ds: seq<Datagram>, p: Message)
    requires AllGenuine(s.sources, ds) && FromDatagrams(ps, ds) && p in ps
    ensures exists session, k: nat :: session in s.sources && IsChunk(s.sources[session], p, k)
  {
    var d :| d in ds && d.msg == p;
    assert Genuine(s.sources, d);
    PacketIsChunk(s.sources[d.session], p);
  }

  /** Everything played, and everything in the buffer, is a piece of the input of some sender under the
      number of its first byte, in every run: whatever the network loses, duplicates or reorders,
      whoever asks for whatever again, and whichever slots the caches use. */
  lemma PlayedIsSent(sources: map<nat, Source>, maxSize: nat, rtime: nat, actions: seq<Action>, p: Message)
    requires var r := Run(sources, maxSize, rtime, actions).receiver; p in r.played || p in Packets(r.buffer)
    ensures exists session, k: nat :: session in sources && IsChunk(sources[session], p, k)
  {
    var s := Run(sources, maxSize, rtime, actions);
    RunKeeps(sources, maxSize, rtime, actions);
    if p in s.receiver.played {
      FromSource(s, Played(s.receiver), s.receiver.written, p);
    } else {
      assert AllGenuine(sources, Current(s.receiver));
      FromSource(s, Packets(s.receiver.buffer), Current(s.receiver), p);
    }
  }

  /** With no reset due, everything in the buffer is a piece of one input, that of the current session. */
  lemma BufferIsOneStream(sources: map<nat, Source>, maxSize: nat, rtime: nat, actions: seq<Action>, p: Message)
    ensures var r := Run(sources, maxSize, rtime, actions).receiver;
            p in Packets(r.buffer) && !ResetPending(r) ==>
              r.sessionId in sources && exists k: nat :: IsChunk(sources[r.sessionId], p, k)
  {
    var r := Run(sources, maxSize, rtime, actions).receiver;
    RunKeeps(sources, maxSize, rtime, actions);
    if p in Packets(r.buffer) && !ResetPending(r) {
      var d :| d in Current(r) && d.msg == p;
      assert d in r.written && Genuine(sources, d);
      PacketIsChunk(sources[d.session], p);
    }
  }
}
