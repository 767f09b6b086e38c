/** What the receiver plays is a piece of what the sender read: integrity and order together, from the
    sender's input over the network to the receiver's output. */
module StreamIntegrity {
  import opened Types
  import opened Progressions
  import opened InputPackets
  import opened BufferWindows
  import opened Contents
  import opened Receivers
  import opened EndToEnd
  import B = BufferRuns
  import O = PlaybackOrder
  import RB = ReceiverBuffer
  import P = SessionPurity

  // ---------- The receiver in the system is a run of its own ----------

  function Steps(sources: map<nat, Source>, maxSize: nat, rtime: nat, actions: seq<EndToEnd.Action>)
    : seq<Receivers.Action>
  {
    if actions == [] then []
    else
      var before, a := actions[..|actions| - 1], actions[|actions| - 1];
      var taken := a.ReceiverDoes? && EndToEnd.Enabled(EndToEnd.Run(sources, maxSize, rtime, before), a);
      Steps(sources, maxSize, rtime, before) + if taken then [a.step] else []
  }

  lemma {:induction false} ReceiverRunsItsSteps(sources: map<nat, Source>, maxSize: nat, rtime: nat,
                                                actions: seq<EndToEnd.Action>)
    ensures EndToEnd.Run(sources, maxSize, rtime, actions).receiver
         == Receivers.Run(maxSize, rtime, Steps(sources, maxSize, rtime, actions))
  {
    if actions != [] {
      var before, a := actions[..|actions| - 1], actions[|actions| - 1];
      var steps := Steps(sources, maxSize, rtime, before);
      ReceiverRunsItsSteps(sources, maxSize, rtime, before);
      if a.ReceiverDoes? && EndToEnd.Enabled(EndToEnd.Run(sources, maxSize, rtime, before), a) {
        assert (steps + [a.step])[..|steps|] == steps;
      } else {
        assert steps + [] == steps;
      }
    }
  }

  // ---------- The packet size is the sender's ----------

  /** Every packet of a source is of its size. */
  lemma PacketLength(source: Source, m: Message)
    requires m in PacketsOf(source)
    ensures source.psize > 0 && |m.data| == source.psize
  {
    PacketIsChunk(source, m);
  }

  ghost predicate SizeIs(w: Window, psize: nat) {
    w.state != NoSession ==> w.packageSize == psize
  }

  lemma WriteKeepsSize(w: Window, msg: Message, psize: nat)
    requires BufferWindows.Valid(w) && (w.state == NoSession ==> msg.data != [])
    requires SizeIs(w, psize) && |msg.data| == psize
    ensures SizeIs(Write(w, msg).0, psize)
  {
    var w1 := Open(w, msg);
    if Aligned(msg.id, w1.packageSize) { StoreFrame(w1, msg); }
  }

  lemma StepKeepsSize(r: State, step: Receivers.Action, psize: nat)
    requires BufferWindows.Valid(r.buffer) && SizeIs(r.buffer, psize)
    requires r.data.Accepted? ==> |r.data.d.msg.data| == psize
    ensures SizeIs(Receivers.Do(r, step).buffer, psize)
  {
    if Receivers.Enabled(r, step) {
      if step.WriteBuffer? {
        WriteKeepsSize(r.buffer, r.data.d.msg, psize);
        P.AfterWriteFrame(r);
      }
    }
  }

  lemma {:induction false} SizeIsTheSenders(session: nat, source: Source, maxSize: nat, rtime: nat,
                                            actions: seq<EndToEnd.Action>)
    ensures SizeIs(EndToEnd.Run(map[session := source], maxSize, rtime, actions).receiver.buffer, source.psize)
  {
    var sources := map[session := source];
    if actions != [] {
      var before, a := actions[..|actions| - 1], actions[|actions| - 1];
      var s := EndToEnd.Run(sources, maxSize, rtime, before);
      SizeIsTheSenders(session, source, maxSize, rtime, before);
      EndToEnd.RunKeeps(sources, maxSize, rtime, before);
      if a.ReceiverDoes? && EndToEnd.Enabled(s, a) {
        if s.receiver.data.Accepted? { PacketLength(source, s.receiver.data.d.msg); }
        StepKeepsSize(s.receiver, a.step, source.psize);
      }
    }
  }

  // ---------- Pieces of a stream ----------

  function Datas(msgs: seq<Message>): (r: seq<Payload>)
    ensures |r| == |msgs| && forall i :: 0 <= i < |r| ==> r[i] == msgs[i].data
  {
    seq(|msgs|, i requires 0 <= i < |msgs| => msgs[i].data)
  }

  predicate AllOfSize(chunks: seq<Payload>, p: nat) {
    forall k :: 0 <= k < |chunks| ==> |chunks[k]| == p
  }

  lemma {:induction false} ConcatOfSum(a: seq<Payload>, b: seq<Payload>)
    ensures Concat(a + b) == Concat(a) + Concat(b)
  {
    if a == [] {
      assert a + b == b;
    } else {
      ConcatOfSum(a[1..], b);
      assert (a + b)[1..] == a[1..] + b && (a + b)[0] == a[0];
      Assoc(a[0], Concat(a[1..]), Concat(b));
    }
  }

  lemma {:induction false} ConcatLength(chunks: seq<Payload>, p: nat)
    requires AllOfSize(chunks, p)
    ensures |Concat(chunks)| == Nth(0, p, |chunks|)
    decreases |chunks|
  {
    if chunks != [] {
      var n := |chunks| - 1;
      ConcatLength(chunks[..n], p);
      ConcatOfSum(chunks[..n], [chunks[n]]);
      assert chunks == chunks[..n] + [chunks[n]];
      assert Concat([chunks[n]]) == chunks[n] + [];
    }
  }

  /** A piece of a stream. */
  ghost predicate IsPiece(audio: Payload, stream: Payload, start: nat) {
    start + |audio| <= |stream| && stream[start..start + |audio|] == audio
  }

  lemma PieceOfSum(before: Payload, audio: Payload, after: Payload, stream: Payload, start: nat)
    requires stream == before + (audio + after) && start == |before|
    ensures IsPiece(audio, stream, start)
  {
  }

  lemma PieceOfChunks(chunks: seq<Payload>, p: nat, from: nat, n: nat, stream: Payload)
    requires AllOfSize(chunks, p) && from + n <= |chunks| && stream == Concat(chunks)
    ensures IsPiece(Concat(chunks[from..from + n]), stream, Nth(0, p, from))
  {
    var before, piece, after := chunks[..from], chunks[from..from + n], chunks[from + n..];
    assert chunks == before + (piece + after);
    ConcatOfSum(before, piece + after);
    ConcatOfSum(piece, after);
    ConcatLength(before, p);
    PieceOfSum(Concat(before), Concat(piece), Concat(after), stream, Nth(0, p, from));
  }

  // ---------- What is played ----------

  /** The numbers of two packets are as far apart as their ids. */
  lemma NumbersOfIds(psize: nat, k0: nat, k: nat, i: nat)
    requires psize > 0 && k * psize == Nth(k0 * psize, psize, i)
    ensures k == k0 + i
  {
    NthIsProduct(k0 * psize, psize, i);
    assert (k0 + i) * psize == k0 * psize + i * psize;
    if k < k0 + i { MulGap(k, k0 + i, psize); }
    if k0 + i < k { MulGap(k0 + i, k, psize); }
  }

  /** Consecutive packets of a source are consecutive pieces of it. */
  lemma PlayedChunk(source: Source, first: Message, m: Message, k0: nat, i: nat)
    requires IsChunk(source, first, k0) && (exists k: nat :: IsChunk(source, m, k))
    requires m.id == Nth(first.id, source.psize, i)
    ensures IsChunk(source, m, k0 + i)
  {
    var k: nat :| IsChunk(source, m, k);
    NumbersOfIds(source.psize, k0, k, i);
  }

  /** The history of the receiver's buffer in a run of the system. */
  function BufferTrace(session: nat, source: Source, maxSize: nat, rtime: nat, actions: seq<EndToEnd.Action>): B.Trace
  {
    B.Run(maxSize, RB.Ops(maxSize, rtime, Steps(map[session := source], maxSize, rtime, actions)))
  }

  /** What the window has given since it was last entered are the last packets played. */
  lemma SinceIsLast(session: nat, source: Source, maxSize: nat, rtime: nat, actions: seq<EndToEnd.Action>)
    ensures var t := BufferTrace(session, source, maxSize, rtime, actions);
            var r := EndToEnd.Run(map[session := source], maxSize, rtime, actions).receiver;
            t.w == r.buffer && EndsWith(r.played, O.PlayedSince(t.popped))
  {
    var steps := Steps(map[session := source], maxSize, rtime, actions);
    ReceiverRunsItsSteps(map[session := source], maxSize, rtime, actions);
    RB.BufferRunsItsOps(maxSize, rtime, steps);
    RB.PlayedSinceIsLast(maxSize, rtime, steps);
  }

  /** Each of them is a packet of the source. */
  lemma SinceIsSent(session: nat, source: Source, maxSize: nat, rtime: nat, actions: seq<EndToEnd.Action>, m: Message)
    requires m in O.PlayedSince(BufferTrace(session, source, maxSize, rtime, actions).popped)
    ensures exists k: nat :: IsChunk(source, m, k)
  {
    var sources := map[session := source];
    var played := EndToEnd.Run(sources, maxSize, rtime, actions).receiver.played;
    SinceIsLast(session, source, maxSize, rtime, actions);
    PlayedIsSent(sources, maxSize, rtime, actions, m);
  }

  /** Their ids are one packet apart. */
  lemma SinceIsGrid(session: nat, source: Source, maxSize: nat, rtime: nat, actions: seq<EndToEnd.Action>)
    requires O.Unbroken(BufferTrace(session, source, maxSize, rtime, actions).popped)
    requires O.PlayedSince(BufferTrace(session, source, maxSize, rtime, actions).popped) != []
    ensures Grid(O.Ids(O.PlayedSince(BufferTrace(session, source, maxSize, rtime, actions).popped)), source.psize)
  {
    var ops := RB.Ops(maxSize, rtime, Steps(map[session := source], maxSize, rtime, actions));
    O.NothingSkippedIff(maxSize, ops);
    B.RunKeeps(maxSize, ops);
    SinceIsLast(session, source, maxSize, rtime, actions);
    SizeIsTheSenders(session, source, maxSize, rtime, actions);
  }

  lemma SinceAt(session: nat, source: Source, maxSize: nat, rtime: nat, actions: seq<EndToEnd.Action>,
                k0: nat, i: nat)
    requires O.Unbroken(BufferTrace(session, source, maxSize, rtime, actions).popped)
    requires var since := O.PlayedSince(BufferTrace(session, source, maxSize, rtime, actions).popped);
             i < |since| && IsChunk(source, since[0], k0)
    ensures var since := O.PlayedSince(BufferTrace(session, source, maxSize, rtime, actions).popped);
            IsChunk(source, since[i], k0 + i)
  {
    var since := O.PlayedSince(BufferTrace(session, source, maxSize, rtime, actions).popped);
    SinceIsGrid(session, source, maxSize, rtime, actions);
    O.IdsOnGrid(since, source.psize, i);
    SinceIsSent(session, source, maxSize, rtime, actions, since[i]);
    PlayedChunk(source, since[0], since[i], k0, i);
  }

  /** Message i is packet k0 + i of the source. */
  ghost predicate ChunkInARow(source: Source, msgs: seq<Message>, k0: nat, i: nat)
    requires i < |msgs|
  {
    IsChunk(source, msgs[i], k0 + i)
  }

  ghost predicate InARow(source: Source, msgs: seq<Message>, k0: nat) {
    forall i: nat :: i < |msgs| ==> ChunkInARow(source, msgs, k0, i)
  }

  /** All a sender sends: its input and the stale end of its last packet. */
  function Stream(source: Source): Payload
    requires source.psize > 0
  {
    source.input + Stale(source.input, Zeros(source.psize))
  }

  lemma ChunksMakeAPiece(source: Source, played: seq<Message>, k0: nat) returns (start: nat)
    requires source.psize > 0 && InARow(source, played, k0)
    ensures IsPiece(Concat(Datas(played)), Stream(source), start)
  {
    if played == [] {
      start := 0;
    } else {
      start := Nth(0, source.psize, k0);
      ConcatIsInputThenStale(source.input, Zeros(source.psize));
      DatasAreChunks(source, played, k0);
      PieceOfChunks(Chunks(source.input, Zeros(source.psize)), source.psize, k0, |played|, Stream(source));
    }
  }

  lemma DatasAreChunks(source: Source, played: seq<Message>, k0: nat)
    requires source.psize > 0 && played != []
    requires InARow(source, played, k0)
    ensures var chunks := Chunks(source.input, Zeros(source.psize));
            k0 + |played| <= |chunks| && Datas(played) == chunks[k0..k0 + |played|]
  {
    var chunks, last := Chunks(source.input, Zeros(source.psize)), |played| - 1;
    assert ChunkInARow(source, played, k0, last);
    forall i: nat | i < |played| ensures Datas(played)[i] == chunks[k0..k0 + |played|][i] {
      assert ChunkInARow(source, played, k0, i);
    }
  }

  /** They are packets of the source with consecutive numbers. */
  lemma SinceAreChunks(session: nat, source: Source, maxSize: nat, rtime: nat, actions: seq<EndToEnd.Action>)
    returns (k0: nat)
    requires O.Unbroken(BufferTrace(session, source, maxSize, rtime, actions).popped)
    ensures InARow(source, O.PlayedSince(BufferTrace(session, source, maxSize, rtime, actions).popped), k0)
  {
    var since := O.PlayedSince(BufferTrace(session, source, maxSize, rtime, actions).popped);
    k0 := 0;
    if since != [] {
      SinceIsSent(session, source, maxSize, rtime, actions, since[0]);
      k0 :| IsChunk(source, since[0], k0);
      forall i: nat | i < |since| ensures ChunkInARow(source, since, k0, i) {
        SinceAt(session, source, maxSize, rtime, actions, k0, i);
      }
    }
  }

  /** One sender, a network that loses, duplicates and reorders, and a receiver that resets and drains as it
      may. If no eviction came between two reads since a packet last entered an empty window, the audio played since
      is one piece of the stream the sender sent: nothing missing, doubled or out of place. */
  lemma PlayedIsOnePiece(session: nat, source: Source, maxSize: nat, rtime: nat, actions: seq<EndToEnd.Action>)
    returns (k: nat, start: nat)
    requires source.psize > 0
    requires O.Unbroken(BufferTrace(session, source, maxSize, rtime, actions).popped)
    ensures var played := EndToEnd.Run(map[session := source], maxSize, rtime, actions).receiver.played;
            k <= |played| && played[k..] == O.PlayedSince(BufferTrace(session, source, maxSize, rtime, actions).popped)
            && IsPiece(Concat(Datas(played[k..])), Stream(source), start)
  {
    var t := BufferTrace(session, source, maxSize, rtime, actions);
    var played := EndToEnd.Run(map[session := source], maxSize, rtime, actions).receiver.played;
    SinceIsLast(session, source, maxSize, rtime, actions);
    k := |played| - |O.PlayedSince(t.popped)|;
    var k0 := SinceAreChunks(session, source, maxSize, rtime, actions);
    start := ChunksMakeAPiece(source, O.PlayedSince(t.popped), k0);
  }
}
