/** What the sender reads from its input (read_input of src/sender/transmitter.hpp): packets of psize
    bytes, read into one buffer that is never cleared. A read that meets the end of the input fills
    only part of the buffer, and the packet is sent all the same. */
module InputPackets {
  import opened Types
  import opened Progressions

  function Zeros(n: nat): (r: Payload)
    ensures |r| == n && forall k :: 0 <= k < n ==> r[k] == 0
  {
    seq(n, _ => 0)
  }

  /** The buffer after one read: what is left of the input overwrites its beginning. */
  function ReadInto(buf: Payload, rest: Payload): (r: Payload)
    ensures |r| == |buf|
  {
    if |rest| >= |buf| then rest[..|buf|] else rest + buf[|rest|..]
  }

  /** The packets read, the last of them by the read that meets the end. */
  function Chunks(input: Payload, buf: Payload): (r: seq<Payload>)
    requires |buf| > 0
    ensures |r| > 0 && forall k :: 0 <= k < |r| ==> |r[k]| == |buf|
    decreases |input|
  {
    var next := ReadInto(buf, input);
    if |input| >= |buf| then [next] + Chunks(input[|buf|..], next) else [next]
  }

  /** Packets numbered by their first byte. */
  function Numbered(id: nat, psize: nat, chunks: seq<Payload>): (r: seq<Message>)
    ensures |r| == |chunks|
    decreases |chunks|
  {
    if chunks == [] then [] else [Message(id, chunks[0])] + Numbered(id + psize, psize, chunks[1..])
  }

  /** Everything a sender with this input sends for the first time. */
  function PacketsRead(input: Payload, psize: nat): (r: seq<Message>)
    requires psize > 0
    ensures |r| > 0
  {
    Numbered(0, psize, Chunks(input, Zeros(psize)))
  }

  function Concat(chunks: seq<Payload>): Payload {
    if chunks == [] then [] else chunks[0] + Concat(chunks[1..])
  }

  lemma {:induction false} NumberedAt(id: nat, psize: nat, chunks: seq<Payload>, k: nat)
    requires k < |chunks|
    ensures Numbered(id, psize, chunks)[k] == Message(id + k * psize, chunks[k])
    decreases k
  {
    if k > 0 {
      NumberedAt(id + psize, psize, chunks[1..], k - 1);
      assert id + psize + (k - 1) * psize == id + k * psize;
    } else {
      assert 0 * psize == 0;
    }
  }

  // ---------- The packets against the input ----------

  /** One packet more than the input has whole ones. */
  lemma {:induction false} ChunkCount(input: Payload, buf: Payload)
    requires |buf| > 0
    ensures |Chunks(input, buf)| == |input| / |buf| + 1
  {
    var p := |buf|;
    if |input| >= p {
      var rest := input[p..];
      ChunkCount(rest, ReadInto(buf, input));
      OneMore(|rest|, p);
    } else {
      DivUnique(|input|, 0, |input|, p);
    }
  }

  lemma OneMore(n: nat, p: nat)
    requires p > 0
    ensures (n + p) / p == n / p + 1 && (n + p) % p == n % p
  {
    assert (n / p + 1) * p == n / p * p + p;
    DivUnique(n + p, n / p + 1, n % p, p);
  }

  /** Where packet k starts and ends, moved by one packet. */
  lemma OneBefore(n: nat, p: nat, k: nat)
    requires k > 0 && n >= p && k * p + p <= n
    ensures k * p == (k - 1) * p + p && (k - 1) * p + p <= n - p
  {
    assert k * p == (k - 1) * p + p;
  }

  /** The bytes of the k-th whole packet. */
  function Slice(input: Payload, start: nat, length: nat): Payload
    requires start + length <= |input|
  {
    input[start..start + length]
  }

  lemma SliceOfRest(input: Payload, p: nat, start: nat)
    requires p + start + p <= |input|
    ensures Slice(input[p..], start, p) == Slice(input, p + start, p)
  {
  }

  /** Every packet the input fills holds its bytes of the input, in order. */
  lemma {:induction false} WholeChunk(input: Payload, buf: Payload, k: nat)
    requires |buf| > 0 && k * |buf| + |buf| <= |input|
    ensures k < |Chunks(input, buf)| && Chunks(input, buf)[k] == Slice(input, k * |buf|, |buf|)
    decreases k
  {
    var p := |buf|;
    assert k * p >= 0;
    if k > 0 {
      OneBefore(|input|, p, k);
      WholeChunk(input[p..], ReadInto(buf, input), k - 1);
      SliceOfRest(input, p, (k - 1) * p);
    }
  }

  /** The bytes the last read leaves in the buffer: those of the last whole packet, if there is one. */
  function Stale(input: Payload, buf: Payload): (r: Payload)
    requires |buf| > 0
    decreases |input|
  {
    if |input| >= |buf| then Stale(input[|buf|..], input[..|buf|]) else buf[|input|..]
  }

  lemma {:induction false} ConcatIsInputThenStale(input: Payload, buf: Payload)
    requires |buf| > 0
    ensures Concat(Chunks(input, buf)) == input + Stale(input, buf)
    decreases |input|
  {
    var p, next := |buf|, ReadInto(buf, input);
    if |input| >= p {
      var rest := input[p..];
      ConcatIsInputThenStale(rest, next);
      assert Chunks(input, buf)[1..] == Chunks(rest, next);
      assert next + (rest + Stale(rest, next)) == input + Stale(rest, next);
    } else {
      assert Concat([next]) == next + [] == next;
    }
  }

  /** Which bytes those are: with r bytes in the last read, bytes r to psize of the packet before. */
  lemma {:induction false} StaleBytes(input: Payload, buf: Payload, psize: nat, r: nat)
    requires psize > 0 && |buf| == psize && r == |input| % psize
    ensures r < psize
    ensures |input| < psize ==> r == |input| && Stale(input, buf) == buf[r..]
    ensures |input| >= psize ==> r + psize <= |input| && Stale(input, buf) == input[|input| - psize..|input| - r]
    decreases |input|
  {
    if |input| < psize {
      DivUnique(|input|, 0, |input|, psize);
    } else {
      var rest := input[psize..];
      OneMore(|rest|, psize);
      StaleBytes(rest, input[..psize], psize, r);
    }
  }

  /** The stream sent is the input and then, always, more: with r bytes in the last read, bytes r to
      psize of what the buffer held, which is the packet before or, in the first packet, zeros. */
  lemma StreamIsInputThenStale(input: Payload, psize: nat, r: nat)
    requires psize > 0 && r == |input| % psize
    ensures r < psize
    ensures |input| < psize ==> Concat(Chunks(input, Zeros(psize))) == input + Zeros(psize)[r..]
    ensures |input| >= psize ==>
              && r + psize <= |input|
              && Concat(Chunks(input, Zeros(psize))) == input + input[|input| - psize..|input| - r]
  {
    StaleBytes(input, Zeros(psize), psize, r);
    ConcatIsInputThenStale(input, Zeros(psize));
  }

  lemma StreamIsLonger(input: Payload, psize: nat)
    requires psize > 0
    ensures input < Concat(Chunks(input, Zeros(psize)))
  {
    ConcatIsInputThenStale(input, Zeros(psize));
    SomeStale(input, Zeros(psize));
  }

  lemma {:induction false} SomeStale(input: Payload, buf: Payload)
    requires |buf| > 0
    ensures Stale(input, buf) != []
    decreases |input|
  {
    if |input| >= |buf| { SomeStale(input[|buf|..], input[..|buf|]); }
  }

  /** Packet k is numbered k * psize and holds the k-th piece of the input. */
  lemma PacketsMeanInput(input: Payload, psize: nat, k: nat)
    requires psize > 0 && k < |PacketsRead(input, psize)|
    ensures |PacketsRead(input, psize)| == |input| / psize + 1
    ensures PacketsRead(input, psize)[k] == Message(k * psize, Chunks(input, Zeros(psize))[k])
    ensures k * psize + psize <= |input| ==> PacketsRead(input, psize)[k].data == Slice(input, k * psize, psize)
  {
    ChunkCount(input, Zeros(psize));
    NumberedAt(0, psize, Chunks(input, Zeros(psize)), k);
    if k * psize + psize <= |input| {
      WholeChunk(input, Zeros(psize), k);
    }
  }
}
