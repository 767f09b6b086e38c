/** Datagrams as bytes (src/common/data_msg.hpp): two 64-bit numbers in network order, and the audio.

    Whether htonll and ntohll swap is a parameter: the source means to swap on a little-endian host, but
    compares one char with 2137, which no char equals. */
module DataMsgs {
  import opened Types

  datatype Host = LittleEndian | BigEndian

  datatype DataMsgError = NoSession | NoData

  /** 256 to the n. */
  function Power(n: nat): (p: nat)
    ensures p > 0
  {
    if n == 0 then 1 else 256 * Power(n - 1)
  }

  const TWO_TO_THE_32: nat := 0x1_0000_0000

  /** The n low bytes of a number, the lowest first. */
  function LowBytes(v: nat, n: nat): (r: seq<Byte>)
    ensures |r| == n
    decreases n, v
  {
    if n == 0 then [] else [(v % 256) as Byte] + LowBytes(v / 256, n - 1)
  }

  /** The number whose bytes these are, the lowest first. */
  function Number(bytes: seq<Byte>): (v: nat)
    ensures v < Power(|bytes|)
  {
    if bytes == [] then 0 else bytes[0] as nat + 256 * Number(bytes[1..])
  }

  lemma {:induction false} NumberOfLowBytes(v: nat, n: nat)
    requires v < Power(n)
    ensures Number(LowBytes(v, n)) == v
    decreases n
  {
    if n > 0 {
      NumberOfLowBytes(v / 256, n - 1);
      assert LowBytes(v, n)[1..] == LowBytes(v / 256, n - 1);
    }
  }

  lemma {:induction false} LowBytesOfNumber(bytes: seq<Byte>)
    ensures LowBytes(Number(bytes), |bytes|) == bytes
  {
    if bytes != [] {
      var v, rest := Number(bytes), Number(bytes[1..]);
      assert v == bytes[0] as nat + 256 * rest;
      assert v % 256 == bytes[0] as nat && v / 256 == rest;
      LowBytesOfNumber(bytes[1..]);
    }
  }

  function Reverse(bytes: seq<Byte>): (r: seq<Byte>)
    ensures |r| == |bytes|
  {
    if bytes == [] then [] else Reverse(bytes[1..]) + [bytes[0]]
  }

  lemma {:induction false} ReverseOfSum(a: seq<Byte>, b: seq<Byte>)
    ensures Reverse(a + b) == Reverse(b) + Reverse(a)
  {
    if a == [] {
      assert a + b == b;
    } else {
      ReverseOfSum(a[1..], b);
      assert (a + b)[1..] == a[1..] + b;
    }
  }

  lemma {:induction false} ReverseTwice(bytes: seq<Byte>)
    ensures Reverse(Reverse(bytes)) == bytes
  {
    if bytes != [] {
      ReverseTwice(bytes[1..]);
      ReverseOfSum(Reverse(bytes[1..]), [bytes[0]]);
      assert Reverse([bytes[0]]) == [bytes[0]];
    }
  }

  // ---------- A 64-bit number in memory and on the wire ----------

  /** The bytes of a number in the memory of a host. */
  function Memory(host: Host, v: nat): (r: seq<Byte>)
    ensures |r| == 8
  {
    if host.LittleEndian? then LowBytes(v, 8) else Reverse(LowBytes(v, 8))
  }

  function FromMemory(host: Host, bytes: seq<Byte>): nat {
    if host.LittleEndian? then Number(bytes) else Number(Reverse(bytes))
  }

  /** htonl and ntohl: the four bytes reversed, on a little-endian host. */
  function Htonl(host: Host, v: nat): nat
    requires v < TWO_TO_THE_32
  {
    if host.LittleEndian? then Number(Reverse(LowBytes(v, 4))) else v
  }

  /** htonll and ntohll. */
  function Htonll(host: Host, swap: bool, v: nat): nat
    requires v < TWO_TO_THE_64
  {
    if swap then
      var highPart := Htonl(host, v / TWO_TO_THE_32);
      var lowPart := Htonl(host, v % TWO_TO_THE_32);
      lowPart * TWO_TO_THE_32 + highPart
    else v
  }

  lemma HtonlTwice(host: Host, v: nat)
    requires v < TWO_TO_THE_32
    ensures Htonl(host, v) < TWO_TO_THE_32 && Htonl(host, Htonl(host, v)) == v
  {
    var bytes := Reverse(LowBytes(v, 4));
    LowBytesOfNumber(bytes);
    ReverseTwice(LowBytes(v, 4));
    NumberOfLowBytes(v, 4);
  }

  /** Either branch, on either host, undoes itself. */
  lemma HtonllTwice(host: Host, swap: bool, v: nat)
    requires v < TWO_TO_THE_64
    ensures Htonll(host, swap, v) < TWO_TO_THE_64
    ensures Htonll(host, swap, Htonll(host, swap, v)) == v
  {
    if swap {
      var high, low := v / TWO_TO_THE_32, v % TWO_TO_THE_32;
      HtonlTwice(host, high);
      HtonlTwice(host, low);
      var high', low' := Htonl(host, high), Htonl(host, low);
      SwapOf(host, high, low, v, high', low', low' * TWO_TO_THE_32 + high');
      SwapOf(host, low', high', low' * TWO_TO_THE_32 + high', low, high, v);
    }
  }

  lemma SwapOf(host: Host, high: nat, low: nat, v: nat, high': nat, low': nat, r: nat)
    requires high < TWO_TO_THE_32 && low < TWO_TO_THE_32 && v == high * TWO_TO_THE_32 + low
    requires high' == Htonl(host, high) && low' == Htonl(host, low) && r == low' * TWO_TO_THE_32 + high'
    ensures v < TWO_TO_THE_64 && Htonll(host, true, v) == r
  {
    assert v / TWO_TO_THE_32 == high && v % TWO_TO_THE_32 == low;
  }

  /** The low bytes of a sum of two halves are those of the low half and then those of the high. */
  lemma {:induction false} BytesOfSum(v: nat, high: nat, low: nat, n: nat, m: nat, p: nat)
    requires p == Power(n) && low < p && v == high * p + low
    ensures LowBytes(v, n + m) == LowBytes(low, n) + LowBytes(high, m)
    decreases n
  {
    if n > 0 {
      var q := Power(n - 1);
      Shifted(v, high, low, p, q);
      BytesOfSum(v / 256, high, low / 256, n - 1, m, q);
    }
  }

  lemma Shifted(v: nat, high: nat, low: nat, p: nat, q: nat)
    requires p == 256 * q && low < p && v == high * p + low
    ensures v % 256 == low % 256 && v / 256 == high * q + low / 256 && low / 256 < q
  {
    assert high * (256 * q) == 256 * (high * q);
  }

  lemma ReversedFits(v: nat, n: nat)
    requires v < Power(n)
    ensures Number(Reverse(LowBytes(v, n))) < Power(n)
    ensures LowBytes(Number(Reverse(LowBytes(v, n))), n) == Reverse(LowBytes(v, n))
  {
    LowBytesOfNumber(Reverse(LowBytes(v, n)));
  }

  /** Reversing two halves and exchanging them reverses the whole. */
  lemma HalvesReversed(high: nat, low: nat, n: nat, p: nat, v: nat, high': nat, low': nat, r: nat)
    requires p == Power(n) && high < p && low < p
    requires high' == Number(Reverse(LowBytes(high, n))) && low' == Number(Reverse(LowBytes(low, n)))
    requires v == high * p + low && r == low' * p + high'
    ensures LowBytes(r, n + n) == Reverse(LowBytes(v, n + n))
  {
    ReversedFits(high, n);
    ReversedFits(low, n);
    BytesOfSum(v, high, low, n, n, p);
    BytesOfSum(r, low', high', n, n, p);
    ReverseOfSum(LowBytes(low, n), LowBytes(high, n));
  }

  /** On a little-endian host the swap branch is the reversal of all eight bytes. */
  lemma SwapReverses(v: nat)
    requires v < TWO_TO_THE_64
    ensures LowBytes(Htonll(LittleEndian, true, v), 8) == Reverse(LowBytes(v, 8))
  {
    var high, low := v / TWO_TO_THE_32, v % TWO_TO_THE_32;
    HalvesReversed(high, low, 4, TWO_TO_THE_32, v, Htonl(LittleEndian, high), Htonl(LittleEndian, low),
                   Htonll(LittleEndian, true, v));
  }

  /** The bytes of a number in network order. */
  function NetworkOrder(v: nat): seq<Byte> {
    Reverse(LowBytes(v, 8))
  }

  /** The bytes that are sent. */
  function Wire(host: Host, swap: bool, v: nat): (r: seq<Byte>)
    requires v < TWO_TO_THE_64
    ensures |r| == 8
  {
    Memory(host, Htonll(host, swap, v))
  }

  /** Swapping exactly on a little-endian host puts the protocol's byte order on the wire. */
  lemma SwapWhereNeeded(host: Host, v: nat)
    requires v < TWO_TO_THE_64
    ensures Wire(host, host.LittleEndian?, v) == NetworkOrder(v)
  {
    if host.LittleEndian? { SwapReverses(v); }
  }

  /** The first byte in memory of the 32-bit number 2137, as a char. */
  function FirstByteOf2137(host: Host): int {
    var low := LowBytes(2137, 4);
    (if host.LittleEndian? then low[0] else Reverse(low)[0]) as int
  }

  /** The test as written. */
  predicate SwapsAsWritten(host: Host) {
    FirstByteOf2137(host) == 2137
  }

  /** It is false on every host: it compares 89, or 0, with 2137. */
  lemma BranchIsNeverTaken(host: Host)
    ensures FirstByteOf2137(host) == if host.LittleEndian? then 89 else 0
    ensures !SwapsAsWritten(host)
  {
    var low := LowBytes(2137, 4);
    assert low == [89, 8, 0, 0];
    assert Reverse(low)[0] == low[3] by {
      assert Reverse(low) == Reverse(low[1..]) + [low[0]];
      assert Reverse(low[1..]) == Reverse(low[1..][1..]) + [low[1]];
      assert Reverse(low[1..][1..]) == Reverse(low[1..][1..][1..]) + [low[2]];
      assert low[1..][1..][1..] == [low[3]];
    }
  }

  // ---------- Datagrams ----------

  /** The bytes of a datagram: session, id, audio. */
  function Raw(host: Host, swap: bool, d: Datagram): (r: seq<Byte>)
    requires d.session < TWO_TO_THE_64 && d.msg.id < TWO_TO_THE_64
    ensures |r| == 16 + |d.msg.data|
  {
    Wire(host, swap, d.session) + Wire(host, swap, d.msg.id) + d.msg.data
  }

  /** A number in memory after its bytes have been copied there. */
  function Received(host: Host, swap: bool, bytes: seq<Byte>): nat
    requires |bytes| == 8
  {
    Htonll(host, swap, FromMemory(host, bytes))
  }

  function Parse(host: Host, swap: bool, raw: seq<Byte>): Datagram
    requires |raw| >= 16
  {
    Datagram(Received(host, swap, raw[..8]), Message(Received(host, swap, raw[8..16]), raw[16..]))
  }

  lemma NumberIsReceived(host: Host, swap: bool, v: nat)
    requires v < TWO_TO_THE_64
    ensures Received(host, swap, Wire(host, swap, v)) == v
  {
    var net := Htonll(host, swap, v);
    HtonllTwice(host, swap, v);
    NumberOfLowBytes(net, 8);
    ReverseTwice(LowBytes(net, 8));
  }

  /** Every datagram is read back from its bytes, with either branch on either host. */
  lemma DatagramIsReceived(host: Host, swap: bool, d: Datagram)
    requires d.session < TWO_TO_THE_64 && d.msg.id < TWO_TO_THE_64
    ensures Parse(host, swap, Raw(host, swap, d)) == d
  {
    Parts(Wire(host, swap, d.session), Wire(host, swap, d.msg.id), d.msg.data, Raw(host, swap, d));
    NumberIsReceived(host, swap, d.session);
    NumberIsReceived(host, swap, d.msg.id);
  }

  lemma Parts(session: seq<Byte>, id: seq<Byte>, data: Payload, raw: seq<Byte>)
    requires |session| == |id| == 8 && raw == session + id + data
    ensures raw[..8] == session && raw[8..16] == id && raw[16..] == data
  {
  }

  /** Every eight bytes are what is sent for the number they are read as. */
  lemma ReceivedIsSent(host: Host, swap: bool, bytes: seq<Byte>)
    requires |bytes| == 8
    ensures Received(host, swap, bytes) < TWO_TO_THE_64
    ensures Wire(host, swap, Received(host, swap, bytes)) == bytes
  {
    HtonllTwice(host, swap, FromMemory(host, bytes));
    LowBytesOfNumber(bytes);
    LowBytesOfNumber(Reverse(bytes));
    ReverseTwice(bytes);
  }

  class DataMsg {
    var id: nat
    var sessionId: Option<nat>
    var data: Option<Payload>

    constructor WithId(id: nat)
      ensures this.id == id && sessionId == None && data == None
    {
      this.id, sessionId, data := id, None, None;
    }

    constructor WithData(id: nat, data: Payload)
      ensures this.id == id && sessionId == None && this.data == Some(data)
    {
      this.id, sessionId, this.data := id, None, Some(data);
    }

    constructor Full(id: nat, sessionId: nat, data: Payload)
      ensures this.id == id && this.sessionId == Some(sessionId) && this.data == Some(data)
    {
      this.id, this.sessionId, this.data := id, Some(sessionId), Some(data);
    }

    /** From the bytes received. None for fewer than 16 of them, where the source reads past their end. */
    static method FromRaw(host: Host, swap: bool, raw: seq<Byte>) returns (r: Option<DataMsg>)
      ensures r.None? <==> |raw| < 16
      ensures r.Some? ==>
                var d := Parse(host, swap, raw);
                && fresh(r.value) && r.value.id == d.msg.id
                && r.value.sessionId == Some(d.session) && r.value.data == Some(d.msg.data)
    {
      if |raw| < 16 {
        return None;
      }
      var session := Received(host, swap, raw[..8]);
      var id := Received(host, swap, raw[8..16]);
      var msg := new DataMsg.Full(id, session, raw[16..]);
      r := Some(msg);
    }

    method SetData(data: Payload)
      modifies this`data
      ensures this.data == Some(data)
    {
      this.data := Some(data);
    }

    method SetSessionId(sessionId: nat)
      modifies this`sessionId
      ensures this.sessionId == Some(sessionId)
    {
      this.sessionId := Some(sessionId);
    }

    /** A message without a session, or without data, cannot be sent. */
    method Sendable(host: Host, swap: bool) returns (r: Result<seq<Byte>, DataMsgError>)
      requires id < TWO_TO_THE_64 && (sessionId.Some? ==> sessionId.value < TWO_TO_THE_64)
      ensures r == if sessionId.None? then Err(NoSession)
                   else if data.None? then Err(NoData)
                   else Ok(Raw(host, swap, Datagram(sessionId.value, Message(id, data.value))))
    {
      if sessionId.None? {
        return Err(NoSession);
      }
      if data.None? {
        return Err(NoData);
      }
      var netSessionId := Wire(host, swap, sessionId.value);
      var netId := Wire(host, swap, id);
      r := Ok(netSessionId + netId + data.value);
    }
  }
}
