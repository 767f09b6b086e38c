/** Which bytes a host puts on the wire, and which hosts understand each other
    (src/common/data_msg.hpp:17-39). The protocol promises big-endian numbers (README.md:46-47); the
    source keeps the promise only where, and for the numbers for which, not swapping is right. */
module ByteOrders {
  import opened Types
  import opened DataMsgs
  import opened Progressions

  /** The order of the eight bytes of a number: the highest first, the lowest first, or the highest of the
      low half first and then the high half likewise. */
  datatype WireOrder = HighFirst | LowFirst | HalvesExchanged

  /** Byte i of a number, counted from the lowest. */
  function ByteAt(v: nat, i: nat): nat {
    v / Power(i) % 256
  }

  function OrderOf(host: Host, swap: bool): WireOrder {
    match host
    case LittleEndian => if swap then HighFirst else LowFirst
    case BigEndian => if swap then HalvesExchanged else HighFirst
  }

  /** Which byte of a number comes at place i. */
  function ByteAtPlace(o: WireOrder, i: nat): (j: nat)
    requires i < 8
    ensures j < 8
  {
    match o
    case HighFirst => 7 - i
    case LowFirst => i
    case HalvesExchanged => if i < 4 then 3 - i else 11 - i
  }

  // ---------- The bytes one by one ----------

  lemma QuotientTwice(v: nat, p: nat)
    requires p > 0
    ensures v / 256 / p == v / (256 * p)
  {
    var q, r := v / 256 / p, v / 256 % p;
    assert v / 256 == q * p + r;
    assert 256 * (q * p) == q * (256 * p);
    DivUnique(v, q, 256 * r + v % 256, 256 * p);
  }

  lemma {:induction false} LowBytesAt(v: nat, n: nat, i: nat)
    requires i < n
    ensures LowBytes(v, n)[i] as nat == ByteAt(v, i)
    decreases n
  {
    if i == 0 {
      assert Power(0) == 1;
    } else {
      LowBytesAt(v / 256, n - 1, i - 1);
      QuotientTwice(v, Power(i - 1));
      assert LowBytes(v, n)[i] == LowBytes(v / 256, n - 1)[i - 1];
    }
  }

  lemma {:induction false} ReverseAt(bytes: seq<Byte>, i: nat)
    requires i < |bytes|
    ensures Reverse(bytes)[i] == bytes[|bytes| - 1 - i]
  {
    if i < |bytes| - 1 { ReverseAt(bytes[1..], i); }
  }

  /** On a big-endian host the swap branch exchanges the two halves. */
  lemma SwapExchanges(v: nat, high: nat, low: nat)
    requires v < TWO_TO_THE_64 && high == v / TWO_TO_THE_32 && low == v % TWO_TO_THE_32
    ensures LowBytes(v, 8) == LowBytes(low, 4) + LowBytes(high, 4)
    ensures LowBytes(Htonll(BigEndian, true, v), 8) == LowBytes(high, 4) + LowBytes(low, 4)
  {
    BytesOfSum(v, high, low, 4, 4, TWO_TO_THE_32);
    BytesOfSum(Htonll(BigEndian, true, v), low, high, 4, 4, TWO_TO_THE_32);
  }

  lemma ExchangedAt(v: nat, i: nat)
    requires v < TWO_TO_THE_64 && i < 8
    ensures Wire(BigEndian, true, v)[i] == LowBytes(v, 8)[if i < 4 then 3 - i else 11 - i]
  {
    var high, low := v / TWO_TO_THE_32, v % TWO_TO_THE_32;
    SwapExchanges(v, high, low);
    ExchangedHalves(LowBytes(Htonll(BigEndian, true, v), 8), LowBytes(v, 8), LowBytes(low, 4), LowBytes(high, 4), i);
  }

  lemma ExchangedHalves(r: seq<Byte>, b: seq<Byte>, l: seq<Byte>, h: seq<Byte>, i: nat)
    requires |l| == |h| == 4 && r == h + l && b == l + h && i < 8
    ensures Reverse(r)[i] == b[if i < 4 then 3 - i else 11 - i]
  {
    ReverseAt(r, i);
  }

  /** The bytes of a number, lowest first, put in an order. */
  function Placed(o: WireOrder, bytes: seq<Byte>): (r: seq<Byte>)
    requires |bytes| == 8
    ensures |r| == 8 && forall i :: 0 <= i < 8 ==> r[i] == bytes[ByteAtPlace(o, i)]
  {
    seq(8, i requires 0 <= i < 8 => bytes[ByteAtPlace(o, i)])
  }

  lemma WireIsPlaced(host: Host, swap: bool, v: nat)
    requires v < TWO_TO_THE_64
    ensures Wire(host, swap, v) == Placed(OrderOf(host, swap), LowBytes(v, 8))
  {
    var o, bytes := OrderOf(host, swap), LowBytes(v, 8);
    forall i | 0 <= i < 8 ensures Wire(host, swap, v)[i] == bytes[ByteAtPlace(o, i)] {
      if o.HalvesExchanged? { ExchangedAt(v, i); } else { ReversedOrNot(host, swap, v, i); }
    }
  }

  lemma ReversedOrNot(host: Host, swap: bool, v: nat, i: nat)
    requires v < TWO_TO_THE_64 && i < 8 && (host.LittleEndian? || !swap)
    ensures Wire(host, swap, v)[i] == LowBytes(v, 8)[if host.BigEndian? || swap then 7 - i else i]
  {
    if swap { SwapReverses(v); }
    ReverseAt(LowBytes(v, 8), i);
  }

  /** Every byte on the wire, for every number, host and branch. */
  lemma WireAt(host: Host, swap: bool, v: nat, i: nat)
    requires v < TWO_TO_THE_64 && i < 8
    ensures Wire(host, swap, v)[i] as nat == ByteAt(v, ByteAtPlace(OrderOf(host, swap), i))
  {
    WireIsPlaced(host, swap, v);
    LowBytesAt(v, 8, ByteAtPlace(OrderOf(host, swap), i));
  }

  /** Every byte of a datagram: eight of the session, eight of the id, in the order of the host and branch; and then
      the audio. With a swap where it is needed both numbers go out highest byte first. */
  lemma DatagramAt(host: Host, swap: bool, d: Datagram, i: nat)
    requires d.session < TWO_TO_THE_64 && d.msg.id < TWO_TO_THE_64 && i < 16 + |d.msg.data|
    ensures var raw := Raw(host, swap, d);
            && |raw| == 16 + |d.msg.data|
            && (i < 8 ==> raw[i] as nat == ByteAt(d.session, ByteAtPlace(OrderOf(host, swap), i)))
            && (8 <= i < 16 ==> raw[i] as nat == ByteAt(d.msg.id, ByteAtPlace(OrderOf(host, swap), i - 8)))
            && (16 <= i ==> raw[i] == d.msg.data[i - 16])
    ensures swap == host.LittleEndian? ==> OrderOf(host, swap) == HighFirst
  {
    if i < 8 {
      WireAt(host, swap, d.session, i);
    } else if i < 16 {
      WireAt(host, swap, d.msg.id, i - 8);
    }
  }

  // ---------- When two orders come to the same ----------

  /** The n bytes from place i on read the same backwards. */
  predicate Mirrored(v: nat, i: nat, n: nat)
    requires n == 4 || n == 8
  {
    && ByteAt(v, i) == ByteAt(v, i + n - 1) && ByteAt(v, i + 1) == ByteAt(v, i + n - 2)
    && (n == 8 ==> ByteAt(v, i + 2) == ByteAt(v, i + 5) && ByteAt(v, i + 3) == ByteAt(v, i + 4))
  }

  /** The numbers two orders treat alike: all, if they are the same order; else those whose bytes read the
      same both ways, those with equal halves, or those each of whose halves reads the same both ways. */
  predicate Alike(a: WireOrder, b: WireOrder, v: nat) {
    if a == b then true
    else if a != HalvesExchanged && b != HalvesExchanged then Mirrored(v, 0, 8)
    else if a == HighFirst || b == HighFirst then v / TWO_TO_THE_32 == v % TWO_TO_THE_32
    else Mirrored(v, 0, 4) && Mirrored(v, 4, 4)
  }

  /** Mirrored and Alike, of the bytes instead of the number. */
  predicate MirroredBytes(s: seq<Byte>, i: nat, n: nat)
    requires (n == 4 || n == 8) && i + n <= |s|
  {
    && s[i] == s[i + n - 1] && s[i + 1] == s[i + n - 2]
    && (n == 8 ==> s[i + 2] == s[i + 5] && s[i + 3] == s[i + 4])
  }

  predicate AlikeBytes(a: WireOrder, b: WireOrder, s: seq<Byte>)
    requires |s| == 8
  {
    if a == b then true
    else if a != HalvesExchanged && b != HalvesExchanged then MirroredBytes(s, 0, 8)
    else if a == HighFirst || b == HighFirst then s[..4] == s[4..]
    else MirroredBytes(s, 0, 4) && MirroredBytes(s, 4, 4)
  }

  lemma PlacedAlike(a: WireOrder, b: WireOrder, s: seq<Byte>)
    requires |s| == 8
    ensures Placed(a, s) == Placed(b, s) <==> AlikeBytes(a, b, s)
  {
    var x, y := Placed(a, s), Placed(b, s);
    assert x == y <==> x[0] == y[0] && x[1] == y[1] && x[2] == y[2] && x[3] == y[3]
                       && x[4] == y[4] && x[5] == y[5] && x[6] == y[6] && x[7] == y[7];
    assert s[..4] == s[4..] <==> s[0] == s[4] && s[1] == s[5] && s[2] == s[6] && s[3] == s[7] by {
      var l, h := s[..4], s[4..];
      assert l == h <==> l[0] == h[0] && l[1] == h[1] && l[2] == h[2] && l[3] == h[3];
    }
  }

  lemma MirroredMeans(v: nat, i: nat, n: nat)
    requires (n == 4 || n == 8) && i + n <= 8
    ensures Mirrored(v, i, n) <==> MirroredBytes(LowBytes(v, 8), i, n)
  {
    var s := LowBytes(v, 8);
    forall j: nat | j < 8 ensures s[j] as nat == ByteAt(v, j) { LowBytesAt(v, 8, j); }
  }

  lemma {:induction false} SameBytes(a: nat, b: nat, n: nat)
    requires a < Power(n) && b < Power(n)
    ensures LowBytes(a, n) == LowBytes(b, n) <==> a == b
  {
    NumberOfLowBytes(a, n);
    NumberOfLowBytes(b, n);
  }

  lemma EqualHalves(v: nat)
    requires v < TWO_TO_THE_64
    ensures v / TWO_TO_THE_32 == v % TWO_TO_THE_32 <==> LowBytes(v, 8)[..4] == LowBytes(v, 8)[4..]
  {
    var high, low := v / TWO_TO_THE_32, v % TWO_TO_THE_32;
    SwapExchanges(v, high, low);
    SameBytes(high, low, 4);
  }

  lemma AlikeMeans(a: WireOrder, b: WireOrder, v: nat)
    requires v < TWO_TO_THE_64
    ensures Alike(a, b, v) <==> AlikeBytes(a, b, LowBytes(v, 8))
  {
    if a == b {
    } else if a != HalvesExchanged && b != HalvesExchanged {
      MirroredMeans(v, 0, 8);
    } else if a == HighFirst || b == HighFirst {
      EqualHalves(v);
    } else {
      MirroredMeans(v, 0, 4);
      MirroredMeans(v, 4, 4);
    }
  }

  lemma SameWireIff(host1: Host, swap1: bool, host2: Host, swap2: bool, v: nat)
    requires v < TWO_TO_THE_64
    ensures Wire(host1, swap1, v) == Wire(host2, swap2, v)
       <==> Alike(OrderOf(host1, swap1), OrderOf(host2, swap2), v)
  {
    WireIsPlaced(host1, swap1, v);
    WireIsPlaced(host2, swap2, v);
    PlacedAlike(OrderOf(host1, swap1), OrderOf(host2, swap2), LowBytes(v, 8));
    AlikeMeans(OrderOf(host1, swap1), OrderOf(host2, swap2), v);
  }

  // ---------- The promise of the protocol, and the source as written ----------

  /** Which numbers go out as the protocol promises: all of them where the order is the highest byte first,
      elsewhere those that order treats alike. */
  lemma NetworkOrderIff(host: Host, swap: bool, v: nat)
    requires v < TWO_TO_THE_64
    ensures Wire(host, swap, v) == NetworkOrder(v) <==> Alike(OrderOf(host, swap), HighFirst, v)
  {
    SameWireIff(host, swap, BigEndian, false, v);
  }

  /** Sent by one host and read by another, a number arrives as it was sent exactly if the orders of the
      two treat it alike. */
  lemma HostsAgreeIff(sender: Host, senderSwaps: bool, receiver: Host, receiverSwaps: bool, v: nat)
    requires v < TWO_TO_THE_64
    ensures Received(receiver, receiverSwaps, Wire(sender, senderSwaps, v)) == v
       <==> Alike(OrderOf(sender, senderSwaps), OrderOf(receiver, receiverSwaps), v)
  {
    NumberIsReceived(receiver, receiverSwaps, v);
    ReceivedIsSent(receiver, receiverSwaps, Wire(sender, senderSwaps, v));
    SameWireIff(sender, senderSwaps, receiver, receiverSwaps, v);
  }

  /** As written no host swaps. Then a number is sent as promised exactly by a big-endian host, or if its
      bytes read the same both ways; and it arrives as sent exactly under that condition or between hosts
      of the same kind. */
  lemma AsWrittenIff(sender: Host, receiver: Host, v: nat)
    requires v < TWO_TO_THE_64
    ensures !SwapsAsWritten(sender) && !SwapsAsWritten(receiver)
    ensures Wire(sender, SwapsAsWritten(sender), v) == NetworkOrder(v) <==> sender.BigEndian? || Mirrored(v, 0, 8)
    ensures Received(receiver, SwapsAsWritten(receiver), Wire(sender, SwapsAsWritten(sender), v)) == v
       <==> sender == receiver || Mirrored(v, 0, 8)
  {
    BranchIsNeverTaken(sender);
    BranchIsNeverTaken(receiver);
    NetworkOrderIff(sender, false, v);
    HostsAgreeIff(sender, false, receiver, false, v);
  }

  /** No number between 0 and 2^32 reads the same both ways, so from a little-endian host every such
      session and every such packet id goes out wrong, and no big-endian host reads it right. */
  lemma SmallNumbersGoWrong(v: nat)
    requires 0 < v < TWO_TO_THE_32
    ensures !Mirrored(v, 0, 8)
    ensures Wire(LittleEndian, SwapsAsWritten(LittleEndian), v) != NetworkOrder(v)
    ensures Received(BigEndian, SwapsAsWritten(BigEndian), Wire(LittleEndian, SwapsAsWritten(LittleEndian), v)) != v
  {
    SmallIsNotMirrored(v);
    AsWrittenIff(LittleEndian, BigEndian, v);
  }

  lemma SmallIsNotMirrored(v: nat)
    requires 0 < v < TWO_TO_THE_32
    ensures !Mirrored(v, 0, 8)
  {
    var low, zero := LowBytes(v, 4), LowBytes(0, 4);
    SwapExchanges(v, 0, v);
    ZeroBytes(4);
    SameBytes(v, 0, 4);
    MirroredMeans(v, 0, 8);
  }

  lemma {:induction false} ZeroBytes(n: nat)
    ensures forall i :: 0 <= i < n ==> LowBytes(0, n)[i] == 0
  {
    if n > 0 { ZeroBytes(n - 1); }
  }

  /** The number 1, sent by a little-endian host and read by a big-endian one, arrives as 2^56. */
  lemma OneArrivesWrong()
    ensures Wire(LittleEndian, SwapsAsWritten(LittleEndian), 1) == [1, 0, 0, 0, 0, 0, 0, 0]
    ensures NetworkOrder(1) == [0, 0, 0, 0, 0, 0, 0, 1]
    ensures Received(BigEndian, SwapsAsWritten(BigEndian), [1, 0, 0, 0, 0, 0, 0, 0]) == 0x100_0000_0000_0000
  {
    BranchIsNeverTaken(LittleEndian);
    BranchIsNeverTaken(BigEndian);
    OneReversed([1, 0, 0, 0, 0, 0, 0, 0], [0, 0, 0, 0, 0, 0, 0, 1]);
    NumberOfTail([0, 0, 0, 0, 0, 0, 0, 1], 7);
  }

  lemma OneReversed(sent: seq<Byte>, big: seq<Byte>)
    requires sent == [1, 0, 0, 0, 0, 0, 0, 0] && big == [0, 0, 0, 0, 0, 0, 0, 1]
    ensures LowBytes(1, 8) == sent && Reverse(sent) == big
  {
    BytesOfOne(8);
    ReverseIsPlaced(sent);
    assert Placed(HighFirst, sent) == big;
  }

  lemma BytesOfOne(n: nat)
    requires n > 0
    ensures LowBytes(1, n)[0] == 1 && forall i :: 0 < i < n ==> LowBytes(1, n)[i] == 0
  {
    ZeroBytes(n - 1);
    assert LowBytes(1, n) == [1] + LowBytes(0, n - 1);
  }

  lemma ReverseIsPlaced(s: seq<Byte>)
    requires |s| == 8
    ensures Reverse(s) == Placed(HighFirst, s)
  {
    forall i | 0 <= i < 8 ensures Reverse(s)[i] == Placed(HighFirst, s)[i] {
      ReverseAt(s, i);
    }
  }

  /** The value of n zero bytes and then a one. */
  lemma {:induction false} NumberOfTail(bytes: seq<Byte>, n: nat)
    requires |bytes| == n + 1 && bytes[n] == 1 && forall i :: 0 <= i < n ==> bytes[i] == 0
    ensures Number(bytes) == Power(n)
  {
    if n > 0 {
      NumberOfTail(bytes[1..], n - 1);
    } else {
      assert bytes[1..] == [];
    }
  }
}
