/** A station as the receiver knows it (src/receiver/structures.hpp), ordered by name. */
module Stations {
  import opened Types

  datatype Station = Station(
    name: string, ctrlAddress: string, ctrlPort: nat, dataAddress: string, dataPort: nat, lastReply: int)

  /** Equality of stations leaves out the time of the last reply. */
  predicate Same(a: Station, b: Station) {
    && a.name == b.name && a.ctrlAddress == b.ctrlAddress && a.dataAddress == b.dataAddress
    && a.ctrlPort == b.ctrlPort && a.dataPort == b.dataPort
  }

  /** Two stations are the same exactly if they differ in nothing but the time of the last reply. */
  lemma SameButForReply(a: Station, b: Station)
    ensures Same(a, b) <==> b == a.(lastReply := b.lastReply)
  {
  }

  /** The lexicographic order of strings. */
  predicate Less(a: string, b: string) {
    b != [] && (a == [] || a[0] < b[0] || (a[0] == b[0] && Less(a[1..], b[1..])))
  }

  /** The strings agree before position k, where the first ends or has the smaller character. */
  predicate FirstDifference(a: string, b: string, k: nat) {
    k <= |a| && k < |b| && a[..k] == b[..k] && (k == |a| || a[k] < b[k])
  }

  lemma {:induction false} LessDiffers(a: string, b: string) returns (k: nat)
    requires Less(a, b)
    ensures FirstDifference(a, b, k)
  {
    if a == [] || a[0] < b[0] {
      k := 0;
    } else {
      k := LessDiffers(a[1..], b[1..]);
      k := k + 1;
      assert a[..k] == [a[0]] + a[1..][..k - 1] && b[..k] == [b[0]] + b[1..][..k - 1];
    }
  }

  lemma {:induction false} DiffersIsLess(a: string, b: string, k: nat)
    requires FirstDifference(a, b, k)
    ensures Less(a, b)
  {
    if k > 0 {
      assert a[0] == a[..k][0] == b[..k][0] == b[0];
      assert a[1..][..k - 1] == a[..k][1..] && b[1..][..k - 1] == b[..k][1..];
      DiffersIsLess(a[1..], b[1..], k - 1);
    }
  }

  /** A name is before another exactly if it is a proper prefix of it, or has the smaller character where they
      first differ. */
  lemma LessIsLexicographic(a: string, b: string)
    ensures Less(a, b) <==> exists k: nat :: FirstDifference(a, b, k)
  {
    if Less(a, b) {
      var k := LessDiffers(a, b);
    }
    if k: nat :| FirstDifference(a, b, k) {
      DiffersIsLess(a, b, k);
    }
  }

  lemma {:induction false} LessIsStrict(a: string)
    ensures !Less(a, a)
  {
    if a != [] { LessIsStrict(a[1..]); }
  }

  lemma {:induction false} LessIsTotal(a: string, b: string)
    ensures Less(a, b) || a == b || Less(b, a)
  {
    if a != [] && b != [] && a[0] == b[0] {
      LessIsTotal(a[1..], b[1..]);
      assert a == [a[0]] + a[1..] && b == [b[0]] + b[1..];
    }
  }

  lemma {:induction false} LessIsTransitive(a: string, b: string, c: string)
    requires Less(a, b) && Less(b, c)
    ensures Less(a, c)
  {
    if a != [] && a[0] == b[0] == c[0] {
      LessIsTransitive(a[1..], b[1..], c[1..]);
    }
  }
}
