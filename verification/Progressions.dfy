/** Arithmetic progressions of packet ids, and bounded suffixes of sequences. */
module Progressions {
  /** `from + k * step`, by repeated addition (NthIsProduct): proofs about windows then need no
      multiplication. */
  function Nth(from: nat, step: nat, k: nat): nat {
    if k == 0 then from else Nth(from, step, k - 1) + step
  }

  /** The ids `from`, `from + step`, ..., `n` of them. */
  function Progression(from: nat, step: nat, n: nat): (r: seq<nat>)
    ensures |r| == n
  {
    if n == 0 then [] else Progression(from, step, n - 1) + [Nth(from, step, n - 1)]
  }

  /** A multiple of the step, by repeated subtraction (AlignedIsMultiple). */
  predicate Aligned(id: nat, step: nat)
    requires step > 0
  {
    if id < step then id == 0 else Aligned(id - step, step)
  }

  /** The number of whole steps that fit in a distance (StepsIsQuotient). */
  function Steps(distance: nat, step: nat): nat
    requires step > 0
  {
    if distance < step then 0 else 1 + Steps(distance - step, step)
  }

  /** Consecutive multiples of the step. */
  ghost predicate Grid(ids: seq<nat>, step: nat) {
    step > 0 && (ids != [] ==> Aligned(ids[0], step) && ids == Progression(ids[0], step, |ids|))
  }

  /** The longest suffix that fits `cap` slots. Capacity 0 is the source's unbounded case: it
      compares a nonempty size with `cap`, which never matches. */
  function Keep<T>(cap: nat, s: seq<T>): seq<T>
    decreases |s|
  {
    if 0 < cap < |s| then Keep(cap, s[1..]) else s
  }

  lemma {:induction false} KeepIsSuffix<T>(cap: nat, s: seq<T>)
    ensures Keep(cap, s) == if 0 < cap < |s| then s[|s| - cap..] else s
    decreases |s|
  {
    if 0 < cap < |s| { KeepIsSuffix(cap, s[1..]); }
  }

  lemma {:induction false} KeepTwice<T>(cap: nat, s: seq<T>, t: seq<T>)
    ensures Keep(cap, Keep(cap, s) + t) == Keep(cap, s + t)
    decreases |s|
  {
    if 0 < cap < |s| {
      KeepTwice(cap, s[1..], t);
      assert (s + t)[1..] == s[1..] + t;
    }
  }

  ghost predicate EndsWith<T>(s: seq<T>, tail: seq<T>) {
    |tail| <= |s| && s[|s| - |tail|..] == tail
  }

  lemma EndsWithOneMore<T>(s: seq<T>, tail: seq<T>, x: T)
    requires EndsWith(s, tail)
    ensures EndsWith(s + [x], tail + [x])
  {
  }

  lemma Assoc<T>(a: seq<T>, b: seq<T>, c: seq<T>)
    ensures a + b + c == a + (b + c)
  {
  }

  lemma {:induction false} NthIsProduct(from: nat, step: nat, k: nat)
    ensures Nth(from, step, k) == from + k * step
  {
    if k > 0 {
      NthIsProduct(from, step, k - 1);
      assert k * step == (k - 1) * step + step;
    }
  }

  lemma {:induction false} NthAdds(from: nat, step: nat, j: nat, k: nat)
    ensures Nth(Nth(from, step, j), step, k) == Nth(from, step, j + k)
  {
    if k > 0 { NthAdds(from, step, j, k - 1); }
  }

  lemma {:induction false} NthIncreasing(from: nat, step: nat, j: nat, k: nat)
    requires step > 0
    ensures Nth(from, step, j) < Nth(from, step, k) <==> j < k
    decreases j + k
  {
    NthAtLeast(from, step, j);
    NthAtLeast(from, step, k);
    if j > 0 && k > 0 { NthIncreasing(from, step, j - 1, k - 1); }
  }

  lemma {:induction false} NthAtLeast(from: nat, step: nat, k: nat)
    requires step > 0
    ensures from + k <= Nth(from, step, k)
  {
    if k > 0 { NthAtLeast(from, step, k - 1); }
  }

  lemma {:induction false} NthAligned(from: nat, step: nat, k: nat)
    requires step > 0 && Aligned(from, step)
    ensures Aligned(Nth(from, step, k), step)
  {
    if k > 0 { NthAligned(from, step, k - 1); }
  }

  /** Aligned ids are a whole number of steps apart. */
  lemma {:induction false} AlignedDistance(lo: nat, hi: nat, step: nat)
    requires step > 0 && lo <= hi && Aligned(lo, step) && Aligned(hi, step)
    ensures hi == Nth(lo, step, Steps(hi - lo, step))
    ensures lo < hi <==> 0 < Steps(hi - lo, step)
    ensures lo < hi <==> lo + step <= hi
    decreases hi
  {
    if lo < hi {
      AlignedBelow(lo, hi, step);
      AlignedDistance(lo, hi - step, step);
    }
  }

  /** Skipping every multiple strictly between leads from one aligned id to the next. */
  lemma {:induction false} SkippedSteps(lo: nat, hi: nat, step: nat)
    requires step > 0 && lo < hi && Aligned(lo, step) && Aligned(hi, step)
    ensures hi == Nth(lo + step, step, Steps(hi - lo - 1, step))
    decreases hi
  {
    AlignedBelow(lo, hi, step);
    if lo + step < hi { SkippedSteps(lo, hi - step, step); }
  }

  lemma {:induction false} StepsOfNext(lo: nat, hi: nat, step: nat)
    requires step > 0 && lo < hi && Aligned(lo, step) && Aligned(hi, step)
    ensures (hi - lo) / step == Steps(hi - lo - 1, step) + 1
    decreases hi
  {
    AlignedBelow(lo, hi, step);
    StepsIsQuotient(hi - lo, step);
    if lo + step < hi {
      StepsOfNext(lo, hi - step, step);
      StepsIsQuotient(hi - step - lo, step);
    }
  }

  lemma {:induction false} AlignedBelow(lo: nat, hi: nat, step: nat)
    requires step > 0 && lo < hi && Aligned(lo, step) && Aligned(hi, step)
    ensures lo + step <= hi
  {
    if lo >= step { AlignedBelow(lo - step, hi - step, step); }
  }

  // ---------- What the repeated forms are in the source's arithmetic ----------

  lemma {:induction false} MulGap(a: int, b: int, step: nat)
    requires a < b
    ensures a * step + step <= b * step
    decreases b - a
  {
    if a + 1 < b { MulGap(a + 1, b, step); }
    assert (a + 1) * step == a * step + step;
  }

  lemma DivUnique(x: int, q: int, r: int, step: nat)
    requires step > 0 && 0 <= r < step && x == q * step + r
    ensures x / step == q && x % step == r
  {
    var q' := x / step;
    if q' < q { MulGap(q', q, step); }
    if q < q' { MulGap(q, q', step); }
  }

  lemma {:induction false} StepsIsQuotient(distance: nat, step: nat)
    requires step > 0
    ensures Steps(distance, step) == distance / step
    ensures Aligned(distance, step) <==> distance % step == 0
  {
    if distance < step {
      DivUnique(distance, 0, distance, step);
    } else {
      var rest := distance - step;
      StepsIsQuotient(rest, step);
      assert (rest / step + 1) * step == rest / step * step + step;
      DivUnique(distance, rest / step + 1, rest % step, step);
    }
  }

  // ---------- Grids ----------

  lemma {:induction false} ProgressionAt(first: nat, step: nat, n: nat, k: nat)
    requires k < n
    ensures Progression(first, step, n)[k] == Nth(first, step, k)
  {
    if k < n - 1 { ProgressionAt(first, step, n - 1, k); }
  }

  lemma GridAt(ids: seq<nat>, step: nat, k: nat)
    requires Grid(ids, step) && k < |ids|
    ensures ids[k] == Nth(ids[0], step, k) && Aligned(ids[k], step)
  {
    ProgressionAt(ids[0], step, |ids|, k);
    NthAligned(ids[0], step, k);
  }

  lemma BackAligned(ids: seq<nat>, step: nat)
    requires Grid(ids, step) && ids != []
    ensures Aligned(ids[|ids| - 1], step)
  {
    GridAt(ids, step, |ids| - 1);
  }

  lemma GridOrder(ids: seq<nat>, step: nat, j: nat, k: nat)
    requires Grid(ids, step) && j < |ids| && k < |ids|
    ensures ids[j] < ids[k] <==> j < k
  {
    GridAt(ids, step, j);
    GridAt(ids, step, k);
    NthIncreasing(ids[0], step, j, k);
  }

  lemma GridIncreasing(ids: seq<nat>, step: nat)
    requires Grid(ids, step)
    ensures forall j, k :: 0 <= j < |ids| && 0 <= k < |ids| ==> (ids[j] < ids[k] <==> j < k)
  {
    forall j, k | 0 <= j < |ids| && 0 <= k < |ids| ensures ids[j] < ids[k] <==> j < k {
      GridOrder(ids, step, j, k);
    }
  }

  lemma GridTail(ids: seq<nat>, step: nat)
    requires Grid(ids, step) && ids != []
    ensures Grid(ids[1..], step)
  {
    ProgressionHead(ids[0], step, |ids|);
    if |ids| > 1 {
      GridAt(ids, step, 1);
      assert ids[1..] == Progression(ids[0] + step, step, |ids| - 1);
    }
  }

  lemma GridPrefix(ids: seq<nat>, more: seq<nat>, step: nat)
    requires Grid(ids + more, step)
    ensures Grid(ids, step)
  {
    var all := ids + more;
    if ids != [] {
      forall k | 0 <= k < |ids| ensures ids[k] == Progression(ids[0], step, |ids|)[k] {
        GridAt(all, step, k);
        ProgressionAt(ids[0], step, |ids|, k);
      }
    }
  }

  lemma GridExtend(ids: seq<nat>, step: nat)
    requires Grid(ids, step) && ids != []
    ensures Grid(ids + [ids[|ids| - 1] + step], step)
  {
    GridAt(ids, step, |ids| - 1);
  }

  lemma GridOneMore(ids: seq<nat>, step: nat, id: nat)
    requires step > 0 && Aligned(id, step)
    ensures Grid(ids + [id], step) <==> Grid(ids, step) && (ids != [] ==> id == ids[|ids| - 1] + step)
  {
    var n := |ids|;
    if n == 0 {
      assert ids + [id] == [id] == Progression(id, step, 1);
    } else if Grid(ids + [id], step) {
      GridPrefix(ids, [id], step);
      GridAt(ids + [id], step, n - 1);
      GridAt(ids + [id], step, n);
    } else if Grid(ids, step) && id == ids[n - 1] + step {
      GridExtend(ids, step);
    }
  }

  /** A grid moved one step on. */
  lemma GridSlide(ids: seq<nat>, step: nat)
    requires Grid(ids, step) && ids != []
    ensures Grid(ids[1..] + [ids[|ids| - 1] + step], step)
  {
    var all := ids + [ids[|ids| - 1] + step];
    GridExtend(ids, step);
    GridTail(all, step);
    assert all[1..] == ids[1..] + [ids[|ids| - 1] + step];
  }

  /** The unique position of an aligned id between the ends of a grid. */
  lemma PositionOf(ids: seq<nat>, step: nat, id: nat)
    requires Grid(ids, step) && ids != [] && Aligned(id, step) && ids[0] <= id <= ids[|ids| - 1]
    ensures Steps(id - ids[0], step) < |ids| && ids[Steps(id - ids[0], step)] == id
    ensures forall k :: 0 <= k < |ids| && ids[k] == id ==> k == Steps(id - ids[0], step)
  {
    var p := Steps(id - ids[0], step);
    GridAt(ids, step, 0);
    GridAt(ids, step, |ids| - 1);
    AlignedDistance(ids[0], id, step);
    NthIncreasing(ids[0], step, |ids| - 1, p);
    GridAt(ids, step, p);
    forall k | 0 <= k < |ids| && ids[k] == id ensures k == p {
      GridOrder(ids, step, k, p);
      GridOrder(ids, step, p, k);
    }
  }

  /** No element lies strictly inside a step of an aligned number. */
  lemma NothingBetween(ids: seq<nat>, step: nat, at: nat)
    requires Grid(ids, step) && Aligned(at, step)
    ensures forall k :: 0 <= k < |ids| ==> !(at < ids[k] < at + step)
  {
    forall k | 0 <= k < |ids| ensures !(at < ids[k] < at + step) {
      GridAt(ids, step, k);
      if at < ids[k] { AlignedBelow(at, ids[k], step); }
    }
  }

  function Repeat<T>(x: T, n: nat): seq<T> {
    seq(n, _ => x)
  }

  lemma RepeatHead<T>(x: T, n: nat)
    requires n > 0
    ensures Repeat(x, n) == [x] + Repeat(x, n - 1)
  {
  }

  /** A progression from its first id on. */
  lemma {:induction false} ProgressionHead(first: nat, step: nat, n: nat)
    requires n > 0
    ensures Progression(first, step, n) == [first] + Progression(first + step, step, n - 1)
  {
    if n > 1 {
      ProgressionHead(first, step, n - 1);
      NthAdds(first, step, 1, n - 2);
    }
  }

  lemma KeepProgression(cap: nat, ids: seq<nat>, first: nat, step: nat, n: nat)
    requires n > 0
    ensures Keep<nat>(cap, Keep<nat>(cap, ids + [first]) + Progression(first + step, step, n - 1))
         == Keep<nat>(cap, ids + Progression(first, step, n))
  {
    var rest: seq<nat> := Progression(first + step, step, n - 1);
    KeepTwice<nat>(cap, ids + [first], rest);
    Assoc<nat>(ids, [first], rest);
    ProgressionHead(first, step, n);
  }

  lemma KeepLast(cap: nat, ids: seq<nat>, first: nat, step: nat, n: nat)
    ensures Keep<nat>(cap, Keep<nat>(cap, ids + Progression(first, step, n)) + [Nth(first, step, n)])
         == Keep<nat>(cap, ids + Progression(first, step, n + 1))
  {
    KeepTwice<nat>(cap, ids + Progression(first, step, n), [Nth(first, step, n)]);
    Assoc<nat>(ids, Progression(first, step, n), [Nth(first, step, n)]);
  }

  lemma KeepRepeat<T>(cap: nat, s: seq<T>, x: T, n: nat)
    requires n > 0
    ensures Keep(cap, Keep(cap, s + [x]) + Repeat(x, n - 1)) == Keep(cap, s + Repeat(x, n))
  {
    KeepTwice(cap, s + [x], Repeat(x, n - 1));
    Assoc(s, [x], Repeat(x, n - 1));
    RepeatHead(x, n);
  }

  // ---------- Increasing sequences ----------

  ghost predicate Increasing(s: seq<nat>) {
    forall i, j :: 0 <= i < j < |s| ==> s[i] < s[j]
  }

  lemma IncreasingAppend(s: seq<nat>, x: nat)
    ensures Increasing(s + [x]) <==> Increasing(s) && forall id :: id in s ==> id < x
  {
    var all := s + [x];
    if Increasing(all) {
      forall i, j | 0 <= i < j < |s| ensures s[i] < s[j] { assert all[i] < all[j]; }
      forall id | id in s ensures id < x {
        var k :| 0 <= k < |s| && s[k] == id;
        assert all[k] < all[|s|];
      }
    } else {
      var i, j :| 0 <= i < j < |all| && all[i] >= all[j];
      assert s[i] in s;
    }
  }

  lemma IncreasingLast(s: seq<nat>, x: nat)
    ensures Increasing(s + [x]) <==> Increasing(s) && (s != [] ==> s[|s| - 1] < x)
  {
    IncreasingAppend(s, x);
    if s != [] { assert s[|s| - 1] in s; }
  }

  lemma IncreasingCons(m: nat, rest: seq<nat>)
    requires Increasing(rest) && forall x :: x in rest ==> m < x
    ensures Increasing([m] + rest) && forall x :: x in [m] + rest <==> x == m || x in rest
  {
    var all := [m] + rest;
    forall i, j | 0 <= i < j < |all| ensures all[i] < all[j] {
      assert all[j] == rest[j - 1] && rest[j - 1] in rest;
      if i > 0 { assert all[i] == rest[i - 1]; }
    }
  }
}
