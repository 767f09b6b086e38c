/** The schedule of retransmission requests (src/receiver/rexmit_manager.hpp). Time is a parameter of
    each call. */
module Rexmit {
  // ---------- The schedule as a map from ids to the time of their next request ----------

  type Schedule = map<nat, int>

  /** New ids are scheduled; ids already there keep their time. */
  function Append(m: Schedule, ids: set<nat>, next: int): Schedule {
    map id | id in m.Keys + ids :: if id in m then m[id] else next
  }

  function Forget(m: Schedule, ids: set<nat>): Schedule {
    map id | id in m && id !in ids :: m[id]
  }

  function Due(m: Schedule, now: int): set<nat> {
    set id | id in m && m[id] <= now
  }

  function Postpone(m: Schedule, now: int, next: int): Schedule {
    map id | id in m :: if m[id] <= now then next else m[id]
  }

  function Filter(m: Schedule, forget: set<nat>, now: int, rtime: nat): (Schedule, set<nat>) {
    (Postpone(Forget(m, forget), now, now + rtime), Due(Forget(m, forget), now))
  }

  // ---------- The schedule as the source keeps it: a set ordered by id ----------

  datatype RexmitId = RexmitId(id: nat, scheduledUpdate: int)

  predicate Sorted(s: seq<RexmitId>) {
    |s| < 2 || (Sorted(s[..|s| - 1]) && s[|s| - 2].id < s[|s| - 1].id)
  }

  function AsMap(s: seq<RexmitId>): Schedule {
    if s == [] then map[] else AsMap(s[..|s| - 1])[s[|s| - 1].id := s[|s| - 1].scheduledUpdate]
  }

  /** std::set::emplace: an element that compares equal is left alone. */
  function Emplace(s: seq<RexmitId>, e: RexmitId): seq<RexmitId> {
    if s == [] || s[|s| - 1].id < e.id then s + [e]
    else if s[|s| - 1].id == e.id then s
    else Emplace(s[..|s| - 1], e) + [s[|s| - 1]]
  }

  /** std::set::erase by value. */
  function Erase(s: seq<RexmitId>, id: nat): seq<RexmitId> {
    if s == [] then []
    else if s[|s| - 1].id == id then s[..|s| - 1]
    else Erase(s[..|s| - 1], id) + [s[|s| - 1]]
  }

  class RexmitManager {
    const rtime: nat
    var rexmitIds: seq<RexmitId>

    ghost function View(): Schedule
      reads this
    {
      AsMap(rexmitIds)
    }

    constructor (rtime: nat)
      ensures this.rtime == rtime && Sorted(rexmitIds) && View() == map[]
    {
      this.rtime := rtime;
      rexmitIds := [];
    }

    method AppendIds(newIds: set<nat>, now: int)
      requires Sorted(rexmitIds)
      modifies this
      ensures Sorted(rexmitIds)
      ensures View() == Append(old(View()), newIds, now + rtime)
    {
      var nextUpdate := now + rtime;
      var rest := newIds;
      while rest != {}
        invariant rest <= newIds && Sorted(rexmitIds)
        invariant View() == Append(old(View()), newIds - rest, nextUpdate)
        decreases rest
      {
        var id :| id in rest;
        EmplaceMeans(rexmitIds, RexmitId(id, nextUpdate));
        EmplaceSorted(rexmitIds, RexmitId(id, nextUpdate), Bound(rexmitIds, id));
        AppendMore(old(View()), newIds - rest, id, nextUpdate);
        assert newIds - (rest - {id}) == newIds - rest + {id};
        rexmitIds := Emplace(rexmitIds, RexmitId(id, nextUpdate));
        rest := rest - {id};
      }
    }

    /** Erases the ids to forget; then visits every entry once, in place, returning and rescheduling
        those that are due. */
    method FilterGetIds(idsToForget: set<nat>, now: int) returns (idsToUpdate: set<nat>)
      requires Sorted(rexmitIds)
      modifies this
      ensures Sorted(rexmitIds)
      ensures (View(), idsToUpdate) == Filter(old(View()), idsToForget, now, rtime)
    {
      ForgetIds(idsToForget);
      idsToUpdate := ScanDue(now);
    }

    method ForgetIds(idsToForget: set<nat>)
      requires Sorted(rexmitIds)
      modifies this
      ensures Sorted(rexmitIds) && View() == Forget(old(View()), idsToForget)
    {
      var rest := idsToForget;
      ghost var done: set<nat> := {};
      assert Forget(View(), {}) == View();
      while rest != {}
        invariant done + rest == idsToForget && Sorted(rexmitIds)
        invariant View() == Forget(old(View()), done)
        decreases rest
      {
        var id :| id in rest;
        ForgetOne(old(View()), rexmitIds, done, id);
        rexmitIds := Erase(rexmitIds, id);
        rest := rest - {id};
        done := done + {id};
      }
      assert done == idsToForget;
    }

    /** Erases an entry and emplaces it again where it was. */
    method Reschedule(it: nat, nextUpdate: int)
      requires Sorted(rexmitIds) && it < |rexmitIds|
      modifies this
      ensures Sorted(rexmitIds)
      ensures rexmitIds
           == old(rexmitIds)[..it] + [RexmitId(old(rexmitIds)[it].id, nextUpdate)] + old(rexmitIds)[it + 1..]
    {
      var entry := rexmitIds[it];
      EmplaceHint(rexmitIds, it, nextUpdate);
      SameIds(rexmitIds, rexmitIds[..it] + [RexmitId(entry.id, nextUpdate)] + rexmitIds[it + 1..]);
      rexmitIds := rexmitIds[..it] + rexmitIds[it + 1..];
      rexmitIds := Emplace(rexmitIds, RexmitId(entry.id, nextUpdate));
    }

    method ScanDue(now: int) returns (idsToUpdate: set<nat>)
      requires Sorted(rexmitIds)
      modifies this
      ensures Sorted(rexmitIds)
      ensures View() == Postpone(old(View()), now, now + rtime)
      ensures idsToUpdate == Due(old(View()), now)
    {
      ScanMeans(rexmitIds, now, now + rtime);
      idsToUpdate := {};
      var nextUpdate := now + rtime;
      var it := 0;
      while it < |rexmitIds|
        invariant it <= |rexmitIds| && Sorted(rexmitIds)
        invariant Scan(rexmitIds, it, idsToUpdate, now, nextUpdate) == Scan(old(rexmitIds), 0, {}, now, nextUpdate)
        decreases |rexmitIds| - it
      {
        var entry := rexmitIds[it];
        if entry.scheduledUpdate <= now {
          Reschedule(it, nextUpdate);
          idsToUpdate := idsToUpdate + {entry.id};
        }
        it := it + 1;
      }
    }

    method Reset()
      modifies this
      ensures Sorted(rexmitIds) && View() == map[]
    {
      rexmitIds := [];
    }
  }

  // ---------- The ordered set refines the map ----------

  function Visited(e: RexmitId, now: int, next: int): RexmitId {
    if e.scheduledUpdate <= now then RexmitId(e.id, next) else e
  }

  /** The scan from a position on, and the ids it collects. */
  function Scan(s: seq<RexmitId>, it: nat, ids: set<nat>, now: int, next: int): (seq<RexmitId>, set<nat>)
    decreases |s| - it
  {
    if it >= |s| then (s, ids)
    else if s[it].scheduledUpdate <= now then
      Scan(s[..it] + [RexmitId(s[it].id, next)] + s[it + 1..], it + 1, ids + {s[it].id}, now, next)
    else Scan(s, it + 1, ids, now, next)
  }

  /** The entries after the scan. */
  function Scanned(s: seq<RexmitId>, now: int, next: int): (r: seq<RexmitId>)
    ensures |r| == |s|
    ensures forall k :: 0 <= k < |s| ==> r[k] == Visited(s[k], now, next)
  {
    if s == [] then [] else Scanned(s[..|s| - 1], now, next) + [Visited(s[|s| - 1], now, next)]
  }

  function DueFrom(s: seq<RexmitId>, it: nat, now: int): set<nat> {
    set k | it <= k < |s| && s[k].scheduledUpdate <= now :: s[k].id
  }

  /** The scan visits every entry from its position on once, and no other. */
  lemma {:induction false} ScanVisits(s: seq<RexmitId>, it: nat, ids: set<nat>, now: int, next: int)
    requires it <= |s|
    ensures var (r, due) := Scan(s, it, ids, now, next);
            && |r| == |s|
            && (forall k :: 0 <= k < |s| ==> r[k] == if k < it then s[k] else Visited(s[k], now, next))
            && due == ids + DueFrom(s, it, now)
    decreases |s| - it
  {
    if it < |s| {
      if s[it].scheduledUpdate <= now {
        var s' := s[..it] + [RexmitId(s[it].id, next)] + s[it + 1..];
        ScanVisits(s', it + 1, ids + {s[it].id}, now, next);
        DueFromStep(s, s', it, now);
      } else {
        ScanVisits(s, it + 1, ids, now, next);
        DueFromStep(s, s, it, now);
      }
    }
  }

  lemma DueFromStep(s: seq<RexmitId>, s': seq<RexmitId>, it: nat, now: int)
    requires it < |s| == |s'| && s[it + 1..] == s'[it + 1..]
    ensures DueFrom(s, it, now) == DueFrom(s', it + 1, now) + if s[it].scheduledUpdate <= now then {s[it].id} else {}
  {
    assert forall k :: it + 1 <= k < |s| ==> s'[k] == s'[it + 1..][k - it - 1] == s[it + 1..][k - it - 1] == s[k];
  }

  predicate AllBelow(m: Schedule, bound: nat) {
    forall id :: id in m ==> id < bound
  }

  lemma {:induction false} SortedBelow(s: seq<RexmitId>)
    requires Sorted(s) && s != []
    ensures AllBelow(AsMap(s[..|s| - 1]), s[|s| - 1].id)
  {
    if |s| > 1 { SortedBelow(s[..|s| - 1]); }
  }

  predicate Below(s: seq<RexmitId>, bound: nat) {
    s != [] ==> s[|s| - 1].id < bound
  }

  /** Some bound on the ids of a set and one more. */
  function Bound(s: seq<RexmitId>, id: nat): (b: nat)
    ensures Below(s, b) && id < b
  {
    if s == [] then id + 1 else s[|s| - 1].id + id + 1
  }

  lemma {:induction false} EmplaceSorted(s: seq<RexmitId>, e: RexmitId, bound: nat)
    requires Sorted(s) && Below(s, bound) && e.id < bound
    ensures Sorted(Emplace(s, e)) && Below(Emplace(s, e), bound)
  {
    if s != [] && s[|s| - 1].id > e.id {
      EmplaceSorted(s[..|s| - 1], e, s[|s| - 1].id);
    }
  }

  lemma {:induction false} EmplaceMeans(s: seq<RexmitId>, e: RexmitId)
    requires Sorted(s)
    ensures AsMap(Emplace(s, e)) == if e.id in AsMap(s) then AsMap(s) else AsMap(s)[e.id := e.scheduledUpdate]
  {
    if s == [] {
    } else {
      var rest, last := s[..|s| - 1], s[|s| - 1];
      SortedBelow(s);
      if last.id < e.id {
      } else if last.id > e.id {
        EmplaceMeans(rest, e);
        UpdatesCommute(AsMap(rest), e.id, e.scheduledUpdate, last.id, last.scheduledUpdate);
      }
    }
  }

  lemma UpdatesCommute(m: Schedule, id1: nat, time1: int, id2: nat, time2: int)
    requires id1 != id2
    ensures m[id1 := time1][id2 := time2] == m[id2 := time2][id1 := time1]
  {
  }

  lemma {:induction false} EraseSorted(s: seq<RexmitId>, id: nat, bound: nat)
    requires Sorted(s) && Below(s, bound)
    ensures Sorted(Erase(s, id)) && Below(Erase(s, id), bound)
  {
    if s != [] {
      EraseSorted(s[..|s| - 1], id, s[|s| - 1].id);
    }
  }

  lemma {:induction false} EraseMeans(s: seq<RexmitId>, id: nat)
    requires Sorted(s)
    ensures AsMap(Erase(s, id)) == Forget(AsMap(s), {id})
  {
    if s != [] {
      var rest, last := s[..|s| - 1], s[|s| - 1];
      ForgetUpdate(AsMap(rest), last.id, last.scheduledUpdate, id);
      if last.id == id {
        SortedBelow(s);
      } else {
        EraseMeans(rest, id);
      }
    }
  }

  lemma ForgetUpdate(m: Schedule, id: nat, time: int, forgotten: nat)
    ensures id == forgotten && id !in m ==> Forget(m[id := time], {forgotten}) == m
    ensures id != forgotten ==> Forget(m[id := time], {forgotten}) == Forget(m, {forgotten})[id := time]
  {
  }

  lemma EraseKeepsSorted(s: seq<RexmitId>, id: nat)
    requires Sorted(s)
    ensures Sorted(Erase(s, id))
  {
    EraseSorted(s, id, Bound(s, id));
  }

  /** One turn of the loop over the ids to forget. */
  lemma ForgetOne(m: Schedule, s: seq<RexmitId>, done: set<nat>, id: nat)
    requires Sorted(s) && AsMap(s) == Forget(m, done)
    ensures Sorted(Erase(s, id)) && AsMap(Erase(s, id)) == Forget(m, done + {id})
  {
    EraseKeepsSorted(s, id);
    EraseMeans(s, id);
  }

  lemma AppendMore(m: Schedule, ids: set<nat>, id: nat, next: int)
    ensures Append(m, ids + {id}, next)
         == if id in Append(m, ids, next) then Append(m, ids, next) else Append(m, ids, next)[id := next]
  {
  }

  lemma {:induction false} SameIds(s: seq<RexmitId>, t: seq<RexmitId>)
    requires Sorted(s) && |s| == |t| && forall k :: 0 <= k < |s| ==> s[k].id == t[k].id
    ensures Sorted(t)
  {
    if |s| > 1 { SameIds(s[..|s| - 1], t[..|t| - 1]); }
  }

  /** An entry erased and emplaced again at the hint, under its own id, is the entry overwritten. */
  lemma {:induction false} EmplaceHint(s: seq<RexmitId>, i: nat, next: int)
    requires Sorted(s) && i < |s|
    ensures Emplace(s[..i] + s[i + 1..], RexmitId(s[i].id, next)) == s[..i] + [RexmitId(s[i].id, next)] + s[i + 1..]
  {
    var e, without := RexmitId(s[i].id, next), s[..i] + s[i + 1..];
    if i == |s| - 1 {
      assert without == s[..i] && s[i + 1..] == [];
    } else {
      var rest, last := s[..|s| - 1], s[|s| - 1];
      SortedAt(s, i);
      EmplaceHint(rest, i, next);
      assert without[..|without| - 1] == rest[..i] + rest[i + 1..];
      assert s[i + 1..] == rest[i + 1..] + [last];
    }
  }

  lemma {:induction false} SortedAt(s: seq<RexmitId>, i: nat)
    requires Sorted(s) && i < |s| - 1
    ensures s[i].id < s[|s| - 1].id
  {
    if i < |s| - 2 { SortedAt(s[..|s| - 1], i); }
  }

  /** The scan is the map update, and returns the ids that were due. */
  lemma ScanMeans(s: seq<RexmitId>, now: int, next: int)
    requires Sorted(s)
    ensures var (r, due) := Scan(s, 0, {}, now, next);
            AsMap(r) == Postpone(AsMap(s), now, next) && due == Due(AsMap(s), now)
  {
    ScanVisits(s, 0, {}, now, next);
    assert Scan(s, 0, {}, now, next).0 == Scanned(s, now, next);
    ScannedMeans(s, now, next);
  }

  lemma {:induction false} ScannedMeans(s: seq<RexmitId>, now: int, next: int)
    requires Sorted(s)
    ensures AsMap(Scanned(s, now, next)) == Postpone(AsMap(s), now, next)
    ensures DueFrom(s, 0, now) == Due(AsMap(s), now)
  {
    if s != [] {
      var rest, e := s[..|s| - 1], s[|s| - 1];
      ScannedMeans(rest, now, next);
      SortedBelow(s);
      PostponeUpdate(AsMap(rest), e.id, e.scheduledUpdate, now, next);
      DueUpdate(AsMap(rest), e.id, e.scheduledUpdate, now);
    }
  }

  lemma PostponeUpdate(m: Schedule, id: nat, time: int, now: int, next: int)
    ensures Postpone(m[id := time], now, next) == Postpone(m, now, next)[id := if time <= now then next else time]
  {
  }

  lemma DueUpdate(m: Schedule, id: nat, time: int, now: int)
    requires id !in m
    ensures Due(m[id := time], now) == Due(m, now) + if time <= now then {id} else {}
  {
  }
}
