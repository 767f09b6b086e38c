/** The stations that have replied of late, and the one selected (src/receiver/station_set.hpp).

    The selection is the name of a station, or none: the source keeps an iterator, and leaves it on an
    erased node when the selected station is refreshed or is the last to expire. What it is after is
    modelled: a refreshed station stays selected, and an empty set has no selection. */
module StationSets {
  import opened Types
  import opened Stations

  /** Seconds without a reply after which a station is removed. */
  const MAX_INACTIVE: int := 20

  datatype Direction = Up | Down

  predicate Expired(s: Station, now: int) {
    now - s.lastReply > MAX_INACTIVE
  }

  // ---------- Stations in the order of their names ----------

  /** Every name less than all that follow. */
  ghost predicate Ordered(stations: seq<Station>) {
    forall i, j :: 0 <= i < j < |stations| ==> Less(stations[i].name, stations[j].name)
  }

  function Find(stations: seq<Station>, name: string): Option<Station> {
    if stations == [] then None
    else if stations[0].name == name then Some(stations[0])
    else Find(stations[1..], name)
  }

  predicate Has(stations: seq<Station>, name: string) {
    Find(stations, name).Some?
  }

  /** The position of a name. */
  function Position(stations: seq<Station>, name: string): (k: nat)
    requires Has(stations, name)
    ensures k < |stations| && stations[k].name == name && Find(stations, name) == Some(stations[k])
  {
    if stations[0].name == name then 0 else 1 + Position(stations[1..], name)
  }

  function NameAt(stations: seq<Station>, k: nat): Option<string> {
    if k < |stations| then Some(stations[k].name) else None
  }

  /** In an ordered set a name has one position. */
  lemma OnePosition(stations: seq<Station>, k: nat)
    requires Ordered(stations) && k < |stations|
    ensures Has(stations, stations[k].name) && Position(stations, stations[k].name) == k
  {
    HasAt(stations, k);
    LessIsStrict(stations[k].name);
  }

  lemma {:induction false} HasAt(stations: seq<Station>, k: nat)
    requires k < |stations|
    ensures Has(stations, stations[k].name)
  {
    if k > 0 { HasAt(stations[1..], k - 1); }
  }

  // ---------- Removing the stations that have expired ----------

  function Active(stations: seq<Station>, now: int): seq<Station> {
    if stations == [] then []
    else if Expired(stations[0], now) then Active(stations[1..], now)
    else [stations[0]] + Active(stations[1..], now)
  }

  /** The stations from a position on, and round to the one before it. */
  function Cycle(stations: seq<Station>, k: nat): seq<Station>
    requires k <= |stations|
  {
    stations[k..] + stations[..k]
  }

  function RemoveAt(stations: seq<Station>, i: nat): (r: seq<Station>)
    requires i < |stations|
    ensures |r| == |stations| - 1
    ensures forall k :: 0 <= k < |r| ==> r[k] == if k < i then stations[k] else stations[k + 1]
  {
    stations[..i] + stations[i + 1..]
  }

  /** Where the selection goes when the selected station, at position i, is removed: to the next, from
      the last to the first. */
  function Successor(stations: seq<Station>, i: nat): Option<string>
    requires i < |stations|
  {
    if i + 1 < |stations| then Some(stations[i + 1].name)
    else if i > 0 then Some(stations[0].name)
    else None
  }

  /** The loop over the stations, from position i on. */
  function Prune(stations: seq<Station>, selected: Option<string>, now: int, i: nat): (seq<Station>, Option<string>)
    requires i <= |stations|
    decreases |stations| - i
  {
    if i == |stations| then (stations, selected)
    else if !Expired(stations[i], now) then Prune(stations, selected, now, i + 1)
    else
      var selected1 := if selected == Some(stations[i].name) then Successor(stations, i) else selected;
      Prune(RemoveAt(stations, i), selected1, now, i)
  }

  lemma {:induction false} ActiveOfSum(a: seq<Station>, b: seq<Station>, now: int)
    ensures Active(a + b, now) == Active(a, now) + Active(b, now)
  {
    if a == [] {
      assert a + b == b;
    } else {
      ActiveOfSum(a[1..], b, now);
      ActiveOfCons(a, b, now);
    }
  }

  lemma ActiveOfCons(a: seq<Station>, b: seq<Station>, now: int)
    requires a != [] && Active(a[1..] + b, now) == Active(a[1..], now) + Active(b, now)
    ensures Active(a + b, now) == Active(a, now) + Active(b, now)
  {
    var rest, later := a[1..], Active(a[1..], now) + Active(b, now);
    assert (a + b)[1..] == rest + b && (a + b)[0] == a[0];
    assert Active(a + b, now) == if Expired(a[0], now) then later else [a[0]] + later;
    assert [a[0]] + later == [a[0]] + Active(rest, now) + Active(b, now);
  }

  lemma ActiveWithout(a: seq<Station>, x: Station, b: seq<Station>, now: int)
    requires Expired(x, now)
    ensures Active(a + ([x] + b), now) == Active(a + b, now)
  {
    ActiveOfSum(a, [x] + b, now);
    ActiveOfSum(a, b, now);
    assert ([x] + b)[1..] == b;
  }

  /** The position of the selected station after the one at i is removed, as Successor has it. */
  function Moved(n: nat, i: nat, selected: nat): nat
    requires i < n && selected < n
  {
    if selected < i then selected
    else if selected > i then selected - 1
    else if i + 1 < n then i
    else 0
  }

  /** Removing an expired station leaves the active ones. */
  lemma RemovalKeepsActive(stations: seq<Station>, i: nat, now: int)
    requires i < |stations| && Expired(stations[i], now)
    ensures Active(RemoveAt(stations, i), now) == Active(stations, now)
  {
    assert stations == stations[..i] + ([stations[i]] + stations[i + 1..]);
    ActiveWithout(stations[..i], stations[i], stations[i + 1..], now);
  }

  /** And it leaves their order from the selected one on. */
  lemma RemovalKeepsCycle(stations: seq<Station>, i: nat, k: nat, now: int)
    requires i < |stations| && k < |stations| && |stations| > 1 && Expired(stations[i], now)
    ensures Moved(|stations|, i, k) < |stations| - 1
    ensures Active(Cycle(RemoveAt(stations, i), Moved(|stations|, i, k)), now) == Active(Cycle(stations, k), now)
  {
    if k < i {
      RemovedAfter(stations, i, k, now);
    } else if k > i {
      RemovedBefore(stations, i, k, now);
    } else {
      var after := stations[i + 1..] + stations[..i];
      assert Cycle(stations, i) == [] + ([stations[i]] + after);
      assert Cycle(RemoveAt(stations, i), Moved(|stations|, i, i)) == [] + after;
      ActiveWithout([], stations[i], after, now);
    }
  }

  lemma RemovedAfter(stations: seq<Station>, i: nat, k: nat, now: int)
    requires k < i < |stations| && Expired(stations[i], now)
    ensures Active(Cycle(RemoveAt(stations, i), k), now) == Active(Cycle(stations, k), now)
  {
    var after := stations[i + 1..] + stations[..k];
    assert Cycle(stations, k) == stations[k..i] + ([stations[i]] + after);
    assert Cycle(RemoveAt(stations, i), k) == stations[k..i] + after;
    ActiveWithout(stations[k..i], stations[i], after, now);
  }

  lemma RemovedBefore(stations: seq<Station>, i: nat, k: nat, now: int)
    requires i < k < |stations| && Expired(stations[i], now)
    ensures Active(Cycle(RemoveAt(stations, i), k - 1), now) == Active(Cycle(stations, k), now)
  {
    var before := stations[k..] + stations[..i];
    assert Cycle(stations, k) == before + ([stations[i]] + stations[i + 1..k]);
    assert Cycle(RemoveAt(stations, i), k - 1) == before + stations[i + 1..k];
    ActiveWithout(before, stations[i], stations[i + 1..k], now);
  }

  lemma RemovalKeepsOrder(stations: seq<Station>, i: nat)
    requires Ordered(stations) && i < |stations|
    ensures Ordered(RemoveAt(stations, i))
  {
  }

  lemma OneName(stations: seq<Station>, i: nat, k: nat)
    requires Ordered(stations) && i < |stations| && k < |stations|
    ensures stations[i].name == stations[k].name <==> i == k
  {
    LessIsStrict(stations[i].name);
  }

  /** The loop leaves the active stations, and moves an expired selection to the next active station in
      the cyclic order of names, to none exactly if none is left. */
  lemma {:induction false} PruneMeans(stations: seq<Station>, k: nat, now: int, i: nat)
    requires Ordered(stations) && k < |stations| && i <= |stations|
    requires Active(stations[..i], now) == stations[..i]
    ensures Prune(stations, Some(stations[k].name), now, i)
         == (Active(stations, now), NameAt(Active(Cycle(stations, k), now), 0))
    decreases |stations| - i
  {
    if i == |stations| {
      assert stations[..i] == stations;
      PruneDone(stations, k, now);
    } else if !Expired(stations[i], now) {
      ActivePrefix(stations, i, now);
      PruneMeans(stations, k, now, i + 1);
    } else {
      RemovalKeepsActive(stations, i, now);
      OneName(stations, i, k);
      if |stations| > 1 {
        RemovalKeepsCycle(stations, i, k, now);
        var rest, k' := RemoveAt(stations, i), Moved(|stations|, i, k);
        RemovalKeepsOrder(stations, i);
        assert rest[..i] == stations[..i];
        PruneMeans(rest, k', now, i);
      } else {
        assert Cycle(stations, k) == stations && Active(stations, now) == [];
      }
    }
  }

  lemma ActivePrefix(stations: seq<Station>, i: nat, now: int)
    requires i < |stations| && !Expired(stations[i], now) && Active(stations[..i], now) == stations[..i]
    ensures Active(stations[..i + 1], now) == stations[..i + 1]
  {
    assert stations[..i + 1] == stations[..i] + [stations[i]];
    ActiveOfSum(stations[..i], [stations[i]], now);
    assert Active([stations[i]], now) == [stations[i]] + [];
  }

  lemma PruneDone(stations: seq<Station>, k: nat, now: int)
    requires k < |stations| && Active(stations, now) == stations
    ensures NameAt(Active(Cycle(stations, k), now), 0) == Some(stations[k].name)
  {
    AllActive(stations, k, now);
    ActiveOfSum(stations[k..], stations[..k], now);
  }

  lemma {:induction false} ActiveIsShorter(stations: seq<Station>, now: int)
    ensures |Active(stations, now)| <= |stations|
  {
    if stations != [] { ActiveIsShorter(stations[1..], now); }
  }

  lemma {:induction false} AllActive(stations: seq<Station>, k: nat, now: int)
    requires k < |stations| && Active(stations, now) == stations
    ensures !Expired(stations[k], now)
  {
    ActiveIsShorter(stations[1..], now);
    if k > 0 {
      assert stations == [stations[0]] + Active(stations[1..], now);
      assert Active(stations[1..], now) == stations[1..];
      AllActive(stations[1..], k - 1, now);
    }
  }

  lemma {:induction false} ActiveMeans(stations: seq<Station>, s: Station, now: int)
    ensures s in Active(stations, now) <==> s in stations && !Expired(s, now)
  {
    if stations != [] {
      ActiveMeans(stations[1..], s, now);
      assert s in stations <==> s == stations[0] || s in stations[1..];
    }
  }

  lemma OrderedCons(x: Station, rest: seq<Station>)
    requires Ordered(rest) && forall s :: s in rest ==> Less(x.name, s.name)
    ensures Ordered([x] + rest)
  {
    var all := [x] + rest;
    forall i, j | 0 <= i < j < |all| ensures Less(all[i].name, all[j].name) {
      assert all[j] == rest[j - 1] && rest[j - 1] in rest;
      if i > 0 { assert all[i] == rest[i - 1]; }
    }
  }

  lemma {:induction false} ActiveIsOrdered(stations: seq<Station>, now: int)
    requires Ordered(stations)
    ensures Ordered(Active(stations, now))
  {
    if stations != [] {
      ActiveIsOrdered(stations[1..], now);
      if !Expired(stations[0], now) {
        forall s | s in Active(stations[1..], now) ensures Less(stations[0].name, s.name) {
          ActiveMeans(stations[1..], s, now);
        }
        OrderedCons(stations[0], Active(stations[1..], now));
      }
    }
  }

  /** A station is selected exactly if there is any, and it is one of them. */
  ghost predicate Valid(stations: seq<Station>, selected: Option<string>) {
    && Ordered(stations)
    && (selected.None? <==> stations == [])
    && (selected.Some? ==> Has(stations, selected.value))
  }

  /** What pruning leaves is exactly the active stations, and a selection that moved only if it had to,
      to the next active station in the cyclic order of names; none exactly if all have expired. */
  lemma PruneKeepsActive(stations: seq<Station>, selected: Option<string>, now: int)
    requires Valid(stations, selected)
    ensures var (active, selected') := Prune(stations, selected, now, 0);
            && Valid(active, selected')
            && (forall s :: s in active <==> s in stations && now - s.lastReply <= 20)
            && (selected.Some? ==>
                  selected' == NameAt(Active(Cycle(stations, Position(stations, selected.value)), now), 0))
            && (selected.Some? && now - stations[Position(stations, selected.value)].lastReply <= 20 ==>
                  selected' == selected)
  {
    forall s ensures s in Active(stations, now) <==> s in stations && !Expired(s, now) {
      ActiveMeans(stations, s, now);
    }
    ActiveIsOrdered(stations, now);
    if selected.Some? {
      var k := Position(stations, selected.value);
      assert stations[..0] == [];
      PruneMeans(stations, k, now, 0);
      FirstOfCycle(stations, k, now);
    }
  }

  /** The first active station from k on. */
  lemma FirstOfCycle(stations: seq<Station>, k: nat, now: int)
    requires k < |stations|
    ensures var cycle := Active(Cycle(stations, k), now);
            && (cycle == [] <==> Active(stations, now) == [])
            && (cycle != [] ==> Has(Active(stations, now), cycle[0].name))
            && (!Expired(stations[k], now) ==> cycle != [] && cycle[0] == stations[k])
  {
    var active, cycle := Active(stations, now), Active(Cycle(stations, k), now);
    assert stations == stations[..k] + stations[k..];
    ActiveOfSum(stations[..k], stations[k..], now);
    ActiveOfSum(stations[k..], stations[..k], now);
    if cycle != [] {
      assert cycle[0] in active;
      var i :| 0 <= i < |active| && active[i] == cycle[0];
      HasAt(active, i);
    }
  }

  // ---------- Adding or refreshing a station ----------

  function Erase(stations: seq<Station>, name: string): seq<Station> {
    if stations == [] then []
    else if stations[0].name == name then stations[1..]
    else [stations[0]] + Erase(stations[1..], name)
  }

  function Emplace(stations: seq<Station>, s: Station): seq<Station> {
    if stations == [] || Less(s.name, stations[0].name) then [s] + stations
    else if stations[0].name == s.name then stations
    else [stations[0]] + Emplace(stations[1..], s)
  }

  function Put(stations: seq<Station>, s: Station): seq<Station> {
    Emplace(Erase(stations, s.name), s)
  }

  lemma {:induction false} NotBelow(stations: seq<Station>, name: string)
    requires Ordered(stations) && forall s :: s in stations ==> Less(name, s.name)
    ensures Find(stations, name) == None
  {
    if stations != [] {
      LessIsStrict(name);
      assert stations[0] in stations;
      NotBelow(stations[1..], name);
    }
  }

  lemma {:induction false} EraseMeans(stations: seq<Station>, name: string, other: string)
    requires Ordered(stations)
    ensures Ordered(Erase(stations, name))
    ensures forall s :: s in Erase(stations, name) ==> s in stations && s.name != name
    ensures Find(Erase(stations, name), other) == if other == name then None else Find(stations, other)
  {
    if stations != [] {
      if stations[0].name == name {
        LessIsStrict(name);
        NotBelow(stations[1..], name);
      } else {
        var rest := Erase(stations[1..], name);
        EraseMeans(stations[1..], name, other);
        OrderedCons(stations[0], rest);
        assert ([stations[0]] + rest)[1..] == rest;
      }
    }
  }

  lemma {:induction false} EmplaceMeans(stations: seq<Station>, s: Station, other: string)
    requires Ordered(stations) && Find(stations, s.name) == None
    ensures Ordered(Emplace(stations, s))
    ensures forall x :: x in Emplace(stations, s) ==> x == s || x in stations
    ensures Find(Emplace(stations, s), other) == if other == s.name then Some(s) else Find(stations, other)
  {
    if stations == [] {
    } else if Less(s.name, stations[0].name) {
      forall x | x in stations ensures Less(s.name, x.name) {
        if x != stations[0] { LessIsTransitive(s.name, stations[0].name, x.name); }
      }
      OrderedCons(s, stations);
      assert ([s] + stations)[1..] == stations;
    } else {
      var rest := Emplace(stations[1..], s);
      EmplaceMeans(stations[1..], s, other);
      LessIsTotal(s.name, stations[0].name);
      OrderedCons(stations[0], rest);
      assert ([stations[0]] + rest)[1..] == rest;
    }
  }

  /** The station is there as it is now, in its place, and the others are as they were. */
  lemma PutMeans(stations: seq<Station>, s: Station, other: string)
    requires Ordered(stations)
    ensures Ordered(Put(stations, s)) && Put(stations, s) != []
    ensures Find(Put(stations, s), other) == if other == s.name then Some(s) else Find(stations, other)
  {
    EraseMeans(stations, s.name, s.name);
    EraseMeans(stations, s.name, other);
    EmplaceMeans(Erase(stations, s.name), s, other);
  }

  // ---------- Moving the selection ----------

  function Neighbour(n: nat, k: nat, d: Direction): (k': nat)
    requires k < n
    ensures k' < n
  {
    match d
    case Up => if k + 1 < n then k + 1 else 0
    case Down => if k > 0 then k - 1 else n - 1
  }

  function Stepped(stations: seq<Station>, name: string, d: Direction): string
    requires Has(stations, name)
  {
    stations[Neighbour(|stations|, Position(stations, name), d)].name
  }

  /** Up and down undo each other. */
  lemma UpAndDownAreInverse(stations: seq<Station>, name: string)
    requires Ordered(stations) && Has(stations, name)
    ensures var up, down := Stepped(stations, name, Up), Stepped(stations, name, Down);
            && Has(stations, up) && Stepped(stations, up, Down) == name
            && Has(stations, down) && Stepped(stations, down, Up) == name
  {
    var k := Position(stations, name);
    OnePosition(stations, Neighbour(|stations|, k, Up));
    OnePosition(stations, Neighbour(|stations|, k, Down));
  }

  /** Up leads to the next name in order, and from the last to the first. */
  lemma UpIsNext(stations: seq<Station>, name: string, other: Station)
    requires Ordered(stations) && Has(stations, name) && other in stations
    ensures var up := Stepped(stations, name, Up);
            && (Less(name, other.name) ==> Less(name, up) && (up == other.name || Less(up, other.name)))
            && (!Less(name, up) ==> up == other.name || Less(up, other.name))
  {
    var k := Position(stations, name);
    var j :| 0 <= j < |stations| && stations[j] == other;
    if j < k { OneWay(stations, j, k); }
    LessIsStrict(name);
  }

  lemma OneWay(stations: seq<Station>, j: nat, k: nat)
    requires Ordered(stations) && j < k < |stations|
    ensures !Less(stations[k].name, stations[j].name)
  {
    if Less(stations[k].name, stations[j].name) {
      LessIsTransitive(stations[j].name, stations[k].name, stations[j].name);
      LessIsStrict(stations[j].name);
    }
  }

  /** The position after a number of ups. */
  function UpPosition(n: nat, k: nat, times: nat): (k': nat)
    requires k < n
    ensures k' < n
  {
    if times == 0 then k else Neighbour(n, UpPosition(n, k, times - 1), Up)
  }

  /** The selection after a number of ups. */
  function Ups(stations: seq<Station>, name: string, times: nat): string
    requires Has(stations, name)
  {
    stations[UpPosition(|stations|, Position(stations, name), times)].name
  }

  lemma UpsAreSteps(stations: seq<Station>, name: string, times: nat)
    requires Ordered(stations) && Has(stations, name)
    ensures Ups(stations, name, 0) == name
    ensures Has(stations, Ups(stations, name, times))
    ensures Ups(stations, name, times + 1) == Stepped(stations, Ups(stations, name, times), Up)
  {
    OnePosition(stations, UpPosition(|stations|, Position(stations, name), times));
  }

  lemma {:induction false} UpsAt(n: nat, k: nat, times: nat)
    requires k < n && times <= n
    ensures UpPosition(n, k, times) == if k + times < n then k + times else k + times - n
  {
    if times > 0 { UpsAt(n, k, times - 1); }
  }

  lemma UpsReach(stations: seq<Station>, name: string, target: string) returns (times: nat)
    requires Ordered(stations) && Has(stations, name) && Has(stations, target)
    ensures times < |stations| && Ups(stations, name, times) == target
  {
    var k, t := Position(stations, name), Position(stations, target);
    times := if t >= k then t - k else t - k + |stations|;
    UpsAt(|stations|, k, times);
  }

  lemma UpsDiffer(stations: seq<Station>, name: string, i: nat, j: nat)
    requires Ordered(stations) && Has(stations, name) && i < j < |stations|
    ensures Ups(stations, name, i) != Ups(stations, name, j)
  {
    var n, k := |stations|, Position(stations, name);
    UpsAt(n, k, i);
    UpsAt(n, k, j);
    OneName(stations, UpPosition(n, k, i), UpPosition(n, k, j));
  }

  /** As many ups as there are stations lead back to the start, through every station exactly once. */
  lemma UpsVisitEachOnce(stations: seq<Station>, name: string, target: string)
    requires Ordered(stations) && Has(stations, name) && Has(stations, target)
    ensures Ups(stations, name, |stations|) == name
    ensures exists times: nat :: times < |stations| && Ups(stations, name, times) == target
    ensures forall i: nat, j: nat :: i < j < |stations| ==> Ups(stations, name, i) != Ups(stations, name, j)
  {
    UpsAt(|stations|, Position(stations, name), |stations|);
    var times := UpsReach(stations, name, target);
    forall i: nat, j: nat | i < j < |stations| ensures Ups(stations, name, i) != Ups(stations, name, j) {
      UpsDiffer(stations, name, i, j);
    }
  }

  // ---------- The set ----------

  /** The selection after a reply: the new station if none was selected, or if it is the preferred one
      and was not in the set. */
  function SelectedAfter(preferred: Option<string>, active: seq<Station>, selected: Option<string>,
                         s: Station): string
  {
    if selected.None? || (preferred == Some(s.name) && !Has(active, s.name)) then s.name else selected.value
  }

  lemma UpdateKeepsValid(preferred: Option<string>, active: seq<Station>, selected: Option<string>, s: Station)
    requires Valid(active, selected)
    ensures Valid(Put(active, s), Some(SelectedAfter(preferred, active, selected, s)))
  {
    PutMeans(active, s, SelectedAfter(preferred, active, selected, s));
  }

  /** The set and its selection after a reply: the old stations go, and then the new one comes. */
  function Updated(preferred: Option<string>, stations: seq<Station>, selected: Option<string>, now: int, s: Station)
    : (seq<Station>, Option<string>)
  {
    var (active, kept) := Prune(stations, selected, now, 0);
    (Put(active, s), Some(SelectedAfter(preferred, active, kept, s)))
  }

  function Names(stations: seq<Station>): (names: seq<string>)
    ensures |names| == |stations| && forall k :: 0 <= k < |names| ==> names[k] == stations[k].name
  {
    seq(|stations|, k requires 0 <= k < |stations| => stations[k].name)
  }

  class StationSet {
    const preferred: Option<string>
    var stations: seq<Station>
    var selected: Option<string>

    ghost predicate IsValid()
      reads this
    {
      Valid(stations, selected)
    }

    constructor (preferred: Option<string>)
      ensures IsValid() && this.preferred == preferred && stations == []
    {
      this.preferred := preferred;
      stations := [];
      selected := None;
    }

    method RemoveOldStations(now: int)
      requires IsValid()
      modifies this
      ensures IsValid() && (stations, selected) == Prune(old(stations), old(selected), now, 0)
    {
      PruneKeepsActive(stations, selected, now);
      var i := 0;
      while i < |stations|
        invariant i <= |stations|
        invariant Prune(stations, selected, now, i) == Prune(old(stations), old(selected), now, 0)
        decreases |stations| - i
      {
        if !Expired(stations[i], now) {
          i := i + 1;
        } else {
          if selected == Some(stations[i].name) {
            selected := Successor(stations, i);
          }
          stations := RemoveAt(stations, i);
        }
      }
    }

    method GetSelectedStation() returns (r: Option<Station>)
      requires IsValid()
      ensures r == if stations == [] then None else Find(stations, selected.value)
      ensures r.None? <==> stations == []
    {
      if |stations| == 0 {
        return None;
      }
      r := Some(stations[Position(stations, selected.value)]);
    }

    method UpdateGetSelected(now: int, newStation: Station) returns (r: Option<Station>)
      requires IsValid()
      modifies this
      ensures IsValid()
      ensures (stations, selected) == Updated(preferred, old(stations), old(selected), now, newStation)
      ensures selected.Some? && r == Find(stations, selected.value) && r.Some?
    {
      RemoveOldStations(now);
      UpdateKeepsValid(preferred, stations, selected, newStation);
      var erased := Has(stations, newStation.name);
      stations := Emplace(Erase(stations, newStation.name), newStation);
      if selected.None? {
        selected := Some(newStation.name);
      }
      if preferred == Some(newStation.name) && !erased {
        selected := Some(newStation.name);
      }
      r := GetSelectedStation();
    }

    method SelectGetSelected(now: int, d: Direction) returns (r: Option<Station>)
      requires IsValid()
      modifies this
      ensures IsValid()
      ensures var (active, kept) := Prune(old(stations), old(selected), now, 0);
              && stations == active
              && (active == [] ==> kept == None && selected == None && r == None)
              && (active != [] ==>
                    && kept.Some? && Has(active, kept.value) && selected == Some(Stepped(active, kept.value, d))
                    && r == Find(active, selected.value) && r.Some?)
    {
      RemoveOldStations(now);
      if |stations| == 0 {
        r := GetSelectedStation();
        return;
      }
      var k := Position(stations, selected.value);
      OnePosition(stations, Neighbour(|stations|, k, d));
      if d == Up {
        k := k + 1;
        if k == |stations| {
          k := 0;
        }
      } else {
        if k == 0 {
          k := |stations|;
        }
        k := k - 1;
      }
      selected := Some(stations[k].name);
      r := GetSelectedStation();
    }

    method GetSelected(now: int) returns (r: Option<Station>)
      requires IsValid()
      modifies this
      ensures IsValid() && (stations, selected) == Prune(old(stations), old(selected), now, 0)
      ensures r == if stations == [] then None else Find(stations, selected.value)
      ensures r.None? <==> stations == []
    {
      RemoveOldStations(now);
      r := GetSelectedStation();
    }

    method GetStationNames(now: int) returns (names: seq<string>)
      requires IsValid()
      modifies this
      ensures IsValid() && (stations, selected) == Prune(old(stations), old(selected), now, 0)
      ensures names == Names(stations)
    {
      RemoveOldStations(now);
      names := [];
      var i := 0;
      while i < |stations|
        invariant i <= |stations| && names == Names(stations)[..i]
      {
        names := names + [stations[i].name];
        i := i + 1;
      }
    }
  }
}
