/** Which station is selected as replies come in (src/receiver/station_set.hpp:70-87). */
module StationReplies {
  import opened Types
  import opened Stations
  import opened StationSets

  // ---------- One reply ----------

  /** A station of that name that replied in the last 20 seconds. */
  predicate HeardLately(stations: seq<Station>, name: string, now: int) {
    exists s :: s in stations && s.name == name && now - s.lastReply <= 20
  }

  lemma {:induction false} HasMeans(stations: seq<Station>, name: string)
    ensures Has(stations, name) <==> exists s :: s in stations && s.name == name
  {
    if stations != [] {
      HasMeans(stations[1..], name);
      if s :| s in stations && s.name == name { assert s == stations[0] || s in stations[1..]; }
    }
  }

  /** The station that replies is in the set as it is now. It is selected if it is the preferred one and none of
      its name was heard of lately, or if no station was; otherwise the selection stays where the removal of
      old stations leaves it, also when the preferred station is refreshed. */
  lemma ReplySelects(preferred: Option<string>, stations: seq<Station>, selected: Option<string>, now: int, s: Station)
    requires Valid(stations, selected)
    ensures var (after, selected') := Updated(preferred, stations, selected, now, s);
            && Valid(after, selected') && Find(after, s.name) == Some(s)
            && (preferred == Some(s.name) && !HeardLately(stations, s.name, now) ==> selected' == Some(s.name))
            && ((forall x :: x in stations ==> now - x.lastReply > 20) ==> selected' == Some(s.name))
            && (preferred != Some(s.name) || HeardLately(stations, s.name, now) ==>
                  (exists x :: x in stations && now - x.lastReply <= 20) ==>
                    selected' == Prune(stations, selected, now, 0).1)
  {
    var (active, kept) := Prune(stations, selected, now, 0);
    PruneKeepsActive(stations, selected, now);
    UpdateKeepsValid(preferred, active, kept, s);
    PutMeans(active, s, s.name);
    HasMeans(active, s.name);
    if x :| x in stations && now - x.lastReply <= 20 { assert x in active; }
    if active != [] { assert active[0] in active; }
  }

  // ---------- Runs of replies ----------

  /** A reply, and when it came. */
  datatype Heard = Heard(now: int, station: Station)

  function AfterReplies(preferred: Option<string>, replies: seq<Heard>): (seq<Station>, Option<string>) {
    if replies == [] then ([], None)
    else
      var (stations, selected) := AfterReplies(preferred, replies[..|replies| - 1]);
      var last := replies[|replies| - 1];
      Updated(preferred, stations, selected, last.now, last.station)
  }

  function Replied(replies: seq<Heard>): (names: seq<string>)
    ensures |names| == |replies|
  {
    seq(|replies|, k requires 0 <= k < |replies| => replies[k].station.name)
  }

  /** Whenever a reply comes, every station in the set has replied in the last 20 seconds. */
  ghost predicate NoneExpires(preferred: Option<string>, replies: seq<Heard>) {
    replies == [] ||
    var stations, last := AfterReplies(preferred, replies[..|replies| - 1]).0, replies[|replies| - 1];
    && NoneExpires(preferred, replies[..|replies| - 1])
    && forall s :: s in stations ==> last.now - s.lastReply <= 20
  }

  lemma {:induction false} RepliesKeepValid(preferred: Option<string>, replies: seq<Heard>)
    ensures var (stations, selected) := AfterReplies(preferred, replies);
            Valid(stations, selected)
  {
    if replies != [] {
      var (stations, selected) := AfterReplies(preferred, replies[..|replies| - 1]);
      var last := replies[|replies| - 1];
      RepliesKeepValid(preferred, replies[..|replies| - 1]);
      ReplySelects(preferred, stations, selected, last.now, last.station);
    }
  }

  lemma {:induction false} NothingPruned(stations: seq<Station>, selected: Option<string>, now: int, i: nat)
    requires i <= |stations| && forall s :: s in stations ==> now - s.lastReply <= 20
    ensures Prune(stations, selected, now, i) == (stations, selected)
    decreases |stations| - i
  {
    if i < |stations| {
      assert stations[i] in stations;
      NothingPruned(stations, selected, now, i + 1);
    }
  }

  /** One more reply, where nothing has expired. */
  lemma NextReply(preferred: Option<string>, stations: seq<Station>, selected: Option<string>, h: Heard, name: string)
    requires Valid(stations, selected) && forall s :: s in stations ==> h.now - s.lastReply <= 20
    ensures var (after, selected') := Updated(preferred, stations, selected, h.now, h.station);
            && (Has(after, name) <==> name == h.station.name || Has(stations, name))
            && (selected' == if stations == [] || (preferred == Some(h.station.name) && !Has(stations, h.station.name))
                             then Some(h.station.name) else selected)
  {
    NothingPruned(stations, selected, h.now, 0);
    PutMeans(stations, h.station, name);
  }

  /** The set has the stations that have replied, and selects the preferred one from its first reply on, and
      before that the one that replied first. */
  lemma {:induction false} PreferredFromItsFirstReply(preferred: Option<string>, replies: seq<Heard>, name: string)
    requires NoneExpires(preferred, replies)
    ensures var (stations, selected) := AfterReplies(preferred, replies);
            && (Has(stations, name) <==> name in Replied(replies))
            && (selected == if replies == [] then None
                            else if preferred.Some? && preferred.value in Replied(replies) then preferred
                            else Some(Replied(replies)[0]))
  {
    if replies != [] {
      var before, last := replies[..|replies| - 1], replies[|replies| - 1];
      var (stations, selected) := AfterReplies(preferred, before);
      PreferredFromItsFirstReply(preferred, before, name);
      PreferredFromItsFirstReply(preferred, before, last.station.name);
      RepliesKeepValid(preferred, before);
      NextReply(preferred, stations, selected, last, name);
      assert Replied(replies) == Replied(before) + [last.station.name];
    }
  }
}
