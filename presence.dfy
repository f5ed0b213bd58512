/**
 * The presence activity of the controller (controller/shooting_stars/presence.py):
 * remote presence maps arrive with the subscription's state and are queued
 * per remote controller; every frame lights each light with a white base, the
 * local presence map on the red component and, when one is queued, the next
 * map of remote controller 2 on the blue component.
 *
 * The webcam, the image processing and the mapping of light positions to map
 * cells (floating point geometry) are not modelled: the sampled local values
 * and the map cell of each light are parameters.
 */
module Presence {
  import opened Wrappers
  import opened Ejson
  import opened JsArray

  const COMPONENT_COUNT: nat := 4
  /** Each remote keeps at most this many maps, the most recent ones. */
  const MAX_MAPS: nat := 10
  /** The only remote controller whose maps are shown. */
  const SHOWN_REMOTE_ID: int := 2
  /** The white component every light gets. */
  const WHITE_LEVEL: int := 10

  /** A presence map as the server accepts it: at least one row, all rows equally long and non-empty. */
  predicate IsMap(m: seq<seq<int>>) {
    |m| > 0 && |m[0]| > 0 && forall r :: 0 <= r < |m| ==> |m[r]| == |m[0]|
  }

  datatype Event = Event(timestamp: int, presenceMap: seq<seq<int>>)

  /** One record of the presence subscription: a remote controller's id, config and recent events. */
  datatype RemotePresence = RemotePresence(id: int, config: Json, events: seq<Event>)

  /** What is kept about a remote: its config, the timestamp of events already seen, and queued maps. */
  datatype RemoteState = RemoteState(config: Json, lastTimestamp: int, maps: seq<seq<seq<int>>>)

  predicate EventsAreMaps(events: seq<Event>) {
    forall i :: 0 <= i < |events| ==> IsMap(events[i].presenceMap)
  }

  predicate RemoteValid(p: RemoteState) {
    |p.maps| <= MAX_MAPS && forall i :: 0 <= i < |p.maps| ==> IsMap(p.maps[i])
  }

  /** Appending to a bounded deque: when it is full, the oldest map is dropped. */
  function BoundedAppend(maps: seq<seq<seq<int>>>, m: seq<seq<int>>): seq<seq<seq<int>>> {
    if |maps| < MAX_MAPS then maps + [m] else maps[1..] + [m]
  }

  /** The bounded deque holds the most recent maps: the last MAX_MAPS of everything appended. */
  lemma BoundedAppendKeepsMostRecent(maps: seq<seq<seq<int>>>, m: seq<seq<int>>)
    requires |maps| <= MAX_MAPS
    ensures |BoundedAppend(maps, m)| == Min(|maps| + 1, MAX_MAPS)
    ensures BoundedAppend(maps, m) == (maps + [m])[|maps| + 1 - |BoundedAppend(maps, m)|..]
  {
    if |maps| < MAX_MAPS {
      assert (maps + [m])[0..] == maps + [m];
    } else {
      assert (maps + [m])[1..] == maps[1..] + [m];
    }
  }

  /** The event loop for one remote: only events later than `last` are appended. */
  function AppendNewer(maps: seq<seq<seq<int>>>, events: seq<Event>, last: int): seq<seq<seq<int>>> {
    if |events| == 0 then maps
    else
      var before := AppendNewer(maps, events[..|events| - 1], last);
      var e := events[|events| - 1];
      if e.timestamp <= last then before else BoundedAppend(before, e.presenceMap)
  }

  function MaxTimestampOrZero(events: seq<Event>): (m: int)
    ensures forall i :: 0 <= i < |events| ==> events[i].timestamp <= m
    ensures |events| == 0 ==> m == 0
    ensures |events| > 0 ==> exists i :: 0 <= i < |events| && events[i].timestamp == m
  {
    if |events| == 0 then 0
    else if |events| == 1 then events[0].timestamp
    else
      var rest := MaxTimestampOrZero(events[1..]);
      assert forall i :: 1 <= i < |events| ==> events[i] == events[1..][i - 1];
      if events[0].timestamp >= rest then events[0].timestamp else rest
  }

  /** The state of a remote seen for the first time: every event it lists counts as already seen. */
  function FirstSight(rp: RemotePresence): RemoteState {
    RemoteState(rp.config, MaxTimestampOrZero(rp.events), [])
  }

  /** One record of `update_remote_presences`. */
  function UpdateOne(remotes: map<int, RemoteState>, rp: RemotePresence): map<int, RemoteState> {
    var p := if rp.id in remotes then remotes[rp.id] else FirstSight(rp);
    remotes[rp.id := p.(maps := AppendNewer(p.maps, rp.events, p.lastTimestamp))]
  }

  /** `update_remote_presences`: the records in order. */
  function UpdateAll(remotes: map<int, RemoteState>, rps: seq<RemotePresence>): map<int, RemoteState> {
    if |rps| == 0 then remotes else UpdateOne(UpdateAll(remotes, rps[..|rps| - 1]), rps[|rps| - 1])
  }

  lemma {:induction false} AppendNewerValid(maps: seq<seq<seq<int>>>, events: seq<Event>, last: int)
    requires |maps| <= MAX_MAPS && forall i :: 0 <= i < |maps| ==> IsMap(maps[i])
    requires EventsAreMaps(events)
    ensures |AppendNewer(maps, events, last)| <= MAX_MAPS
    ensures forall i :: 0 <= i < |AppendNewer(maps, events, last)| ==> IsMap(AppendNewer(maps, events, last)[i])
  {
    if |events| > 0 {
      AppendNewerValid(maps, events[..|events| - 1], last);
    }
  }

  /** Whether an event is later than the seen-timestamp `last`. */
  function NewerThan(last: int): Event -> bool {
    (e: Event) => e.timestamp > last
  }

  /** The maps of the events later than `last`, in the order they are listed. */
  function NewerMaps(events: seq<Event>, last: int): (r: seq<seq<seq<int>>>)
    ensures var newer := Filter(events, NewerThan(last));
      |r| == |newer| && forall i :: 0 <= i < |r| ==> r[i] == newer[i].presenceMap
  {
    var newer := Filter(events, NewerThan(last));
    seq(|newer|, i requires 0 <= i < |newer| => newer[i].presenceMap)
  }

  /** Appending to a bounded deque holding the last MAX_MAPS of a sequence holds the last MAX_MAPS of the longer one. */
  lemma BoundedAppendLastN(s: seq<seq<seq<int>>>, m: seq<seq<int>>)
    ensures BoundedAppend(LastN(s, MAX_MAPS), m) == LastN(s + [m], MAX_MAPS)
  {
    if |s| < MAX_MAPS {
      assert LastN(s, MAX_MAPS) == s;
    } else {
      var k := |s| - MAX_MAPS;
      assert LastN(s, MAX_MAPS) == s[k..];
      assert s[k..][1..] + [m] == (s + [m])[k + 1..];
    }
  }

  /**
   * The event loop for one remote, over a whole batch: the queue ends up
   * holding the last MAX_MAPS of the old maps followed by the maps of the
   * events later than `last`, in the order listed.
   */
  lemma {:induction false} AppendNewerKeepsLatest(maps: seq<seq<seq<int>>>, events: seq<Event>, last: int)
    requires |maps| <= MAX_MAPS
    ensures AppendNewer(maps, events, last) == LastN(maps + NewerMaps(events, last), MAX_MAPS)
  {
    if |events| == 0 {
      assert maps + NewerMaps(events, last) == maps;
    } else {
      var init, e := events[..|events| - 1], events[|events| - 1];
      AppendNewerKeepsLatest(maps, init, last);
      assert events == init + [e];
      FilterAppend(init, e, NewerThan(last));
      var older := maps + NewerMaps(init, last);
      if e.timestamp > last {
        assert NewerMaps(events, last) == NewerMaps(init, last) + [e.presenceMap];
        assert maps + NewerMaps(events, last) == older + [e.presenceMap];
        BoundedAppendLastN(older, e.presenceMap);
      } else {
        assert NewerMaps(events, last) == NewerMaps(init, last);
      }
    }
  }

  /** Events no later than `last` are never appended. */
  lemma {:induction false} OnlyNewerAppended(maps: seq<seq<seq<int>>>, events: seq<Event>, last: int)
    requires forall i :: 0 <= i < |events| ==> events[i].timestamp <= last
    ensures AppendNewer(maps, events, last) == maps
  {
    if |events| > 0 {
      OnlyNewerAppended(maps, events[..|events| - 1], last);
    }
  }

  /**
   * A remote seen for the first time gets its config and the largest
   * timestamp of its events (0 without events), and no map is queued.
   */
  lemma FirstSightQueuesNothing(remotes: map<int, RemoteState>, rp: RemotePresence)
    requires rp.id !in remotes
    ensures UpdateOne(remotes, rp)[rp.id] == RemoteState(rp.config, MaxTimestampOrZero(rp.events), [])
  {
    OnlyNewerAppended([], rp.events, MaxTimestampOrZero(rp.events));
  }

  /**
   * A known remote keeps its stored config and its seen-timestamp: neither
   * is replaced by later records. Every other remote is untouched.
   */
  lemma KnownRemoteKeepsConfig(remotes: map<int, RemoteState>, rp: RemotePresence)
    requires rp.id in remotes
    ensures UpdateOne(remotes, rp)[rp.id].config == remotes[rp.id].config
    ensures UpdateOne(remotes, rp)[rp.id].lastTimestamp == remotes[rp.id].lastTimestamp
    ensures UpdateOne(remotes, rp)[rp.id].maps == AppendNewer(remotes[rp.id].maps, rp.events, remotes[rp.id].lastTimestamp)
    ensures forall id :: id in remotes && id != rp.id ==> UpdateOne(remotes, rp)[id] == remotes[id]
  {
  }

  /** The ids the records name. */
  function RemoteIds(rps: seq<RemotePresence>): set<int> {
    set k | 0 <= k < |rps| :: rps[k].id
  }

  lemma RemoteIdsAppend(rps: seq<RemotePresence>)
    requires |rps| > 0
    ensures RemoteIds(rps) == RemoteIds(rps[..|rps| - 1]) + {rps[|rps| - 1].id}
  {
    var init := rps[..|rps| - 1];
    forall id | id in RemoteIds(rps)
      ensures id in RemoteIds(init) + {rps[|rps| - 1].id}
    {
      var k :| 0 <= k < |rps| && rps[k].id == id;
      if k < |init| {
        assert init[k].id == id;
      }
    }
    forall id | id in RemoteIds(init)
      ensures id in RemoteIds(rps)
    {
      var k :| 0 <= k < |init| && init[k].id == id;
      assert rps[k].id == id;
    }
  }

  /** One record keeps every remote within the bound, and adds its id to those known. */
  lemma UpdateOneValid(remotes: map<int, RemoteState>, rp: RemotePresence)
    requires forall id :: id in remotes ==> RemoteValid(remotes[id])
    requires EventsAreMaps(rp.events)
    ensures forall id :: id in UpdateOne(remotes, rp) ==> RemoteValid(UpdateOne(remotes, rp)[id])
    ensures UpdateOne(remotes, rp).Keys == remotes.Keys + {rp.id}
  {
    var p := if rp.id in remotes then remotes[rp.id] else FirstSight(rp);
    AppendNewerValid(p.maps, rp.events, p.lastTimestamp);
  }

  /** Every remote stays within the bound, and the remotes known are those known before plus those listed. */
  lemma {:induction false} UpdateAllValid(remotes: map<int, RemoteState>, rps: seq<RemotePresence>)
    requires forall id :: id in remotes ==> RemoteValid(remotes[id])
    requires forall k :: 0 <= k < |rps| ==> EventsAreMaps(rps[k].events)
    ensures forall id :: id in UpdateAll(remotes, rps) ==> RemoteValid(UpdateAll(remotes, rps)[id])
    ensures UpdateAll(remotes, rps).Keys == remotes.Keys + RemoteIds(rps)
  {
    if |rps| > 0 {
      var init := rps[..|rps| - 1];
      UpdateAllValid(remotes, init);
      UpdateOneValid(UpdateAll(remotes, init), rps[|rps| - 1]);
      RemoteIdsAppend(rps);
    }
  }

  /**
   * The seen-timestamp is not advanced when maps are appended: a record
   * listed again appends its newer events again.
   */
  lemma RepeatedRecordReappends(remotes: map<int, RemoteState>, rp: RemotePresence, e: Event)
    requires rp.id in remotes && rp.events == [e]
    requires e.timestamp > remotes[rp.id].lastTimestamp
    requires |remotes[rp.id].maps| + 2 <= MAX_MAPS
    ensures UpdateOne(UpdateOne(remotes, rp), rp)[rp.id].maps == remotes[rp.id].maps + [e.presenceMap, e.presenceMap]
  {
    var p := remotes[rp.id];
    assert rp.events[..0] == [];
    assert AppendNewer(p.maps, rp.events, p.lastTimestamp) == p.maps + [e.presenceMap];
    var once := UpdateOne(remotes, rp);
    assert once[rp.id] == p.(maps := p.maps + [e.presenceMap]);
    assert AppendNewer(p.maps + [e.presenceMap], rp.events, p.lastTimestamp) == p.maps + [e.presenceMap] + [e.presenceMap];
  }

  /** A map cell, as numpy reads it: negative indexes count from the end. */
  datatype MapIndex = MapIndex(row: int, col: int)

  predicate IndexValid(m: seq<seq<int>>, idx: MapIndex)
    requires IsMap(m)
  {
    -|m| <= idx.row < |m| && -|m[0]| <= idx.col < |m[0]|
  }

  /** The map's value at a valid index, stored as an unsigned byte. */
  function MapValue(m: seq<seq<int>>, idx: MapIndex): (v: int)
    requires IsMap(m) && IndexValid(m, idx)
    ensures 0 <= v < 256
  {
    m[idx.row % |m|][idx.col % |m[0]|] % 256
  }

  /**
   * The blue column of a frame: sampled from the first queued map of remote
   * 2 at the cells `indexesFor` gives for that map's shape; left at 0 when
   * there is no such map or when the sampling raises (an index off the map,
   * or not one index per light).
   */
  function RemoteColumn(remotes: map<int, RemoteState>, indexesFor: (int, int) -> seq<MapIndex>, lights: nat): (col: seq<int>)
    requires forall id :: id in remotes ==> RemoteValid(remotes[id])
    ensures |col| == lights
    ensures forall i :: 0 <= i < lights ==> 0 <= col[i] < 256
  {
    if SHOWN_REMOTE_ID in remotes && |remotes[SHOWN_REMOTE_ID].maps| > 0 then
      assert RemoteValid(remotes[SHOWN_REMOTE_ID]);
      var m := remotes[SHOWN_REMOTE_ID].maps[0];
      var idx := indexesFor(|m|, |m[0]|);
      if |idx| == lights && forall i :: 0 <= i < lights ==> IndexValid(m, idx[i])
      then seq(lights, i requires 0 <= i < lights => MapValue(m, idx[i]))
      else seq(lights, i => 0)
    else seq(lights, i => 0)
  }

  /** The remotes after a frame: remote 2 loses its first queued map, if it has one. */
  function PopShown(remotes: map<int, RemoteState>): map<int, RemoteState> {
    if SHOWN_REMOTE_ID in remotes && |remotes[SHOWN_REMOTE_ID].maps| > 0
    then remotes[SHOWN_REMOTE_ID := remotes[SHOWN_REMOTE_ID].(maps := remotes[SHOWN_REMOTE_ID].maps[1..])]
    else remotes
  }

  /**
   * At most one map is consumed per frame, only from remote 2; without one
   * the blue column is dark. Nothing else about any remote changes.
   */
  lemma TickConsumesOneMap(remotes: map<int, RemoteState>, indexesFor: (int, int) -> seq<MapIndex>, lights: nat)
    requires forall id :: id in remotes ==> RemoteValid(remotes[id])
    ensures PopShown(remotes).Keys == remotes.Keys
    ensures forall id :: id in remotes && id != SHOWN_REMOTE_ID ==> PopShown(remotes)[id] == remotes[id]
    ensures SHOWN_REMOTE_ID in remotes ==>
      PopShown(remotes)[SHOWN_REMOTE_ID].config == remotes[SHOWN_REMOTE_ID].config &&
      PopShown(remotes)[SHOWN_REMOTE_ID].lastTimestamp == remotes[SHOWN_REMOTE_ID].lastTimestamp &&
      |PopShown(remotes)[SHOWN_REMOTE_ID].maps| == Max(0, |remotes[SHOWN_REMOTE_ID].maps| - 1)
    ensures forall id :: id in PopShown(remotes) ==> RemoteValid(PopShown(remotes)[id])
    ensures !(SHOWN_REMOTE_ID in remotes && |remotes[SHOWN_REMOTE_ID].maps| > 0) ==>
      RemoteColumn(remotes, indexesFor, lights) == seq(lights, i => 0)
  {
  }

  /** The presence activity's state: the remotes and the frame, one row of RGBW components per light. */
  class PresenceState {
    const lights: nat
    const localConfig: Json
    const frame: array2<int>
    var remotes: map<int, RemoteState>

    ghost predicate Valid()
      reads this
    {
      frame.Length0 == lights && frame.Length1 == COMPONENT_COUNT &&
      forall id :: id in remotes ==> RemoteValid(remotes[id])
    }

    /** A dark frame with one row per light, and no remote known yet. */
    constructor(lights: nat, localConfig: Json)
      ensures Valid() && fresh(frame)
      ensures this.lights == lights && this.localConfig == localConfig && remotes == map[]
      ensures forall i, k :: 0 <= i < lights && 0 <= k < COMPONENT_COUNT ==> frame[i, k] == 0
    {
      this.lights := lights;
      this.localConfig := localConfig;
      frame := new int[lights, COMPONENT_COUNT]((i, k) => 0);
      remotes := map[];
    }

    /** `update_remote_presences`: the subscription's records, in order. */
    method UpdateRemotePresences(rps: seq<RemotePresence>)
      requires Valid()
      requires forall k :: 0 <= k < |rps| ==> EventsAreMaps(rps[k].events)
      modifies this`remotes
      ensures Valid()
      ensures remotes == UpdateAll(old(remotes), rps)
    {
      var k := 0;
      while k < |rps|
        invariant 0 <= k <= |rps|
        invariant remotes == UpdateAll(old(remotes), rps[..k])
      {
        assert rps[..k + 1][..k] == rps[..k];
        var rp := rps[k];
        if rp.id !in remotes {
          remotes := remotes[rp.id := FirstSight(rp)];
        }
        AppendNewerEvents(rp.id, rp.events);
        k := k + 1;
      }
      assert rps[..k] == rps;
      UpdateAllValid(old(remotes), rps);
    }

    /** The inner loop of `update_remote_presences`: the events of one record appended to its remote's maps. */
    method AppendNewerEvents(id: int, events: seq<Event>)
      requires id in remotes
      modifies this`remotes
      ensures remotes == old(remotes)[id := old(remotes)[id].(maps := AppendNewer(old(remotes)[id].maps, events, old(remotes)[id].lastTimestamp))]
    {
      var p := remotes[id];
      var j := 0;
      while j < |events|
        invariant 0 <= j <= |events|
        invariant remotes == old(remotes)[id := p.(maps := AppendNewer(p.maps, events[..j], p.lastTimestamp))]
      {
        assert events[..j + 1][..j] == events[..j];
        var e := events[j];
        if e.timestamp > p.lastTimestamp {
          remotes := remotes[id := remotes[id].(maps := BoundedAppend(remotes[id].maps, e.presenceMap))];
        }
        j := j + 1;
      }
      assert events[..j] == events;
    }

    /**
     * `tick_frame`: every light gets white level 10, the local presence on
     * red, nothing on green, and on blue the remote column; remote 2's first
     * queued map is consumed.
     */
    method TickFrame(localColumn: seq<int>, indexesFor: (int, int) -> seq<MapIndex>)
      requires Valid()
      requires |localColumn| == lights && forall i :: 0 <= i < lights ==> 0 <= localColumn[i] < 256
      modifies frame, this`remotes
      ensures Valid()
      ensures remotes == PopShown(old(remotes))
      ensures forall i :: 0 <= i < lights ==>
        frame[i, 0] == WHITE_LEVEL && frame[i, 1] == localColumn[i] && frame[i, 2] == 0 &&
        frame[i, 3] == RemoteColumn(old(remotes), indexesFor, lights)[i]
    {
      var blue := RemoteColumn(remotes, indexesFor, lights);
      remotes := PopShown(remotes);
      TickConsumesOneMap(old(remotes), indexesFor, lights);
      var i := 0;
      while i < lights
        invariant 0 <= i <= lights
        invariant Valid() && remotes == PopShown(old(remotes))
        invariant forall j :: 0 <= j < i ==>
          frame[j, 0] == WHITE_LEVEL && frame[j, 1] == localColumn[j] && frame[j, 2] == 0 && frame[j, 3] == blue[j]
      {
        frame[i, 0] := WHITE_LEVEL;
        frame[i, 1] := localColumn[i];
        frame[i, 2] := 0;
        frame[i, 3] := blue[i];
        i := i + 1;
      }
    }
  }
}
