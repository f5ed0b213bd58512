/**
 * The server side of the presence activity (web/imports/api/presenceMethods.js):
 * `presence.getConfig` hands a controller its configuration, and
 * `presence.sendPresence` validates a presence map and appends it, with the
 * call time, to the controller's bounded list of events.
 *
 * The settings' token-to-configuration table and the presence collection are
 * parameters; the call time is a parameter too.
 */
module PresenceMethods {
  import opened Wrappers
  import opened Ejson
  import opened JsArray

  const MAX_PRESENCE_SIZE: nat := 50
  const MAX_PRESENCE_VALUE: int := 255
  /** Old events kept before the new one is appended. */
  const KEPT_EVENTS: nat := 10

  const INVALID_TOKEN := "Invalid controller token"
  const NO_ROWS := "presenceMap must have at least one row"
  const TOO_MANY_ROWS := "presenceMap must have at most 50 rows"
  const NO_COLUMNS := "presenceMap must have at least one column"
  const TOO_MANY_COLUMNS := "presenceMap must have at most 50 columns"
  const RAGGED_ROWS := "presenceMap rows must be the same length"
  const VALUE_OUT_OF_RANGE := "presenceMap values must be between 0 and 255"

  datatype PresenceEvent = PresenceEvent(presenceMap: seq<seq<int>>, timestamp: int)

  /** A controller's document, selected by the `id` of its configuration. */
  datatype PresenceRecord = PresenceRecord(id: Json, config: Json, events: seq<PresenceEvent>)

  function EventTime(e: PresenceEvent): int {
    e.timestamp
  }

  /** `presence.getConfig`: the configuration for a known token. */
  function GetConfig(tokensToConfig: map<string, Json>, token: Json): (r: Result<Json, MethodError>)
    ensures !IsString(token) ==> r == Err(MatchFailed)
    ensures IsString(token) && token.s !in tokensToConfig ==> r == Err(MeteorError(INVALID_TOKEN))
    ensures IsString(token) && token.s in tokensToConfig ==> r == Ok(tokensToConfig[token.s])
  {
    if !IsString(token) then Err(MatchFailed)
    else if token.s !in tokensToConfig then Err(MeteorError(INVALID_TOKEN))
    else Ok(tokensToConfig[token.s])
  }

  /** What a valid presence map is: 1 to 50 rows of the same length of 1 to 50 values, each a byte. */
  predicate ValidPresenceMap(g: seq<seq<int>>) {
    1 <= |g| <= MAX_PRESENCE_SIZE &&
    1 <= |g[0]| <= MAX_PRESENCE_SIZE &&
    (forall i :: 0 <= i < |g| ==> |g[i]| == |g[0]|) &&
    (forall i, j :: 0 <= i < |g| && 0 <= j < |g[i]| ==> 0 <= g[i][j] <= MAX_PRESENCE_VALUE)
  }

  /** The first complaint of the validation, in the order the checks are made. */
  function MapError(g: seq<seq<int>>): Option<string> {
    if |g| == 0 then Some(NO_ROWS)
    else if |g| > MAX_PRESENCE_SIZE then Some(TOO_MANY_ROWS)
    else if |g[0]| == 0 then Some(NO_COLUMNS)
    else if |g[0]| > MAX_PRESENCE_SIZE then Some(TOO_MANY_COLUMNS)
    else RowsError(g, |g[0]|, 0)
  }

  /** The `forEach` over the rows from row i: a row's length is checked before its values. */
  function RowsError(g: seq<seq<int>>, innerLength: nat, i: nat): Option<string>
    decreases |g| - i
  {
    if i >= |g| then None
    else if |g[i]| != innerLength then Some(RAGGED_ROWS)
    else if exists j :: 0 <= j < |g[i]| && (g[i][j] < 0 || g[i][j] > MAX_PRESENCE_VALUE) then Some(VALUE_OUT_OF_RANGE)
    else RowsError(g, innerLength, i + 1)
  }

  lemma {:induction false} RowsErrorNoneIff(g: seq<seq<int>>, innerLength: nat, i: nat)
    ensures RowsError(g, innerLength, i) == None <==>
      forall k :: i <= k < |g| ==> |g[k]| == innerLength && forall j :: 0 <= j < |g[k]| ==> 0 <= g[k][j] <= MAX_PRESENCE_VALUE
    decreases |g| - i
  {
    if i < |g| {
      RowsErrorNoneIff(g, innerLength, i + 1);
    }
  }

  /** The validation accepts exactly the valid presence maps. */
  lemma MapErrorNoneIff(g: seq<seq<int>>)
    ensures MapError(g) == None <==> ValidPresenceMap(g)
  {
    if |g| > 0 {
      RowsErrorNoneIff(g, |g[0]|, 0);
    }
  }

  /** The previous events in time order, of which the last KEPT_EVENTS are kept. */
  function KeptEvents(previous: seq<PresenceEvent>): seq<PresenceEvent> {
    LastN(SortBy(previous, EventTime), KEPT_EVENTS)
  }

  /**
   * `presence.sendPresence`. The arguments are checked against their
   * patterns, then the token, then the map; a valid map is appended, with
   * the call time, to the kept events of the record of the configuration's
   * `id`, whose configuration is overwritten.
   */
  function SendPresence(tokensToConfig: map<string, Json>, store: map<Json, PresenceRecord>, token: Json, presenceMap: Json, now: int)
    : Result<map<Json, PresenceRecord>, MethodError>
  {
    if !IsString(token) || !IsIntegerGrid(presenceMap) then Err(MatchFailed)
    else if token.s !in tokensToConfig then Err(MeteorError(INVALID_TOKEN))
    else
      var g := IntegerGrid(presenceMap);
      var error := MapError(g);
      if error.Some? then Err(MeteorError(error.value))
      else
        var config := tokensToConfig[token.s];
        var id := Get(config, "id");
        var previous := if id in store then store[id].events else [];
        Ok(store[id := PresenceRecord(id, config, KeptEvents(previous) + [PresenceEvent(g, now)])])
  }

  /** A call is accepted exactly when both arguments match, the token is known and the map is valid. */
  lemma SendPresenceAcceptsIff(tokensToConfig: map<string, Json>, store: map<Json, PresenceRecord>, token: Json, presenceMap: Json, now: int)
    ensures SendPresence(tokensToConfig, store, token, presenceMap, now).Ok? <==>
      IsString(token) && IsIntegerGrid(presenceMap) && token.s in tokensToConfig && ValidPresenceMap(IntegerGrid(presenceMap))
  {
    if IsIntegerGrid(presenceMap) {
      MapErrorNoneIff(IntegerGrid(presenceMap));
    }
  }

  /** An unknown token is refused before the map is looked at. */
  lemma UnknownTokenRejected(tokensToConfig: map<string, Json>, store: map<Json, PresenceRecord>, token: Json, presenceMap: Json, now: int)
    requires IsString(token) && IsIntegerGrid(presenceMap) && token.s !in tokensToConfig
    ensures SendPresence(tokensToConfig, store, token, presenceMap, now) == Err(MeteorError(INVALID_TOKEN))
  {
  }

  /**
   * The kept events are at most KEPT_EVENTS of the previous ones, in time
   * order, and none of those dropped is later than one kept.
   */
  lemma KeptEventsAreLatest(previous: seq<PresenceEvent>)
    ensures var kept := KeptEvents(previous);
      |kept| == Min(|previous|, KEPT_EVENTS) &&
      SortedBy(kept, EventTime) &&
      multiset(kept) <= multiset(previous) &&
      forall e, f :: e in kept && f in multiset(previous) - multiset(kept) ==> f.timestamp <= e.timestamp
  {
    LastNOfSorted(previous, EventTime, KEPT_EVENTS);
  }

  /** Events already in time order are kept as they are: the last KEPT_EVENTS of them. */
  lemma KeptEventsOfSorted(previous: seq<PresenceEvent>)
    requires SortedBy(previous, EventTime)
    ensures KeptEvents(previous) == LastN(previous, KEPT_EVENTS)
  {
    SortBySorted(previous, EventTime);
  }

  /**
   * An accepted map is stored last, after the kept previous events, in the
   * record of the configuration's id, which carries the current
   * configuration; no other record changes.
   */
  lemma SendPresenceStores(tokensToConfig: map<string, Json>, store: map<Json, PresenceRecord>, token: Json, presenceMap: Json, now: int)
    requires SendPresence(tokensToConfig, store, token, presenceMap, now).Ok?
    ensures var config := tokensToConfig[token.s];
      var id := Get(config, "id");
      var previous := if id in store then store[id].events else [];
      var r := SendPresence(tokensToConfig, store, token, presenceMap, now).value;
      r.Keys == store.Keys + {id} &&
      (forall k :: k in store && k != id ==> r[k] == store[k]) &&
      r[id] == PresenceRecord(id, config, KeptEvents(previous) + [PresenceEvent(IntegerGrid(presenceMap), now)])
  {
  }

  /** A record whose events are in time order stays so when the new event is not earlier than any of them. */
  lemma StoredEventsStaySorted(previous: seq<PresenceEvent>, e: PresenceEvent)
    requires SortedBy(previous, EventTime)
    requires forall f :: f in previous ==> f.timestamp <= e.timestamp
    ensures SortedBy(KeptEvents(previous) + [e], EventTime)
  {
    KeptEventsOfSorted(previous);
    forall i | 0 <= i < |previous|
      ensures EventTime(previous[i]) <= EventTime(e)
    {
      assert previous[i] in previous;
    }
    LastNSortedAppend(previous, EventTime, KEPT_EVENTS, e);
  }
}
