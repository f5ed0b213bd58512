/**
 * The server side of the blocks activity (web/imports/api/blocksMethods.js):
 * `blocks.sendInput` records a player's button press, stamped with the call
 * time, after the presses of the last five seconds, and `blocks.updateState`
 * stores the game state that the controller reports, with the high score.
 *
 * Each collection holds one record under a fixed key; the record found
 * before the call is a parameter, the record written is the result. The
 * call time and the controller token of the settings are parameters.
 */
module BlocksMethods {
  import opened Wrappers
  import opened Ejson
  import opened JsArray
  import BlocksLoop

  const INPUTS: seq<string> := ["left", "right", "rotate", "drop"]
  /** How long, in milliseconds, a press stays in the record. */
  const INPUT_LIFETIME: int := 5000
  const INVALID_INPUT := "invalid-input"
  const INVALID_TOKEN := "Invalid controller token"
  const GAME_STATE_KEY := "game-state"

  /** An entry `{type, timestamp}` of the inputs record. */
  datatype BlocksInput = BlocksInput(inputType: string, timestamp: int)

  function InputTime(i: BlocksInput): int {
    i.timestamp
  }

  /** The filter's test: a press is kept when it is at most INPUT_LIFETIME milliseconds old. */
  function Recent(now: int): BlocksInput -> bool {
    (i: BlocksInput) => i.timestamp >= now - INPUT_LIFETIME
  }

  /** The presses of the previous record that are not older than INPUT_LIFETIME; none without a record. */
  function KeptInputs(previous: Option<seq<BlocksInput>>, now: int): seq<BlocksInput> {
    if previous.Some? then Filter(previous.value, Recent(now)) else []
  }

  /** `blocks.sendInput`: the inputs stored by the upsert, or why the call fails. */
  function SendInput(previous: Option<seq<BlocksInput>>, inputType: Json, now: int): Result<seq<BlocksInput>, MethodError> {
    if !IsString(inputType) then Err(MatchFailed)
    else if inputType.s !in INPUTS then Err(MeteorError(INVALID_INPUT))
    else Ok(KeptInputs(previous, now) + [BlocksInput(inputType.s, now)])
  }

  /** A press is stored exactly when it is one of the four inputs; anything else is refused with the matching error. */
  lemma SendInputAcceptsIff(previous: Option<seq<BlocksInput>>, inputType: Json, now: int)
    ensures SendInput(previous, inputType, now).Ok? <==> IsString(inputType) && inputType.s in INPUTS
    ensures !IsString(inputType) ==> SendInput(previous, inputType, now) == Err(MatchFailed)
    ensures IsString(inputType) && inputType.s !in INPUTS ==> SendInput(previous, inputType, now) == Err(MeteorError(INVALID_INPUT))
  {
  }

  /**
   * The stored inputs end with the new press at the call time; before it
   * come exactly the previous presses of the last INPUT_LIFETIME
   * milliseconds, in their order.
   */
  lemma SendInputKeepsRecent(previous: Option<seq<BlocksInput>>, inputType: Json, now: int)
    requires SendInput(previous, inputType, now).Ok?
    ensures var r := SendInput(previous, inputType, now).value;
      |r| >= 1 && r[|r| - 1] == BlocksInput(inputType.s, now) &&
      (forall i :: 0 <= i < |r| - 1 ==> previous.Some? && r[i] in previous.value && r[i].timestamp >= now - INPUT_LIFETIME) &&
      (forall i :: previous.Some? && 0 <= i < |previous.value| && previous.value[i].timestamp >= now - INPUT_LIFETIME ==>
        previous.value[i] in r[..|r| - 1])
    ensures var r := SendInput(previous, inputType, now).value;
      previous.None? ==> r == [BlocksInput(inputType.s, now)]
    ensures var r := SendInput(previous, inputType, now).value;
      previous.Some? ==> r[..|r| - 1] == Filter(previous.value, Recent(now))
    ensures var r := SendInput(previous, inputType, now).value;
      previous.Some? && |previous.value| > 0 ==>
        var last := previous.value[|previous.value| - 1];
        r[..|r| - 1] == KeptInputs(Some(previous.value[..|previous.value| - 1]), now) +
          (if last.timestamp >= now - INPUT_LIFETIME then [last] else [])
  {
    if previous.Some? && |previous.value| > 0 {
      var p := previous.value;
      assert p == p[..|p| - 1] + [p[|p| - 1]];
      FilterAppend(p[..|p| - 1], p[|p| - 1], Recent(now));
    }
  }

  /**
   * When no stored press is later than the call, every press of the new
   * record lies in the last INPUT_LIFETIME milliseconds, and a record in
   * time order stays in time order.
   */
  lemma SendInputStaysRecentAndSorted(previous: Option<seq<BlocksInput>>, inputType: Json, now: int)
    requires SendInput(previous, inputType, now).Ok?
    requires previous.Some? ==> SortedBy(previous.value, InputTime) && forall i :: 0 <= i < |previous.value| ==> previous.value[i].timestamp <= now
    ensures var r := SendInput(previous, inputType, now).value;
      SortedBy(r, InputTime) &&
      forall i :: 0 <= i < |r| ==> now - INPUT_LIFETIME <= r[i].timestamp <= now
  {
    var kept := KeptInputs(previous, now);
    var r := SendInput(previous, inputType, now).value;
    if previous.Some? {
      FilterSorted(previous.value, InputTime, Recent(now));
      forall i | 0 <= i < |kept|
        ensures kept[i].timestamp <= now
      {
        var j := IndexOf(previous.value, kept[i]);
      }
    }
    assert forall i :: 0 <= i < |kept| ==> r[i] == kept[i];
  }

  /** `x || 0` applied to a stored high score: a number is itself, an absent one reads as 0. */
  function StoredHighScore(previous: Option<Json>): real {
    if previous.Some? && Get(previous.value, "highScore").JNum? then Get(previous.value, "highScore").n else 0.0
  }

  function RealMax(a: real, b: real): real {
    if a < b then b else a
  }

  /** The state pattern as written: `{score: Number, playfield: [[Match.Integer]]}`. */
  predicate IsStateArg(v: Json) {
    HasExactKeys(v, {"score", "playfield"}) && IsNumber(Get(v, "score")) && IsIntegerGrid(Get(v, "playfield"))
  }

  /** The state with its high score and its key: the record the upsert writes. */
  function StateRecord(previous: Option<Json>, state: Json): Json
    requires state.JObj? && IsNumber(Get(state, "score"))
  {
    var highScore := RealMax(StoredHighScore(previous), Get(state, "score").n);
    JObj(state.fields["highScore" := JNum(highScore)]["key" := JStr(GAME_STATE_KEY)])
  }

  /** `blocks.updateState` as written: the record stored, or why the call fails. */
  function UpdateState(previous: Option<Json>, controllerToken: string, token: Json, state: Json): Result<Json, MethodError> {
    if !IsString(token) || !IsStateArg(state) then Err(MatchFailed)
    else if token.s != controllerToken then Err(MeteorError(INVALID_TOKEN))
    else Ok(StateRecord(previous, state))
  }

  /** A state is stored exactly when both arguments match their patterns and the token is the controller's. */
  lemma UpdateStateAcceptsIff(previous: Option<Json>, controllerToken: string, token: Json, state: Json)
    ensures UpdateState(previous, controllerToken, token, state).Ok? <==>
      IsString(token) && IsStateArg(state) && token.s == controllerToken
    ensures IsString(token) && IsStateArg(state) && token.s != controllerToken ==>
      UpdateState(previous, controllerToken, token, state) == Err(MeteorError(INVALID_TOKEN))
  {
  }

  /**
   * The stored record carries the reported score and playfield, the key
   * `game-state`, and a high score that is the larger of the stored one
   * and the new score: it never falls, and it is never below the score.
   */
  lemma UpdateStateStores(previous: Option<Json>, controllerToken: string, token: Json, state: Json)
    requires UpdateState(previous, controllerToken, token, state).Ok?
    ensures var r := UpdateState(previous, controllerToken, token, state).value;
      HasExactKeys(r, {"score", "playfield", "highScore", "key"}) &&
      Get(r, "score") == Get(state, "score") && Get(r, "playfield") == Get(state, "playfield") &&
      Get(r, "key") == JStr(GAME_STATE_KEY) &&
      IsNumber(Get(r, "highScore")) &&
      Get(r, "highScore").n >= StoredHighScore(previous) &&
      Get(r, "highScore").n >= Get(state, "score").n &&
      (Get(r, "highScore").n == StoredHighScore(previous) || Get(r, "highScore").n == Get(state, "score").n)
  {
  }

  /** Storing one state after another, the high score is at least each of the two scores. */
  lemma HighScoreKeepsBest(previous: Option<Json>, controllerToken: string, token: Json, first: Json, second: Json)
    requires UpdateState(previous, controllerToken, token, first).Ok?
    requires UpdateState(Some(UpdateState(previous, controllerToken, token, first).value), controllerToken, token, second).Ok?
    ensures var r := UpdateState(Some(UpdateState(previous, controllerToken, token, first).value), controllerToken, token, second).value;
      StoredHighScore(Some(r)) >= Get(first, "score").n &&
      StoredHighScore(Some(r)) >= Get(second, "score").n &&
      StoredHighScore(Some(r)) >= StoredHighScore(previous)
  {
    UpdateStateStores(previous, controllerToken, token, first);
    var once := UpdateState(previous, controllerToken, token, first).value;
    UpdateStateStores(Some(once), controllerToken, token, second);
  }

  /**
   * As written, the pattern refuses every state the controller's game loop
   * sends: that argument also carries `aiMode`, a key the exact-key object
   * pattern does not list, so every report fails with a match error.
   */
  lemma UpdateStateRejectsLoopPayload(previous: Option<Json>, controllerToken: string, token: Json,
                                      score: int, playfield: seq<seq<int>>, aiMode: bool)
    ensures UpdateState(previous, controllerToken, token, BlocksLoop.StatePayload(score, playfield, aiMode)) == Err(MatchFailed)
  {
    var v := BlocksLoop.StatePayload(score, playfield, aiMode);
    assert "aiMode" in v.fields.Keys;
  }

  /** The state pattern with the mode the controller reports and the publication sends out: `aiMode: Boolean` added. */
  predicate IsStateArgIntended(v: Json) {
    HasExactKeys(v, {"score", "playfield", "aiMode"}) && IsNumber(Get(v, "score")) &&
    IsIntegerGrid(Get(v, "playfield")) && Get(v, "aiMode").JBool?
  }

  /** `blocks.updateState` with the pattern the controller's reports match. */
  function UpdateStateIntended(previous: Option<Json>, controllerToken: string, token: Json, state: Json): Result<Json, MethodError> {
    if !IsString(token) || !IsStateArgIntended(state) then Err(MatchFailed)
    else if token.s != controllerToken then Err(MeteorError(INVALID_TOKEN))
    else Ok(StateRecord(previous, state))
  }

  /** The encoding of a 32-bit integer matrix matches `[[Match.Integer]]` and denotes that matrix. */
  lemma GridJsonIsIntegerGrid(g: seq<seq<int>>)
    requires forall i, j :: 0 <= i < |g| && 0 <= j < |g[i]| ==> INT32_MIN <= g[i][j] <= INT32_MAX
    ensures IsIntegerGrid(GridJson(g))
    ensures IntegerGrid(GridJson(g)) == g
  {
    var v := GridJson(g);
    forall i | 0 <= i < |v.items|
      ensures IsIntegerRow(v.items[i])
    {
      forall j | 0 <= j < |v.items[i].items|
        ensures IsInteger(v.items[i].items[j])
      {
        assert v.items[i].items[j] == JNum(g[i][j] as real);
      }
    }
    var h := IntegerGrid(v);
    forall i | 0 <= i < |g|
      ensures h[i] == g[i]
    {
      forall j | 0 <= j < |g[i]|
        ensures h[i][j] == g[i][j]
      {
        assert h[i][j] as real == g[i][j] as real;
      }
    }
  }

  /**
   * With the corrected pattern every report of the game loop whose
   * playfield holds 32-bit values is stored, with the controller's token,
   * carrying its score, playfield and mode.
   */
  lemma LoopPayloadStored(previous: Option<Json>, controllerToken: string,
                          score: int, playfield: seq<seq<int>>, aiMode: bool)
    requires forall i, j :: 0 <= i < |playfield| && 0 <= j < |playfield[i]| ==> INT32_MIN <= playfield[i][j] <= INT32_MAX
    ensures var r := UpdateStateIntended(previous, controllerToken, JStr(controllerToken), BlocksLoop.StatePayload(score, playfield, aiMode));
      r.Ok? &&
      Get(r.value, "score") == JNum(score as real) && Get(r.value, "playfield") == GridJson(playfield) &&
      Get(r.value, "aiMode") == JBool(aiMode) && Get(r.value, "key") == JStr(GAME_STATE_KEY) &&
      IsNumber(Get(r.value, "highScore")) && Get(r.value, "highScore").n >= score as real
  {
    GridJsonIsIntegerGrid(playfield);
  }
}
