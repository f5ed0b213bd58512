/**
 * `lights.setColourMode`, in both versions of the web application
 * (web/imports/api/lightsMethods.js and
 * shooting-stars-meteor/imports/api/lightsMethods.js): after both arguments
 * are checked to be strings and the mode to be a known one, the light with
 * the given id has its `colourMode` field set.
 *
 * The lights collection is a map from each light's `_id` to its fields.
 * The earlier application's list of modes is a parameter: its definition
 * (shooting-stars-meteor/imports/db/LightsCollection.js) is not part of
 * this model.
 */
module LightsMethods {
  import opened Wrappers
  import opened Ejson

  const COLOUR_MODES: seq<string> := ["white", "colour", "rainbow", "gradual"]
  const INVALID_COLOUR_MODE := "invalid-colour-mode"

  type Light = map<string, Json>

  /** The `$set` of `colourMode` on the light with the given id; an update that selects no light changes nothing. */
  function SetField(store: map<string, Light>, lightId: string, colourMode: string): map<string, Light> {
    if lightId in store then store[lightId := store[lightId]["colourMode" := JStr(colourMode)]] else store
  }

  /** `lights.setColourMode` with the list of known modes: the collection after the update, or why the call fails. */
  function SetColourModeIn(modes: seq<string>, store: map<string, Light>, lightId: Json, colourMode: Json): Result<map<string, Light>, MethodError> {
    if !IsString(lightId) || !IsString(colourMode) then Err(MatchFailed)
    else if colourMode.s !in modes then Err(MeteorError(INVALID_COLOUR_MODE))
    else Ok(SetField(store, lightId.s, colourMode.s))
  }

  /** The current application's method, whose modes are white, colour, rainbow and gradual. */
  function SetColourMode(store: map<string, Light>, lightId: Json, colourMode: Json): Result<map<string, Light>, MethodError> {
    SetColourModeIn(COLOUR_MODES, store, lightId, colourMode)
  }

  /** The call succeeds exactly when both arguments are strings and the mode is known; otherwise the matching error, and nothing is written. */
  lemma SetColourModeAcceptsIff(modes: seq<string>, store: map<string, Light>, lightId: Json, colourMode: Json)
    ensures SetColourModeIn(modes, store, lightId, colourMode).Ok? <==>
      IsString(lightId) && IsString(colourMode) && colourMode.s in modes
    ensures !IsString(lightId) || !IsString(colourMode) ==> SetColourModeIn(modes, store, lightId, colourMode) == Err(MatchFailed)
    ensures IsString(lightId) && IsString(colourMode) && colourMode.s !in modes ==>
      SetColourModeIn(modes, store, lightId, colourMode) == Err(MeteorError(INVALID_COLOUR_MODE))
  {
  }

  /** In the current application exactly the four modes are accepted. */
  lemma CurrentModes(store: map<string, Light>, lightId: Json, colourMode: Json)
    requires IsString(lightId) && IsString(colourMode)
    ensures SetColourMode(store, lightId, colourMode).Ok? <==>
      colourMode.s == "white" || colourMode.s == "colour" || colourMode.s == "rainbow" || colourMode.s == "gradual"
  {
  }

  /**
   * A successful call sets the addressed light's `colourMode` and no other
   * field of it; every other light, and a missing one, is left as it was.
   */
  lemma SetColourModeOnlyThatField(modes: seq<string>, store: map<string, Light>, lightId: Json, colourMode: Json)
    requires SetColourModeIn(modes, store, lightId, colourMode).Ok?
    ensures var r := SetColourModeIn(modes, store, lightId, colourMode).value;
      r.Keys == store.Keys &&
      (forall id :: id in store && id != lightId.s ==> r[id] == store[id]) &&
      (lightId.s in store ==>
        r[lightId.s].Keys == store[lightId.s].Keys + {"colourMode"} &&
        r[lightId.s]["colourMode"] == colourMode &&
        forall f :: f in store[lightId.s] && f != "colourMode" ==> r[lightId.s][f] == store[lightId.s][f])
  {
  }

  /** Setting the same mode twice is the same as setting it once. */
  lemma SetColourModeIdempotent(modes: seq<string>, store: map<string, Light>, lightId: Json, colourMode: Json)
    requires SetColourModeIn(modes, store, lightId, colourMode).Ok?
    ensures SetColourModeIn(modes, SetColourModeIn(modes, store, lightId, colourMode).value, lightId, colourMode) ==
      SetColourModeIn(modes, store, lightId, colourMode)
  {
    var once := SetField(store, lightId.s, colourMode.s);
    if lightId.s in store {
      var light := store[lightId.s]["colourMode" := colourMode];
      assert light["colourMode" := colourMode] == light;
      assert once[lightId.s := light] == once;
    }
  }

  /** Every light whose mode is set holds a known mode. */
  predicate KnownModes(modes: seq<string>, store: map<string, Light>) {
    forall id :: id in store && "colourMode" in store[id] ==> store[id]["colourMode"].JStr? && store[id]["colourMode"].s in modes
  }

  /** Calls keep every light's mode among the known ones. */
  lemma SetColourModeKeepsKnown(modes: seq<string>, store: map<string, Light>, lightId: Json, colourMode: Json)
    requires KnownModes(modes, store)
    ensures var r := SetColourModeIn(modes, store, lightId, colourMode);
      r.Ok? ==> KnownModes(modes, r.value)
  {
  }
}
