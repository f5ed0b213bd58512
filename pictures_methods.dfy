/**
 * The server side of the story activity (web/imports/api/picturesMethods.js):
 * `pictures.setPicture` replaces the single record that names the picture
 * currently shown.
 *
 * The pictures collection is a map from each record's `key` to the record;
 * the call time is a parameter.
 */
module PicturesMethods {
  import opened Wrappers
  import opened Ejson

  const PICTURE_KEYS: seq<string> := ["mary", "joseph", "angel", "shepherd", "wisemen", "jesus", "star"]
  const INVALID_PICTURE := "invalid-picture"
  const PICTURE_RECORD_KEY := "picture"

  /** The record `{timestamp, pictureKey, key}` that the upsert writes. */
  datatype PictureRecord = PictureRecord(timestamp: int, pictureKey: string, key: string)

  /** `pictures.setPicture`: the collection after the upsert, or why the call fails. */
  function SetPicture(store: map<string, PictureRecord>, pictureKey: Json, now: int): Result<map<string, PictureRecord>, MethodError> {
    if !IsString(pictureKey) then Err(MatchFailed)
    else if pictureKey.s !in PICTURE_KEYS then Err(MeteorError(INVALID_PICTURE))
    else Ok(store[PICTURE_RECORD_KEY := PictureRecord(now, pictureKey.s, PICTURE_RECORD_KEY)])
  }

  /** The call succeeds exactly for one of the seven picture names; otherwise the matching error, and nothing is written. */
  lemma SetPictureAcceptsIff(store: map<string, PictureRecord>, pictureKey: Json, now: int)
    ensures SetPicture(store, pictureKey, now).Ok? <==> IsString(pictureKey) && pictureKey.s in PICTURE_KEYS
    ensures !IsString(pictureKey) ==> SetPicture(store, pictureKey, now) == Err(MatchFailed)
    ensures IsString(pictureKey) && pictureKey.s !in PICTURE_KEYS ==> SetPicture(store, pictureKey, now) == Err(MeteorError(INVALID_PICTURE))
  {
  }

  /**
   * After a successful call the `picture` record names the argument, carries
   * the call time and the key `picture`; no other record changes.
   */
  lemma SetPictureStores(store: map<string, PictureRecord>, pictureKey: Json, now: int)
    requires SetPicture(store, pictureKey, now).Ok?
    ensures var r := SetPicture(store, pictureKey, now).value;
      r.Keys == store.Keys + {PICTURE_RECORD_KEY} &&
      r[PICTURE_RECORD_KEY].pictureKey == pictureKey.s &&
      r[PICTURE_RECORD_KEY].timestamp == now &&
      r[PICTURE_RECORD_KEY].key == PICTURE_RECORD_KEY &&
      forall k :: k in store && k != PICTURE_RECORD_KEY ==> r[k] == store[k]
  {
  }

  /** Every record is filed under its own key and the picture record names one of the pictures. */
  predicate ValidPictures(store: map<string, PictureRecord>) {
    (forall k :: k in store ==> store[k].key == k) &&
    (PICTURE_RECORD_KEY in store ==> store[PICTURE_RECORD_KEY].pictureKey in PICTURE_KEYS)
  }

  /** Every call, accepted or refused, keeps the collection valid: only the seven names are ever shown. */
  lemma SetPictureKeepsValid(store: map<string, PictureRecord>, pictureKey: Json, now: int)
    requires ValidPictures(store)
    ensures var r := SetPicture(store, pictureKey, now);
      r.Ok? ==> ValidPictures(r.value)
  {
  }

  /** The upsert replaces the record: the previous picture leaves no trace, so the last call decides. */
  lemma SetPictureLastWins(store: map<string, PictureRecord>, first: Json, second: Json, t1: int, t2: int)
    requires SetPicture(store, first, t1).Ok? && SetPicture(store, second, t2).Ok?
    ensures SetPicture(SetPicture(store, first, t1).value, second, t2) == SetPicture(store, second, t2)
  {
    var once := SetPicture(store, first, t1).value;
    var record := PictureRecord(t2, second.s, PICTURE_RECORD_KEY);
    assert once[PICTURE_RECORD_KEY := record] == store[PICTURE_RECORD_KEY := record];
  }
}
