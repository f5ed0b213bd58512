/**
 * The server side of the paint activity (web/imports/api/paintMethods.js):
 * `paint.sendMovement` appends a painter's movement, stamped with the call
 * time, to the single paint record, keeps the last movements of every
 * painter, and evicts painters beyond the tenth.
 *
 * Which painters are evicted depends on the order of the keys of the
 * `painterMovements` object, so the record carries the part of that order
 * that is not fixed by the keys themselves.
 */
module PaintMethods {
  import opened Wrappers
  import opened Ejson
  import opened JsArray

  const KEPT_MOVEMENTS: nat := 10
  const KEPT_PAINTERS: nat := 10

  datatype PaintMovement = PaintMovement(timestamp: int, velocities: Json, colour: Json)

  /**
   * The record's `painterMovements` object: each painter's movements, and
   * the order of its keys.
   */
  datatype PaintRecord = PaintRecord(painterMovements: map<int, seq<PaintMovement>>, keyOrder: seq<int>)

  /** The record that processing starts from when none is stored. */
  const EMPTY_RECORD := PaintRecord(map[], [])

  function Elements(s: seq<int>): set<int> {
    set i | 0 <= i < |s| :: s[i]
  }

  /**
   * Key a comes before key b in an object's own keys (section 10.1.11.1 of
   * ECMA-262, OrdinaryOwnPropertyKeys): the array indexes in ascending
   * order, then the other keys in the order they were created. A
   * `Match.Integer` is an array index exactly when it is not negative.
   */
  predicate KeyBefore(a: int, b: int) {
    a != b && (b >= 0 ==> 0 <= a < b)
  }

  predicate KeyOrdered(keys: seq<int>) {
    forall i, j :: 0 <= i < j < |keys| ==> KeyBefore(keys[i], keys[j])
  }

  /** The key order lists exactly the painters, once each, as an object orders them. */
  predicate ValidRecord(r: PaintRecord) {
    KeyOrdered(r.keyOrder) &&
    (forall k :: k in r.keyOrder ==> k in r.painterMovements) &&
    (forall k :: k in r.painterMovements ==> k in r.keyOrder)
  }

  /** The `{x: Number, y: Number, z: Number}` pattern. */
  predicate IsVelocity(v: Json) {
    HasExactKeys(v, {"x", "y", "z"}) && IsNumber(Get(v, "x")) && IsNumber(Get(v, "y")) && IsNumber(Get(v, "z"))
  }

  /** The pattern of the method's argument. */
  predicate IsMovementArg(m: Json) {
    HasExactKeys(m, {"painterId", "colour", "velocities"}) &&
    IsInteger(Get(m, "painterId")) &&
    HasExactKeys(Get(m, "colour"), {"hue", "saturation"}) &&
    IsNumber(Get(Get(m, "colour"), "hue")) && IsNumber(Get(Get(m, "colour"), "saturation")) &&
    Get(m, "velocities").JArr? &&
    forall i :: 0 <= i < |Get(m, "velocities").items| ==> IsVelocity(Get(m, "velocities").items[i])
  }

  function PainterId(m: Json): int
    requires IsMovementArg(m)
  {
    AsInt(Get(m, "painterId"))
  }

  function NewMovement(m: Json, now: int): PaintMovement {
    PaintMovement(now, Get(m, "velocities"), Get(m, "colour"))
  }

  /** A new array index goes before the first key that is not an array index or is larger. */
  function InsertIndexKey(keys: seq<int>, id: nat): (r: seq<int>)
    requires KeyOrdered(keys) && id !in keys
    ensures KeyOrdered(r)
    ensures |r| == |keys| + 1
    ensures forall k :: k in r <==> k in keys || k == id
  {
    if |keys| == 0 || keys[0] < 0 || keys[0] > id then
      assert forall j :: 0 <= j < |keys| ==> KeyBefore(id, keys[j]) by {
        forall j | 0 <= j < |keys|
          ensures KeyBefore(id, keys[j])
        {
          assert keys[j] != id;
          if j > 0 {
            assert KeyBefore(keys[0], keys[j]);
          }
        }
      }
      [id] + keys
    else
      var rest := InsertIndexKey(keys[1..], id);
      var r := [keys[0]] + rest;
      assert forall j :: 0 <= j < |rest| ==> KeyBefore(keys[0], rest[j]) by {
        forall j | 0 <= j < |rest|
          ensures KeyBefore(keys[0], rest[j])
        {
          if rest[j] != id {
            var i := IndexOf(keys[1..], rest[j]);
            assert KeyBefore(keys[0], keys[i + 1]);
          }
        }
      }
      assert forall j :: 0 < j < |r| ==> r[j] == rest[j - 1];
      r
  }

  /** The movement pushed onto the painter's list, which is created when missing, with a new key. */
  function AddMovement(r: PaintRecord, id: int, mv: PaintMovement): PaintRecord
    requires ValidRecord(r)
  {
    var previous := if id in r.painterMovements then r.painterMovements[id] else [];
    PaintRecord(
      r.painterMovements[id := previous + [mv]],
      if id in r.painterMovements then r.keyOrder
      else if id < 0 then r.keyOrder + [id]
      else InsertIndexKey(r.keyOrder, id))
  }

  /** Every painter's list cut to its last KEPT_MOVEMENTS movements. */
  function Truncated(r: PaintRecord): PaintRecord {
    PaintRecord(map k | k in r.painterMovements :: LastN(r.painterMovements[k], KEPT_MOVEMENTS), r.keyOrder)
  }

  /** The record after the new movement is added and the lists are cut, before any eviction. */
  function Prepared(doc: Option<PaintRecord>, movement: Json, now: int): PaintRecord
    requires doc.Some? ==> ValidRecord(doc.value)
    requires IsMovementArg(movement)
  {
    Truncated(AddMovement(doc.GetOr(EMPTY_RECORD), PainterId(movement), NewMovement(movement, now)))
  }

  /** The painters from position KEPT_PAINTERS on, in the order given, are deleted. */
  function Evict(r: PaintRecord, order: seq<int>): PaintRecord {
    Deleted(r, Removed(order))
  }

  /** The record with the given painters deleted, from the lists and from the key order. */
  function Deleted(r: PaintRecord, removed: set<int>): PaintRecord {
    PaintRecord(Without(r.painterMovements, removed), Filter(r.keyOrder, NotIn(removed)))
  }

  /** The painters' lists with the removed painters deleted. */
  function Without(m: map<int, seq<PaintMovement>>, removed: set<int>): map<int, seq<PaintMovement>> {
    map k | k in m && k !in removed :: m[k]
  }

  /** The painters from position KEPT_PAINTERS on: `slice(10)`. */
  function Removed(order: seq<int>): set<int> {
    set j | KEPT_PAINTERS <= j < |order| :: order[j]
  }

  function NotIn(removed: set<int>): int -> bool {
    k => k !in removed
  }

  /**
   * The comparator's key as written: `painterMovements[id][-1]` reads a
   * property named "-1", which an array does not have, so every painter
   * counts as last updated at 0.
   */
  function LastUpdatedAsWritten(id: int): int {
    0
  }

  /**
   * `paint.sendMovement` as written. The stored record, when there is one,
   * is an object: its key order is that of its keys.
   */
  function SendMovement(doc: Option<PaintRecord>, movement: Json, now: int): (r: Result<PaintRecord, MethodError>)
    requires doc.Some? ==> ValidRecord(doc.value)
    ensures r.Err? <==> !IsMovementArg(movement)
    ensures r.Err? ==> r.error == MatchFailed
  {
    if !IsMovementArg(movement) then Err(MatchFailed)
    else
      var t := Prepared(doc, movement, now);
      Ok(Evict(t, SortBy(t.keyOrder, LastUpdatedAsWritten)))
  }

  /** The time of a painter's last movement, 0 without one. */
  function LastUpdated(movements: seq<PaintMovement>): int {
    if |movements| == 0 then 0 else movements[|movements| - 1].timestamp
  }

  /** The comparator the comment above it describes: the most recently updated painters first. */
  function RecentFirst(r: PaintRecord): int -> int {
    k => if k in r.painterMovements then -LastUpdated(r.painterMovements[k]) else 0
  }

  /** `paint.sendMovement` keeping the ten most recently updated painters. */
  function SendMovementIntended(doc: Option<PaintRecord>, movement: Json, now: int): (r: Result<PaintRecord, MethodError>)
    requires doc.Some? ==> ValidRecord(doc.value)
    ensures r.Err? <==> !IsMovementArg(movement)
    ensures r.Err? ==> r.error == MatchFailed
  {
    if !IsMovementArg(movement) then Err(MatchFailed)
    else
      var t := Prepared(doc, movement, now);
      Ok(Evict(t, SortBy(t.keyOrder, RecentFirst(t))))
  }

  /** The record before eviction: the sender's list ends with the new movement, every list is cut, no painter is lost. */
  lemma PreparedFacts(doc: Option<PaintRecord>, movement: Json, now: int)
    requires doc.Some? ==> ValidRecord(doc.value)
    requires IsMovementArg(movement)
    ensures var d := doc.GetOr(EMPTY_RECORD);
      var id := PainterId(movement);
      var t := Prepared(doc, movement, now);
      ValidRecord(t) &&
      t.painterMovements.Keys == d.painterMovements.Keys + {id} &&
      forall k :: k in t.painterMovements ==>
        t.painterMovements[k] == LastN((if k in d.painterMovements then d.painterMovements[k] else []) +
          (if k == id then [NewMovement(movement, now)] else []), KEPT_MOVEMENTS)
  {
  }

  lemma {:induction false} FilterKeyOrdered(s: seq<int>, p: int -> bool)
    requires KeyOrdered(s)
    ensures KeyOrdered(Filter(s, p))
  {
    if |s| > 0 {
      var init, last := s[..|s| - 1], s[|s| - 1];
      FilterKeyOrdered(init, p);
      assert s == init + [last];
      FilterAppend(init, last, p);
      var f := Filter(init, p);
      forall i | 0 <= i < |f|
        ensures KeyBefore(f[i], last)
      {
        var j := IndexOf(init, f[i]);
        assert KeyBefore(s[j], s[|s| - 1]);
      }
    }
  }

  /** The record stays well formed: eviction deletes painters from the key order as from the map. */
  lemma EvictValid(r: PaintRecord, order: seq<int>)
    requires ValidRecord(r)
    ensures ValidRecord(Evict(r, order))
  {
    FilterKeyOrdered(r.keyOrder, NotIn(Removed(order)));
  }

  lemma {:induction false} ElementsBound(s: seq<int>)
    ensures |Elements(s)| <= |s|
  {
    if |s| > 0 {
      ElementsBound(s[..|s| - 1]);
      assert Elements(s) == Elements(s[..|s| - 1]) + {s[|s| - 1]};
    }
  }

  /** Evicting in the key order keeps exactly the first KEPT_PAINTERS keys. */
  lemma EvictKeeps(r: PaintRecord)
    requires ValidRecord(r)
    ensures Evict(r, r.keyOrder).painterMovements.Keys == Elements(FirstN(r.keyOrder, KEPT_PAINTERS))
  {
    var order := r.keyOrder;
    var removed := Removed(order);
    var kept := FirstN(order, KEPT_PAINTERS);
    forall k | k in Elements(kept)
      ensures k !in removed && k in r.painterMovements
    {
      var i := IndexOf(kept, k);
      assert order[i] == k;
    }
    forall k | k in r.painterMovements && k !in removed
      ensures k in Elements(kept)
    {
      var i := IndexOf(order, k);
      assert kept[i] == k;
    }
  }

  /** Whatever the order, a well-formed record keeps at most KEPT_PAINTERS painters. */
  lemma EvictBound(r: PaintRecord, order: seq<int>)
    requires ValidRecord(r)
    requires forall k :: k in r.painterMovements ==> k in order
    ensures |Evict(r, order).painterMovements.Keys| <= KEPT_PAINTERS
  {
    var kept := FirstN(order, KEPT_PAINTERS);
    var keys := Evict(r, order).painterMovements.Keys;
    forall k | k in keys
      ensures k in Elements(kept)
    {
      var j := IndexOf(order, k);
      assert kept[j] == k;
    }
    assert Elements(kept) == keys + (Elements(kept) - keys);
    ElementsBound(kept);
  }

  /** Every surviving painter keeps the last KEPT_MOVEMENTS of its movements, the new one last for its sender. */
  lemma SendMovementRetention(doc: Option<PaintRecord>, movement: Json, now: int)
    requires doc.Some? ==> ValidRecord(doc.value)
    requires IsMovementArg(movement)
    ensures var d := doc.GetOr(EMPTY_RECORD);
      var id := PainterId(movement);
      forall r :: r in {SendMovement(doc, movement, now).value, SendMovementIntended(doc, movement, now).value} ==>
        r.painterMovements.Keys <= d.painterMovements.Keys + {id} &&
        forall k :: k in r.painterMovements ==>
          r.painterMovements[k] == LastN((if k in d.painterMovements then d.painterMovements[k] else []) +
            (if k == id then [NewMovement(movement, now)] else []), KEPT_MOVEMENTS)
  {
    PreparedFacts(doc, movement, now);
  }

  /** Both versions keep a record well formed and at most KEPT_PAINTERS painters in it. */
  lemma SendMovementBounds(doc: Option<PaintRecord>, movement: Json, now: int)
    requires doc.Some? ==> ValidRecord(doc.value)
    requires IsMovementArg(movement)
    ensures ValidRecord(SendMovement(doc, movement, now).value)
    ensures |SendMovement(doc, movement, now).value.painterMovements.Keys| <= KEPT_PAINTERS
    ensures ValidRecord(SendMovementIntended(doc, movement, now).value)
    ensures |SendMovementIntended(doc, movement, now).value.painterMovements.Keys| <= KEPT_PAINTERS
  {
    PreparedFacts(doc, movement, now);
    var t := Prepared(doc, movement, now);
    SortedOrderHasKeys(t, LastUpdatedAsWritten);
    SortedOrderHasKeys(t, RecentFirst(t));
    EvictValid(t, SortBy(t.keyOrder, LastUpdatedAsWritten));
    EvictBound(t, SortBy(t.keyOrder, LastUpdatedAsWritten));
    EvictValid(t, SortBy(t.keyOrder, RecentFirst(t)));
    EvictBound(t, SortBy(t.keyOrder, RecentFirst(t)));
  }

  lemma SortedOrderHasKeys(t: PaintRecord, key: int -> int)
    requires ValidRecord(t)
    ensures forall k :: k in t.painterMovements ==> k in SortBy(t.keyOrder, key)
  {
    forall k | k in t.painterMovements
      ensures k in SortBy(t.keyOrder, key)
    {
      assert k in multiset(t.keyOrder);
      assert k in multiset(SortBy(t.keyOrder, key));
    }
  }

  /**
   * As written the comparator is constant, so the stable sort keeps the key
   * order: the survivors are the first KEPT_PAINTERS keys, the smallest
   * non-negative ids first.
   */
  lemma SendMovementKeepsFirstKeys(doc: Option<PaintRecord>, movement: Json, now: int)
    requires doc.Some? ==> ValidRecord(doc.value)
    requires IsMovementArg(movement)
    ensures var t := Prepared(doc, movement, now);
      SendMovement(doc, movement, now).value.painterMovements.Keys == Elements(FirstN(t.keyOrder, KEPT_PAINTERS))
  {
    PreparedFacts(doc, movement, now);
    var t := Prepared(doc, movement, now);
    SortBySorted(t.keyOrder, LastUpdatedAsWritten);
    EvictKeeps(t);
  }

  /** In the key order, a non-negative key comes after every smaller non-negative key, so KEPT_PAINTERS of those push it out of the first KEPT_PAINTERS. */
  lemma IndexKeyPushedOut(keys: seq<int>, id: int, smaller: set<int>)
    requires KeyOrdered(keys) && id in keys && id >= 0
    requires |smaller| >= KEPT_PAINTERS
    requires forall y :: y in smaller ==> y in keys && 0 <= y < id
    ensures id !in Elements(FirstN(keys, KEPT_PAINTERS))
  {
    var i := IndexOf(keys, id);
    forall y | y in smaller
      ensures y in Elements(keys[..i])
    {
      var j := IndexOf(keys, y);
      assert keys[..i][j] == y;
    }
    var before := Elements(keys[..i]);
    assert before == smaller + (before - smaller);
    ElementsBound(keys[..i]);
    if id in Elements(FirstN(keys, KEPT_PAINTERS)) {
      var j := IndexOf(FirstN(keys, KEPT_PAINTERS), id);
    }
  }

  /**
   * As written, a painter is evicted by its own movement when ten stored
   * painters have smaller non-negative ids, although the comment above the
   * eviction promises to keep the ten most recently updated painters.
   */
  lemma WrittenPainterEvicted(doc: Option<PaintRecord>, movement: Json, now: int, smaller: set<int>)
    requires doc.Some? ==> ValidRecord(doc.value)
    requires IsMovementArg(movement) && PainterId(movement) >= 0
    requires |smaller| >= KEPT_PAINTERS
    requires forall y :: y in smaller ==> y in doc.GetOr(EMPTY_RECORD).painterMovements && 0 <= y < PainterId(movement)
    ensures PainterId(movement) !in SendMovement(doc, movement, now).value.painterMovements
  {
    PreparedFacts(doc, movement, now);
    var t := Prepared(doc, movement, now);
    SendMovementKeepsFirstKeys(doc, movement, now);
    IndexKeyPushedOut(t.keyOrder, PainterId(movement), smaller);
  }

  lemma {:induction false} KeyOrderedCount(s: seq<int>, x: int)
    requires KeyOrdered(s)
    ensures multiset(s)[x] <= 1
  {
    if |s| > 0 {
      var init := s[..|s| - 1];
      KeyOrderedCount(init, x);
      assert s == init + [s[|s| - 1]];
    }
  }

  /** Evicting by a key under which one painter comes strictly first keeps that painter. */
  lemma EvictKeepsFirst(t: PaintRecord, key: int -> int, id: int)
    requires ValidRecord(t) && id in t.painterMovements
    requires forall k :: k in t.painterMovements && k != id ==> key(id) < key(k)
    ensures id in Evict(t, SortBy(t.keyOrder, key)).painterMovements
  {
    var keys := t.keyOrder;
    var p := IndexOf(keys, id);
    forall i | 0 <= i < |keys| && i != p
      ensures key(keys[p]) < key(keys[i])
    {
      assert KeyBefore(keys[Min(i, p)], keys[Max(i, p)]);
    }
    SmallestFirst(keys, key, p);
    var sorted := SortBy(keys, key);
    KeyOrderedCount(keys, id);
    assert sorted == [id] + sorted[1..];
    assert multiset(sorted) == multiset{id} + multiset(sorted[1..]);
    assert id !in sorted[1..];
  }

  /**
   * With the comparator the comment describes, the painter whose movement
   * is the newest of all is never evicted, and its list ends with it.
   */
  lemma WrittenPainterKept(doc: Option<PaintRecord>, movement: Json, now: int)
    requires doc.Some? ==> ValidRecord(doc.value)
    requires IsMovementArg(movement)
    requires 0 < now
    requires forall k, i :: k in doc.GetOr(EMPTY_RECORD).painterMovements && 0 <= i < |doc.GetOr(EMPTY_RECORD).painterMovements[k]| ==>
      doc.GetOr(EMPTY_RECORD).painterMovements[k][i].timestamp < now
    ensures var r := SendMovementIntended(doc, movement, now).value;
      PainterId(movement) in r.painterMovements &&
      LastUpdated(r.painterMovements[PainterId(movement)]) == now
  {
    var d := doc.GetOr(EMPTY_RECORD);
    var id := PainterId(movement);
    PreparedFacts(doc, movement, now);
    var t := Prepared(doc, movement, now);
    var key := RecentFirst(t);
    var mine := (if id in d.painterMovements then d.painterMovements[id] else []) + [NewMovement(movement, now)];
    LastOfLastN(mine, KEPT_MOVEMENTS);
    assert LastUpdated(t.painterMovements[id]) == now;
    forall k | k in t.painterMovements && k != id
      ensures key(id) < key(k)
    {
      var ms := d.painterMovements[k];
      if |ms| > 0 {
        LastOfLastN(ms, KEPT_MOVEMENTS);
      }
      assert LastUpdated(t.painterMovements[k]) < now;
    }
    EvictKeepsFirst(t, key, id);
  }

  /** The last of the last n elements is the last element. */
  lemma LastOfLastN(ms: seq<PaintMovement>, n: nat)
    requires |ms| > 0 && n > 0
    ensures |LastN(ms, n)| > 0 && LastUpdated(LastN(ms, n)) == LastUpdated(ms)
  {
    assert LastN(ms, n)[|LastN(ms, n)| - 1] == ms[|ms| - 1];
  }

  /** Deleting one more key from a filtered key order is filtering with that key removed too. */
  lemma {:induction false} FilterRemoveOne(s: seq<int>, removed: set<int>, x: int)
    ensures Filter(Filter(s, NotIn(removed)), NotIn({x})) == Filter(s, NotIn(removed + {x}))
  {
    if |s| > 0 {
      var init, last := s[..|s| - 1], s[|s| - 1];
      assert s == init + [last];
      FilterRemoveOne(init, removed, x);
      FilterAppend(init, last, NotIn(removed));
      FilterAppend(Filter(init, NotIn(removed)), last, NotIn({x}));
      FilterAppend(init, last, NotIn(removed + {x}));
    }
  }

  lemma ElementsAppend(s: seq<int>, x: int)
    ensures Elements(s + [x]) == Elements(s) + {x}
  {
    assert forall k :: k in Elements(s + [x]) <==> k in s + [x];
  }

  lemma DeletedNone(r: PaintRecord)
    ensures Deleted(r, Elements([])) == r
  {
    assert Elements([]) == {};
    FilterAll(r.keyOrder, NotIn({}));
    assert Without(r.painterMovements, {}) == r.painterMovements;
  }

  /** Adding a movement keeps the record's key order in step with its painters. */
  lemma AddMovementValid(r: PaintRecord, id: int, mv: PaintMovement)
    requires ValidRecord(r)
    ensures ValidRecord(AddMovement(r, id, mv))
  {
  }

  /** What `slice(KEPT_PAINTERS)` leaves of an order: empty when it is no longer. */
  function SliceFromKept(order: seq<int>): (tail: seq<int>)
    ensures Elements(tail) == Removed(order)
  {
    var tail := if |order| <= KEPT_PAINTERS then [] else order[KEPT_PAINTERS..];
    assert forall k :: k in Removed(order) ==> k in Elements(tail) by {
      forall k | k in Removed(order)
        ensures k in Elements(tail)
      {
        var n :| KEPT_PAINTERS <= n < |order| && order[n] == k;
        assert tail[n - KEPT_PAINTERS] == k;
      }
    }
    tail
  }

  /** Deleting one more painter from a record with some painters deleted. */
  lemma DeletedOneMore(r: PaintRecord, s: seq<int>, x: int)
    ensures var d := Deleted(r, Elements(s));
      PaintRecord(d.painterMovements - {x}, Filter(d.keyOrder, NotIn({x}))) == Deleted(r, Elements(s + [x]))
  {
    ElementsAppend(s, x);
    FilterRemoveOne(r.keyOrder, Elements(s), x);
    assert Without(r.painterMovements, Elements(s)) - {x} == Without(r.painterMovements, Elements(s) + {x});
  }

  /** The push of step one: a new painter's empty list and key are created first. */
  method PushMovement(record: PaintRecord, id: int, mv: PaintMovement) returns (movements: map<int, seq<PaintMovement>>, keys: seq<int>)
    requires ValidRecord(record)
    ensures PaintRecord(movements, keys) == AddMovement(record, id, mv)
  {
    movements := record.painterMovements;
    keys := record.keyOrder;
    if id !in movements {
      movements := movements[id := []];
      keys := if id < 0 then keys + [id] else InsertIndexKey(keys, id);
    }
    movements := movements[id := movements[id] + [mv]];
  }

  /** The loop over the record's keys that cuts every list to its last KEPT_MOVEMENTS movements. */
  method TruncateLists(t: PaintRecord) returns (movements: map<int, seq<PaintMovement>>)
    requires ValidRecord(t)
    ensures movements == Truncated(t).painterMovements
  {
    movements := t.painterMovements;
    var painterIds := t.keyOrder;
    var i := 0;
    while i < |painterIds|
      invariant 0 <= i <= |painterIds|
      invariant movements.Keys == t.painterMovements.Keys
      invariant forall k :: k in movements ==>
        movements[k] == if k in painterIds[..i] then LastN(t.painterMovements[k], KEPT_MOVEMENTS) else t.painterMovements[k]
    {
      var k := painterIds[i];
      assert k !in painterIds[..i] by {
        forall n | 0 <= n < i
          ensures painterIds[n] != k
        {
          assert KeyBefore(painterIds[n], painterIds[i]);
        }
      }
      assert painterIds[..i + 1] == painterIds[..i] + [k];
      movements := movements[k := LastN(movements[k], KEPT_MOVEMENTS)];
      i := i + 1;
    }
    assert painterIds[..i] == painterIds;
    forall k | k in movements
      ensures movements[k] == LastN(t.painterMovements[k], KEPT_MOVEMENTS)
    {
      assert k in t.keyOrder;
    }
  }

  /** The loop that deletes, one by one, the painters listed in `toRemove`. */
  method DeletePainters(t: PaintRecord, toRemove: seq<int>) returns (r: PaintRecord)
    ensures r == Deleted(t, Elements(toRemove))
  {
    r := t;
    DeletedNone(t);
    var j := 0;
    while j < |toRemove|
      invariant 0 <= j <= |toRemove|
      invariant r == Deleted(t, Elements(toRemove[..j]))
    {
      var k := toRemove[j];
      DeletedOneMore(t, toRemove[..j], k);
      assert toRemove[..j + 1] == toRemove[..j] + [k];
      r := PaintRecord(r.painterMovements - {k}, Filter(r.keyOrder, NotIn({k})));
      j := j + 1;
    }
    assert toRemove[..j] == toRemove;
  }

  /**
   * `paint.sendMovement` step by step, changing the record in place as the
   * source does: the push onto the painter's list, the truncation of every
   * list in key order, and the deletion of the painters the sort puts from
   * the eleventh place on. It stores what SendMovement describes.
   */
  method SendMovementInPlace(doc: Option<PaintRecord>, movement: Json, now: int) returns (r: Result<PaintRecord, MethodError>)
    requires doc.Some? ==> ValidRecord(doc.value)
    ensures r == SendMovement(doc, movement, now)
  {
    if !IsMovementArg(movement) {
      return Err(MatchFailed);
    }
    var record := doc.GetOr(EMPTY_RECORD);
    var id, mv := PainterId(movement), NewMovement(movement, now);
    var movements, keys := PushMovement(record, id, mv);
    AddMovementValid(record, id, mv);
    movements := TruncateLists(PaintRecord(movements, keys));
    var t := PaintRecord(movements, keys);
    var order := SortBy(keys, LastUpdatedAsWritten);
    var kept := DeletePainters(t, SliceFromKept(order));
    return Ok(kept);
  }
}
