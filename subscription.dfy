/**
 * The controller's DDP subscription (controller/shooting_stars/subscription.py):
 * a local mirror of one Meteor collection, kept up to date by the
 * `added`/`changed`/`removed` messages of Meteor's DDP protocol, the heartbeat
 * reply, the id counter used for `sub` and `method` messages, and the
 * exponential back-off between reconnection attempts.
 *
 * The websocket, its thread and JSON parsing are not modelled: messages arrive
 * already decoded as `Msg` values, and what the handler sends is returned.
 */
module Subscription {
  import opened Wrappers
  import opened Ejson

  /** The field map of one record. */
  type Fields = map<string, Json>

  /** The mirrored collection: record id to field map. */
  type State = map<string, Fields>

  /** An attempt that closes sooner than this (seconds) counts as an immediate failure. */
  const IMMEDIATE_FAILURE_SECONDS: real := 10.0

  /** The back-off never waits longer than one minute. */
  const MAX_RETRY_DELAY_SECONDS: nat := 60

  /**
   * A decoded incoming DDP message, one variant per tag the handler tells apart.
   * `Other` stands for every other tag (`result`, `ready`, `updated`, ...) and a
   * missing tag. A `changed` without `fields` or `cleared` carries an empty map
   * or list, which is what the handler reads in their absence.
   */
  datatype Msg =
    | Failed
    | Connected
    | NoSub
    | Added(collection: string, id: string, maybeFields: Option<Fields>)
    | Changed(collection: string, id: string, fields: Fields, cleared: seq<string>)
    | Removed(collection: string, id: string)
    | Ping(pingId: Option<Json>)
    | Other(tag: string)

  /** An outgoing DDP message. */
  datatype OutMsg =
    | Connect(version: string, support: seq<string>)
    | Sub(id: string, name: string)
    | Pong(pongId: Option<Json>)
    | Method(id: string, methodName: string, params: seq<Json>)

  // ---------------------------------------------------------------------------
  // Decimal ids

  function DigitChar(d: nat): (c: char)
    requires d < 10
  {
    (48 + d) as char
  }

  predicate IsDigit(c: char) {
    '0' <= c <= '9'
  }

  /** `str(n)` for a natural number: its decimal digits, most significant first. */
  function Decimal(n: nat): (s: string)
    ensures |s| > 0
    ensures forall i :: 0 <= i < |s| ==> IsDigit(s[i])
    decreases n
  {
    if n < 10 then [DigitChar(n)] else Decimal(n / 10) + [DigitChar(n % 10)]
  }

  /** `int(s)` for a string of decimal digits: the partner of `Decimal`. */
  function ParseDecimal(s: string): nat
    requires forall i :: 0 <= i < |s| ==> IsDigit(s[i])
  {
    if |s| == 0 then 0
    else
      assert IsDigit(s[|s| - 1]);
      ParseDecimal(s[..|s| - 1]) * 10 + (s[|s| - 1] as int - 48)
  }

  /** Reading back the decimal string of a number gives the number. */
  lemma {:induction false} DecimalRoundTrip(n: nat)
    ensures ParseDecimal(Decimal(n)) == n
    decreases n
  {
    if n >= 10 {
      var s := Decimal(n);
      assert s[..|s| - 1] == Decimal(n / 10);
      DecimalRoundTrip(n / 10);
    }
  }

  /** Different counters give different ids, so `sub` and `method` ids never repeat. */
  lemma DecimalInjective(a: nat, b: nat)
    requires a != b
    ensures Decimal(a) != Decimal(b)
  {
    DecimalRoundTrip(a);
    DecimalRoundTrip(b);
  }

  /** Like Python's `str`, the decimal string of a positive number has no leading zero. */
  lemma {:induction false} DecimalNoLeadingZero(n: nat)
    requires n > 0
    ensures Decimal(n)[0] != '0'
    decreases n
  {
    if n >= 10 {
      DecimalNoLeadingZero(n / 10);
    }
  }

  // ---------------------------------------------------------------------------
  // The state mirror as a function of the messages

  function KeySet(keys: seq<string>): set<string> {
    set k | k in keys
  }

  /** The effect of one incoming message on the mirrored collection. */
  function Apply(s: State, name: string, m: Msg): State {
    match m
    case Added(c, id, f) =>
      if c == name && f.Some? then s[id := f.value] else s
    case Changed(c, id, f, cleared) =>
      if c == name && id in s then s[id := (s[id] + f) - KeySet(cleared)] else s
    case Removed(c, id) =>
      if c == name then s - {id} else s
    case _ => s
  }

  /**
   * Whether handling the message closes the websocket: a `nosub`, or an
   * `added` for this collection without `fields` (the missing key raises
   * inside the message callback, which the websocket library reports to the
   * error handler, which closes the socket).
   */
  predicate Closes(name: string, m: Msg) {
    m.NoSub? || (m.Added? && m.collection == name && m.maybeFields.None?)
  }

  /** The state after a sequence of messages, first message first. */
  function ApplyAll(s: State, name: string, ms: seq<Msg>): State
    decreases |ms|
  {
    if ms == [] then s else ApplyAll(Apply(s, name, ms[0]), name, ms[1..])
  }

  /** An `added` for the subscribed collection sets the record to exactly the message's fields. */
  lemma AddedReplaces(s: State, name: string, id: string, f: Fields)
    ensures var s' := Apply(s, name, Added(name, id, Some(f)));
      id in s' && s'[id] == f && s'.Keys == s.Keys + {id} &&
      forall k :: k in s && k != id ==> s'[k] == s[k]
  {
  }

  /** Messages about another collection leave the mirror as it was. */
  lemma ForeignCollectionIgnored(s: State, name: string, m: Msg)
    requires (m.Added? || m.Changed? || m.Removed?) && m.collection != name
    ensures Apply(s, name, m) == s
  {
  }

  /**
   * A `changed` on a present record overwrites the given fields, then removes
   * every cleared key (even one it has just set); on an absent record it does
   * nothing.
   */
  lemma ChangedMergesThenClears(s: State, name: string, id: string, f: Fields, cleared: seq<string>)
    ensures var s' := Apply(s, name, Changed(name, id, f, cleared));
      (id !in s ==> s' == s) &&
      (id in s ==>
        s'.Keys == s.Keys &&
        (forall k :: k in s'[id] <==> (k in s[id] || k in f) && k !in cleared) &&
        (forall k :: k in f && k !in cleared ==> s'[id][k] == f[k]) &&
        (forall k :: k in s[id] && k !in f && k !in cleared ==> s'[id][k] == s[id][k]))
  {
  }

  /** Applying the same `changed` message twice is the same as applying it once. */
  lemma {:induction false} ChangedIdempotent(s: State, name: string, m: Msg)
    requires m.Changed?
    ensures Apply(Apply(s, name, m), name, m) == Apply(s, name, m)
  {
    if m.collection == name && m.id in s {
      var once := (s[m.id] + m.fields) - KeySet(m.cleared);
      var twice := (once + m.fields) - KeySet(m.cleared);
      assert twice == once;
    }
  }

  /** The scenario `added{A: {x: 1}}` then `changed{A: {y: 2}, cleared: [x]}`. */
  lemma ClearedFieldScenario(name: string)
    ensures ApplyAll(map[], name, [
        Added(name, "A", Some(map["x" := JNum(1.0)])),
        Changed(name, "A", map["y" := JNum(2.0)], ["x"])
      ]) == map["A" := map["y" := JNum(2.0)]]
  {
    var ms := [Added(name, "A", Some(map["x" := JNum(1.0)])), Changed(name, "A", map["y" := JNum(2.0)], ["x"])];
    var s1 := Apply(map[], name, ms[0]);
    var s2 := Apply(s1, name, ms[1]);
    assert ApplyAll(map[], name, ms) == ApplyAll(s1, name, ms[1..]);
    assert ApplyAll(s1, name, ms[1..]) == ApplyAll(s2, name, ms[1..][1..]);
    assert ms[1..][1..] == [];
    assert s2["A"] == map["y" := JNum(2.0)];
    assert s2 == map["A" := map["y" := JNum(2.0)]];
  }

  /** Two states that agree except at `id` still agree except at `id` after one message. */
  lemma ApplyLocal(s1: State, s2: State, name: string, m: Msg, id: string)
    requires s1 - {id} == s2 - {id}
    ensures Apply(s1, name, m) - {id} == Apply(s2, name, m) - {id}
  {
    var t1, t2 := Apply(s1, name, m), Apply(s2, name, m);
    forall k | k != id
      ensures k in t1 <==> k in t2
      ensures k in t1 ==> t1[k] == t2[k]
    {
      assert k in s1 <==> k in s1 - {id};
      assert k in s2 <==> k in s2 - {id};
      assert k in s1 ==> s1[k] == (s1 - {id})[k];
      assert k in s2 ==> s2[k] == (s2 - {id})[k];
    }
    assert t1 - {id} == t2 - {id};
  }

  /** ... and after any sequence of messages. */
  lemma {:induction false} ApplyAllLocal(s1: State, s2: State, name: string, ms: seq<Msg>, id: string)
    requires s1 - {id} == s2 - {id}
    ensures ApplyAll(s1, name, ms) - {id} == ApplyAll(s2, name, ms) - {id}
    decreases |ms|
  {
    if ms != [] {
      ApplyLocal(s1, s2, name, ms[0], id);
      ApplyAllLocal(Apply(s1, name, ms[0]), Apply(s2, name, ms[0]), name, ms[1..], id);
    }
  }

  lemma {:induction false} ApplyAllAppend(s: State, name: string, ms: seq<Msg>, m: Msg)
    ensures ApplyAll(s, name, ms + [m]) == Apply(ApplyAll(s, name, ms), name, m)
    decreases |ms|
  {
    if ms != [] {
      assert (ms + [m])[1..] == ms[1..] + [m];
      ApplyAllAppend(Apply(s, name, ms[0]), name, ms[1..], m);
    }
  }

  /**
   * `added` followed by `removed` for the same id leaves the id absent, and the
   * rest of the mirror as if the pair had never arrived, whatever messages came
   * in between.
   */
  lemma AddedThenRemoved(s: State, name: string, id: string, f: Fields, between: seq<Msg>)
    ensures var s' := ApplyAll(s, name, [Added(name, id, Some(f))] + between + [Removed(name, id)]);
      id !in s' && s' == ApplyAll(s, name, between) - {id}
  {
    var ms := [Added(name, id, Some(f))] + between;
    ApplyAllAppend(s, name, ms, Removed(name, id));
    assert ms[1..] == between;
    var added := Apply(s, name, Added(name, id, Some(f)));
    assert ApplyAll(s, name, ms) == ApplyAll(added, name, between);
    assert added - {id} == s - {id};
    ApplyAllLocal(added, s, name, between, id);
  }

  // ---------------------------------------------------------------------------
  // Reconnection back-off

  /** One websocket attempt: how long it stayed open and whether `stop` had been called when it closed. */
  datatype Attempt = Attempt(seconds: real, stoppedAtClose: bool)

  /** What the run loop does after an attempt closes. */
  datatype Backoff = Exit | Retry(delay: nat, sleep: Option<nat>)

  /** The run loop's decision after one attempt, given the current retry delay. */
  function BackoffStep(delay: nat, a: Attempt): (r: Backoff)
    requires 1 <= delay <= MAX_RETRY_DELAY_SECONDS
    ensures r.Exit? <==> a.stoppedAtClose
    ensures r.Retry? ==> 1 <= r.delay <= MAX_RETRY_DELAY_SECONDS
    ensures r.Retry? && a.seconds < IMMEDIATE_FAILURE_SECONDS ==>
      r.sleep == Some(r.delay) && r.delay >= 2 && (r.delay == 2 * delay || r.delay == MAX_RETRY_DELAY_SECONDS)
    ensures r.Retry? && a.seconds >= IMMEDIATE_FAILURE_SECONDS ==> r == Retry(1, None)
  {
    if a.stoppedAtClose then Exit
    else if a.seconds < IMMEDIATE_FAILURE_SECONDS then
      var d := Min(delay * 2, MAX_RETRY_DELAY_SECONDS);
      Retry(d, Some(d))
    else
      Retry(1, None)
  }

  /** The sleeps the run loop performs over a sequence of attempts. */
  function Sleeps(delay: nat, attempts: seq<Attempt>): seq<nat>
    requires 1 <= delay <= MAX_RETRY_DELAY_SECONDS
    decreases |attempts|
  {
    if attempts == [] then []
    else match BackoffStep(delay, attempts[0])
      case Exit => []
      case Retry(d, s) =>
        (if s.Some? then [s.value] else []) + Sleeps(d, attempts[1..])
  }

  /**
   * The reconnect loop of `run`, fed with the attempts it makes: it returns the
   * sleeps it performs before leaving (when an attempt closes after `stop`) or
   * running out of attempts.
   */
  method Run(attempts: seq<Attempt>) returns (sleeps: seq<nat>)
    ensures sleeps == Sleeps(1, attempts)
    ensures forall i :: 0 <= i < |sleeps| ==> 2 <= sleeps[i] <= MAX_RETRY_DELAY_SECONDS
  {
    var retryDelay: nat := 1;
    sleeps := [];
    var i := 0;
    while i < |attempts|
      invariant 0 <= i <= |attempts|
      invariant 1 <= retryDelay <= MAX_RETRY_DELAY_SECONDS
      invariant sleeps + Sleeps(retryDelay, attempts[i..]) == Sleeps(1, attempts)
      invariant forall j :: 0 <= j < |sleeps| ==> 2 <= sleeps[j] <= MAX_RETRY_DELAY_SECONDS
    {
      assert attempts[i..][1..] == attempts[i + 1..];
      if attempts[i].stoppedAtClose {
        break;
      }
      if attempts[i].seconds < IMMEDIATE_FAILURE_SECONDS {
        retryDelay := retryDelay * 2;
        retryDelay := Min(retryDelay, MAX_RETRY_DELAY_SECONDS);
        sleeps := sleeps + [retryDelay];
      } else {
        retryDelay := 1;
      }
      i := i + 1;
    }
  }

  function Pow2(k: nat): nat {
    if k == 0 then 1 else 2 * Pow2(k - 1)
  }

  predicate AllShort(attempts: seq<Attempt>) {
    forall i :: 0 <= i < |attempts| ==> attempts[i].seconds < IMMEDIATE_FAILURE_SECONDS && !attempts[i].stoppedAtClose
  }

  /**
   * Consecutive immediate failures double the sleep from the current delay
   * until it reaches the one-minute cap.
   */
  lemma {:induction false} ShortFailuresDouble(delay: nat, attempts: seq<Attempt>)
    requires 1 <= delay <= MAX_RETRY_DELAY_SECONDS
    requires AllShort(attempts)
    ensures |Sleeps(delay, attempts)| == |attempts|
    ensures forall i :: 0 <= i < |attempts| ==>
      Sleeps(delay, attempts)[i] == Min(delay * Pow2(i + 1), MAX_RETRY_DELAY_SECONDS)
    decreases |attempts|
  {
    if attempts != [] {
      var d := Min(delay * 2, MAX_RETRY_DELAY_SECONDS);
      assert AllShort(attempts[1..]);
      ShortFailuresDouble(d, attempts[1..]);
      var rest := Sleeps(d, attempts[1..]);
      assert Sleeps(delay, attempts) == [d] + rest;
      forall i | 1 <= i < |attempts|
        ensures Sleeps(delay, attempts)[i] == Min(delay * Pow2(i + 1), MAX_RETRY_DELAY_SECONDS)
      {
        assert rest[i - 1] == Min(d * Pow2(i), MAX_RETRY_DELAY_SECONDS);
        CappedDoubling(delay, i);
      }
    }
  }

  /** Doubling first and then scaling by 2^i, under the cap, is scaling by 2^(i+1) under the cap. */
  lemma CappedDoubling(delay: nat, i: nat)
    requires 1 <= delay <= MAX_RETRY_DELAY_SECONDS
    ensures Min(Min(delay * 2, MAX_RETRY_DELAY_SECONDS) * Pow2(i), MAX_RETRY_DELAY_SECONDS) ==
      Min(delay * Pow2(i + 1), MAX_RETRY_DELAY_SECONDS)
  {
    var p := Pow2(i);
    assert Pow2(i + 1) == 2 * p;
    assert delay * (2 * p) == (delay * 2) * p;
    Pow2Positive(i);
    if delay * 2 >= MAX_RETRY_DELAY_SECONDS {
      assert MAX_RETRY_DELAY_SECONDS * p >= MAX_RETRY_DELAY_SECONDS;
      assert (delay * 2) * p >= MAX_RETRY_DELAY_SECONDS * p;
    }
  }

  lemma {:induction false} Pow2Positive(k: nat)
    ensures Pow2(k) >= 1
  {
    if k > 0 {
      Pow2Positive(k - 1);
    }
  }

  /** Three immediate failures in a row sleep 2, then 4, then 8 seconds. */
  lemma ThreeShortFailures(a: Attempt, b: Attempt, c: Attempt)
    requires AllShort([a, b, c])
    ensures Sleeps(1, [a, b, c]) == [2, 4, 8]
  {
    ShortFailuresDouble(1, [a, b, c]);
    assert Pow2(1) == 2 && Pow2(2) == 4 && Pow2(3) == 8;
  }

  /** An attempt that lived at least ten seconds resets the delay: it sleeps nothing and starts over from 1. */
  lemma LongAttemptResets(delay: nat, a: Attempt, rest: seq<Attempt>)
    requires 1 <= delay <= MAX_RETRY_DELAY_SECONDS
    requires a.seconds >= IMMEDIATE_FAILURE_SECONDS && !a.stoppedAtClose
    ensures Sleeps(delay, [a] + rest) == Sleeps(1, rest)
  {
    assert ([a] + rest)[1..] == rest;
  }

  /** A subscription stopped while connected leaves the loop without sleeping. */
  lemma StoppedExitsWithoutSleep(delay: nat, a: Attempt, rest: seq<Attempt>)
    requires 1 <= delay <= MAX_RETRY_DELAY_SECONDS
    requires a.stoppedAtClose
    ensures Sleeps(delay, [a] + rest) == []
  {
  }

  // ---------------------------------------------------------------------------
  // The subscription object

  class Subscription {
    const url: string
    const name: string
    const token: Json
    var state: State
    var stopped: bool
    var subId: nat
    var uniqId: nat

    constructor (url: string, name: string, token: Json)
      ensures this.url == url && this.name == name && this.token == token
      ensures state == map[] && stopped && subId == 0 && uniqId == 0
    {
      this.url := url;
      this.name := name;
      this.token := token;
      state := map[];
      stopped := true;
      subId := 0;
      uniqId := 0;
    }

    /** `_next_id`: advances the counter and returns it as a decimal string. */
    method NextId() returns (id: string)
      modifies this`uniqId
      ensures uniqId == old(uniqId) + 1
      ensures id == Decimal(uniqId)
      ensures ParseDecimal(id) == uniqId
    {
      uniqId := uniqId + 1;
      id := Decimal(uniqId);
      DecimalRoundTrip(uniqId);
    }

    /** The message sent when the websocket opens. */
    method OnOpen() returns (sent: OutMsg)
      ensures sent == Connect("1", ["1"])
    {
      sent := Connect("1", ["1"]);
    }

    /**
     * `on_message`: applies one decoded message to the mirror and returns the
     * messages sent in reply and whether the websocket is closed.
     */
    method OnMessage(m: Msg) returns (sent: seq<OutMsg>, close: bool)
      modifies this`state, this`subId, this`uniqId
      ensures state == Apply(old(state), name, m)
      ensures close == Closes(name, m)
      ensures m.Connected? ==>
        subId == old(subId) + 1 && uniqId == old(uniqId) + 1 &&
        sent == [Sub(Decimal(uniqId), name)]
      ensures !m.Connected? ==> subId == old(subId) && uniqId == old(uniqId)
      ensures m.Ping? ==> sent == [Pong(m.pingId)]
      ensures !m.Connected? && !m.Ping? ==> sent == []
    {
      sent, close := [], false;
      match m {
        case Failed =>
        case Connected =>
          subId := subId + 1;
          var id := NextId();
          sent := [Sub(id, name)];
        case NoSub =>
          close := true;
        case Added(c, id, f) =>
          if c == name {
            if f.None? {
              close := true;
            } else {
              state := state[id := f.value];
            }
          }
        case Changed(c, id, f, cleared) =>
          if c == name {
            if id in state {
              var record := state[id] + f;
              var i := 0;
              while i < |cleared|
                invariant 0 <= i <= |cleared|
                invariant record == (state[id] + f) - KeySet(cleared[..i])
              {
                assert KeySet(cleared[..i + 1]) == KeySet(cleared[..i]) + {cleared[i]};
                record := record - {cleared[i]};
                i := i + 1;
              }
              assert cleared[..i] == cleared;
              state := state[id := record];
            }
          }
        case Removed(c, id) =>
          if c == name {
            state := state - {id};
          }
        case Ping(pingId) =>
          sent := [Pong(pingId)];
        case Other(_) =>
      }
    }

    /** `call`: the `method` message sent, with a fresh id. */
    method Call(methodName: string, params: seq<Json>) returns (sent: OutMsg)
      modifies this`uniqId
      ensures uniqId == old(uniqId) + 1
      ensures sent == Method(Decimal(uniqId), methodName, params)
    {
      var id := NextId();
      sent := Method(id, methodName, params);
    }
  }

  /**
   * Ids handed out by one subscription never repeat: the counter only grows
   * and distinct counters give distinct strings.
   */
  method IdsAreFresh(s: Subscription) returns (first: string, second: string)
    modifies s`uniqId
    ensures s.uniqId == old(s.uniqId) + 2
    ensures first == Decimal(old(s.uniqId) + 1) && second == Decimal(old(s.uniqId) + 2)
    ensures first != second
  {
    first := s.NextId();
    second := s.NextId();
    DecimalInjective(s.uniqId - 1, s.uniqId);
  }
}
