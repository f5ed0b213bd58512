/**
 * JSON-shaped values as they travel between the Meteor server and its
 * clients (DDP field values, Meteor method arguments), and the argument
 * patterns of Meteor's `check` that the server methods apply to them.
 */
module Ejson {

  /** A JSON value; JavaScript numbers are modelled as exact reals. */
  datatype Json =
    | JNull
    | JBool(b: bool)
    | JNum(n: real)
    | JStr(s: string)
    | JArr(items: seq<Json>)
    | JObj(fields: map<string, Json>)

  /** `Match.Integer` accepts exactly the numbers `x` with `(x | 0) === x`: the signed 32-bit integers. */
  const INT32_MIN: int := -0x8000_0000
  const INT32_MAX: int := 0x7fff_ffff

  /** The `String` pattern. */
  predicate IsString(v: Json) {
    v.JStr?
  }

  /** The `Number` pattern. */
  predicate IsNumber(v: Json) {
    v.JNum?
  }

  /** The `Match.Integer` pattern. */
  predicate IsInteger(v: Json) {
    v.JNum? && v.n == v.n.Floor as real && INT32_MIN <= v.n.Floor <= INT32_MAX
  }

  function AsInt(v: Json): (k: int)
    requires IsInteger(v)
    ensures k as real == v.n && INT32_MIN <= k <= INT32_MAX
  {
    v.n.Floor
  }

  /** The `[Match.Integer]` pattern. */
  predicate IsIntegerRow(v: Json) {
    v.JArr? && forall i :: 0 <= i < |v.items| ==> IsInteger(v.items[i])
  }

  /** The `[[Match.Integer]]` pattern. */
  predicate IsIntegerGrid(v: Json) {
    v.JArr? && forall i :: 0 <= i < |v.items| ==> IsIntegerRow(v.items[i])
  }

  /** The integer matrix that a value accepted by `[[Match.Integer]]` denotes. */
  function IntegerGrid(v: Json): (g: seq<seq<int>>)
    requires IsIntegerGrid(v)
    ensures |g| == |v.items|
    ensures forall i :: 0 <= i < |g| ==> |g[i]| == |v.items[i].items|
    ensures forall i, j :: 0 <= i < |g| && 0 <= j < |g[i]| ==> g[i][j] as real == v.items[i].items[j].n
  {
    seq(|v.items|, i requires 0 <= i < |v.items| =>
      seq(|v.items[i].items|, j requires 0 <= j < |v.items[i].items| => AsInt(v.items[i].items[j])))
  }

  /** The JSON encoding of an integer matrix. */
  function GridJson(g: seq<seq<int>>): Json {
    JArr(seq(|g|, i requires 0 <= i < |g| => JArr(seq(|g[i]|, j requires 0 <= j < |g[i]| => JNum(g[i][j] as real)))))
  }

  /**
   * An object pattern `{k1: P1, ...}` accepts a plain object whose own keys are
   * exactly the pattern's keys: a missing key and an unknown key both fail.
   */
  predicate HasExactKeys(v: Json, keys: set<string>) {
    v.JObj? && v.fields.Keys == keys
  }

  /** Property access; an absent property reads as `undefined`, modelled by JNull. */
  function Get(v: Json, key: string): Json {
    if v.JObj? && key in v.fields then v.fields[key] else JNull
  }

  /**
   * Why a Meteor method call fails: an argument that its `check` pattern
   * rejects, or a `Meteor.Error` thrown with the given error code.
   */
  datatype MethodError = MatchFailed | MeteorError(error: string)
}
