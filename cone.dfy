/**
 * The paint activity of the controller (controller/shooting_stars/cone.py):
 * painters' movements arrive from the web, are cut into steps of one frame
 * each and queued per painter; every frame each painter takes at most one
 * step.
 *
 * Colours and velocities are exact reals. The painter's position on the
 * light layout (norms, dot products, nearest light) and the rendering of the
 * frame are not modelled.
 */
module Cone {
  import opened Wrappers

  /** A painter keeps at most this many of its most recent steps. */
  const MAX_STORED_STEPS: nat := 100

  datatype Colour = Colour(hue: real, saturation: real)

  datatype Vec = Vec(x: real, y: real, z: real)

  const ZERO := Vec(0.0, 0.0, 0.0)

  /** One frame's worth of a painter's movement. */
  datatype PainterStep = PainterStep(colour: Colour, velocity: Vec, timestamp: int)

  /** A painter's state, apart from its position. */
  datatype PainterState = PainterState(
    colour: Colour,
    velocity: Vec,
    lastStepTimestamp: int,
    steps: seq<PainterStep>,
    loaded: bool)

  const INITIAL_STATE := PainterState(Colour(0.0, 0.0), ZERO, 0, [], false)

  /** A movement sent by a painter: its colour and one velocity per step. */
  datatype Movement = Movement(timestamp: int, colour: Colour, velocities: seq<Vec>)

  /**
   * `PainterState.update`: the step's timestamp, colour and velocity are
   * taken, except that a zero velocity keeps the previous one; the step
   * joins the stored steps, of which only the most recent are kept, unless
   * the painter is loaded, which keeps none.
   */
  function Update(s: PainterState, step: Option<PainterStep>): PainterState {
    var velocity := if step.Some? then step.value.velocity else s.velocity;
    PainterState(
      if step.Some? then step.value.colour else s.colour,
      if velocity == ZERO then s.velocity else velocity,
      if step.Some? then step.value.timestamp else s.lastStepTimestamp,
      if s.loaded then []
      else if step.None? then s.steps
      else LastSteps(s.steps + [step.value]),
      s.loaded)
  }

  function LastSteps(steps: seq<PainterStep>): seq<PainterStep> {
    if |steps| <= MAX_STORED_STEPS then steps else steps[|steps| - MAX_STORED_STEPS..]
  }

  /**
   * The stored steps are the most recent MAX_STORED_STEPS of the old ones
   * followed by the new step; a loaded painter stores none.
   */
  lemma UpdateKeepsRecentSteps(s: PainterState, step: PainterStep)
    ensures var t := Update(s, Some(step));
      |t.steps| <= MAX_STORED_STEPS &&
      (s.loaded ==> t.steps == []) &&
      (!s.loaded ==>
        |t.steps| == Min(|s.steps| + 1, MAX_STORED_STEPS) &&
        t.steps[|t.steps| - 1] == step &&
        t.steps == (s.steps + [step])[|s.steps| + 1 - |t.steps|..])
  {
  }

  /** Without a step, the steps, the timestamp, the colour and the velocity stay as they were. */
  lemma UpdateWithoutStep(s: PainterState)
    ensures Update(s, None).steps == (if s.loaded then [] else s.steps)
    ensures Update(s, None).lastStepTimestamp == s.lastStepTimestamp
    ensures Update(s, None).colour == s.colour
    ensures Update(s, None).velocity == s.velocity
  {
  }

  /** A step's velocity is taken unless it is zero, so a painter that ever moved keeps moving. */
  lemma UpdateVelocity(s: PainterState, step: PainterStep)
    ensures Update(s, Some(step)).velocity == if step.velocity == ZERO then s.velocity else step.velocity
    ensures s.velocity != ZERO ==> Update(s, Some(step)).velocity != ZERO
    ensures Update(s, Some(step)).colour == step.colour
    ensures Update(s, Some(step)).lastStepTimestamp == step.timestamp
  {
  }

  /** `np.linspace(a, b, n)` on exact reals: n evenly spaced values from a to b. */
  function Linspace(a: real, b: real, n: nat): (r: seq<real>)
    ensures |r| == n
    ensures n >= 1 ==> r[0] == a
    ensures n >= 2 ==> r[n - 1] == b
  {
    if n == 1 then [a]
    else
      var r := seq(n, i => a + (b - a) * (i as real) / ((n - 1) as real));
      assert n >= 2 ==> r[n - 1] == a + (b - a) * ((n - 1) as real) / ((n - 1) as real);
      r
  }

  /** `Colour.interpolate`: hue and saturation each spaced evenly, from one colour to the other. */
  function Interpolate(from: Colour, to: Colour, n: nat): (r: seq<Colour>)
    ensures |r| == n
    ensures n >= 1 ==> r[0] == from
    ensures n >= 2 ==> r[n - 1] == to
  {
    var hues := Linspace(from.hue, to.hue, n);
    var saturations := Linspace(from.saturation, to.saturation, n);
    seq(n, i requires 0 <= i < n => Colour(hues[i], saturations[i]))
  }

  /** The colours of a movement's steps: a gradual change from the queue's last colour, or constant. */
  function StepColours(current: Colour, mv: Movement): seq<Colour> {
    if mv.colour != current then Interpolate(current, mv.colour, |mv.velocities|)
    else seq(|mv.velocities|, i => mv.colour)
  }

  /**
   * One movement into a painter's queue: a seed step at rest, in the
   * movement's colour, when the queue is empty, then one step per velocity.
   */
  function EnqueueMovement(queue: seq<PainterStep>, mv: Movement): (r: seq<PainterStep>)
    ensures |r| == |queue| + (if |queue| == 0 then 1 else 0) + |mv.velocities|
    ensures r[..|queue|] == queue
    ensures |queue| == 0 ==> r[0] == PainterStep(mv.colour, ZERO, mv.timestamp)
    ensures forall i :: |r| - |mv.velocities| <= i < |r| ==>
      r[i].velocity == mv.velocities[i - (|r| - |mv.velocities|)] && r[i].timestamp == mv.timestamp
    ensures |mv.velocities| >= 2 ==> r[|r| - 1].colour == mv.colour
  {
    var seeded := if |queue| == 0 then [PainterStep(mv.colour, ZERO, mv.timestamp)] else queue;
    var colours := StepColours(seeded[|seeded| - 1].colour, mv);
    seeded + seq(|mv.velocities|, i requires 0 <= i < |mv.velocities| => PainterStep(colours[i], mv.velocities[i], mv.timestamp))
  }

  /**
   * A movement of a single step that changes colour keeps the colour the
   * queue ends with: `np.linspace` of one value returns its start.
   */
  lemma SingleStepKeepsColour(queue: seq<PainterStep>, mv: Movement)
    requires |queue| > 0 && |mv.velocities| == 1
    ensures EnqueueMovement(queue, mv)[|queue|].colour == queue[|queue| - 1].colour
  {
  }

  /** A painter's movements in order; only those later than the watermark w are queued. */
  function EnqueueNew(queue: seq<PainterStep>, movements: seq<Movement>, w: int): seq<PainterStep> {
    if |movements| == 0 then queue
    else
      var before := EnqueueNew(queue, movements[..|movements| - 1], w);
      var mv := movements[|movements| - 1];
      if mv.timestamp > w then EnqueueMovement(before, mv) else before
  }

  /** Queuing only appends: the old queue stays in front. */
  lemma {:induction false} EnqueueNewExtends(queue: seq<PainterStep>, movements: seq<Movement>, w: int)
    ensures |EnqueueNew(queue, movements, w)| >= |queue|
    ensures EnqueueNew(queue, movements, w)[..|queue|] == queue
  {
    if |movements| > 0 {
      EnqueueNewExtends(queue, movements[..|movements| - 1], w);
      var before := EnqueueNew(queue, movements[..|movements| - 1], w);
      assert before[..|queue|] == queue;
      var mv := movements[|movements| - 1];
      if mv.timestamp > w {
        assert EnqueueMovement(before, mv)[..|before|] == before;
        assert EnqueueMovement(before, mv)[..|queue|] == before[..|queue|];
      }
    }
  }

  /** Movements no later than the watermark add nothing. */
  lemma {:induction false} OnlyNewMovementsQueued(queue: seq<PainterStep>, movements: seq<Movement>, w: int)
    requires forall i :: 0 <= i < |movements| ==> movements[i].timestamp <= w
    ensures EnqueueNew(queue, movements, w) == queue
  {
    if |movements| > 0 {
      OnlyNewMovementsQueued(queue, movements[..|movements| - 1], w);
    }
  }

  /** The steps a movement adds, counting the seed step of an empty queue. */
  function AddedSteps(queueEmpty: bool, mv: Movement): nat {
    (if queueEmpty then 1 else 0) + |mv.velocities|
  }

  /** A new movement adds one step per velocity, after a seed step exactly when the queue was empty. */
  lemma {:induction false} EnqueueNewCount(queue: seq<PainterStep>, movements: seq<Movement>, w: int)
    requires |movements| > 0 && movements[|movements| - 1].timestamp > w
    ensures var before := EnqueueNew(queue, movements[..|movements| - 1], w);
      |EnqueueNew(queue, movements, w)| == |before| + AddedSteps(|before| == 0, movements[|movements| - 1])
  {
  }

  function QueueOf(queues: map<string, seq<PainterStep>>, p: string): seq<PainterStep> {
    if p in queues then queues[p] else []
  }

  /** The queues after `add_movements`: every listed painter has a queue, with its new movements added. */
  function AddedQueues(queues: map<string, seq<PainterStep>>, input: map<string, seq<Movement>>, w: int): map<string, seq<PainterStep>> {
    map p | p in queues.Keys + input.Keys :: if p in input then EnqueueNew(QueueOf(queues, p), input[p], w) else queues[p]
  }

  /** The timestamps of a batch of movements, painter by painter. */
  function MovementTimes(input: map<string, seq<Movement>>): map<string, seq<int>> {
    map p | p in input :: seq(|input[p]|, i requires 0 <= i < |input[p]| => input[p][i].timestamp)
  }

  /** The timestamps of the queued steps, painter by painter. */
  function StepTimes(queues: map<string, seq<PainterStep>>): map<string, seq<int>> {
    map p | p in queues :: seq(|queues[p]|, i requires 0 <= i < |queues[p]| => queues[p][i].timestamp)
  }

  /** m is the largest of the timestamps, or d when there are none (Python's `max(..., default=d)`). */
  predicate LatestOr(times: map<string, seq<int>>, d: int, m: int) {
    (forall q, i :: q in times && 0 <= i < |times[q]| ==> times[q][i] <= m) &&
    ((exists q, i :: q in times && 0 <= i < |times[q]| && times[q][i] == m) ||
     (m == d && forall q :: q in times ==> |times[q]| == 0))
  }

  /** The latest timestamp is determined by the timestamps and the default. */
  lemma LatestOrUnique(times: map<string, seq<int>>, d: int, m1: int, m2: int)
    requires LatestOr(times, d, m1) && LatestOr(times, d, m2)
    ensures m1 == m2
  {
    if exists q, i :: q in times && 0 <= i < |times[q]| && times[q][i] == m1 {
      var q, i :| q in times && 0 <= i < |times[q]| && times[q][i] == m1;
      assert m1 <= m2;
    }
    if exists q, i :: q in times && 0 <= i < |times[q]| && times[q][i] == m2 {
      var q, i :| q in times && 0 <= i < |times[q]| && times[q][i] == m2;
      assert m2 <= m1;
    }
  }

  /**
   * The first batch sets a watermark no earlier than any movement in it, so
   * it queues no step: queues only appear, empty, for new painters.
   */
  lemma FirstBatchQueuesNothing(queues: map<string, seq<PainterStep>>, input: map<string, seq<Movement>>, w: int)
    requires LatestOr(MovementTimes(input), 0, w)
    ensures forall p :: p in AddedQueues(queues, input, w) ==> AddedQueues(queues, input, w)[p] == QueueOf(queues, p)
  {
    var times := MovementTimes(input);
    forall p | p in input
      ensures EnqueueNew(QueueOf(queues, p), input[p], w) == QueueOf(queues, p)
    {
      forall i | 0 <= i < |input[p]|
        ensures input[p][i].timestamp <= w
      {
        assert times[p][i] == input[p][i].timestamp;
      }
      OnlyNewMovementsQueued(QueueOf(queues, p), input[p], w);
    }
  }

  /**
   * The watermark is recomputed from the queues alone: once a later step has
   * been consumed, it falls back to an earlier one still queued, and a
   * movement between the two is queued a second time.
   */
  lemma WatermarkFallsBack()
    ensures var late := PainterStep(Colour(0.0, 0.0), ZERO, 100);
      var early := PainterStep(Colour(0.0, 0.0), ZERO, 50);
      var queues := map["a" := [], "b" := [early]];
      LatestOr(StepTimes(queues), 100, 50) &&
      EnqueueNew([late], [Movement(80, Colour(0.0, 0.0), [ZERO])], 50) != [late]
  {
    var early := PainterStep(Colour(0.0, 0.0), ZERO, 50);
    var queues := map["a" := [], "b" := [early]];
    var times := StepTimes(queues);
    assert times["b"][0] == 50;
    var mv := Movement(80, Colour(0.0, 0.0), [ZERO]);
    assert [mv][..0] == [];
  }

  /**
   * The watermark the filter of `add_movements` needs: the larger of the
   * cutoff and the latest movement of the batch, m. It never goes down, and
   * handling the same batch again under it queues nothing.
   */
  lemma KeptWatermarkQueuesOnce(queues: map<string, seq<PainterStep>>, input: map<string, seq<Movement>>, cutoff: int, m: int)
    requires LatestOr(MovementTimes(input), cutoff, m)
    ensures Max(cutoff, m) >= cutoff
    ensures forall p :: p in AddedQueues(queues, input, Max(cutoff, m)) ==>
      AddedQueues(queues, input, Max(cutoff, m))[p] == QueueOf(queues, p)
  {
    var times := MovementTimes(input);
    forall p | p in input
      ensures EnqueueNew(QueueOf(queues, p), input[p], Max(cutoff, m)) == QueueOf(queues, p)
    {
      forall i | 0 <= i < |input[p]|
        ensures input[p][i].timestamp <= Max(cutoff, m)
      {
        assert times[p][i] == input[p][i].timestamp;
      }
      OnlyNewMovementsQueued(QueueOf(queues, p), input[p], Max(cutoff, m));
    }
  }

  /** The queues after `tick_state`: empty queues are dropped and every other one loses its first step. */
  function TickQueues(queues: map<string, seq<PainterStep>>): map<string, seq<PainterStep>> {
    map p | p in queues && |queues[p]| > 0 :: queues[p][1..]
  }

  /** The painters after `tick_state`: each with a queued step or a state takes at most one step. */
  function TickStates(queues: map<string, seq<PainterStep>>, states: map<string, PainterState>): map<string, PainterState> {
    map p | p in states.Keys + (set q | q in queues && |queues[q]| > 0) :: NextState(queues, states, p)
  }

  /** A painter's state after a tick: the first step of its queue, if any, applied to its state or the initial one. */
  function NextState(queues: map<string, seq<PainterStep>>, states: map<string, PainterState>, p: string): PainterState {
    Update(if p in states then states[p] else INITIAL_STATE,
           if p in queues && |queues[p]| > 0 then Some(queues[p][0]) else None)
  }

  /**
   * A tick keeps every painter state, adds one for every painter with a
   * step queued, takes exactly one step from each non-empty queue, and
   * drops the empty queues.
   */
  lemma TickProgress(queues: map<string, seq<PainterStep>>, states: map<string, PainterState>)
    ensures states.Keys <= TickStates(queues, states).Keys
    ensures forall p :: p in queues && |queues[p]| > 0 ==> p in TickStates(queues, states) && p in TickQueues(queues)
    ensures forall p :: p in TickQueues(queues) ==> p in queues && |TickQueues(queues)[p]| == |queues[p]| - 1
    ensures forall p :: p in queues && |queues[p]| == 0 ==> p !in TickQueues(queues)
    ensures forall p :: p in queues && |queues[p]| > 0 ==>
      TickStates(queues, states)[p].lastStepTimestamp == queues[p][0].timestamp
  {
  }

  /** A painter's new movements, in order, into its queue. */
  method EnqueueMovements(queue: seq<PainterStep>, movements: seq<Movement>, cutoff: int) returns (r: seq<PainterStep>)
    ensures r == EnqueueNew(queue, movements, cutoff)
  {
    r := queue;
    var k := 0;
    while k < |movements|
      invariant 0 <= k <= |movements|
      invariant r == EnqueueNew(queue, movements[..k], cutoff)
    {
      assert movements[..k + 1][..k] == movements[..k];
      if movements[k].timestamp > cutoff {
        r := EnqueueMovement(r, movements[k]);
      }
      k := k + 1;
    }
    assert movements[..k] == movements;
  }

  /** Every listed painter's new movements into its queue. */
  method AddAll(queues: map<string, seq<PainterStep>>, input: map<string, seq<Movement>>, cutoff: int)
    returns (r: map<string, seq<PainterStep>>)
    ensures r == AddedQueues(queues, input, cutoff)
  {
    r := queues;
    var remaining := input.Keys;
    while remaining != {}
      invariant remaining <= input.Keys
      invariant r.Keys == queues.Keys + (input.Keys - remaining)
      invariant forall p :: p in r ==>
        r[p] == if p in input && p !in remaining then EnqueueNew(QueueOf(queues, p), input[p], cutoff) else queues[p]
      decreases remaining
    {
      var p :| p in remaining;
      var queue := EnqueueMovements(QueueOf(r, p), input[p], cutoff);
      r := r[p := queue];
      remaining := remaining - {p};
    }
  }

  /**
   * Every painter with a queue or a state, one after another, takes the
   * first step of its queue, if any; the queues given are non-empty.
   */
  method StepAll(queues: map<string, seq<PainterStep>>, states: map<string, PainterState>)
    returns (newQueues: map<string, seq<PainterStep>>, newStates: map<string, PainterState>)
    requires forall p :: p in queues ==> |queues[p]| > 0
    ensures newQueues.Keys == queues.Keys
    ensures forall p :: p in queues ==> newQueues[p] == queues[p][1..]
    ensures newStates.Keys == states.Keys + queues.Keys
    ensures forall p :: p in newStates ==> newStates[p] == NextState(queues, states, p)
  {
    newQueues, newStates := queues, states;
    ghost var all := queues.Keys + states.Keys;
    ghost var done: set<string> := {};
    var remaining := queues.Keys + states.Keys;
    while remaining != {}
      invariant done <= all && remaining == all - done
      invariant newQueues.Keys == queues.Keys
      invariant forall p :: p in queues ==> newQueues[p] == if p in done then queues[p][1..] else queues[p]
      invariant newStates.Keys == states.Keys + done
      invariant forall p :: p in newStates ==> newStates[p] == if p in done then NextState(queues, states, p) else states[p]
      decreases remaining
    {
      var p :| p in remaining;
      newQueues, newStates := TakeStep(newQueues, newStates, p);
      remaining := remaining - {p};
      done := done + {p};
    }
  }

  /** One painter takes the first step of its queue, if it has one. */
  method TakeStep(queues: map<string, seq<PainterStep>>, states: map<string, PainterState>, p: string)
    returns (newQueues: map<string, seq<PainterStep>>, newStates: map<string, PainterState>)
    requires p in queues ==> |queues[p]| > 0
    ensures newQueues == if p in queues then queues[p := queues[p][1..]] else queues
    ensures newStates == states[p := NextState(queues, states, p)]
  {
    newQueues := queues;
    var state := if p in states then states[p] else INITIAL_STATE;
    var step: Option<PainterStep> := None;
    if p in queues {
      step := Some(queues[p][0]);
      newQueues := queues[p := queues[p][1..]];
    }
    newStates := states[p := Update(state, step)];
  }

  /** The latest of the timestamps, or d when there are none. */
  method Latest(times: map<string, seq<int>>, d: int) returns (m: int)
    ensures LatestOr(times, d, m)
  {
    m := d;
    var found := false;
    ghost var wp: string, wi: int := "", 0;
    var remaining := times.Keys;
    while remaining != {}
      invariant remaining <= times.Keys
      invariant forall q, i :: q in times && q !in remaining && 0 <= i < |times[q]| ==> times[q][i] <= m
      invariant found ==> wp in times && 0 <= wi < |times[wp]| && times[wp][wi] == m
      invariant !found ==> m == d && forall q :: q in times && q !in remaining ==> |times[q]| == 0
      decreases remaining
    {
      var p :| p in remaining;
      var ts := times[p];
      var k := 0;
      while k < |ts|
        invariant 0 <= k <= |ts|
        invariant forall q, i :: q in times && q !in remaining && 0 <= i < |times[q]| ==> times[q][i] <= m
        invariant forall i :: 0 <= i < k ==> ts[i] <= m
        invariant found ==> wp in times && 0 <= wi < |times[wp]| && times[wp][wi] == m
        invariant !found ==> m == d && k == 0 && forall q :: q in times && q !in remaining ==> |times[q]| == 0
      {
        if !found || ts[k] > m {
          m := ts[k];
          wp, wi := p, k;
        }
        found := true;
        k := k + 1;
      }
      remaining := remaining - {p};
    }
  }

  /** The paint activity's state: the movement watermark, the queued steps and the painters. */
  class PaintState {
    var watermark: Option<int>
    var painterToSteps: map<string, seq<PainterStep>>
    var painterToState: map<string, PainterState>

    constructor()
      ensures watermark == None && painterToSteps == map[] && painterToState == map[]
    {
      watermark := None;
      painterToSteps := map[];
      painterToState := map[];
    }

    /**
     * `add_movements`. The first call sets the watermark to the latest
     * movement it is given, or 0. The returned cutoff is the watermark the
     * movements are compared with; afterwards the watermark is the latest
     * step still queued, or the cutoff when every queue is empty.
     */
    method AddMovements(input: map<string, seq<Movement>>) returns (cutoff: int)
      modifies this`watermark, this`painterToSteps
      ensures old(watermark).Some? ==> cutoff == old(watermark).value
      ensures old(watermark).None? ==> LatestOr(MovementTimes(input), 0, cutoff)
      ensures painterToSteps == AddedQueues(old(painterToSteps), input, cutoff)
      ensures watermark.Some? && LatestOr(StepTimes(painterToSteps), cutoff, watermark.value)
    {
      if watermark.None? {
        var first := Latest(MovementTimes(input), 0);
        watermark := Some(first);
      }
      cutoff := watermark.value;
      painterToSteps := AddAll(painterToSteps, input, cutoff);
      var latest := Latest(StepTimes(painterToSteps), cutoff);
      watermark := Some(latest);
    }

    /** `tick_state`: drop empty queues, then every painter takes its next step, if any. */
    method TickState()
      modifies this`painterToSteps, this`painterToState
      ensures painterToSteps == TickQueues(old(painterToSteps))
      ensures painterToState == TickStates(old(painterToSteps), old(painterToState))
    {
      var queues := map p | p in painterToSteps && |painterToSteps[p]| > 0 :: painterToSteps[p];
      painterToSteps, painterToState := StepAll(queues, painterToState);
    }
  }
}
