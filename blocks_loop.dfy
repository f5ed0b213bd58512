/**
 * The frame loop of the blocks game (controller/shooting_stars/blocks.py,
 * `run_blocks`): which web inputs are applied to the game, when the computer
 * takes over and which single action it takes per turn, and what is sent
 * back to the web server.
 *
 * The game mechanics belong to a separate library; here a game is only its
 * mode and the list of actions it has been given. Clock readings are
 * parameters and the sleeps are not modelled.
 */
module BlocksLoop {
  import opened Wrappers
  import opened Ejson

  /** Seconds without a new input after which the computer takes over. */
  const AI_TIMEOUT_SECONDS: real := 15.0
  /** Seconds between two moves of the computer. */
  const AI_MOVE_WAIT_SECONDS: real := 0.75

  datatype Action = Left | Right | Rotate | HardDrop

  /** A button press received from the web, with its server timestamp in milliseconds. */
  datatype Input = Input(kind: string, timestamp: int)

  /** A game as this loop sees it: whether the computer plays, and the actions given to it. */
  datatype Game = Game(aiMode: bool, actions: seq<Action>)

  const NEW_GAME := Game(false, [])

  /** The input kinds the game reacts to; any other kind is skipped. */
  function InputAction(kind: string): Option<Action> {
    if kind == "left" then Some(Left)
    else if kind == "right" then Some(Right)
    else if kind == "rotate" then Some(Rotate)
    else if kind == "drop" then Some(HardDrop)
    else None
  }

  /**
   * How input handling can abort the loop: the first batch is empty, so its
   * maximum is undefined; or the loop variable of the input loop is read
   * before any input was ever listed.
   */
  datatype InputError = NoInputs | UnboundInput

  /**
   * The loop state input handling reads and writes: the timestamp watermark
   * (absent until the first batch), the input the input loop last bound, the
   * game, the clock reading of the last new input, whether updates go to the
   * web, and how often the model was reset.
   */
  datatype InputState = InputState(
    watermark: Option<int>,
    lastListed: Option<Input>,
    game: Game,
    lastInputTime: real,
    webUpdatesEnabled: bool,
    modelResets: nat)

  function MaxTimestamp(inputs: seq<Input>): (m: int)
    requires |inputs| > 0
    ensures forall i :: 0 <= i < |inputs| ==> inputs[i].timestamp <= m
    ensures exists i :: 0 <= i < |inputs| && inputs[i].timestamp == m
  {
    if |inputs| == 1 then inputs[0].timestamp
    else
      var rest := MaxTimestamp(inputs[1..]);
      assert forall i :: 1 <= i < |inputs| ==> inputs[i] == inputs[1..][i - 1];
      if inputs[0].timestamp >= rest then inputs[0].timestamp else rest
  }

  /**
   * A new input: it re-enables web updates and restarts the idle clock; in AI
   * mode it starts a new game and resets the model instead of being applied.
   */
  function ApplyInput(s: InputState, input: Input, now: real): InputState {
    var s' := s.(lastInputTime := now, webUpdatesEnabled := true);
    if s.game.aiMode then s'.(game := NEW_GAME, modelResets := s.modelResets + 1)
    else
      match InputAction(input.kind)
      case None => s'
      case Some(a) => s'.(game := s.game.(actions := s.game.actions + [a]))
  }

  /** The input loop over a listed batch: inputs at or below the watermark w are skipped. */
  function ApplyFresh(s: InputState, inputs: seq<Input>, w: int, now: real): InputState {
    if |inputs| == 0 then s
    else
      var before := ApplyFresh(s, inputs[..|inputs| - 1], w, now);
      var input := inputs[|inputs| - 1];
      (if input.timestamp <= w then before else ApplyInput(before, input, now)).(lastListed := Some(input))
  }

  /**
   * One pass of input handling. Nothing happens while the subscription holds
   * no record. The first batch only sets the watermark to its maximum
   * timestamp. Afterwards the new inputs are applied and the watermark
   * becomes the larger of its old value and the timestamp of the input the
   * loop variable last held.
   */
  function HandleBatch(s: InputState, inputs: Option<seq<Input>>, now: real): Result<InputState, InputError> {
    if inputs.None? then Ok(s)
    else if s.watermark.None? && |inputs.value| == 0 then Err(NoInputs)
    else
      var w := if s.watermark.None? then MaxTimestamp(inputs.value) else s.watermark.value;
      var t := ApplyFresh(s, inputs.value, w, now);
      if t.lastListed.None? then Err(UnboundInput)
      else Ok(t.(watermark := Some(Max(w, t.lastListed.value.timestamp))))
  }

  /** Whether the input moves the watermark w. */
  predicate Fresh(input: Input, w: int) {
    input.timestamp > w
  }

  /** The actions of the fresh inputs of a batch whose kind the game knows, in order. */
  function FreshActions(inputs: seq<Input>, w: int): seq<Action> {
    if |inputs| == 0 then []
    else
      var input := inputs[|inputs| - 1];
      FreshActions(inputs[..|inputs| - 1], w) +
        if Fresh(input, w) && InputAction(input.kind).Some? then [InputAction(input.kind).value] else []
  }

  lemma {:induction false} ApplyFreshLastListed(s: InputState, inputs: seq<Input>, w: int, now: real)
    ensures ApplyFresh(s, inputs, w, now).lastListed == if |inputs| == 0 then s.lastListed else Some(inputs[|inputs| - 1])
    ensures ApplyFresh(s, inputs, w, now).watermark == s.watermark
    ensures ApplyFresh(s, inputs, w, now).modelResets >= s.modelResets
  {
    if |inputs| > 0 {
      ApplyFreshLastListed(s, inputs[..|inputs| - 1], w, now);
    }
  }

  /** A batch in which nothing is fresh changes only the loop variable. */
  lemma {:induction false} StaleBatchIgnored(s: InputState, inputs: seq<Input>, w: int, now: real)
    requires forall i :: 0 <= i < |inputs| ==> !Fresh(inputs[i], w)
    ensures ApplyFresh(s, inputs, w, now) ==
      s.(lastListed := if |inputs| == 0 then s.lastListed else Some(inputs[|inputs| - 1]))
  {
    if |inputs| > 0 {
      StaleBatchIgnored(s, inputs[..|inputs| - 1], w, now);
    }
  }

  /** Outside AI mode, exactly the fresh inputs are applied, in order, and inputs of unknown kind are skipped. */
  lemma {:induction false} FreshInputsApplied(s: InputState, inputs: seq<Input>, w: int, now: real)
    requires !s.game.aiMode
    ensures ApplyFresh(s, inputs, w, now).game == s.game.(actions := s.game.actions + FreshActions(inputs, w))
    ensures ApplyFresh(s, inputs, w, now).modelResets == s.modelResets
  {
    if |inputs| > 0 {
      FreshInputsApplied(s, inputs[..|inputs| - 1], w, now);
    }
  }

  lemma {:induction false} ApplyFreshAppend(s: InputState, a: seq<Input>, b: seq<Input>, w: int, now: real)
    ensures ApplyFresh(s, a + b, w, now) == ApplyFresh(ApplyFresh(s, a, w, now), b, w, now)
  {
    if |b| == 0 {
      assert a + b == a;
    } else {
      assert (a + b)[..|a + b| - 1] == a + b[..|b| - 1];
      ApplyFreshAppend(s, a, b[..|b| - 1], w, now);
    }
  }

  /**
   * In AI mode the first fresh input starts a new game and resets the model
   * once; it is not applied itself, but every later fresh input is applied to
   * the new game.
   */
  lemma AiModeInputRestarts(s: InputState, inputs: seq<Input>, w: int, now: real, first: int)
    requires s.game.aiMode
    requires 0 <= first < |inputs| && Fresh(inputs[first], w)
    requires forall i :: 0 <= i < first ==> !Fresh(inputs[i], w)
    ensures ApplyFresh(s, inputs, w, now).game == NEW_GAME.(actions := FreshActions(inputs[first + 1..], w))
    ensures ApplyFresh(s, inputs, w, now).modelResets == s.modelResets + 1
    ensures ApplyFresh(s, inputs, w, now).lastInputTime == now
  {
    var a := inputs[..first + 1];
    var b := inputs[first + 1..];
    assert inputs == a + b;
    ApplyFreshAppend(s, a, b, w, now);
    assert a[..|a| - 1] == inputs[..first];
    StaleBatchIgnored(s, inputs[..first], w, now);
    var t := ApplyFresh(s, a, w, now);
    assert t.game == NEW_GAME && t.modelResets == s.modelResets + 1;
    FreshInputsApplied(t, b, w, now);
    ApplyFreshTime(t, b, w, now);
  }

  lemma {:induction false} ApplyFreshTime(s: InputState, inputs: seq<Input>, w: int, now: real)
    requires s.lastInputTime == now
    ensures ApplyFresh(s, inputs, w, now).lastInputTime == now
  {
    if |inputs| > 0 {
      ApplyFreshTime(s, inputs[..|inputs| - 1], w, now);
    }
  }

  /** The first batch only records its largest timestamp: no input of it reaches the game. */
  lemma FirstBatchIgnored(s: InputState, inputs: seq<Input>, now: real)
    requires s.watermark.None? && |inputs| > 0
    ensures HandleBatch(s, Some(inputs), now).Ok?
    ensures HandleBatch(s, Some(inputs), now).value.watermark == Some(MaxTimestamp(inputs))
    ensures HandleBatch(s, Some(inputs), now).value.game == s.game
    ensures HandleBatch(s, Some(inputs), now).value.lastInputTime == s.lastInputTime
  {
    StaleBatchIgnored(s, inputs, MaxTimestamp(inputs), now);
  }

  /** An empty first batch aborts the loop. */
  lemma EmptyFirstBatchFails(s: InputState, now: real)
    requires s.watermark.None?
    ensures HandleBatch(s, Some([]), now) == Err(NoInputs)
  {
  }

  /** The loop invariant of `run_blocks`: once there is a watermark, the loop variable has been bound. */
  predicate Bound(s: InputState) {
    s.watermark.Some? ==> s.lastListed.Some?
  }

  /**
   * Input handling keeps that invariant, fails only on an empty first batch,
   * and never lowers the watermark.
   */
  lemma HandleBatchKeepsBound(s: InputState, inputs: Option<seq<Input>>, now: real)
    requires Bound(s)
    ensures HandleBatch(s, inputs, now).Err? <==> s.watermark.None? && inputs == Some([])
    ensures HandleBatch(s, inputs, now).Ok? ==> Bound(HandleBatch(s, inputs, now).value)
    ensures HandleBatch(s, inputs, now).Ok? && s.watermark.Some? ==>
      HandleBatch(s, inputs, now).value.watermark.Some? &&
      HandleBatch(s, inputs, now).value.watermark.value >= s.watermark.value
  {
    if inputs.Some? && !(s.watermark.None? && |inputs.value| == 0) {
      var w := if s.watermark.None? then MaxTimestamp(inputs.value) else s.watermark.value;
      ApplyFreshLastListed(s, inputs.value, w, now);
    }
  }

  predicate SortedByTime(inputs: seq<Input>) {
    forall i, j :: 0 <= i < j < |inputs| ==> inputs[i].timestamp <= inputs[j].timestamp
  }

  /**
   * The server keeps inputs in arrival order. For such a batch the new
   * watermark covers every listed input, so handling the same batch again
   * applies nothing: each input reaches the game once.
   */
  lemma SortedBatchAppliedOnce(s: InputState, inputs: seq<Input>, now: real, later: real)
    requires Bound(s) && |inputs| > 0 && SortedByTime(inputs)
    ensures HandleBatch(s, Some(inputs), now).Ok?
    ensures var t := HandleBatch(s, Some(inputs), now).value;
      forall i :: 0 <= i < |inputs| ==> !Fresh(inputs[i], t.watermark.value)
    ensures var t := HandleBatch(s, Some(inputs), now).value;
      HandleBatch(t, Some(inputs), later).Ok? && HandleBatch(t, Some(inputs), later).value.game == t.game
  {
    HandleBatchKeepsBound(s, Some(inputs), now);
    var w := if s.watermark.None? then MaxTimestamp(inputs) else s.watermark.value;
    ApplyFreshLastListed(s, inputs, w, now);
    var t := HandleBatch(s, Some(inputs), now).value;
    assert t.watermark == Some(Max(w, inputs[|inputs| - 1].timestamp));
    StaleBatchIgnored(t, inputs, t.watermark.value, later);
  }

  /**
   * The watermark follows the input the loop listed last, not the largest
   * one: after a batch out of time order it stays below an input already
   * applied, and listing that batch again applies that input a second time.
   */
  lemma UnsortedBatchReapplied(s: InputState, w: int, now: real, later: real)
    requires s.watermark == Some(w) && !s.game.aiMode
    ensures var inputs := [Input("left", w + 10), Input("left", w + 1)];
      var r := HandleBatch(s, Some(inputs), now);
      r.Ok? && r.value.watermark == Some(w + 1) &&
      HandleBatch(r.value, Some(inputs), later).Ok? &&
      HandleBatch(r.value, Some(inputs), later).value.game.actions == r.value.game.actions + [Left]
  {
    var inputs := [Input("left", w + 10), Input("left", w + 1)];
    assert inputs[..1][..0] == [] && inputs[..1] == [inputs[0]] && inputs[..2] == inputs;
    assert InputAction("left") == Some(Left);
    assert ApplyFresh(s, inputs[..1][..0], w, now) == s;
    var a1 := ApplyFresh(s, inputs[..1], w, now);
    assert a1 == ApplyInput(s, inputs[0], now).(lastListed := Some(inputs[0]));
    var a2 := ApplyFresh(s, inputs, w, now);
    assert a2 == ApplyInput(a1, inputs[1], now).(lastListed := Some(inputs[1]));
    assert a2.game.actions == s.game.actions + [Left, Left] && !a2.game.aiMode;
    var t := HandleBatch(s, Some(inputs), now).value;
    assert t == a2.(watermark := Some(w + 1));
    assert ApplyFresh(t, inputs[..1][..0], w + 1, later) == t;
    var b1 := ApplyFresh(t, inputs[..1], w + 1, later);
    assert b1 == ApplyInput(t, inputs[0], later).(lastListed := Some(inputs[0]));
    var b2 := ApplyFresh(t, inputs, w + 1, later);
    assert b2 == b1.(lastListed := Some(inputs[1]));
    assert b2.game.actions == t.game.actions + [Left];
  }

  // ---- The computer's turn ----

  /** The piece under control: its column and rotation. */
  datatype Piece = Piece(y: int, r: int)

  /** The placement the trainer chose. */
  datatype Move = Move(y: int, r: int)

  /** One step towards the chosen placement: rotate first, then shift one column, then drop. */
  function AiAction(piece: Piece, target: Move): (a: Action)
    ensures a == HardDrop <==> piece.r == target.r && piece.y == target.y
    ensures a == Rotate <==> piece.r != target.r
    ensures a == Left <==> piece.r == target.r && piece.y > target.y
    ensures a == Right <==> piece.r == target.r && piece.y < target.y
  {
    if piece.r != target.r then Rotate
    else if piece.y > target.y then Left
    else if piece.y < target.y then Right
    else HardDrop
  }

  /** An unobstructed piece: a rotation turns it a quarter, a shift moves it one column. */
  function IdealMove(piece: Piece, a: Action): Piece {
    match a
    case Rotate => piece.(r := (piece.r + 1) % 4)
    case Left => piece.(y := piece.y - 1)
    case Right => piece.(y := piece.y + 1)
    case HardDrop => piece
  }

  function Distance(a: int, b: int): nat {
    if a <= b then b - a else a - b
  }

  /** Quarter turns still needed plus columns still to cross. */
  function StepsToTarget(piece: Piece, target: Move): nat
    requires 0 <= piece.r < 4 && 0 <= target.r < 4
  {
    (target.r - piece.r) % 4 + Distance(piece.y, target.y)
  }

  /** Every step that is not the drop brings an unobstructed piece one step closer. */
  lemma AiStepProgress(piece: Piece, target: Move)
    requires 0 <= piece.r < 4 && 0 <= target.r < 4
    ensures StepsToTarget(piece, target) == 0 <==> AiAction(piece, target) == HardDrop
    ensures AiAction(piece, target) != HardDrop ==>
      0 <= IdealMove(piece, AiAction(piece, target)).r < 4 &&
      StepsToTarget(IdealMove(piece, AiAction(piece, target)), target) == StepsToTarget(piece, target) - 1
  {
  }

  /** The piece after n computer turns. */
  function AiRun(piece: Piece, target: Move, n: nat): Piece
    decreases n
  {
    if n == 0 then piece else AiRun(IdealMove(piece, AiAction(piece, target)), target, n - 1)
  }

  /**
   * An unobstructed piece reaches the chosen placement after exactly
   * StepsToTarget turns, at which point the next action is the drop.
   */
  lemma {:induction false} AiConverges(piece: Piece, target: Move)
    requires 0 <= piece.r < 4 && 0 <= target.r < 4
    ensures AiRun(piece, target, StepsToTarget(piece, target)) == Piece(target.y, target.r)
    ensures AiAction(AiRun(piece, target, StepsToTarget(piece, target)), target) == HardDrop
    decreases StepsToTarget(piece, target)
  {
    AiStepProgress(piece, target);
    if StepsToTarget(piece, target) > 0 {
      AiConverges(IdealMove(piece, AiAction(piece, target)), target);
    }
  }

  /** The `blocks.updateState` argument the loop sends: the score, the playfield and the mode. */
  function StatePayload(score: int, playfield: seq<seq<int>>, aiMode: bool): (v: Json)
    ensures HasExactKeys(v, {"score", "playfield", "aiMode"})
    ensures Get(v, "playfield") == GridJson(playfield) && Get(v, "aiMode") == JBool(aiMode)
  {
    JObj(map["score" := JNum(score as real), "playfield" := GridJson(playfield), "aiMode" := JBool(aiMode)])
  }

  /** The state of `run_blocks` across frames. */
  class Loop {
    var watermark: Option<int>
    var lastListed: Option<Input>
    var game: Game
    var lastInputTime: real
    var lastAiTime: real
    var webUpdatesEnabled: bool
    var modelResets: nat

    function View(): InputState
      reads this
    {
      InputState(watermark, lastListed, game, lastInputTime, webUpdatesEnabled, modelResets)
    }

    /** The loop starts with no watermark, a new game, both clocks at `now` and web updates on. */
    constructor(now: real)
      ensures View() == InputState(None, None, NEW_GAME, now, true, 0)
      ensures lastAiTime == now
    {
      watermark := None;
      lastListed := None;
      game := NEW_GAME;
      lastInputTime := now;
      lastAiTime := now;
      webUpdatesEnabled := true;
      modelResets := 0;
    }

    /** The input handling of one frame; on an error the loop is left with nothing changed. */
    method HandleInputs(inputs: Option<seq<Input>>, now: real) returns (error: Option<InputError>)
      modifies this`watermark, this`lastListed, this`game, this`lastInputTime, this`webUpdatesEnabled, this`modelResets
      ensures error.None? <==> HandleBatch(old(View()), inputs, now).Ok?
      ensures error.None? ==> View() == HandleBatch(old(View()), inputs, now).value
      ensures error.Some? ==> error.value == HandleBatch(old(View()), inputs, now).error && View() == old(View())
    {
      if inputs.None? {
        return None;
      }
      var batch := inputs.value;
      var w: int;
      if watermark.None? {
        if |batch| == 0 {
          return Some(NoInputs);
        }
        w := MaxTimestamp(batch);
      } else {
        w := watermark.value;
      }
      ghost var start := View();
      var k := 0;
      while k < |batch|
        invariant 0 <= k <= |batch|
        invariant View() == ApplyFresh(start, batch[..k], w, now)
      {
        assert batch[..k + 1][..k] == batch[..k];
        var input := batch[k];
        lastListed := Some(input);
        if input.timestamp > w {
          lastInputTime := now;
          webUpdatesEnabled := true;
          if game.aiMode {
            game := NEW_GAME;
            modelResets := modelResets + 1;
          } else {
            match InputAction(input.kind)
            case None =>
            case Some(a) =>
              game := game.(actions := game.actions + [a]);
          }
        }
        k := k + 1;
      }
      assert batch[..k] == batch;
      if lastListed.None? {
        return Some(UnboundInput);
      }
      watermark := Some(Max(w, lastListed.value.timestamp));
      error := None;
    }

    /** After AI_TIMEOUT_SECONDS without a new input the computer takes over; only a new game hands back. */
    method UpdateMode(now: real)
      modifies this`game
      ensures game == if now - lastInputTime > AI_TIMEOUT_SECONDS then old(game).(aiMode := true) else old(game)
    {
      if now - lastInputTime > AI_TIMEOUT_SECONDS {
        game := game.(aiMode := true);
      }
    }

    /**
     * The game runs while the device is connected or a person plays. Then, in
     * AI mode with a chosen placement and the move wait elapsed, the computer
     * takes one step towards it. After the game's tick the move slot is read
     * again, and a choice is requested from the trainer when it is empty.
     * Between the two reads a piece that locks clears the slot, and the
     * trainer thread may fill it: both reads are parameters.
     */
    method AiTurn(connected: bool, chosen: Option<Move>, chosenAfterTick: Option<Move>, piece: Piece, now: real)
      returns (runs: bool, action: Option<Action>, requestsMove: bool)
      modifies this`game, this`lastAiTime
      ensures runs == (connected || !old(game).aiMode)
      ensures action.Some? <==> runs && old(game).aiMode && chosen.Some? && now - old(lastAiTime) > AI_MOVE_WAIT_SECONDS
      ensures action.Some? ==>
        action.value == AiAction(piece, chosen.value) &&
        game == old(game).(actions := old(game).actions + [action.value]) && lastAiTime == now
      ensures action.None? ==> game == old(game) && lastAiTime == old(lastAiTime)
      ensures requestsMove == (runs && old(game).aiMode && chosenAfterTick.None?)
    {
      runs := connected || !game.aiMode;
      action := None;
      requestsMove := false;
      if runs {
        if game.aiMode && chosen.Some? && now - lastAiTime > AI_MOVE_WAIT_SECONDS {
          lastAiTime := now;
          var a := AiAction(piece, chosen.value);
          game := game.(actions := game.actions + [a]);
          action := Some(a);
        }
        requestsMove := game.aiMode && chosenAfterTick.None?;
      }
    }

    /**
     * The end of a frame: a lost game is replaced by a new one, out of AI
     * mode; the watermark, the clocks and the web update switch carry over,
     * and the model is not reset.
     */
    method EndFrame(lost: bool)
      modifies this`game
      ensures game == if lost then NEW_GAME else old(game)
      ensures View() == old(View()).(game := game) && lastAiTime == old(lastAiTime)
    {
      if lost {
        game := NEW_GAME;
      }
    }

    /**
     * The state is sent to the web while updates are enabled; the first state
     * sent in AI mode is the last until a new input arrives.
     */
    method WebUpdate(score: int, playfield: seq<seq<int>>) returns (sent: Option<Json>)
      modifies this`webUpdatesEnabled
      ensures sent.Some? <==> old(webUpdatesEnabled)
      ensures sent.Some? ==> sent.value == StatePayload(score, playfield, game.aiMode)
      ensures webUpdatesEnabled == (old(webUpdatesEnabled) && !game.aiMode)
    {
      sent := None;
      if webUpdatesEnabled {
        sent := Some(StatePayload(score, playfield, game.aiMode));
        if game.aiMode {
          webUpdatesEnabled := false;
        }
      }
    }
  }
}
