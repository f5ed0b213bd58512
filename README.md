# shooting-stars, modelled in Dafny

Shooting Stars drives a string of LED lights from a Python controller and a
Meteor web application. Visitors use the web pages to send paint movements,
game inputs, presence maps, pictures and colour modes. Meteor server methods
validate these and keep bounded histories of them. The controller mirrors the
collections over DDP, Meteor's data protocol, and turns them into frames for the
device.

This project models the discrete bookkeeping between the network and the LEDs
and proves what it promises.

**Controller (Python)**

- `subscription.dfy` (`Subscription`): the DDP mirror.
  - `added`/`changed`/`removed` update a map from record id to field map.
  - `ping` is answered with `pong`, and `connected` subscribes under a fresh id.
  - An id counter feeds `sub` and `method` ids.
  - The reconnect back-off doubles up to a minute and resets after a long attempt.
  - The class `Subscription` holds the mirror and the counters.
- `device.dfy` (`Device`): the device handle.
  - The connectivity monitor is a two-state machine.
  - `set_frame_array` checks its guards in order, then serialises the frame row by row.
- `animation.dfy` (`Animation`): the one-hot column frame and the wrapping frame counter with its fixed-step schedule.
- `blocks_render.dfy` (`BlocksRender`): the snake layout of the 20×10 game grid onto 200 LEDs, which is a bijection, and the drawing of the playfield and borders.
- `blocks_trainer.dfy` (`BlocksTrainer`): the trainer's discrete parts:
  - the possible moves and the overlap test;
  - the drop search and the board statistics;
  - the per-move features and the training labels.
- `blocks_loop.dfy` (`BlocksLoop`): the game loop's input watermark, the AI's one-action-per-step chooser, and the state payload sent to the server.
- `presence.dfy` (`Presence`):
  - per remote controller, a watermark and a bounded queue of presence maps;
  - a frame tick that consumes at most one map.
- `cone.dfy` (`Cone`):
  - per painter, a queue of steps, a watermark over the queued steps and the painter states;
  - `PainterState.update`'s step list, timestamp and colour.

**Meteor server methods (JavaScript)**

- `presence_methods.dfy`: `presence.getConfig` and `presence.sendPresence`. Validation checks the map's shape and values; the event list keeps the latest ten sorted events plus the new one.
- `paint_methods.dfy`: `paint.sendMovement` (append, per-painter truncation, painter eviction). It is written both as a function and as an in-place method that matches it.
- `blocks_methods.dfy`:
  - `blocks.sendInput`: the input whitelist and the 5-second expiry;
  - `blocks.updateState`: the token check and a high score that only goes up.
- `pictures_methods.dfy`: `pictures.setPicture`, a picture-key whitelist and a single-record upsert.
- `lights_methods.dfy`: `lights.setColourMode` from both Meteor applications, a colour-mode whitelist and a one-field update.

**Shared modules**

- `ejson.dfy`: JSON values and Meteor's `check` patterns. `Match.Integer` is a 32-bit signed integer, and an object pattern requires exactly its listed keys.
- `js_array.dfy`:
  - the JavaScript array operations used: stable sort, `slice`, `filter`;
  - the facts proved about them.
- `wrappers.dfy`: `Option` and `Result`.

Two things in the model are assumptions of my own:

- The JavaScript object key order follows section 10.1.11.1 of ECMA-262 (OrdinaryOwnPropertyKeys). Non-negative integer keys come first in ascending order, then other keys in insertion order.
- Python's `max` over an empty sequence and unbound loop variables are modelled as error values.

## Model

| member | source | states |
|---|---|---|
| Subscription.Decimal | controller/shooting_stars/subscription.py:38-41 | the id string is a non-empty string of decimal digits |
| Subscription.DecimalRoundTrip | controller/shooting_stars/subscription.py:38-41 | parsing the decimal id string gives back the counter value |
| Subscription.DecimalInjective | controller/shooting_stars/subscription.py:38-41 | distinct counter values give distinct id strings |
| Subscription.DecimalNoLeadingZero | controller/shooting_stars/subscription.py:38-41 | id strings of positive counters have no leading zero |
| Subscription.Apply | controller/shooting_stars/subscription.py:116-129 | the effect of one message on the mirror: `added`/`changed`/`removed` for the subscribed collection, everything else ignored; its properties are the lemmas below |
| Subscription.Closes | controller/shooting_stars/subscription.py:112-119 | the messages after which the socket closes: `nosub`, and an `added` without fields, whose missing key raises inside the callback |
| Subscription.ApplyAll | controller/shooting_stars/subscription.py:98-138 | the mirror after a sequence of messages, first first; see ApplyAllAppend and ApplyAllLocal |
| Subscription.AddedReplaces | controller/shooting_stars/subscription.py:116-119 | `added` for the subscribed collection sets the record to exactly the message's fields, replacing any earlier record, and touches no other id |
| Subscription.ForeignCollectionIgnored | controller/shooting_stars/subscription.py:116-129 | data messages for another collection leave the mirror unchanged |
| Subscription.ChangedMergesThenClears | controller/shooting_stars/subscription.py:120-126 | `changed` on a present id overwrites with the new fields and then drops every cleared key; on an absent id nothing changes |
| Subscription.ChangedIdempotent | controller/shooting_stars/subscription.py:14-18 | applying the same `changed` twice equals applying it once |
| Subscription.ClearedFieldScenario | controller/shooting_stars/subscription.py:116-126 | a field set and cleared in the same `changed` is absent afterwards |
| Subscription.ApplyLocal | controller/shooting_stars/subscription.py:98-138 | two mirrors that agree outside an id still agree outside it after any message |
| Subscription.ApplyAllLocal | controller/shooting_stars/subscription.py:98-138 | two mirrors that agree outside an id still agree outside it after any sequence of messages |
| Subscription.ApplyAllAppend | controller/shooting_stars/subscription.py:98-138 | handling one more message after a sequence equals handling the extended sequence |
| Subscription.AddedThenRemoved | controller/shooting_stars/subscription.py:116-129 | after `added`, any messages and `removed`, the id is absent and the rest is as if the `added` had not happened |
| Subscription.BackoffStep | controller/shooting_stars/subscription.py:72-83 | exits exactly when stopped; after a short attempt the delay doubles, capped at 60, and is slept; a long attempt resets it to 1 with no sleep; the delay stays in [1,60] |
| Subscription.Sleeps | controller/shooting_stars/subscription.py:72-83 | the sleeps of the reconnect loop over its attempts, each the back-off step of the previous delay; see ShortFailuresDouble and LongAttemptResets |
| Subscription.Run | controller/shooting_stars/subscription.py:55-85 | the reconnect loop sleeps exactly the back-off sleeps of its attempts, each between 2 and 60 seconds |
| Subscription.ShortFailuresDouble | controller/shooting_stars/subscription.py:75-81 | short failures from delay d sleep d·2, d·4, d·8, … capped at 60 |
| Subscription.ThreeShortFailures | controller/shooting_stars/subscription.py:75-81 | from the start, three short failures sleep 2, then 4, then 8 |
| Subscription.LongAttemptResets | controller/shooting_stars/subscription.py:82-83 | an attempt of 10 s or more resets the delay to 1 without sleeping |
| Subscription.StoppedExitsWithoutSleep | controller/shooting_stars/subscription.py:72-73 | a stopped subscription exits before any sleep |
| Subscription.Subscription.constructor | controller/shooting_stars/subscription.py:27-36 | url, name and token as given; empty mirror, stopped, both counters 0 |
| Subscription.Subscription.NextId | controller/shooting_stars/subscription.py:38-41 | the counter goes up by one and the id is its decimal string |
| Subscription.Subscription.OnOpen | controller/shooting_stars/subscription.py:90-96 | sends one `connect` with version 1 |
| Subscription.Subscription.OnMessage | controller/shooting_stars/subscription.py:98-138 | the mirror follows `Apply`; `connected` sends one `sub` with the name and a fresh id; `ping` sends exactly one `pong` with the same id; the rest send nothing and leave the counters; the socket closes exactly on the messages `Closes` names |
| Subscription.Subscription.Call | controller/shooting_stars/subscription.py:150-157 | the counter goes up by one and one `method` message is sent with its decimal id, the name and the params |
| Subscription.IdsAreFresh | controller/shooting_stars/subscription.py:38-41 | two successive ids differ |
| Device.MonitorStep | controller/shooting_stars/device.py:58-76 | one monitor iteration: connected polls, disconnected reconnects; see PollWhileConnected and ReconnectWhileDisconnected |
| Device.MonitorRun | controller/shooting_stars/device.py:57-76 | the monitor loop over its iterations, ending with the iteration during which it was stopped; see RunMonitor |
| Device.PollWhileConnected | controller/shooting_stars/device.py:60-70 | while connected, status 1000 keeps the link; any other status or a failed poll drops it |
| Device.ReconnectWhileDisconnected | controller/shooting_stars/device.py:71-76 | while disconnected, the link comes back exactly when reconnecting succeeds |
| Device.RowMajor | controller/shooting_stars/device.py:87-90 | the bytes of a frame in C order, row after row; see RowMajorLength, RowMajorAt and RowsOfRowMajor |
| Device.RowMajorLength | controller/shooting_stars/device.py:87-90 | the serialised frame has rows·columns bytes |
| Device.RowMajorAt | controller/shooting_stars/device.py:87-90 | byte k·C+c is entry [k][c] |
| Device.RowsOfRowMajor | controller/shooting_stars/device.py:87-90 | cutting the bytes back into rows gives the matrix again |
| Device.Device.constructor | controller/shooting_stars/device.py:32-36 | a new handle is disconnected, with no control channel and the monitor not stopped |
| Device.Device.StopMonitor | controller/shooting_stars/device.py:43-44 | sets only the stop flag |
| Device.Device.MonitorOnce | controller/shooting_stars/device.py:58-76 | one monitor step follows `MonitorStep` and changes only the link |
| Device.Device.RunMonitor | controller/shooting_stars/device.py:57-76 | a stopped monitor does nothing; otherwise the link follows `MonitorRun` over the ticks; the monitor ends stopped exactly when some tick requests a stop during its sleep, the loop then ends after the first such tick, and otherwise it runs every tick |
| Device.Device.SetFrameArray | controller/shooting_stars/device.py:78-92 | disconnected is refused first, then a non-byte dtype; otherwise the bytes sent are the row-major frame, rows·columns bytes in 0..255, which cut back into rows give the frame again |
| Device.FailedPollScenario | controller/shooting_stars/device.py:57-82 | a failed poll makes the next frame be refused as disconnected |
| Animation.Frame | controller/shooting_stars/animation.py:16-18 | a 190×4 frame whose column `frame_idx % 4` is 255 and every other entry 0 |
| Animation.BuildFrame | controller/shooting_stars/animation.py:17-18 | the zeroed array with that column set equals `Frame` |
| Animation.RenderFrame | controller/shooting_stars/animation.py:16-19 | refused when disconnected; otherwise the bytes sent are `Frame(frame_idx)` in row-major order |
| Animation.NextFrameIndex | controller/shooting_stars/animation.py:35-36 | advancing the wrapped index by one modulo 10000 gives (k+1) mod 10000 |
| Animation.FirstDisconnected | controller/shooting_stars/animation.py:26-32 | the number of frames pushed before the first disconnected one: all before it connected, it (if any) disconnected |
| Animation.RunAnimation | controller/shooting_stars/animation.py:22-39 | fed with the connectivity the monitor thread leaves before each frame, the loop pushes frames up to the first disconnected one, where it stops with `DeviceDisconnected` (none while every frame is connected); before that, the k-th frame has index k mod 10000 and the k-th sleep lasts until start + (k+1)·delay and is never negative |
| BlocksRender.FrameIndex | controller/shooting_stars/blocks.py:56-73 | the snake layout from grid cell to light; proved a bijection onto 0..199 by GridBijection and FrameIndexInjective |
| BlocksRender.GridPosition | controller/shooting_stars/blocks.py:56-73 | the grid cell of an LED index, which lies in the grid (the inverse of the layout, see the bijection lemmas) |
| BlocksRender.FrameIndexRange | controller/shooting_stars/blocks.py:56-73 | every grid cell maps into [0,200); columns below 5 into [0,100), the others into [100,200) |
| BlocksRender.GridPositionOfFrameIndex | controller/shooting_stars/blocks.py:56-73 | `GridPosition` undoes `FrameIndex` |
| BlocksRender.FrameIndexOfGridPosition | controller/shooting_stars/blocks.py:56-73 | `FrameIndex` undoes `GridPosition` |
| BlocksRender.GridBijection | controller/shooting_stars/blocks.py:56-73 | the layout is a bijection between the grid and the 200 LEDs |
| BlocksRender.FrameIndexInjective | controller/shooting_stars/blocks.py:56-73 | distinct cells get distinct LEDs |
| BlocksRender.SnakeOrder | controller/shooting_stars/blocks.py:58-70 | within a half, consecutive LED indices are adjacent grid cells |
| BlocksRender.HalfEnds | controller/shooting_stars/blocks.py:58-69 | the ends of the two halves as the arithmetic computes them: (0,4)→0, (19,0)→99, (0,5)→100, (19,9)→199 |
| BlocksRender.Colour | controller/shooting_stars/blocks.py:37-48 | every colour is a byte triple and empty cells are black |
| BlocksRender.BorderColour | controller/shooting_stars/blocks.py:89 | the border colour (grey in AI mode, dark red otherwise) is a byte triple |
| BlocksRender.PlayfieldColour | controller/shooting_stars/blocks.py:79-87 | playfield row i colours grid row i+1, other rows stay black; see DrawPlayfield |
| BlocksRender.GameColour | controller/shooting_stars/blocks.py:79-92 | the border colour on the top and bottom rows, the playfield colour elsewhere; see RenderGame and RenderedCells |
| BlocksRender.SetPixel | controller/shooting_stars/blocks.py:87 | writes the three colour bytes of one LED and nothing else |
| BlocksRender.DrawPlayfield | controller/shooting_stars/blocks.py:81-87 | every LED gets its playfield colour: playfield row i at grid row i+1, black where nothing is drawn |
| BlocksRender.DrawBorders | controller/shooting_stars/blocks.py:89-92 | every LED gets its game colour: the border colour in rows 0 and 19, the playfield colour elsewhere |
| BlocksRender.RenderGame | controller/shooting_stars/blocks.py:75-100 | refused when disconnected; otherwise LED i shows the game colour of the grid cell the snake layout gives it |
| BlocksRender.RenderedCells | controller/shooting_stars/blocks.py:75-92 | each LED shows its cell's colour: border, playfield or black |
| BlocksTrainer.MinY | controller/shooting_stars/blocks.py:181 | the smallest mino column offset |
| BlocksTrainer.MaxY | controller/shooting_stars/blocks.py:182 | the largest mino column offset |
| BlocksTrainer.MinX | controller/shooting_stars/blocks.py:238 | the smallest mino row offset |
| BlocksTrainer.RotationMoves | controller/shooting_stars/blocks.py:179-184 | the columns one rotation can take, left to right; see RotationMovesIff |
| BlocksTrainer.PossibleMoves | controller/shooting_stars/blocks.py:173-184 | every rotation in order, each with its columns; see PossibleMovesIff and PossibleMovesDistinct |
| BlocksTrainer.RotationMovesIff | controller/shooting_stars/blocks.py:179-184 | a rotation yields exactly the columns where every mino fits the width |
| BlocksTrainer.MovesUpToIff | controller/shooting_stars/blocks.py:179-184 | the moves of the first rotations are exactly those fitting moves |
| BlocksTrainer.MovesUpToOrdered | controller/shooting_stars/blocks.py:179-184 | moves come in rotation, then column order |
| BlocksTrainer.PossibleMovesDistinct | controller/shooting_stars/blocks.py:179-184 | no move is yielded twice |
| BlocksTrainer.PossibleMovesIff | controller/shooting_stars/blocks.py:173-184 | a move is possible exactly when r is in 0..3 and every mino column is inside the board |
| BlocksTrainer.Overlaps | controller/shooting_stars/blocks.py:186-199 | the minos tried in order, the row range before the cell; see OverlapsIff |
| BlocksTrainer.OverlapsIff | controller/shooting_stars/blocks.py:186-199 | for a piece inside the columns, true exactly when some mino row is off the board or lands on a nonzero cell; columns are not checked |
| BlocksTrainer.DropRow | controller/shooting_stars/blocks.py:237-244 | the drop search returns the drop row: the last row before the first overlapping one |
| BlocksTrainer.DropRowUnique | controller/shooting_stars/blocks.py:240-244 | that row is the only one with this property |
| BlocksTrainer.DroppedPieceFits | controller/shooting_stars/blocks.py:240-248 | a piece that dropped at least one row below its start row has every mino on a free cell of the board, so it does not overlap; the start row itself is never tested (see StartRowOverwritten) |
| BlocksTrainer.StartRowOverwritten | controller/shooting_stars/blocks.py:237-248 | on a board whose top cell is filled, the search stays at the start row and the piece is written over the filled cell |
| BlocksTrainer.Top | controller/shooting_stars/blocks.py:214-215 | the highest filled row of a column (`np.argmax` on the filled cells), the row count for an empty column |
| BlocksTrainer.ColumnHeight | controller/shooting_stars/blocks.py:216-219 | the row count less the top index, 0 for an empty column; see MaxHeightBounds |
| BlocksTrainer.ColumnHoles | controller/shooting_stars/blocks.py:220-221 | the unfilled cells from the top filled cell down; see BoardStats |
| BlocksTrainer.TopFrom | controller/shooting_stars/blocks.py:214-215 | the first filled row of a column from a row on, or the row count |
| BlocksTrainer.MaxHeight | controller/shooting_stars/blocks.py:205-219 | the tallest of the first n columns; see MaxHeightBounds |
| BlocksTrainer.HighestRow | controller/shooting_stars/blocks.py:214-217 | the row of the highest filled cell, the row count less the maximum height; see MaxHeightBounds |
| BlocksTrainer.HoleCount | controller/shooting_stars/blocks.py:206-221 | the holes of the first n columns, added up; see BoardStats and EmptyStats |
| BlocksTrainer.BoardStats | controller/shooting_stars/blocks.py:201-226 | the loop computes the maximum height and the hole count as defined |
| BlocksTrainer.EmptyBoardStats | controller/shooting_stars/blocks.py:201-226 | an empty board has height 0 and no holes |
| BlocksTrainer.MaxHeightBounds | controller/shooting_stars/blocks.py:205-219 | over the first n columns, the maximum height is the height of the highest filled cell: at most the row count, at least the height of every filled cell, and when not 0 the height of some filled cell |
| BlocksTrainer.EmptyStats | controller/shooting_stars/blocks.py:209-212 | empty columns add no height and no holes |
| BlocksTrainer.Place | controller/shooting_stars/blocks.py:246-248 | placing a piece keeps the board's shape |
| BlocksTrainer.PlaceCells | controller/shooting_stars/blocks.py:246-248 | placing sets exactly the piece's cells and keeps the rest |
| BlocksTrainer.FullRows | controller/shooting_stars/blocks.py:254-255 | the number of full rows among the first n is at most n |
| BlocksTrainer.MoveFeatures | controller/shooting_stars/blocks.py:228-256 | the features are the stats and full rows of the board with the dropped piece |
| BlocksTrainer.TrainLabels | controller/shooting_stars/blocks.py:258-269 | one label per possible move |
| BlocksTrainer.TrainLabelsChooseOne | controller/shooting_stars/blocks.py:264-267 | at most one label is true, and one is true exactly when the move the game made is a possible move |
| BlocksLoop.InputAction | controller/shooting_stars/blocks.py:365-372 | the `type` dispatch: left, right, rotate and drop give their action; any other type does nothing; see FreshInputsApplied |
| BlocksLoop.MaxTimestamp | controller/shooting_stars/blocks.py:351 | the largest timestamp of a non-empty batch |
| BlocksLoop.ApplyInput | controller/shooting_stars/blocks.py:358-372 | one fresh input: re-enables web updates and restarts the idle clock; in AI mode a new game and a model reset instead of the action; see AiModeInputRestarts |
| BlocksLoop.ApplyFresh | controller/shooting_stars/blocks.py:353-374 | the input loop over a batch, skipping inputs at or below the watermark; see ApplyFreshLastListed, StaleBatchIgnored, FreshInputsApplied |
| BlocksLoop.HandleBatch | controller/shooting_stars/blocks.py:348-375 | one pass of input handling, with the first batch only setting the watermark; see HandleBatchKeepsBound, SortedBatchAppliedOnce, UnsortedBatchReapplied |
| BlocksLoop.ApplyFreshLastListed | controller/shooting_stars/blocks.py:353-374 | the loop over a batch records the last listed input (from which the new watermark is taken) and leaves the watermark it compares against unchanged |
| BlocksLoop.StaleBatchIgnored | controller/shooting_stars/blocks.py:353-356 | a batch with no input newer than the watermark changes only the last listed input |
| BlocksLoop.FreshInputsApplied | controller/shooting_stars/blocks.py:353-372 | exactly the inputs newer than the watermark are applied, in order |
| BlocksLoop.ApplyFreshAppend | controller/shooting_stars/blocks.py:353-372 | handling a batch in two parts equals handling it at once |
| BlocksLoop.AiModeInputRestarts | controller/shooting_stars/blocks.py:358-364 | in AI mode a fresh input starts a new game instead of being applied |
| BlocksLoop.ApplyFreshTime | controller/shooting_stars/blocks.py:358 | once the last-input time is `now` it stays `now` through the batch |
| BlocksLoop.FirstBatchIgnored | controller/shooting_stars/blocks.py:349-351 | the first non-empty batch only sets the watermark to its max |
| BlocksLoop.EmptyFirstBatchFails | controller/shooting_stars/blocks.py:351 | an empty first batch is an error |
| BlocksLoop.HandleBatchKeepsBound | controller/shooting_stars/blocks.py:348-375 | a batch fails exactly when it is an empty first batch; a successful one keeps the loop variable bound (`Bound`) and never lowers the watermark. It does not keep the watermark above every input seen: see UnsortedBatchReapplied, and SortedBatchAppliedOnce for time-sorted batches |
| BlocksLoop.SortedBatchAppliedOnce | controller/shooting_stars/blocks.py:348-375 | after a time-sorted batch none of its inputs is fresh, so handling it again leaves the game as it is |
| BlocksLoop.UnsortedBatchReapplied | controller/shooting_stars/blocks.py:352-375 | the watermark follows the input listed last: after a batch out of time order it is below an input already applied, and the same batch applies that input again |
| BlocksLoop.AiAction | controller/shooting_stars/blocks.py:390-397 | rotate while the rotation differs, then left or right towards the target column, then hard drop |
| BlocksLoop.AiStepProgress | controller/shooting_stars/blocks.py:388-397 | each non-drop action brings the piece one step closer to the target |
| BlocksLoop.AiConverges | controller/shooting_stars/blocks.py:383-397 | the AI reaches the hard drop within the distance to the target |
| BlocksLoop.StatePayload | controller/shooting_stars/blocks.py:422-426 | the payload carries exactly score, playfield and aiMode |
| BlocksLoop.Loop.constructor | controller/shooting_stars/blocks.py:333-339 | no watermark, no last input, a new game, web updates on, no model resets |
| BlocksLoop.Loop.HandleInputs | controller/shooting_stars/blocks.py:347-375 | the loop over a batch ends in the state `HandleBatch` gives |
| BlocksLoop.Loop.UpdateMode | controller/shooting_stars/blocks.py:377-379 | AI mode is switched on once no input came for longer than the timeout |
| BlocksLoop.Loop.AiTurn | controller/shooting_stars/blocks.py:381-407 | the loop body runs when connected or not in AI mode; in AI mode with a chosen move and the wait elapsed it applies `AiAction` and restarts the move clock, otherwise game and clock are unchanged; a move is requested exactly when the body runs in AI mode and the move slot, read again after the tick (a lock clears it, blocks.py:321), is empty |
| BlocksLoop.Loop.EndFrame | controller/shooting_stars/blocks.py:338-339 | a lost game (blocks.py:434-435) is replaced by a new game out of AI mode; the watermark, clocks and web update switch carry over, and otherwise nothing changes |
| BlocksLoop.Loop.WebUpdate | controller/shooting_stars/blocks.py:418-428 | when enabled, sends `StatePayload` with the game's AI mode; updates stay enabled until AI mode starts |
| Presence.BoundedAppend | controller/shooting_stars/presence.py:92-101 | appending to the deque of at most 10 maps, dropping the oldest when full; see BoundedAppendKeepsMostRecent and BoundedAppendLastN |
| Presence.BoundedAppendKeepsMostRecent | controller/shooting_stars/presence.py:92-101 | the bounded queue keeps the last 10 items, oldest dropped first |
| Presence.BoundedAppendLastN | controller/shooting_stars/presence.py:92-101 | appending to the last 10 of a sequence gives the last 10 of the sequence with the map appended |
| Presence.AppendNewer | controller/shooting_stars/presence.py:96-101 | the event loop of one remote: events later than the last timestamp are appended in order; see AppendNewerKeepsLatest |
| Presence.NewerMaps | controller/shooting_stars/presence.py:96-101 | the maps of the events later than the last timestamp, in order |
| Presence.NewerThan | controller/shooting_stars/presence.py:99-100 | an event counts when it is later than the remote's last timestamp |
| Presence.AppendNewerKeepsLatest | controller/shooting_stars/presence.py:94-101 | for every deque and every event list, the deque afterwards is the last 10 of the old maps followed by the maps of the newer events |
| Presence.MaxTimestampOrZero | controller/shooting_stars/presence.py:87-90 | the max event timestamp, 0 when there is none |
| Presence.AppendNewerValid | controller/shooting_stars/presence.py:96-101 | appending keeps the queue bounded and made of maps |
| Presence.OnlyNewerAppended | controller/shooting_stars/presence.py:96-100 | events none of which is newer than the watermark append nothing |
| Presence.FirstSight | controller/shooting_stars/presence.py:83-93 | a remote seen for the first time: its configuration, its largest listed timestamp (0 without events) and no maps |
| Presence.FirstSightQueuesNothing | controller/shooting_stars/presence.py:83-93 | a remote seen for the first time stores its config and watermark and queues nothing |
| Presence.KnownRemoteKeepsConfig | controller/shooting_stars/presence.py:94-101 | a known remote's config and watermark are never replaced |
| Presence.UpdateOne | controller/shooting_stars/presence.py:81-101 | one record: its remote, created on first sight, gains its newer maps; see UpdateOneValid, KnownRemoteKeepsConfig |
| Presence.UpdateAll | controller/shooting_stars/presence.py:80-101 | the records in order; see UpdateAllValid |
| Presence.UpdateOneValid | controller/shooting_stars/presence.py:81-101 | one record keeps every queue bounded by 10 and made of maps, and adds exactly its id to the known remotes |
| Presence.UpdateAllValid | controller/shooting_stars/presence.py:80-101 | every remote's queue stays bounded by 10 and holds maps; the remotes are the old ones plus those reported |
| Presence.RepeatedRecordReappends | controller/shooting_stars/presence.py:96-101 | the watermark is not advanced, so the same newer events are appended again |
| Presence.MapValue | controller/shooting_stars/presence.py:121-131 | the sampled value of a light is a byte |
| Presence.RemoteColumn | controller/shooting_stars/presence.py:123-133 | column 3 has one byte per light |
| Presence.PopShown | controller/shooting_stars/presence.py:123-128 | after a frame, remote 2 loses its first queued map if it has one; see TickConsumesOneMap |
| Presence.TickConsumesOneMap | controller/shooting_stars/presence.py:123-133 | a tick pops at most one map, only from remote 2, and keeps every config and watermark; without a map for remote 2, column 3 is all 0 |
| Presence.PresenceState.constructor | controller/shooting_stars/presence.py:33-40 | no remotes and a zero frame of shape (lights, 4) |
| Presence.PresenceState.UpdateRemotePresences | controller/shooting_stars/presence.py:80-101 | the remotes become `UpdateAll` of the old ones |
| Presence.PresenceState.AppendNewerEvents | controller/shooting_stars/presence.py:94-101 | only the reported remote changes, and its queue becomes the old queue with the events newer than its seen-timestamp appended |
| Presence.PresenceState.TickFrame | controller/shooting_stars/presence.py:116-135 | column 0 is 10, column 1 the local column, column 2 is 0 and column 3 is `RemoteColumn`; the remotes become `PopShown` of the old ones |
| Cone.Update | controller/shooting_stars/cone.py:64-108 | `PainterState.update` without the geometry; see UpdateKeepsRecentSteps, UpdateWithoutStep, UpdateVelocity |
| Cone.UpdateKeepsRecentSteps | controller/shooting_stars/cone.py:94-99 | the state keeps at most the 100 most recent steps, the new step last; when loaded, steps become empty |
| Cone.UpdateWithoutStep | controller/shooting_stars/cone.py:64-108 | with no step, timestamp, colour and velocity are unchanged, and so are the steps except that they are emptied when loaded |
| Cone.UpdateVelocity | controller/shooting_stars/cone.py:65-69 | the velocity is the step's unless that is zero, when the old one stays; colour and timestamp are the step's |
| Cone.Linspace | controller/shooting_stars/cone.py:42-43 | n values, the first at the start and the last at the end |
| Cone.Interpolate | controller/shooting_stars/cone.py:36-45 | n colours, the first the start colour and the last the target colour |
| Cone.StepColours | controller/shooting_stars/cone.py:155-165 | a colour change is spread over the movement's steps by `Interpolate`; an unchanged colour is repeated once per step; see SingleStepKeepsColour |
| Cone.EnqueueMovement | controller/shooting_stars/cone.py:144-178 | the old queue stays a prefix; an empty queue first gets a zero-velocity seed step; then one step per velocity with that velocity and the movement's time; with two or more velocities the last step has the movement's colour |
| Cone.SingleStepKeepsColour | controller/shooting_stars/cone.py:158-163 | a one-velocity movement on a non-empty queue keeps the previous step's colour |
| Cone.EnqueueNew | controller/shooting_stars/cone.py:143-178 | one painter's movements in order, only those later than the watermark queued; see EnqueueNewExtends, OnlyNewMovementsQueued, EnqueueNewCount |
| Cone.AddedQueues | controller/shooting_stars/cone.py:141-179 | the queues after `add_movements`: every listed painter has a queue with its new movements added; see AddAll |
| Cone.EnqueueNewExtends | controller/shooting_stars/cone.py:141-179 | the old queue stays a prefix of the new one |
| Cone.OnlyNewMovementsQueued | controller/shooting_stars/cone.py:143 | movements none of which is newer than the watermark add nothing |
| Cone.EnqueueNewCount | controller/shooting_stars/cone.py:143-178 | a new last movement adds exactly its own steps, plus the seed step when the queue was empty |
| Cone.LatestOrUnique | controller/shooting_stars/cone.py:181-185 | the max-or-default watermark is uniquely determined |
| Cone.WatermarkFallsBack | controller/shooting_stars/cone.py:181-185 | as written, with one queued step at 50 the watermark falls from the cutoff 100 to 50, and a movement at 80 is then queued again (see "## Findings") |
| Cone.Latest | controller/shooting_stars/cone.py:181-185 | the watermark is the max over queued steps, or the old one when all queues are empty |
| Cone.KeptWatermarkQueuesOnce | controller/shooting_stars/cone.py:141-185 | the corrected watermark, the larger of the cutoff and the batch's latest movement, never goes below the cutoff, and handling the same batch again under it queues nothing |
| Cone.FirstBatchQueuesNothing | controller/shooting_stars/cone.py:133-143 | with the cutoff at the batch's max timestamp, no queue changes |
| Cone.TickQueues | controller/shooting_stars/cone.py:187-197 | empty queues dropped, every other one without its first step; see TickProgress and StepAll |
| Cone.TickStates | controller/shooting_stars/cone.py:193-204 | every painter with a state or a queued step takes its next state; see TickProgress and StepAll |
| Cone.NextState | controller/shooting_stars/cone.py:195-204 | a painter's state after a tick: its first queued step, if any, applied to its state or the initial one; see TakeStep |
| Cone.TickProgress | controller/shooting_stars/cone.py:187-204 | a tick drops empty queues, pops one step from each other queue, gives that painter a state stamped with the step, and never removes a painter state |
| Cone.EnqueueMovements | controller/shooting_stars/cone.py:143-178 | the queueing loop for one painter computes `EnqueueNew` |
| Cone.AddAll | controller/shooting_stars/cone.py:141-179 | the loop over painters computes `AddedQueues` |
| Cone.StepAll | controller/shooting_stars/cone.py:193-204 | every queue loses its first step and every painter with a queue or a state gets `NextState` |
| Cone.TakeStep | controller/shooting_stars/cone.py:195-204 | one painter's queue loses its first step and its state becomes `NextState` |
| Cone.PaintState.constructor | controller/shooting_stars/cone.py:123-130 | no queues, no states, no watermark |
| Cone.PaintState.AddMovements | controller/shooting_stars/cone.py:132-185 | the cutoff is the old watermark, or the batch's max on the first call; the queues become `AddedQueues`; the watermark becomes the max over queued steps, or the cutoff when all are empty |
| Cone.PaintState.TickState | controller/shooting_stars/cone.py:187-204 | queues and states follow `TickQueues` and `TickStates` |
| Ejson.IntegerGrid | web/imports/api/presenceMethods.js:23 | an integer grid of JSON numbers read as integers, same shape |
| Ejson.AsInt | web/imports/api/presenceMethods.js:23 | a 32-bit integer equal to the JSON number |
| JsArray.SortBy | web/imports/api/presenceMethods.js:58-59 | the sort's result is sorted by the key and a permutation of its input |
| JsArray.SortBySorted | web/imports/api/presenceMethods.js:58-59 | a sorted sequence is left as it is |
| JsArray.LastN | web/imports/api/presenceMethods.js:58-59 | `slice(-n)`: the last min(n, length) elements |
| JsArray.LastNOfSorted | web/imports/api/presenceMethods.js:58-59 | the last n of a sort are sorted, and none dropped is larger than one kept |
| JsArray.SmallestFirst | web/imports/api/paintMethods.js:40-44 | an element whose key is strictly the smallest comes first after the sort |
| JsArray.FirstN | web/imports/api/paintMethods.js:40-44 | the first min(n, length) elements |
| JsArray.Filter | web/imports/api/blocksMethods.js:26 | keeps only elements that pass, and every element that passes |
| JsArray.FilterAppend | web/imports/api/blocksMethods.js:26 | one more element is kept after the others exactly when it passes, so the order is kept |
| JsArray.FilterAll | web/imports/api/blocksMethods.js:26 | nothing is dropped when all pass |
| JsArray.FilterNone | web/imports/api/blocksMethods.js:26 | nothing is kept when none pass |
| JsArray.FilterSorted | web/imports/api/blocksMethods.js:26 | filtering keeps a sorted sequence sorted |
| PresenceMethods.GetConfig | web/imports/api/presenceMethods.js:10-20 | a non-string is refused, an unknown token fails, a known one gives exactly its configuration |
| PresenceMethods.MapError | web/imports/api/presenceMethods.js:31-53 | the first complaint of the map validation, in the order the checks are made; see MapErrorNoneIff |
| PresenceMethods.RowsError | web/imports/api/presenceMethods.js:46-53 | the `forEach` over the rows: a row's length is checked before its values, the first failing row decides; see RowsErrorNoneIff |
| PresenceMethods.RowsErrorNoneIff | web/imports/api/presenceMethods.js:46-53 | the row checks pass exactly when every row has the first row's length and only bytes |
| PresenceMethods.MapErrorNoneIff | web/imports/api/presenceMethods.js:32-53 | the validation passes exactly on 1..50 rows of 1..50 values, all the same length, each in [0,255] |
| PresenceMethods.SendPresence | web/imports/api/presenceMethods.js:21-71 | `presence.sendPresence`: argument patterns, then token, then map, then the upsert of the configuration's record; see SendPresenceAcceptsIff, UnknownTokenRejected, SendPresenceStores |
| PresenceMethods.SendPresenceAcceptsIff | web/imports/api/presenceMethods.js:21-53 | a call succeeds exactly when the patterns match, the token is known and the map is valid |
| PresenceMethods.UnknownTokenRejected | web/imports/api/presenceMethods.js:22-28 | an unknown token is refused before the map is looked at |
| PresenceMethods.KeptEvents | web/imports/api/presenceMethods.js:57-59 | the previous events sorted by time, the last ten kept; see KeptEventsAreLatest and KeptEventsOfSorted |
| PresenceMethods.KeptEventsAreLatest | web/imports/api/presenceMethods.js:57-59 | at most 10 old events are kept, sorted, and none dropped is later than one kept |
| PresenceMethods.KeptEventsOfSorted | web/imports/api/presenceMethods.js:59 | sorted events keep their last 10 |
| PresenceMethods.SendPresenceStores | web/imports/api/presenceMethods.js:55-70 | the record of the config's id holds the current config and the kept events plus the new one last; no other record changes |
| PresenceMethods.StoredEventsStaySorted | web/imports/api/presenceMethods.js:59-68 | the stored events stay in time order when the new one is newest |
| PaintMethods.InsertIndexKey | web/imports/api/paintMethods.js:26-31 | adding a new non-negative key keeps the object key order and adds exactly that key |
| PaintMethods.SendMovement | web/imports/api/paintMethods.js:6-50 | the call fails exactly when the movement does not match its pattern |
| PaintMethods.SendMovementInPlace | web/imports/api/paintMethods.js:23-47 | push, truncation loop and deletion loop on the record store what `SendMovement` describes |
| PaintMethods.AddMovement | web/imports/api/paintMethods.js:26-31 | the movement pushed onto its painter's list, created when missing, with the painter's key placed in object key order; see PushMovement and InsertIndexKey |
| PaintMethods.Truncated | web/imports/api/paintMethods.js:33-37 | every painter's list cut to its last 10 movements; see TruncateLists |
| PaintMethods.Prepared | web/imports/api/paintMethods.js:17-37 | the record with the movement added and the lists cut, before eviction; see PreparedFacts |
| PaintMethods.Evict | web/imports/api/paintMethods.js:40-47 | the painters from position 10 of the given order deleted; see EvictValid, EvictKeeps, EvictBound |
| PaintMethods.PushMovement | web/imports/api/paintMethods.js:26-31 | the new movement is appended to its painter's list, created empty if missing |
| PaintMethods.TruncateLists | web/imports/api/paintMethods.js:33-37 | every painter's list is cut to its last 10 movements |
| PaintMethods.DeletePainters | web/imports/api/paintMethods.js:45-47 | the listed painters are removed from the lists and the key order |
| PaintMethods.SliceFromKept | web/imports/api/paintMethods.js:43 | `slice(10)` holds exactly the painters from the eleventh place on |
| PaintMethods.FilterRemoveOne | web/imports/api/paintMethods.js:45-47 | one more deletion is filtering with one more key removed |
| PaintMethods.LastUpdatedAsWritten | web/imports/api/paintMethods.js:39 | the comparator key as written: `[-1]` is an absent property, so every painter scores 0; see WrittenPainterEvicted |
| PaintMethods.LastUpdated | web/imports/api/paintMethods.js:39 | the timestamp of a painter's last movement, 0 without one: the key the comment at line 38 describes |
| PaintMethods.RecentFirst | web/imports/api/paintMethods.js:38-42 | the corrected comparator key, most recently updated first; see WrittenPainterKept |
| PaintMethods.SendMovementIntended | web/imports/api/paintMethods.js:38-47 | the corrected method fails exactly when the pattern does not match |
| PaintMethods.PreparedFacts | web/imports/api/paintMethods.js:18-37 | after the push and the truncation the painters are the old ones plus the sender, each with the last 10 of its movements |
| PaintMethods.FilterKeyOrdered | web/imports/api/paintMethods.js:45-47 | deleting keys keeps the object key order |
| PaintMethods.EvictValid | web/imports/api/paintMethods.js:45-47 | eviction keeps the key order in step with the painters |
| PaintMethods.EvictKeeps | web/imports/api/paintMethods.js:40-47 | evicting by the key order keeps exactly its first 10 keys |
| PaintMethods.EvictBound | web/imports/api/paintMethods.js:40-47 | at most 10 painters remain when the order lists every painter |
| PaintMethods.SendMovementRetention | web/imports/api/paintMethods.js:26-37 | in both versions, the survivors are old painters or the sender, and each list is the last 10 of its old list with the new movement appended for the sender |
| PaintMethods.SendMovementBounds | web/imports/api/paintMethods.js:38-47 | in both versions the record stays well formed with at most 10 painters |
| PaintMethods.SendMovementKeepsFirstKeys | web/imports/api/paintMethods.js:33-44 | the survivors are the first 10 keys in object key order |
| PaintMethods.IndexKeyPushedOut | web/imports/api/paintMethods.js:33-44 | a non-negative key with ten smaller keys present is not among the first 10 |
| PaintMethods.WrittenPainterEvicted | web/imports/api/paintMethods.js:38-47 | a non-negative painter with ten smaller painter ids stored is evicted by its own movement |
| PaintMethods.EvictKeepsFirst | web/imports/api/paintMethods.js:40-47 | a painter whose key is strictly the smallest survives eviction after the sort by that key |
| PaintMethods.WrittenPainterKept | web/imports/api/paintMethods.js:38-47 | with the intended comparator, when every stored movement is older than now, the painter just written survives and was last updated now |
| BlocksMethods.Recent | web/imports/api/blocksMethods.js:26 | the filter's test: a press at most 5000 ms older than the call is kept |
| BlocksMethods.KeptInputs | web/imports/api/blocksMethods.js:26 | the old record's recent presses, none without a record; see SendInputKeepsRecent |
| BlocksMethods.SendInput | web/imports/api/blocksMethods.js:15-35 | `blocks.sendInput`: the pattern and input checks, then the recent inputs with the press appended; see SendInputAcceptsIff, SendInputKeepsRecent |
| BlocksMethods.SendInputAcceptsIff | web/imports/api/blocksMethods.js:15-20 | a call succeeds exactly for the four input types; a non-string fails the pattern and any other string fails with `invalid-input` |
| BlocksMethods.SendInputKeepsRecent | web/imports/api/blocksMethods.js:22-34 | the stored list ends with the new press at the call time; before it come exactly the old presses of the last 5 s, in their order and with their repeats: `filter` of the old list, built press by press (the old list plus one press keeps that press exactly when it is recent); only the new press without an old record |
| BlocksMethods.SendInputStaysRecentAndSorted | web/imports/api/blocksMethods.js:24-34 | a time-sorted list stays time-sorted and within 5 s of now |
| BlocksMethods.StoredHighScore | web/imports/api/blocksMethods.js:53 | `oldRecord?.highScore || 0`: a stored number, else 0; see HighScoreKeepsBest |
| BlocksMethods.StateRecord | web/imports/api/blocksMethods.js:47-56 | the state with its high score and key, as upserted; see UpdateStateStores and HighScoreKeepsBest |
| BlocksMethods.UpdateState | web/imports/api/blocksMethods.js:36-57 | `blocks.updateState` as written: patterns, then token, then the upsert; see UpdateStateAcceptsIff and UpdateStateRejectsLoopPayload |
| BlocksMethods.UpdateStateIntended | web/imports/api/blocksMethods.js:36-57 | the same method with `aiMode: Boolean` in the state pattern; see LoopPayloadStored |
| BlocksMethods.UpdateStateAcceptsIff | web/imports/api/blocksMethods.js:36-45 | a call succeeds exactly when both patterns match and the token is the controller's |
| BlocksMethods.UpdateStateStores | web/imports/api/blocksMethods.js:47-56 | the record has exactly the keys score, playfield, highScore and key: the state's score and playfield, key `game-state`, and a high score that is the larger of the stored one and the score |
| BlocksMethods.HighScoreKeepsBest | web/imports/api/blocksMethods.js:53 | the high score never goes down and is at least the submitted score |
| BlocksMethods.UpdateStateRejectsLoopPayload | web/imports/api/blocksMethods.js:38-41 | the pattern as written refuses every payload the game loop sends |
| BlocksMethods.GridJsonIsIntegerGrid | web/imports/api/blocksMethods.js:40 | a playfield of 32-bit integers matches the integer-grid pattern |
| BlocksMethods.LoopPayloadStored | web/imports/api/blocksMethods.js:36-56 | with aiMode allowed, the loop's payload is stored |
| PicturesMethods.SetPicture | web/imports/api/picturesMethods.js:16-33 | `pictures.setPicture`: pattern, then picture name, then the upsert of the single record; see SetPictureAcceptsIff and SetPictureStores |
| PicturesMethods.SetPictureAcceptsIff | web/imports/api/picturesMethods.js:17-22 | a call succeeds exactly for one of the seven picture names |
| PicturesMethods.SetPictureStores | web/imports/api/picturesMethods.js:24-32 | the one record under `picture` holds the key and the call time |
| PicturesMethods.SetPictureLastWins | web/imports/api/picturesMethods.js:24-32 | a second call replaces the first |
| PicturesMethods.SetPictureKeepsValid | web/imports/api/picturesMethods.js:6-32 | the store only ever holds a listed picture |
| LightsMethods.SetField | web/imports/api/lightsMethods.js:14-16 | the `$set` of `colourMode` on the light with the id, nothing when no light matches; see SetColourModeOnlyThatField |
| LightsMethods.SetColourModeIn | shooting-stars-meteor/imports/api/lightsMethods.js:6-17 | `lights.setColourMode` with the known modes as a parameter; see SetColourModeAcceptsIff and SetColourModeIdempotent |
| LightsMethods.SetColourMode | web/imports/api/lightsMethods.js:6-17 | the current application's method, with modes white, colour, rainbow and gradual; see CurrentModes |
| LightsMethods.SetColourModeAcceptsIff | shooting-stars-meteor/imports/api/lightsMethods.js:6-12 | a call succeeds exactly when both are strings and the mode is listed |
| LightsMethods.CurrentModes | web/imports/api/lightsMethods.js:6-12 | the web application accepts white, colour, rainbow and gradual |
| LightsMethods.SetColourModeOnlyThatField | web/imports/api/lightsMethods.js:14-16 | only `colourMode` of the addressed light changes |
| LightsMethods.SetColourModeIdempotent | shooting-stars-meteor/imports/api/lightsMethods.js:14-16 | setting the same mode twice equals setting it once |
| LightsMethods.SetColourModeKeepsKnown | web/imports/api/lightsMethods.js:10-16 | lights only ever hold a listed mode |

## Left out

**I/O, timing and other processes**

- The websocket, its thread, `run_forever` and the `on_error`/`on_close` logging are left out. Messages and attempt durations are inputs, and what is sent is returned.
- xled discovery, the control interface, the HTTP status request and the UDP send are left out. Status codes and reconnect success are inputs, and the frame sent is a byte sequence.
- Clocks and sleeps are not read. Times are parameters, and sleeps are returned durations.
- Other threads are not modelled. What they write is read as an input at each point where the loop reads it: the device monitor's connectivity before each animation frame, and the trainer's move slot before the AI step and again after the tick.
- The Mongo collections are not modelled. Each is a map (or an optional record) passed in and returned. Upserts are map updates.

**Learning and the game library**

- The ML trainer (`run`, `test`, `reset_model`, the river classifier and the random tie-break) is floating point, randomness and threads. Only the labels it is trained on are modelled.
- The `tetris` library's game mechanics are not part of this model. The game is an opaque value that takes actions and shows a playfield.
- Whether a game is lost is decided by the game library, so BlocksLoop.Loop.EndFrame takes it as a parameter.

**Floating point and image processing**

- Floating-point geometry and colour are left out:
  - cone positions and `tick_frame` decay;
  - hue to RGB conversion (utils.py);
  - the presence camera processing and light-map indexes, whose indexes are a parameter.
- Cone.Linspace: `np.linspace` is computed on exact reals, not floats. Colours and velocities are opaque.
- Cone.UpdateWithoutStep: the painter's position and its geometric update are not modelled, only steps, timestamp and colour.

**Web application files**

- UI components, publications, collection definitions and the server start-up files set up or display data and hold no logic to state.
- `web/imports/db/LightsCollection.js` is part of this model only through its list of colour modes. `shooting-stars-meteor/imports/db/LightsCollection.js` is not part of this model, so LightsMethods.SetColourModeIn takes that application's list as a parameter.

**Imperative code modelled on values**

- PresenceMethods.SendPresence: the in-place sort of the old events is modelled as a stable sort on values.
- BlocksMethods.SendInput, PicturesMethods.SetPicture and LightsMethods.SetColourMode are functions from the store to a new store, as are their single upserts.

**Source quirks and behaviour not captured**

- BlocksMethods.StoredHighScore treats a stored high score that is not a number as 0, as `|| 0` does for the values that can be stored.
- The blocks page reads `timestamp` from the game state, which `blocks.updateState` never stores. This follows from BlocksMethods.UpdateStateStores and is not modelled further.
- BlocksTrainer.DroppedPieceFits holds only for a piece that dropped at least one row. The drop search of blocks.py:237-244 never tests the start row, so a piece that overlaps there stays there and is written over filled cells (BlocksTrainer.StartRowOverwritten).
- BlocksRender.HalfEnds follows the arithmetic of `get_frame_index`. The end points in the comments at blocks.py:60-61 and 66-67 do not match it: (19,4) maps to 19 and (0,4) to 0.

## Findings

| source | as written | input that shows it | evidently intended | confidence | as-written member | corrected member |
|---|---|---|---|---|---|---|
| web/imports/api/paintMethods.js:39-44 | `painterLastUpdated` reads `[-1]`, a property no array has, so every painter scores 0. The stable sort then keeps object key order, and `slice(10)` evicts all but the ten smallest painter ids. | Painters 0..9 are stored and painter 10 sends a movement. Painter 10 is evicted by its own movement. | Evict all but the ten most recently updated painters, so that the painter just written is kept. That takes two changes: read the last movement (`.at(-1)`), and sort newest first, because an ascending sort followed by `slice(10)` would evict the newest painters. SendMovementIntended sorts by the negated timestamp of the last movement. | not executed | PaintMethods.WrittenPainterEvicted | PaintMethods.WrittenPainterKept |
| web/imports/api/blocksMethods.js:38-41 | The `state` pattern lists exactly `score` and `playfield`. Meteor's object patterns refuse extra keys. | The game loop's payload carries `aiMode` as well (blocks.py:422-426), so every update from the controller fails the check. | Also accept `aiMode: Boolean`, which blocksPublications.js:19 publishes and the page reads. | not executed | BlocksMethods.UpdateStateRejectsLoopPayload | BlocksMethods.LoopPayloadStored |
| controller/shooting_stars/cone.py:181-185 | After queuing, the watermark becomes the latest step still queued, or the cutoff when every queue is empty. Steps are consumed one per tick, so it can fall below the cutoff. | The cutoff is 100, painter a has consumed its steps, and painter b still has a step stamped 50. The watermark becomes 50. A movement at 80 that is still in the record is then queued a second time. | The watermark never goes down, so a movement already queued is not queued again: the filter at cone.py:143 keeps only movements newer than the watermark. | not executed | Cone.WatermarkFallsBack | Cone.KeptWatermarkQueuesOnce |
