# Two-player Pong server: a verified model

This project models the server of a two-player Pong game played over
WebSockets (`main.go`). The server owns the only copy of the game: the two
paddle offsets and the ball. It hands each arriving connection a seat
("left", then "right", then "none"), applies the "move" messages it reads,
advances the ball once per tick, and broadcasts the state to every
registered connection.

The model has eight modules:

- `Config`: the canvas and paddle constants.
- `Wire`: the message record, the seat names and the outgoing messages.
- `State`: the game as a value, its initial state and the "update" snapshot.
- `Paddles`: clamping a requested offset and applying inbound messages.
- `Physics`: one tick of the ball. Integration, wall and paddle bounces, goal and serve.
- `Seats`: the seat map as a value. First free seat, release, and the uniqueness invariant.
- `Server`: the mutable state as two classes. `GameState` holds the paddles and the ball;
  `Registry` holds the fan-out set `clients` and the seat map `assignedPlayers`.
  Their methods mirror the source's critical sections statement by statement,
  and each one is proved against the value-level definitions above.
- `Traces`: the whole server driven by an arbitrary interleaving of atomic events
  (connect, message, disconnect, tick), with an invariant proved over every interleaving.

Ball coordinates are `float64` in the source. Every value they can take is an
integer: the serve is (400, 300) with velocity (4, 4), velocities are only
negated, and every clamp target is an integer constant. They are `int` here,
and the lemmas `Physics.ServeReachable`, `Physics.TickPreservesReachable`
and `Traces.RunPreservesInv` prove the stronger fact that every reachable
coordinate is a multiple of 4. Truncating the ball's y to an `int` before the
paddle test is therefore the identity. A connection is an opaque number
standing for the socket pointer that the source uses as a map key.

## Model

| member | source | states |
|---|---|---|
| `Wire.SeatName` | main.go:161-178 | each seat has its own wire name, "left", "right" or "none", so a name identifies the seat |
| `Paddles.ClampY` | main.go:192-200 | the result always lies in [0, MaxPaddleY]; an offset already in range is returned unchanged; below the range gives 0, above it gives MaxPaddleY |
| `Paddles.ApplyMessage` | main.go:270-292 | the ball is never touched; a well-formed "left" move sets the left paddle to the clamped y and leaves the right one; "right" is symmetric; every other message leaves the whole state unchanged |
| `Paddles.OnlyMovesChangeState` | main.go:270-286 | a message that changes the state has type "move", carries a y, and names "left" or "right" |
| `Paddles.ApplyAll` | main.go:260-293 | the fold of the read loop over the messages read: it never moves the ball, and a run in which no message is a well-formed move for a known paddle changes nothing |
| `Paddles.LastMoveIndex` | main.go:270-286 | reference definition: the position it returns holds a well-formed move for that paddle and no later message moves it; -1 means no message moves it |
| `Paddles.LastMoveY` | main.go:270-286 | reference definition: a y is found exactly when some message in the run is a well-formed move for that paddle, and it is the y of such a message after which no message moves that paddle |
| `Paddles.ApplyAllSettles` | main.go:260-293 | after any run of messages each paddle holds the clamped y of the last move addressed to it, or its old offset if there was none; the ball is unchanged |
| `Paddles.ApplyAllKeepsPaddlesInRange` | main.go:274-284 | paddles that start on the canvas stay in [0, MaxPaddleY] whatever messages arrive |
| `Physics.Integrate` | main.go:321-323 | the ball moves by exactly (vx, vy) and keeps its velocity |
| `Physics.Walls` | main.go:325-335 | afterwards 0 <= y <= CanvasHeight; x and vx are untouched; a ball at or above the top is put on y = 0 and a ball at or below the bottom on y = CanvasHeight, with vy negated exactly once; a ball strictly inside is unchanged |
| `Physics.PaddleChecks` | main.go:337-351 | y and vy are untouched; a left hit puts x on PaddleWidth and negates vx; a right hit puts x on CanvasWidth - PaddleWidth and negates vx; with no hit the ball is unchanged |
| `Physics.Tick` | main.go:317-364 | after every step 0 <= y <= CanvasHeight and 0 <= x <= CanvasWidth; "right" wins exactly when the collided ball is left of 0, "left" exactly when it is right of CanvasWidth; after a goal the ball is served again, otherwise it is the collided ball |
| `Physics.FreeFlight` | main.go:321-323 | with no wall or paddle in reach, one tick moves the ball by exactly (vx, vy), keeps the velocity and declares no winner |
| `Physics.WallBounce` | main.go:325-335 | a step whose move reaches a wall, without a goal, ends on that wall with vy negated |
| `Physics.ServeReachable` | main.go:74-83 | the initial ball and the serve are reachable balls |
| `Physics.TickPreservesReachable` | main.go:317-373 | from a reachable ball, and wherever the paddles are, a tick gives a reachable ball: on the canvas, speed 4 on each axis, coordinates multiples of 4 |
| `Physics.LeftPaddleReturn` | main.go:337-343 | for every game whose ball, after moving and the wall checks, is at or behind the left paddle's face within its span: no goal, x is put on PaddleWidth and vx is reversed, y is kept |
| `Physics.RightPaddleReturn` | main.go:345-351 | the same for the right paddle, with x put on CanvasWidth - PaddleWidth |
| `Physics.LeftEdgeGoal` | main.go:353-358 | for every game whose collided ball is left of 0: "right" wins and the ball is served from the centre at (4, 4) |
| `Physics.RightEdgeGoal` | main.go:359-363 | for every game whose collided ball is right of CanvasWidth: "left" wins and the ball is served again |
| `Physics.BehindLeftPaddleScenario` | main.go:337-343 | a ball at (10, 300) moving right at 4, with the left paddle at 250, ends on the face at (20, 304) with vx = -4 |
| `Seats.FirstFree` | main.go:161-179 | a granted seat is held by nobody; "none" is answered exactly when both seats are held; "right" is granted only when "left" is held |
| `Seats.Assign` | main.go:181-186 | with no free seat the map is unchanged; otherwise the newcomer is recorded with the first free seat, the keys grow by exactly it, and every other entry is kept |
| `Seats.Release` | main.go:300-302 | the connection is gone and every other entry is unchanged |
| `Seats.AssignGrants` | main.go:181-183 | a grant to a new connection adds exactly the entry conn := seat and changes nothing else, so the map grows by one and each seat is still held at most once |
| `Seats.AssignKeepsUnique` | main.go:157-189 | from a map where each seat is held at most once, asking for a seat keeps it so |
| `Seats.FullRejects` | main.go:177-185 | while both seats are held a newcomer gets "none" and the map is unchanged |
| `Seats.AtMostTwo` | main.go:172-179 | a map with each seat held at most once has at most two entries |
| `Seats.ReleaseFrees` | main.go:300-302 | after a seated connection leaves, its seat is free, the next newcomer gets a seat (left if left was freed), and uniqueness is kept |
| `Seats.ReleaseUndoesAssign` | main.go:296-302 | a connection that is seated and then leaves restores the map it found |
| `Server.FirstFailure` | main.go:260-266 | the read loop consumes every read before the first failed one, and stops at that one |
| `Server.Payloads` | main.go:260-268 | a run of successful reads yields its messages, one per read, in the order read |
| `Server.GameState.constructor` | main.go:74-83 | both paddles at 250, the ball at (400, 300) with velocity (4, 4) |
| `Server.GameState.Snapshot` | main.go:244-252 | the "update" message carries the current paddles and ball position |
| `Server.GameState.HandleMessage` | main.go:270-292 | the new state is the one `ApplyMessage` gives |
| `Server.GameState.ReadLoop` | main.go:260-293 | handles every decoded message up to the first failed read, including ones that are not well-formed moves, and leaves the game in the state `ApplyAll` gives for those messages |
| `Server.GameState.ResetGame` | main.go:367-373 | the ball is served again; the paddles are untouched |
| `Server.GameState.UpdateBallPosition` | main.go:317-364 | the new ball and the winner are those of `Tick`; the paddles are unchanged; on a goal the "gameover" message naming the winner is sent to every registered connection outside the failed set, and exactly the failed ones are dropped; without a goal nothing is sent |
| `Server.Registry.constructor` | main.go:153 | no connection is registered or seated |
| `Server.Registry.AssignPlayer` | main.go:157-189 | the loop finds which seats are held; the answer is `FirstFree` of the old map and the new map is `Assign` of it |
| `Server.Registry.Broadcast` | main.go:110-120 | the given message is sent to every registered connection outside the failed set, and exactly the failed ones are removed |
| `Server.Registry.Disconnect` | main.go:295-302 | the connection leaves both the fan-out set and the seat map |
| `Server.Connect` | main.go:212-255 | the seat is the first free one; a refused connection is sent only the error message and is never registered; a seated one is registered with its seat and sent its seat and a snapshot |
| `Server.HandleConnection` | main.go:203-305 | run alone, a connection is seated, its messages applied up to the first failed read, then removed from both maps; a connection that was not seated before leaves the seat map as it found it |
| `Server.GameLoopTick` | main.go:308-314 | one tick is the physics step, with the "gameover" message on a goal, sent to the connections registered before the tick minus those whose write fails, followed by the "update" message of the new state, sent to every connection still registered outside the failed set |
| `Traces.StartInv` | main.go:74-85 | the start-up state satisfies the invariant |
| `Traces.Step` | main.go:157-373 | one atomic event: a refused connection changes nothing and a seated one is seated and registered under the first free seat; only messages move paddles, and they touch neither the ball nor the maps; a closed connection leaves both maps; a tick never changes the seats and only removes connections from the fan-out set |
| `Traces.StepPreservesInv` | main.go:157-373 | every atomic event keeps the invariant: seats unique, every registered connection seated under the same seat, paddles on the canvas, ball reachable |
| `Traces.RunPreservesInv` | main.go:157-189 | under every interleaving of events no two connections ever hold the same seat |
| `Traces.TicksMoveOnlyTheBall` | main.go:308-314 | any run of ticks keeps the ball reachable, never moves a paddle or a seat, and only removes connections from the fan-out set, each survivor keeping its seat |
| `Traces.AtMostTwoPlayers` | main.go:172-179 | at no point do more than two connections hold seats or receive broadcasts |
| `Traces.ThirdIsRefused` | main.go:219-227 | while both seats are held a newcomer changes nothing |
| `Traces.ClosedSeatIsReused` | main.go:296-302 | after a seated connection closes, the next newcomer is seated and registered, and a freed left seat is granted as left again |
| `Traces.RefusedNeverRegistered` | main.go:219-232 | a connection that gets "none" never enters the fan-out set |

## Left out

- WebSocket upgrade, JSON encoding and decoding, the static file server and `main` (main.go:203-210, 375-392) are library plumbing. A decoded message is the `Message` record, and a read is a `ReadResult`.
- The end of a finite `ReadResult` sequence stands for the connection going away, because the source's loop only ends on a read error.
- A message that fails to decode is a read error in the source, not a malformed message. Examples are a `y` that is not an integer or does not fit in an int. `ReadJSON` returns an error, the loop breaks (main.go:262-265), and the connection is removed and its seat freed. In the model such a message is a `ReadFailed`. Only messages that decode, but are not well-formed moves, are handled and ignored.
- Write errors while sending the seat and the initial snapshot (main.go:239-241, 253-255) are only logged, so the model returns those messages and does not track their delivery.
- Whether a fan-out write fails is an input: the set of connections whose write fails. Closing those sockets is not modelled. Their handlers later fail a read and run the disconnect path, which is a `Close` event in `Traces`.
- Marshalling errors in the broadcasts (main.go:104-108, 133-137) cannot occur for this record and are not modelled.
- Mutexes, goroutines and the ticker (main.go:86-89, 308-314) are not modelled. Each locked region is one atomic step, and `Traces` explores every order of its events. Three events merge two locked regions each. The three lines below say why nothing is lost.
- `Traces.Step` makes a connection's seat grant and its registration for fan-out one event, though the source uses two critical sections (main.go:213, 230-232). No other event can touch that connection's entries between them.
- `Traces.Step` makes a `Close` one event, though the source removes the connection from `clients` (main.go:296-298) and from `assignedPlayers` (main.go:300-302) under two locks. The halves touch disjoint maps. An event falling between them sees the connection already out of the fan-out set but still seated, and leaves the same `World` as that event placed just before the whole `Close`.
- `Traces.Step` makes a `Fire` one event, though the source runs `updateBallPosition` (main.go:318) and `broadcastGameState` (main.go:93, 110) as two locked regions. `World` records which connections remain registered, not what they were sent. A move falling between the halves touches only a paddle, which the broadcast half does not change, so it gives the same `World` as the move placed just after the whole `Fire`. On a goal the physics half removes the connections whose "gameover" write fails (main.go:139-148). A close falling between the halves commutes with that removal and with the broadcast half's, so it gives the same `World` as the close placed just before the whole `Fire`. A connect falling between them gives the same `World` as the connect placed before a `Fire` whose `overFailed` leaves out the newcomer, because the newcomer was not yet registered when the "gameover" message went out.
- Lock re-entry: `updateBallPosition` holds the game-state lock (main.go:318) and calls `broadcastGameOver`, which takes the same lock again (main.go:125). Go's mutex is not re-entrant, so as written the first goal would block the tick loop for good. The model gives the intended effect: winner broadcast, then the ball is served again.
- `Server.HandleConnection`: runs one connection alone; interleaving with other handlers and ticks is covered by `Traces`, not by this method.
- `Server.GameState.UpdateBallPosition`: works on a local copy of the ball and writes it back once. The step runs under the lock, so no reader can tell the difference.
- Moves are applied for whatever player the message names. The source does not check the name against the sender's seat (main.go:272, 279), and neither does the model.
- Scores: the source keeps none and sends no score message.
- Floating point: ball coordinates are integers. `Physics.TickPreservesReachable` and `Traces.RunPreservesInv` show no other value arises.
- Logging.
