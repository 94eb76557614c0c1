/**
 * Paddle input: clamping a requested offset and applying an inbound message
 * to the game state. A message moves a paddle only when it is a well-formed
 * "move"; every other message is dropped without touching the state.
 */
module Paddles {
  import opened Config
  import opened Wire
  import opened State

  /** The requested offset pinned into the range a paddle may take. */
  function ClampY(y: int): (r: int)
    ensures 0 <= r <= MaxPaddleY
    ensures 0 <= y <= MaxPaddleY ==> r == y
    ensures y < 0 ==> r == 0
    ensures y > MaxPaddleY ==> r == MaxPaddleY
  {
    if y < 0 then 0
    else if y > MaxPaddleY then MaxPaddleY
    else y
  }

  /** A move message that carries a type "move", a non-empty player and a y. */
  predicate IsMove(msg: Message) {
    msg.kind == MoveType && msg.player != "" && msg.y.Some?
  }

  /**
   * The paddle the message moves, if any. The player named in the message is
   * trusted: it is not checked against the seat of the sending connection.
   */
  function Target(msg: Message): Seat {
    if IsMove(msg) && msg.player == LeftName then Left
    else if IsMove(msg) && msg.player == RightName then Right
    else NoSeat
  }

  /** The game state after one inbound message has been handled. */
  function ApplyMessage(g: Game, msg: Message): (r: Game)
    ensures r.ball == g.ball
    ensures Target(msg) == Left ==>
      r.panYLeft == ClampY(msg.y.value) && r.panYRight == g.panYRight
    ensures Target(msg) == Right ==>
      r.panYRight == ClampY(msg.y.value) && r.panYLeft == g.panYLeft
    ensures Target(msg) == NoSeat ==> r == g
  {
    match Target(msg)
    case Left => g.(panYLeft := ClampY(msg.y.value))
    case Right => g.(panYRight := ClampY(msg.y.value))
    case NoSeat => g
  }

  /** A message changes the state only if it is a well-formed move for a known paddle. */
  lemma OnlyMovesChangeState(g: Game, msg: Message)
    requires ApplyMessage(g, msg) != g
    ensures msg.kind == MoveType && msg.y.Some?
    ensures msg.player == LeftName || msg.player == RightName
  {
  }

  /** The state after handling the messages in order. */
  function ApplyAll(g: Game, msgs: seq<Message>): (r: Game)
    ensures r.ball == g.ball
    ensures (forall i :: 0 <= i < |msgs| ==> Target(msgs[i]) == NoSeat) ==> r == g
    decreases |msgs|
  {
    if msgs == [] then g
    else ApplyMessage(ApplyAll(g, msgs[..|msgs| - 1]), msgs[|msgs| - 1])
  }

  /**
   * The position of the last message in `msgs` that moves paddle `s`, or -1
   * when no message does.
   */
  function LastMoveIndex(msgs: seq<Message>, s: Seat): (k: int)
    ensures -1 <= k < |msgs|
    ensures k >= 0 ==> Target(msgs[k]) == s
    ensures forall j :: k < j < |msgs| ==> Target(msgs[j]) != s
    decreases |msgs|
  {
    if msgs == [] then -1
    else if Target(msgs[|msgs| - 1]) == s then |msgs| - 1
    else LastMoveIndex(msgs[..|msgs| - 1], s)
  }

  /** The y of the last message in `msgs` that moves paddle `s`, if there is one. */
  function LastMoveY(msgs: seq<Message>, s: Seat): (r: Option<int>)
    requires s != NoSeat
    ensures r.Some? <==> exists i :: 0 <= i < |msgs| && Target(msgs[i]) == s
    ensures r.Some? ==> exists i :: 0 <= i < |msgs| && Target(msgs[i]) == s && msgs[i].y == r &&
                                    (forall j :: i < j < |msgs| ==> Target(msgs[j]) != s)
  {
    var k := LastMoveIndex(msgs, s);
    if k < 0 then None else msgs[k].y
  }

  /** The stored offset after a run of messages: the clamp of the last move for that paddle. */
  function Settled(start: int, msgs: seq<Message>, s: Seat): int
    requires s != NoSeat
  {
    match LastMoveY(msgs, s)
    case Some(y) => ClampY(y)
    case None => start
  }

  /**
   * After any sequence of messages each paddle holds the clamped y of the
   * last move addressed to it (or its old offset if there was none), and the
   * ball has not moved.
   */
  lemma {:induction false} ApplyAllSettles(g: Game, msgs: seq<Message>)
    ensures ApplyAll(g, msgs).panYLeft == Settled(g.panYLeft, msgs, Left)
    ensures ApplyAll(g, msgs).panYRight == Settled(g.panYRight, msgs, Right)
    ensures ApplyAll(g, msgs).ball == g.ball
    decreases |msgs|
  {
    if msgs != [] {
      ApplyAllSettles(g, msgs[..|msgs| - 1]);
    }
  }

  /** Paddles that start in range stay in range whatever messages arrive. */
  lemma {:induction false} ApplyAllKeepsPaddlesInRange(g: Game, msgs: seq<Message>)
    requires 0 <= g.panYLeft <= MaxPaddleY && 0 <= g.panYRight <= MaxPaddleY
    ensures 0 <= ApplyAll(g, msgs).panYLeft <= MaxPaddleY
    ensures 0 <= ApplyAll(g, msgs).panYRight <= MaxPaddleY
    decreases |msgs|
  {
    if msgs != [] {
      ApplyAllKeepsPaddlesInRange(g, msgs[..|msgs| - 1]);
    }
  }
}
