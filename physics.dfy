/**
 * One physics step of the ball: integrate, bounce off the top and bottom
 * walls, bounce off the paddles, and detect a goal, after which the ball is
 * served again from the centre. The paddles are read, never written.
 */
module Physics {
  import opened Config
  import opened Wire
  import opened State

  /** Move the ball by its velocity; the velocity itself is kept. */
  function Integrate(b: Ball): (r: Ball)
    ensures r.x - b.x == b.vx && r.y - b.y == b.vy
    ensures r.vx == b.vx && r.vy == b.vy
  {
    b.(x := b.x + b.vx, y := b.y + b.vy)
  }

  /** The top-wall check followed by the bottom-wall check. */
  function Walls(b: Ball): (r: Ball)
    ensures 0 <= r.y <= CanvasHeight
    ensures r.x == b.x && r.vx == b.vx
    ensures b.y <= 0 ==> r.y == 0 && r.vy == -b.vy
    ensures b.y >= CanvasHeight ==> r.y == CanvasHeight && r.vy == -b.vy
    ensures 0 < b.y < CanvasHeight ==> r == b
  {
    var top := if b.y <= 0 then b.(y := 0, vy := -b.vy) else b;
    if top.y >= CanvasHeight then top.(y := CanvasHeight, vy := -top.vy) else top
  }

  /** The ball is at or behind the left paddle's face, within its vertical span. */
  predicate HitsLeft(b: Ball, panYLeft: int) {
    b.x <= PaddleWidth && panYLeft <= b.y <= panYLeft + PaddleHeight
  }

  /** The ball is at or behind the right paddle's face, within its vertical span. */
  predicate HitsRight(b: Ball, panYRight: int) {
    b.x >= CanvasWidth - PaddleWidth && panYRight <= b.y <= panYRight + PaddleHeight
  }

  /** The left-paddle check followed by the right-paddle check. */
  function PaddleChecks(b: Ball, panYLeft: int, panYRight: int): (r: Ball)
    ensures r.y == b.y && r.vy == b.vy
    ensures HitsLeft(b, panYLeft) ==> r.x == PaddleWidth && r.vx == -b.vx
    ensures HitsRight(b, panYRight) ==> r.x == CanvasWidth - PaddleWidth && r.vx == -b.vx
    ensures !HitsLeft(b, panYLeft) && !HitsRight(b, panYRight) ==> r == b
  {
    var left := if HitsLeft(b, panYLeft) then b.(x := PaddleWidth, vx := -b.vx) else b;
    if HitsRight(left, panYRight) then left.(x := CanvasWidth - PaddleWidth, vx := -left.vx)
    else left
  }

  /** The ball after integration and every collision check, before the goal check. */
  function Collide(g: Game): Ball {
    PaddleChecks(Walls(Integrate(g.ball)), g.panYLeft, g.panYRight)
  }

  datatype TickResult = TickResult(ball: Ball, winner: Option<Seat>)

  /**
   * One tick. Past the left edge the right player wins, past the right edge
   * the left player wins; either way the ball is served again. The goal and
   * the new ball are decided by the collided ball alone.
   */
  function Tick(g: Game): (r: TickResult)
    ensures 0 <= r.ball.y <= CanvasHeight
    ensures 0 <= r.ball.x <= CanvasWidth
    ensures r.winner == Some(Right) <==> Collide(g).x < 0
    ensures r.winner == Some(Left) <==> Collide(g).x > CanvasWidth
    ensures r.winner != Some(NoSeat)
    ensures r.winner.Some? ==> r.ball == Serve
    ensures r.winner.None? ==> r.ball == Collide(g)
  {
    var b := Collide(g);
    if b.x < 0 then TickResult(Serve, Some(Right))
    else if b.x > CanvasWidth then TickResult(Serve, Some(Left))
    else TickResult(b, None)
  }

  /** With nothing to hit, one tick moves the ball by exactly its velocity. */
  lemma FreeFlight(g: Game)
    requires 0 < g.ball.y + g.ball.vy < CanvasHeight
    requires PaddleWidth < g.ball.x + g.ball.vx < CanvasWidth - PaddleWidth
    ensures Tick(g) == TickResult(Integrate(g.ball), None)
    ensures Tick(g).ball.vx == g.ball.vx && Tick(g).ball.vy == g.ball.vy
  {
  }

  /**
   * A wall hit leaves the ball on the wall with vy negated once; the paddle
   * checks after it never touch y or vy.
   */
  lemma WallBounce(g: Game)
    requires g.ball.y + g.ball.vy <= 0 || g.ball.y + g.ball.vy >= CanvasHeight
    requires Tick(g).winner.None?
    ensures Tick(g).ball.y == (if g.ball.y + g.ball.vy <= 0 then 0 else CanvasHeight)
    ensures Tick(g).ball.vy == -g.ball.vy
  {
  }

  /** The balls the server can ever hold: inside the canvas, speed 4 on each axis, on the grid of 4. */
  predicate Reachable(b: Ball) {
    && 0 <= b.x <= CanvasWidth && 0 <= b.y <= CanvasHeight
    && (b.vx == 4 || b.vx == -4) && (b.vy == 4 || b.vy == -4)
    && b.x % 4 == 0 && b.y % 4 == 0
  }

  lemma ServeReachable()
    ensures Reachable(Serve) && Reachable(Initial.ball)
  {
  }

  /** A tick keeps the ball reachable, wherever the paddles are. */
  lemma TickPreservesReachable(g: Game)
    requires Reachable(g.ball)
    ensures Reachable(Tick(g).ball)
  {
    var i := Integrate(g.ball);
    var w := Walls(i);
    assert w.y % 4 == 0 && (w.vy == 4 || w.vy == -4);
    var c := PaddleChecks(w, g.panYLeft, g.panYRight);
    assert c.x % 4 == 0 && (c.vx == 4 || c.vx == -4);
  }

  /**
   * A ball that reaches the left paddle's face within its span is put on the
   * face and sent back with vx reversed; there is no goal.
   */
  lemma LeftPaddleReturn(g: Game)
    requires HitsLeft(Walls(Integrate(g.ball)), g.panYLeft)
    ensures Tick(g).winner.None?
    ensures Tick(g).ball.x == PaddleWidth && Tick(g).ball.vx == -g.ball.vx
    ensures Tick(g).ball.y == Walls(Integrate(g.ball)).y
  {
  }

  /** The right paddle mirrors the left one. */
  lemma RightPaddleReturn(g: Game)
    requires HitsRight(Walls(Integrate(g.ball)), g.panYRight)
    ensures Tick(g).winner.None?
    ensures Tick(g).ball.x == CanvasWidth - PaddleWidth && Tick(g).ball.vx == -g.ball.vx
    ensures Tick(g).ball.y == Walls(Integrate(g.ball)).y
  {
  }

  /** A ball that ends up past the left edge scores for the right player and is served again. */
  lemma LeftEdgeGoal(g: Game)
    requires Collide(g).x < 0
    ensures Tick(g) == TickResult(Serve, Some(Right))
  {
  }

  /** A ball that ends up past the right edge scores for the left player and is served again. */
  lemma RightEdgeGoal(g: Game)
    requires Collide(g).x > CanvasWidth
    ensures Tick(g) == TickResult(Serve, Some(Left))
  {
  }

  /**
   * A ball at (10, 300) moving right at 4 (and down at 4), with the left
   * paddle at 250, is inside the paddle's span behind its face: it is put on
   * the face and vx becomes -4.
   */
  lemma BehindLeftPaddleScenario()
    ensures Tick(Game(250, 250, Ball(10, 300, 4, 4))) == TickResult(Ball(PaddleWidth, 304, -4, 4), None)
  {
  }
}
