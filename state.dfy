/**
 * The authoritative game state as a value: both paddle offsets and the ball.
 * The source stores ball coordinates as float64, but every value they can
 * take is an integer (the Physics module proves every reachable coordinate
 * is a multiple of 4), so they are `int` here and truncating the ball's
 * y coordinate to an integer is the identity.
 */
module State {
  import opened Config
  import opened Wire

  datatype Ball = Ball(x: int, y: int, vx: int, vy: int)

  datatype Game = Game(panYLeft: int, panYRight: int, ball: Ball)

  /** The ball at the centre of the canvas moving down and to the right. */
  const Serve: Ball := Ball(CanvasWidth / 2, CanvasHeight / 2, 4, 4)

  /** Both paddles centred vertically and the ball served. */
  const Initial: Game :=
    Game(CanvasHeight / 2 - PaddleHeight / 2, CanvasHeight / 2 - PaddleHeight / 2, Serve)

  /** The "update" message: a snapshot of both paddles and the ball position. */
  function UpdateMessage(g: Game): Message {
    Blank.(kind := UpdateType, leftY := g.panYLeft, rightY := g.panYRight,
           ballX := g.ball.x, ballY := g.ball.y)
  }
}
