/** Canvas and paddle dimensions shared by the whole server. */
module Config {
  const CanvasWidth: int := 800
  const CanvasHeight: int := 600
  const PaddleHeight: int := 100
  const PaddleWidth: int := 20
  /** The largest top offset a paddle may take: it still fits on the canvas. */
  const MaxPaddleY: int := CanvasHeight - PaddleHeight
}
