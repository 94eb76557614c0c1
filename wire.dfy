/**
 * The wire vocabulary: the one message record every JSON message is decoded
 * into or encoded from, the seat names, and the builders for the messages the
 * server sends. JSON encoding itself is not modelled.
 */
module Wire {
  datatype Option<T> = None | Some(value: T)

  /** A seat as the registry hands it out; `NoSeat` is the "none" answer. */
  datatype Seat = Left | Right | NoSeat

  const LeftName: string := "left"
  const RightName: string := "right"
  const NoneName: string := "none"

  const AssignType: string := "assign"
  const MoveType: string := "move"
  const UpdateType: string := "update"
  const GameOverType: string := "gameover"
  const ErrorType: string := "error"

  /** The wire name of a seat; distinct seats get distinct names. */
  function SeatName(s: Seat): (name: string)
    ensures name == LeftName <==> s == Left
    ensures name == RightName <==> s == Right
    ensures name == NoneName <==> s == NoSeat
  {
    match s
    case Left => LeftName
    case Right => RightName
    case NoSeat => NoneName
  }

  /**
   * One message in either direction. Unused fields keep their zero value,
   * which the JSON encoding omits. `y` is nullable: a move without it
   * decodes to `None`. Ball coordinates are integers (see the State module).
   */
  datatype Message = Message(
    kind: string,
    player: string,
    y: Option<int>,
    leftY: int,
    rightY: int,
    ballX: int,
    ballY: int,
    winner: string)

  const Blank: Message := Message("", "", None, 0, 0, 0, 0, "")

  function AssignMessage(s: Seat): Message {
    Blank.(kind := AssignType, player := SeatName(s))
  }

  /** The reply to a connection for which no seat was free. */
  const ErrorMessage: Message := Blank.(kind := ErrorType, player := NoneName)

  function GameOverMessage(winner: Seat): Message {
    Blank.(kind := GameOverType, winner := SeatName(winner))
  }
}
