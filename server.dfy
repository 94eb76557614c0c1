/**
 * The server's mutable state and the operations that change it: the game
 * state (paddles and ball) and the connection registries (fan-out set and
 * seat map). Each class method mirrors one critical section of the source;
 * the module-level methods chain several of them as one connection handler
 * or one tick does, run alone. Every method is tied to the value-level
 * definitions of the other modules.
 */
module Server {
  import opened Config
  import opened Wire
  import opened State
  import opened Paddles
  import opened Physics
  import opened Seats

  /** One attempt to read a message from a connection. */
  datatype ReadResult = Received(msg: Message) | ReadFailed

  /**
   * How many reads the handler consumes before the connection is closed: up
   * to the first failed read, or all of them when none fails (the end of the
   * input stands for the connection going away).
   */
  function FirstFailure(input: seq<ReadResult>): (k: nat)
    ensures k <= |input|
    ensures forall i :: 0 <= i < k ==> input[i].Received?
    ensures k < |input| ==> input[k] == ReadFailed
    decreases |input|
  {
    if input == [] || input[0] == ReadFailed then 0
    else 1 + FirstFailure(input[1..])
  }

  /** The messages carried by a run of reads. */
  function Payloads(input: seq<ReadResult>): (msgs: seq<Message>)
    ensures (forall i :: 0 <= i < |input| ==> input[i].Received?) ==>
      |msgs| == |input| && forall i :: 0 <= i < |input| ==> msgs[i] == input[i].msg
    decreases |input|
  {
    if input == [] then []
    else
      var last := input[|input| - 1];
      var prefix := input[..|input| - 1];
      assert forall i :: 0 <= i < |prefix| ==> prefix[i] == input[i];
      Payloads(prefix) + (if last.Received? then [last.msg] else [])
  }

  /** The messages a connection is sent when it arrives. */
  function Welcome(s: Seat, g: Game): seq<Message> {
    if s == NoSeat then [ErrorMessage] else [AssignMessage(s), UpdateMessage(g)]
  }

  /** The paddles and the ball, shared by the tick loop and every connection handler. */
  class GameState {
    var panYLeft: int
    var panYRight: int
    var ball: Ball

    function Value(): Game
      reads this
    {
      Game(panYLeft, panYRight, ball)
    }

    /** Both paddles centred, the ball at the centre moving down and right. */
    constructor ()
      ensures Value() == Initial
    {
      panYLeft := CanvasHeight / 2 - PaddleHeight / 2;
      panYRight := CanvasHeight / 2 - PaddleHeight / 2;
      ball := Ball(CanvasWidth / 2, CanvasHeight / 2, 4, 4);
    }

    /** A consistent copy of the state as an "update" message. */
    method Snapshot() returns (m: Message)
      ensures m == UpdateMessage(Value())
    {
      m := Blank.(kind := UpdateType, leftY := panYLeft, rightY := panYRight,
                  ballX := ball.x, ballY := ball.y);
    }

    /** Handle one inbound message: only a well-formed move changes a paddle. */
    method HandleMessage(msg: Message)
      modifies this
      ensures Value() == ApplyMessage(old(Value()), msg)
    {
      if msg.kind == MoveType && msg.player != "" && msg.y.Some? {
        if msg.player == LeftName {
          var clampedY := ClampY(msg.y.value);
          if clampedY != panYLeft {
            panYLeft := clampedY;
          }
        } else if msg.player == RightName {
          var clampedY := ClampY(msg.y.value);
          if clampedY != panYRight {
            panYRight := clampedY;
          }
        }
      }
    }

    /**
     * The read loop of a connection handler: every message read is handled,
     * including decoded messages that are not well-formed moves, and only a
     * failed read ends the loop.
     */
    method ReadLoop(input: seq<ReadResult>) returns (handled: nat)
      modifies this
      ensures handled == FirstFailure(input)
      ensures Value() == ApplyAll(old(Value()), Payloads(input[..handled]))
    {
      handled := 0;
      while handled < |input| && input[handled].Received?
        invariant handled <= FirstFailure(input)
        invariant Value() == ApplyAll(old(Value()), Payloads(input[..handled]))
        decreases |input| - handled
      {
        HandleMessage(input[handled].msg);
        assert input[..handled + 1][..handled] == input[..handled];
        handled := handled + 1;
      }
    }

    /** Serve the ball again from the centre. */
    method ResetGame()
      modifies this`ball
      ensures ball == Serve
    {
      ball := ball.(x := CanvasWidth / 2);
      ball := ball.(y := CanvasHeight / 2);
      ball := ball.(vx := 4);
      ball := ball.(vy := 4);
    }

    /**
     * One physics step. On a goal the "gameover" message naming the winner
     * is broadcast before the ball is served again; the connections whose
     * write fails (`failed`) are dropped from the fan-out set. The ball is
     * worked on in a local copy and written back once: the whole step runs
     * under the game-state lock, so no reader sees the intermediate values.
     */
    method UpdateBallPosition(reg: Registry, failed: set<Conn>)
      returns (winner: Option<Seat>, over: Option<Message>, sent: map<Conn, Message>)
      modifies this, reg
      ensures Value() == old(Value()).(ball := Tick(old(Value())).ball)
      ensures winner == Tick(old(Value())).winner
      ensures winner.Some? ==> reg.clients == old(reg.clients) - failed
      ensures winner.Some? ==> over == Some(GameOverMessage(winner.value))
      ensures winner.Some? ==> sent.Keys == old(reg.clients).Keys - failed
      ensures forall c :: c in sent ==> over.Some? && sent[c] == over.value
      ensures winner.None? ==> over == None && reg.clients == old(reg.clients) && sent == map[]
      ensures reg.assignedPlayers == old(reg.assignedPlayers)
    {
      winner, over, sent := None, None, map[];
      var b := ball;
      b := b.(x := b.x + b.vx);
      b := b.(y := b.y + b.vy);
      assert b == Integrate(old(ball));

      if b.y <= 0 {
        b := b.(y := 0);
        b := b.(vy := -b.vy);
      }
      if b.y >= CanvasHeight {
        b := b.(y := CanvasHeight);
        b := b.(vy := -b.vy);
      }
      assert b == Walls(Integrate(old(ball)));

      if b.x <= PaddleWidth {
        if b.y >= panYLeft && b.y <= panYLeft + PaddleHeight {
          b := b.(x := PaddleWidth);
          b := b.(vx := -b.vx);
        }
      }
      if b.x >= CanvasWidth - PaddleWidth {
        if b.y >= panYRight && b.y <= panYRight + PaddleHeight {
          b := b.(x := CanvasWidth - PaddleWidth);
          b := b.(vx := -b.vx);
        }
      }
      ball := b;
      assert ball == Collide(old(Value()));

      if ball.x < 0 {
        winner := Some(Right);
        over := Some(GameOverMessage(Right));
        sent := reg.Broadcast(over.value, failed);
        ResetGame();
      }
      if ball.x > CanvasWidth {
        winner := Some(Left);
        over := Some(GameOverMessage(Left));
        sent := reg.Broadcast(over.value, failed);
        ResetGame();
      }
    }
  }

  /** The fan-out set and the seat map, each keyed by connection. */
  class Registry {
    var clients: map<Conn, Seat>
    var assignedPlayers: map<Conn, Seat>

    constructor ()
      ensures clients == map[] && assignedPlayers == map[]
    {
      clients := map[];
      assignedPlayers := map[];
    }

    /** Grant the first free seat, left before right, or "none" when both are taken. */
    method AssignPlayer(conn: Conn) returns (granted: Seat)
      modifies this`assignedPlayers
      ensures granted == FirstFree(old(assignedPlayers))
      ensures assignedPlayers == Assign(old(assignedPlayers), conn)
    {
      var roles := map[Left := false, Right := false];
      var pending := assignedPlayers.Keys;
      while pending != {}
        invariant pending <= assignedPlayers.Keys
        invariant Left in roles && Right in roles
        invariant roles[Left] <==>
          exists c :: c in assignedPlayers && c !in pending && assignedPlayers[c] == Left
        invariant roles[Right] <==>
          exists c :: c in assignedPlayers && c !in pending && assignedPlayers[c] == Right
        decreases pending
      {
        var c :| c in pending;
        var role := assignedPlayers[c];
        if role == Left {
          roles := roles[Left := true];
        }
        if role == Right {
          roles := roles[Right := true];
        }
        pending := pending - {c};
      }

      if !roles[Left] {
        granted := Left;
      } else if !roles[Right] {
        granted := Right;
      } else {
        granted := NoSeat;
      }
      if granted != NoSeat {
        assignedPlayers := assignedPlayers[conn := granted];
      }
    }

    /**
     * Write one message to every registered connection. A failed write drops
     * that connection alone; every other one still receives the message.
     */
    method Broadcast(msg: Message, failed: set<Conn>) returns (sent: map<Conn, Message>)
      modifies this`clients
      ensures sent.Keys == old(clients).Keys - failed
      ensures forall c :: c in sent ==> sent[c] == msg
      ensures clients == old(clients) - failed
    {
      var pending := clients.Keys;
      sent := map[];
      while pending != {}
        invariant pending <= old(clients).Keys
        invariant sent.Keys == old(clients).Keys - pending - failed
        invariant forall c :: c in sent ==> sent[c] == msg
        invariant clients == old(clients) - (old(clients).Keys - pending) * failed
        decreases pending
      {
        var c :| c in pending;
        if c in failed {
          clients := clients - {c};
        } else {
          sent := sent[c := msg];
        }
        pending := pending - {c};
      }
    }

    /** Forget a connection that has gone away: it leaves the fan-out set and frees its seat. */
    method Disconnect(conn: Conn)
      modifies this
      ensures clients == old(clients) - {conn}
      ensures assignedPlayers == Release(old(assignedPlayers), conn)
    {
      clients := clients - {conn};
      assignedPlayers := assignedPlayers - {conn};
    }
  }

  /**
   * A new connection asks for a seat. Without one it is sent an error and
   * never registered; with one it joins the fan-out set and is sent its seat
   * and a snapshot of the game.
   */
  method Connect(g: GameState, reg: Registry, conn: Conn) returns (seat: Seat, replies: seq<Message>)
    modifies reg
    ensures seat == FirstFree(old(reg.assignedPlayers))
    ensures reg.assignedPlayers == Assign(old(reg.assignedPlayers), conn)
    ensures reg.clients == if seat == NoSeat then old(reg.clients) else old(reg.clients)[conn := seat]
    ensures replies == Welcome(seat, g.Value())
  {
    seat := reg.AssignPlayer(conn);
    if seat == NoSeat {
      replies := [ErrorMessage];
      return;
    }
    reg.clients := reg.clients[conn := seat];
    var snapshot := g.Snapshot();
    replies := [AssignMessage(seat), snapshot];
  }

  /**
   * One connection's whole life when no other event interleaves with it:
   * seat request, read loop, clean-up. The Traces module covers interleaving.
   */
  method HandleConnection(g: GameState, reg: Registry, conn: Conn, input: seq<ReadResult>)
    returns (seat: Seat, replies: seq<Message>, handled: nat)
    modifies g, reg
    ensures seat == FirstFree(old(reg.assignedPlayers))
    ensures replies == Welcome(seat, old(g.Value()))
    ensures seat == NoSeat ==> handled == 0 && g.Value() == old(g.Value())
    ensures seat == NoSeat ==> reg.assignedPlayers == old(reg.assignedPlayers)
    ensures seat == NoSeat ==> reg.clients == old(reg.clients)
    ensures seat != NoSeat ==> handled == FirstFailure(input)
    ensures seat != NoSeat ==> g.Value() == ApplyAll(old(g.Value()), Payloads(input[..handled]))
    ensures seat != NoSeat ==>
      reg.assignedPlayers == Release(Assign(old(reg.assignedPlayers), conn), conn)
    ensures seat != NoSeat ==> reg.clients == old(reg.clients) - {conn}
    ensures conn !in old(reg.assignedPlayers) ==> reg.assignedPlayers == old(reg.assignedPlayers)
  {
    ghost var seatsBefore := reg.assignedPlayers;
    if conn !in seatsBefore {
      ReleaseUndoesAssign(seatsBefore, conn);
    }
    handled := 0;
    seat, replies := Connect(g, reg, conn);
    if seat == NoSeat {
      return;
    }
    handled := g.ReadLoop(input);
    reg.Disconnect(conn);
  }

  /**
   * One firing of the tick loop: the physics step (with its "gameover"
   * broadcast on a goal), then the "update" broadcast of the new state.
   */
  method GameLoopTick(g: GameState, reg: Registry, overFailed: set<Conn>, updateFailed: set<Conn>)
    returns (winner: Option<Seat>, over: Option<Message>, overSent: map<Conn, Message>,
             update: Message, sent: map<Conn, Message>)
    modifies g, reg
    ensures g.Value() == old(g.Value()).(ball := Tick(old(g.Value())).ball)
    ensures winner == Tick(old(g.Value())).winner
    ensures update == UpdateMessage(g.Value())
    ensures var afterOver := if winner.Some? then old(reg.clients) - overFailed else old(reg.clients);
      reg.clients == afterOver - updateFailed && sent.Keys == afterOver.Keys - updateFailed
    ensures winner.Some? ==> over == Some(GameOverMessage(winner.value))
    ensures winner.None? ==> over == None && overSent == map[]
    ensures winner.Some? ==> overSent.Keys == old(reg.clients).Keys - overFailed
    ensures forall c :: c in overSent ==> over.Some? && overSent[c] == over.value
    ensures forall c :: c in sent ==> sent[c] == update
    ensures reg.assignedPlayers == old(reg.assignedPlayers)
  {
    winner, over, overSent := g.UpdateBallPosition(reg, overFailed);
    update := g.Snapshot();
    sent := reg.Broadcast(update, updateFailed);
  }
}
