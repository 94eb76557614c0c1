/**
 * The whole server as a value driven by an arbitrary interleaving of atomic
 * events: connections arriving, messages being read, connections closing and
 * ticks firing. Each event is one critical section of the source, except
 * `Accept`, `Close` and `Fire`, which each merge two; an event falling
 * between the halves leaves the same `World` as some order of whole events.
 * So every order the scheduler may produce reaches a `World` some sequence
 * of events here reaches, and the invariants below hold after all of them.
 */
module Traces {
  import opened Config
  import opened Wire
  import opened State
  import opened Paddles
  import opened Physics
  import opened Seats

  datatype World = World(game: Game, seats: map<Conn, Seat>, clients: map<Conn, Seat>)

  /** The process at start-up: initial game, nobody connected. */
  const Start: World := World(Initial, map[], map[])

  datatype Event =
    | Accept(conn: Conn)
    | Receive(msg: Message)
    | Close(conn: Conn)
    | Fire(overFailed: set<Conn>, updateFailed: set<Conn>)

  /**
   * One event. A refused connection changes nothing; a granted one holds its
   * seat and is registered for fan-out. A tick drops the connections whose
   * "gameover" write (on a goal) or "update" write fails.
   */
  function Step(w: World, e: Event): (r: World)
    ensures e.Accept? && FirstFree(w.seats) == NoSeat ==> r == w
    ensures e.Accept? && FirstFree(w.seats) != NoSeat ==>
      e.conn in r.seats && e.conn in r.clients && r.seats[e.conn] == r.clients[e.conn] == FirstFree(w.seats)
    ensures !e.Receive? ==> r.game.panYLeft == w.game.panYLeft && r.game.panYRight == w.game.panYRight
    ensures e.Receive? ==> r.seats == w.seats && r.clients == w.clients && r.game.ball == w.game.ball
    ensures e.Close? ==> e.conn !in r.seats && e.conn !in r.clients
    ensures e.Fire? ==> r.seats == w.seats && r.clients.Keys <= w.clients.Keys
  {
    match e
    case Accept(c) =>
      var s := FirstFree(w.seats);
      if s == NoSeat then w
      else w.(seats := Assign(w.seats, c), clients := w.clients[c := s])
    case Receive(msg) =>
      w.(game := ApplyMessage(w.game, msg))
    case Close(c) =>
      w.(seats := Release(w.seats, c), clients := w.clients - {c})
    case Fire(overFailed, updateFailed) =>
      var t := Tick(w.game);
      var afterOver := if t.winner.Some? then w.clients - overFailed else w.clients;
      w.(game := w.game.(ball := t.ball), clients := afterOver - updateFailed)
  }

  /** The world after the events in order. */
  function Run(w: World, events: seq<Event>): World
    decreases |events|
  {
    if events == [] then w
    else Step(Run(w, events[..|events| - 1]), events[|events| - 1])
  }

  /**
   * Seats held at most once; every registered connection holds the seat it
   * is registered with; paddles on the canvas; the ball reachable.
   */
  predicate Inv(w: World) {
    && Unique(w.seats)
    && (forall c :: c in w.clients ==> c in w.seats && w.clients[c] == w.seats[c])
    && 0 <= w.game.panYLeft <= MaxPaddleY && 0 <= w.game.panYRight <= MaxPaddleY
    && Reachable(w.game.ball)
  }

  lemma StartInv()
    ensures Inv(Start)
  {
    ServeReachable();
  }

  lemma StepPreservesInv(w: World, e: Event)
    requires Inv(w)
    ensures Inv(Step(w, e))
  {
    match e
    case Accept(c) =>
      AssignKeepsUnique(w.seats, c);
    case Receive(msg) =>
    case Close(c) =>
      if c in w.seats {
        ReleaseFrees(w.seats, c);
      } else {
        assert Release(w.seats, c) == w.seats;
      }
    case Fire(_, _) =>
      TickPreservesReachable(w.game);
  }

  /** Whatever order events arrive in, the invariant holds. */
  lemma {:induction false} RunPreservesInv(events: seq<Event>)
    ensures Inv(Run(Start, events))
    decreases |events|
  {
    if events == [] {
      StartInv();
    } else {
      RunPreservesInv(events[..|events| - 1]);
      StepPreservesInv(Run(Start, events[..|events| - 1]), events[|events| - 1]);
    }
  }

  /**
   * A run of ticks alone moves only the ball, which stays reachable: the
   * seats and paddles stay put, and the fan-out set only loses connections,
   * each survivor keeping the seat it was registered with.
   */
  lemma {:induction false} TicksMoveOnlyTheBall(w: World, events: seq<Event>)
    requires Reachable(w.game.ball)
    requires forall i :: 0 <= i < |events| ==> events[i].Fire?
    ensures var r := Run(w, events);
      && Reachable(r.game.ball)
      && r.seats == w.seats
      && r.game.panYLeft == w.game.panYLeft && r.game.panYRight == w.game.panYRight
      && r.clients.Keys <= w.clients.Keys
      && (forall c :: c in r.clients ==> r.clients[c] == w.clients[c])
    decreases |events|
  {
    if events != [] {
      var prefix := events[..|events| - 1];
      TicksMoveOnlyTheBall(w, prefix);
      TickPreservesReachable(Run(w, prefix).game);
    }
  }

  /** At no point do more than two connections hold a seat or receive updates. */
  lemma AtMostTwoPlayers(events: seq<Event>)
    ensures |Run(Start, events).seats| <= 2
    ensures |Run(Start, events).clients| <= 2
  {
    var w := Run(Start, events);
    RunPreservesInv(events);
    AtMostTwo(w.seats);
    assert w.clients.Keys <= w.seats.Keys;
    SubsetCard(w.clients.Keys, w.seats.Keys);
  }

  /** While both seats are held, a newcomer is refused and the world is unchanged. */
  lemma ThirdIsRefused(w: World, c: Conn, l: Conn, r: Conn)
    requires l in w.seats && w.seats[l] == Left
    requires r in w.seats && w.seats[r] == Right
    ensures Step(w, Accept(c)) == w
  {
    FullRejects(w.seats, c, l, r);
  }

  /**
   * Once a seated connection closes, the next newcomer is seated and
   * registered; a freed left seat is granted again as left.
   */
  lemma ClosedSeatIsReused(w: World, c: Conn, d: Conn)
    requires Inv(w) && c in w.seats
    ensures var after := Step(Step(w, Close(c)), Accept(d));
      && d in after.seats && d in after.clients
      && after.seats[d] == after.clients[d]
      && (w.seats[c] == Left ==> after.seats[d] == Left)
  {
    ReleaseFrees(w.seats, c);
  }

  /** A refused connection never enters the fan-out set. */
  lemma RefusedNeverRegistered(w: World, c: Conn)
    requires Inv(w) && c !in w.seats
    requires FirstFree(w.seats) == NoSeat
    ensures c !in Step(w, Accept(c)).clients
  {
  }
}
