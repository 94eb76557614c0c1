/**
 * The seat registry as a value: which connection holds which paddle. A
 * connection is identified by an opaque number standing for its socket.
 */
module Seats {
  import opened Wire

  type Conn = nat

  /** Each paddle is held by at most one connection, and nobody holds "none". */
  predicate Unique(m: map<Conn, Seat>) {
    && NoSeat !in m.Values
    && forall c, d :: c in m && d in m && m[c] == m[d] ==> c == d
  }

  /** The seat a new connection is granted: left first, then right, else none. */
  function FirstFree(m: map<Conn, Seat>): (s: Seat)
    ensures s != NoSeat ==> s !in m.Values
    ensures s == NoSeat <==> Left in m.Values && Right in m.Values
    ensures s == Right ==> Left in m.Values
  {
    if Left !in m.Values then Left
    else if Right !in m.Values then Right
    else NoSeat
  }

  /**
   * The registry after a new connection asks for a seat: the free seat it is
   * granted is recorded for it and nothing else changes; with no free seat
   * the registry is left as it was.
   */
  function Assign(m: map<Conn, Seat>, c: Conn): (r: map<Conn, Seat>)
    ensures FirstFree(m) == NoSeat ==> r == m
    ensures FirstFree(m) != NoSeat ==> c in r && r[c] == FirstFree(m)
    ensures FirstFree(m) != NoSeat ==> r.Keys == m.Keys + {c}
    ensures forall d :: d in m && d != c ==> d in r && r[d] == m[d]
  {
    var s := FirstFree(m);
    if s == NoSeat then m else m[c := s]
  }

  /** The registry after a connection goes away. */
  function Release(m: map<Conn, Seat>, c: Conn): (r: map<Conn, Seat>)
    ensures c !in r && r.Keys == m.Keys - {c}
    ensures forall d :: d in r ==> r[d] == m[d]
  {
    m - {c}
  }

  /** A grant adds exactly the entry `c := seat` and keeps every seat held at most once. */
  lemma AssignGrants(m: map<Conn, Seat>, c: Conn)
    requires Unique(m) && c !in m
    requires FirstFree(m) != NoSeat
    ensures Assign(m, c).Keys == m.Keys + {c}
    ensures Assign(m, c)[c] == FirstFree(m)
    ensures forall d :: d in m ==> Assign(m, c)[d] == m[d]
    ensures |Assign(m, c)| == |m| + 1
    ensures Unique(Assign(m, c))
  {
    var r := Assign(m, c);
    assert r == m[c := FirstFree(m)];
    assert r.Keys == m.Keys + {c};
    assert |r.Keys| == |m.Keys| + 1;
    AssignKeepsUnique(m, c);
  }

  /** Whatever the connection, assigning keeps every seat held at most once. */
  lemma AssignKeepsUnique(m: map<Conn, Seat>, c: Conn)
    requires Unique(m)
    ensures Unique(Assign(m, c))
  {
    var s := FirstFree(m);
    if s != NoSeat {
      var r := m[c := s];
      assert forall d :: d in m ==> m[d] in m.Values && m[d] != s;
      assert forall d :: d in r ==> r[d] == (if d == c then s else m[d]);
      assert forall d :: d in r && d != c ==> r[d] != s;
    }
  }

  /** With both paddles taken, a newcomer gets "none" and the registry is unchanged. */
  lemma FullRejects(m: map<Conn, Seat>, c: Conn, l: Conn, r: Conn)
    requires l in m && m[l] == Left
    requires r in m && m[r] == Right
    ensures FirstFree(m) == NoSeat
    ensures Assign(m, c) == m
  {
    assert m[l] in m.Values && m[r] in m.Values;
  }

  /** A well-formed registry never holds more than two connections. */
  lemma AtMostTwo(m: map<Conn, Seat>)
    requires Unique(m)
    ensures |m| <= 2
  {
    var holders: set<Conn> := {};
    if l :| l in m && m[l] == Left {
      holders := holders + {l};
    }
    if r :| r in m && m[r] == Right {
      holders := holders + {r};
    }
    assert |holders| <= 2;
    forall d | d in m ensures d in holders {
      assert m[d] in m.Values;
    }
    assert m.Keys <= holders;
    SubsetCard(m.Keys, holders);
  }

  lemma {:induction false} SubsetCard(a: set<Conn>, b: set<Conn>)
    requires a <= b
    ensures |a| <= |b|
    decreases |b|
  {
    if b != {} {
      var x :| x in b;
      SubsetCard(a - {x}, b - {x});
    }
  }

  /** Releasing a connection frees its seat for the next newcomer, left first. */
  lemma ReleaseFrees(m: map<Conn, Seat>, c: Conn)
    requires Unique(m) && c in m
    ensures m[c] !in Release(m, c).Values
    ensures FirstFree(Release(m, c)) != NoSeat
    ensures m[c] == Left ==> FirstFree(Release(m, c)) == Left
    ensures Unique(Release(m, c))
  {
    var r := Release(m, c);
    forall d | d in r ensures r[d] != m[c] {
      assert r[d] == m[d];
    }
  }

  /** A connection that is granted a seat and then leaves leaves the registry as it was. */
  lemma ReleaseUndoesAssign(m: map<Conn, Seat>, c: Conn)
    requires c !in m
    ensures Release(Assign(m, c), c) == m
  {
  }
}
