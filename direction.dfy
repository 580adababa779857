/** The four wall directions of a room (Room.Direction) and the
    opposite-direction map used by both the generator and the level. */
module Directions {

  datatype Direction = North | East | South | West

  /** getOppositeDirection: the wall a door arrives through in the room it
      leads to. */
  function Opposite(d: Direction): (o: Direction)
    ensures o != d
    ensures (d == North || d == South) <==> (o == North || o == South)
  {
    match d
    case North => South
    case East => West
    case South => North
    case West => East
  }

  /** Opposite is an involution: N <-> S and E <-> W. */
  lemma OppositeInvolution(d: Direction)
    ensures Opposite(Opposite(d)) == d
    ensures Opposite(d) != d
  {
  }

  /** Opposite is one-to-one, so two doors of one room never arrive through
      the same wall of another room from different walls. */
  lemma OppositeInjective(d: Direction, e: Direction)
    ensures Opposite(d) == Opposite(e) <==> d == e
  {
    OppositeInvolution(d);
    OppositeInvolution(e);
  }

  /** The four directions in the order the model walks a direction-keyed map. */
  const AllDirections: seq<Direction> := [North, East, South, West]

  lemma AllDirectionsComplete(d: Direction)
    ensures d in AllDirections
  {
    match d {
      case North =>
      case East =>
      case South =>
      case West =>
    }
  }

  lemma SubsetCard<T>(a: set<T>, b: set<T>)
    requires a <= b
    ensures |a| <= |b|
    decreases a
  {
    if a != {} {
      var x :| x in a;
      SubsetCard(a - {x}, b - {x});
    }
  }

  /** A proper subset is strictly smaller. */
  lemma ProperSubsetCard<T>(a: set<T>, b: set<T>)
    requires a < b
    ensures |a| < |b|
  {
    assert b - a != {};
    var x :| x in b - a;
    SubsetCard(a, b - {x});
  }

  /** A map keyed by Direction (a door map, a connection map) has at most
      four slots. */
  lemma {:induction false} SlotCount<T>(m: map<Direction, T>)
    ensures |m| <= 4
  {
    var all := {North, East, South, West};
    forall k | k in m.Keys
      ensures k in all
    {
      match k {
        case North =>
        case East =>
        case South =>
        case West =>
      }
    }
    SubsetCard(m.Keys, all);
  }
}
