/** RoomHelper: rejection-sampling placement of entities inside a room. The
    helper keeps a growing list of occupied rectangles (door exclusion zones,
    buffered squares of existing obstacles, accepted positions) and accepts a
    random candidate only when its buffered square overlaps none of them. */
module Placement {
  import opened Options
  import opened Directions
  import opened Rectangles
  import opened Doors
  import opened Obstacles

  const WallBuffer: real := 20.0
  const DoorBuffer: real := 100.0
  const EntityBuffer: real := 15.0
  const MaxAttempts: nat := 50

  /** The buffered square an entity of half-size r at (x, y) claims. */
  function EntityBounds(x: real, y: real, r: real): (b: Rect)
    ensures b.width == b.height == 2.0 * (r + EntityBuffer)
    ensures b.x + b.width / 2.0 == x && b.y + b.height / 2.0 == y
  {
    Rect(x - r - EntityBuffer, y - r - EntityBuffer, (r + EntityBuffer) * 2.0, (r + EntityBuffer) * 2.0)
  }

  /** The door exclusion zone exactly as the helper computes it. */
  function DoorAreaAsWritten<R>(door: Door<R>): Rect
  {
    var b := Bounds(door);
    match door.direction
    case North => Rect(b.x - DoorBuffer / 2.0, b.y - DoorBuffer, b.width + DoorBuffer, b.height + DoorBuffer)
    case South => Rect(b.x - DoorBuffer / 2.0, b.y - DoorBuffer / 4.0, b.width + DoorBuffer, b.height + DoorBuffer)
    case East => Rect(b.x - DoorBuffer, b.y - DoorBuffer / 2.0, b.width + DoorBuffer / 4.0, b.height + DoorBuffer)
    case West => Rect(b.x - DoorBuffer / 4.0, b.y - DoorBuffer / 2.0, b.width + DoorBuffer, b.height + DoorBuffer)
  }

  /** As written, the EAST zone of the east door of a room never reaches the
      door it is meant to protect: it ends 65 units short of it. */
  lemma EastZoneMissesDoor<R>(rx: int, ry: int, w: int, h: int, target: R)
    ensures var d := NewDoor(rx, ry, w, h, East, target);
      !Overlaps(DoorAreaAsWritten(d), Bounds(d)) &&
      DoorAreaAsWritten(d).x + DoorAreaAsWritten(d).width + 65.0 == Bounds(d).x
  {
  }

  /** The door exclusion zone: the door widened by DoorBuffer / 2 along its
      wall on both sides and extended into the room. The EAST zone is the
      NORTH one turned onto the x axis: it starts DoorBuffer inside the door
      and ends at the door's outer edge (width + DoorBuffer, not
      + DoorBuffer / 4). */
  function DoorArea<R>(door: Door<R>): (a: Rect)
    ensures door.width >= 0 && door.height >= 0 ==> ContainsRect(a, Bounds(door))
    ensures door.direction != East ==> a == DoorAreaAsWritten(door)
  {
    var b := Bounds(door);
    if door.direction == East
    then Rect(b.x - DoorBuffer, b.y - DoorBuffer / 2.0, b.width + DoorBuffer, b.height + DoorBuffer)
    else DoorAreaAsWritten(door)
  }

  /** Every zone covers its door and a clearance of at least 75 units on the
      room side of the door's inner edge. */
  lemma DoorAreaClearance<R>(rx: int, ry: int, w: int, h: int, d: Direction, target: R)
    ensures var door := NewDoor(rx, ry, w, h, d, target);
      var a, b := DoorArea(door), Bounds(door);
      ContainsRect(a, b) &&
      (d == North ==> a.y + 75.0 <= b.y) &&
      (d == South ==> b.y + b.height + 75.0 <= a.y + a.height) &&
      (d == East ==> a.x + 75.0 <= b.x) &&
      (d == West ==> b.x + b.width + 75.0 <= a.x + a.width)
  {
  }

  /** The zones of the doors present among ds, in the order of ds. */
  function DoorAreasIn<R>(doors: map<Direction, Door<R>>, ds: seq<Direction>): (zs: seq<Rect>)
    ensures |zs| <= |ds|
    ensures forall z :: z in zs <==> exists k :: k in ds && k in doors && z == DoorArea(doors[k])
  {
    if ds == [] then []
    else
      var rest := DoorAreasIn(doors, ds[..|ds| - 1]);
      var d := ds[|ds| - 1];
      assert forall k :: k in ds <==> k in ds[..|ds| - 1] || k == d;
      rest + (if d in doors then [DoorArea(doors[d])] else [])
  }

  /** One zone per door of the map (the map is walked in the fixed order
      North, East, South, West). */
  function DoorAreas<R>(doors: map<Direction, Door<R>>): seq<Rect>
  {
    DoorAreasIn(doors, AllDirections)
  }

  /** A room without doors has no door zones. */
  lemma NoDoorNoZone<R>(doors: map<Direction, Door<R>>)
    requires doors == map[]
    ensures DoorAreas(doors) == []
  {
    NoDoorNoZoneIn(doors, AllDirections);
  }

  lemma {:induction false} NoDoorNoZoneIn<R>(doors: map<Direction, Door<R>>, ds: seq<Direction>)
    requires doors == map[]
    ensures DoorAreasIn(doors, ds) == []
    decreases |ds|
  {
    if ds != [] {
      NoDoorNoZoneIn(doors, ds[..|ds| - 1]);
    }
  }

  /** The buffered squares of the given obstacles, in list order. */
  function ObstacleSquares(obs: seq<Obstacle>): (sq: seq<Rect>)
    reads obs
    ensures |sq| == |obs|
    ensures forall i :: 0 <= i < |obs| ==> sq[i] == EntityBounds(obs[i].x, obs[i].y, obs[i].radius)
  {
    if obs == [] then []
    else
      var last := obs[|obs| - 1];
      ObstacleSquares(obs[..|obs| - 1]) + [EntityBounds(last.x, last.y, last.radius)]
  }

  /** sq overlaps none of the occupied rectangles. */
  predicate Free(spaces: seq<Rect>, sq: Rect)
  {
    forall i :: 0 <= i < |spaces| ==> !Overlaps(spaces[i], sq)
  }

  /** v is a possible value of MathUtils.random(range): a float in
      [0, range) for a positive range, in (range, 0] for a negative one. */
  predicate InRandomRange(v: real, range: real)
  {
    if range > 0.0 then 0.0 <= v < range
    else if range < 0.0 then range < v <= 0.0
    else v == 0.0
  }

  /** The two offset ranges of a uniform candidate for half-size r. */
  function RangeX(b: Rect, r: real): real { b.width - WallBuffer * 2.0 - r * 2.0 }
  function RangeY(b: Rect, r: real): real { b.height - WallBuffer * 2.0 - r * 2.0 }

  /** u holds the two random offsets of one attempt for half-size r. */
  predicate OffsetsFit(b: Rect, r: real, u: (real, real))
  {
    InRandomRange(u.0, RangeX(b, r)) && InRandomRange(u.1, RangeY(b, r))
  }

  /** The uniform candidate position for half-size r from the random offsets
      u: the wall buffer and the half-size are kept clear at the low walls. */
  function Candidate(b: Rect, r: real, u: (real, real)): (real, real)
  {
    (b.x + WallBuffer + r + u.0, b.y + WallBuffer + r + u.1)
  }

  /** The candidate's square for half-size r. */
  function CandidateSquare(b: Rect, r: real, u: (real, real)): Rect
  {
    var p := Candidate(b, r, u);
    EntityBounds(p.0, p.1, r)
  }

  /** Where the room leaves room for the entity, a uniform candidate lies
      between the walls, WallBuffer + r away from the low walls and more than
      that from the high walls, so its body stays inside the room. */
  lemma CandidateInside(b: Rect, r: real, u: (real, real))
    requires OffsetsFit(b, r, u) && RangeX(b, r) > 0.0 && RangeY(b, r) > 0.0
    ensures b.x + WallBuffer + r <= Candidate(b, r, u).0 < b.x + b.width - WallBuffer - r
    ensures b.y + WallBuffer + r <= Candidate(b, r, u).1 < b.y + b.height - WallBuffer - r
  {
  }

  /** Two entities whose buffered squares do not overlap keep a gap of at
      least twice EntityBuffer between their bodies along x or along y. */
  lemma SeparatedBodies(x1: real, y1: real, r1: real, x2: real, y2: real, r2: real)
    requires !Overlaps(EntityBounds(x1, y1, r1), EntityBounds(x2, y2, r2))
    ensures x2 - x1 >= r1 + r2 + 2.0 * EntityBuffer || x1 - x2 >= r1 + r2 + 2.0 * EntityBuffer ||
            y2 - y1 >= r1 + r2 + 2.0 * EntityBuffer || y1 - y2 >= r1 + r2 + 2.0 * EntityBuffer
  {
  }

  class RoomHelper {
    const roomBounds: Rect
    var occupiedSpaces: seq<Rect>
    /** The squares of the positions this helper has accepted, in order. */
    ghost var accepted: seq<Rect>

    /** Every accepted square is still occupied, and no two overlap. */
    ghost predicate Valid()
      reads this
    {
      (forall i :: 0 <= i < |accepted| ==> accepted[i] in occupiedSpaces) &&
      (forall i, j :: 0 <= i < j < |accepted| ==> !Overlaps(accepted[i], accepted[j]))
    }

    /** The helper for a room with the given bounds, doors and obstacles: the
        occupied list starts with one zone per door, then one square per
        obstacle. */
    constructor <R>(bounds: Rect, doors: map<Direction, Door<R>>, obstacles: seq<Obstacle>)
      ensures roomBounds == bounds
      ensures occupiedSpaces == DoorAreas(doors) + ObstacleSquares(obstacles)
      ensures accepted == []
      ensures Valid()
    {
      roomBounds := bounds;
      occupiedSpaces := [];
      accepted := [];
      new;
      InitializeOccupiedSpaces(doors, obstacles);
    }

    method InitializeOccupiedSpaces<R>(doors: map<Direction, Door<R>>, obstacles: seq<Obstacle>)
      requires Valid()
      modifies this`occupiedSpaces
      ensures Valid()
      ensures occupiedSpaces == old(occupiedSpaces) + DoorAreas(doors) + ObstacleSquares(obstacles)
    {
      OccupyDoorAreas(doors);
      OccupyObstacles(obstacles);
    }

    /** The first loop of initializeOccupiedSpaces: one zone per door, in
        the order of the directions. */
    method OccupyDoorAreas<R>(doors: map<Direction, Door<R>>)
      requires Valid()
      modifies this`occupiedSpaces
      ensures Valid()
      ensures occupiedSpaces == old(occupiedSpaces) + DoorAreas(doors)
    {
      for i := 0 to |AllDirections|
        invariant Valid()
        invariant occupiedSpaces == old(occupiedSpaces) + DoorAreasIn(doors, AllDirections[..i])
      {
        assert AllDirections[..i + 1][..i] == AllDirections[..i];
        var d := AllDirections[i];
        if d in doors {
          var z := DoorArea(doors[d]);
          AddOccupiedSpace(z.x, z.y, z.width, z.height);
        }
      }
      assert AllDirections[..|AllDirections|] == AllDirections;
    }

    /** The second loop of initializeOccupiedSpaces: one buffered square
        per obstacle, in list order. */
    method OccupyObstacles(obstacles: seq<Obstacle>)
      requires Valid()
      modifies this`occupiedSpaces
      ensures Valid()
      ensures occupiedSpaces == old(occupiedSpaces) + ObstacleSquares(obstacles)
    {
      for i := 0 to |obstacles|
        invariant Valid()
        invariant occupiedSpaces == old(occupiedSpaces) + ObstacleSquares(obstacles[..i])
      {
        assert obstacles[..i + 1][..i] == obstacles[..i];
        var o := obstacles[i];
        AddOccupiedSpace(o.x - o.radius - EntityBuffer, o.y - o.radius - EntityBuffer,
                         (o.radius + EntityBuffer) * 2.0, (o.radius + EntityBuffer) * 2.0);
      }
      assert obstacles[..|obstacles|] == obstacles;
    }

    method AddOccupiedSpace(x: real, y: real, width: real, height: real)
      requires Valid()
      modifies this`occupiedSpaces
      ensures Valid()
      ensures occupiedSpaces == old(occupiedSpaces) + [Rect(x, y, width, height)]
    {
      occupiedSpaces := occupiedSpaces + [Rect(x, y, width, height)];
    }

    /** isPositionValid: the entity's buffered square overlaps no occupied
        rectangle. */
    method IsPositionValid(x: real, y: real, radius: real) returns (ok: bool)
      ensures ok <==> Free(occupiedSpaces, EntityBounds(x, y, radius))
    {
      var entity := EntityBounds(x, y, radius);
      for i := 0 to |occupiedSpaces|
        invariant Free(occupiedSpaces[..i], entity)
      {
        if Overlaps(occupiedSpaces[i], entity) {
          return false;
        }
      }
      assert occupiedSpaces[..|occupiedSpaces|] == occupiedSpaces;
      return true;
    }

    method MarkPositionOccupied(x: real, y: real, radius: real)
      requires Valid()
      modifies this
      ensures Valid()
      ensures occupiedSpaces == old(occupiedSpaces) + [EntityBounds(x, y, radius)]
      ensures accepted == old(accepted)
    {
      occupiedSpaces := occupiedSpaces + [EntityBounds(x, y, radius)];
    }

    /** findValidPosition (findBiasedPosition with no bias): tries the
        candidates of the MaxAttempts draws in order and accepts the first
        whose square is free, marking it occupied. */
    method FindValidPosition(radius: real, draws: seq<(real, real)>) returns (pos: Option<(real, real)>)
      requires Valid()
      requires |draws| == MaxAttempts && forall k :: 0 <= k < |draws| ==> OffsetsFit(roomBounds, radius, draws[k])
      modifies this
      ensures Valid()
      ensures pos.Some? ==>
        (exists k :: 0 <= k < |draws| && pos.value == Candidate(roomBounds, radius, draws[k]) &&
           forall j :: 0 <= j < k ==> !Free(old(occupiedSpaces), CandidateSquare(roomBounds, radius, draws[j])))
      ensures pos.Some? ==>
        var sq := EntityBounds(pos.value.0, pos.value.1, radius);
        Free(old(occupiedSpaces), sq) &&
        occupiedSpaces == old(occupiedSpaces) + [sq] && accepted == old(accepted) + [sq]
      ensures pos.None? ==>
        occupiedSpaces == old(occupiedSpaces) && accepted == old(accepted) &&
        forall k :: 0 <= k < |draws| ==> !Free(occupiedSpaces, CandidateSquare(roomBounds, radius, draws[k]))
    {
      for attempt := 0 to MaxAttempts
        invariant occupiedSpaces == old(occupiedSpaces) && accepted == old(accepted)
        invariant forall j :: 0 <= j < attempt ==> !Free(occupiedSpaces, CandidateSquare(roomBounds, radius, draws[j]))
      {
        var p := Candidate(roomBounds, radius, draws[attempt]);
        var ok := IsPositionValid(p.0, p.1, radius);
        if ok {
          ghost var sq := EntityBounds(p.0, p.1, radius);
          AcceptPreservesValid(sq);
          MarkPositionOccupied(p.0, p.1, radius);
          accepted := accepted + [sq];
          return Some(p);
        }
      }
      return None;
    }

    /** Accepting a free square keeps the accepted squares pairwise apart. */
    lemma AcceptPreservesValid(sq: Rect)
      requires Valid() && Free(occupiedSpaces, sq)
      ensures forall i :: 0 <= i < |accepted| ==> !Overlaps(accepted[i], sq)
    {
      forall i | 0 <= i < |accepted|
        ensures !Overlaps(accepted[i], sq)
      {
        var k :| 0 <= k < |occupiedSpaces| && occupiedSpaces[k] == accepted[i];
      }
    }

    /** positionObstacle: on success the obstacle moves to the accepted
        position, whose square is then marked a second time. */
    method PositionObstacle(obstacle: Obstacle, draws: seq<(real, real)>) returns (ok: bool)
      requires Valid()
      requires |draws| == MaxAttempts && forall k :: 0 <= k < |draws| ==> OffsetsFit(roomBounds, obstacle.radius, draws[k])
      modifies this, obstacle
      ensures Valid()
      ensures ok ==>
        var sq := EntityBounds(obstacle.x, obstacle.y, obstacle.radius);
        (exists k :: 0 <= k < |draws| && (obstacle.x, obstacle.y) == Candidate(roomBounds, obstacle.radius, draws[k])) &&
        Free(old(occupiedSpaces), sq) &&
        occupiedSpaces == old(occupiedSpaces) + [sq, sq] && accepted == old(accepted) + [sq]
      ensures !ok ==>
        obstacle.x == old(obstacle.x) && obstacle.y == old(obstacle.y) &&
        occupiedSpaces == old(occupiedSpaces) && accepted == old(accepted) &&
        forall k :: 0 <= k < |draws| ==> !Free(occupiedSpaces, CandidateSquare(roomBounds, obstacle.radius, draws[k]))
    {
      var position := FindValidPosition(obstacle.radius, draws);
      if position.Some? {
        obstacle.SetPosition(position.value.0, position.value.1);
        MarkPositionOccupied(position.value.0, position.value.1, obstacle.radius);
        return true;
      }
      return false;
    }
  }
}
