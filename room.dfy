/** Room: one dungeon room with a fixed rectangle, up to one door per wall,
    a list of obstacles and a room type. */
module Rooms {
  import opened Directions
  import opened Rectangles
  import opened Doors
  import opened Obstacles
  import opened Placement

  // The window layout the rooms are fitted into.
  const WindowWidth: int := 1024
  const WindowHeight: int := 768
  const TopUiHeight: int := 50
  const BottomUiHeight: int := 20

  const RoomWidth: int := WindowWidth - 40
  const RoomHeight: int := WindowHeight - TopUiHeight - BottomUiHeight - 40
  const RoomX: int := (WindowWidth - RoomWidth) / 2
  const RoomY: int := BottomUiHeight + 20

  /** The rectangle every room occupies. */
  const RoomBounds: Rect := Rect(RoomX as real, RoomY as real, RoomWidth as real, RoomHeight as real)

  lemma RoomLayout()
    ensures RoomBounds == Rect(20.0, 40.0, 984.0, 658.0)
    ensures RoomX + RoomWidth + RoomX == WindowWidth
  {
  }

  datatype RoomType = Empty | ObstacleLight | ObstacleMedium | ObstacleHeavy | Special

  /** The inclusive range of obstacle half-sizes for a room type. */
  function ObstacleSizeRange(t: RoomType): (range: (int, int))
  {
    if t == ObstacleHeavy then (25, 45)
    else if t == ObstacleLight then (15, 30)
    else (20, 40)
  }

  /** The random choices behind one obstacle: its size, the two shape coins
      (the second is consulted in SPECIAL rooms only) and the unit draws of
      its placement attempts. */
  datatype ObstacleDraw = ObstacleDraw(size: int, square: bool, specialSquare: bool,
                                       positions: seq<(real, real)>)

  predicate DrawFits(t: RoomType, d: ObstacleDraw)
  {
    ObstacleSizeRange(t).0 <= d.size <= ObstacleSizeRange(t).1 &&
    |d.positions| == MaxAttempts &&
    forall k :: 0 <= k < |d.positions| ==> OffsetsFit(RoomBounds, d.size as real, d.positions[k])
  }

  /** The helper's list when it has accepted the squares acc: the door
      zones, then every accepted square marked twice in a row (once by the
      search, once more by positionObstacle). */
  predicate MarkedTwice(occ: seq<Rect>, zones: seq<Rect>, acc: seq<Rect>)
  {
    |occ| == |zones| + 2 * |acc| && occ[..|zones|] == zones &&
    forall j :: 0 <= j < |acc| ==> occ[|zones| + 2 * j] == acc[j] && occ[|zones| + 2 * j + 1] == acc[j]
  }

  /** A square is free of such a list iff it is free of the zones and of
      every accepted square. */
  lemma LayoutFree(occ: seq<Rect>, zones: seq<Rect>, acc: seq<Rect>, c: Rect)
    requires MarkedTwice(occ, zones, acc)
    ensures Free(occ, c) <==> Free(zones, c) && Free(acc, c)
  {
    if Free(occ, c) {
      forall k | 0 <= k < |zones| ensures !Overlaps(zones[k], c) {
        assert occ[..|zones|][k] == occ[k];
      }
      forall j | 0 <= j < |acc| ensures !Overlaps(acc[j], c) {
        assert occ[|zones| + 2 * j] == acc[j];
      }
    }
    if Free(zones, c) && Free(acc, c) {
      forall i | 0 <= i < |occ| ensures !Overlaps(occ[i], c) {
        if i < |zones| {
          assert occ[..|zones|][i] == occ[i];
        } else {
          var j := (i - |zones|) / 2;
          assert i == |zones| + 2 * j || i == |zones| + 2 * j + 1;
          assert 0 <= j < |acc| && occ[i] == acc[j];
        }
      }
    }
  }

  /** Marking one more accepted square twice keeps the layout. */
  lemma LayoutAppend(occ: seq<Rect>, zones: seq<Rect>, acc: seq<Rect>, sq: Rect)
    requires MarkedTwice(occ, zones, acc)
    ensures MarkedTwice(occ + [sq, sq], zones, acc + [sq])
  {
    var occ', acc' := occ + [sq, sq], acc + [sq];
    assert occ'[..|zones|] == occ[..|zones|];
    forall j | 0 <= j < |acc'|
      ensures occ'[|zones| + 2 * j] == acc'[j] && occ'[|zones| + 2 * j + 1] == acc'[j]
    {
      if j < |acc| {
        assert acc'[j] == acc[j];
      }
    }
  }

  /** Where an obstacle stands and its half-size. */
  datatype Spot = Spot(x: real, y: real, radius: real)

  function SpotOf(o: Obstacle): Spot
    reads o
  {
    Spot(o.x, o.y, o.radius)
  }

  /** The spots of a list of obstacles, position by position. */
  ghost function Spots(obs: seq<Obstacle>): (v: seq<Spot>)
    reads obs
    ensures |v| == |obs| && forall j :: 0 <= j < |obs| ==> v[j] == SpotOf(obs[j])
  {
    seq(|obs|, j requires 0 <= j < |obs| reads obs => SpotOf(obs[j]))
  }

  /** The buffered square claimed at a spot. */
  function SpotSquare(s: Spot): Rect
  {
    EntityBounds(s.x, s.y, s.radius)
  }

  /** The buffered square an obstacle claims. */
  function Square(o: Obstacle): Rect
    reads o
  {
    SpotSquare(SpotOf(o))
  }

  /** A spot with its draw's size at one of its draw's candidates. */
  predicate SpotFrom(s: Spot, d: ObstacleDraw)
  {
    s.radius == d.size as real &&
    exists k :: 0 <= k < |d.positions| && (s.x, s.y) == Candidate(RoomBounds, s.radius, d.positions[k])
  }

  /** The obstacle loop's state on values: spot j comes from draw j and is
      clear of the zones, and the helper has accepted exactly the spots'
      squares, each marked twice after the zones. */
  predicate Layout(v: seq<Spot>, draws: seq<ObstacleDraw>, zones: seq<Rect>, acc: seq<Rect>, occ: seq<Rect>)
  {
    |v| <= |draws| && |acc| == |v| &&
    (forall j :: 0 <= j < |v| ==> acc[j] == SpotSquare(v[j])) &&
    MarkedTwice(occ, zones, acc) &&
    (forall j :: 0 <= j < |v| ==> SpotFrom(v[j], draws[j])) &&
    (forall j :: 0 <= j < |v| ==> Free(zones, SpotSquare(v[j])))
  }

  /** Accepting a spot from the next draw whose square is free of the
      helper's list keeps the layout. */
  lemma LayoutGrow(v: seq<Spot>, draws: seq<ObstacleDraw>, zones: seq<Rect>, acc: seq<Rect>, occ: seq<Rect>, s: Spot)
    requires Layout(v, draws, zones, acc, occ) && |v| < |draws|
    requires SpotFrom(s, draws[|v|]) && Free(occ, SpotSquare(s))
    ensures Layout(v + [s], draws, zones, acc + [SpotSquare(s)], occ + [SpotSquare(s), SpotSquare(s)])
  {
    var sq := SpotSquare(s);
    LayoutFree(occ, zones, acc, sq);
    LayoutAppend(occ, zones, acc, sq);
    var v', acc' := v + [s], acc + [sq];
    forall j | 0 <= j < |v'|
      ensures acc'[j] == SpotSquare(v'[j]) && SpotFrom(v'[j], draws[j]) && Free(zones, SpotSquare(v'[j]))
    {
      if j < |v| {
        assert v'[j] == v[j] && acc'[j] == acc[j];
      }
    }
  }

  /** In a layout whose accepted squares do not overlap, neither do the
      spots' squares, and a square meets an accepted one only if it meets
      the square of one of the spots. */
  lemma LayoutApart(v: seq<Spot>, draws: seq<ObstacleDraw>, zones: seq<Rect>, acc: seq<Rect>, occ: seq<Rect>)
    requires Layout(v, draws, zones, acc, occ)
    requires forall i, j :: 0 <= i < j < |acc| ==> !Overlaps(acc[i], acc[j])
    ensures forall i, j :: 0 <= i < j < |v| ==> !Overlaps(SpotSquare(v[i]), SpotSquare(v[j]))
    ensures forall c :: !Free(acc, c) ==> exists j :: 0 <= j < |v| && Overlaps(SpotSquare(v[j]), c)
  {
    forall i, j | 0 <= i < j < |v|
      ensures !Overlaps(SpotSquare(v[i]), SpotSquare(v[j]))
    {
      assert acc[i] == SpotSquare(v[i]) && acc[j] == SpotSquare(v[j]);
    }
  }

  class Room {
    const id: int
    const bounds: Rect := RoomBounds
    var obstacles: seq<Obstacle>
    var doors: map<Direction, Door<Room?>>
    var roomType: RoomType

    /** Each door sits in the slot of its own direction. */
    ghost predicate Valid()
      reads this
    {
      forall d :: d in doors ==> doors[d].direction == d
    }

    constructor (id: int)
      ensures this.id == id && bounds == RoomBounds
      ensures obstacles == [] && doors == map[] && roomType == Empty
      ensures Valid()
    {
      this.id := id;
      obstacles := [];
      doors := map[];
      roomType := Empty;
    }

    /** addDoor: puts a new door into the slot, replacing any door there. */
    method AddDoor(direction: Direction, connectedRoom: Room?)
      requires Valid()
      modifies this`doors
      ensures Valid()
      ensures doors == old(doors)[direction := NewDoor(RoomX, RoomY, RoomWidth, RoomHeight, direction, connectedRoom)]
      ensures obstacles == old(obstacles) && roomType == old(roomType)
    {
      doors := doors[direction := NewDoor(RoomX, RoomY, RoomWidth, RoomHeight, direction, connectedRoom)];
    }

    method SetRoomType(t: RoomType)
      modifies this
      ensures roomType == t
      ensures doors == old(doors) && obstacles == old(obstacles)
    {
      roomType := t;
    }

    /** createObstacleForRoomType: an unplaced obstacle whose half-size is
        drawn from the type's range and whose shape is a coin (a separate
        coin in SPECIAL rooms). */
    method CreateObstacleForRoomType(draw: ObstacleDraw) returns (o: Obstacle)
      requires ObstacleSizeRange(roomType).0 <= draw.size <= ObstacleSizeRange(roomType).1
      ensures fresh(o) && o.x == 0.0 && o.y == 0.0 && o.radius == draw.size as real
      ensures o.square == if roomType == Special then draw.specialSquare else draw.square
      ensures roomType == ObstacleHeavy ==> 25.0 <= o.radius <= 45.0
      ensures roomType == ObstacleLight ==> 15.0 <= o.radius <= 30.0
      ensures roomType !in {ObstacleHeavy, ObstacleLight} ==> 20.0 <= o.radius <= 40.0
    {
      var isSquare := draw.square;
      if roomType == Special {
        isSquare := draw.specialSquare;
      }
      o := new Obstacle(0.0, 0.0, draw.size as real, isSquare);
    }

    /** o has its draw's size and stands at one of its draw's candidates. */
    ghost predicate PlacedFrom(o: Obstacle, d: ObstacleDraw)
      reads o
    {
      SpotFrom(SpotOf(o), d)
    }

    /** The state generateObstacles keeps between obstacles: the kept
        obstacles are distinct and their spots and the helper's lists form
        a layout. */
    ghost predicate PlacedBy(helper: RoomHelper, draws: seq<ObstacleDraw>, zones: seq<Rect>)
      reads this, helper, obstacles
    {
      helper.Valid() && helper.roomBounds == bounds &&
      (forall j, k :: 0 <= j < k < |obstacles| ==> obstacles[j] != obstacles[k]) &&
      Layout(Spots(obstacles), draws, zones, helper.accepted, helper.occupiedSpaces)
    }

    /** One iteration of the obstacle loop: create the next obstacle and let
        the helper place it; keep it only if placed. */
    method PlaceNextObstacle(helper: RoomHelper, draws: seq<ObstacleDraw>, ghost zones: seq<Rect>)
      returns (placed: bool)
      requires PlacedBy(helper, draws, zones) && |obstacles| < |draws| && DrawFits(roomType, draws[|obstacles|])
      modifies this`obstacles, helper
      ensures PlacedBy(helper, draws, zones)
      ensures placed ==>
        |obstacles| == |old(obstacles)| + 1 && obstacles == old(obstacles) + [obstacles[|old(obstacles)|]] &&
        fresh(obstacles[|old(obstacles)|])
      ensures !placed ==>
        obstacles == old(obstacles) &&
        var d := draws[|obstacles|];
        forall k :: 0 <= k < |d.positions| ==>
          var c := CandidateSquare(bounds, d.size as real, d.positions[k]);
          !Free(zones, c) || !Free(helper.accepted, c)
    {
      var d := draws[|obstacles|];
      ghost var v := Spots(obstacles);
      var o := CreateObstacleForRoomType(d);
      ghost var occ, acc := helper.occupiedSpaces, helper.accepted;
      placed := helper.PositionObstacle(o, d.positions);
      assert Spots(obstacles) == v;
      if placed {
        ghost var s := SpotOf(o);
        LayoutGrow(v, draws, zones, acc, occ, s);
        ghost var kept := obstacles;
        obstacles := obstacles + [o];
        assert obstacles[|kept|] == o && obstacles[..|kept|] == kept;
        assert Spots(obstacles) == v + [s];
      } else {
        forall k | 0 <= k < |d.positions|
          ensures var c := CandidateSquare(bounds, d.size as real, d.positions[k]);
            !Free(zones, c) || !Free(acc, c)
        {
          LayoutFree(occ, zones, acc, CandidateSquare(bounds, d.size as real, d.positions[k]));
        }
      }
    }

    /** generateObstacles: discards the old obstacles, then places up to
        numObstacles (drawn from [minObstacles, maxObstacles]) new ones with a
        fresh helper, stopping at the first one the helper cannot place. */
    method GenerateObstacles(minObstacles: int, maxObstacles: int, numObstacles: int, draws: seq<ObstacleDraw>)
      requires minObstacles <= numObstacles <= maxObstacles
      requires numObstacles <= |draws| && forall i :: 0 <= i < |draws| ==> DrawFits(roomType, draws[i])
      modifies this`obstacles
      ensures |obstacles| <= if numObstacles < 0 then 0 else numObstacles
      ensures forall i :: 0 <= i < |obstacles| ==> fresh(obstacles[i])
      ensures forall i, j :: 0 <= i < j < |obstacles| ==> obstacles[i] != obstacles[j]
      // each kept obstacle has its draw's size and stands at one of its draw's candidates
      ensures forall i :: 0 <= i < |obstacles| ==> PlacedFrom(obstacles[i], draws[i])
      // the squares of kept obstacles stay clear of the door zones and of each other
      ensures forall i :: 0 <= i < |obstacles| ==> Free(DoorAreas(doors), Square(obstacles[i]))
      ensures forall i, j :: 0 <= i < j < |obstacles| ==> !Overlaps(Square(obstacles[i]), Square(obstacles[j]))
      // fewer than drawn only because every candidate of the next draw was taken
      ensures |obstacles| < numObstacles ==>
        var d := draws[|obstacles|];
        forall k :: 0 <= k < |d.positions| ==>
          var c := CandidateSquare(bounds, d.size as real, d.positions[k]);
          !Free(DoorAreas(doors), c) || exists j :: 0 <= j < |obstacles| && Overlaps(Square(obstacles[j]), c)
    {
      obstacles := [];
      var helper := new RoomHelper(bounds, doors, obstacles);
      ghost var zones := DoorAreas(doors);
      assert ObstacleSquares([]) == [];
      assert MarkedTwice(helper.occupiedSpaces, zones, helper.accepted);
      var i := 0;
      while i < numObstacles
        invariant 0 <= i == |obstacles| && (i == 0 || i <= numObstacles)
        invariant fresh(helper) && PlacedBy(helper, draws, zones)
        invariant forall j :: 0 <= j < |obstacles| ==> fresh(obstacles[j])
      {
        var placed := PlaceNextObstacle(helper, draws, zones);
        if !placed {
          break;
        }
        i := i + 1;
      }
      AcceptedAreSquares(helper, draws, zones);
    }

    /** Consequences of PlacedBy in terms of the obstacles alone. */
    lemma AcceptedAreSquares(helper: RoomHelper, draws: seq<ObstacleDraw>, zones: seq<Rect>)
      requires PlacedBy(helper, draws, zones)
      ensures forall i :: 0 <= i < |obstacles| ==> PlacedFrom(obstacles[i], draws[i]) && Free(zones, Square(obstacles[i]))
      ensures forall i, j :: 0 <= i < j < |obstacles| ==> !Overlaps(Square(obstacles[i]), Square(obstacles[j]))
      ensures forall c :: !Free(helper.accepted, c) ==> exists j :: 0 <= j < |obstacles| && Overlaps(Square(obstacles[j]), c)
    {
      var v := Spots(obstacles);
      LayoutApart(v, draws, zones, helper.accepted, helper.occupiedSpaces);
      forall c | !Free(helper.accepted, c)
        ensures exists j :: 0 <= j < |obstacles| && Overlaps(Square(obstacles[j]), c)
      {
        var j :| 0 <= j < |v| && Overlaps(SpotSquare(v[j]), c);
        assert Square(obstacles[j]) == SpotSquare(v[j]);
      }
    }
  }
}
