/** DungeonGenerator: builds the partition tree, puts a room on each of the
    (up to eight) terminal leaves nearest the origin, and joins the rooms by
    doors in three phases: along the tree, then between disconnected groups,
    then a few extra ones. Random draws are parameters. */
module Generation {
  import opened Options
  import opened Directions
  import opened Rectangles
  import opened Doors
  import opened Obstacles
  import opened Placement
  import opened Rooms
  import opened Graphs
  import opened Bsp
  import opened Sorting
  import opened DungeonRules
  import opened DoorPhases
  import opened Repair
  import opened Extras

  /** Pass p of the tree loop refuses leaf j: it is split already, too small
      to be offered, or splitLeaf turns it down with that pass's coin. */
  ghost predicate Refused(leaves: seq<Leaf<Room>>, coin: (nat, nat) -> bool, p: nat, j: nat)
    requires j < |leaves|
  {
    leaves[j].kids.Some? || TooSmall(leaves[j]) || !CanSplit(leaves[j], coin(p, j))
  }

  /** Pass p splits nothing. */
  ghost predicate Stuck(leaves: seq<Leaf<Room>>, coin: (nat, nat) -> bool, p: nat)
  {
    forall j :: 0 <= j < |leaves| ==> Refused(leaves, coin, p, j)
  }

  /** What generateObstacles leaves in a room drawn count obstacles with
      draws ds, given the door zones at that time: at most count obstacles,
      distinct, each at one of its draw's candidates and clear of the zones,
      with pairwise apart squares, and fewer only because every candidate of
      the next draw hit a zone or a kept obstacle. */
  ghost predicate ObstaclesPlaced(room: Room, count: int, ds: seq<ObstacleDraw>, zones: seq<Rect>)
    reads room, room.obstacles
  {
    var obs := room.obstacles;
    |obs| <= count <= |ds| &&
    (forall i, j :: 0 <= i < j < |obs| ==> obs[i] != obs[j]) &&
    (forall i :: 0 <= i < |obs| ==> room.PlacedFrom(obs[i], ds[i]) && Free(zones, Square(obs[i]))) &&
    (forall i, j :: 0 <= i < j < |obs| ==> !Overlaps(Square(obs[i]), Square(obs[j]))) &&
    (|obs| < count ==>
      var d := ds[|obs|];
      forall k :: 0 <= k < |d.positions| ==>
        var c := CandidateSquare(room.bounds, d.size as real, d.positions[k]);
        !Free(zones, c) || exists j :: 0 <= j < |obs| && Overlaps(Square(obs[j]), c))
  }

  /** What createRoom leaves behind for room number i: its id, its type,
      no door yet, and its obstacles placed with no door zone in the way. */
  ghost predicate Made(room: Room, i: nat, roll: int, count: int, ds: seq<ObstacleDraw>)
    reads room, room.obstacles
  {
    room.id == i && room.roomType == RoomTypeFor(i, roll) && room.doors == map[] &&
    ObstaclesPlaced(room, count, ds, [])
  }

  /** Room j of rs is made as room number j. */
  ghost predicate AllMade(rs: seq<Room>, rolls: nat -> int, counts: nat -> int, draws: nat -> seq<ObstacleDraw>)
    reads rs, set j, k | 0 <= j < |rs| && 0 <= k < |rs[j].obstacles| :: rs[j].obstacles[k]
  {
    forall j :: 0 <= j < |rs| ==> Made(rs[j], j, rolls(j), counts(j), draws(j))
  }

  lemma AllMadeAppend(rs: seq<Room>, r: Room, rolls: nat -> int, counts: nat -> int, draws: nat -> seq<ObstacleDraw>)
    requires AllMade(rs, rolls, counts, draws)
    requires Made(r, |rs|, rolls(|rs|), counts(|rs|), draws(|rs|))
    ensures AllMade(rs + [r], rolls, counts, draws)
  {
    var rs' := rs + [r];
    forall j | 0 <= j < |rs'|
      ensures Made(rs'[j], j, rolls(j), counts(j), draws(j))
    {
      if j < |rs| {
        assert rs'[j] == rs[j];
      }
    }
  }

  /** Made rooms have no door. */
  lemma MadeDoorless(rs: seq<Room>, rolls: nat -> int, counts: nat -> int, draws: nat -> seq<ObstacleDraw>)
    requires AllMade(rs, rolls, counts, draws)
    ensures forall j :: 0 <= j < |rs| ==> rs[j].doors == map[]
  {
    forall j | 0 <= j < |rs|
      ensures rs[j].doors == map[]
    {
      assert Made(rs[j], j, rolls(j), counts(j), draws(j));
    }
  }

  /** Where generateRooms stands after making the rooms rs from the leaves
      L0: rs are distinct, room j is made as room number j and sits on the
      j-th leaf of the room order, and no room has a connection yet. */
  ghost predicate Building(L0: seq<Leaf<Room>>, ls: seq<Leaf<Room>>, rs: seq<Room>, cs: Conn<Room>,
                           rolls: nat -> int, counts: nat -> int, draws: nat -> seq<ObstacleDraw>)
    reads rs, set j, k | 0 <= j < |rs| && 0 <= k < |rs[j].obstacles| :: rs[j].obstacles[k]
  {
    |rs| <= Terminals(L0) && Distinct(rs) && ls == Furnish(L0, RoomSlots(L0, |rs|), rs) &&
    cs == Unlinked(rs) && AllMade(rs, rolls, counts, draws)
  }

  /** Making one more room keeps Building. */
  lemma BuildingStep(L0: seq<Leaf<Room>>, ls: seq<Leaf<Room>>, rs: seq<Room>, cs: Conn<Room>, r: Room,
                     rolls: nat -> int, counts: nat -> int, draws: nat -> seq<ObstacleDraw>)
    requires Building(L0, ls, rs, cs, rolls, counts, draws) && |rs| < Terminals(L0) && r !in rs
    requires Made(r, |rs|, rolls(|rs|), counts(|rs|), draws(|rs|))
    ensures |RoomOrder(L0)| == Terminals(L0)
    ensures var k := RoomOrder(L0)[|rs|].0;
      k < |ls| && Building(L0, ls[k := Attach(ls[k], r)], rs + [r], cs[r := map[]], rolls, counts, draws)
  {
    FurnishNext(L0, rs, r);
    DistinctAppend(rs, r);
    UnlinkedAppend(rs, r);
    AllMadeAppend(rs, r, rolls, counts, draws);
  }

  /** The pair a repair round picks, if any, can get its doors: its rooms
      are distinct and its two walls free. */
  lemma JoinInstalls(g: Conn<Room>, leaves: seq<Leaf<Room>>, main: set<Room>, current: set<Room>,
                     best: Option<(Room, Direction, Room)>, h: Conn<Room>)
    requires main !! current && Joined(g, h, leaves, main, current, best)
    ensures Installs(g, best, h)
  {
    if best.Some? {
      var (a, d, b) := best.value;
      assert a in main && b in current;
    }
  }

  /** The tree right after the rooms are made keeps its shape, and the
      rooms sit on its leaves. */
  lemma BuiltTree(L0: seq<Leaf<Room>>, ls: seq<Leaf<Room>>, rs: seq<Room>, cs: Conn<Room>)
    requires TreeValid(L0) && Unfurnished(L0) && |rs| <= Terminals(L0) && Distinct(rs)
    requires ls == Furnish(L0, RoomSlots(L0, |rs|), rs) && cs == Unlinked(rs)
    ensures TreeValid(ls) && SameShape(L0, ls) && RoomsOnLeaves(ls, cs)
  {
    BuiltOnLeaves(L0, rs, cs);
    ShapeKeepsTree(L0, ls);
  }

  /** The connection map right after the rooms are made: one empty entry
      per room, so no doors, no loops and nothing unmatched. */
  lemma BuiltGraph(rs: seq<Room>, cs: Conn<Room>)
    requires cs == Unlinked(rs)
    ensures Bidirectional(cs) && NoSelfLoops(cs)
    ensures cs.Keys == (set r | r in rs) && forall r :: r in cs ==> DoorsFor(cs[r]) == map[]
  {
    UnlinkedValid(rs);
    assert DoorsFor(map[]) == map[];
  }

  twostate predicate AllFresh(new rs: seq<Room>)
  {
    forall j :: 0 <= j < |rs| ==> fresh(rs[j])
  }

  class DungeonGenerator {
    var rooms: seq<Room>
    var roomConnections: Conn<Room>
    /** Every leaf ever created, the root first; children refer to
        positions in this list. */
    var leaves: seq<Leaf<Room>>

    /** No room is listed twice. */
    ghost predicate RoomsDistinct()
      reads this
    {
      forall i, j :: 0 <= i < j < |rooms| ==> rooms[i] != rooms[j]
    }

    /** The generator's state between phases: the connection map has one
        entry per room and is exactly what the rooms' doors say, it is
        bidirectional and loop-free, the tree is well formed and the rooms
        sit on its leaves. */
    ghost predicate Valid()
      reads this, rooms
    {
      RoomsDistinct() &&
      roomConnections.Keys == (set r | r in rooms) &&
      (forall i :: 0 <= i < |rooms| ==> rooms[i].doors == DoorsFor(roomConnections[rooms[i]])) &&
      Bidirectional(roomConnections) && NoSelfLoops(roomConnections) &&
      TreeValid(leaves) && RoomsOnLeaves(leaves, roomConnections)
    }

    constructor ()
      ensures rooms == [] && roomConnections == map[] && leaves == []
    {
      rooms := [];
      roomConnections := map[];
      leaves := [];
    }

    /** countLeaves: the number of leaves without children. */
    method CountLeaves() returns (count: nat)
      ensures count == Terminals(leaves)
    {
      count := 0;
      for i := 0 to |leaves|
        invariant count == Terminals(leaves[..i])
      {
        assert leaves[..i + 1][..i] == leaves[..i];
        if leaves[i].kids.None? {
          count := count + 1;
        }
      }
      assert leaves[..|leaves|] == leaves;
    }

    /** The terminal leaves in list order. */
    method TerminalLeaves() returns (ts: seq<nat>)
      ensures ts == TerminalIndices(leaves)
    {
      ts := [];
      for i := 0 to |leaves|
        invariant ts == TerminalIndices(leaves[..i])
      {
        assert leaves[..i + 1][..i] == leaves[..i];
        if leaves[i].kids.None? {
          ts := ts + [i];
        }
      }
      assert leaves[..|leaves|] == leaves;
    }

    /** splitLeaf on leaf k with the orientation coin and the drawn cut
        offset: refuses a split leaf and a leaf whose cut length leaves no
        more than MinSize past MinSize, and otherwise appends two children
        that tile it. */
    method SplitLeaf(k: nat, coin: bool, off: int) returns (ok: bool)
      requires TreeValid(leaves) && k < |leaves|
      requires OffsetFits(CutLength(leaves[k], IsHorizontal(leaves[k], coin)), off)
      modifies this`leaves
      ensures ok <==> CanSplit(old(leaves)[k], coin)
      ensures ok ==>
        var (c1, c2) := Children(old(leaves)[k], IsHorizontal(old(leaves)[k], coin), off);
        leaves == AfterSplit(old(leaves), k, c1, c2)
      ensures !ok ==> leaves == old(leaves)
      ensures TreeValid(leaves) && Terminals(leaves) == Terminals(old(leaves)) + (if ok then 1 else 0)
      ensures Unfurnished(old(leaves)) ==> Unfurnished(leaves)
    {
      var leaf := leaves[k];
      if leaf.kids.Some? {
        return false;
      }
      var horizontal := IsHorizontal(leaf, coin);
      var minSize := MinSize(horizontal);
      var maxSplitPosition := CutLength(leaf, horizontal) - minSize;
      if maxSplitPosition <= minSize {
        return false;
      }
      var (c1, c2) := Children(leaf, horizontal, off);
      assert Split(leaf, coin, off) == Some((c1, c2));
      SplitKeepsTree(leaves, k, horizontal, c1, c2);
      SplitAddsOne(leaves, k, c1, c2);
      leaves := leaves[k := leaf.(kids := Some((|leaves|, |leaves| + 1)))] + [c1, c2];
      ok := true;
    }

    /** One pass of createBSPTree over the leaves present at its start:
        every terminal leaf that is not too small is offered to SplitLeaf
        with the pass's coin and cut draw. A pass that splits nothing leaves
        the tree as it was, every leaf refused. */
    method SplitPass(pass: nat, coin: (nat, nat) -> bool, off: (nat, nat, int) -> int) returns (splitOccurred: bool)
      requires TreeValid(leaves) && Unfurnished(leaves)
      requires forall p: nat, k: nat, len: int :: len > 0 ==> OffsetFits(len, off(p, k, len))
      modifies this`leaves
      ensures TreeValid(leaves) && Unfurnished(leaves)
      ensures splitOccurred ==> Terminals(leaves) > Terminals(old(leaves))
      ensures !splitOccurred ==> leaves == old(leaves) && Stuck(leaves, coin, pass)
    {
      splitOccurred := false;
      ghost var before := leaves;
      var n := |leaves|;
      for k := 0 to n
        invariant TreeValid(leaves) && Unfurnished(leaves)
        invariant n <= |leaves| && forall j :: k <= j < n ==> leaves[j] == before[j]
        invariant Terminals(leaves) >= Terminals(before)
        invariant splitOccurred ==> Terminals(leaves) > Terminals(before)
        invariant !splitOccurred ==> leaves == before && forall j :: 0 <= j < k ==> Refused(before, coin, pass, j)
      {
        if leaves[k].kids.Some? || TooSmall(leaves[k]) {
          continue;
        }
        var horizontal := IsHorizontal(leaves[k], coin(pass, k));
        var ok := SplitLeaf(k, coin(pass, k), off(pass, k, CutLength(leaves[k], horizontal)));
        if ok {
          splitOccurred := true;
        }
      }
    }

    /** createBSPTree: starting from the whole area, passes over the leaves
        split every terminal leaf that is not too small, until there are at
        least TargetLeafCount terminal leaves or a pass splits nothing.
        coin(p, k) and off(p, k, len) are the orientation coin and the cut
        draw of leaf k in pass p. */
    method CreateBSPTree(coin: (nat, nat) -> bool, off: (nat, nat, int) -> int)
      requires leaves == [] && rooms == [] && roomConnections == map[]
      requires forall p: nat, k: nat, len: int :: len > 0 ==> OffsetFits(len, off(p, k, len))
      modifies this`leaves
      ensures Valid() && Unfurnished(leaves) && rooms == [] && roomConnections == map[]
      ensures Terminals(leaves) >= TargetLeafCount || exists p: nat :: Stuck(leaves, coin, p)
    {
      leaves := [RootLeaf()];
      var splitOccurred := true;
      var pass: nat := 0;
      var count := CountLeaves();
      while splitOccurred && count < TargetLeafCount
        invariant TreeValid(leaves) && Unfurnished(leaves)
        invariant count == Terminals(leaves)
        invariant !splitOccurred ==> pass > 0 && Stuck(leaves, coin, pass - 1)
        decreases 2 * (if count < TargetLeafCount then TargetLeafCount - count else 0) + (if splitOccurred then 1 else 0)
      {
        splitOccurred := SplitPass(pass, coin, off);
        pass := pass + 1;
        count := CountLeaves();
      }
    }
  
    /** assignRoomType: sets the type RoomTypeFor gives the room's index and
        roll. */
    method AssignRoomType(room: Room, index: nat, roll: int)
      modifies room
      ensures room.roomType == RoomTypeFor(index, roll)
      ensures room.doors == old(room.doors) && room.obstacles == old(room.obstacles)
    {
      if index == 0 {
        room.SetRoomType(Empty);
        return;
      }
      if index == TargetLeafCount - 1 {
        room.SetRoomType(Special);
        return;
      }
      var t := GetRoomType(index, roll);
      room.SetRoomType(t);
    }

    /** generateRoomObstacles: places between the type's minimum and maximum
        of obstacles; count and ds are the drawn count and draws. */
    method GenerateRoomObstacles(room: Room, count: int, ds: seq<ObstacleDraw>)
      requires Drawable(room.roomType, count, ds)
      modifies room
      ensures room.roomType == old(room.roomType) && room.doors == old(room.doors)
      ensures forall i :: 0 <= i < |room.obstacles| ==> fresh(room.obstacles[i])
      ensures ObstaclesPlaced(room, count, ds, DoorAreas(room.doors))
    {
      var minObstacles, maxObstacles := 0, 0;
      match room.roomType {
        case Empty => maxObstacles := 1;
        case ObstacleLight => minObstacles, maxObstacles := 2, 4;
        case ObstacleMedium => minObstacles, maxObstacles := 4, 7;
        case ObstacleHeavy => minObstacles, maxObstacles := 7, 12;
        case Special => minObstacles, maxObstacles := 5, 8;
      }
      room.GenerateObstacles(minObstacles, maxObstacles, count, ds);
    }

    /** The body of generateRooms' loop for room i, apart from the leaf and
        list updates: a new room with id i, its type and its obstacles. */
    method CreateRoom(i: nat, roll: int, count: int, ds: seq<ObstacleDraw>) returns (room: Room)
      requires Drawable(RoomTypeFor(i, roll), count, ds)
      ensures fresh(room) && Made(room, i, roll, count, ds)
    {
      room := new Room(i);
      AssignRoomType(room, i, roll);
      GenerateRoomObstacles(room, count, ds);
      NoDoorNoZone(room.doors);
    }

    method Commit(ls: seq<Leaf<Room>>, rs: seq<Room>, cs: Conn<Room>)
      modifies this
      ensures leaves == ls && rooms == rs && roomConnections == cs
    {
      leaves, rooms, roomConnections := ls, rs, cs;
    }

    /** The loop of generateRooms: room i is made and put on the leaf
        order[i].0, for i below n. */
    method CreateRoomsInOrder(L0: seq<Leaf<Room>>, order: seq<(nat, int)>, n: nat,
                              rolls: nat -> int, counts: nat -> int, draws: nat -> seq<ObstacleDraw>)
      returns (ls: seq<Leaf<Room>>, rs: seq<Room>, cs: Conn<Room>)
      requires order == RoomOrder(L0) && n <= Terminals(L0)
      requires forall i: nat :: i < n ==> Drawable(RoomTypeFor(i, rolls(i)), counts(i), draws(i))
      ensures |rs| == n && Building(L0, ls, rs, cs, rolls, counts, draws) && AllFresh(rs)
    {
      ls, rs, cs := L0, [], map[];
      var i := 0;
      while i < n
        invariant 0 <= i <= n && |rs| == i
        invariant Building(L0, ls, rs, cs, rolls, counts, draws) && AllFresh(rs)
      {
        var room := CreateRoom(i, rolls(i), counts(i), draws(i));
        BuildingStep(L0, ls, rs, cs, room, rolls, counts, draws);
        var k := order[i].0;
        ls := ls[k := ls[k].(roomCenter := Some(Centre(ls[k])), room := Some(room))];
        rs := rs + [room];
        cs := cs[room := map[]];
        i := i + 1;
      }
    }

    /** findLeafContainingRoom: the position of the first leaf holding the
        room, if any. */
    method FindLeafContainingRoom(room: Room) returns (k: Option<nat>)
      ensures k == RoomLeaf(leaves, room)
    {
      var i := 0;
      while i < |leaves|
        invariant 0 <= i <= |leaves|
        invariant forall j :: 0 <= j < i ==> leaves[j].room != Some(room)
      {
        if leaves[i].room == Some(room) {
          return Some(i);
        }
        i := i + 1;
      }
      return None;
    }

    /** The two halves of one connection: room1 gets a door on wall d to
        room2, room2 one on the opposite wall back to room1, and both are
        recorded. The slots must be free and the rooms distinct. */
    method InstallDoors(room1: Room, d: Direction, room2: Room)
      requires Valid() && room1 in roomConnections && room2 in roomConnections && room1 != room2
      requires d !in roomConnections[room1] && Opposite(d) !in roomConnections[room2]
      modifies this`roomConnections, room1`doors, room2`doors
      ensures Valid()
      ensures roomConnections == Link(old(roomConnections), room1, d, room2)
      ensures Grows(leaves, old(roomConnections), roomConnections)
    {
      ghost var g: Conn<Room> := roomConnections;
      ghost var i1 :| 0 <= i1 < |rooms| && rooms[i1] == room1;
      ghost var i2 :| 0 <= i2 < |rooms| && rooms[i2] == room2;
      assert room1.doors == DoorsFor(g[room1]) && room2.doors == DoorsFor(g[room2]);
      room1.AddDoor(d, room2);
      room2.AddDoor(Opposite(d), room1);
      DoorsForUpdate(g[room1], d, room2);
      DoorsForUpdate(g[room2], Opposite(d), room1);
      roomConnections := Link(roomConnections, room1, d, room2);
      LinkShape(g, room1, d, room2);
      forall i | 0 <= i < |rooms|
        ensures rooms[i].doors == DoorsFor(roomConnections[rooms[i]])
      {
        if rooms[i] == room1 {
          assert roomConnections[room1] == g[room1][d := room2];
        } else if rooms[i] == room2 {
          assert roomConnections[room2] == g[room2][Opposite(d) := room1];
        } else {
          assert rooms[i].doors == old(rooms[i].doors) && roomConnections[rooms[i]] == g[rooms[i]];
        }
      }
      Linked(g, room1, d, room2);
    }

    /** The state after both halves of a link are recorded and the doors
        match them is valid. */
    lemma Linked(g: Conn<Room>, room1: Room, d: Direction, room2: Room)
      requires RoomsDistinct() && g.Keys == (set r | r in rooms) && TreeValid(leaves) && GraphOk(leaves, g)
      requires room1 in g && room2 in g && room1 != room2 && d !in g[room1] && Opposite(d) !in g[room2]
      requires roomConnections == Link(g, room1, d, room2)
      requires forall i :: 0 <= i < |rooms| ==> rooms[i].doors == DoorsFor(roomConnections[rooms[i]])
      ensures Valid() && Grows(leaves, g, roomConnections)
    {
      LinkKeeps(g, room1, d, room2);
      RoomsOnLeavesKeys(leaves, g, roomConnections);
    }

    /** connectRoomsWithDoors: the walls SplitDirections picks for the
        split of leaf p, and both halves only if both walls are free. */
    method ConnectRoomsWithDoors(room1: Room, room2: Room, p: nat)
      requires Valid() && p < |leaves| && room1 in roomConnections && room2 in roomConnections && room1 != room2
      modifies this`roomConnections, room1`doors, room2`doors
      ensures Valid() && Grows(leaves, old(roomConnections), roomConnections)
      ensures roomConnections == TreeDoor(old(roomConnections), leaves, room1, room2, p)
    {
      var k1 := FindLeafContainingRoom(room1);
      var k2 := FindLeafContainingRoom(room2);
      assert Valid();
      if k1.None? || k2.None? || leaves[p].kids.None? {
        ExtendsRefl(roomConnections);
        return;
      }
      var (a, b) := leaves[p].kids.value;
      assert ChildrenOk(leaves, p);
      var c1, c2 := leaves[k1.value].roomCenter.value, leaves[k2.value].roomCenter.value;
      var ds := SplitDirections(leaves[a].y != leaves[b].y, c1, c2);
      ghost var i1 :| 0 <= i1 < |rooms| && rooms[i1] == room1;
      ghost var i2 :| 0 <= i2 < |rooms| && rooms[i2] == room2;
      ghost var g := roomConnections;
      assert TreeDoor(g, leaves, room1, room2, p) == LinkIfFree(g, room1, ds, room2);
      assert room1.doors == DoorsFor(g[room1]) && room2.doors == DoorsFor(g[room2]);
      if ds.0 !in room1.doors && ds.1 !in room2.doors {
        InstallDoors(room1, ds.0, room2);
      } else {
        assert LinkIfFree(g, room1, ds, room2) == g;
        ExtendsRefl(roomConnections);
      }
    }

    /** The first part of connectRooms on a split leaf i: a door pair
        between the rooms the coins of leaf i pick in the two subtrees, when
        both have one. */
    method JoinChildren(i: nat, coins: nat -> nat -> bool)
      requires Valid() && i < |leaves| && leaves[i].kids.Some?
      modifies this`roomConnections, rooms`doors
      ensures Valid() && Grows(leaves, old(roomConnections), roomConnections)
      ensures roomConnections == TreeJoin(old(roomConnections), leaves, i, coins)
    {
      var (a, b) := leaves[i].kids.value;
      assert ChildrenOk(leaves, i);
      var leftRoom := FindClosestRoomInSubtree(leaves, a, coins(i));
      var rightRoom := FindClosestRoomInSubtree(leaves, b, coins(i));
      if leftRoom.Some? && rightRoom.Some? {
        ChildRoomsDistinct(roomConnections, leaves, i, coins(i));
        ConnectRoomsWithDoors(leftRoom.value, rightRoom.value, i);
      } else {
        ExtendsRefl(roomConnections);
      }
    }

    /** connectRooms on leaf i: for a split leaf, the join at the leaf, then
        the same for both children in turn. */
    method ConnectRooms(i: nat, coins: nat -> nat -> bool)
      requires Valid() && i < |leaves|
      modifies this`roomConnections, rooms`doors
      ensures Valid() && Grows(leaves, old(roomConnections), roomConnections)
      ensures roomConnections == TreePhase(old(roomConnections), leaves, i, coins)
      decreases |leaves| - i
    {
      if leaves[i].kids.None? {
        ExtendsRefl(roomConnections);
        return;
      }
      var (a, b) := leaves[i].kids.value;
      assert ChildrenOk(leaves, i);
      ghost var g0 := roomConnections;
      TreePhaseStep(g0, leaves, i, coins);
      JoinChildren(i, coins);
      ghost var g1 := roomConnections;
      ConnectRooms(a, coins);
      ghost var g2 := roomConnections;
      ConnectRooms(b, coins);
      GrowsTrans(leaves, g0, g1, g2);
      GrowsTrans(leaves, g0, g2, roomConnections);
    }

    /** Rooms built over a well-formed tree without rooms leave the
        generator valid and the tree's shape kept. */
    lemma RoomsBuilt(L0: seq<Leaf<Room>>, rolls: nat -> int, counts: nat -> int, draws: nat -> seq<ObstacleDraw>)
      requires TreeValid(L0) && Unfurnished(L0)
      requires Building(L0, leaves, rooms, roomConnections, rolls, counts, draws)
      ensures Valid() && SameShape(L0, leaves)
    {
      assert |rooms| <= Terminals(L0) && Distinct(rooms);
      assert leaves == Furnish(L0, RoomSlots(L0, |rooms|), rooms) && roomConnections == Unlinked(rooms);
      MadeDoorless(rooms, rolls, counts, draws);
      BuiltTree(L0, leaves, rooms, roomConnections);
      BuiltGraph(rooms, roomConnections);
    }

    /** generateRooms: one room per terminal leaf, at most TargetLeafCount,
        taking the leaves in ascending order of the distance of their centre
        from the origin. Room i gets id i, the type of roll rolls(i) and the
        obstacles of count counts(i) and draws draws(i); it has no door and
        no connection yet. */
    method GenerateRooms(rolls: nat -> int, counts: nat -> int, draws: nat -> seq<ObstacleDraw>)
      requires TreeValid(leaves) && Unfurnished(leaves) && rooms == [] && roomConnections == map[]
      requires forall i: nat :: Drawable(RoomTypeFor(i, rolls(i)), counts(i), draws(i))
      modifies this
      ensures |rooms| == if Terminals(old(leaves)) < TargetLeafCount then Terminals(old(leaves)) else TargetLeafCount
      ensures Building(old(leaves), leaves, rooms, roomConnections, rolls, counts, draws) && AllFresh(rooms)
      ensures Valid() && SameShape(old(leaves), leaves)
    {
      var availableRooms := CountLeaves();
      var roomsToCreate := if TargetLeafCount < availableRooms then TargetLeafCount else availableRooms;
      var terminalLeaves := TerminalLeaves();
      var order := SortByKey(WithDistances(leaves, terminalLeaves), DistanceOf);
      var ls, rs, cs := CreateRoomsInOrder(leaves, order, roomsToCreate, rolls, counts, draws);
      Commit(ls, rs, cs);
      RoomsBuilt(old(leaves), rolls, counts, draws);
    }
    /** A room's doors are on exactly the walls its connections use. */
    lemma DoorsOf(r: Room)
      requires Valid() && r in roomConnections
      ensures r.doors.Keys == roomConnections[r].Keys
    {
      var i :| 0 <= i < |rooms| && rooms[i] == r;
    }

    /** The rooms of S have doors on exactly the walls their connections
        use. */
    ghost predicate DoorsAgree(S: set<Room>)
      reads this, S
    {
      forall r :: r in S && r in roomConnections ==> r.doors.Keys == roomConnections[r].Keys
    }

    lemma ValidDoorsAgree(S: set<Room>)
      requires Valid()
      ensures DoorsAgree(S)
    {
      forall r | r in S && r in roomConnections
        ensures r.doors.Keys == roomConnections[r].Keys
      {
        DoorsOf(r);
      }
    }

    /** The inner loop of the pair search in ensureFullConnectivity for one
        room of the main group: every admissible partner in current that is
        closer than the best so far becomes the best. */
    method ScanPartners(roomA: Room, main: set<Room>, current: set<Room>,
                        best: Option<(Room, Direction, Room)>, dist: int)
      returns (best': Option<(Room, Direction, Room)>, dist': int)
      requires RoomsOnLeaves(leaves, roomConnections) && DoorsAgree(main) && DoorsAgree(current)
      requires roomA in main && main <= roomConnections.Keys && current <= roomConnections.Keys
      requires PairSoFar(roomConnections, leaves, main, current, best, dist)
      ensures PairSoFar(roomConnections, leaves, main, current, best', dist') && dist' <= dist
      ensures Beats(roomConnections, leaves, {roomA}, current, dist')
    {
      best', dist' := best, dist;
      var kA := FindLeafContainingRoom(roomA);
      if kA.None? {
        return;
      }
      var rest := current;
      ghost var done: set<Room> := {};
      while rest != {}
        invariant rest <= current && done <= current && current <= done + rest
        invariant PairSoFar(roomConnections, leaves, main, current, best', dist') && dist' <= dist
        invariant Beats(roomConnections, leaves, {roomA}, done, dist')
        decreases rest
      {
        var roomB :| roomB in rest;
        ConsiderKeeps(roomConnections, leaves, main, current, roomA, roomB, done, best', dist', dist);
        best', dist' := ConsiderPair(roomA, kA.value, roomB, best', dist');
        done := done + {roomB};
        rest := rest - {roomB};
      }
      BeatsMore(roomConnections, leaves, {roomA}, done, current, dist');
    }

    /** The body of the inner loop for roomA, on leaf kA, and roomB. */
    method ConsiderPair(roomA: Room, kA: nat, roomB: Room, best: Option<(Room, Direction, Room)>, dist: int)
      returns (best': Option<(Room, Direction, Room)>, dist': int)
      requires RoomsOnLeaves(leaves, roomConnections) && roomA in roomConnections && roomB in roomConnections
      requires roomA.doors.Keys == roomConnections[roomA].Keys && roomB.doors.Keys == roomConnections[roomB].Keys
      requires RoomLeaf(leaves, roomA) == Some(kA)
      ensures (best', dist') == Consider(roomConnections, leaves, roomA, roomB, best, dist)
    {
      best', dist' := best, dist;
      var kB := FindLeafContainingRoom(roomB);
      if kB.None? {
        return;
      }
      assert leaves[kA].roomCenter.Some? && leaves[kB.value].roomCenter.Some?;
      var cA, cB := leaves[kA].roomCenter.value, leaves[kB.value].roomCenter.value;
      var distance := SquaredDistance(cA, cB);
      if |roomConnections[roomA]| >= MaxDoors || |roomConnections[roomB]| >= MaxDoors {
        return;
      }
      var ds := RepairDirections(cA, cB);
      if ds.0 !in roomA.doors && ds.1 !in roomB.doors && distance < dist {
        best', dist' := Some((roomA, ds.0, roomB)), distance;
      }
    }

    /** The pair search of ensureFullConnectivity between the main group
        and the current one: the closest admissible pair, if one is closer
        than IntMax. */
    method FindBestPair(main: set<Room>, current: set<Room>) returns (best: Option<(Room, Direction, Room)>)
      requires RoomsOnLeaves(leaves, roomConnections) && DoorsAgree(main) && DoorsAgree(current)
      requires main <= roomConnections.Keys && current <= roomConnections.Keys
      ensures best.Some? ==> BestPair(roomConnections, leaves, main, current, best.value)
      ensures best.None? ==> NoPair(roomConnections, leaves, main, current)
    {
      best := None;
      var dist := IntMax;
      var rest := main;
      while rest != {}
        invariant rest <= main
        invariant PairSoFar(roomConnections, leaves, main, current, best, dist)
        invariant Beats(roomConnections, leaves, main - rest, current, dist)
        decreases rest
      {
        var roomA :| roomA in rest;
        ghost var d0 := dist;
        best, dist := ScanPartners(roomA, main, current, best, dist);
        BeatsGrow(roomConnections, leaves, main - rest, roomA, current, d0, dist);
        assert (main - rest) + {roomA} == main - (rest - {roomA});
        rest := rest - {roomA};
      }
      assert main - rest == main;
      PairChosen(roomConnections, leaves, main, current, best, dist);
    }

    /** ensureFullConnectivity: the groups of the connection graph, largest
        first; each later group is joined to the main group by its closest
        admissible pair, if it has one, and then belongs to it. Every link
        it adds joins two rooms that were unreachable from each other, no
        room it touches passes MaxDoors connections, and a connected graph
        is left unchanged. */
    method EnsureFullConnectivity()
      requires Valid()
      modifies this`roomConnections, rooms`doors
      ensures Valid() && Grows(leaves, old(roomConnections), roomConnections)
      ensures Repaired(old(roomConnections), roomConnections)
    {
      var sorted := SortedGroups(roomConnections, rooms);
      RepairGroups(sorted);
    }

    /** The joins of ensureFullConnectivity, over the groups sorted largest
        first, from the first one as the main group. */
    method RepairGroups(sorted: seq<set<Room>>)
      requires Valid() && Partition(roomConnections, sorted)
      requires |sorted| > 1 ==> Repairing(roomConnections, roomConnections, sorted, 1, sorted[0])
      modifies this`roomConnections, rooms`doors
      ensures Valid() && Grows(leaves, old(roomConnections), roomConnections)
      ensures Repaired(old(roomConnections), roomConnections)
    {
      ghost var g0 := roomConnections;
      if |sorted| <= 1 {
        RepairNone(g0);
        return;
      }
      var main := sorted[0];
      for i := 1 to |sorted|
        invariant Valid() && Repairing(g0, roomConnections, sorted, i, main)
      {
        main := RepairGroup(g0, sorted, i, main);
      }
      RepairDone(g0, roomConnections, sorted, main);
    }

    /** Group i of the sorted groups joined to the main group through its
        best pair and merged into it, or left apart and unmerged when no
        pair of theirs is admissible. */
    method RepairGroup(ghost g0: Conn<Room>, sorted: seq<set<Room>>, i: nat, main: set<Room>) returns (main': set<Room>)
      requires Valid() && Partition(g0, sorted) && 0 < i < |sorted|
      requires Repairing(g0, roomConnections, sorted, i, main)
      modifies this`roomConnections, rooms`doors
      ensures Valid() && Repairing(g0, roomConnections, sorted, i + 1, main')
      ensures exists best :: Joined(old(roomConnections), roomConnections, leaves, main, sorted[i], best) &&
                main' == (if best.Some? then main + sorted[i] else main)
    {
      ghost var g := roomConnections;
      MainApart(main, sorted, i);
      var best := JoinGroup(main, sorted[i]);
      RepairRound(g0, g, roomConnections, leaves, sorted, i, main, best);
      main' := if best.Some? then main + sorted[i] else main;
      assert Joined(g, roomConnections, leaves, main, sorted[i], best);
    }

    /** One round of ensureFullConnectivity: the closest admissible pair
        of the main group and the current one, if any, gets its doors. */
    method JoinGroup(main: set<Room>, current: set<Room>) returns (best: Option<(Room, Direction, Room)>)
      requires Valid() && main <= roomConnections.Keys && current <= roomConnections.Keys && main !! current
      modifies this`roomConnections, rooms`doors
      ensures Valid() && Grows(leaves, old(roomConnections), roomConnections)
      ensures Joined(old(roomConnections), roomConnections, leaves, main, current, best)
    {
      ValidDoorsAgree(main);
      ValidDoorsAgree(current);
      ghost var g := roomConnections;
      best := FindBestPair(main, current);
      ghost var target := if best.Some? then Link(g, best.value.0, best.value.1, best.value.2) else g;
      assert Joined(g, target, leaves, main, current, best);
      JoinInstalls(g, leaves, main, current, best, target);
      InstallFound(best, target);
    }

    /** One extra connection of addExtraConnections: up to MaxExtraAttempts
        draws, the first attempt that links gets its doors. */
    method AddExtraConnection(picks: (nat, nat) -> (nat, nat), i: nat)
      requires Valid() && DrawsFit(picks, i, |rooms|)
      modifies this`roomConnections, rooms`doors
      ensures Valid() && Grows(leaves, old(roomConnections), roomConnections)
      ensures roomConnections == ExtraTries(old(roomConnections), rooms, leaves, picks, i)
    {
      var found := FindFirstExtra(roomConnections, rooms, leaves, picks, i);
      FirstInstalls(roomConnections, rooms, leaves, picks, i);
      InstallFound(found, ExtraTries(roomConnections, rooms, leaves, picks, i));
    }

    /** The doors of the link found, if any, giving the connections target. */
    method InstallFound(found: Option<(Room, Direction, Room)>, ghost target: Conn<Room>)
      requires Valid() && Installs(roomConnections, found, target)
      modifies this`roomConnections, rooms`doors
      ensures Valid() && Grows(leaves, old(roomConnections), roomConnections) && roomConnections == target
    {
      if found.Some? {
        var (a, d, b) := found.value;
        InstallDoors(a, d, b);
      } else {
        ExtendsRefl(roomConnections);
      }
    }

    /** addExtraConnections: nothing for three rooms or fewer; otherwise
        ExtraCount of them. The graph stays sound, each added half joins
        rooms that were not neighbours, no room passes MaxDoors connections
        and at most two halves per extra connection are added. */
    method AddExtraConnections(picks: (nat, nat) -> (nat, nat))
      requires Valid() && (|rooms| > 3 ==> forall j :: DrawsFit(picks, j, |rooms|))
      modifies this`roomConnections, rooms`doors
      ensures Valid() && Grows(leaves, old(roomConnections), roomConnections)
      ensures |rooms| <= 3 ==> roomConnections == old(roomConnections)
      ensures |rooms| > 3 ==>
        roomConnections == ExtraPhase(old(roomConnections), rooms, leaves, picks, 0, ExtraCount(|rooms|)) &&
        ExtraSound(old(roomConnections), roomConnections) &&
        Degree(roomConnections, rooms) <= Degree(old(roomConnections), rooms) + 2 * ExtraCount(|rooms|)
    {
      if |rooms| <= 3 {
        ExtendsRefl(roomConnections);
        return;
      }
      ghost var g0 := roomConnections;
      var extraConnections := ExtraCount(|rooms|);
      for i := 0 to extraConnections
        invariant Valid() && Grows(leaves, g0, roomConnections)
        invariant ExtraPhase(roomConnections, rooms, leaves, picks, i, extraConnections) ==
                  ExtraPhase(g0, rooms, leaves, picks, 0, extraConnections)
      {
        ghost var g1 := roomConnections;
        AddExtraConnection(picks, i);
        GrowsTrans(leaves, g0, g1, roomConnections);
      }
      ExtraStart(g0);
      ExtraPhaseKeep(g0, g0, rooms, leaves, picks, 0, extraConnections);
    }

    /** generateDungeon: a fresh tree, rooms on its leaves, the tree doors,
        the repair and the extra connections; the rooms are returned. The
        random draws of each phase are parameters, those of the extra phase
        indexed by the room count. */
    method GenerateDungeon(coin: (nat, nat) -> bool, off: (nat, nat, int) -> int,
                           rolls: nat -> int, counts: nat -> int, draws: nat -> seq<ObstacleDraw>,
                           coins: nat -> nat -> bool, picks: nat -> (nat, nat) -> (nat, nat))
      returns (result: seq<Room>)
      requires forall p: nat, k: nat, len: int :: len > 0 ==> OffsetFits(len, off(p, k, len))
      requires forall i: nat :: Drawable(RoomTypeFor(i, rolls(i)), counts(i), draws(i))
      requires forall n: nat, i: nat :: n > 0 ==> DrawsFit(picks(n), i, n)
      modifies this
      ensures result == rooms && Valid()
      ensures |rooms| == if Terminals(leaves) < TargetLeafCount then Terminals(leaves) else TargetLeafCount
      ensures |rooms| > 0
    {
      BuildDungeon(coin, off, rolls, counts, draws);
      ConnectDungeon(coins, picks(|rooms|));
      result := rooms;
      SomeTerminal(leaves);
    }

    /** The first half of generateDungeon: the cleared state, the tree and
        the rooms, without doors or connections yet. */
    method BuildDungeon(coin: (nat, nat) -> bool, off: (nat, nat, int) -> int,
                        rolls: nat -> int, counts: nat -> int, draws: nat -> seq<ObstacleDraw>)
      requires forall p: nat, k: nat, len: int :: len > 0 ==> OffsetFits(len, off(p, k, len))
      requires forall i: nat :: Drawable(RoomTypeFor(i, rolls(i)), counts(i), draws(i))
      modifies this
      ensures Valid() && AllFresh(rooms)
      ensures |rooms| == if Terminals(leaves) < TargetLeafCount then Terminals(leaves) else TargetLeafCount
    {
      rooms := [];
      roomConnections := map[];
      leaves := [];
      CreateBSPTree(coin, off);
      ghost var tree := leaves;
      GenerateRooms(rolls, counts, draws);
      ShapeKeepsTerminals(tree, leaves);
    }

    /** The second half of generateDungeon: the doors of the tree, the
        repair and the extra connections. */
    method ConnectDungeon(coins: nat -> nat -> bool, picks: (nat, nat) -> (nat, nat))
      requires Valid() && (|rooms| > 0 ==> forall i :: DrawsFit(picks, i, |rooms|))
      modifies this`roomConnections, rooms`doors
      ensures Valid()
    {
      ConnectRooms(0, coins);
      EnsureFullConnectivity();
      AddExtraConnections(picks);
    }
  }
}
