/** DungeonLevel: the generated rooms, the room the player is in, and the
    two things that happen at a door: detecting that the player stands on
    one, and moving the player through it into the room it leads to.
    Observers are recorded by identity; each onRoomChange call they receive
    is recorded in order in a notice log. */
module Level {
  import opened Options
  import opened Directions
  import opened Rectangles
  import opened Doors
  import opened Obstacles
  import opened Placement
  import opened Rooms
  import opened Graphs
  import opened Bsp
  import opened DungeonRules
  import opened Extras
  import opened Generation

  /** The player: a circle at (x, y). */
  class Player {
    var x: real
    var y: real
    const radius: real

    constructor (x: real, y: real, radius: real)
      ensures this.x == x && this.y == y && this.radius == radius
    {
      this.x := x;
      this.y := y;
      this.radius := radius;
    }

    method SetPosition(x: real, y: real)
      modifies this
      ensures this.x == x && this.y == y
    {
      this.x := x;
      this.y := y;
    }
  }

  /** The onRoomChange calls of one notification round: each observer, in
      registration order, told about room. */
  function Notices(observers: seq<nat>, room: Room): (ns: seq<(nat, Room)>)
    ensures |ns| == |observers|
    ensures forall i :: 0 <= i < |ns| ==> ns[i] == (observers[i], room)
  {
    if observers == [] then []
    else Notices(observers[..|observers| - 1], room) + [(observers[|observers| - 1], room)]
  }

  /** The door's detection area: its bounds grown by 10 on every side. */
  function DoorZone(door: Door<Room?>): Rect
  {
    Grow(Bounds(door), 10.0)
  }

  predicate InZone(door: Door<Room?>, px: real, py: real)
  {
    Contains(DoorZone(door), px, py)
  }

  /** The first of the directions ds whose door's detection area holds the
      point, if any. */
  function FirstColliding(doors: map<Direction, Door<Room?>>, ds: seq<Direction>, px: real, py: real): (r: Option<Door<Room?>>)
    ensures r.Some? ==> exists k :: 0 <= k < |ds| && ds[k] in doors && doors[ds[k]] == r.value && InZone(r.value, px, py)
    ensures r.None? ==> forall k :: 0 <= k < |ds| && ds[k] in doors ==> !InZone(doors[ds[k]], px, py)
  {
    if ds == [] then None
    else if ds[0] in doors && InZone(doors[ds[0]], px, py) then Some(doors[ds[0]])
    else FirstColliding(doors, ds[1..], px, py)
  }

  /** checkDoorCollision: nothing without a current room, otherwise a door
      of the current room whose detection area holds the player. The model
      looks at the walls in the order North, East, South, West. */
  function Collision(room: Room?, px: real, py: real): Option<Door<Room?>>
    reads room
  {
    if room == null then None else FirstColliding(room.doors, AllDirections, px, py)
  }

  /** A collision is a door of the room whose area holds the point, and
      there is none exactly when no door's area holds it. */
  lemma CollisionMeaning(doors: map<Direction, Door<Room?>>, px: real, py: real)
    ensures var r := FirstColliding(doors, AllDirections, px, py);
      (r.Some? ==> r.value in doors.Values && InZone(r.value, px, py)) &&
      (r.None? <==> forall d :: d in doors ==> !InZone(doors[d], px, py))
  {
    var r := FirstColliding(doors, AllDirections, px, py);
    if r.None? {
      forall d | d in doors
        ensures !InZone(doors[d], px, py)
      {
        AllDirectionsComplete(d);
        var k :| 0 <= k < |AllDirections| && AllDirections[k] == d;
      }
    }
  }

  /** The door a room built by addDoor has on wall d. */
  function WallDoor(d: Direction, to: Room?): Door<Room?>
  {
    NewDoor<Room?>(RoomX, RoomY, RoomWidth, RoomHeight, d, to)
  }

  /** The detection areas of doors on two different walls of a room are
      disjoint. */
  lemma ZonesApart(d1: Direction, d2: Direction, r1: Room?, r2: Room?, px: real, py: real)
    requires d1 != d2
    ensures !(InZone(WallDoor(d1, r1), px, py) && InZone(WallDoor(d2, r2), px, py))
  {
  }

  /** The doors of a room all sit on their own walls as addDoor puts them. */
  ghost predicate OnWalls(doors: map<Direction, Door<Room?>>)
  {
    forall d :: d in doors ==> doors[d] == WallDoor(d, doors[d].connectedRoom)
  }

  /** In such a room the player stands on at most one door, so the order in
      which the walls are looked at does not matter: any door whose area
      holds the point is the one found. */
  lemma CollisionUnique(doors: map<Direction, Door<Room?>>, d: Direction, px: real, py: real)
    requires OnWalls(doors) && d in doors && InZone(doors[d], px, py)
    ensures FirstColliding(doors, AllDirections, px, py) == Some(doors[d])
  {
    var r := FirstColliding(doors, AllDirections, px, py);
    CollisionMeaning(doors, px, py);
    var k :| 0 <= k < |AllDirections| && AllDirections[k] in doors && doors[AllDirections[k]] == r.value && InZone(r.value, px, py);
    if AllDirections[k] != d {
      ZonesApart(AllDirections[k], d, r.value.connectedRoom, doors[d].connectedRoom, px, py);
    }
  }

  /** A door the player can pass through: it leads to a room with a door on
      the opposite wall. */
  predicate Enters(door: Door<Room?>)
    reads door.connectedRoom
  {
    door.connectedRoom != null && Opposite(door.direction) in door.connectedRoom.doors
  }

  /** Where transitionToRoom puts the player: the centre of the door it
      arrives through, on wall side, moved three radii into the room. */
  function Arrival(target: Door<Room?>, side: Direction, radius: real): (real, real)
  {
    var b := Bounds(target);
    var cx, cy := b.x + b.width / 2.0, b.y + b.height / 2.0;
    match side
    case North => (cx, cy - radius * 3.0)
    case East => (cx - radius * 3.0, cy)
    case South => (cx, cy + radius * 3.0)
    case West => (cx + radius * 3.0, cy)
  }

  /** The point lies strictly inside the rectangle. */
  predicate Interior(r: Rect, p: (real, real))
  {
    r.x < p.0 < r.x + r.width && r.y < p.1 < r.y + r.height
  }

  /** For a player of radius above 5 (and below a third of the room's
      height less the door areas), the arrival point is inside the room and
      on none of its doors, so the player is not sent straight back. */
  lemma ArrivalClear(side: Direction, e: Direction, r1: Room?, r2: Room?, radius: real)
    requires 5.0 < radius && 3.0 * radius < 643.0
    ensures var p := Arrival(WallDoor(side, r1), side, radius);
      Interior(RoomBounds, p) && !InZone(WallDoor(e, r2), p.0, p.1)
  {
    RoomLayout();
  }

  /** The rooms' doors sit on their walls and each leads to one of the
      rooms, which has the door back on the opposite wall. */
  ghost predicate LeadsBack(rooms: seq<Room>)
    reads rooms
  {
    forall r, d :: r in rooms && d in r.doors ==> LeadsBackAt(rooms, r, d)
  }

  ghost predicate LeadsBackAt(rooms: seq<Room>, r: Room, d: Direction)
    reads rooms
    requires r in rooms && d in r.doors
  {
    var door := r.doors[d];
    door == WallDoor(d, door.connectedRoom) &&
    door.connectedRoom != null && door.connectedRoom in rooms &&
    Opposite(d) in door.connectedRoom.doors &&
    door.connectedRoom.doors[Opposite(d)].connectedRoom == r
  }

  /** The generator's rooms lead back: their doors are its bidirectional
      connection map. */
  lemma GeneratedLeadsBack(gen: DungeonGenerator)
    requires gen.Valid()
    ensures LeadsBack(gen.rooms)
  {
    var rooms, g := gen.rooms, gen.roomConnections;
    forall r, d | r in rooms && d in r.doors
      ensures LeadsBackAt(rooms, r, d)
    {
      var i :| 0 <= i < |rooms| && rooms[i] == r;
      assert r.doors == DoorsFor(g[r]);
      assert HalfMatched(g, r, d);
      var n := g[r][d];
      assert n in g.Keys;
      var j :| 0 <= j < |rooms| && rooms[j] == n;
      assert n.doors == DoorsFor(g[n]);
    }
  }

  /** The player's move through door, from the state before to the state
      after: into the room it leads to, at the arrival point of the door
      back, with every observer told; or nothing at all when the door
      leads nowhere. */
  twostate predicate Moved(level: DungeonLevel, door: Door<Room?>, player: Player)
    reads level, player, door.connectedRoom
  {
    level.observers == old(level.observers) &&
    if Enters(door) then
      var back := door.connectedRoom.doors[Opposite(door.direction)];
      level.currentRoom == door.connectedRoom &&
      (player.x, player.y) == Arrival(back, Opposite(door.direction), player.radius) &&
      level.notices == old(level.notices) + Notices(level.observers, door.connectedRoom)
    else
      level.currentRoom == old(level.currentRoom) && level.notices == old(level.notices) &&
      player.x == old(player.x) && player.y == old(player.y)
  }

  class DungeonLevel {
    var rooms: seq<Room>
    var currentRoom: Room?
    /** The registered observers, by identity, in registration order. */
    var observers: seq<nat>
    /** Every onRoomChange call so far: the observer and the room. */
    var notices: seq<(nat, Room)>

    /** The current room, if any, is one of the rooms, and the rooms lead
        back. */
    ghost predicate Valid()
      reads this, rooms
    {
      (currentRoom != null ==> currentRoom in rooms) && LeadsBack(rooms)
    }

    constructor ()
      ensures rooms == [] && currentRoom == null && observers == [] && notices == []
      ensures Valid()
    {
      rooms := [];
      currentRoom := null;
      observers := [];
      notices := [];
    }

    method AddObserver(observer: nat)
      modifies this`observers
      ensures observers == old(observers) + [observer]
    {
      observers := observers + [observer];
    }

    /** One onRoomChange call per observer, in order. */
    method Notify(room: Room)
      modifies this`notices
      ensures notices == old(notices) + Notices(observers, room)
    {
      for i := 0 to |observers|
        invariant notices == old(notices) + Notices(observers[..i], room)
      {
        assert observers[..i + 1][..i] == observers[..i];
        notices := notices + [(observers[i], room)];
      }
      assert observers[..|observers|] == observers;
    }

    /** generate: the rooms of a fresh generator run with the given draws;
        the first becomes the current room and every observer is told. */
    method Generate(coin: (nat, nat) -> bool, off: (nat, nat, int) -> int,
                    rolls: nat -> int, counts: nat -> int, draws: nat -> seq<ObstacleDraw>,
                    coins: nat -> nat -> bool, picks: nat -> (nat, nat) -> (nat, nat))
      requires forall p: nat, k: nat, len: int :: len > 0 ==> OffsetFits(len, off(p, k, len))
      requires forall i: nat :: Drawable(RoomTypeFor(i, rolls(i)), counts(i), draws(i))
      requires forall n: nat, i: nat :: n > 0 ==> DrawsFit(picks(n), i, n)
      modifies this`rooms, this`currentRoom, this`notices
      ensures Valid() && 0 < |rooms| <= TargetLeafCount
      ensures currentRoom == rooms[0]
      ensures notices == old(notices) + Notices(observers, rooms[0])
    {
      rooms := [];
      var generator := new DungeonGenerator();
      rooms := generator.GenerateDungeon(coin, off, rolls, counts, draws, coins, picks);
      if |rooms| > 0 {
        currentRoom := rooms[0];
        Notify(currentRoom);
      }
      GeneratedLeadsBack(generator);
    }

    /** checkDoorCollision. */
    method CheckDoorCollision(player: Player) returns (door: Option<Door<Room?>>)
      ensures door == Collision(currentRoom, player.x, player.y)
    {
      if currentRoom == null {
        return None;
      }
      var k := 0;
      while k < |AllDirections|
        invariant 0 <= k <= |AllDirections|
        invariant FirstColliding(currentRoom.doors, AllDirections[k..], player.x, player.y) ==
                  FirstColliding(currentRoom.doors, AllDirections, player.x, player.y)
      {
        var d := AllDirections[k];
        if d in currentRoom.doors && InZone(currentRoom.doors[d], player.x, player.y) {
          return Some(currentRoom.doors[d]);
        }
        assert AllDirections[k..][1..] == AllDirections[k + 1..];
        k := k + 1;
      }
      door := None;
    }

    /** A door of the current room always leads into one of the rooms,
        through a door back. */
    lemma CurrentDoorEnters(d: Direction)
      requires Valid() && currentRoom != null && d in currentRoom.doors
      ensures Enters(currentRoom.doors[d]) && currentRoom.doors[d].connectedRoom in rooms
      ensures OnWalls(currentRoom.doors)
    {
      assert LeadsBackAt(rooms, currentRoom, d);
      forall e | e in currentRoom.doors
        ensures currentRoom.doors[e] == WallDoor(e, currentRoom.doors[e].connectedRoom)
      {
        assert LeadsBackAt(rooms, currentRoom, e);
      }
    }

    /** transitionToRoom. */
    method TransitionToRoom(door: Door<Room?>, player: Player)
      modifies this`currentRoom, this`notices, player
      ensures Moved(this, door, player)
    {
      var nextRoom := door.connectedRoom;
      if nextRoom != null {
        var oppositeDirection := Opposite(door.direction);
        if oppositeDirection in nextRoom.doors {
          var targetBounds := Bounds(nextRoom.doors[oppositeDirection]);
          var newX := targetBounds.x + targetBounds.width / 2.0;
          var newY := targetBounds.y + targetBounds.height / 2.0;
          match oppositeDirection {
            case North => newY := newY - player.radius * 3.0;
            case East => newX := newX - player.radius * 3.0;
            case South => newY := newY + player.radius * 3.0;
            case West => newX := newX + player.radius * 3.0;
          }
          player.SetPosition(newX, newY);
          currentRoom := nextRoom;
          Notify(currentRoom);
        }
      }
    }
  }
}
