/** Door: an immutable record of one half of a connection, placed on one wall
    of the fixed room rectangle. The connected room is a type parameter so that
    this module does not depend on the room class. */
module Doors {
  import opened Directions
  import opened Rectangles

  const DoorSize: int := 60
  /** Thickness of a door across its wall. */
  const DoorDepth: int := 10

  /** Java's int division by 2 (truncates toward zero). */
  function Half(n: int): (h: int)
    ensures n >= 0 ==> 0 <= 2 * h <= n && n <= 2 * h + 1
    ensures n < 0 ==> n <= 2 * h <= 0 && 2 * h - 1 <= n
  {
    if n >= 0 then n / 2 else -((-n) / 2)
  }

  datatype Door<R> = Door(x: int, y: int, width: int, height: int,
                          direction: Direction, connectedRoom: R)

  /** The Door constructor: the door rectangle for a room at (roomX, roomY)
      of the given size, on the wall named by direction. */
  function NewDoor<R>(roomX: int, roomY: int, width: int, height: int,
                      direction: Direction, connectedRoom: R): (d: Door<R>)
    ensures d.direction == direction && d.connectedRoom == connectedRoom
    // the door straddles its wall: the wall line is strictly inside its depth
    ensures direction == North ==> d.y < roomY + height < d.y + d.height
    ensures direction == South ==> d.y < roomY < d.y + d.height
    ensures direction == East ==> d.x < roomX + width < d.x + d.width
    ensures direction == West ==> d.x < roomX < d.x + d.width
    // and is centred on it, DoorSize long and DoorDepth deep
    ensures direction in {North, South} ==>
      d.width == DoorSize && d.height == DoorDepth && 2 * (d.x - roomX) + DoorSize == 2 * Half(width)
    ensures direction in {East, West} ==>
      d.width == DoorDepth && d.height == DoorSize && 2 * (d.y - roomY) + DoorSize == 2 * Half(height)
  {
    match direction
    case North => Door(roomX + Half(width) - Half(DoorSize), roomY + height - 5, DoorSize, 10, direction, connectedRoom)
    case East => Door(roomX + width - 5, roomY + Half(height) - Half(DoorSize), 10, DoorSize, direction, connectedRoom)
    case South => Door(roomX + Half(width) - Half(DoorSize), roomY - 5, DoorSize, 10, direction, connectedRoom)
    case West => Door(roomX - 5, roomY + Half(height) - Half(DoorSize), 10, DoorSize, direction, connectedRoom)
  }

  /** getBounds: the computed integer fields as a float rectangle. */
  function Bounds<R>(d: Door<R>): Rect
  {
    Rect(d.x as real, d.y as real, d.width as real, d.height as real)
  }

  /** The bounds of a door of each direction, as the constructor lays them out. */
  lemma DoorBoundsByDirection<R>(rx: int, ry: int, w: int, h: int, r: R)
    ensures Bounds(NewDoor(rx, ry, w, h, North, r)) == Rect((rx + Half(w) - 30) as real, (ry + h - 5) as real, 60.0, 10.0)
    ensures Bounds(NewDoor(rx, ry, w, h, East, r)) == Rect((rx + w - 5) as real, (ry + Half(h) - 30) as real, 10.0, 60.0)
    ensures Bounds(NewDoor(rx, ry, w, h, South, r)) == Rect((rx + Half(w) - 30) as real, (ry - 5) as real, 60.0, 10.0)
    ensures Bounds(NewDoor(rx, ry, w, h, West, r)) == Rect((rx - 5) as real, (ry + Half(h) - 30) as real, 10.0, 60.0)
  {
  }

  /** Doors on opposite walls line up: NORTH and SOUTH doors share x and size,
      EAST and WEST doors share y and size. */
  lemma OppositeWallsAligned<R>(rx: int, ry: int, w: int, h: int, r1: R, r2: R)
    ensures var n, s := NewDoor(rx, ry, w, h, North, r1), NewDoor(rx, ry, w, h, South, r2);
      n.x == s.x && n.width == s.width && n.height == s.height && n.y - s.y == h
    ensures var e, o := NewDoor(rx, ry, w, h, East, r1), NewDoor(rx, ry, w, h, West, r2);
      e.y == o.y && e.width == o.width && e.height == o.height && e.x - o.x == w
  {
  }
}
