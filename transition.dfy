/** The org.example TransitionManager: a timer started at a door that,
    once half a second has accumulated, moves the player through the door
    of the origin room in the recorded direction. The timer is not reset
    when the move happens. */
module Transitions {
  import opened Options
  import opened Directions
  import opened Doors
  import opened Rooms
  import opened Level

  const TransitionDuration: real := 0.5

  class TransitionManager {
    const level: DungeonLevel
    const player: Player
    var transitionFromRoom: Room?
    var transitionDirection: Option<Direction>
    var transitionTimer: real

    constructor (level: DungeonLevel, player: Player)
      ensures this.level == level && this.player == player
      ensures transitionFromRoom == null && transitionDirection == None && transitionTimer == 0.0
    {
      this.level := level;
      this.player := player;
      transitionFromRoom := null;
      transitionDirection := None;
      transitionTimer := 0.0;
    }

    /** The door the move goes through: the origin room's door in the
        recorded direction, if both are recorded and the door exists. */
    function PendingDoor(): (door: Option<Door<Room?>>)
      reads this, transitionFromRoom
    {
      if transitionFromRoom != null && transitionDirection.Some? && transitionDirection.value in transitionFromRoom.doors
      then Some(transitionFromRoom.doors[transitionDirection.value])
      else None
    }

    /** startTransition. */
    method StartTransition(door: Door<Room?>, fromRoom: Room?)
      modifies this`transitionTimer, this`transitionDirection, this`transitionFromRoom
      ensures transitionTimer == 0.0
      ensures transitionDirection == Some(door.direction) && transitionFromRoom == fromRoom
    {
      transitionTimer := 0.0;
      transitionDirection := Some(door.direction);
      transitionFromRoom := fromRoom;
    }

    /** update: the timer grows by delta; once it has reached the duration
        the player is moved through the pending door, on this call and on
        every later one. */
    method Update(delta: real) returns (done: bool)
      modifies this`transitionTimer, level`currentRoom, level`notices, player
      ensures transitionTimer == old(transitionTimer) + delta
      ensures done <==> transitionTimer >= TransitionDuration
      // the timer is never reset: once reached, it stays reached
      ensures old(transitionTimer) >= TransitionDuration && delta >= 0.0 ==> done
      ensures done && PendingDoor().Some? ==> Moved(level, PendingDoor().value, player)
      ensures !done || PendingDoor().None? ==>
                level.currentRoom == old(level.currentRoom) && level.notices == old(level.notices) &&
                player.x == old(player.x) && player.y == old(player.y)
    {
      transitionTimer := transitionTimer + delta;
      if transitionTimer >= TransitionDuration {
        var door := PendingDoor();
        if door.Some? {
          level.TransitionToRoom(door.value, player);
        }
        return true;
      }
      return false;
    }
  }
}
