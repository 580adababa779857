/** The potatodungeon TransitionManager: a flag-guarded version of the
    transition timer. A transition starts only when the level reports a
    door under the player; on completion the player is moved and the
    manager is reset, so the next update reports nothing. */
module PotatoTransitions {
  import opened Options
  import opened Directions
  import opened Doors
  import opened Rooms
  import opened Level

  const TransitionDuration: real := 0.5

  class TransitionManager {
    const level: DungeonLevel
    const player: Player
    var transitioning: bool
    var transitionFromRoom: Room?
    var transitionDirection: Option<Direction>
    var transitionTimer: real

    /** A transition under way has an origin room, a direction and a timer
        short of the duration; otherwise everything is reset. */
    ghost predicate Valid()
      reads this
    {
      (transitioning ==>
         transitionFromRoom != null && transitionDirection.Some? && transitionTimer < TransitionDuration) &&
      (!transitioning ==>
         transitionFromRoom == null && transitionDirection == None && transitionTimer == 0.0)
    }

    constructor (level: DungeonLevel, player: Player)
      ensures this.level == level && this.player == player
      ensures !transitioning && Valid()
    {
      this.level := level;
      this.player := player;
      transitioning := false;
      transitionFromRoom := null;
      transitionDirection := None;
      transitionTimer := 0.0;
    }

    function IsTransitioning(): bool
      reads this
    {
      transitioning
    }

    /** The origin room's door in the recorded direction, if there is one. */
    function PendingDoor(): Option<Door<Room?>>
      reads this, transitionFromRoom
    {
      if transitionFromRoom != null && transitionDirection.Some? && transitionDirection.value in transitionFromRoom.doors
      then Some(transitionFromRoom.doors[transitionDirection.value])
      else None
    }

    /** checkAndStartTransition: nothing while a transition is under way;
        otherwise a transition starts exactly when the level reports a door
        under the player, from the current room through that door. */
    method CheckAndStartTransition()
      requires Valid()
      modifies this`transitioning, this`transitionTimer, this`transitionDirection, this`transitionFromRoom
      ensures Valid()
      ensures old(transitioning) ==>
                transitioning && transitionTimer == old(transitionTimer) &&
                transitionFromRoom == old(transitionFromRoom) && transitionDirection == old(transitionDirection)
      ensures !old(transitioning) ==>
                var c := Collision(level.currentRoom, player.x, player.y);
                (c.None? ==> !transitioning) &&
                (c.Some? ==> transitioning && transitionTimer == 0.0 &&
                             transitionDirection == Some(c.value.direction) && transitionFromRoom == level.currentRoom)
    {
      if transitioning {
        return;
      }
      var collidingDoor := level.CheckDoorCollision(player);
      if collidingDoor.Some? {
        StartTransition(collidingDoor.value, level.currentRoom);
      }
    }

    /** startTransition. */
    method StartTransition(door: Door<Room?>, fromRoom: Room?)
      modifies this`transitioning, this`transitionTimer, this`transitionDirection, this`transitionFromRoom
      ensures transitioning && transitionTimer == 0.0
      ensures transitionDirection == Some(door.direction) && transitionFromRoom == fromRoom
    {
      transitioning := true;
      transitionTimer := 0.0;
      transitionDirection := Some(door.direction);
      transitionFromRoom := fromRoom;
    }

    /** update: false and no change when idle; otherwise the timer grows by
        delta, and once it reaches the duration the transition completes
        and true is returned. */
    method Update(delta: real) returns (done: bool)
      requires Valid()
      modifies this`transitioning, this`transitionTimer, this`transitionDirection, this`transitionFromRoom
      modifies level`currentRoom, level`notices, player
      ensures Valid()
      ensures !old(transitioning) ==>
                !done && !transitioning && level.currentRoom == old(level.currentRoom) &&
                level.notices == old(level.notices) && player.x == old(player.x) && player.y == old(player.y)
      ensures old(transitioning) ==> (done <==> old(transitionTimer) + delta >= TransitionDuration)
      ensures old(transitioning) && !done ==>
                transitioning && transitionTimer == old(transitionTimer) + delta &&
                transitionFromRoom == old(transitionFromRoom) && transitionDirection == old(transitionDirection) &&
                level.currentRoom == old(level.currentRoom) && level.notices == old(level.notices) &&
                player.x == old(player.x) && player.y == old(player.y)
      // completion resets the manager, so the next update returns false
      ensures done ==> !transitioning
      ensures done && old(PendingDoor()).Some? ==> Moved(level, old(PendingDoor()).value, player)
    {
      if !transitioning {
        return false;
      }
      transitionTimer := transitionTimer + delta;
      if transitionTimer >= TransitionDuration {
        CompleteTransition();
        return true;
      }
      return false;
    }

    /** completeTransition: the player goes through the pending door and
        everything is reset. */
    method CompleteTransition()
      modifies this`transitioning, this`transitionTimer, this`transitionDirection, this`transitionFromRoom
      modifies level`currentRoom, level`notices, player
      ensures !transitioning && transitionTimer == 0.0
      ensures transitionFromRoom == null && transitionDirection == None
      ensures old(PendingDoor()).Some? ==> Moved(level, old(PendingDoor()).value, player)
      ensures old(PendingDoor()).None? ==>
                level.currentRoom == old(level.currentRoom) && level.notices == old(level.notices) &&
                player.x == old(player.x) && player.y == old(player.y)
    {
      var door := PendingDoor();
      if door.Some? {
        level.TransitionToRoom(door.value, player);
      }
      transitioning := false;
      transitionTimer := 0.0;
      transitionFromRoom := null;
      transitionDirection := None;
    }
  }
}
