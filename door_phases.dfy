/** The three door phases of the generator stated on values: the connection
    map each phase produces from the one before, and what each keeps. */
module DoorPhases {
  import opened Options
  import opened Directions
  import opened Rooms
  import opened Graphs
  import opened Bsp
  import opened DungeonRules

  /** RoomsOnLeaves looks at the connection map only through its rooms. */
  lemma RoomsOnLeavesKeys(leaves: seq<Leaf<Room>>, g: Conn<Room>, h: Conn<Room>)
    requires RoomsOnLeaves(leaves, g) && h.Keys == g.Keys
    ensures RoomsOnLeaves(leaves, h)
  {
  }

  /** Both halves of a connection from r1's wall ds.0 to r2's wall ds.1 if
      both rooms are known and both walls are free; otherwise nothing. */
  function LinkIfFree(g: Conn<Room>, r1: Room, ds: (Direction, Direction), r2: Room): Conn<Room>
  {
    if r1 in g && r2 in g && ds.0 !in g[r1] && ds.1 !in g[r2] then Link(g, r1, ds.0, r2) else g
  }

  /** The connection map after connectRoomsWithDoors(r1, r2) under the split
      leaf p: when both rooms are on leaves, the walls SplitDirections picks
      from the split and the rooms' centres, if both are free. */
  function TreeDoor(g: Conn<Room>, leaves: seq<Leaf<Room>>, r1: Room, r2: Room, p: nat): Conn<Room>
    requires p < |leaves|
  {
    var k1, k2 := RoomLeaf(leaves, r1), RoomLeaf(leaves, r2);
    if k1.None? || k2.None? || leaves[p].kids.None? then g
    else
      var (a, b) := leaves[p].kids.value;
      if a < |leaves| && b < |leaves| && leaves[k1.value].roomCenter.Some? && leaves[k2.value].roomCenter.Some? then
        LinkIfFree(g, r1, SplitDirections(leaves[a].y != leaves[b].y, leaves[k1.value].roomCenter.value, leaves[k2.value].roomCenter.value), r2)
      else g
  }

  /** The connection map after connectRooms on leaf i: a door pair between a
      room of each child's subtree (picked with the coins of leaf i), then
      the first child's subtree, then the second's. */
  function TreePhase(g: Conn<Room>, leaves: seq<Leaf<Room>>, i: nat, coins: nat -> nat -> bool): Conn<Room>
    requires i < |leaves|
    decreases |leaves| - i
  {
    match leaves[i].kids
    case None => g
    case Some((a, b)) =>
      if !(i < a < |leaves| && i < b < |leaves|) then g
      else
        var left := FindClosestRoomInSubtree(leaves, a, coins(i));
        var right := FindClosestRoomInSubtree(leaves, b, coins(i));
        var g1 := if left.Some? && right.Some? then TreeDoor(g, leaves, left.value, right.value, i) else g;
        TreePhase(TreePhase(g1, leaves, a, coins), leaves, b, coins)
  }

  /** The door connectRooms adds at a split leaf i: between the rooms the
      coins of leaf i pick in the two subtrees, when both have one. */
  function TreeJoin(g: Conn<Room>, leaves: seq<Leaf<Room>>, i: nat, coins: nat -> nat -> bool): Conn<Room>
    requires i < |leaves| && leaves[i].kids.Some?
    requires var (a, b) := leaves[i].kids.value; a < |leaves| && b < |leaves|
  {
    var (a, b) := leaves[i].kids.value;
    var left := FindClosestRoomInSubtree(leaves, a, coins(i));
    var right := FindClosestRoomInSubtree(leaves, b, coins(i));
    if left.Some? && right.Some? then TreeDoor(g, leaves, left.value, right.value, i) else g
  }

  /** One step of the tree phase at a split leaf whose children come after
      it: the join at the leaf, then the phase on each child. */
  lemma TreePhaseStep(g: Conn<Room>, leaves: seq<Leaf<Room>>, i: nat, coins: nat -> nat -> bool)
    requires i < |leaves| && leaves[i].kids.Some?
    requires var (a, b) := leaves[i].kids.value; i < a < |leaves| && i < b < |leaves|
    ensures var (a, b) := leaves[i].kids.value;
      TreePhase(g, leaves, i, coins) == TreePhase(TreePhase(TreeJoin(g, leaves, i, coins), leaves, a, coins), leaves, b, coins)
  {
  }

  /** What a door phase keeps: every old half stays, the graph stays
      bidirectional and loop-free, and the rooms stay on their leaves. */
  ghost predicate Grows(leaves: seq<Leaf<Room>>, g: Conn<Room>, h: Conn<Room>)
  {
    Extends(g, h) && Bidirectional(h) && NoSelfLoops(h) && RoomsOnLeaves(leaves, h)
  }

  ghost predicate GraphOk(leaves: seq<Leaf<Room>>, g: Conn<Room>)
  {
    Bidirectional(g) && NoSelfLoops(g) && RoomsOnLeaves(leaves, g)
  }

  lemma GrowsTrans(leaves: seq<Leaf<Room>>, g: Conn<Room>, h: Conn<Room>, k: Conn<Room>)
    requires Grows(leaves, g, h) && Grows(leaves, h, k)
    ensures Grows(leaves, g, k)
  {
    ExtendsTrans(g, h, k);
  }

  /** A guarded link between two distinct rooms keeps the graph sound. */
  lemma LinkIfFreeKeeps(g: Conn<Room>, leaves: seq<Leaf<Room>>, r1: Room, ds: (Direction, Direction), r2: Room)
    requires GraphOk(leaves, g) && r1 != r2 && ds.1 == Opposite(ds.0)
    ensures Grows(leaves, g, LinkIfFree(g, r1, ds, r2))
  {
    if r1 in g && r2 in g && ds.0 !in g[r1] && ds.1 !in g[r2] {
      LinkKeeps(g, r1, ds.0, r2);
      RoomsOnLeavesKeys(leaves, g, Link(g, r1, ds.0, r2));
    }
  }

  /** A door pair between two distinct rooms keeps the graph sound. */
  lemma TreeDoorKeeps(g: Conn<Room>, leaves: seq<Leaf<Room>>, r1: Room, r2: Room, p: nat)
    requires p < |leaves| && GraphOk(leaves, g) && r1 != r2
    ensures Grows(leaves, g, TreeDoor(g, leaves, r1, r2, p))
  {
    var h := TreeDoor(g, leaves, r1, r2, p);
    if h != g {
      var k1, k2 := RoomLeaf(leaves, r1).value, RoomLeaf(leaves, r2).value;
      var (a, b) := leaves[p].kids.value;
      var ds := SplitDirections(leaves[a].y != leaves[b].y, leaves[k1].roomCenter.value, leaves[k2].roomCenter.value);
      LinkIfFreeKeeps(g, leaves, r1, ds, r2);
    }
  }

  /** The rooms found in the two subtrees of a split leaf are distinct
      rooms of the graph. */
  lemma ChildRoomsDistinct(g: Conn<Room>, leaves: seq<Leaf<Room>>, i: nat, coin: nat -> bool)
    requires TreeValid(leaves) && RoomsOnLeaves(leaves, g) && i < |leaves| && leaves[i].kids.Some?
    requires leaves[i].kids.value.0 < |leaves| && leaves[i].kids.value.1 < |leaves|
    ensures var (a, b) := leaves[i].kids.value;
      var left := FindClosestRoomInSubtree(leaves, a, coin);
      var right := FindClosestRoomInSubtree(leaves, b, coin);
      left.Some? && right.Some? ==> left.value != right.value && left.value in g && right.value in g
  {
    var (a, b) := leaves[i].kids.value;
    var left := FindClosestRoomInSubtree(leaves, a, coin);
    var right := FindClosestRoomInSubtree(leaves, b, coin);
    if left.Some? && right.Some? {
      var j1: nat :| Descendant(leaves, a, j1) && leaves[j1].room == left;
      var j2: nat :| Descendant(leaves, b, j2) && leaves[j2].room == right;
      SubtreesDisjoint(leaves, i, j1, j2);
      if j1 < j2 {
        assert leaves[j2].room != leaves[j1].room;
      } else {
        assert leaves[j1].room != leaves[j2].room;
      }
    }
  }

  /** The tree phase keeps the graph sound: it only adds halves, always in
      pairs, never a loop. */
  lemma {:induction false} TreePhaseKeeps(g: Conn<Room>, leaves: seq<Leaf<Room>>, i: nat, coins: nat -> nat -> bool)
    requires i < |leaves| && TreeValid(leaves) && GraphOk(leaves, g)
    ensures Grows(leaves, g, TreePhase(g, leaves, i, coins))
    decreases |leaves| - i
  {
    match leaves[i].kids
    case None =>
    case Some((a, b)) =>
      if i < a < |leaves| && i < b < |leaves| {
        var left := FindClosestRoomInSubtree(leaves, a, coins(i));
        var right := FindClosestRoomInSubtree(leaves, b, coins(i));
        var g1 := if left.Some? && right.Some? then TreeDoor(g, leaves, left.value, right.value, i) else g;
        if left.Some? && right.Some? {
          ChildRoomsDistinct(g, leaves, i, coins(i));
          TreeDoorKeeps(g, leaves, left.value, right.value, i);
        }
        assert Grows(leaves, g, g1);
        TreePhaseKeeps(g1, leaves, a, coins);
        var g2 := TreePhase(g1, leaves, a, coins);
        TreePhaseKeeps(g2, leaves, b, coins);
        GrowsTrans(leaves, g, g1, g2);
        GrowsTrans(leaves, g, g2, TreePhase(g2, leaves, b, coins));
      }
  }
}
