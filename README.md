# Dungeon generator and room transitions, modelled in Dafny

This project models the `org.example` dungeon generator of a small libGDX dungeon crawler, together with the pieces it works on and the pieces that use it.

**The generator** (`DungeonGenerator`) works in four steps.

1. It splits the play area into a binary space partitioning (BSP) tree of integer rectangles.
2. It puts up to eight rooms on the terminal leaves nearest the origin and gives each room a difficulty type and obstacles.
3. It builds a door graph in three phases:
   - one door pair per split of the tree;
   - a repair phase that joins every connected group of rooms to the largest group through its closest admissible pair;
   - up to two random extra connections.

   Every door pair is installed as a "both halves or nothing" update of the connection map `Map<Room, Map<Direction, Room>>` and of the rooms' door maps.
4. It returns the rooms.

**The pieces it works on:**
- A `Room` has a fixed rectangle, a door per wall at most, obstacles and a type.
- A `Door` is a 60 × 10 rectangle centred on a wall.
- A `RoomHelper` places obstacles by rejection sampling against a growing list of occupied rectangles.

**The pieces that use it:**
- `DungeonLevel` runs the generator, tracks the current room, detects the door under the player and moves the player through it.
- Two `TransitionManager`s, one in `org.example` and one in `potatodungeon.managers`, delay that move by half a second.
- The `potatodungeon` `ConfigurationManager` holds key bindings, the player colour, its eight-colour palette and the lazily created single instance.

**Modelling choices:**
- Objects whose fields the code updates in place are Dafny classes: the generator, rooms, obstacles, the placement helper, the level, the player and the managers. Their methods carry `modifies` clauses and state the new state.
- Doors, rectangles and BSP leaves are values.
- The BSP tree is a sequence of leaf records. Child references become indices.
- Every `MathUtils` draw is a parameter constrained to the range the code documents. Examples: the orientation coin, the cut offset, the type roll, the obstacle count, size, shape and candidate offsets, the subtree coins and the extra-phase room indices.
- Window sizes come from `potatodungeon/DungeonCrawler.java`: 1024 × 768, with UI bands of 50 and 20. The `org.example` code refers to the same constants.
- The model follows the geometric BSP of `org.example.DungeonGenerator`: leaves are rectangles, and a room's centre is its leaf's centre with Java's integer halving.
- In the repair phase the code merges a group into the main group only when a door pair was installed; the model does the same.

**Main results proved:**
- Every phase keeps the connection graph in step with the rooms' door maps.
- Every phase keeps the graph bidirectional and free of self-loops. It only ever adds halves, and it never overwrites a slot.
- The repair and extra phases only join rooms with fewer than three connections.
- The repair phase only joins rooms that could not reach each other. It leaves a connected dungeon untouched.
- The groups found by breadth-first search are exactly the connected components.
- Obstacles are kept apart from each other and from the door zones.
- A player who goes through a door of a generated dungeon arrives inside the connected room, beside the door that leads back.

## Model

| member | source | states |
|---|---|---|
| Directions.Opposite | core/src/main/java/org/example/DungeonGenerator.java:697-705 | the opposite wall is never the wall itself, and stays on the same axis (N/S or E/W) |
| Directions.OppositeInvolution | core/src/main/java/org/example/DungeonLevel.java:167-174 | taking the opposite twice gives back the wall, and no wall is its own opposite |
| Directions.OppositeInjective | core/src/main/java/org/example/DungeonGenerator.java:697-705 | two walls have the same opposite only if they are the same wall |
| Directions.AllDirectionsComplete | core/src/main/java/org/example/Room.java:32-34 | the fixed order North, East, South, West in which the model walks a door map lists every direction |
| Directions.SlotCount | core/src/main/java/org/example/Room.java:27 | a direction-keyed map (door map, connection map) has at most four entries, so four doors per room is the hard bound |
| Doors.Half | core/src/main/java/org/example/Door.java:27 | Java's `/ 2` on int: truncation toward zero, for negative values too |
| Doors.NewDoor | core/src/main/java/org/example/Door.java:19-50 | direction and connected room are stored unchanged; the door straddles its wall and is centred on it, 60 long and 10 deep |
| Doors.DoorBoundsByDirection | core/src/main/java/org/example/Door.java:26-49 | the bounds of a NORTH, EAST, SOUTH and WEST door are (rx+w/2-30, ry+h-5, 60, 10), (rx+w-5, ry+h/2-30, 10, 60), (rx+w/2-30, ry-5, 60, 10) and (rx-5, ry+h/2-30, 10, 60) |
| Doors.OppositeWallsAligned | core/src/main/java/org/example/Door.java:26-49 | NORTH and SOUTH doors share x and size and lie h apart; EAST and WEST doors share y and size and lie w apart |
| Rectangles.Grow | core/src/main/java/org/example/DungeonLevel.java:100-105 | the expanded detection rectangle is m bigger on every side and has the same centre |
| Rectangles.OverlapsSymmetric | core/src/main/java/org/example/RoomHelper.java:183 | the strict overlap test libGDX's `Rectangle.overlaps` performs is symmetric |
| Obstacles.Obstacle.constructor | core/src/main/java/org/example/Obstacle.java:14-19 | a new obstacle has exactly the given position, half-size and shape |
| Obstacles.Obstacle.SetPosition | core/src/main/java/org/example/Obstacle.java:24-27 | the obstacle stands at the new position |
| Placement.EntityBounds | core/src/main/java/org/example/RoomHelper.java:174-179 | the buffered square of an entity is 2(r+15) wide and high and centred on the entity |
| Placement.EastZoneMissesDoor | core/src/main/java/org/example/RoomHelper.java:57-62 | as written, the EAST door zone of every room ends 65 units short of the east door and does not overlap it |
| Placement.DoorArea | core/src/main/java/org/example/RoomHelper.java:44-69 | the door zone covers its door; for NORTH, SOUTH and WEST it is the rectangle the code builds |
| Placement.DoorAreaClearance | core/src/main/java/org/example/RoomHelper.java:44-69 | every corrected zone covers its door and reaches at least 75 units into the room beyond the door's inner edge |
| Placement.DoorAreasIn | core/src/main/java/org/example/RoomHelper.java:39-72 | no more zones than walls walked, and a zone is listed exactly when it is the (corrected) zone of a door on one of those walls |
| Placement.NoDoorNoZone | core/src/main/java/org/example/RoomHelper.java:39-72 | a room without doors gives no door zone, which is the case while the generator places obstacles |
| Placement.ObstacleSquares | core/src/main/java/org/example/RoomHelper.java:75-83 | one 15-buffered square per existing obstacle, in list order, centred on it |
| Placement.CandidateInside | core/src/main/java/org/example/RoomHelper.java:147-149 | a uniform candidate satisfies bx+20+r ≤ x < bx+bw-20-r and the same for y |
| Placement.SeparatedBodies | core/src/main/java/org/example/RoomHelper.java:174-186 | two entities whose buffered squares do not overlap keep a gap of at least 30 between their bodies along one axis |
| Placement.RoomHelper.constructor | core/src/main/java/org/example/RoomHelper.java:28-31 | the occupied list of a new helper is the (corrected) door zones followed by the obstacle squares, and nothing is accepted yet |
| Placement.RoomHelper.InitializeOccupiedSpaces | core/src/main/java/org/example/RoomHelper.java:37-84 | appends the (corrected) door zones and then the obstacle squares to the occupied list |
| Placement.RoomHelper.OccupyDoorAreas | core/src/main/java/org/example/RoomHelper.java:39-72 | appends exactly one (corrected) zone per door, in the order North, East, South, West |
| Placement.RoomHelper.OccupyObstacles | core/src/main/java/org/example/RoomHelper.java:75-83 | appends exactly one buffered square per obstacle, in list order |
| Placement.RoomHelper.AddOccupiedSpace | core/src/main/java/org/example/RoomHelper.java:89-91 | appends exactly the given rectangle |
| Placement.RoomHelper.IsPositionValid | core/src/main/java/org/example/RoomHelper.java:172-189 | read-only; true iff the entity's buffered square overlaps no occupied rectangle |
| Placement.RoomHelper.MarkPositionOccupied | core/src/main/java/org/example/RoomHelper.java:197-205 | appends exactly the entity's buffered square and changes nothing else |
| Placement.RoomHelper.FindValidPosition | core/src/main/java/org/example/RoomHelper.java:98-163 | at most 50 candidates; a result is the first candidate whose square was free at check time, and that square has been appended; no result means every candidate was taken and the list is unchanged |
| Placement.RoomHelper.AcceptPreservesValid | core/src/main/java/org/example/RoomHelper.java:153-158 | a free square overlaps none of the squares accepted before, so accepted squares stay pairwise apart |
| Placement.RoomHelper.PositionObstacle | core/src/main/java/org/example/RoomHelper.java:207-220 | on success the obstacle moves to an accepted candidate and the list grows by the same square twice; on failure neither the obstacle nor the list changes |
| Rooms.RoomLayout | core/src/main/java/org/example/Room.java:17-22 | every room occupies (20, 40, 984, 658), centred horizontally in the window |
| Rooms.LayoutFree | core/src/main/java/org/example/Room.java:70-81 | a square is free of the helper's list iff it is free of the door zones and of every accepted square |
| Rooms.LayoutAppend | core/src/main/java/org/example/Room.java:74-80 | placing one more obstacle, whose square the helper marks twice, keeps the list in the form zones-then-accepted-squares |
| Rooms.LayoutGrow | core/src/main/java/org/example/Room.java:70-81 | accepting a free spot from the next draw keeps the correspondence between kept obstacles and accepted squares |
| Rooms.LayoutApart | core/src/main/java/org/example/Room.java:70-81 | kept obstacles' squares do not overlap, and any square meeting an accepted one meets a kept obstacle's square |
| Rooms.Room.constructor | core/src/main/java/org/example/Room.java:36-41 | a new room has the given id, the fixed bounds, no doors, no obstacles and type EMPTY |
| Rooms.Room.AddDoor | core/src/main/java/org/example/Room.java:53-56 | the slot holds a new door with that direction and target, replacing any door there; other slots, obstacles and type are unchanged |
| Rooms.Room.SetRoomType | core/src/main/java/org/example/Room.java:312-314 | the type read back is the one set; doors and obstacles are unchanged |
| Rooms.Room.CreateObstacleForRoomType | core/src/main/java/org/example/Room.java:85-109 | an unplaced obstacle at (0, 0); half-size in [25,45] for HEAVY, [15,30] for LIGHT, [20,40] otherwise; square by the SPECIAL coin in SPECIAL rooms |
| Rooms.Room.PlaceNextObstacle | core/src/main/java/org/example/Room.java:71-80 | a placed obstacle is appended as a fresh object; an unplaced one leaves the list as it was and every candidate of its draw hit a zone or an accepted square |
| Rooms.Room.GenerateObstacles | core/src/main/java/org/example/Room.java:59-82 | the old obstacles are discarded; at most the drawn count are kept, each fresh and at one of its draw's candidates, clear of the (corrected) door zones and of each other; fewer only when every candidate of the next draw was taken |
| Rooms.Room.AcceptedAreSquares | core/src/main/java/org/example/Room.java:70-81 | the helper's accepted squares are those of the kept obstacles, which are apart and clear of the zones |
| Bsp.IsHorizontal | core/src/main/java/org/example/DungeonGenerator.java:127-138 | a leaf with 4w > 5h is cut vertically, one with 4h > 5w horizontally, otherwise the coin decides: the 1.25 aspect test on integers |
| Bsp.Split | core/src/main/java/org/example/DungeonGenerator.java:118-180 | refuses exactly an already split leaf or one too short along the cut; otherwise two childless, roomless children that tile the parent (horizontal: same x and width, heights summing to the parent's; vertical: same y and height, widths summing) |
| Bsp.ShapeKeepsTree | core/src/main/java/org/example/DungeonGenerator.java:227-228 | storing rooms on leaves keeps the tree well formed |
| Bsp.ShapeKeepsTerminals | core/src/main/java/org/example/DungeonGenerator.java:227-228 | storing rooms on leaves keeps the terminal count |
| Bsp.SomeTerminal | core/src/main/java/org/example/DungeonGenerator.java:186-195 | a well-formed tree has at least one terminal leaf, so at least one room is made |
| Bsp.SplitKeepsTree | core/src/main/java/org/example/DungeonGenerator.java:164-177 | appending the two children of a split keeps the tree well formed |
| Bsp.TerminalsUpdate | core/src/main/java/org/example/DungeonGenerator.java:165-173 | giving one terminal leaf children removes exactly one terminal |
| Bsp.SplitAddsOne | core/src/main/java/org/example/DungeonGenerator.java:164-179 | a successful split raises the terminal count by exactly one |
| Bsp.TerminalIndices | core/src/main/java/org/example/DungeonGenerator.java:197-203 | the terminal leaves in list order: every childless leaf once, and nothing else |
| Bsp.DescendantInside | core/src/main/java/org/example/DungeonGenerator.java:164-173 | every leaf of a subtree lies within the subtree's root rectangle |
| Bsp.SubtreesDisjoint | core/src/main/java/org/example/DungeonGenerator.java:164-177 | the two subtrees of a split leaf share no leaf |
| Bsp.FindClosestRoomInSubtree | core/src/main/java/org/example/DungeonGenerator.java:272-292 | a result is the room of a leaf of the subtree; none means no leaf of the subtree holds a room |
| Bsp.Centre | core/src/main/java/org/example/DungeonGenerator.java:227 | the room centre (x + w/2, y + h/2) with Java's halving lies within the leaf |
| Bsp.RoomLeaf | core/src/main/java/org/example/DungeonGenerator.java:345-352 | the first leaf holding the room, or none when no leaf holds it |
| Sorting.Insert | core/src/main/java/org/example/DungeonGenerator.java:206-217 | insertion adds exactly one copy of the element |
| Sorting.InsertSorted | core/src/main/java/org/example/DungeonGenerator.java:206-217 | insertion keeps a sequence sorted by key |
| Sorting.SortByKey | core/src/main/java/org/example/DungeonGenerator.java:206-217 | the result is a permutation of the input, sorted by key; its stability is `Sorting.SortStable` |
| Sorting.SortStable | core/src/main/java/org/example/DungeonGenerator.java:206-217 | the sort is stable, as `List.sort` is: for every key value, the elements with that key come out in their input order, so leaves at equal squared distance keep their list order |
| Sorting.InsertRun | core/src/main/java/org/example/DungeonGenerator.java:206-217 | inserting into a sorted list puts the element after every element with an equal key and keeps all other key runs |
| Graphs.Unlinked | core/src/main/java/org/example/DungeonGenerator.java:239-240 | one node per room, each with an empty connection map |
| Graphs.UnlinkedValid | core/src/main/java/org/example/DungeonGenerator.java:239-240 | the graph without connections is bidirectional and loop-free |
| Graphs.LinkShape | core/src/main/java/org/example/DungeonGenerator.java:337-338 | recording a pair changes exactly the two endpoints' slots d and opposite(d) |
| Graphs.LinkExtends | core/src/main/java/org/example/DungeonGenerator.java:330-339 | a link through two free slots keeps every old half and adds one connection to each endpoint |
| Graphs.LinkKeeps | core/src/main/java/org/example/DungeonGenerator.java:330-339 | a link between distinct rooms through free slots keeps the graph bidirectional and loop-free, overwrites no slot and changes no other room |
| Graphs.ClosedReach | core/src/main/java/org/example/DungeonGenerator.java:475-487 | nothing outside a set closed under doors is reachable from inside it |
| Graphs.NewGroupClosed | core/src/main/java/org/example/DungeonGenerator.java:475-487 | in a bidirectional graph a group whose doors lead only into itself or into earlier closed groups is closed |
| Graphs.Explore | core/src/main/java/org/example/DungeonGenerator.java:467-487 | the breadth-first search from a room finds a set of new rooms that contains the start, is reachable from it and has all doors inside what is now processed |
| Graphs.Visit | core/src/main/java/org/example/DungeonGenerator.java:480-486 | every unprocessed neighbour joins the group, the processed set and the queue, and only those |
| Graphs.BidirectionalClosed | core/src/main/java/org/example/DungeonGenerator.java:654-665 | in a bidirectional graph every connection leads to a room of the graph |
| Graphs.ExploredComponent | core/src/main/java/org/example/DungeonGenerator.java:467-490 | what the search finds is a closed set and exactly the rooms reachable from the start |
| Graphs.ExtendsReach | core/src/main/java/org/example/DungeonGenerator.java:440-445 | adding halves keeps every walk |
| Graphs.AcrossUnreachable | core/src/main/java/org/example/DungeonGenerator.java:457-494 | rooms of two different groups cannot reach each other |
| Graphs.ConnectedStaysPut | core/src/main/java/org/example/DungeonGenerator.java:362-365 | a connected graph extended only between unreachable rooms is unchanged |
| Graphs.LinkDegree | core/src/main/java/org/example/DungeonGenerator.java:337-338 | one recorded pair adds exactly two halves to the total degree |
| DungeonRules.DoorsFor | core/src/main/java/org/example/Room.java:53-56 | a room's doors are one door per connection, on its wall and leading to its room |
| DungeonRules.DoorsForUpdate | core/src/main/java/org/example/DungeonGenerator.java:333-338 | recording a connection and calling addDoor for it keep door map and connection map in step |
| DungeonRules.GetRoomType | core/src/main/java/org/example/DungeonGenerator.java:730-748 | the first band applies: EMPTY iff 8r < 160-15i, LIGHT iff not that and 8r < 400-20i, MEDIUM iff neither and 8r < 640-10i, HEAVY iff none and r < 95, else SPECIAL |
| DungeonRules.RoomTypeMonotone | core/src/main/java/org/example/DungeonGenerator.java:733-746 | a later room or a higher roll never gives an easier type |
| DungeonRules.ExtraCount | core/src/main/java/org/example/DungeonGenerator.java:505 | for more than three rooms, one or two extra connections, two exactly from twelve rooms on |
| DungeonRules.SplitDirections | core/src/main/java/org/example/DungeonGenerator.java:306-328 | the two walls of a tree door are opposite, N/S across a horizontal cut and E/W across a vertical one |
| DungeonRules.RepairDirections | core/src/main/java/org/example/DungeonGenerator.java:402-423 | the two walls of a repair door are opposite, E/W exactly when the horizontal centre difference is larger |
| DungeonRules.ExtraDirections | core/src/main/java/org/example/DungeonGenerator.java:545-567 | the two walls of an extra door are opposite |
| DungeonRules.ExtraMatchesRepair | core/src/main/java/org/example/DungeonGenerator.java:545-567 | the extra phase picks the same walls as the repair for distinct centres, and the reverse pair for coinciding ones |
| DungeonRules.OnlyLeaf | core/src/main/java/org/example/DungeonGenerator.java:345-352 | a room lies on one leaf only, so the leaf found is the room's own and gives its centre |
| DungeonRules.Slots | core/src/main/java/org/example/DungeonGenerator.java:221 | the leaf positions of the sorted order, position by position |
| DungeonRules.RoomOrderFacts | core/src/main/java/org/example/DungeonGenerator.java:197-217 | the sorted order lists every terminal leaf exactly once with its squared centre distance, in ascending order |
| DungeonRules.Furnish | core/src/main/java/org/example/DungeonGenerator.java:227-228 | putting the rooms on their leaves keeps the number of leaves |
| DungeonRules.FurnishFacts | core/src/main/java/org/example/DungeonGenerator.java:227-228 | the shape stays, each chosen leaf holds its room and every other leaf is untouched |
| DungeonRules.Furnished | core/src/main/java/org/example/DungeonGenerator.java:220-228 | distinct rooms on distinct terminal leaves: each room on exactly one leaf, with that leaf's centre |
| DungeonRules.PlacedOnLeaves | core/src/main/java/org/example/DungeonGenerator.java:220-228 | every room is attached to exactly one terminal leaf |
| DungeonRules.RoomSlots | core/src/main/java/org/example/DungeonGenerator.java:219-221 | the first n leaves of the sorted order: distinct terminal leaves |
| DungeonRules.FurnishNext | core/src/main/java/org/example/DungeonGenerator.java:220-228 | room i goes on the i-th leaf of the sorted order |
| DungeonRules.BuiltOnLeaves | core/src/main/java/org/example/DungeonGenerator.java:220-241 | after room creation the tree keeps its shape, the rooms sit on leaves, and the empty graph is sound |
| DungeonRules.FurnishedInOrder | core/src/main/java/org/example/DungeonGenerator.java:205-221 | room ids follow ascending centre distance, no unused terminal leaf is nearer the origin than a room, and with enough rooms every terminal leaf is used |
| DungeonRules.TreePhaseDirections | core/src/main/java/org/example/DungeonGenerator.java:309-328 | in the tree phase the room from the first subtree always gets SOUTH across a horizontal cut and EAST across a vertical one |
| DoorPhases.TreePhaseStep | core/src/main/java/org/example/DungeonGenerator.java:248-266 | the tree phase at a split leaf is the join at the leaf, then the phase on the first child, then on the second |
| DoorPhases.LinkIfFreeKeeps | core/src/main/java/org/example/DungeonGenerator.java:330-339 | the guarded insertion between distinct rooms keeps the graph sound and only adds |
| DoorPhases.TreeDoorKeeps | core/src/main/java/org/example/DungeonGenerator.java:297-340 | a tree door pair between distinct rooms keeps the graph sound and only adds |
| DoorPhases.ChildRoomsDistinct | core/src/main/java/org/example/DungeonGenerator.java:254-259 | the rooms found in the two subtrees are distinct rooms of the graph, so the tree phase makes no self-loop |
| DoorPhases.TreePhaseKeeps | core/src/main/java/org/example/DungeonGenerator.java:248-266 | the whole tree phase keeps the graph bidirectional and loop-free, only adds halves, always in pairs |
| Repair.SortedPartition | core/src/main/java/org/example/DungeonGenerator.java:369 | sorting keeps the groups the components of the graph, now largest first |
| Repair.RepairStart | core/src/main/java/org/example/DungeonGenerator.java:372 | the repair starts with nothing added and the largest group as the main group |
| Repair.RepairLink | core/src/main/java/org/example/DungeonGenerator.java:439-448 | the chosen rooms differ, and linking them keeps the degree bound, keeps every new half between groups and makes the group part of the main group |
| Repair.RepairNone | core/src/main/java/org/example/DungeonGenerator.java:362-365 | with at most one group nothing changes |
| Repair.SortedGroups | core/src/main/java/org/example/DungeonGenerator.java:360-372 | the components of the graph, largest first, at most one per room |
| Repair.RepairDone | core/src/main/java/org/example/DungeonGenerator.java:374-450 | after the last group the repair's promises hold |
| Repair.RepairRound | core/src/main/java/org/example/DungeonGenerator.java:374-449 | a group with no admissible pair is left as it is; otherwise the best pair is linked and the group merges into the main group |
| Repair.RepairOutcome | core/src/main/java/org/example/DungeonGenerator.java:358-451 | every half the repair adds joins rooms that could not reach each other before, so a connected graph is left as it was |
| Repair.FindRoomGroups | core/src/main/java/org/example/DungeonGenerator.java:457-494 | pairwise disjoint groups, each closed under doors and a connected component, covering all rooms, the first containing the first room |
| Repair.ScanRoom | core/src/main/java/org/example/DungeonGenerator.java:462-491 | a room already in a group changes nothing; otherwise its component is the next group |
| Repair.AddGroup | core/src/main/java/org/example/DungeonGenerator.java:467-490 | a search from an unprocessed room appends one new group containing it, and the processed set stays closed |
| Repair.GroupedGrow | core/src/main/java/org/example/DungeonGenerator.java:489-490 | a new closed component outside the processed rooms extends the partition |
| Repair.ValidateConnectivity | core/src/main/java/org/example/DungeonGenerator.java:603-631 | false for no rooms; otherwise true iff every room is reachable from room 0 |
| Repair.IsConnected | core/src/main/java/org/example/DungeonGenerator.java:588-597 | true iff some connection of room1 leads to room2 |
| Repair.ConsiderKeeps | core/src/main/java/org/example/DungeonGenerator.java:388-435 | one step of the pair search keeps the best pair valid, never raises its distance and leaves no closer admissible pair among the rooms seen |
| Repair.PairChosen | core/src/main/java/org/example/DungeonGenerator.java:378-436 | the search's result is an admissible pair of minimal squared distance, or there is no admissible pair closer than Integer.MAX_VALUE |
| Repair.ExtraLink | core/src/main/java/org/example/DungeonGenerator.java:525-577 | linking two unconnected rooms with fewer than three connections keeps the bound, and the new halves join rooms that were not neighbours |
| Extras.ExtraAttempt | core/src/main/java/org/example/DungeonGenerator.java:513-578 | an attempt links only distinct rooms, each with fewer than three connections, not yet connected, through two free walls; equal indices never link |
| Extras.FirstExtra | core/src/main/java/org/example/DungeonGenerator.java:512-581 | a found link is admissible, and no link is found once the 20 attempts are used up |
| Extras.TryAttempt | core/src/main/java/org/example/DungeonGenerator.java:516-578 | the checks of one attempt, in the code's order, give the link ExtraAttempt describes |
| Extras.FindFirstExtra | core/src/main/java/org/example/DungeonGenerator.java:509-581 | the attempt loop returns the link of the first attempt that makes one |
| Extras.LinkableApart | core/src/main/java/org/example/DungeonGenerator.java:516-520 | the two rooms of an extra link are distinct rooms of the list |
| Extras.ExtraTries | core/src/main/java/org/example/DungeonGenerator.java:507-581 | one extra connection keeps the set of rooms |
| Extras.FirstInstalls | core/src/main/java/org/example/DungeonGenerator.java:569-577 | the first link found is the one installed |
| Extras.ExtraPhase | core/src/main/java/org/example/DungeonGenerator.java:507-582 | the extra connections one after the other keep the set of rooms |
| Extras.ExtraTriesKeep | core/src/main/java/org/example/DungeonGenerator.java:509-581 | one extra connection keeps the graph sound and bounded and adds at most two halves |
| Extras.ExtraLinkSound | core/src/main/java/org/example/DungeonGenerator.java:569-577 | one extra link keeps the phase sound and adds exactly two halves |
| Extras.ExtraPhaseKeep | core/src/main/java/org/example/DungeonGenerator.java:500-583 | the extra phase keeps the graph sound, never passes max(degree, 3) per room, joins only non-neighbours and adds at most two halves per connection |
| Extras.ExtraStart | core/src/main/java/org/example/DungeonGenerator.java:500-505 | the extra phase starts sound on any bidirectional loop-free graph |
| Generation.MadeDoorless | core/src/main/java/org/example/DungeonGenerator.java:224-234 | rooms are made, and their obstacles placed, before any door exists |
| Generation.BuildingStep | core/src/main/java/org/example/DungeonGenerator.java:220-241 | making room i on the i-th leaf of the sorted order keeps the room-creation invariant |
| Generation.JoinInstalls | core/src/main/java/org/example/DungeonGenerator.java:426-445 | the pair a repair round picks can get its doors: distinct rooms, two free walls |
| Generation.BuiltTree | core/src/main/java/org/example/DungeonGenerator.java:220-241 | after room creation the tree is well formed, has its old shape and holds every room on one leaf |
| Generation.BuiltGraph | core/src/main/java/org/example/DungeonGenerator.java:239-240 | after room creation every room has an empty connection map and no door; the graph is sound |
| Generation.DungeonGenerator.constructor | core/src/main/java/org/example/DungeonGenerator.java:21-33 | a new generator has no rooms, connections or leaves |
| Generation.DungeonGenerator.CountLeaves | core/src/main/java/org/example/DungeonGenerator.java:105-113 | the number of leaves without children |
| Generation.DungeonGenerator.TerminalLeaves | core/src/main/java/org/example/DungeonGenerator.java:197-203 | the childless leaves in list order |
| Generation.DungeonGenerator.SplitLeaf | core/src/main/java/org/example/DungeonGenerator.java:118-180 | succeeds exactly when the leaf can be split; then its two children are appended and the terminal count rises by one; otherwise nothing changes |
| Generation.DungeonGenerator.SplitPass | core/src/main/java/org/example/DungeonGenerator.java:77-98 | a pass that splits something raises the terminal count; one that splits nothing leaves the tree as it was, with every leaf refused |
| Generation.DungeonGenerator.CreateBSPTree | core/src/main/java/org/example/DungeonGenerator.java:69-100 | the loop stops with at least eight terminal leaves or after a pass in which every leaf was refused; the tree is well formed and holds no rooms |
| Generation.DungeonGenerator.AssignRoomType | core/src/main/java/org/example/DungeonGenerator.java:710-728 | room 0 is EMPTY, room 7 SPECIAL, every other room gets the band of its roll; doors and obstacles unchanged |
| Generation.DungeonGenerator.GenerateRoomObstacles | core/src/main/java/org/example/DungeonGenerator.java:753-781 | the room's type and doors are unchanged and its obstacles are placed as generateObstacles promises, with the type's count range |
| Generation.DungeonGenerator.CreateRoom | core/src/main/java/org/example/DungeonGenerator.java:224-234 | a fresh room with id i, its type and its obstacles, and no door |
| Generation.DungeonGenerator.Commit | core/src/main/java/org/example/DungeonGenerator.java:227-240 | the leaves, rooms and connections are the ones built |
| Generation.DungeonGenerator.CreateRoomsInOrder | core/src/main/java/org/example/DungeonGenerator.java:220-241 | room i is made and put on the i-th leaf of the sorted order, for every i below n; the rooms are fresh |
| Generation.DungeonGenerator.FindLeafContainingRoom | core/src/main/java/org/example/DungeonGenerator.java:345-352 | the first leaf that holds the room, or none |
| Generation.DungeonGenerator.InstallDoors | core/src/main/java/org/example/DungeonGenerator.java:333-338 | both halves are recorded, both doors added, and the generator stays consistent and sound |
| Generation.DungeonGenerator.Linked | core/src/main/java/org/example/DungeonGenerator.java:333-338 | the state after both halves and both doors are in place is consistent |
| Generation.DungeonGenerator.ConnectRoomsWithDoors | core/src/main/java/org/example/DungeonGenerator.java:297-340 | the walls of the split rule, and both halves only when both walls are free (no degree check); the graph stays sound |
| Generation.DungeonGenerator.JoinChildren | core/src/main/java/org/example/DungeonGenerator.java:254-261 | one door pair between the rooms found in the two subtrees, when both have one |
| Generation.DungeonGenerator.ConnectRooms | core/src/main/java/org/example/DungeonGenerator.java:248-266 | the tree phase from the leaf: the graph stays sound and only grows |
| Generation.DungeonGenerator.RoomsBuilt | core/src/main/java/org/example/DungeonGenerator.java:185-241 | rooms built over an empty tree leave the generator consistent with the tree's shape kept |
| Generation.DungeonGenerator.GenerateRooms | core/src/main/java/org/example/DungeonGenerator.java:185-242 | min(8, terminals) rooms with ids in ascending centre distance, each on one leaf, each with its type and obstacles and an empty connection map |
| Generation.DungeonGenerator.DoorsOf | core/src/main/java/org/example/DungeonGenerator.java:426 | a room's doors are on exactly the walls its connections use |
| Generation.DungeonGenerator.ScanPartners | core/src/main/java/org/example/DungeonGenerator.java:388-435 | the inner loop leaves the best pair so far valid, never raises its distance and beats every pair of roomA |
| Generation.DungeonGenerator.ConsiderPair | core/src/main/java/org/example/DungeonGenerator.java:389-434 | one candidate pair: a closer admissible pair replaces the best, otherwise nothing changes |
| Generation.DungeonGenerator.FindBestPair | core/src/main/java/org/example/DungeonGenerator.java:378-436 | an admissible pair (both under three connections, both walls free) of minimal squared distance, or none closer than Integer.MAX_VALUE |
| Generation.DungeonGenerator.EnsureFullConnectivity | core/src/main/java/org/example/DungeonGenerator.java:358-451 | the graph stays sound, only grows, keeps the degree bound, joins only rooms that could not reach each other, and is untouched when already connected |
| Generation.DungeonGenerator.RepairGroups | core/src/main/java/org/example/DungeonGenerator.java:372-450 | the rounds over the sorted groups, from the largest as main group, keep the repair's promises |
| Generation.DungeonGenerator.RepairGroup | core/src/main/java/org/example/DungeonGenerator.java:374-449 | round i keeps the repair invariant; the new main group is the old one plus group i exactly when the round's best pair was linked, and the old one when no pair was admissible |
| Generation.DungeonGenerator.JoinGroup | core/src/main/java/org/example/DungeonGenerator.java:375-449 | no admissible pair: nothing changes; otherwise exactly the best pair is linked |
| Generation.DungeonGenerator.AddExtraConnection | core/src/main/java/org/example/DungeonGenerator.java:509-581 | the first of up to 20 attempts that links gets its doors; the graph stays sound |
| Generation.DungeonGenerator.InstallFound | core/src/main/java/org/example/DungeonGenerator.java:439-446 | the pair found, if any, gets both halves and both doors |
| Generation.DungeonGenerator.AddExtraConnections | core/src/main/java/org/example/DungeonGenerator.java:500-583 | nothing for three rooms or fewer; otherwise the extra connections keep the graph sound and bounded, join only non-neighbours and add at most two halves each |
| Generation.DungeonGenerator.GenerateDungeon | core/src/main/java/org/example/DungeonGenerator.java:39-64 | the rooms returned are the generator's, consistent and sound, min(8, terminals) of them and at least one |
| Generation.DungeonGenerator.BuildDungeon | core/src/main/java/org/example/DungeonGenerator.java:40-49 | cleared state, tree and rooms: consistent, min(8, terminals) fresh rooms |
| Generation.DungeonGenerator.ConnectDungeon | core/src/main/java/org/example/DungeonGenerator.java:51-58 | the three door phases keep the generator consistent |
| Level.Player.constructor | core/src/main/java/org/example/Player.java:10-15 | a new player has the given position and radius |
| Level.Player.SetPosition | core/src/main/java/org/example/Player.java:22-25 | the player stands at the new position |
| Level.Notices | core/src/main/java/org/example/DungeonLevel.java:61-63 | one onRoomChange call per observer, in registration order, each about the given room |
| Level.FirstColliding | core/src/main/java/org/example/DungeonLevel.java:94-112 | a result is a door of the room whose expanded bounds hold the player; none means no door's do |
| Level.CollisionMeaning | core/src/main/java/org/example/DungeonLevel.java:88-113 | the result is a door of the current room touched by the player, and there is none exactly when no door is touched |
| Level.ZonesApart | core/src/main/java/org/example/DungeonLevel.java:100-107 | the detection areas of doors on two different walls are disjoint |
| Level.CollisionUnique | core/src/main/java/org/example/DungeonLevel.java:94-110 | any touched door is the one found, so the HashMap's iteration order does not matter |
| Level.ArrivalClear | core/src/main/java/org/example/DungeonLevel.java:128-149 | the arrival point 3·radius into the room from the target door is inside the room and on no door's detection area |
| Level.GeneratedLeadsBack | core/src/main/java/org/example/DungeonGenerator.java:331-338 | every door of a generated room leads to another generated room that has the opposite door back |
| Level.DungeonLevel.constructor | core/src/main/java/org/example/DungeonLevel.java:25-27 | a new level has no rooms, no current room and no observers |
| Level.DungeonLevel.AddObserver | core/src/main/java/org/example/DungeonLevel.java:32-34 | the observer is appended to the list |
| Level.DungeonLevel.Notify | core/src/main/java/org/example/DungeonLevel.java:61-63 | each observer is told once, in order |
| Level.DungeonLevel.Generate | core/src/main/java/org/example/DungeonLevel.java:39-65 | the level holds between one and eight rooms whose doors all lead back, the current room is the first of them and every observer is told about it once |
| Level.DungeonLevel.CheckDoorCollision | core/src/main/java/org/example/DungeonLevel.java:88-113 | none without a current room, otherwise the collision CollisionMeaning characterises |
| Level.DungeonLevel.CurrentDoorEnters | core/src/main/java/org/example/DungeonLevel.java:119-127 | a door of the current room always leads to one of the rooms, which has the opposite door back |
| Level.DungeonLevel.TransitionToRoom | core/src/main/java/org/example/DungeonLevel.java:118-162 | with no target room or no opposite door nothing changes; otherwise the target becomes current, the player is 3·radius into it from the target door's centre, and every observer is told |
| Transitions.TransitionManager.constructor | core/src/main/java/org/example/TransitionManager.java:24-27 | a new manager has no origin room, no direction and a zero timer |
| Transitions.TransitionManager.StartTransition | core/src/main/java/org/example/TransitionManager.java:29-35 | the timer is 0 and the door's direction and the origin room are recorded |
| Transitions.TransitionManager.Update | core/src/main/java/org/example/TransitionManager.java:41-52 | the timer always grows by delta; true iff it reaches 0.5, and then the move through the origin room's door happens; the timer is never reset, so every later update returns true again |
| PotatoTransitions.TransitionManager.constructor | core/src/main/java/potatodungeon/managers/TransitionManager.java:24-27 | a new manager is idle |
| PotatoTransitions.TransitionManager.CheckAndStartTransition | core/src/main/java/potatodungeon/managers/TransitionManager.java:32-39 | nothing while transitioning; otherwise a transition starts exactly when the level reports a door, from the current room in that door's direction |
| PotatoTransitions.TransitionManager.StartTransition | core/src/main/java/potatodungeon/managers/TransitionManager.java:41-48 | the flag is set, the timer is 0, and direction and origin room are recorded |
| PotatoTransitions.TransitionManager.Update | core/src/main/java/potatodungeon/managers/TransitionManager.java:53-63 | idle: false and nothing changes; otherwise the timer grows by delta and true iff it reaches 0.5, then the move happens and the manager is idle, so the next update returns false |
| PotatoTransitions.TransitionManager.CompleteTransition | core/src/main/java/potatodungeon/managers/TransitionManager.java:65-73 | the move through the origin room's door, then flag, timer, origin and direction are reset |
| Configuration.PaletteShape | core/src/main/java/potatodungeon/managers/ConfigurationManager.java:18-26 | the colours and their names are parallel arrays of eight entries without repeats |
| Configuration.IndexOf | core/src/main/java/potatodungeon/managers/ConfigurationManager.java:67-71 | the first matching position; none exactly when the colour is not in the palette |
| Configuration.ColorLookups | core/src/main/java/potatodungeon/managers/ConfigurationManager.java:57-73 | the index is in [0, 8); a palette colour gets its own index and name; any other gets 0 and "Unknown" |
| Configuration.NameIdentifiesColor | core/src/main/java/potatodungeon/managers/ConfigurationManager.java:57-64 | a known name identifies the colour |
| Configuration.ConfigurationManager.constructor | core/src/main/java/potatodungeon/managers/ConfigurationManager.java:9-16 | the defaults: up W, down S, left A, right D, action SPACE, colour BLUE |
| Configuration.ConfigurationManager.SetUpKey | core/src/main/java/potatodungeon/managers/ConfigurationManager.java:46 | only the up key changes, to the new value |
| Configuration.ConfigurationManager.SetDownKey | core/src/main/java/potatodungeon/managers/ConfigurationManager.java:47 | only the down key changes, to the new value |
| Configuration.ConfigurationManager.SetLeftKey | core/src/main/java/potatodungeon/managers/ConfigurationManager.java:48 | only the left key changes, to the new value |
| Configuration.ConfigurationManager.SetRightKey | core/src/main/java/potatodungeon/managers/ConfigurationManager.java:49 | only the right key changes, to the new value |
| Configuration.ConfigurationManager.SetActionKey | core/src/main/java/potatodungeon/managers/ConfigurationManager.java:50 | only the action key changes, to the new value |
| Configuration.ConfigurationManager.SetPlayerColor | core/src/main/java/potatodungeon/managers/ConfigurationManager.java:51 | only the player colour changes, to the new value |
| Configuration.ConfigurationManager.KeyAssignedMeaning | core/src/main/java/potatodungeon/managers/ConfigurationManager.java:75-82 | a key is assigned iff some action other than the excluded one is bound to it |
| Configuration.ConfigurationManager.GetColorIndex | core/src/main/java/potatodungeon/managers/ConfigurationManager.java:66-73 | the first matching palette position, or 0 |
| Configuration.ConfigurationManager.GetColorName | core/src/main/java/potatodungeon/managers/ConfigurationManager.java:57-64 | the name at the first matching position, or "Unknown" |
| Configuration.InstanceSlot.constructor | core/src/main/java/potatodungeon/managers/ConfigurationManager.java:7 | no instance exists yet |
| Configuration.InstanceSlot.GetInstance | core/src/main/java/potatodungeon/managers/ConfigurationManager.java:30-35 | the first call creates a manager with the defaults; every later call returns that same manager |

## Left out

- Placement.DoorAreasIn: lists the corrected EAST zone, (x-100, y-50, w+100, h+100), where the code builds (x-100, y-50, w+25, h+100) (see Findings). Squares in the 75-unit gap beside an east door are rejected by the model but accepted by the code.
- Placement.RoomHelper.constructor: uses the corrected EAST zone, so its occupied list differs from the code's there (see Findings).
- Placement.RoomHelper.InitializeOccupiedSpaces: uses the corrected EAST zone (see Findings).
- Placement.RoomHelper.OccupyDoorAreas: appends the corrected EAST zone (see Findings).
- Rooms.Room.GenerateObstacles: "clear of the door zones" and the rejection rule use the corrected EAST zone (see Findings). The generator calls it only on rooms that have no doors yet (`Placement.NoDoorNoZone`, `Generation.MadeDoorless`), so generated dungeons are the same under both zones.
- Generation.DungeonGenerator.GenerateRoomObstacles: states its result over the corrected zones. Its room has no doors at that point, so the zone list is empty.
- Randomness: every `MathUtils` draw is a parameter limited to its documented range. The probabilities are not modelled, for example type rolls, 70%/30% square shapes and uniform offsets.
- Float truncation in split positions: the cut offset `(int)(h*0.3f)`..`(int)(h*0.7f)` is a supplied offset within the cut length. The model does not compute the float products.
- Iteration order of HashMap and HashSet:
  - The repair's pair search is specified as "any admissible pair of minimal distance", so ties are not resolved.
  - Door maps are walked in the fixed order North, East, South, West. `Level.CollisionUnique` shows that this order does not change which door is found.
- Generation.DungeonGenerator.ConnectDungeon: states only that the generator stays consistent. The phase-by-phase promises are stated by ConnectRooms, EnsureFullConnectivity and AddExtraConnections.
- Search then install: in the repair and extra phases the model first searches on the connection map and then installs the pair in one step. The code searches and installs in the same loop. The outcome is the same. The extra phase's free-wall test reads the connection map, which the generator's invariant makes equal to the door map's keys.
- Extras.TryAttempt: where the code would skip a room that is on no leaf, the model returns no link. In a consistent generator this case never arises.
- `logRoomConnections` and the `System.out.println` calls: console output only. Its bidirectional check is the `Bidirectional` predicate.
- Java int overflow: squared distances and coordinates are unbounded integers. With a 1024 × 698 area they stay far below 2^31.
- The centre- and edge-biased branches of `findBiasedPosition`: cos, sin and float scaling. Only the uniform branch is used for obstacles.
- Float coordinates are modelled as exact reals. Float rounding is not modelled.
- Rendering, the random floor colour, door colours, `constrainPlayer` in both packages (sqrt and atan2), the UI screens and the input controllers: outside the generator logic.
- Level.DungeonLevel.TransitionToRoom: does not restate that the level's consistency (`Valid`) is preserved. `CurrentDoorEnters` supplies what a caller needs: a door of a generated current room enters another generated room through a door back.
- Observers are recorded as identities in a log of onRoomChange calls. What an observer does with the call is not part of this model.
- Transitions.TransitionManager.Update: when there is no origin room, or it has no door in the recorded direction, the code would throw a NullPointerException. The model moves nobody in that case.
- PotatoTransitions.TransitionManager.Update: the same as the previous item, for completeTransition, which it calls.
- PotatoTransitions.TransitionManager.CompleteTransition: when there is no origin room, or it has no door in the recorded direction, the code would throw a NullPointerException; the model moves nobody and only resets the manager.
- The `potatodungeon.world.DungeonLevel` the potatodungeon manager drives: it is represented by the `org.example` level. Its `checkDoorCollision` and `transitionToRoom` are the same code, and its generator is not part of this model.
- libGDX `Color`: modelled as four 8-bit channels compared by value.
- `getAvailableColors` and `getColorNames` return the internal arrays, so a caller can change them through the returned reference. The model holds them as constant sequences, so that aliasing is not modelled. Input.Keys.toString (`getKeyName`) is a library call and is not modelled.
- `Player`: the org.example player is context only. Position and radius are kept, speed and movement are not.
- The potatodungeon combat code, the potatodungeon copies of Room and the generator, and the application host: not part of this model.

## Findings

| source | as written | input that shows it | evidently intended | confidence | as-written member | corrected member |
|---|---|---|---|---|---|---|
| core/src/main/java/org/example/RoomHelper.java:57-62 | the EAST zone is (x-100, y-50, w+25, h+100), so it ends 65 units left of the door it is meant to protect | any room with an EAST door: for the door at x = 999 the zone spans x from 899 to 934 | the EAST counterpart of the NORTH zone, (x-100, y-50, w+100, h+100), covering the door and reaching 100 units into the room | not executed | Placement.EastZoneMissesDoor | Placement.DoorAreaClearance |
