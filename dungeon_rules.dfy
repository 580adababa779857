/** The rules behind dungeon generation that do not change state: room types
    by position, the door map a set of connections implies, the direction
    rules of the three door phases, the pairs the repair phase may join, and
    how rooms are attached to leaves. */
module DungeonRules {
  import opened Options
  import opened Directions
  import opened Doors
  import opened Rooms
  import opened Graphs
  import opened Bsp
  import opened Sorting

  /** The door limit of the repair and extra phases. */
  const MaxDoors: nat := 3
  /** Integer.MAX_VALUE, the repair phase's initial best distance. */
  const IntMax: int := 0x7fff_ffff

  function Max(a: int, b: int): int
  {
    if a >= b then a else b
  }

  /** The doors of a room whose connections are m: one door per connection,
      on the connection's wall and leading to its room. */
  function DoorsFor(m: map<Direction, Room>): (ds: map<Direction, Door<Room?>>)
    ensures ds.Keys == m.Keys
    ensures forall d :: d in ds ==> ds[d].direction == d && ds[d].connectedRoom == m[d]
  {
    map d | d in m :: NewDoor<Room?>(RoomX, RoomY, RoomWidth, RoomHeight, d, m[d])
  }

  /** Recording one more connection adds exactly the door addDoor puts. */
  lemma DoorsForUpdate(m: map<Direction, Room>, d: Direction, r: Room)
    ensures DoorsFor(m[d := r]) == DoorsFor(m)[d := NewDoor<Room?>(RoomX, RoomY, RoomWidth, RoomHeight, d, r)]
  {
    var lhs, rhs := DoorsFor(m[d := r]), DoorsFor(m)[d := NewDoor<Room?>(RoomX, RoomY, RoomWidth, RoomHeight, d, r)];
    assert lhs.Keys == rhs.Keys;
    forall e | e in lhs
      ensures lhs[e] == rhs[e]
    {
    }
  }

  /** getRoomType: the first band the roll of 0..100 falls in, with the
      EMPTY, LIGHT and MEDIUM bands shrinking as the index grows. The float
      thresholds 20 - 15i/8, 50 - 20i/8 and 80 - 10i/8 are exact, so each band
      is an integer inequality. */
  function GetRoomType(index: int, roll: int): (t: RoomType)
    ensures t == Empty <==> 8 * roll < 160 - 15 * index
    ensures t == ObstacleLight <==> 160 - 15 * index <= 8 * roll < 400 - 20 * index
    ensures t == ObstacleMedium <==>
      160 - 15 * index <= 8 * roll && 400 - 20 * index <= 8 * roll < 640 - 10 * index
    ensures t == ObstacleHeavy <==>
      160 - 15 * index <= 8 * roll && 400 - 20 * index <= 8 * roll && 640 - 10 * index <= 8 * roll && roll < 95
    ensures t == Special <==>
      160 - 15 * index <= 8 * roll && 400 - 20 * index <= 8 * roll && 640 - 10 * index <= 8 * roll && roll >= 95
  {
    var progress := index as real / TargetLeafCount as real;
    if (roll as real) < 20.0 - progress * 15.0 then Empty
    else if (roll as real) < 50.0 - progress * 20.0 then ObstacleLight
    else if (roll as real) < 80.0 - progress * 10.0 then ObstacleMedium
    else if roll < 95 then ObstacleHeavy
    else Special
  }

  /** assignRoomType: the first room is EMPTY, the last possible one
      SPECIAL, every other one takes the band of its roll. */
  function RoomTypeFor(index: nat, roll: int): RoomType
  {
    if index == 0 then Empty
    else if index == TargetLeafCount - 1 then Special
    else GetRoomType(index, roll)
  }

  /** How hard a room type is, EMPTY easiest. */
  function Rank(t: RoomType): nat
  {
    match t
    case Empty => 0
    case ObstacleLight => 1
    case ObstacleMedium => 2
    case ObstacleHeavy => 3
    case Special => 4
  }

  /** Later rooms are never easier for the same roll, and a higher roll is
      never easier for the same room. */
  lemma RoomTypeMonotone(i: nat, j: nat, r: int, s: int)
    requires i <= j && r <= s
    ensures Rank(GetRoomType(i, r)) <= Rank(GetRoomType(j, r))
    ensures Rank(GetRoomType(i, r)) <= Rank(GetRoomType(i, s))
  {
  }

  /** generateRoomObstacles: the inclusive range of the obstacle count. */
  function ObstacleCountRange(t: RoomType): (range: (int, int))
  {
    match t
    case Empty => (0, 1)
    case ObstacleLight => (2, 4)
    case ObstacleMedium => (4, 7)
    case ObstacleHeavy => (7, 12)
    case Special => (5, 8)
  }

  /** What the obstacle draws of a room of type t must satisfy: the count
      lies in the type's range and there is a draw for every obstacle, each
      of a size the type allows. */
  ghost predicate Drawable(t: RoomType, count: int, ds: seq<ObstacleDraw>)
  {
    ObstacleCountRange(t).0 <= count <= ObstacleCountRange(t).1 && count <= |ds| &&
    forall k :: 0 <= k < |ds| ==> DrawFits(t, ds[k])
  }

  /** The number of extra connections tried for n rooms. */
  function ExtraCount(n: int): (k: int)
    ensures n > 3 ==> 1 <= k <= 2
    ensures n > 3 ==> (k == 2 <==> n >= 12)
  {
    var idea := if 1 >= n / 6 then 1 else n / 6;
    if idea <= 2 then idea else 2
  }

  function Abs(n: int): nat
  {
    if n < 0 then -n else n
  }

  /** connectRoomsWithDoors: across a horizontal cut (the children's y
      differ) the room with the smaller centre y gets the SOUTH door, across
      a vertical cut the room with the smaller centre x gets the EAST door. */
  function SplitDirections(horizontalCut: bool, c1: (int, int), c2: (int, int)): (ds: (Direction, Direction))
    ensures ds.1 == Opposite(ds.0)
    ensures horizontalCut <==> (ds.0 == North || ds.0 == South)
  {
    if horizontalCut then
      if c1.1 < c2.1 then (South, North) else (North, South)
    else
      if c1.0 < c2.0 then (East, West) else (West, East)
  }

  /** ensureFullConnectivity: along the larger centre difference; a room to
      the right of the other gets WEST, one above it gets NORTH. */
  function RepairDirections(a: (int, int), b: (int, int)): (ds: (Direction, Direction))
    ensures ds.1 == Opposite(ds.0)
    ensures (ds.0 == East || ds.0 == West) <==> Abs(a.0 - b.0) > Abs(a.1 - b.1)
  {
    var dx, dy := a.0 - b.0, a.1 - b.1;
    if Abs(dx) > Abs(dy) then
      if dx > 0 then (West, East) else (East, West)
    else
      if dy > 0 then (North, South) else (South, North)
  }

  /** addExtraConnections: the same rule, written from the first room. */
  function ExtraDirections(c1: (int, int), c2: (int, int)): (ds: (Direction, Direction))
    ensures ds.1 == Opposite(ds.0)
  {
    if Abs(c1.0 - c2.0) > Abs(c1.1 - c2.1) then
      if c1.0 < c2.0 then (East, West) else (West, East)
    else
      if c1.1 < c2.1 then (South, North) else (North, South)
  }

  /** The repair and the extra phase pick the same walls for two rooms with
      different centres; they differ only for coinciding centres. */
  lemma ExtraMatchesRepair(c1: (int, int), c2: (int, int))
    ensures c1 != c2 ==> ExtraDirections(c1, c2) == RepairDirections(c1, c2)
    ensures c1 == c2 ==> ExtraDirections(c1, c2) == (North, South) && RepairDirections(c1, c2) == (South, North)
  {
  }

  function SquaredDistance(a: (int, int), b: (int, int)): int
  {
    (a.0 - b.0) * (a.0 - b.0) + (a.1 - b.1) * (a.1 - b.1)
  }

  /** The repair phase may join a and b: both have a leaf centre, fewer than
      MaxDoors connections, and a free slot on the wall the rule picks. */
  predicate Admissible(conn: Conn<Room>, leaves: seq<Leaf<Room>>, a: Room, b: Room)
  {
    a in conn && b in conn && RoomCentre(leaves, a).Some? && RoomCentre(leaves, b).Some? &&
    |conn[a]| < MaxDoors && |conn[b]| < MaxDoors &&
    var ds := RepairDirections(RoomCentre(leaves, a).value, RoomCentre(leaves, b).value);
    ds.0 !in conn[a] && ds.1 !in conn[b]
  }

  function PairDistance(leaves: seq<Leaf<Room>>, a: Room, b: Room): int
    requires RoomCentre(leaves, a).Some? && RoomCentre(leaves, b).Some?
  {
    SquaredDistance(RoomCentre(leaves, a).value, RoomCentre(leaves, b).value)
  }

  /** How rooms sit on the tree: only terminal leaves hold rooms, each
      records its own centre, no room is on two leaves, and every connected
      room is on one. */
  ghost predicate RoomsOnLeaves(leaves: seq<Leaf<Room>>, conn: Conn<Room>)
  {
    (forall k :: 0 <= k < |leaves| && leaves[k].room.Some? ==>
       leaves[k].kids.None? && leaves[k].roomCenter == Some(Centre(leaves[k])) &&
       leaves[k].room.value in conn) &&
    (forall k, m :: 0 <= k < m < |leaves| && leaves[k].room.Some? ==> leaves[m].room != leaves[k].room) &&
    (forall r :: r in conn ==> RoomLeaf(leaves, r).Some?)
  }

  /** A room lies on one leaf only, so the first leaf holding it is the one. */
  lemma OnlyLeaf(leaves: seq<Leaf<Room>>, conn: Conn<Room>, k: nat, r: Room)
    requires RoomsOnLeaves(leaves, conn) && k < |leaves| && leaves[k].room == Some(r)
    ensures RoomLeaf(leaves, r) == Some(k)
    ensures RoomCentre(leaves, r) == Some(Centre(leaves[k]))
  {
  }

  /** The distance of a room's recorded centre from the origin. */
  function CentreDistance(leaves: seq<Leaf<Room>>, r: Room): int
  {
    match RoomCentre(leaves, r)
    case None => 0
    case Some(c) => Dist2(c)
  }

  /** The terminal leaves with the distances of their centres. */
  function WithDistances(leaves: seq<Leaf<Room>>, ts: seq<nat>): (w: seq<(nat, int)>)
    requires forall j :: 0 <= j < |ts| ==> ts[j] < |leaves|
  {
    seq(|ts|, j requires 0 <= j < |ts| => (ts[j], Dist2(Centre(leaves[ts[j]]))))
  }

  function DistanceOf(p: (nat, int)): int
  {
    p.1
  }

  /** The terminal leaves sorted by the distance of their centres from the
      origin; room i goes to the i-th of them. */
  function RoomOrder(leaves: seq<Leaf<Room>>): seq<(nat, int)>
  {
    SortByKey(WithDistances(leaves, TerminalIndices(leaves)), DistanceOf)
  }

  function Slots(order: seq<(nat, int)>): (s: seq<nat>)
    ensures |s| == |order| && forall j :: 0 <= j < |s| ==> s[j] == order[j].0
  {
    seq(|order|, j requires 0 <= j < |order| => order[j].0)
  }

  /** Pairs whose first components strictly increase are distinct. */
  lemma WithDistancesDistinct(leaves: seq<Leaf<Room>>, ts: seq<nat>)
    requires forall j :: 0 <= j < |ts| ==> ts[j] < |leaves|
    requires forall i, j :: 0 <= i < j < |ts| ==> ts[i] < ts[j]
    ensures Distinct(WithDistances(leaves, ts))
  {
    var w := WithDistances(leaves, ts);
    forall i, j | 0 <= i < j < |w|
      ensures w[i] != w[j]
    {
      assert w[i].0 == ts[i] < ts[j] == w[j].0;
    }
  }

  /** The room order lists every terminal leaf once, sorted by distance. */
  lemma RoomOrderFacts(leaves: seq<Leaf<Room>>)
    ensures var o := RoomOrder(leaves); var s := Slots(o);
      |o| == Terminals(leaves) && Distinct(s) &&
      (forall j :: 0 <= j < |s| ==>
         s[j] < |leaves| && leaves[s[j]].kids.None? && o[j].1 == Dist2(Centre(leaves[s[j]]))) &&
      (forall k :: 0 <= k < |leaves| && leaves[k].kids.None? ==> k in s) &&
      SortedBy(o, DistanceOf)
  {
    var ts := TerminalIndices(leaves);
    var w := WithDistances(leaves, ts);
    var o := RoomOrder(leaves);
    WithDistancesDistinct(leaves, ts);
    PermutationDistinct(o, w);
    OrderPairs(leaves, ts, o);
    OrderSlotsDistinct(leaves, o, Slots(o));
  }

  /** Each pair of a permutation of the terminal pairs names a terminal leaf
      with its own distance, and every terminal leaf is named. */
  lemma OrderPairs(leaves: seq<Leaf<Room>>, ts: seq<nat>, o: seq<(nat, int)>)
    requires forall j :: 0 <= j < |ts| ==> ts[j] < |leaves| && leaves[ts[j]].kids.None?
    requires forall k :: 0 <= k < |leaves| && leaves[k].kids.None? ==> k in ts
    requires multiset(o) == multiset(WithDistances(leaves, ts))
    ensures forall j :: 0 <= j < |o| ==>
      o[j].0 < |leaves| && leaves[o[j].0].kids.None? && o[j].1 == Dist2(Centre(leaves[o[j].0]))
    ensures forall k :: 0 <= k < |leaves| && leaves[k].kids.None? ==> k in Slots(o)
  {
    var w := WithDistances(leaves, ts);
    SameElements(o, w);
    forall k | 0 <= k < |leaves| && leaves[k].kids.None?
      ensures k in Slots(o)
    {
      var m :| 0 <= m < |ts| && ts[m] == k;
      assert w[m] in o;
      var j :| 0 <= j < |o| && o[j] == w[m];
      assert Slots(o)[j] == k;
    }
  }

  /** A pair carries its leaf's own distance, so equal leaves mean equal
      pairs. */
  lemma OrderSlotsDistinct(leaves: seq<Leaf<Room>>, o: seq<(nat, int)>, s: seq<nat>)
    requires Distinct(o) && |s| == |o|
    requires forall j :: 0 <= j < |o| ==> s[j] == o[j].0
    requires forall j :: 0 <= j < |o| ==>
      o[j].0 < |leaves| && leaves[o[j].0].kids.None? && o[j].1 == Dist2(Centre(leaves[o[j].0]))
    ensures Distinct(s)
  {
  }

  function Attach(l: Leaf<Room>, r: Room): Leaf<Room>
  {
    l.(room := Some(r), roomCenter := Some(Centre(l)))
  }

  /** The leaves after room rs[j] has been put on leaf slots[j], for every j
      in order, together with the leaf's centre. */
  function Furnish(leaves: seq<Leaf<Room>>, slots: seq<nat>, rs: seq<Room>): (f: seq<Leaf<Room>>)
    requires |slots| == |rs| && forall j :: 0 <= j < |slots| ==> slots[j] < |leaves|
    ensures |f| == |leaves|
    decreases |slots|
  {
    if slots == [] then leaves
    else
      var n := |slots| - 1;
      var prev := Furnish(leaves, slots[..n], rs[..n]);
      prev[slots[n] := Attach(prev[slots[n]], rs[n])]
  }

  /** f is leaves with room rs[j] on leaf slots[j] and nothing else
      changed. */
  ghost predicate Placed(leaves: seq<Leaf<Room>>, f: seq<Leaf<Room>>, slots: seq<nat>, rs: seq<Room>)
  {
    |slots| == |rs| && (forall j :: 0 <= j < |slots| ==> slots[j] < |leaves|) &&
    SameShape(leaves, f) &&
    (forall j :: 0 <= j < |slots| ==> f[slots[j]] == Attach(leaves[slots[j]], rs[j])) &&
    (forall k :: 0 <= k < |leaves| && k !in slots ==> f[k] == leaves[k])
  }

  /** What furnishing does: the shape stays, every slot holds its room and
      every other leaf is untouched. */
  lemma {:induction false} FurnishFacts(leaves: seq<Leaf<Room>>, slots: seq<nat>, rs: seq<Room>)
    requires |slots| == |rs| && forall j :: 0 <= j < |slots| ==> slots[j] < |leaves|
    requires Distinct(slots)
    ensures Placed(leaves, Furnish(leaves, slots, rs), slots, rs)
    decreases |slots|
  {
    if slots != [] {
      var n := |slots| - 1;
      var s0, r0 := slots[..n], rs[..n];
      assert Distinct(s0) by {
        forall i, j | 0 <= i < j < |s0|
          ensures s0[i] != s0[j]
        {
          assert s0[i] == slots[i] && s0[j] == slots[j];
        }
      }
      FurnishFacts(leaves, s0, r0);
      var prev := Furnish(leaves, s0, r0);
      PlacedStep(leaves, prev, slots, rs);
    }
  }

  /** One more room on a leaf no earlier room uses extends a placement. */
  lemma PlacedStep(leaves: seq<Leaf<Room>>, prev: seq<Leaf<Room>>, slots: seq<nat>, rs: seq<Room>)
    requires |slots| == |rs| > 0 && forall j :: 0 <= j < |slots| ==> slots[j] < |leaves|
    requires Distinct(slots)
    requires Placed(leaves, prev, slots[..|slots| - 1], rs[..|rs| - 1])
    ensures var n := |slots| - 1;
      Placed(leaves, prev[slots[n] := Attach(prev[slots[n]], rs[n])], slots, rs)
  {
    var n := |slots| - 1;
    var s0, r0 := slots[..n], rs[..n];
    var f := prev[slots[n] := Attach(prev[slots[n]], rs[n])];
    assert slots[n] !in s0 by {
      forall j | 0 <= j < n
        ensures s0[j] != slots[n]
      {
        assert s0[j] == slots[j];
      }
    }
    assert prev[slots[n]] == leaves[slots[n]];
    forall j | 0 <= j < |slots|
      ensures f[slots[j]] == Attach(leaves[slots[j]], rs[j])
    {
      if j < n {
        assert s0[j] == slots[j] && r0[j] == rs[j] && slots[j] != slots[n];
      }
    }
    forall k | 0 <= k < |leaves| && k !in slots
      ensures f[k] == leaves[k]
    {
      assert k !in s0;
    }
  }

  /** A leaf of a placement holding a room is the slot of that room. */
  lemma PlacedRoom(leaves: seq<Leaf<Room>>, f: seq<Leaf<Room>>, slots: seq<nat>, rs: seq<Room>, k: nat)
    requires Placed(leaves, f, slots, rs) && Unfurnished(leaves)
    requires k < |f| && f[k].room.Some?
    ensures exists j :: 0 <= j < |slots| && slots[j] == k && f[k].room == Some(rs[j])
  {
  }

  /** Distinct rooms on distinct slots are never on two leaves. */
  lemma PlacedInjective(leaves: seq<Leaf<Room>>, f: seq<Leaf<Room>>, slots: seq<nat>, rs: seq<Room>)
    requires Placed(leaves, f, slots, rs) && Unfurnished(leaves) && Distinct(rs)
    ensures forall k, m :: 0 <= k < m < |f| && f[k].room.Some? ==> f[m].room != f[k].room
  {
    forall k, m | 0 <= k < m < |f| && f[k].room.Some?
      ensures f[m].room != f[k].room
    {
      PlacedRoom(leaves, f, slots, rs, k);
      var j :| 0 <= j < |slots| && slots[j] == k && f[k].room == Some(rs[j]);
      if f[m].room.Some? {
        PlacedRoom(leaves, f, slots, rs, m);
        var i :| 0 <= i < |slots| && slots[i] == m && f[m].room == Some(rs[i]);
        assert i != j;
      }
    }
  }

  /** Furnishing distinct terminal leaves of an empty tree with distinct
      rooms places the rooms as RoomsOnLeaves requires. */
  lemma Furnished(leaves: seq<Leaf<Room>>, slots: seq<nat>, rs: seq<Room>, conn: Conn<Room>)
    requires |slots| == |rs| && Unfurnished(leaves) && Distinct(slots) && Distinct(rs)
    requires forall j :: 0 <= j < |slots| ==> slots[j] < |leaves| && leaves[slots[j]].kids.None?
    requires conn.Keys == set r | r in rs
    ensures var f := Furnish(leaves, slots, rs);
      SameShape(leaves, f) && RoomsOnLeaves(f, conn) &&
      forall j :: 0 <= j < |rs| ==>
        f[slots[j]].room == Some(rs[j]) && RoomCentre(f, rs[j]) == Some(Centre(leaves[slots[j]]))
  {
    var f := Furnish(leaves, slots, rs);
    FurnishFacts(leaves, slots, rs);
    PlacedOnLeaves(leaves, f, slots, rs, conn);
    forall j | 0 <= j < |rs|
      ensures RoomCentre(f, rs[j]) == Some(Centre(leaves[slots[j]]))
    {
      OnlyLeaf(f, conn, slots[j], rs[j]);
    }
  }

  /** A placement of distinct rooms on distinct terminal leaves of an empty
      tree puts the rooms as RoomsOnLeaves requires. */
  lemma PlacedOnLeaves(leaves: seq<Leaf<Room>>, f: seq<Leaf<Room>>, slots: seq<nat>, rs: seq<Room>, conn: Conn<Room>)
    requires Placed(leaves, f, slots, rs) && Unfurnished(leaves) && Distinct(rs)
    requires forall j :: 0 <= j < |slots| ==> leaves[slots[j]].kids.None?
    requires conn.Keys == set r | r in rs
    ensures RoomsOnLeaves(f, conn)
  {
    PlacedInjective(leaves, f, slots, rs);
    forall k | 0 <= k < |f| && f[k].room.Some?
      ensures f[k].kids.None? && f[k].roomCenter == Some(Centre(f[k])) && f[k].room.value in conn
    {
      PlacedRoom(leaves, f, slots, rs, k);
      var j :| 0 <= j < |slots| && slots[j] == k && f[k].room == Some(rs[j]);
      assert f[k] == Attach(leaves[k], rs[j]);
      assert rs[j] in rs;
    }
    forall r | r in conn
      ensures RoomLeaf(f, r).Some?
    {
      var j :| 0 <= j < |rs| && rs[j] == r;
      assert f[slots[j]].room == Some(r);
    }
  }

  /** The leaves the first n rooms go to. */
  function RoomSlots(leaves: seq<Leaf<Room>>, n: nat): (s: seq<nat>)
    requires n <= Terminals(leaves)
    ensures |s| == n && Distinct(s)
    ensures forall j :: 0 <= j < n ==> s[j] < |leaves| && leaves[s[j]].kids.None?
  {
    RoomOrderFacts(leaves);
    var s := Slots(RoomOrder(leaves))[..n];
    assert forall j :: 0 <= j < n ==> s[j] == Slots(RoomOrder(leaves))[j];
    s
  }

  /** One more room goes on the next leaf of the room order. */
  lemma FurnishNext(leaves: seq<Leaf<Room>>, rs: seq<Room>, r: Room)
    requires |rs| < Terminals(leaves)
    ensures |RoomOrder(leaves)| == Terminals(leaves)
    ensures var i := |rs|; var k := RoomOrder(leaves)[i].0; var f := Furnish(leaves, RoomSlots(leaves, i), rs);
      k < |leaves| && Furnish(leaves, RoomSlots(leaves, i + 1), rs + [r]) == f[k := Attach(f[k], r)]
  {
    RoomOrderFacts(leaves);
    var i := |rs|;
    var s1 := RoomSlots(leaves, i + 1);
    assert s1[..i] == RoomSlots(leaves, i);
    assert (rs + [r])[..i] == rs;
  }

  /** The first |rs| leaves of the room order, furnished with rs and no
      connection between them, keep the tree's shape and hold the rooms as
      RoomsOnLeaves requires. */
  lemma BuiltOnLeaves(leaves: seq<Leaf<Room>>, rs: seq<Room>, conn: Conn<Room>)
    requires Unfurnished(leaves) && Distinct(rs) && |rs| <= Terminals(leaves) && conn == Unlinked(rs)
    ensures var f := Furnish(leaves, RoomSlots(leaves, |rs|), rs);
      SameShape(leaves, f) && RoomsOnLeaves(f, conn) && Bidirectional(conn) && NoSelfLoops(conn)
  {
    Furnished(leaves, RoomSlots(leaves, |rs|), rs, conn);
    UnlinkedValid(rs);
  }

  /** Putting rooms rs on the first |rs| leaves of the room order: their
      centre distances do not decrease along rs, no unused terminal leaf is
      nearer the origin than a room, and when every terminal leaf is used
      none is left empty. */
  lemma FurnishedInOrder(leaves: seq<Leaf<Room>>, rs: seq<Room>)
    requires Unfurnished(leaves) && Distinct(rs) && |rs| <= Terminals(leaves)
    ensures var n := |rs|; var f := Furnish(leaves, RoomSlots(leaves, n), rs);
      (forall i, j :: 0 <= i < j < n ==> CentreDistance(f, rs[i]) <= CentreDistance(f, rs[j])) &&
      (forall k, j :: 0 <= k < |f| && f[k].kids.None? && f[k].room.None? && 0 <= j < n ==>
         CentreDistance(f, rs[j]) <= Dist2(Centre(f[k]))) &&
      (n == Terminals(leaves) ==> forall k :: 0 <= k < |f| && f[k].kids.None? ==> f[k].room.Some?)
  {
    var slots := RoomSlots(leaves, |rs|);
    Furnished(leaves, slots, rs, Unlinked(rs));
    RoomOrderFacts(leaves);
    OrderedRooms(leaves, Furnish(leaves, slots, rs), rs, RoomOrder(leaves), slots);
  }

  /** FurnishedInOrder from the facts about the room order alone. */
  lemma OrderedRooms(leaves: seq<Leaf<Room>>, f: seq<Leaf<Room>>, rs: seq<Room>, o: seq<(nat, int)>, slots: seq<nat>)
    requires SameShape(leaves, f) && |slots| == |rs| <= |o|
    requires SortedBy(o, DistanceOf)
    requires forall j :: 0 <= j < |slots| ==> slots[j] == o[j].0
    requires forall j :: 0 <= j < |o| ==> o[j].0 < |leaves| && o[j].1 == Dist2(Centre(leaves[o[j].0]))
    requires forall k :: 0 <= k < |leaves| && leaves[k].kids.None? ==> exists m :: 0 <= m < |o| && o[m].0 == k
    requires forall j :: 0 <= j < |rs| ==> f[slots[j]].room == Some(rs[j])
    requires forall j :: 0 <= j < |rs| ==> RoomCentre(f, rs[j]) == Some(Centre(leaves[slots[j]]))
    ensures forall i, j :: 0 <= i < j < |rs| ==> CentreDistance(f, rs[i]) <= CentreDistance(f, rs[j])
    ensures forall k, j :: 0 <= k < |f| && f[k].kids.None? && f[k].room.None? && 0 <= j < |rs| ==>
      CentreDistance(f, rs[j]) <= Dist2(Centre(f[k]))
    ensures |rs| == |o| ==> forall k :: 0 <= k < |f| && f[k].kids.None? ==> f[k].room.Some?
  {
    assert forall j :: 0 <= j < |rs| ==> CentreDistance(f, rs[j]) == o[j].1;
    forall k, j | 0 <= k < |f| && f[k].kids.None? && f[k].room.None? && 0 <= j < |rs|
      ensures CentreDistance(f, rs[j]) <= Dist2(Centre(f[k]))
    {
      assert Centre(f[k]) == Centre(leaves[k]);
      assert forall j :: 0 <= j < |rs| ==> o[j].0 != k by {
        forall j | 0 <= j < |rs|
          ensures o[j].0 != k
        {
          assert f[slots[j]].room.Some?;
        }
      }
      var m :| 0 <= m < |o| && o[m].0 == k;
      assert m >= |rs|;
    }
    if |rs| == |o| {
      forall k | 0 <= k < |f| && f[k].kids.None?
        ensures f[k].room.Some?
      {
        var m :| 0 <= m < |o| && o[m].0 == k;
        assert slots[m] == k;
      }
    }
  }

  /** Under RoomsOnLeaves the doors of the tree phase always point the same
      way: the room from the first child's subtree gets SOUTH across a
      horizontal cut and EAST across a vertical one. */
  lemma TreePhaseDirections(leaves: seq<Leaf<Room>>, i: nat, j1: nat, j2: nat)
    requires TreeValid(leaves) && i < |leaves| && leaves[i].kids.Some?
    requires Descendant(leaves, leaves[i].kids.value.0, j1)
    requires Descendant(leaves, leaves[i].kids.value.1, j2)
    ensures var (a, b) := leaves[i].kids.value;
      var ds := SplitDirections(leaves[a].y != leaves[b].y, Centre(leaves[j1]), Centre(leaves[j2]));
      ds == if leaves[a].y != leaves[b].y then (South, North) else (East, West)
  {
    assert ChildrenOk(leaves, i);
    var (a, b) := leaves[i].kids.value;
    DescendantInside(leaves, a, j1);
    DescendantInside(leaves, b, j2);
  }
}
