/** The connectivity phases on the connection graph: the groups
    findRoomGroups reports, the order ensureFullConnectivity takes them in,
    and what its joins and the extra connections keep. */
module Repair {
  import opened Options
  import opened Directions
  import opened Rooms
  import opened Graphs
  import opened Bsp
  import opened Sorting
  import opened DungeonRules

  /** S is one connected group of g: not empty, closed, and exactly the
      rooms reachable from one of its rooms. */
  ghost predicate IsGroup<T>(g: Conn<T>, S: set<T>)
  {
    S != {} && Closed(g, S) && exists s :: s in S && ComponentOf(g, s, S)
  }

  /** groups lists the connected groups of g: pairwise disjoint, each a
      group, and together every room of g. */
  ghost predicate Partition<T>(g: Conn<T>, groups: seq<set<T>>)
  {
    PairwiseDisjoint(groups) &&
    (forall m :: 0 <= m < |groups| ==> IsGroup(g, groups[m])) &&
    forall r {:trigger InSomeGroup(groups, r)} :: r in g ==> InSomeGroup(groups, r)
  }

  ghost predicate InSomeGroup<T>(groups: seq<set<T>>, r: T)
  {
    exists m :: 0 <= m < |groups| && r in groups[m]
  }

  /** The sort key of ensureFullConnectivity: larger groups first. */
  function GroupRank(s: set<Room>): int
  {
    -|s|
  }

  /** Disjoint nonempty groups are distinct. */
  lemma PartitionDistinct(g: Conn<Room>, groups: seq<set<Room>>)
    requires Partition(g, groups)
    ensures Distinct(groups)
  {
    forall i, j | 0 <= i < j < |groups|
      ensures groups[i] != groups[j]
    {
      assert IsGroup(g, groups[i]);
      var x :| x in groups[i];
      assert DisjointAt(groups, i, j);
    }
  }

  /** Sorting the groups by size keeps them the groups of g, largest first. */
  lemma SortedPartition(g: Conn<Room>, groups: seq<set<Room>>)
    requires Partition(g, groups)
    ensures var sorted := SortByKey(groups, GroupRank);
      Partition(g, sorted) && |sorted| == |groups| &&
      forall i, j :: 0 <= i < j < |sorted| ==> |sorted[i]| >= |sorted[j]|
  {
    var sorted := SortByKey(groups, GroupRank);
    PartitionDistinct(g, groups);
    PermutationDistinct(sorted, groups);
    PermutedGroups(g, groups, sorted);
    PermutedDisjoint(groups, sorted);
    PermutedCover(g, groups, sorted);
    forall i, j | 0 <= i < j < |sorted|
      ensures |sorted[i]| >= |sorted[j]|
    {
      assert GroupRank(sorted[i]) <= GroupRank(sorted[j]);
    }
  }

  lemma PermutedGroups(g: Conn<Room>, groups: seq<set<Room>>, sorted: seq<set<Room>>)
    requires multiset(sorted) == multiset(groups)
    requires forall m :: 0 <= m < |groups| ==> IsGroup(g, groups[m])
    ensures forall m :: 0 <= m < |sorted| ==> IsGroup(g, sorted[m])
  {
    SameElements(sorted, groups);
    forall m | 0 <= m < |sorted|
      ensures IsGroup(g, sorted[m])
    {
      var k :| 0 <= k < |groups| && groups[k] == sorted[m];
    }
  }

  lemma PermutedDisjoint(groups: seq<set<Room>>, sorted: seq<set<Room>>)
    requires multiset(sorted) == multiset(groups) && PairwiseDisjoint(groups) && Distinct(sorted)
    ensures PairwiseDisjoint(sorted)
  {
    SameElements(sorted, groups);
    forall m, n | 0 <= m < n < |sorted|
      ensures DisjointAt(sorted, m, n)
    {
      var k :| 0 <= k < |groups| && groups[k] == sorted[m];
      var l :| 0 <= l < |groups| && groups[l] == sorted[n];
      if k < l {
        assert DisjointAt(groups, k, l);
      } else {
        assert DisjointAt(groups, l, k);
      }
    }
  }

  lemma PermutedCover(g: Conn<Room>, groups: seq<set<Room>>, sorted: seq<set<Room>>)
    requires multiset(sorted) == multiset(groups)
    requires forall r {:trigger InSomeGroup(groups, r)} :: r in g ==> InSomeGroup(groups, r)
    ensures forall r {:trigger InSomeGroup(sorted, r)} :: r in g ==> InSomeGroup(sorted, r)
  {
    SameElements(sorted, groups);
    forall r | r in g
      ensures InSomeGroup(sorted, r)
    {
      assert InSomeGroup(groups, r);
      var m :| 0 <= m < |groups| && r in groups[m];
      var n :| 0 <= n < |sorted| && sorted[n] == groups[m];
    }
  }

  /** No room of h has more connections than it had in g0 or than MaxDoors. */
  ghost predicate WithinBound(g0: Conn<Room>, h: Conn<Room>)
  {
    forall r :: r in h ==> r in g0 && |h[r]| <= Max(|g0[r]|, MaxDoors)
  }

  /** Every half h adds to g0 joins rooms of two different groups. */
  ghost predicate JoinsGroups(g0: Conn<Room>, h: Conn<Room>, groups: seq<set<Room>>)
  {
    forall a, d :: a in h && d in h[a] && Added(g0, h, a, d) ==> Across(groups, a, h[a][d])
  }

  /** Every room of main lies in one of the first i groups. */
  ghost predicate InFirst(main: set<Room>, groups: seq<set<Room>>, i: nat)
  {
    forall r :: r in main ==> exists k :: 0 <= k < i && k < |groups| && r in groups[k]
  }

  /** A group left unjoined: the main group is still within the first
      groups, one more of them. */
  lemma InFirstKeeps(main: set<Room>, groups: seq<set<Room>>, i: nat)
    requires InFirst(main, groups, i)
    ensures InFirst(main, groups, i + 1)
  {
    forall r | r in main
      ensures exists k :: 0 <= k < i + 1 && k < |groups| && r in groups[k]
    {
      var k :| 0 <= k < i && k < |groups| && r in groups[k];
    }
  }

  /** Where ensureFullConnectivity starts: nothing added, and the main group
      is the first one. */
  lemma RepairStart(g0: Conn<Room>, groups: seq<set<Room>>)
    requires |groups| > 0
    ensures Extends(g0, g0) && WithinBound(g0, g0) && JoinsGroups(g0, g0, groups)
    ensures InFirst(groups[0], groups, 1)
  {
    forall r | r in g0
      ensures |g0[r]| <= Max(|g0[r]|, MaxDoors)
    {
    }
  }

  /** One join of ensureFullConnectivity: a room of the main group and one
      of group i, each with fewer than MaxDoors connections and a free slot
      on the picked walls, are distinct, and linking them keeps the bound,
      keeps every new half across groups and adds group i to the main
      group. */
  lemma RepairLink(g0: Conn<Room>, g: Conn<Room>, groups: seq<set<Room>>, i: nat, main: set<Room>,
                   a: Room, d: Direction, b: Room)
    requires Extends(g0, g) && WithinBound(g0, g) && JoinsGroups(g0, g, groups)
    requires PairwiseDisjoint(groups) && 0 < i < |groups| && InFirst(main, groups, i)
    requires a in main && b in groups[i] && a in g && b in g
    requires d !in g[a] && Opposite(d) !in g[b] && |g[a]| < MaxDoors && |g[b]| < MaxDoors
    ensures a != b
    ensures var h := Link(g, a, d, b);
      Extends(g0, h) && WithinBound(g0, h) && JoinsGroups(g0, h, groups) &&
      InFirst(main + groups[i], groups, i + 1)
  {
    var k :| 0 <= k < i && k < |groups| && a in groups[k];
    assert DisjointAt(groups, k, i);
    assert Across(groups, a, b) && Across(groups, b, a);
    var h := Link(g, a, d, b);
    LinkExtends(g, a, d, b);
    ExtendsTrans(g0, g, h);
    LinkJoins(g0, g, groups, a, d, b);
    LinkBound(g0, g, a, d, b);
    InFirstGrows(main, groups, i);
  }

  /** The repair after the joins with groups 1 to i - 1: g extends g0 within
      the bound, every added half crosses groups, and the main group is in
      the first i groups. */
  ghost predicate Repairing(g0: Conn<Room>, g: Conn<Room>, groups: seq<set<Room>>, i: nat, main: set<Room>)
  {
    Extends(g0, g) && WithinBound(g0, g) && JoinsGroups(g0, g, groups) &&
    InFirst(main, groups, i) && main <= g0.Keys
  }

  /** The main group shares no room with a later group. */
  lemma MainApart(main: set<Room>, groups: seq<set<Room>>, i: nat)
    requires InFirst(main, groups, i) && PairwiseDisjoint(groups) && i < |groups|
    ensures main !! groups[i]
  {
    forall r | r in main
      ensures r !in groups[i]
    {
      var k :| 0 <= k < i && k < |groups| && r in groups[k];
      assert DisjointAt(groups, k, i);
    }
  }

  /** What ensureFullConnectivity promises of h, the graph it leaves from
      g0: no room past the door bound, every added half between rooms that
      were unreachable from each other, and nothing added to a connected
      graph. */
  ghost predicate Repaired(g0: Conn<Room>, h: Conn<Room>)
  {
    WithinBound(g0, h) &&
    (forall a, d :: a in h && d in h[a] && Added(g0, h, a, d) ==> !Reachable(g0, a, h[a][d])) &&
    ((forall a, b :: a in g0 && b in g0 ==> Reachable(g0, a, b)) ==> h == g0)
  }

  /** With one group or none there is nothing to repair. */
  lemma RepairNone(g0: Conn<Room>)
    ensures Extends(g0, g0) && Repaired(g0, g0)
  {
    NothingAdded(g0);
  }

  /** The groups of g found from the room list and sorted largest first,
      ready for the repair with the largest as the main group. */
  method SortedGroups(g: Conn<Room>, rooms: seq<Room>) returns (sorted: seq<set<Room>>)
    requires Bidirectional(g) && g.Keys == set r | r in rooms
    ensures Partition(g, sorted) && |sorted| <= |rooms|
    ensures forall i, j :: 0 <= i < j < |sorted| ==> |sorted[i]| >= |sorted[j]|
    ensures |sorted| > 1 ==> Repairing(g, g, sorted, 1, sorted[0])
  {
    var groups := FindRoomGroups(g, rooms);
    SortedPartition(g, groups);
    sorted := SortByKey(groups, GroupRank);
    if |sorted| > 1 {
      RepairStart(g, sorted);
      assert IsGroup(g, sorted[0]);
    }
  }

  /** After the last group the repaired graph keeps its promises. */
  lemma RepairDone(g0: Conn<Room>, h: Conn<Room>, groups: seq<set<Room>>, main: set<Room>)
    requires Partition(g0, groups) && Repairing(g0, h, groups, |groups|, main) && Bidirectional(h)
    ensures Repaired(g0, h)
  {
    RepairOutcome(g0, h, groups);
  }

  /** The outcome of joining current to main: no admissible pair and g
      unchanged, or the best pair linked. */
  ghost predicate Joined(g: Conn<Room>, h: Conn<Room>, leaves: seq<Leaf<Room>>, main: set<Room>, current: set<Room>,
                         best: Option<(Room, Direction, Room)>)
  {
    (best.None? ==> h == g && NoPair(g, leaves, main, current)) &&
    (best.Some? ==>
      BestPair(g, leaves, main, current, best.value) && h == Link(g, best.value.0, best.value.1, best.value.2))
  }

  /** One round of ensureFullConnectivity, with group i: either no pair and
      no change, or the best pair linked and group i added to the main
      group. */
  lemma RepairRound(g0: Conn<Room>, g: Conn<Room>, h: Conn<Room>, leaves: seq<Leaf<Room>>,
                    groups: seq<set<Room>>, i: nat, main: set<Room>, best: Option<(Room, Direction, Room)>)
    requires Partition(g0, groups) && 0 < i < |groups| && Repairing(g0, g, groups, i, main)
    requires Joined(g, h, leaves, main, groups[i], best)
    ensures Repairing(g0, h, groups, i + 1, if best.Some? then main + groups[i] else main)
  {
    if best.Some? {
      var (a, d, b) := best.value;
      assert IsGroup(g0, groups[i]);
      RepairLink(g0, g, groups, i, main, a, d, b);
    } else {
      InFirstKeeps(main, groups, i);
    }
  }

  /** A link between two rooms with fewer than MaxDoors connections each
      keeps the bound. */
  lemma LinkBound(g0: Conn<Room>, g: Conn<Room>, a: Room, d: Direction, b: Room)
    requires WithinBound(g0, g) && a in g && b in g && a != b && d !in g[a] && Opposite(d) !in g[b]
    requires |g[a]| < MaxDoors && |g[b]| < MaxDoors
    ensures WithinBound(g0, Link(g, a, d, b))
  {
    LinkExtends(g, a, d, b);
  }

  lemma LinkJoins(g0: Conn<Room>, g: Conn<Room>, groups: seq<set<Room>>, a: Room, d: Direction, b: Room)
    requires JoinsGroups(g0, g, groups) && Across(groups, a, b) && Across(groups, b, a)
    requires a in g && b in g && a != b && d !in g[a] && Opposite(d) !in g[b]
    ensures JoinsGroups(g0, Link(g, a, d, b), groups)
  {
    var h := Link(g, a, d, b);
    LinkShape(g, a, d, b);
    forall x, e | x in h && e in h[x] && Added(g0, h, x, e)
      ensures Across(groups, x, h[x][e])
    {
      if x == a && e == d {
      } else if x == b && e == Opposite(d) {
      } else {
        assert e in g[x] && h[x][e] == g[x][e];
        assert Added(g0, g, x, e);
      }
    }
  }

  lemma InFirstGrows(main: set<Room>, groups: seq<set<Room>>, i: nat)
    requires InFirst(main, groups, i) && i < |groups|
    ensures InFirst(main + groups[i], groups, i + 1)
  {
    forall r | r in main + groups[i]
      ensures exists k :: 0 <= k < i + 1 && k < |groups| && r in groups[k]
    {
      if r !in groups[i] {
        var k :| 0 <= k < i && k < |groups| && r in groups[k];
      }
    }
  }

  /** What ensureFullConnectivity achieves: every new half joins two rooms
      that could not reach each other before, so a graph that was connected
      already is left as it was. */
  lemma RepairOutcome(g0: Conn<Room>, h: Conn<Room>, groups: seq<set<Room>>)
    requires Partition(g0, groups) && JoinsGroups(g0, h, groups)
    requires Extends(g0, h) && Bidirectional(h)
    ensures forall a, d :: Added(g0, h, a, d) ==> !Reachable(g0, a, h[a][d])
    ensures (forall a, b :: a in g0 && b in g0 ==> Reachable(g0, a, b)) ==> h == g0
  {
    forall m | 0 <= m < |groups|
      ensures Closed(g0, groups[m])
    {
      assert IsGroup(g0, groups[m]);
    }
    forall a, d | Added(g0, h, a, d)
      ensures h[a][d] in g0 && !Reachable(g0, a, h[a][d])
    {
      AcrossUnreachable(g0, groups, a, h[a][d]);
      assert HalfMatched(h, a, d);
    }
    if forall a, b :: a in g0 && b in g0 ==> Reachable(g0, a, b) {
      ConnectedStaysPut(g0, h);
    }
  }

  /** Nothing added: a graph extends itself within the bound. */
  lemma NothingAdded(g: Conn<Room>)
    ensures Extends(g, g) && WithinBound(g, g)
    ensures forall a, d :: !Added(g, g, a, d)
  {
    forall r | r in g
      ensures |g[r]| <= Max(|g[r]|, MaxDoors)
    {
    }
  }

  /** findRoomGroups: a breadth-first search from every room that is in no
      group yet, in list order; the rooms each search reaches form the next
      group. */
  method FindRoomGroups<T>(g: Conn<T>, rooms: seq<T>) returns (groups: seq<set<T>>)
    requires Bidirectional(g) && g.Keys == set r | r in rooms
    ensures Partition(g, groups) && |groups| <= |rooms|
    ensures rooms != [] ==> |groups| > 0 && rooms[0] in groups[0]
  {
    groups := [];
    var processed: set<T> := {};
    for i := 0 to |rooms|
      invariant Scanned(g, rooms, i, groups, processed)
    {
      assert rooms[i] in rooms;
      groups, processed := ScanRoom(g, rooms, i, groups, processed);
    }
    forall m | 0 <= m < |groups|
      ensures IsGroup(g, groups[m])
    {
      assert GroupWithin(g, groups, processed, m);
    }
    forall r | r in g
      ensures InSomeGroup(groups, r)
    {
      var j :| 0 <= j < |rooms| && rooms[j] == r;
    }
  }

  /** What findRoomGroups has built after looking at the first i rooms. */
  ghost predicate Scanned<T>(g: Conn<T>, rooms: seq<T>, i: int, groups: seq<set<T>>, processed: set<T>)
  {
    0 <= i <= |rooms| && processed <= g.Keys && Closed(g, processed) && |groups| <= i &&
    Grouped(g, groups, processed) &&
    (forall j :: 0 <= j < i ==> rooms[j] in processed) &&
    (i == 0 ==> processed == {}) &&
    (i > 0 ==> |groups| > 0 && rooms[0] in groups[0])
  }

  /** The loop body of findRoomGroups for the room at i: a search from it
      when no group holds it yet. */
  method ScanRoom<T>(g: Conn<T>, rooms: seq<T>, i: nat, groups: seq<set<T>>, processed: set<T>)
    returns (groups': seq<set<T>>, processed': set<T>)
    requires Bidirectional(g)
    requires i < |rooms| && rooms[i] in g && Scanned(g, rooms, i, groups, processed)
    ensures Scanned(g, rooms, i + 1, groups', processed')
    ensures rooms[i] in processed ==> groups' == groups && processed' == processed
  {
    if rooms[i] in processed {
      groups', processed' := groups, processed;
      forall j | 0 <= j <= i
        ensures rooms[j] in processed
      {
        if j < i {
          assert rooms[j] in processed;
        }
      }
      return;
    }
    groups', processed' := AddGroup(g, groups, processed, rooms[i]);
    forall j | 0 <= j < i
      ensures rooms[j] in processed'
    {
      assert rooms[j] in processed;
    }
    if i > 0 {
      assert groups'[0] == groups'[..|groups|][0];
    }
  }

  /** One search of findRoomGroups from a room s in no group yet: the rooms
      it reaches are one more group. */
  method AddGroup<T>(g: Conn<T>, groups: seq<set<T>>, processed: set<T>, s: T)
    returns (groups': seq<set<T>>, processed': set<T>)
    requires Bidirectional(g)
    requires processed <= g.Keys && Closed(g, processed) && Grouped(g, groups, processed)
    requires s in g && s !in processed
    ensures processed' <= g.Keys && Closed(g, processed') && Grouped(g, groups', processed')
    ensures processed <= processed' && s in processed'
    ensures |groups'| == |groups| + 1 && groups'[..|groups|] == groups && s in groups'[|groups|]
  {
    BidirectionalClosed(g);
    var group, seen := Explore(g, s, processed);
    ExploredComponent(g, s, processed, group);
    GroupedGrow(g, groups, processed, group, s);
    groups', processed' := groups + [group], seen;
  }

  /** The groups found so far: disjoint groups of g that make up exactly
      the processed rooms. */
  ghost predicate Grouped<T>(g: Conn<T>, groups: seq<set<T>>, processed: set<T>)
  {
    PairwiseDisjoint(groups) && GroupsWithin(g, groups, processed) && Covers(groups, processed)
  }

  ghost predicate GroupsWithin<T>(g: Conn<T>, groups: seq<set<T>>, processed: set<T>)
  {
    forall m {:trigger GroupWithin(g, groups, processed, m)} :: 0 <= m < |groups| ==> GroupWithin(g, groups, processed, m)
  }

  ghost predicate GroupWithin<T>(g: Conn<T>, groups: seq<set<T>>, processed: set<T>, m: int)
  {
    0 <= m < |groups| && IsGroup(g, groups[m]) && groups[m] <= processed
  }

  ghost predicate Covers<T>(groups: seq<set<T>>, processed: set<T>)
  {
    forall r {:trigger InSomeGroup(groups, r)} :: r in processed ==> InSomeGroup(groups, r)
  }

  /** A new closed component outside the processed rooms is one more group. */
  lemma GroupedGrow<T>(g: Conn<T>, groups: seq<set<T>>, processed: set<T>, group: set<T>, s: T)
    requires Grouped(g, groups, processed)
    requires s in group && group !! processed && Closed(g, group) && ComponentOf(g, s, group)
    ensures Grouped(g, groups + [group], processed + group)
  {
    assert IsGroup(g, group);
    GroupsGrow(g, groups, processed, group);
    DisjointGrow(g, groups, processed, group);
    CoverGrow(groups, processed, group);
  }

  lemma GroupsGrow<T>(g: Conn<T>, groups: seq<set<T>>, processed: set<T>, group: set<T>)
    requires GroupsWithin(g, groups, processed) && IsGroup(g, group)
    ensures GroupsWithin(g, groups + [group], processed + group)
  {
    var groups' := groups + [group];
    forall m | 0 <= m < |groups'|
      ensures GroupWithin(g, groups', processed + group, m)
    {
      if m < |groups| {
        assert GroupWithin(g, groups, processed, m);
        assert groups'[m] == groups[m];
      } else {
        assert groups'[m] == group;
      }
    }
  }

  lemma DisjointGrow<T>(g: Conn<T>, groups: seq<set<T>>, processed: set<T>, group: set<T>)
    requires PairwiseDisjoint(groups) && GroupsWithin(g, groups, processed)
    requires group !! processed
    ensures PairwiseDisjoint(groups + [group])
  {
    var groups' := groups + [group];
    forall m, n | 0 <= m < n < |groups'|
      ensures DisjointAt(groups', m, n)
    {
      assert GroupWithin(g, groups, processed, m);
      assert groups'[m] == groups[m] && groups[m] <= processed;
      if n < |groups| {
        assert DisjointAt(groups, m, n);
        assert groups'[n] == groups[n];
      } else {
        assert groups'[n] == group;
      }
    }
  }

  lemma CoverGrow<T>(groups: seq<set<T>>, processed: set<T>, group: set<T>)
    requires Covers(groups, processed)
    ensures Covers(groups + [group], processed + group)
  {
    var groups' := groups + [group];
    forall r | r in processed + group
      ensures InSomeGroup(groups', r)
    {
      if r in group {
        assert groups'[|groups|] == group;
      } else {
        assert InSomeGroup(groups, r);
        var m :| 0 <= m < |groups| && r in groups[m];
        assert groups'[m] == groups[m];
      }
    }
  }

  /** validateConnectivity: false without rooms; otherwise a breadth-first
      search from the first room, and true iff it reaches as many rooms as
      there are: exactly when every room is reachable from the first. */
  method ValidateConnectivity<T>(g: Conn<T>, rooms: seq<T>) returns (ok: bool)
    requires Bidirectional(g) && g.Keys == (set r | r in rooms) && Distinct(rooms)
    ensures ok <==> rooms != [] && forall r :: r in g ==> Reachable(g, rooms[0], r)
  {
    if rooms == [] {
      return false;
    }
    BidirectionalClosed(g);
    assert rooms[0] in rooms;
    assert rooms[0] in g;
    var reachable, _ := Explore(g, rooms[0], {});
    ExploredComponent(g, rooms[0], {}, reachable);
    DistinctCard(rooms);
    ok := |reachable| == |rooms|;
    if ok {
      if reachable != g.Keys {
        ProperSubsetCard(reachable, g.Keys);
      }
      assert reachable == g.Keys;
    } else {
      assert reachable != g.Keys;
      var r :| r in g.Keys && r !in reachable;
      assert !Reachable(g, rooms[0], r);
    }
  }

  /** isConnected: whether some connection of room1 leads to room2. */
  method IsConnected<T>(g: Conn<T>, room1: T, room2: T) returns (b: bool)
    requires room1 in g
    ensures b <==> room2 in g[room1].Values
  {
    var rest := g[room1].Values;
    while rest != {}
      invariant rest <= g[room1].Values
      invariant room2 !in g[room1].Values - rest
    {
      var c :| c in rest;
      if c == room2 {
        return true;
      }
      rest := rest - {c};
    }
    return false;
  }

  /** a of main and b of current may be joined on the wall d, and no
      admissible pair of the two groups is closer. */
  ghost predicate BestPair(conn: Conn<Room>, leaves: seq<Leaf<Room>>, main: set<Room>, current: set<Room>,
                           p: (Room, Direction, Room))
  {
    var (a, d, b) := p;
    a in main && b in current && Admissible(conn, leaves, a, b) &&
    d == RepairDirections(RoomCentre(leaves, a).value, RoomCentre(leaves, b).value).0 &&
    PairDistance(leaves, a, b) < IntMax &&
    forall x, y :: x in main && y in current && Admissible(conn, leaves, x, y) ==>
      PairDistance(leaves, a, b) <= PairDistance(leaves, x, y)
  }

  /** No admissible pair of the two groups is closer than IntMax. */
  ghost predicate NoPair(conn: Conn<Room>, leaves: seq<Leaf<Room>>, main: set<Room>, current: set<Room>)
  {
    forall x, y :: x in main && y in current && Admissible(conn, leaves, x, y) ==> PairDistance(leaves, x, y) >= IntMax
  }

  /** The best pair found so far and its distance: none and IntMax, or an
      admissible pair of main and current on the wall the rule picks, at
      that distance, below IntMax. */
  ghost predicate PairSoFar(conn: Conn<Room>, leaves: seq<Leaf<Room>>, main: set<Room>, current: set<Room>,
                            best: Option<(Room, Direction, Room)>, dist: int)
  {
    (best.None? ==> dist == IntMax) &&
    (best.Some? ==>
       var (a, d, b) := best.value;
       a in main && b in current && Admissible(conn, leaves, a, b) &&
       d == RepairDirections(RoomCentre(leaves, a).value, RoomCentre(leaves, b).value).0 &&
       PairDistance(leaves, a, b) == dist < IntMax)
  }

  /** One step of the pair search: the pair a, b replaces the best so far
      when both rooms have a leaf centre, fewer than MaxDoors connections,
      free slots on the walls the rule picks, and a distance below dist. */
  function Consider(conn: Conn<Room>, leaves: seq<Leaf<Room>>, a: Room, b: Room,
                    best: Option<(Room, Direction, Room)>, dist: int): (r: (Option<(Room, Direction, Room)>, int))
    requires a in conn && b in conn
  {
    if RoomCentre(leaves, a).None? || RoomCentre(leaves, b).None? then (best, dist)
    else
      var ca, cb := RoomCentre(leaves, a).value, RoomCentre(leaves, b).value;
      var distance := SquaredDistance(ca, cb);
      if |conn[a]| >= MaxDoors || |conn[b]| >= MaxDoors then (best, dist)
      else
        var ds := RepairDirections(ca, cb);
        if ds.0 !in conn[a] && ds.1 !in conn[b] && distance < dist then (Some((a, ds.0, b)), distance)
        else (best, dist)
  }

  /** A step of the search from room a keeps the best pair so far, never
      raises its distance and leaves no admissible pair of a with the rooms
      looked at closer. */
  lemma ConsiderKeeps(conn: Conn<Room>, leaves: seq<Leaf<Room>>, main: set<Room>, current: set<Room>,
                      a: Room, b: Room, done: set<Room>, best: Option<(Room, Direction, Room)>, dist: int, dist0: int)
    requires a in main && b in current && main <= conn.Keys && current <= conn.Keys
    requires PairSoFar(conn, leaves, main, current, best, dist) && dist <= dist0
    requires Beats(conn, leaves, {a}, done, dist)
    ensures var (best', dist') := Consider(conn, leaves, a, b, best, dist);
      PairSoFar(conn, leaves, main, current, best', dist') && dist' <= dist0 &&
      Beats(conn, leaves, {a}, done + {b}, dist')
  {
  }

  /** No admissible pair of xs and ys is closer than dist. */
  ghost predicate Beats(conn: Conn<Room>, leaves: seq<Leaf<Room>>, xs: set<Room>, ys: set<Room>, dist: int)
  {
    forall x, y :: x in xs && y in ys && Admissible(conn, leaves, x, y) ==> dist <= PairDistance(leaves, x, y)
  }

  /** A candidate no admissible pair beats is the best pair, and no
      candidate at all means no admissible pair below IntMax. */
  lemma PairChosen(conn: Conn<Room>, leaves: seq<Leaf<Room>>, main: set<Room>, current: set<Room>,
                        best: Option<(Room, Direction, Room)>, dist: int)
    requires PairSoFar(conn, leaves, main, current, best, dist) && Beats(conn, leaves, main, current, dist)
    ensures best.Some? ==> BestPair(conn, leaves, main, current, best.value)
    ensures best.None? ==> NoPair(conn, leaves, main, current)
  {
  }

  /** Beating the pairs with a superset of ys beats those with ys. */
  lemma BeatsMore(conn: Conn<Room>, leaves: seq<Leaf<Room>>, xs: set<Room>, ys: set<Room>, ys': set<Room>, dist: int)
    requires Beats(conn, leaves, xs, ys, dist) && ys' <= ys
    ensures Beats(conn, leaves, xs, ys', dist)
  {
  }

  /** A row of the search done: the pairs of x beat too. */
  lemma BeatsGrow(conn: Conn<Room>, leaves: seq<Leaf<Room>>, xs: set<Room>, x: Room, ys: set<Room>, dist: int, dist': int)
    requires Beats(conn, leaves, xs, ys, dist) && dist' <= dist && Beats(conn, leaves, {x}, ys, dist')
    ensures Beats(conn, leaves, xs + {x}, ys, dist')
  {
  }

  /** Every half h adds to g0 leads to a room its origin had no connection
      to in g0. */
  ghost predicate NewApart(g0: Conn<Room>, h: Conn<Room>)
  {
    forall a, d :: a in h && d in h[a] && Added(g0, h, a, d) ==> a in g0 && h[a][d] !in g0[a].Values
  }

  /** One extra connection: two distinct rooms with fewer than MaxDoors
      connections, free slots and no connection between them; linking them
      keeps the bound and every new half between rooms apart in g0. */
  lemma ExtraLink(g0: Conn<Room>, g: Conn<Room>, a: Room, d: Direction, b: Room)
    requires Extends(g0, g) && Bidirectional(g) && WithinBound(g0, g) && NewApart(g0, g)
    requires a in g && b in g && a != b && d !in g[a] && Opposite(d) !in g[b]
    requires |g[a]| < MaxDoors && |g[b]| < MaxDoors && b !in g[a].Values
    ensures var h := Link(g, a, d, b);
      Extends(g0, h) && WithinBound(g0, h) && NewApart(g0, h)
  {
    var h := Link(g, a, d, b);
    LinkExtends(g, a, d, b);
    ExtendsTrans(g0, g, h);
    LinkBound(g0, g, a, d, b);
    assert a !in g[b].Values;
    forall x, e | x in h && e in h[x] && Added(g0, h, x, e)
      ensures x in g0 && h[x][e] !in g0[x].Values
    {
      if x == a && e == d {
        assert g0[a].Values <= g[a].Values by {
          forall y | y in g0[a].Values
            ensures y in g[a].Values
          {
            var f :| f in g0[a] && g0[a][f] == y;
          }
        }
      } else if x == b && e == Opposite(d) {
        assert g0[b].Values <= g[b].Values by {
          forall y | y in g0[b].Values
            ensures y in g[b].Values
          {
            var f :| f in g0[b] && g0[b][f] == y;
          }
        }
      } else {
        assert e in g[x] && h[x][e] == g[x][e];
        assert Added(g0, g, x, e);
      }
    }
  }
}
