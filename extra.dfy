/** addExtraConnections: after the repair, up to two more connections
    between randomly drawn rooms, each given at most MaxExtraAttempts draws. The
    draws are a parameter: picks(i, t) is the pair of room indices drawn in
    attempt t of extra connection i. */
module Extras {
  import opened Options
  import opened Directions
  import opened Rooms
  import opened Graphs
  import opened Bsp
  import opened Sorting
  import opened DungeonRules
  import opened Repair

  /** The draws one extra connection may take before it gives up. */
  const MaxExtraAttempts := 20

  /** Every room of the list is a node of g. */
  ghost predicate RoomsIn(g: Conn<Room>, rooms: seq<Room>)
  {
    forall r :: r in rooms ==> r in g
  }

  /** The draws of extra connection i stay inside the room list. */
  ghost predicate DrawsFit(picks: (nat, nat) -> (nat, nat), i: nat, n: nat)
  {
    forall t :: picks(i, t).0 < n && picks(i, t).1 < n
  }

  /** One attempt with the drawn indices i1 and i2: the link it makes, if
      any. It refuses equal indices, a room with MaxDoors connections
      already, rooms already connected, a room on no leaf, and walls the
      rule ExtraDirections picks that are taken. */
  function ExtraAttempt(g: Conn<Room>, rooms: seq<Room>, leaves: seq<Leaf<Room>>, i1: nat, i2: nat)
    : (r: Option<(Room, Direction, Room)>)
    requires i1 < |rooms| && i2 < |rooms| && RoomsIn(g, rooms)
    ensures r.Some? ==>
      var (a, d, b) := r.value;
      i1 != i2 && a == rooms[i1] && b == rooms[i2] &&
      |g[a]| < MaxDoors && |g[b]| < MaxDoors && b !in g[a].Values &&
      d !in g[a] && Opposite(d) !in g[b]
    ensures i1 == i2 ==> r.None?
  {
    if i1 == i2 then None
    else
      var a, b := rooms[i1], rooms[i2];
      assert a in rooms && b in rooms;
      if |g[a]| >= MaxDoors || |g[b]| >= MaxDoors then None
      else if b in g[a].Values then None
      else if RoomCentre(leaves, a).None? || RoomCentre(leaves, b).None? then None
      else
        var ds := ExtraDirections(RoomCentre(leaves, a).value, RoomCentre(leaves, b).value);
        if ds.0 !in g[a] && ds.1 !in g[b] then Some((a, ds.0, b)) else None
  }

  /** A link an attempt may make: rooms drawn at two different indices of
      the list, each with fewer than MaxDoors connections, not yet
      neighbours, on free walls. */
  ghost predicate Linkable(g: Conn<Room>, rooms: seq<Room>, p: (Room, Direction, Room))
  {
    var (a, d, b) := p;
    (exists j1, j2 :: 0 <= j1 < |rooms| && 0 <= j2 < |rooms| && j1 != j2 && rooms[j1] == a && rooms[j2] == b) &&
    a in g && b in g && |g[a]| < MaxDoors && |g[b]| < MaxDoors && b !in g[a].Values &&
    d !in g[a] && Opposite(d) !in g[b]
  }

  /** Extra connection i from attempt t on: the link of the first attempt
      that makes one, or none once MaxExtraAttempts are used up. */
  function FirstExtra(g: Conn<Room>, rooms: seq<Room>, leaves: seq<Leaf<Room>>,
                      picks: (nat, nat) -> (nat, nat), i: nat, t: nat): (r: Option<(Room, Direction, Room)>)
    requires RoomsIn(g, rooms) && DrawsFit(picks, i, |rooms|)
    ensures r.Some? ==> Linkable(g, rooms, r.value)
    ensures t >= MaxExtraAttempts ==> r.None?
    decreases MaxExtraAttempts - t
  {
    if t >= MaxExtraAttempts then None
    else
      var p := ExtraAttempt(g, rooms, leaves, picks(i, t).0, picks(i, t).1);
      if p.Some? then
        assert rooms[picks(i, t).0] in rooms && rooms[picks(i, t).1] in rooms;
        p
      else FirstExtra(g, rooms, leaves, picks, i, t + 1)
  }

  /** One attempt with the drawn indices i1 and i2, step by step: the
      checks of ExtraAttempt in the order the generator makes them. */
  method TryAttempt(g: Conn<Room>, rooms: seq<Room>, leaves: seq<Leaf<Room>>, i1: nat, i2: nat)
    returns (r: Option<(Room, Direction, Room)>)
    requires i1 < |rooms| && i2 < |rooms| && RoomsIn(g, rooms)
    ensures r == ExtraAttempt(g, rooms, leaves, i1, i2)
  {
    if i1 == i2 {
      return None;
    }
    var room1, room2 := rooms[i1], rooms[i2];
    assert room1 in rooms && room2 in rooms;
    if |g[room1]| >= MaxDoors || |g[room2]| >= MaxDoors {
      return None;
    }
    var linked := IsConnected(g, room1, room2);
    if linked {
      return None;
    }
    var c1, c2 := RoomCentre(leaves, room1), RoomCentre(leaves, room2);
    if c1.None? || c2.None? {
      return None;
    }
    var ds := ExtraDirections(c1.value, c2.value);
    if ds.0 !in g[room1] && ds.1 !in g[room2] {
      r := Some((room1, ds.0, room2));
    } else {
      r := None;
    }
  }

  /** The draws of extra connection i, up to MaxExtraAttempts of them,
      until an attempt links. */
  method FindFirstExtra(g: Conn<Room>, rooms: seq<Room>, leaves: seq<Leaf<Room>>,
                        picks: (nat, nat) -> (nat, nat), i: nat) returns (found: Option<(Room, Direction, Room)>)
    requires RoomsIn(g, rooms) && DrawsFit(picks, i, |rooms|)
    ensures found == FirstExtra(g, rooms, leaves, picks, i, 0)
  {
    var attempts: nat := 0;
    found := None;
    while attempts < MaxExtraAttempts
      invariant attempts <= MaxExtraAttempts && found.None?
      invariant FirstExtra(g, rooms, leaves, picks, i, attempts) == FirstExtra(g, rooms, leaves, picks, i, 0)
    {
      found := TryAttempt(g, rooms, leaves, picks(i, attempts).0, picks(i, attempts).1);
      if found.Some? {
        return;
      }
      attempts := attempts + 1;
    }
  }

  /** The rooms of a link drawn from a list without repeats differ. */
  lemma LinkableApart(g: Conn<Room>, rooms: seq<Room>, p: (Room, Direction, Room))
    requires Linkable(g, rooms, p) && Distinct(rooms)
    ensures p.0 != p.2 && p.0 in rooms && p.2 in rooms
  {
    var j1, j2 :| 0 <= j1 < |rooms| && 0 <= j2 < |rooms| && j1 != j2 && rooms[j1] == p.0 && rooms[j2] == p.2;
    if j1 < j2 {
      assert rooms[j1] != rooms[j2];
    } else {
      assert rooms[j2] != rooms[j1];
    }
  }

  /** Extra connection i: g with the link of its first successful
      attempt, if any. */
  function ExtraTries(g: Conn<Room>, rooms: seq<Room>, leaves: seq<Leaf<Room>>,
                      picks: (nat, nat) -> (nat, nat), i: nat): (h: Conn<Room>)
    requires RoomsIn(g, rooms) && Distinct(rooms) && DrawsFit(picks, i, |rooms|)
    ensures h.Keys == g.Keys
  {
    match FirstExtra(g, rooms, leaves, picks, i, 0)
    case None => g
    case Some((a, d, b)) => Link(g, a, d, b)
  }

  /** h is g with the link found, if any, between two distinct rooms of g
      on free walls. */
  ghost predicate Installs(g: Conn<Room>, found: Option<(Room, Direction, Room)>, h: Conn<Room>)
  {
    (found.None? ==> h == g) &&
    (found.Some? ==>
      var (a, d, b) := found.value;
      a in g && b in g && a != b && d !in g[a] && Opposite(d) !in g[b] && h == Link(g, a, d, b))
  }

  /** The first link found is the one extra connection i installs. */
  lemma FirstInstalls(g: Conn<Room>, rooms: seq<Room>, leaves: seq<Leaf<Room>>,
                      picks: (nat, nat) -> (nat, nat), i: nat)
    requires RoomsIn(g, rooms) && Distinct(rooms) && DrawsFit(picks, i, |rooms|)
    ensures Installs(g, FirstExtra(g, rooms, leaves, picks, i, 0), ExtraTries(g, rooms, leaves, picks, i))
  {
    var r := FirstExtra(g, rooms, leaves, picks, i, 0);
    if r.Some? {
      LinkableApart(g, rooms, r.value);
    }
  }

  /** Extra connections i to n - 1, one after the other. */
  function ExtraPhase(g: Conn<Room>, rooms: seq<Room>, leaves: seq<Leaf<Room>>,
                      picks: (nat, nat) -> (nat, nat), i: nat, n: nat): (h: Conn<Room>)
    requires RoomsIn(g, rooms) && Distinct(rooms) && forall j :: DrawsFit(picks, j, |rooms|)
    ensures h.Keys == g.Keys
    decreases n - i
  {
    if i >= n then g
    else ExtraPhase(ExtraTries(g, rooms, leaves, picks, i), rooms, leaves, picks, i + 1, n)
  }

  /** What the extra phase keeps of the graph it started from, g0: the
      halves of g0, the door bound, the symmetry and the absence of loops,
      and new halves only between rooms that were not neighbours in g0. */
  ghost predicate ExtraSound(g0: Conn<Room>, g: Conn<Room>)
  {
    Extends(g0, g) && Bidirectional(g) && NoSelfLoops(g) && WithinBound(g0, g) && NewApart(g0, g)
  }

  /** One extra connection keeps the phase sound and adds at most one
      connection, two halves, to the rooms' degree. */
  lemma ExtraTriesKeep(g0: Conn<Room>, g: Conn<Room>, rooms: seq<Room>, leaves: seq<Leaf<Room>>,
                       picks: (nat, nat) -> (nat, nat), i: nat)
    requires RoomsIn(g, rooms) && DrawsFit(picks, i, |rooms|) && Distinct(rooms)
    requires ExtraSound(g0, g)
    ensures var h := ExtraTries(g, rooms, leaves, picks, i);
      ExtraSound(g0, h) && Degree(h, rooms) <= Degree(g, rooms) + 2
  {
    var r := FirstExtra(g, rooms, leaves, picks, i, 0);
    if r.Some? {
      var (a, d, b) := r.value;
      LinkableApart(g, rooms, r.value);
      ExtraLinkSound(g0, g, rooms, a, d, b);
    }
  }

  /** One link between distinct unconnected rooms with free slots and
      fewer than MaxDoors connections keeps the phase sound and adds two
      halves. */
  lemma ExtraLinkSound(g0: Conn<Room>, g: Conn<Room>, rooms: seq<Room>, a: Room, d: Direction, b: Room)
    requires ExtraSound(g0, g) && RoomsIn(g, rooms) && Distinct(rooms)
    requires a in rooms && b in rooms && a != b && d !in g[a] && Opposite(d) !in g[b]
    requires |g[a]| < MaxDoors && |g[b]| < MaxDoors && b !in g[a].Values
    ensures var h := Link(g, a, d, b);
      ExtraSound(g0, h) && Degree(h, rooms) == Degree(g, rooms) + 2
  {
    ExtraLink(g0, g, a, d, b);
    LinkKeeps(g, a, d, b);
    LinkDegree(g, a, d, b, rooms);
  }

  /** Extra connections i to n - 1 keep the phase sound and add at most
      two halves each. */
  lemma {:induction false} ExtraPhaseKeep(g0: Conn<Room>, g: Conn<Room>, rooms: seq<Room>, leaves: seq<Leaf<Room>>,
                                          picks: (nat, nat) -> (nat, nat), i: nat, n: nat)
    requires RoomsIn(g, rooms) && (forall j :: DrawsFit(picks, j, |rooms|)) && Distinct(rooms)
    requires ExtraSound(g0, g) && i <= n
    ensures var h := ExtraPhase(g, rooms, leaves, picks, i, n);
      ExtraSound(g0, h) && Degree(h, rooms) <= Degree(g, rooms) + 2 * (n - i)
    decreases n - i
  {
    if i < n {
      var g1 := ExtraTries(g, rooms, leaves, picks, i);
      ExtraTriesKeep(g0, g, rooms, leaves, picks, i);
      assert RoomsIn(g1, rooms) by { assert g1.Keys == g.Keys; }
      ExtraPhaseKeep(g0, g1, rooms, leaves, picks, i + 1, n);
      assert ExtraPhase(g, rooms, leaves, picks, i, n) == ExtraPhase(g1, rooms, leaves, picks, i + 1, n);
    }
  }

  /** The phase starts sound on any bidirectional loop-free graph. */
  lemma ExtraStart(g: Conn<Room>)
    requires Bidirectional(g) && NoSelfLoops(g)
    ensures ExtraSound(g, g)
  {
    NothingAdded(g);
  }
}
