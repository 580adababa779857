/** The binary space partition the generator lays rooms out with. Leaves are
    integer rectangles kept in one list in creation order; a split leaf
    records the list positions of its two children, which tile it. */
module Bsp {
  import opened Options
  import opened Doors

  /** The dungeon area: the window minus the two UI bands. */
  const AreaWidth: int := 1024
  const AreaHeight: int := 768 - 50 - 20
  const TargetLeafCount: nat := 8

  datatype Leaf<R> = Leaf(x: int, y: int, width: int, height: int,
                          kids: Option<(nat, nat)>,
                          room: Option<R>, roomCenter: Option<(int, int)>)

  /** The BSPLeaf constructor: no children, no room. */
  function NewLeaf<R>(x: int, y: int, width: int, height: int): Leaf<R>
  {
    Leaf(x, y, width, height, None, None, None)
  }

  function RootLeaf<R>(): Leaf<R>
  {
    NewLeaf(0, 0, AreaWidth, AreaHeight)
  }

  /** A leaf narrower than a sixth of the area or lower than a sixth of it is
      never offered for splitting. */
  predicate TooSmall<R>(l: Leaf<R>)
  {
    l.width < AreaWidth / 6 || l.height < AreaHeight / 6
  }

  /** The split orientation: a leaf more than 1.25 times wider than tall is
      cut vertically, one more than 1.25 times taller than wide horizontally,
      and the coin decides otherwise. On integers the 1.25 test is exact. */
  function IsHorizontal<R>(l: Leaf<R>, coin: bool): (h: bool)
    ensures h == if 4 * l.width > 5 * l.height then false
                 else if 4 * l.height > 5 * l.width then true
                 else coin
  {
    if l.width as real > l.height as real * 1.25 then false
    else if l.height as real > l.width as real * 1.25 then true
    else coin
  }

  /** The smallest child length along the cut: an eighth of the area's
      height for a horizontal cut, of its width for a vertical one. */
  function MinSize(horizontal: bool): int
  {
    if horizontal then AreaHeight / 8 else AreaWidth / 8
  }

  /** The length a cut of the given orientation divides. */
  function CutLength<R>(l: Leaf<R>, horizontal: bool): int
  {
    if horizontal then l.height else l.width
  }

  /** off is a possible value of the 30%..70% draw for a cut of length len:
      an integer between the integer parts of 0.3 * len and 0.7 * len. */
  predicate OffsetFits(len: int, off: int)
  {
    3 * len - 9 <= 10 * off <= 7 * len
  }

  /** splitLeaf accepts the leaf: it is not split yet and the cut length
      leaves more than MinSize after removing MinSize. */
  predicate CanSplit<R>(l: Leaf<R>, coin: bool)
  {
    var h := IsHorizontal(l, coin);
    l.kids.None? && CutLength(l, h) - MinSize(h) > MinSize(h)
  }

  /** c1 and c2 tile p: a horizontal cut keeps x and width and stacks the
      children, a vertical cut keeps y and height and places them side by
      side; both children have positive size. */
  predicate Tiles<R>(p: Leaf<R>, horizontal: bool, c1: Leaf<R>, c2: Leaf<R>)
  {
    c1.width > 0 && c1.height > 0 && c2.width > 0 && c2.height > 0 &&
    c1.x == p.x && c1.y == p.y &&
    if horizontal then
      c2.x == p.x && c1.width == p.width && c2.width == p.width &&
      c2.y == p.y + c1.height && c1.height + c2.height == p.height
    else
      c2.y == p.y && c1.height == p.height && c2.height == p.height &&
      c2.x == p.x + c1.width && c1.width + c2.width == p.width
  }

  /** The children splitLeaf creates for a cut at offset off. */
  function Children<R>(l: Leaf<R>, horizontal: bool, off: int): (Leaf<R>, Leaf<R>)
  {
    if horizontal then
      (NewLeaf(l.x, l.y, l.width, off), NewLeaf(l.x, l.y + off, l.width, l.height - off))
    else
      (NewLeaf(l.x, l.y, off, l.height), NewLeaf(l.x + off, l.y, l.width - off, l.height))
  }

  /** splitLeaf on one leaf: refuses a split leaf and a leaf too short along
      the chosen cut; otherwise returns two fresh children that tile it. */
  function Split<R>(l: Leaf<R>, coin: bool, off: int): (r: Option<(Leaf<R>, Leaf<R>)>)
    requires OffsetFits(CutLength(l, IsHorizontal(l, coin)), off)
    ensures r.Some? <==> CanSplit(l, coin)
    ensures r.Some? ==>
      (l.width > 0 && l.height > 0 ==> Tiles(l, IsHorizontal(l, coin), r.value.0, r.value.1)) &&
      r.value.0.kids.None? && r.value.1.kids.None? &&
      r.value.0.room.None? && r.value.1.room.None?
  {
    var h := IsHorizontal(l, coin);
    var m := MinSize(h);
    if l.kids.Some? then None
    else if CutLength(l, h) - m <= m then None
    else Some(Children(l, h, off))
  }

  /** The children of the split leaf i exist after it in the list, next to
      each other, and tile it. */
  ghost predicate ChildrenOk<R>(leaves: seq<Leaf<R>>, i: nat)
    requires i < |leaves| && leaves[i].kids.Some?
  {
    var (a, b) := leaves[i].kids.value;
    i < a && b == a + 1 && b < |leaves| &&
    (Tiles(leaves[i], true, leaves[a], leaves[b]) || Tiles(leaves[i], false, leaves[a], leaves[b]))
  }

  /** The shape of the leaf list: the root first, every leaf of positive
      size, every split leaf tiled by its children. */
  ghost predicate TreeValid<R>(leaves: seq<Leaf<R>>)
  {
    |leaves| > 0 &&
    leaves[0].x == 0 && leaves[0].y == 0 &&
    leaves[0].width == AreaWidth && leaves[0].height == AreaHeight &&
    (forall i :: 0 <= i < |leaves| ==> leaves[i].width > 0 && leaves[i].height > 0) &&
    forall i {:trigger leaves[i].kids} :: 0 <= i < |leaves| && leaves[i].kids.Some? ==> ChildrenOk(leaves, i)
  }

  /** a and b hold the same rectangles and the same children; only rooms
      may differ. */
  predicate SameShape<R>(a: seq<Leaf<R>>, b: seq<Leaf<R>>)
  {
    |a| == |b| &&
    forall k :: 0 <= k < |a| ==>
      a[k].x == b[k].x && a[k].y == b[k].y && a[k].width == b[k].width &&
      a[k].height == b[k].height && a[k].kids == b[k].kids
  }

  /** Rooms do not affect the shape of the tree. */
  lemma ShapeKeepsTree<R>(a: seq<Leaf<R>>, b: seq<Leaf<R>>)
    requires TreeValid(a) && SameShape(a, b)
    ensures TreeValid(b)
  {
    forall i | 0 <= i < |b| && b[i].kids.Some?
      ensures ChildrenOk(b, i)
    {
      assert ChildrenOk(a, i);
    }
  }

  /** Rooms do not change the terminal count. */
  lemma {:induction false} ShapeKeepsTerminals<R>(a: seq<Leaf<R>>, b: seq<Leaf<R>>)
    requires SameShape(a, b)
    ensures Terminals(a) == Terminals(b)
    decreases |a|
  {
    if a != [] {
      var n := |a| - 1;
      assert SameShape(a[..n], b[..n]) by {
        forall k | 0 <= k < n
          ensures a[..n][k] == a[k] && b[..n][k] == b[k]
        {
        }
      }
      ShapeKeepsTerminals(a[..n], b[..n]);
    }
  }

  /** A well-formed tree has a terminal leaf: children always come after
      their parent, so the last leaf has none. */
  lemma SomeTerminal<R>(leaves: seq<Leaf<R>>)
    requires TreeValid(leaves)
    ensures Terminals(leaves) >= 1
  {
    assert leaves[|leaves| - 1].kids.None?;
  }

  /** No leaf holds a room yet. */
  predicate Unfurnished<R>(leaves: seq<Leaf<R>>)
  {
    forall k :: 0 <= k < |leaves| ==> leaves[k].room.None? && leaves[k].roomCenter.None?
  }

  /** The list after splitting leaf i into c1 and c2. */
  function AfterSplit<R>(leaves: seq<Leaf<R>>, i: nat, c1: Leaf<R>, c2: Leaf<R>): seq<Leaf<R>>
    requires i < |leaves|
  {
    leaves[i := leaves[i].(kids := Some((|leaves|, |leaves| + 1)))] + [c1, c2]
  }

  /** A split keeps the shape of the list. */
  lemma SplitKeepsTree<R>(leaves: seq<Leaf<R>>, i: nat, horizontal: bool, c1: Leaf<R>, c2: Leaf<R>)
    requires TreeValid(leaves) && i < |leaves| && leaves[i].kids.None?
    requires Tiles(leaves[i], horizontal, c1, c2) && c1.kids.None? && c2.kids.None?
    ensures TreeValid(AfterSplit(leaves, i, c1, c2))
  {
    var s := AfterSplit(leaves, i, c1, c2);
    forall j | 0 <= j < |s|
      ensures s[j].width > 0 && s[j].height > 0 && (s[j].kids.Some? ==> ChildrenOk(s, j))
    {
      if j < |leaves| && j != i {
        assert s[j] == leaves[j];
        if s[j].kids.Some? {
          assert ChildrenOk(leaves, j);
          var (a, b) := leaves[j].kids.value;
          assert b < |leaves|;
          // only the kids of leaf i change, and Tiles reads positions and sizes
          assert s[a].x == leaves[a].x && s[a].y == leaves[a].y;
          assert s[a].width == leaves[a].width && s[a].height == leaves[a].height;
          assert s[b].x == leaves[b].x && s[b].y == leaves[b].y;
          assert s[b].width == leaves[b].width && s[b].height == leaves[b].height;
        }
      }
    }
  }

  /** The number of leaves without children. */
  function Terminals<R>(leaves: seq<Leaf<R>>): nat
  {
    if leaves == [] then 0
    else Terminals(leaves[..|leaves| - 1]) + (if leaves[|leaves| - 1].kids.None? then 1 else 0)
  }

  /** Giving one childless leaf children removes one terminal. */
  lemma {:induction false} TerminalsUpdate<R>(leaves: seq<Leaf<R>>, i: nat, v: Leaf<R>)
    requires i < |leaves| && leaves[i].kids.None? && v.kids.Some?
    ensures Terminals(leaves[i := v]) + 1 == Terminals(leaves)
    decreases |leaves|
  {
    var s := leaves[i := v];
    var n := |leaves| - 1;
    if i == n {
      assert s[..n] == leaves[..n];
    } else {
      assert s[..n] == leaves[..n][i := v];
      TerminalsUpdate(leaves[..n], i, v);
    }
  }

  /** A successful split adds exactly one terminal: the split leaf stops
      being one and its two children are. */
  lemma SplitAddsOne<R>(leaves: seq<Leaf<R>>, i: nat, c1: Leaf<R>, c2: Leaf<R>)
    requires i < |leaves| && leaves[i].kids.None? && c1.kids.None? && c2.kids.None?
    ensures Terminals(AfterSplit(leaves, i, c1, c2)) == Terminals(leaves) + 1
  {
    var u := leaves[i := leaves[i].(kids := Some((|leaves|, |leaves| + 1)))];
    TerminalsUpdate(leaves, i, u[i]);
    var s := u + [c1, c2];
    assert s[..|s| - 1] == u + [c1];
    assert (u + [c1])[..|u|] == u;
  }

  /** The positions of the childless leaves, in list order. */
  function TerminalIndices<R>(leaves: seq<Leaf<R>>): (t: seq<nat>)
    ensures |t| == Terminals(leaves)
    ensures forall k :: 0 <= k < |t| ==> t[k] < |leaves| && leaves[t[k]].kids.None?
    ensures forall k, m :: 0 <= k < m < |t| ==> t[k] < t[m]
    ensures forall i :: 0 <= i < |leaves| && leaves[i].kids.None? ==> i in t
  {
    if leaves == [] then []
    else
      var n := |leaves| - 1;
      var rest := TerminalIndices(leaves[..n]);
      assert forall k :: 0 <= k < |rest| ==> rest[k] < n && leaves[rest[k]] == leaves[..n][rest[k]];
      assert forall i :: 0 <= i < n ==> leaves[i] == leaves[..n][i];
      rest + (if leaves[n].kids.None? then [n] else [])
  }

  /** j is i or lies in the subtree below i. */
  ghost predicate Descendant<R>(leaves: seq<Leaf<R>>, i: nat, j: nat)
    decreases |leaves| - i
  {
    i < |leaves| && j < |leaves| &&
    (j == i ||
     (leaves[i].kids.Some? &&
      var (a, b) := leaves[i].kids.value;
      i < a < |leaves| && i < b < |leaves| &&
      (Descendant(leaves, a, j) || Descendant(leaves, b, j))))
  }

  /** a lies within b. */
  predicate Inside<R>(a: Leaf<R>, b: Leaf<R>)
  {
    b.x <= a.x && a.x + a.width <= b.x + b.width &&
    b.y <= a.y && a.y + a.height <= b.y + b.height
  }

  /** a and b share no interior point. */
  predicate Apart<R>(a: Leaf<R>, b: Leaf<R>)
  {
    a.x + a.width <= b.x || b.x + b.width <= a.x ||
    a.y + a.height <= b.y || b.y + b.height <= a.y
  }

  /** Every leaf of a subtree lies within the subtree's root. */
  lemma {:induction false} DescendantInside<R>(leaves: seq<Leaf<R>>, i: nat, j: nat)
    requires TreeValid(leaves) && Descendant(leaves, i, j)
    ensures j < |leaves| && Inside(leaves[j], leaves[i])
    decreases |leaves| - i
  {
    if j != i {
      assert ChildrenOk(leaves, i);
      var (a, b) := leaves[i].kids.value;
      if Descendant(leaves, a, j) {
        DescendantInside(leaves, a, j);
      } else {
        DescendantInside(leaves, b, j);
      }
    }
  }

  /** The two subtrees of a split leaf have no leaf in common. */
  lemma SubtreesDisjoint<R>(leaves: seq<Leaf<R>>, i: nat, j1: nat, j2: nat)
    requires TreeValid(leaves) && i < |leaves| && leaves[i].kids.Some?
    requires Descendant(leaves, leaves[i].kids.value.0, j1)
    requires Descendant(leaves, leaves[i].kids.value.1, j2)
    ensures j1 != j2
  {
    assert ChildrenOk(leaves, i);
    var (a, b) := leaves[i].kids.value;
    DescendantInside(leaves, a, j1);
    DescendantInside(leaves, b, j2);
    assert leaves[j1].width > 0 && leaves[j1].height > 0;
    assert Apart(leaves[a], leaves[b]);
  }

  /** findClosestRoomInSubtree: the room of the subtree's root if it has
      one, otherwise a room from the subtrees of its children; when both
      have one, coin(i) picks the first. */
  function FindClosestRoomInSubtree<R>(leaves: seq<Leaf<R>>, i: nat, coin: nat -> bool): (r: Option<R>)
    requires i < |leaves|
    decreases |leaves| - i
    ensures r.Some? ==> exists j: nat :: Descendant(leaves, i, j) && leaves[j].room == r
    ensures r.None? ==> forall j: nat :: Descendant(leaves, i, j) ==> leaves[j].room.None?
  {
    if leaves[i].room.Some? then leaves[i].room
    else if leaves[i].kids.None? then None
    else
      var (a, b) := leaves[i].kids.value;
      if !(i < a < |leaves| && i < b < |leaves|) then None
      else
        var left := FindClosestRoomInSubtree(leaves, a, coin);
        var right := FindClosestRoomInSubtree(leaves, b, coin);
        if left.None? then right
        else if right.None? then left
        else if coin(i) then left
        else right
  }

  /** The centre point of a leaf, with Java's integer halving. */
  function Centre<R>(l: Leaf<R>): (c: (int, int))
    ensures l.width >= 0 ==> l.x <= c.0 <= l.x + l.width
    ensures l.height >= 0 ==> l.y <= c.1 <= l.y + l.height
  {
    (l.x + Half(l.width), l.y + Half(l.height))
  }

  /** Squared distance of a point from the origin. Sorting by it orders the
      points exactly as sorting by the distance does. */
  function Dist2(c: (int, int)): int
  {
    c.0 * c.0 + c.1 * c.1
  }

  /** The position of the first leaf that holds room r. */
  function RoomLeaf<R(==)>(leaves: seq<Leaf<R>>, r: R): (k: Option<nat>)
    ensures k.Some? ==> k.value < |leaves| && leaves[k.value].room == Some(r) &&
                        forall j :: 0 <= j < k.value ==> leaves[j].room != Some(r)
    ensures k.None? ==> forall j :: 0 <= j < |leaves| ==> leaves[j].room != Some(r)
  {
    if leaves == [] then None
    else if leaves[0].room == Some(r) then Some(0)
    else
      var k := RoomLeaf(leaves[1..], r);
      assert forall j :: 1 <= j < |leaves| ==> leaves[j] == leaves[1..][j - 1];
      if k.Some? then Some(k.value + 1) else None
  }

  /** The recorded centre of room r's leaf. */
  function RoomCentre<R(==)>(leaves: seq<Leaf<R>>, r: R): Option<(int, int)>
  {
    match RoomLeaf(leaves, r)
    case None => None
    case Some(k) => leaves[k].roomCenter
  }
}
