/** The door graph: every node maps each of its used walls to the node behind
    it. Both halves of a connection are recorded, one in each endpoint. */
module Graphs {
  import opened Directions

  type Conn<T> = map<T, map<Direction, T>>

  /** Every recorded half has its partner: if a's wall d leads to b, then b's
      opposite wall leads back to a. */
  ghost predicate Bidirectional<T>(g: Conn<T>)
  {
    forall a, d :: a in g && d in g[a] ==> HalfMatched(g, a, d)
  }

  /** The half behind a's wall d has its partner: the node it leads to
      leads back to a through the opposite wall. */
  ghost predicate HalfMatched<T>(g: Conn<T>, a: T, d: Direction)
  {
    a in g && d in g[a] &&
    var b := g[a][d];
    b in g && Opposite(d) in g[b] && g[b][Opposite(d)] == a
  }

  ghost predicate NoSelfLoops<T>(g: Conn<T>)
  {
    forall a, d :: a in g && d in g[a] ==> g[a][d] != a
  }

  /** S is a set of nodes of g that no door leads out of. */
  ghost predicate Closed<T>(g: Conn<T>, S: set<T>)
  {
    S <= g.Keys && forall a, d :: a in S && d in g[a] ==> g[a][d] in S
  }

  /** h has the nodes of g and keeps every half of g. */
  ghost predicate Extends<T>(g: Conn<T>, h: Conn<T>)
  {
    h.Keys == g.Keys &&
    forall a, d :: a in g && d in g[a] ==> d in h[a] && h[a][d] == g[a][d]
  }

  /** The graph of the nodes ks with no connection at all. */
  function Unlinked<T>(ks: seq<T>): (g: Conn<T>)
    ensures g.Keys == set a | a in ks
    ensures forall a :: a in g ==> g[a] == map[]
  {
    map a | a in ks :: map[]
  }

  /** Adding a node to an unlinked graph keeps it unlinked. */
  lemma UnlinkedAppend<T>(ks: seq<T>, a: T)
    ensures Unlinked(ks + [a]) == Unlinked(ks)[a := map[]]
  {
  }

  /** A graph without connections is trivially bidirectional and loop-free. */
  lemma UnlinkedValid<T>(ks: seq<T>)
    ensures Bidirectional(Unlinked(ks)) && NoSelfLoops(Unlinked(ks))
  {
  }

  /** Both halves of a new connection: a's wall d leads to b and b's opposite
      wall leads to a. */
  function Link<T>(g: Conn<T>, a: T, d: Direction, b: T): Conn<T>
    requires a in g && b in g
  {
    g[a := g[a][d := b]][b := g[b][Opposite(d) := a]]
  }

  /** The three kinds of node of a linked graph: the two endpoints with
      their new slot, and everybody else unchanged. */
  lemma LinkShape<T>(g: Conn<T>, a: T, d: Direction, b: T)
    requires a in g && b in g && a != b
    ensures var h := Link(g, a, d, b);
      h.Keys == g.Keys && h[a] == g[a][d := b] && h[b] == g[b][Opposite(d) := a] &&
      forall c :: c in g && c != a && c != b ==> h[c] == g[c]
  {
  }

  /** A link through two free slots only adds: every old half is kept, the
      endpoints gain one half each and nobody else changes. */
  lemma LinkExtends<T>(g: Conn<T>, a: T, d: Direction, b: T)
    requires a in g && b in g && a != b && d !in g[a] && Opposite(d) !in g[b]
    ensures var h := Link(g, a, d, b);
      Extends(g, h) && |h[a]| == |g[a]| + 1 && |h[b]| == |g[b]| + 1 &&
      forall c :: c in g && c != a && c != b ==> h[c] == g[c]
  {
    var h := Link(g, a, d, b);
    LinkShape(g, a, d, b);
    forall x, e | x in g && e in g[x]
      ensures e in h[x] && h[x][e] == g[x][e]
    {
      if x == a {
        assert e != d;
      } else if x == b {
        assert e != Opposite(d);
      }
    }
  }

  /** Linking two distinct nodes through two free slots keeps the graph
      bidirectional and loop-free, only adds, raises the degree of both
      endpoints by one and leaves every other node alone. */
  lemma LinkKeeps<T>(g: Conn<T>, a: T, d: Direction, b: T)
    requires Bidirectional(g) && NoSelfLoops(g)
    requires a in g && b in g && a != b
    requires d !in g[a] && Opposite(d) !in g[b]
    ensures var h := Link(g, a, d, b);
      Bidirectional(h) && NoSelfLoops(h) && Extends(g, h) &&
      h[a][d] == b && h[b][Opposite(d)] == a &&
      |h[a]| == |g[a]| + 1 && |h[b]| == |g[b]| + 1 &&
      forall c :: c in g && c != a && c != b ==> h[c] == g[c]
  {
    LinkExtends(g, a, d, b);
    LinkMatched(g, a, d, b);
    LinkNoLoops(g, a, d, b);
  }

  lemma LinkNoLoops<T>(g: Conn<T>, a: T, d: Direction, b: T)
    requires NoSelfLoops(g) && a in g && b in g && a != b
    ensures NoSelfLoops(Link(g, a, d, b))
  {
    LinkShape(g, a, d, b);
  }

  lemma LinkMatched<T>(g: Conn<T>, a: T, d: Direction, b: T)
    requires Bidirectional(g)
    requires a in g && b in g && a != b
    requires d !in g[a] && Opposite(d) !in g[b]
    ensures Bidirectional(Link(g, a, d, b))
  {
    var h := Link(g, a, d, b);
    LinkShape(g, a, d, b);
    OppositeInvolution(d);
    forall x, e | x in h && e in h[x]
      ensures HalfMatched(h, x, e)
    {
      if x == a && e == d {
      } else if x == b && e == Opposite(d) {
      } else {
        OldHalfMatched(g, a, d, b, x, e);
      }
    }
  }

  /** An old half keeps its partner after a link through two free slots:
      neither it nor its partner is one of the new slots. */
  lemma OldHalfMatched<T>(g: Conn<T>, a: T, d: Direction, b: T, x: T, e: Direction)
    requires Bidirectional(g)
    requires a in g && b in g && a != b
    requires d !in g[a] && Opposite(d) !in g[b]
    requires x in g && e in Link(g, a, d, b)[x]
    requires !(x == a && e == d) && !(x == b && e == Opposite(d))
    ensures HalfMatched(Link(g, a, d, b), x, e)
  {
    var h := Link(g, a, d, b);
    LinkShape(g, a, d, b);
    OppositeInvolution(d);
    assert e in g[x] && h[x][e] == g[x][e] by {
      if x == a {
        assert e != d;
      } else if x == b {
        assert e != Opposite(d);
      }
    }
    assert HalfMatched(g, x, e);
    var y := g[x][e];
    assert y in g && Opposite(e) in g[y] && g[y][Opposite(e)] == x;
    if y == a {
      assert Opposite(e) != d;
    } else if y == b {
      OppositeInjective(e, d);
      assert Opposite(e) != Opposite(d);
    }
  }

  /** A walk along doors. */
  ghost predicate IsPath<T>(g: Conn<T>, older p: seq<T>)
  {
    |p| > 0 &&
    (forall i :: 0 <= i < |p| ==> p[i] in g) &&
    (forall i :: 0 <= i < |p| - 1 ==> p[i + 1] in g[p[i]].Values)
  }

  ghost predicate Reachable<T>(g: Conn<T>, a: T, b: T)
  {
    exists p {:trigger IsPath(g, p)} :: IsPath(g, p) && p[0] == a && p[|p| - 1] == b
  }

  lemma ReachSelf<T>(g: Conn<T>, a: T)
    requires a in g
    ensures Reachable(g, a, a)
  {
    assert IsPath(g, [a]);
  }

  lemma ReachStep<T>(g: Conn<T>, a: T, b: T, c: T)
    requires Reachable(g, a, b) && b in g && c in g && c in g[b].Values
    ensures Reachable(g, a, c)
  {
    var p :| IsPath(g, p) && p[0] == a && p[|p| - 1] == b;
    var q := p + [c];
    assert forall i :: 0 <= i < |p| ==> q[i] == p[i];
    assert IsPath(g, q);
  }

  /** Nothing outside a closed set is reachable from inside it. */
  lemma {:induction false} ClosedReach<T>(g: Conn<T>, S: set<T>, a: T, b: T)
    requires Closed(g, S) && a in S && Reachable(g, a, b)
    ensures b in S
  {
    var p :| IsPath(g, p) && p[0] == a && p[|p| - 1] == b;
    var i := 0;
    while i < |p| - 1
      invariant 0 <= i < |p| && p[i] in S
    {
      assert p[i + 1] in g[p[i]].Values;
      i := i + 1;
    }
  }

  /** In a bidirectional graph, a set whose doors lead only into itself or
      into a closed set it is disjoint from is closed itself. */
  lemma NewGroupClosed<T>(g: Conn<T>, seen: set<T>, group: set<T>)
    requires Bidirectional(g) && Closed(g, seen)
    requires group <= g.Keys && group !! seen
    requires forall a :: a in group ==> g[a].Values <= seen + group
    ensures Closed(g, group) && Closed(g, seen + group)
  {
    forall a | a in group
      ensures g[a].Values <= group
    {
      forall b | b in g[a].Values
        ensures b in group
      {
        var d :| d in g[a] && g[a][d] == b;
        assert HalfMatched(g, a, d);
      }
    }
  }

  /** Breadth-first search from start over the nodes not yet in seen. */
  method Explore<T>(g: Conn<T>, start: T, seen: set<T>) returns (group: set<T>, seen': set<T>)
    requires forall a :: a in g ==> g[a].Values <= g.Keys
    requires start in g && start !in seen && seen <= g.Keys
    ensures start in group && group <= g.Keys && group !! seen && seen' == seen + group
    ensures forall a :: a in group ==> g[a].Values <= seen'
    ensures forall a :: a in group ==> Reachable(g, start, a)
  {
    group, seen' := {start}, seen + {start};
    var queue := [start];
    ReachSelf(g, start);
    SubsetCard(seen', g.Keys);
    while queue != []
      invariant group <= g.Keys && group !! seen && seen' == seen + group && start in group
      invariant |seen'| <= |g.Keys|
      invariant forall a :: a in queue ==> a in group
      invariant forall a :: a in group && a !in queue ==> g[a].Values <= seen'
      invariant forall a :: a in group ==> Reachable(g, start, a)
      decreases |g.Keys| - |seen'|, |queue|
    {
      var r := queue[0];
      queue := queue[1..];
      ghost var group0, seen0, queue0 := group, seen', queue;
      group, seen', queue := Visit(g, start, seen, r, group, seen', queue);
      forall a | a in group && a !in queue
        ensures g[a].Values <= seen'
      {
        assert a in group0 && a !in queue0;
      }
      SubsetCard(seen', g.Keys);
    }
  }

  /** The inner loop of the search: every node behind a door of r that is
      not in seen yet joins the group, seen and the end of the queue. */
  method Visit<T>(g: Conn<T>, start: T, seen: set<T>, r: T, group: set<T>, seen': set<T>, queue: seq<T>)
    returns (group': set<T>, seen'': set<T>, queue': seq<T>)
    requires forall a :: a in g ==> g[a].Values <= g.Keys
    requires group <= g.Keys && group !! seen && seen' == seen + group && r in group
    requires forall a :: a in group ==> Reachable(g, start, a)
    requires forall a :: a in queue ==> a in group
    ensures group <= group' <= g.Keys && group' !! seen && seen'' == seen + group'
    ensures |queue'| - |queue| == |seen''| - |seen'| >= 0
    ensures forall a :: a in queue ==> a in queue'
    ensures forall a :: a in queue' ==> a in group'
    ensures forall a :: a in group' && a !in group ==> a in queue'
    ensures g[r].Values <= seen''
    ensures forall a :: a in group' ==> Reachable(g, start, a)
  {
    group', seen'', queue' := group, seen', queue;
    var rest := g[r].Values;
    while rest != {}
      invariant rest <= g[r].Values
      invariant group <= group' <= g.Keys && group' !! seen && seen'' == seen + group'
      invariant |queue'| - |queue| == |seen''| - |seen'| >= 0
      invariant forall a :: a in queue ==> a in queue'
      invariant forall a :: a in queue' ==> a in group'
      invariant forall a :: a in group' && a !in group ==> a in queue'
      invariant g[r].Values - rest <= seen''
      invariant forall a :: a in group' ==> Reachable(g, start, a)
    {
      var c :| c in rest;
      rest := rest - {c};
      if c !in seen'' {
        ReachStep(g, start, r, c);
        queue' := queue' + [c];
        group' := group' + {c};
        seen'' := seen'' + {c};
      }
    }
  }

  /** In a bidirectional graph every door leads to a node of the graph. */
  lemma BidirectionalClosed<T>(g: Conn<T>)
    requires Bidirectional(g)
    ensures forall a :: a in g ==> g[a].Values <= g.Keys
  {
    forall a | a in g
      ensures g[a].Values <= g.Keys
    {
      forall b | b in g[a].Values
        ensures b in g
      {
        var d :| d in g[a] && g[a][d] == b;
        assert HalfMatched(g, a, d);
      }
    }
  }

  /** S is exactly the set of nodes reachable from s. */
  ghost predicate ComponentOf<T>(g: Conn<T>, s: T, S: set<T>)
  {
    forall a {:trigger Reachable(g, s, a)} :: a in g ==> (a in S <==> Reachable(g, s, a))
  }

  /** Walks stay inside the graph. */
  lemma ReachInGraph<T>(g: Conn<T>, a: T, b: T)
    requires Reachable(g, a, b)
    ensures a in g && b in g
  {
  }

  /** What a breadth-first search from start finds in a bidirectional graph,
      when the nodes it may not revisit form a closed set: a closed set, and
      exactly the nodes reachable from start. */
  lemma ExploredComponent<T>(g: Conn<T>, start: T, seen: set<T>, group: set<T>)
    requires Bidirectional(g) && Closed(g, seen)
    requires start in group && group <= g.Keys && group !! seen
    requires forall a :: a in group ==> g[a].Values <= seen + group
    requires forall a :: a in group ==> Reachable(g, start, a)
    ensures Closed(g, group) && Closed(g, seen + group) && ComponentOf(g, start, group)
  {
    NewGroupClosed(g, seen, group);
    forall a | a in g && Reachable(g, start, a)
      ensures a in group
    {
      ClosedReach(g, group, start, a);
    }
  }

  /** Extending is a preorder. */
  lemma ExtendsRefl<T>(g: Conn<T>)
    ensures Extends(g, g)
  {
  }

  lemma ExtendsTrans<T>(g: Conn<T>, h: Conn<T>, k: Conn<T>)
    requires Extends(g, h) && Extends(h, k)
    ensures Extends(g, k)
  {
  }

  /** A graph that keeps every half keeps every walk. */
  lemma ExtendsReach<T>(g: Conn<T>, h: Conn<T>, a: T, b: T)
    requires Extends(g, h) && Reachable(g, a, b)
    ensures Reachable(h, a, b)
  {
    var p :| IsPath(g, p) && p[0] == a && p[|p| - 1] == b;
    forall i | 0 <= i < |p| - 1
      ensures p[i + 1] in h[p[i]].Values
    {
      var d :| d in g[p[i]] && g[p[i]][d] == p[i + 1];
      assert h[p[i]][d] == p[i + 1];
    }
    assert IsPath(h, p);
  }

  /** The half behind a's wall d is in h but not in g. */
  ghost predicate Added<T>(g: Conn<T>, h: Conn<T>, a: T, d: Direction)
  {
    a in h && d in h[a] && !(a in g && d in g[a])
  }

  /** x and y lie in two different sets of the list. */
  ghost predicate Across<T>(groups: seq<set<T>>, x: T, y: T)
  {
    exists m, n :: 0 <= m < |groups| && 0 <= n < |groups| && m != n && x in groups[m] && y in groups[n]
  }

  /** No two of the sets share a node. */
  ghost predicate PairwiseDisjoint<T>(groups: seq<set<T>>)
  {
    forall m, n {:trigger DisjointAt(groups, m, n)} :: 0 <= m < n < |groups| ==> DisjointAt(groups, m, n)
  }

  ghost predicate DisjointAt<T>(groups: seq<set<T>>, m: int, n: int)
  {
    0 <= m < |groups| && 0 <= n < |groups| && groups[m] !! groups[n]
  }

  /** Nodes in two different closed, disjoint sets cannot reach each other. */
  lemma AcrossUnreachable<T>(g: Conn<T>, groups: seq<set<T>>, x: T, y: T)
    requires PairwiseDisjoint(groups) && forall m :: 0 <= m < |groups| ==> Closed(g, groups[m])
    requires Across(groups, x, y)
    ensures !Reachable(g, x, y)
  {
    var m, n :| 0 <= m < |groups| && 0 <= n < |groups| && m != n && x in groups[m] && y in groups[n];
    assert y !in groups[m] by {
      if m < n {
        assert DisjointAt(groups, m, n);
      } else {
        assert DisjointAt(groups, n, m);
      }
    }
    if Reachable(g, x, y) {
      ClosedReach(g, groups[m], x, y);
    }
  }

  /** A connected graph that h extends without joining any two nodes that
      were not already connected is h itself. */
  lemma ConnectedStaysPut<T>(g: Conn<T>, h: Conn<T>)
    requires Extends(g, h)
    requires forall a, b :: a in g && b in g ==> Reachable(g, a, b)
    requires forall a, d :: Added(g, h, a, d) ==> h[a][d] in g && !Reachable(g, a, h[a][d])
    ensures h == g
  {
    forall a | a in h
      ensures h[a] == g[a]
    {
      forall d | d in h[a]
        ensures d in g[a]
      {
        if d !in g[a] {
          assert Added(g, h, a, d);
        }
      }
    }
  }

  /** The number of recorded halves at the nodes ks. */
  function Degree<T>(g: Conn<T>, ks: seq<T>): nat
    requires forall k :: k in ks ==> k in g
  {
    if ks == [] then 0 else Degree(g, ks[..|ks| - 1]) + |g[ks[|ks| - 1]]|
  }

  /** One more half at one of the distinct nodes ks adds one to their
      degree. */
  lemma {:induction false} DegreeBump<T>(g: Conn<T>, h: Conn<T>, ks: seq<T>, c: T)
    requires forall k :: k in ks ==> k in g && k in h
    requires forall i, j :: 0 <= i < j < |ks| ==> ks[i] != ks[j]
    requires c in ks && |h[c]| == |g[c]| + 1
    requires forall k :: k in ks && k != c ==> |h[k]| == |g[k]|
    ensures Degree(h, ks) == Degree(g, ks) + 1
    decreases |ks|
  {
    var n := |ks| - 1;
    var init := ks[..n];
    assert forall k :: k in init ==> k in ks;
    if ks[n] == c {
      assert c !in init by {
        forall i | 0 <= i < n
          ensures init[i] != c
        {
          assert init[i] == ks[i];
        }
      }
      DegreeSame(g, h, init);
    } else {
      assert c in init by {
        var i :| 0 <= i < |ks| && ks[i] == c;
        assert i < n && init[i] == c;
      }
      forall i, j | 0 <= i < j < |init|
        ensures init[i] != init[j]
      {
        assert init[i] == ks[i] && init[j] == ks[j];
      }
      DegreeBump(g, h, init, c);
    }
  }

  lemma {:induction false} DegreeSame<T>(g: Conn<T>, h: Conn<T>, ks: seq<T>)
    requires forall k :: k in ks ==> k in g && k in h && |h[k]| == |g[k]|
    ensures Degree(h, ks) == Degree(g, ks)
    decreases |ks|
  {
    if ks != [] {
      var init := ks[..|ks| - 1];
      assert forall k :: k in init ==> k in ks;
      DegreeSame(g, h, init);
    }
  }

  /** A link through two free slots of distinct nodes among ks adds two
      halves. */
  lemma LinkDegree<T>(g: Conn<T>, a: T, d: Direction, b: T, ks: seq<T>)
    requires a in g && b in g && a != b && d !in g[a] && Opposite(d) !in g[b]
    requires forall k :: k in ks ==> k in g
    requires forall i, j :: 0 <= i < j < |ks| ==> ks[i] != ks[j]
    requires a in ks && b in ks
    ensures Degree(Link(g, a, d, b), ks) == Degree(g, ks) + 2
  {
    var g1 := g[a := g[a][d := b]];
    assert |g1[a]| == |g[a]| + 1;
    DegreeBump(g, g1, ks, a);
    var h := g1[b := g1[b][Opposite(d) := a]];
    assert g1[b] == g[b];
    DegreeBump(g1, h, ks, b);
  }
}
