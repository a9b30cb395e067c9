/** Distances in the test network. The search records a node's distance every time the node is
    taken from the queue, not only the first time. */
module Distances {

  /** `nodes` listed nodes, and edges given as lists of (at least) two node numbers. */
  datatype Graph = Graph(nodes: nat, edges: seq<seq<nat>>) {
    predicate Valid() {
      forall e :: e in edges ==> |e| >= 2
    }
  }

  const UINT_MAX: nat := 0xFFFF_FFFF_FFFF_FFFF

  predicate Joins(e: seq<nat>, u: nat, v: nat)
    requires |e| >= 2
  {
    (e[0] == u && e[1] == v) || (e[1] == u && e[0] == v)
  }

  predicate Adjacent(g: Graph, u: nat, v: nat)
    requires g.Valid()
  {
    exists i :: 0 <= i < |g.edges| && Joins(g.edges[i], u, v)
  }

  /** Some walk of exactly n edges leads from u to v. */
  ghost predicate Walk(g: Graph, u: nat, v: nat, n: nat)
    requires g.Valid()
    decreases n
  {
    if n == 0 then u == v else exists w: nat :: Walk(g, u, w, n - 1) && Adjacent(g, w, v)
  }

  ghost predicate Reachable(g: Graph, u: nat, v: nat)
    requires g.Valid()
  {
    exists n: nat :: Walk(g, u, v, n)
  }

  /** The true distance: the length of a shortest walk; 0 where there is none. */
  ghost function Dist(g: Graph, u: nat, v: nat): (d: nat)
    requires g.Valid()
    ensures Reachable(g, u, v) ==> Walk(g, u, v, d)
    ensures forall k: nat :: Walk(g, u, v, k) ==> d <= k
  {
    if n: nat :| Walk(g, u, v, n) then Shortest(g, u, v, n) else 0
  }

  ghost function Shortest(g: Graph, u: nat, v: nat, n: nat): (d: nat)
    requires g.Valid() && Walk(g, u, v, n)
    ensures Walk(g, u, v, d) && forall k: nat :: Walk(g, u, v, k) ==> d <= k
    decreases n
  {
    if m: nat :| m < n && Walk(g, u, v, m) then Shortest(g, u, v, m) else n
  }

  lemma Extend(g: Graph, s: nat, u: nat, v: nat, n: nat)
    requires g.Valid() && Walk(g, s, u, n) && Adjacent(g, u, v)
    ensures Walk(g, s, v, n + 1)
  {
  }

  /** The nodes reached from s can be coloured so that no edge, loops aside, joins equal colours. */
  ghost predicate TwoColourable(g: Graph, s: nat)
    requires g.Valid()
  {
    exists colour: nat -> bool :: Colours(g, s, colour)
  }

  ghost predicate Colours(g: Graph, s: nat, colour: nat -> bool)
    requires g.Valid()
  {
    forall u: nat, v: nat :: Reachable(g, s, u) && Adjacent(g, u, v) && u != v ==> colour(u) != colour(v)
  }

  /** Two different neighbours at the same distance from s. */
  ghost predicate LevelEdge(g: Graph, s: nat, u: nat, v: nat)
    requires g.Valid()
  {
    && u != v && Adjacent(g, u, v)
    && Reachable(g, s, u) && Reachable(g, s, v) && Dist(g, s, u) == Dist(g, s, v)
  }

  ghost predicate NoLevelEdge(g: Graph, s: nat)
    requires g.Valid()
  {
    forall u: nat, v: nat :: !LevelEdge(g, s, u, v)
  }

  lemma NeighbourDist(g: Graph, s: nat, u: nat, v: nat)
    requires g.Valid() && Reachable(g, s, u) && Adjacent(g, u, v)
    ensures Reachable(g, s, v) && Dist(g, s, v) <= Dist(g, s, u) + 1
  {
    Extend(g, s, u, v, Dist(g, s, u));
  }

  lemma AdjacentSymmetric(g: Graph, u: nat, v: nat)
    requires g.Valid() && Adjacent(g, u, v)
    ensures Adjacent(g, v, u)
  {
    var i :| 0 <= i < |g.edges| && Joins(g.edges[i], u, v);
    assert Joins(g.edges[i], v, u);
  }

  /** A colouring alternates with the distance. */
  lemma {:induction false} ColourFollowsDist(g: Graph, s: nat, colour: nat -> bool, v: nat)
    requires g.Valid() && Colours(g, s, colour) && Reachable(g, s, v)
    ensures colour(v) == (if Dist(g, s, v) % 2 == 0 then colour(s) else !colour(s))
    decreases Dist(g, s, v)
  {
    if Dist(g, s, v) > 0 {
      hide Walk, Adjacent;
      var u := Predecessor(g, s, v);
      ColourFollowsDist(g, s, colour, u);
      assert colour(u) != colour(v);
    }
  }

  /** The last but one node of a shortest walk. */
  lemma Predecessor(g: Graph, s: nat, v: nat) returns (u: nat)
    requires g.Valid() && Reachable(g, s, v) && Dist(g, s, v) > 0
    ensures Reachable(g, s, u) && Adjacent(g, u, v) && Dist(g, s, u) + 1 == Dist(g, s, v)
  {
    u :| Walk(g, s, u, Dist(g, s, v) - 1) && Adjacent(g, u, v);
    NeighbourDist(g, s, u, v);
  }

  lemma TwoColourableIffNoLevelEdge(g: Graph, s: nat)
    requires g.Valid()
    ensures TwoColourable(g, s) <==> NoLevelEdge(g, s)
  {
    if TwoColourable(g, s) {
      var colour: nat -> bool :| Colours(g, s, colour);
      forall u: nat, v: nat | LevelEdge(g, s, u, v) ensures false {
        ColourFollowsDist(g, s, colour, u);
        ColourFollowsDist(g, s, colour, v);
      }
    }
    if NoLevelEdge(g, s) {
      EvenDistColours(g, s);
    }
  }

  lemma EvenDistColours(g: Graph, s: nat)
    requires g.Valid() && NoLevelEdge(g, s)
    ensures Colours(g, s, (v: nat) => Reachable(g, s, v) && Dist(g, s, v) % 2 == 0)
  {
    hide Walk, Reachable, Adjacent, LevelEdge, NoLevelEdge;
    var colour := (v: nat) => Reachable(g, s, v) && Dist(g, s, v) % 2 == 0;
    forall u: nat, v: nat | Reachable(g, s, u) && Adjacent(g, u, v) && u != v
      ensures colour(u) != colour(v)
    {
      NeighbourDist(g, s, u, v);
      NeighbourDiffersByOne(g, s, u, v);
    }
  }

  datatype Todo = Todo(node: nat, dist: nat)

  /** The entries queued for the neighbours that have no distance yet. */
  function Queued(ns: seq<nat>, visited: set<nat>, dist: nat): (q: seq<Todo>)
    ensures forall t :: t in q ==> t.node in ns && t.node !in visited && t.dist == dist
    ensures forall n :: n in ns && n !in visited ==> Todo(n, dist) in q
  {
    if ns == [] then []
    else
      var last := ns[|ns| - 1];
      var before := Queued(ns[..|ns| - 1], visited, dist);
      assert ns == ns[..|ns| - 1] + [last];
      if last in visited then before else before + [Todo(last, dist)]
  }

  /** Every entry and every recorded distance is the length of a walk. */
  ghost predicate Walks(g: Graph, s: nat, todo: seq<Todo>, ret: map<nat, nat>)
    requires g.Valid()
  {
    && (forall t :: t in todo ==> Walk(g, s, t.node, t.dist))
    && (forall v :: v in ret ==> Walk(g, s, v, ret[v]))
  }

  /** Distances never fall along the queue, span at most one step, and follow the recorded ones. */
  ghost predicate Ordered(todo: seq<Todo>, ret: map<nat, nat>) {
    && (forall i, j :: 0 <= i <= j < |todo| ==> todo[i].dist <= todo[j].dist)
    && (forall t :: t in todo ==> t.dist <= todo[0].dist + 1)
    && (forall v, t :: v in ret && t in todo ==> ret[v] <= t.dist)
  }

  /** Nothing about a visited node is more than one too large. */
  ghost predicate WithinOne(g: Graph, s: nat, todo: seq<Todo>, ret: map<nat, nat>)
    requires g.Valid()
  {
    && (forall v :: v in ret ==> ret[v] <= Dist(g, s, v) + 1)
    && (forall t :: t in todo && t.node in ret ==> t.dist <= Dist(g, s, t.node) + 1)
  }

  /** A neighbour of a visited node is visited or queued. */
  ghost predicate Frontier(g: Graph, s: nat, todo: seq<Todo>, ret: map<nat, nat>)
    requires g.Valid()
  {
    && (s in ret || Todo(s, 0) in todo)
    && (forall u: nat, w: nat {:trigger u in ret, w in ret, Adjacent(g, u, w)} ::
      u in ret && w !in ret && Adjacent(g, u, w) ==> QueuedWithin(todo, w, Dist(g, s, u) + 1))
  }

  ghost predicate QueuedWithin(todo: seq<Todo>, w: nat, d: nat) {
    exists t :: t in todo && t.node == w && t.dist <= d
  }

  /** Of two visited neighbours at the same distance, one comes out one too large. */
  ghost predicate LevelEdgesLate(g: Graph, s: nat, todo: seq<Todo>, ret: map<nat, nat>)
    requires g.Valid()
  {
    forall u: nat, v: nat :: u in ret && LevelEdge(g, s, u, v) ==> Late(g, s, todo, ret, u) || Late(g, s, todo, ret, v)
  }

  ghost predicate Late(g: Graph, s: nat, todo: seq<Todo>, ret: map<nat, nat>, v: nat)
    requires g.Valid()
  {
    Todo(v, Dist(g, s, v) + 1) in todo || (v in ret && ret[v] == Dist(g, s, v) + 1)
  }

  /** Without an edge inside a level, no distance is off by an odd number. */
  ghost predicate SameParity(g: Graph, s: nat, todo: seq<Todo>, ret: map<nat, nat>)
    requires g.Valid()
  {
    NoLevelEdge(g, s) ==>
      && (forall t :: t in todo ==> t.dist % 2 == Dist(g, s, t.node) % 2)
      && (forall v :: v in ret ==> ret[v] % 2 == Dist(g, s, v) % 2)
  }

  ghost predicate Searching(g: Graph, s: nat, todo: seq<Todo>, ret: map<nat, nat>)
    requires g.Valid()
  {
    Walks(g, s, todo, ret) && Ordered(todo, ret) && WithinOne(g, s, todo, ret) && Frontier(g, s, todo, ret)
  }

  /** All that the loop keeps. */
  ghost predicate Kept(g: Graph, s: nat, todo: seq<Todo>, ret: map<nat, nat>)
    requires g.Valid()
  {
    Searching(g, s, todo, ret) && LevelEdgesLate(g, s, todo, ret) && SameParity(g, s, todo, ret)
  }

  /** On the way to a node without a distance an entry is queued that is close enough to the start. */
  lemma {:induction false} QueuedOnTheWay(g: Graph, s: nat, todo: seq<Todo>, ret: map<nat, nat>, w: nat, n: nat)
    requires g.Valid() && Frontier(g, s, todo, ret)
    requires Walk(g, s, w, n) && w !in ret
    ensures exists t :: t in todo && t.dist <= n && t.node !in ret
    decreases n
  {
    if n > 0 {
      var u: nat :| Walk(g, s, u, n - 1) && Adjacent(g, u, w);
      if u !in ret {
        QueuedOnTheWay(g, s, todo, ret, u, n - 1);
      } else {
        assert QueuedWithin(todo, w, Dist(g, s, u) + 1);
      }
    }
  }

  /** A node is first taken from the queue with its true distance. */
  lemma HeadIsExact(g: Graph, s: nat, todo: seq<Todo>, ret: map<nat, nat>)
    requires g.Valid() && Searching(g, s, todo, ret)
    requires todo != [] && todo[0].node !in ret
    ensures Reachable(g, s, todo[0].node) && todo[0].dist == Dist(g, s, todo[0].node)
  {
    assert todo[0] in todo;
    QueuedOnTheWay(g, s, todo, ret, todo[0].node, Dist(g, s, todo[0].node));
  }

  /** One turn of the loop: the first entry is taken and its unvisited neighbours are queued. */
  ghost predicate Turn(g: Graph, todo: seq<Todo>, ret: map<nat, nat>, todo': seq<Todo>, ret': map<nat, nat>)
    requires g.Valid()
  {
    && todo != []
    && ret' == ret[todo[0].node := todo[0].dist]
    && exists ns :: ListsNeighbours(g, todo[0].node, ns)
                    && todo' == todo[1..] + Queued(ns, ret'.Keys, todo[0].dist + 1)
  }

  ghost predicate ListsNeighbours(g: Graph, u: nat, ns: seq<nat>)
    requires g.Valid()
  {
    forall v: nat :: v in ns <==> Adjacent(g, u, v)
  }

  /** What a turn leaves in the queue, entry by entry. */
  lemma TurnEntries(g: Graph, todo: seq<Todo>, ret: map<nat, nat>, todo': seq<Todo>, ret': map<nat, nat>)
    requires g.Valid() && Turn(g, todo, ret, todo', ret')
    ensures forall t :: t in todo ==> t == todo[0] || t in todo'
    ensures forall t :: t in todo' ==>
      t in todo || (t.node !in ret' && t.dist == todo[0].dist + 1 && Adjacent(g, todo[0].node, t.node))
    ensures forall w: nat :: Adjacent(g, todo[0].node, w) && w !in ret' ==> Todo(w, todo[0].dist + 1) in todo'
    ensures |todo'| >= |todo| - 1 && forall i :: 0 <= i < |todo| - 1 ==> todo'[i] == todo[i + 1]
    ensures forall i :: |todo| - 1 <= i < |todo'| ==> todo'[i].dist == todo[0].dist + 1 && todo'[i].node !in ret'
  {
    var ns :| ListsNeighbours(g, todo[0].node, ns)
              && todo' == todo[1..] + Queued(ns, ret'.Keys, todo[0].dist + 1);
    assert todo == [todo[0]] + todo[1..];
    forall i | |todo| - 1 <= i < |todo'|
      ensures todo'[i] in Queued(ns, ret'.Keys, todo[0].dist + 1)
    {
    }
  }

  lemma TurnKeepsSearching(g: Graph, s: nat, todo: seq<Todo>, ret: map<nat, nat>, todo': seq<Todo>, ret': map<nat, nat>)
    requires g.Valid() && Searching(g, s, todo, ret) && Turn(g, todo, ret, todo', ret')
    ensures Searching(g, s, todo', ret')
  {
    TurnKeepsWalks(g, s, todo, ret, todo', ret');
    TurnKeepsOrdered(g, todo, ret, todo', ret');
    TurnKeepsWithinOne(g, s, todo, ret, todo', ret');
    TurnKeepsFrontier(g, s, todo, ret, todo', ret');
  }

  lemma TurnKeepsWalks(g: Graph, s: nat, todo: seq<Todo>, ret: map<nat, nat>, todo': seq<Todo>, ret': map<nat, nat>)
    requires g.Valid() && Walks(g, s, todo, ret) && Turn(g, todo, ret, todo', ret')
    ensures Walks(g, s, todo', ret')
  {
    TurnEntries(g, todo, ret, todo', ret');
    assert todo[0] in todo;
    forall x | x in todo' ensures Walk(g, s, x.node, x.dist) {
      if x !in todo {
        Extend(g, s, todo[0].node, x.node, todo[0].dist);
      }
    }
  }

  lemma TurnKeepsWithinOne(g: Graph, s: nat, todo: seq<Todo>, ret: map<nat, nat>, todo': seq<Todo>, ret': map<nat, nat>)
    requires g.Valid() && Searching(g, s, todo, ret) && Turn(g, todo, ret, todo', ret')
    ensures WithinOne(g, s, todo', ret')
  {
    TurnEntries(g, todo, ret, todo', ret');
    assert todo[0] in todo;
    if todo[0].node !in ret {
      HeadIsExact(g, s, todo, ret);
    }
  }

  lemma TurnKeepsFrontier(g: Graph, s: nat, todo: seq<Todo>, ret: map<nat, nat>, todo': seq<Todo>, ret': map<nat, nat>)
    requires g.Valid() && Searching(g, s, todo, ret) && Turn(g, todo, ret, todo', ret')
    ensures Frontier(g, s, todo', ret')
  {
    TurnEntries(g, todo, ret, todo', ret');
    forall u: nat, w: nat | u in ret' && w !in ret' && Adjacent(g, u, w)
      ensures QueuedWithin(todo', w, Dist(g, s, u) + 1)
    {
      if u in ret {
        var x :| x in todo && x.node == w && x.dist <= Dist(g, s, u) + 1;
        assert x in todo';
      } else {
        HeadIsExact(g, s, todo, ret);
        assert Todo(w, todo[0].dist + 1) in todo';
      }
    }
  }

  lemma TurnKeepsOrdered(g: Graph, todo: seq<Todo>, ret: map<nat, nat>, todo': seq<Todo>, ret': map<nat, nat>)
    requires g.Valid() && Ordered(todo, ret) && Turn(g, todo, ret, todo', ret')
    ensures Ordered(todo', ret')
  {
    TurnEntries(g, todo, ret, todo', ret');
    assert todo[0] in todo;
    forall i | 0 <= i < |todo'| ensures todo[0].dist <= todo'[i].dist <= todo[0].dist + 1 {
      if i < |todo| - 1 {
        assert todo[i + 1] in todo;
      }
    }
  }

  lemma TurnKeepsLevelEdgesLate(g: Graph, s: nat, todo: seq<Todo>, ret: map<nat, nat>, todo': seq<Todo>,
          ret': map<nat, nat>)
    requires g.Valid() && Searching(g, s, todo, ret) && Turn(g, todo, ret, todo', ret')
    requires LevelEdgesLate(g, s, todo, ret)
    ensures LevelEdgesLate(g, s, todo', ret')
  {
    if todo[0].node !in ret {
      HeadIsExact(g, s, todo, ret);
    }
    forall u: nat, v: nat | u in ret' && LevelEdge(g, s, u, v)
      ensures Late(g, s, todo', ret', u) || Late(g, s, todo', ret', v)
    {
      if u in ret || v in ret {
        VisitedEdgeStaysLate(g, s, todo, ret, todo', ret', u, v);
      } else {
        FirstEndMakesLate(g, s, todo, ret, todo', ret', v);
      }
    }
  }

  lemma VisitedEdgeStaysLate(g: Graph, s: nat, todo: seq<Todo>, ret: map<nat, nat>, todo': seq<Todo>,
          ret': map<nat, nat>, u: nat, v: nat)
    requires g.Valid() && Ordered(todo, ret) && WithinOne(g, s, todo, ret) && Turn(g, todo, ret, todo', ret')
    requires LevelEdgesLate(g, s, todo, ret) && LevelEdge(g, s, u, v) && (u in ret || v in ret)
    ensures Late(g, s, todo', ret', u) || Late(g, s, todo', ret', v)
  {
    LevelEdgeSymmetric(g, s, u, v);
    if Late(g, s, todo, ret, u) {
      LateStays(g, s, todo, ret, todo', ret', u);
    } else {
      LateStays(g, s, todo, ret, todo', ret', v);
    }
  }

  lemma FirstEndMakesLate(g: Graph, s: nat, todo: seq<Todo>, ret: map<nat, nat>, todo': seq<Todo>,
          ret': map<nat, nat>, v: nat)
    requires g.Valid() && Turn(g, todo, ret, todo', ret') && v !in ret
    requires todo[0].dist == Dist(g, s, todo[0].node) && LevelEdge(g, s, todo[0].node, v)
    ensures Late(g, s, todo', ret', v)
  {
    NeighbourIsQueued(g, todo, ret, todo', ret', v);
  }

  lemma LevelEdgeSymmetric(g: Graph, s: nat, u: nat, v: nat)
    requires g.Valid() && LevelEdge(g, s, u, v)
    ensures LevelEdge(g, s, v, u)
  {
    AdjacentSymmetric(g, u, v);
  }

  lemma NeighbourIsQueued(g: Graph, todo: seq<Todo>, ret: map<nat, nat>, todo': seq<Todo>, ret': map<nat, nat>, v: nat)
    requires g.Valid() && Turn(g, todo, ret, todo', ret')
    requires Adjacent(g, todo[0].node, v) && v !in ret'
    ensures Todo(v, todo[0].dist + 1) in todo'
  {
    TurnEntries(g, todo, ret, todo', ret');
  }

  lemma LateStays(g: Graph, s: nat, todo: seq<Todo>, ret: map<nat, nat>, todo': seq<Todo>, ret': map<nat, nat>, v: nat)
    requires g.Valid() && Ordered(todo, ret) && WithinOne(g, s, todo, ret) && Turn(g, todo, ret, todo', ret')
    requires Late(g, s, todo, ret, v)
    ensures Late(g, s, todo', ret', v)
  {
    TurnEntries(g, todo, ret, todo', ret');
    assert todo[0] in todo;
  }

  lemma TurnKeepsSameParity(g: Graph, s: nat, todo: seq<Todo>, ret: map<nat, nat>, todo': seq<Todo>,
          ret': map<nat, nat>)
    requires g.Valid() && Walks(g, s, todo, ret) && SameParity(g, s, todo, ret) && Turn(g, todo, ret, todo', ret')
    ensures SameParity(g, s, todo', ret')
  {
    hide Walk, Reachable, Adjacent, LevelEdge, ListsNeighbours;
    TurnEntries(g, todo, ret, todo', ret');
    assert todo[0] in todo;
    if NoLevelEdge(g, s) {
      forall t | t in todo' ensures t.dist % 2 == Dist(g, s, t.node) % 2 {
        if t !in todo {
          ParityAlternates(g, s, todo[0].node, todo[0].dist, t.node);
        }
      }
    }
  }

  lemma ParityAlternates(g: Graph, s: nat, u: nat, d: nat, v: nat)
    requires g.Valid() && NoLevelEdge(g, s) && Reachable(g, s, u) && Adjacent(g, u, v) && u != v
    requires d % 2 == Dist(g, s, u) % 2
    ensures (d + 1) % 2 == Dist(g, s, v) % 2
  {
    NeighbourDiffersByOne(g, s, u, v);
  }

  lemma NeighbourDiffersByOne(g: Graph, s: nat, u: nat, v: nat)
    requires g.Valid() && NoLevelEdge(g, s) && Reachable(g, s, u) && Adjacent(g, u, v) && u != v
    ensures Dist(g, s, v) == Dist(g, s, u) + 1 || Dist(g, s, u) == Dist(g, s, v) + 1
  {
    AdjacentSymmetric(g, u, v);
    NeighbourDist(g, s, u, v);
    NeighbourDist(g, s, v, u);
    assert !LevelEdge(g, s, u, v);
  }

  /** The queue and the distances after n turns of the loop. */
  ghost predicate AfterTurns(g: Graph, s: nat, n: nat, todo: seq<Todo>, ret: map<nat, nat>)
    requires g.Valid()
  {
    if n == 0 then todo == [Todo(s, 0)] && ret == map[]
    else exists todo0, ret0 :: AfterTurns(g, s, n - 1, todo0, ret0) && Turn(g, todo0, ret0, todo, ret)
  }

  /** The states the loop can be in. */
  ghost predicate Reached(g: Graph, s: nat, todo: seq<Todo>, ret: map<nat, nat>)
    requires g.Valid()
  {
    exists n: nat :: AfterTurns(g, s, n, todo, ret)
  }

  lemma {:induction false} AlwaysKept(g: Graph, s: nat, n: nat, todo: seq<Todo>, ret: map<nat, nat>)
    requires g.Valid() && AfterTurns(g, s, n, todo, ret)
    ensures Kept(g, s, todo, ret)
  {
    if n == 0 {
      InitiallyKept(g, s);
    } else {
      var todo0, ret0 :| AfterTurns(g, s, n - 1, todo0, ret0) && Turn(g, todo0, ret0, todo, ret);
      AlwaysKept(g, s, n - 1, todo0, ret0);
      TurnKeepsAll(g, s, todo0, ret0, todo, ret);
    }
  }

  lemma InitiallyKept(g: Graph, s: nat)
    requires g.Valid()
    ensures Kept(g, s, [Todo(s, 0)], map[])
  {
    var todo := [Todo(s, 0)];
    assert todo[0] in todo;
    assert Walk(g, s, s, 0);
    assert Dist(g, s, s) == 0;
  }

  lemma TurnKeepsAll(g: Graph, s: nat, todo: seq<Todo>, ret: map<nat, nat>, todo': seq<Todo>, ret': map<nat, nat>)
    requires g.Valid() && Kept(g, s, todo, ret) && Turn(g, todo, ret, todo', ret')
    ensures Kept(g, s, todo', ret')
  {
    TurnKeepsSearching(g, s, todo, ret, todo', ret');
    TurnKeepsLevelEdgesLate(g, s, todo, ret, todo', ret');
    TurnKeepsSameParity(g, s, todo, ret, todo', ret');
  }

  /** The numbers that can be queued at all: the start and the ends of the first n edges. */
  ghost function Vertices(g: Graph, s: nat, n: nat): (vs: set<nat>)
    requires g.Valid() && n <= |g.edges|
    ensures s in vs
    ensures forall i :: 0 <= i < n ==> g.edges[i][0] in vs && g.edges[i][1] in vs
  {
    if n == 0 then {s} else Vertices(g, s, n - 1) + {g.edges[n - 1][0], g.edges[n - 1][1]}
  }

  lemma WalkInVertices(g: Graph, s: nat, v: nat, n: nat)
    requires g.Valid() && Walk(g, s, v, n)
    ensures v in Vertices(g, s, |g.edges|)
  {
    if n > 0 {
      var u: nat :| Walk(g, s, u, n - 1) && Adjacent(g, u, v);
    }
  }

  /** The position of the first entry without a recorded distance, or the length of the queue. */
  ghost function FirstUnvisited(todo: seq<Todo>, visited: set<nat>): (i: nat)
    ensures i <= |todo|
    ensures i < |todo| ==> todo[i].node !in visited
    ensures forall j :: 0 <= j < i ==> todo[j].node in visited
  {
    if todo == [] || todo[0].node !in visited then 0 else 1 + FirstUnvisited(todo[1..], visited)
  }

  /** Although nodes are queued and taken again, each turn either visits a new node or brings the
      first unvisited entry (or the end of the queue) closer. */
  lemma TurnMakesProgress(g: Graph, s: nat, todo: seq<Todo>, ret: map<nat, nat>, todo': seq<Todo>, ret': map<nat, nat>)
    requires g.Valid() && Searching(g, s, todo, ret) && Turn(g, todo, ret, todo', ret')
    ensures |Open(g, s, ret')| < |Open(g, s, ret)|
         || (ret'.Keys == ret.Keys && FirstUnvisited(todo', ret'.Keys) < FirstUnvisited(todo, ret.Keys))
  {
    hide Walk, Reachable, Vertices, Ordered, WithinOne, Frontier, FirstUnvisited;
    var t := todo[0];
    assert t in todo;
    WalkInVertices(g, s, t.node, t.dist);
    if t.node !in ret {
      assert Open(g, s, ret') == Open(g, s, ret) - {t.node};
    } else {
      assert ret'.Keys == ret.Keys;
      RevisitComesCloser(g, s, todo, ret, todo', ret');
    }
  }

  ghost function Open(g: Graph, s: nat, ret: map<nat, nat>): set<nat>
    requires g.Valid()
  {
    Vertices(g, s, |g.edges|) - ret.Keys
  }

  lemma RevisitComesCloser(g: Graph, s: nat, todo: seq<Todo>, ret: map<nat, nat>, todo': seq<Todo>, ret': map<nat, nat>)
    requires g.Valid() && Frontier(g, s, todo, ret) && Turn(g, todo, ret, todo', ret')
    requires todo[0].node in ret && ret'.Keys == ret.Keys
    ensures FirstUnvisited(todo', ret'.Keys) < FirstUnvisited(todo, ret.Keys)
  {
    TurnEntries(g, todo, ret, todo', ret');
    var i := FirstUnvisited(todo, ret.Keys);
    if |todo'| >= |todo| {
      NewEntryWasQueued(g, s, todo, ret, todo', ret');
    }
    if i < |todo| {
      assert todo'[i - 1] == todo[i];
    }
  }

  lemma NewEntryWasQueued(g: Graph, s: nat, todo: seq<Todo>, ret: map<nat, nat>, todo': seq<Todo>, ret': map<nat, nat>)
    requires g.Valid() && Frontier(g, s, todo, ret) && Turn(g, todo, ret, todo', ret')
    requires todo[0].node in ret && ret'.Keys == ret.Keys && |todo'| >= |todo|
    ensures FirstUnvisited(todo, ret.Keys) < |todo|
  {
    TurnEntries(g, todo, ret, todo', ret');
    var x := todo'[|todo| - 1];
    assert x in todo' && x.node !in ret;
    assert x in todo || QueuedWithin(todo, x.node, Dist(g, s, todo[0].node) + 1);
  }

  method CalcDistances(g: Graph, start: nat) returns (ret: map<nat, nat>)
    requires g.Valid()
    ensures forall v: nat :: v in ret <==> Reachable(g, start, v) || v < g.nodes
    ensures forall v :: v in ret && Reachable(g, start, v) ==> Dist(g, start, v) <= ret[v] <= Dist(g, start, v) + 1
    ensures forall v :: v in ret && !Reachable(g, start, v) ==> ret[v] == 0xFFFF_FFFF_FFFF_FFFF
    // all distances are the true ones exactly when the reachable part is two-colourable
    ensures (forall v :: v in ret && Reachable(g, start, v) ==> ret[v] == Dist(g, start, v)) <==>
      TwoColourable(g, start)
  {
    ret := map[];
    var edges := NeighbourLists(g);
    var todo := [Todo(start, 0)];
    assert AfterTurns(g, start, 0, todo, ret);
    while |todo| > 0
      invariant Reached(g, start, todo, ret)
      decreases |Open(g, start, ret)|, FirstUnvisited(todo, ret.Keys)
    {
      todo, ret := TakeFirst(g, start, edges, todo, ret);
    }
    AllFound(g, start, ret);
    ret := MarkUnconnected(g.nodes, ret);
  }

  /** The loop's body: takes the first entry, records its distance and queues its neighbours. */
  method TakeFirst(g: Graph, ghost start: nat, edges: map<nat, seq<nat>>, todo: seq<Todo>, ret: map<nat, nat>)
    returns (todo': seq<Todo>, ret': map<nat, nat>)
    requires g.Valid() && Reached(g, start, todo, ret) && todo != []
    requires ListsAll(g, edges)
    ensures Reached(g, start, todo', ret')
    ensures |Open(g, start, ret')| < |Open(g, start, ret)|
         || (ret'.Keys == ret.Keys && FirstUnvisited(todo', ret'.Keys) < FirstUnvisited(todo, ret.Keys))
  {
    hide Reached, ListsAll, Open, FirstUnvisited;
    var t := todo[0];
    todo' := todo[1..];
    ret' := ret[t.node := t.dist];
    if t.node in edges {
      todo' := QueueNeighbours(edges[t.node], ret', todo', t.dist + 1);
    }
    assert todo' == todo[1..] + Queued(ListOf(edges, t.node), ret'.Keys, t.dist + 1);
    TurnTaken(g, start, todo, ret, edges, todo', ret');
  }

  lemma TurnTaken(g: Graph, s: nat, todo: seq<Todo>, ret: map<nat, nat>, edges: map<nat, seq<nat>>, todo': seq<Todo>,
          ret': map<nat, nat>)
    requires g.Valid() && Reached(g, s, todo, ret) && todo != []
    requires ListsAll(g, edges)
    requires ret' == ret[todo[0].node := todo[0].dist]
    requires todo' == todo[1..] + Queued(ListOf(edges, todo[0].node), ret'.Keys, todo[0].dist + 1)
    ensures Reached(g, s, todo', ret')
    ensures |Open(g, s, ret')| < |Open(g, s, ret)|
         || (ret'.Keys == ret.Keys && FirstUnvisited(todo', ret'.Keys) < FirstUnvisited(todo, ret.Keys))
  {
    assert ListsNeighbours(g, todo[0].node, ListOf(edges, todo[0].node));
    assert Turn(g, todo, ret, todo', ret');
    var n: nat :| AfterTurns(g, s, n, todo, ret);
    AlwaysKept(g, s, n, todo, ret);
    assert AfterTurns(g, s, n + 1, todo', ret');
    TurnMakesProgress(g, s, todo, ret, todo', ret');
  }

  /** Sets the distance of all listed nodes that were not found to the largest uint. */
  method MarkUnconnected(nodes: nat, found: map<nat, nat>) returns (ret: map<nat, nat>)
    ensures forall v: nat :: v in ret <==> v in found || v < nodes
    ensures forall v :: v in ret ==> ret[v] == if v in found then found[v] else UINT_MAX
  {
    ret := found;
    for i: nat := 0 to nodes
      invariant forall v: nat :: v in ret <==> v in found || v < i
      invariant forall v :: v in ret ==> ret[v] == if v in found then found[v] else UINT_MAX
    {
      if i !in ret {
        ret := ret[i := UINT_MAX];
      }
    }
  }

  /** Goes over the neighbours and queues those without a distance. */
  method QueueNeighbours(ns: seq<nat>, ret: map<nat, nat>, todo: seq<Todo>, dist: nat) returns (todo': seq<Todo>)
    ensures todo' == todo + Queued(ns, ret.Keys, dist)
  {
    todo' := todo;
    for i := 0 to |ns|
      invariant todo' == todo + Queued(ns[..i], ret.Keys, dist)
    {
      assert ns[..i + 1][..i] == ns[..i];
      if ns[i] !in ret {
        todo' := todo' + [Todo(ns[i], dist)];
      }
    }
    assert ns[..|ns|] == ns;
  }

  /** What the search has found when the queue is empty. */
  lemma AllFound(g: Graph, s: nat, ret: map<nat, nat>)
    requires g.Valid() && Reached(g, s, [], ret)
    ensures forall v: nat :: v in ret <==> Reachable(g, s, v)
    ensures forall v :: v in ret ==> Dist(g, s, v) <= ret[v] <= Dist(g, s, v) + 1
    ensures (forall v :: v in ret ==> ret[v] == Dist(g, s, v)) <==> TwoColourable(g, s)
  {
    var n: nat :| AfterTurns(g, s, n, [], ret);
    AlwaysKept(g, s, n, [], ret);
    AllReached(g, s, ret);
    TwoColourableIffNoLevelEdge(g, s);
    if NoLevelEdge(g, s) {
      NothingLate(g, s, ret);
    } else {
      LevelEdgeIsSeen(g, s, ret);
    }
  }

  lemma AllReached(g: Graph, s: nat, ret: map<nat, nat>)
    requires g.Valid() && Searching(g, s, [], ret)
    ensures forall v: nat :: v in ret <==> Reachable(g, s, v)
    ensures forall v :: v in ret ==> Dist(g, s, v) <= ret[v] <= Dist(g, s, v) + 1
  {
    forall v: nat | Reachable(g, s, v) ensures v in ret {
      if v !in ret {
        QueuedOnTheWay(g, s, [], ret, v, Dist(g, s, v));
      }
    }
  }

  lemma NothingLate(g: Graph, s: nat, ret: map<nat, nat>)
    requires g.Valid() && NoLevelEdge(g, s) && SameParity(g, s, [], ret)
    requires forall v :: v in ret ==> Dist(g, s, v) <= ret[v] <= Dist(g, s, v) + 1
    ensures forall v :: v in ret ==> ret[v] == Dist(g, s, v)
  {
    hide Walk, Reachable, NoLevelEdge, LevelEdge;
    forall v | v in ret ensures ret[v] == Dist(g, s, v) {
      assert ret[v] % 2 == Dist(g, s, v) % 2;
    }
  }

  lemma LevelEdgeIsSeen(g: Graph, s: nat, ret: map<nat, nat>)
    requires g.Valid() && LevelEdgesLate(g, s, [], ret) && !NoLevelEdge(g, s)
    requires forall v: nat :: v in ret <==> Reachable(g, s, v)
    ensures exists v :: v in ret && ret[v] == Dist(g, s, v) + 1
  {
    var u: nat, v: nat :| LevelEdge(g, s, u, v);
    assert Late(g, s, [], ret, u) || Late(g, s, [], ret, v);
  }

  /** Node u's list in the adjacency map. */
  function ListOf(edges: map<nat, seq<nat>>, u: nat): seq<nat> {
    if u in edges then edges[u] else []
  }

  ghost predicate ListsAll(g: Graph, edges: map<nat, seq<nat>>)
    requires g.Valid()
  {
    forall u: nat, v: nat {:trigger v in ListOf(edges, u)} :: v in ListOf(edges, u) <==> Adjacent(g, u, v)
  }

  predicate JoinedBefore(g: Graph, i: nat, u: nat, v: nat)
    requires g.Valid() && i <= |g.edges|
  {
    exists j :: 0 <= j < i && Joins(g.edges[j], u, v)
  }

  method NeighbourLists(g: Graph) returns (edges: map<nat, seq<nat>>)
    requires g.Valid()
    ensures ListsAll(g, edges)
  {
    edges := map[];
    for i := 0 to |g.edges|
      invariant forall u: nat, v: nat :: v in ListOf(edges, u) <==> JoinedBefore(g, i, u, v)
    {
      var k := g.edges[i];
      ghost var edges0 := edges;
      edges := edges[k[0] := ListOf(edges, k[0]) + [k[1]]];
      edges := edges[k[1] := ListOf(edges, k[1]) + [k[0]]];
      forall u: nat, v: nat
        ensures v in ListOf(edges, u) <==> v in ListOf(edges0, u) || Joins(k, u, v)
        ensures JoinedBefore(g, i + 1, u, v) <==> JoinedBefore(g, i, u, v) || Joins(k, u, v)
      {
      }
    }
    forall u: nat, v: nat ensures v in ListOf(edges, u) <==> Adjacent(g, u, v) {
      assert JoinedBefore(g, |g.edges|, u, v) <==> Adjacent(g, u, v);
    }
  }
}
