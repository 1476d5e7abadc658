/** DFS::go and DFS::Traverse (condensedGraph.cpp, lines 168-191): an
    explicit-stack walk with one visited set shared by all roots. The
    handler's callbacks are recorded as a list of visits; the roots are the
    live vertices in an order the caller chooses, since the source iterates
    a set of pointers. */
module Traversal {
  import opened Nucleotide
  import opened CondensedGraph

  /** HandleStartVertex(v) and HandleEdge(from, to). */
  datatype Visit = Start(v: Handle) | Edge(from: Handle, to: Handle)

  /** The HandleEdge calls for the descendants `ds` of `v`, in order. */
  function EdgeVisits(v: Handle, ds: seq<Handle>): seq<Visit>
  {
    if |ds| == 0 then [] else [Edge(v, ds[0])] + EdgeVisits(v, ds[1..])
  }

  /** What expanding v reports: its start, then one edge per descendant. */
  function Expansion(g: Graph, v: Handle): seq<Visit>
    requires v in g.verts
  {
    [Start(v)] + EdgeVisits(v, Desc(g, v))
  }

  /** The reports of expanding the vertices of `order`, one after another. */
  function Blocks(g: Graph, order: seq<Handle>): seq<Visit>
    requires forall v | v in order :: v in g.verts
  {
    if |order| == 0 then []
    else Blocks(g, order[..|order| - 1]) + Expansion(g, order[|order| - 1])
  }

  ghost predicate Distinct(s: seq<Handle>)
  {
    forall i, j | 0 <= i < j < |s| :: s[i] != s[j]
  }

  /** The walk's state: the visited set, the vertices in the order they
      were started, the explicit stack, and the reports so far. */
  datatype Walk = Walk(visited: set<Handle>, order: seq<Handle>, stack: seq<Handle>, events: seq<Visit>)

  /** Every visited vertex was started exactly once, in `order`, every
      report comes from those starts, and the stack holds live vertices. */
  ghost predicate WalkInv(g: Graph, w: Walk)
  {
    && Sound(g)
    && w.visited <= g.verts.Keys
    && (forall x | x in w.stack :: x in g.verts)
    && Distinct(w.order)
    && (forall v :: v in w.order <==> v in w.visited)
    && w.events == Blocks(g, w.order)
  }

  /** In a sound graph every descendant is live. */
  lemma DescLive(g: Graph, v: Handle)
    requires Sound(g) && v in g.verts
    ensures forall x | x in Desc(g, v) :: x in g.verts
  {
    forall x | x in Desc(g, v)
      ensures x in g.verts
    {
      var m := g.verts[v].desc;
      assert Points(m, x);
      assert SlotsLive(g);
    }
  }

  /** Lines 168-179: an unvisited v is started, marked, and its descendants
      are reported and pushed; a visited v is left alone. */
  function Go(g: Graph, w: Walk, v: Handle): (r: Walk)
    requires WalkInv(g, w) && v in g.verts
    ensures WalkInv(g, r) && v in r.visited && w.visited <= r.visited
    ensures |r.stack| >= |w.stack| && r.stack[..|w.stack|] == w.stack
    ensures v in w.visited ==> r == w
    ensures v !in w.visited ==> r.visited == w.visited + {v} && r.stack == w.stack + Desc(g, v)
    ensures v !in w.visited ==> r.order == w.order + [v] && r.events == w.events + Expansion(g, v)
  {
    if v in w.visited then w
    else
      DescLive(g, v);
      var r := Walk(w.visited + {v}, w.order + [v], w.stack + Desc(g, v), w.events + Expansion(g, v));
      assert r.order[..|r.order| - 1] == w.order;
      r
  }

  /** Marking one more live vertex shrinks the unvisited part. */
  lemma VisitShrinks(live: set<Handle>, visited: set<Handle>, v: Handle)
    requires v in live
    ensures v !in visited ==> |live - (visited + {v})| < |live - visited|
  {
    if v !in visited {
      assert live - visited == (live - (visited + {v})) + {v};
    }
  }

  // ---------------------------------------------------------------------
  // The walk as written

  /** Lines 186-189: `go(stack.back())` and then `pop_back()`. When go
      pushed descendants, the element popped is the last descendant pushed,
      not the vertex just expanded. */
  function DrainAsWritten(g: Graph, w: Walk): (r: Walk)
    requires WalkInv(g, w)
    ensures WalkInv(g, r) && r.stack == [] && w.visited <= r.visited
    ensures |w.stack| > 0 ==> w.stack[|w.stack| - 1] in r.visited
    decreases |g.verts.Keys - w.visited|, |w.stack|
  {
    if |w.stack| == 0 then w
    else
      var v := w.stack[|w.stack| - 1];
      var w1 := Go(g, w, v);
      VisitShrinks(g.verts.Keys, w.visited, v);
      DrainAsWritten(g, w1.(stack := w1.stack[..|w1.stack| - 1]))
  }

  /** Lines 181-191: every root in turn, with a fresh stack holding only
      the root. Every live vertex is started exactly once, whatever the
      edges, and each start is followed by one edge report per descendant,
      in Desc order. */
  method Traverse(g: Graph, roots: seq<Handle>) returns (order: seq<Handle>, events: seq<Visit>)
    requires Sound(g)
    requires forall v | v in roots :: v in g.verts
    requires forall v | v in g.verts :: v in roots
    ensures Distinct(order)
    ensures forall v :: v in order <==> v in g.verts
    ensures events == Blocks(g, order)
  {
    var w := Walk({}, [], [], []);
    for i := 0 to |roots|
      invariant WalkInv(g, w) && w.stack == []
      invariant forall j | 0 <= j < i :: roots[j] in w.visited
    {
      ghost var before := w.visited;
      w := DrainAsWritten(g, w.(stack := [roots[i]]));
      PrefixVisited(roots, i, before, w.visited);
    }
    order, events := w.order, w.events;
  }

  // ---------------------------------------------------------------------
  // The walk as intended

  /** Every descendant of a visited vertex is visited or still on the
      stack. */
  ghost predicate Frontier(g: Graph, w: Walk)
    requires WalkInv(g, w)
  {
    forall u, d | u in w.visited && d in Desc(g, u) :: d in w.visited || d in w.stack
  }

  /** The visited set is closed under edges. */
  ghost predicate Closed(g: Graph, visited: set<Handle>)
    requires visited <= g.verts.Keys
  {
    forall u, d | u in visited && d in Desc(g, u) :: d in visited
  }

  /** `pop_back()` first, then `go` on the popped vertex: every vertex that
      ever enters the stack is expanded. */
  function DrainCorrected(g: Graph, w: Walk): (r: Walk)
    requires WalkInv(g, w) && Frontier(g, w)
    ensures WalkInv(g, r) && r.stack == [] && w.visited <= r.visited
    ensures forall x | x in w.stack :: x in r.visited
    ensures Closed(g, r.visited)
    decreases |g.verts.Keys - w.visited|, |w.stack|
  {
    if |w.stack| == 0 then w
    else
      var v := w.stack[|w.stack| - 1];
      var rest := w.stack[..|w.stack| - 1];
      var w1 := Go(g, w.(stack := rest), v);
      VisitShrinks(g.verts.Keys, w.visited, v);
      PopKeepsFrontier(g, w);
      DrainCorrected(g, w1)
  }

  /** Popping the top and expanding it keeps every descendant of a visited
      vertex visited or on the stack. */
  lemma PopKeepsFrontier(g: Graph, w: Walk)
    requires WalkInv(g, w) && Frontier(g, w) && |w.stack| > 0
    ensures var rest := w.stack[..|w.stack| - 1];
            && WalkInv(g, w.(stack := rest))
            && var w1 := Go(g, w.(stack := rest), w.stack[|w.stack| - 1]);
               && Frontier(g, w1)
               && forall x | x in w.stack :: x in w1.visited || x in w1.stack
  {
    var v := w.stack[|w.stack| - 1];
    var rest := w.stack[..|w.stack| - 1];
    assert w.stack == rest + [v];
    var w1 := Go(g, w.(stack := rest), v);
    forall u, d | u in w1.visited && d in Desc(g, u)
      ensures d in w1.visited || d in w1.stack
    {
      if u !in w.visited {
        assert u == v;
        assert d in w1.stack[|rest|..];
      } else {
        assert d in w.visited || d in w.stack;
      }
    }
  }

  /** The walk from one root, done as intended, starts every vertex
      reachable from the root: the root is visited and the visited set is
      closed under edges. */
  function WalkFrom(g: Graph, w: Walk, root: Handle): (r: Walk)
    requires WalkInv(g, w) && w.stack == [] && Closed(g, w.visited) && root in g.verts
    ensures WalkInv(g, r) && root in r.visited && w.visited <= r.visited
    ensures Closed(g, r.visited)
  {
    DrainCorrected(g, w.(stack := [root]))
  }

  /** Roots before `i` stay visited once `roots[i]` is visited too. */
  lemma PrefixVisited(roots: seq<Handle>, i: nat, before: set<Handle>, after: set<Handle>)
    requires i < |roots| && before <= after && roots[i] in after
    requires forall j | 0 <= j < i :: roots[j] in before
    ensures forall j | 0 <= j < i + 1 :: roots[j] in after
  {
  }

  /** Traverse with the walk as intended: the same reports as a whole
      (every live vertex started once, each start followed by its edges),
      and after each root the visited set is closed under edges, so each
      root's walk has started everything reachable from it. */
  method TraverseCorrected(g: Graph, roots: seq<Handle>) returns (order: seq<Handle>, events: seq<Visit>)
    requires Sound(g)
    requires forall v | v in roots :: v in g.verts
    requires forall v | v in g.verts :: v in roots
    ensures Distinct(order)
    ensures forall v :: v in order <==> v in g.verts
    ensures events == Blocks(g, order)
  {
    var w := Walk({}, [], [], []);
    for i := 0 to |roots|
      invariant WalkInv(g, w) && w.stack == [] && Closed(g, w.visited)
      invariant forall j | 0 <= j < i :: roots[j] in w.visited
    {
      ghost var before := w.visited;
      w := WalkFrom(g, w, roots[i]);
      PrefixVisited(roots, i, before, w.visited);
    }
    order, events := w.order, w.events;
  }

  // ---------------------------------------------------------------------
  // What the reports say

  /** Each started vertex is reported started, and no other. */
  lemma {:induction false} BlocksStarts(g: Graph, order: seq<Handle>, v: Handle)
    requires forall x | x in order :: x in g.verts
    ensures Start(v) in Blocks(g, order) <==> v in order
  {
    if |order| > 0 {
      var init, last := order[..|order| - 1], order[|order| - 1];
      assert order == init + [last];
      BlocksStarts(g, init, v);
      EdgeVisitsAreEdges(last, Desc(g, last));
    }
  }

  /** A vertex's edge reports are edges, one per descendant. */
  lemma {:induction false} EdgeVisitsAreEdges(v: Handle, ds: seq<Handle>)
    ensures |EdgeVisits(v, ds)| == |ds|
    ensures forall i | 0 <= i < |ds| :: EdgeVisits(v, ds)[i] == Edge(v, ds[i])
  {
    if |ds| > 0 {
      EdgeVisitsAreEdges(v, ds[1..]);
    }
  }

  /** An edge u -> d is reported exactly when u was started and d is among
      u's descendants. */
  lemma {:induction false} BlocksEdges(g: Graph, order: seq<Handle>, u: Handle, d: Handle)
    requires forall x | x in order :: x in g.verts
    ensures Edge(u, d) in Blocks(g, order) <==> u in order && HasEdge(g, u, d)
  {
    if |order| > 0 {
      var init, last := order[..|order| - 1], order[|order| - 1];
      assert order == init + [last];
      BlocksEdges(g, init, u, d);
      var ds := Desc(g, last);
      EdgeVisitsAreEdges(last, ds);
      if u == last && d in ds {
        var i :| 0 <= i < |ds| && ds[i] == d;
        assert Expansion(g, last)[i + 1] == Edge(u, d);
      }
    }
  }

  /** Dropping the last element of a repeat-free list leaves a repeat-free
      list without that element. */
  lemma DistinctInit(s: seq<Handle>)
    requires Distinct(s) && |s| > 0
    ensures Distinct(s[..|s| - 1]) && s[|s| - 1] !in s[..|s| - 1]
  {
  }

  /** Expanding one more vertex adds one start report, its own. */
  lemma StartCountStep(g: Graph, order: seq<Handle>, v: Handle)
    requires forall x | x in order :: x in g.verts
    requires |order| > 0
    ensures multiset(Blocks(g, order))[Start(v)]
            == multiset(Blocks(g, order[..|order| - 1]))[Start(v)] + (if v == order[|order| - 1] then 1 else 0)
  {
    var last := order[|order| - 1];
    var e := EdgeVisits(last, Desc(g, last));
    assert Blocks(g, order) == Blocks(g, order[..|order| - 1]) + ([Start(last)] + e);
    EdgeVisitsAreEdges(last, Desc(g, last));
    assert multiset(e)[Start(v)] == 0;
  }

  /** An element other than the last is in the list without its last. */
  lemma InInit(s: seq<Handle>, x: Handle)
    requires x in s && x != s[|s| - 1]
    ensures x in s[..|s| - 1]
  {
    assert s == s[..|s| - 1] + [s[|s| - 1]];
  }

  /** With distinct starts, every started vertex is reported started
      exactly once. */
  lemma {:induction false} StartOnce(g: Graph, order: seq<Handle>, v: Handle)
    requires forall x | x in order :: x in g.verts
    requires Distinct(order) && v in order
    ensures multiset(Blocks(g, order))[Start(v)] == 1
  {
    var init, last := order[..|order| - 1], order[|order| - 1];
    DistinctInit(order);
    StartCountStep(g, order, v);
    if v == last {
      BlocksStarts(g, init, v);
    } else {
      InInit(order, v);
      StartOnce(g, init, v);
    }
  }

  // ---------------------------------------------------------------------
  // The walk as written skips a descendant

  /** Two vertices and their complements, k = 2: "AC" -> "CA" and the
      mirror "TG" -> "GT". */
  function TwoVertexGraph(): Graph
  {
    Graph(2, map[
      0 := Vertex([A, C], 1, map[A := 2]),
      1 := Vertex([G, T], 0, map[]),
      2 := Vertex([C, A], 3, map[]),
      3 := Vertex([T, G], 2, map[T := 1])],
      4, [])
  }

  lemma TwoVertexSound()
    ensures Sound(TwoVertexGraph())
  {
    var g := TwoVertexGraph();
    assert g.verts.Keys == {0, 1, 2, 3};
    forall h | h in g.verts
      ensures VertexSound(g, h) && h < g.next
    {
    }
    forall h, n | h in g.verts && n in g.verts[h].desc
      ensures g.verts[h].desc[n] in g.verts
    {
    }
  }

  lemma TwoVertexPairs()
    ensures forall h | h in TwoVertexGraph().verts :: PairLaw(TwoVertexGraph(), h)
  {
    var g := TwoVertexGraph();
    assert RevComp([A, C]) == [G, T] by { RevCompAt([A, C], 0); RevCompAt([A, C], 1); }
    assert RevComp([G, T]) == [A, C] by { RevCompAt([G, T], 0); RevCompAt([G, T], 1); }
    assert RevComp([C, A]) == [T, G] by { RevCompAt([C, A], 0); RevCompAt([C, A], 1); }
    assert RevComp([T, G]) == [C, A] by { RevCompAt([T, G], 0); RevCompAt([T, G], 1); }
    forall h | h in g.verts
      ensures PairLaw(g, h)
    {
      assert h == 0 || h == 1 || h == 2 || h == 3;
    }
  }

  lemma TwoVertexEdges()
    ensures forall h, n | h in TwoVertexGraph().verts && n in TwoVertexGraph().verts[h].desc
              :: EdgeLaw(TwoVertexGraph(), h, n)
  {
    var g := TwoVertexGraph();
    forall h, n | h in g.verts && n in g.verts[h].desc
      ensures EdgeLaw(g, h, n)
    {
      assert h == 0 || h == 1 || h == 2 || h == 3;
      if h == 0 {
        assert n == A;
        assert [A, C][1..] == [C, A][..1];
      } else if h == 3 {
        assert n == T;
        assert [T, G][1..] == [G, T][..1];
      }
    }
  }

  lemma TwoVertexValid()
    ensures Valid(TwoVertexGraph())
  {
    TwoVertexSound();
    TwoVertexPairs();
    TwoVertexEdges();
  }

  lemma TwoVertexDesc()
    ensures Desc(TwoVertexGraph(), 0) == [2]
  {
  }

  /** The state after the first `go(0)`: 0 started, 2 pushed above it. */
  function AfterFirstGo(): Walk
  {
    Walk({0}, [0], [0, 2], Expansion(TwoVertexGraph(), 0))
  }

  lemma StartWalk()
    ensures WalkInv(TwoVertexGraph(), Walk({}, [], [0], []))
  {
    TwoVertexSound();
    assert TwoVertexGraph().verts.Keys == {0, 1, 2, 3};
  }

  lemma FirstGo()
    ensures WalkInv(TwoVertexGraph(), Walk({}, [], [0], []))
    ensures Go(TwoVertexGraph(), Walk({}, [], [0], []), 0) == AfterFirstGo()
  {
    StartWalk();
    TwoVertexDesc();
    var w := Walk({}, [], [0], []);
    assert [] + [0] == [0] && w.stack + [2] == [0, 2];
    assert {} + {0} == {0};
  }

  lemma SecondGo()
    ensures WalkInv(TwoVertexGraph(), AfterFirstGo().(stack := [0]))
    ensures Go(TwoVertexGraph(), AfterFirstGo().(stack := [0]), 0) == AfterFirstGo().(stack := [0])
  {
    FirstGo();
  }

  /** The walk from vertex 0, as written, starts 0, reports the edge to 2,
      pushes 2 and pops it again unexpanded; 0 is popped next and the walk
      ends without reaching 2, although 2 is a descendant of 0. */
  lemma WalkAsWrittenMisses()
    ensures Valid(TwoVertexGraph())
    ensures WalkInv(TwoVertexGraph(), Walk({}, [], [0], []))
    ensures 2 in Desc(TwoVertexGraph(), 0)
    ensures DrainAsWritten(TwoVertexGraph(), Walk({}, [], [0], [])).visited == {0}
  {
    var g := TwoVertexGraph();
    TwoVertexValid();
    TwoVertexDesc();
    FirstGo();
    SecondGo();
    var w1 := AfterFirstGo().(stack := [0]);
    assert DrainAsWritten(g, Walk({}, [], [0], [])) == DrainAsWritten(g, w1);
    assert DrainAsWritten(g, w1) == DrainAsWritten(g, w1.(stack := []));
  }
}
