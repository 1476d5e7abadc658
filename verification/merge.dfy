/** Graph::Merge: v1 and its only successor v2 are replaced by one vertex v
    carrying v1's sequence followed by v2's past the k-1 overlap; the edges
    into v1 move to v, the edges into v2's complement move to v's
    complement, the merge is reported, and the old pairs are deleted.

    The two fix-up loops (lines 145 and 146) are one loop over the vertex
    `y` whose incoming edges move: v1 for the first, v2's complement for
    the second. Both are described by one slot table over the original
    graph: every vertex x other than v1 and v2's complement has an image
    Src(x) that carries x's outgoing edges (v for v2, v's complement for
    v1's complement, x itself otherwise), and every edge into y now enters
    Tgt(y) (v for v1, v's complement for v2's complement). */
module Merge {
  import opened Wrappers
  import opened Nucleotide
  import opened CondensedGraph
  import opened Relink

  // ---------------------------------------------------------------------
  // The precondition

  /** IsMergePossible (declared in the header, not defined in the
      repository): v1's only successor is v2, v2's only predecessor is v1,
      and the two vertices belong to different pairs. */
  predicate IsMergePossible(g: Graph, v1: Handle, v2: Handle)
    requires Sound(g) && v1 in g.verts && v2 in g.verts
  {
    SoundReadable(g, v2);
    v1 != v2 && v1 != Comp(g, v2) && Desc(g, v1) == [v2] && Anc(g, v2) == [v1]
  }

  /** Line 142: a valid graph and two live vertices that may be merged. */
  ghost predicate Mergeable(g: Graph, v1: Handle, v2: Handle)
  {
    Valid(g) && v1 in g.verts && v2 in g.verts && IsMergePossible(g, v1, v2)
  }

  /** The four handles of the two pairs are live and distinct, each pair is
      reverse-complementary, and every sequence is at least k long. */
  lemma MergeHandles(g: Graph, v1: Handle, v2: Handle)
    requires Mergeable(g, v1, v2)
    ensures var v1c, v2c := Comp(g, v1), Comp(g, v2);
            && v1c in g.verts && v2c in g.verts
            && Comp(g, v1c) == v1 && Comp(g, v2c) == v2
            && v1 != v1c && v1 != v2 && v1 != v2c && v1c != v2 && v1c != v2c && v2 != v2c
            && Nucls(g, v1c) == RevComp(Nucls(g, v1)) && Nucls(g, v2c) == RevComp(Nucls(g, v2))
            && g.k >= 1 && |Nucls(g, v1)| >= g.k && |Nucls(g, v2)| >= g.k
            && |Nucls(g, v1c)| >= g.k && |Nucls(g, v2c)| >= g.k
            && v1 < g.next && v2 < g.next && v1c < g.next && v2c < g.next
  {
    assert VertexSound(g, v1) && VertexSound(g, v2);
    assert VertexSound(g, Comp(g, v1)) && VertexSound(g, Comp(g, v2));
    assert PairLaw(g, v1) && PairLaw(g, v2);
    assert Allocated(g);
  }

  /** v1 has exactly one slot set: v2, under v2's key. */
  lemma V1Slots(g: Graph, v1: Handle, v2: Handle)
    requires Mergeable(g, v1, v2)
    ensures 1 <= g.k <= |Nucls(g, v2)|
    ensures forall n :: Slot(g, v1, n) == if n == Key(g, v2) then Some(v2) else None
  {
    assert VertexSound(g, v2);
    assert HasEdge(g, v1, v2) by {
      assert v2 in Desc(g, v1);
    }
    EdgeSlot(g, v1, v2);
    forall n
      ensures Slot(g, v1, n) == if n == Key(g, v2) then Some(v2) else None
    {
      if n in g.verts[v1].desc {
        SlotKey(g, v1, n);
        assert g.verts[v1].desc[n] in Desc(g, v1);
      }
    }
  }

  /** v2's complement has exactly one slot set: v1's complement, under its
      key. */
  lemma V2cSlots(g: Graph, v1: Handle, v2: Handle)
    requires Mergeable(g, v1, v2)
    ensures Comp(g, v1) in g.verts && Comp(g, v2) in g.verts && 1 <= g.k <= |Nucls(g, Comp(g, v1))|
    ensures forall n :: Slot(g, Comp(g, v2), n) == if n == Key(g, Comp(g, v1)) then Some(Comp(g, v1)) else None
  {
    MergeHandles(g, v1, v2);
    var v2c := Comp(g, v2);
    assert v1 in Anc(g, v2);
    AncMembership(g, v2, v1);
    EdgeSlot(g, v2c, Comp(g, v1));
    forall n
      ensures Slot(g, v2c, n) == if n == Key(g, Comp(g, v1)) then Some(Comp(g, v1)) else None
    {
      if n in g.verts[v2c].desc {
        SlotKey(g, v2c, n);
        var x := g.verts[v2c].desc[n];
        assert VertexSound(g, x);
        AncMembership(g, v2, Comp(g, x));
      }
    }
  }

  /** The only edge into v2 comes from v1. */
  lemma IntoV2(g: Graph, v1: Handle, v2: Handle, w: Handle, n: Nucl)
    requires Mergeable(g, v1, v2) && w in g.verts && Slot(g, w, n) == Some(v2)
    ensures w == v1
  {
    HoldsPoints(g.verts[w].desc, n, v2);
    MirrorEdge(g, w, v2);
    AncMembership(g, v2, w);
    assert w in Anc(g, v2);
  }

  /** The only edge into v1's complement comes from v2's complement. */
  lemma IntoV1c(g: Graph, v1: Handle, v2: Handle, w: Handle, n: Nucl)
    requires Mergeable(g, v1, v2) && w in g.verts && Comp(g, v1) in g.verts
    requires Slot(g, w, n) == Some(Comp(g, v1))
    ensures w == Comp(g, v2)
  {
    MergeHandles(g, v1, v2);
    HoldsPoints(g.verts[w].desc, n, Comp(g, v1));
    MirrorEdge(g, w, Comp(g, v1));
    assert Comp(g, w) in Desc(g, v1);
    assert VertexSound(g, w);
  }

  /** v1's sequence ends with the k-1 symbols v2's starts with. */
  lemma MergeOverlap(g: Graph, v1: Handle, v2: Handle)
    requires Mergeable(g, v1, v2)
    ensures Overlap(Nucls(g, v1), Nucls(g, v2), g.k)
  {
    V1Slots(g, v1, v2);
    assert Slot(g, v1, Key(g, v2)) == Some(v2);
    assert EdgeLaw(g, v1, Key(g, v2));
  }

  // ---------------------------------------------------------------------
  // The merged sequence

  /** Line 144: `v1->nucls() + v2->nucls().Subseq(k_ - 1)`. */
  function Joined(g: Graph, v1: Handle, v2: Handle): seq<Nucl>
    requires v1 in g.verts && v2 in g.verts && g.k >= 1 && |Nucls(g, v2)| >= g.k - 1
  {
    Nucls(g, v1) + Nucls(g, v2)[g.k - 1..]
  }

  /** Joining two sequences over a (k-1)-overlap: the result starts as the
      first and ends as the second, on both strands, and cutting it where
      the first ends gives both back. */
  lemma Joins(s1: seq<Nucl>, s2: seq<Nucl>, k: int)
    requires 1 <= k <= |s1| && k <= |s2| && Overlap(s1, s2, k)
    ensures var j := s1 + s2[k - 1..];
            && |j| == |s1| + |s2| - (k - 1) && |j| >= k
            && j[..k - 1] == s1[..k - 1] && j[k - 1] == s1[k - 1]
            && j[|j| - (k - 1)..] == s2[|s2| - (k - 1)..]
            && j[..|s1|] == s1 && j[|s1| - (k - 1)..] == s2
            && RevComp(j)[..k - 1] == RevComp(s2)[..k - 1] && RevComp(j)[k - 1] == RevComp(s2)[k - 1]
            && RevComp(j)[|j| - (k - 1)..] == RevComp(s1)[|s1| - (k - 1)..]
  {
    var j := s1 + s2[k - 1..];
    var p := |s1| - (k - 1);
    assert j == s1[..p] + s2 by {
      assert s1 == s1[..p] + s2[..k - 1];
      assert s2 == s2[..k - 1] + s2[k - 1..];
    }
    assert j[p..] == s2;
    assert j[..|s1|] == s1;
    RevCompSlice(j, p, |j|);
    assert j[p..|j|] == s2;
    RevCompSlice(j, 0, |s1|);
    assert j[0..|s1|] == s1;
    var r := RevComp(j);
    assert RevComp(s2) == r[..|s2|];
    assert RevComp(s1) == r[|j| - |s1|..];
    assert RevComp(s2)[..k - 1] == r[..k - 1];
    assert RevComp(s1)[|s1| - (k - 1)..] == r[|j| - (k - 1)..];
  }

  /** The handles AddVertex gives the merged pair. */
  function Vm(g: Graph): Handle { g.next }
  function Vmc(g: Graph): Handle { g.next + 1 }

  // ---------------------------------------------------------------------
  // Images

  /** The vertex that carries x's outgoing edges once the merge is done:
      v for v2, v's complement for v1's complement, x itself otherwise. */
  function Src(g: Graph, v1: Handle, v2: Handle, x: Handle): Handle
    requires v1 in g.verts
  {
    if x == v2 then Vm(g) else if x == Comp(g, v1) then Vmc(g) else x
  }

  /** The vertex an edge into y enters once the merge is done: v for v1,
      v's complement for v2's complement, y itself otherwise. */
  function Tgt(g: Graph, v1: Handle, v2: Handle, y: Handle): Handle
    requires v2 in g.verts
  {
    if y == v1 then Vm(g) else if y == Comp(g, v2) then Vmc(g) else y
  }

  /** The two vertices whose incoming edges move: v1 (line 145) and v2's
      complement (line 146). */
  predicate Moved(g: Graph, v1: Handle, v2: Handle, y: Handle)
    requires v2 in g.verts
  {
    y == v1 || y == Comp(g, v2)
  }

  /** The ancestor of y whose edge becomes the merged vertex's self-loop
      case: v2 for v1, v1's complement for v2's complement. */
  function LoopAnc(g: Graph, v1: Handle, v2: Handle, y: Handle): Handle
    requires v1 in g.verts
  {
    if y == v1 then v2 else Comp(g, v1)
  }

  /** The records of the merged pair are in place in `r`, every original
      vertex outside the two pairs is live in `r`, and every original vertex
      live in `r` keeps its sequence and complement. */
  ghost predicate Recorded(g: Graph, v1: Handle, v2: Handle, r: Graph)
    requires Mergeable(g, v1, v2)
  {
    assert VertexSound(g, v2);
    var j := Joined(g, v1, v2);
    && r.k == g.k
    && (forall h | h in g.verts && h in r.verts ::
          r.verts[h].nucls == g.verts[h].nucls && r.verts[h].complement == g.verts[h].complement)
    && (forall h | h in g.verts && h != v1 && h != v2 && h != Comp(g, v1) && h != Comp(g, v2) :: h in r.verts)
    && Vm(g) in r.verts && Nucls(r, Vm(g)) == j && Comp(r, Vm(g)) == Vmc(g)
    && Vmc(g) in r.verts && Nucls(r, Vmc(g)) == RevComp(j) && Comp(r, Vmc(g)) == Vm(g)
  }

  /** The live set while both the old pairs and the merged pair are live. */
  ghost predicate Grown(g: Graph, r: Graph)
  {
    r.verts.Keys == g.verts.Keys + {Vm(g), Vmc(g)}
  }

  /** A live vertex other than the merged pair is an original one. */
  lemma GrownOld(g: Graph, r: Graph, w: Handle)
    requires Grown(g, r) && w in r.verts && w != Vm(g) && w != Vmc(g)
    ensures w in g.verts
  {
    assert w in r.verts.Keys;
  }

  /** A source image keeps the last k-1 symbols of the vertex it stands for,
      and its complement is the target image of that vertex's complement. */
  lemma SrcRecord(g: Graph, v1: Handle, v2: Handle, r: Graph, x: Handle)
    requires Mergeable(g, v1, v2) && Recorded(g, v1, v2, r)
    requires x in g.verts && x != v1 && x != Comp(g, v2)
    ensures Comp(g, x) in g.verts && Src(g, v1, v2, x) in r.verts
    ensures Comp(r, Src(g, v1, v2, x)) == Tgt(g, v1, v2, Comp(g, x))
    ensures var a, s := Nucls(r, Src(g, v1, v2, x)), Nucls(g, x);
            && |a| >= g.k && |s| >= g.k
            && a[|a| - (g.k - 1)..] == s[|s| - (g.k - 1)..]
  {
    MergeHandles(g, v1, v2);
    if x == v2 || x == Comp(g, v1) {
      MergedEnds(g, v1, v2, r);
    } else {
      assert VertexSound(g, x);
    }
  }

  /** Joins, read on sequences named by their roles: the joined sequence,
      its reverse complement, the two parts and their reverse complements. */
  lemma JoinedEnds(k: int, j: seq<Nucl>, jc: seq<Nucl>, s1: seq<Nucl>, s2: seq<Nucl>, s1c: seq<Nucl>, s2c: seq<Nucl>)
    requires 1 <= k <= |s1| && k <= |s2| && Overlap(s1, s2, k)
    requires j == s1 + s2[k - 1..] && jc == RevComp(j) && s1c == RevComp(s1) && s2c == RevComp(s2)
    ensures |j| >= k && |jc| >= k && |s1c| >= k && |s2c| >= k
    ensures j[|j| - (k - 1)..] == s2[|s2| - (k - 1)..]
    ensures jc[|jc| - (k - 1)..] == s1c[|s1c| - (k - 1)..]
    ensures j[..k - 1] == s1[..k - 1] && j[k - 1] == s1[k - 1]
    ensures jc[..k - 1] == s2c[..k - 1] && jc[k - 1] == s2c[k - 1]
  {
    Joins(s1, s2, k);
  }

  /** The merged vertex ends as v2 does, its complement as v1's complement
      does; the merged vertex starts as v1 does, its complement as v2's
      complement does. */
  lemma MergedEnds(g: Graph, v1: Handle, v2: Handle, r: Graph)
    requires Mergeable(g, v1, v2) && Recorded(g, v1, v2, r)
    ensures Comp(g, v1) in g.verts && Comp(g, v2) in g.verts
    ensures var k, j, jc := g.k, Nucls(r, Vm(g)), Nucls(r, Vmc(g));
            var s1, s2, s1c, s2c := Nucls(g, v1), Nucls(g, v2), Nucls(g, Comp(g, v1)), Nucls(g, Comp(g, v2));
            && k >= 1 && |j| >= k && |jc| >= k && |s1| >= k && |s2| >= k && |s1c| >= k && |s2c| >= k
            && j[|j| - (k - 1)..] == s2[|s2| - (k - 1)..]
            && jc[|jc| - (k - 1)..] == s1c[|s1c| - (k - 1)..]
            && j[..k - 1] == s1[..k - 1] && j[k - 1] == s1[k - 1]
            && jc[..k - 1] == s2c[..k - 1] && jc[k - 1] == s2c[k - 1]
  {
    MergeHandles(g, v1, v2);
    MergeOverlap(g, v1, v2);
    JoinedEnds(g.k, Nucls(r, Vm(g)), Nucls(r, Vmc(g)),
               Nucls(g, v1), Nucls(g, v2), Nucls(g, Comp(g, v1)), Nucls(g, Comp(g, v2)));
  }

  /** A target image keeps the first k symbols of the vertex it stands for,
      so it is stored under the same key, and its complement is the source
      image of that vertex's complement. */
  lemma TgtRecord(g: Graph, v1: Handle, v2: Handle, r: Graph, y: Handle)
    requires Mergeable(g, v1, v2) && Recorded(g, v1, v2, r)
    requires y in g.verts && y != v2 && y != Comp(g, v1)
    ensures Comp(g, y) in g.verts && Tgt(g, v1, v2, y) in r.verts
    ensures Comp(r, Tgt(g, v1, v2, y)) == Src(g, v1, v2, Comp(g, y))
    ensures var d, s := Nucls(r, Tgt(g, v1, v2, y)), Nucls(g, y);
            && |d| >= g.k && |s| >= g.k
            && d[..g.k - 1] == s[..g.k - 1] && d[g.k - 1] == s[g.k - 1]
            && Key(r, Tgt(g, v1, v2, y)) == Key(g, y)
  {
    MergeHandles(g, v1, v2);
    if y == v1 || y == Comp(g, v2) {
      MergedEnds(g, v1, v2, r);
    } else {
      assert VertexSound(g, y);
    }
  }

  /** The image of an edge x -> y keeps x's last k-1 symbols at its source
      and y's first k symbols at its target. */
  lemma ImageEnds(g: Graph, v1: Handle, v2: Handle, r: Graph, x: Handle, y: Handle)
    requires Mergeable(g, v1, v2) && Recorded(g, v1, v2, r)
    requires x in g.verts && x != v1 && x != Comp(g, v2)
    requires y in g.verts && y != v2 && y != Comp(g, v1)
    ensures Src(g, v1, v2, x) in r.verts && Tgt(g, v1, v2, y) in r.verts
    ensures EndsKept(Nucls(g, x), Nucls(g, y), Nucls(r, Src(g, v1, v2, x)), Nucls(r, Tgt(g, v1, v2, y)), g.k)
  {
    SrcRecord(g, v1, v2, r, x);
    TgtRecord(g, v1, v2, r, y);
  }

  // ---------------------------------------------------------------------
  // The slot table

  /** An edge into y now enters Tgt(y); an empty slot stays empty. */
  function Redirect(g: Graph, v1: Handle, v2: Handle, o: Option<Handle>): Option<Handle>
    requires v2 in g.verts
  {
    if o.Some? then Some(Tgt(g, v1, v2, o.value)) else None
  }

  /** The slots once both loops have run: the merged vertex takes over v2's
      outgoing edges, its complement those of v1's complement, every other
      original vertex keeps its own; every edge is redirected. */
  ghost function Expected(g: Graph, v1: Handle, v2: Handle, w: Handle, n: Nucl): Option<Handle>
    requires Mergeable(g, v1, v2)
  {
    assert VertexSound(g, v1);
    if w == Vm(g) then Redirect(g, v1, v2, Slot(g, v2, n))
    else if w == Vmc(g) then Redirect(g, v1, v2, Slot(g, Comp(g, v1), n))
    else if w in g.verts then Redirect(g, v1, v2, Slot(g, w, n))
    else None
  }

  ghost function Table(g: Graph, v1: Handle, v2: Handle): (Handle, Nucl) -> Option<Handle>
    requires Mergeable(g, v1, v2)
  {
    (w, n) => Expected(g, v1, v2, w, n)
  }

  /** The table's row for a source image is the original vertex's slots,
      redirected. */
  lemma ExpectedSrc(g: Graph, v1: Handle, v2: Handle, x: Handle, n: Nucl)
    requires Mergeable(g, v1, v2) && x in g.verts && x != v1 && x != Comp(g, v2)
    ensures Expected(g, v1, v2, Src(g, v1, v2, x), n) == Redirect(g, v1, v2, Slot(g, x, n))
  {
    MergeHandles(g, v1, v2);
  }

  // ---------------------------------------------------------------------
  // One step of a fix-up loop

  /** An ancestor `a` of a vertex whose edges move is neither v1 nor v2's
      complement, and neither is its complement's image side; `a` holds y
      under y's key and y's complement holds a's complement under its key. */
  lemma AncFacts(g: Graph, v1: Handle, v2: Handle, y: Handle, a: Handle)
    requires Mergeable(g, v1, v2) && Moved(g, v1, v2, y) && y in g.verts && a in Anc(g, y)
    ensures a in g.verts && Comp(g, a) in g.verts && Comp(g, y) in g.verts
    ensures a != v1 && a != Comp(g, v2) && Comp(g, a) != v2 && Comp(g, a) != Comp(g, v1)
    ensures 1 <= g.k <= |Nucls(g, y)| && |Nucls(g, Comp(g, a))| >= g.k
    ensures Slot(g, a, Key(g, y)) == Some(y)
    ensures Slot(g, Comp(g, y), Key(g, Comp(g, a))) == Some(Comp(g, a))
    ensures Overlap(Nucls(g, a), Nucls(g, y), g.k)
  {
    MergeHandles(g, v1, v2);
    AncEdges(g, y, a);
    assert VertexSound(g, a);
    V1Slots(g, v1, v2);
    V2cSlots(g, v1, v2);
    assert Slot(g, a, Key(g, y)) == Some(y);
    assert EdgeLaw(g, a, Key(g, y));
  }

  /** The step of the loop for y's ancestor `a`: it links a's source image
      to y's target image, and writes the mirror edge from the image of y's
      complement to the target image of a's complement. */
  lemma ImageStep(g: Graph, v1: Handle, v2: Handle, r: Graph, y: Handle, a: Handle)
    requires Mergeable(g, v1, v2) && Sound(r) && Grown(g, r) && Recorded(g, v1, v2, r)
    requires Moved(g, v1, v2, y) && y in g.verts && a in Anc(g, y)
    ensures y in r.verts && Tgt(g, v1, v2, y) in r.verts && a in g.verts && Comp(g, a) in g.verts
    ensures Comp(g, y) in g.verts && 1 <= g.k <= |Nucls(g, y)| && |Nucls(g, Comp(g, a))| >= g.k
    ensures var t := Tgt(g, v1, v2, y);
            && Source(r, a, y, t, LoopAnc(g, v1, v2, y), t) == Src(g, v1, v2, a)
            && AreLinkable(r, Src(g, v1, v2, a), t)
            && StepWrites(r, a, y, t, LoopAnc(g, v1, v2, y), t)
               == [Write(Src(g, v1, v2, a), Key(g, y), t),
                   Write(Src(g, v1, v2, Comp(g, y)), Key(g, Comp(g, a)), Tgt(g, v1, v2, Comp(g, a)))]
  {
    ImageSource(g, v1, v2, r, y, a);
    AncFacts(g, v1, v2, y, a);
    SrcRecord(g, v1, v2, r, a);
    TgtRecord(g, v1, v2, r, y);
    TgtRecord(g, v1, v2, r, Comp(g, a));
    var t, s := Tgt(g, v1, v2, y), Src(g, v1, v2, a);
    assert Key(r, t) == Key(g, y) && Comp(r, t) == Src(g, v1, v2, Comp(g, y));
    assert Comp(r, s) == Tgt(g, v1, v2, Comp(g, a));
  }

  /** Where the step links from: a's source image, which can be linked to
      y's target image. */
  lemma ImageSource(g: Graph, v1: Handle, v2: Handle, r: Graph, y: Handle, a: Handle)
    requires Mergeable(g, v1, v2) && Sound(r) && Grown(g, r) && Recorded(g, v1, v2, r)
    requires Moved(g, v1, v2, y) && y in g.verts && a in Anc(g, y)
    ensures y in r.verts && Tgt(g, v1, v2, y) in r.verts
    ensures var t := Tgt(g, v1, v2, y);
            && Source(r, a, y, t, LoopAnc(g, v1, v2, y), t) == Src(g, v1, v2, a)
            && AreLinkable(r, Src(g, v1, v2, a), t)
  {
    MergeHandles(g, v1, v2);
    assert y in r.verts.Keys;
    TgtRecord(g, v1, v2, r, y);
    ImageLinkable(g, v1, v2, r, y, a);
  }

  /** An edge a -> y of the original graph can be drawn between the images. */
  lemma ImageLinkable(g: Graph, v1: Handle, v2: Handle, r: Graph, y: Handle, a: Handle)
    requires Mergeable(g, v1, v2) && Recorded(g, v1, v2, r)
    requires Moved(g, v1, v2, y) && y in g.verts && a in Anc(g, y)
    ensures AreLinkable(r, Src(g, v1, v2, a), Tgt(g, v1, v2, y))
  {
    MergeHandles(g, v1, v2);
    AncFacts(g, v1, v2, y, a);
    ImageEnds(g, v1, v2, r, a, y);
    OverlapMoved(Nucls(g, a), Nucls(g, y), Nucls(r, Src(g, v1, v2, a)), Nucls(r, Tgt(g, v1, v2, y)), g.k);
  }

  /** Both writes of the step put what the table prescribes. */
  lemma ImageStepAgrees(g: Graph, v1: Handle, v2: Handle, r: Graph, y: Handle, a: Handle)
    requires Mergeable(g, v1, v2) && Sound(r) && Grown(g, r) && Recorded(g, v1, v2, r)
    requires Moved(g, v1, v2, y) && y in g.verts && a in Anc(g, y)
    ensures y in r.verts && Tgt(g, v1, v2, y) in r.verts
    ensures var t := Tgt(g, v1, v2, y);
            && AreLinkable(r, Source(r, a, y, t, LoopAnc(g, v1, v2, y), t), t)
            && StepAgrees(r, a, y, t, LoopAnc(g, v1, v2, y), t, Table(g, v1, v2))
  {
    ImageStep(g, v1, v2, r, y, a);
    AncFacts(g, v1, v2, y, a);
    MergeHandles(g, v1, v2);
    ExpectedSrc(g, v1, v2, a, Key(g, y));
    ExpectedSrc(g, v1, v2, Comp(g, y), Key(g, Comp(g, a)));
  }

  // ---------------------------------------------------------------------
  // A whole fix-up loop

  /** What a loop needs of the graph it runs on: the merged pair is
      recorded and y's ancestors are those of the original graph. */
  ghost predicate Ready(g: Graph, v1: Handle, v2: Handle, r: Graph, y: Handle)
    requires Mergeable(g, v1, v2)
  {
    && Sound(r) && Grown(g, r) && Recorded(g, v1, v2, r)
    && Moved(g, v1, v2, y) && y in g.verts && Readable(g, y)
    && Readable(r, y) && Anc(r, y) == Anc(g, y)
  }

  lemma ReadyLinkable(g: Graph, v1: Handle, v2: Handle, r: Graph, y: Handle)
    requires Mergeable(g, v1, v2) && Ready(g, v1, v2, r, y)
    ensures var t := Tgt(g, v1, v2, y);
            y in r.verts && t in r.verts && Linkable(r, Anc(r, y), y, t, LoopAnc(g, v1, v2, y), t)
  {
    var t := Tgt(g, v1, v2, y);
    forall a | a in Anc(r, y)
      ensures y in r.verts && t in r.verts && AreLinkable(r, Source(r, a, y, t, LoopAnc(g, v1, v2, y), t), t)
    {
      ImageStep(g, v1, v2, r, y, a);
    }
    MergeHandles(g, v1, v2);
    assert y in r.verts.Keys;
  }

  /** Lines 145-146: FixIncomingOnMerge(y, LoopAnc(y), Tgt(y)). */
  function FixAt(g: Graph, v1: Handle, v2: Handle, r: Graph, y: Handle): (r': Graph)
    requires Mergeable(g, v1, v2) && Ready(g, v1, v2, r, y)
    ensures Sound(r') && SameVertices(r, r') && r'.next == r.next && r'.log == r.log
  {
    ReadyLinkable(g, v1, v2, r, y);
    FixIncomingOnMerge(r, y, LoopAnc(g, v1, v2, y), Tgt(g, v1, v2, y))
  }

  /** The writes of that loop. */
  ghost function FixPlan(g: Graph, v1: Handle, v2: Handle, r: Graph, y: Handle): seq<Write>
    requires Mergeable(g, v1, v2) && Ready(g, v1, v2, r, y)
  {
    ReadyLinkable(g, v1, v2, r, y);
    var t := Tgt(g, v1, v2, y);
    Plan(r, Anc(r, y), y, t, LoopAnc(g, v1, v2, y), t)
  }

  /** After the loop a written slot holds the table's value and every other
      slot what it held before. */
  lemma FixSlots(g: Graph, v1: Handle, v2: Handle, r: Graph, y: Handle)
    requires Mergeable(g, v1, v2) && Ready(g, v1, v2, r, y)
    ensures forall w, n | w in r.verts ::
              Slot(FixAt(g, v1, v2, r, y), w, n)
              == if Touches(FixPlan(g, v1, v2, r, y), w, n) then Expected(g, v1, v2, w, n) else Slot(r, w, n)
  {
    ReadyLinkable(g, v1, v2, r, y);
    var t, l := Tgt(g, v1, v2, y), LoopAnc(g, v1, v2, y);
    forall a | a in Anc(r, y)
      ensures StepAgrees(r, a, y, t, l, t, Table(g, v1, v2))
    {
      ImageStepAgrees(g, v1, v2, r, y, a);
    }
    AgreesFromSteps(r, Anc(r, y), y, t, l, t, Table(g, v1, v2));
    RelinkAllSlots(r, Anc(r, y), y, t, l, t, Table(g, v1, v2));
  }

  /** The loop writes only into the merged pair and into original vertices
      outside the two old pairs. */
  lemma FixTouched(g: Graph, v1: Handle, v2: Handle, r: Graph, y: Handle, w: Handle, n: Nucl)
    requires Mergeable(g, v1, v2) && Ready(g, v1, v2, r, y)
    requires Touches(FixPlan(g, v1, v2, r, y), w, n)
    ensures Comp(g, v1) in g.verts && Comp(g, v2) in g.verts
    ensures w == Vm(g) || w == Vmc(g)
            || (w in g.verts && w != v1 && w != v2 && w != Comp(g, v1) && w != Comp(g, v2))
  {
    MergeHandles(g, v1, v2);
    ReadyLinkable(g, v1, v2, r, y);
    var t, l := Tgt(g, v1, v2, y), LoopAnc(g, v1, v2, y);
    var anc := Anc(r, y);
    TouchedBy(r, anc, y, t, l, t, w, n);
    var j :| 0 <= j < |anc| &&
             var f := StepWrites(r, anc[j], y, t, l, t);
             (f[0].at == w && f[0].slot == n) || (f[1].at == w && f[1].slot == n);
    ImageStep(g, v1, v2, r, y, anc[j]);
    AncFacts(g, v1, v2, y, anc[j]);
  }

  /** The loop rewrites every slot of an outside vertex that held y. */
  lemma FixCovers(g: Graph, v1: Handle, v2: Handle, r: Graph, y: Handle, w: Handle, n: Nucl)
    requires Mergeable(g, v1, v2) && Ready(g, v1, v2, r, y)
    requires w in g.verts && w != v1 && w != v2 && w != Comp(g, v1) && w != Comp(g, v2)
    requires Slot(g, w, n) == Some(y)
    ensures Touches(FixPlan(g, v1, v2, r, y), w, n)
  {
    MergeHandles(g, v1, v2);
    ReadyLinkable(g, v1, v2, r, y);
    assert VertexSound(g, w) && VertexSound(g, y);
    HoldsPoints(DescOf(g, w), n, y);
    MirrorEdge(g, w, y);
    AncMembership(g, y, w);
    SlotKey(g, w, n);
    var t, l := Tgt(g, v1, v2, y), LoopAnc(g, v1, v2, y);
    var anc := Anc(r, y);
    var j :| 0 <= j < |anc| && anc[j] == w;
    ImageStep(g, v1, v2, r, y, w);
    StepTouches(r, anc, y, t, l, t, j);
  }

  /** The loop fills every slot of the image of y's complement that y's
      complement had filled. */
  lemma FixCoversImage(g: Graph, v1: Handle, v2: Handle, r: Graph, y: Handle, n: Nucl)
    requires Mergeable(g, v1, v2) && Ready(g, v1, v2, r, y)
    requires Comp(g, y) in g.verts && Slot(g, Comp(g, y), n).Some?
    ensures Touches(FixPlan(g, v1, v2, r, y), Src(g, v1, v2, Comp(g, y)), n)
  {
    ReadyLinkable(g, v1, v2, r, y);
    var yc := Comp(g, y);
    var x := Slot(g, yc, n).value;
    SlotKey(g, yc, n);
    assert VertexSound(g, y) && VertexSound(g, x);
    var a := Comp(g, x);
    AncMembership(g, y, a);
    var t, l := Tgt(g, v1, v2, y), LoopAnc(g, v1, v2, y);
    var anc := Anc(r, y);
    var j :| 0 <= j < |anc| && anc[j] == a;
    ImageStep(g, v1, v2, r, y, a);
    StepTouches(r, anc, y, t, l, t, j);
  }

  // ---------------------------------------------------------------------
  // The stages of Merge

  /** Line 144: AddVertex(v1.nucls + v2.nucls[k-1..]). */
  function WithMerged(g: Graph, v1: Handle, v2: Handle): (r: Graph)
    requires Mergeable(g, v1, v2)
    ensures Sound(r) && r.k == g.k
  {
    MergeHandles(g, v1, v2);
    MergeOverlap(g, v1, v2);
    Joins(Nucls(g, v1), Nucls(g, v2), g.k);
    AddVertexSound(g, Joined(g, v1, v2));
    AddVertex(g, Joined(g, v1, v2)).0
  }

  lemma WithMergedShape(g: Graph, v1: Handle, v2: Handle)
    requires Mergeable(g, v1, v2)
    ensures var r := WithMerged(g, v1, v2);
            && Grown(g, r) && Recorded(g, v1, v2, r)
            && r.next == g.next + 2 && r.log == g.log + [Added(Vm(g))]
            && (forall h | h in g.verts :: r.verts[h] == g.verts[h])
            && DescOf(r, Vm(g)) == NoSlots && DescOf(r, Vmc(g)) == NoSlots
  {
    MergeHandles(g, v1, v2);
  }

  /** Records survive a stage that changes only slots. */
  lemma RecordedKept(g: Graph, v1: Handle, v2: Handle, r: Graph, r': Graph)
    requires Mergeable(g, v1, v2) && Grown(g, r) && Recorded(g, v1, v2, r) && SameVertices(r, r')
    ensures Grown(g, r') && Recorded(g, v1, v2, r')
  {
  }

  lemma FirstReady(g: Graph, v1: Handle, v2: Handle)
    requires Mergeable(g, v1, v2)
    ensures Ready(g, v1, v2, WithMerged(g, v1, v2), v1)
  {
    var r := WithMerged(g, v1, v2);
    MergeHandles(g, v1, v2);
    WithMergedShape(g, v1, v2);
    SoundReadable(g, v1);
    AncSame(g, r, v1);
  }

  /** Line 145: FixIncomingOnMerge(v1, v2, v). */
  function FirstFix(g: Graph, v1: Handle, v2: Handle): (r: Graph)
    requires Mergeable(g, v1, v2)
    ensures Sound(r) && r.k == g.k
  {
    FirstReady(g, v1, v2);
    FixAt(g, v1, v2, WithMerged(g, v1, v2), v1)
  }

  ghost function FirstPlan(g: Graph, v1: Handle, v2: Handle): seq<Write>
    requires Mergeable(g, v1, v2)
  {
    FirstReady(g, v1, v2);
    FixPlan(g, v1, v2, WithMerged(g, v1, v2), v1)
  }

  lemma FirstRecords(g: Graph, v1: Handle, v2: Handle)
    requires Mergeable(g, v1, v2)
    ensures var r := FirstFix(g, v1, v2);
            && Grown(g, r) && Recorded(g, v1, v2, r)
            && r.next == g.next + 2 && r.log == g.log + [Added(Vm(g))]
  {
    WithMergedShape(g, v1, v2);
    FirstReady(g, v1, v2);
    RecordedKept(g, v1, v2, WithMerged(g, v1, v2), FirstFix(g, v1, v2));
  }

  /** A fix-up loop leaves the slots of the two old pairs as they were. */
  lemma FixKeeps(g: Graph, v1: Handle, v2: Handle, r: Graph, y: Handle, x: Handle, n: Nucl)
    requires Mergeable(g, v1, v2) && Ready(g, v1, v2, r, y)
    requires x in r.verts && (x == v1 || x == v2 || x == Comp(g, v1) || x == Comp(g, v2))
    ensures Slot(FixAt(g, v1, v2, r, y), x, n) == Slot(r, x, n)
  {
    FixSlots(g, v1, v2, r, y);
    if Touches(FixPlan(g, v1, v2, r, y), x, n) {
      FixTouched(g, v1, v2, r, y, x, n);
      MergeHandles(g, v1, v2);
    }
  }

  /** Line 145 leaves the slots of the two old pairs as they were. */
  lemma FirstKeeps(g: Graph, v1: Handle, v2: Handle, x: Handle, n: Nucl)
    requires Mergeable(g, v1, v2) && x in g.verts
    requires x == v1 || x == v2 || x == Comp(g, v1) || x == Comp(g, v2)
    ensures x in FirstFix(g, v1, v2).verts
    ensures Slot(FirstFix(g, v1, v2), x, n) == Slot(g, x, n)
  {
    var r := WithMerged(g, v1, v2);
    assert x in r.verts && Slot(r, x, n) == Slot(g, x, n) by {
      WithMergedShape(g, v1, v2);
    }
    FirstReady(g, v1, v2);
    FixKeeps(g, v1, v2, r, v1, x, n);
    assert FirstFix(g, v1, v2) == FixAt(g, v1, v2, r, v1);
  }

  lemma SecondReady(g: Graph, v1: Handle, v2: Handle)
    requires Mergeable(g, v1, v2)
    ensures Comp(g, v2) in g.verts && Ready(g, v1, v2, FirstFix(g, v1, v2), Comp(g, v2))
  {
    var r := FirstFix(g, v1, v2);
    MergeHandles(g, v1, v2);
    FirstRecords(g, v1, v2);
    SoundReadable(g, Comp(g, v2));
    forall n
      ensures Slot(r, v2, n) == Slot(g, v2, n)
    {
      FirstKeeps(g, v1, v2, v2, n);
    }
    SlotsEqual(g, r, v2);
    AncSame(g, r, Comp(g, v2));
  }

  /** Line 146: FixIncomingOnMerge(v2.complement, v1.complement, v.complement). */
  function SecondFix(g: Graph, v1: Handle, v2: Handle): (r: Graph)
    requires Mergeable(g, v1, v2)
    ensures Sound(r) && r.k == g.k
  {
    SecondReady(g, v1, v2);
    FixAt(g, v1, v2, FirstFix(g, v1, v2), Comp(g, v2))
  }

  ghost function SecondPlan(g: Graph, v1: Handle, v2: Handle): seq<Write>
    requires Mergeable(g, v1, v2)
  {
    SecondReady(g, v1, v2);
    FixPlan(g, v1, v2, FirstFix(g, v1, v2), Comp(g, v2))
  }

  lemma SecondRecords(g: Graph, v1: Handle, v2: Handle)
    requires Mergeable(g, v1, v2)
    ensures var r := SecondFix(g, v1, v2);
            && Grown(g, r) && Recorded(g, v1, v2, r)
            && r.next == g.next + 2 && r.log == g.log + [Added(Vm(g))]
  {
    FirstRecords(g, v1, v2);
    SecondReady(g, v1, v2);
    RecordedKept(g, v1, v2, FirstFix(g, v1, v2), SecondFix(g, v1, v2));
  }

  /** Line 146 leaves the slots of the two old pairs as they were. */
  lemma SecondKeeps(g: Graph, v1: Handle, v2: Handle, x: Handle, n: Nucl)
    requires Mergeable(g, v1, v2) && x in g.verts
    requires x == v1 || x == v2 || x == Comp(g, v1) || x == Comp(g, v2)
    ensures x in SecondFix(g, v1, v2).verts
    ensures Slot(SecondFix(g, v1, v2), x, n) == Slot(g, x, n)
  {
    var r := FirstFix(g, v1, v2);
    FirstKeeps(g, v1, v2, x, n);
    SecondReady(g, v1, v2);
    FixKeeps(g, v1, v2, r, Comp(g, v2), x, n);
    assert SecondFix(g, v1, v2) == FixAt(g, v1, v2, r, Comp(g, v2));
  }

  // ---------------------------------------------------------------------
  // The slot table after both loops

  /** An original vertex outside the two pairs that neither loop writes
      held no edge into the two old pairs, so it already matched the
      table. */
  lemma UntouchedOld(g: Graph, v1: Handle, v2: Handle, w: Handle, n: Nucl)
    requires Mergeable(g, v1, v2)
    requires w in g.verts && w != v1 && w != v2 && w != Comp(g, v1) && w != Comp(g, v2)
    requires !Touches(FirstPlan(g, v1, v2), w, n) && !Touches(SecondPlan(g, v1, v2), w, n)
    ensures Slot(g, w, n) == Expected(g, v1, v2, w, n)
  {
    UntouchedNotV1(g, v1, v2, w, n);
    UntouchedNotV2c(g, v1, v2, w, n);
    ExpectedSrc(g, v1, v2, w, n);
    assert Src(g, v1, v2, w) == w;
    RedirectKeeps(g, v1, v2, Slot(g, w, n));
  }

  /** Redirection changes only edges into v1 and v2's complement. */
  lemma RedirectKeeps(g: Graph, v1: Handle, v2: Handle, o: Option<Handle>)
    requires v2 in g.verts && o != Some(v1) && o != Some(Comp(g, v2))
    ensures Redirect(g, v1, v2, o) == o
  {
  }

  lemma UntouchedNotV1(g: Graph, v1: Handle, v2: Handle, w: Handle, n: Nucl)
    requires Mergeable(g, v1, v2)
    requires w in g.verts && w != v1 && w != v2 && w != Comp(g, v1) && w != Comp(g, v2)
    requires !Touches(FirstPlan(g, v1, v2), w, n)
    ensures Slot(g, w, n) != Some(v1)
  {
    if Slot(g, w, n) == Some(v1) {
      FirstReady(g, v1, v2);
      FixCovers(g, v1, v2, WithMerged(g, v1, v2), v1, w, n);
    }
  }

  lemma UntouchedNotV2c(g: Graph, v1: Handle, v2: Handle, w: Handle, n: Nucl)
    requires Mergeable(g, v1, v2)
    requires w in g.verts && w != v1 && w != v2 && w != Comp(g, v1) && w != Comp(g, v2)
    requires !Touches(SecondPlan(g, v1, v2), w, n)
    ensures Slot(g, w, n) != Some(Comp(g, v2))
  {
    if Slot(g, w, n) == Some(Comp(g, v2)) {
      SecondReady(g, v1, v2);
      FixCovers(g, v1, v2, FirstFix(g, v1, v2), Comp(g, v2), w, n);
    }
  }

  /** A slot of the merged vertex that line 146 leaves alone was empty in
      v2. */
  lemma UntouchedVm(g: Graph, v1: Handle, v2: Handle, n: Nucl)
    requires Mergeable(g, v1, v2) && !Touches(SecondPlan(g, v1, v2), Vm(g), n)
    ensures Slot(g, v2, n) == None
  {
    if Slot(g, v2, n).Some? {
      MergeHandles(g, v1, v2);
      SecondReady(g, v1, v2);
      FixCoversImage(g, v1, v2, FirstFix(g, v1, v2), Comp(g, v2), n);
    }
  }

  /** A slot of the merged vertex's complement that line 145 leaves alone
      was empty in v1's complement. */
  lemma UntouchedVmc(g: Graph, v1: Handle, v2: Handle, n: Nucl)
    requires Mergeable(g, v1, v2) && Comp(g, v1) in g.verts
    requires !Touches(FirstPlan(g, v1, v2), Vmc(g), n)
    ensures Slot(g, Comp(g, v1), n) == None
  {
    if Slot(g, Comp(g, v1), n).Some? {
      MergeHandles(g, v1, v2);
      FirstReady(g, v1, v2);
      FixCoversImage(g, v1, v2, WithMerged(g, v1, v2), v1, n);
    }
  }

  /** A slot neither loop writes held the table's value after line 144. */
  lemma UntouchedAgrees(g: Graph, v1: Handle, v2: Handle, w: Handle, n: Nucl)
    requires Mergeable(g, v1, v2) && w in WithMerged(g, v1, v2).verts
    requires w != v1 && w != v2 && (v1 in g.verts ==> w != Comp(g, v1)) && (v2 in g.verts ==> w != Comp(g, v2))
    requires !Touches(FirstPlan(g, v1, v2), w, n) && !Touches(SecondPlan(g, v1, v2), w, n)
    ensures Slot(WithMerged(g, v1, v2), w, n) == Expected(g, v1, v2, w, n)
  {
    MergeHandles(g, v1, v2);
    WithMergedShape(g, v1, v2);
    var r := WithMerged(g, v1, v2);
    assert w in r.verts.Keys;
    if w == Vm(g) {
      UntouchedVm(g, v1, v2, n);
      ExpectedSrc(g, v1, v2, v2, n);
      assert Slot(r, w, n) == None;
    } else if w == Vmc(g) {
      UntouchedVmc(g, v1, v2, n);
      ExpectedSrc(g, v1, v2, Comp(g, v1), n);
      assert Slot(r, w, n) == None;
    } else {
      GrownOld(g, r, w);
      UntouchedOld(g, v1, v2, w, n);
      assert r.verts[w] == g.verts[w];
    }
  }

  /** One slot after line 146: the two old pairs are as they were, every
      other slot is what the table says. */
  lemma FixedSlot(g: Graph, v1: Handle, v2: Handle, w: Handle, n: Nucl)
    requires Mergeable(g, v1, v2) && w in WithMerged(g, v1, v2).verts
    requires w != v1 && w != v2 && (v1 in g.verts ==> w != Comp(g, v1)) && (v2 in g.verts ==> w != Comp(g, v2))
    ensures w in SecondFix(g, v1, v2).verts
    ensures Slot(SecondFix(g, v1, v2), w, n) == Expected(g, v1, v2, w, n)
  {
    var g2, g3, g4 := WithMerged(g, v1, v2), FirstFix(g, v1, v2), SecondFix(g, v1, v2);
    FirstReady(g, v1, v2);
    SecondReady(g, v1, v2);
    FirstRecords(g, v1, v2);
    WithMergedShape(g, v1, v2);
    var t1, t2 := Touches(FirstPlan(g, v1, v2), w, n), Touches(SecondPlan(g, v1, v2), w, n);
    var e := Expected(g, v1, v2, w, n);
    assert Slot(g4, w, n) == if t2 then e else Slot(g3, w, n) by {
      FixSlots(g, v1, v2, g3, Comp(g, v2));
    }
    assert Slot(g3, w, n) == if t1 then e else Slot(g2, w, n) by {
      FixSlots(g, v1, v2, g2, v1);
    }
    if !t1 && !t2 {
      UntouchedAgrees(g, v1, v2, w, n);
    }
  }

  // ---------------------------------------------------------------------
  // Once both loops are done

  /** The four handles of the two old pairs. */
  function Pairs(g: Graph, v1: Handle, v2: Handle): set<Handle>
    requires v1 in g.verts && v2 in g.verts
  {
    {v1, Comp(g, v1), v2, Comp(g, v2)}
  }

  /** `w` is one of the four handles of the two old pairs. */
  predicate InPairs(g: Graph, v1: Handle, v2: Handle, w: Handle)
    requires v1 in g.verts && v2 in g.verts
  {
    w == v1 || w == v2 || w == Comp(g, v1) || w == Comp(g, v2)
  }

  /** What holds after line 146: the merged pair is recorded, every vertex
      outside the old pairs holds what the table says, and the old pairs
      hold what they held before the merge. */
  ghost predicate Prepared(g: Graph, v1: Handle, v2: Handle, r: Graph)
    requires Mergeable(g, v1, v2)
  {
    && Sound(r) && Grown(g, r) && Recorded(g, v1, v2, r) && r.next == g.next + 2
    && (forall w, n | w in r.verts && !InPairs(g, v1, v2, w) ::
          Slot(r, w, n) == Expected(g, v1, v2, w, n))
    && (forall x, n | x in g.verts && x in r.verts && InPairs(g, v1, v2, x) ::
          Slot(r, x, n) == Slot(g, x, n))
  }

  lemma SecondPrepared(g: Graph, v1: Handle, v2: Handle)
    requires Mergeable(g, v1, v2)
    ensures Prepared(g, v1, v2, SecondFix(g, v1, v2))
    ensures SecondFix(g, v1, v2).log == g.log + [Added(Vm(g))]
  {
    var r := SecondFix(g, v1, v2);
    SecondRecords(g, v1, v2);
    WithMergedShape(g, v1, v2);
    forall w, n | w in r.verts && !InPairs(g, v1, v2, w)
      ensures Slot(r, w, n) == Expected(g, v1, v2, w, n)
    {
      FixedSlot(g, v1, v2, w, n);
    }
    forall x, n | x in g.verts && x in r.verts && InPairs(g, v1, v2, x)
      ensures Slot(r, x, n) == Slot(g, x, n)
    {
      SecondKeeps(g, v1, v2, x, n);
    }
  }

  lemma PreparedLog(g: Graph, v1: Handle, v2: Handle, r: Graph, e: Event)
    requires Mergeable(g, v1, v2) && Prepared(g, v1, v2, r)
    ensures Prepared(g, v1, v2, r.(log := r.log + [e]))
  {
    var r' := r.(log := r.log + [e]);
    SameVerticesSound(r, r');
    assert r'.verts == r.verts && r'.k == r.k && r'.next == r.next;
  }

  /** Line 149: HandleMerge(v1, v2, v). */
  function Reported(g: Graph, v1: Handle, v2: Handle): (r: Graph)
    requires Mergeable(g, v1, v2)
    ensures Prepared(g, v1, v2, r)
    ensures r.log == g.log + [Added(Vm(g))] + [Merged(v1, v2, Vm(g))]
  {
    var g4 := SecondFix(g, v1, v2);
    SecondPrepared(g, v1, v2);
    PreparedLog(g, v1, v2, g4, Merged(v1, v2, Vm(g)));
    g4.(log := g4.log + [Merged(v1, v2, Vm(g))])
  }

  // ---------------------------------------------------------------------
  // Lines 151-152 as written

  /** Neither loop touches the slots of v2's complement, so its edge into
      v1's complement, the mirror of the edge v1 -> v2, is still there when
      line 151 deletes v1. The second guard of DeleteVertex (line 101) asks
      CanBeDeleted(v1's complement); v2's complement is among its ancestors
      and is neither v1 nor v1's complement, so the guard fails on every
      mergeable pair. */
  lemma MergeAbortsAsWritten(g: Graph, v1: Handle, v2: Handle)
    requires Mergeable(g, v1, v2)
    ensures var r := Reported(g, v1, v2);
            && v1 in r.verts && Comp(r, v1) == Comp(g, v1) && Comp(g, v2) in r.verts
            && Readable(r, v1) && Readable(r, Comp(r, v1))
            && HasEdge(r, Comp(g, v2), Comp(g, v1))
            && !CanBeDeleted(r, Comp(r, v1))
  {
    PreparedMirror(g, v1, v2, Reported(g, v1, v2));
  }

  lemma PreparedMirror(g: Graph, v1: Handle, v2: Handle, r: Graph)
    requires Mergeable(g, v1, v2) && Prepared(g, v1, v2, r)
    ensures && v1 in r.verts && Comp(r, v1) == Comp(g, v1) && Comp(g, v2) in r.verts
            && Readable(r, v1) && Readable(r, Comp(r, v1))
            && HasEdge(r, Comp(g, v2), Comp(g, v1))
            && !CanBeDeleted(r, Comp(r, v1))
  {
    MergeHandles(g, v1, v2);
    var v1c, v2c := Comp(g, v1), Comp(g, v2);
    assert v1 in r.verts.Keys && v1c in r.verts.Keys && v2c in r.verts.Keys;
    SoundReadable(r, v1);
    SoundReadable(r, v1c);
    assert HasEdge(r, v1, v2) by {
      V1Slots(g, v1, v2);
      assert Slot(r, v1, Key(g, v2)) == Some(v2);
      HoldsPoints(r.verts[v1].desc, Key(g, v2), v2);
    }
    assert HasEdge(r, v2c, v1c) by {
      V2cSlots(g, v1, v2);
      assert Slot(r, v2c, Key(g, v1c)) == Some(v1c);
      HoldsPoints(r.verts[v2c].desc, Key(g, v1c), v1c);
    }
    AncMembership(r, v1c, v2c);
    assert v2c in Anc(r, v1c) && v2c != v1 && v2c != v1c;
  }

  // ---------------------------------------------------------------------
  // Lines 151-152 corrected: the two pairs leave together

  /** The ancestor scan of CanBeDeleted with a wider set of exempt
      ancestors: false as soon as an ancestor outside `inside` holds v. */
  function NoOutsideSlotTo(g: Graph, anc: seq<Handle>, v: Handle, inside: set<Handle>): (r: bool)
    requires forall a | a in anc :: a in g.verts
    ensures r <==> forall a | a in anc && a !in inside :: !HasEdge(g, a, v)
  {
    if |anc| == 0 then true
    else if anc[0] !in inside && HasEdge(g, anc[0], v) then false
    else NoOutsideSlotTo(g, anc[1..], v, inside)
  }

  /** CanBeDeleted for v when the pair of w leaves at the same time: edges
      from v, w and their complements do not count. */
  function CanBeDeletedWith(g: Graph, v: Handle, w: Handle): (r: bool)
    requires Readable(g, v) && w in g.verts
    ensures r <==> forall a | a in Anc(g, v) && a != v && a != Comp(g, v) && a != w && a != Comp(g, w) ::
                     !HasEdge(g, a, v)
  {
    NoOutsideSlotTo(g, Anc(g, v), v, {v, Comp(g, v), w, Comp(g, w)})
  }

  /** In a valid graph CanBeDeletedWith(v, w) holds exactly when no vertex
      outside the pairs of v and w has an edge into v. */
  lemma CanBeDeletedWithMeaning(g: Graph, v: Handle, w: Handle)
    requires Valid(g) && v in g.verts && w in g.verts
    ensures Readable(g, v)
    ensures CanBeDeletedWith(g, v, w) <==>
              forall u | u in g.verts && u != v && u != Comp(g, v) && u != w && u != Comp(g, w) ::
                !HasEdge(g, u, v)
  {
    SoundReadable(g, v);
    forall u | u in g.verts && HasEdge(g, u, v)
      ensures u in Anc(g, v)
    {
      assert VertexSound(g, v);
      MirrorEdge(g, u, v);
      AncMembership(g, v, u);
    }
  }

  /** The guards under which both pairs may leave at once. */
  ghost predicate PairsDeletable(g: Graph, v1: Handle, v2: Handle)
  {
    && Readable(g, v1) && Readable(g, v2)
    && Readable(g, Comp(g, v1)) && Readable(g, Comp(g, v2))
    && CanBeDeletedWith(g, v1, v2) && CanBeDeletedWith(g, Comp(g, v1), v2)
    && CanBeDeletedWith(g, v2, v1) && CanBeDeletedWith(g, Comp(g, v2), v1)
  }

  /** DeleteVertex(v1) then DeleteVertex(v2), each guard widened to let the
      other pair's edges pass; the handler hears of both deletions. */
  function DeletePairs(g: Graph, v1: Handle, v2: Handle): (r: Graph)
    requires PairsDeletable(g, v1, v2)
    ensures r.verts.Keys == g.verts.Keys - Pairs(g, v1, v2)
    ensures forall h | h in r.verts :: h in g.verts && r.verts[h] == g.verts[h]
    ensures r.k == g.k && r.next == g.next && r.log == g.log + [Deleted(v1), Deleted(v2)]
  {
    var d1 := g.verts - {v1, Comp(g, v1)};
    g.(verts := d1 - {v2, Comp(g, v2)}, log := g.log + [Deleted(v1)] + [Deleted(v2)])
  }

  /** The table never names a handle of the old pairs outside them. */
  lemma ExpectedAvoids(g: Graph, v1: Handle, v2: Handle, w: Handle, n: Nucl)
    requires Mergeable(g, v1, v2) && !InPairs(g, v1, v2, w)
    ensures forall x | InPairs(g, v1, v2, x) :: Expected(g, v1, v2, w, n) != Some(x)
  {
    MergeHandles(g, v1, v2);
    var v1c, v2c := Comp(g, v1), Comp(g, v2);
    var src := if w == Vm(g) then v2 else if w == Vmc(g) then v1c else w;
    if src in g.verts && Slot(g, src, n).Some? {
      var y := Slot(g, src, n).value;
      assert SlotsLive(g);
      if y == v2 {
        IntoV2(g, v1, v2, src, n);
      } else if y == v1c {
        IntoV1c(g, v1, v2, src, n);
      }
    }
  }

  /** With the table in place no vertex outside the old pairs has an edge
      into them. */
  lemma PreparedNoEdgeIn(g: Graph, v1: Handle, v2: Handle, r: Graph, w: Handle, x: Handle)
    requires Mergeable(g, v1, v2) && Prepared(g, v1, v2, r) && w in r.verts
    requires !InPairs(g, v1, v2, w) && InPairs(g, v1, v2, x)
    ensures !HasEdge(r, w, x)
  {
    PreparedSlotAvoids(g, v1, v2, r, w, x, A);
    PreparedSlotAvoids(g, v1, v2, r, w, x, C);
    PreparedSlotAvoids(g, v1, v2, r, w, x, G);
    PreparedSlotAvoids(g, v1, v2, r, w, x, T);
  }

  lemma PreparedSlotAvoids(g: Graph, v1: Handle, v2: Handle, r: Graph, w: Handle, x: Handle, n: Nucl)
    requires Mergeable(g, v1, v2) && Prepared(g, v1, v2, r) && w in r.verts
    requires !InPairs(g, v1, v2, w) && InPairs(g, v1, v2, x)
    ensures !SlotHolds(r.verts[w].desc, n, x)
  {
    ExpectedAvoids(g, v1, v2, w, n);
    assert Slot(r, w, n) == Expected(g, v1, v2, w, n);
  }

  /** The widened guard holds for a handle x of the old pairs, with the
      other pair named by w. */
  lemma PreparedGuard(g: Graph, v1: Handle, v2: Handle, r: Graph, x: Handle, w: Handle)
    requires Mergeable(g, v1, v2) && Prepared(g, v1, v2, r) && InPairs(g, v1, v2, x)
    requires w == v1 || w == v2
    requires (x == v1 || x == Comp(g, v1)) <==> w == v2
    ensures x in r.verts && w in r.verts && Readable(r, x) && CanBeDeletedWith(r, x, w)
  {
    MergeHandles(g, v1, v2);
    assert x in r.verts.Keys && w in r.verts.Keys;
    assert Comp(r, x) == Comp(g, x) && Comp(r, w) == Comp(g, w);
    SoundReadable(r, x);
    forall a | a in Anc(r, x) && a != x && a != Comp(r, x) && a != w && a != Comp(r, w)
      ensures !HasEdge(r, a, x)
    {
      assert !InPairs(g, v1, v2, a);
      PreparedNoEdgeIn(g, v1, v2, r, a, x);
    }
  }

  /** All four widened guards hold once both loops are done. */
  lemma PreparedDeletable(g: Graph, v1: Handle, v2: Handle, r: Graph)
    requires Mergeable(g, v1, v2) && Prepared(g, v1, v2, r)
    ensures v1 in r.verts && v2 in r.verts
    ensures Comp(r, v1) == Comp(g, v1) && Comp(r, v2) == Comp(g, v2)
    ensures PairsDeletable(r, v1, v2)
  {
    MergeHandles(g, v1, v2);
    PreparedGuard(g, v1, v2, r, v1, v2);
    PreparedGuard(g, v1, v2, r, Comp(g, v1), v2);
    PreparedGuard(g, v1, v2, r, v2, v1);
    PreparedGuard(g, v1, v2, r, Comp(g, v2), v1);
  }

  /** Lines 140-154 with the corrected deletion. */
  function Finished(g: Graph, v1: Handle, v2: Handle): Graph
    requires Mergeable(g, v1, v2)
  {
    var r := Reported(g, v1, v2);
    PreparedDeletable(g, v1, v2, r);
    DeletePairs(r, v1, v2)
  }

  // ---------------------------------------------------------------------
  // The outcome

  /** What a merge leaves: the merged pair with its sequences and
      complements in place of the two old pairs, every other vertex with its
      record, the slot table, and the four events in order. */
  ghost predicate MergeShape(g: Graph, v1: Handle, v2: Handle, r: Graph)
    requires Mergeable(g, v1, v2)
  {
    assert VertexSound(g, v1) && VertexSound(g, v2);
    && r.k == g.k && r.next == g.next + 2
    && r.verts.Keys == (g.verts.Keys - Pairs(g, v1, v2)) + {Vm(g), Vmc(g)}
    && Recorded(g, v1, v2, r)
    && (forall w, n | w in r.verts :: Slot(r, w, n) == Expected(g, v1, v2, w, n))
    && r.log == g.log + [Added(Vm(g)), Merged(v1, v2, Vm(g)), Deleted(v1), Deleted(v2)]
  }

  lemma DeletedSlots(g: Graph, v1: Handle, v2: Handle, r: Graph)
    requires Mergeable(g, v1, v2) && v1 in r.verts && v2 in r.verts && PairsDeletable(r, v1, v2)
    requires Comp(r, v1) == Comp(g, v1) && Comp(r, v2) == Comp(g, v2)
    requires forall w, n | w in r.verts && !InPairs(g, v1, v2, w) :: Slot(r, w, n) == Expected(g, v1, v2, w, n)
    ensures var d := DeletePairs(r, v1, v2);
            forall w, n | w in d.verts :: Slot(d, w, n) == Expected(g, v1, v2, w, n)
  {
    var d := DeletePairs(r, v1, v2);
    forall w, n | w in d.verts
      ensures Slot(d, w, n) == Expected(g, v1, v2, w, n)
    {
      assert w in r.verts && w !in Pairs(r, v1, v2) && d.verts[w] == r.verts[w];
    }
  }

  lemma DeletedRecords(g: Graph, v1: Handle, v2: Handle, r: Graph)
    requires Mergeable(g, v1, v2) && Grown(g, r) && Recorded(g, v1, v2, r) && r.next == g.next + 2
    requires v1 in r.verts && v2 in r.verts && PairsDeletable(r, v1, v2)
    requires Comp(r, v1) == Comp(g, v1) && Comp(r, v2) == Comp(g, v2)
    ensures var d := DeletePairs(r, v1, v2);
            && d.k == g.k && d.next == g.next + 2
            && d.verts.Keys == (g.verts.Keys - Pairs(g, v1, v2)) + {Vm(g), Vmc(g)}
            && Recorded(g, v1, v2, d)
  {
    var d := DeletePairs(r, v1, v2);
    var four := Pairs(g, v1, v2);
    assert Pairs(r, v1, v2) == four;
    MergedFresh(g, v1, v2);
    DeletedKeys(g.verts.Keys, r.verts.Keys, d.verts.Keys, four, Vm(g), Vmc(g));
    RecordedSub(g, v1, v2, r, d);
  }

  /** The merged pair's handles are not among the old pairs'. */
  lemma MergedFresh(g: Graph, v1: Handle, v2: Handle)
    requires Mergeable(g, v1, v2)
    ensures Vm(g) !in Pairs(g, v1, v2) && Vmc(g) !in Pairs(g, v1, v2)
  {
    MergeHandles(g, v1, v2);
  }

  /** Adding two handles and then removing others that do not include them
      is removing first and adding after; every kept handle survives. */
  lemma DeletedKeys(live: set<Handle>, grown: set<Handle>, left: set<Handle>, removed: set<Handle>, a: Handle, b: Handle)
    requires grown == live + {a, b} && left == grown - removed
    requires a !in removed && b !in removed
    ensures left == (live - removed) + {a, b}
    ensures a in left && b in left
    ensures forall h | h in live && h !in removed :: h in left
  {
  }

  /** Dropping records of the old pairs keeps the merged pair recorded. */
  lemma RecordedSub(g: Graph, v1: Handle, v2: Handle, r: Graph, d: Graph)
    requires Mergeable(g, v1, v2) && Recorded(g, v1, v2, r) && d.k == r.k
    requires forall h | h in d.verts :: h in r.verts && d.verts[h] == r.verts[h]
    requires Vm(g) in d.verts && Vmc(g) in d.verts
    requires forall h | h in g.verts && h !in Pairs(g, v1, v2) :: h in d.verts
    ensures Recorded(g, v1, v2, d)
  {
    assert d.verts[Vm(g)] == r.verts[Vm(g)] && d.verts[Vmc(g)] == r.verts[Vmc(g)];
    forall h | h in g.verts && h != v1 && h != v2 && h != Comp(g, v1) && h != Comp(g, v2)
      ensures h in d.verts
    {
      assert h !in Pairs(g, v1, v2);
    }
  }

  lemma DeletedShape(g: Graph, v1: Handle, v2: Handle, r: Graph)
    requires Mergeable(g, v1, v2) && Prepared(g, v1, v2, r)
    requires r.log == g.log + [Added(Vm(g))] + [Merged(v1, v2, Vm(g))]
    ensures PairsDeletable(r, v1, v2)
    ensures MergeShape(g, v1, v2, DeletePairs(r, v1, v2))
  {
    PreparedDeletable(g, v1, v2, r);
    DeletedSlots(g, v1, v2, r);
    DeletedRecords(g, v1, v2, r);
    MergeEvents(g.log, Added(Vm(g)), Merged(v1, v2, Vm(g)), Deleted(v1), Deleted(v2));
  }

  /** Appending events one at a time gives the events in order. */
  lemma MergeEvents(l: seq<Event>, a: Event, b: Event, c: Event, d: Event)
    ensures l + [a] + [b] + [c, d] == l + [a, b, c, d]
  {
  }

  lemma FinishedShape(g: Graph, v1: Handle, v2: Handle)
    requires Mergeable(g, v1, v2)
    ensures MergeShape(g, v1, v2, Finished(g, v1, v2))
  {
    DeletedShape(g, v1, v2, Reported(g, v1, v2));
  }
}
