// Graph::Merge as a whole (condensedGraph.cpp, lines 140-154, with the
// deletion of lines 151-152 taken as the removal of both pairs): the graph
// it leaves is valid again, every original edge survives with its ends
// moved to their images, and merging undoes a split and is undone by one.

module MergeLaws {
  import opened Wrappers
  import opened Nucleotide
  import opened CondensedGraph
  import opened Merge
  import Split
  import SplitLaws

  /** The graph a merge of v1 and v2 leaves. */
  ghost predicate Outcome(g: Graph, v1: Handle, v2: Handle, r: Graph)
  {
    Mergeable(g, v1, v2) && MergeShape(g, v1, v2, r)
  }

  /** The original vertices whose outgoing edges survive: all but v1 (its
      only edge is the one merged away) and v2's complement (likewise). */
  predicate Carrier(g: Graph, v1: Handle, v2: Handle, x: Handle)
    requires v2 in g.verts
  {
    x in g.verts && x != v1 && x != Comp(g, v2)
  }

  /** The original vertices whose incoming edges survive: all but v2 and
      v1's complement, whose only incoming edges are the merged ones. */
  predicate Entered(g: Graph, v1: Handle, v2: Handle, y: Handle)
    requires v1 in g.verts
  {
    y in g.verts && y != v2 && y != Comp(g, v1)
  }

  /** The carrier a live vertex of the result stands for. */
  function Preimage(g: Graph, v1: Handle, v2: Handle, h: Handle): Handle
    requires v1 in g.verts
  {
    if h == Vm(g) then v2 else if h == Vmc(g) then Comp(g, v1) else h
  }

  /** Every live vertex of the result is the source image of a carrier. */
  lemma PreimageOf(g: Graph, v1: Handle, v2: Handle, r: Graph, h: Handle)
    requires Outcome(g, v1, v2, r) && h in r.verts
    ensures Carrier(g, v1, v2, Preimage(g, v1, v2, h))
    ensures Src(g, v1, v2, Preimage(g, v1, v2, h)) == h
    ensures h == Vm(g) || h == Vmc(g) || (h in g.verts && !InPairs(g, v1, v2, h))
  {
    MergeHandles(g, v1, v2);
    assert h in r.verts.Keys;
  }

  /** The image of a carrier is live, and the image of an entered vertex
      is live; both keep the symbols the edge laws read. */
  lemma Images(g: Graph, v1: Handle, v2: Handle, r: Graph, x: Handle)
    requires Outcome(g, v1, v2, r) && Carrier(g, v1, v2, x)
    ensures Entered(g, v1, v2, Comp(g, x))
    ensures Src(g, v1, v2, x) in r.verts && Tgt(g, v1, v2, Comp(g, x)) in r.verts
    ensures Comp(r, Src(g, v1, v2, x)) == Tgt(g, v1, v2, Comp(g, x))
  {
    MergeHandles(g, v1, v2);
    assert VertexSound(g, x);
    SrcRecord(g, v1, v2, r, x);
  }

  /** An edge leaving a carrier enters an entered vertex: only v1 enters v2
      and only v2's complement enters v1's complement. */
  lemma SlotEntered(g: Graph, v1: Handle, v2: Handle, x: Handle, n: Nucl)
    requires Mergeable(g, v1, v2) && Carrier(g, v1, v2, x) && Slot(g, x, n).Some?
    ensures Entered(g, v1, v2, Slot(g, x, n).value)
  {
    var y := Slot(g, x, n).value;
    assert SlotsLive(g);
    if y == v2 {
      IntoV2(g, v1, v2, x, n);
    } else if y == Comp(g, v1) {
      IntoV1c(g, v1, v2, x, n);
    }
  }

  // ---------------------------------------------------------------------
  // Slots of the images

  /** Slot n of a carrier's image holds the target image of what slot n of
      the carrier held, and is empty when that was. */
  lemma ImageSlot(g: Graph, v1: Handle, v2: Handle, r: Graph, x: Handle, n: Nucl)
    requires Outcome(g, v1, v2, r) && Carrier(g, v1, v2, x)
    ensures Src(g, v1, v2, x) in r.verts
    ensures Slot(r, Src(g, v1, v2, x), n) == Redirect(g, v1, v2, Slot(g, x, n))
  {
    Images(g, v1, v2, r, x);
    ExpectedSrc(g, v1, v2, x, n);
    assert Slot(r, Src(g, v1, v2, x), n) == Expected(g, v1, v2, Src(g, v1, v2, x), n);
  }

  /** The target image of an entered vertex is live, complements the source
      image of its complement, and starts as the vertex does. */
  lemma EnteredRecord(g: Graph, v1: Handle, v2: Handle, r: Graph, y: Handle)
    requires Mergeable(g, v1, v2) && Recorded(g, v1, v2, r) && Entered(g, v1, v2, y)
    ensures Carrier(g, v1, v2, Comp(g, y))
    ensures Tgt(g, v1, v2, y) in r.verts && Src(g, v1, v2, Comp(g, y)) in r.verts
    ensures Comp(r, Tgt(g, v1, v2, y)) == Src(g, v1, v2, Comp(g, y))
    ensures var d, s := Nucls(r, Tgt(g, v1, v2, y)), Nucls(g, y);
            && |d| >= g.k && |s| >= g.k
            && d[..g.k - 1] == s[..g.k - 1] && d[g.k - 1] == s[g.k - 1]
  {
    MergeHandles(g, v1, v2);
    assert VertexSound(g, y);
    TgtRecord(g, v1, v2, r, y);
  }

  // ---------------------------------------------------------------------
  // Edge laws

  /** The moved edge's ends keep the overlap and the key of the original
      edge x -> y. */
  lemma ImageOverlap(g: Graph, v1: Handle, v2: Handle, r: Graph, x: Handle, n: Nucl)
    requires Mergeable(g, v1, v2) && Recorded(g, v1, v2, r) && Carrier(g, v1, v2, x) && n in g.verts[x].desc
    ensures var y := g.verts[x].desc[n];
            && Entered(g, v1, v2, y) && Src(g, v1, v2, x) in r.verts && Tgt(g, v1, v2, y) in r.verts
            && |Nucls(r, Tgt(g, v1, v2, y))| >= g.k && Nucls(r, Tgt(g, v1, v2, y))[g.k - 1] == n
            && Overlap(Nucls(r, Src(g, v1, v2, x)), Nucls(r, Tgt(g, v1, v2, y)), g.k)
  {
    var y := g.verts[x].desc[n];
    assert EdgeLaw(g, x, n);
    SlotEntered(g, v1, v2, x, n);
    ImageEnds(g, v1, v2, r, x, y);
    OverlapMoved(Nucls(g, x), Nucls(g, y), Nucls(r, Src(g, v1, v2, x)), Nucls(r, Tgt(g, v1, v2, y)), g.k);
  }

  /** The mirror of the moved edge is the moved mirror edge. */
  lemma ImageMirror(g: Graph, v1: Handle, v2: Handle, r: Graph, x: Handle, n: Nucl)
    requires Outcome(g, v1, v2, r) && Carrier(g, v1, v2, x) && n in g.verts[x].desc
    ensures var y, h := g.verts[x].desc[n], Src(g, v1, v2, x);
            && Entered(g, v1, v2, y) && h in r.verts && Tgt(g, v1, v2, y) in r.verts
            && Comp(r, h) in r.verts && Comp(r, Tgt(g, v1, v2, y)) in r.verts
            && |Nucls(r, Comp(r, h))| >= g.k
            && SlotHolds(DescOf(r, Comp(r, Tgt(g, v1, v2, y))), Nucls(r, Comp(r, h))[g.k - 1], Comp(r, h))
  {
    var y := g.verts[x].desc[n];
    assert EdgeLaw(g, x, n);
    SlotEntered(g, v1, v2, x, n);
    Images(g, v1, v2, r, x);
    EnteredRecord(g, v1, v2, r, y);
    EnteredRecord(g, v1, v2, r, Comp(g, x));
    var m := Nucls(g, Comp(g, x))[g.k - 1];
    assert Slot(g, Comp(g, y), m) == Some(Comp(g, x));
    ImageSlot(g, v1, v2, r, Comp(g, y), m);
  }

  /** Slot n of a carrier's image obeys the edge laws. */
  lemma ImageEdgeLaw(g: Graph, v1: Handle, v2: Handle, r: Graph, x: Handle, n: Nucl)
    requires Outcome(g, v1, v2, r) && Carrier(g, v1, v2, x) && n in g.verts[x].desc
    ensures Src(g, v1, v2, x) in r.verts && n in r.verts[Src(g, v1, v2, x)].desc
    ensures EdgeLaw(r, Src(g, v1, v2, x), n)
  {
    var y := g.verts[x].desc[n];
    ImageSlot(g, v1, v2, r, x, n);
    assert Slot(g, x, n) == Some(y);
    ImageOverlap(g, v1, v2, r, x, n);
    ImageMirror(g, v1, v2, r, x, n);
    assert r.verts[Src(g, v1, v2, x)].desc[n] == Tgt(g, v1, v2, y);
  }

  /** Every slot of the result obeys the edge laws. */
  lemma OutcomeEdgeLaw(g: Graph, v1: Handle, v2: Handle, r: Graph, h: Handle, n: Nucl)
    requires Outcome(g, v1, v2, r) && h in r.verts && n in r.verts[h].desc
    ensures EdgeLaw(r, h, n)
  {
    PreimageOf(g, v1, v2, r, h);
    var x := Preimage(g, v1, v2, h);
    ImageSlot(g, v1, v2, r, x, n);
    assert Slot(r, h, n).Some?;
    ImageEdgeLaw(g, v1, v2, r, x, n);
  }

  /** Every slot of the result points at a live vertex. */
  lemma OutcomeSlotsLive(g: Graph, v1: Handle, v2: Handle, r: Graph, h: Handle, n: Nucl)
    requires Outcome(g, v1, v2, r) && h in r.verts && n in r.verts[h].desc
    ensures r.verts[h].desc[n] in r.verts
  {
    PreimageOf(g, v1, v2, r, h);
    var x := Preimage(g, v1, v2, h);
    ImageSlot(g, v1, v2, r, x, n);
    assert Slot(r, h, n).Some?;
    SlotEntered(g, v1, v2, x, n);
    EnteredRecord(g, v1, v2, r, Slot(g, x, n).value);
  }

  // ---------------------------------------------------------------------
  // Soundness and the pair law

  /** The merged pair is a sound reverse-complementary pair. */
  lemma MergedPairSound(g: Graph, v1: Handle, v2: Handle, r: Graph, h: Handle)
    requires Outcome(g, v1, v2, r) && (h == Vm(g) || h == Vmc(g))
    ensures h in r.verts && VertexSound(r, h) && h < r.next && PairLaw(r, h)
  {
    MergeHandles(g, v1, v2);
    MergeOverlap(g, v1, v2);
    Joins(Nucls(g, v1), Nucls(g, v2), g.k);
    RevCompInvolution(Joined(g, v1, v2));
  }

  /** An original vertex outside the two pairs keeps its record and its
      complement. */
  lemma KeptVertexSound(g: Graph, v1: Handle, v2: Handle, r: Graph, h: Handle)
    requires Outcome(g, v1, v2, r) && h in g.verts && !InPairs(g, v1, v2, h)
    ensures h in r.verts && VertexSound(r, h) && h < r.next && PairLaw(r, h)
  {
    MergeHandles(g, v1, v2);
    assert VertexSound(g, h) && PairLaw(g, h);
    assert Allocated(g);
    assert Comp(g, h) in r.verts;
  }

  /** Lines 140-154, with the corrected deletion, keep the graph valid. */
  lemma OutcomeValid(g: Graph, v1: Handle, v2: Handle, r: Graph)
    requires Outcome(g, v1, v2, r)
    ensures Valid(r)
  {
    forall h | h in r.verts
      ensures VertexSound(r, h) && h < r.next && PairLaw(r, h)
    {
      PreimageOf(g, v1, v2, r, h);
      if h == Vm(g) || h == Vmc(g) {
        MergedPairSound(g, v1, v2, r, h);
      } else {
        KeptVertexSound(g, v1, v2, r, h);
      }
    }
    forall h, n | h in r.verts && n in r.verts[h].desc
      ensures r.verts[h].desc[n] in r.verts
    {
      OutcomeSlotsLive(g, v1, v2, r, h, n);
    }
    assert r.k >= 1 by {
      MergeHandles(g, v1, v2);
    }
    assert Sound(r);
    forall h, n | h in r.verts && n in r.verts[h].desc
      ensures EdgeLaw(r, h, n)
    {
      OutcomeEdgeLaw(g, v1, v2, r, h, n);
    }
  }

  // ---------------------------------------------------------------------
  // The operation

  /** Lines 140-154: merge v1 with its only successor v2 into one vertex
      carrying v1's sequence followed by v2's past the overlap, and return
      it. */
  function MergeVertices(g: Graph, v1: Handle, v2: Handle): (r: (Graph, Handle))
    requires Mergeable(g, v1, v2)
    ensures Valid(r.0) && r.1 in r.0.verts && r.1 == Vm(g) && r.0.k == g.k
    ensures Outcome(g, v1, v2, r.0)
    ensures v1 !in r.0.verts && v2 !in r.0.verts
    ensures Nucls(r.0, r.1) == Nucls(g, v1) + Nucls(g, v2)[g.k - 1..]
  {
    FinishedShape(g, v1, v2);
    OutcomeValid(g, v1, v2, Finished(g, v1, v2));
    MergeHandles(g, v1, v2);
    (Finished(g, v1, v2), Vm(g))
  }

  // ---------------------------------------------------------------------
  // What a merge preserves

  lemma TgtInjective(g: Graph, v1: Handle, v2: Handle, y: Handle, z: Handle)
    requires Mergeable(g, v1, v2) && y in g.verts && z in g.verts
    requires Tgt(g, v1, v2, y) == Tgt(g, v1, v2, z)
    ensures y == z
  {
    MergeHandles(g, v1, v2);
    assert Allocated(g);
  }

  lemma SlotHoldsSome(g: Graph, h: Handle, n: Nucl, x: Handle)
    requires h in g.verts
    ensures SlotHolds(DescOf(g, h), n, x) <==> Slot(g, h, n) == Some(x)
  {
  }

  /** Every original edge x -> y other than the merged one and its mirror
      survives as Src(x) -> Tgt(y), and the images carry no edge the
      original graph did not have. */
  lemma OutcomeEdges(g: Graph, v1: Handle, v2: Handle, r: Graph, x: Handle, y: Handle)
    requires Outcome(g, v1, v2, r) && Carrier(g, v1, v2, x) && Entered(g, v1, v2, y)
    ensures Src(g, v1, v2, x) in r.verts
    ensures HasEdge(r, Src(g, v1, v2, x), Tgt(g, v1, v2, y)) <==> HasEdge(g, x, y)
  {
    Images(g, v1, v2, r, x);
    var m, m' := r.verts[Src(g, v1, v2, x)].desc, g.verts[x].desc;
    forall n
      ensures SlotHolds(m, n, Tgt(g, v1, v2, y)) <==> SlotHolds(m', n, y)
    {
      ImageSlot(g, v1, v2, r, x, n);
      if Slot(g, x, n).Some? {
        assert SlotsLive(g);
        if Tgt(g, v1, v2, Slot(g, x, n).value) == Tgt(g, v1, v2, y) {
          TgtInjective(g, v1, v2, Slot(g, x, n).value, y);
        }
      }
    }
  }

  // ---------------------------------------------------------------------
  // Merging undoes a split, and a split undoes a merge

  /** A vertex with exactly one slot set lists exactly that successor. */
  lemma DescSingle(g: Graph, h: Handle, n1: Nucl, x1: Handle)
    requires h in g.verts
    requires forall n :: Slot(g, h, n) == (if n == n1 then Some(x1) else None)
    ensures Desc(g, h) == [x1]
  {
    var m := g.verts[h].desc;
    forall n
      ensures n in m <==> n == n1
    {
      assert Slot(g, h, n) == (if n == n1 then Some(x1) else None);
    }
    assert Slot(g, h, n1) == Some(x1);
    assert m == map[n1 := x1];
    match n1
    case A =>
    case C =>
    case G =>
    case T =>
  }

  /** A vertex whose complement has exactly one slot set has exactly one
      ancestor, the complement of that slot's content. */
  lemma AncSingle(g: Graph, v: Handle, n1: Nucl, x1: Handle)
    requires Readable(g, v)
    requires forall n :: Slot(g, Comp(g, v), n) == (if n == n1 then Some(x1) else None)
    ensures x1 in g.verts && Anc(g, v) == [Comp(g, x1)]
  {
    var m := DescOf(g, Comp(g, v));
    forall n
      ensures n in m <==> n == n1
    {
      assert Slot(g, Comp(g, v), n) == (if n == n1 then Some(x1) else None);
    }
    assert Slot(g, Comp(g, v), n1) == Some(x1);
    assert m == map[n1 := x1];
    match n1
    case A =>
    case C =>
    case G =>
    case T =>
  }

  /** The two pieces a split creates may be merged, and merging them joins
      their sequences back into the sequence of the vertex that was split. */
  lemma SplitThenMergeable(g: Graph, v: Handle, pos: int)
    requires Valid(g) && v in g.verts && g.k <= pos < |Nucls(g, v)|
    ensures var r := SplitLaws.SplitVertex(g, v, pos).0;
            && Mergeable(r, Split.V1(g), Split.V2(g))
            && Joined(r, Split.V1(g), Split.V2(g)) == Nucls(g, v)
  {
    var r := SplitLaws.SplitVertex(g, v, pos).0;
    SplitLaws.OutcomePieces(g, v, pos, r);
    SplitLaws.PieceSlots(g, v, pos, r);
    var v1, v2 := Split.V1(g), Split.V2(g);
    DescSingle(r, v1, Split.Right(g, v, pos)[g.k - 1], v2);
    SoundReadable(r, v2);
    AncSingle(r, v2, RevComp(Split.Left(g, v, pos))[g.k - 1], Split.V1c(g));
    assert VertexSound(r, v1);
  }

  /** Cutting the merged vertex where v1's sequence ends gives back the
      sequences of v1 and v2. */
  lemma MergeThenSplitPieces(g: Graph, v1: Handle, v2: Handle)
    requires Mergeable(g, v1, v2)
    ensures var r := MergeVertices(g, v1, v2);
            && Split.Cuttable(r.0, r.1, |Nucls(g, v1)|)
            && Split.Left(r.0, r.1, |Nucls(g, v1)|) == Nucls(g, v1)
            && Split.Right(r.0, r.1, |Nucls(g, v1)|) == Nucls(g, v2)
  {
    var r := MergeVertices(g, v1, v2);
    var s1, s2 := Nucls(g, v1), Nucls(g, v2);
    assert 1 <= g.k <= |s1| && g.k <= |s2| && Overlap(s1, s2, g.k) by {
      MergeHandles(g, v1, v2);
      MergeOverlap(g, v1, v2);
    }
    CutMerged(r.0, r.1, s1, s2, g.k);
  }

  /** A vertex carrying a joined sequence is cut back into both parts where
      the first part ends. */
  lemma CutMerged(r: Graph, h: Handle, s1: seq<Nucl>, s2: seq<Nucl>, k: int)
    requires 1 <= k <= |s1| && k <= |s2| && Overlap(s1, s2, k)
    requires h in r.verts && r.k == k && Nucls(r, h) == s1 + s2[k - 1..]
    ensures Split.Cuttable(r, h, |s1|)
    ensures Split.Left(r, h, |s1|) == s1 && Split.Right(r, h, |s1|) == s2
  {
    Joins(s1, s2, k);
  }
}
