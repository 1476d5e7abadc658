// SplitVertex as a whole (condensedGraph.cpp, lines 113-138): the graph it
// leaves is valid again, every original edge survives with v replaced by
// the right piece, and the two pieces join back into v's sequence.

module SplitLaws {
  import opened Wrappers
  import opened Nucleotide
  import opened CondensedGraph
  import opened Split

  /** The vertex that carries an original vertex's outgoing edges after the
      split: v's go to v2, those of v's complement to v1's complement. */
  function Src(g: Graph, v: Handle, x: Handle): Handle
    requires v in g.verts
  {
    if x == v then V2(g) else if x == Comp(g, v) then V1c(g) else x
  }

  /** The vertex an edge into an original vertex points at after the split:
      an edge into v enters v1, one into v's complement enters v2's. */
  function Tgt(g: Graph, v: Handle, y: Handle): Handle
    requires v in g.verts
  {
    if y == v then V1(g) else if y == Comp(g, v) then V2c(g) else y
  }

  /** The graph a split of v at pos leaves. */
  ghost predicate Outcome(g: Graph, v: Handle, pos: int, r: Graph)
  {
    Splittable(g, v, pos) && SplitShape(g, v, pos, r)
  }

  lemma OutcomeCases(g: Graph, v: Handle, pos: int, r: Graph, h: Handle)
    requires Outcome(g, v, pos, r) && h in r.verts
    ensures Comp(g, v) in g.verts
    ensures (h in g.verts && h != v && h != Comp(g, v))
            || h == V1(g) || h == V1c(g) || h == V2(g) || h == V2c(g)
  {
    assert h in r.verts.Keys;
    assert VertexSound(g, v);
  }

  // ---------------------------------------------------------------------
  // Records of the images

  /** The sequence the image of `x` carries: a piece's, or x's own. The
      source side keeps x's last k-1 symbols, the target side its first k. */
  lemma ImageRecordV(g: Graph, v: Handle, pos: int, r: Graph)
    requires Outcome(g, v, pos, r)
    ensures var k, vc := g.k, Comp(g, v);
            && vc in g.verts && V2(g) in r.verts && V1(g) in r.verts
            && Comp(r, V2(g)) == V2c(g) && Comp(r, V1(g)) == V1c(g)
            && Src(g, v, vc) == V1c(g) && Tgt(g, v, vc) == V2c(g)
            && |Nucls(r, V2(g))| >= k && |Nucls(r, V1(g))| >= k && |Nucls(g, v)| >= k
            && Nucls(r, V2(g))[|Nucls(r, V2(g))| - (k - 1)..] == Nucls(g, v)[|Nucls(g, v)| - (k - 1)..]
            && Nucls(r, V1(g))[..k - 1] == Nucls(g, v)[..k - 1]
            && Nucls(r, V1(g))[k - 1] == Nucls(g, v)[k - 1]
  {
    assert VertexSound(g, v);
    assert Allocated(g);
    Pieces(Nucls(g, v), pos, g.k);
  }

  lemma ImageRecordVc(g: Graph, v: Handle, pos: int, r: Graph)
    requires Outcome(g, v, pos, r)
    ensures var k, vc := g.k, Comp(g, v);
            && vc in g.verts && V1c(g) in r.verts && V2c(g) in r.verts
            && Comp(r, V1c(g)) == V1(g) && Comp(r, V2c(g)) == V2(g)
            && Src(g, v, v) == V2(g) && Tgt(g, v, v) == V1(g)
            && |Nucls(r, V1c(g))| >= k && |Nucls(r, V2c(g))| >= k && |Nucls(g, vc)| >= k
            && Nucls(r, V1c(g))[|Nucls(r, V1c(g))| - (k - 1)..] == Nucls(g, vc)[|Nucls(g, vc)| - (k - 1)..]
            && Nucls(r, V2c(g))[..k - 1] == Nucls(g, vc)[..k - 1]
            && Nucls(r, V2c(g))[k - 1] == Nucls(g, vc)[k - 1]
  {
    assert VertexSound(g, v);
    assert Allocated(g);
    assert PairLaw(g, v);
    Pieces(Nucls(g, v), pos, g.k);
  }

  lemma ImageRecordOld(g: Graph, v: Handle, pos: int, r: Graph, x: Handle)
    requires Outcome(g, v, pos, r) && x in g.verts && x != v && x != Comp(g, v)
    ensures Comp(g, x) in g.verts && Comp(g, x) != v && Comp(g, x) != Comp(g, v)
    ensures x in r.verts && Comp(r, x) == Comp(g, x) && Nucls(r, x) == Nucls(g, x)
    ensures Src(g, v, x) == x && Tgt(g, v, x) == x
  {
    assert VertexSound(g, v);
    assert VertexSound(g, x);
    assert Allocated(g);
    assert x in r.verts.Keys;
  }

  /** Both images of an original vertex are live, complement each other's
      images, and keep the symbols an edge law reads. */
  lemma ImageRecord(g: Graph, v: Handle, pos: int, r: Graph, x: Handle)
    requires Outcome(g, v, pos, r) && x in g.verts
    ensures Comp(g, x) in g.verts
    ensures Src(g, v, x) in r.verts && Tgt(g, v, x) in r.verts
    ensures Comp(r, Src(g, v, x)) == Tgt(g, v, Comp(g, x))
    ensures Comp(r, Tgt(g, v, x)) == Src(g, v, Comp(g, x))
    ensures var a, d, s := Nucls(r, Src(g, v, x)), Nucls(r, Tgt(g, v, x)), Nucls(g, x);
            && |a| >= g.k && |d| >= g.k && |s| >= g.k
            && a[|a| - (g.k - 1)..] == s[|s| - (g.k - 1)..]
            && d[..g.k - 1] == s[..g.k - 1] && d[g.k - 1] == s[g.k - 1]
  {
    assert VertexSound(g, v);
    assert VertexSound(g, x);
    if x == v {
      ImageRecordV(g, v, pos, r);
      ImageRecordVc(g, v, pos, r);
    } else if x == Comp(g, v) {
      ImageRecordV(g, v, pos, r);
      ImageRecordVc(g, v, pos, r);
    } else {
      ImageRecordOld(g, v, pos, r, x);
    }
  }

  // ---------------------------------------------------------------------
  // Slots of the images

  lemma RedirectTgt(g: Graph, v: Handle, o: Option<Handle>)
    requires v in g.verts
    ensures Redirect(g, v, o) == if o.Some? then Some(Tgt(g, v, o.value)) else None
  {
  }

  /** Slot n of x's source image holds the target image of what slot n of x
      held, and is empty when that was. */
  lemma ImageSlot(g: Graph, v: Handle, pos: int, r: Graph, x: Handle, n: Nucl)
    requires Outcome(g, v, pos, r) && x in g.verts
    ensures Src(g, v, x) in r.verts
    ensures Slot(r, Src(g, v, x), n) == if Slot(g, x, n).Some? then Some(Tgt(g, v, Slot(g, x, n).value)) else None
  {
    assert VertexSound(g, v);
    assert Allocated(g);
    ImageRecord(g, v, pos, r, x);
    assert Slot(r, Src(g, v, x), n) == Expected(g, v, pos, Src(g, v, x), n);
    RedirectTgt(g, v, Slot(g, x, n));
  }

  // ---------------------------------------------------------------------
  // Edge laws

  /** The image of an original edge x -> y, stored in slot n of x's source
      image and pointing at y's target image, obeys the edge laws: its key,
      its overlap and its mirror are those of the original edge moved onto
      the images. */
  lemma ImageEdgeLaw(g: Graph, v: Handle, pos: int, r: Graph, x: Handle, n: Nucl)
    requires Outcome(g, v, pos, r) && x in g.verts && n in g.verts[x].desc
    ensures Src(g, v, x) in r.verts && n in r.verts[Src(g, v, x)].desc
    ensures EdgeLaw(r, Src(g, v, x), n)
  {
    var k := g.k;
    var y := g.verts[x].desc[n];
    assert EdgeLaw(g, x, n);
    var m := Nucls(g, Comp(g, x))[k - 1];
    ImageSlot(g, v, pos, r, x, n);
    ImageSlot(g, v, pos, r, Comp(g, y), m);
    ImageRecord(g, v, pos, r, x);
    ImageRecord(g, v, pos, r, y);
    ImageRecord(g, v, pos, r, Comp(g, x));
    EdgeLawCarried(g, x, n, r, Src(g, v, x), Tgt(g, v, y), Tgt(g, v, Comp(g, x)), Src(g, v, Comp(g, y)));
  }

  /** The link v1 -> v2 of line 126 obeys the edge laws: the prefix piece
      ends with the k-1 symbols the suffix piece starts with. */
  lemma PieceLinkLaw(g: Graph, v: Handle, pos: int, r: Graph)
    requires Outcome(g, v, pos, r)
    ensures V1(g) in r.verts && 1 <= g.k <= |Right(g, v, pos)|
    ensures var n := Right(g, v, pos)[g.k - 1];
            n in r.verts[V1(g)].desc && EdgeLaw(r, V1(g), n)
  {
    var s := Nucls(g, v);
    Pieces(s, pos, g.k);
    assert Slot(r, V1(g), Right(g, v, pos)[g.k - 1]) == Some(V2(g));
    assert Slot(r, V2c(g), RevComp(Left(g, v, pos))[g.k - 1]) == Some(V1c(g));
    assert Overlap(Left(g, v, pos), Right(g, v, pos), g.k);
  }

  /** The mirror link v2.complement -> v1.complement. */
  lemma PieceMirrorLinkLaw(g: Graph, v: Handle, pos: int, r: Graph)
    requires Outcome(g, v, pos, r)
    ensures V2c(g) in r.verts && 1 <= g.k <= |RevComp(Left(g, v, pos))|
    ensures var n := RevComp(Left(g, v, pos))[g.k - 1];
            n in r.verts[V2c(g)].desc && EdgeLaw(r, V2c(g), n)
  {
    var s := Nucls(g, v);
    Pieces(s, pos, g.k);
    assert Slot(r, V1(g), Right(g, v, pos)[g.k - 1]) == Some(V2(g));
    assert Slot(r, V2c(g), RevComp(Left(g, v, pos))[g.k - 1]) == Some(V1c(g));
    OverlapMirror(Left(g, v, pos), Right(g, v, pos), g.k);
  }

  /** Every slot of the result obeys the edge laws: it is one of the two
      links, or the image of an original edge. */
  lemma OutcomeEdgeLaw(g: Graph, v: Handle, pos: int, r: Graph, h: Handle, n: Nucl)
    requires Outcome(g, v, pos, r) && h in r.verts && n in r.verts[h].desc
    ensures EdgeLaw(r, h, n)
  {
    OutcomeCases(g, v, pos, r, h);
    assert Slot(r, h, n).Some?;
    if h == V1(g) {
      PieceLinkLaw(g, v, pos, r);
    } else if h == V2c(g) {
      PieceMirrorLinkLaw(g, v, pos, r);
    } else {
      var x := if h == V2(g) then v else if h == V1c(g) then Comp(g, v) else h;
      ImageRecord(g, v, pos, r, x);
      ImageSlot(g, v, pos, r, x, n);
      ImageEdgeLaw(g, v, pos, r, x, n);
    }
  }

  // ---------------------------------------------------------------------
  // Soundness and the pair law

  lemma OutcomeVertexSound(g: Graph, v: Handle, pos: int, r: Graph, h: Handle)
    requires Outcome(g, v, pos, r) && h in r.verts
    ensures VertexSound(r, h) && h < r.next
    ensures PairLaw(r, h)
  {
    assert VertexSound(g, v);
    assert Allocated(g);
    OutcomeCases(g, v, pos, r, h);
    var s := Nucls(g, v);
    Pieces(s, pos, g.k);
    if h in g.verts {
      ImageRecordOld(g, v, pos, r, h);
      ImageRecordOld(g, v, pos, r, Comp(g, h));
      assert VertexSound(g, h);
      assert PairLaw(g, h);
    } else {
      RevCompInvolution(Left(g, v, pos));
      RevCompInvolution(Right(g, v, pos));
    }
  }

  lemma OutcomeSlotsLive(g: Graph, v: Handle, pos: int, r: Graph, h: Handle, n: Nucl)
    requires Outcome(g, v, pos, r) && h in r.verts && n in r.verts[h].desc
    ensures r.verts[h].desc[n] in r.verts
  {
    OutcomeCases(g, v, pos, r, h);
    assert Slot(r, h, n).Some?;
    if h == V1(g) {
      PieceLinkLaw(g, v, pos, r);
    } else if h == V2c(g) {
      PieceMirrorLinkLaw(g, v, pos, r);
    } else {
      var x := if h == V2(g) then v else if h == V1c(g) then Comp(g, v) else h;
      ImageRecord(g, v, pos, r, x);
      ImageSlot(g, v, pos, r, x, n);
      assert SlotsLive(g);
      ImageRecord(g, v, pos, r, Slot(g, x, n).value);
    }
  }

  /** Lines 113-138 keep the graph valid. */
  lemma OutcomeValid(g: Graph, v: Handle, pos: int, r: Graph)
    requires Outcome(g, v, pos, r)
    ensures Valid(r)
  {
    forall h | h in r.verts
      ensures VertexSound(r, h) && h < r.next && PairLaw(r, h)
    {
      OutcomeVertexSound(g, v, pos, r, h);
    }
    forall h, n | h in r.verts && n in r.verts[h].desc
      ensures r.verts[h].desc[n] in r.verts
    {
      OutcomeSlotsLive(g, v, pos, r, h, n);
    }
    assert Sound(r);
    forall h, n | h in r.verts && n in r.verts[h].desc
      ensures EdgeLaw(r, h, n)
    {
      OutcomeEdgeLaw(g, v, pos, r, h, n);
    }
  }

  // ---------------------------------------------------------------------
  // The operation

  /** Lines 113-138: split v so that the prefix piece ends at `pos`; the
      suffix piece starts k-1 symbols earlier, so the two overlap as an edge
      does. Splitting at the very end returns v and leaves the graph alone. */
  function SplitVertex(g: Graph, v: Handle, pos: int): (r: (Graph, Handle))
    requires Valid(g) && v in g.verts && g.k <= pos <= |Nucls(g, v)|
    ensures Valid(r.0) && r.1 in r.0.verts
    ensures pos == |Nucls(g, v)| ==> r == (g, v)
    ensures pos < |Nucls(g, v)| ==> r.1 == V1(g) && Outcome(g, v, pos, r.0)
  {
    if pos == |Nucls(g, v)| then (g, v)
    else
      FinishedShape(g, v, pos);
      OutcomeValid(g, v, pos, Finished(g, v, pos));
      (Finished(g, v, pos), V1(g))
  }

  // ---------------------------------------------------------------------
  // What a split preserves

  lemma TgtInjective(g: Graph, v: Handle, y: Handle, z: Handle)
    requires Sound(g) && v in g.verts && y in g.verts && z in g.verts
    requires Tgt(g, v, y) == Tgt(g, v, z)
    ensures y == z
  {
    assert Allocated(g);
    assert VertexSound(g, v);
  }

  lemma SlotHoldsSome(g: Graph, h: Handle, n: Nucl, x: Handle)
    requires h in g.verts
    ensures SlotHolds(DescOf(g, h), n, x) <==> Slot(g, h, n) == Some(x)
  {
  }

  /** Every original edge survives with its ends moved to their images,
      and the images carry no edge the original graph did not have. */
  lemma OutcomeEdges(g: Graph, v: Handle, pos: int, r: Graph, x: Handle, y: Handle)
    requires Outcome(g, v, pos, r) && x in g.verts && y in g.verts
    ensures Src(g, v, x) in r.verts
    ensures HasEdge(r, Src(g, v, x), Tgt(g, v, y)) <==> HasEdge(g, x, y)
  {
    ImageRecord(g, v, pos, r, x);
    var m, m' := r.verts[Src(g, v, x)].desc, g.verts[x].desc;
    forall n
      ensures SlotHolds(m, n, Tgt(g, v, y)) <==> SlotHolds(m', n, y)
    {
      ImageSlot(g, v, pos, r, x, n);
      if Slot(g, x, n).Some? {
        assert SlotsLive(g);
        if Tgt(g, v, Slot(g, x, n).value) == Tgt(g, v, y) {
          TgtInjective(g, v, Slot(g, x, n).value, y);
        }
      }
    }
  }

  /** A vertex with exactly one slot set has an edge to that slot's
      content and to nothing else. */
  lemma OnlyEntry(g: Graph, h: Handle, n1: Nucl, x1: Handle)
    requires h in g.verts
    requires forall n :: Slot(g, h, n) == (if n == n1 then Some(x1) else None)
    ensures forall x :: HasEdge(g, h, x) <==> x == x1
  {
    var m := g.verts[h].desc;
    forall n
      ensures n in m <==> n == n1
    {
      assert Slot(g, h, n) == (if n == n1 then Some(x1) else None);
    }
    assert Slot(g, h, n1) == Some(x1);
    assert m == map[n1 := x1];
    HoldsPoints(m, n1, x1);
  }

  /** The prefix piece has one slot set, holding the suffix piece; the
      suffix piece's complement has one slot set, holding the prefix
      piece's complement. */
  lemma PieceSlots(g: Graph, v: Handle, pos: int, r: Graph)
    requires Outcome(g, v, pos, r)
    ensures V1(g) in r.verts && V2(g) in r.verts && V1c(g) in r.verts && V2c(g) in r.verts
    ensures Comp(r, V2(g)) == V2c(g) && Comp(r, V1c(g)) == V1(g)
    ensures 1 <= g.k <= |Right(g, v, pos)| && g.k <= |RevComp(Left(g, v, pos))|
    ensures var n1 := Right(g, v, pos)[g.k - 1];
            forall n :: Slot(r, V1(g), n) == (if n == n1 then Some(V2(g)) else None)
    ensures var n2 := RevComp(Left(g, v, pos))[g.k - 1];
            forall n :: Slot(r, V2c(g), n) == (if n == n2 then Some(V1c(g)) else None)
  {
    Pieces(Nucls(g, v), pos, g.k);
    var n1, n2 := Right(g, v, pos)[g.k - 1], RevComp(Left(g, v, pos))[g.k - 1];
    forall n
      ensures Slot(r, V1(g), n) == (if n == n1 then Some(V2(g)) else None)
    {
      assert Slot(r, V1(g), n) == Expected(g, v, pos, V1(g), n);
    }
    forall n
      ensures Slot(r, V2c(g), n) == (if n == n2 then Some(V1c(g)) else None)
    {
      assert Slot(r, V2c(g), n) == Expected(g, v, pos, V2c(g), n);
    }
  }

  /** The prefix piece links only to the suffix piece, whose complement
      links only to the prefix piece's complement; and the two pieces joined
      over their k-1 overlap give back v's sequence. */
  lemma OutcomePieces(g: Graph, v: Handle, pos: int, r: Graph)
    requires Outcome(g, v, pos, r)
    ensures V1(g) in r.verts && V2(g) in r.verts && V2c(g) in r.verts
    ensures |Nucls(r, V2(g))| >= g.k
    ensures Nucls(r, V1(g)) + Nucls(r, V2(g))[g.k - 1..] == Nucls(g, v)
    ensures forall x :: HasEdge(r, V1(g), x) <==> x == V2(g)
    ensures forall x :: HasEdge(r, V2c(g), x) <==> x == V1c(g)
  {
    Pieces(Nucls(g, v), pos, g.k);
    PieceSlots(g, v, pos, r);
    OnlyEntry(r, V1(g), Right(g, v, pos)[g.k - 1], V2(g));
    OnlyEntry(r, V2c(g), RevComp(Left(g, v, pos))[g.k - 1], V1c(g));
  }
}
