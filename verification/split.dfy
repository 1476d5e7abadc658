/** Graph::SplitVertex: a vertex is cut at position `pos` into a prefix
    vertex v1 and a suffix vertex v2 that overlap by k-1 symbols; v1 -> v2
    is linked, every edge into v (and into v's complement) is moved to the
    new pieces, the split is reported, and v with its complement is
    deleted.

    The proof works on a slot table: after both fix-up loops every slot of
    the grown graph is described by the substitution v -> v1,
    v.complement -> v2.complement applied to the slots of the original
    graph. */
module Split {
  import opened Wrappers
  import opened Nucleotide
  import opened CondensedGraph
  import opened Relink

  /** The source's preconditions for a cut that creates new vertices: a
      valid graph, a live vertex, and a position strictly inside it but at
      least k from its start. */
  ghost predicate Splittable(g: Graph, v: Handle, pos: int)
  {
    Valid(g) && Cuttable(g, v, pos)
  }

  /** The position lies strictly inside v and at least k from its start. */
  predicate Cuttable(g: Graph, v: Handle, pos: int)
  {
    v in g.verts && 1 <= g.k <= pos < |Nucls(g, v)|
  }

  /** The prefix piece `nucls[0, pos)`. */
  function Left(g: Graph, v: Handle, pos: int): seq<Nucl>
    requires v in g.verts && 0 <= pos <= |Nucls(g, v)|
  {
    Nucls(g, v)[..pos]
  }

  /** The suffix piece `nucls[pos - (k-1), size)`. */
  function Right(g: Graph, v: Handle, pos: int): seq<Nucl>
    requires v in g.verts && 1 <= g.k <= pos <= |Nucls(g, v)|
  {
    Nucls(g, v)[pos - (g.k - 1)..]
  }

  /** What the two pieces share with the whole sequence and with each
      other. */
  lemma Pieces(s: seq<Nucl>, pos: int, k: int)
    requires 1 <= k <= pos < |s|
    ensures var s1, s2 := s[..pos], s[pos - (k - 1)..];
            && |s1| == pos && |s2| == |s| - pos + k - 1 && |s2| >= k
            && s1[..k] == s[..k] && s1[..k - 1] == s[..k - 1] && s1[k - 1] == s[k - 1]
            && s2[|s2| - (k - 1)..] == s[|s| - (k - 1)..]
            && s1[pos - (k - 1)..] == s2[..k - 1]
            && s1 + s2[k - 1..] == s
            && |RevComp(s1)| == pos && |RevComp(s2)| == |s2|
            && RevComp(s1)[pos - (k - 1)..] == RevComp(s)[|s| - (k - 1)..]
            && RevComp(s2)[..k] == RevComp(s)[..k]
            && RevComp(s2)[..k - 1] == RevComp(s)[..k - 1] && RevComp(s2)[k - 1] == RevComp(s)[k - 1]
  {
    var s1, s2 := s[..pos], s[pos - (k - 1)..];
    assert s1 + s2[k - 1..] == s;
    RevCompSlice(s, 0, pos);
    assert s[0..pos] == s1;
    RevCompSlice(s, pos - (k - 1), |s|);
    assert s[pos - (k - 1)..|s|] == s2;
    var r := RevComp(s);
    assert RevComp(s1) == r[|s| - pos..];
    assert RevComp(s2) == r[..|s2|];
    assert s1[..k - 1] == s1[..k][..k - 1];
    assert RevComp(s2)[..k - 1] == RevComp(s2)[..k][..k - 1];
  }

  // ---------------------------------------------------------------------
  // The handles of the pieces: AddVertex hands out next, next+1 for the
  // prefix pair and next+2, next+3 for the suffix pair.

  function V1(g: Graph): Handle { g.next }
  function V1c(g: Graph): Handle { g.next + 1 }
  function V2(g: Graph): Handle { g.next + 2 }
  function V2c(g: Graph): Handle { g.next + 3 }

  /** The pieces are recorded in `r` with their sequences and complements,
      and every original vertex still live in `r` keeps its record. */
  ghost predicate PiecesRecorded(g: Graph, v: Handle, pos: int, r: Graph)
    requires Cuttable(g, v, pos)
  {
    var s1, s2 := Left(g, v, pos), Right(g, v, pos);
    && r.k == g.k
    && (forall h | h in g.verts && h in r.verts ::
          r.verts[h].nucls == g.verts[h].nucls && r.verts[h].complement == g.verts[h].complement)
    && V1(g) in r.verts && Nucls(r, V1(g)) == s1 && Comp(r, V1(g)) == V1c(g)
    && V1c(g) in r.verts && Nucls(r, V1c(g)) == RevComp(s1) && Comp(r, V1c(g)) == V1(g)
    && V2(g) in r.verts && Nucls(r, V2(g)) == s2 && Comp(r, V2(g)) == V2c(g)
    && V2c(g) in r.verts && Nucls(r, V2c(g)) == RevComp(s2) && Comp(r, V2c(g)) == V2(g)
  }

  /** The live set while both v and the pieces are live. */
  ghost predicate Grown(g: Graph, r: Graph)
  {
    r.verts.Keys == g.verts.Keys + {V1(g), V1c(g), V2(g), V2c(g)}
  }

  lemma GrownCases(g: Graph, r: Graph, w: Handle)
    requires Grown(g, r) && w in r.verts
    ensures w in g.verts || w == V1(g) || w == V1c(g) || w == V2(g) || w == V2c(g)
  {
    assert w in r.verts.Keys;
  }

  // ---------------------------------------------------------------------
  // The stages of SplitVertex

  /** Lines 123-124: the two AddVertex calls. */
  function WithPieces(g: Graph, v: Handle, pos: int): (r: Graph)
    requires Splittable(g, v, pos)
    ensures Sound(r) && r.k == g.k
  {
    assert VertexSound(g, v);
    var s1, s2 := Left(g, v, pos), Right(g, v, pos);
    var p1 := AddVertex(g, s1);
    AddVertexSound(g, s1);
    var p2 := AddVertex(p1.0, s2);
    AddVertexSound(p1.0, s2);
    p2.0
  }

  lemma WithPiecesShape(g: Graph, v: Handle, pos: int)
    requires Splittable(g, v, pos)
    ensures var r := WithPieces(g, v, pos);
            && Grown(g, r) && PiecesRecorded(g, v, pos, r)
            && r.next == g.next + 4 && r.log == g.log + [Added(V1(g)), Added(V2(g))]
            && (forall h | h in g.verts :: r.verts[h] == g.verts[h])
            && (forall h | h in {V1(g), V1c(g), V2(g), V2c(g)} :: DescOf(r, h) == NoSlots)
  {
    var s1, s2 := Left(g, v, pos), Right(g, v, pos);
    var g1 := AddVertex(g, s1).0;
    var r := AddVertex(g1, s2).0;
    assert r == WithPieces(g, v, pos);
    assert forall h | h in g1.verts :: r.verts[h] == g1.verts[h];
  }

  /** The prefix piece ends with the k-1 symbols the suffix piece starts
      with. */
  lemma PiecesLinkable(g: Graph, v: Handle, pos: int, r: Graph)
    requires Splittable(g, v, pos) && PiecesRecorded(g, v, pos, r)
    ensures AreLinkable(r, V1(g), V2(g))
  {
    Pieces(Nucls(g, v), pos, g.k);
  }

  /** Line 126: LinkVertices(v1, v2). */
  function Linked(g: Graph, v: Handle, pos: int): (r: Graph)
    requires Splittable(g, v, pos)
    ensures Sound(r) && r.k == g.k
  {
    var g2 := WithPieces(g, v, pos);
    WithPiecesShape(g, v, pos);
    PiecesLinkable(g, v, pos, g2);
    LinkVertices(g2, V1(g), V2(g))
  }

  /** Records kept across a stage that changes only slots. */
  lemma RecordedKept(g: Graph, v: Handle, pos: int, r: Graph, r': Graph)
    requires Splittable(g, v, pos) && Grown(g, r) && PiecesRecorded(g, v, pos, r)
    requires SameVertices(r, r')
    ensures Grown(g, r') && PiecesRecorded(g, v, pos, r')
  {
  }

  lemma LinkedRecords(g: Graph, v: Handle, pos: int)
    requires Splittable(g, v, pos)
    ensures var r := Linked(g, v, pos);
            && Grown(g, r) && PiecesRecorded(g, v, pos, r)
            && r.next == g.next + 4 && r.log == g.log + [Added(V1(g)), Added(V2(g))]
  {
    WithPiecesShape(g, v, pos);
    RecordedKept(g, v, pos, WithPieces(g, v, pos), Linked(g, v, pos));
  }

  /** After line 126 the original vertices keep their slots, v1 holds v2,
      v2's complement holds v1's complement, and nothing else is set. */
  lemma LinkedSlots(g: Graph, v: Handle, pos: int)
    requires Splittable(g, v, pos)
    ensures var r := Linked(g, v, pos);
            && Grown(g, r)
            && (forall w, n | w in g.verts :: Slot(r, w, n) == Slot(g, w, n))
            && (forall n :: Slot(r, V1(g), n) == if n == Right(g, v, pos)[g.k - 1] then Some(V2(g)) else None)
            && (forall n :: Slot(r, V2c(g), n) == if n == RevComp(Left(g, v, pos))[g.k - 1] then Some(V1c(g)) else None)
            && (forall n :: Slot(r, V2(g), n) == None && Slot(r, V1c(g), n) == None)
  {
    var g2 := WithPieces(g, v, pos);
    WithPiecesShape(g, v, pos);
    PiecesLinkable(g, v, pos, g2);
    LinkedRecords(g, v, pos);
    assert V1(g) !in g.verts && V1c(g) !in g.verts && V2(g) !in g.verts && V2c(g) !in g.verts by {
      assert Allocated(g);
    }
    LinkedFresh(g, g2, V1(g), V1c(g), V2(g), V2c(g), Linked(g, v, pos));
  }

  /** LinkVertices between two fresh vertices without slots: the older
      vertices keep their slots and only the two written slots are set. */
  lemma LinkedFresh(g: Graph, g2: Graph, a: Handle, ac: Handle, d: Handle, dc: Handle, r: Graph)
    requires Sound(g2) && AreLinkable(g2, a, d) && r == LinkVertices(g2, a, d)
    requires Comp(g2, a) == ac && Comp(g2, d) == dc
    requires a != ac && a != d && a != dc && ac != d && ac != dc && d != dc
    requires a !in g.verts && ac !in g.verts && d !in g.verts && dc !in g.verts
    requires forall h | h in g.verts :: h in g2.verts && g2.verts[h] == g.verts[h]
    requires forall h | h in {a, ac, d, dc} :: DescOf(g2, h) == NoSlots
    ensures forall w, n | w in g.verts :: Slot(r, w, n) == Slot(g, w, n)
    ensures forall n :: Slot(r, a, n) == if n == Nucls(g2, d)[g2.k - 1] then Some(d) else None
    ensures forall n :: Slot(r, dc, n) == if n == Nucls(g2, ac)[g2.k - 1] then Some(ac) else None
    ensures forall n :: Slot(r, d, n) == None && Slot(r, ac, n) == None
  {
    assert VertexSound(g2, a) && VertexSound(g2, d);
    assert DescOf(g2, a) == NoSlots && DescOf(g2, ac) == NoSlots;
    assert DescOf(g2, d) == NoSlots && DescOf(g2, dc) == NoSlots;
    forall w, n | w in g.verts
      ensures Slot(r, w, n) == Slot(g, w, n)
    {
      assert g2.verts[w] == g.verts[w];
    }
  }

  /** A stored edge overlaps. */
  lemma SlotOverlap(g: Graph, w: Handle, n: Nucl)
    requires Valid(g) && w in g.verts && n in g.verts[w].desc
    ensures g.verts[w].desc[n] in g.verts && Overlap(Nucls(g, w), Nucls(g, g.verts[w].desc[n]), g.k)
  {
    assert EdgeLaw(g, w, n);
  }

  /** Line 128 reads the same ancestor list of v as the original graph. */
  lemma LinkedAnc(g: Graph, v: Handle, pos: int)
    requires Splittable(g, v, pos)
    ensures Readable(Linked(g, v, pos), v) && Anc(Linked(g, v, pos), v) == Anc(g, v)
  {
    var r := Linked(g, v, pos);
    assert VertexSound(g, v);
    SoundReadable(g, v);
    LinkedRecords(g, v, pos);
    LinkedSlots(g, v, pos);
    SlotsEqual(g, r, Comp(g, v));
    AncSame(g, r, v);
  }

  /** The overlaps a fix-up step for v needs, read on sequences: an edge
      into v is an edge into the prefix piece; the self-loop v -> v becomes
      v2 -> v1, and the edge v.complement -> v becomes v1.complement -> v1. */
  lemma IntoLeft(s: seq<Nucl>, pos: int, k: int, x: seq<Nucl>)
    requires 1 <= k <= pos < |s| && Overlap(x, s, k)
    ensures Overlap(x, s[..pos], k)
    ensures Overlap(s, s, k) ==> Overlap(s[pos - (k - 1)..], s[..pos], k)
    ensures Overlap(RevComp(s), s, k) ==> Overlap(RevComp(s[..pos]), s[..pos], k)
  {
    Pieces(s, pos, k);
  }

  /** The same for the complement side: an edge into v's complement is an
      edge into v2's complement; v -> v.complement becomes
      v2 -> v2.complement, and the self-loop on v's complement becomes
      v1.complement -> v2.complement. */
  lemma IntoRightComp(s: seq<Nucl>, pos: int, k: int, x: seq<Nucl>)
    requires 1 <= k <= pos < |s| && Overlap(x, RevComp(s), k)
    ensures Overlap(x, RevComp(s[pos - (k - 1)..]), k)
    ensures Overlap(s, RevComp(s), k) ==> Overlap(s[pos - (k - 1)..], RevComp(s[pos - (k - 1)..]), k)
    ensures Overlap(RevComp(s), RevComp(s), k) ==> Overlap(RevComp(s[..pos]), RevComp(s[pos - (k - 1)..]), k)
  {
    Pieces(s, pos, k);
    var s2, r := s[pos - (k - 1)..], RevComp(s);
    OverlapTo(x, r, RevComp(s2), k);
    if Overlap(s, r, k) {
      OverlapFrom(s, s2, r, k);
      OverlapTo(s2, r, RevComp(s2), k);
    }
    if Overlap(r, r, k) {
      LoopIntoRightComp(s, pos, k);
    }
  }

  lemma LoopIntoRightComp(s: seq<Nucl>, pos: int, k: int)
    requires 1 <= k <= pos < |s| && Overlap(RevComp(s), RevComp(s), k)
    ensures Overlap(RevComp(s[..pos]), RevComp(s[pos - (k - 1)..]), k)
  {
    var r := RevComp(s);
    RevCompSlice(s, 0, pos);
    RevCompSlice(s, pos - (k - 1), |s|);
    assert s[0..pos] == s[..pos];
    assert s[pos - (k - 1)..|s|] == s[pos - (k - 1)..];
    var r1, r2 := r[|s| - pos..], r[..|s| - pos + k - 1];
    assert r1[|r1| - (k - 1)..] == r[|s| - (k - 1)..];
    assert r2[..k - 1] == r[..k - 1];
  }

  /** Every ancestor of v can be linked to v1 through its source. */
  lemma FirstSourceLinkable(g: Graph, v: Handle, pos: int, a: Handle)
    requires Splittable(g, v, pos) && a in Anc(g, v)
    ensures var r := Linked(g, v, pos);
            v in r.verts && V1(g) in r.verts && AreLinkable(r, Source(r, a, v, V1(g), v, V2(g)), V1(g))
  {
    var r := Linked(g, v, pos);
    var s := Nucls(g, v);
    LinkedRecords(g, v, pos);
    assert VertexSound(g, v) && PairLaw(g, v);
    AncEdges(g, v, a);
    SlotOverlap(g, a, Key(g, v));
    IntoLeft(s, pos, g.k, Nucls(g, a));
    var src := Source(r, a, v, V1(g), v, V2(g));
    if a == Comp(g, v) {
      assert src == V1c(g) && Nucls(r, src) == RevComp(s[..pos]);
    } else if a == v {
      assert src == V2(g) && Nucls(r, src) == s[pos - (g.k - 1)..];
    } else {
      assert src == a && Nucls(r, src) == Nucls(g, a);
    }
    assert Nucls(r, V1(g)) == s[..pos];
  }

  lemma FirstLinkable(g: Graph, v: Handle, pos: int)
    requires Splittable(g, v, pos)
    ensures var r := Linked(g, v, pos);
            v in r.verts && Linkable(r, Anc(r, v), v, V1(g), v, V2(g))
  {
    LinkedAnc(g, v, pos);
    LinkedRecords(g, v, pos);
    forall a | a in Anc(g, v)
      ensures AreLinkable(Linked(g, v, pos), Source(Linked(g, v, pos), a, v, V1(g), v, V2(g)), V1(g))
    {
      FirstSourceLinkable(g, v, pos, a);
    }
  }

  /** Line 128: FixIncomingOnSplit(v, v1, v2). */
  function FirstFix(g: Graph, v: Handle, pos: int): (r: Graph)
    requires Splittable(g, v, pos)
    ensures Sound(r) && r.k == g.k
  {
    LinkedRecords(g, v, pos);
    FirstLinkable(g, v, pos);
    FixIncomingOnSplit(Linked(g, v, pos), v, V1(g), V2(g))
  }

  // ---------------------------------------------------------------------
  // The slot table after both fix-up loops

  /** The substitution v -> v1, v.complement -> v2.complement on a slot. */
  function Redirect(g: Graph, v: Handle, o: Option<Handle>): Option<Handle>
    requires v in g.verts
  {
    if o == Some(v) then Some(V1(g))
    else if o == Some(Comp(g, v)) then Some(V2c(g))
    else o
  }

  /** The slots of the grown graph once both loops have run: v1 and v2's
      complement hold only the link between the pieces, v2 takes over v's
      outgoing edges and v1's complement those of v's complement, and every
      original vertex keeps its edges with v and its complement replaced. */
  ghost function Expected(g: Graph, v: Handle, pos: int, w: Handle, n: Nucl): Option<Handle>
    requires Splittable(g, v, pos)
  {
    assert VertexSound(g, v);
    if w == V1(g) then (if n == Right(g, v, pos)[g.k - 1] then Some(V2(g)) else None)
    else if w == V2c(g) then (if n == RevComp(Left(g, v, pos))[g.k - 1] then Some(V1c(g)) else None)
    else if w == V2(g) then Redirect(g, v, Slot(g, v, n))
    else if w == V1c(g) then Redirect(g, v, Slot(g, Comp(g, v), n))
    else if w in g.verts then Redirect(g, v, Slot(g, w, n))
    else None
  }

  ghost function Table(g: Graph, v: Handle, pos: int): (Handle, Nucl) -> Option<Handle>
    requires Splittable(g, v, pos)
  {
    (w, n) => Expected(g, v, pos, w, n)
  }

  /** The keys of the pieces: v1 is stored under v's key, v2's complement
      under the key of v's complement. */
  lemma PiecesKeys(g: Graph, v: Handle, pos: int, r: Graph)
    requires Cuttable(g, v, pos) && PiecesRecorded(g, v, pos, r)
    requires Comp(g, v) in g.verts && Nucls(g, Comp(g, v)) == RevComp(Nucls(g, v))
    ensures |Nucls(g, Comp(g, v))| >= g.k && |Nucls(r, V1(g))| >= g.k && |Nucls(r, V2c(g))| >= g.k
    ensures |Nucls(r, V2(g))| >= g.k && |Nucls(r, V1c(g))| >= g.k
    ensures Key(r, V1(g)) == Key(g, v) && Key(r, V2c(g)) == Key(g, Comp(g, v))
    ensures Key(r, V2(g)) == Right(g, v, pos)[g.k - 1] && Key(r, V1c(g)) == RevComp(Left(g, v, pos))[g.k - 1]
  {
    Pieces(Nucls(g, v), pos, g.k);
  }

  /** What the table says about the slots line 128 writes. */
  lemma FirstTableValues(g: Graph, v: Handle, pos: int, a: Handle)
    requires Splittable(g, v, pos) && a in Anc(g, v)
    ensures a in g.verts && Comp(g, a) in g.verts && Comp(g, v) in g.verts
    ensures 1 <= g.k <= |Nucls(g, v)| && |Nucls(g, Comp(g, a))| >= g.k && |Nucls(g, Comp(g, v))| >= g.k
    ensures a == Comp(g, v) ==> Expected(g, v, pos, V1c(g), Key(g, v)) == Some(V1(g))
    ensures a == v ==> Expected(g, v, pos, V2(g), Key(g, v)) == Some(V1(g))
                       && Expected(g, v, pos, V1c(g), Key(g, Comp(g, v))) == Some(V2c(g))
    ensures a != v && a != Comp(g, v) ==>
              && Expected(g, v, pos, a, Key(g, v)) == Some(V1(g))
              && Expected(g, v, pos, V1c(g), Key(g, Comp(g, a))) == Some(Comp(g, a))
  {
    assert VertexSound(g, v) && VertexSound(g, a);
    AncEdges(g, v, a);
  }

  /** Where line 128 links from for ancestor `a`: v1's complement for v's
      complement, v2 for v itself, `a` otherwise. */
  function FirstSource(g: Graph, v: Handle, a: Handle): Handle
    requires v in g.verts
  {
    if a == Comp(g, v) then V1c(g) else if a == v then V2(g) else a
  }

  /** The complement of that source. */
  function FirstBack(g: Graph, v: Handle, a: Handle): Handle
    requires v in g.verts && a in g.verts
  {
    if a == Comp(g, v) then V1(g) else if a == v then V2c(g) else Comp(g, a)
  }

  /** The two writes of line 128 for ancestor `a`, in terms of the original
      graph. */
  lemma FirstStep(g: Graph, v: Handle, pos: int, a: Handle)
    requires Splittable(g, v, pos) && a in Anc(g, v)
    ensures a in g.verts && Comp(g, a) in g.verts && |Nucls(g, Comp(g, a))| >= g.k && 1 <= g.k <= |Nucls(g, v)|
    ensures var r := Linked(g, v, pos);
            && v in r.verts && V1(g) in r.verts
            && AreLinkable(r, Source(r, a, v, V1(g), v, V2(g)), V1(g))
            && StepWrites(r, a, v, V1(g), v, V2(g))
               == [Write(FirstSource(g, v, a), Key(g, v), V1(g)),
                   Write(V1c(g), Key(g, Comp(g, a)), FirstBack(g, v, a))]
  {
    var r := Linked(g, v, pos);
    FirstSourceLinkable(g, v, pos, a);
    LinkedRecords(g, v, pos);
    assert VertexSound(g, v) && VertexSound(g, a) && PairLaw(g, v);
    AncEdges(g, v, a);
    PiecesKeys(g, v, pos, r);
    FirstSourceIs(g, v, pos, r, a);
  }

  /** FirstSource and FirstBack read on the grown graph. */
  lemma FirstSourceIs(g: Graph, v: Handle, pos: int, r: Graph, a: Handle)
    requires Cuttable(g, v, pos) && Grown(g, r) && PiecesRecorded(g, v, pos, r) && Allocated(g)
    requires Comp(g, v) in g.verts && Comp(g, Comp(g, v)) == v && Nucls(g, Comp(g, v)) == RevComp(Nucls(g, v))
    requires a in g.verts && Comp(g, a) in g.verts && |Nucls(g, Comp(g, a))| >= g.k
    ensures Source(r, a, v, V1(g), v, V2(g)) == FirstSource(g, v, a)
    ensures var b := FirstBack(g, v, a);
            && FirstSource(g, v, a) in r.verts && Comp(r, FirstSource(g, v, a)) == b
            && b in r.verts && |Nucls(r, b)| >= g.k && Key(r, b) == Key(g, Comp(g, a))
  {
    PiecesKeys(g, v, pos, r);
  }

  /** The two writes of line 128 for one ancestor agree with the table. */
  lemma FirstStepAgrees(g: Graph, v: Handle, pos: int, a: Handle)
    requires Splittable(g, v, pos) && a in Anc(g, v)
    ensures var r := Linked(g, v, pos);
            && v in r.verts && V1(g) in r.verts
            && AreLinkable(r, Source(r, a, v, V1(g), v, V2(g)), V1(g))
            && StepAgrees(r, a, v, V1(g), v, V2(g), Table(g, v, pos))
  {
    FirstStep(g, v, pos, a);
    FirstTableValues(g, v, pos, a);
  }

  /** The writes of line 128, all of them. */
  ghost function FirstPlan(g: Graph, v: Handle, pos: int): seq<Write>
    requires Splittable(g, v, pos)
  {
    LinkedRecords(g, v, pos);
    FirstLinkable(g, v, pos);
    var r := Linked(g, v, pos);
    Plan(r, Anc(r, v), v, V1(g), v, V2(g))
  }

  lemma FirstAgrees(g: Graph, v: Handle, pos: int)
    requires Splittable(g, v, pos)
    ensures Agrees(FirstPlan(g, v, pos), Table(g, v, pos))
  {
    var r := Linked(g, v, pos);
    LinkedRecords(g, v, pos);
    LinkedAnc(g, v, pos);
    FirstLinkable(g, v, pos);
    forall a | a in Anc(r, v)
      ensures StepAgrees(r, a, v, V1(g), v, V2(g), Table(g, v, pos))
    {
      FirstStepAgrees(g, v, pos, a);
    }
    AgreesFromSteps(r, Anc(r, v), v, V1(g), v, V2(g), Table(g, v, pos));
  }

  /** After line 128: a slot the loop wrote holds the table's value, every
      other slot what it held after line 126. */
  lemma FirstSlots(g: Graph, v: Handle, pos: int)
    requires Splittable(g, v, pos)
    ensures var r := Linked(g, v, pos);
            forall w, n | w in r.verts ::
              Slot(FirstFix(g, v, pos), w, n)
              == if Touches(FirstPlan(g, v, pos), w, n) then Expected(g, v, pos, w, n) else Slot(r, w, n)
  {
    var r := Linked(g, v, pos);
    LinkedRecords(g, v, pos);
    FirstLinkable(g, v, pos);
    FirstAgrees(g, v, pos);
    RelinkAllSlots(r, Anc(r, v), v, V1(g), v, V2(g), Table(g, v, pos));
  }

  /** Line 128 writes only into v1's complement, v2, and the ancestors of v
      other than v and its complement. */
  lemma FirstTouched(g: Graph, v: Handle, pos: int, w: Handle, n: Nucl)
    requires Splittable(g, v, pos) && Touches(FirstPlan(g, v, pos), w, n)
    ensures w == V1c(g) || w == V2(g) || (w in g.verts && w != v && w != Comp(g, v))
  {
    var r := Linked(g, v, pos);
    LinkedRecords(g, v, pos);
    LinkedAnc(g, v, pos);
    FirstLinkable(g, v, pos);
    TouchedBy(r, Anc(r, v), v, V1(g), v, V2(g), w, n);
  }

  lemma FirstRecords(g: Graph, v: Handle, pos: int)
    requires Splittable(g, v, pos)
    ensures var r := FirstFix(g, v, pos);
            && Grown(g, r) && PiecesRecorded(g, v, pos, r)
            && r.next == g.next + 4 && r.log == g.log + [Added(V1(g)), Added(V2(g))]
  {
    LinkedRecords(g, v, pos);
    RecordedKept(g, v, pos, Linked(g, v, pos), FirstFix(g, v, pos));
  }

  /** Line 128 leaves the slots of v and its complement as they were. */
  lemma FirstKeepsPair(g: Graph, v: Handle, pos: int)
    requires Splittable(g, v, pos)
    ensures var r := FirstFix(g, v, pos);
            && v in r.verts && Comp(g, v) in g.verts && Comp(g, v) in r.verts
            && (forall n :: Slot(r, v, n) == Slot(g, v, n) && Slot(r, Comp(g, v), n) == Slot(g, Comp(g, v), n))
  {
    assert VertexSound(g, v);
    LinkedRecords(g, v, pos);
    LinkedSlots(g, v, pos);
    FirstSlots(g, v, pos);
    forall n
      ensures !Touches(FirstPlan(g, v, pos), v, n) && !Touches(FirstPlan(g, v, pos), Comp(g, v), n)
    {
      if Touches(FirstPlan(g, v, pos), v, n) {
        FirstTouched(g, v, pos, v, n);
      }
      if Touches(FirstPlan(g, v, pos), Comp(g, v), n) {
        FirstTouched(g, v, pos, Comp(g, v), n);
      }
    }
  }

  /** Line 130 reads the same ancestor list of v's complement as the
      original graph. */
  lemma SecondAnc(g: Graph, v: Handle, pos: int)
    requires Splittable(g, v, pos)
    ensures var r := FirstFix(g, v, pos);
            Comp(g, v) in g.verts && Readable(r, Comp(g, v)) && Anc(r, Comp(g, v)) == Anc(g, Comp(g, v))
  {
    var r := FirstFix(g, v, pos);
    assert VertexSound(g, v);
    SoundReadable(g, Comp(g, v));
    FirstRecords(g, v, pos);
    FirstKeepsPair(g, v, pos);
    SlotsEqual(g, r, v);
    AncSame(g, r, Comp(g, v));
  }

  /** Every ancestor of v's complement can be linked to v2's complement
      through its source. */
  lemma SecondSourceLinkable(g: Graph, v: Handle, pos: int, b: Handle)
    requires Splittable(g, v, pos) && Comp(g, v) in g.verts && b in Anc(g, Comp(g, v))
    ensures var r := FirstFix(g, v, pos);
            Comp(g, v) in r.verts && V2c(g) in r.verts
            && AreLinkable(r, Source(r, b, Comp(g, v), V2c(g), Comp(g, v), V1c(g)), V2c(g))
  {
    var r := FirstFix(g, v, pos);
    var s := Nucls(g, v);
    var vc := Comp(g, v);
    FirstRecords(g, v, pos);
    assert VertexSound(g, v) && PairLaw(g, v);
    AncEdges(g, vc, b);
    SlotOverlap(g, b, Key(g, vc));
    IntoRightComp(s, pos, g.k, Nucls(g, b));
    var src := Source(r, b, vc, V2c(g), vc, V1c(g));
    if b == v {
      assert src == V2(g) && Nucls(r, src) == s[pos - (g.k - 1)..];
    } else if b == vc {
      assert src == V1c(g) && Nucls(r, src) == RevComp(s[..pos]);
    } else {
      assert src == b && Nucls(r, src) == Nucls(g, b);
    }
    assert Nucls(r, V2c(g)) == RevComp(s[pos - (g.k - 1)..]);
  }

  lemma SecondLinkable(g: Graph, v: Handle, pos: int)
    requires Splittable(g, v, pos)
    ensures var r := FirstFix(g, v, pos);
            && Comp(g, v) in r.verts && V2c(g) in r.verts
            && Comp(r, v) == Comp(g, v) && Comp(r, V2(g)) == V2c(g) && Comp(r, V1(g)) == V1c(g)
            && Linkable(r, Anc(r, Comp(g, v)), Comp(g, v), V2c(g), Comp(g, v), V1c(g))
  {
    var r := FirstFix(g, v, pos);
    SecondAnc(g, v, pos);
    FirstRecords(g, v, pos);
    forall b | b in Anc(g, Comp(g, v))
      ensures AreLinkable(r, Source(r, b, Comp(g, v), V2c(g), Comp(g, v), V1c(g)), V2c(g))
    {
      SecondSourceLinkable(g, v, pos, b);
    }
  }

  /** Line 130: FixIncomingOnSplit(v.complement, v2.complement, v1.complement). */
  function SecondFix(g: Graph, v: Handle, pos: int): (r: Graph)
    requires Splittable(g, v, pos)
    ensures Sound(r) && r.k == g.k
  {
    var g4 := FirstFix(g, v, pos);
    FirstRecords(g, v, pos);
    SecondLinkable(g, v, pos);
    FixIncomingOnSplit(g4, Comp(g4, v), Comp(g4, V2(g)), Comp(g4, V1(g)))
  }

  lemma SecondRecords(g: Graph, v: Handle, pos: int)
    requires Splittable(g, v, pos)
    ensures var r := SecondFix(g, v, pos);
            && Grown(g, r) && PiecesRecorded(g, v, pos, r)
            && r.next == g.next + 4 && r.log == g.log + [Added(V1(g)), Added(V2(g))]
  {
    FirstRecords(g, v, pos);
    RecordedKept(g, v, pos, FirstFix(g, v, pos), SecondFix(g, v, pos));
  }

  /** What the table says about the slots line 130 writes. */
  lemma SecondTableValues(g: Graph, v: Handle, pos: int, b: Handle)
    requires Splittable(g, v, pos) && Comp(g, v) in g.verts && b in Anc(g, Comp(g, v))
    ensures b in g.verts && Comp(g, b) in g.verts
    ensures 1 <= g.k <= |Nucls(g, v)| && |Nucls(g, Comp(g, b))| >= g.k && |Nucls(g, Comp(g, v))| >= g.k
    ensures b == v ==> Expected(g, v, pos, V2(g), Key(g, Comp(g, v))) == Some(V2c(g))
    ensures b == Comp(g, v) ==> Expected(g, v, pos, V1c(g), Key(g, Comp(g, v))) == Some(V2c(g))
                                && Expected(g, v, pos, V2(g), Key(g, v)) == Some(V1(g))
    ensures b != v && b != Comp(g, v) ==>
              && Expected(g, v, pos, b, Key(g, Comp(g, v))) == Some(V2c(g))
              && Expected(g, v, pos, V2(g), Key(g, Comp(g, b))) == Some(Comp(g, b))
  {
    assert VertexSound(g, v) && VertexSound(g, b);
    AncEdges(g, Comp(g, v), b);
  }

  /** Where line 130 links from for ancestor `b` of v's complement: v2 for
      v, v1's complement for v's complement, `b` otherwise. */
  function SecondSource(g: Graph, v: Handle, b: Handle): Handle
    requires v in g.verts
  {
    if b == v then V2(g) else if b == Comp(g, v) then V1c(g) else b
  }

  function SecondBack(g: Graph, v: Handle, b: Handle): Handle
    requires v in g.verts && b in g.verts
  {
    if b == v then V2c(g) else if b == Comp(g, v) then V1(g) else Comp(g, b)
  }

  /** The two writes of line 130 for ancestor `b`, in terms of the original
      graph. */
  lemma SecondStep(g: Graph, v: Handle, pos: int, b: Handle)
    requires Splittable(g, v, pos) && Comp(g, v) in g.verts && b in Anc(g, Comp(g, v))
    ensures b in g.verts && Comp(g, b) in g.verts && |Nucls(g, Comp(g, b))| >= g.k
    ensures |Nucls(g, Comp(g, v))| >= g.k
    ensures var r := FirstFix(g, v, pos);
            && Comp(g, v) in r.verts && V2c(g) in r.verts
            && AreLinkable(r, Source(r, b, Comp(g, v), V2c(g), Comp(g, v), V1c(g)), V2c(g))
            && StepWrites(r, b, Comp(g, v), V2c(g), Comp(g, v), V1c(g))
               == [Write(SecondSource(g, v, b), Key(g, Comp(g, v)), V2c(g)),
                   Write(V2(g), Key(g, Comp(g, b)), SecondBack(g, v, b))]
  {
    var r := FirstFix(g, v, pos);
    var vc := Comp(g, v);
    SecondSourceLinkable(g, v, pos, b);
    FirstRecords(g, v, pos);
    assert VertexSound(g, v) && VertexSound(g, b) && PairLaw(g, v);
    AncEdges(g, vc, b);
    PiecesKeys(g, v, pos, r);
    SecondSourceIs(g, v, pos, r, b);
  }

  /** SecondSource and SecondBack read on the grown graph. */
  lemma SecondSourceIs(g: Graph, v: Handle, pos: int, r: Graph, b: Handle)
    requires Cuttable(g, v, pos) && Grown(g, r) && PiecesRecorded(g, v, pos, r) && Allocated(g)
    requires Comp(g, v) in g.verts && Comp(g, Comp(g, v)) == v && Nucls(g, Comp(g, v)) == RevComp(Nucls(g, v))
    requires b in g.verts && Comp(g, b) in g.verts && |Nucls(g, Comp(g, b))| >= g.k
    ensures Comp(g, v) in r.verts && Source(r, b, Comp(g, v), V2c(g), Comp(g, v), V1c(g)) == SecondSource(g, v, b)
    ensures var c := SecondBack(g, v, b);
            && SecondSource(g, v, b) in r.verts && Comp(r, SecondSource(g, v, b)) == c
            && c in r.verts && |Nucls(r, c)| >= g.k && Key(r, c) == Key(g, Comp(g, b))
  {
    PiecesKeys(g, v, pos, r);
  }

  /** The two writes of line 130 for one ancestor agree with the table. */
  lemma SecondStepAgrees(g: Graph, v: Handle, pos: int, b: Handle)
    requires Splittable(g, v, pos) && Comp(g, v) in g.verts && b in Anc(g, Comp(g, v))
    ensures var r := FirstFix(g, v, pos);
            && Comp(g, v) in r.verts && V2c(g) in r.verts
            && AreLinkable(r, Source(r, b, Comp(g, v), V2c(g), Comp(g, v), V1c(g)), V2c(g))
            && StepAgrees(r, b, Comp(g, v), V2c(g), Comp(g, v), V1c(g), Table(g, v, pos))
  {
    SecondStep(g, v, pos, b);
    SecondTableValues(g, v, pos, b);
  }

  /** The writes of line 130, all of them. */
  ghost function SecondPlan(g: Graph, v: Handle, pos: int): seq<Write>
    requires Splittable(g, v, pos)
  {
    FirstRecords(g, v, pos);
    SecondLinkable(g, v, pos);
    var r := FirstFix(g, v, pos);
    Plan(r, Anc(r, Comp(g, v)), Comp(g, v), V2c(g), Comp(g, v), V1c(g))
  }

  lemma SecondAgrees(g: Graph, v: Handle, pos: int)
    requires Splittable(g, v, pos)
    ensures Agrees(SecondPlan(g, v, pos), Table(g, v, pos))
  {
    var r := FirstFix(g, v, pos);
    var vc := Comp(g, v);
    FirstRecords(g, v, pos);
    SecondAnc(g, v, pos);
    SecondLinkable(g, v, pos);
    forall b | b in Anc(r, vc)
      ensures StepAgrees(r, b, vc, V2c(g), vc, V1c(g), Table(g, v, pos))
    {
      SecondStepAgrees(g, v, pos, b);
    }
    AgreesFromSteps(r, Anc(r, vc), vc, V2c(g), vc, V1c(g), Table(g, v, pos));
  }

  /** After line 130: a slot the loop wrote holds the table's value, every
      other slot what it held after line 128. */
  lemma SecondSlots(g: Graph, v: Handle, pos: int)
    requires Splittable(g, v, pos)
    ensures var r := FirstFix(g, v, pos);
            forall w, n | w in r.verts ::
              Slot(SecondFix(g, v, pos), w, n)
              == if Touches(SecondPlan(g, v, pos), w, n) then Expected(g, v, pos, w, n) else Slot(r, w, n)
  {
    var r := FirstFix(g, v, pos);
    var vc := Comp(g, v);
    FirstRecords(g, v, pos);
    SecondLinkable(g, v, pos);
    SecondAgrees(g, v, pos);
    RelinkAllSlots(r, Anc(r, vc), vc, V2c(g), vc, V1c(g), Table(g, v, pos));
  }

  /** Line 130 writes only into v2, v1's complement, and the ancestors of
      v's complement other than v and its complement. */
  lemma SecondTouched(g: Graph, v: Handle, pos: int, w: Handle, n: Nucl)
    requires Splittable(g, v, pos) && Touches(SecondPlan(g, v, pos), w, n)
    ensures w == V1c(g) || w == V2(g) || (w in g.verts && w != v && w != Comp(g, v))
  {
    var r := FirstFix(g, v, pos);
    var vc := Comp(g, v);
    FirstRecords(g, v, pos);
    SecondAnc(g, v, pos);
    SecondLinkable(g, v, pos);
    TouchedBy(r, Anc(r, vc), vc, V2c(g), vc, V1c(g), w, n);
  }

  // ---------------------------------------------------------------------
  // Which slots the loops reach

  /** Line 128 rewrites every slot that held v. */
  lemma FirstCovers(g: Graph, v: Handle, pos: int, w: Handle, n: Nucl)
    requires Splittable(g, v, pos) && w in g.verts && w != v && w != Comp(g, v)
    requires Slot(g, w, n) == Some(v)
    ensures Touches(FirstPlan(g, v, pos), w, n)
  {
    var r := Linked(g, v, pos);
    assert VertexSound(g, v) && VertexSound(g, w);
    LinkedRecords(g, v, pos);
    LinkedAnc(g, v, pos);
    FirstLinkable(g, v, pos);
    HoldsPoints(DescOf(g, w), n, v);
    MirrorEdge(g, w, v);
    AncMembership(g, v, w);
    SlotKey(g, w, n);
    assert PairLaw(g, v);
    PiecesKeys(g, v, pos, r);
    var anc := Anc(r, v);
    var j :| 0 <= j < |anc| && anc[j] == w;
    StepTouches(r, anc, v, V1(g), v, V2(g), j);
  }

  /** Line 128 fills every slot of v1's complement that v's complement
      had filled. */
  lemma FirstCoversComp(g: Graph, v: Handle, pos: int, n: Nucl)
    requires Splittable(g, v, pos) && Comp(g, v) in g.verts && Slot(g, Comp(g, v), n).Some?
    ensures Touches(FirstPlan(g, v, pos), V1c(g), n)
  {
    var r := Linked(g, v, pos);
    var vc := Comp(g, v);
    var x := Slot(g, vc, n).value;
    SlotKey(g, vc, n);
    assert VertexSound(g, v) && VertexSound(g, x);
    var a := Comp(g, x);
    LinkedRecords(g, v, pos);
    LinkedAnc(g, v, pos);
    FirstLinkable(g, v, pos);
    AncMembership(g, v, a);
    var anc := Anc(r, v);
    var j :| 0 <= j < |anc| && anc[j] == a;
    FirstStep(g, v, pos, a);
    StepTouches(r, anc, v, V1(g), v, V2(g), j);
  }

  /** Line 130 rewrites every slot that held v's complement. */
  lemma SecondCovers(g: Graph, v: Handle, pos: int, w: Handle, n: Nucl)
    requires Splittable(g, v, pos) && Comp(g, v) in g.verts && w in g.verts && w != v && w != Comp(g, v)
    requires Slot(g, w, n) == Some(Comp(g, v))
    ensures Touches(SecondPlan(g, v, pos), w, n)
  {
    var r := FirstFix(g, v, pos);
    var vc := Comp(g, v);
    assert VertexSound(g, v) && VertexSound(g, w);
    FirstRecords(g, v, pos);
    SecondAnc(g, v, pos);
    SecondLinkable(g, v, pos);
    HoldsPoints(DescOf(g, w), n, vc);
    MirrorEdge(g, w, vc);
    AncMembership(g, vc, w);
    SlotKey(g, w, n);
    assert PairLaw(g, v);
    PiecesKeys(g, v, pos, r);
    var anc := Anc(r, vc);
    var j :| 0 <= j < |anc| && anc[j] == w;
    StepTouches(r, anc, vc, V2c(g), vc, V1c(g), j);
  }

  /** Line 130 fills every slot of v2 that v had filled. */
  lemma SecondCoversV(g: Graph, v: Handle, pos: int, n: Nucl)
    requires Splittable(g, v, pos) && Slot(g, v, n).Some?
    ensures Touches(SecondPlan(g, v, pos), V2(g), n)
  {
    var r := FirstFix(g, v, pos);
    var vc := Comp(g, v);
    var x := Slot(g, v, n).value;
    SlotKey(g, v, n);
    assert VertexSound(g, v) && VertexSound(g, x);
    var b := Comp(g, x);
    FirstRecords(g, v, pos);
    SecondAnc(g, v, pos);
    SecondLinkable(g, v, pos);
    AncMembership(g, vc, b);
    var anc := Anc(r, vc);
    var j :| 0 <= j < |anc| && anc[j] == b;
    SecondStep(g, v, pos, b);
    StepTouches(r, anc, vc, V2c(g), vc, V1c(g), j);
  }

  /** One slot after line 130: v and its complement are as they were, every
      other slot is what the table says. */
  lemma FixedSlot(g: Graph, v: Handle, pos: int, w: Handle, n: Nucl)
    requires Splittable(g, v, pos) && w in Linked(g, v, pos).verts
    ensures w in SecondFix(g, v, pos).verts && Comp(g, v) in g.verts
    ensures w == v || w == Comp(g, v) ==> w in g.verts && Slot(SecondFix(g, v, pos), w, n) == Slot(g, w, n)
    ensures w != v && w != Comp(g, v) ==> Slot(SecondFix(g, v, pos), w, n) == Expected(g, v, pos, w, n)
  {
    var vc := Comp(g, v);
    assert VertexSound(g, v);
    LinkedRecords(g, v, pos);
    FirstRecords(g, v, pos);
    SecondRecords(g, v, pos);
    var g3, g4, g5 := Linked(g, v, pos), FirstFix(g, v, pos), SecondFix(g, v, pos);
    var t1, t2 := Touches(FirstPlan(g, v, pos), w, n), Touches(SecondPlan(g, v, pos), w, n);
    var e := Expected(g, v, pos, w, n);
    assert Slot(g5, w, n) == if t2 then e else Slot(g4, w, n) by {
      SecondSlots(g, v, pos);
    }
    assert Slot(g4, w, n) == if t1 then e else Slot(g3, w, n) by {
      FirstSlots(g, v, pos);
    }
    if t2 {
      SecondTouched(g, v, pos, w, n);
    } else if t1 {
      FirstTouched(g, v, pos, w, n);
    } else if w == v || w == vc {
      LinkedSlots(g, v, pos);
    } else {
      UntouchedAgrees(g, v, pos, w, n);
    }
  }

  /** A slot neither loop writes already held the table's value after
      line 126. */
  lemma UntouchedAgrees(g: Graph, v: Handle, pos: int, w: Handle, n: Nucl)
    requires Splittable(g, v, pos) && w in Linked(g, v, pos).verts
    requires w != v && (v in g.verts ==> w != Comp(g, v))
    requires !Touches(FirstPlan(g, v, pos), w, n) && !Touches(SecondPlan(g, v, pos), w, n)
    ensures Slot(Linked(g, v, pos), w, n) == Expected(g, v, pos, w, n)
  {
    LinkedRecords(g, v, pos);
    GrownCases(g, Linked(g, v, pos), w);
    if w in g.verts {
      UntouchedOld(g, v, pos, w, n);
    } else if w == V2(g) {
      UntouchedV2(g, v, pos, n);
    } else if w == V1c(g) {
      UntouchedV1c(g, v, pos, n);
    } else {
      LinkedPieceSlots(g, v, pos, w, n);
    }
  }

  lemma LinkedPieceSlots(g: Graph, v: Handle, pos: int, w: Handle, n: Nucl)
    requires Splittable(g, v, pos) && (w == V1(g) || w == V2c(g))
    ensures w in Linked(g, v, pos).verts && Slot(Linked(g, v, pos), w, n) == Expected(g, v, pos, w, n)
  {
    LinkedRecords(g, v, pos);
    LinkedSlots(g, v, pos);
  }

  lemma UntouchedOld(g: Graph, v: Handle, pos: int, w: Handle, n: Nucl)
    requires Splittable(g, v, pos) && w in g.verts && w != v && w != Comp(g, v)
    requires !Touches(FirstPlan(g, v, pos), w, n) && !Touches(SecondPlan(g, v, pos), w, n)
    ensures w in Linked(g, v, pos).verts && Slot(Linked(g, v, pos), w, n) == Expected(g, v, pos, w, n)
  {
    assert VertexSound(g, v);
    LinkedRecords(g, v, pos);
    LinkedSlots(g, v, pos);
    if Slot(g, w, n) == Some(v) {
      FirstCovers(g, v, pos, w, n);
    }
    if Slot(g, w, n) == Some(Comp(g, v)) {
      SecondCovers(g, v, pos, w, n);
    }
    assert Allocated(g);
  }

  /** The table's rows for v's two successors among the pieces. */
  lemma ExpectedRows(g: Graph, v: Handle, pos: int, n: Nucl)
    requires Splittable(g, v, pos)
    ensures Comp(g, v) in g.verts
    ensures Expected(g, v, pos, V2(g), n) == Redirect(g, v, Slot(g, v, n))
    ensures Expected(g, v, pos, V1c(g), n) == Redirect(g, v, Slot(g, Comp(g, v), n))
  {
    assert VertexSound(g, v);
  }

  /** A slot of v2 that line 130 leaves alone was empty in v. */
  lemma UntouchedV2Empty(g: Graph, v: Handle, pos: int, n: Nucl)
    requires Splittable(g, v, pos) && !Touches(SecondPlan(g, v, pos), V2(g), n)
    ensures Slot(g, v, n) == None
  {
    if Slot(g, v, n).Some? {
      SecondCoversV(g, v, pos, n);
    }
  }

  /** A slot of v1's complement that line 128 leaves alone was empty in v's
      complement. */
  lemma UntouchedV1cEmpty(g: Graph, v: Handle, pos: int, n: Nucl)
    requires Splittable(g, v, pos) && Comp(g, v) in g.verts
    requires !Touches(FirstPlan(g, v, pos), V1c(g), n)
    ensures Slot(g, Comp(g, v), n) == None
  {
    if Slot(g, Comp(g, v), n).Some? {
      FirstCoversComp(g, v, pos, n);
    }
  }

  lemma UntouchedV2(g: Graph, v: Handle, pos: int, n: Nucl)
    requires Splittable(g, v, pos) && !Touches(SecondPlan(g, v, pos), V2(g), n)
    ensures V2(g) in Linked(g, v, pos).verts && Slot(Linked(g, v, pos), V2(g), n) == Expected(g, v, pos, V2(g), n)
  {
    UntouchedV2Empty(g, v, pos, n);
    ExpectedRows(g, v, pos, n);
    LinkedSlots(g, v, pos);
  }

  lemma UntouchedV1c(g: Graph, v: Handle, pos: int, n: Nucl)
    requires Splittable(g, v, pos) && !Touches(FirstPlan(g, v, pos), V1c(g), n)
    ensures V1c(g) in Linked(g, v, pos).verts && Slot(Linked(g, v, pos), V1c(g), n) == Expected(g, v, pos, V1c(g), n)
  {
    assert VertexSound(g, v);
    UntouchedV1cEmpty(g, v, pos, n);
    ExpectedRows(g, v, pos, n);
    LinkedSlots(g, v, pos);
  }

  /** The table never names v or its complement. */
  lemma ExpectedAvoids(g: Graph, v: Handle, pos: int, w: Handle, n: Nucl)
    requires Splittable(g, v, pos)
    ensures Comp(g, v) in g.verts
    ensures Expected(g, v, pos, w, n) != Some(v) && Expected(g, v, pos, w, n) != Some(Comp(g, v))
  {
    assert VertexSound(g, v);
    assert Allocated(g);
  }

  /** What holds once both fix-up loops are done: the pieces are recorded,
      and every vertex other than v and its complement holds what the table
      says. */
  ghost predicate Prepared(g: Graph, v: Handle, pos: int, r: Graph)
    requires Splittable(g, v, pos)
  {
    && Sound(r) && Grown(g, r) && PiecesRecorded(g, v, pos, r) && r.next == g.next + 4
    && (forall w, n | w in r.verts && w != v && w != Comp(g, v) ::
          Slot(r, w, n) == Expected(g, v, pos, w, n))
  }

  lemma SecondPrepared(g: Graph, v: Handle, pos: int)
    requires Splittable(g, v, pos)
    ensures Prepared(g, v, pos, SecondFix(g, v, pos))
    ensures SecondFix(g, v, pos).log == g.log + [Added(V1(g)), Added(V2(g))]
  {
    var r := SecondFix(g, v, pos);
    SecondRecords(g, v, pos);
    LinkedRecords(g, v, pos);
    forall w, n | w in r.verts && w != v && w != Comp(g, v)
      ensures Slot(r, w, n) == Expected(g, v, pos, w, n)
    {
      GrownCases(g, r, w);
      FixedSlot(g, v, pos, w, n);
    }
  }

  lemma PreparedLog(g: Graph, v: Handle, pos: int, r: Graph, e: Event)
    requires Splittable(g, v, pos) && Prepared(g, v, pos, r)
    ensures Prepared(g, v, pos, r.(log := r.log + [e]))
  {
    SameVerticesSound(r, r.(log := r.log + [e]));
  }

  /** A vertex none of whose slots holds x has no edge to x. */
  lemma NoSlotHolds(r: Graph, w: Handle, x: Handle)
    requires w in r.verts && forall n :: Slot(r, w, n) != Some(x)
    ensures !HasEdge(r, w, x)
  {
    assert Slot(r, w, A) != Some(x) && Slot(r, w, C) != Some(x);
    assert Slot(r, w, G) != Some(x) && Slot(r, w, T) != Some(x);
  }

  /** With the table in place no vertex other than v and its complement has
      an edge into either of them. */
  lemma PreparedNoEdgeIn(g: Graph, v: Handle, pos: int, r: Graph, w: Handle)
    requires Splittable(g, v, pos) && Prepared(g, v, pos, r) && w in r.verts
    requires w != v && (v in g.verts ==> w != Comp(g, v))
    ensures Comp(g, v) in g.verts
    ensures !HasEdge(r, w, v) && !HasEdge(r, w, Comp(g, v))
  {
    assert VertexSound(g, v);
    var vc := Comp(g, v);
    forall n
      ensures Slot(r, w, n) != Some(v) && Slot(r, w, n) != Some(vc)
    {
      ExpectedAvoids(g, v, pos, w, n);
    }
    NoSlotHolds(r, w, v);
    NoSlotHolds(r, w, vc);
  }

  /** Both CanBeDeleted guards of line 135 hold. */
  lemma PreparedDeletable(g: Graph, v: Handle, pos: int, r: Graph)
    requires Splittable(g, v, pos) && Prepared(g, v, pos, r)
    ensures v in r.verts && Comp(g, v) in g.verts && Comp(r, v) == Comp(g, v)
    ensures Readable(r, v) && Readable(r, Comp(r, v))
    ensures CanBeDeleted(r, v) && CanBeDeleted(r, Comp(r, v))
  {
    assert VertexSound(g, v);
    assert v in r.verts.Keys && Comp(g, v) in r.verts.Keys;
    SoundReadable(r, v);
    SoundReadable(r, Comp(g, v));
    forall a | a in Anc(r, v) && a != v && a != Comp(g, v)
      ensures !HasEdge(r, a, v)
    {
      PreparedNoEdgeIn(g, v, pos, r, a);
    }
    forall a | a in Anc(r, Comp(g, v)) && a != v && a != Comp(g, v)
      ensures !HasEdge(r, a, Comp(g, v))
    {
      PreparedNoEdgeIn(g, v, pos, r, a);
    }
  }

  /** Lines 133-135: HandleSplit(v, pos, v1, v2), then DeleteVertex(v). */
  function Finished(g: Graph, v: Handle, pos: int): Graph
    requires Splittable(g, v, pos)
  {
    var g5 := SecondFix(g, v, pos);
    SecondPrepared(g, v, pos);
    var r := g5.(log := g5.log + [Split(v, pos, V1(g), V2(g))]);
    PreparedLog(g, v, pos, g5, Split(v, pos, V1(g), V2(g)));
    PreparedDeletable(g, v, pos, r);
    DeleteVertex(r, v)
  }

  // ---------------------------------------------------------------------
  // The outcome

  /** What a split leaves: the pieces with their sequences and complements
      in place of v and its complement, every other vertex with its record,
      the slot table, and the four events in order. */
  ghost predicate SplitShape(g: Graph, v: Handle, pos: int, r: Graph)
    requires Splittable(g, v, pos)
  {
    && r.k == g.k && r.next == g.next + 4
    && r.verts.Keys == (g.verts.Keys - {v, Comp(g, v)}) + {V1(g), V1c(g), V2(g), V2c(g)}
    && PiecesRecorded(g, v, pos, r)
    && (forall w, n | w in r.verts :: Slot(r, w, n) == Expected(g, v, pos, w, n))
    && r.log == g.log + [Added(V1(g)), Added(V2(g)), Split(v, pos, V1(g), V2(g)), Deleted(v)]
  }

  /** Appending events one at a time gives the events in order. */
  lemma AppendEvents(l: seq<Event>, a: Event, b: Event, c: Event, d: Event)
    ensures l + [a, b] + [c] + [d] == l + [a, b, c, d]
  {
  }

  /** Removing v and its complement from a prepared graph keeps every other
      record. */
  lemma DeletedRecord(r: Graph, v: Handle, vc: Handle, w: Handle)
    requires w in (r.verts - {v, vc})
    ensures w in r.verts && w != v && w != vc && (r.verts - {v, vc})[w] == r.verts[w]
  {
  }

  lemma DeletedSlots(g: Graph, v: Handle, pos: int, r: Graph)
    requires Splittable(g, v, pos) && Prepared(g, v, pos, r)
    ensures v in r.verts && Readable(r, v) && Readable(r, Comp(r, v))
    ensures CanBeDeleted(r, v) && CanBeDeleted(r, Comp(r, v))
    ensures var d := DeleteVertex(r, v);
            forall w, n | w in d.verts :: Slot(d, w, n) == Expected(g, v, pos, w, n)
  {
    PreparedDeletable(g, v, pos, r);
    var d := DeleteVertex(r, v);
    var e := Table(g, v, pos);
    var gone := {v, Comp(g, v)};
    assert d.verts == r.verts - gone;
    forall h | h in d.verts
      ensures h in r.verts && d.verts[h] == r.verts[h]
    {
      DeletedRecord(r, v, Comp(g, v), h);
    }
    SurvivorsAgree(r, d, gone, e);
  }

  /** Removing two handles other than the pieces keeps the pieces'
      records and every surviving original record. */
  lemma PiecesSurvive(g: Graph, v: Handle, pos: int, r: Graph, vc: Handle, d: Graph)
    requires Cuttable(g, v, pos) && PiecesRecorded(g, v, pos, r)
    requires v < g.next && vc < g.next
    requires d.k == r.k && d.verts == r.verts - {v, vc}
    ensures PiecesRecorded(g, v, pos, d)
  {
    forall h | h in g.verts && h in d.verts
      ensures d.verts[h].nucls == g.verts[h].nucls && d.verts[h].complement == g.verts[h].complement
    {
      DeletedRecord(r, v, vc, h);
    }
    DeletedRecord(r, v, vc, V1(g));
    DeletedRecord(r, v, vc, V1c(g));
    DeletedRecord(r, v, vc, V2(g));
    DeletedRecord(r, v, vc, V2c(g));
  }

  lemma GrownMinus(g: Graph, r: Graph, v: Handle, vc: Handle)
    requires Grown(g, r) && v < g.next && vc < g.next
    ensures (r.verts - {v, vc}).Keys == (g.verts.Keys - {v, vc}) + {V1(g), V1c(g), V2(g), V2c(g)}
  {
  }

  lemma DeletedPieces(g: Graph, v: Handle, pos: int, r: Graph)
    requires Splittable(g, v, pos) && Prepared(g, v, pos, r)
    ensures v in r.verts && Readable(r, v) && Readable(r, Comp(r, v))
    ensures CanBeDeleted(r, v) && CanBeDeleted(r, Comp(r, v))
    ensures var d := DeleteVertex(r, v);
            && d.verts.Keys == (g.verts.Keys - {v, Comp(g, v)}) + {V1(g), V1c(g), V2(g), V2c(g)}
            && PiecesRecorded(g, v, pos, d)
  {
    assert VertexSound(g, v);
    assert Allocated(g);
    var vc := Comp(g, v);
    assert v < g.next && vc < g.next;
    PreparedDeletable(g, v, pos, r);
    var d := DeleteVertex(r, v);
    assert d.verts == r.verts - {v, vc} && d.k == r.k;
    GrownMinus(g, r, v, vc);
    PiecesSurvive(g, v, pos, r, vc, d);
  }

  lemma DeletedShape(g: Graph, v: Handle, pos: int, r: Graph)
    requires Splittable(g, v, pos) && Prepared(g, v, pos, r)
    requires r.log == g.log + [Added(V1(g)), Added(V2(g))] + [Split(v, pos, V1(g), V2(g))]
    ensures v in r.verts && Readable(r, v) && Readable(r, Comp(r, v))
    ensures CanBeDeleted(r, v) && CanBeDeleted(r, Comp(r, v))
    ensures SplitShape(g, v, pos, DeleteVertex(r, v))
  {
    DeletedSlots(g, v, pos, r);
    DeletedPieces(g, v, pos, r);
    AppendEvents(g.log, Added(V1(g)), Added(V2(g)), Split(v, pos, V1(g), V2(g)), Deleted(v));
  }

  lemma FinishedShape(g: Graph, v: Handle, pos: int)
    requires Splittable(g, v, pos)
    ensures SplitShape(g, v, pos, Finished(g, v, pos))
  {
    var g5 := SecondFix(g, v, pos);
    SecondPrepared(g, v, pos);
    PreparedLog(g, v, pos, g5, Split(v, pos, V1(g), V2(g)));
    DeletedShape(g, v, pos, g5.(log := g5.log + [Split(v, pos, V1(g), V2(g))]));
  }
}
