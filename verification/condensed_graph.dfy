/** The double-stranded condensed de Bruijn graph.

    The graph is an arena: live vertices are records addressed by integer
    handles. Every vertex carries its nucleotide sequence, the handle of its
    reverse-complement twin and four outgoing slots keyed by the nucleotide
    that follows the (k-1)-overlap in the target. Ancestors are never stored:
    they are read off the complement's slots. Mutations are functions from
    graph to graph; the action-handler notifications become entries appended
    to the graph's event log. */
module CondensedGraph {
  import opened Wrappers
  import opened Nucleotide

  type Handle = int

  /** Outgoing slots: a key present in the map is a populated slot, an absent
      key is an empty (NULL) slot. */
  type Slots = map<Nucl, Handle>

  datatype Vertex = Vertex(nucls: seq<Nucl>, complement: Handle, desc: Slots)

  /** One action-handler notification. */
  datatype Event =
    | Added(v: Handle)
    | Deleted(v: Handle)
    | Split(original: Handle, pos: nat, first: Handle, second: Handle)
    | Merged(first: Handle, second: Handle, merged: Handle)

  /** `next` is the first handle never handed out, so allocation is fresh. */
  datatype Graph = Graph(k: nat, verts: map<Handle, Vertex>, next: Handle, log: seq<Event>)

  const NoSlots: Slots := map[]

  // ---------------------------------------------------------------------
  // Accessors

  function Nucls(g: Graph, h: Handle): seq<Nucl>
    requires h in g.verts
  {
    g.verts[h].nucls
  }

  function Comp(g: Graph, h: Handle): Handle
    requires h in g.verts
  {
    g.verts[h].complement
  }

  function DescOf(g: Graph, h: Handle): Slots
    requires h in g.verts
  {
    g.verts[h].desc
  }

  /** The content of slot `n` of vertex `h`. */
  function Slot(g: Graph, h: Handle, n: Nucl): Option<Handle>
    requires h in g.verts
  {
    if n in g.verts[h].desc then Some(g.verts[h].desc[n]) else None
  }

  predicate SlotHolds(m: Slots, n: Nucl, x: Handle)
  {
    n in m && m[n] == x
  }

  /** Some slot of `m` holds `x` (the source's `desc()[j] == v` for j < 4). */
  predicate Points(m: Slots, x: Handle)
  {
    SlotHolds(m, A, x) || SlotHolds(m, C, x) || SlotHolds(m, G, x) || SlotHolds(m, T, x)
  }

  /** The slot of `m` that holds `x`, the first one in slot order. */
  function SlotOf(m: Slots, x: Handle): (n: Nucl)
    requires Points(m, x)
    ensures SlotHolds(m, n, x)
  {
    if SlotHolds(m, A, x) then A
    else if SlotHolds(m, C, x) then C
    else if SlotHolds(m, G, x) then G
    else T
  }

  predicate HasEdge(g: Graph, a: Handle, d: Handle)
    requires a in g.verts
  {
    Points(g.verts[a].desc, d)
  }

  /** The slot under which `h` is stored as a descendant: its k-th symbol. */
  function Key(g: Graph, h: Handle): Nucl
    requires h in g.verts && 1 <= g.k <= |Nucls(g, h)|
  {
    Nucls(g, h)[g.k - 1]
  }

  /** `d`'s first k-1 symbols are `a`'s last k-1 symbols. */
  predicate Overlap(a: seq<Nucl>, d: seq<Nucl>, k: nat)
    requires k >= 1
  {
    |a| >= k - 1 && |d| >= k - 1 && a[|a| - (k - 1)..] == d[..k - 1]
  }

  // ---------------------------------------------------------------------
  // Invariants

  /** Pairing soundness of one vertex: its complement is live, different
      from it and points back, and its sequence is at least k long. */
  ghost predicate VertexSound(g: Graph, h: Handle)
    requires h in g.verts
  {
    var x := g.verts[h];
    && x.complement in g.verts
    && x.complement != h
    && g.verts[x.complement].complement == h
    && |x.nucls| >= g.k
  }

  /** Every live handle was handed out before `next`. */
  ghost predicate Allocated(g: Graph)
  {
    forall h | h in g.verts :: h < g.next
  }

  /** No slot points at a dead handle. */
  ghost predicate SlotsLive(g: Graph)
  {
    forall h, n | h in g.verts && n in g.verts[h].desc :: g.verts[h].desc[n] in g.verts
  }

  /** Structural soundness: handles below `next`, complements live and
      paired, sequences at least k long, no slot pointing at a dead handle.
      The per-vertex facts are instantiated only where a proof names them. */
  ghost predicate Sound(g: Graph)
  {
    && g.k >= 1
    && Allocated(g)
    && (forall h | h in g.verts :: VertexSound(g, h))
    && SlotsLive(g)
  }

  /** The laws every edge `h -> d` stored in slot `n` obeys: the slot is
      keyed by d's k-th symbol, the two sequences overlap by k-1 symbols,
      and the mirror edge `d.complement -> h.complement` is stored too. */
  ghost predicate EdgeLaw(g: Graph, h: Handle, n: Nucl)
    requires h in g.verts && n in g.verts[h].desc
  {
    var d := g.verts[h].desc[n];
    && g.k >= 1
    && d in g.verts && Comp(g, h) in g.verts && Comp(g, d) in g.verts
    && |Nucls(g, d)| >= g.k && |Nucls(g, Comp(g, h))| >= g.k
    && Nucls(g, d)[g.k - 1] == n
    && Overlap(Nucls(g, h), Nucls(g, d), g.k)
    && SlotHolds(DescOf(g, Comp(g, d)), Nucls(g, Comp(g, h))[g.k - 1], Comp(g, h))
  }

  /** The reverse-complement law of one pair. */
  ghost predicate PairLaw(g: Graph, h: Handle)
    requires h in g.verts
  {
    Comp(g, h) in g.verts && Nucls(g, Comp(g, h)) == RevComp(Nucls(g, h))
  }

  ghost predicate Valid(g: Graph)
  {
    && Sound(g)
    && (forall h {:trigger PairLaw(g, h)} | h in g.verts :: PairLaw(g, h))
    && (forall h, n {:trigger EdgeLaw(g, h, n)} | h in g.verts && n in g.verts[h].desc :: EdgeLaw(g, h, n))
  }

  /** A slot holding `x` is one of the four the edge predicates look at. */
  lemma HoldsPoints(m: Slots, n: Nucl, x: Handle)
    requires SlotHolds(m, n, x)
    ensures Points(m, x)
  {
    match n
    case A =>
    case C =>
    case G =>
    case T =>
  }

  /** The mirror law on edges: every edge a -> d has its mirror
      d.complement -> a.complement. */
  ghost predicate MirrorLaw(g: Graph)
    requires Sound(g)
  {
    forall a, d | a in g.verts && d in g.verts && HasEdge(g, a, d) ::
      HasEdge(g, Comp(g, d), Comp(g, a))
  }

  lemma ValidMirrorLaw(g: Graph)
    requires Valid(g)
    ensures MirrorLaw(g)
  {
    forall a, d | a in g.verts && d in g.verts && HasEdge(g, a, d)
      ensures HasEdge(g, Comp(g, d), Comp(g, a))
    {
      MirrorEdge(g, a, d);
    }
  }

  lemma MirrorEdge(g: Graph, a: Handle, d: Handle)
    requires Valid(g) && a in g.verts && HasEdge(g, a, d)
    ensures d in g.verts && HasEdge(g, Comp(g, d), Comp(g, a))
  {
    var n := SlotOf(g.verts[a].desc, d);
    assert EdgeLaw(g, a, n);
    HoldsPoints(DescOf(g, Comp(g, d)), Nucls(g, Comp(g, a))[g.k - 1], Comp(g, a));
  }

  /** In a valid graph the slot holding `x` is x's key. */
  lemma SlotKey(g: Graph, w: Handle, n: Nucl)
    requires Valid(g) && w in g.verts && n in g.verts[w].desc
    ensures var x := g.verts[w].desc[n];
            && x in g.verts && 1 <= g.k <= |Nucls(g, x)| && n == Key(g, x) && HasEdge(g, w, x)
  {
    assert EdgeLaw(g, w, n);
    HoldsPoints(g.verts[w].desc, n, g.verts[w].desc[n]);
  }

  /** An edge w -> x of a valid graph is stored under x's key. */
  lemma EdgeSlot(g: Graph, w: Handle, x: Handle)
    requires Valid(g) && w in g.verts && HasEdge(g, w, x)
    ensures x in g.verts && 1 <= g.k <= |Nucls(g, x)| && Slot(g, w, Key(g, x)) == Some(x)
  {
    var n := SlotOf(g.verts[w].desc, x);
    SlotKey(g, w, n);
  }

  /** An ancestor `a` of `x` holds `x` under x's key, and x's complement
      holds a's complement under that one's key. */
  lemma AncEdges(g: Graph, x: Handle, a: Handle)
    requires Valid(g) && x in g.verts && a in Anc(g, x)
    ensures a in g.verts && Comp(g, a) in g.verts && Comp(g, x) in g.verts
    ensures 1 <= g.k <= |Nucls(g, x)| && |Nucls(g, Comp(g, a))| >= g.k
    ensures Slot(g, a, Key(g, x)) == Some(x)
    ensures Slot(g, Comp(g, x), Key(g, Comp(g, a))) == Some(Comp(g, a))
  {
    assert VertexSound(g, x);
    AncMembership(g, x, a);
    assert VertexSound(g, a);
    EdgeSlot(g, Comp(g, x), Comp(g, a));
    MirrorEdge(g, Comp(g, x), Comp(g, a));
    EdgeSlot(g, a, x);
  }

  /** Slot-wise equality of a vertex's slots is equality of its slot map. */
  lemma SlotsEqual(g: Graph, r: Graph, h: Handle)
    requires h in g.verts && h in r.verts
    requires forall n :: Slot(r, h, n) == Slot(g, h, n)
    ensures DescOf(r, h) == DescOf(g, h)
  {
    var m, m' := DescOf(g, h), DescOf(r, h);
    assert forall n :: n in m' <==> n in m by {
      forall n ensures n in m' <==> n in m {
        assert Slot(r, h, n) == Slot(g, h, n);
      }
    }
    forall n | n in m ensures m'[n] == m[n] {
      assert Slot(r, h, n) == Slot(g, h, n);
    }
  }

  /** Every vertex of `g` is live in `r` with the same complement. */
  ghost predicate KeepsComplements(g: Graph, r: Graph)
  {
    forall h | h in g.verts :: h in r.verts && r.verts[h].complement == g.verts[h].complement
  }

  /** Anc(v) reads only v's complement's slots and complements. */
  lemma AncSame(g: Graph, r: Graph, v: Handle)
    requires Readable(g, v) && KeepsComplements(g, r)
    requires DescOf(r, Comp(g, v)) == DescOf(g, Comp(g, v))
    ensures Readable(r, v) && Anc(r, v) == Anc(g, v)
  {
  }

  // ---------------------------------------------------------------------
  // Queries

  function SlotTarget(m: Slots, n: Nucl): seq<Handle>
  {
    if n in m then [m[n]] else []
  }

  /** Desc: the populated slots of `v`, scanned in slot order A, C, G, T. */
  function Desc(g: Graph, v: Handle): (r: seq<Handle>)
    requires v in g.verts
    ensures |r| <= 4
    ensures forall x :: x in r <==> HasEdge(g, v, x)
  {
    var m := g.verts[v].desc;
    SlotTarget(m, A) + SlotTarget(m, C) + SlotTarget(m, G) + SlotTarget(m, T)
  }

  /** What Anc needs to read: v, its complement, the complement's targets and
      their complements are all live. */
  ghost predicate Readable(g: Graph, v: Handle)
  {
    && v in g.verts
    && Comp(g, v) in g.verts
    && (forall n | n in DescOf(g, Comp(g, v)) ::
          DescOf(g, Comp(g, v))[n] in g.verts && Comp(g, DescOf(g, Comp(g, v))[n]) in g.verts)
  }

  function AncTarget(g: Graph, m: Slots, n: Nucl): seq<Handle>
    requires n in m ==> m[n] in g.verts
  {
    if n in m then [Comp(g, m[n])] else []
  }

  /** `a` is the complement of some target of `m`. */
  predicate ComplementTargets(g: Graph, m: Slots, a: Handle)
  {
    || (A in m && m[A] in g.verts && Comp(g, m[A]) == a)
    || (C in m && m[C] in g.verts && Comp(g, m[C]) == a)
    || (G in m && m[G] in g.verts && Comp(g, m[G]) == a)
    || (T in m && m[T] in g.verts && Comp(g, m[T]) == a)
  }

  /** Anc: the complements of the complement's populated slots, scanned from
      slot T down to slot A. */
  function Anc(g: Graph, v: Handle): (r: seq<Handle>)
    requires Readable(g, v)
    ensures |r| <= 4
    ensures forall a :: a in r <==> ComplementTargets(g, DescOf(g, Comp(g, v)), a)
    ensures forall a :: a in r ==> a in g.verts
  {
    var m := DescOf(g, Comp(g, v));
    AncTarget(g, m, T) + (AncTarget(g, m, G) + (AncTarget(g, m, C) + AncTarget(g, m, A)))
  }

  /** `anc` is `dsc` read backwards with every entry complemented. */
  ghost predicate ReversedComplements(g: Graph, anc: seq<Handle>, dsc: seq<Handle>)
  {
    && |anc| == |dsc|
    && (forall x | x in dsc :: x in g.verts)
    && forall i | 0 <= i < |anc| :: anc[i] == Comp(g, dsc[|anc| - 1 - i])
  }

  lemma ReversedComplementsConcat(g: Graph, a1: seq<Handle>, d1: seq<Handle>, a2: seq<Handle>, d2: seq<Handle>)
    requires ReversedComplements(g, a1, d1) && ReversedComplements(g, a2, d2)
    ensures ReversedComplements(g, a2 + a1, d1 + d2)
  {
    var a := a2 + a1;
    var d := d1 + d2;
    forall i | 0 <= i < |a|
      ensures a[i] == Comp(g, d[|a| - 1 - i])
    {
      if i < |a2| {
        assert a[i] == a2[i];
        assert d[|a| - 1 - i] == d2[|a2| - 1 - i];
      } else {
        var j := i - |a2|;
        assert a[i] == a1[j];
        assert d[|a| - 1 - i] == d1[|a1| - 1 - j];
      }
    }
  }

  lemma SlotReversed(g: Graph, m: Slots, n: Nucl)
    requires n in m ==> m[n] in g.verts
    ensures ReversedComplements(g, AncTarget(g, m, n), SlotTarget(m, n))
  {
  }

  function FilledAt(m: Slots, n: Nucl): seq<Nucl>
  {
    if n in m then [n] else []
  }

  /** The populated slot names of `m`, in slot order. */
  function Filled(m: Slots): seq<Nucl>
  {
    FilledAt(m, A) + FilledAt(m, C) + FilledAt(m, G) + FilledAt(m, T)
  }

  lemma FilledIncreasing(m: Slots)
    ensures forall n | n in Filled(m) :: n in m
    ensures forall i, j | 0 <= i < j < |Filled(m)| :: Code(Filled(m)[i]) < Code(Filled(m)[j])
  {
  }

  /** `hs` lists the targets of the slots named by `ns`, in the same order. */
  ghost predicate TargetsOf(m: Slots, hs: seq<Handle>, ns: seq<Nucl>)
  {
    |hs| == |ns| && forall i | 0 <= i < |ns| :: ns[i] in m && hs[i] == m[ns[i]]
  }

  lemma TargetsOfConcat(m: Slots, h1: seq<Handle>, n1: seq<Nucl>, h2: seq<Handle>, n2: seq<Nucl>)
    requires TargetsOf(m, h1, n1) && TargetsOf(m, h2, n2)
    ensures TargetsOf(m, h1 + h2, n1 + n2)
  {
    forall i | 0 <= i < |n1 + n2|
      ensures (n1 + n2)[i] in m && (h1 + h2)[i] == m[(n1 + n2)[i]]
    {
      if i >= |n1| {
        assert (n1 + n2)[i] == n2[i - |n1|] && (h1 + h2)[i] == h2[i - |n1|];
      }
    }
  }

  lemma DescFilled(g: Graph, v: Handle)
    requires v in g.verts
    ensures TargetsOf(DescOf(g, v), Desc(g, v), Filled(DescOf(g, v)))
  {
    var m := DescOf(g, v);
    assert TargetsOf(m, SlotTarget(m, A), FilledAt(m, A));
    assert TargetsOf(m, SlotTarget(m, C), FilledAt(m, C));
    assert TargetsOf(m, SlotTarget(m, G), FilledAt(m, G));
    assert TargetsOf(m, SlotTarget(m, T), FilledAt(m, T));
    TargetsOfConcat(m, SlotTarget(m, A), FilledAt(m, A), SlotTarget(m, C), FilledAt(m, C));
    TargetsOfConcat(m, SlotTarget(m, A) + SlotTarget(m, C), FilledAt(m, A) + FilledAt(m, C),
                    SlotTarget(m, G), FilledAt(m, G));
    TargetsOfConcat(m, SlotTarget(m, A) + SlotTarget(m, C) + SlotTarget(m, G),
                    FilledAt(m, A) + FilledAt(m, C) + FilledAt(m, G), SlotTarget(m, T), FilledAt(m, T));
  }

  /** Desc lists the descendants in slot order: in a valid graph each one
      sits under its k-th symbol, and those symbols strictly increase along
      the list (so it has no repeats either). */
  lemma DescSlotOrder(g: Graph, v: Handle)
    requires Valid(g) && v in g.verts
    ensures forall x | x in Desc(g, v) :: x in g.verts && |Nucls(g, x)| >= g.k
    ensures forall i, j | 0 <= i < j < |Desc(g, v)| ::
              Code(Key(g, Desc(g, v)[i])) < Code(Key(g, Desc(g, v)[j]))
  {
    var m := DescOf(g, v);
    var r := Desc(g, v);
    var f := Filled(m);
    FilledIncreasing(m);
    DescFilled(g, v);
    forall n | n in m
      ensures m[n] in g.verts && |Nucls(g, m[n])| >= g.k && Key(g, m[n]) == n
    {
      assert EdgeLaw(g, v, n);
    }
    forall i | 0 <= i < |r|
      ensures r[i] in g.verts && |Nucls(g, r[i])| >= g.k && Key(g, r[i]) == f[i]
    {
      assert r[i] == m[f[i]];
    }
  }

  /** Ancestor/descendant duality, with the order: Anc(v) is Desc(v.complement)
      read backwards, each entry complemented. */
  lemma AncReversesDesc(g: Graph, v: Handle)
    requires Readable(g, v)
    ensures ReversedComplements(g, Anc(g, v), Desc(g, Comp(g, v)))
  {
    var m := DescOf(g, Comp(g, v));
    SlotReversed(g, m, A);
    SlotReversed(g, m, C);
    SlotReversed(g, m, G);
    SlotReversed(g, m, T);
    var aA, aC, aG, aT := AncTarget(g, m, A), AncTarget(g, m, C), AncTarget(g, m, G), AncTarget(g, m, T);
    var dA, dC, dG, dT := SlotTarget(m, A), SlotTarget(m, C), SlotTarget(m, G), SlotTarget(m, T);
    ReversedComplementsConcat(g, aA, dA, aC, dC);
    ReversedComplementsConcat(g, aC + aA, dA + dC, aG, dG);
    ReversedComplementsConcat(g, aG + (aC + aA), dA + dC + dG, aT, dT);
  }

  /** Anc membership, read through the complement involution. */
  lemma AncMembership(g: Graph, v: Handle, a: Handle)
    requires Sound(g) && v in g.verts
    ensures a in Anc(g, v) <==> a in g.verts && HasEdge(g, Comp(g, v), Comp(g, a))
  {
    assert VertexSound(g, v);
    var m := DescOf(g, Comp(g, v));
    if a in g.verts && HasEdge(g, Comp(g, v), Comp(g, a)) {
      assert VertexSound(g, a);
      assert ComplementTargets(g, m, a);
    }
    if a in Anc(g, v) {
      assert ComplementTargets(g, m, a);
      assert forall n | n in m :: VertexSound(g, m[n]);
    }
  }

  /** CanBeDeleted's scan over the ancestor list: false as soon as an ancestor
      other than v and its complement holds v in one of its slots. */
  function NoForeignSlotTo(g: Graph, anc: seq<Handle>, v: Handle, vc: Handle): (r: bool)
    requires forall a | a in anc :: a in g.verts
    ensures r <==> forall a | a in anc && a != v && a != vc :: !HasEdge(g, a, v)
  {
    if |anc| == 0 then true
    else if anc[0] != v && anc[0] != vc && HasEdge(g, anc[0], v) then false
    else NoForeignSlotTo(g, anc[1..], v, vc)
  }

  function CanBeDeleted(g: Graph, v: Handle): (r: bool)
    requires Readable(g, v)
    ensures r <==> forall a | a in Anc(g, v) && a != v && a != Comp(g, v) :: !HasEdge(g, a, v)
  {
    NoForeignSlotTo(g, Anc(g, v), v, Comp(g, v))
  }

  /** In a valid graph the ancestor scan sees every vertex that points at v,
      so CanBeDeleted(v) holds exactly when no vertex but v and its
      complement has an edge into v. */
  lemma CanBeDeletedMeaning(g: Graph, v: Handle)
    requires Valid(g) && v in g.verts
    ensures Readable(g, v)
    ensures CanBeDeleted(g, v) <==>
              forall w | w in g.verts && w != v && w != Comp(g, v) :: !HasEdge(g, w, v)
  {
    SoundReadable(g, v);
    forall w | w in g.verts && w != v && w != Comp(g, v) && HasEdge(g, w, v)
      ensures w in Anc(g, v)
    {
      assert VertexSound(g, v);
      MirrorEdge(g, w, v);
      AncMembership(g, v, w);
    }
  }

  /** In a sound graph every vertex is readable. */
  lemma SoundReadable(g: Graph, v: Handle)
    requires Sound(g) && v in g.verts
    ensures Readable(g, v)
  {
    assert VertexSound(g, v);
    var m := DescOf(g, Comp(g, v));
    forall n | n in m
      ensures m[n] in g.verts && Comp(g, m[n]) in g.verts
    {
      assert VertexSound(g, m[n]);
    }
  }

  // ---------------------------------------------------------------------
  // Mutations

  /** `x` is live in both graphs with the same sequence and complement. */
  ghost predicate SameRecord(g: Graph, r: Graph, x: Handle)
  {
    x in g.verts && x in r.verts
    && r.verts[x].nucls == g.verts[x].nucls && r.verts[x].complement == g.verts[x].complement
  }

  /** The pairing facts of `h` carry over to a graph that keeps the records
      of h and of its complement. */
  lemma VertexSoundTransfer(g: Graph, r: Graph, h: Handle)
    requires h in g.verts && VertexSound(g, h) && r.k == g.k
    requires SameRecord(g, r, h) && SameRecord(g, r, Comp(g, h))
    ensures VertexSound(r, h)
  {
  }

  lemma PairLawTransfer(g: Graph, r: Graph, h: Handle)
    requires h in g.verts && PairLaw(g, h)
    requires SameRecord(g, r, h) && SameRecord(g, r, Comp(g, h))
    ensures PairLaw(r, h)
  {
  }

  /** An edge law survives a change that keeps the edge, the records of its
      four endpoints and the mirror slot. */
  lemma EdgeLawTransfer(g: Graph, r: Graph, h: Handle, n: Nucl)
    requires h in g.verts && n in g.verts[h].desc && EdgeLaw(g, h, n) && r.k == g.k
    requires h in r.verts && Slot(r, h, n) == Slot(g, h, n)
    requires var d := g.verts[h].desc[n];
             && SameRecord(g, r, h) && SameRecord(g, r, d)
             && SameRecord(g, r, Comp(g, h)) && SameRecord(g, r, Comp(g, d))
             && Slot(r, Comp(g, d), Nucls(g, Comp(g, h))[g.k - 1]) == Some(Comp(g, h))
    ensures EdgeLaw(r, h, n)
  {
  }

  /** Two graphs with the same k, live handles, sequences and complements:
      they differ at most in their slots, their counter and their log. */
  ghost predicate SameVertices(g: Graph, r: Graph)
  {
    && r.k == g.k
    && r.verts.Keys == g.verts.Keys
    && (forall h | h in g.verts ::
          r.verts[h].nucls == g.verts[h].nucls && r.verts[h].complement == g.verts[h].complement)
  }

  lemma SameVerticesTrans(g: Graph, g1: Graph, g2: Graph)
    requires SameVertices(g, g1) && SameVertices(g1, g2)
    ensures SameVertices(g, g2)
  {
  }

  /** A graph that differs from a sound one only in its slots is sound when
      those slots point at live vertices. */
  lemma SameVerticesSound(g: Graph, r: Graph)
    requires Sound(g) && SameVertices(g, r) && r.next == g.next && SlotsLive(r)
    ensures Sound(r)
  {
    forall h | h in r.verts
      ensures VertexSound(r, h)
    {
      assert VertexSound(g, h);
    }
  }

  /** A graph that differs from a valid one only in its slots keeps the
      reverse-complement law. */
  lemma SameVerticesPairLaw(g: Graph, r: Graph)
    requires Valid(g) && SameVertices(g, r)
    ensures forall h {:trigger PairLaw(r, h)} | h in r.verts :: PairLaw(r, h)
  {
    forall h | h in r.verts
      ensures PairLaw(r, h)
    {
      assert PairLaw(g, h);
    }
  }

  /** AddVertex: a fresh pair holding `s` and its reverse complement, each the
      other's complement, with empty slots; HandleAdd fires on the first. */
  function AddVertex(g: Graph, s: seq<Nucl>): (r: (Graph, Handle))
    requires Allocated(g)
    ensures r.1 == g.next && r.1 !in g.verts && r.1 + 1 !in g.verts
    ensures r.0.verts.Keys == g.verts.Keys + {r.1, r.1 + 1}
    ensures forall h | h in g.verts :: r.0.verts[h] == g.verts[h]
    ensures r.0.verts[r.1] == Vertex(s, r.1 + 1, NoSlots)
    ensures r.0.verts[r.1 + 1] == Vertex(RevComp(s), r.1, NoSlots)
    ensures r.0.log == g.log + [Added(r.1)]
    ensures r.0.k == g.k && r.0.next == g.next + 2
  {
    var v1 := g.next;
    var v2 := g.next + 1;
    (g.(verts := g.verts[v1 := Vertex(s, v2, NoSlots)][v2 := Vertex(RevComp(s), v1, NoSlots)],
        next := g.next + 2,
        log := g.log + [Added(v1)]), v1)
  }

  /** A fresh pair of sequence length at least k keeps the graph valid. */
  lemma AddVertexValid(g: Graph, s: seq<Nucl>)
    requires Valid(g) && |s| >= g.k
    ensures Valid(AddVertex(g, s).0)
  {
    AddVertexSound(g, s);
    AddVertexPairLaw(g, s);
    AddVertexEdgeLaw(g, s);
  }

  lemma AddVertexSound(g: Graph, s: seq<Nucl>)
    requires Sound(g) && |s| >= g.k
    ensures Sound(AddVertex(g, s).0)
  {
    var r := AddVertex(g, s).0;
    forall h | h in r.verts
      ensures VertexSound(r, h)
    {
      if h in g.verts {
        assert VertexSound(g, h);
        VertexSoundTransfer(g, r, h);
      }
    }
  }

  lemma AddVertexPairLaw(g: Graph, s: seq<Nucl>)
    requires Valid(g)
    ensures forall h {:trigger PairLaw(AddVertex(g, s).0, h)} | h in AddVertex(g, s).0.verts ::
              PairLaw(AddVertex(g, s).0, h)
  {
    var r := AddVertex(g, s).0;
    RevCompInvolution(s);
    forall h | h in r.verts
      ensures PairLaw(r, h)
    {
      if h in g.verts {
        assert VertexSound(g, h) && PairLaw(g, h);
        PairLawTransfer(g, r, h);
      }
    }
  }

  lemma AddVertexEdgeLaw(g: Graph, s: seq<Nucl>)
    requires Valid(g)
    ensures forall h, n {:trigger EdgeLaw(AddVertex(g, s).0, h, n)}
              | h in AddVertex(g, s).0.verts && n in AddVertex(g, s).0.verts[h].desc ::
              EdgeLaw(AddVertex(g, s).0, h, n)
  {
    var r := AddVertex(g, s).0;
    forall h, n | h in r.verts && n in r.verts[h].desc
      ensures EdgeLaw(r, h, n)
    {
      assert EdgeLaw(g, h, n);
      EdgeLawTransfer(g, r, h, n);
    }
  }

  /** AddDesc (the vertex-level slot write): slot d[k-1] of `anc` now holds `desc`. */
  function AddDesc(g: Graph, anc: Handle, desc: Handle): (r: Graph)
    requires Sound(g) && anc in g.verts && desc in g.verts
    ensures Sound(r) && SameVertices(g, r) && r.next == g.next && r.log == g.log
    ensures Slot(r, anc, Nucls(g, desc)[g.k - 1]) == Some(desc)
    ensures forall w, n | w in g.verts && (w != anc || n != Nucls(g, desc)[g.k - 1]) ::
              Slot(r, w, n) == Slot(g, w, n)
  {
    assert VertexSound(g, desc);
    var n := Nucls(g, desc)[g.k - 1];
    var x := g.verts[anc];
    var r := g.(verts := g.verts[anc := x.(desc := x.desc[n := desc])]);
    SameVerticesSound(g, r);
    r
  }

  /** The adjacency precondition of LinkVertices: desc's first k-1 symbols
      are anc's last k-1 symbols. */
  predicate AreLinkable(g: Graph, anc: Handle, desc: Handle)
  {
    && anc in g.verts
    && desc in g.verts
    && g.k >= 1
    && Overlap(Nucls(g, anc), Nucls(g, desc), g.k)
  }

  /** LinkVertices: writes the edge anc -> desc and, in the same call, its
      mirror desc.complement -> anc.complement. Nothing else changes. */
  function LinkVertices(g: Graph, anc: Handle, desc: Handle): (r: Graph)
    requires Sound(g) && AreLinkable(g, anc, desc)
    ensures Sound(r) && SameVertices(g, r) && r.next == g.next && r.log == g.log
    ensures Slot(r, anc, Nucls(g, desc)[g.k - 1]) == Some(desc)
    ensures Slot(r, Comp(g, desc), Nucls(g, Comp(g, anc))[g.k - 1]) == Some(Comp(g, anc))
    ensures forall w, n | w in g.verts
                          && (w != anc || n != Nucls(g, desc)[g.k - 1])
                          && (w != Comp(g, desc) || n != Nucls(g, Comp(g, anc))[g.k - 1]) ::
              Slot(r, w, n) == Slot(g, w, n)
  {
    assert VertexSound(g, anc) && VertexSound(g, desc);
    var g1 := AddDesc(g, anc, desc);
    AddDesc(g1, Comp(g, desc), Comp(g, anc))
  }

  /** Reverse complementation carries a (k-1)-overlap a -> d over to the
      mirror pair !d -> !a. */
  lemma OverlapMirror(a: seq<Nucl>, d: seq<Nucl>, k: nat)
    requires k >= 1 && Overlap(a, d, k)
    ensures Overlap(RevComp(d), RevComp(a), k)
  {
    RevCompSlice(d, 0, k - 1);
    RevCompSlice(a, |a| - (k - 1), |a|);
    assert d[0..k - 1] == d[..k - 1];
    assert a[|a| - (k - 1)..|a|] == a[|a| - (k - 1)..];
    assert RevComp(d)[|d| - (k - 1)..|d|] == RevComp(d)[|d| - (k - 1)..];
    assert RevComp(a)[0..k - 1] == RevComp(a)[..k - 1];
  }

  // Overlaps survive replacing a target by one with the same first k-1
  // symbols, or a source by one with the same last k-1 symbols.

  lemma OverlapTo(a: seq<Nucl>, d: seq<Nucl>, d': seq<Nucl>, k: nat)
    requires k >= 1 && Overlap(a, d, k) && |d'| >= k - 1 && d'[..k - 1] == d[..k - 1]
    ensures Overlap(a, d', k)
  {
  }

  lemma OverlapFrom(a: seq<Nucl>, a': seq<Nucl>, d: seq<Nucl>, k: nat)
    requires k >= 1 && Overlap(a, d, k) && |a'| >= k - 1 && a'[|a'| - (k - 1)..] == a[|a| - (k - 1)..]
    ensures Overlap(a', d, k)
  {
  }

  /** An edge law carried over to another graph: when slot n of s holds t
      in r, and s, t and s's complement share with x, y = x's slot n and
      x's complement the symbols the laws look at, the copied edge is as
      lawful as x -> y. */
  lemma EdgeLawCarried(g: Graph, x: Handle, n: Nucl, r: Graph, s: Handle, t: Handle, cs: Handle, ct: Handle)
    requires x in g.verts && n in g.verts[x].desc && EdgeLaw(g, x, n)
    requires r.k == g.k && s in r.verts && Slot(r, s, n) == Some(t) && t in r.verts
    requires cs in r.verts && ct in r.verts && Comp(r, s) == cs && Comp(r, t) == ct
    requires var a, sx := Nucls(r, s), Nucls(g, x);
             |a| >= g.k && a[|a| - (g.k - 1)..] == sx[|sx| - (g.k - 1)..]
    requires var d, sy := Nucls(r, t), Nucls(g, g.verts[x].desc[n]);
             |d| >= g.k && d[..g.k - 1] == sy[..g.k - 1] && d[g.k - 1] == sy[g.k - 1]
    requires |Nucls(r, cs)| >= g.k && Nucls(r, cs)[g.k - 1] == Nucls(g, Comp(g, x))[g.k - 1]
    requires Slot(r, ct, Nucls(g, Comp(g, x))[g.k - 1]) == Some(cs)
    ensures n in r.verts[s].desc && EdgeLaw(r, s, n)
  {
    var y := g.verts[x].desc[n];
    OverlapFrom(Nucls(g, x), Nucls(r, s), Nucls(g, y), g.k);
    OverlapTo(Nucls(r, s), Nucls(g, y), Nucls(r, t), g.k);
  }

  /** Removing vertices leaves every survivor's slots as they were, so a
      slot table the survivors agreed with still holds. */
  lemma SurvivorsAgree(r: Graph, d: Graph, gone: set<Handle>, e: (Handle, Nucl) -> Option<Handle>)
    requires d.verts.Keys == r.verts.Keys - gone
    requires forall h | h in d.verts :: h in r.verts && d.verts[h] == r.verts[h]
    requires forall w, n | w in r.verts && w !in gone :: Slot(r, w, n) == e(w, n)
    ensures forall w, n | w in d.verts :: Slot(d, w, n) == e(w, n)
  {
    forall w, n | w in d.verts
      ensures Slot(d, w, n) == e(w, n)
    {
      assert w in d.verts.Keys;
    }
  }

  /** a ends as s does and d starts as t does, all four at least k long:
      what a copied edge keeps of the sequences the laws look at. */
  ghost predicate EndsKept(s: seq<Nucl>, t: seq<Nucl>, a: seq<Nucl>, d: seq<Nucl>, k: nat)
  {
    && k >= 1 && |s| >= k && |t| >= k && |a| >= k && |d| >= k
    && a[|a| - (k - 1)..] == s[|s| - (k - 1)..]
    && d[..k - 1] == t[..k - 1] && d[k - 1] == t[k - 1]
  }

  /** An overlap survives replacing the source by a sequence with the same
      last k-1 symbols and the target by one with the same first k
      symbols, and the target keeps its key symbol. */
  lemma OverlapMoved(s: seq<Nucl>, t: seq<Nucl>, a: seq<Nucl>, d: seq<Nucl>, k: nat)
    requires EndsKept(s, t, a, d, k) && Overlap(s, t, k)
    ensures |d| >= k && d[k - 1] == t[k - 1] && Overlap(a, d, k)
  {
    OverlapFrom(s, a, t, k);
    OverlapTo(a, t, d, k);
  }

  /** The slot may be written with `x` without losing another edge. */
  predicate SlotFree(g: Graph, w: Handle, n: Nucl, x: Handle)
    requires w in g.verts
  {
    Slot(g, w, n) == None || Slot(g, w, n) == Some(x)
  }

  /** A link into free slots keeps the graph valid, in particular the
      mirror law: both the edge and its mirror are present afterwards. */
  lemma LinkVerticesValid(g: Graph, a: Handle, d: Handle)
    requires Valid(g) && AreLinkable(g, a, d)
    requires SlotFree(g, a, Nucls(g, d)[g.k - 1], d)
    requires SlotFree(g, Comp(g, d), Nucls(g, Comp(g, a))[g.k - 1], Comp(g, a))
    ensures Valid(LinkVertices(g, a, d))
    ensures HasEdge(LinkVertices(g, a, d), a, d)
    ensures HasEdge(LinkVertices(g, a, d), Comp(g, d), Comp(g, a))
  {
    var r := LinkVertices(g, a, d);
    HoldsPoints(r.verts[a].desc, Nucls(g, d)[g.k - 1], d);
    HoldsPoints(r.verts[Comp(g, d)].desc, Nucls(g, Comp(g, a))[g.k - 1], Comp(g, a));
    SameVerticesPairLaw(g, r);
    LinkEdgeLaws(g, a, d);
  }

  lemma LinkEdgeLaws(g: Graph, a: Handle, d: Handle)
    requires Valid(g) && AreLinkable(g, a, d)
    requires SlotFree(g, a, Nucls(g, d)[g.k - 1], d)
    requires SlotFree(g, Comp(g, d), Nucls(g, Comp(g, a))[g.k - 1], Comp(g, a))
    ensures var r := LinkVertices(g, a, d);
            forall h, n {:trigger EdgeLaw(r, h, n)} | h in r.verts && n in r.verts[h].desc :: EdgeLaw(r, h, n)
  {
    var r := LinkVertices(g, a, d);
    forall h, n | h in r.verts && n in r.verts[h].desc
      ensures EdgeLaw(r, h, n)
    {
      LinkEdgeLaw(g, a, d, h, n);
    }
  }

  lemma LinkEdgeLaw(g: Graph, a: Handle, d: Handle, h: Handle, n: Nucl)
    requires Valid(g) && AreLinkable(g, a, d)
    requires SlotFree(g, a, Nucls(g, d)[g.k - 1], d)
    requires SlotFree(g, Comp(g, d), Nucls(g, Comp(g, a))[g.k - 1], Comp(g, a))
    requires h in g.verts && n in LinkVertices(g, a, d).verts[h].desc
    ensures EdgeLaw(LinkVertices(g, a, d), h, n)
  {
    if h == a && n == Nucls(g, d)[g.k - 1] {
      LinkNewEdgeLaw(g, a, d);
    } else if h == Comp(g, d) && n == Nucls(g, Comp(g, a))[g.k - 1] {
      LinkMirrorEdgeLaw(g, a, d);
    } else {
      LinkKeepsEdgeLaw(g, a, d, h, n);
    }
  }

  /** The written edge a -> d obeys the edge law. */
  lemma LinkNewEdgeLaw(g: Graph, a: Handle, d: Handle)
    requires Sound(g) && AreLinkable(g, a, d)
    ensures Nucls(g, d)[g.k - 1] in LinkVertices(g, a, d).verts[a].desc
    ensures EdgeLaw(LinkVertices(g, a, d), a, Nucls(g, d)[g.k - 1])
  {
    var r := LinkVertices(g, a, d);
    assert VertexSound(g, a) && VertexSound(g, d);
    assert VertexSound(g, Comp(g, a)) && VertexSound(g, Comp(g, d));
    assert r.verts[a].desc[Nucls(g, d)[g.k - 1]] == d;
  }

  /** The written mirror edge d.complement -> a.complement obeys the edge
      law; its overlap is the reverse complement of a -> d's. */
  lemma LinkMirrorEdgeLaw(g: Graph, a: Handle, d: Handle)
    requires Valid(g) && AreLinkable(g, a, d)
    ensures Comp(g, d) in g.verts && Comp(g, a) in g.verts && |Nucls(g, Comp(g, a))| >= g.k
    ensures Nucls(g, Comp(g, a))[g.k - 1] in LinkVertices(g, a, d).verts[Comp(g, d)].desc
    ensures EdgeLaw(LinkVertices(g, a, d), Comp(g, d), Nucls(g, Comp(g, a))[g.k - 1])
  {
    var r := LinkVertices(g, a, d);
    assert VertexSound(g, a) && VertexSound(g, d);
    var ac := Comp(g, a);
    var dc := Comp(g, d);
    assert r.verts[dc].desc[Nucls(g, ac)[g.k - 1]] == ac;
    assert PairLaw(g, a) && PairLaw(g, d);
    OverlapMirror(Nucls(g, a), Nucls(g, d), g.k);
  }

  lemma LinkKeepsEdgeLaw(g: Graph, a: Handle, d: Handle, h: Handle, n: Nucl)
    requires Valid(g) && AreLinkable(g, a, d)
    requires SlotFree(g, a, Nucls(g, d)[g.k - 1], d)
    requires SlotFree(g, Comp(g, d), Nucls(g, Comp(g, a))[g.k - 1], Comp(g, a))
    requires h in g.verts && n in g.verts[h].desc
    requires h != a || n != Nucls(g, d)[g.k - 1]
    requires h != Comp(g, d) || n != Nucls(g, Comp(g, a))[g.k - 1]
    ensures EdgeLaw(LinkVertices(g, a, d), h, n)
  {
    var r := LinkVertices(g, a, d);
    var k := g.k;
    var ac := Comp(g, a);
    var dc := Comp(g, d);
    var i1 := Nucls(g, d)[k - 1];
    var i2 := Nucls(g, ac)[k - 1];
    assert EdgeLaw(g, h, n);
    var x := g.verts[h].desc[n];
    var hc := Comp(g, h);
    var cx := Comp(g, x);
    var j := Nucls(g, hc)[k - 1];
    assert Slot(g, cx, j) == Some(hc);
    assert VertexSound(g, h) && VertexSound(g, x);
    // The mirror slot is one of the two the link writes only when h -> x
    // is the excluded slot itself.
    if cx == a && j == i1 {
      assert false;
    } else if cx == dc && j == i2 {
      assert false;
    }
    assert Slot(r, cx, j) == Slot(g, cx, j);
    EdgeLawTransfer(g, r, h, n);
  }

  /** DeleteVertex: the pair v, v.complement leaves the live set and
      HandleDelete fires on v. */
  function DeleteVertex(g: Graph, v: Handle): (r: Graph)
    requires Readable(g, v) && Readable(g, Comp(g, v))
    requires CanBeDeleted(g, v) && CanBeDeleted(g, Comp(g, v))
    ensures v !in r.verts && Comp(g, v) !in r.verts
    ensures r.verts.Keys == g.verts.Keys - {v, Comp(g, v)}
    ensures forall h | h in r.verts :: r.verts[h] == g.verts[h]
    ensures r.k == g.k && r.next == g.next
    ensures r.log == g.log + [Deleted(v)]
  {
    g.(verts := g.verts - {v, Comp(g, v)}, log := g.log + [Deleted(v)])
  }

  /** Under both guards no survivor points into the deleted pair. */
  lemma DeleteKeepsNoEdgeIn(g: Graph, v: Handle)
    requires Valid(g) && v in g.verts
    requires Readable(g, v) && Readable(g, Comp(g, v))
    requires CanBeDeleted(g, v) && CanBeDeleted(g, Comp(g, v))
    ensures forall w | w in g.verts && w != v && w != Comp(g, v) ::
              !HasEdge(g, w, v) && !HasEdge(g, w, Comp(g, v))
  {
    assert VertexSound(g, v);
    CanBeDeletedMeaning(g, v);
    CanBeDeletedMeaning(g, Comp(g, v));
  }

  /** Deletion under both CanBeDeleted guards removes exactly the pair,
      leaves every other vertex untouched, and leaves no edge pointing at
      the removed pair, so the graph stays valid. */
  lemma DeleteVertexValid(g: Graph, v: Handle)
    requires Valid(g) && v in g.verts
    requires Readable(g, v) && Readable(g, Comp(g, v))
    requires CanBeDeleted(g, v) && CanBeDeleted(g, Comp(g, v))
    ensures var r := DeleteVertex(g, v);
            && Valid(r)
            && r.verts.Keys == g.verts.Keys - {v, Comp(g, v)}
            && (forall h | h in r.verts :: r.verts[h] == g.verts[h])
            && (forall w | w in r.verts :: !HasEdge(r, w, v) && !HasEdge(r, w, Comp(g, v)))
  {
    DeleteKeepsNoEdgeIn(g, v);
    DeleteSound(g, v);
    DeleteLaws(g, v);
  }

  lemma DeleteSound(g: Graph, v: Handle)
    requires Sound(g) && v in g.verts
    requires Readable(g, v) && Readable(g, Comp(g, v))
    requires CanBeDeleted(g, v) && CanBeDeleted(g, Comp(g, v))
    requires forall w | w in g.verts && w != v && w != Comp(g, v) ::
               !HasEdge(g, w, v) && !HasEdge(g, w, Comp(g, v))
    ensures Sound(DeleteVertex(g, v))
  {
    DeleteSlotsLive(g, v);
    DeletePairsSound(g, v);
  }

  /** No surviving slot points into the deleted pair. */
  lemma DeleteSlotsLive(g: Graph, v: Handle)
    requires Sound(g) && v in g.verts
    requires Readable(g, v) && Readable(g, Comp(g, v))
    requires CanBeDeleted(g, v) && CanBeDeleted(g, Comp(g, v))
    requires forall w | w in g.verts && w != v && w != Comp(g, v) ::
               !HasEdge(g, w, v) && !HasEdge(g, w, Comp(g, v))
    ensures SlotsLive(DeleteVertex(g, v))
  {
    var r := DeleteVertex(g, v);
    forall h, n | h in r.verts && n in r.verts[h].desc
      ensures r.verts[h].desc[n] in r.verts
    {
      HoldsPoints(g.verts[h].desc, n, g.verts[h].desc[n]);
    }
  }

  /** Every survivor's complement survives too. */
  lemma DeletePairsSound(g: Graph, v: Handle)
    requires Sound(g) && v in g.verts
    requires Readable(g, v) && Readable(g, Comp(g, v))
    requires CanBeDeleted(g, v) && CanBeDeleted(g, Comp(g, v))
    ensures forall h | h in DeleteVertex(g, v).verts :: VertexSound(DeleteVertex(g, v), h)
  {
    var r := DeleteVertex(g, v);
    assert VertexSound(g, v);
    forall h | h in r.verts
      ensures VertexSound(r, h)
    {
      assert VertexSound(g, h);
    }
  }

  lemma DeleteLaws(g: Graph, v: Handle)
    requires Valid(g) && v in g.verts
    requires Readable(g, v) && Readable(g, Comp(g, v))
    requires CanBeDeleted(g, v) && CanBeDeleted(g, Comp(g, v))
    requires forall w | w in g.verts && w != v && w != Comp(g, v) ::
               !HasEdge(g, w, v) && !HasEdge(g, w, Comp(g, v))
    ensures var r := DeleteVertex(g, v);
            && (forall h {:trigger PairLaw(r, h)} | h in r.verts :: PairLaw(r, h))
            && (forall h, n {:trigger EdgeLaw(r, h, n)} | h in r.verts && n in r.verts[h].desc :: EdgeLaw(r, h, n))
  {
    var r := DeleteVertex(g, v);
    forall h | h in r.verts
      ensures PairLaw(r, h)
    {
      DeletePairLaw(g, v, h);
    }
    forall h, n | h in r.verts && n in r.verts[h].desc
      ensures EdgeLaw(r, h, n)
    {
      DeleteEdgeLaw(g, v, h, n);
    }
  }

  lemma DeletePairLaw(g: Graph, v: Handle, h: Handle)
    requires Valid(g) && v in g.verts
    requires Readable(g, v) && Readable(g, Comp(g, v))
    requires CanBeDeleted(g, v) && CanBeDeleted(g, Comp(g, v))
    requires h in DeleteVertex(g, v).verts
    ensures PairLaw(DeleteVertex(g, v), h)
  {
    assert VertexSound(g, v) && VertexSound(g, h) && PairLaw(g, h);
    PairLawTransfer(g, DeleteVertex(g, v), h);
  }

  lemma DeleteEdgeLaw(g: Graph, v: Handle, h: Handle, n: Nucl)
    requires Valid(g) && v in g.verts
    requires Readable(g, v) && Readable(g, Comp(g, v))
    requires CanBeDeleted(g, v) && CanBeDeleted(g, Comp(g, v))
    requires forall w | w in g.verts && w != v && w != Comp(g, v) ::
               !HasEdge(g, w, v) && !HasEdge(g, w, Comp(g, v))
    requires h in DeleteVertex(g, v).verts && n in g.verts[h].desc
    ensures EdgeLaw(DeleteVertex(g, v), h, n)
  {
    assert EdgeLaw(g, h, n);
    DeleteSurvivors(g, v, h, n);
    EdgeLawKept(g, DeleteVertex(g, v), h, n);
  }

  /** The record of x is the same in g and r. */
  ghost predicate KeptRecord(g: Graph, r: Graph, x: Handle)
  {
    x in g.verts && x in r.verts && r.verts[x] == g.verts[x]
  }

  /** An edge's law holds in any graph that keeps the records of both its
      ends and of their complements. */
  lemma EdgeLawKept(g: Graph, r: Graph, h: Handle, n: Nucl)
    requires h in g.verts && n in g.verts[h].desc && EdgeLaw(g, h, n) && r.k == g.k
    requires var d := g.verts[h].desc[n];
             KeptRecord(g, r, h) && KeptRecord(g, r, d)
             && KeptRecord(g, r, Comp(g, h)) && KeptRecord(g, r, Comp(g, d))
    ensures EdgeLaw(r, h, n)
  {
    EdgeLawTransfer(g, r, h, n);
  }

  /** Both ends of a surviving edge, and their complements, survive a
      guarded deletion. */
  lemma DeleteSurvivors(g: Graph, v: Handle, h: Handle, n: Nucl)
    requires Valid(g) && v in g.verts
    requires Readable(g, v) && Readable(g, Comp(g, v))
    requires CanBeDeleted(g, v) && CanBeDeleted(g, Comp(g, v))
    requires forall w | w in g.verts && w != v && w != Comp(g, v) ::
               !HasEdge(g, w, v) && !HasEdge(g, w, Comp(g, v))
    requires h in DeleteVertex(g, v).verts && n in g.verts[h].desc && EdgeLaw(g, h, n)
    ensures var r, d := DeleteVertex(g, v), g.verts[h].desc[n];
            KeptRecord(g, r, h) && KeptRecord(g, r, d)
            && KeptRecord(g, r, Comp(g, h)) && KeptRecord(g, r, Comp(g, d))
  {
    var x := g.verts[h].desc[n];
    HoldsPoints(g.verts[h].desc, n, x);
    assert VertexSound(g, v) && VertexSound(g, x) && VertexSound(g, h);
  }
}
