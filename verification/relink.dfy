/** The incoming-edge fix-up shared by SplitVertex and Merge
    (FixIncomingOnSplit and FixIncomingOnMerge): for every ancestor of the
    vertex being replaced, one LinkVertices call towards the replacement,
    with two special cases for an ancestor that is the replaced vertex's
    complement or the self-loop vertex. The effect of the whole loop is
    described as a plan of slot writes. */
module Relink {
  import opened Wrappers
  import opened Nucleotide
  import opened CondensedGraph

  /** One slot write: slot `slot` of vertex `at` is set to `value`. */
  datatype Write = Write(at: Handle, slot: Nucl, value: Handle)

  /** The vertex a fix-up step links to `target` for the ancestor `a` of
      the replaced vertex `x`: the replacement's complement when `a` is x's
      complement, `loopSrc` when `a` is the self-loop vertex `loopAnc`, and
      `a` itself otherwise. */
  function Source(g: Graph, a: Handle, x: Handle, target: Handle, loopAnc: Handle, loopSrc: Handle): Handle
    requires x in g.verts && target in g.verts
  {
    if a == Comp(g, x) then Comp(g, target)
    else if a == loopAnc then loopSrc
    else a
  }

  /** Every step of the loop meets LinkVertices' adjacency requirement. */
  ghost predicate Linkable(g: Graph, anc: seq<Handle>, x: Handle, target: Handle, loopAnc: Handle, loopSrc: Handle)
  {
    && Sound(g) && x in g.verts && target in g.verts
    && forall a | a in anc :: AreLinkable(g, Source(g, a, x, target, loopAnc, loopSrc), target)
  }

  lemma LinkableKept(g: Graph, g1: Graph, anc: seq<Handle>, x: Handle, target: Handle, loopAnc: Handle, loopSrc: Handle)
    requires Linkable(g, anc, x, target, loopAnc, loopSrc)
    requires Sound(g1) && SameVertices(g, g1)
    ensures Linkable(g1, anc, x, target, loopAnc, loopSrc)
  {
  }

  /** The loop body over the ancestor list, one LinkVertices per ancestor,
      in list order. */
  function RelinkAll(g: Graph, anc: seq<Handle>, x: Handle, target: Handle, loopAnc: Handle, loopSrc: Handle): (r: Graph)
    requires Linkable(g, anc, x, target, loopAnc, loopSrc)
    ensures Sound(r) && SameVertices(g, r) && r.next == g.next && r.log == g.log
    decreases |anc|
  {
    if |anc| == 0 then g
    else
      var g1 := LinkVertices(g, Source(g, anc[0], x, target, loopAnc, loopSrc), target);
      LinkableKept(g, g1, anc[1..], x, target, loopAnc, loopSrc);
      var r := RelinkAll(g1, anc[1..], x, target, loopAnc, loopSrc);
      SameVerticesTrans(g, g1, r);
      r
  }

  /** FixIncomingOnSplit(v, v1, v2): the incoming edges of v move to v1;
      v's complement as an ancestor becomes v1's complement, and v itself
      (a self-loop) becomes v2. */
  function FixIncomingOnSplit(g: Graph, v: Handle, v1: Handle, v2: Handle): (r: Graph)
    requires Sound(g) && v in g.verts
    requires Linkable(g, Anc(g, v), v, v1, v, v2)
    ensures Sound(r) && SameVertices(g, r) && r.next == g.next && r.log == g.log
  {
    RelinkAll(g, Anc(g, v), v, v1, v, v2)
  }

  /** FixIncomingOnMerge(v1, v2, v): the incoming edges of v1 move to v;
      v1's complement as an ancestor becomes v's complement, and v2 (the
      edge v2 -> v1 of a cycle) becomes the self-loop v -> v. */
  function FixIncomingOnMerge(g: Graph, v1: Handle, v2: Handle, v: Handle): (r: Graph)
    requires Sound(g) && v1 in g.verts
    requires Linkable(g, Anc(g, v1), v1, v, v2, v)
    ensures Sound(r) && SameVertices(g, r) && r.next == g.next && r.log == g.log
  {
    RelinkAll(g, Anc(g, v1), v1, v, v2, v)
  }

  /** The two slot writes LinkVertices performs for one ancestor. */
  function StepWrites(g: Graph, a: Handle, x: Handle, target: Handle, loopAnc: Handle, loopSrc: Handle): (w: seq<Write>)
    requires Sound(g) && x in g.verts && target in g.verts
    requires AreLinkable(g, Source(g, a, x, target, loopAnc, loopSrc), target)
    ensures |w| == 2
  {
    var src := Source(g, a, x, target, loopAnc, loopSrc);
    assert VertexSound(g, target) && VertexSound(g, src);
    assert VertexSound(g, Comp(g, src));
    [Write(src, Key(g, target), target), Write(Comp(g, target), Key(g, Comp(g, src)), Comp(g, src))]
  }

  /** All writes of the loop, in order. */
  function Plan(g: Graph, anc: seq<Handle>, x: Handle, target: Handle, loopAnc: Handle, loopSrc: Handle): (p: seq<Write>)
    requires Linkable(g, anc, x, target, loopAnc, loopSrc)
    ensures |p| == 2 * |anc|
  {
    if |anc| == 0 then []
    else StepWrites(g, anc[0], x, target, loopAnc, loopSrc) + Plan(g, anc[1..], x, target, loopAnc, loopSrc)
  }

  /** The writes of the j-th ancestor sit at positions 2j and 2j+1. */
  lemma {:induction false} PlanAt(g: Graph, anc: seq<Handle>, x: Handle, target: Handle, loopAnc: Handle, loopSrc: Handle, j: int)
    requires Linkable(g, anc, x, target, loopAnc, loopSrc)
    requires 0 <= j < |anc|
    ensures Plan(g, anc, x, target, loopAnc, loopSrc)[2 * j..2 * j + 2] == StepWrites(g, anc[j], x, target, loopAnc, loopSrc)
  {
    var p := Plan(g, anc, x, target, loopAnc, loopSrc);
    var rest := Plan(g, anc[1..], x, target, loopAnc, loopSrc);
    if j > 0 {
      PlanAt(g, anc[1..], x, target, loopAnc, loopSrc, j - 1);
      assert p[2 * j..2 * j + 2] == rest[2 * (j - 1)..2 * (j - 1) + 2];
    }
  }

  /** The plan depends only on sequences and complements, which the loop
      never changes. */
  lemma {:induction false} PlanKept(g: Graph, g1: Graph, anc: seq<Handle>, x: Handle, target: Handle, loopAnc: Handle, loopSrc: Handle)
    requires Linkable(g, anc, x, target, loopAnc, loopSrc)
    requires Linkable(g1, anc, x, target, loopAnc, loopSrc)
    requires SameVertices(g, g1)
    ensures Plan(g1, anc, x, target, loopAnc, loopSrc) == Plan(g, anc, x, target, loopAnc, loopSrc)
  {
    if |anc| > 0 {
      PlanKept(g, g1, anc[1..], x, target, loopAnc, loopSrc);
    }
  }

  /** Some write of the plan goes to slot `n` of `w`. */
  predicate Touches(p: seq<Write>, w: Handle, n: Nucl)
  {
    exists i | 0 <= i < |p| :: p[i].at == w && p[i].slot == n
  }

  /** Every write of the plan puts the value `e` prescribes for its slot. */
  predicate Agrees(p: seq<Write>, e: (Handle, Nucl) -> Option<Handle>)
  {
    forall i | 0 <= i < |p| :: e(p[i].at, p[i].slot) == Some(p[i].value)
  }

  /** The effect of the whole loop: when all its writes agree with a slot
      table `e`, every touched slot ends up as `e` says and every other slot
      keeps its value. */
  lemma {:induction false} RelinkAllSlots(g: Graph, anc: seq<Handle>, x: Handle, target: Handle, loopAnc: Handle, loopSrc: Handle,
                                          e: (Handle, Nucl) -> Option<Handle>)
    requires Linkable(g, anc, x, target, loopAnc, loopSrc)
    requires Agrees(Plan(g, anc, x, target, loopAnc, loopSrc), e)
    ensures forall w, n | w in g.verts ::
              Slot(RelinkAll(g, anc, x, target, loopAnc, loopSrc), w, n)
              == if Touches(Plan(g, anc, x, target, loopAnc, loopSrc), w, n) then e(w, n) else Slot(g, w, n)
    decreases |anc|
  {
    if |anc| > 0 {
      var src := Source(g, anc[0], x, target, loopAnc, loopSrc);
      var g1 := LinkVertices(g, src, target);
      var tail := anc[1..];
      LinkableKept(g, g1, tail, x, target, loopAnc, loopSrc);
      PlanKept(g, g1, tail, x, target, loopAnc, loopSrc);
      var first := StepWrites(g, anc[0], x, target, loopAnc, loopSrc);
      var pt := Plan(g, tail, x, target, loopAnc, loopSrc);
      AgreesSplit(first, pt, e);
      StepSlots(g, anc[0], x, target, loopAnc, loopSrc, e);
      RelinkAllSlots(g1, tail, x, target, loopAnc, loopSrc, e);
      forall w, n | w in g.verts
        ensures Slot(RelinkAll(g1, tail, x, target, loopAnc, loopSrc), w, n)
                == if Touches(first + pt, w, n) then e(w, n) else Slot(g, w, n)
      {
        TouchesSplit(first, pt, w, n);
      }
    }
  }

  lemma AgreesSplit(first: seq<Write>, rest: seq<Write>, e: (Handle, Nucl) -> Option<Handle>)
    requires |first| == 2 && Agrees(first + rest, e)
    ensures Agrees(rest, e)
    ensures e(first[0].at, first[0].slot) == Some(first[0].value)
    ensures e(first[1].at, first[1].slot) == Some(first[1].value)
  {
    var p := first + rest;
    forall i | 0 <= i < |rest|
      ensures e(rest[i].at, rest[i].slot) == Some(rest[i].value)
    {
      assert rest[i] == p[i + 2];
    }
    assert p[0] == first[0] && p[1] == first[1];
  }

  /** One LinkVertices call of the loop, read through its two writes. */
  lemma StepSlots(g: Graph, a: Handle, x: Handle, target: Handle, loopAnc: Handle, loopSrc: Handle,
                  e: (Handle, Nucl) -> Option<Handle>)
    requires Sound(g) && x in g.verts && target in g.verts
    requires AreLinkable(g, Source(g, a, x, target, loopAnc, loopSrc), target)
    requires var f := StepWrites(g, a, x, target, loopAnc, loopSrc);
             e(f[0].at, f[0].slot) == Some(f[0].value) && e(f[1].at, f[1].slot) == Some(f[1].value)
    ensures var f := StepWrites(g, a, x, target, loopAnc, loopSrc);
            var g1 := LinkVertices(g, Source(g, a, x, target, loopAnc, loopSrc), target);
            forall w, n | w in g.verts ::
              Slot(g1, w, n) == if (f[0].at == w && f[0].slot == n) || (f[1].at == w && f[1].slot == n)
                                then e(w, n) else Slot(g, w, n)
  {
  }

  lemma TouchesSplit(first: seq<Write>, rest: seq<Write>, w: Handle, n: Nucl)
    requires |first| == 2
    ensures Touches(first + rest, w, n) <==>
              (first[0].at == w && first[0].slot == n) || (first[1].at == w && first[1].slot == n) || Touches(rest, w, n)
  {
    var p := first + rest;
    if Touches(rest, w, n) {
      var i :| 0 <= i < |rest| && rest[i].at == w && rest[i].slot == n;
      assert p[i + 2] == rest[i];
    }
    if Touches(p, w, n) {
      var i :| 0 <= i < |p| && p[i].at == w && p[i].slot == n;
      if i >= 2 {
        assert rest[i - 2] == p[i];
      }
    }
    if first[0].at == w && first[0].slot == n {
      assert p[0] == first[0];
    }
    if first[1].at == w && first[1].slot == n {
      assert p[1] == first[1];
    }
  }

  /** Both writes of the step for ancestor `a` put the value `e` prescribes. */
  ghost predicate StepAgrees(g: Graph, a: Handle, x: Handle, target: Handle, loopAnc: Handle, loopSrc: Handle,
                             e: (Handle, Nucl) -> Option<Handle>)
    requires Sound(g) && x in g.verts && target in g.verts
    requires AreLinkable(g, Source(g, a, x, target, loopAnc, loopSrc), target)
  {
    var f := StepWrites(g, a, x, target, loopAnc, loopSrc);
    e(f[0].at, f[0].slot) == Some(f[0].value) && e(f[1].at, f[1].slot) == Some(f[1].value)
  }

  lemma {:induction false} AgreesFromSteps(g: Graph, anc: seq<Handle>, x: Handle, target: Handle, loopAnc: Handle, loopSrc: Handle,
                                           e: (Handle, Nucl) -> Option<Handle>)
    requires Linkable(g, anc, x, target, loopAnc, loopSrc)
    requires forall a | a in anc :: StepAgrees(g, a, x, target, loopAnc, loopSrc, e)
    ensures Agrees(Plan(g, anc, x, target, loopAnc, loopSrc), e)
    decreases |anc|
  {
    if |anc| > 0 {
      AgreesFromSteps(g, anc[1..], x, target, loopAnc, loopSrc, e);
      var f := StepWrites(g, anc[0], x, target, loopAnc, loopSrc);
      var rest := Plan(g, anc[1..], x, target, loopAnc, loopSrc);
      assert StepAgrees(g, anc[0], x, target, loopAnc, loopSrc, e);
      var p := f + rest;
      forall i | 0 <= i < |p|
        ensures e(p[i].at, p[i].slot) == Some(p[i].value)
      {
        if i >= 2 {
          assert p[i] == rest[i - 2];
        }
      }
    }
  }

  /** Both slots written for ancestor `anc[j]` are touched by the plan. */
  lemma StepTouches(g: Graph, anc: seq<Handle>, x: Handle, target: Handle, loopAnc: Handle, loopSrc: Handle, j: int)
    requires Linkable(g, anc, x, target, loopAnc, loopSrc)
    requires 0 <= j < |anc|
    ensures var f := StepWrites(g, anc[j], x, target, loopAnc, loopSrc);
            var p := Plan(g, anc, x, target, loopAnc, loopSrc);
            Touches(p, f[0].at, f[0].slot) && Touches(p, f[1].at, f[1].slot)
  {
    var f := StepWrites(g, anc[j], x, target, loopAnc, loopSrc);
    var p := Plan(g, anc, x, target, loopAnc, loopSrc);
    PlanAt(g, anc, x, target, loopAnc, loopSrc, j);
    assert p[2 * j] == f[0] && p[2 * j + 1] == f[1];
  }

  /** A touched slot is one of the two slots of some step. */
  lemma TouchedBy(g: Graph, anc: seq<Handle>, x: Handle, target: Handle, loopAnc: Handle, loopSrc: Handle, w: Handle, n: Nucl)
    requires Linkable(g, anc, x, target, loopAnc, loopSrc)
    requires Touches(Plan(g, anc, x, target, loopAnc, loopSrc), w, n)
    ensures exists j | 0 <= j < |anc| ::
              var f := StepWrites(g, anc[j], x, target, loopAnc, loopSrc);
              (f[0].at == w && f[0].slot == n) || (f[1].at == w && f[1].slot == n)
  {
    var p := Plan(g, anc, x, target, loopAnc, loopSrc);
    var i :| 0 <= i < |p| && p[i].at == w && p[i].slot == n;
    var j := i / 2;
    PlanAt(g, anc, x, target, loopAnc, loopSrc, j);
    var f := StepWrites(g, anc[j], x, target, loopAnc, loopSrc);
    assert p[2 * j] == f[0] && p[2 * j + 1] == f[1];
  }
}
