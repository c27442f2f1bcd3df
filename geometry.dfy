/** What PMTree2D::generateGeometry draws: per branch, one quad per segment in a
    chain of transforms, with a linear width taper, and the quads of each child
    branch inserted right after the segment it grows from. */
module Geometry {
  import opened Nodes
  import opened Hierarchy
  import opened Transforms

  /** Degrees the transform turns after segment k: the forward curl `curve`
      spread over the segments in the first half, `curveBack` in the second,
      plus that segment's jitter `curvesV[k]`. A branch whose two curls agree
      bends by the same curl at every boundary; a branch without curls or
      jitter is straight. */
  function Bend(cfg: Config, p: Params, k: int): (r: real)
    requires 0 <= k < |p.curvesV|
    ensures p.curve == p.curveBack ==> r == p.curve / (cfg.segments as real) + p.curvesV[k]
    ensures p.curve == 0.0 && p.curveBack == 0.0 && p.curvesV[k] == 0.0 ==> r == 0.0
  {
    if k < cfg.segments / 2 then p.curve / (cfg.segments as real) + p.curvesV[k]
    else p.curveBack / (cfg.segments as real) + p.curvesV[k]
  }

  /** The transform segment k of a branch is drawn in, when its first segment is
      drawn in `start`: each non-final segment is followed by a translation by the
      segment length and a rotation by its bend. */
  function Frame(cfg: Config, p: Params, start: Transform, length: real, k: nat): Transform
    requires Shaped(cfg, p) && k <= Slots(cfg)
  {
    if k == 0 then start
    else Rotate(Translate(Frame(cfg, p, start, length, k - 1), length), Radians(Bend(cfg, p, k - 1)))
  }

  /** The transform a child at boundary k starts from: segment k's transform
      moved to the far end of the segment, before that segment's bend. */
  function BranchStart(cfg: Config, p: Params, start: Transform, length: real, k: nat): Transform
    requires Shaped(cfg, p) && k < Slots(cfg)
  {
    Translate(Frame(cfg, p, start, length, k), length)
  }

  /** The width of a branch of base width `width` at the start of segment k:
      never negative and never wider than the base along the branch. */
  function Width(cfg: Config, width: real, k: int): (r: real)
    ensures 0.0 <= width && 0 <= k <= cfg.segments ==> 0.0 <= r <= width
  {
    width * ((cfg.segments - k) as real) / (cfg.segments as real)
  }

  /** The width shrinks by the same amount at every segment, from the full width
      at the base to zero at the tip. */
  lemma LinearTaper(cfg: Config, width: real, k: int)
    ensures Width(cfg, width, 0) == width && Width(cfg, width, cfg.segments) == 0.0
    ensures Width(cfg, width, k) - Width(cfg, width, k + 1) == width / (cfg.segments as real)
  {
  }

  /** One branch drawn from the transform it inherits, with its segment length
      and base width. */
  datatype Stroke = Stroke(frame: Transform, length: real, width: real)

  /** The first segment is drawn after rotating the inherited transform by the
      branch's own down angle. */
  function Start(p: Params, s: Stroke): Transform
  {
    Rotate(s.frame, Radians(p.downAngle))
  }

  /** The trailing corners of segment k, at the segment's far end: right then left. */
  function TrailRight(cfg: Config, p: Params, s: Stroke, k: nat): Vec
    requires Shaped(cfg, p) && k <= Slots(cfg)
  {
    Vec(Frame(cfg, p, Start(p, s), s.length, k), Width(cfg, s.width, k + 1) * 0.5, s.length)
  }

  function TrailLeft(cfg: Config, p: Params, s: Stroke, k: nat): Vec
    requires Shaped(cfg, p) && k <= Slots(cfg)
  {
    Vec(Frame(cfg, p, Start(p, s), s.length, k), -Width(cfg, s.width, k + 1) * 0.5, s.length)
  }

  /** Segment k's polygon: its leading edge is the base of the branch, at the
      full width, for the first segment, and the previous segment's trailing
      edge afterwards, so consecutive polygons share an edge. */
  function SegmentQuad(cfg: Config, p: Params, s: Stroke, k: nat): (r: Quad)
    requires Shaped(cfg, p) && k <= Slots(cfg)
    ensures k == 0 ==> r.p0.x == -s.width * 0.5 && r.p1.x == s.width * 0.5 && r.p0.y == 0.0 && r.p1.y == 0.0
    ensures r.p2.y == s.length && r.p3.y == s.length && r.p2.x == -r.p3.x
  {
    var base := Start(p, s);
    if k == 0 then
      Quad(Vec(base, -s.width * 0.5, 0.0), Vec(base, s.width * 0.5, 0.0),
           TrailRight(cfg, p, s, 0), TrailLeft(cfg, p, s, 0))
    else
      Quad(TrailLeft(cfg, p, s, k - 1), TrailRight(cfg, p, s, k - 1),
           TrailRight(cfg, p, s, k), TrailLeft(cfg, p, s, k))
  }

  /** Consecutive polygons of a branch share an edge: the leading corners of
      segment k are the trailing corners of segment k - 1, so the drawn
      branch has no gaps. */
  lemma QuadsShareEdges(cfg: Config, p: Params, s: Stroke, k: nat)
    requires Shaped(cfg, p) && 0 < k <= Slots(cfg)
    ensures SegmentQuad(cfg, p, s, k).p0 == SegmentQuad(cfg, p, s, k - 1).p3
    ensures SegmentQuad(cfg, p, s, k).p1 == SegmentQuad(cfg, p, s, k - 1).p2
  {
  }

  /** Whether segment k has a trailing corner below ground, as judged by `below`. */
  predicate SegmentBelow(cfg: Config, p: Params, s: Stroke, below: Vec -> bool, k: nat)
    requires Shaped(cfg, p) && k <= Slots(cfg)
  {
    below(TrailRight(cfg, p, s, k)) || below(TrailLeft(cfg, p, s, k))
  }

  /** The flag one call returns: some segment of this branch itself has a
      trailing corner below ground. Child branches do not count. */
  predicate OwnUnderground(cfg: Config, p: Params, s: Stroke, below: Vec -> bool)
    requires Shaped(cfg, p)
  {
    exists k: nat :: k <= Slots(cfg) && SegmentBelow(cfg, p, s, below, k)
  }

  /** A child's length or width: the parent's scaled by the child's attenuation. */
  function Scaled(x: real, attenuation: real): real
  {
    x * attenuation
  }

  /** The stroke a child branch is drawn with: it starts where boundary k ends
      and scales the parent's length and its width at segment k by its own
      attenuation factor. */
  function ChildStroke(cfg: Config, p: Params, s: Stroke, k: nat, attenuation: real): Stroke
    requires Shaped(cfg, p) && k < Slots(cfg)
  {
    Stroke(BranchStart(cfg, p, Start(p, s), s.length, k),
           Scaled(s.length, attenuation), Scaled(Width(cfg, s.width, k), attenuation))
  }

  /** One turn of the segment loop, in the terms the traversal computes it:
      the trailing corners of segment k are placed in the transform of segment
      k, and the transform of segment k + 1 is that one moved along the segment
      and turned by the bend at boundary k. */
  lemma SegmentTurn(cfg: Config, p: Params, s: Stroke, k: nat, mat: Transform)
    requires Shaped(cfg, p) && k <= Slots(cfg)
    requires mat == Frame(cfg, p, Start(p, s), s.length, k)
    ensures TrailRight(cfg, p, s, k) == Vec(mat, Width(cfg, s.width, k + 1) * 0.5, s.length)
    ensures TrailLeft(cfg, p, s, k) == Vec(mat, -Width(cfg, s.width, k + 1) * 0.5, s.length)
    ensures k < Slots(cfg) ==>
      Frame(cfg, p, Start(p, s), s.length, k + 1) == Rotate(Translate(mat, s.length), Radians(Bend(cfg, p, k)))
  {
  }

  /** One turn of a loop over the interior boundaries: the child at boundary k
      starts from the transform of segment k moved along the segment, and the
      transform of segment k + 1 is that one turned by the bend at boundary k. */
  lemma FrameTurn(cfg: Config, p: Params, start: Transform, length: real, k: nat, mat: Transform)
    requires Shaped(cfg, p) && k < Slots(cfg)
    requires mat == Frame(cfg, p, start, length, k)
    ensures BranchStart(cfg, p, start, length, k) == Translate(mat, length)
    ensures Frame(cfg, p, start, length, k + 1) == Rotate(Translate(mat, length), Radians(Bend(cfg, p, k)))
  {
  }

  /** All polygons drawn from node `n` with stroke `s`, in emission order:
      the drawing starts with the branch's base segment and holds at least
      the branch's own segments. */
  ghost function Emit(cfg: Config, nodes: set<TreeNode>, n: TreeNode, s: Stroke): (r: seq<Quad>)
    requires WellFormed(cfg, nodes) && n in nodes
    reads nodes
    ensures Shaped(cfg, n.Parameters())
    ensures |r| >= cfg.segments
    decreases cfg.levels - n.level, Slots(cfg) + 1
  {
    EmitFrom(cfg, nodes, n, s, 0)
  }

  /** The polygons from segment k of `n` on: segment k, then (unless k is the
      last segment) the branch growing at boundary k, then the rest; at least
      the branch's own segments from k on. */
  ghost function EmitFrom(cfg: Config, nodes: set<TreeNode>, n: TreeNode, s: Stroke, k: nat): (r: seq<Quad>)
    requires WellFormed(cfg, nodes) && n in nodes && k <= Slots(cfg)
    reads nodes
    ensures Shaped(cfg, n.Parameters())
    ensures |r| >= cfg.segments - k
    decreases cfg.levels - n.level, Slots(cfg) - k
  {
    assert Linked(cfg, nodes, n);
    [SegmentQuad(cfg, n.Parameters(), s, k)] +
    if k == Slots(cfg) then []
    else BranchAt(cfg, nodes, n, s, k) + EmitFrom(cfg, nodes, n, s, k + 1)
  }

  /** The polygons of the branch growing at boundary k of `n`: those of child
      k, drawn from the far end of segment k, when `n` marks the boundary with
      1, and none otherwise. */
  ghost function BranchAt(cfg: Config, nodes: set<TreeNode>, n: TreeNode, s: Stroke, k: nat): seq<Quad>
    requires WellFormed(cfg, nodes) && n in nodes && k < Slots(cfg)
    reads nodes
    decreases cfg.levels - n.level, Slots(cfg) - k - 1
  {
    assert Linked(cfg, nodes, n) && Covered(n);
    if n.branching[k] == 1 then
      var c := n.children[k];
      Emit(cfg, nodes, c, ChildStroke(cfg, n.Parameters(), s, k, c.attenuationFactor))
    else []
  }

  /** The branch polygons of every interior boundary of `n`, by boundary. */
  ghost function Branches(cfg: Config, nodes: set<TreeNode>, n: TreeNode, s: Stroke): (b: seq<seq<Quad>>)
    requires WellFormed(cfg, nodes) && n in nodes
    reads nodes
    ensures |b| == Slots(cfg)
    ensures forall k :: 0 <= k < Slots(cfg) ==> b[k] == BranchAt(cfg, nodes, n, s, k)
  {
    seq(Slots(cfg), k requires 0 <= k < Slots(cfg) && WellFormed(cfg, nodes) && n in nodes reads nodes =>
          BranchAt(cfg, nodes, n, s, k))
  }

  /** `start` followed by what the first k segments of a branch draw: each
      segment's polygon and then, at an interior boundary, the polygons of the
      branch growing there. */
  function Assembled(cfg: Config, p: Params, s: Stroke, branches: seq<seq<Quad>>, start: seq<Quad>, k: nat): seq<Quad>
    requires Shaped(cfg, p) && |branches| == Slots(cfg) && k <= cfg.segments
  {
    if k == 0 then start
    else if k - 1 < Slots(cfg) then
      Assembled(cfg, p, s, branches, start, k - 1) + [SegmentQuad(cfg, p, s, k - 1)] + branches[k - 1]
    else Assembled(cfg, p, s, branches, start, k - 1) + [SegmentQuad(cfg, p, s, k - 1)]
  }

  /** Drawing the segments one by one, each followed by its branch, yields
      exactly the emission order of `Emit`. */
  lemma {:induction false} AssembledEmit(cfg: Config, nodes: set<TreeNode>, n: TreeNode, s: Stroke, start: seq<Quad>)
    requires WellFormed(cfg, nodes) && n in nodes
    ensures Shaped(cfg, n.Parameters())
    ensures Assembled(cfg, n.Parameters(), s, Branches(cfg, nodes, n, s), start, cfg.segments) ==
      start + Emit(cfg, nodes, n, s)
  {
    assert Linked(cfg, nodes, n);
    var p, b := n.Parameters(), Branches(cfg, nodes, n, s);
    var k := 0;
    while k < Slots(cfg)
      invariant 0 <= k <= Slots(cfg)
      invariant Assembled(cfg, p, s, b, start, k) + EmitFrom(cfg, nodes, n, s, k) == start + Emit(cfg, nodes, n, s)
    {
      var done, rest := Assembled(cfg, p, s, b, start, k), EmitFrom(cfg, nodes, n, s, k + 1);
      assert EmitFrom(cfg, nodes, n, s, k) == [SegmentQuad(cfg, p, s, k)] + (b[k] + rest);
      assert done + ([SegmentQuad(cfg, p, s, k)] + (b[k] + rest)) == done + [SegmentQuad(cfg, p, s, k)] + b[k] + rest;
      k := k + 1;
    }
    assert EmitFrom(cfg, nodes, n, s, k) == [SegmentQuad(cfg, p, s, k)];
  }

  /** Whether one of the first k segments has a trailing corner below ground,
      checked segment by segment. */
  predicate BelowBefore(cfg: Config, p: Params, s: Stroke, below: Vec -> bool, k: nat)
    requires Shaped(cfg, p) && k <= cfg.segments
  {
    k > 0 && (BelowBefore(cfg, p, s, below, k - 1) || SegmentBelow(cfg, p, s, below, k - 1))
  }

  /** The segment-by-segment check finds a low corner among the first k
      segments exactly when one of them has one; over all segments it is the
      flag of `OwnUnderground`. */
  lemma {:induction false} BelowBeforeExists(cfg: Config, p: Params, s: Stroke, below: Vec -> bool, k: nat)
    requires Shaped(cfg, p) && k <= cfg.segments
    ensures BelowBefore(cfg, p, s, below, k) <==> exists j: nat :: j < k && SegmentBelow(cfg, p, s, below, j)
    ensures k == cfg.segments ==> (BelowBefore(cfg, p, s, below, k) <==> OwnUnderground(cfg, p, s, below))
  {
    if k > 0 {
      BelowBeforeExists(cfg, p, s, below, k - 1);
    }
  }

  /** Every node the depth-first traversal visits draws exactly `segments`
      polygons. */
  lemma {:induction false} EmitCount(cfg: Config, nodes: set<TreeNode>, n: TreeNode, s: Stroke)
    requires WellFormed(cfg, nodes) && n in nodes
    ensures |Emit(cfg, nodes, n, s)| == cfg.segments * |Reached(cfg, nodes, n)|
    decreases cfg.levels - n.level, Slots(cfg) + 1
  {
    EmitFromCount(cfg, nodes, n, s, 0);
    var r := |ReachedFrom(cfg, nodes, n, 0)|;
    Distribute(cfg.segments, 1, r);
  }

  lemma {:induction false} EmitFromCount(cfg: Config, nodes: set<TreeNode>, n: TreeNode, s: Stroke, k: nat)
    requires WellFormed(cfg, nodes) && n in nodes && k <= Slots(cfg)
    ensures |EmitFrom(cfg, nodes, n, s, k)| ==
      cfg.segments - k + cfg.segments * |ReachedFrom(cfg, nodes, n, k)|
    decreases cfg.levels - n.level, Slots(cfg) - k
  {
    assert Linked(cfg, nodes, n) && Covered(n);
    if k < Slots(cfg) {
      EmitFromCount(cfg, nodes, n, s, k + 1);
      var rest := ReachedFrom(cfg, nodes, n, k + 1);
      if n.branching[k] == 1 {
        var c := n.children[k];
        var cs := ChildStroke(cfg, n.Parameters(), s, k, c.attenuationFactor);
        EmitCount(cfg, nodes, c, cs);
        var sub := Reached(cfg, nodes, c);
        assert ReachedFrom(cfg, nodes, n, k) == sub + rest;
        Distribute(cfg.segments, |sub|, |rest|);
      } else {
        assert ReachedFrom(cfg, nodes, n, k) == rest;
      }
    }
  }

  lemma Distribute(a: int, b: int, c: int)
    ensures a * (b + c) == a * b + a * c
  {
  }

  /** A branch drawing ends with its own tip segment: nothing is drawn after the
      last segment, so no transform step follows it. */
  lemma {:induction false} EmitEndsAtTip(cfg: Config, nodes: set<TreeNode>, n: TreeNode, s: Stroke, k: nat)
    requires WellFormed(cfg, nodes) && n in nodes && k <= Slots(cfg)
    ensures EmitFrom(cfg, nodes, n, s, k) != []
    ensures EmitFrom(cfg, nodes, n, s, k)[0] == SegmentQuad(cfg, n.Parameters(), s, k)
    ensures Last(EmitFrom(cfg, nodes, n, s, k)) == SegmentQuad(cfg, n.Parameters(), s, Slots(cfg))
    decreases Slots(cfg) - k
  {
    if k < Slots(cfg) {
      EmitEndsAtTip(cfg, nodes, n, s, k + 1);
    }
  }

  function Last<T>(q: seq<T>): T
    requires q != []
  {
    q[|q| - 1]
  }

  /** The tip segment tapers to a point: its trailing corners have zero width. */
  lemma TipHasNoWidth(cfg: Config, p: Params, s: Stroke)
    requires Shaped(cfg, p)
    ensures TrailRight(cfg, p, s, Slots(cfg)).x == 0.0 && TrailLeft(cfg, p, s, Slots(cfg)).x == 0.0
  {
  }

  /** A node with no boundary marked 1 draws its own `segments` quads, in
      order, and nothing else. */
  lemma {:induction false} LeafEmit(cfg: Config, nodes: set<TreeNode>, n: TreeNode, s: Stroke)
    requires WellFormed(cfg, nodes) && n in nodes
    requires forall k :: 0 <= k < |n.branching| ==> n.branching[k] != 1
    ensures Shaped(cfg, n.Parameters()) && |Emit(cfg, nodes, n, s)| == cfg.segments
    ensures forall k :: 0 <= k < cfg.segments ==> Emit(cfg, nodes, n, s)[k] == SegmentQuad(cfg, n.Parameters(), s, k)
  {
    assert Linked(cfg, nodes, n);
    var p := n.Parameters();
    var k := Slots(cfg);
    while k > 0
      invariant 0 <= k <= Slots(cfg)
      invariant EmitFrom(cfg, nodes, n, s, k) ==
        seq(cfg.segments - k, i requires 0 <= i < cfg.segments - k => SegmentQuad(cfg, p, s, k + i))
    {
      k := k - 1;
      var tail := EmitFrom(cfg, nodes, n, s, k + 1);
      assert EmitFrom(cfg, nodes, n, s, k) == [SegmentQuad(cfg, p, s, k)] + tail;
    }
  }
}
