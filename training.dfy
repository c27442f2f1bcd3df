/** What PMTree2D::generateLocalTrainingData records: for every branch the
    depth-first traversal reaches, the image warped at the branch's starting
    transform and the branch's raw parameter vector. Unlike the geometry walk,
    this walk never rotates by a branch's down angle. */
module Training {
  import opened Nodes
  import opened Hierarchy
  import opened Transforms
  import opened Geometry
  import opened Layout

  /** One recursive call: the node, the parameters it holds when it is
      visited, the transform the call starts from and its segment length. */
  datatype Visit = Visit(node: TreeNode, params: Params, frame: Transform, length: real)

  /** The calls made from node `n` started at `frame` with `length`, in call
      order: `n` itself, then for each interior boundary k marked 1 the calls of
      child k, started at the far end of segment k with the length scaled by the
      child's attenuation. The first call is the node's own, from the given
      transform and length; every later call is on a deeper node of the tree. */
  ghost function Visits(cfg: Config, nodes: set<TreeNode>, n: TreeNode, frame: Transform, length: real): (r: seq<Visit>)
    requires WellFormed(cfg, nodes) && n in nodes
    reads nodes
    ensures r != [] && r[0].node == n && r[0].frame == frame && r[0].length == length
    decreases cfg.levels - n.level, Slots(cfg) + 1
  {
    [Visit(n, n.Parameters(), frame, length)] + VisitsFrom(cfg, nodes, n, frame, length, 0)
  }

  ghost function VisitsFrom(cfg: Config, nodes: set<TreeNode>, n: TreeNode, frame: Transform, length: real, k: nat): (r: seq<Visit>)
    requires WellFormed(cfg, nodes) && n in nodes && k <= Slots(cfg)
    reads nodes
    decreases cfg.levels - n.level, Slots(cfg) - k
  {
    if k == Slots(cfg) then []
    else VisitsAt(cfg, nodes, n, frame, length, k) + VisitsFrom(cfg, nodes, n, frame, length, k + 1)
  }

  /** The calls made at boundary k of `n`: those of child k when `n` marks the
      boundary with 1, none otherwise. */
  ghost function VisitsAt(cfg: Config, nodes: set<TreeNode>, n: TreeNode, frame: Transform, length: real, k: nat): (r: seq<Visit>)
    requires WellFormed(cfg, nodes) && n in nodes && k < Slots(cfg)
    reads nodes
    decreases cfg.levels - n.level, Slots(cfg) - k - 1
  {
    assert Linked(cfg, nodes, n) && Covered(n);
    if n.branching[k] == 1 then
      var c := n.children[k];
      Visits(cfg, nodes, c, BranchStart(cfg, n.Parameters(), frame, length, k), Scaled(length, c.attenuationFactor))
    else []
  }

  /** The calls made at every interior boundary of `n`, boundary by boundary. */
  ghost function BranchVisits(cfg: Config, nodes: set<TreeNode>, n: TreeNode, frame: Transform, length: real): (b: seq<seq<Visit>>)
    requires WellFormed(cfg, nodes) && n in nodes
    reads nodes
    ensures |b| == Slots(cfg)
    ensures forall k :: 0 <= k < Slots(cfg) ==> b[k] == VisitsAt(cfg, nodes, n, frame, length, k)
  {
    seq(Slots(cfg), k requires 0 <= k < Slots(cfg) && WellFormed(cfg, nodes) && n in nodes reads nodes =>
      VisitsAt(cfg, nodes, n, frame, length, k))
  }

  /** The nodes of `v`, in order. */
  function NodesOf(v: seq<Visit>): (r: seq<TreeNode>)
    ensures |r| == |v| && forall i :: 0 <= i < |v| ==> r[i] == v[i].node
  {
    if v == [] then [] else [v[0].node] + NodesOf(v[1..])
  }

  lemma {:induction false} NodesOfAppend(a: seq<Visit>, b: seq<Visit>)
    ensures NodesOf(a + b) == NodesOf(a) + NodesOf(b)
  {
    var l, r := NodesOf(a + b), NodesOf(a) + NodesOf(b);
    assert |l| == |r|;
    forall i | 0 <= i < |l|
      ensures l[i] == r[i]
    {
      if i < |a| {
        assert (a + b)[i] == a[i];
      } else {
        assert (a + b)[i] == b[i - |a|];
      }
    }
  }

  /** The training walk visits exactly the branches the geometry walk draws,
      in the same depth-first order, whatever transform and length it starts
      with. */
  lemma {:induction false} VisitsFollowReached(cfg: Config, nodes: set<TreeNode>, n: TreeNode, frame: Transform, length: real)
    requires WellFormed(cfg, nodes) && n in nodes
    ensures NodesOf(Visits(cfg, nodes, n, frame, length)) == Reached(cfg, nodes, n)
    decreases cfg.levels - n.level, Slots(cfg) + 1
  {
    VisitsFromFollowReached(cfg, nodes, n, frame, length, 0);
    NodesOfAppend([Visit(n, n.Parameters(), frame, length)], VisitsFrom(cfg, nodes, n, frame, length, 0));
  }

  lemma {:induction false} VisitsFromFollowReached(cfg: Config, nodes: set<TreeNode>, n: TreeNode, frame: Transform, length: real, k: nat)
    requires WellFormed(cfg, nodes) && n in nodes && k <= Slots(cfg)
    ensures NodesOf(VisitsFrom(cfg, nodes, n, frame, length, k)) == ReachedFrom(cfg, nodes, n, k)
    decreases cfg.levels - n.level, Slots(cfg) - k
  {
    assert Linked(cfg, nodes, n) && Covered(n);
    if k < Slots(cfg) {
      VisitsFromFollowReached(cfg, nodes, n, frame, length, k + 1);
      var rest := VisitsFrom(cfg, nodes, n, frame, length, k + 1);
      if n.branching[k] == 1 {
        var c := n.children[k];
        var sub := Visits(cfg, nodes, c, BranchStart(cfg, n.Parameters(), frame, length, k), Scaled(length, c.attenuationFactor));
        VisitsFollowReached(cfg, nodes, c, BranchStart(cfg, n.Parameters(), frame, length, k), Scaled(length, c.attenuationFactor));
        assert VisitsFrom(cfg, nodes, n, frame, length, k) == sub + rest;
        assert ReachedFrom(cfg, nodes, n, k) == Reached(cfg, nodes, c) + ReachedFrom(cfg, nodes, n, k + 1);
        NodesOfAppend(sub, rest);
      } else {
        assert VisitsFrom(cfg, nodes, n, frame, length, k) == rest;
      }
    } else {
      assert NodesOf([]) == [];
    }
  }

  /** The images the walk records: one per call, warped at the call's transform. */
  function Images(v: seq<Visit>): (r: seq<LocalImage>)
    ensures |r| == |v| && forall i :: 0 <= i < |v| ==> r[i] == Warped(v[i].frame)
  {
    seq(|v|, i requires 0 <= i < |v| => Warped(v[i].frame))
  }

  /** The parameter vectors the walk records: one per call, the parameters the
      visited node held, as stored. */
  function Vectors(v: seq<Visit>): (r: seq<seq<real>>)
    ensures |r| == |v| && forall i :: 0 <= i < |v| ==> r[i] == Vector(v[i].params)
  {
    seq(|v|, i requires 0 <= i < |v| => Vector(v[i].params))
  }

  /** The walk records images and parameter vectors in lockstep, one pair per
      branch the geometry walk draws, and the drawing holds `segments`
      polygons for each such pair. */
  lemma TrainingMatchesDrawing(cfg: Config, nodes: set<TreeNode>, n: TreeNode, frame: Transform, length: real, s: Stroke)
    requires WellFormed(cfg, nodes) && n in nodes
    ensures |Images(Visits(cfg, nodes, n, frame, length))| == |Vectors(Visits(cfg, nodes, n, frame, length))|
      == |Reached(cfg, nodes, n)|
    ensures |Emit(cfg, nodes, n, s)| == cfg.segments * |Images(Visits(cfg, nodes, n, frame, length))|
  {
    VisitsFollowReached(cfg, nodes, n, frame, length);
    EmitCount(cfg, nodes, n, s);
  }

  /** What the calls at each boundary record, boundary by boundary. */
  function ImageParts(parts: seq<seq<Visit>>): (r: seq<seq<LocalImage>>)
    ensures |r| == |parts| && forall k :: 0 <= k < |parts| ==> r[k] == Images(parts[k])
  {
    seq(|parts|, k requires 0 <= k < |parts| => Images(parts[k]))
  }

  function VectorParts(parts: seq<seq<Visit>>): (r: seq<seq<seq<real>>>)
    ensures |r| == |parts| && forall k :: 0 <= k < |parts| ==> r[k] == Vectors(parts[k])
  {
    seq(|parts|, k requires 0 <= k < |parts| => Vectors(parts[k]))
  }

  /** `start` followed by the first k parts, in order: what a list holds after
      k turns of a loop that appends one part per turn. */
  function Gathered<T>(start: seq<T>, parts: seq<seq<T>>, k: nat): seq<T>
    requires k <= |parts|
  {
    if k == 0 then start else Gathered(start, parts, k - 1) + parts[k - 1]
  }

  lemma ImagesAppend(a: seq<Visit>, b: seq<Visit>)
    ensures Images(a + b) == Images(a) + Images(b)
  {
    assert forall i :: 0 <= i < |b| ==> (a + b)[|a| + i] == b[i];
  }

  lemma VectorsAppend(a: seq<Visit>, b: seq<Visit>)
    ensures Vectors(a + b) == Vectors(a) + Vectors(b)
  {
    assert forall i :: 0 <= i < |b| ==> (a + b)[|a| + i] == b[i];
  }

  /** Past boundary k, the walk makes the calls at k, then those past k + 1. */
  lemma VisitsFromSplit(cfg: Config, nodes: set<TreeNode>, n: TreeNode, frame: Transform, length: real, k: nat)
    requires WellFormed(cfg, nodes) && n in nodes && k < Slots(cfg)
    ensures VisitsFrom(cfg, nodes, n, frame, length, k) ==
      BranchVisits(cfg, nodes, n, frame, length)[k] + VisitsFrom(cfg, nodes, n, frame, length, k + 1)
  {
  }

  /** Appending part k and then the rest is gathering one more part first. */
  lemma GatheredStep<T>(start: seq<T>, parts: seq<seq<T>>, k: nat, rest: seq<T>)
    requires k < |parts|
    ensures Gathered(start, parts, k) + (parts[k] + rest) == Gathered(start, parts, k + 1) + rest
  {
  }

  /** Recording the image of the call of `n` and then, boundary by boundary,
      the images of the calls of its children yields the images of the whole
      walk from `n`. */
  lemma GatheredImages(cfg: Config, nodes: set<TreeNode>, n: TreeNode, frame: Transform, length: real,
                       images: seq<LocalImage>)
    requires WellFormed(cfg, nodes) && n in nodes
    ensures Gathered(images + [Warped(frame)], ImageParts(BranchVisits(cfg, nodes, n, frame, length)), Slots(cfg)) ==
      images + Images(Visits(cfg, nodes, n, frame, length))
  {
    var first, rest := [Visit(n, n.Parameters(), frame, length)], VisitsFrom(cfg, nodes, n, frame, length, 0);
    GatheredImagesFrom(cfg, nodes, n, frame, length, images + [Warped(frame)], 0);
    ImagesAppend(first, rest);
    assert Images(first) == [Warped(frame)];
    assert images + [Warped(frame)] + Images(rest) == images + ([Warped(frame)] + Images(rest));
  }

  /** What is gathered after boundary k, followed by the images of the calls
      past k, is everything gathered. */
  lemma {:induction false} GatheredImagesFrom(cfg: Config, nodes: set<TreeNode>, n: TreeNode, frame: Transform, length: real,
                                              start: seq<LocalImage>, k: nat)
    requires WellFormed(cfg, nodes) && n in nodes && k <= Slots(cfg)
    ensures Gathered(start, ImageParts(BranchVisits(cfg, nodes, n, frame, length)), k) +
      Images(VisitsFrom(cfg, nodes, n, frame, length, k)) ==
      Gathered(start, ImageParts(BranchVisits(cfg, nodes, n, frame, length)), Slots(cfg))
    decreases Slots(cfg) - k
  {
    var parts := ImageParts(BranchVisits(cfg, nodes, n, frame, length));
    if k < Slots(cfg) {
      GatheredImagesFrom(cfg, nodes, n, frame, length, start, k + 1);
      var rest := VisitsFrom(cfg, nodes, n, frame, length, k + 1);
      VisitsFromSplit(cfg, nodes, n, frame, length, k);
      ImagesAppend(BranchVisits(cfg, nodes, n, frame, length)[k], rest);
      GatheredStep(start, parts, k, Images(rest));
    } else {
      assert Images(VisitsFrom(cfg, nodes, n, frame, length, k)) == [];
    }
  }

  /** The same for the parameter vectors. */
  lemma GatheredVectors(cfg: Config, nodes: set<TreeNode>, n: TreeNode, frame: Transform, length: real,
                        vectors: seq<seq<real>>)
    requires WellFormed(cfg, nodes) && n in nodes
    ensures Gathered(vectors + [Vector(n.Parameters())], VectorParts(BranchVisits(cfg, nodes, n, frame, length)), Slots(cfg)) ==
      vectors + Vectors(Visits(cfg, nodes, n, frame, length))
  {
    var first, rest := [Visit(n, n.Parameters(), frame, length)], VisitsFrom(cfg, nodes, n, frame, length, 0);
    GatheredVectorsFrom(cfg, nodes, n, frame, length, vectors + [Vector(n.Parameters())], 0);
    VectorsAppend(first, rest);
    assert Vectors(first) == [Vector(n.Parameters())];
    assert vectors + [Vector(n.Parameters())] + Vectors(rest) == vectors + ([Vector(n.Parameters())] + Vectors(rest));
  }

  lemma {:induction false} GatheredVectorsFrom(cfg: Config, nodes: set<TreeNode>, n: TreeNode, frame: Transform, length: real,
                                               start: seq<seq<real>>, k: nat)
    requires WellFormed(cfg, nodes) && n in nodes && k <= Slots(cfg)
    ensures Gathered(start, VectorParts(BranchVisits(cfg, nodes, n, frame, length)), k) +
      Vectors(VisitsFrom(cfg, nodes, n, frame, length, k)) ==
      Gathered(start, VectorParts(BranchVisits(cfg, nodes, n, frame, length)), Slots(cfg))
    decreases Slots(cfg) - k
  {
    var parts := VectorParts(BranchVisits(cfg, nodes, n, frame, length));
    if k < Slots(cfg) {
      GatheredVectorsFrom(cfg, nodes, n, frame, length, start, k + 1);
      var rest := VisitsFrom(cfg, nodes, n, frame, length, k + 1);
      VisitsFromSplit(cfg, nodes, n, frame, length, k);
      VectorsAppend(BranchVisits(cfg, nodes, n, frame, length)[k], rest);
      GatheredStep(start, parts, k, Vectors(rest));
    } else {
      assert Vectors(VisitsFrom(cfg, nodes, n, frame, length, k)) == [];
    }
  }

  /** Every call records the parameters its node holds. */
  lemma {:induction false} VisitsHoldParameters(cfg: Config, nodes: set<TreeNode>, n: TreeNode, frame: Transform, length: real)
    requires WellFormed(cfg, nodes) && n in nodes
    ensures forall i :: 0 <= i < |Visits(cfg, nodes, n, frame, length)| ==>
      Visits(cfg, nodes, n, frame, length)[i].params == Visits(cfg, nodes, n, frame, length)[i].node.Parameters()
    decreases cfg.levels - n.level, Slots(cfg) + 1
  {
    VisitsFromHoldParameters(cfg, nodes, n, frame, length, 0);
  }

  lemma {:induction false} VisitsFromHoldParameters(cfg: Config, nodes: set<TreeNode>, n: TreeNode, frame: Transform, length: real, k: nat)
    requires WellFormed(cfg, nodes) && n in nodes && k <= Slots(cfg)
    ensures forall i :: 0 <= i < |VisitsFrom(cfg, nodes, n, frame, length, k)| ==>
      VisitsFrom(cfg, nodes, n, frame, length, k)[i].params == VisitsFrom(cfg, nodes, n, frame, length, k)[i].node.Parameters()
    decreases cfg.levels - n.level, Slots(cfg) - k
  {
    assert Linked(cfg, nodes, n) && Covered(n);
    if k < Slots(cfg) {
      VisitsFromHoldParameters(cfg, nodes, n, frame, length, k + 1);
      var sub: seq<Visit>, rest: seq<Visit> := VisitsAt(cfg, nodes, n, frame, length, k), VisitsFrom(cfg, nodes, n, frame, length, k + 1);
      if n.branching[k] == 1 {
        var c := n.children[k];
        VisitsHoldParameters(cfg, nodes, c, BranchStart(cfg, n.Parameters(), frame, length, k), Scaled(length, c.attenuationFactor));
        assert sub == Visits(cfg, nodes, c, BranchStart(cfg, n.Parameters(), frame, length, k), Scaled(length, c.attenuationFactor));
      } else {
        assert sub == [];
      }
      forall i | 0 <= i < |sub + rest|
        ensures (sub + rest)[i].params == (sub + rest)[i].node.Parameters()
      {
        if i < |sub| {
          assert (sub + rest)[i] == sub[i];
        } else {
          assert (sub + rest)[i] == rest[i - |sub|];
        }
      }
    }
  }

  /** Every recorded vector has the layout of a serialised node: `Stride`
      entries, each the serialised field at that position before normalisation. */
  lemma VectorsMatchFields(cfg: Config, nodes: set<TreeNode>, n: TreeNode, frame: Transform, length: real, i: int)
    requires WellFormed(cfg, nodes) && n in nodes
    requires 0 <= i < |Visits(cfg, nodes, n, frame, length)|
    ensures |Vectors(Visits(cfg, nodes, n, frame, length))[i]| == Stride(cfg)
    ensures forall j :: 0 <= j < Stride(cfg) ==>
      Fields(Visits(cfg, nodes, n, frame, length)[i].params)[j] ==
      NormalizeAt(cfg, j, Vectors(Visits(cfg, nodes, n, frame, length))[i][j])
  {
    var v := Visits(cfg, nodes, n, frame, length);
    VisitsFollowReached(cfg, nodes, n, frame, length);
    VisitsHoldParameters(cfg, nodes, n, frame, length);
    ReachedInSubtree(cfg, nodes, n);
    assert v[i].node == Reached(cfg, nodes, n)[i];
    assert Linked(cfg, nodes, v[i].node);
    FieldsNormalizeVector(cfg, v[i].params);
  }
}
