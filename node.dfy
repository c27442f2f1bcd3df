/** One branch of the tree: its parameters, their defaults and their
    randomisation (TreeNode in the source). */
module Nodes {
  import opened Shape

  /** A branch is cut into at least one segment. */
  type SegmentCount = n: int | 1 <= n witness 1

  /** The global constants NUM_SEGMENTS and NUM_LEVELS, made explicit. */
  datatype Config = Config(segments: SegmentCount, levels: int)

  /** The configuration the source is built with. */
  const SourceConfig: Config := Config(30, 1)

  /** Number of interior segment boundaries: the length of `curvesV` and `branching`. */
  function Slots(cfg: Config): nat
  {
    cfg.segments - 1
  }

  /** The randomised fields of a node, in declaration order. */
  datatype Params = Params(
    baseFactor: real,
    attenuationFactor: real,
    downAngle: real,
    curve: real,
    curveBack: real,
    curvesV: seq<real>,
    branching: seq<int>)

  /** Both per-segment sequences have one entry per interior boundary. */
  predicate Shaped(cfg: Config, p: Params)
  {
    |p.curvesV| == Slots(cfg) && |p.branching| == Slots(cfg)
  }

  /** The values one call of TreeNode::generateRandom draws from `utils::uniform`,
      field by field; a field is read only where the source draws it. */
  datatype NodeDraws = NodeDraws(
    baseFactor: real,
    attenuation: real,
    downAngle: real,
    curve: real,
    curveBack: real,
    curvesV: int -> real,
    branching: int -> int)

  /** The parameters of a freshly constructed node: every scalar 0, and one
      zero curvature and one zero mark per interior boundary. */
  function FreshParams(cfg: Config): (p: Params)
    ensures Shaped(cfg, p)
    ensures p.baseFactor == 0.0 && p.attenuationFactor == 0.0
    ensures p.downAngle == 0.0 && p.curve == 0.0 && p.curveBack == 0.0
    ensures forall k :: 0 <= k < Slots(cfg) ==> p.curvesV[k] == 0.0 && p.branching[k] == 0
  {
    Params(0.0, 0.0, 0.0, 0.0, 0.0, seq(Slots(cfg), _ => 0.0), seq(Slots(cfg), _ => 0))
  }

  /** Whether boundary `k` lies in the branch-free root zone of a node whose
      base factor is `baseFactor`: none without a base factor, the whole
      branch with a base factor of 1 or more. */
  predicate InRootZone(cfg: Config, k: int, baseFactor: real)
    ensures 0 <= k && baseFactor <= 0.0 ==> !InRootZone(cfg, k, baseFactor)
    ensures k < cfg.segments && 1.0 <= baseFactor ==> InRootZone(cfg, k, baseFactor)
  {
    (k as real) < (cfg.segments as real) * baseFactor
  }

  /** Where a level-1 branch at boundary `index` sits along the crown, the
      argument of silhouette 7: `(segments - index) / (segments * (1 - baseFactor))`. */
  function CrownPosition(segments: int, index: int, baseFactor: real): real
    requires 1 <= segments && baseFactor != 1.0
  {
    ((segments - index) as real) / ((segments as real) * (1.0 - baseFactor))
  }

  /** The length and width scale TreeNode::generateRandom gives a node at
      `level` with sibling position `index`, from the draw `u`: exactly 1 for
      the trunk, the draw times silhouette 7 at level 1, and the draw times a
      linear falloff in `index` deeper down. */
  function Attenuation(segments: int, sine: real -> real, level: int, index: int, baseFactor: real, u: real): (a: real)
    requires 1 <= segments
    requires level == 1 ==> baseFactor != 1.0
    ensures level == 0 ==> a == 1.0
  {
    if level == 0 then 1.0
    else if level == 1 then
      u * ShapeRatio(7, CrownPosition(segments, index, baseFactor), sine)
    else u * ((segments as real) - (index as real) * 0.9) / (segments as real)
  }

  /** The parameters TreeNode::generateRandom leaves on a node at `level` with
      sibling position `index` whose parameters were `p`, using the draws `d`.
      A level-1 node divides by `1 - baseFactor`; the source never reaches a
      zero divisor because level-1 nodes keep the base factor 0. */
  function Randomize(cfg: Config, sine: real -> real, level: int, index: int, p: Params, d: NodeDraws): (r: Params)
    requires Shaped(cfg, p)
    requires level == 1 ==> p.baseFactor != 1.0
    ensures Shaped(cfg, r)
    ensures level == 0 ==> r.baseFactor == d.baseFactor && r.attenuationFactor == 1.0
    ensures level != 0 ==> r.baseFactor == p.baseFactor
    ensures level > 0 ==> r.downAngle == d.downAngle
    ensures level <= 0 ==> r.downAngle == p.downAngle
    ensures r.curve == d.curve && r.curveBack == d.curveBack
    ensures forall k :: 0 <= k < Slots(cfg) ==> r.curvesV[k] == d.curvesV(k)
    ensures level < cfg.levels - 1 ==>
      forall k :: 0 <= k < Slots(cfg) ==>
        r.branching[k] == if InRootZone(cfg, k, r.baseFactor) then 0 else d.branching(k)
    ensures level >= cfg.levels - 1 ==> r.branching == p.branching
  {
    var baseFactor := if level == 0 then d.baseFactor else p.baseFactor;
    var attenuation := Attenuation(cfg.segments, sine, level, index, baseFactor, d.attenuation);
    var downAngle := if level > 0 then d.downAngle else p.downAngle;
    var branching :=
      if level < cfg.levels - 1 then
        seq(Slots(cfg), k => if InRootZone(cfg, k, baseFactor) then 0 else d.branching(k))
      else p.branching;
    Params(baseFactor, attenuation, downAngle, d.curve, d.curveBack,
           seq(Slots(cfg), k => d.curvesV(k)), branching)
  }

  /** Root-zone rule: below the last level, no boundary inside the root zone branches. */
  lemma RootZoneBranchFree(cfg: Config, sine: real -> real, level: int, index: int, p: Params, d: NodeDraws, k: int)
    requires Shaped(cfg, p) && (level == 1 ==> p.baseFactor != 1.0)
    requires level < cfg.levels - 1
    requires 0 <= k < Slots(cfg) && InRootZone(cfg, k, Randomize(cfg, sine, level, index, p, d).baseFactor)
    ensures Randomize(cfg, sine, level, index, p, d).branching[k] == 0
  {
  }

  /** A node below the root keeps the base factor 0 of a fresh node, so none
      of its boundaries lies in the root zone: only the trunk has one. */
  lemma NoRootZoneBelowRoot(cfg: Config, sine: real -> real, level: int, index: int, d: NodeDraws, k: int)
    requires level != 0 && 0 <= k
    ensures !InRootZone(cfg, k, Randomize(cfg, sine, level, index, FreshParams(cfg), d).baseFactor)
  {
  }

  /** A node of the tree; `level`, `index` and `parent` are set by the
      constructor and never written again. */
  class TreeNode {
    var baseFactor: real
    var attenuationFactor: real
    var downAngle: real
    var curve: real
    var curveBack: real
    var curvesV: seq<real>
    var branching: seq<int>
    const level: int
    const index: int
    const parent: TreeNode?
    var children: seq<TreeNode>

    /** The node's randomised fields as one value. */
    function Parameters(): Params
      reads this`baseFactor, this`attenuationFactor, this`downAngle, this`curve,
            this`curveBack, this`curvesV, this`branching
    {
      Params(baseFactor, attenuationFactor, downAngle, curve, curveBack, curvesV, branching)
    }

    /** A fresh node: all parameters zero, one zero per interior boundary, no children. */
    constructor (cfg: Config, parent: TreeNode?, level: int, index: int)
      ensures this.parent == parent && this.level == level && this.index == index
      ensures Parameters() == FreshParams(cfg)
      ensures children == []
    {
      this.parent := parent;
      this.level := level;
      this.index := index;
      baseFactor := 0.0;
      attenuationFactor := 0.0;
      downAngle := 0.0;
      curve := 0.0;
      curveBack := 0.0;
      var zeros: seq<real> := [];
      var k := 0;
      while k < cfg.segments - 1
        invariant 0 <= k <= Slots(cfg)
        invariant zeros == seq(k, _ => 0.0)
      {
        zeros := zeros + [0.0];
        k := k + 1;
      }
      var none: seq<int> := [];
      k := 0;
      while k < cfg.segments - 1
        invariant 0 <= k <= Slots(cfg)
        invariant none == seq(k, _ => 0)
      {
        none := none + [0];
        k := k + 1;
      }
      curvesV := zeros;
      branching := none;
      children := [];
    }

    /** TreeNode::generateRandom: overwrites this node's own parameters in
      place from the draws `d`; it does not touch the children. */
    method GenerateRandom(cfg: Config, sine: real -> real, d: NodeDraws)
      requires Shaped(cfg, Parameters())
      requires level == 1 ==> baseFactor != 1.0
      modifies this
      ensures Parameters() == Randomize(cfg, sine, level, index, old(Parameters()), d)
      ensures children == old(children)
    {
      ghost var r := Randomize(cfg, sine, level, index, Parameters(), d);
      if level == 0 {
        baseFactor := d.baseFactor;
      }
      attenuationFactor := Attenuation(cfg.segments, sine, level, index, baseFactor, d.attenuation);
      if level > 0 {
        downAngle := d.downAngle;
      }
      curve := d.curve;
      curveBack := d.curveBack;
      var k := 0;
      while k < cfg.segments - 1
        modifies this`curvesV
        invariant 0 <= k <= Slots(cfg) && |curvesV| == Slots(cfg)
        invariant forall j :: 0 <= j < k ==> curvesV[j] == d.curvesV(j)
      {
        curvesV := curvesV[k := d.curvesV(k)];
        k := k + 1;
      }
      if level < cfg.levels - 1 {
        k := 0;
        while k < cfg.segments - 1
          modifies this`branching
          invariant 0 <= k <= Slots(cfg) && |branching| == Slots(cfg)
          invariant forall j :: 0 <= j < k ==>
            branching[j] == if InRootZone(cfg, j, baseFactor) then 0 else d.branching(j)
        {
          branching := branching[k := d.branching(k)];
          if InRootZone(cfg, k, baseFactor) {
            branching := branching[k := 0];
          }
          k := k + 1;
        }
      }
      assert baseFactor == r.baseFactor;
      assert downAngle == r.downAngle;
      assert curvesV == r.curvesV;
      assert branching == r.branching;
    }
  }
}
