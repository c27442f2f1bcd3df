/** The fixed per-node field layout shared by the serialised stream and the
    training parameter vectors: five scalars, then `curvesV`, then `branching`. */
module Layout {
  import opened Nodes

  /** Fields per node: `5 + 2 * (segments - 1)`. */
  function Stride(cfg: Config): nat
  {
    5 + 2 * Slots(cfg)
  }

  /** The branching marks as numbers, unchanged. */
  function Marks(branching: seq<int>): (r: seq<real>)
    ensures |r| == |branching|
    ensures forall i :: 0 <= i < |r| ==> r[i].Floor == branching[i]
  {
    seq(|branching|, i requires 0 <= i < |branching| => branching[i] as real)
  }

  /** The parameter vector generateLocalTrainingData records for a node: every
      field as it is stored, angles in degrees, so each mark reads back
      exactly. */
  function Vector(p: Params): (r: seq<real>)
    ensures |r| == 5 + |p.curvesV| + |p.branching|
  {
    [p.baseFactor, p.attenuationFactor, p.downAngle, p.curve, p.curveBack] + p.curvesV + Marks(p.branching)
  }

  /** The angle normalisation `(x + 90) / 180`, mapping [-90, 90] onto [0, 1]. */
  function NormalizeAngle(x: real): (r: real)
    ensures -90.0 <= x <= 90.0 <==> 0.0 <= r <= 1.0
  {
    (x + 90.0) / 180.0
  }

  /** The curvature normalisation `(x + 5) / 10`, mapping [-5, 5] onto [0, 1]. */
  function NormalizeCurvature(x: real): (r: real)
    ensures -5.0 <= x <= 5.0 <==> 0.0 <= r <= 1.0
  {
    (x + 5.0) / 10.0
  }

  /** The fields PMTree2D::to_string writes for a node, in order: base factor,
      attenuation, the three normalised angles, the normalised `curvesV`, and the
      branching marks as they are. The three angles land in [0, 1] exactly
      when they lie in [-90, 90], each curvature exactly when it lies in
      [-5, 5], and each mark reads back exactly. */
  function Fields(p: Params): (r: seq<real>)
    ensures |r| == 5 + |p.curvesV| + |p.branching|
    ensures 0.0 <= r[2] <= 1.0 <==> -90.0 <= p.downAngle <= 90.0
    ensures 0.0 <= r[3] <= 1.0 <==> -90.0 <= p.curve <= 90.0
    ensures 0.0 <= r[4] <= 1.0 <==> -90.0 <= p.curveBack <= 90.0
    ensures forall i :: 0 <= i < |p.curvesV| ==> (0.0 <= r[5 + i] <= 1.0 <==> -5.0 <= p.curvesV[i] <= 5.0)
  {
    [p.baseFactor, p.attenuationFactor,
     NormalizeAngle(p.downAngle), NormalizeAngle(p.curve), NormalizeAngle(p.curveBack)]
    + seq(|p.curvesV|, i requires 0 <= i < |p.curvesV| => NormalizeCurvature(p.curvesV[i]))
    + Marks(p.branching)
  }

  /** How field `i` of a node is normalised in the serialised stream. */
  function NormalizeAt(cfg: Config, i: int, x: real): real
  {
    if 2 <= i < 5 then NormalizeAngle(x)
    else if 5 <= i < 5 + Slots(cfg) then NormalizeCurvature(x)
    else x
  }

  /** Serialised fields and training vectors have the same length and layout:
      each serialised field is the training entry at the same position,
      normalised by its position. */
  lemma FieldsNormalizeVector(cfg: Config, p: Params)
    requires Shaped(cfg, p)
    ensures |Vector(p)| == Stride(cfg) && |Fields(p)| == Stride(cfg)
    ensures forall i :: 0 <= i < Stride(cfg) ==> Fields(p)[i] == NormalizeAt(cfg, i, Vector(p)[i])
  {
    var v, f := Vector(p), Fields(p);
    forall i | 0 <= i < Stride(cfg)
      ensures f[i] == NormalizeAt(cfg, i, v[i])
    {
      if i >= 5 + Slots(cfg) {
        assert f[i] == Marks(p.branching)[i - 5 - Slots(cfg)];
        assert v[i] == Marks(p.branching)[i - 5 - Slots(cfg)];
      } else if i >= 5 {
        assert v[i] == p.curvesV[i - 5];
      }
    }
  }

  /** Reads one node's parameters back from its `Stride` serialised fields,
      undoing each normalisation. */
  function Decode(cfg: Config, f: seq<real>): (p: Params)
    requires |f| == Stride(cfg)
    ensures Shaped(cfg, p)
  {
    var n := Slots(cfg);
    Params(f[0], f[1], f[2] * 180.0 - 90.0, f[3] * 180.0 - 90.0, f[4] * 180.0 - 90.0,
           seq(n, i requires 0 <= i < n => f[5 + i] * 10.0 - 5.0),
           seq(n, i requires 0 <= i < n => f[5 + n + i].Floor))
  }

  /** Decoding a node's serialised fields gives back its parameters exactly. */
  lemma DecodeFields(cfg: Config, p: Params)
    requires Shaped(cfg, p)
    ensures |Fields(p)| == Stride(cfg) && Decode(cfg, Fields(p)) == p
  {
    var f, n := Fields(p), Slots(cfg);
    var d := Decode(cfg, f);
    forall i | 0 <= i < n
      ensures d.curvesV[i] == p.curvesV[i] && d.branching[i] == p.branching[i]
    {
      assert f[5 + i] == NormalizeCurvature(p.curvesV[i]);
      assert f[5 + n + i] == Marks(p.branching)[i];
    }
  }
}
