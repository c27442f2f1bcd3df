/** The tree (PMTree2D in the source): a root node and the breadth-first build,
    the two depth-first traversals and the breadth-first serialisation over it. */
module Trees {
  import opened Nodes
  import opened Hierarchy
  import opened Transforms
  import opened Geometry
  import opened Layout
  import opened Training
  import opened Serial

  /** A node and the stroke a traversal draws it with. */
  datatype Walk = Walk(node: TreeNode, stroke: Stroke)

  /** A node and the transform and segment length the training walk visits it
      with. */
  datatype Descent = Descent(node: TreeNode, frame: Transform, length: real)

  /** The queue of PMTree2D::to_string and the fields written so far. */
  datatype Writing = Writing(queue: seq<TreeNode>, fields: seq<real>)

  /** The segment length and width the root branch is drawn with. */
  const RootLength: real := 0.3
  const RootWidth: real := 0.3

  /** Child `k` of `parent`, if there is one. */
  ghost function ChildAt(parent: TreeNode, k: int): set<TreeNode>
    reads parent`children
  {
    if 0 <= k < |parent.children| then {parent.children[k]} else {}
  }

  /** Whether child `k` of `parent` holds the parameters the breadth-first
      build gives it: randomised from one of the draws when `parent` marks
      boundary `k` with 1, the fresh defaults otherwise. */
  ghost predicate Drawn(cfg: Config, sine: real -> real, draws: nat -> NodeDraws, parent: TreeNode, k: int)
    reads parent`children, parent`branching
    reads ChildAt(parent, k)`baseFactor, ChildAt(parent, k)`attenuationFactor, ChildAt(parent, k)`downAngle
    reads ChildAt(parent, k)`curve, ChildAt(parent, k)`curveBack, ChildAt(parent, k)`curvesV
    reads ChildAt(parent, k)`branching
  {
    0 <= k < |parent.children| && k < |parent.branching| &&
    var c := parent.children[k];
    if parent.branching[k] == 1 then
      exists i: nat :: c.Parameters() == Randomize(cfg, sine, c.level, c.index, FreshParams(cfg), draws(i))
    else c.Parameters() == FreshParams(cfg)
  }

  /** Child `j` of `node` as the build leaves it when it creates it: linked
      back to `node` at index `j`, one level deeper, without children yet, and
      with parameters drawn as `Drawn` says. */
  ghost predicate Spawned(cfg: Config, sine: real -> real, draws: nat -> NodeDraws, node: TreeNode, j: int)
    reads node, if 0 <= j < |node.children| then {node.children[j]} else {}
  {
    0 <= j < |node.children| &&
    var c := node.children[j];
    c.parent == node && c.level == node.level + 1 && c.index == j && c.children == [] &&
    Drawn(cfg, sine, draws, node, j)
  }

  /** The inner loop of PMTree2D::generateRandom: `node` gets one fresh child
      per interior boundary, in boundary order; child k is randomised with the
      next unused draw exactly when `node` marks boundary k with 1. Returns the
      index of the next unused draw. */
  method Expand(cfg: Config, sine: real -> real, draws: nat -> NodeDraws, node: TreeNode, next: nat) returns (after: nat)
    requires node.children == [] && |node.branching| == Slots(cfg)
    modifies node`children
    ensures |node.children| == Slots(cfg)
    ensures forall j :: 0 <= j < Slots(cfg) ==> fresh(node.children[j]) && Spawned(cfg, sine, draws, node, j)
    ensures forall i, j :: 0 <= i < j < Slots(cfg) ==> node.children[i] != node.children[j]
    ensures after >= next
  {
    after := next;
    var k := 0;
    while k < |node.branching|
      invariant 0 <= k <= Slots(cfg) && |node.children| == k && after >= next
      invariant forall j :: 0 <= j < k ==> fresh(node.children[j]) && Spawned(cfg, sine, draws, node, j)
      invariant forall i, j :: 0 <= i < j < k ==> node.children[i] != node.children[j]
    {
      var child := new TreeNode(cfg, node, node.level + 1, k);
      if node.branching[k] == 1 {
        child.GenerateRandom(cfg, sine, draws(after));
        after := after + 1;
      }
      node.children := node.children + [child];
      k := k + 1;
    }
  }

  /** Two duplicate-free sequences whose elements lie inside and outside a set
      concatenate to a duplicate-free sequence. */
  lemma DistinctAppend(a: seq<TreeNode>, b: seq<TreeNode>, inside: set<TreeNode>)
    requires forall i, j :: 0 <= i < j < |a| ==> a[i] != a[j]
    requires forall i, j :: 0 <= i < j < |b| ==> b[i] != b[j]
    requires forall i :: 0 <= i < |a| ==> a[i] in inside
    requires forall j :: 0 <= j < |b| ==> b[j] !in inside
    ensures forall i, j :: 0 <= i < j < |a + b| ==> (a + b)[i] != (a + b)[j]
  {
    forall i, j | 0 <= i < j < |a + b|
      ensures (a + b)[i] != (a + b)[j]
    {
      if j < |a| {
      } else if i < |a| {
        assert (a + b)[i] in inside && (a + b)[j] !in inside;
      } else {
        assert (a + b)[i] == b[i - |a|] && (a + b)[j] == b[j - |a|];
      }
    }
  }

  /** The children of `node`, as a set. */
  ghost function Kids(node: TreeNode): set<TreeNode>
    reads node`children
  {
    set j | 0 <= j < |node.children| :: node.children[j]
  }

  /** A node just expanded by `Expand` is linked to its new children, and each
      child is linked (it has no children of its own yet), without marks on the
      last level, and drawn as `Drawn` says. */
  lemma KidsJoin(cfg: Config, sine: real -> real, draws: nat -> NodeDraws, node: TreeNode, nodes: set<TreeNode>)
    requires forall j :: 0 <= j < |node.children| ==> Spawned(cfg, sine, draws, node, j)
    requires |node.children| == Slots(cfg) && |node.curvesV| == Slots(cfg) && |node.branching| == Slots(cfg)
    requires 0 <= node.level < cfg.levels - 1
    requires Kids(node) <= nodes
    ensures Linked(cfg, nodes, node) && Expanded(cfg, node) && Covered(node)
    ensures forall k :: 0 <= k < |node.children| ==> Drawn(cfg, sine, draws, node, k)
    ensures forall j :: 0 <= j < |node.children| ==>
      Linked(cfg, nodes, node.children[j]) && node.children[j].children == [] &&
      (node.children[j].level >= cfg.levels - 1 ==>
         forall k :: 0 <= k < |node.children[j].branching| ==> node.children[j].branching[k] == 0)
  {
    forall j | 0 <= j < |node.children|
      ensures node.children[j] in nodes && Drawn(cfg, sine, draws, node, j)
      ensures node.children[j].parent == node && node.children[j].level == node.level + 1
      ensures node.children[j].index == j
      ensures Linked(cfg, nodes, node.children[j]) && node.children[j].children == []
      ensures node.children[j].level >= cfg.levels - 1 ==>
        forall k :: 0 <= k < |node.children[j].branching| ==> node.children[j].branching[k] == 0
    {
      assert Spawned(cfg, sine, draws, node, j);
      assert node.children[j] in Kids(node);
    }
  }

  /** One step of the breadth-first build: the tree `before` the step and the
      queue whose head the step expands. The lemmas below relate the heap
      before the step (`old`) to the heap after it. */
  datatype Growth = Growth(cfg: Config, sine: real -> real, draws: nat -> NodeDraws,
                           root: TreeNode, before: set<TreeNode>, queue: seq<TreeNode>)

  /** The tree after the step: the old nodes and the head's new children. */
  ghost function After(g: Growth): set<TreeNode>
    reads if g.queue != [] then {g.queue[0]} else {}
  {
    if g.queue == [] then g.before else g.before + Kids(g.queue[0])
  }

  /** What a step does to the heap: only the head of the queue changes, and
      only its children, which it gets fresh from `Expand`. */
  twostate predicate Grew(g: Growth)
    reads g.before
  {
    g.queue != [] && g.queue[0] in g.before && unchanged(g.before - {g.queue[0]}) &&
    g.queue[0].Parameters() == old(g.queue[0].Parameters()) && old(g.queue[0].children) == [] &&
    (forall c | c in Kids(g.queue[0]) :: c !in g.before)
  }

  /** Every node of the grown tree is linked, and no last-level node has
      marks: the old nodes other than the expanded one are untouched, and the
      expanded node and its children are as `KidsJoin` leaves them. */
  twostate lemma KeptLinks(g: Growth)
    requires Grew(g)
    requires old(forall n | n in g.before :: Linked(g.cfg, g.before, n))
    requires old(forall n | n in g.before && n.level >= g.cfg.levels - 1 ::
      forall k :: 0 <= k < |n.branching| ==> n.branching[k] == 0)
    requires Linked(g.cfg, After(g), g.queue[0])
    requires forall j :: 0 <= j < |g.queue[0].children| ==>
      Linked(g.cfg, After(g), g.queue[0].children[j]) &&
      (g.queue[0].children[j].level >= g.cfg.levels - 1 ==>
         forall k :: 0 <= k < |g.queue[0].children[j].branching| ==> g.queue[0].children[j].branching[k] == 0)
    ensures forall n | n in After(g) :: Linked(g.cfg, After(g), n)
    ensures forall n | n in After(g) && n.level >= g.cfg.levels - 1 ::
      forall k :: 0 <= k < |n.branching| ==> n.branching[k] == 0
  {
    var node := g.queue[0];
    forall n | n in g.before && n != node
      ensures Linked(g.cfg, After(g), n)
    {
      assert old(Linked(g.cfg, g.before, n));
      assert n.children == old(n.children) && n.curvesV == old(n.curvesV) && n.branching == old(n.branching);
    }
    forall n | n in g.before && n.level >= g.cfg.levels - 1
      ensures forall k :: 0 <= k < |n.branching| ==> n.branching[k] == 0
    {
      assert n.branching == old(n.branching);
    }
  }

  /** Every child in the grown tree is drawn: the children of old nodes keep
      their parameters, the expanded node's children were drawn by `Expand`,
      and those have no children yet. */
  twostate lemma KeptDrawn(g: Growth)
    requires Grew(g)
    requires old(forall n | n in g.before :: Linked(g.cfg, g.before, n))
    requires old(forall n, k | n in g.before && 0 <= k < |n.children| :: Drawn(g.cfg, g.sine, g.draws, n, k))
    requires forall k :: 0 <= k < |g.queue[0].children| ==> Drawn(g.cfg, g.sine, g.draws, g.queue[0], k)
    requires forall j :: 0 <= j < |g.queue[0].children| ==> g.queue[0].children[j].children == []
    ensures forall n, k | n in After(g) && 0 <= k < |n.children| :: Drawn(g.cfg, g.sine, g.draws, n, k)
  {
    forall n, k | n in After(g) && 0 <= k < |n.children|
      ensures Drawn(g.cfg, g.sine, g.draws, n, k)
    {
      if n in g.before && n != g.queue[0] {
        assert n.children == old(n.children) && n.branching == old(n.branching);
        assert old(Linked(g.cfg, g.before, n) && Drawn(g.cfg, g.sine, g.draws, n, k));
        var c := n.children[k];
        if c != g.queue[0] {
          assert c.baseFactor == old(c.baseFactor) && c.attenuationFactor == old(c.attenuationFactor);
          assert c.downAngle == old(c.downAngle) && c.curve == old(c.curve) && c.curveBack == old(c.curveBack);
          assert c.curvesV == old(c.curvesV) && c.branching == old(c.branching);
        }
        assert c.Parameters() == old(c.Parameters());
      }
    }
  }

  /** Hanging fresh children under a node that had none keeps the tree rooted. */
  twostate lemma KeptRooted(g: Growth)
    requires Grew(g) && old(Rooted(g.root, g.before)) && Linked(g.cfg, After(g), g.queue[0])
    ensures Rooted(g.root, After(g))
  {
    var node := g.queue[0];
    forall n | n in After(g) && n != g.root
      ensures n.parent != null && n.parent in After(g) &&
        0 <= n.index < |n.parent.children| && n.parent.children[n.index] == n
    {
      if n in g.before {
        assert old(n.parent != null && n.parent in g.before &&
          0 <= n.index < |n.parent.children| && n.parent.children[n.index] == n);
        assert n.parent != node;
        assert n.parent.children == old(n.parent.children);
      } else {
        var j :| 0 <= j < |node.children| && node.children[j] == n;
      }
    }
  }

  /** The queue after a step: the rest of the old queue, then the new children,
      all in the tree, childless and each once. */
  twostate lemma QueueGrows(g: Growth)
    requires Grew(g)
    requires old(forall i :: 0 <= i < |g.queue| ==> g.queue[i] in g.before && g.queue[i].children == [])
    requires forall i, j :: 0 <= i < j < |g.queue| ==> g.queue[i] != g.queue[j]
    requires forall i, j :: 0 <= i < j < |g.queue[0].children| ==> g.queue[0].children[i] != g.queue[0].children[j]
    requires forall j :: 0 <= j < |g.queue[0].children| ==> g.queue[0].children[j].children == []
    ensures forall i :: 0 <= i < |g.queue[1..] + g.queue[0].children| ==>
      (g.queue[1..] + g.queue[0].children)[i] in After(g) && (g.queue[1..] + g.queue[0].children)[i].children == []
    ensures forall i, j :: 0 <= i < j < |g.queue[1..] + g.queue[0].children| ==>
      (g.queue[1..] + g.queue[0].children)[i] != (g.queue[1..] + g.queue[0].children)[j]
  {
    var node, rest := g.queue[0], g.queue[1..];
    var q := rest + node.children;
    forall j | 0 <= j < |node.children|
      ensures node.children[j] in Kids(node)
    {
    }
    forall i | 0 <= i < |q|
      ensures q[i] in After(g) && q[i].children == []
    {
      if i < |rest| {
        assert q[i] == g.queue[i + 1] && g.queue[i + 1] != node;
        assert old(g.queue[i + 1].children) == [];
      } else {
        assert q[i] == node.children[i - |rest|];
      }
    }
    DistinctAppend(rest, node.children, g.before);
  }

  /** Every node off the queue after a step is expanded: the old ones were,
      and the node just taken off the queue has been. */
  twostate lemma KeptExpanded(g: Growth)
    requires Grew(g)
    requires old(forall n | n in g.before && n !in g.queue :: Expanded(g.cfg, n) && Covered(n))
    requires Expanded(g.cfg, g.queue[0]) && Covered(g.queue[0])
    ensures forall n | n in After(g) && n !in g.queue[1..] + g.queue[0].children :: Expanded(g.cfg, n) && Covered(n)
  {
    var node := g.queue[0];
    var q := g.queue[1..] + node.children;
    forall n | n in After(g) && n !in q
      ensures Expanded(g.cfg, n) && Covered(n)
    {
      if n != node {
        assert n.branching == old(n.branching) && n.children == old(n.children);
      }
    }
  }

  /** The state of PMTree2D::generateRandom between two steps of its queue
      loop: the nodes built so far are rooted and linked, hold the parameters
      the build gives them, and are either waiting in `queue` (each once,
      still without children) or already expanded. */
  ghost predicate Built(cfg: Config, sine: real -> real, draws: nat -> NodeDraws,
                        root: TreeNode, nodes: set<TreeNode>, queue: seq<TreeNode>)
    reads nodes
  {
    Rooted(root, nodes) &&
    root.Parameters() == Randomize(cfg, sine, 0, 0, FreshParams(cfg), draws(0)) &&
    (forall n | n in nodes :: Linked(cfg, nodes, n)) &&
    (forall n, k | n in nodes && 0 <= k < |n.children| :: Drawn(cfg, sine, draws, n, k)) &&
    (forall n | n in nodes && n.level >= cfg.levels - 1 ::
       forall k :: 0 <= k < |n.branching| ==> n.branching[k] == 0) &&
    (forall i :: 0 <= i < |queue| ==> queue[i] in nodes && queue[i].children == []) &&
    (forall i, j :: 0 <= i < j < |queue| ==> queue[i] != queue[j]) &&
    (forall n | n in nodes && n !in queue :: Expanded(cfg, n) && Covered(n))
  }

  /** A lone root randomised with the first draw, queued on its own, starts
      the build. */
  lemma BuiltStart(cfg: Config, sine: real -> real, draws: nat -> NodeDraws, r: TreeNode)
    requires r.parent == null && r.level == 0 && r.index == 0 && r.children == []
    requires r.Parameters() == Randomize(cfg, sine, 0, 0, FreshParams(cfg), draws(0))
    ensures Built(cfg, sine, draws, r, {r}, [r])
  {
  }

  /** Once the queue is empty the build is over: the tree is rooted, linked
      and complete. */
  lemma BuiltDone(cfg: Config, sine: real -> real, draws: nat -> NodeDraws, root: TreeNode, nodes: set<TreeNode>)
    requires Built(cfg, sine, draws, root, nodes, [])
    ensures Rooted(root, nodes) && WellFormed(cfg, nodes) && Complete(cfg, nodes)
    ensures root.Parameters() == Randomize(cfg, sine, 0, 0, FreshParams(cfg), draws(0))
    ensures forall n, k | n in nodes && 0 <= k < |n.children| :: Drawn(cfg, sine, draws, n, k)
  {
  }

  /** Expanding the head of the queue below the last level, as `Expand` does,
      keeps the build state: the grown tree with the rest of the queue
      followed by the head's children is built as `Built` says. */
  twostate lemma StepBuilt(g: Growth)
    requires Grew(g) && old(Built(g.cfg, g.sine, g.draws, g.root, g.before, g.queue))
    requires g.queue[0].level < g.cfg.levels - 1 && |g.queue[0].children| == Slots(g.cfg)
    requires forall j :: 0 <= j < Slots(g.cfg) ==> Spawned(g.cfg, g.sine, g.draws, g.queue[0], j)
    requires forall i, j :: 0 <= i < j < Slots(g.cfg) ==> g.queue[0].children[i] != g.queue[0].children[j]
    ensures Built(g.cfg, g.sine, g.draws, g.root, After(g), g.queue[1..] + g.queue[0].children)
    ensures Pending(g.cfg, g.queue[1..] + g.queue[0].children) < Pending(g.cfg, g.queue)
  {
    var node := g.queue[0];
    assert old(Linked(g.cfg, g.before, node));
    KidsJoin(g.cfg, g.sine, g.draws, node, After(g));
    KeptLinks(g);
    KeptDrawn(g);
    KeptRooted(g);
    QueueGrows(g);
    KeptExpanded(g);
    assert g.root.Parameters() == old(g.root.Parameters());
    PendingStep(g.cfg, After(g), g.queue);
  }

  /** The parameter vector generateLocalTrainingData stores for `node`: the
      five scalars, then `curvesV`, then the branching marks as numbers. */
  method ParameterVector(node: TreeNode) returns (params: seq<real>)
    ensures params == Vector(node.Parameters())
  {
    params := [node.baseFactor, node.attenuationFactor, node.downAngle, node.curve, node.curveBack];
    var k := 0;
    while k < |node.curvesV|
      invariant 0 <= k <= |node.curvesV|
      invariant params == [node.baseFactor, node.attenuationFactor, node.downAngle, node.curve, node.curveBack] + node.curvesV[..k]
    {
      params := params + [node.curvesV[k]];
      k := k + 1;
    }
    k := 0;
    while k < |node.branching|
      invariant 0 <= k <= |node.branching|
      invariant params == [node.baseFactor, node.attenuationFactor, node.downAngle, node.curve, node.curveBack] +
        node.curvesV + Marks(node.branching[..k])
    {
      params := params + [node.branching[k] as real];
      k := k + 1;
    }
    assert node.branching[..k] == node.branching;
  }

  /** One turn of the queue loop of PMTree2D::to_string: the head of the
      queue is taken off, its fields are written (the two factors, the three
      angles mapped by `(x + 90) / 180`, every `curvesV` entry mapped by
      `(x + 5) / 10`, then the branching marks) and all of its children join the
      back of the queue. */
  method WriteStep(queue: seq<TreeNode>, fields: seq<real>) returns (queue': seq<TreeNode>, fields': seq<real>)
    requires queue != []
    ensures queue' == queue[1..] + queue[0].children
    ensures fields' == fields + Fields(queue[0].Parameters())
  {
    var node := queue[0];
    queue' := queue[1..];
    fields' := fields + [node.baseFactor, node.attenuationFactor, (node.downAngle + 90.0) / 180.0,
                         (node.curve + 90.0) / 180.0, (node.curveBack + 90.0) / 180.0];
    ghost var head := fields';
    var i := 0;
    while i < |node.curvesV|
      invariant 0 <= i <= |node.curvesV|
      invariant fields' == head + seq(i, j requires 0 <= j < i && i <= |node.curvesV| reads node => NormalizeCurvature(node.curvesV[j]))
    {
      fields' := fields' + [(node.curvesV[i] + 5.0) / 10.0];
      i := i + 1;
    }
    ghost var scaled := fields';
    i := 0;
    while i < |node.branching|
      invariant 0 <= i <= |node.branching|
      invariant fields' == scaled + Marks(node.branching[..i])
    {
      fields' := fields' + [node.branching[i] as real];
      i := i + 1;
    }
    assert node.branching[..i] == node.branching;
    ghost var waiting := queue';
    i := 0;
    while i < |node.children|
      invariant 0 <= i <= |node.children|
      invariant queue' == waiting + node.children[..i]
    {
      queue' := queue' + [node.children[i]];
      i := i + 1;
    }
    assert node.children[..i] == node.children;
  }

  /** With the configuration the source is built with (30 segments, one
      level) a complete tree is its root alone: generateGeometry draws exactly
      the root's 30 segment polygons and to_string writes 63 fields. */
  lemma SourceTree(root: TreeNode, nodes: set<TreeNode>, s: Stroke)
    requires WellFormed(SourceConfig, nodes) && Complete(SourceConfig, nodes) && Rooted(root, nodes)
    ensures nodes == {root}
    ensures |Emit(SourceConfig, nodes, root, s)| == 30
    ensures |Stream(ParamsOf(LevelOrder(SourceConfig, nodes, [root])))| == 63
  {
    RootAlone(SourceConfig, root, nodes);
    assert Expanded(SourceConfig, root);
    LeafEmit(SourceConfig, nodes, root, s);
    StreamSize(SourceConfig, nodes, root);
  }

  class PMTree2D {
    const cfg: Config
    var root: TreeNode
    ghost var Repr: set<TreeNode>

    /** `Repr` is the rooted tree hanging from `root`, linked so that both
        traversals can walk it. */
    ghost predicate Valid()
      reads this, Repr
    {
      Rooted(root, Repr) && WellFormed(cfg, Repr)
    }

    /** A tree holding a single fresh root. */
    constructor (cfg: Config)
      ensures Valid() && this.cfg == cfg && Repr == {root}
      ensures root.Parameters() == FreshParams(cfg) && root.children == []
    {
      this.cfg := cfg;
      root := new TreeNode(cfg, null, 0, 0);
      Repr := {root};
    }

    /** The state of PMTree2D::generateRandom between two steps of its queue
        loop, as `Built` states it for this tree. */
    ghost predicate Building(sine: real -> real, draws: nat -> NodeDraws, queue: seq<TreeNode>)
      reads this, Repr
    {
      Built(cfg, sine, draws, root, Repr, queue)
    }

    /** PMTree2D::generateRandom: a new root is randomised with `draws(0)`,
        then every node taken from a first-in first-out queue gets, below the
        last level, one fresh child per interior boundary; a child whose boundary
        is marked 1 is randomised with the next draw. The old tree is dropped. */
    method GenerateRandom(sine: real -> real, draws: nat -> NodeDraws)
      modifies this
      ensures Valid() && Complete(cfg, Repr) && fresh(Repr)
      ensures root.Parameters() == Randomize(cfg, sine, 0, 0, FreshParams(cfg), draws(0))
      ensures forall n, k | n in Repr && 0 <= k < |n.children| :: Drawn(cfg, sine, draws, n, k)
    {
      var r := new TreeNode(cfg, null, 0, 0);
      r.GenerateRandom(cfg, sine, draws(0));
      var next: nat := 1;
      root := r;
      Repr := {r};
      var queue := [r];
      BuiltStart(cfg, sine, draws, r);
      label Seeded:
      Grow(sine, draws, queue, next);
      assert fresh@Seeded(Repr - {r});
      BuiltDone(cfg, sine, draws, root, Repr);
    }

    /** The queue loop of PMTree2D::generateRandom: takes nodes off the queue
        one `Step` at a time until it is empty. Every node it adds is new. */
    method Grow(sine: real -> real, draws: nat -> NodeDraws, queue: seq<TreeNode>, next: nat)
      requires Building(sine, draws, queue)
      modifies this`Repr, Repr
      ensures Building(sine, draws, [])
      ensures old(Repr) <= Repr && fresh(Repr - old(Repr))
    {
      var q, n := queue, next;
      while q != []
        invariant old(Repr) <= Repr && fresh(Repr - old(Repr))
        invariant Building(sine, draws, q)
        decreases Pending(cfg, q)
      {
        q, n := Step(sine, draws, q, n);
      }
    }

    /** One turn of the queue loop of PMTree2D::generateRandom: the head of
        the queue is taken off and, below the last level, expanded; its
        children join the back of the queue. */
    method Step(sine: real -> real, draws: nat -> NodeDraws, queue: seq<TreeNode>, next: nat)
      returns (queue': seq<TreeNode>, next': nat)
      requires Building(sine, draws, queue) && queue != []
      modifies this`Repr, queue[0]
      ensures Building(sine, draws, queue')
      ensures queue' == queue[1..] + queue[0].children
      ensures Pending(cfg, queue') < Pending(cfg, queue)
      ensures old(Repr) <= Repr && fresh(Repr - old(Repr))
    {
      var node := queue[0];
      next' := next;
      if node.level < cfg.levels - 1 {
        ghost var R := Repr;
        assert forall i :: 0 <= i < |queue| ==> queue[i] in R && queue[i].children == [];
        next' := Expand(cfg, sine, draws, node, next);
        ghost var g := Growth(cfg, sine, draws, root, R, queue);
        assert Grew(g) by {
          assert forall j :: 0 <= j < |node.children| ==> node.children[j] !in R;
        }
        Repr := After(g);
        queue' := queue[1..] + node.children;
        StepBuilt(g);
        assert Built(cfg, sine, draws, root, Repr, queue');
      } else {
        queue' := queue[1..];
        assert queue' == queue[1..] + node.children;
        LastLevelStep(sine, draws, queue);
      }
    }

    /** A node on the last level leaves the queue without children. */
    lemma LastLevelStep(sine: real -> real, draws: nat -> NodeDraws, queue: seq<TreeNode>)
      requires Building(sine, draws, queue) && queue != [] && queue[0].level >= cfg.levels - 1
      ensures Building(sine, draws, queue[1..]) && queue[0].children == []
      ensures Pending(cfg, queue[1..]) < Pending(cfg, queue)
    {
      assert queue[0] in Repr;
      PendingHead(cfg, queue);
      forall n | n in Repr && n !in queue[1..]
        ensures Expanded(cfg, n) && Covered(n)
      {
      }
      forall i | 0 <= i < |queue[1..]|
        ensures queue[1..][i] in Repr && queue[1..][i].children == []
      {
        assert queue[1..][i] == queue[i + 1];
      }
    }

    /** PMTree2D::generateGeometry(renderManager): draws the whole tree from
        the identity transform with the root's segment length and width and
        reports whether some segment of the root branch itself dips below
        ground. The polygons the source hands to the render manager are
        returned instead. */
    method GenerateGeometry(below: Vec -> bool) returns (underground: bool, vertices: seq<Quad>)
      requires Valid()
      ensures vertices == Emit(cfg, Repr, root, Stroke(Identity, RootLength, RootWidth))
      ensures underground == OwnUnderground(cfg, root.Parameters(), Stroke(Identity, RootLength, RootWidth), below)
    {
      underground, vertices := GenerateGeometryAt(Identity, RootLength, RootWidth, root, below, []);
    }

    /** Between two states in which neither the tree object nor any of its
        nodes changed, the tree is as valid as before and draws the same
        branches from `w.node`. */
    twostate lemma WalkKept(w: Walk)
      requires old(WellFormed(cfg, Repr)) && w.node in old(Repr)
      requires unchanged(this) && unchanged(old(Repr))
      ensures WellFormed(cfg, Repr) && Repr == old(Repr) && w.node in Repr
      ensures w.node.Parameters() == old(w.node.Parameters()) && w.node.children == old(w.node.children)
      ensures Branches(cfg, Repr, w.node, w.stroke) == old(Branches(cfg, Repr, w.node, w.stroke))
    {
    }

    /** Between two states in which neither the tree object nor any of its
        nodes changed, `w.node` draws the same polygons. */
    twostate lemma DrawingKept(w: Walk)
      requires old(WellFormed(cfg, Repr)) && w.node in old(Repr)
      requires unchanged(this) && unchanged(old(Repr))
      ensures WellFormed(cfg, Repr) && Repr == old(Repr) && w.node in Repr
      ensures w.node.Parameters() == old(w.node.Parameters())
      ensures Emit(cfg, Repr, w.node, w.stroke) == old(Emit(cfg, Repr, w.node, w.stroke))
    {
    }

    /** The recursive PMTree2D::generateGeometry: appends the polygons of the
        branch of `node` drawn from `frame`, and of every branch growing from
        it, to `vertices`. The flag it returns covers the segments of `node`
        alone; the flags of the recursive calls are dropped. */
    method GenerateGeometryAt(frame: Transform, length: real, width: real, node: TreeNode,
                              below: Vec -> bool, vertices: seq<Quad>)
      returns (underground: bool, out: seq<Quad>)
      requires WellFormed(cfg, Repr) && node in Repr
      ensures out == vertices + old(Emit(cfg, Repr, node, Stroke(frame, length, width)))
      ensures underground == old(OwnUnderground(cfg, node.Parameters(), Stroke(frame, length, width), below))
      decreases cfg.levels - node.level, 2
    {
      ghost var s := Stroke(frame, length, width);
      ghost var p := node.Parameters();
      ghost var branches := Branches(cfg, Repr, node, s);
      underground := false;
      var mat := Rotate(frame, Radians(node.downAngle));
      var p0 := Vec(mat, -width * 0.5, 0.0);
      var p1 := Vec(mat, width * 0.5, 0.0);
      out := vertices;
      var k := 0;
      while k < cfg.segments
        invariant 0 <= k <= cfg.segments
        invariant k < cfg.segments ==> mat == Frame(cfg, p, Start(p, s), length, k)
        invariant k == 0 ==> p0 == Vec(Start(p, s), -width * 0.5, 0.0) && p1 == Vec(Start(p, s), width * 0.5, 0.0)
        invariant 0 < k < cfg.segments ==> p0 == TrailLeft(cfg, p, s, k - 1) && p1 == TrailRight(cfg, p, s, k - 1)
        invariant out == Assembled(cfg, p, s, branches, vertices, k)
        invariant underground == BelowBefore(cfg, p, s, below, k)
      {
        WalkKept(Walk(node, s));
        mat, p0, p1, out, underground := GeometryTurn(node, s, p, branches, k, mat, length, width, p0, p1, below, vertices, out, underground);
        k := k + 1;
      }
      BelowBeforeExists(cfg, p, s, below, k);
      DrawingKept(Walk(node, s));
      AssembledEmit(cfg, Repr, node, s, vertices);
    }

    /** One turn of the segment loop of PMTree2D::generateGeometry: segment
        k's polygon joins the previous trailing edge `p0`, `p1` to the ends of
        segment k, the ground test looks at those ends, and below the last
        segment the branch at boundary k is drawn and the transform is moved
        along the segment and turned by the bend at boundary k. */
    method GeometryTurn(node: TreeNode, ghost s: Stroke, ghost p: Params, ghost branches: seq<seq<Quad>>,
                        k: nat, mat: Transform, length: real, width: real, p0: Vec, p1: Vec, below: Vec -> bool,
                        ghost vertices: seq<Quad>, out: seq<Quad>, underground: bool)
      returns (next: Transform, p0': Vec, p1': Vec, out': seq<Quad>, underground': bool)
      requires WellFormed(cfg, Repr) && node in Repr && k < cfg.segments
      requires p == node.Parameters() && Shaped(cfg, p) && branches == Branches(cfg, Repr, node, s)
      requires length == s.length && width == s.width
      requires mat == Frame(cfg, p, Start(p, s), s.length, k)
      requires k == 0 ==> p0 == Vec(Start(p, s), -s.width * 0.5, 0.0) && p1 == Vec(Start(p, s), s.width * 0.5, 0.0)
      requires 0 < k ==> p0 == TrailLeft(cfg, p, s, k - 1) && p1 == TrailRight(cfg, p, s, k - 1)
      requires out == Assembled(cfg, p, s, branches, vertices, k)
      requires underground == BelowBefore(cfg, p, s, below, k)
      ensures k + 1 < cfg.segments ==> next == Frame(cfg, p, Start(p, s), s.length, k + 1)
      ensures p0' == TrailLeft(cfg, p, s, k) && p1' == TrailRight(cfg, p, s, k)
      ensures out' == Assembled(cfg, p, s, branches, vertices, k + 1)
      ensures underground' == BelowBefore(cfg, p, s, below, k + 1)
      decreases cfg.levels - node.level, 1
    {
      SegmentTurn(cfg, p, s, k, mat);
      var w1 := Width(cfg, width, k);
      var w2 := Width(cfg, width, k + 1);
      var p2 := Vec(mat, w2 * 0.5, length);
      var p3 := Vec(mat, -w2 * 0.5, length);
      underground' := underground;
      if below(p2) || below(p3) {
        underground' := true;
      }
      assert Quad(p0, p1, p2, p3) == SegmentQuad(cfg, p, s, k);
      out' := out + [Quad(p0, p1, p2, p3)];
      assert k < Slots(cfg) ==> Assembled(cfg, p, s, branches, vertices, k + 1) == out' + branches[k];
      p0' := p3;
      p1' := p2;
      next := mat;
      if k < Slots(cfg) {
        next := Translate(mat, length);
        out' := GenerateBranch(node, s, k, next, length, w1, below, out');
        if k < cfg.segments / 2 {
          next := Rotate(next, Radians(node.curve / (cfg.segments as real) + node.curvesV[k]));
        } else {
          next := Rotate(next, Radians(node.curveBack / (cfg.segments as real) + node.curvesV[k]));
        }
      }
    }

    /** The recursive call at boundary k of PMTree2D::generateGeometry: when
        `node` marks the boundary with 1, child k is drawn from `mat`, the end
        of segment k, with the segment length and the width `w1` at segment k
        both scaled by the child's attenuation; otherwise nothing is drawn. */
    method GenerateBranch(node: TreeNode, ghost s: Stroke, k: nat, mat: Transform, length: real, w1: real,
                          below: Vec -> bool, vertices: seq<Quad>)
      returns (out: seq<Quad>)
      requires WellFormed(cfg, Repr) && node in Repr && k < Slots(cfg) && Shaped(cfg, node.Parameters())
      requires mat == BranchStart(cfg, node.Parameters(), Start(node.Parameters(), s), s.length, k)
      requires length == s.length && w1 == Width(cfg, s.width, k)
      ensures out == vertices + old(Branches(cfg, Repr, node, s)[k])
      decreases cfg.levels - node.level, 0
    {
      assert Linked(cfg, Repr, node) && Covered(node);
      out := vertices;
      if node.branching[k] == 1 {
        var c := node.children[k];
        assert ChildStroke(cfg, node.Parameters(), s, k, c.attenuationFactor) ==
          Stroke(mat, length * c.attenuationFactor, w1 * c.attenuationFactor);
        var _, drawn := GenerateGeometryAt(mat, length * c.attenuationFactor, w1 * c.attenuationFactor, c, below, out);
        out := drawn;
      } else {
        assert out == vertices + [];
      }
    }

    /** PMTree2D::generateLocalTrainingData(image, camera, ...): walks the whole
        tree from the identity transform with the root's segment length and
        appends, per branch visited, a local image and the branch's parameter
        vector to the two lists the caller passes in. */
    method GenerateLocalTrainingData(images: seq<LocalImage>, vectors: seq<seq<real>>)
      returns (localImages: seq<LocalImage>, parameters: seq<seq<real>>)
      requires Valid()
      ensures localImages == images + Images(Visits(cfg, Repr, root, Identity, RootLength))
      ensures parameters == vectors + Vectors(Visits(cfg, Repr, root, Identity, RootLength))
    {
      localImages, parameters := GenerateLocalTrainingDataAt(Identity, RootLength, root, images, vectors);
    }

    /** Between two states in which neither the tree object nor any of its
        nodes changed, the tree is as valid as before and the training walk
        makes the same calls at every boundary of `d.node`. */
    twostate lemma DescentKept(d: Descent)
      requires old(WellFormed(cfg, Repr)) && d.node in old(Repr)
      requires unchanged(this) && unchanged(old(Repr))
      ensures WellFormed(cfg, Repr) && Repr == old(Repr) && d.node in Repr
      ensures d.node.Parameters() == old(d.node.Parameters()) && d.node.children == old(d.node.children)
      ensures BranchVisits(cfg, Repr, d.node, d.frame, d.length) == old(BranchVisits(cfg, Repr, d.node, d.frame, d.length))
    {
    }

    /** Between two states in which neither the tree object nor any of its
        nodes changed, the training walk from `d.node` makes the same calls. */
    twostate lemma VisitsKept(d: Descent)
      requires old(WellFormed(cfg, Repr)) && d.node in old(Repr)
      requires unchanged(this) && unchanged(old(Repr))
      ensures WellFormed(cfg, Repr) && Repr == old(Repr) && d.node in Repr
      ensures d.node.Parameters() == old(d.node.Parameters())
      ensures Visits(cfg, Repr, d.node, d.frame, d.length) == old(Visits(cfg, Repr, d.node, d.frame, d.length))
    {
    }

    /** The recursive PMTree2D::generateLocalTrainingData: records the image
        warped at `modelMat` and the raw parameters of `node`, then recurses
        into every child whose boundary is marked 1, from the far end of that
        segment with the segment length scaled by the child's attenuation. */
    method GenerateLocalTrainingDataAt(modelMat: Transform, length: real, node: TreeNode,
                                       images: seq<LocalImage>, vectors: seq<seq<real>>)
      returns (localImages: seq<LocalImage>, parameters: seq<seq<real>>)
      requires WellFormed(cfg, Repr) && node in Repr
      ensures localImages == images + old(Images(Visits(cfg, Repr, node, modelMat, length)))
      ensures parameters == vectors + old(Vectors(Visits(cfg, Repr, node, modelMat, length)))
      decreases cfg.levels - node.level, 1
    {
      ghost var p := node.Parameters();
      ghost var parts := BranchVisits(cfg, Repr, node, modelMat, length);
      assert Linked(cfg, Repr, node);
      var mat := modelMat;
      localImages := images + [Warped(mat)];
      var params := ParameterVector(node);
      parameters := vectors + [params];
      var k := 0;
      while k < cfg.segments
        invariant 0 <= k <= Slots(cfg)
        invariant mat == Frame(cfg, p, modelMat, length, k)
        invariant localImages == Gathered(images + [Warped(modelMat)], ImageParts(parts), k)
        invariant parameters == Gathered(vectors + [Vector(p)], VectorParts(parts), k)
      {
        if k >= cfg.segments - 1 {
          break;
        }
        DescentKept(Descent(node, modelMat, length));
        mat, localImages, parameters := LocalTrainingTurn(node, modelMat, k, mat, length, p, parts[k], localImages, parameters);
        k := k + 1;
      }
      VisitsKept(Descent(node, modelMat, length));
      DescentKept(Descent(node, modelMat, length));
      GatheredImages(cfg, Repr, node, modelMat, length, images);
      GatheredVectors(cfg, Repr, node, modelMat, length, vectors);
    }

    /** One turn of the boundary loop of PMTree2D::generateLocalTrainingData:
        the transform `mat` of segment k is moved to the far end of the segment;
        when `node` marks boundary k with 1, child k is visited from there with
        the segment length scaled by the child's attenuation; then the transform
        is turned by the bend at boundary k, giving the transform of segment
        k + 1. */
    method LocalTrainingTurn(node: TreeNode, ghost frame: Transform, k: nat, mat: Transform, length: real,
                             ghost p: Params, ghost visits: seq<Visit>, images: seq<LocalImage>, vectors: seq<seq<real>>)
      returns (next: Transform, localImages: seq<LocalImage>, parameters: seq<seq<real>>)
      requires WellFormed(cfg, Repr) && node in Repr && k < Slots(cfg)
      requires p == node.Parameters() && Shaped(cfg, p) && mat == Frame(cfg, p, frame, length, k)
      requires visits == VisitsAt(cfg, Repr, node, frame, length, k)
      ensures next == Frame(cfg, p, frame, length, k + 1)
      ensures localImages == images + Images(visits)
      ensures parameters == vectors + Vectors(visits)
      decreases cfg.levels - node.level, 0
    {
      assert Linked(cfg, Repr, node) && Covered(node);
      FrameTurn(cfg, p, frame, length, k, mat);
      next := Translate(mat, length);
      localImages, parameters := images, vectors;
      if node.branching[k] == 1 {
        var c := node.children[k];
        assert visits == Visits(cfg, Repr, c, next, Scaled(length, c.attenuationFactor));
        assert Scaled(length, c.attenuationFactor) == length * c.attenuationFactor;
        localImages, parameters := GenerateLocalTrainingDataAt(next, length * c.attenuationFactor, c, images, vectors);
        assert localImages == images + Images(visits);
      } else {
        assert visits == [];
        assert localImages == images + Images([]) && parameters == vectors + Vectors([]);
      }
      if k < cfg.segments / 2 {
        next := Rotate(next, Radians(node.curve / (cfg.segments as real) + node.curvesV[k]));
      } else {
        next := Rotate(next, Radians(node.curveBack / (cfg.segments as real) + node.curvesV[k]));
      }
    }

    /** One turn of the queue loop of PMTree2D::to_string, in the state the
        loop started from: writing the fields of the head of `w.queue` after
        `w.fields` and then what the walk from the rest of the queue followed by
        the head's children writes is writing what the walk from the whole queue
        writes. */
    twostate lemma StreamStep(w: Writing)
      requires old(WellFormed(cfg, Repr)) && InTree(old(Repr), w.queue) && w.queue != []
      requires unchanged(this) && unchanged(old(Repr))
      ensures w.queue[0].children == old(w.queue[0].children)
      ensures InTree(old(Repr), w.queue[1..] + w.queue[0].children)
      ensures Pending(cfg, w.queue[1..] + w.queue[0].children) < Pending(cfg, w.queue)
      ensures w.fields + old(Stream(ParamsOf(LevelOrder(cfg, Repr, w.queue)))) ==
        w.fields + Fields(w.queue[0].Parameters()) + old(Stream(ParamsOf(LevelOrder(cfg, Repr, w.queue[1..] + w.queue[0].children))))
    {
      var q := w.queue;
      assert old(Linked(cfg, Repr, q[0]));
      PendingStep(cfg, old(Repr), q);
      var rest := old(LevelOrder(cfg, Repr, q[1..] + q[0].children));
      assert old(LevelOrder(cfg, Repr, q)) == [q[0]] + rest;
      ghost var ps := old(ParamsOf([q[0]] + rest));
      assert ps[0] == q[0].Parameters() && ps[1..] == old(ParamsOf(rest));
      var f, s := Fields(q[0].Parameters()), old(Stream(ParamsOf(rest)));
      assert w.fields + (f + s) == w.fields + f + s;
    }

    /** Between two states in which neither the tree object nor any of its
        nodes changed, the serialisation is the same. */
    twostate lemma StreamKept()
      requires old(WellFormed(cfg, Repr)) && old(root in Repr) && unchanged(this) && unchanged(old(Repr))
      ensures WellFormed(cfg, Repr) && root in Repr
      ensures Stream(ParamsOf(LevelOrder(cfg, Repr, [root]))) == old(Stream(ParamsOf(LevelOrder(cfg, Repr, [root]))))
    {
    }

    /** PMTree2D::to_string: takes nodes from a first-in first-out queue that
        starts with the root, writes the fields of each and queues all of its
        children. The fields are returned as numbers; the text they are
        printed as is not modelled. */
    method ToString() returns (fields: seq<real>)
      requires WellFormed(cfg, Repr) && root in Repr
      ensures fields == Stream(ParamsOf(LevelOrder(cfg, Repr, [root])))
    {
      ghost var R := Repr;
      fields := [];
      var queue := [root];
      while queue != []
        invariant InTree(R, queue)
        invariant fields + old(Stream(ParamsOf(LevelOrder(cfg, Repr, queue)))) == old(Stream(ParamsOf(LevelOrder(cfg, Repr, [root]))))
        decreases Pending(cfg, queue)
      {
        ghost var w := Writing(queue, fields);
        queue, fields := WriteStep(queue, fields);
        StreamStep(w);
      }
      StreamKept();
    }
  }
}
