/** The shape of a tree of TreeNode objects: how parents and children are
    linked, which trees the breadth-first build leaves behind, and the
    depth-first pre-order both traversals follow. */
module Hierarchy {
  import opened Nodes

  /** The links of one node: per-segment sequences of the right length, at most
      one child per interior boundary, children only above the last level, and
      child k one level deeper, at index k, pointing back at `n`. */
  ghost predicate Linked(cfg: Config, nodes: set<TreeNode>, n: TreeNode)
    reads n`curvesV, n`branching, n`children
  {
    |n.curvesV| == Slots(cfg) && |n.branching| == Slots(cfg) && 0 <= n.level &&
    |n.children| <= Slots(cfg) && (|n.children| > 0 ==> n.level < cfg.levels - 1) &&
    forall k :: 0 <= k < |n.children| ==>
      n.children[k] in nodes && n.children[k].parent == n &&
      n.children[k].level == n.level + 1 && n.children[k].index == k
  }

  /** Every boundary marked with 1 has a child at that position, so
      `children[k]` is in bounds wherever a traversal reads it. */
  ghost predicate Covered(n: TreeNode)
    reads n`branching, n`children
  {
    forall k :: 0 <= k < |n.branching| && n.branching[k] == 1 ==> k < |n.children|
  }

  /** A set of nodes closed under `children` that both traversals can walk. */
  ghost predicate WellFormed(cfg: Config, nodes: set<TreeNode>)
    reads nodes
  {
    forall n | n in nodes :: Linked(cfg, nodes, n) && Covered(n)
  }

  /** What the breadth-first build leaves on a node: below the last level a
      child for every interior boundary; on the last level no branching marks. */
  ghost predicate Expanded(cfg: Config, n: TreeNode)
    reads n`branching, n`children
  {
    (n.level < cfg.levels - 1 ==> |n.children| == Slots(cfg)) &&
    (n.level >= cfg.levels - 1 ==> forall k :: 0 <= k < |n.branching| ==> n.branching[k] == 0)
  }

  ghost predicate Complete(cfg: Config, nodes: set<TreeNode>)
    reads nodes
  {
    forall n | n in nodes :: Expanded(cfg, n)
  }

  /** `root` is the level-0, index-0 node without a parent, and every other node
      is the child of its parent at its own index. */
  ghost predicate Rooted(root: TreeNode, nodes: set<TreeNode>)
    reads nodes
  {
    root in nodes && root.parent == null && root.level == 0 && root.index == 0 &&
    forall n {:trigger n.parent} | n in nodes && n != root ::
      n.parent != null && n.parent in nodes &&
      0 <= n.index < |n.parent.children| && n.parent.children[n.index] == n
  }

  /** With at most one level, a rooted well-formed tree is its root alone. */
  lemma RootAlone(cfg: Config, root: TreeNode, nodes: set<TreeNode>)
    requires WellFormed(cfg, nodes) && Rooted(root, nodes)
    requires cfg.levels <= 1
    ensures nodes == {root}
  {
    forall n | n in nodes
      ensures n == root
    {
      if n != root {
        NonRootLevel(cfg, root, nodes, n);
      }
    }
  }

  /** Every node but the root hangs below a node that has children, so it
      sits on a level from 1 to the last. */
  lemma NonRootLevel(cfg: Config, root: TreeNode, nodes: set<TreeNode>, n: TreeNode)
    requires WellFormed(cfg, nodes) && Rooted(root, nodes) && n in nodes && n != root
    ensures 1 <= n.level < cfg.levels
  {
    var p := n.parent;
    assert Linked(cfg, nodes, p);
  }

  /** The number of nodes of a complete subtree whose root is at `level`. */
  function Size(cfg: Config, level: int): (s: nat)
    ensures s >= 1
    ensures level >= cfg.levels - 1 ==> s == 1
    decreases cfg.levels - level
  {
    if level < cfg.levels - 1 then 1 + Slots(cfg) * Size(cfg, level + 1) else 1
  }

  /** The sizes of the subtrees still waiting in a breadth-first queue: the
      measure that makes both queue loops terminate. */
  function Pending(cfg: Config, q: seq<TreeNode>): nat
  {
    if q == [] then 0 else Pending(cfg, q[..|q| - 1]) + Size(cfg, q[|q| - 1].level)
  }

  lemma {:induction false} PendingAppend(cfg: Config, a: seq<TreeNode>, b: seq<TreeNode>)
    ensures Pending(cfg, a + b) == Pending(cfg, a) + Pending(cfg, b)
    decreases |b|
  {
    if b != [] {
      assert (a + b)[..|a + b| - 1] == a + b[..|b| - 1];
      PendingAppend(cfg, a, b[..|b| - 1]);
    } else {
      assert a + b == a;
    }
  }

  /** A queue whose head is `q[0]` waits for that subtree plus the rest. */
  lemma PendingHead(cfg: Config, q: seq<TreeNode>)
    requires q != []
    ensures Pending(cfg, q) == Size(cfg, q[0].level) + Pending(cfg, q[1..])
  {
    PendingAppend(cfg, [q[0]], q[1..]);
    assert [q[0]] + q[1..] == q;
    assert [q[0]][..0] == [];
  }

  /** Siblings one level below `level` wait for `|s|` subtrees of the next size. */
  lemma {:induction false} PendingSiblings(cfg: Config, s: seq<TreeNode>, level: int)
    requires forall i :: 0 <= i < |s| ==> s[i].level == level + 1
    ensures Pending(cfg, s) == |s| * Size(cfg, level + 1)
    decreases |s|
  {
    if s != [] {
      PendingSiblings(cfg, s[..|s| - 1], level);
    }
  }

  /** Replacing the head of a queue by its children lowers the pending size; by
      exactly one when the head was expanded by the breadth-first build. */
  lemma PendingStep(cfg: Config, nodes: set<TreeNode>, q: seq<TreeNode>)
    requires q != [] && Linked(cfg, nodes, q[0])
    ensures Pending(cfg, q[1..] + q[0].children) < Pending(cfg, q)
    ensures Expanded(cfg, q[0]) ==> Pending(cfg, q[1..] + q[0].children) == Pending(cfg, q) - 1
  {
    var n := q[0];
    PendingHead(cfg, q);
    PendingAppend(cfg, q[1..], n.children);
    PendingSiblings(cfg, n.children, n.level);
    var c, s := |n.children|, Size(cfg, n.level + 1);
    if c > 0 {
      assert Size(cfg, n.level) == 1 + Slots(cfg) * s;
      MulLeft(c, Slots(cfg), s);
    }
  }

  lemma MulLeft(a: nat, b: nat, c: nat)
    requires a <= b
    ensures a * c <= b * c
  {
  }

  /** The nodes a depth-first traversal visits from `n`: `n` itself, then for
      each interior boundary k in increasing order, the traversal of child k
      when `branching[k]` is exactly 1. */
  ghost function Reached(cfg: Config, nodes: set<TreeNode>, n: TreeNode): seq<TreeNode>
    requires WellFormed(cfg, nodes) && n in nodes
    reads nodes
    decreases cfg.levels - n.level, Slots(cfg) + 1
  {
    [n] + ReachedFrom(cfg, nodes, n, 0)
  }

  ghost function ReachedFrom(cfg: Config, nodes: set<TreeNode>, n: TreeNode, k: nat): seq<TreeNode>
    requires WellFormed(cfg, nodes) && n in nodes && k <= Slots(cfg)
    reads nodes
    decreases cfg.levels - n.level, Slots(cfg) - k
  {
    assert Linked(cfg, nodes, n) && Covered(n);
    if k == Slots(cfg) then []
    else
      (if n.branching[k] == 1 then Reached(cfg, nodes, n.children[k]) else [])
      + ReachedFrom(cfg, nodes, n, k + 1)
  }

  /** Everything the traversal from `n` visits lies in the tree, at `n`'s level
      or deeper, and the traversal starts with `n`. */
  lemma {:induction false} ReachedInSubtree(cfg: Config, nodes: set<TreeNode>, n: TreeNode)
    requires WellFormed(cfg, nodes) && n in nodes
    ensures Reached(cfg, nodes, n)[0] == n
    ensures forall i :: 0 <= i < |Reached(cfg, nodes, n)| ==>
      Reached(cfg, nodes, n)[i] in nodes && Reached(cfg, nodes, n)[i].level >= n.level
    decreases cfg.levels - n.level, Slots(cfg) + 1
  {
    ReachedFromInSubtree(cfg, nodes, n, 0);
  }

  lemma {:induction false} ReachedFromInSubtree(cfg: Config, nodes: set<TreeNode>, n: TreeNode, k: nat)
    requires WellFormed(cfg, nodes) && n in nodes && k <= Slots(cfg)
    ensures forall i :: 0 <= i < |ReachedFrom(cfg, nodes, n, k)| ==>
      ReachedFrom(cfg, nodes, n, k)[i] in nodes && ReachedFrom(cfg, nodes, n, k)[i].level > n.level
    decreases cfg.levels - n.level, Slots(cfg) - k
  {
    assert Linked(cfg, nodes, n) && Covered(n);
    if k < Slots(cfg) {
      ReachedFromInSubtree(cfg, nodes, n, k + 1);
      if n.branching[k] == 1 {
        ReachedInSubtree(cfg, nodes, n.children[k]);
      }
    }
  }

  /** A node without any boundary marked 1 is visited alone. */
  lemma {:induction false} LeafReachedAlone(cfg: Config, nodes: set<TreeNode>, n: TreeNode)
    requires WellFormed(cfg, nodes) && n in nodes
    requires forall k :: 0 <= k < |n.branching| ==> n.branching[k] != 1
    ensures Reached(cfg, nodes, n) == [n]
  {
    assert Linked(cfg, nodes, n);
    var k := Slots(cfg);
    while k > 0
      invariant 0 <= k <= Slots(cfg)
      invariant ReachedFrom(cfg, nodes, n, k) == []
    {
      k := k - 1;
    }
  }

  /** The nodes of the subtree hanging from `n`: `n` itself and, child by
      child, the subtrees of all of its children, marked or not. */
  ghost function Sub(cfg: Config, nodes: set<TreeNode>, n: TreeNode): set<TreeNode>
    requires WellFormed(cfg, nodes) && n in nodes
    reads nodes
    decreases cfg.levels - n.level, Slots(cfg) + 1
  {
    {n} + SubFrom(cfg, nodes, n, 0)
  }

  ghost function SubFrom(cfg: Config, nodes: set<TreeNode>, n: TreeNode, k: nat): set<TreeNode>
    requires WellFormed(cfg, nodes) && n in nodes && k <= |n.children|
    reads nodes
    decreases cfg.levels - n.level, Slots(cfg) - k
  {
    assert Linked(cfg, nodes, n);
    if k == |n.children| then {}
    else Sub(cfg, nodes, n.children[k]) + SubFrom(cfg, nodes, n, k + 1)
  }

  /** A node below `n` lies in the subtree of one of `n`'s children from k on. */
  lemma {:induction false} SubFromWitness(cfg: Config, nodes: set<TreeNode>, n: TreeNode, k: nat, m: TreeNode)
    returns (j: nat)
    requires WellFormed(cfg, nodes) && n in nodes && k <= |n.children|
    requires m in SubFrom(cfg, nodes, n, k)
    ensures k <= j < |n.children| && n.children[j] in nodes && m in Sub(cfg, nodes, n.children[j])
    decreases |n.children| - k
  {
    assert Linked(cfg, nodes, n);
    if m in Sub(cfg, nodes, n.children[k]) {
      j := k;
    } else {
      j := SubFromWitness(cfg, nodes, n, k + 1, m);
    }
  }

  /** The subtree of child j lies among the subtrees from any k <= j on. */
  lemma {:induction false} SubFromHas(cfg: Config, nodes: set<TreeNode>, n: TreeNode, k: nat, j: nat)
    requires WellFormed(cfg, nodes) && n in nodes && k <= j < |n.children|
    ensures n.children[j] in nodes && Sub(cfg, nodes, n.children[j]) <= SubFrom(cfg, nodes, n, k)
    decreases j - k
  {
    assert Linked(cfg, nodes, n);
    if k < j {
      SubFromHas(cfg, nodes, n, k + 1, j);
    }
  }

  /** A subtree lies in the tree, and every node of it but its root is deeper
      than the root. */
  lemma {:induction false} SubBelow(cfg: Config, nodes: set<TreeNode>, n: TreeNode, m: TreeNode)
    requires WellFormed(cfg, nodes) && n in nodes && m in Sub(cfg, nodes, n)
    ensures m in nodes && m.level >= n.level
    ensures m != n ==> m.level > n.level
    decreases cfg.levels - n.level
  {
    if m != n {
      assert Linked(cfg, nodes, n);
      var j := SubFromWitness(cfg, nodes, n, 0, m);
      SubBelow(cfg, nodes, n.children[j], m);
    }
  }

  /** A node reaches the subtrees of two nodes of one level only when they are
      the same node: following the parent links from it meets one node per
      level. */
  lemma {:induction false} SubtreesMeet(cfg: Config, nodes: set<TreeNode>, a: TreeNode, b: TreeNode, m: TreeNode)
    requires WellFormed(cfg, nodes) && a in nodes && b in nodes && a.level == b.level
    requires m in Sub(cfg, nodes, a) && m in Sub(cfg, nodes, b)
    ensures a == b
    decreases cfg.levels - a.level
  {
    SubBelow(cfg, nodes, a, m);
    SubBelow(cfg, nodes, b, m);
    if m != a && m != b {
      assert Linked(cfg, nodes, a) && Linked(cfg, nodes, b);
      var i := SubFromWitness(cfg, nodes, a, 0, m);
      var j := SubFromWitness(cfg, nodes, b, 0, m);
      SubtreesMeet(cfg, nodes, a.children[i], b.children[j], m);
    }
  }

  /** The subtrees of two distinct nodes of one level share no node. */
  lemma SubtreesDisjoint(cfg: Config, nodes: set<TreeNode>, a: TreeNode, b: TreeNode)
    requires WellFormed(cfg, nodes) && a in nodes && b in nodes && a.level == b.level && a != b
    ensures Sub(cfg, nodes, a) !! Sub(cfg, nodes, b)
  {
    forall m | m in Sub(cfg, nodes, a)
      ensures m !in Sub(cfg, nodes, b)
    {
      if m in Sub(cfg, nodes, b) {
        SubtreesMeet(cfg, nodes, a, b, m);
      }
    }
  }

  /** The subtree of a node of a subtree lies in that subtree. */
  lemma {:induction false} SubNested(cfg: Config, nodes: set<TreeNode>, r: TreeNode, p: TreeNode)
    requires WellFormed(cfg, nodes) && r in nodes && p in Sub(cfg, nodes, r)
    ensures p in nodes && Sub(cfg, nodes, p) <= Sub(cfg, nodes, r)
    decreases cfg.levels - r.level
  {
    SubBelow(cfg, nodes, r, p);
    if p != r {
      assert Linked(cfg, nodes, r);
      var j := SubFromWitness(cfg, nodes, r, 0, p);
      SubNested(cfg, nodes, r.children[j], p);
      SubFromHas(cfg, nodes, r, 0, j);
    }
  }

  /** In a rooted tree every node hangs below the root. */
  lemma {:induction false} RootedSub(cfg: Config, nodes: set<TreeNode>, root: TreeNode, n: TreeNode)
    requires WellFormed(cfg, nodes) && Rooted(root, nodes) && n in nodes
    ensures n in Sub(cfg, nodes, root)
    decreases if n.level < 0 then 0 else n.level
  {
    if n != root {
      var p := n.parent;
      assert Linked(cfg, nodes, p) && p.children[n.index] == n;
      RootedSub(cfg, nodes, root, p);
      SubNested(cfg, nodes, root, p);
      SubFromHas(cfg, nodes, p, 0, n.index);
    }
  }
}
