/** The order PMTree2D::to_string visits the nodes in (breadth-first over every
    child, marked or not) and the field stream it writes, one `Stride` block per
    node. */
module Serial {
  import opened Nodes
  import opened Hierarchy
  import opened Layout

  /** Every node of the queue belongs to the tree. */
  ghost predicate InTree(nodes: set<TreeNode>, q: seq<TreeNode>)
  {
    forall i :: 0 <= i < |q| ==> q[i] in nodes
  }

  /** The nodes a breadth-first walk starting from queue `q` pops, in order:
      the head, then the walk of the rest of the queue followed by the head's
      children. The walk starts with the head of the queue and pops only nodes
      of the tree. */
  ghost function LevelOrder(cfg: Config, nodes: set<TreeNode>, q: seq<TreeNode>): (r: seq<TreeNode>)
    requires WellFormed(cfg, nodes) && InTree(nodes, q)
    reads nodes
    ensures InTree(nodes, r)
    ensures q != [] ==> r != [] && r[0] == q[0]
    decreases Pending(cfg, q)
  {
    if q == [] then []
    else
      assert Linked(cfg, nodes, q[0]);
      PendingStep(cfg, nodes, q);
      [q[0]] + LevelOrder(cfg, nodes, q[1..] + q[0].children)
  }

  /** On a tree the breadth-first build completed, the walk pops as many nodes
      as the queued complete subtrees hold. */
  lemma {:induction false} LevelOrderCount(cfg: Config, nodes: set<TreeNode>, q: seq<TreeNode>)
    requires WellFormed(cfg, nodes) && Complete(cfg, nodes) && InTree(nodes, q)
    ensures |LevelOrder(cfg, nodes, q)| == Pending(cfg, q)
    decreases Pending(cfg, q)
  {
    if q != [] {
      assert Linked(cfg, nodes, q[0]) && Expanded(cfg, q[0]);
      PendingStep(cfg, nodes, q);
      LevelOrderCount(cfg, nodes, q[1..] + q[0].children);
    }
  }

  /** Levels never decrease along `s`. */
  ghost predicate Ascending(s: seq<TreeNode>)
  {
    forall i, j :: 0 <= i <= j < |s| ==> s[i].level <= s[j].level
  }

  /** A queue whose levels never decrease and span at most one level. */
  ghost predicate Layered(q: seq<TreeNode>)
  {
    Ascending(q) && (q != [] ==> q[|q| - 1].level <= q[0].level + 1)
  }

  /** The walk from a layered queue pops nodes in non-decreasing level order:
      level by level, as a breadth-first walk should. */
  lemma {:induction false} LevelOrderLayered(cfg: Config, nodes: set<TreeNode>, q: seq<TreeNode>)
    requires WellFormed(cfg, nodes) && InTree(nodes, q) && Layered(q)
    ensures Ascending(LevelOrder(cfg, nodes, q))
    decreases Pending(cfg, q)
  {
    if q != [] {
      var n := q[0];
      assert Linked(cfg, nodes, n);
      PendingStep(cfg, nodes, q);
      var next := q[1..] + n.children;
      NextLayered(cfg, nodes, q);
      LevelOrderLayered(cfg, nodes, next);
      var rest := LevelOrder(cfg, nodes, next);
      assert LevelOrder(cfg, nodes, q) == [n] + rest;
      AscendingCons(n, rest);
    }
  }

  /** A node no deeper than the head of an ascending sequence can go in front. */
  lemma AscendingCons(n: TreeNode, rest: seq<TreeNode>)
    requires Ascending(rest) && (rest != [] ==> n.level <= rest[0].level)
    ensures Ascending([n] + rest)
  {
    var s := [n] + rest;
    forall i, j | 0 <= i <= j < |s|
      ensures s[i].level <= s[j].level
    {
      if 0 < i {
        assert s[i] == rest[i - 1] && s[j] == rest[j - 1];
      } else if 0 < j {
        assert s[j] == rest[j - 1] && rest[0].level <= rest[j - 1].level;
      }
    }
  }

  /** Replacing the head of a layered queue by its children keeps it
      layered, and the new head is no shallower than the old one. */
  lemma NextLayered(cfg: Config, nodes: set<TreeNode>, q: seq<TreeNode>)
    requires WellFormed(cfg, nodes) && InTree(nodes, q) && Layered(q) && q != []
    ensures Layered(q[1..] + q[0].children)
    ensures q[1..] + q[0].children != [] ==> q[0].level <= (q[1..] + q[0].children)[0].level
  {
    assert Ascending(q);
    var n := q[0];
    assert Linked(cfg, nodes, n);
    var next := q[1..] + n.children;
    var h := |q| - 1;
    forall i, j | 0 <= i <= j < |next|
      ensures next[i].level <= next[j].level
    {
      if j >= h {
        assert next[j] == n.children[j - h];
        if i < h {
          assert next[i] == q[i + 1];
        } else {
          assert next[i] == n.children[i - h];
        }
      } else {
        assert next[i] == q[i + 1] && next[j] == q[j + 1];
      }
    }
    if next != [] {
      if h > 0 {
        assert next[0] == q[1];
      } else {
        assert next[0] == n.children[0];
      }
    }
  }

  /** No node occurs twice in `s`. */
  ghost predicate Distinct(s: seq<TreeNode>)
  {
    forall i, j :: 0 <= i < j < |s| ==> s[i] != s[j]
  }

  /** The nodes of the subtrees waiting in a breadth-first queue. */
  ghost function Cover(cfg: Config, nodes: set<TreeNode>, q: seq<TreeNode>): set<TreeNode>
    requires WellFormed(cfg, nodes) && InTree(nodes, q)
    reads nodes
  {
    if q == [] then {} else Sub(cfg, nodes, q[0]) + Cover(cfg, nodes, q[1..])
  }

  /** The subtrees waiting in a queue share no node. */
  ghost predicate Apart(cfg: Config, nodes: set<TreeNode>, q: seq<TreeNode>)
    requires WellFormed(cfg, nodes) && InTree(nodes, q)
    reads nodes
  {
    forall i, j :: 0 <= i < j < |q| ==> Sub(cfg, nodes, q[i]) !! Sub(cfg, nodes, q[j])
  }

  lemma {:induction false} CoverAppend(cfg: Config, nodes: set<TreeNode>, a: seq<TreeNode>, b: seq<TreeNode>)
    requires WellFormed(cfg, nodes) && InTree(nodes, a) && InTree(nodes, b)
    ensures InTree(nodes, a + b)
    ensures Cover(cfg, nodes, a + b) == Cover(cfg, nodes, a) + Cover(cfg, nodes, b)
  {
    assert InTree(nodes, a + b) by {
      forall i | 0 <= i < |a + b|
        ensures (a + b)[i] in nodes
      {
        if i < |a| { assert (a + b)[i] == a[i]; } else { assert (a + b)[i] == b[i - |a|]; }
      }
    }
    if a != [] {
      assert (a + b)[1..] == a[1..] + b;
      CoverAppend(cfg, nodes, a[1..], b);
    } else {
      assert a + b == b;
    }
  }

  /** The children of `n` from k on cover exactly their subtrees. */
  lemma {:induction false} CoverChildren(cfg: Config, nodes: set<TreeNode>, n: TreeNode, k: nat)
    requires WellFormed(cfg, nodes) && n in nodes && k <= |n.children|
    ensures InTree(nodes, n.children[k..])
    ensures Cover(cfg, nodes, n.children[k..]) == SubFrom(cfg, nodes, n, k)
    decreases |n.children| - k
  {
    assert Linked(cfg, nodes, n);
    if k < |n.children| {
      CoverChildren(cfg, nodes, n, k + 1);
      assert n.children[k..][1..] == n.children[k + 1..];
    }
  }

  /** A covered node lies in the subtree of some queued node. */
  lemma {:induction false} CoverWitness(cfg: Config, nodes: set<TreeNode>, q: seq<TreeNode>, m: TreeNode)
    returns (i: nat)
    requires WellFormed(cfg, nodes) && InTree(nodes, q) && m in Cover(cfg, nodes, q)
    ensures i < |q| && m in Sub(cfg, nodes, q[i])
  {
    if m in Sub(cfg, nodes, q[0]) {
      i := 0;
    } else {
      var j := CoverWitness(cfg, nodes, q[1..], m);
      i := j + 1;
    }
  }

  /** Replacing the head of a queue of disjoint subtrees by its children
      keeps the subtrees disjoint. */
  lemma NextApart(cfg: Config, nodes: set<TreeNode>, q: seq<TreeNode>)
    requires WellFormed(cfg, nodes) && InTree(nodes, q) && q != [] && Apart(cfg, nodes, q)
    ensures InTree(nodes, q[1..] + q[0].children)
    ensures Apart(cfg, nodes, q[1..] + q[0].children)
  {
    var n := q[0];
    assert Linked(cfg, nodes, n);
    var next := q[1..] + n.children;
    var h := |q| - 1;
    assert InTree(nodes, next) by {
      forall i | 0 <= i < |next|
        ensures next[i] in nodes
      {
        if i < h { assert next[i] == q[i + 1]; } else { assert next[i] == n.children[i - h]; }
      }
    }
    forall i, j | 0 <= i < j < |next|
      ensures Sub(cfg, nodes, next[i]) !! Sub(cfg, nodes, next[j])
    {
      if j < h {
        assert next[i] == q[i + 1] && next[j] == q[j + 1];
      } else if i < h {
        assert next[i] == q[i + 1] && next[j] == n.children[j - h];
        SubFromHas(cfg, nodes, n, 0, j - h);
        assert Sub(cfg, nodes, n) !! Sub(cfg, nodes, q[i + 1]);
      } else {
        var a, b := n.children[i - h], n.children[j - h];
        assert next[i] == a && next[j] == b;
        assert a.index == i - h && b.index == j - h;
        SubtreesDisjoint(cfg, nodes, a, b);
      }
    }
  }

  /** From a queue of disjoint subtrees the walk pops each node of those
      subtrees exactly once, and no other node. */
  lemma {:induction false} LevelOrderApart(cfg: Config, nodes: set<TreeNode>, q: seq<TreeNode>)
    requires WellFormed(cfg, nodes) && InTree(nodes, q) && Apart(cfg, nodes, q)
    ensures Distinct(LevelOrder(cfg, nodes, q))
    ensures forall m :: m in LevelOrder(cfg, nodes, q) <==> m in Cover(cfg, nodes, q)
    decreases Pending(cfg, q)
  {
    if q != [] {
      var n := q[0];
      assert Linked(cfg, nodes, n);
      PendingStep(cfg, nodes, q);
      NextApart(cfg, nodes, q);
      var next := q[1..] + n.children;
      LevelOrderApart(cfg, nodes, next);
      CoverChildren(cfg, nodes, n, 0);
      assert n.children[0..] == n.children;
      CoverAppend(cfg, nodes, q[1..], n.children);
      var rest := LevelOrder(cfg, nodes, next);
      assert LevelOrder(cfg, nodes, q) == [n] + rest;
      forall m | m in SubFrom(cfg, nodes, n, 0)
        ensures m != n
      {
        var j := SubFromWitness(cfg, nodes, n, 0, m);
        SubBelow(cfg, nodes, n.children[j], m);
      }
      forall m | m in Cover(cfg, nodes, q[1..])
        ensures m != n
      {
        var i := CoverWitness(cfg, nodes, q[1..], m);
        assert Sub(cfg, nodes, q[0]) !! Sub(cfg, nodes, q[i + 1]);
      }
      assert n !in rest;
    }
  }

  /** PMTree2D::to_string writes every node of a rooted tree exactly once: the
      walk from the root pops no node twice, and pops exactly the nodes of the
      tree. */
  lemma LevelOrderEachOnce(cfg: Config, nodes: set<TreeNode>, root: TreeNode)
    requires WellFormed(cfg, nodes) && Rooted(root, nodes)
    ensures Distinct(LevelOrder(cfg, nodes, [root]))
    ensures forall n :: n in LevelOrder(cfg, nodes, [root]) <==> n in nodes
  {
    LevelOrderApart(cfg, nodes, [root]);
    assert [root][1..] == [];
    assert Cover(cfg, nodes, [root]) == Sub(cfg, nodes, root);
    forall n | n in nodes
      ensures n in Sub(cfg, nodes, root)
    {
      RootedSub(cfg, nodes, root, n);
    }
    forall n | n in Sub(cfg, nodes, root)
      ensures n in nodes
    {
      SubBelow(cfg, nodes, root, n);
    }
  }

  /** The parameters the nodes of `order` hold, in order. */
  function ParamsOf(order: seq<TreeNode>): (r: seq<Params>)
    reads order
    ensures |r| == |order| && forall i :: 0 <= i < |order| ==> r[i] == order[i].Parameters()
  {
    seq(|order|, i requires 0 <= i < |order| reads order => order[i].Parameters())
  }

  /** The fields written for the parameter records `ps`, one `Fields` block
      per record. */
  function Stream(ps: seq<Params>): seq<real>
  {
    if ps == [] then [] else Fields(ps[0]) + Stream(ps[1..])
  }

  /** A tree the breadth-first build completed is written as `Stride` fields
      per node of a complete subtree: `Size(cfg, root.level)` blocks. */
  lemma StreamSize(cfg: Config, nodes: set<TreeNode>, root: TreeNode)
    requires WellFormed(cfg, nodes) && Complete(cfg, nodes) && root in nodes
    ensures |Stream(ParamsOf(LevelOrder(cfg, nodes, [root])))| == Stride(cfg) * Size(cfg, root.level)
  {
    LevelOrderCount(cfg, nodes, [root]);
    var order := LevelOrder(cfg, nodes, [root]);
    forall j | 0 <= j < |order|
      ensures Shaped(cfg, ParamsOf(order)[j])
    {
      assert Linked(cfg, nodes, order[j]);
    }
    StreamLength(cfg, ParamsOf(order));
    assert [root][..0] == [];
  }

  /** The nodes of a duplicate-free sequence number as many as its entries. */
  lemma {:induction false} DistinctCount(s: seq<TreeNode>)
    requires Distinct(s)
    ensures |set m | m in s| == |s|
  {
    if s != [] {
      var rest := s[1..];
      assert Distinct(rest) by {
        forall i, j | 0 <= i < j < |rest|
          ensures rest[i] != rest[j]
        {
          assert rest[i] == s[i + 1] && rest[j] == s[j + 1];
        }
      }
      DistinctCount(rest);
      assert s[0] !in rest by {
        forall i | 0 <= i < |rest|
          ensures rest[i] != s[0]
        {
          assert rest[i] == s[i + 1];
        }
      }
      assert (set m | m in s) == {s[0]} + (set m | m in rest) by {
        assert s == [s[0]] + rest;
      }
    }
  }

  /** A tree the breadth-first build completed holds exactly the nodes of one
      complete subtree from level 0, and PMTree2D::to_string writes `Stride`
      fields for each of them. */
  lemma BuiltTreeSize(cfg: Config, nodes: set<TreeNode>, root: TreeNode)
    requires WellFormed(cfg, nodes) && Complete(cfg, nodes) && Rooted(root, nodes)
    ensures |nodes| == Size(cfg, 0)
    ensures |Stream(ParamsOf(LevelOrder(cfg, nodes, [root])))| == Stride(cfg) * |nodes|
  {
    var order := LevelOrder(cfg, nodes, [root]);
    LevelOrderEachOnce(cfg, nodes, root);
    LevelOrderCount(cfg, nodes, [root]);
    assert [root][..0] == [];
    DistinctCount(order);
    assert (set m | m in order) == nodes;
    StreamSize(cfg, nodes, root);
  }

  /** Records that all have the configured shape are written as `Stride`
      fields each. */
  lemma StreamLength(cfg: Config, ps: seq<Params>)
    requires forall j :: 0 <= j < |ps| ==> Shaped(cfg, ps[j])
    ensures |Stream(ps)| == Offset(cfg, |ps|) == Stride(cfg) * |ps|
  {
    StreamOffset(cfg, ps);
    OffsetIsProduct(cfg, |ps|);
  }

  lemma {:induction false} StreamOffset(cfg: Config, ps: seq<Params>)
    requires forall j :: 0 <= j < |ps| ==> Shaped(cfg, ps[j])
    ensures |Stream(ps)| == Offset(cfg, |ps|)
  {
    if ps != [] {
      StreamOffset(cfg, ps[1..]);
      DecodeFields(cfg, ps[0]);
    }
  }

  /** Block `i` of the stream holds the fields of the `i`-th record, and
      decodes to that record: the stream determines every node's parameters. */
  lemma {:induction false} StreamBlock(cfg: Config, ps: seq<Params>, i: nat)
    requires forall j :: 0 <= j < |ps| ==> Shaped(cfg, ps[j])
    requires i < |ps|
    ensures Offset(cfg, i + 1) <= |Stream(ps)|
    ensures Block(cfg, Stream(ps), i) == Fields(ps[i])
    ensures Decode(cfg, Block(cfg, Stream(ps), i)) == ps[i]
  {
    DecodeFields(cfg, ps[0]);
    var head, rest := Fields(ps[0]), Stream(ps[1..]);
    assert Stream(ps) == head + rest;
    if i > 0 {
      StreamBlock(cfg, ps[1..], i - 1);
      assert ps[1..][i - 1] == ps[i];
      SliceAfter(head, rest, Offset(cfg, i), Offset(cfg, i + 1));
    }
  }

  /** Distinct well-shaped record sequences are written as distinct streams:
      the serialisation loses nothing. */
  lemma StreamInjective(cfg: Config, ps: seq<Params>, qs: seq<Params>)
    requires forall j :: 0 <= j < |ps| ==> Shaped(cfg, ps[j])
    requires forall j :: 0 <= j < |qs| ==> Shaped(cfg, qs[j])
    requires Stream(ps) == Stream(qs)
    ensures ps == qs
  {
    StreamLength(cfg, ps);
    StreamLength(cfg, qs);
    if |ps| < |qs| {
      StreamBlock(cfg, qs, |ps|);
    } else if |qs| < |ps| {
      StreamBlock(cfg, ps, |qs|);
    }
    forall i | 0 <= i < |ps|
      ensures ps[i] == qs[i]
    {
      StreamBlock(cfg, ps, i);
      StreamBlock(cfg, qs, i);
    }
  }

  /** A slice lying wholly past `a` in `a + b` is a slice of `b`. */
  lemma SliceAfter<T>(a: seq<T>, b: seq<T>, x: nat, y: nat)
    requires |a| <= x <= y <= |a| + |b|
    ensures (a + b)[x..y] == b[x - |a|..y - |a|]
  {
  }

  /** Where block `i` of a stream starts: after `i` blocks of `Stride` fields. */
  function Offset(cfg: Config, i: nat): nat
  {
    if i == 0 then 0 else Offset(cfg, i - 1) + Stride(cfg)
  }

  /** Block `i` starts at field `i * Stride`. */
  lemma {:induction false} OffsetIsProduct(cfg: Config, i: nat)
    ensures Offset(cfg, i) == i * Stride(cfg)
  {
    if i > 0 {
      OffsetIsProduct(cfg, i - 1);
      assert i * Stride(cfg) == (i - 1) * Stride(cfg) + Stride(cfg);
    }
  }

  /** The `i`-th block of `Stride` fields of a stream. */
  function Block(cfg: Config, fields: seq<real>, i: nat): (b: seq<real>)
    requires Offset(cfg, i + 1) <= |fields|
    ensures |b| == Stride(cfg)
  {
    fields[Offset(cfg, i)..Offset(cfg, i + 1)]
  }
}
