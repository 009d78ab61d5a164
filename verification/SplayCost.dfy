/** The amortized cost of p1-memory-management/stree.c: every splay is paid for by
    the ranks of the tree. */
module SplayCost {
  import opened Logs
  import opened SplayShape

  function Size(t: Tree): nat {
    match t
    case Leaf => 0
    case Fork(l, _, r) => Size(l) + 1 + Size(r)
  }

  function Rank(t: Tree): nat { if t.Leaf? then 0 else Log2(Size(t)) }

  /** The potential: the sum of the ranks of all subtrees. */
  function Phi(t: Tree): nat {
    match t
    case Leaf => 0
    case Fork(l, _, r) => Phi(l) + Rank(t) + Phi(r)
  }

  function SideSize(c: Crumb): nat {
    match c
    case FromLeft(_, r) => Size(r)
    case FromRight(l, _) => Size(l)
  }

  function SidePhi(c: Crumb): nat {
    match c
    case FromLeft(_, r) => Phi(r)
    case FromRight(l, _) => Phi(l)
  }

  /** The potential of the path above a subtree of n nodes. */
  function PathPhi(n: nat, path: seq<Crumb>): nat
    decreases |path|
  {
    if path == [] then 0
    else
      var m := n + 1 + SideSize(path[0]);
      SidePhi(path[0]) + Log2(m) + PathPhi(m, path[1..])
  }

  function PathSize(n: nat, path: seq<Crumb>): nat
    decreases |path|
  {
    if path == [] then n else PathSize(n + 1 + SideSize(path[0]), path[1..])
  }

  lemma {:induction false} PlugPhi(t: Tree, path: seq<Crumb>)
    ensures Phi(Plug(t, path)) == Phi(t) + PathPhi(Size(t), path)
    ensures Size(Plug(t, path)) == PathSize(Size(t), path)
    decreases |path|
  {
    if path != [] {
      var up := Fill(t, path[0]);
      FillPhi(t, path[0]);
      PlugPhi(up, path[1..]);
      assert Plug(t, path) == Plug(up, path[1..]);
    }
  }

  lemma FillPhi(t: Tree, c: Crumb)
    ensures Size(Fill(t, c)) == Size(t) + 1 + SideSize(c)
    ensures Phi(Fill(t, c)) == Phi(t) + SidePhi(c) + Log2(Size(t) + 1 + SideSize(c))
  {
    match c
    case FromLeft(_, _) =>
    case FromRight(_, _) =>
  }

  lemma {:induction false} PathGrows(n: nat, path: seq<Crumb>)
    ensures PathSize(n, path) >= n
    decreases |path|
  {
    if path != [] { PathGrows(n + 1 + SideSize(path[0]), path[1..]); }
  }

  lemma SizeIsInorder(t: Tree)
    ensures Size(t) == |Inorder(t)|
  {
  }

  // ---------------------------------------------------------------- one iteration

  /** zig: the last iteration, one rotation. */
  lemma ZigCost(t: Tree, c: Crumb)
    requires t.Fork?
    ensures var t' := SplayStep(t, [c]).0;
            Size(t') == Size(Fill(t, c)) && Phi(t') - Phi(Fill(t, c)) <= 3 * (Rank(t') - Rank(t)) &&
            Rank(t') >= Rank(t)
  {
    var Fork(a, x, b) := t;
    match c
    case FromLeft(p, r) => RankOfParts(a, x, Fork(b, p, r)); RankOfParts(t, p, r);
    case FromRight(l, p) => RankOfParts(Fork(l, p, a), x, b); RankOfParts(l, p, t);
  }

  /** A subtree is smaller than the tree. */
  lemma RankOfParts(l: Tree, n: Node, r: Tree)
    ensures Size(Fork(l, n, r)) == Size(l) + 1 + Size(r) && Phi(Fork(l, n, r)) == Phi(l) + Rank(Fork(l, n, r)) + Phi(r)
    ensures Rank(l) <= Rank(Fork(l, n, r)) && Rank(r) <= Rank(Fork(l, n, r))
  {
    if l.Fork? { Log2Monotone(Size(l), Size(Fork(l, n, r))); }
    if r.Fork? { Log2Monotone(Size(r), Size(Fork(l, n, r))); }
  }

  /** What two rotations may cost: one iteration, paid by the ranks. */
  ghost predicate PaysForTwo(t: Tree, c0: Crumb, c1: Crumb)
    requires t.Fork?
  {
    var t' := SplayStep(t, [c0, c1]).0;
    Size(t') == Size(Fill(Fill(t, c0), c1)) && Rank(t') >= Rank(t) &&
    1 + Phi(t') - Phi(Fill(Fill(t, c0), c1)) <= 3 * (Rank(t') - Rank(t))
  }

  lemma StraightCost(t: Tree, c0: Crumb, c1: Crumb)
    requires t.Fork? && (c0.FromLeft? <==> c1.FromLeft?)
    ensures PaysForTwo(t, c0, c1)
  {
    var Fork(a, x, b) := t;
    var t' := SplayStep(t, [c0, c1]).0;
    var mid := Fill(t, c0);
    match (c0, c1)
    case (FromLeft(p, c), FromLeft(g, d)) =>
      var low := Fork(c, g, d);
      RankOfParts(t, p, c); RankOfParts(mid, g, d);
      RankOfParts(c, g, d); RankOfParts(b, p, low); RankOfParts(a, x, Fork(b, p, low));
      ZigZig(t, mid, t', Fork(b, p, low), low);
    case (FromRight(c, p), FromRight(d, g)) =>
      var low := Fork(d, g, c);
      RankOfParts(c, p, t); RankOfParts(d, g, mid);
      RankOfParts(d, g, c); RankOfParts(low, p, a); RankOfParts(Fork(low, p, a), x, b);
      ZigZig(t, mid, t', Fork(low, p, a), low);
  }

  lemma BentCost(t: Tree, c0: Crumb, c1: Crumb)
    requires t.Fork? && (c0.FromLeft? <==> c1.FromRight?)
    ensures PaysForTwo(t, c0, c1)
  {
    var Fork(a, x, b) := t;
    var t' := SplayStep(t, [c0, c1]).0;
    var mid := Fill(t, c0);
    match (c0, c1)
    case (FromLeft(p, c), FromRight(d, g)) =>
      RankOfParts(t, p, c); RankOfParts(d, g, mid);
      RankOfParts(d, g, a); RankOfParts(b, p, c); RankOfParts(Fork(d, g, a), x, Fork(b, p, c));
      TwoParts(Size(t'.left), Size(t'.right), Size(t'));
    case (FromRight(c, p), FromLeft(g, d)) =>
      RankOfParts(c, p, t); RankOfParts(mid, g, d);
      RankOfParts(c, p, a); RankOfParts(b, g, d); RankOfParts(Fork(c, p, a), x, Fork(b, g, d));
      TwoParts(Size(t'.left), Size(t'.right), Size(t'));
  }

  /** zig-zig and zig-zag. */
  lemma TwoLevelCost(t: Tree, c0: Crumb, c1: Crumb)
    requires t.Fork?
    ensures PaysForTwo(t, c0, c1)
  {
    if c0.FromLeft? <==> c1.FromLeft? { StraightCost(t, c0, c1); } else { BentCost(t, c0, c1); }
  }

  /** The arithmetic of zig-zig: the old subtree and the new lower one are disjoint. */
  lemma ZigZig(t: Tree, mid: Tree, t': Tree, p': Tree, g': Tree)
    requires t.Fork? && mid.Fork? && t'.Fork? && p'.Fork? && g'.Fork?
    requires Size(t) + Size(g') <= Size(t') && Size(p') <= Size(t') && Rank(mid) >= Rank(t)
    ensures 1 + Rank(p') + Rank(g') - Rank(t) - Rank(mid) <= 3 * (Rank(t') - Rank(t))
  {
    TwoParts(Size(t), Size(g'), Size(t'));
    Log2Monotone(Size(p'), Size(t'));
  }

  // ---------------------------------------------------------------- a whole splay

  /** Access bound: the number of iterations is at most three times the rank
      gained, plus one, plus the drop in potential. */
  lemma {:induction false} SplayBound(t: Tree, path: seq<Crumb>)
    requires t.Fork?
    ensures SplayCount(path) + Phi(Splay(t, path)) <=
              3 * (Rank(Plug(t, path)) - Rank(t)) + 1 + Phi(Plug(t, path))
    ensures Size(Splay(t, path)) == Size(Plug(t, path)) && Plug(t, path).Fork?
    decreases |path|
  {
    PlugPhi(t, path);
    PlugIsFork(t, path);
    SizeIsInorder(Splay(t, path));
    SizeIsInorder(Plug(t, path));
    SplayInorder(t, path);
    if path != [] {
      var (s, rest) := StepSubtree(t, path);
      var (t', path') := SplayStep(t, path);
      StepSubtreePlug(t, path);
      SplayStepInorder(t, path);
      PlugPhi(s, rest);
      PlugPhi(t', rest);
      if |path| == 1 {
        assert path == [path[0]];
        ZigCost(t, path[0]);
      } else {
        assert SplayStep(t, [path[0], path[1]]).0 == t';
        TwoLevelCost(t, path[0], path[1]);
        PlugIsFork(t', rest);
        SplayBound(t', rest);
      }
    }
  }

  lemma {:induction false} PlugIsFork(t: Tree, path: seq<Crumb>)
    requires t.Fork?
    ensures Plug(t, path).Fork?
    decreases |path|
  {
    if path != [] { PlugIsFork(Fill(t, path[0]), path[1..]); }
  }

  // ---------------------------------------------------------------- insertion

  /** Adding one node below a path raises the ranks above it by at most the rank
      of the new root: only sizes one below a power of two change rank. */
  lemma {:induction false} GrowPath(n: nat, path: seq<Crumb>)
    ensures PathPhi(n + 1, path) - PathPhi(n, path) <= Log2(PathSize(n, path) + 1) - Log2(n + 1)
    decreases |path|
  {
    if path != [] {
      var m := n + 1 + SideSize(path[0]);
      GrowPath(m, path[1..]);
      Log2Monotone(n + 1, m);
    }
  }

  /** Inserting a node as a leaf and splaying it: iterations plus the change of
      potential are at most 4 log N + 1, for N nodes afterwards. */
  lemma InsertBound(x: Node, path: seq<Crumb>)
    ensures var t := Fork(Leaf, x, Leaf);
            var n := Size(Plug(t, path));
            n == Size(Plug(Leaf, path)) + 1 &&
            SplayCount(path) + Phi(Splay(t, path)) <= Phi(Plug(Leaf, path)) + 4 * Log2(n) + 1
  {
    var t := Fork(Leaf, x, Leaf);
    LeafPhi(t, path);
    SplayBound(t, path);
  }

  lemma LeafPhi(t: Tree, path: seq<Crumb>)
    requires t.Fork? && Size(t) == 1 && Phi(t) == 0
    ensures Plug(t, path).Fork? && Size(Plug(t, path)) == Size(Plug(Leaf, path)) + 1
    ensures Phi(Plug(t, path)) <= Phi(Plug(Leaf, path)) + Rank(Plug(t, path))
  {
    PlugIsFork(t, path);
    PlugPhi(t, path);
    PlugPhi(Leaf, path);
    GrowPath(0, path);
    PathSizeSucc(0, path);
  }

  lemma {:induction false} PathSizeSucc(n: nat, path: seq<Crumb>)
    ensures PathSize(n + 1, path) == PathSize(n, path) + 1
    decreases |path|
  {
    if path != [] { PathSizeSucc(n + 1 + SideSize(path[0]), path[1..]); }
  }

  // ---------------------------------------------------------------- removal

  /** The leftmost node, and the tree without it. */
  function Minimum(t: Tree): Node
    requires t.Fork?
  {
    if t.left.Leaf? then t.node else Minimum(t.left)
  }

  function WithoutMinimum(t: Tree): Tree
    requires t.Fork?
  {
    if t.left.Leaf? then t.right else Fork(WithoutMinimum(t.left), t.node, t.right)
  }

  /** tree_remove after the splay: the root is replaced. */
  function DropRoot(t: Tree): Tree
    requires t.Fork?
  {
    if t.left.Leaf? then t.right
    else if t.right.Leaf? then t.left
    else Fork(t.left, Minimum(t.right), WithoutMinimum(t.right))
  }

  lemma {:induction false} MinimumIsFirst(t: Tree)
    requires t.Fork?
    ensures Inorder(t) == [Minimum(t)] + Inorder(WithoutMinimum(t))
  {
    if t.left.Fork? {
      MinimumIsFirst(t.left);
      assert Inorder(t) == [Minimum(t)] + (Inorder(WithoutMinimum(t.left)) + [t.node] + Inorder(t.right));
    }
  }

  /** Dropping the root drops exactly its element of the in-order sequence. */
  lemma DropRootInorder(t: Tree)
    requires t.Fork?
    ensures Inorder(DropRoot(t)) == Inorder(t.left) + Inorder(t.right)
  {
    if t.left.Fork? && t.right.Fork? {
      MinimumIsFirst(t.right);
      assert Inorder(t.left) + [Minimum(t.right)] + Inorder(WithoutMinimum(t.right)) ==
             Inorder(t.left) + Inorder(t.right);
    }
  }

  lemma {:induction false} WithoutMinimumPhi(t: Tree)
    requires t.Fork?
    ensures Size(WithoutMinimum(t)) == Size(t) - 1 && Phi(WithoutMinimum(t)) <= Phi(t)
  {
    if t.left.Fork? {
      WithoutMinimumPhi(t.left);
      Log2Monotone(Size(WithoutMinimum(t)), Size(t));
    }
  }

  /** Removing the root never raises the potential. */
  lemma DropRootPhi(t: Tree)
    requires t.Fork?
    ensures Size(DropRoot(t)) == Size(t) - 1 && Phi(DropRoot(t)) <= Phi(t)
  {
    if t.left.Fork? && t.right.Fork? {
      WithoutMinimumPhi(t.right);
      Log2Monotone(Size(DropRoot(t)), Size(t));
    }
  }

  /** Splaying a node and removing it: iterations plus the change of potential are
      at most 3 log N + 1, for N nodes before. */
  lemma RemoveBound(t: Tree, path: seq<Crumb>)
    requires t.Fork?
    ensures SplayCount(path) + Phi(DropRoot(Splay(t, path))) <=
              Phi(Plug(t, path)) + 3 * Log2(Size(Splay(t, path))) + 1
  {
    SplayBound(t, path);
    DropRootPhi(Splay(t, path));
  }
}
