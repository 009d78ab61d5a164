/** The nodes of p1-memory-management/stree.c and the trees they form. */
module SplayShape {
  type Record = nat  // 0 stands for NULL

  class Node {
    const key: int
    const record: Record
    var left: Node?
    var right: Node?
    var parent: Node?

    constructor (key: int, record: Record, parent: Node?)
      ensures this.key == key && this.record == record && this.parent == parent && left == null && right == null
    {
      this.key := key;
      this.record := record;
      this.parent := parent;
      left := null;
      right := null;
    }
  }

  /** The shape of a (sub)tree. */
  datatype Tree = Leaf | Fork(left: Tree, node: Node, right: Tree)

  /** One step up: we are the left child of n (with sibling `right`), or its right
      child (with sibling `left`). */
  datatype Crumb = FromLeft(n: Node, right: Tree) | FromRight(left: Tree, n: Node)

  function Top(t: Tree): Node? {
    if t.Leaf? then null else t.node
  }

  /** The node above the hole. */
  function Above(path: seq<Crumb>): Node? {
    if path == [] then null else path[0].n
  }

  function Fill(t: Tree, c: Crumb): Tree {
    match c
    case FromLeft(n, right) => Fork(t, n, right)
    case FromRight(left, n) => Fork(left, n, t)
  }

  /** The whole tree with t in the hole; path[0] is the nearest crumb. */
  function Plug(t: Tree, path: seq<Crumb>): Tree
    decreases |path|
  {
    if path == [] then t else Plug(Fill(t, path[0]), path[1..])
  }

  function Inorder(t: Tree): seq<Node> {
    match t
    case Leaf => []
    case Fork(l, n, r) => Inorder(l) + [n] + Inorder(r)
  }

  function Before(path: seq<Crumb>): seq<Node>
    decreases |path|
  {
    if path == [] then []
    else Before(path[1..]) + (match path[0] case FromLeft(_, _) => [] case FromRight(l, n) => Inorder(l) + [n])
  }

  function After(path: seq<Crumb>): seq<Node>
    decreases |path|
  {
    if path == [] then []
    else (match path[0] case FromLeft(n, r) => [n] + Inorder(r) case FromRight(_, _) => []) + After(path[1..])
  }

  lemma {:induction false} PlugInorder(t: Tree, path: seq<Crumb>)
    ensures Inorder(Plug(t, path)) == Before(path) + Inorder(t) + After(path)
    decreases |path|
  {
    if path != [] { PlugInorder(Fill(t, path[0]), path[1..]); }
  }

  ghost function Elems(t: Tree): set<Node> {
    match t
    case Leaf => {}
    case Fork(l, n, r) => Elems(l) + {n} + Elems(r)
  }

  ghost function CrumbElems(c: Crumb): set<Node> {
    match c
    case FromLeft(n, r) => {n} + Elems(r)
    case FromRight(l, n) => Elems(l) + {n}
  }

  ghost function PathElems(path: seq<Crumb>): set<Node>
    decreases |path|
  {
    if path == [] then {} else CrumbElems(path[0]) + PathElems(path[1..])
  }

  lemma {:induction false} PlugElems(t: Tree, path: seq<Crumb>)
    ensures Elems(Plug(t, path)) == Elems(t) + PathElems(path)
    decreases |path|
  {
    if path != [] { PlugElems(Fill(t, path[0]), path[1..]); }
  }

  /** No node occurs twice. */
  ghost predicate Separate(t: Tree) {
    match t
    case Leaf => true
    case Fork(l, n, r) => Separate(l) && Separate(r) && n !in Elems(l) && n !in Elems(r) && Elems(l) !! Elems(r)
  }

  ghost predicate CrumbSeparate(c: Crumb) {
    match c
    case FromLeft(n, r) => Separate(r) && n !in Elems(r)
    case FromRight(l, n) => Separate(l) && n !in Elems(l)
  }

  ghost predicate PathSeparate(path: seq<Crumb>)
    decreases |path|
  {
    path != [] ==> CrumbSeparate(path[0]) && CrumbElems(path[0]) !! PathElems(path[1..]) && PathSeparate(path[1..])
  }

  lemma {:induction false} PlugSeparate(t: Tree, path: seq<Crumb>)
    ensures Separate(Plug(t, path)) <==> Separate(t) && PathSeparate(path) && Elems(t) !! PathElems(path)
    decreases |path|
  {
    if path != [] { PlugSeparate(Fill(t, path[0]), path[1..]); }
  }

  // ---------------------------------------------------------------- pointers

  /** The pointers of the nodes of t are those of the tree, under parent p. */
  ghost predicate Mirrors(t: Tree, p: Node?)
    reads Elems(t)
  {
    match t
    case Leaf => true
    case Fork(l, n, r) =>
      n.left == Top(l) && n.right == Top(r) && n.parent == p && Mirrors(l, n) && Mirrors(r, n)
  }

  /** The pointers around the hole, whose top node is `child`. */
  ghost predicate CrumbMirrors(c: Crumb, child: Node?, p: Node?)
    reads CrumbElems(c)
  {
    match c
    case FromLeft(n, r) => n.left == child && n.right == Top(r) && n.parent == p && Mirrors(r, n)
    case FromRight(l, n) => n.left == Top(l) && n.right == child && n.parent == p && Mirrors(l, n)
  }

  ghost predicate PathMirrors(path: seq<Crumb>, child: Node?)
    reads PathElems(path)
    decreases |path|
  {
    path != [] ==> CrumbMirrors(path[0], child, Above(path[1..])) && PathMirrors(path[1..], path[0].n)
  }

  lemma {:induction false} PlugMirrors(t: Tree, path: seq<Crumb>)
    ensures Mirrors(Plug(t, path), null) <==> Mirrors(t, Above(path)) && PathMirrors(path, Top(t))
    decreases |path|
  {
    if path != [] { PlugMirrors(Fill(t, path[0]), path[1..]); }
  }

  // ---------------------------------------------------------------- splaying

  /** One iteration of the splay loop: the subtree t, whose top node is splayed,
      moves up one or two levels. */
  function SplayStep(t: Tree, path: seq<Crumb>): (Tree, seq<Crumb>)
    requires t.Fork? && path != []
  {
    var Fork(a, x, b) := t;
    if |path| == 1 then
      match path[0]
      case FromLeft(p, c) => (Fork(a, x, Fork(b, p, c)), [])
      case FromRight(c, p) => (Fork(Fork(c, p, a), x, b), [])
    else
      match (path[0], path[1])
      case (FromLeft(p, c), FromLeft(g, d)) => (Fork(a, x, Fork(b, p, Fork(c, g, d))), path[2..])
      case (FromRight(c, p), FromRight(d, g)) => (Fork(Fork(Fork(d, g, c), p, a), x, b), path[2..])
      case (FromLeft(p, c), FromRight(d, g)) => (Fork(Fork(d, g, a), x, Fork(b, p, c)), path[2..])
      case (FromRight(c, p), FromLeft(g, d)) => (Fork(Fork(c, p, a), x, Fork(b, g, d)), path[2..])
  }

  function Splay(t: Tree, path: seq<Crumb>): (r: Tree)
    requires t.Fork?
    ensures r.Fork? && r.node == t.node
    decreases |path|
  {
    if path == [] then t
    else
      var (t', path') := SplayStep(t, path);
      Splay(t', path')
  }

  /** The number of iterations of the splay loop. */
  function SplayCount(path: seq<Crumb>): nat { (|path| + 1) / 2 }

  /** The subtree one iteration rearranges, and the path above it. */
  function StepSubtree(t: Tree, path: seq<Crumb>): (Tree, seq<Crumb>)
    requires path != []
  {
    if |path| == 1 then (Fill(t, path[0]), []) else (Fill(Fill(t, path[0]), path[1]), path[2..])
  }

  lemma StepSubtreePlug(t: Tree, path: seq<Crumb>)
    requires path != []
    ensures var (s, rest) := StepSubtree(t, path); Plug(s, rest) == Plug(t, path)
  {
    if |path| == 1 {
      assert path[1..] == [];
    } else {
      assert path[1..][0] == path[1] && path[1..][1..] == path[2..];
    }
  }

  /** A single rotation keeps the in-order sequence. */
  lemma RotationInorder(a: Tree, x: Node, b: Tree, p: Node, c: Tree)
    ensures Inorder(Fork(Fork(a, x, b), p, c)) == Inorder(Fork(a, x, Fork(b, p, c)))
  {
    var i, j, k := Inorder(a), Inorder(b), Inorder(c);
    assert (i + [x] + j) + [p] + k == i + [x] + (j + [p] + k);
  }

  lemma StepInorderLocal(t: Tree, path: seq<Crumb>)
    requires t.Fork? && path != []
    ensures Inorder(SplayStep(t, path).0) == Inorder(StepSubtree(t, path).0)
  {
    var Fork(a, x, b) := t;
    if |path| == 1 {
      match path[0]
      case FromLeft(p, c) => RotationInorder(a, x, b, p, c);
      case FromRight(c, p) => RotationInorder(c, p, a, x, b);
    } else {
      match (path[0], path[1])
      case (FromLeft(p, c), FromLeft(g, d)) =>
        RotationInorder(t, p, c, g, d);
        RotationInorder(a, x, b, p, Fork(c, g, d));
      case (FromRight(c, p), FromRight(d, g)) =>
        RotationInorder(d, g, c, p, t);
        RotationInorder(Fork(d, g, c), p, a, x, b);
      case (FromLeft(p, c), FromRight(d, g)) =>
        RotationInorder(a, x, b, p, c);
        RotationInorder(d, g, a, x, Fork(b, p, c));
      case (FromRight(c, p), FromLeft(g, d)) =>
        RotationInorder(c, p, a, x, b);
        RotationInorder(Fork(c, p, a), x, b, g, d);
    }
  }

  /** Each iteration keeps the in-order sequence and brings the node closer to the root. */
  lemma SplayStepInorder(t: Tree, path: seq<Crumb>)
    requires t.Fork? && path != []
    ensures var (t', path') := SplayStep(t, path);
            Inorder(Plug(t', path')) == Inorder(Plug(t, path)) && t'.Fork? && t'.node == t.node &&
            path' == StepSubtree(t, path).1 && SplayCount(path) == 1 + SplayCount(path')
  {
    var (s, rest) := StepSubtree(t, path);
    StepSubtreePlug(t, path);
    StepInorderLocal(t, path);
    PlugInorder(s, rest);
    PlugInorder(SplayStep(t, path).0, rest);
  }

  /** Splaying keeps the in-order sequence and brings the node to the root. */
  lemma {:induction false} SplayInorder(t: Tree, path: seq<Crumb>)
    requires t.Fork?
    ensures Inorder(Splay(t, path)) == Inorder(Plug(t, path))
    decreases |path|
  {
    if path != [] {
      var (t', path') := SplayStep(t, path);
      SplayStepInorder(t, path);
      SplayInorder(t', path');
    }
  }

  // ---------------------------------------------------------------- the map of a tree

  ghost predicate Sorted(ns: seq<Node>) {
    forall i, j :: 0 <= i < j < |ns| ==> ns[i].key < ns[j].key
  }

  ghost function ToMap(ns: seq<Node>): map<int, Record> {
    if ns == [] then map[] else ToMap(ns[..|ns| - 1])[ns[|ns| - 1].key := ns[|ns| - 1].record]
  }

  lemma {:induction false} ToMapKeys(ns: seq<Node>)
    requires Sorted(ns)
    ensures forall k :: k in ToMap(ns) <==> exists i :: 0 <= i < |ns| && ns[i].key == k
    ensures forall i :: 0 <= i < |ns| ==> ns[i].key in ToMap(ns) && ToMap(ns)[ns[i].key] == ns[i].record
    ensures |ToMap(ns)| == |ns|
  {
    if ns != [] {
      var init, last := ns[..|ns| - 1], ns[|ns| - 1];
      ToMapKeys(init);
      assert last.key !in ToMap(init);
      forall i | 0 <= i < |ns| ensures ns[i].key in ToMap(ns) && ToMap(ns)[ns[i].key] == ns[i].record {
        if i < |ns| - 1 { assert init[i] == ns[i]; }
      }
      forall k ensures k in ToMap(ns) <==> exists i :: 0 <= i < |ns| && ns[i].key == k {
        if k in ToMap(init) {
          var i :| 0 <= i < |init| && init[i].key == k;
          assert ns[i].key == k;
        }
      }
    }
  }

  lemma SortedWithout(a: seq<Node>, n: Node, b: seq<Node>)
    requires Sorted(a + [n] + b)
    ensures Sorted(a + b) && forall i :: 0 <= i < |a + b| ==> (a + b)[i].key != n.key
  {
    var all, rest := a + [n] + b, a + b;
    assert all[|a|] == n;
    forall i | 0 <= i < |rest| ensures rest[i] == all[if i < |a| then i else i + 1] {}
  }

  lemma LaterKey(a: seq<Node>, n: Node, b: seq<Node>)
    requires Sorted(a + [n] + b) && b != []
    ensures n.key < b[|b| - 1].key
  {
    var all := a + [n] + b;
    assert all[|a|] == n && all[|all| - 1] == b[|b| - 1];
  }

  lemma SwapKeys(m: map<int, Record>, n: Node, last: Node)
    requires n.key != last.key
    ensures m[n.key := n.record][last.key := last.record] == m[last.key := last.record][n.key := n.record]
  {
  }

  /** Inserting a node into, or dropping it from, a sorted sequence. */
  lemma {:induction false} ToMapInsert(a: seq<Node>, n: Node, b: seq<Node>)
    requires Sorted(a + [n] + b)
    ensures Sorted(a + b) && n.key !in ToMap(a + b)
    ensures ToMap(a + [n] + b) == ToMap(a + b)[n.key := n.record]
    decreases |b|
  {
    SortedWithout(a, n, b);
    ToMapKeys(a + b);
    if b == [] {
      assert a + [n] + b == a + [n] && (a + [n])[..|a|] == a && a + b == a;
    } else {
      var init, last := b[..|b| - 1], b[|b| - 1];
      ToMapLast(a + [n], b);
      ToMapLast(a, b);
      assert (a + [n] + b)[..|a| + |b|] == a + [n] + init;
      ToMapInsert(a, n, init);
      LaterKey(a, n, b);
      SwapKeys(ToMap(a + init), n, last);
    }
  }

  lemma ToMapLast(a: seq<Node>, b: seq<Node>)
    requires b != []
    ensures var init, last := b[..|b| - 1], b[|b| - 1]; ToMap(a + b) == ToMap(a + init)[last.key := last.record]
  {
    assert (a + b)[..|a + b| - 1] == a + b[..|b| - 1];
  }
}
