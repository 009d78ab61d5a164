/** The splay tree of p1-memory-management/stree.c, with its parent pointers. */
module SplayTrees {
  import opened Logs
  import opened SplayShape
  import opened SplayCost

  function LogOf(n: nat): nat { if n == 0 then 0 else Log2(n) }

  /** A subtree t in the hole of path: pointers in order, no node shared. */
  ghost predicate InPlace(t: Tree, path: seq<Crumb>)
    reads Elems(t), PathElems(path)
  {
    Separate(t) && PathSeparate(path) && Elems(t) !! PathElems(path) &&
    Mirrors(t, Above(path)) && PathMirrors(path, Top(t))
  }

  function RootOf(t: Tree, path: seq<Crumb>): Node? {
    if path == [] then Top(t) else path[|path| - 1].n
  }

  /** One level up. */
  lemma Up(t: Tree, path: seq<Crumb>)
    requires InPlace(t, path) && path != []
    ensures InPlace(Fill(t, path[0]), path[1..]) && RootOf(t, path) == RootOf(Fill(t, path[0]), path[1..])
    ensures Elems(Fill(t, path[0])) + PathElems(path[1..]) == Elems(t) + PathElems(path)
    ensures path[0].n !in Elems(t) && (path[0].FromRight? ==> Top(path[0].left) != Top(t) || t.Leaf?)
    ensures t.Fork? ==>
            t.node.parent == path[0].n && (path[0].n.left == t.node <==> path[0].FromLeft?) &&
            (path[0].n.right == t.node <==> path[0].FromRight?)
    ensures path[0].n.parent == Above(path[1..])
  {
    match path[0]
    case FromLeft(n, r) =>
      assert Mirrors(r, n);
    case FromRight(l, n) =>
      assert Mirrors(l, n);
  }

  /** One level down. */
  lemma Down(t: Tree, c: Crumb, rest: seq<Crumb>)
    requires InPlace(Fill(t, c), rest)
    ensures InPlace(t, [c] + rest) && RootOf(t, [c] + rest) == RootOf(Fill(t, c), rest)
    ensures Elems(Fill(t, c)) + PathElems(rest) == Elems(t) + PathElems([c] + rest)
  {
    assert ([c] + rest)[1..] == rest;
  }

  lemma PathTop(path: seq<Crumb>, x: Node)
    requires path != [] && PathSeparate(path) && x !in PathElems(path)
    ensures path[0].n in PathElems(path) && path[0].n !in PathElems(path[1..]) && path[0].n !in SideElems(path[0])
    ensures path[0].FromRight? ==> Top(path[0].left) != x
  {
  }

  ghost function SideElems(c: Crumb): set<Node> {
    match c
    case FromLeft(_, r) => Elems(r)
    case FromRight(l, _) => Elems(l)
  }

  /** The nodes of a tree that exists are allocated (the frame of a call needs it). */
  lemma {:induction false} TreeAllocated(t: Tree)
    ensures forall o :: o in Elems(t) ==> allocated(o)
  {
    if t.Fork? {
      TreeAllocated(t.left);
      TreeAllocated(t.right);
    }
  }

  lemma {:induction false} PathAllocated(path: seq<Crumb>)
    ensures forall o :: o in PathElems(path) ==> allocated(o)
    decreases |path|
  {
    if path != [] {
      PathAllocated(path[1..]);
      match path[0]
      case FromLeft(n, r) => TreeAllocated(r);
      case FromRight(l, n) => TreeAllocated(l);
    }
  }

  // ---------------------------------------------------------------- searching

  /** What a search for key from t on adds to comparison_count: two for each node it
      leaves, and one for the node it finds. */
  ghost function Comparisons(t: Tree, key: int): nat {
    match t
    case Leaf => 0
    case Fork(l, n, r) => if key == n.key then 1 else 2 + Comparisons(if key > n.key then r else l, key)
  }

  /** The search for key has gone the right way at every crumb. */
  ghost predicate Brackets(path: seq<Crumb>, key: int) {
    (forall m :: m in Before(path) ==> m.key < key) && (forall m :: m in After(path) ==> key < m.key)
  }

  /** The nodes a search for key leaves; tree_remove counts one comparison for each. */
  ghost function Left(t: Tree, key: int): nat {
    match t
    case Leaf => 0
    case Fork(l, n, r) => if key == n.key then 0 else 1 + Left(if key > n.key then r else l, key)
  }

  lemma GoRight(t: Tree, path: seq<Crumb>, key: int)
    requires t.Fork? && Sorted(Inorder(Plug(t, path))) && Brackets(path, key) && key > t.node.key && InPlace(t, path)
    ensures var path' := [FromRight(t.left, t.node)] + path;
            Plug(t.right, path') == Plug(t, path) && Brackets(path', key) && InPlace(t.right, path') &&
            Above(path') == t.node && RootOf(t.right, path') == RootOf(t, path)
  {
    var c := FromRight(t.left, t.node);
    var path' := [c] + path;
    assert path'[1..] == path;
    Down(t.right, c, path);
    SubtreeSorted(t, path);
    assert Before(path') == Before(path) + (Inorder(t.left) + [t.node]);
    assert After(path') == After(path);
  }

  lemma GoLeft(t: Tree, path: seq<Crumb>, key: int)
    requires t.Fork? && Sorted(Inorder(Plug(t, path))) && Brackets(path, key) && key < t.node.key && InPlace(t, path)
    ensures var path' := [FromLeft(t.node, t.right)] + path;
            Plug(t.left, path') == Plug(t, path) && Brackets(path', key) && InPlace(t.left, path') &&
            Above(path') == t.node && RootOf(t.left, path') == RootOf(t, path)
  {
    var c := FromLeft(t.node, t.right);
    var path' := [c] + path;
    assert path'[1..] == path;
    Down(t.left, c, path);
    SubtreeSorted(t, path);
    assert Before(path') == Before(path);
    assert After(path') == [t.node] + Inorder(t.right) + After(path);
  }

  /** The root of a subtree separates the keys around it. */
  lemma SubtreeSorted(t: Tree, path: seq<Crumb>)
    requires t.Fork? && Sorted(Inorder(Plug(t, path)))
    ensures forall m :: m in Inorder(t.left) ==> m.key < t.node.key
    ensures forall m :: m in Inorder(t.right) ==> t.node.key < m.key
    ensures forall m :: m in Before(path) ==> m.key < t.node.key
  {
    PlugInorder(t, path);
    Regroup(Before(path), Inorder(t.left), t.node, Inorder(t.right), After(path));
    Middle(Before(path) + Inorder(t.left), t.node, Inorder(t.right) + After(path));
    InConcat(Before(path), Inorder(t.left));
    InConcat(Inorder(t.right), After(path));
  }

  lemma Regroup(p: seq<Node>, l: seq<Node>, n: Node, r: seq<Node>, q: seq<Node>)
    ensures p + (l + [n] + r) + q == (p + l) + [n] + (r + q)
  {
  }

  lemma InConcat(a: seq<Node>, b: seq<Node>)
    ensures (forall m :: m in a ==> m in a + b) && (forall m :: m in b ==> m in a + b)
  {
  }

  lemma Middle(a: seq<Node>, n: Node, b: seq<Node>)
    requires Sorted(a + [n] + b)
    ensures forall m :: m in a ==> m.key < n.key
    ensures forall m :: m in b ==> n.key < m.key
  {
    var all := a + [n] + b;
    assert all[|a|] == n;
    forall m | m in a ensures m.key < n.key {
      var i :| 0 <= i < |a| && a[i] == m;
      assert all[i] == m;
    }
    forall m | m in b ensures n.key < m.key {
      var i :| 0 <= i < |b| && b[i] == m;
      assert all[|a| + 1 + i] == m;
    }
  }

  lemma Found(t: Tree, path: seq<Crumb>, key: int)
    requires t.Fork? && t.node.key == key && Sorted(Inorder(Plug(t, path)))
    ensures key in ToMap(Inorder(Plug(t, path))) && ToMap(Inorder(Plug(t, path)))[key] == t.node.record
  {
    PlugInorder(t, path);
    Regroup(Before(path), Inorder(t.left), t.node, Inorder(t.right), After(path));
    ToMapInsert(Before(path) + Inorder(t.left), t.node, Inorder(t.right) + After(path));
  }

  lemma NotFound(path: seq<Crumb>, key: int)
    requires Brackets(path, key)
    ensures key !in ToMap(Inorder(Plug(Leaf, path)))
  {
    PlugInorder(Leaf, path);
    var all := Inorder(Plug(Leaf, path));
    assert all == Before(path) + After(path);
    if key in ToMap(all) { var n := KeyNode(all, key); }
  }

  lemma NearestSide(path: seq<Crumb>, key: int)
    requires path != [] && Brackets(path, key)
    ensures path[0].FromRight? <==> path[0].n.key < key
    ensures path[0].FromLeft? <==> key < path[0].n.key
  {
    match path[0]
    case FromLeft(n, r) => assert n in After(path);
    case FromRight(l, n) => assert n in Before(path);
  }

  lemma InsertedMap(z: Node, path: seq<Crumb>)
    requires Brackets(path, z.key) && Sorted(Inorder(Plug(Leaf, path)))
    ensures var all := Inorder(SplayShape.Splay(Fork(Leaf, z, Leaf), path));
            Sorted(all) && ToMap(all) == ToMap(Inorder(Plug(Leaf, path)))[z.key := z.record]
  {
    var a, b := Before(path), After(path);
    AroundLeaf(z, path, a, b);
    SortedWith(a, z, b);
    ToMapInsert(a, z, b);
  }

  /** The nodes in order without the new leaf, and with it at the root. */
  lemma AroundLeaf(z: Node, path: seq<Crumb>, a: seq<Node>, b: seq<Node>)
    requires a == Before(path) && b == After(path)
    ensures Inorder(Plug(Leaf, path)) == a + b
    ensures Inorder(SplayShape.Splay(Fork(Leaf, z, Leaf), path)) == a + [z] + b
  {
    var leaf := Fork(Leaf, z, Leaf);
    SplayInorder(leaf, path);
    PlugInorder(leaf, path);
    PlugInorder(Leaf, path);
    assert a + Inorder(Leaf) + b == a + b;
    assert Inorder(leaf) == [z];
  }

  lemma SortedWith(a: seq<Node>, n: Node, b: seq<Node>)
    requires Sorted(a + b) && (forall m :: m in a ==> m.key < n.key) && (forall m :: m in b ==> n.key < m.key)
    ensures Sorted(a + [n] + b)
  {
    var all, rest := a + [n] + b, a + b;
    forall i, j | 0 <= i < j < |all| ensures all[i].key < all[j].key {
      assert i < |a| ==> all[i] == rest[i] && all[i] in a;
      assert i > |a| ==> all[i] == rest[i - 1];
      assert j < |a| ==> all[j] == rest[j];
      assert j > |a| ==> all[j] == rest[j - 1] && all[j] in b;
    }
  }

  /** k is the greatest key of m that is not above the query. */
  ghost predicate IsFloor(m: map<int, Record>, query: int, k: int) {
    k in m && k <= query && forall j :: j in m && j <= query ==> j <= k
  }

  /** What tree_find_nearest promises. */
  ghost predicate IsNearest(m: map<int, Record>, query: int, r: Record) {
    if exists k :: IsFloor(m, query, k) then exists k :: IsFloor(m, query, k) && r == m[k]
    else (forall k :: k in m ==> k > query) && r == 0
  }

  lemma {:induction false} KeyNode(ns: seq<Node>, k: int) returns (n: Node)
    requires k in ToMap(ns)
    ensures n in ns && n.key == k
  {
    if ns[|ns| - 1].key == k { n := ns[|ns| - 1]; } else { n := KeyNode(ns[..|ns| - 1], k); }
  }

  /** The nearest node so far: the last one the search went right at. */
  ghost predicate LastRight(n: Node?, path: seq<Crumb>) {
    n == if Before(path) == [] then null else Before(path)[|Before(path)| - 1]
  }

  /** Between the keys of a, which are smaller, and those of b, which are greater,
      the floor is the last of a. */
  lemma FloorOfSplit(a: seq<Node>, b: seq<Node>, key: int)
    requires Sorted(a + b) && a != []
    requires (forall m :: m in a ==> m.key < key) && (forall m :: m in b ==> key < m.key)
    ensures var last := a[|a| - 1]; IsFloor(ToMap(a + b), key, last.key) && ToMap(a + b)[last.key] == last.record
  {
    var init, last := a[..|a| - 1], a[|a| - 1];
    assert a + b == init + [last] + b;
    ToMapInsert(init, last, b);
    Middle(init, last, b);
    var m := ToMap(a + b);
    forall j | j in m && j <= key ensures j <= last.key {
      var x := KeyNode(a + b, j);
      assert x in init || x == last || x in b;
    }
    assert last in a;
  }

  lemma FloorOfPath(path: seq<Crumb>, key: int, n: Node?)
    requires Brackets(path, key) && Sorted(Inorder(Plug(Leaf, path))) && LastRight(n, path)
    ensures IsNearest(ToMap(Inorder(Plug(Leaf, path))), key, if n == null then 0 else n.record)
  {
    PlugInorder(Leaf, path);
    var a, b := Before(path), After(path);
    assert Inorder(Plug(Leaf, path)) == a + b;
    var m := ToMap(a + b);
    if a == [] {
      forall j | j in m ensures j > key { var x := KeyNode(a + b, j); assert x in b; }
    } else {
      FloorOfSplit(a, b, key);
      FloorIsUnique(m, key, n.key);
    }
  }

  lemma FloorIsUnique(m: map<int, Record>, key: int, k: int)
    requires IsFloor(m, key, k)
    ensures forall j :: IsFloor(m, key, j) ==> j == k
  {
  }

  lemma FoundIsNearest(t: Tree, path: seq<Crumb>, key: int)
    requires t.Fork? && t.node.key == key && Sorted(Inorder(Plug(t, path)))
    ensures IsNearest(ToMap(Inorder(Plug(t, path))), key, t.node.record)
  {
    Found(t, path, key);
    assert IsFloor(ToMap(Inorder(Plug(t, path))), key, key);
  }

  lemma NextNearest(t: Tree, path: seq<Crumb>, n: Node?)
    requires t.Fork? && Sorted(Inorder(Plug(t, path))) && LastRight(n, path)
    ensures n != null ==> n.key < t.node.key
    ensures LastRight(t.node, [FromRight(t.left, t.node)] + path) && LastRight(n, [FromLeft(t.node, t.right)] + path)
  {
    SubtreeSorted(t, path);
    assert ([FromRight(t.left, t.node)] + path)[1..] == path;
    assert ([FromLeft(t.node, t.right)] + path)[1..] == path;
    assert Before([FromRight(t.left, t.node)] + path) == Before(path) + (Inorder(t.left) + [t.node]);
    assert Before([FromLeft(t.node, t.right)] + path) == Before(path) + [];
  }

  /** One step of the search to the right, and one to the left. */
  lemma NearestRight(t: Tree, path: seq<Crumb>, key: int, n: Node?)
    requires t.Fork? && Sorted(Inorder(Plug(t, path))) && Brackets(path, key) && key > t.node.key && InPlace(t, path)
    requires LastRight(n, path)
    ensures n != null ==> n.key < t.node.key
    ensures var path' := [FromRight(t.left, t.node)] + path;
      && Plug(t.right, path') == Plug(t, path) && Brackets(path', key) && InPlace(t.right, path')
      && LastRight(t.node, path')
  {
    GoRight(t, path, key);
    NextNearest(t, path, n);
  }

  lemma NearestLeft(t: Tree, path: seq<Crumb>, key: int, n: Node?)
    requires t.Fork? && Sorted(Inorder(Plug(t, path))) && Brackets(path, key) && key < t.node.key && InPlace(t, path)
    requires LastRight(n, path)
    ensures var path' := [FromLeft(t.node, t.right)] + path;
      && Plug(t.left, path') == Plug(t, path) && Brackets(path', key) && InPlace(t.left, path')
      && LastRight(n, path')
  {
    GoLeft(t, path, key);
    NextNearest(t, path, n);
  }

  // ---------------------------------------------------------------- removal

  /** The splayed tree without its root stands for the map without the key. */
  lemma RemovedMap(t: Tree, path: seq<Crumb>)
    requires t.Fork? && Sorted(Inorder(Plug(t, path)))
    ensures var s := SplayShape.Splay(t, path);
            Sorted(Inorder(DropRoot(s))) && ToMap(Inorder(DropRoot(s))) == ToMap(Inorder(Plug(t, path))) - {t.node.key}
  {
    var s := SplayShape.Splay(t, path);
    SplayInorder(t, path);
    DropRootInorder(s);
    ToMapInsert(Inorder(s.left), t.node, Inorder(s.right));
  }

  lemma RemovedBudget(t: Tree, path: seq<Crumb>, splays: nat, u: nat, peak: nat)
    requires t.Fork? && splays + Phi(Plug(t, path)) <= Budget(u, peak) && Size(Plug(t, path)) <= peak
    ensures var d := DropRoot(SplayShape.Splay(t, path));
            splays + SplayCount(path) + Phi(d) <= Budget(u + 1, peak) && Size(d) == Size(Plug(t, path)) - 1
  {
    var s := SplayShape.Splay(t, path);
    RemoveBound(t, path);
    SplayBound(t, path);
    DropRootPhi(s);
    NextBudget(u, splays + SplayCount(path) + Phi(DropRoot(s)), peak, peak, Size(s));
  }

  /** Filling the crumbs of `down` one by one. */
  lemma {:induction false} UpAll(t: Tree, down: seq<Crumb>, base: seq<Crumb>)
    requires InPlace(t, down + base)
    ensures InPlace(Plug(t, down), base)
    decreases |down|
  {
    if down == [] {
      assert [] + base == base;
    } else {
      Up(t, down + base);
      assert (down + base)[1..] == down[1..] + base;
      UpAll(Fill(t, down[0]), down[1..], base);
    }
  }

  lemma LeftAgain(t: Tree, down: seq<Crumb>, base: seq<Crumb>)
    requires t.Fork? && InPlace(t, down + base)
    ensures var down' := [FromLeft(t.node, t.right)] + down;
            InPlace(t.left, down' + base) && Plug(t.left, down') == Plug(t, down) &&
            (t.left.Fork? ==> Plug(WithoutMinimum(t.left), down') == Plug(WithoutMinimum(t), down))
  {
    var c := FromLeft(t.node, t.right);
    Down(t.left, c, down + base);
    assert [c] + (down + base) == ([c] + down) + base;
    assert ([c] + down)[1..] == down;
  }

  lemma {:induction false} PlugOfNonempty(t: Tree, down: seq<Crumb>)
    requires down != []
    ensures Plug(t, down).Fork?
    decreases |down|
  {
    PlugIsFork(Fill(t, down[0]), down[1..]);
  }

  /** Below the top of the path, the parent of the hole is not the node at the top. */
  lemma DeepParent(t: Tree, down: seq<Crumb>, base: seq<Crumb>, z: Node)
    requires InPlace(t, down + base) && down != [] && base != [] && base[0].n == z
    ensures Above(down + base) != z
  {
    var path := down + base;
    assert path[1..] == down[1..] + base;
    BaseInPath(down[1..], base);
    assert path[0].n in CrumbElems(path[0]);
  }

  lemma {:induction false} BaseInPath(down: seq<Crumb>, base: seq<Crumb>)
    requires base != []
    ensures base[0].n in PathElems(down + base)
    decreases |down|
  {
    if down == [] {
      assert [] + base == base;
    } else {
      assert (down + base)[1..] == down[1..] + base;
      BaseInPath(down[1..], base);
    }
  }

  lemma {:induction false} MinimumElems(t: Tree)
    requires t.Fork? && Separate(t)
    ensures Minimum(t) in Elems(t) && Minimum(t) !in Elems(WithoutMinimum(t))
    ensures Elems(WithoutMinimum(t)) <= Elems(t) && Separate(WithoutMinimum(t))
  {
    if t.left.Fork? { MinimumElems(t.left); }
  }

  // ---------------------------------------------------------------- the budget

  /** What u updates may cost on trees of at most n nodes. */
  ghost function Budget(u: nat, n: nat): nat {
    if u == 0 then 0 else Budget(u - 1, n) + 4 * LogOf(n) + 1
  }

  lemma {:induction false} BudgetIsProduct(u: nat, n: nat)
    ensures Budget(u, n) == u * (4 * LogOf(n) + 1)
  {
    if u > 0 {
      BudgetIsProduct(u - 1, n);
      assert u * (4 * LogOf(n) + 1) == (u - 1) * (4 * LogOf(n) + 1) + (4 * LogOf(n) + 1);
    }
  }

  lemma LogOfMonotone(a: nat, b: nat)
    requires a <= b
    ensures LogOf(a) <= LogOf(b)
  {
    if a > 0 { Log2Monotone(a, b); }
  }

  lemma {:induction false} BudgetMonotone(u: nat, was: nat, peak: nat)
    requires was <= peak
    ensures Budget(u, was) <= Budget(u, peak)
  {
    LogOfMonotone(was, peak);
    if u > 0 { BudgetMonotone(u - 1, was, peak); }
  }

  /** One more update pays for 4 log N + 1 more. */
  lemma NextBudget(u: nat, cost: nat, was: nat, peak: nat, n: nat)
    requires was <= peak && n <= peak && cost <= Budget(u, was) + 4 * LogOf(n) + 1
    ensures cost <= Budget(u + 1, peak)
  {
    BudgetMonotone(u, was, peak);
    LogOfMonotone(n, peak);
  }

  lemma InsertedBudget(z: Node, path: seq<Crumb>, all: Tree, splays: nat, u: nat, was: nat, peak: nat)
    requires Plug(Leaf, path) == all && splays + Phi(all) <= Budget(u, was)
    requires was <= peak && Size(all) + 1 <= peak
    ensures var t := SplayShape.Splay(Fork(Leaf, z, Leaf), path);
            splays + SplayCount(path) + Phi(t) <= Budget(u + 1, peak) && Size(t) == Size(all) + 1
  {
    InsertBound(z, path);
    SplayBound(Fork(Leaf, z, Leaf), path);
    var t := SplayShape.Splay(Fork(Leaf, z, Leaf), path);
    NextBudget(u, splays + SplayCount(path) + Phi(t), was, peak, Size(all) + 1);
  }

  /** What splaying the new leaf makes of the tree's map and of its budget. */
  lemma LeafSplayed(z: Node, path: seq<Crumb>, all: Tree, splays: nat, u: nat, was: nat, peak: nat, cost: nat)
    requires Plug(Leaf, path) == all && Sorted(Inorder(all)) && Brackets(path, z.key) && cost <= 2 * |path|
    requires splays + Phi(all) <= Budget(u, was) && was <= peak && Size(all) + 1 <= peak
    ensures var t := SplayShape.Splay(Fork(Leaf, z, Leaf), path);
      && Sorted(Inorder(t)) && ToMap(Inorder(t)) == ToMap(Inorder(all))[z.key := z.record]
      && splays + SplayCount(path) + Phi(t) <= Budget(u + 1, peak) && Size(t) == Size(all) + 1
      && t.Fork? && t.node == z && cost <= 4 * SplayCount(path)
  {
    InsertedMap(z, path);
    InsertedBudget(z, path, all, splays, u, was, peak);
  }

  /** The pieces a rotation moves: subtrees a, b, c, nodes y < x, and the path above. */
  ghost predicate Pieces(a: Tree, y: Node, b: Tree, x: Node, c: Tree, path: seq<Crumb>) {
    x != y && x !in Elems(a) && x !in Elems(b) && x !in Elems(c) && y !in Elems(a) && y !in Elems(b) &&
    y !in Elems(c) &&
    Elems(a) !! Elems(b) && Elems(a) !! Elems(c) && Elems(b) !! Elems(c) && Separate(a) && Separate(b) && Separate(c) &&
    PathSeparate(path) && x !in PathElems(path) && y !in PathElems(path) &&
    Elems(a) !! PathElems(path) && Elems(b) !! PathElems(path) && Elems(c) !! PathElems(path) &&
    (b.Fork? ==> b.node in Elems(b))
  }

  ghost function PieceElems(a: Tree, y: Node, b: Tree, x: Node, c: Tree): set<Node> {
    Elems(a) + Elems(b) + Elems(c) + {x, y}
  }

  /** x on top, y its left child. */
  ghost predicate LeftLeaning(a: Tree, y: Node, b: Tree, x: Node, c: Tree, path: seq<Crumb>)
    reads PieceElems(a, y, b, x, c), PathElems(path)
  {
    Pieces(a, y, b, x, c, path) &&
    x.left == y && x.right == Top(c) && x.parent == Above(path) && y.left == Top(a) && y.right == Top(b) &&
    y.parent == x &&
    Mirrors(a, y) && Mirrors(b, y) && Mirrors(c, x) && PathMirrors(path, x)
  }

  /** y on top, x its right child. */
  ghost predicate RightLeaning(a: Tree, y: Node, b: Tree, x: Node, c: Tree, path: seq<Crumb>)
    reads PieceElems(a, y, b, x, c), PathElems(path)
  {
    Pieces(a, y, b, x, c, path) &&
    y.left == Top(a) && y.right == x && y.parent == Above(path) && x.left == Top(b) && x.right == Top(c) &&
    x.parent == y &&
    Mirrors(a, y) && Mirrors(b, x) && Mirrors(c, x) && PathMirrors(path, y)
  }

  lemma LeftLeaningTree(a: Tree, y: Node, b: Tree, x: Node, c: Tree, path: seq<Crumb>)
    ensures InPlace(Fork(Fork(a, y, b), x, c), path) <==> LeftLeaning(a, y, b, x, c, path)
    ensures Elems(Fork(Fork(a, y, b), x, c)) == PieceElems(a, y, b, x, c)
  {
    var low := Fork(a, y, b);
    assert Elems(low) == Elems(a) + {y} + Elems(b);
    assert Separate(low) <==> Separate(a) && Separate(b) && y !in Elems(a) && y !in Elems(b) && Elems(a) !! Elems(b);
    assert Mirrors(low, x) <==>
           y.left == Top(a) && y.right == Top(b) && y.parent == x && Mirrors(a, y) && Mirrors(b, y);
    assert Elems(Fork(low, x, c)) == Elems(low) + {x} + Elems(c);
    TwoForks(a, y, b, x, c, path);
  }

  lemma RightLeaningTree(a: Tree, y: Node, b: Tree, x: Node, c: Tree, path: seq<Crumb>)
    ensures InPlace(Fork(a, y, Fork(b, x, c)), path) <==> RightLeaning(a, y, b, x, c, path)
    ensures Elems(Fork(a, y, Fork(b, x, c))) == PieceElems(a, y, b, x, c)
  {
    var low := Fork(b, x, c);
    assert Elems(low) == Elems(b) + {x} + Elems(c);
    assert Separate(low) <==> Separate(b) && Separate(c) && x !in Elems(b) && x !in Elems(c) && Elems(b) !! Elems(c);
    assert Mirrors(low, y) <==>
           x.left == Top(b) && x.right == Top(c) && x.parent == y && Mirrors(b, x) && Mirrors(c, x);
    assert Elems(Fork(a, y, low)) == Elems(a) + {y} + Elems(low);
    TwoForks(a, y, b, x, c, path);
  }

  /** Both leanings have the same nodes, and share none in the same cases. */
  lemma TwoForks(a: Tree, y: Node, b: Tree, x: Node, c: Tree, path: seq<Crumb>)
    ensures Pieces(a, y, b, x, c, path) <==>
              Separate(Fork(Fork(a, y, b), x, c)) && PathSeparate(path) &&
              Elems(Fork(Fork(a, y, b), x, c)) !! PathElems(path)
    ensures Pieces(a, y, b, x, c, path) <==>
              Separate(Fork(a, y, Fork(b, x, c))) && PathSeparate(path) &&
              Elems(Fork(a, y, Fork(b, x, c))) !! PathElems(path)
  {
    assert Elems(Fork(a, y, b)) == Elems(a) + {y} + Elems(b);
    assert Elems(Fork(b, x, c)) == Elems(b) + {x} + Elems(c);
    assert Separate(Fork(a, y, b)) <==>
           Separate(a) && Separate(b) && y !in Elems(a) && y !in Elems(b) && Elems(a) !! Elems(b);
    assert Separate(Fork(b, x, c)) <==>
           Separate(b) && Separate(c) && x !in Elems(b) && x !in Elems(c) && Elems(b) !! Elems(c);
  }

  /** The nodes a rotation writes lie outside the subtrees it keeps. */
  lemma WrittenOutside(a: Tree, y: Node, b: Tree, x: Node, c: Tree, path: seq<Crumb>)
    requires Pieces(a, y, b, x, c, path)
    ensures b.Fork? ==>
            b.node !in Elems(a) && b.node !in Elems(c) && b.node !in PathElems(path) && b.node != x && b.node != y
    ensures path != [] ==>
            path[0].n in PathElems(path) && path[0].n !in Elems(a) && path[0].n !in Elems(b) &&
            path[0].n !in Elems(c) && path[0].n != x && path[0].n != y
  {
  }

  ghost function ParentOf(path: seq<Crumb>): set<Node> {
    if path == [] then {} else {path[0].n}
  }

  class SplayTree {
    var root: Node?
    var nodeCount: nat
    var comparisonCount: nat
    ghost var tree: Tree
    ghost var splays: nat    // iterations of the splay loop so far
    ghost var updates: nat   // calls of insert and remove so far
    ghost var compared: nat  // comparisons of those that changed the tree
    ghost var peak: nat      // the largest node count so far

    /** The shape, the search order, the count, and the amortized bound on all
        splaying done since the tree was created. */
    ghost predicate Valid()
      reads this`root, this`nodeCount, this`tree, this`splays, this`updates, this`compared, this`peak, Elems(tree)
    {
      InPlace(tree, []) && root == Top(tree) && Sorted(Inorder(tree)) &&
      nodeCount == Size(tree) && nodeCount <= peak &&
      splays + Phi(tree) <= Budget(updates, peak) && compared <= 4 * splays
    }

    /** The finite map the tree stands for. */
    ghost function Map(): map<int, Record>
      reads this`tree
    {
      ToMap(Inorder(tree))
    }

    /** tree_new */
    constructor ()
      ensures Valid() && Map() == map[] && splays == 0 && updates == 0 && compared == 0 && comparisonCount == 0
    {
      root := null;
      nodeCount := 0;
      comparisonCount := 0;
      tree := Leaf;
      splays, updates, compared, peak := 0, 0, 0, 0;
    }

    /** node_count is the size of the map. */
    lemma CountIsSize()
      requires Valid()
      ensures nodeCount == |Map()|
    {
      SizeIsInorder(tree);
      ToMapKeys(Inorder(tree));
    }

    /** Amortized bound: all splaying since tree_new took at most 4 log N + 1
        iterations per insert or remove, where N is the largest node count, and the
        inserts and removes that changed the tree at most 4 times as many
        comparisons. */
    lemma AmortizedBound()
      requires Valid()
      ensures splays <= updates * (4 * LogOf(peak) + 1)
      ensures compared <= 4 * (updates * (4 * LogOf(peak) + 1))
    {
      BudgetIsProduct(updates, peak);
    }

    /** The search of tree_insert: where the key is, or where it belongs. */
    method InsertSearch(key: int) returns (found: bool, p: Node?, ghost path: seq<Crumb>)
      requires Valid()
      modifies this`comparisonCount
      ensures Valid()
      ensures found <==> key in Map()
      ensures comparisonCount == old(comparisonCount) + Comparisons(tree, key)
      ensures !found ==> comparisonCount == old(comparisonCount) + 2 * |path|
      ensures !found ==>
              Plug(Leaf, path) == tree && InPlace(Leaf, path) && p == Above(path) && Brackets(path, key) &&
              root == RootOf(Leaf, path)
    {
      TreeAllocated(tree);
      found, p, path := InsertLoop(key);
    }

    method InsertLoop(key: int) returns (found: bool, p: Node?, ghost path: seq<Crumb>)
      requires Valid()
      modifies this`comparisonCount
      ensures found <==> key in Map()
      ensures comparisonCount == old(comparisonCount) + Comparisons(tree, key)
      ensures !found ==> comparisonCount == old(comparisonCount) + 2 * |path|
      ensures !found ==>
              Plug(Leaf, path) == tree && InPlace(Leaf, path) && p == Above(path) && Brackets(path, key) &&
              root == RootOf(Leaf, path)
    {
      TreeAllocated(tree);
      var z := root;
      p, path, found := null, [], false;
      ghost var t := tree;
      while z != null
        invariant Plug(t, path) == tree && InPlace(t, path) && z == Top(t) && p == Above(path) && Brackets(path, key) &&
                  root == RootOf(t, path)
        invariant comparisonCount == old(comparisonCount) + 2 * |path|
        invariant comparisonCount + Comparisons(t, key) == old(comparisonCount) + Comparisons(tree, key)
        decreases t
      {
        p := z;
        comparisonCount := comparisonCount + 1;
        if key == z.key {
          Found(t, path, key);
          found := true;
          return;
        }
        comparisonCount := comparisonCount + 1;
        if key > z.key {
          GoRight(t, path, key);
          t, path, z := t.right, [FromRight(t.left, t.node)] + path, z.right;
        } else {
          GoLeft(t, path, key);
          t, path, z := t.left, [FromLeft(t.node, t.right)] + path, z.left;
        }
      }
      NotFound(path, key);
    }

    /** tree_insert */
    method Insert(key: int, record: Record) returns (ok: bool)
      requires Valid()
      modifies this, Elems(tree)
      ensures Valid() && forall o :: o in Elems(tree) && o !in old(Elems(tree)) ==> fresh(o)
      ensures ok <==> key !in old(Map())
      ensures Map() == if ok then old(Map())[key := record] else old(Map())
      ensures updates == old(updates) + 1 && peak == (if nodeCount > old(peak) then nodeCount else old(peak))
      ensures comparisonCount == old(comparisonCount + Comparisons(tree, key))
      ensures compared == old(compared) + if ok then comparisonCount - old(comparisonCount) else 0
    {
      var found, p; ghost var path;
      found, p, path := InsertSearch(key);
      if found {
        updates := updates + 1;
        return false;
      }
      assert Elems(tree) == old(Elems(tree));
      InsertAt(key, record, p, path, comparisonCount - old(comparisonCount));
      ok := true;
    }

    method InsertAt(key: int, record: Record, p: Node?, ghost path: seq<Crumb>, ghost cost: nat)
      requires Valid() && Plug(Leaf, path) == tree && InPlace(Leaf, path) && p == Above(path) && Brackets(path, key) &&
               root == RootOf(Leaf, path)
      requires cost <= 2 * |path|
      modifies this, Elems(tree)
      ensures Valid() && forall o :: o in Elems(tree) && o !in old(Elems(tree)) ==> fresh(o)
      ensures Map() == old(Map())[key := record]
      ensures updates == old(updates) + 1 && peak == (if nodeCount > old(peak) then nodeCount else old(peak))
      ensures compared == old(compared) + cost && comparisonCount == old(comparisonCount)
    {
      PlugElems(Leaf, path);
      if path != [] { assert path[0].n in CrumbElems(path[0]); }
      var z := AttachLeaf(key, record, p, path);
      ghost var leaf := Fork(Leaf, z, Leaf);
      ghost var top := if nodeCount + 1 > peak then nodeCount + 1 else peak;
      LeafSplayed(z, path, tree, splays, updates, peak, top, cost);
      SplayLeaf(z, leaf, path, SplayShape.Splay(leaf, path), top, cost);
    }

    /** Splay the new leaf to the root, and count it. */
    method SplayLeaf(z: Node, ghost leaf: Tree, ghost path: seq<Crumb>, ghost s: Tree, ghost top: nat, ghost cost: nat)
      requires InPlace(leaf, path) && leaf.Fork? && leaf.node == z && root == RootOf(leaf, path)
      requires s == SplayShape.Splay(leaf, path) && s.Fork? && s.node == z && Sorted(Inorder(s))
      requires Size(s) == nodeCount + 1 <= top && splays + SplayCount(path) + Phi(s) <= Budget(updates + 1, top)
      requires compared <= 4 * splays && cost <= 4 * SplayCount(path)
      modifies this, Elems(leaf) + PathElems(path)
      ensures Valid() && tree == s && Elems(tree) == Elems(leaf) + PathElems(path) && nodeCount == old(nodeCount) + 1
      ensures updates == old(updates) + 1 && peak == top
      ensures compared == old(compared) + cost && comparisonCount == old(comparisonCount)
    {
      ghost var count := Splay(z, leaf, path);
      nodeCount := nodeCount + 1;
      Commit(s, count, top, cost);
    }

    /** Record a finished update in the ghost fields. */
    ghost method Commit(t: Tree, count: nat, newPeak: nat, cost: nat)
      requires InPlace(t, []) && root == Top(t) && Sorted(Inorder(t)) && nodeCount == Size(t) && nodeCount <= newPeak
      requires splays + count + Phi(t) <= Budget(updates + 1, newPeak)
      requires compared <= 4 * splays && cost <= 4 * count
      modifies this`tree, this`splays, this`updates, this`compared, this`peak
      ensures Valid() && tree == t && updates == old(updates) + 1 && peak == newPeak && compared == old(compared) + cost
    {
      TreeAllocated(t);
      tree, splays, updates, peak := t, splays + count, updates + 1, newPeak;
      compared := compared + cost;
    }

    /** The new node, linked under the last node of the search path. */
    method AttachLeaf(key: int, record: Record, p: Node?, ghost path: seq<Crumb>) returns (z: Node)
      requires InPlace(Leaf, path) && p == Above(path) && Brackets(path, key) && root == RootOf(Leaf, path)
      modifies this`root, ParentOf(path)
      ensures fresh(z) && z.key == key && z.record == record
      ensures InPlace(Fork(Leaf, z, Leaf), path) && root == RootOf(Fork(Leaf, z, Leaf), path)
    {
      PathAllocated(path);
      z := new Node(key, record, p);
      if path != [] {
        PathTop(path, z);
        assert CrumbMirrors(path[0], null, Above(path[1..]));
        NearestSide(path, key);
      }
      if p == null { root := z; }
      else if p.key < z.key { p.right := z; }
      else { p.left := z; }
    }

    /** The search loop of tree_find. */
    method FindSearch(key: int) returns (z: Node?)
      requires Valid()
      modifies this`comparisonCount
      ensures comparisonCount == old(comparisonCount) + Comparisons(tree, key)
      ensures if z == null then key !in Map() else key in Map() && Map()[key] == z.record
    {
      TreeAllocated(tree);
      z := root;
      ghost var t, path: seq<Crumb> := tree, [];
      while z != null
        invariant Plug(t, path) == tree && InPlace(t, path) && z == Top(t) && Brackets(path, key)
        invariant comparisonCount + Comparisons(t, key) == old(comparisonCount) + Comparisons(tree, key)
        decreases t
      {
        comparisonCount := comparisonCount + 1;
        if key == z.key {
          Found(t, path, key);
          return z;
        }
        comparisonCount := comparisonCount + 1;
        if key > z.key {
          GoRight(t, path, key);
          t, path, z := t.right, [FromRight(t.left, t.node)] + path, z.right;
        } else {
          GoLeft(t, path, key);
          t, path, z := t.left, [FromLeft(t.node, t.right)] + path, z.left;
        }
      }
      NotFound(path, key);
    }

    /** tree_find */
    method Find(key: int) returns (r: Record)
      requires Valid()
      modifies this`comparisonCount
      ensures Valid()
      ensures comparisonCount == old(comparisonCount) + Comparisons(tree, key)
      ensures r == if key in Map() then Map()[key] else 0
    {
      TreeAllocated(tree);
      var z := FindSearch(key);
      r := if z != null then z.record else 0;
    }

    /** The search loop of tree_find_nearest: the node whose record is the answer. */
    method NearestSearch(key: int) returns (n: Node?)
      requires Valid()
      modifies this`comparisonCount
      ensures comparisonCount == old(comparisonCount) + Comparisons(tree, key)
      ensures IsNearest(Map(), key, if n == null then 0 else n.record)
    {
      TreeAllocated(tree);
      var z := root;
      n := null;
      ghost var t, path: seq<Crumb> := tree, [];
      while z != null
        invariant Plug(t, path) == tree && InPlace(t, path) && z == Top(t) && Brackets(path, key)
        invariant LastRight(n, path)
        invariant comparisonCount + Comparisons(t, key) == old(comparisonCount) + Comparisons(tree, key)
        decreases t
      {
        comparisonCount := comparisonCount + 1;
        if key == z.key {
          FoundIsNearest(t, path, key);
          return z;
        }
        comparisonCount := comparisonCount + 1;
        if key > z.key {
          NearestRight(t, path, key, n);
          if n == null || n.key < z.key { n := z; }
          t, path, z := t.right, [FromRight(t.left, t.node)] + path, z.right;
        } else {
          NearestLeft(t, path, key, n);
          t, path, z := t.left, [FromLeft(t.node, t.right)] + path, z.left;
        }
      }
      FloorOfPath(path, key, n);
    }

    /** tree_find_nearest: the record of the greatest key not above the query. */
    method FindNearest(key: int) returns (r: Record)
      requires Valid()
      modifies this`comparisonCount
      ensures Valid()
      ensures comparisonCount == old(comparisonCount) + Comparisons(tree, key)
      ensures IsNearest(Map(), key, r)
    {
      TreeAllocated(tree);
      var n := NearestSearch(key);
      r := if n != null then n.record else 0;
    }

    /** The search loop of tree_remove. */
    method RemoveSearch(key: int) returns (z: Node?, ghost t: Tree, ghost path: seq<Crumb>)
      requires Valid()
      modifies this`comparisonCount
      ensures Valid() && z == Top(t) && (z == null <==> key !in Map())
      ensures z != null ==> z.key == key && Map()[key] == z.record
      ensures Plug(t, path) == tree && InPlace(t, path) && root == RootOf(t, path)
      ensures comparisonCount == old(comparisonCount) + |path| == old(comparisonCount) + Left(tree, key)
    {
      TreeAllocated(tree);
      z, t, path := root, tree, [];
      while z != null && z.key != key
        invariant comparisonCount == old(comparisonCount) + |path|
        invariant comparisonCount + Left(t, key) == old(comparisonCount) + Left(tree, key)
        invariant Plug(t, path) == tree && InPlace(t, path) && z == Top(t) && Brackets(path, key) &&
                  root == RootOf(t, path)
        decreases t
      {
        comparisonCount := comparisonCount + 1;
        if key > z.key {
          GoRight(t, path, key);
          t, path, z := t.right, [FromRight(t.left, t.node)] + path, z.right;
        } else {
          GoLeft(t, path, key);
          t, path, z := t.left, [FromLeft(t.node, t.right)] + path, z.left;
        }
      }
      if z == null { NotFound(path, key); } else { Found(t, path, key); }
    }

    /** tree_remove */
    method Remove(key: int) returns (r: Record)
      requires Valid()
      modifies this, Elems(tree)
      ensures Valid() && Elems(tree) <= old(Elems(tree))
      ensures r == if key in old(Map()) then old(Map())[key] else 0
      ensures Map() == old(Map()) - {key}
      ensures updates == old(updates) + 1 && peak == old(peak)
      ensures comparisonCount == old(comparisonCount + Left(tree, key))
      ensures compared == old(compared) + if key in old(Map()) then comparisonCount - old(comparisonCount) else 0
    {
      ghost var cost := Left(tree, key);
      var z; ghost var t, path;
      z, t, path := RemoveSearch(key);
      assert Elems(tree) == old(Elems(tree));
      if z == null {
        updates := updates + 1;
        assert Map() == Map() - {key};
        return 0;
      }
      r := z.record;
      RemoveAt(z, t, path, cost);
    }

    /** tree_remove once the node is found. */
    method RemoveAt(z: Node, ghost t: Tree, ghost path: seq<Crumb>, ghost cost: nat)
      requires Valid() && t.Fork? && z == t.node && Plug(t, path) == tree && InPlace(t, path) && root == RootOf(t, path)
      requires cost <= |path|
      modifies this, Elems(tree)
      ensures Valid() && Elems(tree) <= old(Elems(tree))
      ensures Map() == old(Map()) - {z.key}
      ensures updates == old(updates) + 1 && peak == old(peak)
      ensures compared == old(compared) + cost && comparisonCount == old(comparisonCount)
    {
      PlugElems(t, path);
      RemovedMap(t, path);
      RemovedBudget(t, path, splays, updates, peak);
      SplayOut(z, t, path, SplayShape.Splay(t, path), cost);
    }

    /** Splay the node to the root, take it out there, and count it. */
    method SplayOut(z: Node, ghost t: Tree, ghost path: seq<Crumb>, ghost s: Tree, ghost cost: nat)
      requires InPlace(t, path) && t.Fork? && t.node == z && root == RootOf(t, path)
      requires s == SplayShape.Splay(t, path) && s.Fork? && s.node == z && Sorted(Inorder(DropRoot(s)))
      requires Size(DropRoot(s)) == nodeCount - 1 && nodeCount <= peak
      requires splays + SplayCount(path) + Phi(DropRoot(s)) <= Budget(updates + 1, peak)
      requires compared <= 4 * splays && cost <= 4 * SplayCount(path)
      modifies this, Elems(t) + PathElems(path)
      ensures Valid() && tree == DropRoot(s) && Elems(tree) <= Elems(t) + PathElems(path)
      ensures updates == old(updates) + 1 && peak == old(peak)
      ensures compared == old(compared) + cost && comparisonCount == old(comparisonCount)
    {
      ghost var count := Splay(z, t, path);
      Unroot(z, s.left, s.right);
      nodeCount := nodeCount - 1;
      Commit(DropRoot(s), count, peak, cost);
    }

    /** replace */
    method Replace(u: Node, v: Node?, ghost vt: Tree, ghost was: Node?, ghost path: seq<Crumb>)
      requires PathSeparate(path) && PathMirrors(path, u) && u.parent == Above(path) && u !in PathElems(path)
      requires v == Top(vt) && Separate(vt) && Mirrors(vt, was) && Elems(vt) !! PathElems(path)
      requires v != u
      modifies this`root, ParentOf(path), if vt.Fork? then {vt.node} else {}
      ensures PathMirrors(path, v) && Mirrors(vt, Above(path))
      ensures root == if path == [] then v else old(root)
    {
      TreeAllocated(vt);
      PathAllocated(path);
      if path != [] { PathTop(path, u); }
      Rehang(u, v, path);
      Adopt(v, u.parent, vt, was);
    }

    /** subtree_minimum */
    method SubtreeMinimum(u0: Node, ghost t0: Tree, ghost base: seq<Crumb>)
      returns (u: Node, ghost t: Tree, ghost down: seq<Crumb>)
      requires t0.Fork? && u0 == t0.node && InPlace(t0, base)
      ensures t.Fork? && t.left.Leaf? && u == t.node == Minimum(t0) && InPlace(t, down + base) && u.left == null
      ensures Plug(t, down) == t0 && Plug(t.right, down) == WithoutMinimum(t0)
    {
      u, t, down := u0, t0, [];
      assert [] + base == base;
      while u.left != null
        invariant t.Fork? && u == t.node && InPlace(t, down + base) && Minimum(t) == Minimum(t0)
        invariant Plug(t, down) == t0 && Plug(WithoutMinimum(t), down) == WithoutMinimum(t0)
        decreases t
      {
        LeftAgain(t, down, base);
        u, t, down := u.left, t.left, [FromLeft(t.node, t.right)] + down;
      }
    }

    /** The removal of the root z, whose subtrees are l and r. */
    method Unroot(z: Node, ghost l: Tree, ghost r: Tree)
      requires InPlace(Fork(l, z, r), []) && root == z
      modifies this`root, Elems(Fork(l, z, r))
      ensures InPlace(DropRoot(Fork(l, z, r)), []) && root == Top(DropRoot(Fork(l, z, r)))
      ensures Elems(DropRoot(Fork(l, z, r))) <= Elems(Fork(l, z, r))
    {
      if z.left == null { Replace(z, z.right, r, z, []); }
      else if z.right == null { Replace(z, z.left, l, z, []); }
      else { UnrootBoth(z, l, r); }
    }

    /** The case with two subtrees: the minimum of the right one takes the root's place. */
    method UnrootBoth(z: Node, ghost l: Tree, ghost r: Tree)
      requires InPlace(Fork(l, z, r), []) && root == z && l.Fork? && r.Fork?
      modifies this`root, Elems(Fork(l, z, r))
      ensures InPlace(Fork(l, Minimum(r), WithoutMinimum(r)), []) && root == Minimum(r)
      ensures Elems(Fork(l, Minimum(r), WithoutMinimum(r))) <= Elems(Fork(l, z, r))
    {
      ghost var base, w := [FromRight(l, z)], WithoutMinimum(r);
      Down(r, FromRight(l, z), []);
      assert base + [] == base;
      MinimumElems(r);
      var y := TakeMinimum(z, l, r);
      Crown(z, y, l, w);
    }

    /** The minimum of the right subtree, with the rest of that subtree on its right. */
    method TakeMinimum(z: Node, ghost l: Tree, ghost r: Tree) returns (y: Node)
      requires r.Fork? && InPlace(r, [FromRight(l, z)]) && root == z
      modifies this`root, Elems(r)
      ensures y == Minimum(r) && y.left == null && y.right == Top(WithoutMinimum(r)) && Mirrors(WithoutMinimum(r), y)
      ensures root == z && z.parent == null && z.left == Top(l) && Mirrors(l, z)
    {
      ghost var base := [FromRight(l, z)];
      ghost var t, down;
      AllAllocated(l, r, Leaf, base);
      y, t, down := SubtreeMinimum(z.right, r, base);
      assert InPlace(r, base);
      MinimumElems(r);
      if y.parent != z {
        LiftMinimum(z, y, l, r, t, down);
      } else {
        if down != [] { DeepParent(t, down, base, z); }
      }
    }

    /** The minimum lies deeper: take it out, and put it above the right subtree. */
    method LiftMinimum(z: Node, y: Node, ghost l: Tree, ghost r: Tree, ghost t: Tree, ghost down: seq<Crumb>)
      requires r.Fork? && t.Fork? && t.left.Leaf? && y == t.node == Minimum(r) &&
               InPlace(t, down + [FromRight(l, z)]) && y.parent != z
      requires Plug(t, down) == r && Plug(t.right, down) == WithoutMinimum(r) && root == z
      requires InPlace(r, [FromRight(l, z)])
      modifies this`root, Elems(r)
      ensures y.left == null && y.right == Top(WithoutMinimum(r)) && Mirrors(WithoutMinimum(r), y)
      ensures root == z && z.parent == null && z.left == Top(l) && Mirrors(l, z)
    {
      ghost var w := WithoutMinimum(r);
      MinimumElems(r);
      AllAllocated(l, r, w, []);
      DetachMinimum(z, y, l, r, t, down);
      y.right := z.right;
      Adopt(y.right, y, w, z);
    }

    /** replace(tree, y, y->right), which takes the minimum out of its place. */
    method DetachMinimum(z: Node, y: Node, ghost l: Tree, ghost r: Tree, ghost t: Tree, ghost down: seq<Crumb>)
      requires r.Fork? && t.Fork? && t.left.Leaf? && y == t.node == Minimum(r) &&
               InPlace(t, down + [FromRight(l, z)]) && y.parent != z
      requires Plug(t, down) == r && Plug(t.right, down) == WithoutMinimum(r) && root == z
      modifies this`root, Elems(r)
      ensures InPlace(WithoutMinimum(r), [FromRight(l, z)]) && WithoutMinimum(r).Fork? && root == z && y.left == null
    {
      ghost var path := down + [FromRight(l, z)];
      PlugElems(t, down);
      assert path[0] == if down == [] then FromRight(l, z) else down[0];
      assert down != [] && path[0].n in CrumbElems(down[0]);
      Replace(y, y.right, t.right, y, path);
      UpAll(t.right, down, [FromRight(l, z)]);
      PlugOfNonempty(t.right, down);
    }

    /** replace(tree, z, y), and z's left subtree goes to y. */
    method Crown(z: Node, y: Node, ghost l: Tree, ghost w: Tree)
      requires root == z && z.parent == null && z.left == Top(l) && l.Fork? && Mirrors(l, z)
      requires y.left == null && y.right == Top(w) && Mirrors(w, y)
      requires y != z && Separate(Fork(l, y, w)) && z !in Elems(l) && z !in Elems(w)
      modifies this`root, y, l.node
      ensures InPlace(Fork(l, y, w), []) && root == y
    {
      AllAllocated(l, w, Leaf, []);
      Replace(z, y, Fork(Leaf, y, w), y.parent, []);
      y.left := z.left;
      Adopt(y.left, y, l, z);
    }

    /** Put y where x hangs: at the root, or under x's parent. */
    method Rehang(x: Node, y: Node?, ghost path: seq<Crumb>)
      requires PathSeparate(path) && PathMirrors(path, x) && x.parent == Above(path) && x !in PathElems(path)
      modifies this`root, ParentOf(path)
      ensures PathMirrors(path, y) && root == if path == [] then y else old(root)
    {
      if path != [] {
        PathTop(path, x);
        assert CrumbMirrors(path[0], x, Above(path[1..]));
      }
      if x.parent == null { root := y; }
      else if x == x.parent.left { x.parent.left := y; }
      else { x.parent.right := y; }
    }

    /** `if (v) v->parent = p` */
    method Adopt(v: Node?, p: Node?, ghost vt: Tree, ghost was: Node?)
      requires v == Top(vt) && Separate(vt) && Mirrors(vt, was)
      modifies if vt.Leaf? then {} else {vt.node}
      ensures Mirrors(vt, p)
    {
      if v != null { v.parent := p; }
    }

    /** right_rotate */
    method RightRotate(x: Node, ghost a: Tree, ghost y0: Node, ghost b: Tree, ghost c: Tree, ghost path: seq<Crumb>)
      requires LeftLeaning(a, y0, b, x, c, path)
      modifies this`root, PieceElems(a, y0, b, x, c), ParentOf(path)
      ensures RightLeaning(a, y0, b, x, c, path)
      ensures root == if path == [] then y0 else old(root)
    {
      var y := RightGraft(x, a, y0, b, c, path);
      RightTop(x, y, a, y0, b, c, path);
    }

    /** The second half of right_rotate: y takes x's place, and x goes below it. */
    method RightTop(x: Node, y: Node?, ghost a: Tree, ghost y0: Node, ghost b: Tree, ghost c: Tree,
            ghost path: seq<Crumb>)
      requires y == y0 && Pieces(a, y0, b, x, c, path)
      requires x.left == Top(b) && x.right == Top(c) && x.parent == Above(path) && y0.left == Top(a) &&
               y0.parent == Above(path)
      requires Mirrors(a, y0) && Mirrors(b, x) && Mirrors(c, x) && PathMirrors(path, x)
      modifies this`root, x, y0, ParentOf(path)
      ensures RightLeaning(a, y0, b, x, c, path)
      ensures root == if path == [] then y0 else old(root)
    {
      WrittenOutside(a, y0, b, x, c, path);
      AllAllocated(a, b, c, path);
      Rehang(x, y, path);
      RightHook(x, y, a, y0, b, c, path);
    }

    method RightHook(x: Node, y: Node?, ghost a: Tree, ghost y0: Node, ghost b: Tree, ghost c: Tree,
            ghost path: seq<Crumb>)
      requires y == y0 && Pieces(a, y0, b, x, c, path)
      requires x.left == Top(b) && x.right == Top(c) && y0.left == Top(a) && y0.parent == Above(path)
      requires Mirrors(a, y0) && Mirrors(b, x) && Mirrors(c, x) && PathMirrors(path, y0)
      modifies x, y0
      ensures RightLeaning(a, y0, b, x, c, path)
    {
      AllAllocated(a, b, c, path);
      if y != null { y.right := x; }
      x.parent := y;
    }

    /** The first half of right_rotate: y's right subtree goes to x. */
    method RightGraft(x: Node, ghost a: Tree, ghost y0: Node, ghost b: Tree, ghost c: Tree, ghost path: seq<Crumb>)
      returns (y: Node?)
      requires LeftLeaning(a, y0, b, x, c, path)
      modifies x, y0, if b.Fork? then {b.node} else {}
      ensures y == y0 && x.left == Top(b) && x.right == Top(c) && x.parent == Above(path) && y0.left == Top(a) &&
              y0.parent == Above(path)
      ensures Mirrors(a, y0) && Mirrors(b, x) && Mirrors(c, x) && PathMirrors(path, x)
    {
      WrittenOutside(a, y0, b, x, c, path);
      AllAllocated(a, b, c, path);
      y := x.left;
      if y != null {
        x.left := y.right;
        Adopt(y.right, x, b, y);
        y.parent := x.parent;
      }
    }

    /** left_rotate */
    method LeftRotate(y: Node, ghost a: Tree, ghost b: Tree, ghost x0: Node, ghost c: Tree, ghost path: seq<Crumb>)
      requires RightLeaning(a, y, b, x0, c, path)
      modifies this`root, PieceElems(a, y, b, x0, c), ParentOf(path)
      ensures LeftLeaning(a, y, b, x0, c, path)
      ensures root == if path == [] then x0 else old(root)
    {
      var x := LeftGraft(y, a, b, x0, c, path);
      LeftTop(y, x, a, b, x0, c, path);
    }

    /** The second half of left_rotate: x takes y's place, and y goes below it. */
    method LeftTop(y: Node, x: Node?, ghost a: Tree, ghost b: Tree, ghost x0: Node, ghost c: Tree,
            ghost path: seq<Crumb>)
      requires x == x0 && Pieces(a, y, b, x0, c, path)
      requires y.left == Top(a) && y.right == Top(b) && y.parent == Above(path) && x0.right == Top(c) &&
               x0.parent == Above(path)
      requires Mirrors(a, y) && Mirrors(b, y) && Mirrors(c, x0) && PathMirrors(path, y)
      modifies this`root, y, x0, ParentOf(path)
      ensures LeftLeaning(a, y, b, x0, c, path)
      ensures root == if path == [] then x0 else old(root)
    {
      WrittenOutside(a, y, b, x0, c, path);
      AllAllocated(a, b, c, path);
      Rehang(y, x, path);
      LeftHook(y, x, a, b, x0, c, path);
    }

    method LeftHook(y: Node, x: Node?, ghost a: Tree, ghost b: Tree, ghost x0: Node, ghost c: Tree,
            ghost path: seq<Crumb>)
      requires x == x0 && Pieces(a, y, b, x0, c, path)
      requires y.left == Top(a) && y.right == Top(b) && x0.right == Top(c) && x0.parent == Above(path)
      requires Mirrors(a, y) && Mirrors(b, y) && Mirrors(c, x0) && PathMirrors(path, x0)
      modifies y, x0
      ensures LeftLeaning(a, y, b, x0, c, path)
    {
      AllAllocated(a, b, c, path);
      if x != null { x.left := y; }
      y.parent := x;
    }

    /** The first half of left_rotate: x's left subtree goes to y. */
    method LeftGraft(y: Node, ghost a: Tree, ghost b: Tree, ghost x0: Node, ghost c: Tree, ghost path: seq<Crumb>)
      returns (x: Node?)
      requires RightLeaning(a, y, b, x0, c, path)
      modifies y, x0, if b.Fork? then {b.node} else {}
      ensures x == x0 && y.left == Top(a) && y.right == Top(b) && y.parent == Above(path) && x0.right == Top(c) &&
              x0.parent == Above(path)
      ensures Mirrors(a, y) && Mirrors(b, y) && Mirrors(c, x0) && PathMirrors(path, y)
    {
      WrittenOutside(a, y, b, x0, c, path);
      AllAllocated(a, b, c, path);
      x := y.right;
      if x != null {
        y.right := x.left;
        Adopt(x.left, y, b, x);
        x.parent := y.parent;
      }
    }

    /** splay: every iteration makes the rotations of SplayStep, so the loop ends
        with x at the root after SplayCount(path) iterations. */
    method Splay(x: Node, ghost t0: Tree, ghost path0: seq<Crumb>) returns (ghost count: nat)
      requires InPlace(t0, path0) && t0.Fork? && t0.node == x && root == RootOf(t0, path0)
      modifies this`root, Elems(t0) + PathElems(path0)
      ensures InPlace(SplayShape.Splay(t0, path0), []) && root == x
      ensures Elems(SplayShape.Splay(t0, path0)) == Elems(t0) + PathElems(path0)
      ensures count == SplayCount(path0)
    {
      count := 0;
      ghost var t, path := t0, path0;
      while x.parent != null
        invariant InPlace(t, path) && t.Fork? && t.node == x && root == RootOf(t, path)
        invariant Elems(t) + PathElems(path) == Elems(t0) + PathElems(path0)
        invariant SplayShape.Splay(t, path) == SplayShape.Splay(t0, path0)
        invariant count + SplayCount(path) == SplayCount(path0)
        decreases |path|
      {
        ghost var next := SplayStep(t, path);
        Up(t, path);
        if x.parent.parent == null {
          if x.parent.left == x { Zig(x, t, path); } else { Zag(x, t, path); }
        } else {
          Two(x, t, path);
        }
        t, path := next.0, next.1;
        count := count + 1;
      }
    }

    method Zig(x: Node, ghost t: Tree, ghost path: seq<Crumb>)
      requires InPlace(t, path) && t.Fork? && t.node == x && |path| == 1 && path[0].FromLeft? && root == RootOf(t, path)
      modifies this`root, Elems(t) + PathElems(path)
      ensures InPlace(SplayStep(t, path).0, []) && root == x
      ensures Elems(SplayStep(t, path).0) == Elems(t) + PathElems(path)
    {
      Up(t, path);
      ghost var Fork(a, x0, b) := t;
      ghost var FromLeft(p, c) := path[0];
      LeftLeaningTree(a, x, b, p, c, []);
      assert path[1..] == [];
      RightRotate(x.parent, a, x, b, c, []);
      RightLeaningTree(a, x, b, p, c, []);
    }

    method Zag(x: Node, ghost t: Tree, ghost path: seq<Crumb>)
      requires InPlace(t, path) && t.Fork? && t.node == x && |path| == 1 && path[0].FromRight? &&
               root == RootOf(t, path)
      modifies this`root, Elems(t) + PathElems(path)
      ensures InPlace(SplayStep(t, path).0, []) && root == x
      ensures Elems(SplayStep(t, path).0) == Elems(t) + PathElems(path)
    {
      Up(t, path);
      ghost var Fork(a, x0, b) := t;
      ghost var FromRight(c, p) := path[0];
      RightLeaningTree(c, p, a, x, b, []);
      assert path[1..] == [];
      LeftRotate(x.parent, c, a, x, b, []);
      LeftLeaningTree(c, p, a, x, b, []);
    }

    /** The four two-rotation cases. */
    method Two(x: Node, ghost t: Tree, ghost path: seq<Crumb>)
      requires InPlace(t, path) && t.Fork? && t.node == x && |path| > 1 && root == RootOf(t, path)
      modifies this`root, Elems(t) + PathElems(path)
      ensures var (t', path') := SplayStep(t, path);
              InPlace(t', path') && root == RootOf(t', path') &&
              Elems(t') + PathElems(path') == Elems(t) + PathElems(path)
    {
      Up(t, path);
      Up(Fill(t, path[0]), path[1..]);
      assert path[1..][0] == path[1] && path[1..][1..] == path[2..];
      ghost var rest := path[2..];
      if x.parent.left == x && x.parent.parent.left == x.parent {
        ZigZig(x, t, path[0].n, path[0].right, path[1].n, path[1].right, rest);
      } else if x.parent.right == x && x.parent.parent.right == x.parent {
        ZagZag(x, t, path[0].n, path[0].left, path[1].n, path[1].left, rest);
      } else if x.parent.left == x && x.parent.parent.right == x.parent {
        ZigZag(x, t, path[0].n, path[0].right, path[1].n, path[1].left, rest);
      } else {
        ZagZig(x, t, path[0].n, path[0].left, path[1].n, path[1].right, rest);
      }
    }

    method ZigZig(x: Node, ghost t: Tree, ghost p: Node, ghost c: Tree, ghost g: Node, ghost d: Tree,
            ghost rest: seq<Crumb>)
      requires t.Fork? && t.node == x && InPlace(Fork(Fork(t, p, c), g, d), rest) &&
               root == RootOf(Fork(Fork(t, p, c), g, d), rest)
      requires x.parent == p && p.parent == g
      modifies this`root, Elems(Fork(Fork(t, p, c), g, d)), ParentOf(rest)
      ensures InPlace(Fork(t.left, x, Fork(t.right, p, Fork(c, g, d))), rest)
      ensures root == RootOf(Fork(t.left, x, Fork(t.right, p, Fork(c, g, d))), rest)
      ensures Elems(Fork(t.left, x, Fork(t.right, p, Fork(c, g, d)))) == Elems(Fork(Fork(t, p, c), g, d))
    {
      LeftLeaningTree(t, p, c, g, d, rest);
      RightRotate(x.parent.parent, t, p, c, d, rest);
      RightLeaningTree(t, p, c, g, d, rest);
      LeftLeaningTree(t.left, x, t.right, p, Fork(c, g, d), rest);
      RightRotate(x.parent, t.left, x, t.right, Fork(c, g, d), rest);
      RightLeaningTree(t.left, x, t.right, p, Fork(c, g, d), rest);
    }

    method ZagZag(x: Node, ghost t: Tree, ghost p: Node, ghost c: Tree, ghost g: Node, ghost d: Tree,
            ghost rest: seq<Crumb>)
      requires t.Fork? && t.node == x && InPlace(Fork(d, g, Fork(c, p, t)), rest) &&
               root == RootOf(Fork(d, g, Fork(c, p, t)), rest)
      requires x.parent == p && p.parent == g
      modifies this`root, Elems(Fork(d, g, Fork(c, p, t))), ParentOf(rest)
      ensures InPlace(Fork(Fork(Fork(d, g, c), p, t.left), x, t.right), rest)
      ensures root == RootOf(Fork(Fork(Fork(d, g, c), p, t.left), x, t.right), rest)
      ensures Elems(Fork(Fork(Fork(d, g, c), p, t.left), x, t.right)) == Elems(Fork(d, g, Fork(c, p, t)))
    {
      RightLeaningTree(d, g, c, p, t, rest);
      LeftRotate(x.parent.parent, d, c, p, t, rest);
      LeftLeaningTree(d, g, c, p, t, rest);
      RightLeaningTree(Fork(d, g, c), p, t.left, x, t.right, rest);
      LeftRotate(x.parent, Fork(d, g, c), t.left, x, t.right, rest);
      LeftLeaningTree(Fork(d, g, c), p, t.left, x, t.right, rest);
    }

    method ZigZag(x: Node, ghost t: Tree, ghost p: Node, ghost c: Tree, ghost g: Node, ghost d: Tree,
            ghost rest: seq<Crumb>)
      requires t.Fork? && t.node == x && InPlace(Fork(d, g, Fork(t, p, c)), rest) &&
               root == RootOf(Fork(d, g, Fork(t, p, c)), rest)
      requires x.parent == p && p.parent == g
      modifies this`root, Elems(Fork(d, g, Fork(t, p, c))), ParentOf(rest)
      ensures InPlace(Fork(Fork(d, g, t.left), x, Fork(t.right, p, c)), rest)
      ensures root == RootOf(Fork(Fork(d, g, t.left), x, Fork(t.right, p, c)), rest)
      ensures Elems(Fork(Fork(d, g, t.left), x, Fork(t.right, p, c))) == Elems(Fork(d, g, Fork(t, p, c)))
    {
      ghost var path, low := [FromRight(d, g)] + rest, Fork(t.right, p, c);
      Down(Fork(t, p, c), FromRight(d, g), rest);
      LeftLeaningTree(t.left, x, t.right, p, c, path);
      RightRotate(x.parent, t.left, x, t.right, c, path);
      RightLeaningTree(t.left, x, t.right, p, c, path);
      Up(Fork(t.left, x, low), path);
      assert path[1..] == rest;
      RightLeaningTree(d, g, t.left, x, low, rest);
      LeftRotate(x.parent, d, t.left, x, low, rest);
      LeftLeaningTree(d, g, t.left, x, low, rest);
    }

    method ZagZig(x: Node, ghost t: Tree, ghost p: Node, ghost c: Tree, ghost g: Node, ghost d: Tree,
            ghost rest: seq<Crumb>)
      requires t.Fork? && t.node == x && InPlace(Fork(Fork(c, p, t), g, d), rest) &&
               root == RootOf(Fork(Fork(c, p, t), g, d), rest)
      requires x.parent == p && p.parent == g
      modifies this`root, Elems(Fork(Fork(c, p, t), g, d)), ParentOf(rest)
      ensures InPlace(Fork(Fork(c, p, t.left), x, Fork(t.right, g, d)), rest)
      ensures root == RootOf(Fork(Fork(c, p, t.left), x, Fork(t.right, g, d)), rest)
      ensures Elems(Fork(Fork(c, p, t.left), x, Fork(t.right, g, d))) == Elems(Fork(Fork(c, p, t), g, d))
    {
      ghost var path, low := [FromLeft(g, d)] + rest, Fork(c, p, t.left);
      Down(Fork(c, p, t), FromLeft(g, d), rest);
      RightLeaningTree(c, p, t.left, x, t.right, path);
      LeftRotate(x.parent, c, t.left, x, t.right, path);
      LeftLeaningTree(c, p, t.left, x, t.right, path);
      Up(Fork(low, x, t.right), path);
      assert path[1..] == rest;
      LeftLeaningTree(low, x, t.right, g, d, rest);
      RightRotate(x.parent, low, x, t.right, d, rest);
      RightLeaningTree(low, x, t.right, g, d, rest);
    }

    lemma AllAllocated(a: Tree, b: Tree, c: Tree, path: seq<Crumb>)
      ensures forall o :: o in Elems(a) ==> allocated(o)
      ensures forall o :: o in Elems(b) ==> allocated(o)
      ensures forall o :: o in Elems(c) ==> allocated(o)
      ensures forall o :: o in PathElems(path) ==> allocated(o)
    {
      TreeAllocated(a);
      TreeAllocated(b);
      TreeAllocated(c);
      PathAllocated(path);
    }
  }
}
