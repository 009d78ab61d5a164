/** The 61 segregated free lists of p1-memory-management/mm.c.

    A free block's first payload word (PREV_PTR) leads away from the head, its
    second (NEXT_PTR) back towards it.  Each list is sorted by size. */
module FreeLists {
  import opened HeapShape
  import opened Logs

  const MAX_LEN: nat := 61

  /** select_list for a positive size. */
  function Class(size: nat): nat
    requires size > 0
  {
    if Log2(size) > MAX_LEN - 1 then MAX_LEN - 1 else Log2(size)
  }

  /** Larger blocks are never in an earlier list. */
  lemma ClassMonotone(a: nat, b: nat)
    requires 0 < a <= b
    ensures Class(a) <= Class(b)
  {
    Log2Monotone(a, b);
  }

  /** The list of a size: 2^k bytes up to the next power of two in list k, and all
      from 2^60 on in the last. */
  lemma ClassMeans(size: nat)
    requires size > 0
    ensures Class(size) <= 60 && Pow2(Class(size)) <= size
    ensures Class(size) < 60 ==> size < Pow2(Class(size) + 1)
  {
    Log2Bounds(size);
    if Log2(size) > 60 { Pow2Monotone(60, Log2(size)); }
  }

  lemma {:induction false} Pow2Monotone(a: nat, b: nat)
    requires a <= b
    ensures Pow2(a) <= Pow2(b)
  {
    if a < b { Pow2Monotone(a, b - 1); }
  }

  function NodeAt(ns: seq<nat>, i: int): nat {
    if 0 <= i < |ns| then ns[i] else 0
  }

  ghost predicate LinkOk(m: seq<nat>, ns: seq<nat>, i: nat)
    requires i < |ns|
  {
    ns[i] % 2 == 0 && ns[i] > 0 && ns[i] + 1 < |m| &&
    m[ns[i]] == NodeAt(ns, i + 1) && m[ns[i] + 1] == NodeAt(ns, i - 1)
  }

  /** The doubly linked list that starts at head has exactly the nodes ns. */
  ghost predicate Linked(m: seq<nat>, head: nat, ns: seq<nat>) {
    head == NodeAt(ns, 0) &&
    (forall i: nat {:trigger LinkOk(m, ns, i)} :: i < |ns| ==> LinkOk(m, ns, i)) &&
    Distinct(ns)
  }

  ghost predicate Distinct(ns: seq<nat>) {
    forall i, j :: 0 <= i < j < |ns| ==> ns[i] != ns[j]
  }

  ghost predicate FreeBlock(blk: map<nat, Block>, b: nat) {
    b in blk && !blk[b].alloc
  }

  ghost predicate NodeOk(blk: map<nat, Block>, n: nat, k: nat, pending: set<nat>) {
    FreeBlock(blk, n) && blk[n].words > 0 && Class(8 * blk[n].words) == k && n !in pending
  }

  ghost predicate ListOk(m: seq<nat>, head: nat, blk: map<nat, Block>, ns: seq<nat>, k: nat, pending: set<nat>) {
    Linked(m, head, ns) &&
    (forall i: nat {:trigger NodeOk(blk, ns[i], k, pending)} :: i < |ns| ==> NodeOk(blk, ns[i], k, pending)) &&
    Ascending(blk, ns)
  }

  ghost predicate Ascending(blk: map<nat, Block>, ns: seq<nat>) {
    forall i, j :: 0 <= i < j < |ns| && ns[i] in blk && ns[j] in blk ==> blk[ns[i]].words <= blk[ns[j]].words
  }

  ghost predicate Listed(blk: map<nat, Block>, lists: seq<seq<nat>>, b: nat)
    requires |lists| == MAX_LEN && b in blk
  {
    blk[b].words > 0 && b in lists[Class(8 * blk[b].words)]
  }

  /** The free blocks, but for the pending ones, are exactly the nodes of the lists. */
  ghost predicate Lists(m: seq<nat>, seg: seq<nat>, blk: map<nat, Block>, lists: seq<seq<nat>>, pending: set<nat>) {
    |seg| == MAX_LEN && |lists| == MAX_LEN &&
    (forall k: nat {:trigger ListOk(m, seg[k], blk, lists[k], k, pending)} :: k < MAX_LEN ==>
       ListOk(m, seg[k], blk, lists[k], k, pending)) &&
    (forall b {:trigger FreeBlock(blk, b)} :: FreeBlock(blk, b) && b !in pending ==> Listed(blk, lists, b))
  }

  // ---------------------------------------------------------------- insertion

  ghost function InsertAt(ns: seq<nat>, j: nat, x: nat): seq<nat>
    requires j <= |ns|
  {
    ns[..j] + [x] + ns[j..]
  }

  /** The words node_add writes to put x before the j-th node. */
  ghost predicate InsertedLinks(m: seq<nat>, m': seq<nat>, ns: seq<nat>, j: nat, x: nat) {
    |m'| == |m| && j <= |ns| && x + 1 < |m| &&
    m'[x] == NodeAt(ns, j) && m'[x + 1] == NodeAt(ns, j - 1) &&
    (j < |ns| ==> ns[j] + 1 < |m| && m'[ns[j] + 1] == x) &&
    (j > 0 ==> ns[j - 1] < |m| && m'[ns[j - 1]] == x) &&
    forall i {:trigger m'[i]} ::
      0 <= i < |m| && i != x && i != x + 1 && (j < |ns| ==> i != ns[j] + 1) && (j > 0 ==> i != ns[j - 1]) ==>
        m'[i] == m[i]
  }

  lemma InsertLinkOk(m: seq<nat>, m': seq<nat>, ns: seq<nat>, j: nat, x: nat, i: nat)
    requires (forall l: nat {:trigger LinkOk(m, ns, l)} :: l < |ns| ==> LinkOk(m, ns, l)) && Distinct(ns)
    requires InsertedLinks(m, m', ns, j, x) && x % 2 == 0 && x > 0 && x !in ns && i <= |ns|
    ensures LinkOk(m', InsertAt(ns, j, x), i)
  {
    InsertNeighbors(ns, j, x, i);
    if j < |ns| { assert LinkOk(m, ns, j); }
    if j > 0 { assert LinkOk(m, ns, j - 1); }
    if i < j {
      assert LinkOk(m, ns, i);
    } else if i > j {
      assert LinkOk(m, ns, i - 1);
    }
  }

  /** The nodes around position i after the insertion. */
  lemma InsertNeighbors(ns: seq<nat>, j: nat, x: nat, i: nat)
    requires j <= |ns| && i <= |ns|
    ensures var ns' := InsertAt(ns, j, x);
      && ns'[i] == (if i < j then ns[i] else if i == j then x else ns[i - 1])
      && NodeAt(ns', i + 1) == (if i + 1 < j then ns[i + 1] else if i + 1 == j then x else NodeAt(ns, i))
      && NodeAt(ns', i - 1) == (if i <= j then NodeAt(ns, i - 1) else if i == j + 1 then x else ns[i - 2])
  {
  }

  lemma InsertDistinct(ns: seq<nat>, j: nat, x: nat)
    requires Distinct(ns) && j <= |ns| && x !in ns
    ensures Distinct(InsertAt(ns, j, x))
  {
  }

  lemma InsertLinked(m: seq<nat>, m': seq<nat>, head: nat, ns: seq<nat>, j: nat, x: nat)
    requires Linked(m, head, ns) && InsertedLinks(m, m', ns, j, x)
    requires x % 2 == 0 && x > 0 && x !in ns
    ensures Linked(m', if j == 0 then x else head, InsertAt(ns, j, x))
  {
    var ns' := InsertAt(ns, j, x);
    InsertDistinct(ns, j, x);
    forall i: nat | i < |ns'| ensures LinkOk(m', ns', i) { InsertLinkOk(m, m', ns, j, x, i); }
  }

  lemma InsertListOk(m: seq<nat>, m': seq<nat>, head: nat, blk: map<nat, Block>, ns: seq<nat>, k: nat,
          pending: set<nat>, j: nat, x: nat)
    requires ListOk(m, head, blk, ns, k, pending) && InsertedLinks(m, m', ns, j, x)
    requires x % 2 == 0 && x > 0 && x in pending && NodeOk(blk, x, k, pending - {x})
    requires forall i :: 0 <= i < j ==> ns[i] in blk && blk[ns[i]].words < blk[x].words
    requires j < |ns| && ns[j] in blk ==> blk[x].words <= blk[ns[j]].words
    ensures ListOk(m', if j == 0 then x else head, blk, InsertAt(ns, j, x), k, pending - {x})
  {
    forall i: nat | i < |ns| ensures ns[i] != x && ns[i] in blk { assert NodeOk(blk, ns[i], k, pending); }
    InsertLinked(m, m', head, ns, j, x);
    var ns' := InsertAt(ns, j, x);
    forall i: nat | i < |ns'| ensures NodeOk(blk, ns'[i], k, pending - {x}) {
      if i < j { assert NodeOk(blk, ns[i], k, pending); }
      if i > j { assert NodeOk(blk, ns[i - 1], k, pending); }
    }
    forall a, b | 0 <= a < b < |ns'| ensures blk[ns'[a]].words <= blk[ns'[b]].words {
      var a0 := if a < j then a else a - 1;
      var b0 := if b < j then b else b - 1;
      if a == j && b > j + 1 { assert blk[ns[j]].words <= blk[ns[b0]].words; }
    }
  }

  // ---------------------------------------------------------------- removal

  ghost function RemoveAt(ns: seq<nat>, j: nat): seq<nat>
    requires j < |ns|
  {
    ns[..j] + ns[j + 1..]
  }

  /** The words node_remove writes to take the j-th node out. */
  ghost predicate RemovedLinks(m: seq<nat>, m': seq<nat>, ns: seq<nat>, j: nat) {
    |m'| == |m| && j < |ns| &&
    (j + 1 < |ns| ==> ns[j + 1] + 1 < |m| && m'[ns[j + 1] + 1] == NodeAt(ns, j - 1)) &&
    (j > 0 ==> ns[j - 1] < |m| && m'[ns[j - 1]] == NodeAt(ns, j + 1)) &&
    forall i {:trigger m'[i]} ::
      0 <= i < |m| && (j + 1 < |ns| ==> i != ns[j + 1] + 1) && (j > 0 ==> i != ns[j - 1]) ==> m'[i] == m[i]
  }

  lemma RemoveLinkOk(m: seq<nat>, m': seq<nat>, ns: seq<nat>, j: nat, i: nat)
    requires (forall l: nat {:trigger LinkOk(m, ns, l)} :: l < |ns| ==> LinkOk(m, ns, l)) && Distinct(ns)
    requires RemovedLinks(m, m', ns, j) && i + 1 < |ns|
    ensures LinkOk(m', RemoveAt(ns, j), i)
  {
    assert LinkOk(m, ns, if i < j then i else i + 1);
    if j + 1 < |ns| { assert LinkOk(m, ns, j + 1); }
    if j > 0 { assert LinkOk(m, ns, j - 1); }
  }

  lemma RemoveDistinct(ns: seq<nat>, j: nat)
    requires Distinct(ns) && j < |ns|
    ensures Distinct(RemoveAt(ns, j))
  {
  }

  lemma RemoveLinked(m: seq<nat>, m': seq<nat>, head: nat, ns: seq<nat>, j: nat)
    requires Linked(m, head, ns) && RemovedLinks(m, m', ns, j)
    ensures Linked(m', if j == 0 then NodeAt(ns, 1) else head, RemoveAt(ns, j))
  {
    var ns' := RemoveAt(ns, j);
    RemoveDistinct(ns, j);
    forall i: nat | i < |ns'| ensures LinkOk(m', ns', i) { RemoveLinkOk(m, m', ns, j, i); }
  }

  lemma RemoveListOk(m: seq<nat>, m': seq<nat>, head: nat, blk: map<nat, Block>, ns: seq<nat>, k: nat,
          pending: set<nat>, j: nat)
    requires ListOk(m, head, blk, ns, k, pending) && RemovedLinks(m, m', ns, j)
    ensures ListOk(m', if j == 0 then NodeAt(ns, 1) else head, blk, RemoveAt(ns, j), k, pending + {ns[j]})
  {
    RemoveLinked(m, m', head, ns, j);
    var ns' := RemoveAt(ns, j);
    forall i: nat | i < |ns'| ensures NodeOk(blk, ns'[i], k, pending + {ns[j]}) {
      var i0 := if i < j then i else i + 1;
      assert NodeOk(blk, ns[i0], k, pending);
    }
  }

  // ---------------------------------------------------------------- frames

  /** A list whose nodes keep their links and their blocks stays as it is. */
  lemma ListFrame(m: seq<nat>, m': seq<nat>, head: nat, blk: map<nat, Block>, blk': map<nat, Block>, ns: seq<nat>,
          k: nat, pending: set<nat>, pending': set<nat>)
    requires ListOk(m, head, blk, ns, k, pending) && |m'| == |m|
    requires forall i: nat {:trigger NodeOk(blk, ns[i], k, pending)} ::
               i < |ns| && NodeOk(blk, ns[i], k, pending) && ns[i] + 1 < |m| ==>
                 ns[i] in blk' && blk'[ns[i]] == blk[ns[i]] && ns[i] !in pending' &&
                 m'[ns[i]] == m[ns[i]] && m'[ns[i] + 1] == m[ns[i] + 1]
    ensures ListOk(m', head, blk', ns, k, pending')
  {
    forall i: nat | i < |ns|
      ensures LinkOk(m', ns, i) && NodeOk(blk', ns[i], k, pending')
      ensures ns[i] in blk && ns[i] in blk' && blk'[ns[i]] == blk[ns[i]]
    {
      assert LinkOk(m, ns, i) && NodeOk(blk, ns[i], k, pending);
    }
  }

  /** Does a listed free block keep its place in the heap and its links? */
  ghost predicate KeptFree(m: seq<nat>, m': seq<nat>, blk: map<nat, Block>, blk': map<nat, Block>, pending': set<nat>,
          b: nat)
  {
    b in blk && b in blk' && blk'[b] == blk[b] && b !in pending' &&
    (b + 1 < |m| && |m'| == |m| ==> m'[b] == m[b] && m'[b + 1] == m[b + 1])
  }

  /** The lists survive any change that keeps exactly the listed blocks. */
  lemma ListsFrame(m: seq<nat>, m': seq<nat>, seg: seq<nat>, blk: map<nat, Block>, blk': map<nat, Block>,
          lists: seq<seq<nat>>, pending: set<nat>, pending': set<nat>)
    requires Lists(m, seg, blk, lists, pending) && |m'| == |m|
    requires forall b: nat {:trigger KeptFree(m, m', blk, blk', pending', b)} ::
               FreeBlock(blk, b) && b !in pending ==> KeptFree(m, m', blk, blk', pending', b)
    requires forall b: nat {:trigger FreeBlock(blk', b)} ::
               FreeBlock(blk', b) && b !in pending' ==> FreeBlock(blk, b) && b !in pending
    ensures Lists(m', seg, blk', lists, pending')
  {
    forall k: nat | k < MAX_LEN ensures ListOk(m', seg[k], blk', lists[k], k, pending') {
      assert ListOk(m, seg[k], blk, lists[k], k, pending);
      forall i: nat {:trigger lists[k][i]} | i < |lists[k]| && NodeOk(blk, lists[k][i], k, pending)
        ensures KeptFree(m, m', blk, blk', pending', lists[k][i]) {
      }
      ListFrame(m, m', seg[k], blk, blk', lists[k], k, pending, pending');
    }
    forall b | FreeBlock(blk', b) && b !in pending' ensures Listed(blk', lists, b) {
      assert FreeBlock(blk, b);
      assert KeptFree(m, m', blk, blk', pending', b);
    }
  }

  // ---------------------------------------------------------------- whole operations

  lemma NodeInList(m: seq<nat>, seg: seq<nat>, blk: map<nat, Block>, lists: seq<seq<nat>>, pending: set<nat>, b: nat)
    returns (k: nat, j: nat)
    requires Lists(m, seg, blk, lists, pending) && FreeBlock(blk, b) && b !in pending
    ensures blk[b].words > 0 && k == Class(8 * blk[b].words) < MAX_LEN && j < |lists[k]| && lists[k][j] == b
  {
    assert Listed(blk, lists, b);
    k := Class(8 * blk[b].words);
    j :| 0 <= j < |lists[k]| && lists[k][j] == b;
  }

  /** node_add as a whole. */
  lemma InsertLists(m: seq<nat>, m': seq<nat>, seg: seq<nat>, blk: map<nat, Block>, lists: seq<seq<nat>>,
          pending: set<nat>, k: nat, j: nat, x: nat)
    requires Lists(m, seg, blk, lists, pending) && k < MAX_LEN && InsertedLinks(m, m', lists[k], j, x)
    requires x % 2 == 0 && x > 0 && x in pending && NodeOk(blk, x, k, pending - {x})
    requires forall b: nat :: b in blk ==> b % 2 == 0
    requires forall i :: 0 <= i < j ==> lists[k][i] in blk && blk[lists[k][i]].words < blk[x].words
    requires j < |lists[k]| && lists[k][j] in blk ==> blk[x].words <= blk[lists[k][j]].words
    ensures Lists(m', if j == 0 then seg[k := x] else seg, blk, lists[k := InsertAt(lists[k], j, x)], pending - {x})
  {
    var seg' := if j == 0 then seg[k := x] else seg;
    var lists' := lists[k := InsertAt(lists[k], j, x)];
    assert ListOk(m, seg[k], blk, lists[k], k, pending);
    InsertListOk(m, m', seg[k], blk, lists[k], k, pending, j, x);
    if j < |lists[k]| { assert NodeOk(blk, lists[k][j], k, pending); }
    if j > 0 { assert NodeOk(blk, lists[k][j - 1], k, pending); }
    forall h: nat | h < MAX_LEN ensures ListOk(m', seg'[h], blk, lists'[h], h, pending - {x}) {
      if h != k {
        assert ListOk(m, seg[h], blk, lists[h], h, pending);
        OtherListKept(m, m', seg[h], blk, lists[h], h, lists[k], k, pending, pending - {x},
                      if j < |lists[k]| then lists[k][j] else x, if j > 0 then lists[k][j - 1] else x, x);
      }
    }
    forall b | FreeBlock(blk, b) && b !in pending - {x} ensures Listed(blk, lists', b) {
      if b != x { assert Listed(blk, lists, b); }
      InsertMembers(lists[k], j, x, b);
    }
  }

  lemma InsertMembers(ns: seq<nat>, j: nat, x: nat, b: nat)
    requires j <= |ns|
    ensures b in InsertAt(ns, j, x) <==> b == x || b in ns
  {
  }

  ghost predicate OfClass(blk: map<nat, Block>, b: nat, k: nat) {
    b in blk && blk[b].words > 0 && Class(8 * blk[b].words) == k
  }

  /** Writes to the links of blocks of another class leave this list alone. */
  lemma OtherListKept(m: seq<nat>, m': seq<nat>, head: nat, blk: map<nat, Block>, ns: seq<nat>, h: nat,
          others: seq<nat>, k: nat, pending: set<nat>, pending': set<nat>, y: nat, z: nat, x: nat)
    requires ListOk(m, head, blk, ns, h, pending) && |m'| == |m| && h != k && pending' <= pending + {x}
    requires forall b: nat :: b in blk ==> b % 2 == 0
    requires OfClass(blk, x, k) && OfClass(blk, y, k) && OfClass(blk, z, k)
    requires forall i {:trigger m'[i]} :: 0 <= i < |m| && i != x && i != x + 1 && i != y + 1 && i != z ==> m'[i] == m[i]
    ensures ListOk(m', head, blk, ns, h, pending')
  {
    forall i: nat | i < |ns|
      ensures ns[i] in blk && ns[i] !in pending' && ns[i] + 1 < |m| && m'[ns[i]] == m[ns[i]] &&
              m'[ns[i] + 1] == m[ns[i] + 1]
    {
      assert LinkOk(m, ns, i) && NodeOk(blk, ns[i], h, pending);
    }
    ListFrame(m, m', head, blk, blk, ns, h, pending, pending');
  }

  /** node_remove as a whole. */
  lemma RemoveLists(m: seq<nat>, m': seq<nat>, seg: seq<nat>, blk: map<nat, Block>, lists: seq<seq<nat>>,
          pending: set<nat>, k: nat, j: nat)
    requires Lists(m, seg, blk, lists, pending) && k < MAX_LEN && RemovedLinks(m, m', lists[k], j)
    requires forall b: nat :: b in blk ==> b % 2 == 0
    ensures var seg' := if j == 0 then seg[k := NodeAt(lists[k], 1)] else seg;
            Lists(m', seg', blk, lists[k := RemoveAt(lists[k], j)], pending + {lists[k][j]})
  {
    var ns := lists[k];
    var x := ns[j];
    var seg' := if j == 0 then seg[k := NodeAt(ns, 1)] else seg;
    var lists' := lists[k := RemoveAt(ns, j)];
    assert ListOk(m, seg[k], blk, lists[k], k, pending);
    RemoveListOk(m, m', seg[k], blk, ns, k, pending, j);
    assert NodeOk(blk, ns[j], k, pending);
    if j + 1 < |ns| { assert NodeOk(blk, ns[j + 1], k, pending); }
    if j > 0 { assert NodeOk(blk, ns[j - 1], k, pending); }
    forall h: nat | h < MAX_LEN ensures ListOk(m', seg'[h], blk, lists'[h], h, pending + {x}) {
      if h != k {
        assert ListOk(m, seg[h], blk, lists[h], h, pending);
        OtherListKept(m, m', seg[h], blk, lists[h], h, ns, k, pending, pending + {x},
                      if j + 1 < |ns| then ns[j + 1] else x, if j > 0 then ns[j - 1] else x, x);
      }
    }
    forall b | FreeBlock(blk, b) && b !in pending + {x} ensures Listed(blk, lists', b) {
      assert Listed(blk, lists, b);
      if Class(8 * blk[b].words) == k {
        var i :| 0 <= i < |ns| && ns[i] == b;
        assert RemoveAt(ns, j)[if i < j then i else i - 1] == b;
      }
    }
  }
}
