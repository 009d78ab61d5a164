/** Distance matrices as p3-concurrent-channels/stress.c stores them (row after
    row, 32-bit unsigned), and the weights of walks through them. */
module Walks {
  const TWO32: int := 0x1_0000_0000

  /** distance_t: an unsigned int of 32 bits. */
  type Distance = d: int | 0 <= d < TWO32

  /** inf_distance: the longest link. */
  const INF: Distance := 0x7fffffff

  /** Unsigned addition of two distances, as the machine does it. */
  function Add32(a: Distance, b: Distance): Distance {
    (a + b) % TWO32
  }

  /** What create_topology stores for a number it read as a signed int into an
      unsigned variable. */
  function Clamp(scanned: int): Distance
    requires -0x8000_0000 <= scanned <= 0x7fff_ffff
  {
    var distance: Distance := scanned % TWO32;
    if distance > INF then INF else distance
  }

  /** The link distance is the number itself, or INF exactly for negative numbers
      and INF itself. */
  lemma ClampMeaning(scanned: int)
    requires -0x8000_0000 <= scanned <= 0x7fff_ffff
    ensures Clamp(scanned) <= INF
    ensures scanned >= 0 ==> Clamp(scanned) == scanned
    ensures Clamp(scanned) == INF <==> scanned < 0 || scanned == INF
  {
    if scanned < 0 { assert scanned % TWO32 == scanned + TWO32; }
  }

  /** a times n, by repeated addition: it keeps the proofs linear. */
  function Times(a: nat, n: nat): nat { if a == 0 then 0 else Times(a - 1, n) + n }

  lemma {:induction false} TimesIsProduct(a: nat, n: nat)
    ensures Times(a, n) == a * n
  {
    if a > 0 {
      TimesIsProduct(a - 1, n);
      assert a * n == (a - 1) * n + n;
    }
  }

  lemma {:induction false} TimesMonotone(a: nat, b: nat, n: nat)
    requires a <= b
    ensures Times(a, n) <= Times(b, n)
    ensures a < b ==> Times(a, n) + n <= Times(b, n)
    decreases b
  {
    if a < b { TimesMonotone(a, b - 1, n); }
  }

  /** Entries of a matrix of n rows and n columns. */
  function Area(n: nat): nat { Times(n, n) }

  /** Where the entry of a row and a column is stored. */
  function Cell(n: nat, row: nat, column: nat): (c: nat)
    requires row < n && column < n
    ensures c < Area(n)
  {
    TimesMonotone(row, n, n);
    Times(row, n) + column
  }

  lemma CellIsIndex(n: nat, row: nat, column: nat)
    requires row < n && column < n
    ensures Cell(n, row, column) == row * n + column && Area(n) == n * n
  {
    TimesIsProduct(row, n);
    TimesIsProduct(n, n);
  }

  lemma CellsDiffer(n: nat, r1: nat, c1: nat, r2: nat, c2: nat)
    requires r1 < n && c1 < n && r2 < n && c2 < n
    requires r1 != r2 || c1 != c2
    ensures Cell(n, r1, c1) != Cell(n, r2, c2)
  {
    if r1 < r2 { TimesMonotone(r1, r2, n); } else { TimesMonotone(r2, r1, n); }
  }

  function At(m: seq<Distance>, n: nat, row: nat, column: nat): Distance
    requires |m| == Area(n) && row < n && column < n
  {
    m[Cell(n, row, column)]
  }

  /** A topology as create_topology leaves it: no link above INF. */
  ghost predicate Graph(m: seq<Distance>, n: nat) {
    |m| == Area(n) && forall i, j :: 0 <= i < n && 0 <= j < n ==> At(m, n, i, j) <= INF
  }

  /** A nonempty walk: two nodes or more, one link between each and the next. */
  predicate Walk(n: nat, w: seq<nat>) {
    |w| >= 2 && forall t :: 0 <= t < |w| ==> w[t] < n
  }

  function Weight(m: seq<Distance>, n: nat, w: seq<nat>): nat
    requires |m| == Area(n) && Walk(n, w)
  {
    At(m, n, w[0], w[1]) + if |w| == 2 then 0 else Weight(m, n, w[1..])
  }

  ghost predicate Joins(n: nat, w: seq<nat>, i: nat, j: nat) {
    Walk(n, w) && w[0] == i && w[|w| - 1] == j
  }

  /** Some walk from i to j weighs d. */
  ghost predicate Attained(m: seq<Distance>, n: nat, i: nat, j: nat, d: nat)
    requires |m| == Area(n)
  {
    exists w: seq<nat> :: Joins(n, w, i, j) && Weight(m, n, w) == d
  }

  /** d is the least weight of a walk from i to j. */
  ghost predicate Shortest(m: seq<Distance>, n: nat, i: nat, j: nat, d: nat)
    requires |m| == Area(n)
  {
    Attained(m, n, i, j, d) && forall w: seq<nat> :: Joins(n, w, i, j) ==> d <= Weight(m, n, w)
  }

  lemma ShortestUnique(m: seq<Distance>, n: nat, i: nat, j: nat, d: nat, e: nat)
    requires |m| == Area(n)
    requires Shortest(m, n, i, j, d) && Shortest(m, n, i, j, e)
    ensures d == e
  {
  }

  /** A walk made of two weighs what they weigh together. */
  lemma {:induction false} WeightJoin(m: seq<Distance>, n: nat, v: seq<nat>, w: seq<nat>)
    requires |m| == Area(n) && Walk(n, v) && Walk(n, w) && v[|v| - 1] == w[0]
    ensures Walk(n, v + w[1..]) && Weight(m, n, v + w[1..]) == Weight(m, n, v) + Weight(m, n, w)
    decreases |v|
  {
    var both := v + w[1..];
    assert Walk(n, both) by {
      forall t | 0 <= t < |both| ensures both[t] < n {
        if t >= |v| { assert both[t] == w[t - |v| + 1]; }
      }
    }
    if |v| == 2 {
      assert both[1..] == w;
    } else {
      WeightJoin(m, n, v[1..], w);
      assert both[1..] == v[1..] + w[1..];
    }
  }

  /** Cutting a walk at an inner node. */
  lemma WeightCut(m: seq<Distance>, n: nat, w: seq<nat>, t: nat)
    requires |m| == Area(n) && Walk(n, w) && 0 < t < |w| - 1
    ensures Walk(n, w[..t + 1]) && Walk(n, w[t..])
    ensures Weight(m, n, w) == Weight(m, n, w[..t + 1]) + Weight(m, n, w[t..])
  {
    WeightJoin(m, n, w[..t + 1], w[t..]);
    assert w[..t + 1] + w[t..][1..] == w;
  }
}
