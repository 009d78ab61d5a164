/** floyd_warshall of p3-concurrent-channels/stress.c: in place, on 32-bit
    distances, against the least weight of all walks. */
module FloydWarshall {
  import opened Walks

  /** Every inner node of the walk is below k. */
  ghost predicate Below(w: seq<nat>, k: nat) {
    forall t :: 0 < t < |w| - 1 ==> w[t] < k
  }

  /** d is the least weight of a walk from i to j with inner nodes below k. */
  ghost predicate LeastBelow(g: seq<Distance>, n: nat, k: nat, i: nat, j: nat, d: nat)
    requires |g| == Area(n)
  {
    && (exists w: seq<nat> :: Joins(n, w, i, j) && Below(w, k) && Weight(g, n, w) == d)
    && (forall w: seq<nat> :: Joins(n, w, i, j) && Below(w, k) ==> d <= Weight(g, n, w))
  }

  ghost predicate AllLeast(g: seq<Distance>, n: nat, k: nat, m: seq<Distance>) {
    && |g| == |m| == Area(n)
    && forall i, j :: 0 <= i < n && 0 <= j < n ==> LeastBelow(g, n, k, i, j, At(m, n, i, j))
  }

  /** The better of the known distance and the way through k. */
  function Through(m: seq<Distance>, n: nat, k: nat, i: nat, j: nat): int
    requires |m| == Area(n) && k < n && i < n && j < n
  {
    var way := At(m, n, i, k) + At(m, n, k, j);
    if way < At(m, n, i, j) then way else At(m, n, i, j)
  }

  lemma LinksAreLeast(g: seq<Distance>, n: nat)
    requires |g| == Area(n)
    ensures AllLeast(g, n, 0, g)
  {
    forall i: nat, j: nat | i < n && j < n ensures LeastBelow(g, n, 0, i, j, At(g, n, i, j)) {
      var direct := [i, j];
      assert Joins(n, direct, i, j) && Below(direct, 0) && Weight(g, n, direct) == At(g, n, i, j);
      forall w: seq<nat> | Joins(n, w, i, j) && Below(w, 0) ensures At(g, n, i, j) <= Weight(g, n, w) {
        var second := w[1];
        if |w| > 2 { assert false; }
      }
    }
  }

  /** A walk cut where it first meets k: the first part has inner nodes below k. */
  lemma FirstPart(g: seq<Distance>, n: nat, k: nat, m: seq<Distance>, w: seq<nat>, t: nat)
    requires AllLeast(g, n, k, m) && k < n && Walk(n, w) && Below(w, k + 1)
    requires 0 < t < |w| - 1 && w[t] == k && forall s :: 0 < s < t ==> w[s] != k
    ensures Walk(n, w[..t + 1]) && At(m, n, w[0], k) <= Weight(g, n, w[..t + 1])
    ensures Walk(n, w[t..]) && Below(w[t..], k + 1)
  {
    var head, tail := w[..t + 1], w[t..];
    assert Joins(n, head, w[0], k) && Below(head, k);
    assert LeastBelow(g, n, k, w[0], k, At(m, n, w[0], k));
    forall s | 0 < s < |tail| - 1 ensures tail[s] < k + 1 { assert tail[s] == w[t + s]; }
  }

  /** No walk through nodes up to k beats the relaxed entry: cut it where it first
      meets k. */
  lemma {:induction false} NoWalkBeats(g: seq<Distance>, n: nat, k: nat, m: seq<Distance>, w: seq<nat>)
    requires AllLeast(g, n, k, m) && k < n && Walk(n, w) && Below(w, k + 1)
    ensures Through(m, n, k, w[0], w[|w| - 1]) <= Weight(g, n, w)
    decreases |w|
  {
    if t: nat :| 0 < t < |w| - 1 && w[t] == k && forall s :: 0 < s < t ==> w[s] != k {
      FirstPart(g, n, k, m, w, t);
      WeightCut(g, n, w, t);
      NoWalkBeats(g, n, k, m, w[t..]);
    } else {
      var i, j := w[0], w[|w| - 1];
      NeverMeets(w, k);
      assert Joins(n, w, i, j) && LeastBelow(g, n, k, i, j, At(m, n, i, j));
    }
  }

  /** Without a first inner occurrence of k there is none. */
  lemma {:induction false} NeverMeets(w: seq<nat>, k: nat)
    requires Below(w, k + 1)
    requires !exists t: nat :: 0 < t < |w| - 1 && w[t] == k && forall s :: 0 < s < t ==> w[s] != k
    ensures Below(w, k)
  {
    var t := 1;
    while t < |w| - 1
      invariant 1 <= t
      invariant forall s :: 0 < s < t && s < |w| - 1 ==> w[s] < k
    {
      t := t + 1;
    }
  }

  /** The relaxed entry is the weight of a walk through nodes up to k. */
  lemma RelaxedIsAttained(g: seq<Distance>, n: nat, k: nat, m: seq<Distance>, i: nat, j: nat)
    requires AllLeast(g, n, k, m) && k < n && i < n && j < n
    ensures exists w: seq<nat> :: Joins(n, w, i, j) && Below(w, k + 1) && Weight(g, n, w) == Through(m, n, k, i, j)
  {
    assert LeastBelow(g, n, k, i, j, At(m, n, i, j));
    var w: seq<nat> :| Joins(n, w, i, j) && Below(w, k) && Weight(g, n, w) == At(m, n, i, j);
    assert Below(w, k + 1);
    if Through(m, n, k, i, j) < At(m, n, i, j) {
      assert LeastBelow(g, n, k, i, k, At(m, n, i, k)) && LeastBelow(g, n, k, k, j, At(m, n, k, j));
      var u: seq<nat> :| Joins(n, u, i, k) && Below(u, k) && Weight(g, n, u) == At(m, n, i, k);
      var v: seq<nat> :| Joins(n, v, k, j) && Below(v, k) && Weight(g, n, v) == At(m, n, k, j);
      WeightJoin(g, n, u, v);
      var both := u + v[1..];
      assert Joins(n, both, i, j) && Below(both, k + 1);
    }
  }

  /** One more intermediate node. */
  lemma RelaxedIsLeast(g: seq<Distance>, n: nat, k: nat, m: seq<Distance>, m': seq<Distance>)
    requires AllLeast(g, n, k, m) && k < n && |m'| == Area(n)
    requires forall i, j :: 0 <= i < n && 0 <= j < n ==> At(m', n, i, j) == Through(m, n, k, i, j)
    ensures AllLeast(g, n, k + 1, m')
  {
    forall i: nat, j: nat | i < n && j < n ensures LeastBelow(g, n, k + 1, i, j, At(m', n, i, j)) {
      RelaxedIsAttained(g, n, k, m, i, j);
      forall w: seq<nat> | Joins(n, w, i, j) && Below(w, k + 1) ensures At(m', n, i, j) <= Weight(g, n, w) {
        NoWalkBeats(g, n, k, m, w);
      }
    }
  }

  /** When all nodes may be inner ones, least means shortest. */
  lemma LeastIsShortest(g: seq<Distance>, n: nat, m: seq<Distance>, i: nat, j: nat)
    requires AllLeast(g, n, n, m) && i < n && j < n
    ensures Shortest(g, n, i, j, At(m, n, i, j))
  {
    assert LeastBelow(g, n, n, i, j, At(m, n, i, j));
    forall w: seq<nat> | Joins(n, w, i, j) ensures At(m, n, i, j) <= Weight(g, n, w) {
      assert Below(w, n);
    }
  }

  /** Within pass k, the rows before `src` and the entries before `dst` of row
      `src` are relaxed, the others are as the pass found them. */
  ghost predicate InPass(before: seq<Distance>, now: seq<Distance>, n: nat, k: nat, src: nat, dst: nat)
    requires |before| == |now| == Area(n) && k < n
  {
    forall i, j :: 0 <= i < n && 0 <= j < n ==>
      At(now, n, i, j) == if i < src || (i == src && j < dst) then Through(before, n, k, i, j) else At(before, n, i, j)
  }

  /** Row k and column k do not change during pass k, so it does not matter
      whether the entries read were already visited; and no sum wraps. */
  lemma ReadsInPass(before: seq<Distance>, now: seq<Distance>, n: nat, k: nat, src: nat, dst: nat)
    requires Graph(before, n) && |now| == Area(n) && k < n && src < n && dst < n
    requires InPass(before, now, n, k, src, dst)
    ensures At(now, n, src, k) == At(before, n, src, k) && At(now, n, k, dst) == At(before, n, k, dst)
    ensures At(now, n, src, dst) == At(before, n, src, dst)
    ensures Add32(At(now, n, src, k), At(now, n, k, dst)) == At(before, n, src, k) + At(before, n, k, dst)
  {
    assert At(before, n, src, k) <= INF && At(before, n, k, dst) <= INF;
  }

  lemma WriteInPass(before: seq<Distance>, now: seq<Distance>, n: nat, k: nat, src: nat, dst: nat, d: Distance)
    requires |before| == |now| == Area(n) && k < n && src < n && dst < n
    requires InPass(before, now, n, k, src, dst) && d == Through(before, n, k, src, dst)
    ensures InPass(before, now[Cell(n, src, dst) := d], n, k, src, dst + 1)
  {
    forall i: nat, j: nat | i < n && j < n && (i != src || j != dst)
      ensures At(now[Cell(n, src, dst) := d], n, i, j) == At(now, n, i, j)
    {
      CellsDiffer(n, i, j, src, dst);
    }
  }

  lemma PassKeepsGraph(before: seq<Distance>, now: seq<Distance>, n: nat, k: nat)
    requires Graph(before, n) && |now| == Area(n) && k < n && InPass(before, now, n, k, n, 0)
    ensures Graph(now, n)
  {
  }

  /** The two inner loops: every pair is relaxed once, reading and writing the
      same matrix. */
  method Pass(solution: array<Distance>, n: nat, intermediate: nat)
    requires solution.Length == Area(n) && intermediate < n && Graph(solution[..], n)
    modifies solution
    ensures InPass(old(solution[..]), solution[..], n, intermediate, n, 0)
  {
    ghost var before := solution[..];
    for src := 0 to n
      invariant InPass(before, solution[..], n, intermediate, src, 0)
    {
      for dst := 0 to n
        invariant InPass(before, solution[..], n, intermediate, src, dst)
      {
        ghost var now := solution[..];
        ReadsInPass(before, now, n, intermediate, src, dst);
        ghost var d: Distance := Through(before, n, intermediate, src, dst);
        WriteInPass(before, now, n, intermediate, src, dst, d);
        var here := Cell(n, src, dst);
        if Add32(solution[Cell(n, src, intermediate)], solution[Cell(n, intermediate, dst)]) < solution[here] {
          solution[here] := Add32(solution[Cell(n, src, intermediate)], solution[Cell(n, intermediate, dst)]);
        }
        assert solution[..] == now[here := d];
      }
    }
  }

  /** floyd_warshall: every entry of `solution` is the least weight of a nonempty
      walk between its two nodes. */
  method FloydWarshall(topology: array<Distance>, solution: array<Distance>, n: nat)
    requires topology != solution && topology.Length == solution.Length == Area(n)
    requires Graph(topology[..], n)
    modifies solution
    ensures forall i, j :: 0 <= i < n && 0 <= j < n ==>
      Shortest(topology[..], n, i, j, At(solution[..], n, i, j))
  {
    ghost var g := topology[..];
    for c := 0 to Area(n)
      invariant topology[..] == g && forall p :: 0 <= p < c ==> solution[p] == g[p]
    {
      solution[c] := topology[c];
    }
    assert solution[..] == g;
    LinksAreLeast(g, n);
    for intermediate := 0 to n
      invariant topology[..] == g
      invariant Graph(solution[..], n) && AllLeast(g, n, intermediate, solution[..])
    {
      ghost var before := solution[..];
      Pass(solution, n, intermediate);
      PassKeepsGraph(before, solution[..], n, intermediate);
      RelaxedIsLeast(g, n, intermediate, before, solution[..]);
    }
    forall i: nat, j: nat | i < n && j < n ensures Shortest(g, n, i, j, At(solution[..], n, i, j)) {
      LeastIsShortest(g, n, solution[..], i, j);
    }
  }
}
