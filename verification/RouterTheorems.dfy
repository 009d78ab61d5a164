/** What the routers compute: distances only fall, are never below the shortest
    ones, and are the ones of floyd_warshall as soon as nothing is left to do. */
module RouterTheorems {
  import opened Walks
  import opened RouterModel
  import opened RouterBuffers

  /** Each entry is the weight of some walk, and no worse than the direct link. */
  ghost predicate Sound(net: Net, r: nat, v: seq<Distance>)
    requires |net.links| == Area(net.n) && r < net.n
  {
    && |v| == net.n
    && forall k :: 0 <= k < net.n ==> v[k] <= Link(net, r, k) && Attained(net.links, net.n, r, k, v[k])
  }

  ghost predicate AllSound(net: Net, r: nat, x: Router)
    requires |net.links| == Area(net.n) && r < net.n
  {
    forall b :: 0 <= b < |x.buffers| ==> Sound(net, r, x.buffers[b])
  }

  /** The best vector a router knows: the published one while the next one is
      being copied from it. */
  function Latest(x: Router): seq<Distance>
    requires x.curr < |x.buffers| && x.next < |x.buffers|
  {
    if x.phase.Copying? then Curr(x) else NextVector(x)
  }

  /** The next vector is nowhere worse than the published one, and equal to it
      unless the flag is up. */
  ghost predicate Ordered(n: nat, x: Router)
    requires RouterShape(n, x)
  {
    if x.phase.Copying? then
      forall k :: 0 <= k < x.phase.i ==> NextVector(x)[k] == Curr(x)[k]
    else
      && (forall k :: 0 <= k < n ==> NextVector(x)[k] <= Curr(x)[k])
      && (!x.changed ==> forall k :: 0 <= k < n ==> NextVector(x)[k] == Curr(x)[k])
  }

  /** The first m entries of v take the way through a neighbour with vector w into
      account. */
  ghost predicate Heard(link: Distance, v: seq<Distance>, w: seq<Distance>, m: nat)
    requires m <= |v| && m <= |w|
  {
    forall k :: 0 <= k < m ==> v[k] <= link + w[k]
  }

  /** What r knows of a's current vector: it is still to be sent, on its way, being
      read, or read. */
  ghost predicate Learned(net: Net, a: nat, x: Router, r: nat, y: Router, c: Channel)
    requires |net.links| == Area(net.n) && a < net.n && r < net.n
    requires RouterShape(net.n, x) && RouterShape(net.n, y)
  {
    || Owes(x, r)
    || c == Full(Vector(a, x.curr))
    || (&& y.phase.Relaxing? && y.phase.from == a && y.phase.slot == x.curr
        && Heard(Link(net, r, a), Latest(y), Curr(x), y.phase.i))
    || Heard(Link(net, r, a), Latest(y), Curr(x), net.n)
  }

  ghost predicate LearnedAt(net: Net, s: State, a: nat, r: nat)
    requires Shape(net, s) && a < net.n && r < net.n
  {
    Learned(net, a, s.routers[a], r, s.routers[r], s.channels[r])
  }

  /** A router that waits with nothing to send has nothing to report. */
  predicate Settled(x: Router) {
    x.phase.Selecting? && x.left == 0 ==> !x.changed
  }

  ghost predicate VectorsOk(net: Net, s: State)
    requires Shape(net, s)
  {
    forall r :: 0 <= r < net.n ==> AllSound(net, r, s.routers[r]) && Ordered(net.n, s.routers[r])
  }

  ghost predicate Inv(net: Net, s: State) {
    && ValidNet(net) && BuffersInv(net, s) && VectorsOk(net, s)
    && (forall r :: 0 <= r < net.n ==> Settled(s.routers[r]))
    && (forall a, r :: 0 <= a < net.n && 0 <= r < net.n && SendsTo(net, a, r) ==> LearnedAt(net, s, a, r))
  }

  /** One link, then a walk, is a walk. */
  lemma OneLinkMore(net: Net, r: nat, a: nat, k: nat, d: nat)
    requires |net.links| == Area(net.n) && r < net.n && a < net.n && k < net.n
    requires Attained(net.links, net.n, a, k, d)
    ensures Attained(net.links, net.n, r, k, Link(net, r, a) + d)
  {
    var w: seq<nat> :| Joins(net.n, w, a, k) && Weight(net.links, net.n, w) == d;
    var longer := [r] + w;
    assert longer[1..] == w;
    assert Joins(net.n, longer, r, k);
  }

  /** Neither operand of the sum is above INF, so it does not wrap; the new entry is
      the smaller of the two ways. */
  lemma RelaxedEntry(net: Net, r: nat, x: Router, from: nat, v: seq<Distance>, i: nat)
    requires ValidNet(net) && r < net.n && from < net.n && i < net.n
    requires RouterShape(net.n, x) && AllSound(net, r, x) && Sound(net, from, v)
    ensures var y := RelaxEntry(x, Link(net, r, from), v, i);
      && y == x.(buffers := y.buffers, changed := y.changed) && RouterShape(net.n, y)
      && (forall b :: 0 <= b < 4 && b != x.next ==> y.buffers[b] == x.buffers[b])
      && NextVector(y)[i] <= Link(net, r, from) + v[i]
      && (forall k :: 0 <= k < net.n ==> NextVector(y)[k] <= NextVector(x)[k])
      && (y.changed == x.changed ==> y == x || x.changed)
      && (x.changed ==> y.changed) && (!y.changed ==> y == x)
      && AllSound(net, r, y)
  {
    var link := Link(net, r, from);
    assert v[i] <= Link(net, from, i) <= INF && link <= INF;
    RelaxedFalls(net.n, x, link, v, i);
    if RelaxEntry(x, link, v, i) != x {
      OneLinkMore(net, r, from, i, v[i]);
      WrittenSound(net, r, x, i, Add32(link, v[i]));
    }
  }

  /** The entry becomes the smaller of the two ways, and nothing else changes. */
  lemma RelaxedFalls(n: nat, x: Router, link: Distance, v: seq<Distance>, i: nat)
    requires RouterShape(n, x) && i < n == |v| && link <= INF && v[i] <= INF
    ensures var y := RelaxEntry(x, link, v, i);
      && y == x.(buffers := y.buffers, changed := y.changed) && RouterShape(n, y)
      && (forall b :: 0 <= b < 4 && b != x.next ==> y.buffers[b] == x.buffers[b])
      && NextVector(y)[i] <= link + v[i]
      && (forall k :: 0 <= k < n ==> NextVector(y)[k] <= NextVector(x)[k])
      && (y.changed == x.changed ==> y == x || x.changed)
      && (x.changed ==> y.changed) && (!y.changed ==> y == x)
  {
  }

  lemma WrittenSound(net: Net, r: nat, x: Router, i: nat, d: Distance)
    requires ValidNet(net) && r < net.n && i < net.n && RouterShape(net.n, x) && AllSound(net, r, x)
    requires d <= NextVector(x)[i] && Attained(net.links, net.n, r, i, d)
    ensures AllSound(net, r, Write(x, i, d))
  {
    assert Sound(net, r, NextVector(x));
    assert Sound(net, r, NextVector(Write(x, i, d)));
  }

  ghost predicate RouterOk(net: Net, r: nat, x: Router)
    requires |net.links| == Area(net.n) && r < net.n
  {
    RouterShape(net.n, x) && x.curr != x.next && AllSound(net, r, x) && Ordered(net.n, x)
  }

  /** Both loops keep the vectors of their router sound and ordered. */
  lemma RelaxKeepsVectors(net: Net, r: nat, x: Router, v: seq<Distance>)
    requires ValidNet(net) && r < net.n && RouterOk(net, r, x) && x.phase.Relaxing? && x.phase.i < net.n
    requires Sound(net, x.phase.from, v)
    ensures var y := RelaxEntry(x, Link(net, r, x.phase.from), v, x.phase.i).(phase := x.phase.(i := x.phase.i + 1));
      AllSound(net, r, y) && Ordered(net.n, y)
  {
    RelaxedEntry(net, r, x, x.phase.from, v, x.phase.i);
  }

  lemma CopyKeepsVectors(net: Net, r: nat, x: Router)
    requires ValidNet(net) && r < net.n && RouterOk(net, r, x) && x.phase.Copying? && x.phase.i < net.n
    ensures var y := Write(x, x.phase.i, Curr(x)[x.phase.i]).(phase := Copying(x.phase.i + 1));
      RouterShape(net.n, y) && AllSound(net, r, y) && Ordered(net.n, y)
  {
    assert Sound(net, r, Curr(x)) && Sound(net, r, NextVector(x));
    var y := Write(x, x.phase.i, Curr(x)[x.phase.i]).(phase := Copying(x.phase.i + 1));
    assert Sound(net, r, NextVector(y));
    assert Curr(y) == Curr(x);
  }

  lemma OtherKeepsVectors(net: Net, r: nat, x: Router, y: Router)
    requires ValidNet(net) && r < net.n && RouterOk(net, r, x) && RouterShape(net.n, y)
    requires y.buffers == x.buffers
    requires y.phase == Copying(0) ||
             (!x.phase.Copying? && !y.phase.Copying? && y.curr == x.curr && y.next == x.next && y.changed == x.changed)
    ensures AllSound(net, r, y) && Ordered(net.n, y)
  {
    if y.phase.Copying? {
      assert y.phase.i == 0;
    } else {
      assert NextVector(y) == NextVector(x) && Curr(y) == Curr(x);
    }
  }

  /** The end of a loop. */
  lemma EndKeepsVectors(net: Net, r: nat, x: Router)
    requires ValidNet(net) && r < net.n && RouterOk(net, r, x)
    requires x.phase == Copying(net.n)
    ensures var y := x.(left := |x.targets|, changed := false, phase := Selecting);
      AllSound(net, r, y) && Ordered(net.n, y)
  {
    var y := x.(left := |x.targets|, changed := false, phase := Selecting);
    assert NextVector(y) == NextVector(x) && Curr(y) == Curr(x);
  }

  lemma RelaxVectors(net: Net, s: State, r: nat)
    requires ValidNet(net) && Shape(net, s) && r < net.n && Enabled(net, s, Relax(r))
    requires forall q :: 0 <= q < net.n ==> RouterOk(net, q, s.routers[q])
    ensures var y := Next(net, s, Relax(r)).routers[r]; AllSound(net, r, y) && Ordered(net.n, y)
  {
    var x := s.routers[r];
    assert RouterOk(net, r, x);
    if x.phase.i < net.n {
      assert RouterOk(net, x.phase.from, s.routers[x.phase.from]);
      RelaxKeepsVectors(net, r, x, s.routers[x.phase.from].buffers[x.phase.slot]);
    } else {
      OtherKeepsVectors(net, r, x, Next(net, s, Relax(r)).routers[r]);
    }
  }

  lemma CopyVectors(net: Net, s: State, r: nat)
    requires ValidNet(net) && Shape(net, s) && r < net.n && Enabled(net, s, Copy(r))
    requires RouterOk(net, r, s.routers[r])
    ensures var y := Next(net, s, Copy(r)).routers[r]; AllSound(net, r, y) && Ordered(net.n, y)
  {
    var x := s.routers[r];
    if x.phase.i < net.n { CopyKeepsVectors(net, r, x); } else { EndKeepsVectors(net, r, x); }
  }

  lemma VectorsStep(net: Net, s: State, act: Action, r: nat)
    requires ValidNet(net) && Shape(net, s) && Enabled(net, s, act) && r < net.n && Shape(net, Next(net, s, act))
    requires forall q :: 0 <= q < net.n ==> RouterOk(net, q, s.routers[q])
    ensures var y := Next(net, s, act).routers[r]; AllSound(net, r, y) && Ordered(net.n, y)
  {
    var x, y := s.routers[r], Next(net, s, act).routers[r];
    assert RouterOk(net, r, x);
    if act.Probe? || act.Collect? || act.r != r {
      assert y == x;
    } else if act.Relax? {
      RelaxVectors(net, s, r);
    } else if act.Copy? {
      CopyVectors(net, s, r);
    } else {
      OtherKeepsVectors(net, r, x, y);
    }
  }

  /** What r learned stays learned while another router works. */
  lemma LearnedRelaxElsewhere(net: Net, s: State, p: nat, a: nat, r: nat)
    requires Inv(net, s) && Enabled(net, s, Relax(p)) && a < net.n && r < net.n && SendsTo(net, a, r) && p != r
    requires Shape(net, Next(net, s, Relax(p)))
    ensures LearnedAt(net, Next(net, s, Relax(p)), a, r)
  {
    RelaxFrame(net, s, p);
    assert LearnedAt(net, s, a, r) && Roles(net, a, s.routers[a]);
    var x, x' := s.routers[a], Next(net, s, Relax(p)).routers[a];
    assert Curr(x') == Curr(x) && (Owes(x', r) <==> Owes(x, r));
  }

  /** One more entry read from a neighbour's vector v. */
  lemma RelaxKeepsLearned(net: Net, a: nat, x: Router, r: nat, y: Router, c: Channel, v: seq<Distance>)
    requires ValidNet(net) && a < net.n && r < net.n && RouterShape(net.n, x) && RouterOk(net, r, y)
    requires y.phase.Relaxing? && y.phase.i < net.n && Sound(net, y.phase.from, v)
    requires y.phase.from == a && y.phase.slot == x.curr ==> v == Curr(x)
    requires Learned(net, a, x, r, y, c)
    ensures var y' := RelaxEntry(y, Link(net, r, y.phase.from), v, y.phase.i).(phase := y.phase.(i := y.phase.i + 1));
      RouterShape(net.n, y') && Learned(net, a, x, r, y', c)
  {
    var z := RelaxEntry(y, Link(net, r, y.phase.from), v, y.phase.i);
    RelaxedEntry(net, r, y, y.phase.from, v, y.phase.i);
    LowerKeepsLearned(net, a, x, r, y, c, v, z);
  }

  /** The same for any router z with lower entries. */
  lemma LowerKeepsLearned(net: Net, a: nat, x: Router, r: nat, y: Router, c: Channel, v: seq<Distance>, z: Router)
    requires ValidNet(net) && a < net.n && r < net.n && RouterShape(net.n, x) && RouterShape(net.n, y)
    requires y.phase.Relaxing? && y.phase.i < net.n == |v| && RouterShape(net.n, z) && z.phase == y.phase
    requires y.phase.from == a && y.phase.slot == x.curr ==> v == Curr(x)
    requires NextVector(z)[y.phase.i] <= Link(net, r, y.phase.from) + v[y.phase.i]
    requires forall k :: 0 <= k < net.n ==> NextVector(z)[k] <= NextVector(y)[k]
    requires Learned(net, a, x, r, y, c)
    ensures var y' := z.(phase := y.phase.(i := y.phase.i + 1));
      RouterShape(net.n, y') && Learned(net, a, x, r, y', c)
  {
    HeardMore(Link(net, r, y.phase.from), NextVector(y), NextVector(z), v, y.phase.i);
    if Heard(Link(net, r, a), Latest(y), Curr(x), net.n) {
      HeardStays(Link(net, r, a), NextVector(y), NextVector(z), Curr(x), net.n);
    }
  }

  lemma HeardStays(link: Distance, v: seq<Distance>, v': seq<Distance>, w: seq<Distance>, m: nat)
    requires m <= |v| == |v'| && m <= |w| && Heard(link, v, w, m)
    requires forall k :: 0 <= k < m ==> v'[k] <= v[k]
    ensures Heard(link, v', w, m)
  {
  }

  lemma HeardMore(link: Distance, v: seq<Distance>, v': seq<Distance>, w: seq<Distance>, i: nat)
    requires i < |v| == |v'| && i < |w|
    requires forall k :: 0 <= k < |v| ==> v'[k] <= v[k]
    requires v'[i] <= link + w[i]
    ensures Heard(link, v, w, i) ==> Heard(link, v', w, i + 1)
  {
  }

  /** The vector a router reads is sound. */
  lemma VectorRead(net: Net, s: State, a: nat, r: nat)
    requires Inv(net, s) && Enabled(net, s, Relax(r)) && a < net.n && SendsTo(net, a, r)
    ensures var y := s.routers[r];
      && RouterOk(net, r, y) && LearnedAt(net, s, a, r)
      && Sound(net, y.phase.from, s.routers[y.phase.from].buffers[y.phase.slot])
  {
    assert LearnedAt(net, s, a, r) && Roles(net, r, s.routers[r]);
    assert AllSound(net, r, s.routers[r]) && Ordered(net.n, s.routers[r]);
    var from := s.routers[r].phase.from;
    assert RouterShape(net.n, s.routers[from]) && AllSound(net, from, s.routers[from]);
  }

  lemma LearnedWhileReading(net: Net, s: State, a: nat, r: nat)
    requires ValidNet(net) && Shape(net, s) && Enabled(net, s, Relax(r)) && a < net.n && SendsTo(net, a, r)
    requires RouterOk(net, r, s.routers[r]) && LearnedAt(net, s, a, r) && Shape(net, Next(net, s, Relax(r)))
    requires Sound(net, s.routers[r].phase.from, s.routers[s.routers[r].phase.from].buffers[s.routers[r].phase.slot])
    ensures LearnedAt(net, Next(net, s, Relax(r)), a, r)
  {
    var x, y, c := s.routers[a], s.routers[r], s.channels[r];
    if y.phase.i < net.n {
      RelaxKeepsLearned(net, a, x, r, y, c, s.routers[y.phase.from].buffers[y.phase.slot]);
    }
  }

  lemma LearnedRelaxHere(net: Net, s: State, a: nat, r: nat)
    requires Inv(net, s) && Enabled(net, s, Relax(r)) && a < net.n && SendsTo(net, a, r)
    requires Shape(net, Next(net, s, Relax(r)))
    ensures LearnedAt(net, Next(net, s, Relax(r)), a, r)
  {
    VectorRead(net, s, a, r);
    LearnedWhileReading(net, s, a, r);
  }

  lemma LearnedRelax(net: Net, s: State, p: nat, a: nat, r: nat)
    requires Inv(net, s) && Enabled(net, s, Relax(p)) && a < net.n && r < net.n && SendsTo(net, a, r)
    requires Shape(net, Next(net, s, Relax(p)))
    ensures LearnedAt(net, Next(net, s, Relax(p)), a, r)
  {
    if p == r { LearnedRelaxHere(net, s, a, r); } else { LearnedRelaxElsewhere(net, s, p, a, r); }
  }

  /** Copying changes neither the latest vector of its router nor the current one
      of any. */
  lemma LearnedCopy(net: Net, s: State, p: nat, a: nat, r: nat)
    requires Inv(net, s) && Enabled(net, s, Copy(p)) && a < net.n && r < net.n && SendsTo(net, a, r)
    requires Shape(net, Next(net, s, Copy(p)))
    ensures LearnedAt(net, Next(net, s, Copy(p)), a, r)
  {
    CopyFrame(net, s, p);
    assert LearnedAt(net, s, a, r);
  }

  lemma CopyFrame(net: Net, s: State, p: nat)
    requires Inv(net, s) && Enabled(net, s, Copy(p)) && Shape(net, Next(net, s, Copy(p)))
    ensures var x, s' := s.routers[p], Next(net, s, Copy(p));
      var x' := s'.routers[p];
      && s' == Put(s, p, x')
      && Latest(x') == Latest(x) && Curr(x') == Curr(x) && x'.curr == x.curr
      && !x'.phase.Relaxing? && forall t :: Owes(x', t) <==> Owes(x, t)
  {
    var x := s.routers[p];
    assert Roles(net, p, x) && RouterShape(net.n, x) && Ordered(net.n, x);
    var x' := Next(net, s, Copy(p)).routers[p];
    assert x'.targets == x.targets;
    if x.phase.i == net.n { assert NextVector(x) == Curr(x); }
  }

  lemma LearnedCheck(net: Net, s: State, p: nat, a: nat, r: nat)
    requires Inv(net, s) && Enabled(net, s, Check(p)) && a < net.n && r < net.n && SendsTo(net, a, r)
    requires Shape(net, Next(net, s, Check(p)))
    ensures LearnedAt(net, Next(net, s, Check(p)), a, r)
  {
    assert LearnedAt(net, s, a, r) && Roles(net, a, s.routers[a]);
  }

  lemma LearnedSend(net: Net, s: State, p: nat, k: nat, a: nat, r: nat)
    requires Inv(net, s) && Enabled(net, s, Send(p, k)) && a < net.n && r < net.n && SendsTo(net, a, r)
    requires Shape(net, Next(net, s, Send(p, k)))
    ensures LearnedAt(net, Next(net, s, Send(p, k)), a, r)
  {
    assert LearnedAt(net, s, a, r) && Roles(net, p, s.routers[p]);
    SentTargets(s.routers[p], k);
  }

  lemma LearnedStep(net: Net, s: State, act: Action, a: nat, r: nat)
    requires Inv(net, s) && Enabled(net, s, act) && a < net.n && r < net.n && SendsTo(net, a, r)
    requires Shape(net, Next(net, s, act))
    ensures LearnedAt(net, Next(net, s, act), a, r)
  {
    match act
    case Relax(p) => LearnedRelax(net, s, p, a, r);
    case Copy(p) => LearnedCopy(net, s, p, a, r);
    case Check(p) => LearnedCheck(net, s, p, a, r);
    case Send(p, k) => LearnedSend(net, s, p, k, a, r);
    case Receive(p) => LearnedReceive(net, s, p, a, r);
    case _ => assert LearnedAt(net, s, a, r);
  }

  lemma LearnedReceive(net: Net, s: State, p: nat, a: nat, r: nat)
    requires Inv(net, s) && Enabled(net, s, Receive(p)) && a < net.n && r < net.n && SendsTo(net, a, r)
    requires Shape(net, Next(net, s, Receive(p)))
    ensures LearnedAt(net, Next(net, s, Receive(p)), a, r)
  {
    assert LearnedAt(net, s, a, r);
  }

  lemma SettledStep(net: Net, s: State, act: Action, r: nat)
    requires Shape(net, s) && Enabled(net, s, act) && r < net.n && Settled(s.routers[r])
    ensures Settled(Next(net, s, act).routers[r])
  {
  }

  lemma InvStep(net: Net, s: State, act: Action)
    requires Inv(net, s) && Enabled(net, s, act)
    ensures Inv(net, Next(net, s, act))
  {
    BuffersInvStep(net, s, act);
    var s' := Next(net, s, act);
    forall q | 0 <= q < net.n ensures RouterOk(net, q, s.routers[q]) {
      assert Roles(net, q, s.routers[q]);
    }
    forall r | 0 <= r < net.n ensures AllSound(net, r, s'.routers[r]) && Ordered(net.n, s'.routers[r]) {
      VectorsStep(net, s, act, r);
    }
    forall r | 0 <= r < net.n ensures Settled(s'.routers[r]) { SettledStep(net, s, act, r); }
    forall a, r | 0 <= a < net.n && 0 <= r < net.n && SendsTo(net, a, r) ensures LearnedAt(net, s', a, r) {
      LearnedStep(net, s, act, a, r);
    }
  }

  lemma InvInit(net: Net)
    requires ValidNet(net)
    ensures Inv(net, Init(net))
  {
    BuffersInvInit(net);
    var s := Init(net);
    forall r: nat | r < net.n ensures Sound(net, r, Row(net, r)) {
      forall k: nat | k < net.n ensures Attained(net.links, net.n, r, k, Link(net, r, k)) {
        assert Joins(net.n, [r, k], r, k) && Weight(net.links, net.n, [r, k]) == Link(net, r, k);
      }
    }
    forall r | 0 <= r < net.n ensures AllSound(net, r, s.routers[r]) && Ordered(net.n, s.routers[r]) {
      assert Sound(net, r, Row(net, r));
    }
    forall a, r | 0 <= a < net.n && 0 <= r < net.n && SendsTo(net, a, r) ensures LearnedAt(net, s, a, r) {
      var x := s.routers[a];
      assert r in x.targets && x.targets[..x.left] == x.targets;
    }
  }

  lemma {:induction false} InvRun(net: Net, s: State, actions: seq<Action>, s': State)
    requires Inv(net, s) && Run(net, s, actions, s')
    ensures Inv(net, s')
    decreases |actions|
  {
    if actions != [] {
      InvStep(net, s, actions[0]);
      InvRun(net, Next(net, s, actions[0]), actions[1..], s');
    }
  }

  lemma ReachableInv(net: Net, s: State)
    requires ValidNet(net) && Reachable(net, s)
    ensures Inv(net, s)
  {
    InitHasShape(net);
    var actions: seq<Action> :| Run(net, Init(net), actions, s);
    InvInit(net);
    InvRun(net, Init(net), actions, s);
  }

  /** The published vector of a router never gets worse, whatever step is taken. */
  lemma DistancesNeverIncrease(net: Net, s: State, act: Action, r: nat, k: nat)
    requires ValidNet(net) && Reachable(net, s) && Shape(net, s) && Enabled(net, s, act)
    requires Shape(net, Next(net, s, act)) && r < net.n && k < net.n
    ensures RouterShape(net.n, s.routers[r]) && RouterShape(net.n, Next(net, s, act).routers[r])
    ensures Curr(Next(net, s, act).routers[r])[k] <= Curr(s.routers[r])[k]
  {
    ReachableInv(net, s);
    assert RouterShape(net.n, s.routers[r]) && RouterShape(net.n, Next(net, s, act).routers[r]);
    assert Roles(net, r, s.routers[r]) && Ordered(net.n, s.routers[r]);
    if act == Copy(r) {
      CopyFrame(net, s, r);
    } else if act == Check(r) {
      CheckLowers(net, s, r, k);
    } else {
      OthersKeepCurr(net, s, act, r);
    }
  }

  lemma OthersKeepCurr(net: Net, s: State, act: Action, r: nat)
    requires Shape(net, s) && Enabled(net, s, act) && act != Copy(r) && act != Check(r) && r < net.n
    requires RouterShape(net.n, s.routers[r]) && s.routers[r].curr != s.routers[r].next
    ensures RouterShape(net.n, Next(net, s, act).routers[r])
    ensures Curr(Next(net, s, act).routers[r]) == Curr(s.routers[r])
  {
    NextKeepsShape(net, s, act);
    if act == Relax(r) { RelaxFrame(net, s, r); }
  }

  lemma CheckLowers(net: Net, s: State, r: nat, k: nat)
    requires Shape(net, s) && Enabled(net, s, Check(r)) && k < net.n && Ordered(net.n, s.routers[r])
    requires RouterShape(net.n, Next(net, s, Check(r)).routers[r])
    ensures Curr(Next(net, s, Check(r)).routers[r])[k] <= Curr(s.routers[r])[k]
  {
    var x := s.routers[r];
    assert RouterShape(net.n, x) && NextVector(x)[k] <= Curr(x)[k];
  }

  /** No vector of any router is ever below the shortest distance. */
  lemma DistancesNeverBelow(net: Net, s: State, r: nat, b: nat, k: nat, d: nat)
    requires ValidNet(net) && Reachable(net, s) && r < net.n && b < 4 && k < net.n
    requires Shortest(net.links, net.n, r, k, d)
    ensures r < |s.routers| && RouterShape(net.n, s.routers[r]) && d <= s.routers[r].buffers[b][k] <= INF
  {
    ReachableInv(net, s);
    assert RouterShape(net.n, s.routers[r]) && AllSound(net, r, s.routers[r]);
    assert Sound(net, r, s.routers[r].buffers[b]);
  }

  /** A vector on its way or being read is what its owner sent: no step of anyone
      changes it. */
  lemma SentVectorsAreFrozen(net: Net, s: State, act: Action, owner: nat, slot: nat)
    requires ValidNet(net) && Reachable(net, s) && Shape(net, s) && Enabled(net, s, act)
    requires owner < net.n && InUse(net, s, owner, slot)
    ensures var before, after := s.routers[owner].buffers, Next(net, s, act).routers[owner].buffers;
      slot < |before| == |after| && after[slot] == before[slot]
  {
    ReachableInv(net, s);
    InUseIsFrozen(net, s, act, owner, slot);
  }

  /** Nothing is left to do: all wait, nothing is on its way. */
  predicate Quiescent(net: Net, s: State)
    requires Shape(net, s)
  {
    forall r :: 0 <= r < net.n ==>
      s.routers[r].phase.Selecting? && s.routers[r].left == 0 && !s.routers[r].changed && s.channels[r].Empty?
  }

  /** Nothing is left to do but to answer probes. */
  predicate Calm(net: Net, s: State)
    requires Shape(net, s)
  {
    forall r :: 0 <= r < net.n ==>
      && !s.routers[r].phase.Relaxing? && !s.routers[r].phase.Copying?
      && s.routers[r].left == 0 && !s.routers[r].changed
      && (s.channels[r].Full? ==> s.channels[r].note.Null?)
  }

  lemma CalmHeard(net: Net, s: State, r: nat, a: nat, k: nat)
    requires Inv(net, s) && Calm(net, s) && r < net.n && SendsTo(net, a, r) && k < net.n
    ensures RouterShape(net.n, s.routers[r]) && RouterShape(net.n, s.routers[a])
    ensures Curr(s.routers[r])[k] <= Link(net, r, a) + Curr(s.routers[a])[k]
  {
    var x, y := s.routers[a], s.routers[r];
    assert RouterShape(net.n, x) && RouterShape(net.n, y) && LearnedAt(net, s, a, r) && Ordered(net.n, y);
    assert !Owes(x, r);
    assert Heard(Link(net, r, a), Latest(y), Curr(x), net.n);
    assert Latest(y)[k] <= Link(net, r, a) + Curr(x)[k];
  }

  /** Then no walk is shorter than what its first router published. */
  lemma {:induction false} NoShorterWalk(net: Net, s: State, w: seq<nat>)
    requires Inv(net, s) && Symmetric(net) && Calm(net, s) && Walk(net.n, w)
    ensures RouterShape(net.n, s.routers[w[0]])
    ensures Curr(s.routers[w[0]])[w[|w| - 1]] <= Weight(net.links, net.n, w)
    decreases |w|
  {
    var r, a, k := w[0], w[1], w[|w| - 1];
    assert RouterShape(net.n, s.routers[r]);
    assert AllSound(net, r, s.routers[r]) && Sound(net, r, Curr(s.routers[r]));
    assert Curr(s.routers[r])[k] <= Link(net, r, k) <= INF;
    if |w| > 2 {
      NoShorterWalk(net, s, w[1..]);
      assert w[1..][|w| - 2] == k;
      if SendsTo(net, r, a) { CalmHeard(net, s, r, a, k); }
    }
  }

  /** While there is nothing but probes, the published vectors are the shortest distances. */
  lemma CalmIsShortest(net: Net, s: State, r: nat, k: nat)
    requires Inv(net, s) && Symmetric(net) && Calm(net, s) && r < net.n && k < net.n
    ensures RouterShape(net.n, s.routers[r]) && Shortest(net.links, net.n, r, k, Curr(s.routers[r])[k])
  {
    assert RouterShape(net.n, s.routers[r]);
    assert AllSound(net, r, s.routers[r]) && Sound(net, r, Curr(s.routers[r]));
    forall w: seq<nat> | Joins(net.n, w, r, k) ensures Curr(s.routers[r])[k] <= Weight(net.links, net.n, w) {
      NoShorterWalk(net, s, w);
    }
  }

  /** At rest the published vectors are the shortest distances. */
  lemma QuiescentIsShortest(net: Net, s: State, r: nat, k: nat)
    requires Inv(net, s) && Symmetric(net) && Quiescent(net, s) && r < net.n && k < net.n
    ensures RouterShape(net.n, s.routers[r]) && Shortest(net.links, net.n, r, k, Curr(s.routers[r])[k])
  {
    CalmIsShortest(net, s, r, k);
  }

  /** No router and no waiting reply can go on by itself. */
  ghost predicate Stuck(net: Net, s: State)
    requires Shape(net, s)
  {
    forall act :: Enabled(net, s, act) ==> act.Probe?
  }

  /** The routers cannot block each other: they stop only when all is done. */
  lemma StuckIsQuiescent(net: Net, s: State)
    requires Inv(net, s) && Stuck(net, s)
    ensures Quiescent(net, s)
  {
    assert !Enabled(net, s, Collect);
    forall r: nat | r < net.n ensures s.routers[r].phase.Selecting? && s.channels[r].Empty? {
      assert !Enabled(net, s, Receive(r)) && !Enabled(net, s, Relax(r)) && !Enabled(net, s, Reply(r))
          && !Enabled(net, s, Check(r)) && !Enabled(net, s, Copy(r));
    }
    forall r: nat | r < net.n ensures s.routers[r].left == 0 && !s.routers[r].changed {
      assert RouterShape(net.n, s.routers[r]) && Settled(s.routers[r]);
      assert !Enabled(net, s, Send(r, 0));
    }
  }

  /** Wherever the routers of a topology with symmetric finite links stop, they
      have found the matrix that floyd_warshall computes. */
  lemma StuckIsSolved(net: Net, s: State, solution: seq<Distance>)
    requires ValidNet(net) && Symmetric(net) && Reachable(net, s)
    requires Shape(net, s) && Stuck(net, s) && |solution| == Area(net.n)
    requires forall i, j :: 0 <= i < net.n && 0 <= j < net.n ==>
      Shortest(net.links, net.n, i, j, At(solution, net.n, i, j))
    ensures forall r, k :: 0 <= r < net.n && 0 <= k < net.n ==>
      RouterShape(net.n, s.routers[r]) && Curr(s.routers[r])[k] == At(solution, net.n, r, k)
  {
    ReachableInv(net, s);
    StuckIsQuiescent(net, s);
    forall r: nat, k: nat | r < net.n && k < net.n
      ensures RouterShape(net.n, s.routers[r]) && Curr(s.routers[r])[k] == At(solution, net.n, r, k)
    {
      QuiescentIsShortest(net, s, r, k);
      ShortestUnique(net.links, net.n, r, k, Curr(s.routers[r])[k], At(solution, net.n, r, k));
    }
  }

  /** The assertion of line 186: a message comes over a finite link. */
  predicate NeighborsKnown(net: Net, s: State)
    requires Shape(net, s)
  {
    forall r :: 0 <= r < net.n && s.routers[r].phase.Relaxing? ==> SendsTo(net, r, s.routers[r].phase.from)
  }

  lemma SymmetricNeighborsKnown(net: Net, s: State)
    requires Inv(net, s) && Symmetric(net)
    ensures NeighborsKnown(net, s)
  {
    forall r | 0 <= r < net.n && s.routers[r].phase.Relaxing?
      ensures SendsTo(net, r, s.routers[r].phase.from)
    {
      var a := s.routers[r].phase.from;
      assert RouterShape(net.n, s.routers[r]);
      assert Placed(net, a, s.routers[a], r, s.routers[r], s.channels[r]);
    }
  }

  /** A one-way link reaches the assertion in two steps. */
  lemma OneWayLinkFails(net: Net, a: nat, r: nat) returns (s: State)
    requires ValidNet(net) && SendsTo(net, a, r) && !SendsTo(net, r, a)
    ensures Reachable(net, s) && Shape(net, s) && !NeighborsKnown(net, s)
  {
    InitHasShape(net);
    var s0 := Init(net);
    var targets := s0.routers[a].targets;
    assert r in targets;
    var k: nat :| k < |targets| && targets[k] == r;
    var send, receive := Send(a, k), Receive(r);
    NextKeepsShape(net, s0, send);
    var s1 := Next(net, s0, send);
    NextKeepsShape(net, s1, receive);
    s := Next(net, s1, receive);
    assert Run(net, s, [], s);
    assert [receive][1..] == [];
    assert Run(net, s1, [receive], s);
    assert [send, receive][1..] == [receive];
    assert Run(net, s0, [send, receive], s);
    assert s.routers[r].phase == Relaxing(a, 0 + s0.routers[a].curr, 0);
  }

  /** The assertion holds in every run if and only if finite links go both ways. */
  lemma NeighborAssertionExactly(net: Net)
    requires ValidNet(net)
    ensures Symmetric(net) <==> forall s: State :: Reachable(net, s) ==> Shape(net, s) && NeighborsKnown(net, s)
  {
    if Symmetric(net) {
      forall s: State | Reachable(net, s) ensures Shape(net, s) && NeighborsKnown(net, s) {
        ReachableInv(net, s);
        SymmetricNeighborsKnown(net, s);
      }
    } else {
      var a, r :| 0 <= a < net.n && 0 <= r < net.n && SendsTo(net, a, r) && !SendsTo(net, r, a);
      var s := OneWayLinkFails(net, a, r);
    }
  }
}
