/** What a router answers to a probe of the main thread. */
module RouterReplies {
  import opened Walks
  import opened RouterModel
  import opened RouterBuffers
  import opened RouterTheorems

  /** Entry k of the vector being worked on differs from the published one. */
  predicate Differs(x: Router, k: nat)
    requires x.next < |x.buffers| && x.curr < |x.buffers|
  {
    k < |NextVector(x)| && k < |Curr(x)| && NextVector(x)[k] != Curr(x)[k]
  }

  /** The flag is not raised for nothing: outside the copying loop some entry is
      better than the published one. */
  ghost predicate Flagged(n: nat, x: Router)
    requires RouterShape(n, x)
  {
    x.changed && !x.phase.Copying? ==> exists k: nat :: Differs(x, k)
  }

  ghost predicate FlagsOk(net: Net, s: State)
    requires Shape(net, s)
  {
    forall r :: 0 <= r < net.n ==> Flagged(net.n, s.routers[r])
  }

  /** One entry: what was better stays better. */
  lemma RelaxFlagged(n: nat, x: Router, link: Distance, v: seq<Distance>, i: nat, phase: Phase)
    requires RouterShape(n, x) && x.curr != x.next && Ordered(n, x) && Flagged(n, x) && !x.phase.Copying?
    requires i < n == |v| && link <= INF && v[i] <= INF && PhaseShape(n, phase) && !phase.Copying?
    ensures var y := RelaxEntry(x, link, v, i).(phase := phase); RouterShape(n, y) && Flagged(n, y)
  {
    RelaxedFalls(n, x, link, v, i);
    var y := RelaxEntry(x, link, v, i).(phase := phase);
    assert Curr(y) == Curr(x);
    if x.changed {
      var k: nat :| Differs(x, k);
      assert NextVector(y)[k] <= NextVector(x)[k] < Curr(x)[k];
      assert Differs(y, k);
    } else if y.changed {
      assert NextVector(y)[i] < NextVector(x)[i] <= Curr(x)[i];
      assert Differs(y, i);
    }
  }

  lemma FlagStep(net: Net, s: State, act: Action, r: nat)
    requires Inv(net, s) && FlagsOk(net, s) && Enabled(net, s, act) && r < net.n
    requires Shape(net, Next(net, s, act))
    ensures Flagged(net.n, Next(net, s, act).routers[r])
  {
    var x, y := s.routers[r], Next(net, s, act).routers[r];
    assert RouterShape(net.n, x) && RouterShape(net.n, y) && Roles(net, r, x) && Ordered(net.n, x) && Flagged(net.n, x);
    if act == Relax(r) {
      if x.phase.i < net.n { RelaxReads(net, s, r); }
      else { SameVectors(net.n, x, y); }
    } else if act != Copy(r) {
      if !y.phase.Copying? { SameVectors(net.n, x, y); }
    }
  }

  lemma SameVectors(n: nat, x: Router, y: Router)
    requires RouterShape(n, x) && RouterShape(n, y) && Flagged(n, x) && !x.phase.Copying?
    requires y.buffers == x.buffers && y.curr == x.curr && y.next == x.next && y.changed == x.changed
    ensures Flagged(n, y)
  {
    if x.changed {
      var k: nat :| Differs(x, k);
      assert Differs(y, k);
    }
  }

  lemma RelaxReads(net: Net, s: State, r: nat)
    requires Inv(net, s) && FlagsOk(net, s) && r < net.n && Enabled(net, s, Relax(r)) && s.routers[r].phase.i < net.n
    requires Shape(net, Next(net, s, Relax(r)))
    ensures Flagged(net.n, Next(net, s, Relax(r)).routers[r])
  {
    var x := s.routers[r];
    assert RouterShape(net.n, x) && Roles(net, r, x) && Ordered(net.n, x) && Flagged(net.n, x);
    var from, slot, i := x.phase.from, x.phase.slot, x.phase.i;
    VectorBelowInf(net, s, from, slot, i);
    assert Link(net, r, from) <= INF;
    RelaxFlagged(net.n, x, Link(net, r, from), s.routers[from].buffers[slot], i, Relaxing(from, slot, i + 1));
  }

  lemma VectorBelowInf(net: Net, s: State, from: nat, slot: nat, i: nat)
    requires Inv(net, s) && from < net.n && slot < 4 && i < net.n
    ensures RouterShape(net.n, s.routers[from]) && s.routers[from].buffers[slot][i] <= INF
  {
    assert RouterShape(net.n, s.routers[from]) && AllSound(net, from, s.routers[from]);
    assert Sound(net, from, s.routers[from].buffers[slot]);
  }

  lemma {:induction false} FlagRun(net: Net, s: State, actions: seq<Action>, s': State)
    requires Inv(net, s) && FlagsOk(net, s) && Run(net, s, actions, s')
    ensures Shape(net, s') && FlagsOk(net, s')
    decreases |actions|
  {
    if actions != [] {
      NextKeepsShape(net, s, actions[0]);
      var s1 := Next(net, s, actions[0]);
      forall r | 0 <= r < net.n ensures Flagged(net.n, s1.routers[r]) { FlagStep(net, s, actions[0], r); }
      InvStep(net, s, actions[0]);
      FlagRun(net, s1, actions[1..], s');
    }
  }

  lemma ReachableFlags(net: Net, s: State)
    requires ValidNet(net) && Reachable(net, s)
    ensures Inv(net, s) && FlagsOk(net, s)
  {
    InitHasShape(net);
    InvInit(net);
    var actions: seq<Action> :| Run(net, Init(net), actions, s);
    FlagRun(net, Init(net), actions, s);
    ReachableInv(net, s);
  }

  /** In every reachable state a router answers a probe with a vector if and only if
      no neighbour is owed the published vector and there is nothing better to
      publish; and the vector is the one it has published. */
  lemma ReplyExactly(net: Net, s: State, r: nat)
    requires ValidNet(net) && Reachable(net, s) && Shape(net, s) && Enabled(net, s, Reply(r))
    ensures var x, answer := s.routers[r], Next(net, s, Reply(r)).completed;
      && x.left <= |x.targets| && x.curr < |x.buffers| && x.next < |x.buffers| && answer.Full?
      && (answer.note.Vector? <==> x.targets[..x.left] == [] && NextVector(x) == Curr(x))
      && (answer.note.Vector? ==>
            answer.note.owner == r && answer.note.slot < |x.buffers| && x.buffers[answer.note.slot] == Curr(x))
  {
    ReachableFlags(net, s);
    var x := s.routers[r];
    assert RouterShape(net.n, x) && Ordered(net.n, x) && Flagged(net.n, x);
    if !x.changed { assert NextVector(x) == Curr(x); }
  }

  /** When nothing is left to do but to answer probes, every answer is a vector of
      shortest distances. */
  lemma CalmReply(net: Net, s: State, r: nat, k: nat)
    requires ValidNet(net) && Symmetric(net) && Reachable(net, s) && Shape(net, s) && Calm(net, s)
    requires Enabled(net, s, Reply(r)) && k < net.n
    ensures var answer := Next(net, s, Reply(r)).completed;
      && answer.Full? && answer.note.Vector? && answer.note.owner == r && r < |s.routers|
      && answer.note.slot < |s.routers[r].buffers| && k < |s.routers[r].buffers[answer.note.slot]|
      && Shortest(net.links, net.n, r, k, s.routers[r].buffers[answer.note.slot][k])
  {
    ReachableInv(net, s);
    assert RouterShape(net.n, s.routers[r]);
    CalmIsShortest(net, s, r, k);
  }

  /** Whom a router sends to: the other routers over a finite link, each once; no
      vector is ever sent to its owner. */
  lemma TargetsExactly(net: Net, s: State, r: nat)
    requires ValidNet(net) && Reachable(net, s) && r < net.n
    ensures r < |s.routers| && r < |s.channels|
    ensures forall t: nat :: t in s.routers[r].targets <==>
      t < net.n && t != r && At(net.links, net.n, r, t) != 0x7fff_ffff
    ensures forall i, j :: 0 <= i < j < |s.routers[r].targets| ==> s.routers[r].targets[i] != s.routers[r].targets[j]
    ensures !(s.channels[r].Full? && s.channels[r].note.Vector? && s.channels[r].note.owner == r)
  {
    ReachableInv(net, s);
    assert RouterShape(net.n, s.routers[r]) && Roles(net, r, s.routers[r]);
    assert PlacedAt(net, s, r, r);
  }

  /** A router in its select takes what waits for it, and sends its published vector
      to any router it owes it to whose channel is free, in whatever order. */
  lemma SelectTakesAny(net: Net, s: State, r: nat, t: nat)
    requires ValidNet(net) && Reachable(net, s) && Shape(net, s) && r < net.n
    requires s.routers[r].phase.Selecting?
    ensures Enabled(net, s, Receive(r)) <==> s.channels[r].Full?
    ensures s.routers[r].left <= |s.routers[r].targets|
    ensures t in s.routers[r].targets[..s.routers[r].left] && t < net.n && s.channels[t].Empty? ==>
      exists k: nat :: Enabled(net, s, Send(r, k)) && s.routers[r].targets[k] == t &&
        Next(net, s, Send(r, k)).channels == s.channels[t := Full(Vector(r, s.routers[r].curr))]
  {
    var x := s.routers[r];
    assert RouterShape(net.n, x);
    if t in x.targets[..x.left] && t < net.n && s.channels[t].Empty? {
      var k: nat :| k < x.left && x.targets[..x.left][k] == t;
      assert Enabled(net, s, Send(r, k));
    }
  }

  // ---------------------------------------------------------------- every probe is answered

  /** How many of the actions are probes, replies, and collected replies. */
  function Probes(actions: seq<Action>): nat {
    if actions == [] then 0 else (if actions[0].Probe? then 1 else 0) + Probes(actions[1..])
  }

  function Replies(actions: seq<Action>): nat {
    if actions == [] then 0 else (if actions[0].Reply? then 1 else 0) + Replies(actions[1..])
  }

  function Collected(actions: seq<Action>): nat {
    if actions == [] then 0 else (if actions[0].Collect? then 1 else 0) + Collected(actions[1..])
  }

  /** Probes that wait for router r: on its channel, or taken and not yet answered. */
  function Waiting(s: State, r: nat): nat
    requires r < |s.routers| && r < |s.channels|
  {
    (if s.channels[r] == Full(Null) then 1 else 0) + (if s.routers[r].phase.Replying? then 1 else 0)
  }

  function SumWaiting(s: State, m: nat): nat
    requires m <= |s.routers| && m <= |s.channels|
  {
    if m == 0 then 0 else SumWaiting(s, m - 1) + Waiting(s, m - 1)
  }

  lemma {:induction false} SumWaitingUpdate(s: State, s': State, m: nat, r: nat)
    requires m <= |s.routers| == |s'.routers| == |s.channels| == |s'.channels| && r < |s.routers|
    requires forall q :: 0 <= q < |s.routers| && q != r ==> Waiting(s', q) == Waiting(s, q)
    ensures SumWaiting(s', m) == SumWaiting(s, m) + if r < m then Waiting(s', r) - Waiting(s, r) else 0
  {
    if m > 0 { SumWaitingUpdate(s, s', m - 1, r); }
  }

  /** At the router that acts only; elsewhere at most a vector arrives. */
  lemma WaitingElsewhere(net: Net, s: State, act: Action)
    requires Shape(net, s) && Enabled(net, s, act) && Shape(net, Next(net, s, act)) && !act.Collect?
    ensures var s' := Next(net, s, act);
      && (forall q :: 0 <= q < net.n && q != act.r ==> Waiting(s', q) == Waiting(s, q))
      && Waiting(s', act.r) == Waiting(s, act.r) + (if act.Probe? then 1 else 0) - (if act.Reply? then 1 else 0)
  {
    assert RouterShape(net.n, s.routers[act.r]);
    match act
    case Send(r, k) => assert s.routers[r].targets[k] < net.n;
    case _ =>
  }

  /** A probe makes one more wait, a reply one less, and no other step any difference. */
  lemma WaitingStep(net: Net, s: State, act: Action)
    requires Shape(net, s) && Enabled(net, s, act) && Shape(net, Next(net, s, act))
    ensures SumWaiting(Next(net, s, act), net.n) ==
            SumWaiting(s, net.n) + (if act.Probe? then 1 else 0) - (if act.Reply? then 1 else 0)
  {
    var s' := Next(net, s, act);
    if act.Collect? {
      if net.n > 0 { SumWaitingUpdate(s, s', net.n, 0); }
    } else {
      WaitingElsewhere(net, s, act);
      SumWaitingUpdate(s, s', net.n, act.r);
    }
  }

  lemma {:induction false} NoneWaiting(net: Net, m: nat)
    requires |net.links| == Area(net.n) && m <= net.n
    ensures SumWaiting(Init(net), m) == 0
  {
    if m > 0 { NoneWaiting(net, m - 1); }
  }

  lemma {:induction false} ProbesRun(net: Net, s: State, actions: seq<Action>, s': State)
    requires Shape(net, s) && Run(net, s, actions, s')
    ensures Shape(net, s')
    ensures SumWaiting(s, net.n) + Probes(actions) == Replies(actions) + SumWaiting(s', net.n)
    ensures (if s.completed.Full? then 1 else 0) + Replies(actions) ==
            Collected(actions) + if s'.completed.Full? then 1 else 0
    decreases |actions|
  {
    if actions != [] {
      NextKeepsShape(net, s, actions[0]);
      WaitingStep(net, s, actions[0]);
      ProbesRun(net, Next(net, s, actions[0]), actions[1..], s');
    }
  }

  /** Over every run each probe is answered once, or still waits; and each answer is
      collected once, or lies in completed_channel. */
  lemma ProbesAreAnswered(net: Net, actions: seq<Action>, s: State)
    requires ValidNet(net) && Shape(net, Init(net)) && Run(net, Init(net), actions, s)
    ensures Shape(net, s)
    ensures Probes(actions) == Replies(actions) + SumWaiting(s, net.n)
    ensures Replies(actions) == Collected(actions) + if s.completed.Full? then 1 else 0
  {
    NoneWaiting(net, net.n);
    ProbesRun(net, Init(net), actions, s);
  }
}
