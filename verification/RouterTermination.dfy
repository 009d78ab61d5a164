/** Every run of the routers is finite, however their steps and the probes of the
    main thread interleave: a router publishes again only after some distance
    fell, and each publication costs a bounded number of steps. */
module RouterTermination {
  import opened Walks
  import opened RouterModel
  import opened RouterBuffers
  import opened RouterTheorems

  function Sum(v: seq<Distance>): nat {
    if v == [] then 0 else v[|v| - 1] + Sum(v[..|v| - 1])
  }

  lemma {:induction false} SumUpdate(v: seq<Distance>, i: nat, d: Distance)
    requires i < |v|
    ensures Sum(v[i := d]) == Sum(v) - v[i] + d
  {
    var w: seq<Distance> := v[i := d];
    if i == |v| - 1 {
      assert w[..|v| - 1] == v[..|v| - 1];
    } else {
      SumUpdate(v[..|v| - 1], i, d);
      assert w[..|v| - 1] == v[..|v| - 1][i := d];
    }
  }

  /** Publications a router can still make, at most. */
  function Epochs(x: Router): nat
    requires x.curr < |x.buffers| && x.next < |x.buffers|
  {
    Sum(Latest(x)) + if x.changed && !x.phase.Copying? then 1 else 0
  }

  /** The steps one message costs, and one publication. */
  function PerSend(n: nat): nat { n + 5 }

  function PerEpoch(n: nat): nat { n + 1 + Times(n, PerSend(n)) }

  function PhaseSteps(n: nat, x: Router): nat {
    match x.phase
    case Selecting => 0
    case Relaxing(_, _, i) => if i < n then n - i + 2 else 2
    case Replying => 3
    case Checking => 1
    case Copying(i) => (if i < n then n - i else 0) + 1 + Times(|x.targets|, PerSend(n))
  }

  function RouterSteps(n: nat, x: Router): nat
    requires x.curr < |x.buffers| && x.next < |x.buffers|
  {
    Times(Epochs(x), PerEpoch(n)) + PhaseSteps(n, x) + Times(x.left, PerSend(n))
  }

  function ChannelSteps(n: nat, c: Channel): nat {
    match c
    case Empty => 0
    case Full(Null) => 4
    case Full(Vector(_, _)) => n + 3
  }

  function AllRouters(n: nat, xs: seq<Router>): nat
    requires forall x <- xs :: x.curr < |x.buffers| && x.next < |x.buffers|
  {
    if xs == [] then 0 else RouterSteps(n, xs[0]) + AllRouters(n, xs[1..])
  }

  function AllChannels(n: nat, cs: seq<Channel>): nat {
    if cs == [] then 0 else ChannelSteps(n, cs[0]) + AllChannels(n, cs[1..])
  }

  lemma {:induction false} RoutersUpdate(n: nat, xs: seq<Router>, r: nat, x: Router)
    requires forall y <- xs :: y.curr < |y.buffers| && y.next < |y.buffers|
    requires x.curr < |x.buffers| && x.next < |x.buffers| && r < |xs|
    ensures forall y <- xs[r := x] :: y.curr < |y.buffers| && y.next < |y.buffers|
    ensures AllRouters(n, xs[r := x]) == AllRouters(n, xs) - RouterSteps(n, xs[r]) + RouterSteps(n, x)
  {
    if r == 0 {
      assert xs[r := x][1..] == xs[1..];
    } else {
      RoutersUpdate(n, xs[1..], r - 1, x);
      assert xs[r := x][1..] == xs[1..][r - 1 := x];
    }
  }

  lemma {:induction false} ChannelsUpdate(n: nat, cs: seq<Channel>, r: nat, c: Channel)
    requires r < |cs|
    ensures AllChannels(n, cs[r := c]) == AllChannels(n, cs) - ChannelSteps(n, cs[r]) + ChannelSteps(n, c)
  {
    if r == 0 {
      assert cs[r := c][1..] == cs[1..];
    } else {
      ChannelsUpdate(n, cs[1..], r - 1, c);
      assert cs[r := c][1..] == cs[1..][r - 1 := c];
    }
  }

  /** Steps the whole system can still take without another probe, at most. */
  function Steps(net: Net, s: State): nat
    requires Shape(net, s)
  {
    AllRouters(net.n, s.routers) + AllChannels(net.n, s.channels) + if s.completed.Full? then 1 else 0
  }

  /** Reading an entry lets the sum fall or leaves the router as it is. */
  lemma RelaxEpochs(net: Net, r: nat, x: Router, v: seq<Distance>)
    requires ValidNet(net) && r < net.n && RouterOk(net, r, x) && x.phase.Relaxing? && x.phase.i < net.n
    requires Sound(net, x.phase.from, v)
    ensures var y := RelaxEntry(x, Link(net, r, x.phase.from), v, x.phase.i).(phase := x.phase.(i := x.phase.i + 1));
      RouterShape(net.n, y) && Epochs(y) <= Epochs(x)
  {
    var i := x.phase.i;
    RelaxedEntry(net, r, x, x.phase.from, v, i);
    var d := Add32(Link(net, r, x.phase.from), v[i]);
    if d < NextVector(x)[i] { SumUpdate(NextVector(x), i, d); }
  }

  /** A publication is paid for by the epoch it uses up. */
  lemma RotateSteps(n: nat, x: Router)
    requires RouterShape(n, x) && x.phase.Checking? && x.left == 0 && x.changed && |x.targets| <= n
    ensures RouterShape(n, Rotate(x)) && RouterSteps(n, Rotate(x)) < RouterSteps(n, x)
  {
    var y := Rotate(x);
    assert Latest(y) == Latest(x);
    TimesMonotone(Epochs(y), Epochs(x), PerEpoch(n));
    TimesMonotone(|x.targets|, n, PerSend(n));
  }

  ghost predicate TermInv(net: Net, s: State) {
    Inv(net, s) && forall r :: 0 <= r < net.n ==> |s.routers[r].targets| <= net.n
  }

  lemma RelaxEntryPays(net: Net, r: nat, x: Router, v: seq<Distance>)
    requires ValidNet(net) && r < net.n && RouterOk(net, r, x) && x.phase.Relaxing? && x.phase.i < net.n
    requires Sound(net, x.phase.from, v)
    ensures var y := RelaxEntry(x, Link(net, r, x.phase.from), v, x.phase.i).(phase := x.phase.(i := x.phase.i + 1));
      RouterShape(net.n, y) && RouterSteps(net.n, y) < RouterSteps(net.n, x)
  {
    var y := RelaxEntry(x, Link(net, r, x.phase.from), v, x.phase.i).(phase := x.phase.(i := x.phase.i + 1));
    RelaxEpochs(net, r, x, v);
    TimesMonotone(Epochs(y), Epochs(x), PerEpoch(net.n));
    assert PhaseSteps(net.n, y) < PhaseSteps(net.n, x) && y.left == x.left;
  }

  lemma RelaxPays(net: Net, s: State, r: nat)
    requires TermInv(net, s) && Enabled(net, s, Relax(r)) && Shape(net, Next(net, s, Relax(r)))
    ensures var x, y := s.routers[r], Next(net, s, Relax(r)).routers[r];
      RouterShape(net.n, x) && RouterShape(net.n, y) && RouterSteps(net.n, y) < RouterSteps(net.n, x)
  {
    var n, x, y := net.n, s.routers[r], Next(net, s, Relax(r)).routers[r];
    RelaxFrame(net, s, r);
    assert RouterShape(n, x) && RouterShape(n, y) && Roles(net, r, x) && AllSound(net, r, x) && Ordered(n, x);
    if x.phase.i < n {
      var a := x.phase.from;
      assert RouterShape(n, s.routers[a]) && AllSound(net, a, s.routers[a]);
      RelaxEntryPays(net, r, x, s.routers[a].buffers[x.phase.slot]);
    } else {
      PhasePays(n, x, Checking);
    }
  }

  lemma CopyPays(net: Net, s: State, r: nat)
    requires TermInv(net, s) && Enabled(net, s, Copy(r)) && Shape(net, Next(net, s, Copy(r)))
    ensures var x, y := s.routers[r], Next(net, s, Copy(r)).routers[r];
      RouterShape(net.n, x) && RouterShape(net.n, y) && RouterSteps(net.n, y) < RouterSteps(net.n, x)
  {
    var n, x, y := net.n, s.routers[r], Next(net, s, Copy(r)).routers[r];
    CopyFrame(net, s, r);
    assert RouterShape(n, x) && RouterShape(n, y) && Roles(net, r, x);
    assert Epochs(y) == Epochs(x);
  }

  lemma CheckPays(net: Net, s: State, r: nat)
    requires TermInv(net, s) && Enabled(net, s, Check(r)) && Shape(net, Next(net, s, Check(r)))
    ensures var x, y := s.routers[r], Next(net, s, Check(r)).routers[r];
      RouterShape(net.n, x) && RouterShape(net.n, y) && RouterSteps(net.n, y) < RouterSteps(net.n, x)
  {
    var n, x, y := net.n, s.routers[r], Next(net, s, Check(r)).routers[r];
    assert RouterShape(n, x) && RouterShape(n, y);
    if x.left == 0 && x.changed { RotateSteps(n, x); } else { assert Epochs(y) == Epochs(x); }
  }

  lemma SendPays(n: nat, x: Router, k: nat)
    requires RouterShape(n, x) && x.phase.Selecting? && k < x.left
    ensures RouterSteps(n, Sent(x, k)) + n + 3 < RouterSteps(n, x)
  {
    assert Epochs(Sent(x, k)) == Epochs(x);
  }

  /** Waiting for and answering messages. */
  lemma PhasePays(n: nat, x: Router, phase: Phase)
    requires RouterShape(n, x) && !x.phase.Copying? && !phase.Copying?
    ensures RouterSteps(n, x.(phase := phase)) - PhaseSteps(n, x.(phase := phase)) ==
            RouterSteps(n, x) - PhaseSteps(n, x)
  {
    assert Epochs(x.(phase := phase)) == Epochs(x);
  }

  lemma TermInvStep(net: Net, s: State, act: Action)
    requires TermInv(net, s) && Enabled(net, s, act)
    ensures TermInv(net, Next(net, s, act))
  {
    InvStep(net, s, act);
    forall r | 0 <= r < net.n ensures |Next(net, s, act).routers[r].targets| <= net.n {
      assert |Next(net, s, act).routers[r].targets| == |s.routers[r].targets|;
    }
  }

  /** A step that changes router r and channel t counts by what it does to them. */
  lemma StepsChange(net: Net, s: State, s': State, r: nat, t: nat)
    requires Shape(net, s) && Shape(net, s') && r < net.n && t < net.n
    requires s'.routers == s.routers[r := s'.routers[r]] && s'.channels == s.channels[t := s'.channels[t]]
    requires s'.completed == s.completed
    requires RouterShape(net.n, s.routers[r]) && RouterShape(net.n, s'.routers[r])
    requires RouterSteps(net.n, s'.routers[r]) + ChannelSteps(net.n, s'.channels[t])
             < RouterSteps(net.n, s.routers[r]) + ChannelSteps(net.n, s.channels[t])
    ensures Steps(net, s') < Steps(net, s)
  {
    RoutersUpdate(net.n, s.routers, r, s'.routers[r]);
    ChannelsUpdate(net.n, s.channels, t, s'.channels[t]);
  }

  /** A step of router r alone. */
  lemma OneRouterFalls(net: Net, s: State, s': State, r: nat)
    requires Shape(net, s) && Shape(net, s') && r < net.n && s' == Put(s, r, s'.routers[r])
    requires RouterShape(net.n, s.routers[r]) && RouterShape(net.n, s'.routers[r])
    requires RouterSteps(net.n, s'.routers[r]) < RouterSteps(net.n, s.routers[r])
    ensures Steps(net, s') < Steps(net, s)
  {
    RoutersUpdate(net.n, s.routers, r, s'.routers[r]);
  }

  lemma SendFalls(net: Net, s: State, r: nat, k: nat)
    requires Shape(net, s) && Enabled(net, s, Send(r, k)) && Shape(net, Next(net, s, Send(r, k)))
    ensures Steps(net, Next(net, s, Send(r, k))) < Steps(net, s)
  {
    var x, s' := s.routers[r], Next(net, s, Send(r, k));
    assert RouterShape(net.n, x) && RouterShape(net.n, s'.routers[r]);
    SendPays(net.n, x, k);
    var t := x.targets[k];
    assert s'.routers[r] == Sent(x, k) && s'.routers == s.routers[r := s'.routers[r]];
    assert s'.channels[t] == Full(Vector(r, x.curr)) && s'.channels == s.channels[t := s'.channels[t]];
    assert ChannelSteps(net.n, s'.channels[t]) == net.n + 3 && ChannelSteps(net.n, s.channels[t]) == 0;
    StepsChange(net, s, s', r, t);
  }

  lemma ReceiveFalls(net: Net, s: State, r: nat)
    requires Shape(net, s) && Enabled(net, s, Receive(r)) && Shape(net, Next(net, s, Receive(r)))
    ensures Steps(net, Next(net, s, Receive(r))) < Steps(net, s)
  {
    var x, s' := s.routers[r], Next(net, s, Receive(r));
    var y := s'.routers[r];
    assert RouterShape(net.n, x) && RouterShape(net.n, y);
    assert y == x.(phase := y.phase);
    PhasePays(net.n, x, y.phase);
    assert PhaseSteps(net.n, y) < ChannelSteps(net.n, s.channels[r]);
    StepsChange(net, s, s', r, r);
  }

  lemma ReplyFalls(net: Net, s: State, r: nat)
    requires Shape(net, s) && Enabled(net, s, Reply(r)) && Shape(net, Next(net, s, Reply(r)))
    ensures Steps(net, Next(net, s, Reply(r))) < Steps(net, s)
  {
    var x, s' := s.routers[r], Next(net, s, Reply(r));
    var y := s'.routers[r];
    assert RouterShape(net.n, x) && RouterShape(net.n, y) && y == x.(phase := Checking);
    PhasePays(net.n, x, Checking);
    RoutersUpdate(net.n, s.routers, r, y);
    assert RouterSteps(net.n, y) + 2 == RouterSteps(net.n, x);
  }

  lemma RelaxFalls(net: Net, s: State, r: nat)
    requires TermInv(net, s) && Enabled(net, s, Relax(r)) && Shape(net, Next(net, s, Relax(r)))
    ensures Steps(net, Next(net, s, Relax(r))) < Steps(net, s)
  {
    RelaxPays(net, s, r);
    OneRouterFalls(net, s, Next(net, s, Relax(r)), r);
  }

  lemma CheckFalls(net: Net, s: State, r: nat)
    requires TermInv(net, s) && Enabled(net, s, Check(r)) && Shape(net, Next(net, s, Check(r)))
    ensures Steps(net, Next(net, s, Check(r))) < Steps(net, s)
  {
    CheckPays(net, s, r);
    OneRouterFalls(net, s, Next(net, s, Check(r)), r);
  }

  lemma CopyFalls(net: Net, s: State, r: nat)
    requires TermInv(net, s) && Enabled(net, s, Copy(r)) && Shape(net, Next(net, s, Copy(r)))
    ensures Steps(net, Next(net, s, Copy(r))) < Steps(net, s)
  {
    CopyPays(net, s, r);
    OneRouterFalls(net, s, Next(net, s, Copy(r)), r);
  }

  /** Every step but a probe uses up one of the steps left; a probe adds four. */
  lemma StepsFall(net: Net, s: State, act: Action)
    requires TermInv(net, s) && Enabled(net, s, act) && Shape(net, Next(net, s, act))
    ensures Steps(net, Next(net, s, act)) + 1 <= Steps(net, s) + if act.Probe? then 5 else 0
  {
    match act
    case Probe(r) => ChannelsUpdate(net.n, s.channels, r, Full(Null));
    case Collect =>
    case Receive(r) => ReceiveFalls(net, s, r);
    case Send(r, k) => SendFalls(net, s, r, k);
    case Reply(r) => ReplyFalls(net, s, r);
    case Relax(r) => RelaxFalls(net, s, r);
    case Check(r) => CheckFalls(net, s, r);
    case Copy(r) => CopyFalls(net, s, r);
  }

  function Probes(actions: seq<Action>): nat {
    if actions == [] then 0 else (if actions[0].Probe? then 1 else 0) + Probes(actions[1..])
  }

  lemma {:induction false} RunSteps(net: Net, s: State, actions: seq<Action>, s': State)
    requires TermInv(net, s) && Run(net, s, actions, s')
    ensures |actions| <= Steps(net, s) + 5 * Probes(actions)
    decreases |actions|
  {
    if actions != [] {
      TermInvStep(net, s, actions[0]);
      StepsFall(net, s, actions[0]);
      RunSteps(net, Next(net, s, actions[0]), actions[1..], s');
    }
  }

  /** No run from the start is longer than this bound. */
  lemma RunsAreFinite(net: Net, actions: seq<Action>, s: State)
    requires ValidNet(net)
    requires Shape(net, Init(net)) && Run(net, Init(net), actions, s)
    ensures |actions| <= Steps(net, Init(net)) + 5 * Probes(actions)
  {
    InvInit(net);
    RunSteps(net, Init(net), actions, s);
  }

  /** From any state the routers reach an end by themselves, ... */
  lemma {:induction false} ReachesEnd(net: Net, s: State) returns (actions: seq<Action>, s': State)
    requires TermInv(net, s)
    ensures Probes(actions) == 0 && Run(net, s, actions, s') && Inv(net, s') && Stuck(net, s')
    decreases Steps(net, s)
  {
    if Stuck(net, s) {
      actions, s' := [], s;
    } else {
      var act :| Enabled(net, s, act) && !act.Probe?;
      TermInvStep(net, s, act);
      StepsFall(net, s, act);
      var rest;
      rest, s' := ReachesEnd(net, Next(net, s, act));
      actions := [act] + rest;
      assert actions[1..] == rest;
    }
  }

  lemma {:induction false} RunKeepsTermInv(net: Net, s: State, actions: seq<Action>, s': State)
    requires TermInv(net, s) && Run(net, s, actions, s')
    ensures TermInv(net, s')
    decreases |actions|
  {
    if actions != [] {
      TermInvStep(net, s, actions[0]);
      RunKeepsTermInv(net, Next(net, s, actions[0]), actions[1..], s');
    }
  }

  /** ... and what they have published there are the shortest distances. */
  lemma RoutersConverge(net: Net, s: State) returns (actions: seq<Action>, s': State)
    requires ValidNet(net) && Symmetric(net) && Reachable(net, s)
    ensures Probes(actions) == 0 && Shape(net, s) && Run(net, s, actions, s')
    ensures Shape(net, s') && Stuck(net, s')
    ensures forall r, k :: 0 <= r < net.n && 0 <= k < net.n ==>
      RouterShape(net.n, s'.routers[r]) && Shortest(net.links, net.n, r, k, Curr(s'.routers[r])[k])
  {
    InvInit(net);
    var before: seq<Action> :| Run(net, Init(net), before, s);
    RunKeepsTermInv(net, Init(net), before, s);
    actions, s' := ReachesEnd(net, s);
    StuckIsQuiescent(net, s');
    forall r: nat, k: nat | r < net.n && k < net.n
      ensures RouterShape(net.n, s'.routers[r]) && Shortest(net.links, net.n, r, k, Curr(s'.routers[r])[k])
    {
      QuiescentIsShortest(net, s', r, k);
    }
  }
}
