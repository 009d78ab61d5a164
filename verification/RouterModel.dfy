/** The distance-vector routers of p3-concurrent-channels/stress.c as a state
    machine.  A step is one successful channel_select, one iteration of a loop
    over the nodes, or one reply; messages are pointers to the sender's buffers,
    read while the sender goes on. */
module RouterModel {
  import opened Walks

  /** What travels on a channel: NULL, or one of the four buffers of its owner. */
  datatype Note = Null | Vector(owner: nat, slot: nat)

  /** A channel of capacity one. */
  datatype Channel = Empty | Full(note: Note)

  datatype Phase =
    | Selecting
    | Relaxing(from: nat, slot: nat, i: nat)
    | Replying
    | Checking
    | Copying(i: nat)

  /** The local variables of one router.  The four roles are positions in
      `buffers`; `targets` holds the channels of select_list from entry 2 on, of
      which the first `left` are still to be sent to. */
  datatype Router = Router(phase: Phase, changed: bool,
                           prevPrev: nat, prev: nat, curr: nat, next: nat,
                           targets: seq<nat>, left: nat, buffers: seq<seq<Distance>>)

  datatype Net = Net(n: nat, links: seq<Distance>)

  datatype State = State(routers: seq<Router>, channels: seq<Channel>, completed: Channel)

  datatype Action =
    | Probe(r: nat)
    | Collect
    | Receive(r: nat)
    | Send(r: nat, k: nat)
    | Relax(r: nat)
    | Reply(r: nat)
    | Check(r: nat)
    | Copy(r: nat)

  ghost predicate ValidNet(net: Net) { Graph(net.links, net.n) }

  function Link(net: Net, r: nat, t: nat): Distance
    requires |net.links| == Area(net.n) && r < net.n && t < net.n
  {
    At(net.links, net.n, r, t)
  }

  /** Whether r sends its vectors to t. */
  predicate SendsTo(net: Net, r: nat, t: nat)
    requires |net.links| == Area(net.n)
  {
    r < net.n && t < net.n && r != t && Link(net, r, t) != INF
  }

  /** A link is finite in both directions or in none; its two lengths may differ. */
  ghost predicate Symmetric(net: Net)
    requires ValidNet(net)
  {
    forall r, t :: 0 <= r < net.n && 0 <= t < net.n && SendsTo(net, r, t) ==> SendsTo(net, t, r)
  }

  /** The neighbours of r among the first m nodes, in order. */
  function Targets(net: Net, r: nat, m: nat): (ts: seq<nat>)
    requires |net.links| == Area(net.n) && r < net.n && m <= net.n
    ensures |ts| <= m
    ensures forall t: nat :: t in ts <==> t < m && SendsTo(net, r, t)
    ensures forall i, j :: 0 <= i < j < |ts| ==> ts[i] != ts[j]
  {
    if m == 0 then []
    else Targets(net, r, m - 1) + if SendsTo(net, r, m - 1) then [m - 1] else []
  }

  function Row(net: Net, r: nat): seq<Distance>
    requires |net.links| == Area(net.n) && r < net.n
  {
    seq(net.n, i requires 0 <= i < net.n => Link(net, r, i))
  }

  function InitRouter(net: Net, r: nat): Router
    requires |net.links| == Area(net.n) && r < net.n
  {
    var row := Row(net, r);
    var targets := Targets(net, r, net.n);
    Router(Selecting, false, 0, 1, 2, 3, targets, |targets|, [row, row, row, row])
  }

  function Init(net: Net): State
    requires |net.links| == Area(net.n)
  {
    State(seq(net.n, r requires 0 <= r < net.n => InitRouter(net, r)), seq(net.n, _ => Empty), Empty)
  }

  predicate NoteShape(n: nat, c: Channel) {
    c.Full? && c.note.Vector? ==> c.note.owner < n && c.note.slot < 4
  }

  predicate PhaseShape(n: nat, phase: Phase) {
    match phase
    case Relaxing(from, slot, i) => from < n && slot < 4 && i <= n
    case Copying(i) => i <= n
    case _ => true
  }

  predicate RouterShape(n: nat, x: Router) {
    && x.prevPrev < 4 && x.prev < 4 && x.curr < 4 && x.next < 4
    && x.left <= |x.targets| && (forall j :: 0 <= j < |x.targets| ==> x.targets[j] < n)
    && |x.buffers| == 4 && (forall b :: 0 <= b < 4 ==> |x.buffers[b]| == n)
    && PhaseShape(n, x.phase)
  }

  predicate Shape(net: Net, s: State) {
    && |s.routers| == |s.channels| == net.n
    && |net.links| == Area(net.n)
    && (forall r :: 0 <= r < net.n ==> RouterShape(net.n, s.routers[r]))
    && (forall r :: 0 <= r < net.n ==> NoteShape(net.n, s.channels[r]))
  }

  predicate Enabled(net: Net, s: State, a: Action)
    requires Shape(net, s)
  {
    match a
    case Probe(r) => r < net.n && s.channels[r].Empty?
    case Collect => s.completed.Full?
    case Receive(r) => r < net.n && s.routers[r].phase.Selecting? && s.channels[r].Full?
    case Send(r, k) =>
      && r < net.n && s.routers[r].phase.Selecting? && k < s.routers[r].left
      && s.channels[s.routers[r].targets[k]].Empty?
    case Relax(r) => r < net.n && s.routers[r].phase.Relaxing?
    case Reply(r) => r < net.n && s.routers[r].phase.Replying? && s.completed.Empty?
    case Check(r) => r < net.n && s.routers[r].phase.Checking?
    case Copy(r) => r < net.n && s.routers[r].phase.Copying?
  }

  /** The vector last published, and the one being worked on. */
  function Curr(x: Router): seq<Distance>
    requires x.curr < |x.buffers|
  {
    x.buffers[x.curr]
  }

  function NextVector(x: Router): seq<Distance>
    requires x.next < |x.buffers|
  {
    x.buffers[x.next]
  }

  function Write(x: Router, i: nat, d: Distance): Router
    requires x.next < |x.buffers| && i < |x.buffers[x.next]|
  {
    var vector: seq<Distance> := x.buffers[x.next][i := d];
    x.(buffers := x.buffers[x.next := vector])
  }

  /** One entry through the neighbour: lines 187 to 193. */
  function RelaxEntry(x: Router, link: Distance, neighbor: seq<Distance>, i: nat): Router
    requires x.next < |x.buffers| && i < |x.buffers[x.next]| && i < |neighbor|
  {
    var newDist := Add32(link, neighbor[i]);
    if newDist < NextVector(x)[i] then Write(x, i, newDist).(changed := true) else x
  }

  /** The message of entry k is sent; the last entry takes its place. */
  function Sent(x: Router, k: nat): Router
    requires k < x.left <= |x.targets|
  {
    var last := x.left - 1;
    x.(targets := x.targets[last := x.targets[k]][k := x.targets[last]], left := last, phase := Checking)
  }

  /** The roles move on by one buffer. */
  function Rotate(x: Router): Router {
    x.(curr := x.next, next := x.prevPrev, prevPrev := x.prev, prev := x.curr, phase := Copying(0))
  }

  function Converged(x: Router): bool { x.left == 0 && !x.changed }

  function Put(s: State, r: nat, x: Router): State
    requires r < |s.routers|
  {
    s.(routers := s.routers[r := x])
  }

  function Next(net: Net, s: State, a: Action): (s': State)
    requires Shape(net, s) && Enabled(net, s, a)
  {
    match a
    case Probe(r) => s.(channels := s.channels[r := Full(Null)])
    case Collect => s.(completed := Empty)
    case Receive(r) =>
      var phase := match s.channels[r].note
        case Null => Replying
        case Vector(owner, slot) => Relaxing(owner, slot, 0);
      Put(s, r, s.routers[r].(phase := phase)).(channels := s.channels[r := Empty])
    case Send(r, k) =>
      var x := s.routers[r];
      Put(s, r, Sent(x, k)).(channels := s.channels[x.targets[k] := Full(Vector(r, x.curr))])
    case Relax(r) =>
      var x := s.routers[r];
      var Relaxing(from, slot, i) := x.phase;
      if i == net.n then Put(s, r, x.(phase := Checking))
      else Put(s, r, RelaxEntry(x, Link(net, r, from), s.routers[from].buffers[slot], i)
                     .(phase := Relaxing(from, slot, i + 1)))
    case Reply(r) =>
      var x := s.routers[r];
      Put(s, r, x.(phase := Checking)).(completed := Full(if Converged(x) then Vector(r, x.curr) else Null))
    case Check(r) =>
      var x := s.routers[r];
      Put(s, r, if x.left == 0 && x.changed then Rotate(x) else x.(phase := Selecting))
    case Copy(r) =>
      var x := s.routers[r];
      var i := x.phase.i;
      if i == net.n then Put(s, r, x.(left := |x.targets|, changed := false, phase := Selecting))
      else Put(s, r, Write(x, i, Curr(x)[i]).(phase := Copying(i + 1)))
  }

  lemma PutKeepsShape(net: Net, s: State, r: nat, x: Router)
    requires Shape(net, s) && r < net.n && RouterShape(net.n, x)
    ensures Shape(net, Put(s, r, x))
  {
  }

  lemma NextKeepsShape(net: Net, s: State, a: Action)
    requires Shape(net, s) && Enabled(net, s, a)
    ensures Shape(net, Next(net, s, a))
  {
    if !a.Probe? && !a.Collect? {
      PutKeepsShape(net, s, a.r, Next(net, s, a).routers[a.r]);
    }
  }

  lemma InitRouterShape(net: Net, r: nat)
    requires |net.links| == Area(net.n) && r < net.n
    ensures RouterShape(net.n, InitRouter(net, r))
  {
    var targets := Targets(net, r, net.n);
    forall j | 0 <= j < |targets| ensures targets[j] < net.n { assert targets[j] in targets; }
  }

  lemma InitHasShape(net: Net)
    requires |net.links| == Area(net.n)
    ensures Shape(net, Init(net))
  {
    forall r | 0 <= r < net.n ensures RouterShape(net.n, Init(net).routers[r]) { InitRouterShape(net, r); }
  }

  /** A run: each action enabled in turn. */
  ghost predicate Run(net: Net, s: State, actions: seq<Action>, s': State)
    requires Shape(net, s)
    decreases |actions|
  {
    if actions == [] then s' == s
    else
      && Enabled(net, s, actions[0])
      && (NextKeepsShape(net, s, actions[0]);
          Run(net, Next(net, s, actions[0]), actions[1..], s'))
  }

  ghost predicate Reachable(net: Net, s: State)
    requires |net.links| == Area(net.n)
  {
    InitHasShape(net);
    exists actions: seq<Action> :: Run(net, Init(net), actions, s)
  }
}
