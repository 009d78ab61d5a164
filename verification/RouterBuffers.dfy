/** Why four buffers are enough: with channels of capacity one, a vector that some
    channel holds or some router is still reading is never the one its owner
    writes.  The vector before the last one may still be read only while the last
    one waits in the channel of the same reader. */
module RouterBuffers {
  import opened Walks
  import opened RouterModel

  /** The four roles are four buffers, and every neighbour is a target once. */
  ghost predicate Roles(net: Net, r: nat, x: Router)
    requires |net.links| == Area(net.n)
  {
    && x.curr != x.next && x.curr != x.prev && x.curr != x.prevPrev
    && x.next != x.prev && x.next != x.prevPrev && x.prev != x.prevPrev
    && (forall t :: t in x.targets <==> SendsTo(net, r, t))
    && (forall i, j :: 0 <= i < j < |x.targets| ==> x.targets[i] != x.targets[j])
    && x.left <= |x.targets|
    && (x.phase.Copying? ==> x.left == 0)
  }

  /** Whether x has yet to send its current vector to t. */
  predicate Owes(x: Router, t: nat)
    requires x.left <= |x.targets|
  {
    if x.phase.Copying? then t in x.targets else t in x.targets[..x.left]
  }

  /** Where the vectors of a can be, seen from a reader r: c is r's channel. */
  ghost predicate Placed(net: Net, a: nat, x: Router, r: nat, y: Router, c: Channel)
    requires |net.links| == Area(net.n) && x.left <= |x.targets|
  {
    && (c.Full? && c.note.Vector? && c.note.owner == a ==>
          && SendsTo(net, a, r)
          && c.note.slot == if Owes(x, r) then x.prev else x.curr)
    && (y.phase.Relaxing? && y.phase.from == a ==>
          && SendsTo(net, a, r)
          && var slot := y.phase.slot;
             || (slot == x.curr && !Owes(x, r))
             || (slot == x.prev && (Owes(x, r) || c == Full(Vector(a, x.curr))))
             || (slot == x.prevPrev && Owes(x, r) && c == Full(Vector(a, x.prev))))
  }

  ghost predicate BuffersInv(net: Net, s: State) {
    && Shape(net, s)
    && (forall r :: 0 <= r < net.n ==> Roles(net, r, s.routers[r]))
    && (forall a, r :: 0 <= a < net.n && 0 <= r < net.n ==>
          Placed(net, a, s.routers[a], r, s.routers[r], s.channels[r]))
  }

  /** Sending to entry k takes exactly that target off the list. */
  lemma SentTargets(x: Router, k: nat)
    requires k < x.left <= |x.targets|
    requires forall i, j :: 0 <= i < j < |x.targets| ==> x.targets[i] != x.targets[j]
    ensures var y := Sent(x, k);
      && (forall t :: t in y.targets <==> t in x.targets)
      && (forall i, j :: 0 <= i < j < |y.targets| ==> y.targets[i] != y.targets[j])
      && (forall t :: t in y.targets[..y.left] <==> t in x.targets[..x.left] && t != x.targets[k])
  {
    var y := Sent(x, k);
    forall t ensures t in y.targets <==> t in x.targets {
      assert x.targets[k] == y.targets[x.left - 1] && x.targets[x.left - 1] == y.targets[k];
      if t in x.targets {
        var i :| 0 <= i < |x.targets| && x.targets[i] == t;
        assert y.targets[if i == k then x.left - 1 else if i == x.left - 1 then k else i] == t;
      }
    }
    forall t ensures t in y.targets[..y.left] <==> t in x.targets[..x.left] && t != x.targets[k] {
      if t in x.targets[..x.left] && t != x.targets[k] {
        var i :| 0 <= i < x.left && x.targets[i] == t;
        assert y.targets[..y.left][if i == x.left - 1 then k else i] == t;
      }
      if t in y.targets[..y.left] {
        var i :| 0 <= i < y.left && y.targets[i] == t;
        assert x.targets[..x.left][if i == k then x.left - 1 else i] == t;
      }
    }
  }

  lemma RolesStep(net: Net, s: State, act: Action, r: nat)
    requires BuffersInv(net, s) && Enabled(net, s, act) && r < net.n
    ensures Roles(net, r, Next(net, s, act).routers[r])
  {
    var x, y := s.routers[r], Next(net, s, act).routers[r];
    assert Roles(net, r, x);
    if act.Send? && act.r == r {
      SentTargets(x, act.k);
    } else {
      assert y.targets == x.targets;
      if act.Relax? { RelaxFrame(net, s, act.r); }
    }
  }

  ghost predicate PlacedAt(net: Net, s: State, a: nat, r: nat)
    requires Shape(net, s) && a < net.n && r < net.n
  {
    Placed(net, a, s.routers[a], r, s.routers[r], s.channels[r])
  }

  /** A send fills the channel of a router it was owed to. */
  lemma PlacedSend(net: Net, s: State, act: Action, a: nat, r: nat)
    requires BuffersInv(net, s) && Enabled(net, s, act) && act.Send? && a < net.n && r < net.n
    requires Shape(net, Next(net, s, act))
    ensures PlacedAt(net, Next(net, s, act), a, r)
  {
    var x := s.routers[act.r];
    assert PlacedAt(net, s, a, r) && Roles(net, act.r, x);
    SentTargets(x, act.k);
    var t := x.targets[act.k];
    assert t == x.targets[..x.left][act.k];
    assert SendsTo(net, act.r, t);
  }

  /** A change of roles, with nothing owed before and everything owed after. */
  lemma PlacedCheck(net: Net, s: State, act: Action, a: nat, r: nat)
    requires BuffersInv(net, s) && Enabled(net, s, act) && act.Check? && a < net.n && r < net.n
    requires Shape(net, Next(net, s, act))
    ensures PlacedAt(net, Next(net, s, act), a, r)
  {
    assert PlacedAt(net, s, a, r) && Roles(net, act.r, s.routers[act.r]);
  }

  /** What the reader takes from its channel, it holds. */
  lemma PlacedReceive(net: Net, s: State, act: Action, a: nat, r: nat)
    requires BuffersInv(net, s) && Enabled(net, s, act) && act.Receive? && a < net.n && r < net.n
    requires Shape(net, Next(net, s, act))
    ensures PlacedAt(net, Next(net, s, act), a, r)
  {
    assert PlacedAt(net, s, a, r);
  }

  /** The loop that relaxes leaves everything alone but one vector and the flag. */
  lemma RelaxFrame(net: Net, s: State, r: nat)
    requires Shape(net, s) && Enabled(net, s, Relax(r))
    ensures var x, s' := s.routers[r], Next(net, s, Relax(r));
      var x' := s'.routers[r];
      && s' == Put(s, r, x') && x' == x.(phase := x'.phase, changed := x'.changed, buffers := x'.buffers)
      && x'.phase == (if x.phase.i == net.n then Checking else x.phase.(i := x.phase.i + 1))
      && |x'.buffers| == 4 && forall b :: 0 <= b < 4 && b != x.next ==> x'.buffers[b] == x.buffers[b]
  {
    assert RouterShape(net.n, s.routers[r]);
  }

  lemma PlacedRelax(net: Net, s: State, act: Action, a: nat, r: nat)
    requires BuffersInv(net, s) && Enabled(net, s, act) && act.Relax? && a < net.n && r < net.n
    requires Shape(net, Next(net, s, act))
    ensures PlacedAt(net, Next(net, s, act), a, r)
  {
    assert PlacedAt(net, s, a, r);
    RelaxFrame(net, s, act.r);
  }

  /** At the end of the copying loop every target is still owed. */
  lemma PlacedCopy(net: Net, s: State, act: Action, a: nat, r: nat)
    requires BuffersInv(net, s) && Enabled(net, s, act) && act.Copy? && a < net.n && r < net.n
    requires Shape(net, Next(net, s, act))
    ensures PlacedAt(net, Next(net, s, act), a, r)
  {
    assert PlacedAt(net, s, a, r) && Roles(net, act.r, s.routers[act.r]);
    var x, x' := s.routers[act.r], Next(net, s, act).routers[act.r];
    assert x'.targets == x.targets && forall t :: Owes(x', t) <==> Owes(x, t);
  }

  lemma PlacedStep(net: Net, s: State, act: Action, a: nat, r: nat)
    requires BuffersInv(net, s) && Enabled(net, s, act) && a < net.n && r < net.n
    requires Shape(net, Next(net, s, act))
    ensures PlacedAt(net, Next(net, s, act), a, r)
  {
    match act
    case Send(_, _) => PlacedSend(net, s, act, a, r);
    case Check(_) => PlacedCheck(net, s, act, a, r);
    case Receive(_) => PlacedReceive(net, s, act, a, r);
    case Relax(_) => PlacedRelax(net, s, act, a, r);
    case Copy(_) => PlacedCopy(net, s, act, a, r);
    case _ => assert PlacedAt(net, s, a, r);
  }

  lemma BuffersInvStep(net: Net, s: State, act: Action)
    requires BuffersInv(net, s) && Enabled(net, s, act)
    ensures BuffersInv(net, Next(net, s, act))
  {
    NextKeepsShape(net, s, act);
    var s' := Next(net, s, act);
    forall r | 0 <= r < net.n ensures Roles(net, r, s'.routers[r]) { RolesStep(net, s, act, r); }
    forall a, r | 0 <= a < net.n && 0 <= r < net.n
      ensures Placed(net, a, s'.routers[a], r, s'.routers[r], s'.channels[r])
    {
      PlacedStep(net, s, act, a, r);
      assert PlacedAt(net, s', a, r);
    }
  }

  lemma BuffersInvInit(net: Net)
    requires |net.links| == Area(net.n)
    ensures BuffersInv(net, Init(net))
  {
    InitHasShape(net);
  }

  /** The slot of `owner` is in a channel or being read. */
  ghost predicate InUse(net: Net, s: State, owner: nat, slot: nat)
    requires Shape(net, s)
  {
    exists r :: 0 <= r < net.n &&
      (s.channels[r] == Full(Vector(owner, slot))
       || (s.routers[r].phase.Relaxing? && s.routers[r].phase.from == owner && s.routers[r].phase.slot == slot))
  }

  /** A vector in use is never the one being written, ... */
  lemma InUseIsNotNext(net: Net, s: State, owner: nat, slot: nat)
    requires BuffersInv(net, s) && owner < net.n && InUse(net, s, owner, slot)
    ensures slot < 4 && slot != s.routers[owner].next
  {
    var r :| 0 <= r < net.n &&
      (s.channels[r] == Full(Vector(owner, slot))
       || (s.routers[r].phase.Relaxing? && s.routers[r].phase.from == owner && s.routers[r].phase.slot == slot));
    assert Placed(net, owner, s.routers[owner], r, s.routers[r], s.channels[r]);
    assert Roles(net, owner, s.routers[owner]) && RouterShape(net.n, s.routers[owner]);
  }

  /** ... so no step of any router changes it. */
  lemma InUseIsFrozen(net: Net, s: State, act: Action, owner: nat, slot: nat)
    requires BuffersInv(net, s) && Enabled(net, s, act) && owner < net.n && InUse(net, s, owner, slot)
    ensures var before, after := s.routers[owner].buffers, Next(net, s, act).routers[owner].buffers;
      slot < |before| == |after| && after[slot] == before[slot]
  {
    InUseIsNotNext(net, s, owner, slot);
    OnlyNextIsWritten(net, s, act, owner, slot);
  }

  /** Whatever step is taken, of a router's four vectors only the next one changes. */
  lemma OnlyNextIsWritten(net: Net, s: State, act: Action, owner: nat, slot: nat)
    requires Shape(net, s) && Enabled(net, s, act) && owner < net.n && slot < 4 && slot != s.routers[owner].next
    ensures var before, after := s.routers[owner].buffers, Next(net, s, act).routers[owner].buffers;
      slot < |before| == |after| && after[slot] == before[slot]
  {
    assert RouterShape(net.n, s.routers[owner]);
    if act.Relax? {
      RelaxFrame(net, s, act.r);
    } else if act.Copy? {
    } else {
      assert Next(net, s, act).routers[owner].buffers == s.routers[owner].buffers;
    }
  }
}
