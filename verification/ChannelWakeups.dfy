/** Waiter-list ownership and the absence of lost wakeups. */
module ChannelWakeups {
  import opened Fifo
  import opened ChannelModel
  import opened ChannelTokens

  // ---------------------------------------------------------------- ownership

  /** Does one of the first p entries wait for this side of channel c? */
  ghost predicate Has(es: seq<Entry>, p: nat, c: nat, side: Side) {
    exists j :: 0 <= j < p && j < |es| && es[j].ch == c && es[j].side == side
  }

  /** Exactly when a thread's local semaphore is in the waiter list of (c, side). */
  ghost predicate Listed(f: Frame, c: nat, side: Side) {
    match f
    case OpFrame(_, _, _, _, InSelect(es, _)) => Has(es, |es|, c, side)
    case SelectFrame(es, pc) =>
      (match pc
       case RegLock(i) => Has(es, i, c, side)
       case RegInsert(i) => Has(es, i, c, side)
       case RegUnlock(i) => Has(es, i + 1, c, side)
       case Sleep => Has(es, |es|, c, side)
       case UnregLock(i, _) => Has(es, |es|, c, side) && !Has(es, i, c, side)
       case UnregRemove(i, _) => Has(es, |es|, c, side) && !Has(es, i, c, side)
       case UnregUnlock(i, _) => Has(es, |es|, c, side) && !Has(es, i + 1, c, side))
    case _ => false
  }

  ghost predicate NoDup(ws: seq<nat>) {
    forall i, j :: 0 <= i < j < |ws| ==> ws[i] != ws[j]
  }

  ghost predicate ListOk(s: State, c: nat, side: Side)
    requires c < |s.chans|
  {
    var ws := s.chans[c].Waiters(side);
    NoDup(ws) &&
    forall t :: 0 <= t < |s.threads| ==> (t in ws <==> Listed(s.threads[t].frame, c, side))
  }

  ghost predicate ListInv(s: State) {
    forall c, side :: 0 <= c < |s.chans| ==> ListOk(s, c, side)
  }

  lemma {:induction false} RemoveFirstOk(ws: seq<nat>, t: nat)
    requires NoDup(ws)
    ensures NoDup(RemoveFirst(ws, t)) && t !in RemoveFirst(ws, t)
    ensures forall u :: u != t ==> (u in RemoveFirst(ws, t) <==> u in ws)
  {
    forall u ensures (u in RemoveFirst(ws, t) ==> u in ws) && (u != t && u in ws ==> u in RemoveFirst(ws, t)) {
      RemoveFirstMembers(ws, t, u);
    }
    if ws != [] && ws[0] != t {
      RemoveFirstOk(ws[1..], t);
      RemoveFirstMembers(ws[1..], t, ws[0]);
      assert RemoveFirst(ws, t) == [ws[0]] + RemoveFirst(ws[1..], t);
    }
  }

  lemma InsertOk(ws: seq<nat>, t: nat)
    requires NoDup(ws)
    ensures NoDup(InsertIfAbsent(ws, t)) && t in InsertIfAbsent(ws, t)
    ensures forall u :: u != t ==> (u in InsertIfAbsent(ws, t) <==> u in ws)
  {
  }

  /** Only a registering or leaving select changes a waiter list, its own entry only. */
  lemma OnlySelectTouchesWaiters(f: Frame, ch: Chan, t: nat, side: Side)
    requires !(f.SelectFrame? && (f.spc.RegInsert? || f.spc.UnregRemove?))
    ensures NextChan(f, ch, t).Waiters(side) == ch.Waiters(side)
  {
    match f
    case OpFrame(_, _, _, pc, _) => if pc.Crit? { CritKeepsLists(ch, f.side, f.msg); }
    case CloseFrame(_, pc) =>
    case _ =>
  }

  lemma CritKeepsLists(ch: Chan, side: Side, msg: Message)
    ensures CritChan(ch, side, msg).sendList == ch.sendList && CritChan(ch, side, msg).recvList == ch.recvList
  {
  }

  lemma ListedStep(th: Thread, chans: seq<Chan>, c: nat, side: Side)
    requires ValidThread(th, |chans|) && (th.frame.Idle? ==> th.todo != [])
    ensures var f, f' := th.frame, NextThread(th, chans).frame;
            Listed(f', c, side) ==
            (if f.SelectFrame? && f.spc.RegInsert? && f.es[f.spc.i].ch == c && f.es[f.spc.i].side == side then true
             else if f.SelectFrame? && f.spc.UnregRemove? && f.es[f.spc.i].ch == c &&
             f.es[f.spc.i].side == side then false
             else Listed(f, c, side))
  {
    var f, f' := th.frame, NextThread(th, chans).frame;
    if f.SelectFrame? && (f.spc.RegInsert? || f.spc.UnregRemove?) {
      var i := f.spc.i;
      assert Has(f.es, i + 1, c, side) <==> Has(f.es, i, c, side) || (f.es[i].ch == c && f.es[i].side == side);
    } else if f.SelectFrame? {
    } else if f.OpFrame? {
      OpListedStep(th, chans[f.ch], c, side);
    }
  }

  lemma OpListedStep(th: Thread, ch: Chan, c: nat, side: Side)
    requires th.frame.OpFrame?
    requires th.frame.caller.InSelect? ==> th.frame.caller.i < |th.frame.caller.entries|
    ensures Listed(OpThread(th, ch).frame, c, side) == Listed(th.frame, c, side)
  {
  }

  lemma ListStep(s: State, t: nat, c: nat, side: Side)
    requires Valid(s) && t < |s.threads| && Enabled(s, t) && c < |s.chans| && ListOk(s, c, side)
    ensures ListOk(Next(s, t), c, side)
  {
    var f := s.threads[t].frame;
    var ws := s.chans[c].Waiters(side);
    assert ValidThread(s.threads[t], |s.chans|);
    ListedStep(s.threads[t], s.chans, c, side);
    InsertOk(ws, t);
    RemoveFirstOk(ws, t);
    if Touched(f) == c && !(f.SelectFrame? && (f.spc.RegInsert? || f.spc.UnregRemove?)) {
      OnlySelectTouchesWaiters(f, s.chans[c], t, side);
    }
  }

  lemma InitLists(capacities: seq<nat>, programs: seq<seq<Call>>)
    requires ValidPrograms(capacities, programs)
    ensures ListInv(Init(capacities, programs))
  {
  }

  lemma ListInvStep(s: State, t: nat)
    requires TokenInv(s) && ListInv(s) && t < |s.threads| && Enabled(s, t)
    ensures ListInv(Next(s, t))
  {
    forall c, side | 0 <= c < |s.chans| ensures ListOk(Next(s, t), c, side) { ListStep(s, t, c, side); }
  }

  // ---------------------------------------------------------------- wakeups

  /** Will the thread in frame f still post t's semaphore, as a waiter of (c, side)? */
  ghost predicate WillPost(f: Frame, c: nat, side: Side, ws: seq<nat>, t: nat) {
    match f
    case OpFrame(opSide, ch, _, pc, _) =>
      ch == c && Other(opSide) == side &&
      (pc.ListLock? || (pc.Notify? && exists m :: pc.k <= m < |ws| && ws[m] == t))
    case CloseFrame(ch, pc) =>
      ch == c &&
      (match pc
       case PostAvailable => true
       case PostUsed => true
       case CloseUnlock => true
       case CloseListLock(first) => first == Recv || side == Send
       case CloseNotify(first, k) =>
         if first == side then exists m :: k <= m < |ws| && ws[m] == t else side == Send
       case CloseListUnlock(first) => first == Recv && side == Send
       case _ => false)
    case _ => false
  }

  ghost predicate Woken(s: State, t: nat, c: nat, side: Side)
    requires Valid(s) && t < |s.threads| && c < |s.chans|
  {
    s.local[t] > 0 ||
    exists u :: 0 <= u < |s.threads| && WillPost(s.threads[u].frame, c, side, s.chans[c].Waiters(side), t)
  }

  function EntriesOf(f: Frame): seq<Entry> {
    match f
    case OpFrame(_, _, _, _, InSelect(es, _)) => es
    case SelectFrame(es, _) => es
    case _ => []
  }

  predicate PastTry(pc: OpPc) {
    pc.FailLock? || pc.FailCheck? || pc.FailOpen? || pc.FailClosed? || pc.FailPost?
  }

  /** The current round's sem_trywait of entry j has failed. */
  predicate Tried(f: Frame, j: nat) {
    j < |EntriesOf(f)| &&
    (match f
     case OpFrame(_, _, _, pc, InSelect(es, i)) => j < i || (j == i && PastTry(pc))
     case SelectFrame(es, pc) => pc.Sleep?
     case _ => false)
  }

  /** The current round has also seen entry j's channel open. */
  predicate Checked(f: Frame, j: nat) {
    j < |EntriesOf(f)| &&
    (match f
     case OpFrame(_, _, _, pc, InSelect(es, i)) => j < i || (j == i && pc.FailOpen?)
     case SelectFrame(es, pc) => pc.Sleep?
     case _ => false)
  }

  /** Entry j became ready after this round passed it. */
  ghost predicate Alarm(f: Frame, chans: seq<Chan>, j: nat) {
    Tried(f, j) && EntriesOf(f)[j].ch < |chans| &&
    var e := EntriesOf(f)[j];
    var ch := chans[e.ch];
    (!ch.closed && ch.Tokens(e.side) > 0) || (Checked(f, j) && ch.closed)
  }

  ghost predicate WakeupInv(s: State) {
    Valid(s) &&
    forall t, j :: 0 <= t < |s.threads| && 0 <= j && Alarm(s.threads[t].frame, s.chans, j) ==>
      Woken(s, t, EntriesOf(s.threads[t].frame)[j].ch, EntriesOf(s.threads[t].frame)[j].side)
  }

  /** A frame that will post t either posts t in this step or still will. */
  lemma PosterStep(th: Thread, ch: Chan, chans: seq<Chan>, c: nat, side: Side, t: nat)
    requires ValidThread(th, |chans|) && c < |chans| && chans[c] == ch
    requires WillPost(th.frame, c, side, ch.Waiters(side), t) && t in ch.Waiters(side)
    ensures Touched(th.frame) == c
    ensures Posted(th.frame, ch) == t || WillPost(NextThread(th, chans).frame, c, side, ch.Waiters(side), t)
    ensures !th.frame.SelectFrame?
  {
    var m :| 0 <= m < |ch.Waiters(side)| && ch.Waiters(side)[m] == t;
    match th.frame
    case OpFrame(_, _, _, pc, _) =>
    case CloseFrame(_, pc) =>
  }

  /** A thread that changes a waiter list and one that walks it cannot coexist. */
  lemma WalkExcludesChange(s: State, u: nat, v: nat, c: nat, side: Side)
    requires TokenInv(s) && u < |s.threads| && v < |s.threads| && u != v && c < |s.chans|
    requires Weight(s.threads[u].frame, ListLockHeld(c, side)) > 0
    ensures Weight(s.threads[v].frame, ListLockHeld(c, side)) == 0
  {
    assert ChanOk(s, c);
    TotalOfTwo(s.threads, if u < v then u else v, if u < v then v else u, ListLockHeld(c, side));
  }

  lemma WaitersKept(s: State, v: nat, c: nat, side: Side)
    requires Valid(s) && v < |s.threads| && Enabled(s, v) && c < |s.chans|
    requires Weight(s.threads[v].frame, ListLockHeld(c, side)) == 0
    ensures Next(s, v).chans[c].Waiters(side) == s.chans[c].Waiters(side)
  {
    var f := s.threads[v].frame;
    if Touched(f) == c && !(f.SelectFrame? && (f.spc.RegInsert? || f.spc.UnregRemove?)) {
      OnlySelectTouchesWaiters(f, s.chans[c], v, side);
    }
  }

  lemma OtherPosterKept(s: State, v: nat, u: nat, t: nat, c: nat, side: Side)
    requires TokenInv(s) && v < |s.threads| && Enabled(s, v) && u < |s.threads| && u != v
    requires c < |s.chans| && t < |s.threads|
    requires WillPost(s.threads[u].frame, c, side, s.chans[c].Waiters(side), t)
    ensures WillPost(Next(s, v).threads[u].frame, c, side, Next(s, v).chans[c].Waiters(side), t)
  {
    var f := s.threads[u].frame;
    if Weight(f, ListLockHeld(c, side)) > 0 {
      WalkExcludesChange(s, u, v, c, side);
      WaitersKept(s, v, c, side);
    }
  }

  /** A wakeup on its way to t stays on its way until t itself consumes it. */
  lemma WokenStep(s: State, v: nat, t: nat, c: nat, side: Side)
    requires TokenInv(s) && ListInv(s) && v < |s.threads| && Enabled(s, v) && Valid(Next(s, v))
    requires t < |s.threads| && c < |s.chans| && Listed(s.threads[t].frame, c, side)
    requires Woken(s, t, c, side)
    requires v == t ==> !(s.threads[t].frame.SelectFrame? && s.threads[t].frame.spc.Sleep?)
    ensures Woken(Next(s, v), t, c, side)
  {
    var s' := Next(s, v);
    assert ListOk(s, c, side);
    var ws := s.chans[c].Waiters(side);
    LocalKept(s, v, t);
    if s.local[t] == 0 {
      var u :| 0 <= u < |s.threads| && WillPost(s.threads[u].frame, c, side, ws, t);
      if u == v {
        assert ValidThread(s.threads[v], |s.chans|);
        PosterStep(s.threads[v], s.chans[c], s.chans, c, side, t);
        OnlySelectTouchesWaiters(s.threads[v].frame, s.chans[c], v, side);
        if Posted(s.threads[v].frame, s.chans[c]) == t {
          assert s'.local[t] > 0;
        } else {
          assert WillPost(s'.threads[v].frame, c, side, s'.chans[c].Waiters(side), t);
        }
      } else {
        OtherPosterKept(s, v, u, t, c, side);
        assert WillPost(s'.threads[u].frame, c, side, s'.chans[c].Waiters(side), t);
      }
    }
  }

  lemma LocalKept(s: State, v: nat, t: nat)
    requires Valid(s) && v < |s.threads| && Enabled(s, v) && t < |s.threads|
    requires v == t ==> !(s.threads[t].frame.SelectFrame? && s.threads[t].frame.spc.Sleep?) && !s.threads[t].frame.Idle?
    ensures Next(s, v).local[t] >= s.local[t]
    ensures var f := s.threads[v].frame;
            0 <= Touched(f) && Posted(f, s.chans[Touched(f)]) == t ==> Next(s, v).local[t] > 0
  {
  }

  /** A channel that becomes ready for a side does so by a thread that will notify its waiters. */
  lemma ReadyMeansNotifier(th: Thread, chans: seq<Chan>, local: nat, c: nat, side: Side, v: nat, t: nat)
    requires ValidThread(th, |chans|) && Ready(th, chans, local) && FrameOk(th.frame, chans)
    requires Touched(th.frame) == c && c < |chans|
    ensures var ch, ch' := chans[c], NextChan(th.frame, chans[c], v);
            (!ch'.closed && ch'.Tokens(side) > 0 ==>
               (!ch.closed && ch.Tokens(side) > 0) ||
               WillPost(NextThread(th, chans).frame, c, side, ch'.Waiters(side), t)) &&
            (ch'.closed ==> ch.closed || WillPost(NextThread(th, chans).frame, c, side, ch'.Waiters(side), t))
  {
    match th.frame
    case OpFrame(_, _, _, _, _) => OpReadyMeansNotifier(th, chans[c], side, t);
    case CloseFrame(_, pc) =>
    case SelectFrame(_, pc) =>
  }

  lemma OpReadyMeansNotifier(th: Thread, ch: Chan, side: Side, t: nat)
    requires th.frame.OpFrame?
    requires th.frame.caller.InSelect? ==> th.frame.caller.i < |th.frame.caller.entries|
    requires th.frame.pc.ClosedPost? || th.frame.pc.FailPost? ==> ch.closed
    ensures var f := th.frame;
            var ch' := OpChan(ch, f.side, f.msg, f.pc);
            ch'.closed == ch.closed &&
            (!ch'.closed && ch'.Tokens(side) > 0 ==>
               ch.Tokens(side) > 0 || WillPost(OpThread(th, ch).frame, f.ch, side, ch'.Waiters(side), t))
  {
    var f := th.frame;
    match f.pc
    case PostOther =>
    case Crit => CritKeepsTokens(ch, f.side, f.msg);
    case _ =>
  }

  lemma CritKeepsTokens(ch: Chan, side: Side, msg: Message)
    ensures var ch' := CritChan(ch, side, msg);
            ch'.available == ch.available && ch'.used == ch.used && ch'.closed == ch.closed
  {
  }

  /** The select loop moves past an entry only when it was not ready. */
  lemma ScanStep(th: Thread, chans: seq<Chan>, t: nat, j: nat)
    requires ValidThread(th, |chans|) && (th.frame.Idle? ==> th.todo != [])
    requires Alarm(NextThread(th, chans).frame, var c := Touched(th.frame);
                   if c < 0 then chans else chans[c := NextChan(th.frame, chans[c], t)], j)
    ensures !(th.frame.SelectFrame? && th.frame.spc.Sleep?) && !th.frame.Idle?
    ensures EntriesOf(NextThread(th, chans).frame) == EntriesOf(th.frame)
    ensures Tried(th.frame, j)
    ensures var e := EntriesOf(th.frame)[j];
            var c := Touched(th.frame);
            0 <= c && (chans[c := NextChan(th.frame, chans[c], t)][e.ch].closed ==> chans[e.ch].closed ==>
            Checked(th.frame, j))
  {
    var f := th.frame;
    if f.OpFrame? {
      OpScanStep(th, chans[f.ch], j);
    }
  }

  lemma OpScanStep(th: Thread, ch: Chan, j: nat)
    requires th.frame.OpFrame?
    requires th.frame.caller.InSelect? ==>
      th.frame.caller.i < |th.frame.caller.entries| && th.frame.caller.entries[th.frame.caller.i].ch == th.frame.ch &&
      th.frame.caller.entries[th.frame.caller.i].side == th.frame.side
    ensures var f, f' := th.frame, OpThread(th, ch).frame;
            Tried(f', j) ==>
              EntriesOf(f') == EntriesOf(f) && f.caller.InSelect? &&
              (Tried(f, j) || (f.pc.Acquire? && j == f.caller.i && ch.Tokens(f.side) == 0)) &&
              (Checked(f', j) ==> Checked(f, j) || (f.pc.FailCheck? && j == f.caller.i && !ch.closed))
  {
  }

  /** Every step keeps the wakeup invariant. */
  lemma WakeupStep(s: State, v: nat)
    requires TokenInv(s) && ListInv(s) && WakeupInv(s) && v < |s.threads| && Enabled(s, v)
    ensures WakeupInv(Next(s, v))
  {
    var s' := Next(s, v);
    NextIsValid(s, v);
    forall t, j | 0 <= t < |s'.threads| && 0 <= j && Alarm(s'.threads[t].frame, s'.chans, j)
      ensures Woken(s', t, EntriesOf(s'.threads[t].frame)[j].ch, EntriesOf(s'.threads[t].frame)[j].side)
    {
      AlarmStep(s, v, t, j);
    }
  }

  lemma AlarmStep(s: State, v: nat, t: nat, j: nat)
    requires TokenInv(s) && ListInv(s) && WakeupInv(s) && v < |s.threads| && Enabled(s, v) && t < |s.threads|
    requires Valid(Next(s, v)) && Alarm(Next(s, v).threads[t].frame, Next(s, v).chans, j)
    ensures var e := EntriesOf(Next(s, v).threads[t].frame)[j];
            Woken(Next(s, v), t, e.ch, e.side)
  {
    var s' := Next(s, v);
    var th := s.threads[v];
    assert ValidThread(th, |s.chans|) && ValidThread(s.threads[t], |s.chans|) && FrameOk(th.frame, s.chans);
    if v == t { ScanStep(th, s.chans, t, j); }
    var e := EntriesOf(s.threads[t].frame)[j];
    if Touched(th.frame) == e.ch {
      ReadyMeansNotifier(th, s.chans, s.local[v], e.ch, e.side, v, t);
    }
    if WillPost(s'.threads[v].frame, e.ch, e.side, s'.chans[e.ch].Waiters(e.side), t) {
    } else {
      assert Alarm(s.threads[t].frame, s.chans, j);
      assert Has(EntriesOf(s.threads[t].frame), |EntriesOf(s.threads[t].frame)|, e.ch, e.side);
      WokenStep(s, v, t, e.ch, e.side);
    }
  }
}
