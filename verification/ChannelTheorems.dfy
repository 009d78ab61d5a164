/** What holds in every reachable state of the channel protocol. */
module ChannelTheorems {
  import opened Fifo
  import opened ChannelModel
  import opened ChannelTokens
  import opened ChannelWakeups

  ghost predicate Inv(s: State) {
    TokenInv(s) && ListInv(s) && WakeupInv(s)
  }

  lemma InitInv(capacities: seq<nat>, programs: seq<seq<Call>>)
    requires ValidPrograms(capacities, programs)
    ensures Inv(Init(capacities, programs))
  {
    InitTokens(capacities, programs);
    InitLists(capacities, programs);
  }

  lemma InvStep(s: State, t: nat)
    requires Inv(s) && t < |s.threads| && Enabled(s, t)
    ensures Inv(Next(s, t))
  {
    TokenInvStep(s, t);
    ListInvStep(s, t);
    WakeupStep(s, t);
  }

  lemma {:induction false} InvRun(s: State, schedule: seq<nat>, s': State)
    requires Inv(s) && Run(s, schedule, s')
    ensures Inv(s')
    decreases |schedule|
  {
    if schedule != [] {
      InvStep(s, schedule[0]);
      InvRun(Next(s, schedule[0]), schedule[1..], s');
    }
  }

  /** s is reached from the initial state by some run. */
  ghost predicate Reachable(capacities: seq<nat>, programs: seq<seq<Call>>, s: State) {
    ValidPrograms(capacities, programs) &&
    Valid(Init(capacities, programs)) &&
    exists schedule :: Run(Init(capacities, programs), schedule, s)
  }

  lemma ReachableInv(capacities: seq<nat>, programs: seq<seq<Call>>, s: State)
    requires Reachable(capacities, programs, s)
    ensures Inv(s)
  {
    var schedule :| Run(Init(capacities, programs), schedule, s);
    InitInv(capacities, programs);
    InvRun(Init(capacities, programs), schedule, s);
  }

  // ---------------------------------------------------------------- mutual exclusion and FIFO

  /** At most one thread is inside a channel's critical section, or walks or
      changes one of its waiter lists. */
  lemma MutualExclusion(capacities: seq<nat>, programs: seq<seq<Call>>, s: State, g: Gauge, t: nat, u: nat)
    requires Reachable(capacities, programs, s) && g.c < |s.chans| && !g.TokenHeld?
    requires t < u < |s.threads|
    ensures Weight(s.threads[t].frame, g) == 0 || Weight(s.threads[u].frame, g) == 0
  {
    ReachableInv(capacities, programs, s);
    assert ChanOk(s, g.c);
    TotalOfTwo(s.threads, t, u, g);
  }

  /** The messages added, in order, are the messages removed, in order, followed
      by the buffer; the semaphores and the tokens in flight count the free and
      the filled slots. */
  lemma FifoConservation(capacities: seq<nat>, programs: seq<seq<Call>>, s: State, c: nat)
    requires Reachable(capacities, programs, s) && c < |s.chans|
    ensures var ch := s.chans[c];
            ch.added == ch.removed + ch.buffer &&
            |ch.buffer| + Lost(ch.removed) <= ch.capacity &&
            (!ch.closed ==>
               ch.available + Total(s.threads, TokenHeld(c, Send)) == ch.capacity - |ch.buffer| - Lost(ch.removed) &&
               ch.used + Total(s.threads, TokenHeld(c, Recv)) == |ch.buffer|)
  {
    ReachableInv(capacities, programs, s);
    assert ChanOk(s, c);
  }

  /** In a critical section entered on an open channel, buffer_add never fails and
      buffer_remove never finds the buffer empty: the only way to the
      OTHER_ERROR exit is to receive a message that equals BUFFER_EMPTY. */
  lemma OtherErrorExactly(capacities: seq<nat>, programs: seq<seq<Call>>, s: State, t: nat)
    requires Reachable(capacities, programs, s) && t < |s.threads| && Valid(s)
    requires s.threads[t].frame.OpFrame? && s.threads[t].frame.pc.Crit?
    ensures Enabled(s, t)
    ensures var f := s.threads[t].frame;
            Next(s, t).threads[t].frame.pc.ErrUnlock? <==>
            !s.chans[f.ch].closed && f.side == Recv && s.chans[f.ch].buffer != [] &&
            s.chans[f.ch].buffer[0] == BUFFER_EMPTY
  {
    ReachableInv(capacities, programs, s);
    var f := s.threads[t].frame;
    assert ValidThread(s.threads[t], |s.chans|);
    if !s.chans[f.ch].closed { CritFits(s, t); }
  }

  // ---------------------------------------------------------------- waiting

  /** Another thread is inside the mutex or list lock. */
  ghost predicate HeldByOther(s: State, t: nat, g: Gauge) {
    exists u: nat :: u < |s.threads| && u != t && Weight(s.threads[u].frame, g) > 0
  }

  /** The thread is done, or waits for a token, for a post, or for a lock that
      another thread holds. */
  ghost predicate WaitsFor(s: State, t: nat)
    requires Valid(s) && t < |s.threads|
  {
    var th := s.threads[t];
    match th.frame
    case Idle => th.todo == []
    case OpFrame(side, c, _, pc, caller) =>
      && c < |s.chans|
      && (match pc
          case Acquire => caller.Direct? && caller.blocking && s.chans[c].Tokens(side) == 0
          case FailLock => HeldByOther(s, t, MutexHeld(c))
          case Lock => HeldByOther(s, t, MutexHeld(c))
          case ListLock => HeldByOther(s, t, ListLockHeld(c, Other(side)))
          case _ => false)
    case CloseFrame(c, pc) =>
      (match pc
       case CloseLock => HeldByOther(s, t, MutexHeld(c))
       case CloseListLock(side) => HeldByOther(s, t, ListLockHeld(c, side))
       case _ => false)
    case SelectFrame(es, pc) =>
      (match pc
       case Sleep => s.local[t] == 0
       case RegLock(i) => i < |es| && HeldByOther(s, t, ListLockHeld(es[i].ch, es[i].side))
       case UnregLock(i, _) => i < |es| && HeldByOther(s, t, ListLockHeld(es[i].ch, es[i].side))
       case _ => false)
  }

  /** A lock is taken exactly while somebody holds it. */
  lemma LockTaken(s: State, t: nat, g: Gauge)
    requires Inv(s) && t < |s.threads| && g.c < |s.chans| && !g.TokenHeld? && Weight(s.threads[t].frame, g) == 0
    ensures (if g.MutexHeld? then s.chans[g.c].mutex else s.chans[g.c].ListLock(g.side)) == 0 <==> HeldByOther(s, t, g)
  {
    assert ChanOk(s, g.c);
    if Total(s.threads, g) > 0 { var u := TotalPositive(s.threads, g); }
    if u: nat :| u < |s.threads| && Weight(s.threads[u].frame, g) > 0 { TotalAtLeast(s.threads, u, g); }
  }

  /** A thread that cannot move waits for one of these, and nothing else stops it. */
  lemma WaitsExactly(capacities: seq<nat>, programs: seq<seq<Call>>, s: State, t: nat)
    requires Reachable(capacities, programs, s) && Valid(s) && t < |s.threads|
    ensures !Enabled(s, t) <==> WaitsFor(s, t)
  {
    ReachableInv(capacities, programs, s);
    var f := s.threads[t].frame;
    assert ValidThread(s.threads[t], |s.chans|);
    match f
    case Idle =>
    case OpFrame(side, c, _, pc, _) =>
      if pc.FailLock? || pc.Lock? { LockTaken(s, t, MutexHeld(c)); }
      if pc.ListLock? { LockTaken(s, t, ListLockHeld(c, Other(side))); }
    case CloseFrame(c, pc) =>
      if pc.CloseLock? { LockTaken(s, t, MutexHeld(c)); }
      if pc.CloseListLock? { LockTaken(s, t, ListLockHeld(c, pc.side)); }
    case SelectFrame(es, pc) =>
      if pc.RegLock? || pc.UnregLock? { LockTaken(s, t, ListLockHeld(es[pc.i].ch, es[pc.i].side)); }
  }

  // ---------------------------------------------------------------- wakeups

  /** Between making an entry of (c, side) ready and the end of list_foreach. */
  predicate Notifying(f: Frame, c: nat, side: Side) {
    match f
    case OpFrame(opSide, ch, _, pc, _) => ch == c && Other(opSide) == side && (pc.ListLock? || pc.Notify?)
    case CloseFrame(ch, pc) =>
      ch == c && !pc.CloseLock? && !pc.CloseCheck? && !pc.AlreadyClosed? &&
      (side == Recv ==> pc != CloseListUnlock(Recv) && !(pc.CloseListLock? && pc.side == Send) &&
                        !(pc.CloseNotify? && pc.side == Send)) &&
      pc != CloseListUnlock(Send)
    case _ => false
  }

  /** No lost wakeups: while a select call sleeps with nothing to consume and
      nobody is about to notify it, none of its entries can proceed. */
  lemma NoLostWakeup(capacities: seq<nat>, programs: seq<seq<Call>>, s: State, t: nat, j: nat)
    requires Reachable(capacities, programs, s) && t < |s.threads| && |s.local| == |s.threads|
    requires s.threads[t].frame.SelectFrame? && s.threads[t].frame.spc.Sleep? && s.local[t] == 0
    requires j < |s.threads[t].frame.es|
    requires var e := s.threads[t].frame.es[j];
             forall u :: 0 <= u < |s.threads| ==> !Notifying(s.threads[u].frame, e.ch, e.side)
    ensures var e := s.threads[t].frame.es[j];
            e.ch < |s.chans| && !s.chans[e.ch].closed && s.chans[e.ch].Tokens(e.side) == 0
  {
    ReachableInv(capacities, programs, s);
    var e := s.threads[t].frame.es[j];
    assert ValidThread(s.threads[t], |s.chans|);
    var ws := s.chans[e.ch].Waiters(e.side);
    forall u | 0 <= u < |s.threads| ensures !WillPost(s.threads[u].frame, e.ch, e.side, ws, t) {
      assert !Notifying(s.threads[u].frame, e.ch, e.side);
    }
    assert !Woken(s, t, e.ch, e.side);
    assert !Alarm(s.threads[t].frame, s.chans, j);
  }

  /** A waiter list holds each semaphore at most once, and only those of select
      calls in progress that have such an entry. */
  lemma WaiterOwnership(capacities: seq<nat>, programs: seq<seq<Call>>, s: State, c: nat, side: Side)
    requires Reachable(capacities, programs, s) && c < |s.chans|
    ensures var ws := s.chans[c].Waiters(side);
            NoDup(ws) &&
            forall k :: 0 <= k < |ws| ==>
              ws[k] < |s.threads| &&
              Has(EntriesOf(s.threads[ws[k]].frame), |EntriesOf(s.threads[ws[k]].frame)|, c, side)
  {
    ReachableInv(capacities, programs, s);
    assert ListOk(s, c, side);
    var ws := s.chans[c].Waiters(side);
    forall k | 0 <= k < |ws|
      ensures ws[k] < |s.threads| &&
              Has(EntriesOf(s.threads[ws[k]].frame), |EntriesOf(s.threads[ws[k]].frame)|, c, side)
    {
      assert ValidWaiters(ws, |s.threads|);
      assert ws[k] in ws;
      assert ValidThread(s.threads[ws[k]], |s.chans|);
      assert Listed(s.threads[ws[k]].frame, c, side);
    }
  }

  /** Every sem_post of list_foreach reaches the semaphore of a select call that
      has not destroyed it. */
  lemma PostsReachLiveSemaphores(capacities: seq<nat>, programs: seq<seq<Call>>, s: State, t: nat)
    requires Reachable(capacities, programs, s) && t < |s.threads|
    requires 0 <= Touched(s.threads[t].frame) < |s.chans|
    requires var f := s.threads[t].frame; Posted(f, s.chans[Touched(f)]) >= 0
    ensures var f := s.threads[t].frame;
            var p := Posted(f, s.chans[Touched(f)]);
            p < |s.threads| && EntriesOf(s.threads[p].frame) != []
  {
    ReachableInv(capacities, programs, s);
    assert ValidThread(s.threads[t], |s.chans|);
    var f := s.threads[t].frame;
    var c: nat := Touched(f);
    var side := if f.OpFrame? then Other(f.side) else f.cpc.side;
    WaiterOwnership(capacities, programs, s, c, side);
    assert exists k :: 0 <= k < |s.chans[c].Waiters(side)| && s.chans[c].Waiters(side)[k] == Posted(f, s.chans[c]);
  }

  // ---------------------------------------------------------------- stuck states

  ghost predicate Stuck(s: State)
    requires Valid(s)
  {
    forall t :: 0 <= t < |s.threads| ==> !Enabled(s, t)
  }

  /** An operation of this side cannot proceed on the channel, for a good reason. */
  ghost predicate MustWait(ch: Chan, side: Side) {
    !ch.closed && (if side == Send then |ch.buffer| + Lost(ch.removed) == ch.capacity else ch.buffer == [])
  }

  /** The thread finished its program, or waits for channels that are full (to
      send) or empty (to receive) and open. */
  ghost predicate Justified(th: Thread, chans: seq<Chan>) {
    match th.frame
    case Idle => th.todo == []
    case OpFrame(side, c, _, pc, caller) =>
      pc.Acquire? && caller.Direct? && caller.blocking && c < |chans| && MustWait(chans[c], side)
    case CloseFrame(_, _) => false
    case SelectFrame(es, pc) =>
      pc.Sleep? && forall j :: 0 <= j < |es| ==> es[j].ch < |chans| && MustWait(chans[es[j].ch], es[j].side)
  }

  /** A thread that holds the mutex or a waiter-list lock is never blocked. */
  lemma HoldersMove(s: State, t: nat, g: Gauge)
    requires Valid(s) && t < |s.threads| && !g.TokenHeld? && Weight(s.threads[t].frame, g) > 0
    ensures Enabled(s, t)
  {
    assert ValidThread(s.threads[t], |s.chans|);
  }

  lemma StuckLocksFree(s: State, c: nat)
    requires Inv(s) && Stuck(s) && c < |s.chans|
    ensures s.chans[c].mutex > 0 && forall side :: s.chans[c].ListLock(side) > 0
  {
    assert ChanOk(s, c);
    if s.chans[c].mutex == 0 {
      var t := TotalPositive(s.threads, MutexHeld(c));
      HoldersMove(s, t, MutexHeld(c));
    }
    forall side ensures s.chans[c].ListLock(side) > 0 {
      if s.chans[c].ListLock(side) == 0 {
        var t := TotalPositive(s.threads, ListLockHeld(c, side));
        HoldersMove(s, t, ListLockHeld(c, side));
      }
    }
  }

  /** With all locks free, only an empty semaphore, an empty list of wakeups or an
      empty program stops a thread. */
  lemma BlockedHow(s: State, t: nat)
    requires Inv(s) && Stuck(s) && t < |s.threads|
    ensures var th := s.threads[t];
            (th.frame.Idle? && th.todo == []) ||
            (th.frame.OpFrame? && th.frame.pc.Acquire? && th.frame.caller.Direct? && th.frame.caller.blocking &&
             th.frame.ch < |s.chans| && s.chans[th.frame.ch].Tokens(th.frame.side) == 0) ||
            (th.frame.SelectFrame? && th.frame.spc.Sleep? && s.local[t] == 0)
  {
    var th := s.threads[t];
    assert ValidThread(th, |s.chans|) && !Enabled(s, t);
    if Touched(th.frame) >= 0 { StuckLocksFree(s, Touched(th.frame)); }
  }

  lemma StuckTokens(s: State, c: nat, side: Side)
    requires Inv(s) && Stuck(s) && c < |s.chans|
    ensures Total(s.threads, TokenHeld(c, side)) == 0
  {
    if Total(s.threads, TokenHeld(c, side)) > 0 {
      var t := TotalPositive(s.threads, TokenHeld(c, side));
      BlockedHow(s, t);
    }
  }

  lemma NoTokensMustWait(s: State, c: nat, side: Side)
    requires Inv(s) && Stuck(s) && c < |s.chans| && s.chans[c].Tokens(side) == 0
    ensures MustWait(s.chans[c], side)
  {
    StuckTokens(s, c, side);
    assert ChanOk(s, c);
  }

  lemma SleeperJustified(s: State, t: nat, j: nat)
    requires Inv(s) && Stuck(s) && t < |s.threads|
    requires s.threads[t].frame.SelectFrame? && s.threads[t].frame.spc.Sleep? && s.local[t] == 0
    requires j < |s.threads[t].frame.es|
    ensures var e := s.threads[t].frame.es[j]; e.ch < |s.chans| && MustWait(s.chans[e.ch], e.side)
  {
    var e := s.threads[t].frame.es[j];
    assert ValidThread(s.threads[t], |s.chans|);
    forall u | 0 <= u < |s.threads|
      ensures !WillPost(s.threads[u].frame, e.ch, e.side, s.chans[e.ch].Waiters(e.side), t)
    {
      BlockedHow(s, u);
    }
    assert !Woken(s, t, e.ch, e.side);
    assert !Alarm(s.threads[t].frame, s.chans, j);
    NoTokensMustWait(s, e.ch, e.side);
  }

  lemma StuckJustified(s: State, t: nat)
    requires Inv(s) && Stuck(s) && t < |s.threads|
    ensures Justified(s.threads[t], s.chans)
  {
    BlockedHow(s, t);
    var f := s.threads[t].frame;
    match f
    case OpFrame(side, c, _, _, _) => NoTokensMustWait(s, c, side);
    case SelectFrame(es, _) =>
      forall j | 0 <= j < |es| ensures es[j].ch < |s.chans| && MustWait(s.chans[es[j].ch], es[j].side) {
        SleeperJustified(s, t, j);
      }
    case _ =>
  }

  /** Blocking is always justified: when no thread can move, every unfinished one
      waits on open channels that are full (to send) or empty (to receive).  In
      particular nobody is stuck on a mutex or on a waiter-list lock. */
  lemma BlockingIsJustified(capacities: seq<nat>, programs: seq<seq<Call>>, s: State, t: nat)
    requires Reachable(capacities, programs, s) && Valid(s) && Stuck(s) && t < |s.threads|
    ensures Justified(s.threads[t], s.chans)
  {
    ReachableInv(capacities, programs, s);
    StuckJustified(s, t);
  }
}
