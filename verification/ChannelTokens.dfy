/** Mutual exclusion and token conservation.

    Each frame carries a weight for every lock and semaphore: 1 when the thread
    holds the lock, or holds a token it must still give back.  The total weight
    over all threads and the semaphore's value together stay constant. */
module ChannelTokens {
  import opened Fifo
  import opened ChannelModel

  datatype Gauge =
    | MutexHeld(c: nat)
    | ListLockHeld(c: nat, side: Side)
    | TokenHeld(c: nat, side: Side)

  predicate OpHoldsMutex(pc: OpPc) {
    pc.FailCheck? || pc.FailOpen? || pc.FailClosed? || pc.Crit? || pc.ErrUnlock? || pc.ClosedUnlock? || pc.Unlock?
  }

  predicate CloseHoldsMutex(pc: ClosePc) {
    pc.CloseCheck? || pc.AlreadyClosed? || pc.PostAvailable? || pc.PostUsed? || pc.CloseUnlock?
  }

  predicate SelectHoldsListLock(es: seq<Entry>, pc: SelectPc, c: nat, side: Side) {
    match pc
    case RegInsert(i) => i < |es| && es[i].ch == c && es[i].side == side
    case RegUnlock(i) => i < |es| && es[i].ch == c && es[i].side == side
    case UnregRemove(i, _) => i < |es| && es[i].ch == c && es[i].side == side
    case UnregUnlock(i, _) => i < |es| && es[i].ch == c && es[i].side == side
    case _ => false
  }

  /** An operation holds a token of its own side between sem_wait and the buffer
      access (or the post after seeing `closed`), and owes one to the other side
      between the buffer access and sem_post. */
  predicate OpHoldsToken(opSide: Side, pc: OpPc, side: Side) {
    if opSide == side then
      pc.Lock? || pc.Crit? || pc.ClosedUnlock? || pc.ClosedPost? ||
      (side == Recv && (pc.FailClosed? || pc.FailPost?))
    else pc.Unlock? || pc.PostOther?
  }

  function Weight(f: Frame, g: Gauge): nat {
    match g
    case MutexHeld(c) =>
      (match f
       case OpFrame(_, ch, _, pc, _) => if ch == c && OpHoldsMutex(pc) then 1 else 0
       case CloseFrame(ch, pc) => if ch == c && CloseHoldsMutex(pc) then 1 else 0
       case _ => 0)
    case ListLockHeld(c, side) =>
      (match f
       case OpFrame(opSide, ch, _, pc, _) =>
         if ch == c && Other(opSide) == side && (pc.Notify? || pc.ListUnlock?) then 1 else 0
       case CloseFrame(ch, pc) =>
         if ch == c && (pc.CloseNotify? || pc.CloseListUnlock?) && pc.side == side then 1 else 0
       case SelectFrame(es, pc) => if SelectHoldsListLock(es, pc, c, side) then 1 else 0
       case Idle => 0)
    case TokenHeld(c, side) =>
      (match f
       case OpFrame(opSide, ch, _, pc, _) => if ch == c && OpHoldsToken(opSide, pc, side) then 1 else 0
       case CloseFrame(ch, pc) =>
         if ch == c && (pc.PostAvailable? || (side == Recv && pc.PostUsed?)) then 1 else 0
       case _ => 0)
  }

  function Total(ts: seq<Thread>, g: Gauge): nat {
    if ts == [] then 0 else Weight(ts[0].frame, g) + Total(ts[1..], g)
  }

  lemma {:induction false} TotalUpdate(ts: seq<Thread>, t: nat, th: Thread, g: Gauge)
    requires t < |ts|
    ensures Total(ts[t := th], g) == Total(ts, g) - Weight(ts[t].frame, g) + Weight(th.frame, g)
  {
    if t == 0 {
      assert ts[t := th][1..] == ts[1..];
    } else {
      assert ts[t := th][1..] == ts[1..][t - 1 := th];
      TotalUpdate(ts[1..], t - 1, th, g);
    }
  }

  lemma {:induction false} TotalAtLeast(ts: seq<Thread>, t: nat, g: Gauge)
    requires t < |ts|
    ensures Weight(ts[t].frame, g) <= Total(ts, g)
  {
    if t > 0 { TotalAtLeast(ts[1..], t - 1, g); }
  }

  lemma {:induction false} TotalOfTwo(ts: seq<Thread>, t: nat, u: nat, g: Gauge)
    requires t < u < |ts|
    ensures Weight(ts[t].frame, g) + Weight(ts[u].frame, g) <= Total(ts, g)
  {
    if t > 0 { TotalOfTwo(ts[1..], t - 1, u - 1, g); } else { TotalAtLeast(ts[1..], u - 1, g); }
  }

  lemma {:induction false} TotalPositive(ts: seq<Thread>, g: Gauge) returns (t: nat)
    requires Total(ts, g) > 0
    ensures t < |ts| && Weight(ts[t].frame, g) > 0
  {
    if Weight(ts[0].frame, g) > 0 { t := 0; } else { t := TotalPositive(ts[1..], g); t := t + 1; }
  }

  lemma {:induction false} TotalOfIdle(ts: seq<Thread>, g: Gauge)
    requires forall t :: 0 <= t < |ts| ==> ts[t].frame.Idle?
    ensures Total(ts, g) == 0
  {
    if ts != [] { TotalOfIdle(ts[1..], g); }
  }

  // ---------------------------------------------------------------- the invariant

  /** How often the value BUFFER_EMPTY was taken out as a message.  The source
      mistakes it for an empty buffer and gives its slot up for good. */
  function Lost(removed: seq<Message>): nat {
    if removed == [] then 0
    else Lost(removed[..|removed| - 1]) + (if removed[|removed| - 1] == BUFFER_EMPTY then 1 else 0)
  }

  function Owed(ch: Chan, side: Side): int {
    (if ch.closed then 1 else 0) +
    (if side == Send then ch.capacity - |ch.buffer| - Lost(ch.removed) else |ch.buffer|) - ch.Tokens(side)
  }

  ghost predicate ChanOk(s: State, c: nat)
    requires c < |s.chans|
  {
    var ch := s.chans[c];
    ch.mutex + Total(s.threads, MutexHeld(c)) == 1 &&
    (forall side :: ch.ListLock(side) + Total(s.threads, ListLockHeld(c, side)) == 1) &&
    Total(s.threads, TokenHeld(c, Send)) == Owed(ch, Send) &&
    Total(s.threads, TokenHeld(c, Recv)) >= Owed(ch, Recv) &&
    (!ch.closed ==> Total(s.threads, TokenHeld(c, Recv)) == Owed(ch, Recv)) &&
    |ch.buffer| + Lost(ch.removed) <= ch.capacity &&
    ch.added == ch.removed + ch.buffer
  }

  /** What a frame knows about its channel. */
  ghost predicate FrameOk(f: Frame, chans: seq<Chan>) {
    match f
    case OpFrame(side, c, msg, pc, _) =>
      c < |chans| &&
      (pc.ClosedUnlock? || pc.ClosedPost? || pc.FailClosed? || pc.FailPost? ==> chans[c].closed) &&
      (pc.FailPost? ==> side == Recv) &&
      (pc.ErrUnlock? ==> side == Recv && msg == BUFFER_EMPTY && Lost(chans[c].removed) > 0)
    case CloseFrame(c, pc) =>
      c < |chans| && (!pc.CloseLock? && !pc.CloseCheck? ==> chans[c].closed)
    case _ => true
  }

  ghost predicate TokenInv(s: State) {
    Valid(s) &&
    (forall c :: 0 <= c < |s.chans| ==> ChanOk(s, c)) &&
    (forall t :: 0 <= t < |s.threads| ==> FrameOk(s.threads[t].frame, s.chans))
  }

  lemma InitTokens(capacities: seq<nat>, programs: seq<seq<Call>>)
    requires ValidPrograms(capacities, programs)
    ensures TokenInv(Init(capacities, programs))
  {
    InitIsValid(capacities, programs);
    var s := Init(capacities, programs);
    forall c | 0 <= c < |s.chans| ensures ChanOk(s, c) {
      TotalOfIdle(s.threads, MutexHeld(c));
      forall side ensures Total(s.threads, ListLockHeld(c, side)) == 0 && Total(s.threads, TokenHeld(c, side)) == 0 {
        TotalOfIdle(s.threads, ListLockHeld(c, side));
        TotalOfIdle(s.threads, TokenHeld(c, side));
      }
    }
  }

  /** A step changes the weights of the touched channel only. */
  lemma OtherChannelWeights(th: Thread, chans: seq<Chan>, g: Gauge)
    requires ValidThread(th, |chans|) && (th.frame.Idle? ==> th.todo != [])
    requires g.c != Touched(th.frame)
    ensures Weight(NextThread(th, chans).frame, g) == Weight(th.frame, g)
  {
  }

  predicate OpReturns(pc: OpPc, side: Side) {
    pc.FailOpen? || (pc.FailClosed? && side == Send) || pc.FailPost? || pc.ErrUnlock? || pc.ClosedPost? ||
    pc.ListUnlock?
  }

  /** The status a returning operation reports. */
  function ReturnStatus(pc: OpPc): Status {
    if pc.FailOpen? then WOULDBLOCK else if pc.ErrUnlock? then OTHER_ERROR
    else if pc.ListUnlock? then SUCCESS else CLOSED_ERROR
  }

  lemma ReturnHoldsNothing(f: Frame, status: Status, g: Gauge)
    requires f.OpFrame? && (f.caller.InSelect? ==> f.caller.i < |f.caller.entries|)
    ensures Weight(ReturnFrame(f, status), g) == 0
  {
  }

  lemma OpMutex(th: Thread, ch: Chan)
    requires th.frame.OpFrame?
    requires th.frame.caller.InSelect? ==> th.frame.caller.i < |th.frame.caller.entries|
    requires OpEnabled(ch, th.frame.side, th.frame.pc, th.frame.caller)
    ensures var f := th.frame;
            var g := MutexHeld(f.ch);
            OpChan(ch, f.side, f.msg, f.pc).mutex + Weight(OpThread(th, ch).frame, g) == ch.mutex + Weight(f, g)
  {
    if OpReturns(th.frame.pc, th.frame.side) {
      ReturnHoldsNothing(th.frame, ReturnStatus(th.frame.pc), MutexHeld(th.frame.ch));
    }
  }

  lemma OpListLock(th: Thread, ch: Chan, side: Side)
    requires th.frame.OpFrame?
    requires th.frame.caller.InSelect? ==> th.frame.caller.i < |th.frame.caller.entries|
    requires OpEnabled(ch, th.frame.side, th.frame.pc, th.frame.caller)
    ensures var f := th.frame;
            var g := ListLockHeld(f.ch, side);
            OpChan(ch, f.side, f.msg, f.pc).ListLock(side) + Weight(OpThread(th, ch).frame, g) ==
            ch.ListLock(side) + Weight(f, g)
  {
    if OpReturns(th.frame.pc, th.frame.side) {
      ReturnHoldsNothing(th.frame, ReturnStatus(th.frame.pc), ListLockHeld(th.frame.ch, side));
    }
  }

  lemma CloseLocks(th: Thread, ch: Chan, g: Gauge)
    requires th.frame.CloseFrame? && th.frame.cch == g.c && !g.TokenHeld?
    requires CloseEnabled(ch, th.frame.cpc)
    ensures var f, f' := th.frame, CloseThread(th, ch).frame;
            var ch' := CloseChan(ch, f.cpc);
            if g.MutexHeld? then ch'.mutex + Weight(f', g) == ch.mutex + Weight(f, g)
            else ch'.ListLock(g.side) + Weight(f', g) == ch.ListLock(g.side) + Weight(f, g)
  {
  }

  lemma LockStep(th: Thread, chans: seq<Chan>, local: nat, t: nat, g: Gauge)
    requires ValidThread(th, |chans|) && Ready(th, chans, local)
    requires g.c == Touched(th.frame) && g.c < |chans| && !g.TokenHeld?
    ensures var f, f' := th.frame, NextThread(th, chans).frame;
            var ch, ch' := chans[g.c], NextChan(f, chans[g.c], t);
            if g.MutexHeld? then ch'.mutex + Weight(f', g) == ch.mutex + Weight(f, g)
            else ch'.ListLock(g.side) + Weight(f', g) == ch.ListLock(g.side) + Weight(f, g)
  {
    match th.frame
    case OpFrame(_, c, _, _, _) => if g.MutexHeld? { OpMutex(th, chans[c]); } else { OpListLock(th, chans[c], g.side); }
    case CloseFrame(_, _) => CloseLocks(th, chans[g.c], g);
    case SelectFrame(_, _) => SelectLocks(th, chans, local, t, g);
  }

  lemma SelectLocks(th: Thread, chans: seq<Chan>, local: nat, t: nat, g: Gauge)
    requires th.frame.SelectFrame? && ValidThread(th, |chans|) && Ready(th, chans, local)
    requires g.c == Touched(th.frame) && g.c < |chans| && !g.TokenHeld?
    ensures var f, f' := th.frame, NextThread(th, chans).frame;
            var ch, ch' := chans[g.c], NextChan(f, chans[g.c], t);
            if g.MutexHeld? then ch'.mutex + Weight(f', g) == ch.mutex + Weight(f, g)
            else ch'.ListLock(g.side) + Weight(f', g) == ch.ListLock(g.side) + Weight(f, g)
  {
    var ch := chans[g.c];
    var pc := th.frame.spc;
    if pc.RegLock? || pc.UnregLock? {
      assert ch.ListLock(th.frame.es[pc.i].side) > 0;
    } else if pc.RegUnlock? || pc.UnregUnlock? {
    } else {
    }
  }

  /** In the critical section of an open channel the buffer has room for a send
      and a message for a receive. */
  lemma CritFits(s: State, t: nat)
    requires TokenInv(s) && t < |s.threads|
    requires s.threads[t].frame.OpFrame? && s.threads[t].frame.pc.Crit?
    requires !s.chans[s.threads[t].frame.ch].closed
    ensures var f := s.threads[t].frame;
            if f.side == Send then |s.chans[f.ch].buffer| < s.chans[f.ch].capacity
            else s.chans[f.ch].buffer != []
  {
    var f := s.threads[t].frame;
    assert ChanOk(s, f.ch);
    TotalAtLeast(s.threads, t, TokenHeld(f.ch, f.side));
  }

  lemma LostOfAppend(removed: seq<Message>, m: Message)
    ensures Lost(removed + [m]) == Lost(removed) + (if m == BUFFER_EMPTY then 1 else 0)
  {
    assert (removed + [m])[..|removed|] == removed;
  }

  /** The buffer access of an open channel takes exactly what the token granted. */
  ghost predicate CritReady(f: Frame, ch: Chan) {
    f.OpFrame? && f.pc.Crit? && !ch.closed ==>
      if f.side == Send then |ch.buffer| < ch.capacity else ch.buffer != []
  }

  lemma OpReturnTokens(th: Thread, ch: Chan, side: Side)
    requires th.frame.OpFrame? && OpReturns(th.frame.pc, th.frame.side)
    requires th.frame.caller.InSelect? ==> th.frame.caller.i < |th.frame.caller.entries|
    requires th.frame.pc.FailPost? ==> th.frame.side == Recv
    ensures var f := th.frame;
            var ch' := OpChan(ch, f.side, f.msg, f.pc);
            Weight(OpThread(th, ch).frame, TokenHeld(f.ch, side)) - Owed(ch', side) ==
            Weight(f, TokenHeld(f.ch, side)) - Owed(ch, side)
  {
    var f := th.frame;
    var st := ReturnStatus(f.pc);
    ReturnHoldsNothing(f, st, TokenHeld(f.ch, side));
    assert OpThread(th, ch) == Return(th, st);
  }

  lemma OpInnerTokens(th: Thread, ch: Chan, side: Side)
    requires th.frame.OpFrame? && !OpReturns(th.frame.pc, th.frame.side) && !th.frame.pc.Crit?
    requires th.frame.caller.InSelect? ==> th.frame.caller.i < |th.frame.caller.entries|
    requires OpEnabled(ch, th.frame.side, th.frame.pc, th.frame.caller)
    ensures var f := th.frame;
            var ch' := OpChan(ch, f.side, f.msg, f.pc);
            var before, after := Weight(f, TokenHeld(f.ch, side)) - Owed(ch, side),
              Weight(OpThread(th, ch).frame, TokenHeld(f.ch, side)) - Owed(ch', side);
            after >= before && (side == Send || !ch'.closed ==> after == before)
  {
  }

  lemma OpTokens(th: Thread, ch: Chan, side: Side)
    requires th.frame.OpFrame?
    requires th.frame.caller.InSelect? ==> th.frame.caller.i < |th.frame.caller.entries|
    requires OpEnabled(ch, th.frame.side, th.frame.pc, th.frame.caller)
    requires CritReady(th.frame, ch)
    requires th.frame.pc.FailPost? ==> th.frame.side == Recv
    ensures var f := th.frame;
            var ch' := OpChan(ch, f.side, f.msg, f.pc);
            var before, after := Weight(f, TokenHeld(f.ch, side)) - Owed(ch, side),
              Weight(OpThread(th, ch).frame, TokenHeld(f.ch, side)) - Owed(ch', side);
            after >= before && (side == Send || !ch'.closed ==> after == before)
  {
    if th.frame.pc.Crit? { CritTokens(th, ch, side); }
    else if OpReturns(th.frame.pc, th.frame.side) { OpReturnTokens(th, ch, side); }
    else { OpInnerTokens(th, ch, side); }
  }

  lemma CritTokens(th: Thread, ch: Chan, side: Side)
    requires th.frame.OpFrame? && th.frame.pc.Crit? && CritReady(th.frame, ch)
    requires th.frame.caller.InSelect? ==> th.frame.caller.i < |th.frame.caller.entries|
    ensures var f, f' := th.frame, OpThread(th, ch).frame;
            var ch' := CritChan(ch, f.side, f.msg);
            Weight(f', TokenHeld(f.ch, side)) - Owed(ch', side) == Weight(f, TokenHeld(f.ch, side)) - Owed(ch, side)
  {
    if !ch.closed && th.frame.side == Recv { LostOfAppend(ch.removed, ch.buffer[0]); }
  }

  lemma CloseTokens(th: Thread, ch: Chan, side: Side)
    requires th.frame.CloseFrame? && CloseEnabled(ch, th.frame.cpc)
    ensures var f, f' := th.frame, CloseThread(th, ch).frame;
            var ch' := CloseChan(ch, f.cpc);
            var g := TokenHeld(f.cch, side);
            Weight(f, g) - Owed(ch, side) == Weight(f', g) - Owed(ch', side)
  {
  }

  lemma TokenStep(s: State, t: nat, side: Side)
    requires TokenInv(s) && t < |s.threads| && Enabled(s, t)
    requires 0 <= Touched(s.threads[t].frame) < |s.chans|
    ensures var c: nat := Touched(s.threads[t].frame);
            var f, f' := s.threads[t].frame, NextThread(s.threads[t], s.chans).frame;
            var ch, ch' := s.chans[c], NextChan(f, s.chans[c], t);
            var before, after := Weight(f, TokenHeld(c, side)) - Owed(ch, side),
              Weight(f', TokenHeld(c, side)) - Owed(ch', side);
            after >= before && (side == Send || !ch'.closed ==> after == before)
  {
    var th := s.threads[t];
    var c: nat := Touched(th.frame);
    assert FrameOk(th.frame, s.chans) && ValidThread(th, |s.chans|);
    match th.frame
    case OpFrame(_, _, _, _, _) =>
      if th.frame.pc.Crit? && !s.chans[c].closed { CritFits(s, t); }
      OpTokens(th, s.chans[c], side);
    case CloseFrame(_, _) => CloseTokens(th, s.chans[c], side);
    case SelectFrame(_, _) => SelectTokens(th, s.chans, t, c, side);
  }

  /** Select itself neither holds nor moves tokens. */
  lemma SelectTokens(th: Thread, chans: seq<Chan>, t: nat, c: nat, side: Side)
    requires th.frame.SelectFrame? && ValidThread(th, |chans|) && c == Touched(th.frame) && c < |chans|
    ensures Weight(th.frame, TokenHeld(c, side)) == Weight(NextThread(th, chans).frame, TokenHeld(c, side)) == 0
    ensures Owed(NextChan(th.frame, chans[c], t), side) == Owed(chans[c], side)
    ensures NextChan(th.frame, chans[c], t).closed == chans[c].closed
  {
  }

  lemma MutexTotalStep(s: State, t: nat, c: nat)
    requires TokenInv(s) && t < |s.threads| && Enabled(s, t) && c < |s.chans|
    ensures Next(s, t).chans[c].mutex + Total(Next(s, t).threads, MutexHeld(c)) == 1
  {
    var th := s.threads[t];
    assert ChanOk(s, c);
    TotalUpdate(s.threads, t, NextThread(th, s.chans), MutexHeld(c));
    if Touched(th.frame) == c { LockStep(th, s.chans, s.local[t], t, MutexHeld(c)); }
    else { OtherChannelWeights(th, s.chans, MutexHeld(c)); }
  }

  lemma ListLockTotalStep(s: State, t: nat, c: nat, side: Side)
    requires TokenInv(s) && t < |s.threads| && Enabled(s, t) && c < |s.chans|
    ensures Next(s, t).chans[c].ListLock(side) + Total(Next(s, t).threads, ListLockHeld(c, side)) == 1
  {
    var th := s.threads[t];
    assert ChanOk(s, c);
    TotalUpdate(s.threads, t, NextThread(th, s.chans), ListLockHeld(c, side));
    if Touched(th.frame) == c { LockStep(th, s.chans, s.local[t], t, ListLockHeld(c, side)); }
    else { OtherChannelWeights(th, s.chans, ListLockHeld(c, side)); }
  }

  lemma TokenTotalStep(s: State, t: nat, c: nat, side: Side)
    requires TokenInv(s) && t < |s.threads| && Enabled(s, t) && c < |s.chans|
    ensures var s' := Next(s, t);
            var gap := Total(s'.threads, TokenHeld(c, side)) - Owed(s'.chans[c], side);
            gap >= 0 && (side == Send || !s'.chans[c].closed ==> gap == 0)
  {
    var th := s.threads[t];
    assert ChanOk(s, c);
    TotalUpdate(s.threads, t, NextThread(th, s.chans), TokenHeld(c, side));
    if Touched(th.frame) == c {
      TokenStep(s, t, side);
      BufferStep(s.chans[c], th.frame, t);
    } else { OtherChannelWeights(th, s.chans, TokenHeld(c, side)); }
  }

  /** The locks of a channel, its tokens and its buffer, one by one. */
  lemma ChanLocksStep(s: State, t: nat, c: nat)
    requires TokenInv(s) && t < |s.threads| && Enabled(s, t) && c < |s.chans|
    ensures var s' := Next(s, t);
      && s'.chans[c].mutex + Total(s'.threads, MutexHeld(c)) == 1
      && s'.chans[c].sendLock + Total(s'.threads, ListLockHeld(c, Recv)) == 1
      && s'.chans[c].recvLock + Total(s'.threads, ListLockHeld(c, Send)) == 1
  {
    assert ChanOk(s, c);
    var ch := s.chans[c];
    assert ch.ListLock(Send) + Total(s.threads, ListLockHeld(c, Send)) == 1;
    assert ch.ListLock(Recv) + Total(s.threads, ListLockHeld(c, Recv)) == 1;
    MutexTotalStep(s, t, c);
    ListLockTotalStep(s, t, c, Send);
    ListLockTotalStep(s, t, c, Recv);
  }

  lemma ChanTokensStep(s: State, t: nat, c: nat)
    requires TokenInv(s) && t < |s.threads| && Enabled(s, t) && c < |s.chans|
    ensures var s' := Next(s, t);
      var ch := s'.chans[c];
      && Total(s'.threads, TokenHeld(c, Send)) == Owed(ch, Send)
      && Total(s'.threads, TokenHeld(c, Recv)) >= Owed(ch, Recv)
      && (!ch.closed ==> Total(s'.threads, TokenHeld(c, Recv)) == Owed(ch, Recv))
  {
    assert ChanOk(s, c);
    TokenTotalStep(s, t, c, Send);
    TokenTotalStep(s, t, c, Recv);
  }

  lemma ChanBufferStep(s: State, t: nat, c: nat)
    requires TokenInv(s) && t < |s.threads| && Enabled(s, t) && c < |s.chans|
    ensures var ch := Next(s, t).chans[c];
      |ch.buffer| + Lost(ch.removed) <= ch.capacity && ch.added == ch.removed + ch.buffer
  {
    assert ChanOk(s, c);
    TokenTotalStep(s, t, c, Send);
    BufferStep(s.chans[c], s.threads[t].frame, t);
    if Next(s, t).chans[c].closed { ClosedBuffer(s.chans[c], s.threads[t].frame, t); }
  }

  /** The step that leaves a channel closed does not touch its buffer. */
  lemma ClosedBuffer(ch: Chan, f: Frame, t: nat)
    requires NextChan(f, ch, t).closed
    ensures NextChan(f, ch, t).buffer == ch.buffer && NextChan(f, ch, t).removed == ch.removed
    ensures NextChan(f, ch, t).capacity == ch.capacity
  {
    if !(f.OpFrame? && f.pc.Crit?) { OnlyCritTouchesBuffer(ch, f, t); }
  }

  lemma ChanStep(s: State, t: nat, c: nat)
    requires TokenInv(s) && t < |s.threads| && Enabled(s, t) && c < |s.chans|
    ensures ChanOk(Next(s, t), c)
  {
    ChanLocksStep(s, t, c);
    ChanTokensStep(s, t, c);
    ChanBufferStep(s, t, c);
  }

  lemma OnlyCritTouchesBuffer(ch: Chan, f: Frame, t: nat)
    requires !(f.OpFrame? && f.pc.Crit?)
    ensures var ch' := NextChan(f, ch, t);
            ch'.capacity == ch.capacity && ch'.buffer == ch.buffer && ch'.added == ch.added &&
            ch'.removed == ch.removed && (ch.closed ==> ch'.closed)
  {
    match f
    case OpFrame(_, _, _, _, _) =>
    case CloseFrame(_, _) =>
    case _ =>
  }

  lemma CritBuffer(ch: Chan, side: Side, msg: Message)
    requires |ch.buffer| <= ch.capacity && ch.added == ch.removed + ch.buffer
    ensures var ch' := CritChan(ch, side, msg);
            |ch'.buffer| <= ch'.capacity && ch'.capacity == ch.capacity &&
            ch'.added == ch'.removed + ch'.buffer &&
            ch.added <= ch'.added && ch.removed <= ch'.removed &&
            ch'.closed == ch.closed && (ch.closed ==> ch' == ch)
  {
    if side == Recv && ch.buffer != [] {
      assert ch.buffer == [ch.buffer[0]] + ch.buffer[1..];
    }
  }

  /** A step keeps the buffer within its capacity and the history exact; once
      closed, a channel stays closed and its buffer never changes again. */
  lemma BufferStep(ch: Chan, f: Frame, t: nat)
    requires |ch.buffer| <= ch.capacity && ch.added == ch.removed + ch.buffer
    ensures var ch' := NextChan(f, ch, t);
            |ch'.buffer| <= ch'.capacity && ch'.capacity == ch.capacity &&
            ch'.added == ch'.removed + ch'.buffer &&
            ch.added <= ch'.added && ch.removed <= ch'.removed &&
            (ch.closed ==> ch'.closed && ch'.buffer == ch.buffer && ch'.added == ch.added && ch'.removed == ch.removed)
  {
    if f.OpFrame? && f.pc.Crit? {
      CritBuffer(ch, f.side, f.msg);
    } else {
      OnlyCritTouchesBuffer(ch, f, t);
    }
  }

  lemma LostGrows(a: seq<Message>, b: seq<Message>)
    requires a <= b
    ensures Lost(a) <= Lost(b)
    decreases |b|
  {
    if a != b { LostGrows(a, b[..|b| - 1]); }
  }

  /** The frame a thread steps to stays consistent: out of the critical section ... */
  lemma OwnCritFrame(th: Thread, chans: seq<Chan>, t: nat)
    requires ValidThread(th, |chans|) && th.frame.OpFrame? && th.frame.pc.Crit? && FrameOk(th.frame, chans)
    requires CritReady(th.frame, chans[th.frame.ch])
    ensures var c := th.frame.ch; FrameOk(NextThread(th, chans).frame, chans[c := NextChan(th.frame, chans[c], t)])
  {
    var c := th.frame.ch;
    if !chans[c].closed && th.frame.side == Recv { LostOfAppend(chans[c].removed, chans[c].buffer[0]); }
  }

  /** ... and everywhere else. */
  lemma OwnOpFrame(th: Thread, chans: seq<Chan>, t: nat)
    requires ValidThread(th, |chans|) && th.frame.OpFrame? && !th.frame.pc.Crit? && FrameOk(th.frame, chans)
    ensures var c := th.frame.ch; FrameOk(NextThread(th, chans).frame, chans[c := NextChan(th.frame, chans[c], t)])
  {
    OnlyCritTouchesBuffer(chans[th.frame.ch], th.frame, t);
  }

  lemma OwnFrameStep(th: Thread, chans: seq<Chan>, t: nat)
    requires ValidThread(th, |chans|) && FrameOk(th.frame, chans) && (th.frame.Idle? ==> th.todo != [])
    requires 0 <= Touched(th.frame) < |chans| ==> CritReady(th.frame, chans[Touched(th.frame)])
    ensures var c := Touched(th.frame);
            FrameOk(NextThread(th, chans).frame, if c < 0 then chans else chans[c := NextChan(th.frame, chans[c], t)])
  {
    if th.frame.OpFrame? && th.frame.pc.Crit? {
      OwnCritFrame(th, chans, t);
    } else if th.frame.OpFrame? {
      OwnOpFrame(th, chans, t);
    }
  }

  lemma OtherFrameStep(f: Frame, chans: seq<Chan>, c: nat, ch: Chan)
    requires c < |chans| && FrameOk(f, chans)
    requires (chans[c].closed ==> ch.closed) && chans[c].removed <= ch.removed
    ensures FrameOk(f, chans[c := ch])
  {
    LostGrows(chans[c].removed, ch.removed);
  }

  lemma FrameStep(s: State, t: nat, u: nat)
    requires TokenInv(s) && t < |s.threads| && Enabled(s, t) && u < |s.threads|
    ensures FrameOk(Next(s, t).threads[u].frame, Next(s, t).chans)
  {
    var f := s.threads[t].frame;
    var c := Touched(f);
    assert FrameOk(f, s.chans) && FrameOk(s.threads[u].frame, s.chans);
    if u == t {
      if f.OpFrame? && f.pc.Crit? && !s.chans[f.ch].closed { CritFits(s, t); }
      OwnFrameStep(s.threads[t], s.chans, t);
    } else if c >= 0 {
      assert ChanOk(s, c);
      BufferStep(s.chans[c], f, t);
      OtherFrameStep(s.threads[u].frame, s.chans, c, NextChan(f, s.chans[c], t));
    }
  }

  /** Every step keeps mutual exclusion and token conservation. */
  lemma TokenInvStep(s: State, t: nat)
    requires TokenInv(s) && t < |s.threads| && Enabled(s, t)
    ensures TokenInv(Next(s, t))
  {
    NextIsValid(s, t);
    forall c | 0 <= c < |s.chans| ensures ChanOk(Next(s, t), c) { ChanStep(s, t, c); }
    forall u | 0 <= u < |s.threads| ensures FrameOk(Next(s, t).threads[u].frame, Next(s, t).chans) {
      FrameStep(s, t, u);
    }
  }
}
