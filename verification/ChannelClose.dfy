/** What closing a channel does to the calls on it. */
module ChannelClose {
  import opened Fifo
  import opened ChannelModel
  import opened ChannelTokens
  import opened ChannelWakeups
  import opened ChannelTheorems

  /** The domino chain cannot break: a closed channel always has a token of each
      side, posted or held by a thread that will post it. */
  lemma ClosedKeepsTokens(capacities: seq<nat>, programs: seq<seq<Call>>, s: State, c: nat, side: Side)
    requires Reachable(capacities, programs, s) && c < |s.chans| && s.chans[c].closed
    ensures s.chans[c].Tokens(side) + Total(s.threads, TokenHeld(c, side)) >= 1
  {
    ReachableInv(capacities, programs, s);
    assert ChanOk(s, c);
  }

  lemma ClosedStep(s: State, t: nat, c: nat)
    requires Inv(s) && t < |s.threads| && Enabled(s, t) && c < |s.chans| && s.chans[c].closed
    ensures var ch, ch' := s.chans[c], Next(s, t).chans[c];
            ch'.closed && ch'.buffer == ch.buffer && ch'.added == ch.added && ch'.removed == ch.removed
  {
    assert ChanOk(s, c);
    BufferStep(s.chans[c], s.threads[t].frame, t);
  }

  /** After a close the channel stays closed and its buffer never changes again. */
  lemma {:induction false} ClosedIsFrozen(s: State, schedule: seq<nat>, s': State, c: nat)
    requires Inv(s) && Run(s, schedule, s') && c < |s.chans| && s.chans[c].closed
    ensures |s'.chans| == |s.chans| && s'.chans[c].closed && s'.chans[c].buffer == s.chans[c].buffer
    ensures s'.chans[c].added == s.chans[c].added && s'.chans[c].removed == s.chans[c].removed
    decreases |schedule|
  {
    if schedule != [] {
      ClosedStep(s, schedule[0], c);
      InvStep(s, schedule[0]);
      ClosedIsFrozen(Next(s, schedule[0]), schedule[1..], s', c);
    }
  }

  /** A send, receive or close on channel c that has not read `closed` yet, or has
      already read that it is set. */
  predicate BeforeCheck(f: Frame, c: nat) {
    match f
    case OpFrame(_, ch, _, pc, _) =>
      ch == c && (pc.Acquire? || pc.FailLock? || pc.FailCheck? || pc.Lock? || pc.Crit? || pc.ClosedUnlock? ||
                  pc.ClosedPost? || pc.FailClosed? || pc.FailPost?)
    case CloseFrame(ch, pc) => ch == c && (pc.CloseLock? || pc.CloseCheck? || pc.AlreadyClosed?)
    case _ => false
  }

  predicate Leaving(f: Frame, status: Status) {
    f.SelectFrame? &&
    match f.spc
    case UnregLock(_, r) => r.status == status
    case UnregRemove(_, r) => r.status == status
    case UnregUnlock(_, r) => r.status == status
    case _ => false
  }

  /** The thread's n-th call is bound to return, or has returned, CLOSED_ERROR. */
  predicate Doomed(th: Thread, c: nat, n: nat) {
    if |th.results| > n then th.results[n].status == CLOSED_ERROR
    else |th.results| == n && (BeforeCheck(th.frame, c) || Leaving(th.frame, CLOSED_ERROR))
  }

  lemma OpDoomed(th: Thread, ch: Chan, c: nat, n: nat)
    requires th.frame.OpFrame? && ch.closed && Doomed(th, c, n)
    requires th.frame.caller.InSelect? ==> th.frame.caller.i < |th.frame.caller.entries|
    requires |th.results| == n
    ensures Doomed(OpThread(th, ch), c, n)
  {
  }

  lemma ResultsGrow(th: Thread, chans: seq<Chan>)
    requires Touched(th.frame) < |chans|
    requires th.frame.OpFrame? && th.frame.caller.InSelect? ==> th.frame.caller.i < |th.frame.caller.entries|
    requires th.frame.SelectFrame? ==> |th.frame.es| > 0
    requires th.frame.Idle? ==> th.todo != []
    ensures th.results <= NextThread(th, chans).results
  {
  }

  lemma DoomedStep(s: State, v: nat, t: nat, c: nat, n: nat)
    requires Inv(s) && v < |s.threads| && Enabled(s, v) && t < |s.threads|
    requires c < |s.chans| && s.chans[c].closed && Doomed(s.threads[t], c, n)
    ensures Doomed(Next(s, v).threads[t], c, n)
  {
    if v == t {
      var th := s.threads[t];
      assert ValidThread(th, |s.chans|) && FrameOk(th.frame, s.chans);
      if |th.results| > n { ResultsGrow(th, s.chans); }
      else if th.frame.OpFrame? { OpDoomed(th, s.chans[c], c, n); }
    }
  }

  lemma {:induction false} DoomedRun(s: State, schedule: seq<nat>, s': State, t: nat, c: nat, n: nat)
    requires Inv(s) && Run(s, schedule, s') && t < |s.threads|
    requires c < |s.chans| && s.chans[c].closed && Doomed(s.threads[t], c, n)
    ensures |s'.threads| == |s.threads| && Doomed(s'.threads[t], c, n)
    decreases |schedule|
  {
    if schedule != [] {
      DoomedStep(s, schedule[0], t, c, n);
      ClosedStep(s, schedule[0], c);
      InvStep(s, schedule[0]);
      DoomedRun(Next(s, schedule[0]), schedule[1..], s', t, c, n);
    }
  }

  /** Close drains everybody: once a channel is closed, every send, receive or
      close on it that has not passed its closed check has returned CLOSED_ERROR
      when the run comes to rest (and every run does, by RunsAreFinite). */
  lemma CloseDrains(capacities: seq<nat>, programs: seq<seq<Call>>, s: State, schedule: seq<nat>, s': State, t: nat,
          c: nat)
    requires Reachable(capacities, programs, s) && Valid(s) && Run(s, schedule, s') && Valid(s') && Stuck(s')
    requires t < |s.threads| && c < |s.chans| && s.chans[c].closed && BeforeCheck(s.threads[t].frame, c)
    ensures var n := |s.threads[t].results|;
            |s'.threads| == |s.threads| && |s'.threads[t].results| > n &&
            s'.threads[t].results[n].status == CLOSED_ERROR
  {
    var n := |s.threads[t].results|;
    ReachableInv(capacities, programs, s);
    DoomedRun(s, schedule, s', t, c, n);
    ClosedIsFrozen(s, schedule, s', c);
    InvRun(s, schedule, s');
    StuckJustified(s', t);
  }

  /** When a run comes to rest, nobody waits for a closed channel. */
  lemma NobodyWaitsOnClosed(capacities: seq<nat>, programs: seq<seq<Call>>, s: State, t: nat, c: nat)
    requires Reachable(capacities, programs, s) && Valid(s) && Stuck(s) && t < |s.threads|
    requires c < |s.chans| && s.chans[c].closed
    ensures var f := s.threads[t].frame;
            !(f.OpFrame? && f.ch == c) && !(f.CloseFrame? && f.cch == c) &&
            forall j :: 0 <= j < |EntriesOf(f)| ==> EntriesOf(f)[j].ch != c
  {
    BlockingIsJustified(capacities, programs, s, t);
  }

  // ---------------------------------------------------------------- OTHER_ERROR

  predicate CleanEntries(es: seq<Entry>) {
    forall j :: 0 <= j < |es| ==> es[j].side == Send ==> es[j].msg != BUFFER_EMPTY
  }

  predicate CleanCall(call: Call) {
    match call
    case OpCall(side, _, msg, _) => side == Send ==> msg != BUFFER_EMPTY
    case CloseCall(_) => true
    case SelectCall(es) => CleanEntries(es)
  }

  /** No call sends the value BUFFER_EMPTY. */
  ghost predicate CleanPrograms(programs: seq<seq<Call>>) {
    forall t, j :: 0 <= t < |programs| && 0 <= j < |programs[t]| ==> CleanCall(programs[t][j])
  }

  ghost predicate CleanThread(th: Thread) {
    (th.frame.OpFrame? && th.frame.side == Send ==> th.frame.msg != BUFFER_EMPTY) &&
    CleanEntries(EntriesOf(th.frame)) &&
    (forall j :: 0 <= j < |th.todo| ==> CleanCall(th.todo[j])) &&
    !Leaving(th.frame, OTHER_ERROR) &&
    (forall j :: 0 <= j < |th.results| ==> th.results[j].status != OTHER_ERROR)
  }

  ghost predicate Clean(s: State) {
    (forall t :: 0 <= t < |s.threads| ==> CleanThread(s.threads[t])) &&
    (forall c :: 0 <= c < |s.chans| ==> BUFFER_EMPTY !in s.chans[c].added)
  }

  lemma {:induction false} LostIsZero(removed: seq<Message>)
    ensures Lost(removed) == 0 <==> BUFFER_EMPTY !in removed
  {
    if removed != [] {
      LostIsZero(removed[..|removed| - 1]);
      assert removed == removed[..|removed| - 1] + [removed[|removed| - 1]];
    }
  }

  lemma OpCleanStep(th: Thread, ch: Chan)
    requires th.frame.OpFrame? && !th.frame.pc.ErrUnlock? && CleanThread(th)
    requires th.frame.caller.InSelect? ==> th.frame.caller.i < |th.frame.caller.entries|
    ensures CleanThread(OpThread(th, ch))
  {
    if OpReturns(th.frame.pc, th.frame.side) {
      assert OpThread(th, ch) == Return(th, ReturnStatus(th.frame.pc));
    }
  }

  lemma CleanThreadStep(th: Thread, chans: seq<Chan>)
    requires ValidThread(th, |chans|) && CleanThread(th) && (th.frame.Idle? ==> th.todo != [])
    requires !(th.frame.OpFrame? && th.frame.pc.ErrUnlock?)
    ensures CleanThread(NextThread(th, chans))
  {
    match th.frame
    case OpFrame(_, c, _, _, _) => OpCleanStep(th, chans[c]);
    case Idle => assert CleanCall(th.todo[0]);
    case _ =>
  }

  lemma CleanChanStep(ch: Chan, f: Frame, t: nat)
    requires |ch.buffer| <= ch.capacity && ch.added == ch.removed + ch.buffer
    requires f.OpFrame? && f.side == Send ==> f.msg != BUFFER_EMPTY
    requires BUFFER_EMPTY !in ch.added
    ensures BUFFER_EMPTY !in NextChan(f, ch, t).added
  {
    if !(f.OpFrame? && f.pc.Crit?) { OnlyCritTouchesBuffer(ch, f, t); }
  }

  lemma CleanStep(s: State, t: nat)
    requires Inv(s) && Clean(s) && t < |s.threads| && Enabled(s, t)
    ensures Clean(Next(s, t))
  {
    var th := s.threads[t];
    var c := Touched(th.frame);
    assert ValidThread(th, |s.chans|) && FrameOk(th.frame, s.chans) && CleanThread(th);
    if c >= 0 {
      assert ChanOk(s, c);
      LostIsZero(s.chans[c].removed);
      CleanChanStep(s.chans[c], th.frame, t);
    }
    CleanThreadStep(th, s.chans);
  }

  lemma {:induction false} CleanRun(s: State, schedule: seq<nat>, s': State)
    requires Inv(s) && Clean(s) && Run(s, schedule, s')
    ensures Clean(s')
    decreases |schedule|
  {
    if schedule != [] {
      CleanStep(s, schedule[0]);
      InvStep(s, schedule[0]);
      CleanRun(Next(s, schedule[0]), schedule[1..], s');
    }
  }

  /** If nobody sends BUFFER_EMPTY, no call ever returns OTHER_ERROR and no slot is lost. */
  lemma NoOtherError(capacities: seq<nat>, programs: seq<seq<Call>>, s: State)
    requires Reachable(capacities, programs, s) && CleanPrograms(programs)
    ensures forall t, j :: 0 <= t < |s.threads| && 0 <= j < |s.threads[t].results| ==>
              s.threads[t].results[j].status != OTHER_ERROR
    ensures forall c :: 0 <= c < |s.chans| ==> Lost(s.chans[c].removed) == 0
  {
    var s0 := Init(capacities, programs);
    var schedule :| Run(s0, schedule, s);
    InitInv(capacities, programs);
    assert Clean(s0);
    CleanRun(s0, schedule, s);
    InvRun(s0, schedule, s);
    forall t, j | 0 <= t < |s.threads| && 0 <= j < |s.threads[t].results|
      ensures s.threads[t].results[j].status != OTHER_ERROR
    {
      assert CleanThread(s.threads[t]);
    }
    forall c | 0 <= c < |s.chans| ensures Lost(s.chans[c].removed) == 0 {
      assert ChanOk(s, c);
      LostIsZero(s.chans[c].removed);
    }
  }

  // ---------------------------------------------------------------- full channels

  /** A send that waits at rest waits on a full channel if and only if no message
      equal to BUFFER_EMPTY was ever received from it. */
  lemma BlockedSendExactly(capacities: seq<nat>, programs: seq<seq<Call>>, s: State, t: nat)
    requires Reachable(capacities, programs, s) && Valid(s) && Stuck(s) && t < |s.threads|
    requires s.threads[t].frame.OpFrame? && s.threads[t].frame.side == Send
    ensures var c := s.threads[t].frame.ch;
      && c < |s.chans| && !s.chans[c].closed
      && (|s.chans[c].buffer| == s.chans[c].capacity <==> BUFFER_EMPTY !in s.chans[c].removed)
  {
    BlockingIsJustified(capacities, programs, s, t);
    LostIsZero(s.chans[s.threads[t].frame.ch].removed);
  }

  /** The same for each send entry of a select that sleeps at rest. */
  lemma SleepingSendExactly(capacities: seq<nat>, programs: seq<seq<Call>>, s: State, t: nat, j: nat)
    requires Reachable(capacities, programs, s) && Valid(s) && Stuck(s) && t < |s.threads|
    requires s.threads[t].frame.SelectFrame? && j < |s.threads[t].frame.es|
    requires s.threads[t].frame.es[j].side == Send
    ensures var c := s.threads[t].frame.es[j].ch;
      && c < |s.chans| && !s.chans[c].closed
      && (|s.chans[c].buffer| == s.chans[c].capacity <==> BUFFER_EMPTY !in s.chans[c].removed)
  {
    BlockingIsJustified(capacities, programs, s, t);
    LostIsZero(s.chans[s.threads[t].frame.es[j].ch].removed);
  }

  /** When no call sends BUFFER_EMPTY, every send that waits at rest, alone or in a
      select, waits on a full open channel. */
  lemma SendersWaitOnFull(capacities: seq<nat>, programs: seq<seq<Call>>, s: State, t: nat)
    requires Reachable(capacities, programs, s) && Valid(s) && Stuck(s) && t < |s.threads|
    requires CleanPrograms(programs)
    ensures var f := s.threads[t].frame;
      f.OpFrame? && f.side == Send ==>
        f.ch < |s.chans| && !s.chans[f.ch].closed && |s.chans[f.ch].buffer| == s.chans[f.ch].capacity
    ensures var f := s.threads[t].frame;
      f.SelectFrame? ==> forall j :: 0 <= j < |f.es| && f.es[j].side == Send ==>
        var c := f.es[j].ch;
        c < |s.chans| && !s.chans[c].closed && |s.chans[c].buffer| == s.chans[c].capacity
  {
    BlockingIsJustified(capacities, programs, s, t);
    NoOtherError(capacities, programs, s);
  }
}
