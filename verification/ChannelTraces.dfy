/** Why a call returned what it returned: every result is tied to the step of the
    run at which the call looked at its channel or changed it. */
module ChannelTraces {
  import opened Fifo
  import opened ChannelModel
  import opened ChannelTokens
  import opened ChannelWakeups
  import opened ChannelTheorems
  import opened ChannelAnswers

  /** A run with all its states: states[i + 1] is reached from states[i] when
      thread moves[i] moves. */
  datatype Trace = Trace(states: seq<State>, moves: seq<nat>)

  ghost predicate IsStep(s: State, t: nat, s': State) {
    Valid(s) && t < |s.threads| && Enabled(s, t) && s' == Next(s, t)
  }

  ghost predicate IsTrace(tr: Trace, s: State) {
    && |tr.states| == |tr.moves| + 1 && tr.states[0] == s
    && forall i: nat {:trigger tr.moves[i]} :: i < |tr.moves| ==> IsStep(tr.states[i], tr.moves[i], tr.states[i + 1])
  }

  /** Every run has such a trace. */
  lemma {:induction false} TraceOfRun(s: State, schedule: seq<nat>, s': State) returns (tr: Trace)
    requires Valid(s) && Run(s, schedule, s')
    ensures IsTrace(tr, s) && tr.moves == schedule && tr.states[|schedule|] == s'
    decreases |schedule|
  {
    if schedule == [] {
      tr := Trace([s], []);
    } else {
      var rest := TraceOfRun(Next(s, schedule[0]), schedule[1..], s');
      tr := Trace([s] + rest.states, [schedule[0]] + rest.moves);
      forall i: nat | i < |tr.moves| ensures IsStep(tr.states[i], tr.moves[i], tr.states[i + 1]) {
        if i > 0 { assert IsStep(rest.states[i - 1], rest.moves[i - 1], rest.states[i]); }
      }
    }
  }

  lemma {:induction false} TraceInv(tr: Trace, s: State, k: nat)
    requires IsTrace(tr, s) && Inv(s) && k <= |tr.moves|
    ensures Inv(tr.states[k])
    ensures |tr.states[k].threads| == |s.threads| && |tr.states[k].chans| == |s.chans|
  {
    if k > 0 {
      TraceInv(tr, s, k - 1);
      assert IsStep(tr.states[k - 1], tr.moves[k - 1], tr.states[k]);
      InvStep(tr.states[k - 1], tr.moves[k - 1]);
    }
  }

  lemma {:induction false} TraceOnCourse(tr: Trace, s: State, k: nat, t: nat, program: seq<Call>)
    requires IsTrace(tr, s) && k <= |tr.moves| && t < |s.threads| && OnCourse(program, s.threads[t])
    ensures t < |tr.states[k].threads| && OnCourse(program, tr.states[k].threads[t])
  {
    if k > 0 {
      TraceOnCourse(tr, s, k - 1, t, program);
      assert IsStep(tr.states[k - 1], tr.moves[k - 1], tr.states[k]);
      OnCourseStep(tr.states[k - 1], tr.moves[k - 1], t, program);
    }
  }

  // ---------------------------------------------------------------- what a step saw or did

  /** Step i is made by thread t, in its n-th call. */
  predicate Acts(tr: Trace, t: nat, n: nat, i: nat) {
    && i < |tr.moves| && i + 1 < |tr.states| && tr.moves[i] == t
    && t < |tr.states[i].threads| && |tr.states[i].threads[t].results| == n
  }

  /** Step i touches channel c, which is `Before` it and `After` it. */
  predicate ActsOn(tr: Trace, t: nat, n: nat, c: nat, i: nat) {
    Acts(tr, t, n, i) && c < |tr.states[i].chans| && c < |tr.states[i + 1].chans|
  }

  function Before(tr: Trace, c: nat, i: nat): Chan
    requires i < |tr.states| && c < |tr.states[i].chans|
  {
    tr.states[i].chans[c]
  }

  function After(tr: Trace, c: nat, i: nat): Chan
    requires i + 1 < |tr.states| && c < |tr.states[i + 1].chans|
  {
    tr.states[i + 1].chans[c]
  }

  /** The sem_trywait of the operation finds the semaphore at 0. */
  predicate FindsNone(tr: Trace, t: nat, n: nat, side: Side, c: nat, i: nat) {
    ActsOn(tr, t, n, c, i) && Before(tr, c, i).Tokens(side) == 0 &&
    AtOp(tr.states[i].threads[t].frame, side, c, Acquire)
  }

  /** The operation, after its trywait, finds the channel open. */
  predicate FindsOpen(tr: Trace, t: nat, n: nat, side: Side, c: nat, i: nat) {
    ActsOn(tr, t, n, c, i) && !Before(tr, c, i).closed && AtOp(tr.states[i].threads[t].frame, side, c, FailCheck)
  }

  predicate AtOp(f: Frame, side: Side, c: nat, pc: OpPc) {
    f.OpFrame? && f.side == side && f.ch == c && f.pc == pc
  }

  predicate FindsClosed(tr: Trace, t: nat, n: nat, c: nat, i: nat) {
    ActsOn(tr, t, n, c, i) && Before(tr, c, i).closed
  }

  /** Step i puts m at the end of the buffer of an open channel with room. */
  predicate Puts(tr: Trace, t: nat, n: nat, c: nat, m: Message, i: nat) {
    && ActsOn(tr, t, n, c, i) && !Before(tr, c, i).closed
    && |Before(tr, c, i).buffer| < Before(tr, c, i).capacity
    && After(tr, c, i).buffer == Before(tr, c, i).buffer + [m]
  }

  /** Step i takes m from the front of the buffer of an open channel. */
  predicate Takes(tr: Trace, t: nat, n: nat, c: nat, m: Message, i: nat) {
    && ActsOn(tr, t, n, c, i) && !Before(tr, c, i).closed
    && Before(tr, c, i).buffer == [m] + After(tr, c, i).buffer
  }

  predicate ClosesIt(tr: Trace, t: nat, n: nat, c: nat, i: nat) {
    ActsOn(tr, t, n, c, i) && !Before(tr, c, i).closed && After(tr, c, i).closed
  }

  // ---------------------------------------------------------------- what explains a result

  /** In steps lo to hi the operation found no token, and later an open channel. */
  ghost predicate Refused(tr: Trace, t: nat, n: nat, side: Side, c: nat, lo: nat, hi: nat) {
    exists i: nat, j: nat :: lo <= i < j < hi && FindsNone(tr, t, n, side, c, i) && FindsOpen(tr, t, n, side, c, j)
  }

  /** In steps lo to hi an operation did what its status says. */
  ghost predicate Happened(tr: Trace, t: nat, n: nat, side: Side, c: nat, m: Message, status: Status, lo: nat,
          hi: nat) {
    match status
    case WOULDBLOCK => Refused(tr, t, n, side, c, lo, hi)
    case CLOSED_ERROR => exists i: nat :: lo <= i < hi && FindsClosed(tr, t, n, c, i)
    case SUCCESS =>
      if side == Send then exists i: nat :: lo <= i < hi && Puts(tr, t, n, c, m, i)
      else m != BUFFER_EMPTY && exists i: nat :: lo <= i < hi && Takes(tr, t, n, c, m, i)
    case OTHER_ERROR =>
      side == Recv && m == BUFFER_EMPTY && exists i: nat :: lo <= i < hi && Takes(tr, t, n, c, m, i)
  }

  predicate InRound(tr: Trace, t: nat, n: nat, es: seq<Entry>, k: nat) {
    && k < |tr.states| && t < |tr.states[k].threads| && |tr.states[k].threads[t].results| == n
    && var f := tr.states[k].threads[t].frame; f.OpFrame? && f.caller.InSelect? && f.caller.entries == es
  }

  /** From state lo to state last the select call tries its entries, from the first
      one on, without going back to sleep. */
  ghost predicate Round(tr: Trace, t: nat, n: nat, es: seq<Entry>, lo: nat, last: nat) {
    && lo <= last && |es| > 0 && InRound(tr, t, n, es, lo) && tr.states[lo].threads[t].frame == Try(es, 0)
    && forall k :: lo <= k <= last ==> InRound(tr, t, n, es, k)
  }

  /** In this round all entries before the selected one would block, and the
      selected one did what its status says. */
  ghost predicate FirstOption(tr: Trace, t: nat, n: nat, es: seq<Entry>, r: Result, lo: nat, last: nat) {
    && Round(tr, t, n, es, lo, last) && r.OpResult? && r.index < |es|
    && (forall e :: 0 <= e < r.index ==> Refused(tr, t, n, es[e].side, es[e].ch, lo, last + 1))
    && Happened(tr, t, n, es[r.index].side, es[r.index].ch, r.msg, r.status, lo, last + 1)
  }

  /** Among the steps before hi, those of t's n-th call explain its result r. */
  ghost predicate Explained(tr: Trace, t: nat, n: nat, call: Call, r: Result, hi: nat) {
    match call
    case OpCall(side, c, _, _) => r.OpResult? && Happened(tr, t, n, side, c, r.msg, r.status, 0, hi)
    case SelectCall(es) => exists lo: nat, last: nat :: last < hi && FirstOption(tr, t, n, es, r, lo, last)
    case CloseCall(c) =>
      if r == CloseResult(SUCCESS) then exists i: nat :: i < hi && ClosesIt(tr, t, n, c, i)
      else
        && r == CloseResult(CLOSED_ERROR) && (exists i: nat :: i < hi && FindsClosed(tr, t, n, c, i))
        && forall i: nat :: i < hi ==> !ClosesIt(tr, t, n, c, i)
  }

  // ---------------------------------------------------------------- the call in progress

  /** What is known of an operation that has come to pc. */
  ghost predicate OpPast(tr: Trace, t: nat, n: nat, f: Frame, lo: nat, hi: nat)
    requires f.OpFrame?
  {
    match f.pc
    case FailLock => exists i: nat :: lo <= i < hi && FindsNone(tr, t, n, f.side, f.ch, i)
    case FailCheck => exists i: nat :: lo <= i < hi && FindsNone(tr, t, n, f.side, f.ch, i)
    case Acquire => true
    case Lock => true
    case Crit => true
    case FailOpen => Happened(tr, t, n, f.side, f.ch, f.msg, WOULDBLOCK, lo, hi)
    case ErrUnlock => Happened(tr, t, n, f.side, f.ch, f.msg, OTHER_ERROR, lo, hi)
    case FailClosed => Happened(tr, t, n, f.side, f.ch, f.msg, CLOSED_ERROR, lo, hi)
    case FailPost => Happened(tr, t, n, f.side, f.ch, f.msg, CLOSED_ERROR, lo, hi)
    case ClosedUnlock => Happened(tr, t, n, f.side, f.ch, f.msg, CLOSED_ERROR, lo, hi)
    case ClosedPost => Happened(tr, t, n, f.side, f.ch, f.msg, CLOSED_ERROR, lo, hi)
    case _ => Happened(tr, t, n, f.side, f.ch, f.msg, SUCCESS, lo, hi)
  }

  /** The select call at an entry has been refused by the entries before it. */
  ghost predicate TryPast(tr: Trace, t: nat, n: nat, f: Frame, lo: nat, hi: nat)
    requires f.OpFrame? && f.caller.InSelect?
  {
    var es, i := f.caller.entries, f.caller.i;
    && i < |es| && Round(tr, t, n, es, lo, hi) && OpPast(tr, t, n, f, lo, hi)
    && forall e :: 0 <= e < i ==> Refused(tr, t, n, es[e].side, es[e].ch, lo, hi)
  }

  ghost predicate ClosePast(tr: Trace, t: nat, n: nat, c: nat, pc: ClosePc, hi: nat) {
    if pc.CloseLock? || pc.CloseCheck? then forall i: nat :: i < hi ==> !ClosesIt(tr, t, n, c, i)
    else if pc.AlreadyClosed? then Explained(tr, t, n, CloseCall(c), CloseResult(CLOSED_ERROR), hi)
    else Explained(tr, t, n, CloseCall(c), CloseResult(SUCCESS), hi)
  }

  ghost predicate FramePast(tr: Trace, t: nat, n: nat, f: Frame, hi: nat) {
    match f
    case Idle => forall i: nat :: i < hi ==> !Acts(tr, t, n, i)
    case OpFrame(_, _, _, _, Direct(_)) => OpPast(tr, t, n, f, 0, hi)
    case OpFrame(_, _, _, _, InSelect(_, _)) => exists lo: nat :: TryPast(tr, t, n, f, lo, hi)
    case CloseFrame(c, pc) => ClosePast(tr, t, n, c, pc, hi)
    case SelectFrame(es, pc) => forall r :: r in Bound(pc) ==> Explained(tr, t, n, SelectCall(es), r, hi)
  }

  /** Everything thread t has reported by state hi is explained, and everything its
      call in progress is bound to report. */
  ghost predicate Past(tr: Trace, t: nat, program: seq<Call>, hi: nat) {
    && hi < |tr.states| && t < |tr.states[hi].threads| && OnCourse(program, tr.states[hi].threads[t])
    && var th := tr.states[hi].threads[t];
    && (forall k :: 0 <= k < |th.results| ==> Explained(tr, t, k, program[k], th.results[k], hi))
    && (forall i: nat :: i < hi && t < |tr.states[i].threads| ==> |tr.states[i].threads[t].results| <= |th.results|)
    && FramePast(tr, t, |th.results|, th.frame, hi)
  }

  /** More steps explain no less. */
  lemma HappenedLater(tr: Trace, t: nat, n: nat, side: Side, c: nat, m: Message, status: Status, lo: nat, hi: nat)
    requires Happened(tr, t, n, side, c, m, status, lo, hi)
    ensures Happened(tr, t, n, side, c, m, status, lo, hi + 1)
  {
  }

  lemma OpPastLater(tr: Trace, t: nat, n: nat, f: Frame, lo: nat, hi: nat)
    requires f.OpFrame? && OpPast(tr, t, n, f, lo, hi)
    ensures OpPast(tr, t, n, f, lo, hi + 1)
  {
  }

  lemma ExplainedLater(tr: Trace, t: nat, n: nat, call: Call, r: Result, hi: nat)
    requires Explained(tr, t, n, call, r, hi) && (call.CloseCall? ==> !ClosesIt(tr, t, n, call.ch, hi))
    ensures Explained(tr, t, n, call, r, hi + 1)
  {
    match call
    case OpCall(side, c, _, _) => HappenedLater(tr, t, n, side, c, r.msg, r.status, 0, hi);
    case SelectCall(es) =>
      var lo: nat, last: nat :| last < hi && FirstOption(tr, t, n, es, r, lo, last);
      assert last < hi + 1;
    case CloseCall(c) =>
  }

  // ---------------------------------------------------------------- steps of an operation

  /** Step hi of thread t, in its n-th call, with the facts that matter about it. */
  ghost predicate Moves(tr: Trace, t: nat, n: nat, hi: nat) {
    && Acts(tr, t, n, hi) && t < |tr.states[hi + 1].threads|
    && var th, chans := tr.states[hi].threads[t], tr.states[hi].chans;
    var c := Touched(th.frame);
    && ValidThread(th, |chans|) && (th.frame.Idle? ==> th.todo != []) && c < |chans|
    && tr.states[hi + 1].threads[t] == NextThread(th, chans)
    && (if c < 0 then tr.states[hi + 1].chans == chans
        else
          && ActsOn(tr, t, n, c, hi) && CritReady(th.frame, chans[c])
          && After(tr, c, hi) == NextChan(th.frame, chans[c], t))
  }

  lemma StepMoves(tr: Trace, t: nat, hi: nat)
    requires hi < |tr.moves| && hi + 1 < |tr.states| && tr.moves[hi] == t
    requires IsStep(tr.states[hi], t, tr.states[hi + 1]) && Inv(tr.states[hi])
    ensures Moves(tr, t, |tr.states[hi].threads[t].results|, hi)
  {
    var th := tr.states[hi].threads[t];
    assert ValidThread(th, |tr.states[hi].chans|);
    if th.frame.OpFrame? && th.frame.pc.Crit? &&
    !tr.states[hi].chans[th.frame.ch].closed { CritFits(tr.states[hi], t); }
  }

  /** The critical section. */
  lemma CritPast(tr: Trace, t: nat, n: nat, lo: nat, hi: nat)
    requires Moves(tr, t, n, hi) && lo <= hi
    requires tr.states[hi].threads[t].frame.OpFrame? && tr.states[hi].threads[t].frame.pc.Crit?
    ensures tr.states[hi + 1].threads[t].frame.OpFrame?
    ensures OpPast(tr, t, n, tr.states[hi + 1].threads[t].frame, lo, hi + 1)
  {
    var f := tr.states[hi].threads[t].frame;
    var ch := Before(tr, f.ch, hi);
    if ch.closed {
      assert FindsClosed(tr, t, n, f.ch, hi);
    } else {
      if f.side == Send {
        assert Puts(tr, t, n, f.ch, f.msg, hi);
      } else {
        assert ch.buffer == [ch.buffer[0]] + ch.buffer[1..];
        assert Takes(tr, t, n, f.ch, ch.buffer[0], hi);
      }
    }
  }

  /** The trywait, and the look at `closed` after it failed. */
  lemma TriedPast(tr: Trace, t: nat, n: nat, lo: nat, hi: nat)
    requires Moves(tr, t, n, hi) && lo <= hi && tr.states[hi].threads[t].frame.OpFrame?
    requires OpPast(tr, t, n, tr.states[hi].threads[t].frame, lo, hi)
    requires var f := tr.states[hi].threads[t].frame; f.pc.Acquire? || f.pc.FailCheck?
    ensures tr.states[hi + 1].threads[t].frame.OpFrame?
    ensures OpPast(tr, t, n, tr.states[hi + 1].threads[t].frame, lo, hi + 1)
  {
    var f := tr.states[hi].threads[t].frame;
    var ch := Before(tr, f.ch, hi);
    if f.pc.Acquire? {
      if ch.Tokens(f.side) == 0 { assert FindsNone(tr, t, n, f.side, f.ch, hi); }
    } else if ch.closed {
      assert FindsClosed(tr, t, n, f.ch, hi);
    } else {
      assert FindsOpen(tr, t, n, f.side, f.ch, hi);
    }
  }

  /** The other steps that stay inside the operation. */
  lemma InnerPast(tr: Trace, t: nat, n: nat, lo: nat, hi: nat)
    requires Moves(tr, t, n, hi) && lo <= hi && tr.states[hi].threads[t].frame.OpFrame?
    requires OpPast(tr, t, n, tr.states[hi].threads[t].frame, lo, hi)
    requires var f := tr.states[hi].threads[t].frame; !f.pc.Crit? && !OpReturns(f.pc, f.side)
    ensures tr.states[hi + 1].threads[t].frame.OpFrame?
    ensures OpPast(tr, t, n, tr.states[hi + 1].threads[t].frame, lo, hi + 1)
  {
    var f := tr.states[hi].threads[t].frame;
    if f.pc.Acquire? || f.pc.FailCheck? { TriedPast(tr, t, n, lo, hi); } else { OpPastLater(tr, t, n, f, lo, hi); }
  }

  lemma ReturnPast(tr: Trace, t: nat, n: nat, f: Frame, lo: nat, hi: nat)
    requires f.OpFrame? && OpReturns(f.pc, f.side) && OpPast(tr, t, n, f, lo, hi)
    ensures Happened(tr, t, n, f.side, f.ch, f.msg, ReturnStatus(f.pc), lo, hi + 1)
  {
    OpPastLater(tr, t, n, f, lo, hi);
  }

  // ---------------------------------------------------------------- steps of a call

  /** Step hi stays in the call, and what it will report is explained so far. */
  ghost predicate Stays(tr: Trace, t: nat, n: nat, hi: nat)
    requires Moves(tr, t, n, hi)
  {
    && t < |tr.states[hi + 1].threads|
    && var th, th' := tr.states[hi].threads[t], tr.states[hi + 1].threads[t];
    && th'.results == th.results && !th'.frame.Idle? && FramePast(tr, t, n, th'.frame, hi + 1)
  }

  /** Step hi leaves the call in progress with an explanation, or ends it with an
      explained result. */
  ghost predicate Goes(tr: Trace, t: nat, n: nat, call: Call, hi: nat)
    requires Moves(tr, t, n, hi)
  {
    || Stays(tr, t, n, hi)
    || (&& t < |tr.states[hi + 1].threads|
        && var th, th' := tr.states[hi].threads[t], tr.states[hi + 1].threads[t];
        && |th'.results| == n + 1 && th'.results[..n] == th.results && th'.frame.Idle?
        && Explained(tr, t, n, call, th'.results[n], hi + 1))
  }

  lemma DirectEnds(tr: Trace, t: nat, n: nat, call: Call, hi: nat)
    requires Moves(tr, t, n, hi)
    requires var f := tr.states[hi].threads[t].frame;
      f.OpFrame? && f.caller.Direct? && InProgress(call, f) && OpReturns(f.pc, f.side) && OpPast(tr, t, n, f, 0, hi)
    ensures Goes(tr, t, n, call, hi)
  {
    var th := tr.states[hi].threads[t];
    var f := th.frame;
    ReturnPast(tr, t, n, f, 0, hi);
    assert tr.states[hi + 1].threads[t] == Return(th, ReturnStatus(f.pc));
    assert (th.results + [OpResult(ReturnStatus(f.pc), 0, f.side, f.ch, f.msg)])[..n] == th.results;
  }

  lemma DirectGoes(tr: Trace, t: nat, n: nat, call: Call, hi: nat)
    requires Moves(tr, t, n, hi)
    requires var f := tr.states[hi].threads[t].frame;
      f.OpFrame? && f.caller.Direct? && InProgress(call, f) && FramePast(tr, t, n, f, hi)
    ensures Goes(tr, t, n, call, hi)
  {
    var f := tr.states[hi].threads[t].frame;
    if OpReturns(f.pc, f.side) {
      DirectEnds(tr, t, n, call, hi);
    } else if f.pc.Crit? {
      CritPast(tr, t, n, 0, hi);
    } else {
      InnerPast(tr, t, n, 0, hi);
    }
  }

  lemma RoundGoesOn(tr: Trace, t: nat, n: nat, es: seq<Entry>, lo: nat, hi: nat)
    requires Round(tr, t, n, es, lo, hi) && InRound(tr, t, n, es, hi + 1)
    ensures Round(tr, t, n, es, lo, hi + 1)
  {
    forall k | lo <= k <= hi + 1 ensures InRound(tr, t, n, es, k) {}
  }

  lemma EntryGoes(tr: Trace, t: nat, n: nat, call: Call, hi: nat)
    requires Moves(tr, t, n, hi)
    requires var f := tr.states[hi].threads[t].frame;
      f.OpFrame? && f.caller.InSelect? && InProgress(call, f) && FramePast(tr, t, n, f, hi)
    ensures Goes(tr, t, n, call, hi)
  {
    var f := tr.states[hi].threads[t].frame;
    var lo: nat :| TryPast(tr, t, n, f, lo, hi);
    if OpReturns(f.pc, f.side) {
      EntryReturns(tr, t, n, call, lo, hi);
    } else {
      EntryInner(tr, t, n, lo, hi);
    }
  }

  lemma EntryInner(tr: Trace, t: nat, n: nat, lo: nat, hi: nat)
    requires Moves(tr, t, n, hi)
    requires var f := tr.states[hi].threads[t].frame;
      f.OpFrame? && f.caller.InSelect? && !OpReturns(f.pc, f.side) && TryPast(tr, t, n, f, lo, hi)
    ensures Stays(tr, t, n, hi)
  {
    var f, f' := tr.states[hi].threads[t].frame, tr.states[hi + 1].threads[t].frame;
    if f.pc.Crit? { CritPast(tr, t, n, lo, hi); } else { InnerPast(tr, t, n, lo, hi); }
    RoundGoesOn(tr, t, n, f.caller.entries, lo, hi);
    assert TryPast(tr, t, n, f', lo, hi + 1);
  }

  lemma EntryReturns(tr: Trace, t: nat, n: nat, call: Call, lo: nat, hi: nat)
    requires Moves(tr, t, n, hi)
    requires var f := tr.states[hi].threads[t].frame;
      f.OpFrame? && f.caller.InSelect? && InProgress(call, f) && OpReturns(f.pc, f.side) && TryPast(tr, t, n, f, lo, hi)
    ensures Stays(tr, t, n, hi)
  {
    var f := tr.states[hi].threads[t].frame;
    assert tr.states[hi + 1].threads[t] == Return(tr.states[hi].threads[t], ReturnStatus(f.pc));
    ReturnPast(tr, t, n, f, lo, hi);
    if ReturnStatus(f.pc) == WOULDBLOCK { EntrySkipped(tr, t, n, f, lo, hi); }
    else { EntrySelected(tr, t, n, f, lo, hi); }
  }

  lemma EntrySelected(tr: Trace, t: nat, n: nat, f: Frame, lo: nat, hi: nat)
    requires f.OpFrame? && f.caller.InSelect? && TryPast(tr, t, n, f, lo, hi)
    requires var e := f.caller.entries[f.caller.i]; f.ch == e.ch && f.side == e.side
    requires Happened(tr, t, n, f.side, f.ch, f.msg, ReturnStatus(f.pc), lo, hi + 1) && ReturnStatus(f.pc) != WOULDBLOCK
    ensures FramePast(tr, t, n, ReturnFrame(f, ReturnStatus(f.pc)), hi + 1)
  {
    var r := OpResult(ReturnStatus(f.pc), f.caller.i, f.side, f.ch, f.msg);
    assert FirstOption(tr, t, n, f.caller.entries, r, lo, hi);
  }

  lemma EntrySkipped(tr: Trace, t: nat, n: nat, f: Frame, lo: nat, hi: nat)
    requires f.OpFrame? && f.caller.InSelect? && TryPast(tr, t, n, f, lo, hi)
    requires var e := f.caller.entries[f.caller.i]; f.ch == e.ch && f.side == e.side
    requires Refused(tr, t, n, f.side, f.ch, lo, hi + 1)
    requires f.caller.i < |f.caller.entries| - 1 ==> InRound(tr, t, n, f.caller.entries, hi + 1)
    ensures FramePast(tr, t, n, ReturnFrame(f, WOULDBLOCK), hi + 1)
  {
    var es, i := f.caller.entries, f.caller.i;
    if i < |es| - 1 {
      RoundGoesOn(tr, t, n, es, lo, hi);
      assert TryPast(tr, t, n, Try(es, i + 1), lo, hi + 1);
    }
  }

  lemma CheckGoes(tr: Trace, t: nat, n: nat, hi: nat)
    requires Moves(tr, t, n, hi)
    requires var f := tr.states[hi].threads[t].frame;
      f.CloseFrame? && f.cpc.CloseCheck? && ClosePast(tr, t, n, f.cch, f.cpc, hi)
    ensures Stays(tr, t, n, hi)
  {
    var c := tr.states[hi].threads[t].frame.cch;
    if Before(tr, c, hi).closed { assert FindsClosed(tr, t, n, c, hi); } else { assert ClosesIt(tr, t, n, c, hi); }
  }

  lemma CloseGoes(tr: Trace, t: nat, n: nat, call: Call, hi: nat)
    requires Moves(tr, t, n, hi)
    requires var f := tr.states[hi].threads[t].frame;
      f.CloseFrame? && InProgress(call, f) && FramePast(tr, t, n, f, hi)
    ensures Goes(tr, t, n, call, hi)
  {
    var f := tr.states[hi].threads[t].frame;
    if f.cpc.CloseCheck? {
      CheckGoes(tr, t, n, hi);
    } else {
      assert !ClosesIt(tr, t, n, f.cch, hi);
    }
  }

  lemma SelectGoes(tr: Trace, t: nat, n: nat, call: Call, hi: nat)
    requires Moves(tr, t, n, hi)
    requires var f := tr.states[hi].threads[t].frame;
      f.SelectFrame? && InProgress(call, f) && FramePast(tr, t, n, f, hi)
    ensures Goes(tr, t, n, call, hi)
  {
    var f, th' := tr.states[hi].threads[t].frame, tr.states[hi + 1].threads[t];
    forall r | r in Bound(f.spc) ensures Explained(tr, t, n, call, r, hi + 1) {
      ExplainedLater(tr, t, n, call, r, hi);
    }
    if th'.frame.OpFrame? {
      assert InRound(tr, t, n, f.es, hi + 1);
      assert Round(tr, t, n, f.es, hi + 1, hi + 1);
      assert TryPast(tr, t, n, th'.frame, hi + 1, hi + 1);
    } else if th'.frame.Idle? {
      assert f.spc.r in Bound(f.spc) && th'.results[n] == f.spc.r;
    } else {
      assert Bound(th'.frame.spc) == Bound(f.spc);
    }
  }

  lemma StartGoes(tr: Trace, t: nat, n: nat, call: Call, hi: nat)
    requires Moves(tr, t, n, hi) && tr.states[hi].threads[t].frame.Idle?
    requires FramePast(tr, t, n, Idle, hi)
    ensures Goes(tr, t, n, call, hi)
  {
    var f' := tr.states[hi + 1].threads[t].frame;
    if f'.CloseFrame? {
      forall i: nat | i < hi + 1 ensures !ClosesIt(tr, t, n, f'.cch, i) {
        if i == hi && ActsOn(tr, t, n, f'.cch, i) { assert After(tr, f'.cch, hi) == Before(tr, f'.cch, hi); }
      }
    }
  }

  lemma CallGoes(tr: Trace, t: nat, program: seq<Call>, hi: nat)
    requires Past(tr, t, program, hi) && Moves(tr, t, |tr.states[hi].threads[t].results|, hi)
    ensures var n := |tr.states[hi].threads[t].results|; n < |program| && Goes(tr, t, n, program[n], hi)
  {
    var n, f := |tr.states[hi].threads[t].results|, tr.states[hi].threads[t].frame;
    match f
    case Idle => StartGoes(tr, t, n, program[n], hi);
    case CloseFrame(_, _) => CloseGoes(tr, t, n, program[n], hi);
    case SelectFrame(_, _) => SelectGoes(tr, t, n, program[n], hi);
    case OpFrame(_, _, _, _, caller) =>
      if caller.Direct? { DirectGoes(tr, t, n, program[n], hi); } else { EntryGoes(tr, t, n, program[n], hi); }
  }

  /** Earlier results stay explained. */
  lemma EarlierStay(tr: Trace, t: nat, program: seq<Call>, hi: nat, k: nat)
    requires Past(tr, t, program, hi) && k < |tr.states[hi].threads[t].results|
    ensures k < |program| && Explained(tr, t, k, program[k], tr.states[hi].threads[t].results[k], hi + 1)
  {
    var r := tr.states[hi].threads[t].results[k];
    if program[k].CloseCall? { assert !ActsOn(tr, t, k, program[k].ch, hi); }
    ExplainedLater(tr, t, k, program[k], r, hi);
  }

  /** Results never become fewer, and after a return no step so far is of the next call. */
  lemma ResultsOnlyGrow(tr: Trace, t: nat, program: seq<Call>, hi: nat, m: nat)
    requires Past(tr, t, program, hi) && m >= |tr.states[hi].threads[t].results| && hi + 1 < |tr.states|
    ensures forall i: nat :: i < hi + 1 && t < |tr.states[i].threads| ==> |tr.states[i].threads[t].results| <= m
    ensures m > |tr.states[hi].threads[t].results| ==> forall i: nat :: i < hi + 1 ==> !Acts(tr, t, m, i)
  {
  }

  /** Only an ended call adds a result. */
  lemma NewExplained(tr: Trace, t: nat, n: nat, call: Call, hi: nat)
    requires Moves(tr, t, n, hi) && Goes(tr, t, n, call, hi)
    ensures var rs, rs' := tr.states[hi].threads[t].results, tr.states[hi + 1].threads[t].results;
      && (|rs'| == n || |rs'| == n + 1) && rs'[..n] == rs
      && (|rs'| == n + 1 ==> Explained(tr, t, n, call, rs'[n], hi + 1))
  {
  }

  lemma EachExplained(tr: Trace, t: nat, program: seq<Call>, hi: nat, k: nat)
    requires Past(tr, t, program, hi) && hi + 1 < |tr.states| && t < |tr.states[hi + 1].threads|
    requires var rs, rs' := tr.states[hi].threads[t].results, tr.states[hi + 1].threads[t].results;
      && |rs| < |program| && (|rs'| == |rs| || |rs'| == |rs| + 1) && rs'[..|rs|] == rs && k < |rs'|
      && (|rs'| == |rs| + 1 ==> Explained(tr, t, |rs|, program[|rs|], rs'[|rs|], hi + 1))
    ensures Explained(tr, t, k, program[k], tr.states[hi + 1].threads[t].results[k], hi + 1)
  {
    var rs, rs' := tr.states[hi].threads[t].results, tr.states[hi + 1].threads[t].results;
    if k < |rs| {
      EarlierStay(tr, t, program, hi, k);
      assert rs'[k] == rs'[..|rs|][k];
    }
  }

  lemma OwnPast(tr: Trace, t: nat, program: seq<Call>, hi: nat)
    requires Past(tr, t, program, hi) && Moves(tr, t, |tr.states[hi].threads[t].results|, hi)
    requires OnCourse(program, tr.states[hi + 1].threads[t])
    ensures Past(tr, t, program, hi + 1)
  {
    var th' := tr.states[hi + 1].threads[t];
    CallGoes(tr, t, program, hi);
    NewExplained(tr, t, |tr.states[hi].threads[t].results|, program[|tr.states[hi].threads[t].results|], hi);
    ResultsOnlyGrow(tr, t, program, hi, |th'.results|);
    forall k | 0 <= k < |th'.results| ensures Explained(tr, t, k, program[k], th'.results[k], hi + 1) {
      EachExplained(tr, t, program, hi, k);
    }
  }

  /** While another thread moves, t's frame stays and its round goes on. */
  lemma OtherPast(tr: Trace, t: nat, program: seq<Call>, hi: nat)
    requires Past(tr, t, program, hi) && hi < |tr.moves| && hi + 1 < |tr.states| && tr.moves[hi] != t
    requires IsStep(tr.states[hi], tr.moves[hi], tr.states[hi + 1])
    ensures Past(tr, t, program, hi + 1)
  {
    var th := tr.states[hi].threads[t];
    assert tr.states[hi + 1].threads[t] == th;
    forall k | 0 <= k < |th.results| ensures Explained(tr, t, k, program[k], th.results[k], hi + 1) {
      EarlierStay(tr, t, program, hi, k);
    }
    FrameStays(tr, t, program, hi);
  }

  lemma FrameStays(tr: Trace, t: nat, program: seq<Call>, hi: nat)
    requires Past(tr, t, program, hi) && hi < |tr.moves| && hi + 1 < |tr.states| && tr.moves[hi] != t
    requires t < |tr.states[hi + 1].threads| && tr.states[hi + 1].threads[t] == tr.states[hi].threads[t]
    ensures FramePast(tr, t, |tr.states[hi].threads[t].results|, tr.states[hi].threads[t].frame, hi + 1)
  {
    var th := tr.states[hi].threads[t];
    var n := |th.results|;
    match th.frame
    case Idle =>
    case OpFrame(_, _, _, _, Direct(_)) => OpPastLater(tr, t, n, th.frame, 0, hi);
    case OpFrame(_, _, _, _, InSelect(es, _)) =>
      var lo: nat :| TryPast(tr, t, n, th.frame, lo, hi);
      RoundGoesOn(tr, t, n, es, lo, hi);
      OpPastLater(tr, t, n, th.frame, lo, hi);
      assert TryPast(tr, t, n, th.frame, lo, hi + 1);
    case CloseFrame(c, _) => assert !ClosesIt(tr, t, n, c, hi);
    case SelectFrame(es, pc) =>
      forall r | r in Bound(pc) ensures Explained(tr, t, n, SelectCall(es), r, hi + 1) {
        ExplainedLater(tr, t, n, SelectCall(es), r, hi);
      }
  }

  lemma PastStep(tr: Trace, t: nat, program: seq<Call>, hi: nat)
    requires Past(tr, t, program, hi) && hi < |tr.moves| && hi + 1 < |tr.states|
    requires IsStep(tr.states[hi], tr.moves[hi], tr.states[hi + 1]) && Inv(tr.states[hi])
    ensures Past(tr, t, program, hi + 1)
  {
    if tr.moves[hi] == t {
      StepMoves(tr, t, hi);
      OnCourseStep(tr.states[hi], t, t, program);
      OwnPast(tr, t, program, hi);
    } else {
      OtherPast(tr, t, program, hi);
    }
  }

  lemma {:induction false} PastAll(tr: Trace, s: State, t: nat, program: seq<Call>, hi: nat)
    requires IsTrace(tr, s) && Inv(s) && t < |s.threads| && hi <= |tr.moves|
    requires s.threads[t] == Thread(program, Idle, [])
    ensures Past(tr, t, program, hi)
  {
    if hi > 0 {
      PastAll(tr, s, t, program, hi - 1);
      TraceInv(tr, s, hi - 1);
      assert IsStep(tr.states[hi - 1], tr.moves[hi - 1], tr.states[hi]);
      PastStep(tr, t, program, hi - 1);
    }
  }

  /** In every run every result is the right one: the n-th result of a thread answers
      the n-th call of its program, and the steps that call made explain it. */
  lemma ResultsExplained(capacities: seq<nat>, programs: seq<seq<Call>>, tr: Trace, t: nat, n: nat)
    requires ValidPrograms(capacities, programs) && IsTrace(tr, Init(capacities, programs)) && t < |programs|
    requires t < |tr.states[|tr.moves|].threads| && n < |tr.states[|tr.moves|].threads[t].results|
    ensures var r := tr.states[|tr.moves|].threads[t].results[n];
      n < |programs[t]| && Answers(programs[t][n], r) && Explained(tr, t, n, programs[t][n], r, |tr.moves|)
  {
    InitInv(capacities, programs);
    PastAll(tr, Init(capacities, programs), t, programs[t], |tr.moves|);
  }

  // ---------------------------------------------------------------- the semaphore of a select

  /** Thread t is inside a select call, its n-th call. */
  predicate Selecting(tr: Trace, t: nat, n: nat, i: nat) {
    && i < |tr.states| && t < |tr.states[i].threads| && |tr.states[i].threads[t].results| == n
    && EntriesOf(tr.states[i].threads[t].frame) != []
  }

  /** Step i posts the semaphore of thread t: its mover walks a waiter list and
      stands at t. */
  predicate PostsTo(tr: Trace, t: nat, i: nat) {
    && i < |tr.moves| && i < |tr.states| && tr.moves[i] < |tr.states[i].threads|
    && var f, chans := tr.states[i].threads[tr.moves[i]].frame, tr.states[i].chans;
    match f
    case OpFrame(side, c, _, Notify(k), _) =>
      c < |chans| && k < |chans[c].Waiters(Other(side))| && chans[c].Waiters(Other(side))[k] == t
    case CloseFrame(c, CloseNotify(side, k)) =>
      c < |chans| && k < |chans[c].Waiters(side)| && chans[c].Waiters(side)[k] == t
    case _ => false
  }

  /** Step i is a sem_wait of t in its sleep. */
  predicate Wakes(tr: Trace, t: nat, i: nat) {
    && i < |tr.moves| && i < |tr.states| && tr.moves[i] == t && t < |tr.states[i].threads|
    && tr.states[i].threads[t].frame.SelectFrame? && tr.states[i].threads[t].frame.spc.Sleep?
  }

  /** Posts, and wakeups, of thread t's n-th call in the first hi steps. */
  function Posts(tr: Trace, t: nat, n: nat, hi: nat): nat {
    if hi == 0 then 0
    else Posts(tr, t, n, hi - 1) + if Selecting(tr, t, n, hi - 1) && PostsTo(tr, t, hi - 1) then 1 else 0
  }

  function Wakeups(tr: Trace, t: nat, n: nat, hi: nat): nat {
    if hi == 0 then 0
    else Wakeups(tr, t, n, hi - 1) + if Selecting(tr, t, n, hi - 1) && Wakes(tr, t, hi - 1) then 1 else 0
  }

  lemma {:induction false} NothingBefore(tr: Trace, t: nat, n: nat, hi: nat)
    requires forall i: nat :: i < hi ==> !Selecting(tr, t, n, i)
    ensures Posts(tr, t, n, hi) == 0 && Wakeups(tr, t, n, hi) == 0
  {
    if hi > 0 { NothingBefore(tr, t, n, hi - 1); }
  }

  /** What the semaphore of t holds at state hi. */
  ghost predicate Counted(tr: Trace, t: nat, hi: nat) {
    && hi < |tr.states| && t < |tr.states[hi].threads| && t < |tr.states[hi].local|
    && var th := tr.states[hi].threads[t];
    && (forall i: nat :: i < hi && t < |tr.states[i].threads| ==> |tr.states[i].threads[t].results| <= |th.results|)
    && if EntriesOf(th.frame) == [] then forall i: nat :: i < hi ==> !Selecting(tr, t, |th.results|, i)
       else tr.states[hi].local[t] + Wakeups(tr, t, |th.results|, hi) == Posts(tr, t, |th.results|, hi)
  }

  /** How one step changes the semaphore of t. */
  lemma LocalStep(s: State, u: nat, t: nat)
    requires Valid(s) && u < |s.threads| && Enabled(s, u) && t < |s.threads|
    requires EntriesOf(s.threads[t].frame) != []
    ensures var f := s.threads[u].frame;
      var post := Touched(f) >= 0 && Posted(f, s.chans[Touched(f)]) == t;
      var wake := u == t && f.SelectFrame? && f.spc.Sleep?;
      Next(s, u).local[t] == s.local[t] + (if post then 1 else 0) - (if wake then 1 else 0)
  {
    assert ValidThread(s.threads[u], |s.chans|);
  }

  lemma CountedStep(tr: Trace, t: nat, hi: nat)
    requires Counted(tr, t, hi) && hi < |tr.moves| && hi + 1 < |tr.states|
    requires IsStep(tr.states[hi], tr.moves[hi], tr.states[hi + 1])
    ensures Counted(tr, t, hi + 1)
  {
    var s, u := tr.states[hi], tr.moves[hi];
    var th, th' := s.threads[t], tr.states[hi + 1].threads[t];
    var n := |th.results|;
    assert ValidThread(s.threads[u], |s.chans|) && ValidThread(th, |s.chans|);
    if u == t { OneResult(th, s.chans); }
    if EntriesOf(th.frame) != [] {
      LocalStep(s, u, t);
    } else if EntriesOf(th'.frame) != [] {
      SelectStarts(s, t, u);
      NothingBefore(tr, t, n, hi + 1);
    }
  }

  /** A step adds at most one result, and then ends its call. */
  lemma OneResult(th: Thread, chans: seq<Chan>)
    requires ValidThread(th, |chans|) && Touched(th.frame) < |chans| && (th.frame.Idle? ==> th.todo != [])
    ensures var th' := NextThread(th, chans);
      && |th.results| <= |th'.results| <= |th.results| + 1
      && (|th'.results| > |th.results| ==> th'.frame.Idle?)
      && (EntriesOf(th.frame) != [] && |th'.results| == |th.results| ==> EntriesOf(th'.frame) == EntriesOf(th.frame))
  {
  }

  lemma SelectStarts(s: State, t: nat, u: nat)
    requires Valid(s) && u < |s.threads| && Enabled(s, u) && t < |s.threads|
    requires EntriesOf(s.threads[t].frame) == [] && EntriesOf(Next(s, u).threads[t].frame) != []
    ensures u == t && Next(s, u).local[t] == 0 && |Next(s, u).threads[t].results| == |s.threads[t].results|
  {
    assert ValidThread(s.threads[t], |s.chans|);
  }

  lemma CountedAtStart(tr: Trace, t: nat)
    requires 0 < |tr.states| && t < |tr.states[0].threads| && t < |tr.states[0].local|
    requires tr.states[0].threads[t].frame.Idle?
    ensures Counted(tr, t, 0)
  {
  }

  lemma {:induction false} CountedAll(tr: Trace, s: State, t: nat, hi: nat)
    requires IsTrace(tr, s) && Counted(tr, t, 0) && hi <= |tr.moves|
    ensures Counted(tr, t, hi)
  {
    if hi > 0 {
      CountedAll(tr, s, t, hi - 1);
      TraceStep(tr, s, hi - 1);
      CountedStep(tr, t, hi - 1);
    }
  }

  lemma TraceStep(tr: Trace, s: State, i: nat)
    requires IsTrace(tr, s) && i < |tr.moves|
    ensures i + 1 < |tr.states| && IsStep(tr.states[i], tr.moves[i], tr.states[i + 1])
  {
  }

  /** The private semaphore of a select call starts at 0 and counts: what it holds,
      and the times the call woke up, are together the posts made since it began. */
  lemma SemaphoreCounts(capacities: seq<nat>, programs: seq<seq<Call>>, tr: Trace, t: nat, hi: nat)
    requires ValidPrograms(capacities, programs) && IsTrace(tr, Init(capacities, programs))
    requires t < |programs| && hi <= |tr.moves|
    requires t < |tr.states[hi].threads| && Selecting(tr, t, |tr.states[hi].threads[t].results|, hi)
    ensures var n := |tr.states[hi].threads[t].results|;
      t < |tr.states[hi].local| && tr.states[hi].local[t] + Wakeups(tr, t, n, hi) == Posts(tr, t, n, hi)
  {
    InitInv(capacities, programs);
    CountedAtStart(tr, t);
    CountedAll(tr, Init(capacities, programs), t, hi);
  }
}
