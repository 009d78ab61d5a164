/** Which call a result answers: what the threads report, against their programs. */
module ChannelAnswers {
  import opened Fifo
  import opened ChannelModel
  import opened ChannelTokens
  import opened ChannelWakeups
  import opened ChannelTheorems

  /** r reports on this operation.  A send reports its own message, and a receive
      that gets none leaves the caller's data as it was. */
  predicate AnswersOp(e: Entry, r: Result) {
    && r.OpResult? && r.ch == e.ch && r.side == e.side
    && (e.side == Send || r.status == WOULDBLOCK || r.status == CLOSED_ERROR ==> r.msg == e.msg)
  }

  /** r is a result this call may have; only trace by trace is it known which one
      (see ChannelTraces). */
  predicate Answers(call: Call, r: Result) {
    match call
    case OpCall(side, ch, msg, blocking) =>
      AnswersOp(Entry(ch, side, msg), r) && r.index == 0 && (r.status == WOULDBLOCK ==> !blocking)
    case CloseCall(_) => r == CloseResult(SUCCESS) || r == CloseResult(CLOSED_ERROR)
    case SelectCall(es) =>
      r.OpResult? && r.index < |es| && AnswersOp(es[r.index], r) && r.status != WOULDBLOCK
  }

  /** A receive past buffer_remove carries the message removed. */
  predicate HasMessage(pc: OpPc) {
    pc.Unlock? || pc.PostOther? || pc.ListLock? || pc.Notify? || pc.ListUnlock? || pc.ErrUnlock?
  }

  predicate WorksOn(f: Frame, e: Entry) {
    f.OpFrame? && f.ch == e.ch && f.side == e.side && (e.side == Send || !HasMessage(f.pc) ==> f.msg == e.msg)
  }

  /** The result a select call is about to return. */
  function Bound(pc: SelectPc): (r: seq<Result>) {
    match pc
    case UnregLock(_, r) => [r]
    case UnregRemove(_, r) => [r]
    case UnregUnlock(_, r) => [r]
    case _ => []
  }

  /** The frame of a thread in the middle of this call. */
  predicate InProgress(call: Call, f: Frame) {
    match call
    case OpCall(side, ch, msg, blocking) =>
      WorksOn(f, Entry(ch, side, msg)) && f.caller == Direct(blocking) && (blocking ==> !PastTry(f.pc))
    case CloseCall(ch) => f.CloseFrame? && f.cch == ch
    case SelectCall(es) =>
      match f
      case OpFrame(_, _, _, _, InSelect(entries, i)) => entries == es && i < |es| && WorksOn(f, es[i])
      case SelectFrame(entries, pc) => entries == es && forall r :: r in Bound(pc) ==> Answers(call, r)
      case _ => false
  }

  /** The calls of the program are, in order: those with a result, the one in
      progress if there is one, and those still to do. */
  ghost predicate OnCourse(program: seq<Call>, th: Thread) {
    var n := |th.results|;
    && (if th.frame.Idle? then n <= |program| && th.todo == program[n..]
        else n < |program| && InProgress(program[n], th.frame) && th.todo == program[n + 1..])
    && forall k :: 0 <= k < n ==> Answers(program[k], th.results[k])
  }

  lemma StartOnCourse(program: seq<Call>, th: Thread, chans: seq<Chan>)
    requires OnCourse(program, th) && th.frame.Idle? && th.todo != []
    ensures OnCourse(program, NextThread(th, chans))
  {
    assert th.todo[0] == program[|th.results|];
  }

  /** The operation of a select returned: on to the next entry, to sleep, or out. */
  lemma SelectGoesOn(es: seq<Entry>, f: Frame)
    requires InProgress(SelectCall(es), f) && f.OpFrame? && OpReturns(f.pc, f.side)
    ensures InProgress(SelectCall(es), ReturnFrame(f, ReturnStatus(f.pc)))
  {
  }

  lemma DirectReturns(call: Call, f: Frame)
    requires call.OpCall? && InProgress(call, f) && OpReturns(f.pc, f.side)
    ensures Answers(call, OpResult(ReturnStatus(f.pc), 0, f.side, f.ch, f.msg))
  {
  }

  lemma ReturnOnCourse(program: seq<Call>, th: Thread, ch: Chan)
    requires OnCourse(program, th) && th.frame.OpFrame? && OpReturns(th.frame.pc, th.frame.side)
    ensures th.frame.caller.InSelect? ==> th.frame.caller.i < |th.frame.caller.entries|
    ensures OnCourse(program, OpThread(th, ch))
  {
    var f, n := th.frame, |th.results|;
    assert OpThread(th, ch) == Return(th, ReturnStatus(f.pc));
    match f.caller
    case Direct(_) => DirectReturns(program[n], f);
    case InSelect(es, _) =>
      assert program[n] == SelectCall(es);
      SelectGoesOn(es, f);
  }

  lemma OpOnCourse(program: seq<Call>, th: Thread, ch: Chan)
    requires OnCourse(program, th) && th.frame.OpFrame?
    requires OpEnabled(ch, th.frame.side, th.frame.pc, th.frame.caller)
    ensures th.frame.caller.InSelect? ==> th.frame.caller.i < |th.frame.caller.entries|
    ensures OnCourse(program, OpThread(th, ch))
  {
    if OpReturns(th.frame.pc, th.frame.side) {
      ReturnOnCourse(program, th, ch);
    } else {
      assert OpThread(th, ch).results == th.results && OpThread(th, ch).todo == th.todo;
    }
  }

  lemma CloseOnCourse(program: seq<Call>, th: Thread, ch: Chan)
    requires OnCourse(program, th) && th.frame.CloseFrame?
    ensures OnCourse(program, CloseThread(th, ch))
  {
  }

  lemma SelectOnCourse(program: seq<Call>, th: Thread)
    requires OnCourse(program, th) && th.frame.SelectFrame? && |th.frame.es| > 0
    ensures OnCourse(program, SelectThread(th))
  {
  }

  lemma OnCourseStep(s: State, u: nat, t: nat, program: seq<Call>)
    requires Valid(s) && u < |s.threads| && Enabled(s, u) && t < |s.threads| && OnCourse(program, s.threads[t])
    ensures OnCourse(program, Next(s, u).threads[t])
  {
    if t == u {
      var th := s.threads[t];
      assert ValidThread(th, |s.chans|);
      match th.frame
      case Idle => StartOnCourse(program, th, s.chans);
      case OpFrame(_, c, _, _, _) => OpOnCourse(program, th, s.chans[c]);
      case CloseFrame(c, _) => CloseOnCourse(program, th, s.chans[c]);
      case SelectFrame(_, _) => SelectOnCourse(program, th);
    }
  }

  lemma {:induction false} OnCourseRun(s: State, schedule: seq<nat>, s': State, t: nat, program: seq<Call>)
    requires Valid(s) && Run(s, schedule, s') && t < |s.threads| && OnCourse(program, s.threads[t])
    ensures |s'.threads| == |s.threads| && OnCourse(program, s'.threads[t])
    decreases |schedule|
  {
    if schedule != [] {
      OnCourseStep(s, schedule[0], t, program);
      OnCourseRun(Next(s, schedule[0]), schedule[1..], s', t, program);
    }
  }

  /** In every reachable state the results so far answer the first calls of the
      program, one each and in order, and nothing of the program is skipped. */
  lemma ResultsAnswerCalls(capacities: seq<nat>, programs: seq<seq<Call>>, s: State, t: nat)
    requires Reachable(capacities, programs, s) && t < |programs|
    ensures |s.threads| == |programs| && OnCourse(programs[t], s.threads[t])
  {
    var schedule :| Run(Init(capacities, programs), schedule, s);
    OnCourseRun(Init(capacities, programs), schedule, s, t, programs[t]);
  }

  /** A non-blocking call, and each operation tried by a select, never waits for a
      token; a blocking one waits exactly as long as there is none. */
  lemma TryNeverWaits(capacities: seq<nat>, programs: seq<seq<Call>>, s: State, t: nat)
    requires Reachable(capacities, programs, s) && Valid(s) && t < |programs| && t < |s.threads|
    requires s.threads[t].frame.OpFrame? && s.threads[t].frame.pc.Acquire?
    ensures var n, f := |s.threads[t].results|, s.threads[t].frame;
      && n < |programs[t]| && !programs[t][n].CloseCall? && f.ch < |s.chans|
      && (Enabled(s, t) <==>
          (programs[t][n].OpCall? && programs[t][n].blocking ==> s.chans[f.ch].Tokens(f.side) > 0))
  {
    ResultsAnswerCalls(capacities, programs, s, t);
    assert ValidThread(s.threads[t], |s.chans|);
  }

  /** When no thread can move, each has answered its whole program, or is at a
      blocking call whose channel, or a select call all of whose channels, must
      wait. */
  lemma UnfinishedCallsMustWait(capacities: seq<nat>, programs: seq<seq<Call>>, s: State, t: nat)
    requires Reachable(capacities, programs, s) && Valid(s) && Stuck(s) && t < |programs|
    ensures |s.threads| == |programs|
    ensures var n := |s.threads[t].results|;
      n == |programs[t]| ||
      (n < |programs[t]| &&
       match programs[t][n]
       case OpCall(side, ch, _, blocking) => blocking && ch < |s.chans| && MustWait(s.chans[ch], side)
       case CloseCall(_) => false
       case SelectCall(es) =>
         forall j :: 0 <= j < |es| ==> es[j].ch < |s.chans| && MustWait(s.chans[es[j].ch], es[j].side))
  {
    ResultsAnswerCalls(capacities, programs, s, t);
    BlockingIsJustified(capacities, programs, s, t);
  }
}
