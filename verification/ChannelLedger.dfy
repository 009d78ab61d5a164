/** No message is lost, duplicated or invented: what the calls of the programs
    report agrees with the history of the buffer. */
module ChannelLedger {
  import opened Fifo
  import opened ChannelModel
  import opened ChannelTokens
  import opened ChannelTheorems
  import opened ChannelAnswers

  /** A successful send or receive (by side) of message m on channel c. */
  datatype Deal = Deal(side: Side, c: nat, m: Message)

  function Reported(r: Result, d: Deal): nat {
    if r.OpResult? && r.status == SUCCESS && r.side == d.side && r.ch == d.c && r.msg == d.m then 1 else 0
  }

  function ReportedIn(results: seq<Result>, d: Deal): nat {
    if results == [] then 0
    else ReportedIn(results[..|results| - 1], d) + Reported(results[|results| - 1], d)
  }

  /** Deals made in the buffer that the call will report when it returns. */
  function Pending(f: Frame, d: Deal): nat {
    match f
    case OpFrame(side, c, msg, pc, _) =>
      if side == d.side && c == d.c && msg == d.m &&
         (pc.Unlock? || pc.PostOther? || pc.ListLock? || pc.Notify? || pc.ListUnlock?) then 1 else 0
    case SelectFrame(_, UnregLock(_, r)) => Reported(r, d)
    case SelectFrame(_, UnregRemove(_, r)) => Reported(r, d)
    case SelectFrame(_, UnregUnlock(_, r)) => Reported(r, d)
    case _ => 0
  }

  function Deals(th: Thread, d: Deal): nat {
    ReportedIn(th.results, d) + Pending(th.frame, d)
  }

  function SumDeals(ts: seq<Thread>, d: Deal): nat {
    if ts == [] then 0 else Deals(ts[0], d) + SumDeals(ts[1..], d)
  }

  lemma {:induction false} SumDealsUpdate(ts: seq<Thread>, t: nat, th: Thread, d: Deal)
    requires t < |ts|
    ensures SumDeals(ts[t := th], d) == SumDeals(ts, d) - Deals(ts[t], d) + Deals(th, d)
  {
    if t == 0 {
      assert ts[t := th][1..] == ts[1..];
    } else {
      assert ts[t := th][1..] == ts[1..][t - 1 := th];
      SumDealsUpdate(ts[1..], t - 1, th, d);
    }
  }

  lemma {:induction false} SumDealsOfFresh(ts: seq<Thread>, d: Deal)
    requires forall t :: 0 <= t < |ts| ==> ts[t].frame.Idle? && ts[t].results == []
    ensures SumDeals(ts, d) == 0
  {
    if ts != [] { SumDealsOfFresh(ts[1..], d); }
  }

  /** Occurrences of m in the channel's history on this side; a removed
      BUFFER_EMPTY is not reported as a success. */
  function Booked(ch: Chan, d: Deal): nat {
    if d.side == Send then multiset(ch.added)[d.m]
    else if d.m == BUFFER_EMPTY then 0
    else multiset(ch.removed)[d.m]
  }

  lemma ReportedInAppend(results: seq<Result>, r: Result, d: Deal)
    ensures ReportedIn(results + [r], d) == ReportedIn(results, d) + Reported(r, d)
  {
    assert (results + [r])[..|results|] == results;
  }

  lemma ReturnDeals(th: Thread, status: Status, d: Deal)
    requires th.frame.OpFrame? && (th.frame.caller.InSelect? ==> th.frame.caller.i < |th.frame.caller.entries|)
    ensures Deals(Return(th, status), d) ==
            ReportedIn(th.results, d) + Reported(OpResult(status, 0, th.frame.side, th.frame.ch, th.frame.msg), d)
  {
    var f := th.frame;
    ReportedInAppend(th.results, OpResult(status, 0, f.side, f.ch, f.msg), d);
  }

  lemma OpDeals(th: Thread, ch: Chan, d: Deal)
    requires th.frame.OpFrame? && CritReady(th.frame, ch)
    requires th.frame.caller.InSelect? ==> th.frame.caller.i < |th.frame.caller.entries|
    ensures var f := th.frame;
            Deals(OpThread(th, ch), d) - Deals(th, d) ==
            if f.ch == d.c then Booked(OpChan(ch, f.side, f.msg, f.pc), d) - Booked(ch, d) else 0
  {
    var f := th.frame;
    if OpReturns(f.pc, f.side) {
      ReturningDeals(th, ch, d);
    } else if f.pc.Crit? {
      CritDeals(th, ch, d);
    } else {
      QuietDeals(th, ch, d);
    }
    if !f.pc.Crit? { QuietBooks(ch, f.side, f.msg, f.pc, d); }
  }

  lemma QuietBooks(ch: Chan, side: Side, msg: Message, pc: OpPc, d: Deal)
    requires !pc.Crit?
    ensures Booked(OpChan(ch, side, msg, pc), d) == Booked(ch, d)
  {
  }

  lemma ReturningDeals(th: Thread, ch: Chan, d: Deal)
    requires th.frame.OpFrame? && OpReturns(th.frame.pc, th.frame.side)
    requires th.frame.caller.InSelect? ==> th.frame.caller.i < |th.frame.caller.entries|
    ensures Deals(OpThread(th, ch), d) == Deals(th, d)
  {
    var f := th.frame;
    assert OpThread(th, ch) == Return(th, ReturnStatus(f.pc));
    ReturnDeals(th, ReturnStatus(f.pc), d);
  }

  /** The other steps report nothing and deal in nothing. */
  lemma QuietDeals(th: Thread, ch: Chan, d: Deal)
    requires th.frame.OpFrame? && !OpReturns(th.frame.pc, th.frame.side) && !th.frame.pc.Crit?
    requires th.frame.caller.InSelect? ==> th.frame.caller.i < |th.frame.caller.entries|
    ensures Deals(OpThread(th, ch), d) == Deals(th, d)
  {
  }

  lemma CritDeals(th: Thread, ch: Chan, d: Deal)
    requires th.frame.OpFrame? && th.frame.pc.Crit? && CritReady(th.frame, ch)
    requires th.frame.caller.InSelect? ==> th.frame.caller.i < |th.frame.caller.entries|
    ensures var f := th.frame;
            Deals(OpThread(th, ch), d) - Deals(th, d) ==
            if f.ch == d.c then Booked(CritChan(ch, f.side, f.msg), d) - Booked(ch, d) else 0
  {
  }

  /** Starting a call and closing a channel deal in no message. */
  lemma PlainDeals(th: Thread, chans: seq<Chan>, d: Deal)
    requires ValidThread(th, |chans|) && ((th.frame.Idle? && th.todo != []) || th.frame.CloseFrame?)
    ensures Deals(NextThread(th, chans), d) == Deals(th, d)
  {
    var th' := NextThread(th, chans);
    if |th'.results| > |th.results| { ReportedInAppend(th.results, th'.results[|th.results|], d); }
  }

  /** A select reports what its operation did. */
  lemma SelectDeals(th: Thread, chans: seq<Chan>, d: Deal)
    requires ValidThread(th, |chans|) && th.frame.SelectFrame?
    ensures Deals(NextThread(th, chans), d) == Deals(th, d)
  {
    var th' := NextThread(th, chans);
    if |th'.results| > |th.results| { ReportedInAppend(th.results, th'.results[|th.results|], d); }
  }

  lemma OtherDeals(th: Thread, chans: seq<Chan>, d: Deal)
    requires ValidThread(th, |chans|) && (th.frame.Idle? ==> th.todo != []) && !th.frame.OpFrame?
    ensures Deals(NextThread(th, chans), d) == Deals(th, d)
  {
    if th.frame.SelectFrame? { SelectDeals(th, chans, d); } else { PlainDeals(th, chans, d); }
  }

  lemma LedgerStep(s: State, t: nat, d: Deal)
    requires Inv(s) && t < |s.threads| && Enabled(s, t) && d.c < |s.chans|
    requires SumDeals(s.threads, d) == Booked(s.chans[d.c], d)
    ensures SumDeals(Next(s, t).threads, d) == Booked(Next(s, t).chans[d.c], d)
  {
    var th := s.threads[t];
    var f := th.frame;
    assert ValidThread(th, |s.chans|);
    SumDealsUpdate(s.threads, t, NextThread(th, s.chans), d);
    if f.OpFrame? {
      if f.pc.Crit? && !s.chans[f.ch].closed { CritFits(s, t); }
      OpDeals(th, s.chans[f.ch], d);
    } else {
      OtherDeals(th, s.chans, d);
      if Touched(f) == d.c { OnlyCritTouchesBuffer(s.chans[d.c], f, t); }
    }
  }

  lemma {:induction false} LedgerRun(s: State, schedule: seq<nat>, s': State, d: Deal)
    requires Inv(s) && Run(s, schedule, s') && d.c < |s.chans|
    requires SumDeals(s.threads, d) == Booked(s.chans[d.c], d)
    ensures |s'.chans| == |s.chans| && SumDeals(s'.threads, d) == Booked(s'.chans[d.c], d)
    decreases |schedule|
  {
    if schedule != [] {
      LedgerStep(s, schedule[0], d);
      InvStep(s, schedule[0]);
      LedgerRun(Next(s, schedule[0]), schedule[1..], s', d);
    }
  }

  lemma {:induction false} RunKeepsSize(s: State, schedule: seq<nat>, s': State)
    requires Valid(s) && Run(s, schedule, s')
    ensures |s'.chans| == |s.chans| && |s'.threads| == |s.threads|
    decreases |schedule|
  {
    if schedule != [] { RunKeepsSize(Next(s, schedule[0]), schedule[1..], s'); }
  }

  lemma DealsAreBooked(capacities: seq<nat>, programs: seq<seq<Call>>, s: State, d: Deal)
    requires Reachable(capacities, programs, s) && d.c < |s.chans|
    ensures SumDeals(s.threads, d) == Booked(s.chans[d.c], d)
  {
    var s0 := Init(capacities, programs);
    var schedule :| Run(s0, schedule, s);
    InitInv(capacities, programs);
    RunKeepsSize(s0, schedule, s);
    SumDealsOfFresh(s0.threads, d);
    LedgerRun(s0, schedule, s, d);
  }

  // ---------------------------------------------------------------- in terms of the programs

  /** The operation is of d's side and channel; a send has d's message in the
      program, a receive has got it. */
  predicate Matches(e: Entry, got: Message, d: Deal) {
    e.side == d.side && e.ch == d.c && (if d.side == Send then e.msg else got) == d.m
  }

  /** The call of the program, with result r, made the deal. */
  predicate Made(call: Call, r: Result, d: Deal) {
    && r.OpResult? && r.status == SUCCESS
    && match call
       case OpCall(side, ch, msg, _) => Matches(Entry(ch, side, msg), r.msg, d)
       case SelectCall(es) => r.index < |es| && Matches(es[r.index], r.msg, d)
       case CloseCall(_) => false
  }

  /** How many of the calls made the deal, by their results. */
  function MadeBy(calls: seq<Call>, results: seq<Result>, d: Deal): nat
    requires |results| <= |calls|
  {
    if results == [] then 0
    else
      var last := |results| - 1;
      MadeBy(calls, results[..last], d) + if Made(calls[last], results[last], d) then 1 else 0
  }

  /** The call in progress has made the deal, and is bound to report it. */
  predicate Making(call: Call, f: Frame, d: Deal) {
    match f
    case OpFrame(_, _, got, pc, caller) =>
      && HasMessage(pc) && !pc.ErrUnlock?
      && (match call
          case OpCall(side, ch, msg, _) => Matches(Entry(ch, side, msg), got, d)
          case SelectCall(es) => caller.InSelect? && caller.i < |es| && Matches(es[caller.i], got, d)
          case CloseCall(_) => false)
    case SelectFrame(_, pc) => exists r :: r in Bound(pc) && Made(call, r, d)
    case _ => false
  }

  ghost function CallDeals(program: seq<Call>, th: Thread, d: Deal): nat
    requires OnCourse(program, th)
  {
    var n := |th.results|;
    MadeBy(program, th.results, d) + if !th.frame.Idle? && Making(program[n], th.frame, d) then 1 else 0
  }

  ghost function SumCalls(programs: seq<seq<Call>>, ts: seq<Thread>, d: Deal): nat
    requires |programs| == |ts| && forall t :: 0 <= t < |ts| ==> OnCourse(programs[t], ts[t])
  {
    if ts == [] then 0 else CallDeals(programs[0], ts[0], d) + SumCalls(programs[1..], ts[1..], d)
  }

  lemma {:induction false} MadeIsReported(calls: seq<Call>, results: seq<Result>, d: Deal)
    requires |results| <= |calls| && forall k :: 0 <= k < |results| ==> Answers(calls[k], results[k])
    ensures MadeBy(calls, results, d) == ReportedIn(results, d)
    decreases |results|
  {
    if results != [] { MadeIsReported(calls, results[..|results| - 1], d); }
  }

  lemma MakingIsPending(call: Call, f: Frame, d: Deal)
    requires !f.Idle? && InProgress(call, f)
    ensures Pending(f, d) == if Making(call, f, d) then 1 else 0
  {
    match f
    case SelectFrame(_, pc) => if Bound(pc) != [] { assert Bound(pc)[0] in Bound(pc); }
    case _ =>
  }

  lemma {:induction false} SumCallsIsDeals(programs: seq<seq<Call>>, ts: seq<Thread>, d: Deal)
    requires |programs| == |ts| && forall t :: 0 <= t < |ts| ==> OnCourse(programs[t], ts[t])
    ensures SumCalls(programs, ts, d) == SumDeals(ts, d)
    decreases |ts|
  {
    if ts != [] {
      var program, th := programs[0], ts[0];
      assert OnCourse(program, th);
      MadeIsReported(program, th.results, d);
      if !th.frame.Idle? { MakingIsPending(program[|th.results|], th.frame, d); }
      forall t | 0 <= t < |ts[1..]| ensures OnCourse(programs[1..][t], ts[1..][t]) {
        assert OnCourse(programs[t + 1], ts[t + 1]);
      }
      SumCallsIsDeals(programs[1..], ts[1..], d);
    }
  }

  lemma AllOnCourse(capacities: seq<nat>, programs: seq<seq<Call>>, s: State)
    requires Reachable(capacities, programs, s)
    ensures |s.threads| == |programs| && forall t :: 0 <= t < |programs| ==> OnCourse(programs[t], s.threads[t])
  {
    var schedule :| Run(Init(capacities, programs), schedule, s);
    RunKeepsSize(Init(capacities, programs), schedule, s);
    forall t | 0 <= t < |programs| ensures OnCourse(programs[t], s.threads[t]) {
      ResultsAnswerCalls(capacities, programs, s, t);
    }
  }

  /** Messages are conserved: among the calls of the programs, the successful sends
      of each message on a channel are as many as the successful receives of it and
      its copies in the buffer together. */
  lemma MessagesConserved(capacities: seq<nat>, programs: seq<seq<Call>>, s: State, c: nat, m: Message)
    requires Reachable(capacities, programs, s) && c < |s.chans| && m != BUFFER_EMPTY
    ensures |programs| == |s.threads| && forall t :: 0 <= t < |programs| ==> OnCourse(programs[t], s.threads[t])
    ensures SumCalls(programs, s.threads, Deal(Send, c, m)) ==
            SumCalls(programs, s.threads, Deal(Recv, c, m)) + multiset(s.chans[c].buffer)[m]
  {
    AllOnCourse(capacities, programs, s);
    forall side ensures SumCalls(programs, s.threads, Deal(side, c, m)) == Booked(s.chans[c], Deal(side, c, m)) {
      SumCallsIsDeals(programs, s.threads, Deal(side, c, m));
      DealsAreBooked(capacities, programs, s, Deal(side, c, m));
    }
    ReachableInv(capacities, programs, s);
    assert ChanOk(s, c);
    assert multiset(s.chans[c].added) == multiset(s.chans[c].removed) + multiset(s.chans[c].buffer);
  }

  /** At rest the deals are exactly what the finished calls of the program report. */
  lemma AtRestAllReported(capacities: seq<nat>, programs: seq<seq<Call>>, s: State, t: nat, d: Deal)
    requires Reachable(capacities, programs, s) && Valid(s) && Stuck(s) && t < |programs|
    ensures t < |s.threads| && OnCourse(programs[t], s.threads[t])
    ensures CallDeals(programs[t], s.threads[t], d) == MadeBy(programs[t], s.threads[t].results, d)
  {
    AllOnCourse(capacities, programs, s);
    BlockingIsJustified(capacities, programs, s, t);
  }

  // ---------------------------------------------------------------- closes

  /** How many of the calls closed channel c, by their results. */
  function ClosedBy(calls: seq<Call>, results: seq<Result>, c: nat): nat
    requires |results| <= |calls|
  {
    if results == [] then 0
    else
      var last := |results| - 1;
      ClosedBy(calls, results[..last], c) +
      if calls[last] == CloseCall(c) && results[last] == CloseResult(SUCCESS) then 1 else 0
  }

  /** The call in progress has set `closed`, and is bound to report success. */
  predicate Closing(f: Frame, c: nat) {
    f.CloseFrame? && f.cch == c && !f.cpc.CloseLock? && !f.cpc.CloseCheck? && !f.cpc.AlreadyClosed?
  }

  ghost function Closes(program: seq<Call>, th: Thread, c: nat): nat
    requires OnCourse(program, th)
  {
    ClosedBy(program, th.results, c) + if Closing(th.frame, c) then 1 else 0
  }

  ghost function SumCloses(programs: seq<seq<Call>>, ts: seq<Thread>, c: nat): nat
    requires |programs| == |ts| && forall t :: 0 <= t < |ts| ==> OnCourse(programs[t], ts[t])
  {
    if ts == [] then 0 else Closes(programs[0], ts[0], c) + SumCloses(programs[1..], ts[1..], c)
  }

  lemma {:induction false} SumClosesUpdate(programs: seq<seq<Call>>, ts: seq<Thread>, t: nat, th: Thread, c: nat)
    requires |programs| == |ts| && (forall u :: 0 <= u < |ts| ==> OnCourse(programs[u], ts[u]))
    requires t < |ts| && OnCourse(programs[t], th)
    ensures SumCloses(programs, ts[t := th], c) ==
            SumCloses(programs, ts, c) - Closes(programs[t], ts[t], c) + Closes(programs[t], th, c)
    decreases |ts|
  {
    assert forall u :: 0 <= u < |ts[1..]| ==> OnCourse(programs[1..][u], ts[1..][u]);
    if t == 0 {
      assert ts[t := th][1..] == ts[1..];
    } else {
      assert ts[t := th][1..] == ts[1..][t - 1 := th];
      SumClosesUpdate(programs[1..], ts[1..], t - 1, th, c);
    }
  }

  lemma ClosedByAppend(calls: seq<Call>, results: seq<Result>, r: Result, c: nat)
    requires |results| < |calls|
    ensures ClosedBy(calls, results + [r], c) ==
            ClosedBy(calls, results, c) +
            if calls[|results|] == CloseCall(c) && r == CloseResult(SUCCESS) then 1 else 0
  {
    assert (results + [r])[..|results|] == results;
  }

  lemma CloseCallStep(program: seq<Call>, th: Thread, ch: Chan, c: nat)
    requires OnCourse(program, th) && th.frame.CloseFrame?
    requires OnCourse(program, CloseThread(th, ch))
    ensures Closes(program, CloseThread(th, ch), c) ==
            Closes(program, th, c) + if th.frame == CloseFrame(c, CloseCheck) && !ch.closed then 1 else 0
  {
    var th' := CloseThread(th, ch);
    if th'.frame.Idle? {
      ClosedByAppend(program, th.results, th'.results[|th.results|], c);
    } else {
      assert th'.results == th.results;
    }
  }

  /** No other call counts as a close. */
  lemma OtherCallStep(program: seq<Call>, th: Thread, th': Thread, c: nat)
    requires OnCourse(program, th) && OnCourse(program, th') && !th.frame.CloseFrame? && !Closing(th'.frame, c)
    requires th'.results == th.results || (!th.frame.Idle? && exists r :: th'.results == th.results + [r])
    ensures Closes(program, th', c) == Closes(program, th, c)
  {
    if th'.results != th.results {
      ClosedByAppend(program, th.results, th'.results[|th.results|], c);
    }
  }

  /** A step adds at most one result. */
  lemma OneMoreResult(th: Thread, chans: seq<Chan>)
    requires ValidThread(th, |chans|) && (th.frame.Idle? ==> th.todo != []) && Touched(th.frame) < |chans|
    requires !th.frame.CloseFrame?
    ensures var th' := NextThread(th, chans);
      && (th'.results == th.results || (!th.frame.Idle? && exists r :: th'.results == th.results + [r]))
      && forall c: nat :: !Closing(th'.frame, c)
  {
  }

  /** Only the step that sets `closed` changes the number of closes. */
  lemma ClosesStep(program: seq<Call>, th: Thread, chans: seq<Chan>, c: nat)
    requires OnCourse(program, th) && ValidThread(th, |chans|) && (th.frame.Idle? ==> th.todo != [])
    requires c < |chans| && OnCourse(program, NextThread(th, chans))
    ensures Closes(program, NextThread(th, chans), c) ==
            Closes(program, th, c) +
            if th.frame == CloseFrame(c, CloseCheck) && !chans[c].closed then 1 else 0
  {
    if th.frame.CloseFrame? {
      CloseCallStep(program, th, chans[th.frame.cch], c);
    } else {
      OneMoreResult(th, chans);
      OtherCallStep(program, th, NextThread(th, chans), c);
    }
  }

  lemma ClosesStateStep(s: State, t: nat, programs: seq<seq<Call>>, c: nat)
    requires Inv(s) && t < |s.threads| == |programs| && Enabled(s, t) && c < |s.chans|
    requires forall u :: 0 <= u < |programs| ==> OnCourse(programs[u], s.threads[u])
    requires SumCloses(programs, s.threads, c) == if s.chans[c].closed then 1 else 0
    ensures forall u :: 0 <= u < |programs| ==> OnCourse(programs[u], Next(s, t).threads[u])
    ensures SumCloses(programs, Next(s, t).threads, c) == if Next(s, t).chans[c].closed then 1 else 0
  {
    var th := s.threads[t];
    assert ValidThread(th, |s.chans|);
    forall u | 0 <= u < |programs| ensures OnCourse(programs[u], Next(s, t).threads[u]) {
      OnCourseStep(s, t, u, programs[u]);
    }
    assert Next(s, t).threads[t] == NextThread(th, s.chans);
    SumClosesUpdate(programs, s.threads, t, NextThread(th, s.chans), c);
    ClosesStep(programs[t], th, s.chans, c);
    ClosedFlagStep(s.chans[c], th.frame, t);
  }

  lemma ClosedFlagStep(ch: Chan, f: Frame, t: nat)
    ensures NextChan(f, ch, t).closed <==> ch.closed || (f.CloseFrame? && f.cpc.CloseCheck?)
  {
  }

  lemma {:induction false} ClosesRun(s: State, schedule: seq<nat>, s': State, programs: seq<seq<Call>>, c: nat)
    requires Inv(s) && Run(s, schedule, s') && |s.threads| == |programs| && c < |s.chans|
    requires forall u :: 0 <= u < |programs| ==> OnCourse(programs[u], s.threads[u])
    requires SumCloses(programs, s.threads, c) == if s.chans[c].closed then 1 else 0
    ensures |s'.threads| == |programs| && c < |s'.chans|
    ensures forall u :: 0 <= u < |programs| ==> OnCourse(programs[u], s'.threads[u])
    ensures SumCloses(programs, s'.threads, c) == if s'.chans[c].closed then 1 else 0
    decreases |schedule|
  {
    if schedule != [] {
      ClosesStateStep(s, schedule[0], programs, c);
      InvStep(s, schedule[0]);
      ClosesRun(Next(s, schedule[0]), schedule[1..], s', programs, c);
    }
  }

  lemma {:induction false} NoClosesYet(programs: seq<seq<Call>>, ts: seq<Thread>, c: nat)
    requires |programs| == |ts| && forall t :: 0 <= t < |ts| ==> ts[t] == Thread(programs[t], Idle, [])
    ensures forall t :: 0 <= t < |ts| ==> OnCourse(programs[t], ts[t])
    ensures SumCloses(programs, ts, c) == 0
    decreases |ts|
  {
    if ts != [] { NoClosesYet(programs[1..], ts[1..], c); }
  }

  /** A closed channel was closed by exactly one of all close calls, which reports
      SUCCESS or is bound to; on an open channel there is none. */
  lemma OneCloseSucceeds(capacities: seq<nat>, programs: seq<seq<Call>>, s: State, c: nat)
    requires Reachable(capacities, programs, s) && c < |s.chans|
    ensures |s.threads| == |programs| && forall u :: 0 <= u < |programs| ==> OnCourse(programs[u], s.threads[u])
    ensures SumCloses(programs, s.threads, c) == if s.chans[c].closed then 1 else 0
  {
    var s0 := Init(capacities, programs);
    var schedule :| Run(s0, schedule, s);
    InitInv(capacities, programs);
    RunKeepsSize(s0, schedule, s);
    NoClosesYet(programs, s0.threads, c);
    ClosesRun(s0, schedule, s, programs, c);
  }
}
