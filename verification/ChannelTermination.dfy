/** Every run of a finite program is finite.

    Each thread carries energy: an upper bound on the steps it can still take
    until it sleeps or ends, plus `price` for every post to a select semaphore it
    can still make.  A token already posted is worth `price` too; waking up costs
    one token and buys at most one more round. */
module ChannelTermination {
  import opened ChannelModel
  import opened ChannelTokens
  import opened ChannelWakeups
  import opened ChannelTheorems

  function Minus(a: nat, b: nat): nat {
    if b < a then a - b else 0
  }

  /** Steps an operation still needs, when the waiter lists have at most T elements. */
  function OpSteps(pc: OpPc, T: nat): nat {
    match pc
    case Acquire => T + 8
    case FailLock => 4
    case FailCheck => 3
    case FailOpen => 1
    case FailClosed => 2
    case FailPost => 1
    case Lock => T + 7
    case Crit => T + 6
    case ErrUnlock => 1
    case ClosedUnlock => 2
    case ClosedPost => 1
    case Unlock => T + 5
    case PostOther => T + 4
    case ListLock => T + 3
    case Notify(k) => 2 + Minus(T, k)
    case ListUnlock => 1
  }

  function CloseSteps(pc: ClosePc, T: nat): nat {
    match pc
    case CloseLock => 2 * T + 11
    case CloseCheck => 2 * T + 10
    case AlreadyClosed => 1
    case PostAvailable => 2 * T + 9
    case PostUsed => 2 * T + 8
    case CloseUnlock => 2 * T + 7
    case CloseListLock(side) => if side == Recv then 2 * T + 6 else T + 3
    case CloseNotify(side, k) => (if side == Recv then T + 5 else 2) + Minus(T, k)
    case CloseListUnlock(side) => if side == Recv then T + 4 else 1
  }

  /** Steps for n entries of a select round, each tried once. */
  function RoundSteps(n: nat, T: nat): nat {
    if n == 0 then 0 else T + 8 + RoundSteps(n - 1, T)
  }

  function FrameSteps(f: Frame, T: nat): nat {
    match f
    case Idle => 0
    case OpFrame(_, _, _, pc, Direct(_)) => OpSteps(pc, T)
    case OpFrame(_, _, _, pc, InSelect(es, i)) =>
      OpSteps(pc, T) + RoundSteps(Minus(|es|, i + 1), T) + 3 * |es| + 1
    case CloseFrame(_, pc) => CloseSteps(pc, T)
    case SelectFrame(es, pc) =>
      match pc
      case RegLock(i) => 3 * Minus(|es|, i) + RoundSteps(|es|, T) + 3 * |es| + 2
      case RegInsert(i) => 3 * Minus(|es|, i + 1) + 2 + RoundSteps(|es|, T) + 3 * |es| + 2
      case RegUnlock(i) => 3 * Minus(|es|, i + 1) + 1 + RoundSteps(|es|, T) + 3 * |es| + 2
      case Sleep => 0
      case UnregLock(i, _) => 3 * Minus(|es|, i)
      case UnregRemove(i, _) => 3 * Minus(|es|, i + 1) + 2
      case UnregUnlock(i, _) => 3 * Minus(|es|, i + 1) + 1
  }

  /** Posts to select semaphores a frame can still make. */
  function FramePosts(f: Frame, T: nat): nat {
    match f
    case Idle => 0
    case OpFrame(_, _, _, pc, _) =>
      (match pc
       case Notify(k) => Minus(T, k)
       case ListUnlock => 0
       case ErrUnlock => 0
       case ClosedUnlock => 0
       case ClosedPost => 0
       case FailClosed => 0
       case FailPost => 0
       case _ => T)
    case CloseFrame(_, pc) =>
      (match pc
       case AlreadyClosed => 0
       case CloseListLock(side) => if side == Recv then 2 * T else T
       case CloseNotify(side, k) => (if side == Recv then T else 0) + Minus(T, k)
       case CloseListUnlock(side) => if side == Recv then T else 0
       case _ => 2 * T)
    case SelectFrame(_, pc) => if pc.UnregLock? || pc.UnregRemove? || pc.UnregUnlock? then 0 else T
  }

  function CallSteps(call: Call, T: nat): nat { 1 + FrameSteps(StartFrame(call), T) }

  function CallPosts(call: Call, T: nat): nat { FramePosts(StartFrame(call), T) }

  function TodoSteps(todo: seq<Call>, T: nat): nat {
    if todo == [] then 0 else CallSteps(todo[0], T) + TodoSteps(todo[1..], T)
  }

  function TodoPosts(todo: seq<Call>, T: nat): nat {
    if todo == [] then 0 else CallPosts(todo[0], T) + TodoPosts(todo[1..], T)
  }

  function Steps(th: Thread, T: nat): nat { FrameSteps(th.frame, T) + TodoSteps(th.todo, T) }

  function Posts(th: Thread, T: nat): nat { FramePosts(th.frame, T) + TodoPosts(th.todo, T) }

  function SumSteps(ts: seq<Thread>, T: nat): nat {
    if ts == [] then 0 else Steps(ts[0], T) + SumSteps(ts[1..], T)
  }

  function SumPosts(ts: seq<Thread>, T: nat): nat {
    if ts == [] then 0 else Posts(ts[0], T) + SumPosts(ts[1..], T)
  }

  function SumOf(local: seq<nat>): nat {
    if local == [] then 0 else local[0] + SumOf(local[1..])
  }

  lemma {:induction false} SumsUpdate(ts: seq<Thread>, t: nat, th: Thread, T: nat)
    requires t < |ts|
    ensures SumSteps(ts[t := th], T) == SumSteps(ts, T) - Steps(ts[t], T) + Steps(th, T)
    ensures SumPosts(ts[t := th], T) == SumPosts(ts, T) - Posts(ts[t], T) + Posts(th, T)
  {
    if t == 0 {
      assert ts[t := th][1..] == ts[1..];
    } else {
      assert ts[t := th][1..] == ts[1..][t - 1 := th];
      SumsUpdate(ts[1..], t - 1, th, T);
    }
  }

  lemma {:induction false} SumOfUpdate(local: seq<nat>, t: nat, n: nat)
    requires t < |local|
    ensures SumOf(local[t := n]) == SumOf(local) - local[t] + n
  {
    if t == 0 {
      assert local[t := n][1..] == local[1..];
    } else {
      assert local[t := n][1..] == local[1..][t - 1 := n];
      SumOfUpdate(local[1..], t - 1, n);
    }
  }

  lemma {:induction false} ListBound(ws: seq<nat>, T: nat)
    requires NoDup(ws) && ValidWaiters(ws, T)
    ensures |ws| <= T
    decreases T
  {
    if ws != [] {
      assert ws[0] < T;
      if T - 1 in ws {
        RemoveFirstOk(ws, T - 1);
        var rest := RemoveFirst(ws, T - 1);
        RemoveFirstLength(ws, T - 1);
        forall k | 0 <= k < |rest| ensures rest[k] < T - 1 {
          assert rest[k] in rest;
          assert rest[k] in ws;
        }
        ListBound(rest, T - 1);
      } else {
        ListBound(ws, T - 1);
      }
    }
  }

  lemma RemoveFirstLength(ws: seq<nat>, t: nat)
    requires t in ws
    ensures |RemoveFirst(ws, t)| == |ws| - 1
  {
  }

  // ---------------------------------------------------------------- select widths

  ghost predicate Fits(call: Call, m: nat) {
    call.SelectCall? ==> |call.entries| <= m
  }

  ghost predicate ThreadFits(th: Thread, m: nat) {
    |EntriesOf(th.frame)| <= m && forall j :: 0 <= j < |th.todo| ==> Fits(th.todo[j], m)
  }

  ghost predicate AllFit(s: State, m: nat) {
    forall t :: 0 <= t < |s.threads| ==> ThreadFits(s.threads[t], m)
  }

  lemma FitsStep(th: Thread, chans: seq<Chan>, m: nat)
    requires ValidThread(th, |chans|) && (th.frame.Idle? ==> th.todo != []) && ThreadFits(th, m)
    ensures ThreadFits(NextThread(th, chans), m)
  {
    if th.frame.OpFrame? { OpFitsStep(th, chans[th.frame.ch], m); }
  }

  lemma OpFitsStep(th: Thread, ch: Chan, m: nat)
    requires th.frame.OpFrame? && ThreadFits(th, m)
    requires th.frame.caller.InSelect? ==> th.frame.caller.i < |th.frame.caller.entries|
    ensures ThreadFits(OpThread(th, ch), m)
  {
  }

  lemma RoundStepsMonotone(n: nat, m: nat, T: nat)
    requires n <= m
    ensures RoundSteps(n, T) <= RoundSteps(m, T)
  {
  }

  // ---------------------------------------------------------------- the measure

  /** More than the steps of one select round over at most m entries. */
  function Price(m: nat, T: nat): nat { RoundSteps(m, T) + 3 * m + 2 }

  function Energy(posts: nat, price: nat, steps: nat): nat { posts * price + steps }

  function MeasureWith(s: State, price: nat): nat {
    var T := |s.threads|;
    Energy(SumPosts(s.threads, T) + SumOf(s.local), price, SumSteps(s.threads, T))
  }

  function Measure(s: State, m: nat): nat { MeasureWith(s, Price(m, |s.threads|)) }

  /** Every step but a wakeup costs a step; a post moves from the thread to the
      semaphore. */
  lemma OpEnergy(th: Thread, ch: Chan, T: nat)
    requires th.frame.OpFrame?
    requires th.frame.caller.InSelect? ==> th.frame.caller.i < |th.frame.caller.entries|
    requires forall side :: |ch.Waiters(side)| <= T
    ensures Steps(OpThread(th, ch), T) < Steps(th, T)
    ensures Posts(OpThread(th, ch), T) + (if Posted(th.frame, ch) >= 0 then 1 else 0) <= Posts(th, T)
  {
    if OpReturns(th.frame.pc, th.frame.side) {
      var f := th.frame;
      assert OpThread(th, ch) == Return(th, ReturnStatus(f.pc));
      if f.caller.InSelect? { ReturnEnergy(th, ReturnStatus(f.pc), T); }
    } else {
      OpInnerSteps(th, ch, T);
      OpInnerPosts(th, ch, T);
    }
  }

  lemma OpInnerSteps(th: Thread, ch: Chan, T: nat)
    requires th.frame.OpFrame? && !OpReturns(th.frame.pc, th.frame.side)
    requires th.frame.caller.InSelect? ==> th.frame.caller.i < |th.frame.caller.entries|
    requires forall side :: |ch.Waiters(side)| <= T
    ensures OpThread(th, ch).frame.OpFrame? && OpThread(th, ch).todo == th.todo
    ensures OpThread(th, ch).frame.caller == th.frame.caller
    ensures OpSteps(OpThread(th, ch).frame.pc, T) < OpSteps(th.frame.pc, T)
  {
  }

  lemma OpInnerPosts(th: Thread, ch: Chan, T: nat)
    requires th.frame.OpFrame? && !OpReturns(th.frame.pc, th.frame.side)
    requires th.frame.caller.InSelect? ==> th.frame.caller.i < |th.frame.caller.entries|
    requires forall side :: |ch.Waiters(side)| <= T
    ensures FramePosts(OpThread(th, ch).frame, T) + (if Posted(th.frame, ch) >= 0 then 1 else 0) <=
              FramePosts(th.frame, T)
  {
  }

  lemma ReturnEnergy(th: Thread, status: Status, T: nat)
    requires th.frame.OpFrame? && th.frame.caller.InSelect? && th.frame.caller.i < |th.frame.caller.entries|
    ensures var th' := Return(th, status);
            var InSelect(es, i) := th.frame.caller;
            FrameSteps(th'.frame, T) <= RoundSteps(Minus(|es|, i + 1), T) + 3 * |es| + 1 &&
            FramePosts(th'.frame, T) <= (if status == WOULDBLOCK then T else 0)
  {
  }

  lemma CloseStepsFall(th: Thread, ch: Chan, T: nat)
    requires th.frame.CloseFrame?
    requires forall side :: |ch.Waiters(side)| <= T
    ensures FrameSteps(CloseThread(th, ch).frame, T) < FrameSteps(th.frame, T)
  {
  }

  lemma ClosePostsFall(th: Thread, ch: Chan, T: nat)
    requires th.frame.CloseFrame?
    requires forall side :: |ch.Waiters(side)| <= T
    ensures FramePosts(CloseThread(th, ch).frame, T) + (if Posted(th.frame, ch) >= 0 then 1 else 0) <=
              FramePosts(th.frame, T)
  {
  }

  lemma CloseEnergy(th: Thread, ch: Chan, T: nat)
    requires th.frame.CloseFrame?
    requires forall side :: |ch.Waiters(side)| <= T
    ensures Steps(CloseThread(th, ch), T) < Steps(th, T)
    ensures Posts(CloseThread(th, ch), T) + (if Posted(th.frame, ch) >= 0 then 1 else 0) <= Posts(th, T)
  {
    CloseStepsFall(th, ch, T);
    ClosePostsFall(th, ch, T);
    assert CloseThread(th, ch).todo == th.todo;
  }

  lemma SelectEnergy(th: Thread, T: nat)
    requires th.frame.SelectFrame? && |th.frame.es| > 0
    requires var pc := th.frame.spc;
             (pc.RegLock? || pc.RegInsert? || pc.RegUnlock? || pc.UnregLock? || pc.UnregRemove? || pc.UnregUnlock?) ==>
               pc.i < |th.frame.es|
    ensures Posts(SelectThread(th), T) <= Posts(th, T)
    ensures if th.frame.spc.Sleep? then
              Steps(SelectThread(th), T) <= RoundSteps(|th.frame.es|, T) + 3 * |th.frame.es| + 1 + Steps(th, T)
            else Steps(SelectThread(th), T) < Steps(th, T)
  {
  }

  lemma ThreadEnergy(th: Thread, chans: seq<Chan>, T: nat)
    requires ValidThread(th, |chans|) && (th.frame.Idle? ==> th.todo != [])
    requires forall c, side :: 0 <= c < |chans| ==> |chans[c].Waiters(side)| <= T
    requires !(th.frame.SelectFrame? && th.frame.spc.Sleep?)
    ensures Steps(NextThread(th, chans), T) < Steps(th, T)
    ensures Posts(NextThread(th, chans), T) +
            (if Touched(th.frame) >= 0 && Posted(th.frame, chans[Touched(th.frame)]) >= 0 then 1 else 0) <= Posts(th, T)
  {
    match th.frame
    case Idle =>
    case OpFrame(_, c, _, _, _) => OpEnergy(th, chans[c], T);
    case CloseFrame(c, _) => CloseEnergy(th, chans[c], T);
    case SelectFrame(_, _) => SelectEnergy(th, T);
  }

  /** Tokens in the select semaphores come only from posts. */
  lemma LocalEnergy(s: State, t: nat)
    requires Valid(s) && t < |s.threads| && Enabled(s, t)
    ensures var f := s.threads[t].frame;
            SumOf(Next(s, t).local) <=
              SumOf(s.local) + (if 0 <= Touched(f) && Posted(f, s.chans[Touched(f)]) >= 0 then 1 else 0)
    ensures s.threads[t].frame.SelectFrame? && s.threads[t].frame.spc.Sleep? ==>
            SumOf(Next(s, t).local) == SumOf(s.local) - 1
  {
    var f := s.threads[t].frame;
    SumOfUpdate(s.local, t, 0);
    if s.local[t] > 0 { SumOfUpdate(s.local, t, s.local[t] - 1); }
    if 0 <= Touched(f) {
      var p := Posted(f, s.chans[Touched(f)]);
      if 0 <= p < |s.local| { SumOfUpdate(s.local, p, s.local[p] + 1); }
    }
  }

  lemma ListsBounded(s: State)
    requires Valid(s) && ListInv(s)
    ensures forall c, side :: 0 <= c < |s.chans| ==> |s.chans[c].Waiters(side)| <= |s.threads|
  {
    forall c, side | 0 <= c < |s.chans| ensures |s.chans[c].Waiters(side)| <= |s.threads| {
      assert ListOk(s, c, side);
      ListBound(s.chans[c].Waiters(side), |s.threads|);
    }
  }

  lemma Weighted(q: nat, q': nat, p: nat, a: nat, a': nat)
    requires (q' <= q && a' < a) || (q' < q && a' < a + p)
    ensures Energy(q', p, a') < Energy(q, p, a)
  {
    if q' < q {
      assert (q' + 1) * p <= q * p;
      assert (q' + 1) * p == q' * p + p;
    } else {
      assert q' == q;
    }
  }

  lemma EnergyStep(s: State, t: nat, m: nat)
    requires Inv(s) && t < |s.threads| && Enabled(s, t) && ThreadFits(s.threads[t], m)
    ensures var T := |s.threads|;
            var s' := Next(s, t);
            var q, q' := SumPosts(s.threads, T) + SumOf(s.local), SumPosts(s'.threads, T) + SumOf(s'.local);
            (q' <= q && SumSteps(s'.threads, T) < SumSteps(s.threads, T)) ||
            (q' < q && SumSteps(s'.threads, T) < SumSteps(s.threads, T) + Price(m, T))
  {
    var T := |s.threads|;
    var th := s.threads[t];
    assert ValidThread(th, |s.chans|);
    ListsBounded(s);
    SumsUpdate(s.threads, t, NextThread(th, s.chans), T);
    LocalEnergy(s, t);
    if th.frame.SelectFrame? && th.frame.spc.Sleep? {
      SelectEnergy(th, T);
      RoundStepsMonotone(|th.frame.es|, m, T);
    } else {
      ThreadEnergy(th, s.chans, T);
    }
  }

  lemma AllFitStep(s: State, t: nat, m: nat)
    requires Valid(s) && AllFit(s, m) && t < |s.threads| && Enabled(s, t)
    ensures AllFit(Next(s, t), m)
  {
    assert ThreadFits(s.threads[t], m) && ValidThread(s.threads[t], |s.chans|);
    FitsStep(s.threads[t], s.chans, m);
  }

  lemma MeasureLess(s: State, s': State, price: nat)
    requires |s'.threads| == |s.threads|
    requires var T := |s.threads|;
             var q, q' := SumPosts(s.threads, T) + SumOf(s.local), SumPosts(s'.threads, T) + SumOf(s'.local);
             (q' <= q && SumSteps(s'.threads, T) < SumSteps(s.threads, T)) ||
             (q' < q && SumSteps(s'.threads, T) < SumSteps(s.threads, T) + price)
    ensures MeasureWith(s', price) < MeasureWith(s, price)
  {
    var T := |s.threads|;
    Weighted(SumPosts(s.threads, T) + SumOf(s.local), SumPosts(s'.threads, T) + SumOf(s'.local), price,
             SumSteps(s.threads, T), SumSteps(s'.threads, T));
  }

  /** Every step of every thread lowers the measure. */
  lemma MeasureStep(s: State, t: nat, m: nat)
    requires Inv(s) && AllFit(s, m) && t < |s.threads| && Enabled(s, t)
    ensures Measure(Next(s, t), m) < Measure(s, m)
  {
    assert ThreadFits(s.threads[t], m);
    EnergyStep(s, t, m);
    MeasureLess(s, Next(s, t), Price(m, |s.threads|));
  }

  lemma {:induction false} RunBounded(s: State, schedule: seq<nat>, s': State, m: nat)
    requires Inv(s) && AllFit(s, m) && Run(s, schedule, s')
    ensures |schedule| <= Measure(s, m)
    decreases |schedule|
  {
    if schedule != [] {
      MeasureStep(s, schedule[0], m);
      AllFitStep(s, schedule[0], m);
      InvStep(s, schedule[0]);
      RunBounded(Next(s, schedule[0]), schedule[1..], s', m);
    }
  }

  // ---------------------------------------------------------------- all programs

  function Widest(calls: seq<Call>): nat {
    if calls == [] then 0
    else
      var w := Widest(calls[1..]);
      if calls[0].SelectCall? && |calls[0].entries| > w then |calls[0].entries| else w
  }

  function WidestOf(programs: seq<seq<Call>>): nat {
    if programs == [] then 0
    else
      var w, v := Widest(programs[0]), WidestOf(programs[1..]);
      if w > v then w else v
  }

  lemma {:induction false} WidestFits(calls: seq<Call>, j: nat)
    requires j < |calls|
    ensures Fits(calls[j], Widest(calls))
  {
    if j > 0 { WidestFits(calls[1..], j - 1); }
  }

  lemma {:induction false} WidestOfFits(programs: seq<seq<Call>>, t: nat)
    requires t < |programs|
    ensures Widest(programs[t]) <= WidestOf(programs)
  {
    if t > 0 { WidestOfFits(programs[1..], t - 1); }
  }

  /** Every run of finitely many send, receive, close and select calls is finite:
      no schedule is longer than the measure of the initial state. */
  lemma RunsAreFinite(capacities: seq<nat>, programs: seq<seq<Call>>, schedule: seq<nat>, s: State)
    requires ValidPrograms(capacities, programs) && Valid(Init(capacities, programs))
    requires Run(Init(capacities, programs), schedule, s)
    ensures |schedule| <= Measure(Init(capacities, programs), WidestOf(programs))
  {
    var s0 := Init(capacities, programs);
    InitInv(capacities, programs);
    forall t | 0 <= t < |s0.threads| ensures ThreadFits(s0.threads[t], WidestOf(programs)) {
      WidestOfFits(programs, t);
      forall j | 0 <= j < |programs[t]| ensures Fits(programs[t][j], WidestOf(programs)) {
        WidestFits(programs[t], j);
      }
    }
    RunBounded(s0, schedule, s, WidestOf(programs));
  }
}
