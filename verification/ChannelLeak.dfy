/** What goes wrong when a program does send BUFFER_EMPTY: the receive that gets
    it reports OTHER_ERROR and never gives the slot back, so a later send waits
    for ever on an empty channel. */
module ChannelLeak {
  import opened Fifo
  import opened ChannelModel
  import opened ChannelTheorems

  lemma {:induction false} ThenStep(s: State, schedule: seq<nat>, s': State, t: nat)
    requires Valid(s) && Run(s, schedule, s') && Valid(s') && t < |s'.threads| && Enabled(s', t)
    ensures Valid(Next(s', t)) && Run(s, schedule + [t], Next(s', t))
    decreases |schedule|
  {
    NextIsValid(s', t);
    if schedule == [] {
      assert ([t] + [])[1..] == [];
      assert schedule + [t] == [t];
    } else {
      ThenStep(Next(s, schedule[0]), schedule[1..], s', t);
      assert (schedule + [t])[1..] == schedule[1..] + [t];
    }
  }

  /** One channel of capacity 1, one thread: send BUFFER_EMPTY, receive, send 7. */
  const PROGRAM: seq<Call> := [OpCall(Send, 0, BUFFER_EMPTY, true), OpCall(Recv, 0, 0, true), OpCall(Send, 0, 7, true)]

  function Solo(ch: Chan, th: Thread): State {
    State([ch], [th], [0])
  }

  /** The one-thread state is reached by some run from s0. */
  ghost predicate At(s0: State, ch: Chan, th: Thread) {
    Valid(s0) && Valid(Solo(ch, th)) && exists schedule: seq<nat> :: Run(s0, schedule, Solo(ch, th))
  }

  /** The only thread moves. */
  lemma MoveStep(s0: State, ch: Chan, th: Thread, ch': Chan, th': Thread)
    requires At(s0, ch, th) && Enabled(Solo(ch, th), 0) && Next(Solo(ch, th), 0) == Solo(ch', th')
    ensures At(s0, ch', th')
  {
    var schedule: seq<nat> :| Run(s0, schedule, Solo(ch, th));
    ThenStep(s0, schedule, Solo(ch, th), 0);
  }

  lemma StartStep(s0: State, ch: Chan, call: Call, todo: seq<Call>, results: seq<Result>)
    requires At(s0, ch, Thread([call] + todo, Idle, results)) && call.OpCall?
    ensures At(s0, ch, Thread(todo, StartFrame(call), results))
  {
    var th := Thread([call] + todo, Idle, results);
    assert th.todo[1..] == todo;
    assert Next(Solo(ch, th), 0) == Solo(ch, Thread(todo, StartFrame(call), results));
    MoveStep(s0, ch, th, ch, Thread(todo, StartFrame(call), results));
  }

  function SoloChan(mutex: nat, available: nat, used: nat, sendLock: nat, buffer: seq<Message>, added: seq<Message>,
                    removed: seq<Message>): Chan {
    Chan(1, buffer, false, mutex, available, used, sendLock, 1, [], [], added, removed)
  }

  function Doing(side: Side, msg: Message, pc: OpPc, todo: seq<Call>, results: seq<Result>): Thread {
    Thread(todo, OpFrame(side, 0, msg, pc, Direct(true)), results)
  }

  /** A step of the operation of the only thread. */
  ghost predicate Goes(ch: Chan, th: Thread, ch': Chan, th': Thread) {
    && th.frame.OpFrame? && th.frame.ch == 0 && th.frame.caller.Direct?
    && OpEnabled(ch, th.frame.side, th.frame.pc, th.frame.caller) && ch.sendList == [] && ch.recvList == []
    && ch' == OpChan(ch, th.frame.side, th.frame.msg, th.frame.pc) && th' == OpThread(th, ch)
  }

  lemma OpStep(s0: State, ch: Chan, th: Thread, ch': Chan, th': Thread)
    requires At(s0, ch, th) && Goes(ch, th, ch', th')
    ensures At(s0, ch', th')
  {
    assert Next(Solo(ch, th), 0) == Solo(ch', th');
    MoveStep(s0, ch, th, ch', th');
  }

  lemma SendEntersFirst(todo: seq<Call>)
    ensures Goes(SoloChan(1, 1, 0, 1, [], [], []), Doing(Send, BUFFER_EMPTY, Acquire, todo, []),
                 SoloChan(1, 0, 0, 1, [], [], []), Doing(Send, BUFFER_EMPTY, Lock, todo, []))
  {
  }

  lemma SendEntersSecond(todo: seq<Call>)
    ensures Goes(SoloChan(1, 0, 0, 1, [], [], []), Doing(Send, BUFFER_EMPTY, Lock, todo, []),
                 SoloChan(0, 0, 0, 1, [], [], []), Doing(Send, BUFFER_EMPTY, Crit, todo, []))
  {
  }

  lemma SendEnters(s0: State, todo: seq<Call>)
    requires At(s0, SoloChan(1, 1, 0, 1, [], [], []), Doing(Send, BUFFER_EMPTY, Acquire, todo, []))
    ensures At(s0, SoloChan(0, 0, 0, 1, [], [], []), Doing(Send, BUFFER_EMPTY, Crit, todo, []))
  {
    SendEntersFirst(todo);
    SendEntersSecond(todo);
    OpStep(s0, SoloChan(1, 1, 0, 1, [], [], []), Doing(Send, BUFFER_EMPTY, Acquire, todo, []),
           SoloChan(1, 0, 0, 1, [], [], []), Doing(Send, BUFFER_EMPTY, Lock, todo, []));
    OpStep(s0, SoloChan(1, 0, 0, 1, [], [], []), Doing(Send, BUFFER_EMPTY, Lock, todo, []),
           SoloChan(0, 0, 0, 1, [], [], []), Doing(Send, BUFFER_EMPTY, Crit, todo, []));
  }

  lemma SendIntoBufferFirst(b: seq<Message>, todo: seq<Call>)
    requires b == [BUFFER_EMPTY]
    ensures Goes(SoloChan(0, 0, 0, 1, [], [], []), Doing(Send, BUFFER_EMPTY, Crit, todo, []),
                 SoloChan(0, 0, 0, 1, b, b, []), Doing(Send, BUFFER_EMPTY, Unlock, todo, []))
  {
    assert [] + [BUFFER_EMPTY] == b;
  }

  lemma SendIntoBufferSecond(b: seq<Message>, todo: seq<Call>)
    ensures Goes(SoloChan(0, 0, 0, 1, b, b, []), Doing(Send, BUFFER_EMPTY, Unlock, todo, []),
                 SoloChan(1, 0, 0, 1, b, b, []), Doing(Send, BUFFER_EMPTY, PostOther, todo, []))
  {
  }

  lemma SendIntoBuffer(s0: State, b: seq<Message>, todo: seq<Call>)
    requires b == [BUFFER_EMPTY]
    requires At(s0, SoloChan(0, 0, 0, 1, [], [], []), Doing(Send, BUFFER_EMPTY, Crit, todo, []))
    ensures At(s0, SoloChan(1, 0, 0, 1, b, b, []), Doing(Send, BUFFER_EMPTY, PostOther, todo, []))
  {
    SendIntoBufferFirst(b, todo);
    SendIntoBufferSecond(b, todo);
    OpStep(s0, SoloChan(0, 0, 0, 1, [], [], []), Doing(Send, BUFFER_EMPTY, Crit, todo, []),
           SoloChan(0, 0, 0, 1, b, b, []), Doing(Send, BUFFER_EMPTY, Unlock, todo, []));
    OpStep(s0, SoloChan(0, 0, 0, 1, b, b, []), Doing(Send, BUFFER_EMPTY, Unlock, todo, []),
           SoloChan(1, 0, 0, 1, b, b, []), Doing(Send, BUFFER_EMPTY, PostOther, todo, []));
  }

  lemma SendNotifiesFirst(b: seq<Message>, todo: seq<Call>)
    ensures Goes(SoloChan(1, 0, 0, 1, b, b, []), Doing(Send, BUFFER_EMPTY, PostOther, todo, []),
                 SoloChan(1, 0, 1, 1, b, b, []), Doing(Send, BUFFER_EMPTY, ListLock, todo, []))
  {
  }

  lemma SendNotifiesSecond(b: seq<Message>, todo: seq<Call>)
    ensures Goes(SoloChan(1, 0, 1, 1, b, b, []), Doing(Send, BUFFER_EMPTY, ListLock, todo, []),
                 SoloChan(1, 0, 1, 0, b, b, []), Doing(Send, BUFFER_EMPTY, Notify(0), todo, []))
  {
  }

  lemma SendNotifies(s0: State, b: seq<Message>, todo: seq<Call>)
    requires At(s0, SoloChan(1, 0, 0, 1, b, b, []), Doing(Send, BUFFER_EMPTY, PostOther, todo, []))
    ensures At(s0, SoloChan(1, 0, 1, 0, b, b, []), Doing(Send, BUFFER_EMPTY, Notify(0), todo, []))
  {
    SendNotifiesFirst(b, todo);
    SendNotifiesSecond(b, todo);
    OpStep(s0, SoloChan(1, 0, 0, 1, b, b, []), Doing(Send, BUFFER_EMPTY, PostOther, todo, []),
           SoloChan(1, 0, 1, 1, b, b, []), Doing(Send, BUFFER_EMPTY, ListLock, todo, []));
    OpStep(s0, SoloChan(1, 0, 1, 1, b, b, []), Doing(Send, BUFFER_EMPTY, ListLock, todo, []),
           SoloChan(1, 0, 1, 0, b, b, []), Doing(Send, BUFFER_EMPTY, Notify(0), todo, []));
  }

  lemma SendReturnsFirst(b: seq<Message>, todo: seq<Call>)
    ensures Goes(SoloChan(1, 0, 1, 0, b, b, []), Doing(Send, BUFFER_EMPTY, Notify(0), todo, []),
                 SoloChan(1, 0, 1, 0, b, b, []), Doing(Send, BUFFER_EMPTY, ListUnlock, todo, []))
  {
  }

  lemma SendReturnsSecond(b: seq<Message>, todo: seq<Call>)
    ensures Goes(SoloChan(1, 0, 1, 0, b, b, []), Doing(Send, BUFFER_EMPTY, ListUnlock, todo, []),
                 SoloChan(1, 0, 1, 1, b, b, []), Thread(todo, Idle, [OpResult(SUCCESS, 0, Send, 0, BUFFER_EMPTY)]))
  {
  }

  lemma SendReturns(s0: State, b: seq<Message>, todo: seq<Call>)
    requires At(s0, SoloChan(1, 0, 1, 0, b, b, []), Doing(Send, BUFFER_EMPTY, Notify(0), todo, []))
    ensures At(s0, SoloChan(1, 0, 1, 1, b, b, []), Thread(todo, Idle, [OpResult(SUCCESS, 0, Send, 0, BUFFER_EMPTY)]))
  {
    SendReturnsFirst(b, todo);
    SendReturnsSecond(b, todo);
    OpStep(s0, SoloChan(1, 0, 1, 0, b, b, []), Doing(Send, BUFFER_EMPTY, Notify(0), todo, []),
           SoloChan(1, 0, 1, 0, b, b, []), Doing(Send, BUFFER_EMPTY, ListUnlock, todo, []));
    OpStep(s0, SoloChan(1, 0, 1, 0, b, b, []), Doing(Send, BUFFER_EMPTY, ListUnlock, todo, []),
           SoloChan(1, 0, 1, 1, b, b, []), Thread(todo, Idle, [OpResult(SUCCESS, 0, Send, 0, BUFFER_EMPTY)]));
  }

  lemma ReceiveEntersFirst(b: seq<Message>, todo: seq<Call>, r: Result)
    ensures Goes(SoloChan(1, 0, 1, 1, b, b, []), Doing(Recv, 0, Acquire, todo, [r]),
                 SoloChan(1, 0, 0, 1, b, b, []), Doing(Recv, 0, Lock, todo, [r]))
  {
  }

  lemma ReceiveEntersSecond(b: seq<Message>, todo: seq<Call>, r: Result)
    ensures Goes(SoloChan(1, 0, 0, 1, b, b, []), Doing(Recv, 0, Lock, todo, [r]),
                 SoloChan(0, 0, 0, 1, b, b, []), Doing(Recv, 0, Crit, todo, [r]))
  {
  }

  lemma ReceiveEnters(s0: State, b: seq<Message>, todo: seq<Call>, r: Result)
    requires At(s0, SoloChan(1, 0, 1, 1, b, b, []), Doing(Recv, 0, Acquire, todo, [r]))
    ensures At(s0, SoloChan(0, 0, 0, 1, b, b, []), Doing(Recv, 0, Crit, todo, [r]))
  {
    ReceiveEntersFirst(b, todo, r);
    ReceiveEntersSecond(b, todo, r);
    OpStep(s0, SoloChan(1, 0, 1, 1, b, b, []), Doing(Recv, 0, Acquire, todo, [r]),
           SoloChan(1, 0, 0, 1, b, b, []), Doing(Recv, 0, Lock, todo, [r]));
    OpStep(s0, SoloChan(1, 0, 0, 1, b, b, []), Doing(Recv, 0, Lock, todo, [r]),
           SoloChan(0, 0, 0, 1, b, b, []), Doing(Recv, 0, Crit, todo, [r]));
  }

  lemma ReceiveFailsFirst(b: seq<Message>, todo: seq<Call>, r: Result, e: Result)
    requires b == [BUFFER_EMPTY] && e == OpResult(OTHER_ERROR, 0, Recv, 0, BUFFER_EMPTY)
    ensures Goes(SoloChan(0, 0, 0, 1, b, b, []), Doing(Recv, 0, Crit, todo, [r]),
                 SoloChan(0, 0, 0, 1, [], b, b), Doing(Recv, BUFFER_EMPTY, ErrUnlock, todo, [r]))
  {
    assert [] + b == b && b[1..] == [] && [r] + [e] == [r, e];
  }

  lemma ReceiveFailsSecond(b: seq<Message>, todo: seq<Call>, r: Result, e: Result)
    requires b == [BUFFER_EMPTY] && e == OpResult(OTHER_ERROR, 0, Recv, 0, BUFFER_EMPTY)
    ensures Goes(SoloChan(0, 0, 0, 1, [], b, b), Doing(Recv, BUFFER_EMPTY, ErrUnlock, todo, [r]),
                 SoloChan(1, 0, 0, 1, [], b, b), Thread(todo, Idle, [r, e]))
  {
    assert [] + b == b && b[1..] == [] && [r] + [e] == [r, e];
  }

  lemma ReceiveFails(s0: State, b: seq<Message>, todo: seq<Call>, r: Result, e: Result)
    requires b == [BUFFER_EMPTY] && e == OpResult(OTHER_ERROR, 0, Recv, 0, BUFFER_EMPTY)
    requires At(s0, SoloChan(0, 0, 0, 1, b, b, []), Doing(Recv, 0, Crit, todo, [r]))
    ensures At(s0, SoloChan(1, 0, 0, 1, [], b, b), Thread(todo, Idle, [r, e]))
  {
    ReceiveFailsFirst(b, todo, r, e);
    ReceiveFailsSecond(b, todo, r, e);
    OpStep(s0, SoloChan(0, 0, 0, 1, b, b, []), Doing(Recv, 0, Crit, todo, [r]),
           SoloChan(0, 0, 0, 1, [], b, b), Doing(Recv, BUFFER_EMPTY, ErrUnlock, todo, [r]));
    OpStep(s0, SoloChan(0, 0, 0, 1, [], b, b), Doing(Recv, BUFFER_EMPTY, ErrUnlock, todo, [r]),
           SoloChan(1, 0, 0, 1, [], b, b), Thread(todo, Idle, [r, e]));
  }

  /** The first two calls and the start of the third. */
  lemma ThirdCallStarts(s0: State, rs: seq<Result>)
    requires rs == [OpResult(SUCCESS, 0, Send, 0, BUFFER_EMPTY), OpResult(OTHER_ERROR, 0, Recv, 0, BUFFER_EMPTY)]
    requires At(s0, SoloChan(1, 1, 0, 1, [], [], []), Thread(PROGRAM, Idle, []))
    ensures At(s0, SoloChan(1, 0, 0, 1, [], [BUFFER_EMPTY], [BUFFER_EMPTY]), Doing(Send, 7, Acquire, [], rs))
  {
    var b := [BUFFER_EMPTY];
    var last := [PROGRAM[2]];
    var rest := [PROGRAM[1]] + last;
    assert PROGRAM == [PROGRAM[0]] + rest && last == [PROGRAM[2]] + [];
    StartStep(s0, SoloChan(1, 1, 0, 1, [], [], []), PROGRAM[0], rest, []);
    SendEnters(s0, rest);
    SendIntoBuffer(s0, b, rest);
    SendNotifies(s0, b, rest);
    SendReturns(s0, b, rest);
    StartStep(s0, SoloChan(1, 0, 1, 1, b, b, []), PROGRAM[1], last, [rs[0]]);
    ReceiveEnters(s0, b, last, rs[0]);
    ReceiveFails(s0, b, last, rs[0], rs[1]);
    StartStep(s0, SoloChan(1, 0, 0, 1, [], b, b), PROGRAM[2], [], rs);
  }

  /** A reachable state at rest in which a blocking send waits although its
      channel is open and its buffer empty. */
  lemma EmptyMessageBlocksForEver() returns (s: State)
    ensures Reachable([1], [PROGRAM], s) && Valid(s) && Stuck(s) && |s.chans| == 1 && |s.threads| == 1
    ensures s.chans[0].buffer == [] && !s.chans[0].closed && s.chans[0].capacity == 1
    ensures s.threads[0].frame == OpFrame(Send, 0, 7, Acquire, Direct(true))
  {
    var s0 := Init([1], [PROGRAM]);
    InitIsValid([1], [PROGRAM]);
    var ch, th := SoloChan(1, 1, 0, 1, [], [], []), Thread(PROGRAM, Idle, []);
    assert s0 == Solo(ch, th);
    assert Run(s0, [], Solo(ch, th));
    var rs := [OpResult(SUCCESS, 0, Send, 0, BUFFER_EMPTY), OpResult(OTHER_ERROR, 0, Recv, 0, BUFFER_EMPTY)];
    ThirdCallStarts(s0, rs);
    s := Solo(SoloChan(1, 0, 0, 1, [], [BUFFER_EMPTY], [BUFFER_EMPTY]), Doing(Send, 7, Acquire, [], rs));
  }
}
