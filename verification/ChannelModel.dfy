/** The channel protocol of p3-concurrent-channels/channel.c as a state machine.

    Every semaphore operation, every access to the shared fields made under the
    mutex, every list operation made under a list lock and every single
    `sem_post` of `list_foreach` is one step of one thread.  A step is a
    function of the state and the thread that moves, so the scheduler's choice
    of a thread is the only non-determinism.
 */
module ChannelModel {
  import opened Fifo

  datatype Side = Send | Recv

  function Other(side: Side): Side {
    if side == Send then Recv else Send
  }

  datatype Status = SUCCESS | WOULDBLOCK | OTHER_ERROR | CLOSED_ERROR

  /** A channel.  `available` and `used` are the counting semaphores; `mutex`,
      `sendLock` and `recvLock` are 1 when free.  A select call that wants to
      receive waits in `sendList`, one that wants to send waits in `recvList`.
      `added` and `removed` are the history of the buffer. */
  datatype Chan = Chan(
    capacity: nat, buffer: seq<Message>, closed: bool,
    mutex: nat, available: nat, used: nat,
    sendLock: nat, recvLock: nat,
    sendList: seq<nat>, recvList: seq<nat>,
    added: seq<Message>, removed: seq<Message>)
  {
    /** The semaphore an operation of this side waits on. */
    function Tokens(side: Side): nat {
      if side == Send then available else used
    }

    function WithTokens(side: Side, n: nat): Chan {
      if side == Send then this.(available := n) else this.(used := n)
    }

    /** The waiter list of the select entries of this side, and its lock. */
    function Waiters(side: Side): seq<nat> {
      if side == Send then recvList else sendList
    }

    function WithWaiters(side: Side, ws: seq<nat>): Chan {
      if side == Send then this.(recvList := ws) else this.(sendList := ws)
    }

    function ListLock(side: Side): nat {
      if side == Send then recvLock else sendLock
    }

    function WithListLock(side: Side, n: nat): Chan {
      if side == Send then this.(recvLock := n) else this.(sendLock := n)
    }
  }

  function NewChan(capacity: nat): Chan {
    Chan(capacity, [], false, 1, capacity, 0, 1, 1, [], [], [], [])
  }

  datatype Entry = Entry(ch: nat, side: Side, msg: Message)

  datatype Call =
    | OpCall(side: Side, ch: nat, msg: Message, blocking: bool)
    | CloseCall(ch: nat)
    | SelectCall(entries: seq<Entry>)

  /** What a call returned, and on which operation it reports: for select, the
      selected entry; the message is the one sent or received. */
  datatype Result =
    | OpResult(status: Status, index: nat, side: Side, ch: nat, msg: Message)
    | CloseResult(status: Status)

  /** Who called channel_send or channel_receive: the program, or the select
      loop at entry `i`. */
  datatype Caller = Direct(blocking: bool) | InSelect(entries: seq<Entry>, i: nat)

  datatype OpPc =
    | Acquire        // sem_wait or sem_trywait on the operation's own semaphore
    | FailLock       // trywait failed: sem_wait(mutex)
    | FailCheck      // read `closed`
    | FailOpen       // sem_post(mutex), return WOULDBLOCK
    | FailClosed     // sem_post(mutex); a send returns CLOSED_ERROR
    | FailPost       // a receive first posts `used`
    | Lock           // sem_wait(mutex)
    | Crit           // read `closed`, buffer_add or buffer_remove
    | ErrUnlock      // sem_post(mutex), return OTHER_ERROR
    | ClosedUnlock   // sem_post(mutex)
    | ClosedPost     // sem_post on the own semaphore, return CLOSED_ERROR
    | Unlock         // sem_post(mutex)
    | PostOther      // sem_post on the other side's semaphore
    | ListLock       // pthread_mutex_lock of the waiter list
    | Notify(k: nat) // list_foreach: post the k-th waiter
    | ListUnlock     // pthread_mutex_unlock, return SUCCESS

  datatype ClosePc =
    | CloseLock | CloseCheck | AlreadyClosed
    | PostAvailable | PostUsed | CloseUnlock
    | CloseListLock(side: Side) | CloseNotify(side: Side, k: nat) | CloseListUnlock(side: Side)

  datatype SelectPc =
    | RegLock(i: nat) | RegInsert(i: nat) | RegUnlock(i: nat)
    | Sleep
    | UnregLock(i: nat, r: Result) | UnregRemove(i: nat, r: Result) | UnregUnlock(i: nat, r: Result)

  datatype Frame =
    | Idle
    | OpFrame(side: Side, ch: nat, msg: Message, pc: OpPc, caller: Caller)
    | CloseFrame(cch: nat, cpc: ClosePc)
    | SelectFrame(es: seq<Entry>, spc: SelectPc)

  datatype Thread = Thread(todo: seq<Call>, frame: Frame, results: seq<Result>)

  /** `local[t]` is the private semaphore of thread t's current select call. */
  datatype State = State(chans: seq<Chan>, threads: seq<Thread>, local: seq<nat>)

  // ---------------------------------------------------------------- validity

  ghost predicate ValidEntries(es: seq<Entry>, n: nat) {
    |es| > 0 && forall j :: 0 <= j < |es| ==> es[j].ch < n
  }

  ghost predicate ValidCall(call: Call, n: nat) {
    match call
    case OpCall(_, ch, _, _) => ch < n
    case CloseCall(ch) => ch < n
    case SelectCall(es) => ValidEntries(es, n)
  }

  ghost predicate ValidFrame(f: Frame, n: nat) {
    match f
    case Idle => true
    case OpFrame(side, ch, _, pc, caller) =>
      ch < n &&
      (caller.InSelect? ==>
         ValidEntries(caller.entries, n) && caller.i < |caller.entries| &&
         caller.entries[caller.i].ch == ch && caller.entries[caller.i].side == side)
    case CloseFrame(ch, _) => ch < n
    case SelectFrame(es, pc) =>
      ValidEntries(es, n) &&
      (match pc
       case Sleep => true
       case RegLock(i) => i < |es|
       case RegInsert(i) => i < |es|
       case RegUnlock(i) => i < |es|
       case UnregLock(i, _) => i < |es|
       case UnregRemove(i, _) => i < |es|
       case UnregUnlock(i, _) => i < |es|)
  }

  ghost predicate ValidThread(th: Thread, n: nat) {
    ValidFrame(th.frame, n) && forall j :: 0 <= j < |th.todo| ==> ValidCall(th.todo[j], n)
  }

  ghost predicate ValidWaiters(ws: seq<nat>, threads: nat) {
    forall k :: 0 <= k < |ws| ==> ws[k] < threads
  }

  ghost predicate Valid(s: State) {
    |s.local| == |s.threads| &&
    (forall t :: 0 <= t < |s.threads| ==> ValidThread(s.threads[t], |s.chans|)) &&
    (forall c, side :: 0 <= c < |s.chans| ==> ValidWaiters(s.chans[c].Waiters(side), |s.threads|))
  }

  // ---------------------------------------------------------------- waiter lists

  /** list_insert at the head, as select does it: only when not found. */
  function InsertIfAbsent(ws: seq<nat>, t: nat): seq<nat> {
    if t in ws then ws else [t] + ws
  }

  /** list_remove of the first node found, as select does it. */
  function RemoveFirst(ws: seq<nat>, t: nat): seq<nat> {
    if ws == [] then [] else if ws[0] == t then ws[1..] else [ws[0]] + RemoveFirst(ws[1..], t)
  }

  // ---------------------------------------------------------------- steps

  /** channel_send or channel_receive entered from the select loop at entry i. */
  function Try(es: seq<Entry>, i: nat): Frame
    requires i < |es|
  {
    OpFrame(es[i].side, es[i].ch, es[i].msg, Acquire, InSelect(es, i))
  }

  /** The frame after an operation returned `status`: select goes on to the next
      entry, to sleep, or to its exit. */
  function ReturnFrame(f: Frame, status: Status): Frame
    requires f.OpFrame? && (f.caller.InSelect? ==> f.caller.i < |f.caller.entries|)
  {
    match f.caller
    case Direct(_) => Idle
    case InSelect(es, i) =>
      if status != WOULDBLOCK then SelectFrame(es, UnregLock(0, OpResult(status, i, f.side, f.ch, f.msg)))
      else if i == |es| - 1 then SelectFrame(es, Sleep)
      else Try(es, i + 1)
  }

  function Return(th: Thread, status: Status): Thread
    requires th.frame.OpFrame? && (th.frame.caller.InSelect? ==> th.frame.caller.i < |th.frame.caller.entries|)
  {
    var f := th.frame;
    Thread(th.todo, ReturnFrame(f, status),
           if f.caller.Direct? then th.results + [OpResult(status, 0, f.side, f.ch, f.msg)] else th.results)
  }

  /** The first frame of a call. */
  function StartFrame(call: Call): Frame
  {
    match call
    case OpCall(side, ch, msg, blocking) => OpFrame(side, ch, msg, Acquire, Direct(blocking))
    case CloseCall(ch) => CloseFrame(ch, CloseLock)
    case SelectCall(es) => SelectFrame(es, RegLock(0))
  }

  predicate OpEnabled(ch: Chan, side: Side, pc: OpPc, caller: Caller) {
    match pc
    case Acquire => (caller.Direct? && caller.blocking) ==> ch.Tokens(side) > 0
    case FailLock => ch.mutex > 0
    case Lock => ch.mutex > 0
    case ListLock => ch.ListLock(Other(side)) > 0
    case _ => true
  }

  predicate CloseEnabled(ch: Chan, pc: ClosePc) {
    match pc
    case CloseLock => ch.mutex > 0
    case CloseListLock(side) => ch.ListLock(side) > 0
    case _ => true
  }

  predicate SelectEnabled(chans: seq<Chan>, es: seq<Entry>, pc: SelectPc, local: nat) {
    match pc
    case RegLock(i) => i < |es| && es[i].ch < |chans| && chans[es[i].ch].ListLock(es[i].side) > 0
    case UnregLock(i, _) => i < |es| && es[i].ch < |chans| && chans[es[i].ch].ListLock(es[i].side) > 0
    case Sleep => local > 0
    case _ => true
  }

  /** Can the thread move?  Only semaphores, locks and an empty program block. */
  predicate Ready(th: Thread, chans: seq<Chan>, local: nat) {
    match th.frame
    case Idle => th.todo != []
    case OpFrame(side, c, _, pc, caller) => c < |chans| && OpEnabled(chans[c], side, pc, caller)
    case CloseFrame(c, pc) => c < |chans| && CloseEnabled(chans[c], pc)
    case SelectFrame(es, pc) => SelectEnabled(chans, es, pc, local)
  }

  ghost predicate Enabled(s: State, t: nat)
    requires Valid(s) && t < |s.threads|
  {
    Ready(s.threads[t], s.chans, s.local[t])
  }

  /** The channel a frame's next step touches, if any. */
  function Touched(f: Frame): (c: int)
    ensures -1 <= c
  {
    match f
    case Idle => -1
    case OpFrame(_, c, _, _, _) => c
    case CloseFrame(c, _) => c
    case SelectFrame(es, pc) =>
      match pc
      case Sleep => -1
      case RegLock(i) => if i < |es| then es[i].ch else -1
      case RegInsert(i) => if i < |es| then es[i].ch else -1
      case RegUnlock(i) => if i < |es| then es[i].ch else -1
      case UnregLock(i, _) => if i < |es| then es[i].ch else -1
      case UnregRemove(i, _) => if i < |es| then es[i].ch else -1
      case UnregUnlock(i, _) => if i < |es| then es[i].ch else -1
  }

  /** buffer_add or buffer_remove in the critical section of an open channel. */
  function CritChan(ch: Chan, side: Side, msg: Message): Chan {
    if ch.closed then ch
    else if side == Send then
      var (ok, b) := Add(ch.buffer, ch.capacity, msg);
      if ok then ch.(buffer := b, added := ch.added + [msg]) else ch
    else
      var (m, b) := Remove(ch.buffer);
      if ch.buffer == [] then ch else ch.(buffer := b, removed := ch.removed + [m])
  }

  /** The channel after the step of an operation at `pc`. */
  function OpChan(ch: Chan, side: Side, msg: Message, pc: OpPc): Chan {
    match pc
    case Acquire => if ch.Tokens(side) > 0 then ch.WithTokens(side, ch.Tokens(side) - 1) else ch
    case FailLock => if ch.mutex > 0 then ch.(mutex := ch.mutex - 1) else ch
    case FailCheck => ch
    case FailOpen => ch.(mutex := ch.mutex + 1)
    case FailClosed => ch.(mutex := ch.mutex + 1)
    case FailPost => ch.WithTokens(side, ch.Tokens(side) + 1)
    case Lock => if ch.mutex > 0 then ch.(mutex := ch.mutex - 1) else ch
    case Crit => CritChan(ch, side, msg)
    case ErrUnlock => ch.(mutex := ch.mutex + 1)
    case ClosedUnlock => ch.(mutex := ch.mutex + 1)
    case ClosedPost => ch.WithTokens(side, ch.Tokens(side) + 1)
    case Unlock => ch.(mutex := ch.mutex + 1)
    case PostOther => ch.WithTokens(Other(side), ch.Tokens(Other(side)) + 1)
    case ListLock =>
      if ch.ListLock(Other(side)) > 0 then ch.WithListLock(Other(side), ch.ListLock(Other(side)) - 1) else ch
    case Notify(_) => ch
    case ListUnlock => ch.WithListLock(Other(side), ch.ListLock(Other(side)) + 1)
  }

  /** The thread after the step of its operation. */
  function OpThread(th: Thread, ch: Chan): Thread
    requires th.frame.OpFrame?
    requires th.frame.caller.InSelect? ==> th.frame.caller.i < |th.frame.caller.entries|
  {
    var f := th.frame;
    match f.pc
    case Acquire => th.(frame := f.(pc := if ch.Tokens(f.side) > 0 then Lock else FailLock))
    case FailLock => th.(frame := f.(pc := FailCheck))
    case FailCheck => th.(frame := f.(pc := if ch.closed then FailClosed else FailOpen))
    case FailOpen => Return(th, WOULDBLOCK)
    case FailClosed =>
      if f.side == Send then Return(th, CLOSED_ERROR)
      else th.(frame := f.(pc := FailPost))
    case FailPost => Return(th, CLOSED_ERROR)
    case Lock => th.(frame := f.(pc := Crit))
    case Crit =>
      if ch.closed then th.(frame := f.(pc := ClosedUnlock))
      else if f.side == Send then
        th.(frame := f.(pc := if Add(ch.buffer, ch.capacity, f.msg).0 then Unlock else ErrUnlock))
      else
        var m := Remove(ch.buffer).0;
        th.(frame := f.(msg := m, pc := if m == BUFFER_EMPTY then ErrUnlock else Unlock))
    case ErrUnlock => Return(th, OTHER_ERROR)
    case ClosedUnlock => th.(frame := f.(pc := ClosedPost))
    case ClosedPost => Return(th, CLOSED_ERROR)
    case Unlock => th.(frame := f.(pc := PostOther))
    case PostOther => th.(frame := f.(pc := ListLock))
    case ListLock => th.(frame := f.(pc := Notify(0)))
    case Notify(k) =>
      th.(frame := f.(pc := if k < |ch.Waiters(Other(f.side))| then Notify(k + 1) else ListUnlock))
    case ListUnlock => Return(th, SUCCESS)
  }

  function CloseChan(ch: Chan, pc: ClosePc): Chan {
    match pc
    case CloseLock => if ch.mutex > 0 then ch.(mutex := ch.mutex - 1) else ch
    case CloseCheck => ch.(closed := true)
    case AlreadyClosed => ch.(mutex := ch.mutex + 1)
    case PostAvailable => ch.(available := ch.available + 1)
    case PostUsed => ch.(used := ch.used + 1)
    case CloseUnlock => ch.(mutex := ch.mutex + 1)
    case CloseListLock(side) =>
      if ch.ListLock(side) > 0 then ch.WithListLock(side, ch.ListLock(side) - 1) else ch
    case CloseNotify(_, _) => ch
    case CloseListUnlock(side) => ch.WithListLock(side, ch.ListLock(side) + 1)
  }

  /** channel_close posts the receive waiters (send_list) before the send
      waiters (recv_list). */
  function CloseThread(th: Thread, ch: Chan): Thread
    requires th.frame.CloseFrame?
  {
    var f := th.frame;
    match f.cpc
    case CloseLock => th.(frame := f.(cpc := CloseCheck))
    case CloseCheck => th.(frame := f.(cpc := if ch.closed then AlreadyClosed else PostAvailable))
    case AlreadyClosed => th.(frame := Idle, results := th.results + [CloseResult(CLOSED_ERROR)])
    case PostAvailable => th.(frame := f.(cpc := PostUsed))
    case PostUsed => th.(frame := f.(cpc := CloseUnlock))
    case CloseUnlock => th.(frame := f.(cpc := CloseListLock(Recv)))
    case CloseListLock(side) => th.(frame := f.(cpc := CloseNotify(side, 0)))
    case CloseNotify(side, k) =>
      th.(frame := f.(cpc := if k < |ch.Waiters(side)| then CloseNotify(side, k + 1) else CloseListUnlock(side)))
    case CloseListUnlock(side) =>
      if side == Recv then th.(frame := f.(cpc := CloseListLock(Send)))
      else th.(frame := Idle, results := th.results + [CloseResult(SUCCESS)])
  }

  function SelectChan(ch: Chan, e: Entry, pc: SelectPc, t: nat): Chan {
    match pc
    case RegLock(_) => if ch.ListLock(e.side) > 0 then ch.WithListLock(e.side, ch.ListLock(e.side) - 1) else ch
    case RegInsert(_) => ch.WithWaiters(e.side, InsertIfAbsent(ch.Waiters(e.side), t))
    case RegUnlock(_) => ch.WithListLock(e.side, ch.ListLock(e.side) + 1)
    case Sleep => ch
    case UnregLock(_, _) => if ch.ListLock(e.side) > 0 then ch.WithListLock(e.side, ch.ListLock(e.side) - 1) else ch
    case UnregRemove(_, _) => ch.WithWaiters(e.side, RemoveFirst(ch.Waiters(e.side), t))
    case UnregUnlock(_, _) => ch.WithListLock(e.side, ch.ListLock(e.side) + 1)
  }

  function SelectThread(th: Thread): Thread
    requires th.frame.SelectFrame? && |th.frame.es| > 0
  {
    var f := th.frame;
    var n := |f.es|;
    match f.spc
    case RegLock(i) => th.(frame := f.(spc := RegInsert(i)))
    case RegInsert(i) => th.(frame := f.(spc := RegUnlock(i)))
    case RegUnlock(i) =>
      th.(frame := if i + 1 < n then f.(spc := RegLock(i + 1)) else Try(f.es, 0))
    case Sleep => th.(frame := Try(f.es, 0))
    case UnregLock(i, r) => th.(frame := f.(spc := UnregRemove(i, r)))
    case UnregRemove(i, r) => th.(frame := f.(spc := UnregUnlock(i, r)))
    case UnregUnlock(i, r) =>
      if i + 1 < n then th.(frame := f.(spc := UnregLock(i + 1, r)))
      else th.(frame := Idle, results := th.results + [r])
  }

  function NextThread(th: Thread, chans: seq<Chan>): Thread
    requires Touched(th.frame) < |chans|
    requires th.frame.OpFrame? && th.frame.caller.InSelect? ==> th.frame.caller.i < |th.frame.caller.entries|
    requires th.frame.SelectFrame? ==> |th.frame.es| > 0
    requires th.frame.Idle? ==> th.todo != []
  {
    match th.frame
    case Idle => Thread(th.todo[1..], StartFrame(th.todo[0]), th.results)
    case OpFrame(_, c, _, _, _) => OpThread(th, chans[c])
    case CloseFrame(c, _) => CloseThread(th, chans[c])
    case SelectFrame(_, _) => SelectThread(th)
  }

  function NextChan(f: Frame, ch: Chan, t: nat): Chan {
    match f
    case Idle => ch
    case OpFrame(side, _, msg, pc, _) => OpChan(ch, side, msg, pc)
    case CloseFrame(_, pc) => CloseChan(ch, pc)
    case SelectFrame(es, pc) =>
      match pc
      case Sleep => ch
      case RegLock(i) => if i < |es| then SelectChan(ch, es[i], pc, t) else ch
      case RegInsert(i) => if i < |es| then SelectChan(ch, es[i], pc, t) else ch
      case RegUnlock(i) => if i < |es| then SelectChan(ch, es[i], pc, t) else ch
      case UnregLock(i, _) => if i < |es| then SelectChan(ch, es[i], pc, t) else ch
      case UnregRemove(i, _) => if i < |es| then SelectChan(ch, es[i], pc, t) else ch
      case UnregUnlock(i, _) => if i < |es| then SelectChan(ch, es[i], pc, t) else ch
  }

  /** The waiter whose semaphore the step posts, or -1. */
  function Posted(f: Frame, ch: Chan): int {
    match f
    case OpFrame(side, _, _, Notify(k), _) =>
      if k < |ch.Waiters(Other(side))| then ch.Waiters(Other(side))[k] else -1
    case CloseFrame(_, CloseNotify(side, k)) =>
      if k < |ch.Waiters(side)| then ch.Waiters(side)[k] else -1
    case _ => -1
  }

  function Post(local: seq<nat>, p: int): (r: seq<nat>)
    ensures |r| == |local|
  {
    if 0 <= p < |local| then local[p := local[p] + 1] else local
  }

  /** sem_init at the start of a select, sem_wait in its sleep, sem_post by a notifier. */
  function NextLocal(th: Thread, chans: seq<Chan>, local: seq<nat>, t: nat): (r: seq<nat>)
    requires t < |local| && Touched(th.frame) < |chans|
    ensures |r| == |local|
  {
    match th.frame
    case Idle => if th.todo != [] && th.todo[0].SelectCall? then local[t := 0] else local
    case SelectFrame(_, Sleep) => if local[t] > 0 then local[t := local[t] - 1] else local
    case _ => if Touched(th.frame) < 0 then local else Post(local, Posted(th.frame, chans[Touched(th.frame)]))
  }

  /** One step of thread t. */
  ghost function Next(s: State, t: nat): State
    requires Valid(s) && t < |s.threads| && Enabled(s, t)
  {
    var th := s.threads[t];
    var c := Touched(th.frame);
    State(if c < 0 then s.chans else s.chans[c := NextChan(th.frame, s.chans[c], t)],
          s.threads[t := NextThread(th, s.chans)],
          NextLocal(th, s.chans, s.local, t))
  }

  // ---------------------------------------------------------------- runs

  ghost function Init(capacities: seq<nat>, programs: seq<seq<Call>>): State {
    State(seq(|capacities|, c requires 0 <= c < |capacities| => NewChan(capacities[c])),
          seq(|programs|, t requires 0 <= t < |programs| => Thread(programs[t], Idle, [])),
          seq(|programs|, t => 0))
  }

  /** Every call names existing channels, and every select has an entry. */
  ghost predicate ValidPrograms(capacities: seq<nat>, programs: seq<seq<Call>>) {
    forall t, j :: 0 <= t < |programs| && 0 <= j < |programs[t]| ==> ValidCall(programs[t][j], |capacities|)
  }

  /** `schedule` names the thread of each step. */
  ghost predicate Run(s: State, schedule: seq<nat>, s': State)
    requires Valid(s)
    decreases |schedule|
  {
    if schedule == [] then s' == s
    else
      schedule[0] < |s.threads| && Enabled(s, schedule[0]) && Valid(Next(s, schedule[0])) &&
      Run(Next(s, schedule[0]), schedule[1..], s')
  }

  lemma InitIsValid(capacities: seq<nat>, programs: seq<seq<Call>>)
    requires ValidPrograms(capacities, programs)
    ensures Valid(Init(capacities, programs))
  {
  }

  lemma RemoveFirstMembers(ws: seq<nat>, t: nat, u: nat)
    ensures u in RemoveFirst(ws, t) ==> u in ws
    ensures u != t && u in ws ==> u in RemoveFirst(ws, t)
  {
    if ws != [] && ws[0] != t {
      RemoveFirstMembers(ws[1..], t, u);
      assert RemoveFirst(ws, t)[1..] == RemoveFirst(ws[1..], t);
      assert RemoveFirst(ws, t)[0] == ws[0];
    }
  }

  lemma WaitersStayValid(ch: Chan, f: Frame, t: nat, side: Side, threads: nat)
    requires ValidWaiters(ch.Waiters(side), threads) && t < threads
    ensures ValidWaiters(NextChan(f, ch, t).Waiters(side), threads)
  {
    var ws := NextChan(f, ch, t).Waiters(side);
    if f.SelectFrame? {
      forall k | 0 <= k < |ws| ensures ws[k] < threads {
        RemoveFirstMembers(ch.Waiters(side), t, ws[k]);
        assert ws[k] in ws;
      }
    } else {
      OthersKeepWaiters(f, ch, t, side);
    }
  }

  /** Only select changes a waiter list. */
  lemma OthersKeepWaiters(f: Frame, ch: Chan, t: nat, side: Side)
    requires !f.SelectFrame?
    ensures NextChan(f, ch, t).Waiters(side) == ch.Waiters(side)
  {
    match f
    case OpFrame(_, _, _, _, _) =>
    case CloseFrame(_, _) =>
    case _ =>
  }

  lemma ThreadStaysValid(th: Thread, chans: seq<Chan>)
    requires ValidThread(th, |chans|) && (th.frame.Idle? ==> th.todo != [])
    ensures Touched(th.frame) < |chans|
    ensures ValidThread(NextThread(th, chans), |chans|)
  {
    match th.frame
    case Idle => assert ValidCall(th.todo[0], |chans|);
    case OpFrame(_, c, _, _, _) => OpStaysValid(th, chans[c], |chans|);
    case CloseFrame(_, _) =>
    case SelectFrame(_, _) => SelectStaysValid(th, |chans|);
  }

  lemma OpStaysValid(th: Thread, ch: Chan, n: nat)
    requires ValidThread(th, n) && th.frame.OpFrame?
    ensures ValidThread(OpThread(th, ch), n)
  {
  }

  lemma SelectStaysValid(th: Thread, n: nat)
    requires ValidThread(th, n) && th.frame.SelectFrame?
    ensures ValidThread(SelectThread(th), n)
  {
  }

  /** No step leaves the well-formed states. */
  lemma NextIsValid(s: State, t: nat)
    requires Valid(s) && t < |s.threads| && Enabled(s, t)
    ensures Valid(Next(s, t))
  {
    var s' := Next(s, t);
    ThreadStaysValid(s.threads[t], s.chans);
    forall c, side | 0 <= c < |s'.chans|
      ensures ValidWaiters(s'.chans[c].Waiters(side), |s'.threads|)
    {
      WaitersStayValid(s.chans[c], s.threads[t].frame, t, side, |s.threads|);
    }
  }
}
