/** Tearing a `ConnectedClient` down: its receiver thread, its sender thread, the thread that
    calls `disconnect`, and everyone who calls `sendPacket`, interleaved in any order.

    A step is one access to shared state, or one such access with others that commute with
    whatever happens in between; in particular `isRunning()` reads its three fields in three
    steps.  Merged are `empty()` with the `back()` or `pop()` after it, since other threads only
    ever add behind a packet that is there; `push_back` to the sync packets with the `pop()` after
    it, and `send` with recording the packet, since until the join only the sender touches
    those lists; and `recv` with recording the packet, so that what the two threads receive
    counts in the order in which it is recorded.  What the network answers is an input of the
    step.  By assumption
    accesses to the shared fields are atomic, blocking calls return, and a client is
    disconnected by one thread at a time (its callers hold `clients_mutex`).  Callers of
    `sendPacket` in the repository hold that mutex too, but the method itself is public and
    takes no lock: here it may be called at any time, and module `TeardownEnds` says what the
    mutex adds. */
module Teardown {

  datatype Option<T> = None | Some(value: T)

  datatype Packet = Packet(id: nat, needAck: bool)

  type Socket = nat

  // ----- What the network answers -----

  /** The cases `receiveData` distinguishes after `recv`. */
  datatype Received = Data(packet: Packet) | Closed | TimedOut | TooLarge | Broken

  datatype Input = Recv(received: Received) | Send(sendOk: bool)

  // ----- Where the threads are -----

  /** The next field `isRunning()` reads. */
  datatype Field = Started | ReadSocket | WriteSocket

  datatype ReceiverAt =
    | LoopTest(next: Field)     // while (isRunning()) in receiverThread
    | ReceiveTest(next: Field)  // while (isRunning()) in receiveData
    | Receiving                 // recv
    | ReceiverShutdown
    | ReceiverClose
    | ReceiverReset             // readSocket = INVALID_SOCKET
    | ReceiverDone

  /** Which queue the packet in hand came from. */
  datatype Origin = FromMain | FromSync(index: nat)

  /** How far `handlePacketOut` got with the packet in hand. */
  datatype Stage =
    | Sending
    | AckTest(next: Field)      // while (isRunning()) in receiveData, for the ACK
    | AckReceiving
    | Handled(failed: bool)

  datatype SenderAt =
    | SenderTest(next: Field)   // while (isRunning()) in senderThread
    | MainTest                  // while (!mainPackets.empty())
    | SyncTest(index: nat)      // while (packetIt != syncPackets.end())
    | Handling(packet: Packet, origin: Origin, stage: Stage)
    | Sleeping
    | SenderShutdown
    | SenderClose
    | SenderReset               // writeSocket = INVALID_SOCKET
    | SenderDone

  datatype DisconnectAt =
    | Idle
    | TestStarted
    | TestDisconnected
    | StopThreads               // started = false
    | JoinReceiver
    | JoinSender
    | ClearReceived
    | ClearSended
    | ClearSync
    | Drain                     // while (!mainPackets.empty()) mainPackets.pop()
    | SetDisconnected
    | Returned(result: bool)

  datatype Thread = Receiver | Sender

  datatype State = State(
    started: bool,
    disconnected: bool,
    readSocket: Option<Socket>,
    writeSocket: Option<Socket>,
    received: seq<Packet>,
    sended: seq<Packet>,
    main: seq<Packet>,
    sync: seq<Packet>,
    receiver: ReceiverAt,
    sender: SenderAt,
    disconnect: DisconnectAt,
    /** Every `closesocket` call: who made it and on which socket. */
    closes: seq<(Thread, Socket)>,
    /** The packets queued since the drain last found the queue empty. */
    late: seq<Packet>)

  /** Right after `createThreads`, on valid sockets, with whatever is already queued. */
  function Created(read: Socket, write: Socket, main: seq<Packet>, sync: seq<Packet>): State {
    State(true, false, Some(read), Some(write), [], [], main, sync,
          LoopTest(Started), SenderTest(Started), Idle, [], [])
  }

  predicate IsRunning(s: State) {
    s.started && s.readSocket.Some? && s.writeSocket.Some?
  }

  predicate FieldHolds(s: State, f: Field) {
    match f
    case Started => s.started
    case ReadSocket => s.readSocket.Some?
    case WriteSocket => s.writeSocket.Some?
  }

  // ----- Steps -----

  datatype Action =
    | ReceiverStep(input: Received)
    | SenderStep(answer: Input)
    | Call                      // someone calls disconnect()
    | DisconnectStep
    | SendPacket(packet: Packet)

  /** `join` waits for its thread; a `recv` step needs an answer of `recv`. */
  predicate Enabled(s: State, a: Action) {
    match a
    case ReceiverStep(_) => !s.receiver.ReceiverDone?
    case SenderStep(answer) =>
      && !s.sender.SenderDone?
      && (s.sender.Handling? && s.sender.stage.AckReceiving? ==> answer.Recv?)
      && (s.sender.Handling? && s.sender.stage.Sending? ==> answer.Send?)
    case Call => s.disconnect.Idle? || s.disconnect.Returned?
    case DisconnectStep =>
      && !s.disconnect.Idle? && !s.disconnect.Returned?
      && (s.disconnect.JoinReceiver? ==> s.receiver.ReceiverDone?)
      && (s.disconnect.JoinSender? ==> s.sender.SenderDone?)
    case SendPacket(_) => true
  }

  function Next(s: State, a: Action): State
    requires Enabled(s, a)
  {
    match a
    case ReceiverStep(input) => ReceiverNext(s, input)
    case SenderStep(answer) => SenderNext(s, answer)
    case Call => s.(disconnect := TestStarted)
    case DisconnectStep => DisconnectNext(s)
    case SendPacket(packet) => s.(main := s.main + [packet], late := s.late + [packet])
  }

  /** `receiverThread`.  A positive code from `handlePacketIn` ends its loop, a negative one
      does not. */
  function ReceiverNext(s: State, input: Received): State {
    match s.receiver
    case LoopTest(f) =>
      s.(receiver :=
        if !FieldHolds(s, f) then ReceiverShutdown
        else if f == Started then LoopTest(ReadSocket)
        else if f == ReadSocket then LoopTest(WriteSocket)
        else ReceiveTest(Started))
    case ReceiveTest(f) =>
      s.(receiver :=
        if !FieldHolds(s, f) then LoopTest(Started)
        else if f == Started then ReceiveTest(ReadSocket)
        else if f == ReadSocket then ReceiveTest(WriteSocket)
        else Receiving)
    case Receiving =>
      (match input
       case Data(packet) => s.(received := s.received + [packet], receiver := LoopTest(Started))
       case Closed => s.(receiver := ReceiverShutdown)
       case TimedOut => s.(receiver := ReceiveTest(Started))
       case TooLarge => s.(receiver := LoopTest(Started))
       case Broken => s.(receiver := ReceiverShutdown))
    case ReceiverShutdown => s.(receiver := ReceiverClose)
    case ReceiverClose =>
      s.(receiver := ReceiverReset,
         closes := if s.readSocket.Some? then s.closes + [(Receiver, s.readSocket.value)] else s.closes)
    case ReceiverReset => s.(receiver := ReceiverDone, readSocket := None)
    case ReceiverDone => s
  }

  /** `senderThread`.  Its two inner loops do not look at `isRunning()`. */
  function SenderNext(s: State, answer: Input): State {
    match s.sender
    case SenderTest(f) =>
      s.(sender :=
        if !FieldHolds(s, f) then SenderShutdown
        else if f == Started then SenderTest(ReadSocket)
        else if f == ReadSocket then SenderTest(WriteSocket)
        else MainTest)
    case MainTest =>
      // packet = mainPackets.back()
      s.(sender := if s.main == [] then SyncTest(0) else Handling(s.main[|s.main| - 1], FromMain, Sending))
    case SyncTest(i) =>
      s.(sender := if i >= |s.sync| then Sleeping else Handling(s.sync[i], FromSync(i), Sending))
    case Handling(_, _, Handled(failed)) => PacketHandled(s, failed)
    case Handling(_, _, _) => HandlingNext(s, answer)
    case Sleeping => s.(sender := SenderTest(Started))
    case SenderShutdown => s.(sender := SenderClose)
    case SenderClose =>
      s.(sender := SenderReset,
         closes := if s.writeSocket.Some? then s.closes + [(Sender, s.writeSocket.value)] else s.closes)
    case SenderReset => s.(sender := SenderDone, writeSocket := None)
    case SenderDone => s
  }

  /** `handlePacketOut`, and `handlePacketIn` and `receiveData` for the ACK. */
  function HandlingNext(s: State, answer: Input): State
    requires s.sender.Handling?
  {
    var packet := s.sender.packet;
    match s.sender.stage
    case Sending =>
      if answer.Send? && answer.sendOk then
        s.(sended := s.sended + [packet],
           sender := s.sender.(stage := if packet.needAck then AckTest(Started) else Handled(false)))
      else s.(sender := s.sender.(stage := Handled(true)))
    case AckTest(f) =>
      s.(sender := s.sender.(stage :=
        if !FieldHolds(s, f) then Handled(true)
        else if f == Started then AckTest(ReadSocket)
        else if f == ReadSocket then AckTest(WriteSocket)
        else AckReceiving))
    case AckReceiving =>
      if answer.Recv? && answer.received.Data? then
        s.(received := s.received + [answer.received.packet], sender := s.sender.(stage := Handled(false)))
      else s.(sender := s.sender.(stage := Handled(true)))
    case Handled(_) => s
  }

  /** What the loops over the two queues do with a handled packet.  A main packet that failed
      goes to the sync queue, and the front of the main queue is popped, whichever packet was
      sent; a sync packet is erased unless it failed. */
  function PacketHandled(s: State, failed: bool): State
    requires s.sender.Handling?
  {
    match s.sender.origin
    case FromMain =>
      s.(sync := if failed then s.sync + [s.sender.packet] else s.sync,
         main := if s.main == [] then [] else s.main[1..],
         sender := MainTest)
    case FromSync(i) =>
      if failed || i >= |s.sync| then s.(sender := SyncTest(i + 1))
      else s.(sync := s.sync[..i] + s.sync[i + 1..], sender := SyncTest(i))
  }

  function DisconnectNext(s: State): State {
    match s.disconnect
    case TestStarted => s.(disconnect := if s.started then TestDisconnected else Returned(false))
    case TestDisconnected => s.(disconnect := if s.disconnected then Returned(false) else StopThreads)
    case StopThreads => s.(started := false, disconnect := JoinReceiver)
    case JoinReceiver => s.(disconnect := JoinSender)
    case JoinSender => s.(disconnect := ClearReceived)
    case ClearReceived => s.(received := [], disconnect := ClearSended)
    case ClearSended => s.(sended := [], disconnect := ClearSync)
    case ClearSync => s.(sync := [], disconnect := Drain)
    case Drain =>
      if s.main == [] then s.(disconnect := SetDisconnected, late := [])
      else s.(main := s.main[1..])
    case SetDisconnected => s.(disconnected := true, disconnect := Returned(true))
    case _ => s
  }

  // ----- Runs -----

  predicate AllEnabled(s: State, run: seq<Action>)
    decreases |run|
  {
    run != [] ==> Enabled(s, run[0]) && AllEnabled(Next(s, run[0]), run[1..])
  }

  function After(s: State, run: seq<Action>): State
    requires AllEnabled(s, run)
    decreases |run|
  {
    if run == [] then s else After(Next(s, run[0]), run[1..])
  }

  lemma {:induction false} RunsCompose(s: State, first: seq<Action>, second: seq<Action>)
    requires AllEnabled(s, first) && AllEnabled(After(s, first), second)
    ensures AllEnabled(s, first + second) && After(s, first + second) == After(After(s, first), second)
    decreases |first|
  {
    if first == [] {
      assert first + second == second;
    } else {
      RunsCompose(Next(s, first[0]), first[1..], second);
      assert (first + second)[1..] == first[1..] + second;
    }
  }

  lemma FirstStep(s: State, a: Action, rest: seq<Action>)
    requires Enabled(s, a) && AllEnabled(Next(s, a), rest)
    ensures AllEnabled(s, [a] + rest) && After(s, [a] + rest) == After(Next(s, a), rest)
  {
    assert ([a] + rest)[1..] == rest;
  }

  lemma FourSteps(s: State, a: Action, b: Action, c: Action, d: Action)
    requires Enabled(s, a) && Enabled(Next(s, a), b) && Enabled(Next(Next(s, a), b), c)
    requires Enabled(Next(Next(Next(s, a), b), c), d)
    ensures AllEnabled(s, [a, b, c, d])
    ensures After(s, [a, b, c, d]) == Next(Next(Next(Next(s, a), b), c), d)
  {
    OneStep(Next(Next(Next(s, a), b), c), d);
    FirstStep(Next(Next(s, a), b), c, [d]);
    FirstStep(Next(s, a), b, [c] + [d]);
    FirstStep(s, a, [b] + ([c] + [d]));
    assert [a] + ([b] + ([c] + [d])) == [a, b, c, d];
  }

  lemma OneStep(s: State, a: Action)
    requires Enabled(s, a)
    ensures AllEnabled(s, [a]) && After(s, [a]) == Next(s, a)
  {
    assert [a][1..] == [];
  }

  // ----- The invariant -----

  /** `disconnect` is between stopping the threads and reporting that it is done. */
  predicate TearingDown(s: State) {
    match s.disconnect
    case Idle | TestStarted | TestDisconnected | StopThreads | Returned(_) => false
    case _ => true
  }

  /** The socket and the closes of a thread agree with where it is. */
  predicate SocketsInv(s: State, read: Socket, write: Socket) {
    && s.readSocket == (if s.receiver.ReceiverDone? then None else Some(read))
    && s.writeSocket == (if s.sender.SenderDone? then None else Some(write))
    && ClosesInv(s.closes, (Receiver, read), s.receiver.ReceiverReset? || s.receiver.ReceiverDone?,
                 (Sender, write), s.sender.SenderReset? || s.sender.SenderDone?)
  }

  /** Each close was made once if its thread is past it, and not at all otherwise. */
  predicate ClosesInv(closes: seq<(Thread, Socket)>, r: (Thread, Socket), byReceiver: bool,
                      w: (Thread, Socket), bySender: bool) {
    if byReceiver && bySender then closes == [r, w] || closes == [w, r]
    else if byReceiver then closes == [r]
    else if bySender then closes == [w]
    else closes == []
  }

  /** The sender never pops an empty queue and its iterator stays inside the sync packets. */
  predicate QueuesInv(s: State) {
    && (s.sender.SyncTest? ==> s.sender.index <= |s.sync|)
    && (s.sender.Handling? ==>
          match s.sender.origin
          case FromMain => s.main != []
          case FromSync(i) => i < |s.sync| && s.sync[i] == s.sender.packet)
  }

  /** Flags, joins and cleared containers, by how far `disconnect` got. */
  predicate DisconnectInv(s: State) {
    && (if TearingDown(s) then !s.started && !s.disconnected else s.started <==> !s.disconnected)
    && (s.disconnected ==> s.receiver.ReceiverDone? && s.sender.SenderDone?)
    && (s.disconnected ==> s.received == [] && s.sended == [] && s.sync == [] && s.main == s.late)
    && (match s.disconnect
        case Idle | TestDisconnected | StopThreads => s.started
        case TestStarted | JoinReceiver => true
        case JoinSender => s.receiver.ReceiverDone?
        case ClearReceived => s.receiver.ReceiverDone? && s.sender.SenderDone?
        case ClearSended => s.receiver.ReceiverDone? && s.sender.SenderDone? && s.received == []
        case ClearSync => s.receiver.ReceiverDone? && s.sender.SenderDone? && s.received == [] && s.sended == []
        case Drain =>
          && s.receiver.ReceiverDone? && s.sender.SenderDone?
          && s.received == [] && s.sended == [] && s.sync == []
        case SetDisconnected =>
          && s.receiver.ReceiverDone? && s.sender.SenderDone?
          && s.received == [] && s.sended == [] && s.sync == [] && s.main == s.late
        case Returned(_) => s.disconnected)
  }

  predicate Inv(s: State, read: Socket, write: Socket) {
    SocketsInv(s, read, write) && QueuesInv(s) && DisconnectInv(s)
  }

  lemma ReceiverKeepsSocketsInv(s: State, a: Action, read: Socket, write: Socket)
    requires SocketsInv(s, read, write) && Enabled(s, a) && a.ReceiverStep?
    ensures SocketsInv(Next(s, a), read, write)
  {
  }

  lemma ReceiverKeepsQueuesInv(s: State, a: Action)
    requires QueuesInv(s) && Enabled(s, a) && a.ReceiverStep?
    ensures QueuesInv(Next(s, a))
  {
  }

  lemma ReceiverKeepsDisconnectInv(s: State, a: Action)
    requires DisconnectInv(s) && Enabled(s, a) && a.ReceiverStep?
    ensures DisconnectInv(Next(s, a))
  {
  }

  /** The sender is past its loop. */
  predicate SenderStopped(s: State) {
    s.sender.SenderShutdown? || s.sender.SenderClose? || s.sender.SenderReset? || s.sender.SenderDone?
  }

  lemma LoopLeavesSockets(s: State, answer: Input)
    requires !SenderStopped(s)
    ensures var t := SenderNext(s, answer);
            && t.readSocket == s.readSocket && t.writeSocket == s.writeSocket && t.closes == s.closes
            && t.receiver == s.receiver && !t.sender.SenderReset? && !t.sender.SenderDone?
  {
  }

  lemma SenderKeepsSocketsInv(s: State, a: Action, read: Socket, write: Socket)
    requires SocketsInv(s, read, write) && Enabled(s, a) && a.SenderStep?
    ensures SocketsInv(Next(s, a), read, write)
  {
    if !SenderStopped(s) {
      LoopLeavesSockets(s, a.answer);
    }
  }

  lemma SenderKeepsQueuesInv(s: State, a: Action)
    requires QueuesInv(s) && Enabled(s, a) && a.SenderStep?
    ensures QueuesInv(Next(s, a))
  {
  }

  lemma SenderKeepsDisconnectInv(s: State, a: Action)
    requires DisconnectInv(s) && Enabled(s, a) && a.SenderStep?
    ensures DisconnectInv(Next(s, a))
  {
  }

  lemma DisconnectKeepsInv(s: State, read: Socket, write: Socket)
    requires Inv(s, read, write) && Enabled(s, DisconnectStep)
    ensures SocketsInv(Next(s, DisconnectStep), read, write)
    ensures QueuesInv(Next(s, DisconnectStep)) && DisconnectInv(Next(s, DisconnectStep))
  {
    var t := DisconnectNext(s);
    assert t.sender == s.sender && t.receiver == s.receiver && t.closes == s.closes;
    assert t.readSocket == s.readSocket && t.writeSocket == s.writeSocket;
    match s.disconnect
    case ClearSync =>
    case Drain =>
    case _ =>
  }

  lemma CallersKeepInv(s: State, a: Action, read: Socket, write: Socket)
    requires Inv(s, read, write) && Enabled(s, a) && (a.Call? || a.SendPacket?)
    ensures Inv(Next(s, a), read, write)
  {
  }

  lemma StepKeepsInv(s: State, a: Action, read: Socket, write: Socket)
    requires Inv(s, read, write) && Enabled(s, a)
    ensures Inv(Next(s, a), read, write)
  {
    match a
    case ReceiverStep(_) =>
      ReceiverKeepsSocketsInv(s, a, read, write);
      ReceiverKeepsQueuesInv(s, a);
      ReceiverKeepsDisconnectInv(s, a);
    case SenderStep(_) =>
      SenderKeepsSocketsInv(s, a, read, write);
      SenderKeepsQueuesInv(s, a);
      SenderKeepsDisconnectInv(s, a);
    case DisconnectStep => DisconnectKeepsInv(s, read, write);
    case _ => CallersKeepInv(s, a, read, write);
  }

  lemma {:induction false} RunKeepsInv(s: State, run: seq<Action>, read: Socket, write: Socket)
    requires Inv(s, read, write) && AllEnabled(s, run)
    ensures Inv(After(s, run), read, write)
    decreases |run|
  {
    if run != [] {
      StepKeepsInv(s, run[0], read, write);
      RunKeepsInv(Next(s, run[0]), run[1..], read, write);
    }
  }

  // ----- Safety -----

  /** Every state of every run after `createThreads`. */
  lemma CreatedRunsKeepInv(read: Socket, write: Socket, main: seq<Packet>, sync: seq<Packet>, run: seq<Action>)
    requires AllEnabled(Created(read, write, main, sync), run)
    ensures Inv(After(Created(read, write, main, sync), run), read, write)
  {
    RunKeepsInv(Created(read, write, main, sync), run, read, write);
  }

  /** A client that stopped running never runs again. */
  lemma {:induction false} NotRunningIsForEver(s: State, run: seq<Action>, read: Socket, write: Socket)
    requires Inv(s, read, write) && AllEnabled(s, run) && !IsRunning(s)
    ensures !IsRunning(After(s, run))
    decreases |run|
  {
    if run != [] {
      StepKeepsInv(s, run[0], read, write);
      NotRunningIsForEver(Next(s, run[0]), run[1..], read, write);
    }
  }

  /** In every reachable state each socket was closed by its own thread, once if that thread is
      past closing and otherwise not at all; and when `disconnect` has returned true, both
      sockets are invalid and closed, both threads are done, and the containers hold nothing
      but packets queued after the drain. */
  lemma TeardownIsComplete(read: Socket, write: Socket, main: seq<Packet>, sync: seq<Packet>, run: seq<Action>)
    requires AllEnabled(Created(read, write, main, sync), run)
    ensures var s := After(Created(read, write, main, sync), run);
            && (s.readSocket.None? <==> s.receiver.ReceiverDone?)
            && (s.writeSocket.None? <==> s.sender.SenderDone?)
            && (forall c :: c in s.closes ==> c == (Receiver, read) || c == (Sender, write))
            && (forall i, j :: 0 <= i < j < |s.closes| ==> s.closes[i] != s.closes[j])
            && (s.receiver.ReceiverDone? ==> (Receiver, read) in s.closes)
            && (s.sender.SenderDone? ==> (Sender, write) in s.closes)
    ensures var s := After(Created(read, write, main, sync), run);
            s.disconnect == Returned(true) ==>
              && !IsRunning(s) && s.disconnected && |s.closes| == 2
              && s.receiver.ReceiverDone? && s.sender.SenderDone?
              && s.received == [] && s.sended == [] && s.sync == [] && s.main == s.late
    ensures var s := After(Created(read, write, main, sync), run);
            s.disconnect == Returned(false) ==> s.disconnected
  {
    CreatedRunsKeepInv(read, write, main, sync, run);
  }

  predicate NobodySends(run: seq<Action>) {
    forall a :: a in run ==> !a.SendPacket?
  }

  /** Once the drain has found the queue empty, it stays empty if nobody calls `sendPacket`; so
      `disconnect` then returns with all four containers empty. */
  lemma {:induction false} DrainedStaysEmpty(s: State, run: seq<Action>, read: Socket, write: Socket)
    requires Inv(s, read, write) && AllEnabled(s, run) && NobodySends(run)
    requires s.main == [] && (s.disconnect.Drain? || s.disconnect.SetDisconnected? || s.disconnect == Returned(true))
    ensures var t := After(s, run);
            t.disconnect == Returned(true) ==> t.received == [] && t.sended == [] && t.sync == [] && t.main == []
  {
    RunKeepsInv(s, run, read, write);
    EmptyStaysEmpty(s, run);
  }

  lemma {:induction false} EmptyStaysEmpty(s: State, run: seq<Action>)
    requires AllEnabled(s, run) && NobodySends(run) && s.main == []
    ensures After(s, run).main == []
    decreases |run|
  {
    if run != [] {
      MainOnlyShrinks(s, run[0]);
      EmptyStaysEmpty(Next(s, run[0]), run[1..]);
    }
  }

  /** No step but `sendPacket` adds to the main queue, and only the sender takes from it. */
  lemma MainOnlyShrinks(s: State, a: Action)
    requires Enabled(s, a) && !a.SendPacket?
    ensures Next(s, a).main == s.main || (s.main != [] && Next(s, a).main == s.main[1..])
  {
  }

  lemma OthersLeaveTheHand(s: State, a: Action)
    requires Enabled(s, a) && !a.SenderStep?
    ensures Next(s, a).sender == s.sender
  {
  }

  lemma OnlyCreateThreadsStarts(s: State, a: Action)
    requires Enabled(s, a)
    ensures Next(s, a).started ==> s.started
  {
  }

  // ----- Why a thread stops -----

  /** The receiver is still in one of its two loops. */
  predicate Receives(s: State) {
    s.receiver.LoopTest? || s.receiver.ReceiveTest? || s.receiver.Receiving?
  }

  /** The code of `receiveData` is positive: the connection is gone. */
  predicate Fatal(received: Received) {
    received.Closed? || received.Broken?
  }

  predicate NothingFatal(run: seq<Action>) {
    forall a :: a in run && a.ReceiverStep? ==> !Fatal(a.input)
  }

  lemma StaysStopped(s: State, a: Action)
    requires Enabled(s, a) && !Receives(s)
    ensures !Receives(Next(s, a))
  {
  }

  lemma ReceiverStepStops(s: State, a: Action)
    requires Enabled(s, a) && Receives(s) && IsRunning(s)
    ensures Receives(Next(s, a)) <==> !(a.ReceiverStep? && s.receiver.Receiving? && Fatal(a.input))
  {
  }

  /** While the client runs, only a closed or broken connection makes the receiver stop:
      timeouts, oversized packets and whatever the other threads do never do. */
  lemma {:induction false} ReceiverKeepsReceiving(s: State, run: seq<Action>, read: Socket, write: Socket)
    requires Inv(s, read, write) && AllEnabled(s, run) && Receives(s)
    requires NothingFatal(run) && IsRunning(After(s, run))
    ensures Receives(After(s, run))
    decreases |run|
  {
    if run != [] {
      if !IsRunning(s) {
        NotRunningIsForEver(s, run, read, write);
      }
      ReceiverStepStops(s, run[0]);
      StepKeepsInv(s, run[0], read, write);
      ReceiverKeepsReceiving(Next(s, run[0]), run[1..], read, write);
    }
  }

  /** And after a fatal answer it never receives again, in any run. */
  lemma {:induction false} FatalAnswerIsFinal(s: State, received: Received, run: seq<Action>)
    requires s.receiver.Receiving? && Fatal(received) && AllEnabled(Next(s, ReceiverStep(received)), run)
    ensures !Receives(After(Next(s, ReceiverStep(received)), run))
  {
    NeverAgain(Next(s, ReceiverStep(received)), run);
  }

  lemma {:induction false} NeverAgain(s: State, run: seq<Action>)
    requires AllEnabled(s, run) && !Receives(s)
    ensures !Receives(After(s, run))
    decreases |run|
  {
    if run != [] {
      StaysStopped(s, run[0]);
      NeverAgain(Next(s, run[0]), run[1..]);
    }
  }

  lemma SenderStepStops(s: State, a: Action)
    requires Enabled(s, a) && !SenderStopped(s) && IsRunning(s)
    ensures !SenderStopped(Next(s, a))
  {
  }

  /** While the client runs, no failed send and no missing ACK makes the sender stop. */
  lemma {:induction false} SenderKeepsSending(s: State, run: seq<Action>, read: Socket, write: Socket)
    requires Inv(s, read, write) && AllEnabled(s, run) && !SenderStopped(s) && IsRunning(After(s, run))
    ensures !SenderStopped(After(s, run))
    decreases |run|
  {
    if run != [] {
      if !IsRunning(s) {
        NotRunningIsForEver(s, run, read, write);
      }
      SenderStepStops(s, run[0]);
      StepKeepsInv(s, run[0], read, write);
      SenderKeepsSending(Next(s, run[0]), run[1..], read, write);
    }
  }
}
