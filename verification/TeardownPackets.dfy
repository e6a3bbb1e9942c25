/** What becomes of the packets of a client: which are sent, which are confirmed, which wait,
    and which are never sent at all. */
module TeardownPackets {
  import opened Teardown

  // ----- The two records -----

  /** What `recv` answers in a step, when the step is a call of `recv`. */
  function RecvAnswer(s: State, a: Action): Option<Received> {
    match a
    case ReceiverStep(input) => if s.receiver.Receiving? then Some(input) else None
    case SenderStep(Recv(received)) =>
      if s.sender.Handling? && s.sender.stage.AckReceiving? then Some(received) else None
    case _ => None
  }

  /** The packet that goes out in a step, when the step is a `send` that works. */
  function SentPacket(s: State, a: Action): Option<Packet> {
    if a == SenderStep(Send(true)) && s.sender.Handling? && s.sender.stage.Sending? then Some(s.sender.packet)
    else None
  }

  function AllReceived(s: State, run: seq<Action>): seq<Packet>
    requires AllEnabled(s, run)
    decreases |run|
  {
    if run == [] then []
    else
      (match RecvAnswer(s, run[0])
       case Some(Data(packet)) => [packet]
       case _ => []) + AllReceived(Next(s, run[0]), run[1..])
  }

  function AllSent(s: State, run: seq<Action>): seq<Packet>
    requires AllEnabled(s, run)
    decreases |run|
  {
    if run == [] then []
    else
      (match SentPacket(s, run[0])
       case Some(packet) => [packet]
       case _ => []) + AllSent(Next(s, run[0]), run[1..])
  }

  lemma StepRecords(s: State, a: Action)
    requires DisconnectInv(s) && Enabled(s, a) && Next(s, a).started
    ensures Next(s, a).received ==
              s.received + match RecvAnswer(s, a) { case Some(Data(packet)) => [packet] case _ => [] }
    ensures Next(s, a).sended == s.sended + match SentPacket(s, a) { case Some(packet) => [packet] case _ => [] }
  {
    OnlyCreateThreadsStarts(s, a);
  }

  lemma Regroup(a: seq<Packet>, b: seq<Packet>, c: seq<Packet>)
    ensures a + b + c == a + (b + c)
  {
  }

  /** Until `disconnect` stops the threads, the two records hold every packet that arrived, on
      either thread, and every packet that was sent, in order. */
  lemma {:induction false} PacketsAreRecorded(s: State, run: seq<Action>, read: Socket, write: Socket)
    requires Inv(s, read, write) && AllEnabled(s, run) && After(s, run).started
    ensures After(s, run).received == s.received + AllReceived(s, run)
    ensures After(s, run).sended == s.sended + AllSent(s, run)
    decreases |run|
  {
    if run != [] {
      var t := Next(s, run[0]);
      StepKeepsInv(s, run[0], read, write);
      StoppedForEver(t, run[1..]);
      StepRecords(s, run[0]);
      PacketsAreRecorded(t, run[1..], read, write);
      Regroup(s.received, t.received[|s.received|..], AllReceived(t, run[1..]));
      Regroup(s.sended, t.sended[|s.sended|..], AllSent(t, run[1..]));
    } else {
      assert s.received + [] == s.received && s.sended + [] == s.sended;
    }
  }

  lemma {:induction false} StoppedForEver(s: State, run: seq<Action>)
    requires AllEnabled(s, run) && After(s, run).started
    ensures s.started
    decreases |run|
  {
    if run != [] {
      StoppedForEver(Next(s, run[0]), run[1..]);
      OnlyCreateThreadsStarts(s, run[0]);
    }
  }

  // ----- One call of handlePacketOut -----

  /** The sender is about to put away the packet in its hand. */
  predicate PutsAway(s: State, a: Action) {
    a.SenderStep? && s.sender.Handling? && s.sender.stage.Handled?
  }

  /** The sender keeps its packet in hand throughout the run. */
  predicate KeepsInHand(s: State, run: seq<Action>)
    requires AllEnabled(s, run)
    decreases |run|
  {
    run != [] ==> !PutsAway(s, run[0]) && KeepsInHand(Next(s, run[0]), run[1..])
  }

  /** In the run, a `send` works; in the run, a `recv` of the sender returns a packet. */
  predicate SentDuring(s: State, run: seq<Action>)
    requires AllEnabled(s, run)
    decreases |run|
  {
    run != [] && (SentPacket(s, run[0]).Some? || SentDuring(Next(s, run[0]), run[1..]))
  }

  predicate SenderReceives(s: State, a: Action) {
    a.SenderStep? && RecvAnswer(s, a).Some? && RecvAnswer(s, a).value.Data?
  }

  predicate AnsweredDuring(s: State, run: seq<Action>)
    requires AllEnabled(s, run)
    decreases |run|
  {
    run != [] && (SenderReceives(s, run[0]) || AnsweredDuring(Next(s, run[0]), run[1..]))
  }

  /** Where `handlePacketOut` stands, given whether the packet was sent and an answer came. */
  predicate Progress(s: State, sent: bool, answered: bool) {
    s.sender.Handling? &&
    match s.sender.stage
    case Sending => !sent && !answered
    case AckTest(_) => sent && !answered && s.sender.packet.needAck
    case AckReceiving => sent && !answered && s.sender.packet.needAck
    case Handled(failed) => !failed <==> sent && (s.sender.packet.needAck ==> answered)
  }

  lemma StepKeepsProgress(s: State, a: Action, sent: bool, answered: bool)
    requires Progress(s, sent, answered) && Enabled(s, a) && !PutsAway(s, a)
    ensures Progress(Next(s, a), sent || SentPacket(s, a).Some?, answered || SenderReceives(s, a))
    ensures Next(s, a).sender.packet == s.sender.packet && Next(s, a).sender.origin == s.sender.origin
  {
    if a.SenderStep? {
      assert Next(s, a) == HandlingNext(s, a.answer);
    } else {
      OthersLeaveTheHand(s, a);
    }
  }

  lemma {:induction false} RunKeepsProgress(s: State, run: seq<Action>, sent: bool, answered: bool)
    requires Progress(s, sent, answered) && AllEnabled(s, run) && KeepsInHand(s, run)
    ensures Progress(After(s, run), sent || SentDuring(s, run), answered || AnsweredDuring(s, run))
    ensures After(s, run).sender.packet == s.sender.packet && After(s, run).sender.origin == s.sender.origin
    decreases |run|
  {
    if run != [] {
      StepKeepsProgress(s, run[0], sent, answered);
      RunKeepsProgress(Next(s, run[0]), run[1..], sent || SentPacket(s, run[0]).Some?,
                       answered || SenderReceives(s, run[0]));
    }
  }

  /** From the start of `handlePacketOut` to its return, in any interleaving: it reports success
      exactly when the packet was sent and, if it asks for an ACK, a `recv` of the sender
      returned a packet in between, whichever packet that was. */
  lemma HandlingOutcome(s: State, run: seq<Action>)
    requires s.sender.Handling? && s.sender.stage == Sending
    requires AllEnabled(s, run) && KeepsInHand(s, run)
    ensures After(s, run).sender.Handling? && After(s, run).sender.packet == s.sender.packet
    ensures After(s, run).sender.stage.Handled? ==>
              (!After(s, run).sender.stage.failed <==>
               SentDuring(s, run) && (s.sender.packet.needAck ==> AnsweredDuring(s, run)))
  {
    RunKeepsProgress(s, run, false, false);
  }

  /** The call of `handlePacketOut` is before `recv` and will not reach it: the client is not
      running, and the tests before it have still to read a field that is false. */
  predicate NoAckAhead(s: State) {
    && !IsRunning(s) && s.sender.Handling? && s.sender.packet.needAck
    && match s.sender.stage
       case Sending => true
       case AckTest(Started) => true
       case AckTest(ReadSocket) => s.readSocket.None? || s.writeSocket.None?
       case AckTest(WriteSocket) => s.writeSocket.None?
       case AckReceiving => false
       case Handled(failed) => failed
  }

  lemma StepKeepsNoAckAhead(s: State, a: Action)
    requires NoAckAhead(s) && Enabled(s, a) && !PutsAway(s, a)
    ensures NoAckAhead(Next(s, a))
  {
    match a
    case SenderStep(answer) => assert Next(s, a) == HandlingNext(s, answer);
    case DisconnectStep =>
    case ReceiverStep(input) =>
    case _ =>
  }

  /** Once the client is not running, a call of `handlePacketOut` that asks for an ACK does not
      wait for one: it never reaches `recv`, and it fails, even if the packet was sent. */
  lemma {:induction false} NoAckOnceStopped(s: State, run: seq<Action>)
    requires NoAckAhead(s) && AllEnabled(s, run) && KeepsInHand(s, run)
    ensures !AnsweredDuring(s, run) && After(s, run).sender.Handling?
    ensures After(s, run).sender.stage.Handled? ==> After(s, run).sender.stage.failed
    decreases |run|
  {
    if run != [] {
      StepKeepsNoAckAhead(s, run[0]);
      NoAckOnceStopped(Next(s, run[0]), run[1..]);
    }
  }

  /** The packet in hand was the last one sent, unless it is still to be sent or was given up;
      only packets that ask for an ACK wait for one. */
  predicate HandInv(s: State) {
    s.sender.Handling? ==>
      && (s.sender.stage.Sending? || s.sender.stage == Handled(true) ||
          (s.sended != [] && s.sended[|s.sended| - 1] == s.sender.packet))
      && (s.sender.stage.AckTest? || s.sender.stage.AckReceiving? ==> s.sender.packet.needAck)
  }

  lemma HandlingKeepsHandInv(s: State, answer: Input)
    requires HandInv(s) && s.sender.Handling? && !s.sender.stage.Handled?
    ensures HandInv(SenderNext(s, answer))
  {
  }

  lemma StepKeepsHandInv(s: State, a: Action)
    requires DisconnectInv(s) && HandInv(s) && Enabled(s, a)
    ensures HandInv(Next(s, a))
  {
    if a.SenderStep? && s.sender.Handling? {
      if !s.sender.stage.Handled? {
        HandlingKeepsHandInv(s, a.answer);
      }
    } else if a.SenderStep? {
      assert Next(s, a).sender.Handling? ==> Next(s, a).sender.stage == Sending;
    } else {
      OthersLeaveTheHand(s, a);
      assert s.sender.SenderDone? || Next(s, a).sended == s.sended;
    }
  }

  /** In every run, a packet put away as confirmed is the last of the sent packets. */
  lemma {:induction false} ConfirmedWasSent(s: State, run: seq<Action>, read: Socket, write: Socket)
    requires Inv(s, read, write) && HandInv(s) && AllEnabled(s, run)
    ensures var t := After(s, run);
            t.sender.Handling? && t.sender.stage == Handled(false) ==>
              t.sended != [] && t.sended[|t.sended| - 1] == t.sender.packet
    decreases |run|
  {
    if run != [] {
      StepKeepsInv(s, run[0], read, write);
      StepKeepsHandInv(s, run[0]);
      ConfirmedWasSent(Next(s, run[0]), run[1..], read, write);
    }
  }

  lemma SyncUntouched(s: State, a: Action)
    requires DisconnectInv(s) && Enabled(s, a) && s.started && !PutsAway(s, a)
    ensures Next(s, a).sync == s.sync
  {
  }

  /** The packet a step puts away: from the main queue as failed, or from the sync queue as
      confirmed. */
  function FailedMainBy(s: State, a: Action): multiset<Packet> {
    if PutsAway(s, a) && s.sender.origin.FromMain? && s.sender.stage.failed then multiset{s.sender.packet}
    else multiset{}
  }

  function ConfirmedSyncBy(s: State, a: Action): multiset<Packet> {
    if PutsAway(s, a) && s.sender.origin.FromSync? && !s.sender.stage.failed then multiset{s.sender.packet}
    else multiset{}
  }

  function FailedMain(s: State, run: seq<Action>): multiset<Packet>
    requires AllEnabled(s, run)
    decreases |run|
  {
    if run == [] then multiset{} else FailedMainBy(s, run[0]) + FailedMain(Next(s, run[0]), run[1..])
  }

  function ConfirmedSync(s: State, run: seq<Action>): multiset<Packet>
    requires AllEnabled(s, run)
    decreases |run|
  {
    if run == [] then multiset{} else ConfirmedSyncBy(s, run[0]) + ConfirmedSync(Next(s, run[0]), run[1..])
  }

  lemma StepMovesOne(s: State, a: Action)
    requires QueuesInv(s) && DisconnectInv(s) && Enabled(s, a) && s.started
    ensures multiset(Next(s, a).sync) + ConfirmedSyncBy(s, a) == multiset(s.sync) + FailedMainBy(s, a)
  {
    if PutsAway(s, a) {
      if s.sender.origin.FromSync? {
        var i := s.sender.origin.index;
        assert s.sync == s.sync[..i] + [s.sync[i]] + s.sync[i + 1..];
      }
    } else {
      SyncUntouched(s, a);
    }
  }

  /** What comes in and goes out in two stages comes in and goes out in all. */
  lemma Transfer(a: multiset<Packet>, b: multiset<Packet>, c: multiset<Packet>,
                 in1: multiset<Packet>, out1: multiset<Packet>, in2: multiset<Packet>, out2: multiset<Packet>)
    requires b + out1 == a + in1 && c + out2 == b + in2
    ensures c + (out1 + out2) == a + (in1 + in2)
  {
    assert c + (out1 + out2) == (b + in2) + out1;
    assert (b + in2) + out1 == (a + in1) + in2;
  }

  /** Over every run up to the moment the threads are told to stop, the sync queue has gained
      exactly the main packets that failed and lost exactly the sync packets that did not. */
  lemma {:induction false} SyncHoldsTheUnconfirmed(s: State, run: seq<Action>, read: Socket, write: Socket)
    requires Inv(s, read, write) && AllEnabled(s, run) && After(s, run).started
    ensures multiset(After(s, run).sync) + ConfirmedSync(s, run) == multiset(s.sync) + FailedMain(s, run)
    decreases |run|
  {
    if run != [] {
      StoppedForEver(s, run);
      StepMovesOne(s, run[0]);
      StepKeepsInv(s, run[0], read, write);
      SyncHoldsTheUnconfirmed(Next(s, run[0]), run[1..], read, write);
      Transfer(multiset(s.sync), multiset(Next(s, run[0]).sync), multiset(After(s, run).sync),
               FailedMainBy(s, run[0]), ConfirmedSyncBy(s, run[0]),
               FailedMain(Next(s, run[0]), run[1..]), ConfirmedSync(Next(s, run[0]), run[1..]));
    }
  }

  /** The sync packets that failed since the sender last looked at the main queue. */
  function FailedInPass(s: State, a: Action, failed: seq<Packet>): seq<Packet> {
    if a.SenderStep? && s.sender.MainTest? then []
    else if PutsAway(s, a) && s.sender.origin.FromSync? && s.sender.stage.failed then failed + [s.sender.packet]
    else failed
  }

  function FailedInRun(s: State, run: seq<Action>, failed: seq<Packet>): seq<Packet>
    requires AllEnabled(s, run)
    decreases |run|
  {
    if run == [] then failed
    else FailedInRun(Next(s, run[0]), run[1..], FailedInPass(s, run[0], failed))
  }

  /** The part of the sync queue the sender is past holds just the packets that failed. */
  predicate PassInv(s: State, failed: seq<Packet>) {
    && (s.sender.SyncTest? ==> s.sender.index <= |s.sync| && s.sync[..s.sender.index] == failed)
    && (s.sender.Handling? && s.sender.origin.FromSync? ==>
          s.sender.origin.index < |s.sync| && s.sync[..s.sender.origin.index] == failed)
    && (s.sender.Sleeping? ==> s.sync == failed)
  }

  lemma PutAwayKeepsPassInv(s: State, failed: seq<Packet>, answer: Input)
    requires QueuesInv(s) && PassInv(s, failed) && s.sender.Handling? && s.sender.stage.Handled?
    ensures PassInv(SenderNext(s, answer), FailedInPass(s, SenderStep(answer), failed))
  {
    if s.sender.origin.FromSync? {
      var i := s.sender.origin.index;
      assert s.sync[..i + 1] == s.sync[..i] + [s.sync[i]];
      assert (s.sync[..i] + s.sync[i + 1..])[..i] == s.sync[..i];
    }
  }

  lemma StepKeepsPassInv(s: State, a: Action, failed: seq<Packet>)
    requires QueuesInv(s) && DisconnectInv(s) && PassInv(s, failed) && Enabled(s, a)
    ensures PassInv(Next(s, a), FailedInPass(s, a, failed))
  {
    if PutsAway(s, a) {
      PutAwayKeepsPassInv(s, failed, a.answer);
    } else {
      SyncKeptUnlessDone(s, a);
      if !a.SenderStep? {
        OthersLeaveTheHand(s, a);
      }
    }
  }

  lemma SyncKeptUnlessDone(s: State, a: Action)
    requires DisconnectInv(s) && Enabled(s, a) && !PutsAway(s, a)
    ensures Next(s, a).sync == s.sync || s.sender.SenderDone?
  {
  }

  /** Every pass of the sender tries every sync packet: whenever it goes to sleep, exactly the
      packets that failed in that pass are waiting. */
  lemma {:induction false} EveryPassIsComplete(s: State, run: seq<Action>, failed: seq<Packet>, read: Socket, write: Socket)
    requires Inv(s, read, write) && PassInv(s, failed) && AllEnabled(s, run)
    ensures After(s, run).sender.Sleeping? ==> After(s, run).sync == FailedInRun(s, run, failed)
    decreases |run|
  {
    if run != [] {
      StepKeepsInv(s, run[0], read, write);
      StepKeepsPassInv(s, run[0], failed);
      EveryPassIsComplete(Next(s, run[0]), run[1..], FailedInPass(s, run[0], failed), read, write);
    }
  }

  // ----- The main queue -----

  /** The packets queued in a run, in order. */
  function QueuedInOrder(run: seq<Action>): seq<Packet> {
    if run == [] then [] else (if run[0].SendPacket? then [run[0].packet] else []) + QueuedInOrder(run[1..])
  }

  /** A step pops the main queue: the sender puts a packet of it away, or `disconnect` drains it. */
  predicate PopsMain(s: State, a: Action) {
    || (PutsAway(s, a) && s.sender.origin.FromMain?)
    || (a.DisconnectStep? && s.disconnect.Drain? && s.main != [])
  }

  function Pops(s: State, run: seq<Action>): nat
    requires AllEnabled(s, run)
    decreases |run|
  {
    if run == [] then 0 else (if PopsMain(s, run[0]) then 1 else 0) + Pops(Next(s, run[0]), run[1..])
  }

  lemma StepMovesQueue(s: State, a: Action)
    requires QueuesInv(s) && Enabled(s, a)
    ensures PopsMain(s, a) ==> s.main != [] && Next(s, a).main == s.main[1..]
    ensures a.SendPacket? ==> !PopsMain(s, a) && Next(s, a).main == s.main + [a.packet]
    ensures !PopsMain(s, a) && !a.SendPacket? ==> Next(s, a).main == s.main
  {
  }

  /** A queue after one packet more or less, and then after further ones. */
  lemma QueueGoesOn(main: seq<Packet>, next: seq<Packet>, first: seq<Packet>, later: seq<Packet>,
                    popped: nat, popsLater: nat)
    requires popped <= |main| && next == main[popped..] + first && popsLater <= |next + later|
    ensures popped + popsLater <= |main + (first + later)|
    ensures (next + later)[popsLater..] == (main + (first + later))[popped + popsLater..]
  {
    assert next + later == (main + (first + later))[popped..];
  }

  /** Over every run the main queue is a FIFO: everything that was in it or was queued since,
      in order, less one packet at the front for each pop. */
  lemma {:induction false} MainQueueIsFifo(s: State, run: seq<Action>, read: Socket, write: Socket)
    requires Inv(s, read, write) && AllEnabled(s, run)
    ensures Pops(s, run) <= |s.main + QueuedInOrder(run)|
    ensures After(s, run).main == (s.main + QueuedInOrder(run))[Pops(s, run)..]
    decreases |run|
  {
    if run == [] {
      assert s.main + [] == s.main;
    } else {
      var a, t, queued := run[0], Next(s, run[0]), QueuedInOrder(run[1..]);
      StepMovesQueue(s, a);
      StepKeepsInv(s, a, read, write);
      MainQueueIsFifo(t, run[1..], read, write);
      QueueGoesOn(s.main, t.main, if a.SendPacket? then [a.packet] else [], queued,
                  if PopsMain(s, a) then 1 else 0, Pops(t, run[1..]));
    }
  }

  // ----- Which packet gets its turn -----

  /** `m` may be what is left of the queue `q` after pops at the front. */
  predicate SameLast(m: seq<Packet>, q: seq<Packet>) {
    m != [] ==> q != [] && m[|m| - 1] == q[|q| - 1]
  }

  predicate FromMainIsLast(s: State, q: seq<Packet>) {
    s.sender.Handling? && s.sender.origin.FromMain? ==> q != [] && s.sender.packet == q[|q| - 1]
  }

  lemma SenderTakesTheLast(s: State, answer: Input, q: seq<Packet>)
    requires SameLast(s.main, q) && FromMainIsLast(s, q)
    ensures FromMainIsLast(SenderNext(s, answer), q)
  {
  }

  /** The sender takes a packet from the back of the main queue and pops one from the front.
      So of a queue that nobody adds to, only the last packet is ever in its hand. */
  lemma {:induction false} OnlyTheLastIsSent(s: State, run: seq<Action>, q: seq<Packet>)
    requires AllEnabled(s, run) && NobodySends(run) && SameLast(s.main, q) && FromMainIsLast(s, q)
    ensures SameLast(After(s, run).main, q) && FromMainIsLast(After(s, run), q)
    decreases |run|
  {
    if run != [] {
      MainOnlyShrinks(s, run[0]);
      if run[0].SenderStep? {
        SenderTakesTheLast(s, run[0].answer, q);
      } else {
        OthersLeaveTheHand(s, run[0]);
      }
      OnlyTheLastIsSent(Next(s, run[0]), run[1..], q);
    }
  }

  /** The packet the sender takes from the main queue in a step, if it does. */
  function TakenBy(s: State, a: Action): seq<Packet> {
    if a.SenderStep? && s.sender.MainTest? && s.main != [] then [s.main[|s.main| - 1]] else []
  }

  function TakenFromMain(s: State, run: seq<Action>): seq<Packet>
    requires AllEnabled(s, run)
    decreases |run|
  {
    if run == [] then [] else TakenBy(s, run[0]) + TakenFromMain(Next(s, run[0]), run[1..])
  }

  lemma {:induction false} TakenAreLast(s: State, run: seq<Action>, q: seq<Packet>, p: Packet)
    requires AllEnabled(s, run) && NobodySends(run) && SameLast(s.main, q) && p in TakenFromMain(s, run)
    ensures q != [] && p == q[|q| - 1]
    decreases |run|
  {
    if p !in TakenBy(s, run[0]) {
      MainOnlyShrinks(s, run[0]);
      TakenAreLast(Next(s, run[0]), run[1..], q, p);
    }
  }

  function InHandFromMain(s: State): nat {
    if s.sender.Handling? && s.sender.origin.FromMain? then 1 else 0
  }

  lemma StepTakesOrPops(s: State, a: Action)
    requires QueuesInv(s) && DisconnectInv(s) && Enabled(s, a) && !a.SendPacket? && !s.sender.SenderDone?
    ensures |TakenBy(s, a)| + |Next(s, a).main| - InHandFromMain(Next(s, a)) == |s.main| - InHandFromMain(s)
  {
    if a.SenderStep? {
      SenderTakesOrPops(s, a.answer);
    } else {
      OthersLeaveTheHand(s, a);
      assert Next(s, a).main == s.main;
    }
  }

  lemma SenderTakesOrPops(s: State, answer: Input)
    requires QueuesInv(s)
    ensures var t := SenderNext(s, answer);
            |TakenBy(s, SenderStep(answer))| + |t.main| - InHandFromMain(t) == |s.main| - InHandFromMain(s)
  {
  }

  /** Each packet popped from a main queue that nobody adds to was preceded by one turn. */
  lemma {:induction false} TurnsMatchPops(s: State, run: seq<Action>, read: Socket, write: Socket)
    requires Inv(s, read, write) && AllEnabled(s, run) && NobodySends(run) && !After(s, run).sender.SenderDone?
    ensures |TakenFromMain(s, run)| + |After(s, run).main| - InHandFromMain(After(s, run))
         == |s.main| - InHandFromMain(s)
    decreases |run|
  {
    if run != [] {
      SenderWasNotDone(s, run);
      StepKeepsInv(s, run[0], read, write);
      StepTakesOrPops(s, run[0]);
      TurnsMatchPops(Next(s, run[0]), run[1..], read, write);
    }
  }

  lemma {:induction false} SenderWasNotDone(s: State, run: seq<Action>)
    requires AllEnabled(s, run) && !After(s, run).sender.SenderDone?
    ensures !s.sender.SenderDone?
    decreases |run|
  {
    if run != [] {
      SenderWasNotDone(Next(s, run[0]), run[1..]);
      if !run[0].SenderStep? {
        OthersLeaveTheHand(s, run[0]);
      }
    }
  }

  /** So when the sender has emptied a main queue that nobody adds to, it has handled the last
      packet once for each packet that was queued, and nothing else. */
  lemma TheLastIsHandledForEach(s: State, run: seq<Action>, read: Socket, write: Socket)
    requires Inv(s, read, write) && s.sender == MainTest && AllEnabled(s, run) && NobodySends(run)
    requires !After(s, run).sender.SenderDone? && After(s, run).main == []
    ensures |TakenFromMain(s, run)| == |s.main|
    ensures forall p :: p in TakenFromMain(s, run) ==> p == s.main[|s.main| - 1]
  {
    RunKeepsInv(s, run, read, write);
    TurnsMatchPops(s, run, read, write);
    forall p | p in TakenFromMain(s, run)
      ensures s.main != [] && p == s.main[|s.main| - 1]
    {
      TakenAreLast(s, run, s.main, p);
    }
  }

  /** The run brings the sender to a point where it handles `p` for the main queue. */
  predicate Handles(s: State, run: seq<Action>, p: Packet) {
    && AllEnabled(s, run) && NobodySends(run)
    && After(s, run).sender.Handling? && After(s, run).sender.origin == FromMain
    && After(s, run).sender.packet == p
  }

  /** Of the packets in a queue that nobody adds to, each gets its turn exactly when they are
      all the same packet: of two different ones, the earlier is popped without being sent. */
  lemma EveryPacketHandledIffAllAlike(s: State, q: seq<Packet>)
    requires s.sender == MainTest && s.main == q && q != []
    ensures (forall p :: p in q ==> exists run :: Handles(s, run, p)) <==> (forall p :: p in q ==> p == q[|q| - 1])
  {
    var last := q[|q| - 1];
    forall p, run | Handles(s, run, p)
      ensures p == last
    {
      OnlyTheLastIsSent(s, run, q);
    }
    var run := [SenderStep(Send(false))];
    assert Next(s, run[0]) == After(Next(s, run[0]), run[1..]) == After(s, run);
    assert Handles(s, run, last);
  }

  /** A fresh client with two different packets to send, on a network that takes everything: it
      sends the second one twice and forgets the first. */
  lemma FirstPacketIsLost(read: Socket, write: Socket, p: Packet, q: Packet)
    requires p != q && !p.needAck && !q.needAck
    ensures var s, x := Created(read, write, [p, q], []), SenderStep(Send(true));
            var run := [x, x, x, x] + ([x, x, x, x] + ([x] + [x]));
            && AllEnabled(s, run) && !After(s, run).sender.SenderDone?
            && After(s, run).sended == [q, q] && After(s, run).main == [] && After(s, run).sync == []
  {
    var s, x := Created(read, write, [p, q], []), SenderStep(Send(true));
    FourSteps(s, x, x, x, x);
    var t := After(s, [x, x, x, x]);
    assert t == s.(sender := Handling(q, FromMain, Sending));
    FourSteps(t, x, x, x, x);
    var u := After(t, [x, x, x, x]);
    assert u == s.(sender := Handling(q, FromMain, Handled(false)), main := [q], sended := [q, q]);
    OneStep(Next(u, x), x);
    FirstStep(u, x, [x]);
    RunsCompose(t, [x, x, x, x], [x] + [x]);
    RunsCompose(s, [x, x, x, x], [x, x, x, x] + ([x] + [x]));
  }

  /** A fresh client with a packet that asks for an ACK: whatever packet arrives confirms it. */
  lemma AnyPacketConfirms(read: Socket, write: Socket, p: Packet, other: Packet)
    requires p.needAck
    ensures var s, x := Created(read, write, [p], []), SenderStep(Send(true));
            var run := [x, x, x, x] + ([x, x, x, x] + [SenderStep(Recv(Data(other)))]);
            && AllEnabled(s, run) && After(s, run).sender == Handling(p, FromMain, Handled(false))
            && After(s, run).received == [other]
  {
    var s, x, answer := Created(read, write, [p], []), SenderStep(Send(true)), SenderStep(Recv(Data(other)));
    FourSteps(s, x, x, x, x);
    var t := After(s, [x, x, x, x]);
    assert t == s.(sender := Handling(p, FromMain, Sending));
    FourSteps(t, x, x, x, x);
    var u := After(t, [x, x, x, x]);
    assert u == s.(sender := Handling(p, FromMain, AckReceiving), sended := [p]);
    OneStep(u, answer);
    RunsCompose(t, [x, x, x, x], [answer]);
    RunsCompose(s, [x, x, x, x], [x, x, x, x] + [answer]);
  }

  // ----- Where packets come from -----

  /** Every packet the client has or had to send is in `known`. */
  predicate OnlyKnown(s: State, known: set<Packet>) {
    && (forall p :: p in s.main ==> p in known)
    && (forall p :: p in s.sync ==> p in known)
    && (forall p :: p in s.sended ==> p in known)
    && (s.sender.Handling? ==> s.sender.packet in known)
  }

  /** The packets that callers of `sendPacket` queue in a run. */
  function Queued(run: seq<Action>): set<Packet> {
    if run == [] then {} else (if run[0].SendPacket? then {run[0].packet} else {}) + Queued(run[1..])
  }

  lemma HandlingKeepsKnown(s: State, answer: Input, known: set<Packet>)
    requires OnlyKnown(s, known) && s.sender.Handling? && !s.sender.stage.Handled?
    ensures OnlyKnown(HandlingNext(s, answer), known)
  {
    var t := HandlingNext(s, answer);
    assert t.main == s.main && t.sync == s.sync && t.sender.Handling? && t.sender.packet == s.sender.packet;
    assert t.sended == s.sended || t.sended == s.sended + [s.sender.packet];
  }

  lemma PutAwayKeepsKnown(s: State, failed: bool, known: set<Packet>)
    requires OnlyKnown(s, known) && s.sender.Handling?
    ensures OnlyKnown(PacketHandled(s, failed), known)
  {
  }

  lemma SenderKeepsKnown(s: State, answer: Input, known: set<Packet>)
    requires OnlyKnown(s, known)
    ensures OnlyKnown(SenderNext(s, answer), known)
  {
    if s.sender.Handling? {
      if s.sender.stage.Handled? {
        PutAwayKeepsKnown(s, s.sender.stage.failed, known);
      } else {
        HandlingKeepsKnown(s, answer, known);
      }
    }
  }

  lemma StepKeepsKnown(s: State, a: Action, known: set<Packet>)
    requires OnlyKnown(s, known) && Enabled(s, a) && (a.SendPacket? ==> a.packet in known)
    ensures OnlyKnown(Next(s, a), known)
  {
    if a.SenderStep? {
      SenderKeepsKnown(s, a.answer, known);
    } else {
      OthersLeaveTheHand(s, a);
      OthersAddNothing(s, a);
    }
  }

  lemma ReceiverAddsNothing(s: State, input: Received)
    ensures var t := ReceiverNext(s, input); t.sync == s.sync && t.sended == s.sended && t.main == s.main
  {
  }

  lemma OthersAddNothing(s: State, a: Action)
    requires Enabled(s, a) && !a.SenderStep?
    ensures var t := Next(s, a);
            && (t.sync == s.sync || t.sync == []) && (t.sended == s.sended || t.sended == [])
            && (t.main == s.main || (s.main != [] && t.main == s.main[1..]) ||
                (a.SendPacket? && t.main == s.main + [a.packet]))
  {
    if a.ReceiverStep? {
      ReceiverAddsNothing(s, a.input);
    }
  }

  lemma {:induction false} RunKeepsKnown(s: State, run: seq<Action>, known: set<Packet>)
    requires OnlyKnown(s, known) && AllEnabled(s, run) && Queued(run) <= known
    ensures OnlyKnown(After(s, run), known)
    decreases |run|
  {
    if run != [] {
      StepKeepsKnown(s, run[0], known);
      RunKeepsKnown(Next(s, run[0]), run[1..], known);
    }
  }

  /** Nothing is sent, or waits to be sent, that was not queued. */
  lemma OnlyQueuedIsSent(read: Socket, write: Socket, main: seq<Packet>, sync: seq<Packet>, run: seq<Action>)
    requires AllEnabled(Created(read, write, main, sync), run)
    ensures var s := After(Created(read, write, main, sync), run);
            forall p :: p in s.sended || p in s.main || p in s.sync ==> p in main || p in sync || p in Queued(run)
  {
    var known := (set p | p in main) + (set p | p in sync) + Queued(run);
    RunKeepsKnown(Created(read, write, main, sync), run, known);
  }
}
