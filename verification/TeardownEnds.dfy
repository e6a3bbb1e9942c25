/** How long a teardown takes, and when it ends at all. */
module TeardownEnds {
  import opened Teardown

  // ----- A bound -----

  /** One of the fields `isRunning()` has still to read, from `f` on, is false. */
  predicate ReadsFalse(s: State, f: Field) {
    match f
    case Started => !IsRunning(s)
    case ReadSocket => s.readSocket.None? || s.writeSocket.None?
    case WriteSocket => s.writeSocket.None?
  }

  function FieldsFrom(f: Field): nat {
    match f
    case Started => 3
    case ReadSocket => 2
    case WriteSocket => 1
  }

  /** A bound on the steps the receiver takes once the client is not running: a test that will
      read a false field leads out of its loop, any other to one more round at most. */
  function ReceiverLeft(s: State): nat {
    match s.receiver
    case LoopTest(f) => (if ReadsFalse(s, f) then 3 else 9) + FieldsFrom(f)
    case ReceiveTest(f) => (if ReadsFalse(s, f) then 6 else 10) + FieldsFrom(f)
    case Receiving => 10
    case ReceiverShutdown => 3
    case ReceiverClose => 2
    case ReceiverReset => 1
    case ReceiverDone => 0
  }

  /** For the sender: what it takes to handle all packets that are queued, and then to stop. */
  function LoopLeft(s: State, origin: Origin): nat {
    match origin
    case FromMain => 9 + 14 * |s.main| + 7 * |s.sync|
    case FromSync(i) => 8 + 7 * (if i < |s.sync| then |s.sync| - i else 0)
  }

  function StageDone(stage: Stage): nat {
    match stage
    case Sending => 1
    case AckTest(f) => 5 - FieldsFrom(f)
    case AckReceiving => 5
    case Handled(_) => 6
  }

  function SenderLeft(s: State): int {
    match s.sender
    case SenderTest(f) => (if ReadsFalse(s, f) then 3 else LoopLeft(s, FromMain)) + FieldsFrom(f)
    case MainTest => LoopLeft(s, FromMain)
    case SyncTest(i) => LoopLeft(s, FromSync(i))
    case Handling(_, origin, stage) => LoopLeft(s, origin) - StageDone(stage)
    case Sleeping => 7
    case SenderShutdown => 3
    case SenderClose => 2
    case SenderReset => 1
    case SenderDone => 0
  }

  function DisconnectLeft(s: State): nat {
    match s.disconnect
    case TestStarted => 10 + |s.main|
    case TestDisconnected => 9 + |s.main|
    case StopThreads => 8 + |s.main|
    case JoinReceiver => 7 + |s.main|
    case JoinSender => 6 + |s.main|
    case ClearReceived => 5 + |s.main|
    case ClearSended => 4 + |s.main|
    case ClearSync => 3 + |s.main|
    case Drain => 2 + |s.main|
    case SetDisconnected => 1
    case _ => 0
  }

  function Left(s: State): int {
    ReceiverLeft(s) + SenderLeft(s) + DisconnectLeft(s)
  }

  lemma LeftIsNotNegative(s: State)
    requires QueuesInv(s)
    ensures 0 <= Left(s)
  {
  }

  predicate Working(a: Action) {
    a.ReceiverStep? || a.SenderStep? || a.DisconnectStep?
  }

  // ----- Every step counts -----

  /** The fields of `isRunning()` only ever become false. */
  predicate FieldsFall(s: State, t: State) {
    && (t.started ==> s.started)
    && (t.readSocket.Some? ==> s.readSocket.Some?)
    && (t.writeSocket.Some? ==> s.writeSocket.Some?)
  }

  lemma ReceiverFalls(s: State, input: Received)
    ensures FieldsFall(s, ReceiverNext(s, input))
  {
  }

  lemma SenderFalls(s: State, answer: Input)
    ensures FieldsFall(s, SenderNext(s, answer))
  {
    if !SenderStopped(s) {
      LoopLeavesSockets(s, answer);
    }
    assert SenderNext(s, answer).started == s.started;
  }

  lemma StepFalls(s: State, a: Action)
    requires Enabled(s, a)
    ensures FieldsFall(s, Next(s, a))
  {
    match a
    case ReceiverStep(input) => ReceiverFalls(s, input);
    case SenderStep(answer) => SenderFalls(s, answer);
    case _ =>
  }

  lemma ReceiverStepCounts(s: State, input: Received)
    requires !IsRunning(s) && !s.receiver.ReceiverDone?
    ensures ReceiverLeft(ReceiverNext(s, input)) < ReceiverLeft(s)
  {
  }

  lemma SenderStepCounts(s: State, answer: Input)
    requires !IsRunning(s) && QueuesInv(s) && !s.sender.SenderDone?
    ensures SenderLeft(SenderNext(s, answer)) < SenderLeft(s)
  {
    if s.sender.Handling? {
      if s.sender.stage.Handled? {
        HandledCounts(s, s.sender.stage.failed);
      } else {
        HandlingCounts(s, answer);
      }
    }
  }

  lemma HandlingCounts(s: State, answer: Input)
    requires s.sender.Handling? && !s.sender.stage.Handled?
    ensures SenderLeft(HandlingNext(s, answer)) < SenderLeft(s)
  {
    var t := HandlingNext(s, answer);
    assert t.main == s.main && t.sync == s.sync && t.sender.Handling? && t.sender.origin == s.sender.origin;
  }

  lemma HandledCounts(s: State, failed: bool)
    requires QueuesInv(s) && s.sender.Handling? && s.sender.stage.Handled?
    ensures SenderLeft(PacketHandled(s, failed)) < SenderLeft(s)
  {
    var t := PacketHandled(s, failed);
    match s.sender.origin
    case FromMain =>
      assert |t.main| == |s.main| - 1 && |t.sync| <= |s.sync| + 1;
    case FromSync(i) =>
      assert t.main == s.main && |t.sync| - t.sender.index == |s.sync| - i - 1;
  }

  lemma DisconnectStepCounts(s: State)
    requires Enabled(s, DisconnectStep)
    ensures DisconnectLeft(DisconnectNext(s)) < DisconnectLeft(s)
  {
  }

  /** What one thread does leaves the bounds of the others alone or lowers them. */
  lemma ReceiverLeftFalls(s: State, t: State)
    requires !IsRunning(s) && t.receiver == s.receiver && FieldsFall(s, t)
    ensures ReceiverLeft(t) <= ReceiverLeft(s)
  {
  }

  lemma SenderLeftFalls(s: State, t: State)
    requires !IsRunning(s) && t.sender == s.sender && FieldsFall(s, t)
    requires s.sender.SenderDone? || (t.main == s.main && t.sync == s.sync)
    ensures SenderLeft(t) <= SenderLeft(s)
  {
  }

  lemma DisconnectLeftFalls(s: State, t: State)
    requires t.disconnect == s.disconnect && |t.main| <= |s.main|
    ensures DisconnectLeft(t) <= DisconnectLeft(s)
  {
  }

  lemma SenderTouches(s: State, answer: Input)
    ensures var t := SenderNext(s, answer);
            t.disconnect == s.disconnect && t.receiver == s.receiver && |t.main| <= |s.main|
  {
  }

  lemma ReceiverTouches(s: State, input: Received)
    ensures var t := ReceiverNext(s, input);
            t.disconnect == s.disconnect && t.sender == s.sender && t.main == s.main && t.sync == s.sync
  {
  }

  lemma DisconnectTouches(s: State)
    requires DisconnectInv(s) && Enabled(s, DisconnectStep)
    ensures var t := DisconnectNext(s);
            && t.receiver == s.receiver && t.sender == s.sender
            && (s.sender.SenderDone? || (t.main == s.main && t.sync == s.sync))
  {
  }

  /** Once the client is not running, whether it was told to stop or lost a connection, every
      step of any thread is a step towards the end: no thread can spin, whatever the network
      answers. */
  lemma EveryStepCounts(s: State, a: Action, read: Socket, write: Socket)
    requires Inv(s, read, write) && !IsRunning(s) && Enabled(s, a) && Working(a)
    ensures Left(Next(s, a)) < Left(s)
  {
    var t := Next(s, a);
    StepFalls(s, a);
    match a
    case ReceiverStep(input) =>
      ReceiverStepCounts(s, input);
      ReceiverTouches(s, input);
      SenderLeftFalls(s, t);
      DisconnectLeftFalls(s, t);
    case SenderStep(answer) =>
      SenderStepCounts(s, answer);
      SenderTouches(s, answer);
      ReceiverLeftFalls(s, t);
      DisconnectLeftFalls(s, t);
    case DisconnectStep =>
      DisconnectStepCounts(s);
      DisconnectTouches(s);
      ReceiverLeftFalls(s, t);
      SenderLeftFalls(s, t);
  }

  lemma SendCostsSender(s: State, t: State)
    requires t == s.(main := t.main, late := t.late) && |t.main| == |s.main| + 1
    ensures SenderLeft(t) <= SenderLeft(s) + 14
  {
    match s.sender
    case Handling(_, origin, _) => assert LoopLeft(t, origin) <= LoopLeft(s, origin) + 14;
    case _ => assert LoopLeft(t, FromMain) <= LoopLeft(s, FromMain) + 14;
  }

  /** A queued packet costs the sender and the drain a bounded number of steps. */
  lemma SendCosts(s: State, p: Packet)
    ensures Left(Next(s, SendPacket(p))) <= Left(s) + 15
  {
    var t := Next(s, SendPacket(p));
    SendCostsSender(s, t);
    assert DisconnectLeft(t) <= DisconnectLeft(s) + 1;
    assert ReceiverLeft(t) == ReceiverLeft(s);
  }

  // ----- Runs -----

  /** How many packets a run queues. */
  function Sends(run: seq<Action>): nat {
    if run == [] then 0 else (if run[0].SendPacket? then 1 else 0) + Sends(run[1..])
  }

  /** How often a run calls `disconnect`. */
  function Calls(run: seq<Action>): nat {
    if run == [] then 0 else (if run[0].Call? then 1 else 0) + Calls(run[1..])
  }

  predicate NobodyCalls(run: seq<Action>) {
    forall a :: a in run ==> !a.Call?
  }

  lemma {:induction false} NobodyCallsMeansNone(run: seq<Action>)
    requires NobodyCalls(run)
    ensures Calls(run) == 0
    decreases |run|
  {
    if run != [] {
      NobodyCallsMeansNone(run[1..]);
    }
  }

  /** The bound on a run with so many sends and calls, from what is left and queued. */
  function Budget(left: int, queued: nat, sends: nat, calls: nat): int {
    left + 16 * sends + calls * (11 + queued + sends)
  }

  lemma SmallerBudget(left: int, queued: nat, sends: nat, calls: nat, moreLeft: int, moreQueued: nat)
    requires left <= moreLeft && queued <= moreQueued
    ensures Budget(left, queued, sends, calls) <= Budget(moreLeft, moreQueued, sends, calls)
  {
    assert calls * (11 + queued + sends) <= calls * (11 + moreQueued + sends);
  }

  lemma BudgetOfOneMore(left: int, queued: nat, sends: nat, calls: nat)
    ensures Budget(left + 15, queued + 1, sends, calls) + 1 <= Budget(left, queued, sends + 1, calls)
    ensures Budget(left + 10 + queued, queued, sends, calls) + 1 <= Budget(left, queued, sends, calls + 1)
    ensures Budget(left - 1, queued, sends, calls) + 1 == Budget(left, queued, sends, calls)
  {
    assert (calls + 1) * (11 + queued + sends) == calls * (11 + queued + sends) + 11 + queued + sends;
  }

  /** What a step takes off the bound, or adds to it. */
  lemma StepCosts(s: State, a: Action, read: Socket, write: Socket)
    requires Inv(s, read, write) && !IsRunning(s) && Enabled(s, a)
    ensures Left(Next(s, a)) <= Left(s) + (if a.SendPacket? then 15 else if a.Call? then 10 + |s.main| else -1)
    ensures |Next(s, a).main| <= |s.main| + if a.SendPacket? then 1 else 0
    ensures !IsRunning(Next(s, a))
  {
    StepFalls(s, a);
    match a
    case SendPacket(p) => SendCosts(s, p);
    case Call =>
      var t := Next(s, a);
      assert SenderLeft(t) == SenderLeft(s) && ReceiverLeft(t) == ReceiverLeft(s);
    case _ =>
      EveryStepCounts(s, a, read, write);
      MainOnlyShrinks(s, a);
  }

  /** A step costs at least one unit of the bound. */
  lemma StepFitsBudget(s: State, a: Action, read: Socket, write: Socket, sends: nat, calls: nat)
    requires Inv(s, read, write) && !IsRunning(s) && Enabled(s, a)
    ensures Budget(Left(Next(s, a)), |Next(s, a).main|, sends, calls) + 1
         <= Budget(Left(s), |s.main|, sends + (if a.SendPacket? then 1 else 0), calls + (if a.Call? then 1 else 0))
  {
    StepCosts(s, a, read, write);
    var left, queued := Left(s), |s.main|;
    BudgetOfOneMore(left, queued, sends, calls);
    SmallerBudget(Left(Next(s, a)), |Next(s, a).main|, sends, calls,
                  left + (if a.SendPacket? then 15 else if a.Call? then 10 + queued else -1),
                  queued + if a.SendPacket? then 1 else 0);
  }

  /** A run of a client that is not running is no longer than a bound on what was to do, plus a
      constant for each packet queued meanwhile, plus what each call of `disconnect` has to do. */
  lemma {:induction false} RunsAreShort(s: State, run: seq<Action>, read: Socket, write: Socket)
    requires Inv(s, read, write) && !IsRunning(s) && AllEnabled(s, run)
    ensures |run| <= Budget(Left(s), |s.main|, Sends(run), Calls(run))
    decreases |run|
  {
    if run == [] {
      LeftIsNotNegative(s);
    } else {
      var a, rest := run[0], run[1..];
      StepKeepsInv(s, a, read, write);
      StepCosts(s, a, read, write);
      RunsAreShort(Next(s, a), rest, read, write);
      StepFitsBudget(s, a, read, write, Sends(rest), Calls(rest));
    }
  }

  lemma {:induction false} CalledForEver(s: State, run: seq<Action>)
    requires AllEnabled(s, run) && (!s.disconnect.Idle? || Calls(run) > 0)
    ensures !After(s, run).disconnect.Idle?
    decreases |run|
  {
    if run != [] {
      CalledForEver(Next(s, run[0]), run[1..]);
    }
  }

  /** The two threads of the client can take no step. */
  ghost predicate ThreadsQuiet(s: State) {
    forall a: Action :: a.ReceiverStep? || a.SenderStep? ==> !Enabled(s, a)
  }

  /** Nor can `disconnect`. */
  ghost predicate Quiet(s: State) {
    ThreadsQuiet(s) && !Enabled(s, DisconnectStep)
  }

  /** Then the threads have ended and closed their sockets, and `disconnect` was never called or
      has done its work. */
  lemma QuietIsDown(s: State, read: Socket, write: Socket)
    requires Inv(s, read, write) && ThreadsQuiet(s)
    ensures s.readSocket.None? && s.writeSocket.None? && |s.closes| == 2
    ensures Quiet(s) ==> s.disconnect.Idle? || s.disconnected
  {
    if !s.receiver.ReceiverDone? {
      assert Enabled(s, ReceiverStep(TimedOut));
    } else if !s.sender.SenderDone? {
      assert Enabled(s, SenderStep(AnAnswer(s)));
    }
  }

  /** A client that is not running, because it was told to stop or because it lost a connection,
      comes to rest within that many steps, whoever calls `sendPacket` or `disconnect` meanwhile;
      at rest both threads have ended and both sockets are closed, also when nobody called
      `disconnect`, and a client that somebody disconnected is disconnected. */
  lemma LostConnectionEndsThreads(s: State, run: seq<Action>, read: Socket, write: Socket)
    requires Inv(s, read, write) && !IsRunning(s) && AllEnabled(s, run)
    ensures |run| <= Left(s) + 16 * Sends(run) + Calls(run) * (11 + |s.main| + Sends(run))
    ensures ThreadsQuiet(After(s, run)) ==>
              var t := After(s, run);
              t.readSocket.None? && t.writeSocket.None? && |t.closes| == 2
    ensures Quiet(After(s, run)) && Calls(run) > 0 ==> After(s, run).disconnected
  {
    RunsAreShort(s, run, read, write);
    RunKeepsInv(s, run, read, write);
    if ThreadsQuiet(After(s, run)) {
      QuietIsDown(After(s, run), read, write);
      if Calls(run) > 0 {
        CalledForEver(s, run);
      }
    }
  }

  /** Some answer the sender's next step can take. */
  function AnAnswer(s: State): Input {
    if s.sender.Handling? && s.sender.stage.AckReceiving? then Recv(TimedOut) else Send(false)
  }

  /** While `disconnect` has not returned, some thread can take a step. */
  lemma NobodyIsStuck(s: State, read: Socket, write: Socket)
    requires Inv(s, read, write) && TearingDown(s)
    ensures exists a :: Working(a) && Enabled(s, a)
  {
    if !s.receiver.ReceiverDone? {
      assert Enabled(s, ReceiverStep(TimedOut)) && Working(ReceiverStep(TimedOut));
    } else if !s.sender.SenderDone? {
      assert Enabled(s, SenderStep(AnAnswer(s))) && Working(SenderStep(AnAnswer(s)));
    } else {
      assert Enabled(s, DisconnectStep) && Working(DisconnectStep);
    }
  }

  predicate DownOrDone(s: State) {
    TearingDown(s) || s.disconnect == Returned(true)
  }

  lemma StepTearsDown(s: State, a: Action)
    requires Enabled(s, a) && !a.Call? && DownOrDone(s)
    ensures DownOrDone(Next(s, a))
    ensures s.disconnect == Returned(true) ==> Next(s, a).disconnect == Returned(true)
  {
    if !a.DisconnectStep? {
      assert Next(s, a).disconnect == s.disconnect;
    }
  }

  lemma {:induction false} StillTearingDown(s: State, run: seq<Action>)
    requires AllEnabled(s, run) && DownOrDone(s) && NobodyCalls(run)
    ensures DownOrDone(After(s, run))
    ensures s.disconnect == Returned(true) ==> After(s, run).disconnect == Returned(true)
    decreases |run|
  {
    if run != [] {
      StepTearsDown(s, run[0]);
      StillTearingDown(Next(s, run[0]), run[1..]);
    }
  }

  lemma BoundsWithoutCalls(s: State, run: seq<Action>, read: Socket, write: Socket)
    requires Inv(s, read, write) && !IsRunning(s) && AllEnabled(s, run)
    ensures |run| <= Budget(Left(s), |s.main|, Sends(run), Calls(run))
    ensures NobodyCalls(run) ==> |run| <= Left(s) + 16 * Sends(run)
  {
    RunsAreShort(s, run, read, write);
    if NobodyCalls(run) {
      NobodyCallsMeansNone(run);
    }
  }

  lemma QuietHasReturned(s: State, read: Socket, write: Socket)
    requires Inv(s, read, write) && Quiet(s) && DownOrDone(s)
    ensures s.disconnect == Returned(true)
  {
    if TearingDown(s) {
      NobodyIsStuck(s, read, write);
    }
  }

  /** A teardown that has stopped the threads takes boundedly many steps for each packet that
      is queued and each further call of `disconnect`, under every schedule and every behaviour
      of the network; and it never stops before `disconnect` has done its work and, unless it
      was called again, returned true. */
  lemma TeardownFinishes(s: State, run: seq<Action>, read: Socket, write: Socket)
    requires Inv(s, read, write) && TearingDown(s) && AllEnabled(s, run)
    ensures |run| <= Left(s) + 16 * Sends(run) + Calls(run) * (11 + |s.main| + Sends(run))
    ensures NobodyCalls(run) ==> |run| <= Left(s) + 16 * Sends(run)
    ensures Quiet(After(s, run)) ==> After(s, run).disconnected
    ensures Quiet(After(s, run)) && NobodyCalls(run) ==> After(s, run).disconnect == Returned(true)
  {
    BoundsWithoutCalls(s, run, read, write);
    RunKeepsInv(s, run, read, write);
    CalledForEver(s, run);
    if Quiet(After(s, run)) {
      QuietIsDown(After(s, run), read, write);
      if NobodyCalls(run) {
        StillTearingDown(s, run);
        QuietHasReturned(After(s, run), read, write);
      }
    }
  }

  // ----- What disconnect returns -----

  /** A call of `disconnect` returns true in this step. */
  predicate ReturnsTrue(s: State, a: Action)
    requires Enabled(s, a)
  {
    a.DisconnectStep? && Next(s, a).disconnect == Returned(true)
  }

  function TrueReturns(s: State, run: seq<Action>): nat
    requires AllEnabled(s, run)
    decreases |run|
  {
    if run == [] then 0
    else (if ReturnsTrue(s, run[0]) then 1 else 0) + TrueReturns(Next(s, run[0]), run[1..])
  }

  lemma StepReturnsTrue(s: State, a: Action)
    requires DisconnectInv(s) && Enabled(s, a)
    ensures (if s.disconnected then 1 else 0) + (if ReturnsTrue(s, a) then 1 else 0)
         == if Next(s, a).disconnected then 1 else 0
  {
    match a
    case DisconnectStep =>
    case SenderStep(answer) => assert Next(s, a).disconnected == s.disconnected;
    case _ =>
  }

  /** However often and whenever `disconnect` is called, it returns true once if it gets to the
      end, and not at all otherwise. */
  lemma {:induction false} ReturnsTrueOnce(s: State, run: seq<Action>, read: Socket, write: Socket)
    requires Inv(s, read, write) && AllEnabled(s, run)
    ensures (if s.disconnected then 1 else 0) + TrueReturns(s, run) == if After(s, run).disconnected then 1 else 0
    decreases |run|
  {
    if run != [] {
      StepReturnsTrue(s, run[0]);
      StepKeepsInv(s, run[0], read, write);
      ReturnsTrueOnce(Next(s, run[0]), run[1..], read, write);
    }
  }

  /** A call that starts on a client that is not started, as that of the destructor does after
      a disconnect, returns false and changes nothing on the way. */
  lemma {:induction false} LateCallReturnsFalse(s: State, run: seq<Action>)
    requires !s.started && (s.disconnect.TestStarted? || s.disconnect == Returned(false))
    requires AllEnabled(s, run) && NobodyCalls(run)
    ensures After(s, run).disconnect.TestStarted? || After(s, run).disconnect == Returned(false)
    ensures Quiet(After(s, run)) ==> After(s, run).disconnect == Returned(false)
    decreases |run|
  {
    if run != [] {
      OnlyCreateThreadsStarts(s, run[0]);
      LateCallReturnsFalse(Next(s, run[0]), run[1..]);
    }
  }

  // ----- Without the mutex: the drain can starve -----

  /** Somebody calls `disconnect`, the threads stop at their first test, and `disconnect` goes
      on to its drain. */
  function ToTheDrain(): seq<Action> {
    [Call, DisconnectStep, DisconnectStep, DisconnectStep]
    + [ReceiverStep(TimedOut), ReceiverStep(TimedOut), ReceiverStep(TimedOut), ReceiverStep(TimedOut)]
    + [SenderStep(Send(false)), SenderStep(Send(false)), SenderStep(Send(false)), SenderStep(Send(false))]
    + [DisconnectStep, DisconnectStep, DisconnectStep, DisconnectStep, DisconnectStep]
  }

  /** Each time the drain pops a packet, another one is queued. */
  function Starve(p: Packet, n: nat): seq<Action> {
    if n == 0 then [] else [SendPacket(p), DisconnectStep] + Starve(p, n - 1)
  }

  lemma CallStopsThreads(s: State)
    requires s.started && !s.disconnected && s.disconnect.Idle?
    ensures AllEnabled(s, [Call, DisconnectStep, DisconnectStep, DisconnectStep])
    ensures After(s, [Call, DisconnectStep, DisconnectStep, DisconnectStep])
         == s.(started := false, disconnect := JoinReceiver)
  {
    FourSteps(s, Call, DisconnectStep, DisconnectStep, DisconnectStep);
  }

  lemma ReceiverStops(s: State)
    requires !s.started && s.receiver == LoopTest(Started)
    ensures var r := ReceiverStep(TimedOut);
            AllEnabled(s, [r, r, r, r]) &&
            After(s, [r, r, r, r]).receiver.ReceiverDone? && After(s, [r, r, r, r]).started == s.started &&
            After(s, [r, r, r, r]).sender == s.sender && After(s, [r, r, r, r]).disconnect == s.disconnect
  {
    var r := ReceiverStep(TimedOut);
    FourSteps(s, r, r, r, r);
  }

  lemma SenderStops(s: State)
    requires !s.started && s.sender == SenderTest(Started)
    ensures var x := SenderStep(Send(false));
            AllEnabled(s, [x, x, x, x]) && After(s, [x, x, x, x]).sender.SenderDone? &&
            After(s, [x, x, x, x]).receiver == s.receiver && After(s, [x, x, x, x]).disconnect == s.disconnect
  {
    var x := SenderStep(Send(false));
    FourSteps(s, x, x, x, x);
  }

  lemma JoinsAndClears(s: State)
    requires s.disconnect.JoinReceiver? && s.receiver.ReceiverDone? && s.sender.SenderDone?
    ensures var d := DisconnectStep;
            AllEnabled(s, [d, d, d, d] + [d]) && After(s, [d, d, d, d] + [d]).disconnect.Drain?
  {
    var d := DisconnectStep;
    FourSteps(s, d, d, d, d);
    OneStep(After(s, [d, d, d, d]), d);
    RunsCompose(s, [d, d, d, d], [d]);
  }

  lemma ReachesTheDrain(s: State)
    requires s.started && !s.disconnected && s.disconnect.Idle?
    requires s.receiver == LoopTest(Started) && s.sender == SenderTest(Started)
    ensures AllEnabled(s, ToTheDrain()) && After(s, ToTheDrain()).disconnect.Drain?
  {
    var d, r, x := DisconnectStep, ReceiverStep(TimedOut), SenderStep(Send(false));
    CallStopsThreads(s);
    var s1 := After(s, [Call, d, d, d]);
    ReceiverStops(s1);
    var s2 := After(s1, [r, r, r, r]);
    SenderStops(s2);
    JoinsAndClears(After(s2, [x, x, x, x]));
    RunsCompose(s2, [x, x, x, x], [d, d, d, d] + [d]);
    RunsCompose(s1, [r, r, r, r], [x, x, x, x] + ([d, d, d, d] + [d]));
    RunsCompose(s, [Call, d, d, d], [r, r, r, r] + ([x, x, x, x] + ([d, d, d, d] + [d])));
    assert ToTheDrain() == [Call, d, d, d] + ([r, r, r, r] + ([x, x, x, x] + ([d, d, d, d] + [d])));
  }

  lemma {:induction false} StaysAtTheDrain(s: State, p: Packet, n: nat)
    requires s.disconnect.Drain?
    ensures AllEnabled(s, Starve(p, n)) && After(s, Starve(p, n)).disconnect.Drain?
    ensures |Starve(p, n)| == 2 * n && Sends(Starve(p, n)) == n
    decreases n
  {
    if n > 0 {
      var run, sent := Starve(p, n), Next(s, SendPacket(p));
      StaysAtTheDrain(Next(sent, DisconnectStep), p, n - 1);
      assert run[1..][1..] == Starve(p, n - 1) && run[0] == SendPacket(p) && run[1..][0] == DisconnectStep;
      assert AllEnabled(sent, run[1..]);
      assert Sends(run[1..]) == Sends(Starve(p, n - 1));
    }
  }

  /** The other side of the bound: with `n` packets queued at the wrong moments, `disconnect` is
      still at its drain after `2 * n` more steps, for every `n` and from every fresh client. */
  lemma DrainCanStarve(read: Socket, write: Socket, main: seq<Packet>, sync: seq<Packet>, p: Packet, n: nat)
    ensures var s, run := Created(read, write, main, sync), ToTheDrain() + Starve(p, n);
            && AllEnabled(s, run) && After(s, run).disconnect.Drain?
            && |run| == |ToTheDrain()| + 2 * n
  {
    var s := Created(read, write, main, sync);
    ReachesTheDrain(s);
    StaysAtTheDrain(After(s, ToTheDrain()), p, n);
    RunsCompose(s, ToTheDrain(), Starve(p, n));
  }

  // ----- With the mutex -----

  /** `Server::send`, `Server::sendAll` and the cleaner all hold `clients_mutex`: a packet is
      queued only while no `disconnect` is under way. */
  predicate LockRespected(s: State, run: seq<Action>)
    requires AllEnabled(s, run)
    decreases |run|
  {
    run != [] ==>
      && (run[0].SendPacket? ==> s.disconnect.Idle? || s.disconnect.Returned?)
      && LockRespected(Next(s, run[0]), run[1..])
  }

  /** A teardown is over, and a later call of `disconnect` has nothing to do. */
  predicate Over(s: State) {
    !s.started && (s.disconnect.Returned? || s.disconnect.TestStarted?)
  }

  lemma {:induction false} OverForEver(s: State, run: seq<Action>)
    requires AllEnabled(s, run) && Over(s)
    ensures Over(After(s, run))
    decreases |run|
  {
    if run != [] {
      OnlyCreateThreadsStarts(s, run[0]);
      OverForEver(Next(s, run[0]), run[1..]);
    }
  }

  lemma {:induction false} NoSendsWhileDown(s: State, run: seq<Action>)
    requires AllEnabled(s, run) && LockRespected(s, run)
    requires !s.started && TearingDown(s) && TearingDown(After(s, run))
    ensures Sends(run) == 0 && Calls(run) == 0
    decreases |run|
  {
    if run != [] {
      var t, rest := Next(s, run[0]), run[1..];
      OnlyCreateThreadsStarts(s, run[0]);
      StepTearsDown(s, run[0]);
      if Over(t) {
        OverForEver(t, rest);
      } else {
        NoSendsWhileDown(t, rest);
      }
    }
  }

  /** Then a teardown always finishes: while it has not returned, at most `Left(s)` steps have
      been taken, whatever the threads and the network do. */
  lemma LockedTeardownFinishes(s: State, run: seq<Action>, read: Socket, write: Socket)
    requires Inv(s, read, write) && TearingDown(s) && AllEnabled(s, run)
    requires LockRespected(s, run) && TearingDown(After(s, run))
    ensures |run| <= Left(s)
    ensures exists a :: Working(a) && Enabled(After(s, run), a)
  {
    NoSendsWhileDown(s, run);
    RunsAreShort(s, run, read, write);
    RunKeepsInv(s, run, read, write);
    NobodyIsStuck(After(s, run), read, write);
  }

  /** And at the moment `disconnect` returns true all four containers are empty. */
  lemma LockedTeardownLeavesNothing(read: Socket, write: Socket, main: seq<Packet>, sync: seq<Packet>, run: seq<Action>)
    requires AllEnabled(Created(read, write, main, sync), run)
    requires LockRespected(Created(read, write, main, sync), run)
    requires After(Created(read, write, main, sync), run).disconnect.SetDisconnected?
    ensures var t := Next(After(Created(read, write, main, sync), run), DisconnectStep);
            && t.disconnect == Returned(true)
            && t.received == [] && t.sended == [] && t.sync == [] && t.main == []
  {
    CreatedRunsKeepInv(read, write, main, sync, run);
    EmptyAfterDrain(Created(read, write, main, sync), run);
  }

  lemma {:induction false} EmptyAfterDrain(s: State, run: seq<Action>)
    requires AllEnabled(s, run) && LockRespected(s, run)
    requires s.disconnect.SetDisconnected? ==> s.main == []
    ensures After(s, run).disconnect.SetDisconnected? ==> After(s, run).main == []
    decreases |run|
  {
    if run != [] {
      StepAfterDrain(s, run[0]);
      EmptyAfterDrain(Next(s, run[0]), run[1..]);
    }
  }

  lemma StepAfterDrain(s: State, a: Action)
    requires Enabled(s, a) && (s.disconnect.SetDisconnected? ==> s.main == [])
    requires a.SendPacket? ==> s.disconnect.Idle? || s.disconnect.Returned?
    ensures Next(s, a).disconnect.SetDisconnected? ==> Next(s, a).main == []
  {
    if !a.SendPacket? {
      MainOnlyShrinks(s, a);
    }
  }
}
