/** `basic_socket_streambuf`: buffered output to a socket that takes as many bytes as it
    likes.

    The socket, the clock and polling are an environment: a list of what each pass of the
    sending loop meets.  The loop of a call that returns makes finitely many passes; when the
    list is used up, the next pass finds the deadline passed. */
module SocketStreambuf {
  import opened Buffers
  import opened ByteFifo

  /** One pass of the loop in `overflow`: the deadline has passed, `send` took some bytes,
      `send` failed for good, or it would have blocked and polling then succeeded or not. */
  datatype Pass = Expired | Sent(bytes: nat) | Failed | WouldBlock(pollOk: bool)

  type Environment = seq<Pass>

  /** How many bytes an environment can take in before the loop has to give up; `send` does
      not return more than it was given, and returning 0 counts as a failure. */
  function Capacity(env: Environment): nat {
    if env == [] then 0
    else
      match env[0]
      case Sent(bytes) => if bytes == 0 then 0 else bytes + Capacity(env[1..])
      case WouldBlock(pollOk) => if pollOk then Capacity(env[1..]) else 0
      case _ => 0
  }

  /** A pass after which the loop makes another one: some bytes went out, or the socket would
      have blocked and became ready. */
  predicate GoesOn(pass: Pass) {
    (pass.Sent? && pass.bytes > 0) || (pass.WouldBlock? && pass.pollOk)
  }

  function SentIn(env: Environment): nat {
    if env == [] then 0 else (if env[0].Sent? then env[0].bytes else 0) + SentIn(env[1..])
  }

  /** What an environment takes is what its sends take up to the first pass that ends the
      loop, however often the socket would have blocked in between. */
  lemma {:induction false} CapacityIsWhatIsSent(env: Environment, k: nat)
    requires k <= |env| && (forall i :: 0 <= i < k ==> GoesOn(env[i]))
    requires k == |env| || !GoesOn(env[k])
    ensures Capacity(env) == SentIn(env[..k])
    decreases k
  {
    if k > 0 {
      CapacityIsWhatIsSent(env[1..], k - 1);
      assert env[..k][1..] == env[1..][..k - 1];
    }
  }

  // ----- What the user sees -----

  /** The bytes handed to the socket so far, the bytes waiting in the put area, and the size of
      the put area, 0 once buffering is off. */
  datatype Channel = Channel(wire: seq<Byte>, pending: seq<Byte>, room: nat)

  /** All pending bytes go out, or as many as the environment takes; in that case the put area
      is left as it was. */
  function Flushed(ch: Channel, env: Environment): Channel {
    if |ch.pending| <= Capacity(env) then ch.(wire := ch.wire + ch.pending, pending := [])
    else ch.(wire := ch.wire + ch.pending[..Capacity(env)])
  }

  predicate Flushes(ch: Channel, env: Environment) {
    |ch.pending| <= Capacity(env)
  }

  /** `overflow` flushes and then stores the character; with buffering off it sends the
      character by itself. */
  function AfterOverflow(ch: Channel, c: IntType, env: Environment): Channel {
    if ch.room == 0 && c.Char? then (if Capacity(env) > 0 then ch.(wire := ch.wire + [c.c]) else ch)
    else if Flushes(ch, env) && c.Char? then Flushed(ch, env).(pending := [c.c])
    else Flushed(ch, env)
  }

  predicate OverflowSucceeds(ch: Channel, c: IntType, env: Environment) {
    if ch.room == 0 && c.Char? then Capacity(env) > 0 else Flushes(ch, env)
  }

  /** `sputc` calls `overflow` only when the put area is full. */
  function Accepted(ch: Channel, c: Byte, env: Environment): Channel {
    if |ch.pending| < ch.room then ch.(pending := ch.pending + [c]) else AfterOverflow(ch, Char(c), env)
  }

  predicate Accepts(ch: Channel, c: Byte, env: Environment) {
    |ch.pending| < ch.room || OverflowSucceeds(ch, Char(c), env)
  }

  predicate Fits(ch: Channel) {
    |ch.pending| <= ch.room
  }

  // ----- Runs -----

  /** `PutChar` is `sputc`, `Sync` is `pubsync`, `SetBuf` is `pubsetbuf(s, n)`, and `CloseSocket` is
      `close`, with whether closing the socket itself works. */
  datatype Call =
    | PutChar(c: Byte, env: Environment)
    | Sync(env: Environment)
    | SetBuf(sIsNull: bool, n: int)
    | CloseSocket(env: Environment, closeOk: bool)

  function Step(ch: Channel, call: Call): Channel {
    match call
    case PutChar(c, env) => Accepted(ch, c, env)
    case Sync(env) => Flushed(ch, env)
    case SetBuf(sIsNull, n) => if ch.pending == [] && sIsNull && n == 0 then ch.(room := 0) else ch
    case CloseSocket(env, closeOk) => Closed(ch, env, closeOk)
  }

  predicate Succeeds(ch: Channel, call: Call) {
    match call
    case PutChar(c, env) => Accepts(ch, c, env)
    case Sync(env) => Flushes(ch, env)
    case SetBuf(_, _) => true
    case CloseSocket(env, _) => Flushes(ch, env)
  }

  /** No call of `overflow` in the run fails; a refused `setbuf` changes nothing and is not a
      failure. */
  predicate Unfailing(ch: Channel, calls: seq<Call>)
    decreases |calls|
  {
    calls != [] ==> Succeeds(ch, calls[0]) && Unfailing(Step(ch, calls[0]), calls[1..])
  }

  function After(ch: Channel, calls: seq<Call>): Channel
    decreases |calls|
  {
    if calls == [] then ch else After(Step(ch, calls[0]), calls[1..])
  }

  function Characters(calls: seq<Call>): seq<Byte> {
    if calls == [] then []
    else (if calls[0].PutChar? then [calls[0].c] else []) + Characters(calls[1..])
  }

  function AcceptedBy(ch: Channel, call: Call): seq<Byte> {
    if call.PutChar? && Succeeds(ch, call) then [call.c] else []
  }

  /** The characters a run accepts, whether or not other calls in it fail. */
  function AcceptedIn(ch: Channel, calls: seq<Call>): seq<Byte>
    decreases |calls|
  {
    if calls == [] then [] else AcceptedBy(ch, calls[0]) + AcceptedIn(Step(ch, calls[0]), calls[1..])
  }

  /** The call is not a `close` that drops pending bytes. */
  predicate DropsNothing(ch: Channel, call: Call) {
    call.CloseSocket? && call.closeOk ==> Flushes(ch, call.env)
  }

  predicate NeverDrops(ch: Channel, calls: seq<Call>)
    decreases |calls|
  {
    calls != [] ==> DropsNothing(ch, calls[0]) && NeverDrops(Step(ch, calls[0]), calls[1..])
  }

  /** `a` can be got from `b` by leaving bytes out. */
  predicate Subsequence(a: seq<Byte>, b: seq<Byte>)
    decreases |b|
  {
    a == [] || (b != [] && ((a[0] == b[0] && Subsequence(a[1..], b[1..])) || Subsequence(a, b[1..])))
  }

  lemma {:induction false} SubsequenceOfItself(a: seq<Byte>)
    ensures Subsequence(a, a)
  {
    if a != [] {
      SubsequenceOfItself(a[1..]);
    }
  }

  lemma {:induction false} SubsequenceAppend(a: seq<Byte>, b: seq<Byte>, c: seq<Byte>, d: seq<Byte>)
    requires Subsequence(a, b) && Subsequence(c, d)
    ensures Subsequence(a + c, b + d)
    decreases |b| + |d|
  {
    if b == [] {
      assert a + c == c && b + d == d;
    } else {
      assert (b + d)[1..] == b[1..] + d;
      if a != [] && a[0] == b[0] && Subsequence(a[1..], b[1..]) {
        SubsequenceAppend(a[1..], b[1..], c, d);
        assert (a + c)[1..] == a[1..] + c;
      } else {
        SubsequenceAppend(a, b[1..], c, d);
        SkipFirst(a + c, b + d);
      }
    }
  }

  lemma SkipFirst(a: seq<Byte>, b: seq<Byte>)
    requires b != [] && Subsequence(a, b[1..])
    ensures Subsequence(a, b)
  {
  }

  lemma {:induction false} SubsequenceTransitive(a: seq<Byte>, b: seq<Byte>, c: seq<Byte>)
    requires Subsequence(a, b) && Subsequence(b, c)
    ensures Subsequence(a, c)
    decreases |b| + |c|
  {
    if a != [] {
      if b[0] == c[0] && Subsequence(b[1..], c[1..]) {
        if a[0] == b[0] && Subsequence(a[1..], b[1..]) {
          SubsequenceTransitive(a[1..], b[1..], c[1..]);
        } else {
          SubsequenceTransitive(a, b[1..], c[1..]);
        }
      } else {
        SubsequenceTransitive(a, b, c[1..]);
      }
    }
  }

  /** A failed flush leaves everything, and repeats what it sent. */
  lemma FlushLosesNothing(ch: Channel, env: Environment)
    ensures Subsequence(ch.wire + ch.pending, Flushed(ch, env).wire + Flushed(ch, env).pending)
  {
    var next := Flushed(ch, env);
    if Flushes(ch, env) {
      assert next.wire + next.pending == ch.wire + ch.pending;
      SubsequenceOfItself(ch.wire + ch.pending);
    } else {
      SubsequenceOfItself(ch.wire);
      SubsequenceOfItself(ch.pending);
      SubsequenceAppend(ch.wire, ch.wire, [], ch.pending[..Capacity(env)]);
      assert ch.wire + [] == ch.wire;
      SubsequenceAppend(ch.wire, next.wire, ch.pending, ch.pending);
    }
  }

  /** A call that drops nothing keeps wire and put area and adds the character it accepts. */
  lemma StepLosesNothing(ch: Channel, call: Call)
    requires Fits(ch) && DropsNothing(ch, call)
    ensures Fits(Step(ch, call))
    ensures Subsequence(ch.wire + ch.pending + AcceptedBy(ch, call), Step(ch, call).wire + Step(ch, call).pending)
  {
    var next, accepted := Step(ch, call), AcceptedBy(ch, call);
    if call.PutChar? && Succeeds(ch, call) {
      assert ch.wire + ch.pending + accepted == next.wire + next.pending;
      SubsequenceOfItself(next.wire + next.pending);
    } else {
      assert ch.wire + ch.pending + accepted == ch.wire + ch.pending;
      NotAcceptedIsFlushed(ch, call);
    }
  }

  lemma NotAcceptedIsFlushed(ch: Channel, call: Call)
    requires Fits(ch) && DropsNothing(ch, call) && AcceptedBy(ch, call) == []
    ensures Subsequence(ch.wire + ch.pending, Step(ch, call).wire + Step(ch, call).pending)
  {
    match call
    case PutChar(_, env) =>
      FlushLosesNothing(ch, env);
      SubsequenceOfItself(ch.wire + ch.pending);
    case Sync(env) => FlushLosesNothing(ch, env);
    case SetBuf(_, _) => SubsequenceOfItself(ch.wire + ch.pending);
    case CloseSocket(env, _) => FlushLosesNothing(ch, env);
  }

  /** Also in runs in which calls fail, no accepted character is ever lost, unless a `close`
      drops it: all of them are on the wire or in the put area, in order, possibly repeated. */
  lemma {:induction false} NothingAcceptedIsLost(ch: Channel, calls: seq<Call>)
    requires Fits(ch) && NeverDrops(ch, calls)
    ensures Subsequence(ch.wire + ch.pending + AcceptedIn(ch, calls), After(ch, calls).wire + After(ch, calls).pending)
    decreases |calls|
  {
    var all := ch.wire + ch.pending;
    if calls == [] {
      assert all + [] == all;
      SubsequenceOfItself(all);
    } else {
      var next, rest := Step(ch, calls[0]), calls[1..];
      var first, later := AcceptedBy(ch, calls[0]), AcceptedIn(next, rest);
      StepLosesNothing(ch, calls[0]);
      SubsequenceOfItself(later);
      SubsequenceAppend(all + first, next.wire + next.pending, later, later);
      NothingAcceptedIsLost(next, rest);
      SubsequenceTransitive(all + first + later, next.wire + next.pending + later,
                            After(ch, calls).wire + After(ch, calls).pending);
      assert all + first + later == all + (first + later);
    }
  }

  /** Conservation: whatever the environment does, and whether buffering is on or off, the wire
      followed by the put area is every character accepted, once and in order. */
  lemma {:induction false} OutputIsConserved(ch: Channel, calls: seq<Call>)
    requires Fits(ch) && Unfailing(ch, calls)
    ensures Fits(After(ch, calls))
    ensures After(ch, calls).wire + After(ch, calls).pending == ch.wire + ch.pending + Characters(calls)
    decreases |calls|
  {
    if calls == [] {
      assert ch.wire + ch.pending + Characters(calls) == ch.wire + ch.pending;
    } else {
      var next := Step(ch, calls[0]);
      var c := if calls[0].PutChar? then [calls[0].c] else [];
      assert next.wire + next.pending == ch.wire + ch.pending + c;
      OutputIsConserved(next, calls[1..]);
      assert ch.wire + ch.pending + c + Characters(calls[1..]) == ch.wire + ch.pending + (c + Characters(calls[1..]));
    }
  }

  /** `pubsync` puts everything pending on the wire and empties the put area, or puts there as
      much as the environment takes and leaves the put area alone; and it succeeds exactly in
      the first case. */
  lemma SyncSends(ch: Channel, env: Environment)
    ensures var next := Step(ch, Sync(env));
            && (Succeeds(ch, Sync(env)) <==> |ch.pending| <= Capacity(env))
            && next.wire == ch.wire + ch.pending[..Min(|ch.pending|, Capacity(env))]
            && next.pending == (if |ch.pending| <= Capacity(env) then [] else ch.pending)
            && next.room == ch.room
  {
    assert ch.pending[..|ch.pending|] == ch.pending;
  }

  lemma {:induction false} RunsCompose(ch: Channel, calls: seq<Call>, last: Call)
    ensures After(ch, calls + [last]) == Step(After(ch, calls), last)
    ensures Unfailing(ch, calls + [last]) <==> Unfailing(ch, calls) && Succeeds(After(ch, calls), last)
    ensures Characters(calls + [last]) == Characters(calls) + Characters([last])
    decreases |calls|
  {
    if calls == [] {
      assert calls + [last] == [last] && [last][1..] == [];
      assert After(ch, [last]) == After(Step(ch, last), []);
      assert Unfailing(ch, [last]) <==> Succeeds(ch, last) && Unfailing(Step(ch, last), []);
      assert Characters(calls) + Characters([last]) == Characters([last]);
    } else {
      RunsCompose(Step(ch, calls[0]), calls[1..], last);
      assert (calls + [last])[1..] == calls[1..] + [last];
    }
  }

  /** After a run that ends with a `pubsync`, and in which nothing failed, every character
      accepted is on the wire. */
  lemma SyncDeliversAll(ch: Channel, calls: seq<Call>, env: Environment)
    requires Fits(ch) && Unfailing(ch, calls + [Sync(env)])
    ensures var end := After(ch, calls + [Sync(env)]);
            end.pending == [] && end.wire == ch.wire + ch.pending + Characters(calls)
  {
    RunsCompose(ch, calls, Sync(env));
    OutputIsConserved(ch, calls);
    SyncSends(After(ch, calls), env);
    var was := After(ch, calls);
    assert was.pending[..Min(|was.pending|, Capacity(env))] == was.pending;
  }

  /** Once buffering is off it stays off, nothing ever waits, and the wire grows by exactly the
      characters accepted, whatever fails. */
  lemma {:induction false} UnbufferedGoesOutAtOnce(ch: Channel, calls: seq<Call>)
    requires ch.room == 0 && ch.pending == []
    ensures After(ch, calls) == ch.(wire := ch.wire + AcceptedIn(ch, calls))
    decreases |calls|
  {
    if calls == [] {
      assert ch.wire + [] == ch.wire;
    } else {
      var next := Step(ch, calls[0]);
      assert next.room == 0 && next.pending == [];
      assert next.wire == ch.wire + AcceptedBy(ch, calls[0]);
      UnbufferedGoesOutAtOnce(next, calls[1..]);
      assert ch.wire + AcceptedBy(ch, calls[0]) + AcceptedIn(next, calls[1..])
          == ch.wire + (AcceptedBy(ch, calls[0]) + AcceptedIn(next, calls[1..]));
    }
  }

  /** As long as the put area has room, characters wait there and nothing is sent: no call
      needs the environment. */
  lemma {:induction false} NothingGoesOutBeforeFull(ch: Channel, calls: seq<Call>)
    requires |ch.pending| + |calls| <= ch.room && forall call :: call in calls ==> call.PutChar?
    ensures Unfailing(ch, calls) && After(ch, calls) == ch.(pending := ch.pending + Characters(calls))
    decreases |calls|
  {
    if calls == [] {
      assert ch.pending + [] == ch.pending;
    } else {
      NothingGoesOutBeforeFull(Step(ch, calls[0]), calls[1..]);
      assert ch.pending + [calls[0].c] + Characters(calls[1..]) == ch.pending + ([calls[0].c] + Characters(calls[1..]));
    }
  }

  /** After a failed flush the put area still holds the bytes that were sent, and a retry that
      works sends them again. */
  lemma RetryRepeatsWhatWasSent(ch: Channel, failing: Environment, working: Environment)
    requires !Flushes(ch, failing) && Flushes(Flushed(ch, failing), working)
    ensures Flushed(Flushed(ch, failing), working)
         == ch.(wire := ch.wire + ch.pending[..Capacity(failing)] + ch.pending, pending := [])
  {
  }

  /** So failing and retrying delivers just what was accepted, whatever the environment does,
      exactly when at most one byte was pending. */
  lemma RetryIsExactIffOnePending(ch: Channel)
    ensures (forall failing, working | !Flushes(ch, failing) && Flushes(Flushed(ch, failing), working) ::
               Flushed(Flushed(ch, failing), working).wire == ch.wire + ch.pending)
            <==> |ch.pending| <= 1
  {
    if |ch.pending| <= 1 {
      forall failing, working | !Flushes(ch, failing) && Flushes(Flushed(ch, failing), working)
        ensures Flushed(Flushed(ch, failing), working).wire == ch.wire + ch.pending
      {
        RetryRepeatsWhatWasSent(ch, failing, working);
        assert ch.wire + ch.pending[..0] == ch.wire;
      }
    } else {
      var failing, working := [Sent(1)], [Sent(|ch.pending|)];
      TakesAll(1);
      TakesAll(|ch.pending|);
      RetryRepeatsWhatWasSent(ch, failing, working);
      assert |Flushed(Flushed(ch, failing), working).wire| == |ch.wire + ch.pending| + 1;
    }
  }

  lemma TakesAll(n: nat)
    ensures Capacity([Sent(n)]) == n
  {
    assert [Sent(n)][1..] == [];
  }

  /** `close`: a flush whose outcome is ignored, then the put area is reset when closing the
      socket worked. */
  function Closed(ch: Channel, env: Environment, closeOk: bool): Channel {
    if closeOk then Flushed(ch, env).(pending := []) else Flushed(ch, env)
  }

  /** A `close` that reports success has delivered everything accepted, whatever the
      environment does, exactly when nothing was pending; otherwise it can drop bytes. */
  lemma CloseDeliversIffNothingPending(ch: Channel)
    ensures (forall env :: Closed(ch, env, true).wire == ch.wire + ch.pending) <==> ch.pending == []
    ensures forall env :: Closed(ch, env, true).pending == []
  {
    if ch.pending == [] {
      forall env
        ensures Closed(ch, env, true).wire == ch.wire + ch.pending
      {
        assert Flushes(ch, env);
      }
    } else {
      assert |Closed(ch, [], true).wire| < |ch.wire + ch.pending|;
    }
  }

  // ----- The streambuf -----

  const BUFFER_SIZE: nat := 512

  class SocketOutput {
    var putBuffer: array<Byte>
    var pptr: nat
    var epptr: nat
    /** All bytes the socket took. */
    var wire: seq<Byte>

    ghost predicate Valid()
      reads this
    {
      pptr <= epptr == putBuffer.Length
    }

    ghost function View(): Channel
      requires Valid()
      reads this, putBuffer
    {
      Channel(wire, putBuffer[..pptr], putBuffer.Length)
    }

    constructor ()
      ensures Valid() && fresh(putBuffer)
      ensures View() == Channel([], [], 512)
    {
      putBuffer := new Byte[BUFFER_SIZE](_ => 0);
      wire := [];
      pptr, epptr := 0, BUFFER_SIZE;
    }

    /** The sending loop of `overflow`. */
    method SendAll(output: seq<Byte>, env: Environment) returns (ok: bool)
      modifies this`wire
      ensures ok <==> |output| <= Capacity(env)
      ensures wire == old(wire) + output[..Min(|output|, Capacity(env))]
    {
      var outputBuffer := output;
      ghost var sent := 0;
      var pass := 0;
      while |outputBuffer| > 0
        invariant pass <= |env| && sent <= |output| && outputBuffer == output[sent..]
        invariant wire == old(wire) + output[..sent]
        invariant Min(|output|, sent + Capacity(env[pass..])) == Min(|output|, Capacity(env))
        invariant sent <= Capacity(env)
        decreases |env| - pass
      {
        if pass == |env| || env[pass].Expired? {
          return false;
        }
        var result := env[pass];
        assert env[pass..][0] == result && env[pass..][1..] == env[pass + 1..];
        pass := pass + 1;

        if result.Sent? && result.bytes > 0 {
          var taken := Min(result.bytes, |outputBuffer|);
          wire := wire + outputBuffer[..taken];
          assert output[..sent + taken] == output[..sent] + outputBuffer[..taken];
          outputBuffer := outputBuffer[taken..];
          sent := sent + taken;
          continue;
        }

        if !result.WouldBlock? {
          return false;
        }

        if !result.pollOk {
          return false;
        }
      }
      return true;
    }

    /** `init_buffers`, the put area. */
    method InitBuffers()
      requires Valid()
      modifies this`pptr, this`epptr
      ensures Valid() && View() == old(View()).(pending := [])
    {
      if putBuffer.Length == 0 {
        pptr, epptr := 0, 0;
      } else {
        pptr, epptr := 0, putBuffer.Length;
      }
    }

    method Overflow(c: IntType, env: Environment) returns (r: IntType)
      requires Valid()
      modifies this, putBuffer
      ensures Valid() && putBuffer == old(putBuffer)
      ensures View() == AfterOverflow(old(View()), c, env)
      ensures r == if OverflowSucceeds(old(View()), c, env) then (if c.Eof? then NOT_EOF else c) else Eof
      ensures putBuffer.Length > 0 ==> (r != Eof <==> old(pptr) <= Capacity(env))
      ensures putBuffer.Length > 0 && r != Eof ==>
                && wire == old(wire) + old(View().pending)
                && putBuffer[..pptr] == if c.Eof? then [] else [c.c]
      ensures putBuffer.Length > 0 && r == Eof ==>
                && wire == old(wire) + old(View().pending)[..Capacity(env)]
                && putBuffer[..pptr] == old(View().pending)
      ensures putBuffer.Length == 0 ==> (r != Eof <==> c.Eof? || Capacity(env) > 0)
      ensures putBuffer.Length == 0 ==> pptr == 0
      ensures putBuffer.Length == 0 ==> wire == old(wire) + (if c.Char? && r != Eof then [c.c] else [])
    {
      ghost var was := View();
      var output: seq<Byte>;
      if putBuffer.Length == 0 {
        if c == Eof {
          return NOT_EOF;
        }
        output := [c.c];
      } else {
        output := putBuffer[..pptr];
      }

      var sentAll := SendAll(output, env);
      if !sentAll {
        return Eof;
      }

      if putBuffer.Length != 0 {
        pptr, epptr := 0, putBuffer.Length;

        if c == Eof {
          return NOT_EOF;
        }

        putBuffer[pptr] := c.c;
        pptr := pptr + 1;
      }

      return c;
    }

    /** `std::streambuf::sputc`. */
    method Sputc(c: Byte, env: Environment) returns (r: IntType)
      requires Valid()
      modifies this, putBuffer
      ensures Valid() && putBuffer == old(putBuffer)
      ensures r == if Accepts(old(View()), c, env) then Char(c) else Eof
      ensures View() == Accepted(old(View()), c, env)
      ensures old(pptr) < putBuffer.Length ==>
                r == Char(c) && wire == old(wire) && putBuffer[..pptr] == old(View().pending) + [c]
    {
      if pptr < epptr {
        putBuffer[pptr] := c;
        pptr := pptr + 1;
        return Char(c);
      }
      r := Overflow(Char(c), env);
    }

    /** `setbuf` turns buffering off when nothing is pending; it refuses everything else. */
    method Setbuf(sIsNull: bool, n: int, env: Environment) returns (ok: bool)
      requires Valid()
      modifies this, putBuffer
      ensures Valid() && (putBuffer == old(putBuffer) || fresh(putBuffer))
      ensures ok <==> old(View()).pending == [] && sIsNull && n == 0
      ensures View() == Step(old(View()), SetBuf(sIsNull, n))
      ensures ok ==> View().room == 0 && View().pending == [] && wire == old(wire)
      ensures !ok ==> View() == old(View())
    {
      if pptr == 0 && sIsNull && n == 0 {
        putBuffer := new Byte[0];
        pptr, epptr := 0, 0;
        var _ := Overflow(Eof, env);
        return true;
      }
      return false;
    }

    /** `close` ignores how its flush went and succeeds when closing the socket does. */
    method Close(env: Environment, closeOk: bool) returns (ok: bool)
      requires Valid()
      modifies this, putBuffer
      ensures Valid() && putBuffer == old(putBuffer) && ok == closeOk
      ensures View() == Closed(old(View()), env, closeOk)
      ensures wire == old(wire) + old(View().pending)[..Min(old(pptr), Capacity(env))]
      ensures pptr == if closeOk || old(pptr) <= Capacity(env) then 0 else old(pptr)
    {
      var _ := Overflow(Eof, env);
      if closeOk {
        InitBuffers();
      }
      return closeOk;
    }

    /** One call; whether it works is what `Succeeds` says of the channel. */
    method Perform(call: Call) returns (ok: bool)
      requires Valid()
      modifies this, putBuffer
      ensures Valid() && (putBuffer == old(putBuffer) || fresh(putBuffer))
      ensures ok <==> Succeeds(old(View()), call)
      ensures View() == Step(old(View()), call)
    {
      match call {
        case PutChar(c, env) =>
          var r := Sputc(c, env);
          ok := r != Eof;
        case Sync(env) =>
          var r := Overflow(Eof, env);
          ok := r != Eof;
        case SetBuf(sIsNull, n) =>
          var _ := Setbuf(sIsNull, n, []);
          ok := true;
        case CloseSocket(env, closeOk) =>
          ok := pptr <= Capacity(env);
          var _ := Close(env, closeOk);
      }
    }

    /** A run of the streambuf is a run of the channel, whatever fails in it. */
    method Run(calls: seq<Call>) returns (ok: bool)
      requires Valid()
      modifies this, putBuffer
      ensures Valid() && View() == After(old(View()), calls)
      ensures ok <==> Unfailing(old(View()), calls)
      ensures ok ==> View().wire + View().pending == old(View().wire + View().pending) + Characters(calls)
      ensures NeverDrops(old(View()), calls) ==>
                Subsequence(old(View().wire + View().pending) + AcceptedIn(old(View()), calls),
                            View().wire + View().pending)
    {
      ghost var was := View();
      ok := true;
      for i := 0 to |calls|
        invariant Valid() && (putBuffer == old(putBuffer) || fresh(putBuffer))
        invariant Unfailing(was, calls) <==> ok && Unfailing(View(), calls[i..])
        invariant After(was, calls) == After(View(), calls[i..])
      {
        assert calls[i..][0] == calls[i] && calls[i..][1..] == calls[i + 1..];
        var worked := Perform(calls[i]);
        ok := ok && worked;
      }
      RunAccounts(was, calls);
    }
  }

  /** Both accounts of a run. */
  lemma RunAccounts(ch: Channel, calls: seq<Call>)
    requires Fits(ch)
    ensures Unfailing(ch, calls) ==>
              After(ch, calls).wire + After(ch, calls).pending == ch.wire + ch.pending + Characters(calls)
    ensures NeverDrops(ch, calls) ==>
              Subsequence(ch.wire + ch.pending + AcceptedIn(ch, calls), After(ch, calls).wire + After(ch, calls).pending)
  {
    if Unfailing(ch, calls) {
      OutputIsConserved(ch, calls);
    }
    if NeverDrops(ch, calls) {
      NothingAcceptedIsLost(ch, calls);
    }
  }

  /** A fresh streambuf takes 512 characters without sending anything. */
  method TakesFirst512(calls: seq<Call>) returns (ok: bool, wire: seq<Byte>, pending: nat)
    requires |calls| <= 512 && forall call :: call in calls ==> call.PutChar?
    ensures ok && wire == [] && pending == |calls|
  {
    var output := new SocketOutput();
    NothingGoesOutBeforeFull(output.View(), calls);
    assert |output.View().pending + Characters(calls)| == |Characters(calls)|;
    OneCharacterEach(calls);
    ok := output.Run(calls);
    wire, pending := output.wire, output.pptr;
  }

  lemma {:induction false} OneCharacterEach(calls: seq<Call>)
    requires forall call :: call in calls ==> call.PutChar?
    ensures |Characters(calls)| == |calls|
    decreases |calls|
  {
    if calls != [] {
      OneCharacterEach(calls[1..]);
    }
  }

  /** With buffering off a character goes out by itself, after as many failed attempts as the
      socket likes. */
  method SendsUnbuffered(c: Byte, waits: nat) returns (ok: bool, wire: seq<Byte>)
    ensures ok && wire == [c]
  {
    var output := new SocketOutput();
    ok := output.Setbuf(true, 0, []);
    var env := seq(waits, _ => WouldBlock(true)) + [Sent(1)];
    CapacityIsWhatIsSent(env, |env|);
    assert env[..|env|] == env;
    WaitsSendNothing(waits);
    var r := output.Sputc(c, env);
    ok := ok && r == Char(c);
    wire := output.wire;
  }

  lemma {:induction false} WaitsSendNothing(waits: nat)
    ensures SentIn(seq(waits, _ => WouldBlock(true)) + [Sent(1)]) == 1
  {
    var env := seq(waits, _ => WouldBlock(true)) + [Sent(1)];
    if waits > 0 {
      WaitsSendNothing(waits - 1);
      assert env[1..] == seq(waits - 1, _ => WouldBlock(true)) + [Sent(1)];
    } else {
      assert env == [Sent(1)] && env[1..] == [];
    }
  }

  /** Two characters; a flush of which one byte gets out; a flush that works: the first
      character is on the wire twice. */
  method RetryRepeats() returns (wire: seq<Byte>)
    ensures wire == [1, 1, 2]
  {
    var output := new SocketOutput();
    var _ := output.Sputc(1, []);
    var _ := output.Sputc(2, []);
    TakesAll(1);
    TakesAll(2);
    var failed := output.Overflow(Eof, [Sent(1)]);
    assert failed == Eof;
    var worked := output.Overflow(Eof, [Sent(2)]);
    assert worked == NOT_EOF;
    wire := output.wire;
  }

  /** One character and a `close` whose flush finds the deadline passed: `close` succeeds and the
      character is gone. */
  method CloseDrops() returns (ok: bool, wire: seq<Byte>, pending: nat)
    ensures ok && wire == [] && pending == 0
  {
    var output := new SocketOutput();
    var _ := output.Sputc(1, []);
    ok := output.Close([Expired], true);
    wire, pending := output.wire, output.pptr;
  }
}
