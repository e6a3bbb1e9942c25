/** The bounded byte queue that `basic_streambuf` and the dynamic buffers implement.

    A run is a list of operations; `Observe` says what a user of the queue sees during it.
    Both implementations are proved to show exactly that. */
module ByteFifo {
  import opened Buffers

  /** `std::numeric_limits<int>::max()`. */
  const INT_MAX: nat := 0x7FFF_FFFF

  /** `static_cast<int>(n)`, the argument of `pbump` and `gbump`: the low 32 bits, signed. */
  function IntCast(n: nat): int {
    var low := n % 0x1_0000_0000;
    if low <= INT_MAX then low else low - 0x1_0000_0000
  }

  /** The cast keeps the number modulo 2^32 and lands in the range of a 32-bit `int`; so it
      keeps exactly the numbers up to 2^31 - 1. */
  lemma IntCastIsCongruent(n: nat)
    ensures -0x8000_0000 <= IntCast(n) < 0x8000_0000
    ensures (n - IntCast(n)) % 0x1_0000_0000 == 0
    ensures IntCast(n) == n <==> n < 0x8000_0000
  {
    var wraps := n / 0x1_0000_0000 + if n % 0x1_0000_0000 < 0x8000_0000 then 0 else 1;
    assert n - IntCast(n) == 0x1_0000_0000 * wraps;
  }

  /** `std::streambuf::int_type`: a character or the end-of-file mark.  `not_eof(eof)` is some
      value other than `eof`. */
  datatype IntType = Eof | Char(c: Byte)

  const NOT_EOF := Char(0)

  /** The outcome of an operation that may throw `std::length_error`. */
  datatype Result<T> = Ok(value: T) | LengthError

  /** `Prepare(n)` makes room for `n` bytes after the input sequence; `Commit(data)` stands
      for writing `data` to the start of that room and committing that many bytes;
      `Put` appends and `Get` takes a single character. */
  datatype Op =
    | Prepare(n: nat)
    | Commit(data: seq<Byte>)
    | Consume(n: nat)
    | Put(c: Byte)
    | Get

  /** The input sequence, and how much room the operation just before prepared, if it did. */
  datatype Fifo = Fifo(contents: seq<Byte>, room: Room)

  datatype Room = NoRoom | Room(n: nat)

  /** The queue after one operation, or nothing if the operation throws. */
  function Apply(maxSize: nat, f: Fifo, op: Op): Result<Fifo> {
    match op
    case Prepare(n) => if |f.contents| + n <= maxSize then Ok(f.(room := Room(n))) else LengthError
    case Commit(data) => Ok(Fifo(f.contents + data, NoRoom))
    case Consume(n) => Ok(Fifo(f.contents[Min(n, |f.contents|)..], NoRoom))
    case Put(c) => if |f.contents| < maxSize then Ok(Fifo(f.contents + [c], NoRoom)) else LengthError
    case Get => Ok(Fifo(if f.contents == [] then [] else f.contents[1..], NoRoom))
  }

  /** What the documentation asks of a caller: a commit directly follows a prepare of at least
      its size.  And what the code asks: the number of bytes really moved fits an `int`, and a
      count added to a pointer stays inside the address space. */
  predicate Allowed(f: Fifo, op: Op) {
    match op
    case Commit(data) => f.room.Room? && |data| <= f.room.n && |data| <= INT_MAX
    case Consume(n) => Min(n, |f.contents|) <= INT_MAX && n <= PTRDIFF_MAX && |f.contents| <= PTRDIFF_MAX
    case _ => true
  }

  /** Every operation of the run is allowed, up to the first one that throws. */
  predicate AllowedRun(maxSize: nat, f: Fifo, ops: seq<Op>)
    decreases |ops|
  {
    ops != [] ==>
      && Allowed(f, ops[0])
      && (Apply(maxSize, f, ops[0]).Ok? ==> AllowedRun(maxSize, Apply(maxSize, f, ops[0]).value, ops[1..]))
  }

  /** What a user sees after an operation: the input sequence, or the exception that ends
      the run. */
  datatype Observation = Threw | Holds(contents: seq<Byte>)

  function Observe(maxSize: nat, f: Fifo, ops: seq<Op>): seq<Observation>
    decreases |ops|
  {
    if ops == [] then []
    else
      match Apply(maxSize, f, ops[0])
      case LengthError => [Threw]
      case Ok(g) => [Holds(g.contents)] + Observe(maxSize, g, ops[1..])
  }

  /** Operation `i` of a run, seen from the whole run. */
  lemma ObserveStep(maxSize: nat, f: Fifo, ops: seq<Op>, i: nat, seen: seq<Observation>, expected: seq<Observation>)
    requires i < |ops| && AllowedRun(maxSize, f, ops[i..])
    requires expected == seen + Observe(maxSize, f, ops[i..])
    ensures Allowed(f, ops[i])
    ensures Apply(maxSize, f, ops[i]).LengthError? ==> expected == seen + [Threw]
    ensures Apply(maxSize, f, ops[i]).Ok? ==>
              var g := Apply(maxSize, f, ops[i]).value;
              AllowedRun(maxSize, g, ops[i + 1..]) &&
              expected == seen + [Holds(g.contents)] + Observe(maxSize, g, ops[i + 1..])
  {
    assert ops[i..][0] == ops[i] && ops[i..][1..] == ops[i + 1..];
  }

  /** The queue at the end of a run that does not throw. */
  function Final(maxSize: nat, f: Fifo, ops: seq<Op>): Result<Fifo>
    decreases |ops|
  {
    if ops == [] then Ok(f)
    else
      match Apply(maxSize, f, ops[0])
      case LengthError => LengthError
      case Ok(g) => Final(maxSize, g, ops[1..])
  }

  /** What is allowed: whatever the documentation allows, while all counts are below 2^31. */
  lemma SmallOperationsAreAllowed(maxSize: nat, f: Fifo, op: Op)
    requires op.Consume? ==> op.n < 0x8000_0000 && |f.contents| < 0x8000_0000
    requires op.Commit? ==> f.room.Room? && |op.data| <= f.room.n && |op.data| < 0x8000_0000
    ensures Allowed(f, op)
    ensures op.Prepare? && |f.contents| + op.n <= maxSize ==>
              forall data: seq<Byte> :: |data| <= op.n && |data| < 0x8000_0000 ==>
                Allowed(Apply(maxSize, f, op).value, Commit(data))
  {
  }

  /** An allowed run that has not thrown goes on with exactly the operations allowed there. */
  lemma {:induction false} RunsExtend(maxSize: nat, f: Fifo, ops: seq<Op>, op: Op)
    requires AllowedRun(maxSize, f, ops) && Final(maxSize, f, ops).Ok?
    ensures AllowedRun(maxSize, f, ops + [op]) <==> Allowed(Final(maxSize, f, ops).value, op)
    decreases |ops|
  {
    if ops == [] {
      assert ops + [op] == [op];
      assert Apply(maxSize, f, op).Ok? ==> AllowedRun(maxSize, Apply(maxSize, f, op).value, [op][1..]);
    } else {
      assert (ops + [op])[1..] == ops[1..] + [op];
      RunsExtend(maxSize, Apply(maxSize, f, ops[0]).value, ops[1..], op);
    }
  }

  /** The bytes an operation appends, and how many it removes from the front. */
  function AppendedBy(op: Op): seq<Byte> {
    match op
    case Commit(data) => data
    case Put(c) => [c]
    case _ => []
  }

  function TakenBy(f: Fifo, op: Op): nat {
    match op
    case Consume(n) => Min(n, |f.contents|)
    case Get => Min(1, |f.contents|)
    case _ => 0
  }

  function Appended(ops: seq<Op>): seq<Byte> {
    if ops == [] then [] else AppendedBy(ops[0]) + Appended(ops[1..])
  }

  /** The bytes a run removes, in the order in which they go. */
  function Removed(maxSize: nat, f: Fifo, ops: seq<Op>): seq<Byte>
    requires Final(maxSize, f, ops).Ok?
    decreases |ops|
  {
    if ops == [] then []
    else f.contents[..TakenBy(f, ops[0])] + Removed(maxSize, Apply(maxSize, f, ops[0]).value, ops[1..])
  }

  lemma StepConserves(maxSize: nat, f: Fifo, op: Op)
    requires Apply(maxSize, f, op).Ok?
    ensures f.contents + AppendedBy(op) == f.contents[..TakenBy(f, op)] + Apply(maxSize, f, op).value.contents
  {
  }

  /** First in, first out: everything that was ever in is what went, then what is left. */
  lemma {:induction false} FirstInFirstOut(maxSize: nat, f: Fifo, ops: seq<Op>)
    requires Final(maxSize, f, ops).Ok?
    ensures f.contents + Appended(ops) == Removed(maxSize, f, ops) + Final(maxSize, f, ops).value.contents
    decreases |ops|
  {
    if ops == [] {
      assert f.contents + Appended(ops) == f.contents;
    } else {
      var g := Apply(maxSize, f, ops[0]).value;
      StepConserves(maxSize, f, ops[0]);
      FirstInFirstOut(maxSize, g, ops[1..]);
      var left := Final(maxSize, g, ops[1..]).value.contents;
      Regroup(f.contents, AppendedBy(ops[0]), Appended(ops[1..]),
              f.contents[..TakenBy(f, ops[0])], g.contents, Removed(maxSize, g, ops[1..]), left);
    }
  }

  lemma Regroup(a: seq<Byte>, b: seq<Byte>, c: seq<Byte>, x: seq<Byte>, y: seq<Byte>, z: seq<Byte>, w: seq<Byte>)
    requires a + b == x + y && y + c == z + w
    ensures a + (b + c) == (x + z) + w
  {
    assert a + (b + c) == (a + b) + c;
    assert (x + y) + c == x + (y + c);
    assert x + (z + w) == (x + z) + w;
  }

  /** `size() <= max_size()` in every state of an allowed run. */
  lemma {:induction false} NeverTooLong(maxSize: nat, f: Fifo, ops: seq<Op>, k: nat)
    requires |f.contents| <= maxSize && (f.room.Room? ==> |f.contents| + f.room.n <= maxSize)
    requires AllowedRun(maxSize, f, ops)
    requires k < |Observe(maxSize, f, ops)| && Observe(maxSize, f, ops)[k].Holds?
    ensures |Observe(maxSize, f, ops)[k].contents| <= maxSize
    decreases |ops|
  {
    var g := Apply(maxSize, f, ops[0]).value;
    if k > 0 {
      NeverTooLong(maxSize, g, ops[1..], k - 1);
    }
  }
}
