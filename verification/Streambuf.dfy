/** `basic_streambuf`: a byte queue in one resizable array.

    Stream pointers are offsets from `&buffer_[0]`.  The input sequence lies between `gptr`
    and `pptr`, the output sequence between `pptr` and `epptr`; `egptr` may lag behind `pptr`
    after single-character puts. */
module Streambuf {
  import opened Buffers
  import opened ByteFifo

  const BUFFER_DELTA: nat := 128

  /** What the `memmove` in `reserve` leaves of the input sequence when the call then throws
      and the stream pointers stay where they were: the bytes from `offset` on have moved
      `offset` to the left, over the first ones, and the last `offset` bytes are still there. */
  function Smeared(contents: seq<Byte>, offset: nat): seq<Byte> {
    if offset < |contents| then contents[offset..] + contents[|contents| - offset..] else contents
  }

  /** Whatever the bytes are, the input sequence survives exactly when the get offset is 0 or
      the move does not overlap: when the input is no longer than the offset. */
  lemma SurvivesThrow(size: nat, offset: nat)
    ensures (forall contents: seq<Byte> :: |contents| == size ==> Smeared(contents, offset) == contents)
            <==> offset == 0 || size <= offset
  {
    if 0 < offset < size {
      var contents: seq<Byte> := seq(size, j => if j < offset then 0 else 1);
      assert Smeared(contents, offset)[0] == 1 && contents[0] == 0;
    } else {
      forall contents: seq<Byte> | |contents| == size
        ensures Smeared(contents, offset) == contents
      {
      }
    }
  }

  /** The move, on the bytes before and after: the input sequence lies at the front, and what
      is still between the old pointers is smeared. */
  lemma MovedToFront(before: seq<Byte>, after: seq<Byte>, from: nat, end: nat)
    requires from <= end <= |before| == |after|
    requires forall i :: 0 <= i < end - from ==> after[i] == before[i + from]
    requires forall i :: end - from <= i < |before| ==> after[i] == before[i]
    ensures after[..end - from] == before[from..end]
    ensures after[from..end] == Smeared(before[from..end], from)
  {
    if from < end - from {
      assert after[from..end - from] == before[from..end][from..];
      assert after[end - from..end] == before[from..end][end - 2 * from..];
      assert after[from..end] == after[from..end - from] + after[end - from..end];
    }
  }

  /** The count in `consume` after the test whether `gptr() + n > pptr()`.  Pointers are
      addresses, and the sum wraps around at the end of the address space. */
  function Unclamped(size: nat, putAddress: nat, count: nat): nat
    requires size <= putAddress
  {
    if (putAddress - size + count) % (SIZE_MAX + 1) > putAddress then size else count
  }

  /** The number of bytes to remove fits an `int`, and `gptr() + n` does not wrap around, unless
      the `int` happens to be the right one anyway. */
  predicate ConsumesExactly(size: nat, putAddress: nat, count: nat)
    requires size <= putAddress
  {
    && Min(count, size) <= INT_MAX
    && (putAddress - size + count <= SIZE_MAX || IntCast(count) == size)
  }

  lemma ConsumesExactlyIff(size: nat, putAddress: nat, count: nat)
    requires size <= putAddress <= SIZE_MAX && count <= SIZE_MAX
    ensures ConsumesExactly(size, putAddress, count) <==>
            IntCast(Unclamped(size, putAddress, count)) == Min(count, size)
  {
    var sum := putAddress - size + count;
    if sum <= SIZE_MAX {
      assert sum % (SIZE_MAX + 1) == sum;
    } else {
      assert sum % (SIZE_MAX + 1) == sum - (SIZE_MAX + 1);
    }
  }

  class BasicStreambuf {
    const maxSize: nat
    var buffer: array<Byte>
    var gptr: int
    var egptr: int
    var pptr: int
    var epptr: nat

    /** The bound on `epptr` is what keeps `size() <= max_size()`. */
    ghost predicate Valid()
      reads this
    {
      && 0 <= gptr <= egptr <= pptr <= epptr <= maxSize
      && buffer.Length == Max(epptr, 1)
    }

    /** The input sequence, `data()`. */
    function Contents(): (bytes: seq<Byte>)
      requires Valid()
      reads this, buffer
      ensures |bytes| == Size() <= maxSize
    {
      buffer[gptr..pptr]
    }

    function Size(): nat
      requires Valid()
      reads this
    {
      pptr - gptr
    }

    constructor (maximumSize: nat)
      ensures Valid() && fresh(buffer) && maxSize == maximumSize
      ensures Contents() == []
      ensures gptr == egptr == pptr == 0 && epptr == Min(maximumSize, 128)
    {
      var pend := Min(maximumSize, BUFFER_DELTA);
      maxSize := maximumSize;
      buffer := new Byte[Max(pend, 1)](_ => 0);
      gptr, egptr, pptr, epptr := 0, 0, 0, pend;
    }

    /** `buffer_.resize(n)` for a growing buffer: new bytes are zero.  The vector may move. */
    method Resize(n: nat, ghost kept: nat)
      requires kept <= buffer.Length <= n
      modifies this`buffer
      ensures fresh(buffer) && buffer.Length == n
      ensures buffer[..kept] == old(buffer[..kept])
    {
      var bigger := new Byte[n](i reads this, buffer => if 0 <= i < buffer.Length then buffer[i] else 0);
      buffer := bigger;
    }

    /** Moves the input sequence to the front of the buffer, in `reserve`; the pointers have not
        moved yet. */
    method MoveToFront(count: nat)
      requires Valid() && count == Size()
      modifies buffer
      ensures buffer[..count] == old(Contents())
      ensures Contents() == Smeared(old(Contents()), gptr)
    {
      ghost var before := buffer[..];
      if gptr > 0 {
        forall i | 0 <= i < count {
          buffer[i] := buffer[i + gptr];
        }
      }
      MovedToFront(before, buffer[..], gptr, pptr);
      assert before[gptr..pptr] == old(Contents()) && buffer[..][gptr..pptr] == Contents();
    }

    /** The `setg` and `setp` at the end of `reserve`. */
    method SetPointers(pnext: nat, pend: nat)
      requires pnext <= pend <= maxSize && buffer.Length == Max(pend, 1)
      modifies this`gptr, this`egptr, this`pptr, this`epptr
      ensures Valid() && Contents() == buffer[..pnext]
      ensures gptr == 0 && egptr == pptr == pnext && epptr == pend
    {
      gptr, egptr := 0, pnext;
      pptr, epptr := pnext, pend;
    }

    /** Makes room for `n` bytes after the input sequence, without changing it; throws exactly
        when input and room together would exceed the maximum. */
    method Reserve(n: nat) returns (r: Result<()>)
      requires Valid()
      modifies this, buffer
      ensures Valid() && (buffer == old(buffer) || fresh(buffer))
      ensures r.Ok? <==> old(Size()) + n <= maxSize
      ensures r.Ok? ==> Contents() == old(Contents()) && n <= epptr - pptr
      ensures r.Ok? && n <= old(epptr - pptr) ==>
                unchanged(this) && buffer[..] == old(buffer[..])
      ensures r.Ok? && n > old(epptr - pptr) ==>
                && gptr == 0 && egptr == pptr == old(Size())
                && epptr == if n <= old(epptr - Size()) then old(epptr) else old(Size()) + n
      ensures r.LengthError? ==> unchanged(this) && Contents() == Smeared(old(Contents()), old(gptr))
    {
      ghost var was := Contents();
      var gnext := gptr;
      var pnext := pptr;
      var pend := epptr;

      if n <= pend - pnext {
        return Ok(());
      }

      pnext := pnext - gnext;
      MoveToFront(pnext);

      if n > pend - pnext {
        if n <= maxSize && pnext <= maxSize - n {
          assert buffer.Length == Max(epptr, 1) && epptr < pnext + n;
          pend := pnext + n;
          Resize(Max(pend, 1), pnext);
        } else {
          return LengthError;
        }
      }

      SetPointers(pnext, pend);
      return Ok(());
    }

    /** Returns the room as an offset into the buffer and a size. */
    method Prepare(n: nat) returns (r: Result<Buffer>)
      requires Valid()
      modifies this, buffer
      ensures Valid() && (buffer == old(buffer) || fresh(buffer))
      ensures r.Ok? <==> old(Size()) + n <= maxSize
      ensures r.Ok? ==> r.value == Buffer(pptr, n) && n <= epptr - pptr
      ensures r.Ok? ==> Contents() == old(Contents())
      ensures r.LengthError? ==> unchanged(this) && Contents() == Smeared(old(Contents()), old(gptr))
    {
      var reserved := Reserve(n);
      if reserved.LengthError? {
        return LengthError;
      }
      return Ok(Buffer(pptr, n));
    }

    /** What a caller does with the room that `Prepare` returned. */
    method WriteRoom(data: seq<Byte>)
      requires Valid() && |data| <= epptr - pptr
      modifies buffer
      ensures Contents() == old(Contents()) && buffer[pptr..pptr + |data|] == data
    {
      forall i | 0 <= i < |data| {
        buffer[pptr + i] := data[i];
      }
    }

    /** `pbump` takes an `int`: the documented number of bytes is appended exactly when it is
        one. */
    method Commit(count: nat)
      requires Valid()
      modifies this`pptr, this`egptr
      ensures pptr == egptr == old(pptr) + IntCast(Min(count, epptr - old(pptr)))
      ensures pptr == old(pptr) + Min(count, epptr - old(pptr)) <==> Min(count, epptr - old(pptr)) <= INT_MAX
      ensures Min(count, epptr - old(pptr)) <= INT_MAX ==>
                Valid() && Contents() == old(Contents()) + buffer[old(pptr)..pptr]
    {
      var n := Min(count, epptr - pptr);
      pptr := pptr + IntCast(n);
      egptr := pptr;
    }

    /** Removes the documented number of bytes exactly when `ConsumesExactly` says so.
        `putAddress` is the address `pptr()` holds, wherever the vector put the buffer. */
    method Consume(count: nat, putAddress: nat)
      requires Valid() && count <= SIZE_MAX && Size() <= putAddress <= SIZE_MAX
      modifies this`gptr, this`egptr
      ensures egptr == pptr && gptr == old(gptr) + IntCast(Unclamped(old(Size()), putAddress, count))
      ensures gptr == old(gptr) + Min(count, old(Size())) <==> ConsumesExactly(old(Size()), putAddress, count)
      ensures ConsumesExactly(old(Size()), putAddress, count) ==>
                Valid() && Contents() == old(Contents())[Min(count, old(Size()))..]
    {
      ghost var was, size := Contents(), Size();
      ConsumesExactlyIff(Size(), putAddress, count);
      var n := count;
      if egptr < pptr {
        egptr := pptr;
      }
      var getAddress := putAddress - (pptr - gptr);
      if (getAddress + n) % (SIZE_MAX + 1) > putAddress {
        n := pptr - gptr;
      }
      gptr := gptr + IntCast(n);
      assert ConsumesExactly(size, putAddress, count) ==> buffer[gptr..pptr] == was[Min(count, size)..];
    }

    /** Refreshes a stale `egptr`; there is a character to read exactly when the queue is not
        empty, and it is the first one. */
    method Underflow() returns (r: IntType)
      requires Valid()
      modifies this`egptr
      ensures Valid() && Contents() == old(Contents())
      ensures r == if Contents() == [] then Eof else Char(Contents()[0])
      ensures r.Char? ==> egptr == pptr
      ensures r.Eof? ==> egptr == old(egptr)
    {
      if gptr < pptr {
        egptr := pptr;
        return Char(buffer[gptr]);
      } else {
        return Eof;
      }
    }

    /** `*pptr() = c; pbump(1)`. */
    method Append(c: Byte)
      requires Valid() && pptr < epptr
      modifies this`pptr, buffer
      ensures Valid() && Contents() == old(Contents()) + [c]
    {
      buffer[pptr] := c;
      pptr := pptr + 1;
    }

    /** Appends the character unless the queue is full; the choice of how much to reserve
        never fails while a byte still fits, and a full put area then has the usual room, or
        all that is left, after moving the input sequence to the front. */
    method Overflow(c: IntType) returns (r: Result<IntType>)
      requires Valid()
      modifies this, buffer
      ensures Valid() && (buffer == old(buffer) || fresh(buffer))
      ensures c.Eof? ==> r == Ok(NOT_EOF) && unchanged(this) && buffer[..] == old(buffer[..])
      ensures c.Char? ==> (r.Ok? <==> old(Size()) < maxSize)
      ensures c.Char? && r.Ok? ==> r == Ok(c) && Contents() == old(Contents()) + [c.c]
      ensures c.Char? && r.Ok? && old(pptr) == old(epptr) ==>
                && gptr == 0 && pptr == old(Size()) + 1
                && epptr == Max(old(epptr), old(Size()) + Min(128, maxSize - old(Size())))
      ensures r.LengthError? ==> unchanged(this) && Contents() == Smeared(old(Contents()), old(gptr))
    {
      if c != Eof {
        if pptr == epptr {
          var bufferSize := pptr - gptr;
          var reserved: Result<()>;
          if bufferSize < maxSize && maxSize - bufferSize < BUFFER_DELTA {
            reserved := Reserve(maxSize - bufferSize);
          } else {
            reserved := Reserve(BUFFER_DELTA);
          }
          if reserved.LengthError? {
            return LengthError;
          }
        }

        Append(c.c);
        return Ok(c);
      }

      return Ok(NOT_EOF);
    }

    /** `std::streambuf::sputc`, which calls `overflow` when the put area is full. */
    method Sputc(c: Byte) returns (r: Result<IntType>)
      requires Valid()
      modifies this, buffer
      ensures Valid() && (buffer == old(buffer) || fresh(buffer))
      ensures r.Ok? <==> old(Size()) < maxSize
      ensures r.Ok? ==> Contents() == old(Contents()) + [c]
    {
      if pptr < epptr {
        Append(c);
        return Ok(Char(c));
      }
      r := Overflow(Char(c));
    }

    /** `std::streambuf::sbumpc`, which calls `underflow` when the get area is used up. */
    method Sbumpc() returns (r: IntType)
      requires Valid()
      modifies this`gptr, this`egptr
      ensures Valid()
      ensures r == if old(Contents()) == [] then Eof else Char(old(Contents())[0])
      ensures Contents() == if old(Contents()) == [] then [] else old(Contents())[1..]
    {
      if gptr == egptr {
        r := Underflow();
        if r.Eof? {
          return;
        }
      }
      r := Char(buffer[gptr]);
      gptr := gptr + 1;
    }

    /** `read_size_helper`, for whatever capacity the vector has: a size that can always be
        prepared, and is not 0 while there is room for anything.  Unless one of the limits stops
        it, it is at least 512 and uses all of the capacity; beyond 512 it never asks for more
        than the capacity. */
    function ReadSizeHelper(capacity: nat, limit: nat): (n: nat)
      requires Valid() && buffer.Length <= capacity
      reads this, buffer
      ensures Size() + n <= maxSize && n <= limit
      ensures n == 0 <==> limit == 0 || Size() == maxSize
      ensures n < limit && Size() + n < maxSize ==> n >= 512 && Size() + n >= capacity
      ensures n > 512 ==> Size() + n <= capacity
    {
      Min(Max(512, capacity - Size()), Min(limit, maxSize - Size()))
    }

    /** So reading the size it proposes never throws. */
    method PrepareForRead(capacity: nat, limit: nat) returns (r: Result<Buffer>)
      requires Valid() && buffer.Length <= capacity
      modifies this, buffer
      ensures Valid() && r.Ok? && Contents() == old(Contents())
      ensures r.value == Buffer(pptr, old(ReadSizeHelper(capacity, limit))) && r.value.size <= epptr - pptr
    {
      r := Prepare(ReadSizeHelper(capacity, limit));
    }

    /** A caller's write to the room and the commit of all of it. */
    method WriteAndCommit(data: seq<Byte>)
      requires Valid() && |data| <= epptr - pptr && |data| <= INT_MAX
      modifies this`pptr, this`egptr, buffer
      ensures Valid() && Contents() == old(Contents()) + data
    {
      ghost var p := pptr;
      WriteRoom(data);
      Commit(|data|);
      assert buffer[p..pptr] == data;
    }

    /** The streambuf holds the queue's bytes and has the room last prepared. */
    ghost predicate Represents(f: Fifo)
      reads this, buffer
    {
      Valid() && Contents() == f.contents && (f.room.Room? ==> f.room.n <= epptr - pptr)
    }

    /** One operation of the queue. */
    method Perform(op: Op, ghost f: Fifo) returns (ok: bool)
      requires Represents(f) && Allowed(f, op)
      modifies this, buffer
      ensures Valid() && (buffer == old(buffer) || fresh(buffer))
      ensures ok <==> Apply(maxSize, f, op).Ok?
      ensures ok ==> Represents(Apply(maxSize, f, op).value)
    {
      match op {
        case Prepare(_) => ok := PerformPrepare(op, f);
        case Commit(data) => WriteAndCommit(data); ok := true;
        case Consume(_) => PerformConsume(op, f); ok := true;
        case Put(_) => ok := PerformPut(op, f);
        case Get => var _ := Sbumpc(); ok := true;
      }
    }

    method PerformPrepare(op: Op, ghost f: Fifo) returns (ok: bool)
      requires Represents(f) && op.Prepare?
      modifies this, buffer
      ensures Valid() && (buffer == old(buffer) || fresh(buffer))
      ensures ok <==> Apply(maxSize, f, op).Ok?
      ensures ok ==> Represents(Apply(maxSize, f, op).value)
    {
      var r := Prepare(op.n);
      ok := r.Ok?;
    }

    /** Memory a program can use lies in the lower half of the address space; `pptr()` may hold
        any such address. */
    method PerformConsume(op: Op, ghost f: Fifo)
      requires Represents(f) && op.Consume? && Allowed(f, op)
      modifies this`gptr, this`egptr
      ensures Represents(Apply(maxSize, f, op).value)
    {
      var putAddress: nat :| Size() <= putAddress <= PTRDIFF_MAX;
      Consume(op.n, putAddress);
    }

    method PerformPut(op: Op, ghost f: Fifo) returns (ok: bool)
      requires Represents(f) && op.Put?
      modifies this, buffer
      ensures Valid() && (buffer == old(buffer) || fresh(buffer))
      ensures ok <==> Apply(maxSize, f, op).Ok?
      ensures ok ==> Represents(Apply(maxSize, f, op).value)
    {
      var r := Sputc(op.c);
      ok := r.Ok?;
    }

    /** Over every allowed run, across every move, resize and stale `egptr`, a user of the
        streambuf sees the byte queue. */
    method Run(ops: seq<Op>) returns (seen: seq<Observation>)
      requires Valid() && AllowedRun(maxSize, Fifo(Contents(), NoRoom), ops)
      modifies this, buffer
      ensures Valid() && seen == Observe(maxSize, Fifo(old(Contents()), NoRoom), ops)
    {
      seen := [];
      ghost var f := Fifo(Contents(), NoRoom);
      ghost var expected := Observe(maxSize, f, ops);
      for i := 0 to |ops|
        invariant Represents(f) && (buffer == old(buffer) || fresh(buffer))
        invariant AllowedRun(maxSize, f, ops[i..])
        invariant expected == seen + Observe(maxSize, f, ops[i..])
      {
        ObserveStep(maxSize, f, ops, i, seen, expected);
        var ok := Perform(ops[i], f);
        if !ok {
          seen := seen + [Threw];
          return;
        }
        f := Apply(maxSize, f, ops[i]).value;
        seen := seen + [Holds(Contents())];
      }
    }
  }

  /** A streambuf of at most four bytes, three of them waiting behind one that was consumed: a
      `prepare` that throws changes the bytes waiting. */
  method ThrowChangesInput() returns (threw: bool, before: seq<Byte>, after: seq<Byte>)
    ensures threw && before == [1, 2, 3] && after == [2, 3, 3]
  {
    var streambuf := new BasicStreambuf(4);
    var room := streambuf.Prepare(4);
    streambuf.WriteAndCommit([0, 1, 2, 3]);
    streambuf.Consume(1, 4096);
    before := streambuf.Contents();
    var more := streambuf.Prepare(2);
    threw := more.LengthError?;
    after := streambuf.Contents();
  }

  /** With room for 2^31 bytes, committing all of it moves `pptr` back by 2^31 instead: the
      streambuf then has a negative size. */
  method CommitTooMuch() returns (threw: bool, size: int)
    ensures !threw && size == -0x8000_0000
  {
    var streambuf := new BasicStreambuf(0x8000_0000);
    var room := streambuf.Prepare(0x8000_0000);
    threw := room.LengthError?;
    streambuf.Commit(0x8000_0000);
    size := streambuf.pptr - streambuf.gptr;
  }

  /** Consuming everything by asking for `SIZE_MAX` bytes moves `gptr` back by one instead,
      wherever the buffer lies: an empty streambuf then has size 1. */
  method ConsumeTooMuch(putAddress: nat) returns (size: int)
    requires 1 <= putAddress <= SIZE_MAX
    ensures size == 1
  {
    var streambuf := new BasicStreambuf(4);
    streambuf.Consume(SIZE_MAX, putAddress);
    size := streambuf.pptr - streambuf.gptr;
  }
}
