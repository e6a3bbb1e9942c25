/** `dynamic_vector_buffer`: the same byte queue in the front of a vector, shrunk and erased
    in place.

    `size` is the length of the input sequence in the DynamicBuffer_v1 protocol.  Until the
    first `Prepare` it is `SIZE_MAX`, which stands for "the whole vector". */
module DynamicBuffer {
  import opened Buffers
  import opened ByteFifo

  /** `vector_.resize(n)`: cuts the vector, or extends it with zeros. */
  function Resized(v: seq<Byte>, n: nat): (r: seq<Byte>)
    ensures |r| == n && r[..Min(n, |v|)] == v[..Min(n, |v|)]
    ensures forall i :: |v| <= i < n ==> r[i] == 0
  {
    if n <= |v| then v[..n] else v + seq(n - |v|, _ => 0)
  }

  class DynamicVectorBuffer {
    var vector: seq<Byte>
    var size: nat
    const maxSize: nat

    ghost predicate Valid()
      reads this
    {
      && |vector| <= maxSize <= SIZE_MAX
      && (size == SIZE_MAX || size <= |vector|)
    }

    /** The input sequence: `data()`, which limits a buffer over the vector to `size` bytes. */
    function Data(): (bytes: seq<Byte>)
      requires Valid()
      reads this
      ensures size == SIZE_MAX ==> bytes == vector
      ensures size != SIZE_MAX ==> |bytes| == size && bytes <= vector
    {
      var b := Limit(Buffer(0, |vector|), size);
      vector[b.data..b.data + b.size]
    }

    /** The sentinel and a genuine size of `SIZE_MAX` cannot be told apart, and need not be:
        either way the size is that of the data. */
    function Size(): (n: nat)
      requires Valid()
      reads this
      ensures n == |Data()|
    {
      if size != SIZE_MAX then size else Min(|vector|, maxSize)
    }

    constructor (v: seq<Byte>, maximumSize: nat)
      requires |v| <= maximumSize <= SIZE_MAX
      ensures Valid() && maxSize == maximumSize && Data() == v
    {
      vector, size, maxSize := v, SIZE_MAX, maximumSize;
    }

    /** Throws exactly when input and room together would exceed the maximum, and then changes
        nothing. */
    method Prepare(n: nat) returns (r: Result<Buffer>)
      requires Valid()
      modifies this
      ensures Valid() && Data() == old(Data())
      ensures r.Ok? <==> old(Size()) + n <= maxSize
      ensures r.Ok? ==> r.value == Buffer(size, n) && size == old(Size()) && |vector| == size + n
      ensures r.LengthError? ==> unchanged(this)
    {
      if Size() > maxSize || maxSize - Size() < n {
        return LengthError;
      }

      if size == SIZE_MAX {
        size := |vector|;
      }

      vector := Resized(vector, size + n);
      return Ok(Limit(Plus(Buffer(0, |vector|), size), n));
    }

    /** What a caller does with the room that `Prepare` returned. */
    method WriteRoom(data: seq<Byte>)
      requires Valid() && size + |data| <= |vector|
      modifies this`vector
      ensures Valid() && Data() == old(Data()) && |vector| == old(|vector|)
      ensures vector[size..size + |data|] == data
    {
      vector := vector[..size] + data + vector[size + |data|..];
    }

    method Commit(n: nat)
      requires Valid() && size <= |vector|
      modifies this
      ensures Valid() && size == |vector| && Data() == vector
      ensures Data() == old(Data()) + old(vector[size..size + Min(n, |vector| - size)])
    {
      size := size + Min(n, |vector| - size);
      vector := Resized(vector, size);
    }

    method Consume(n: nat)
      requires Valid()
      modifies this
      ensures Valid() && Data() == old(Data())[Min(n, old(Size()))..]
      ensures old(|vector|) - |vector| == Min(n, old(Size()))
    {
      if size != SIZE_MAX {
        var consumeLength := Min(n, size);
        vector := vector[consumeLength..];
        size := size - consumeLength;
        return;
      }
      vector := vector[Min(Size(), n)..];
    }

    /** The buffer holds the queue's bytes and has the room last prepared. */
    ghost predicate Represents(f: Fifo)
      reads this
    {
      Valid() && Data() == f.contents && (f.room.Room? ==> size + f.room.n <= |vector|)
    }

    /** One operation of the queue, other than the single-character ones. */
    method Perform(op: Op, ghost f: Fifo) returns (ok: bool)
      requires Represents(f) && Allowed(f, op) && !op.Put? && !op.Get?
      modifies this
      ensures ok <==> Apply(maxSize, f, op).Ok?
      ensures ok ==> Represents(Apply(maxSize, f, op).value)
    {
      match op {
        case Prepare(n) =>
          var r := Prepare(n);
          ok := r.Ok?;
        case Commit(data) =>
          WriteRoom(data);
          Commit(|data|);
          ok := true;
        case Consume(n) =>
          Consume(n);
          ok := true;
      }
    }
  }
}
