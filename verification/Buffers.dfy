/** Buffers as asio sees them: an address and a size, in one flat memory.

    A buffer sequence is a `seq<Buffer>`; any of its buffers may be empty.  What the
    sequence means is the list of addresses it denotes, `Flatten`, and every operation on
    buffers in the other modules is specified over that list. */
module Buffers {

  type Byte = b: int | 0 <= b < 256

  /** `std::numeric_limits<std::size_t>::max()` on a 64-bit platform. */
  const SIZE_MAX: nat := 0xFFFF_FFFF_FFFF_FFFF

  /** `std::numeric_limits<std::ptrdiff_t>::max()`. */
  const PTRDIFF_MAX: nat := 0x7FFF_FFFF_FFFF_FFFF

  function Min(a: nat, b: nat): nat {
    if a < b then a else b
  }

  function Max(a: nat, b: nat): nat {
    if a < b then b else a
  }

  /** `mutable_buffer` and `const_buffer`.  The default buffer is `Buffer(0, 0)`. */
  datatype Buffer = Buffer(data: nat, size: nat)

  /** The addresses a buffer covers, in order. */
  function Range(b: Buffer): seq<nat> {
    seq(b.size, i requires 0 <= i < b.size => b.data + i)
  }

  /** `operator+` and `operator+=`: drops the first `n` bytes, or all of them. */
  function Plus(b: Buffer, n: nat): Buffer {
    var offset := if n < b.size then n else b.size;
    Buffer(b.data + offset, b.size - offset)
  }

  /** `buffer(b, n)`: keeps the first `n` bytes, or all of them. */
  function Limit(b: Buffer, n: nat): Buffer {
    Buffer(b.data, if b.size < n then b.size else n)
  }

  /** The two operations split a buffer without losing or repeating a byte, and moving the
      start twice is moving it once by the sum. */
  lemma SplitBuffer(b: Buffer, m: nat, n: nat)
    ensures Range(Plus(b, n)) == Range(b)[Min(n, b.size)..]
    ensures Range(Limit(b, n)) == Range(b)[..Min(n, b.size)]
    ensures Range(Limit(b, n)) + Range(Plus(b, n)) == Range(b)
    ensures Plus(Plus(b, m), n) == Plus(b, m + n)
    ensures Limit(Plus(b, m), n) == Plus(Limit(b, m + n), m)
  {
  }

  // ----- Buffer sequences -----

  /** The number of bytes in the first `i` buffers. */
  function Before(bs: seq<Buffer>, i: nat): nat
    requires i <= |bs|
  {
    if i == 0 then 0 else Before(bs, i - 1) + bs[i - 1].size
  }

  function Total(bs: seq<Buffer>): nat {
    Before(bs, |bs|)
  }

  /** The addresses of the first `i` buffers, in order. */
  function FlattenTo(bs: seq<Buffer>, i: nat): (a: seq<nat>)
    requires i <= |bs|
    ensures |a| == Before(bs, i)
  {
    if i == 0 then [] else FlattenTo(bs, i - 1) + Range(bs[i - 1])
  }

  function Flatten(bs: seq<Buffer>): (a: seq<nat>)
    ensures |a| == Total(bs)
  {
    FlattenTo(bs, |bs|)
  }

  lemma {:induction false} BeforeMonotone(bs: seq<Buffer>, i: nat, j: nat)
    requires i <= j <= |bs|
    ensures Before(bs, i) <= Before(bs, j)
    decreases j - i
  {
    if i < j {
      BeforeMonotone(bs, i, j - 1);
    }
  }

  lemma {:induction false} FlattenPrefix(bs: seq<Buffer>, i: nat, j: nat)
    requires i <= j <= |bs|
    ensures FlattenTo(bs, i) <= FlattenTo(bs, j)
    decreases j - i
  {
    if i < j {
      FlattenPrefix(bs, i, j - 1);
    }
  }

  /** The flattened sequence over the bytes of one buffer, from `offset` on. */
  lemma FlattenSlice(bs: seq<Buffer>, i: nat, offset: nat, n: nat)
    requires i < |bs| && offset + n <= bs[i].size
    ensures Before(bs, i) + offset + n <= Total(bs)
    ensures Flatten(bs)[Before(bs, i) + offset..][..n] == Range(bs[i])[offset..][..n]
  {
    BeforeMonotone(bs, i + 1, |bs|);
    FlattenPrefix(bs, i + 1, |bs|);
    var from := Before(bs, i) + offset;
    var prefix := FlattenTo(bs, i) + Range(bs[i]);
    assert FlattenTo(bs, i + 1) == prefix;
    assert Flatten(bs)[..|prefix|] == prefix;
    assert Flatten(bs)[from..][..n] == prefix[from..][..n];
  }

  /** `detail::buffer_size` for several buffers; `std::size_t` addition wraps. */
  method BufferSize(bs: seq<Buffer>) returns (total: nat)
    ensures total == Total(bs) % (SIZE_MAX + 1)
  {
    total := 0;
    for i := 0 to |bs|
      invariant total == Before(bs, i) % (SIZE_MAX + 1)
    {
      total := (total + bs[i].size) % (SIZE_MAX + 1);
    }
  }

  // ----- Distinct addresses -----

  predicate Distinct(a: seq<nat>) {
    forall i, j :: 0 <= i < j < |a| ==> a[i] != a[j]
  }

  /** Distinct addresses below `limit` are at most `limit` many. */
  lemma {:induction false} DistinctAtMost(a: seq<nat>, limit: nat)
    requires Distinct(a)
    requires forall i :: 0 <= i < |a| ==> a[i] < limit
    ensures |a| <= limit
    decreases limit
  {
    if |a| == 0 {
    } else if k :| 0 <= k < |a| && a[k] == limit - 1 {
      var rest := a[..k] + a[k + 1..];
      assert forall i | 0 <= i < |rest| :: rest[i] == if i < k then a[i] else a[i + 1];
      DistinctAtMost(rest, limit - 1);
    } else {
      assert a[0] < limit;
      DistinctAtMost(a, limit - 1);
    }
  }

  /** So `buffer_size` is exact on buffers that share no byte and lie in an address space
      that `std::size_t` can count. */
  lemma DisjointBuffersFit(bs: seq<Buffer>, memory: nat)
    requires Distinct(Flatten(bs)) && memory <= SIZE_MAX
    requires forall i :: 0 <= i < |Flatten(bs)| ==> Flatten(bs)[i] < memory
    ensures Total(bs) <= memory && Total(bs) % (SIZE_MAX + 1) == Total(bs)
  {
    DistinctAtMost(Flatten(bs), memory);
  }
}
