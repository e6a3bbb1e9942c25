/** `buffer_copy`: scatter/gather copying between two buffer sequences.

    The reference is `FlatCopy`: one byte after the other, byte `k` of the flattened target
    takes byte `k` of the flattened source.  Every overload, with its own cursors and its own
    loop, is proved to leave memory exactly as the flat copy does and to return how many
    bytes that was. */
module BufferCopying {
  import opened Buffers

  // ----- The flat copy -----

  predicate InMemory(addresses: seq<nat>, n: nat, memory: nat) {
    n <= |addresses| && forall k :: 0 <= k < n ==> addresses[k] < memory
  }

  /** Memory after the first `n` bytes at `source` went to `target`, one after the other. */
  function FlatCopy(mem: seq<Byte>, target: seq<nat>, source: seq<nat>, n: nat): (after: seq<Byte>)
    requires InMemory(target, n, |mem|) && InMemory(source, n, |mem|)
    ensures |after| == |mem|
  {
    if n == 0 then mem
    else
      var after := FlatCopy(mem, target, source, n - 1);
      after[target[n - 1] := after[source[n - 1]]]
  }

  /** Copying `done` bytes and then `n` more from where both sides stand is one flat copy. */
  lemma {:induction false} FlatCopyContinues(mem: seq<Byte>, target: seq<nat>, source: seq<nat>, done: nat,
                                             targetRest: seq<nat>, sourceRest: seq<nat>, n: nat)
    requires InMemory(target, done + n, |mem|) && InMemory(source, done + n, |mem|)
    requires n <= |targetRest| && forall k :: 0 <= k < n ==> targetRest[k] == target[done + k]
    requires n <= |sourceRest| && forall k :: 0 <= k < n ==> sourceRest[k] == source[done + k]
    ensures FlatCopy(FlatCopy(mem, target, source, done), targetRest, sourceRest, n)
         == FlatCopy(mem, target, source, done + n)
    decreases n
  {
    if n > 0 {
      FlatCopyContinues(mem, target, source, done, targetRest, sourceRest, n - 1);
    }
  }

  /** What copying with `memcpy` asks for: the `n` bytes written are different bytes, and none
      of them is among the `n` bytes read. */
  predicate NoOverlap(target: seq<nat>, source: seq<nat>, n: nat)
    requires n <= |target| && n <= |source|
  {
    && (forall i, j :: 0 <= i < j < n ==> target[i] != target[j])
    && (forall i, j :: 0 <= i < n && 0 <= j < n ==> target[i] != source[j])
  }

  /** `after` has the first `n` source bytes at the target and is otherwise `before`. */
  predicate Copied(before: seq<Byte>, after: seq<Byte>, target: seq<nat>, source: seq<nat>, n: nat)
    requires InMemory(target, n, |before|) && InMemory(source, n, |before|)
  {
    && |after| == |before|
    && (forall k :: 0 <= k < n ==> after[target[k]] == before[source[k]])
    && (forall a :: 0 <= a < |before| && a !in target[..n] ==> after[a] == before[a])
  }

  /** Without overlap, the flat copy is the one memory that has the original source bytes at
      the target and every other byte unchanged. */
  lemma FlatCopyIsTheCopy(mem: seq<Byte>, after: seq<Byte>, target: seq<nat>, source: seq<nat>, n: nat)
    requires InMemory(target, n, |mem|) && InMemory(source, n, |mem|) && NoOverlap(target, source, n)
    ensures Copied(mem, after, target, source, n) <==> after == FlatCopy(mem, target, source, n)
  {
    FlatCopyCopies(mem, target, source, n);
    var flat := FlatCopy(mem, target, source, n);
    if Copied(mem, after, target, source, n) {
      forall a | 0 <= a < |mem|
        ensures after[a] == flat[a]
      {
        if a in target[..n] {
          var k :| 0 <= k < n && target[..n][k] == a;
          assert after[target[k]] == flat[target[k]];
        }
      }
    }
  }

  lemma {:induction false} FlatCopyCopies(mem: seq<Byte>, target: seq<nat>, source: seq<nat>, n: nat)
    requires InMemory(target, n, |mem|) && InMemory(source, n, |mem|) && NoOverlap(target, source, n)
    ensures Copied(mem, FlatCopy(mem, target, source, n), target, source, n)
  {
    if n > 0 {
      FlatCopyCopies(mem, target, source, n - 1);
      assert target[..n] == target[..n - 1] + [target[n - 1]];
    }
  }

  // ----- One block -----

  /** `n` bytes may be copied in a memory of the given size. */
  predicate Copyable(target: seq<nat>, source: seq<nat>, n: nat, memory: nat) {
    InMemory(target, n, memory) && InMemory(source, n, memory) && NoOverlap(target, source, n)
  }

  /** A contiguous block at two addresses, copied as `memcpy` copies it. */
  predicate BlockMoved(before: seq<Byte>, after: seq<Byte>, target: nat, source: nat, n: nat)
    requires |after| == |before|
  {
    && (forall a :: target <= a < target + n && a < |before| && source + (a - target) < |before| ==>
          after[a] == before[source + (a - target)])
    && (forall a :: 0 <= a < |before| && !(target <= a < target + n) ==> after[a] == before[a])
  }

  lemma BlockInside(before: seq<Byte>, after: seq<Byte>, target: Buffer, source: Buffer, n: nat, k: nat)
    requires |after| == |before| && BlockMoved(before, after, target.data, source.data, n)
    requires k < n && n <= target.size && n <= source.size
    requires Range(target)[k] < |before| && Range(source)[k] < |before|
    ensures after[Range(target)[k]] == before[Range(source)[k]]
  {
    assert Range(target)[k] == target.data + k && Range(source)[k] == source.data + k;
  }

  lemma BlockOutside(before: seq<Byte>, after: seq<Byte>, target: Buffer, source: Buffer, n: nat, a: nat)
    requires |after| == |before| && BlockMoved(before, after, target.data, source.data, n)
    requires n <= target.size && a < |before| && a !in Range(target)[..n]
    ensures after[a] == before[a]
  {
    InsideRange(target, n, a);
  }

  lemma BlockIsCopied(before: seq<Byte>, after: seq<Byte>, target: Buffer, source: Buffer, n: nat)
    requires Copyable(Range(target), Range(source), n, |before|) && |after| == |before|
    requires BlockMoved(before, after, target.data, source.data, n)
    ensures after == FlatCopy(before, Range(target), Range(source), n)
  {
    forall k | 0 <= k < n
      ensures after[Range(target)[k]] == before[Range(source)[k]]
    {
      BlockInside(before, after, target, source, n, k);
    }
    forall a | 0 <= a < |before| && a !in Range(target)[..n]
      ensures after[a] == before[a]
    {
      BlockOutside(before, after, target, source, n, a);
    }
    FlatCopyIsTheCopy(before, after, Range(target), Range(source), n);
  }

  lemma InsideRange(b: Buffer, n: nat, a: nat)
    requires n <= b.size
    ensures b.data <= a < b.data + n ==> a in Range(b)[..n]
  {
    if b.data <= a < b.data + n {
      assert Range(b)[..n][a - b.data] == a;
    }
  }

  /** `buffer_copy_1`: one `memcpy`. */
  method BufferCopy1(mem: array<Byte>, target: Buffer, source: Buffer) returns (n: nat)
    requires Copyable(Range(target), Range(source), Min(target.size, source.size), mem.Length)
    modifies mem
    ensures n == Min(target.size, source.size)
    ensures mem[..] == FlatCopy(old(mem[..]), Range(target), Range(source), n)
  {
    n := if target.size < source.size then target.size else source.size;
    if n > 0 {
      assert Range(target)[n - 1] < mem.Length && Range(source)[n - 1] < mem.Length;
      forall i | 0 <= i < n {
        mem[target.data + i] := mem[source.data + i];
      }
    }
    assert BlockMoved(old(mem[..]), mem[..], target.data, source.data, n);
    BlockIsCopied(old(mem[..]), mem[..], target, source, n);
  }

  // ----- Sequences of buffers -----

  /** The bytes both sequences and the budget allow. */
  function Copies(target: seq<Buffer>, source: seq<Buffer>, budget: nat): nat {
    Min(Min(Total(target), Total(source)), budget)
  }

  predicate MayCopy(target: seq<Buffer>, source: seq<Buffer>, budget: nat, memory: nat) {
    Copyable(Flatten(target), Flatten(source), Copies(target, source, budget), memory)
  }

  /** Memory when the first `done` bytes of a copy between sequences are copied. */
  function CopySoFar(mem: seq<Byte>, target: seq<Buffer>, source: seq<Buffer>, budget: nat, done: nat): seq<Byte>
    requires MayCopy(target, source, budget, |mem|) && done <= Copies(target, source, budget)
  {
    FlatCopy(mem, Flatten(target), Flatten(source), done)
  }

  /** `mem` is `before` with the first `done` bytes of the copy copied. */
  predicate HasCopied(before: seq<Byte>, mem: seq<Byte>, target: seq<Buffer>, source: seq<Buffer>, budget: nat, done: nat)
    requires MayCopy(target, source, budget, |before|)
  {
    done <= Copies(target, source, budget) && mem == CopySoFar(before, target, source, budget, done)
  }

  /** Memory after a copy between sequences. */
  function CopyBetween(mem: seq<Byte>, target: seq<Buffer>, source: seq<Buffer>, budget: nat): seq<Byte>
    requires MayCopy(target, source, budget, |mem|)
  {
    CopySoFar(mem, target, source, budget, Copies(target, source, budget))
  }

  /** A copy with a budget stops at whichever runs out first, the budget or one of the
      sequences, and changes nothing but that many bytes at the front of the target. */
  lemma CopyKeepsToBudget(before: seq<Byte>, after: seq<Byte>, target: seq<Buffer>, source: seq<Buffer>, budget: nat,
                          total: nat)
    requires MayCopy(target, source, budget, |before|) && total == Copies(target, source, budget)
    requires after == CopyBetween(before, target, source, budget)
    ensures total <= budget && total <= Total(target) && total <= Total(source)
    ensures total == budget || total == Total(target) || total == Total(source)
    ensures InMemory(Flatten(target), total, |before|) && InMemory(Flatten(source), total, |before|)
    ensures Copied(before, after, Flatten(target), Flatten(source), total)
  {
    FlatCopyCopies(before, Flatten(target), Flatten(source), total);
  }

  /** `total` bytes into the sequence is `offset` bytes into buffer `i`. */
  predicate Stands(bs: seq<Buffer>, i: nat, offset: nat, total: nat) {
    && i <= |bs| && total == Before(bs, i) + offset
    && offset <= if i < |bs| then bs[i].size else 0
  }

  /** The first `m` bytes of `bs[i]` from `offset` on, seen in the flattened sequence. */
  lemma RestOfBuffer(bs: seq<Buffer>, i: nat, offset: nat, m: nat)
    requires i < |bs| && offset + m <= bs[i].size
    ensures Before(bs, i) + offset + m <= Total(bs)
    ensures forall k :: 0 <= k < m ==> Range(Plus(bs[i], offset))[k] == Flatten(bs)[Before(bs, i) + offset + k]
  {
    FlattenSlice(bs, i, offset, m);
    forall k | 0 <= k < m
      ensures Range(Plus(bs[i], offset))[k] == Flatten(bs)[Before(bs, i) + offset + k]
    {
      assert Range(bs[i])[offset..][..m][k] == Flatten(bs)[Before(bs, i) + offset..][..m][k];
    }
  }

  /** A stretch of a copy that may be done may be done. */
  lemma StretchIsCopyable(target: seq<nat>, source: seq<nat>, n: nat, done: nat,
                          targetRest: seq<nat>, sourceRest: seq<nat>, m: nat, memory: nat)
    requires Copyable(target, source, n, memory) && done + m <= n
    requires m <= |targetRest| && forall k :: 0 <= k < m ==> targetRest[k] == target[done + k]
    requires m <= |sourceRest| && forall k :: 0 <= k < m ==> sourceRest[k] == source[done + k]
    ensures Copyable(targetRest, sourceRest, m, memory)
  {
  }

  /** One `memcpy` between the current buffers: it is allowed, and the copy done so far goes
      on with exactly its bytes. */
  lemma CopyStretch(mem: seq<Byte>, target: seq<Buffer>, source: seq<Buffer>, budget: nat, total: nat,
                    i: nat, targetOffset: nat, t: Buffer, j: nat, sourceOffset: nat, s: Buffer, m: nat)
    requires MayCopy(target, source, budget, |mem|) && total + m <= budget
    requires i < |target| && Stands(target, i, targetOffset, total)
    requires j < |source| && Stands(source, j, sourceOffset, total)
    requires targetOffset + m <= target[i].size && m <= t.size && t.data == target[i].data + targetOffset
    requires sourceOffset + m <= source[j].size && m <= s.size && s.data == source[j].data + sourceOffset
    ensures total + m <= Copies(target, source, budget)
    ensures Copyable(Range(t), Range(s), m, |mem|)
    ensures FlatCopy(CopySoFar(mem, target, source, budget, total), Range(t), Range(s), m)
         == CopySoFar(mem, target, source, budget, total + m)
  {
    RestOfBuffer(target, i, targetOffset, m);
    RestOfBuffer(source, j, sourceOffset, m);
    assert forall k :: 0 <= k < m ==> Range(t)[k] == Range(Plus(target[i], targetOffset))[k];
    assert forall k :: 0 <= k < m ==> Range(s)[k] == Range(Plus(source[j], sourceOffset))[k];
    var T, S, n := Flatten(target), Flatten(source), Copies(target, source, budget);
    StretchIsCopyable(T, S, n, total, Range(t), Range(s), m, |mem|);
    FlatCopyContinues(mem, T, S, total, Range(t), Range(s), m);
  }

  /** The call to `buffer_copy_1` in the loops below: `t` and `s` are what the loop presents
      of the two current buffers. */
  method CopyCurrent(mem: array<Byte>, ghost before: seq<Byte>,
                     ghost target: seq<Buffer>, ghost source: seq<Buffer>, ghost budget: nat, ghost total: nat,
                     ghost i: nat, ghost targetOffset: nat, t: Buffer, ghost j: nat, ghost sourceOffset: nat, s: Buffer)
      returns (m: nat)
    requires MayCopy(target, source, budget, |before|) && |before| == mem.Length
    requires i < |target| && Stands(target, i, targetOffset, total)
    requires j < |source| && Stands(source, j, sourceOffset, total)
    requires t.data == target[i].data + targetOffset && t.size <= target[i].size - targetOffset
    requires s.data == source[j].data + sourceOffset && s.size <= source[j].size - sourceOffset
    requires total + Min(t.size, s.size) <= budget
    requires HasCopied(before, mem[..], target, source, budget, total)
    modifies mem
    ensures m == Min(t.size, s.size)
    ensures HasCopied(before, mem[..], target, source, budget, total + m)
    ensures if m == target[i].size - targetOffset then Stands(target, i + 1, 0, total + m)
            else Stands(target, i, targetOffset + m, total + m)
    ensures if m == source[j].size - sourceOffset then Stands(source, j + 1, 0, total + m)
            else Stands(source, j, sourceOffset + m, total + m)
  {
    CopyStretch(before, target, source, budget, total, i, targetOffset, t, j, sourceOffset, s, Min(t.size, s.size));
    m := BufferCopy1(mem, t, s);
  }

  /** `detail::buffer_copy(multiple_buffers, multiple_buffers, ..., max_bytes_to_copy)`. */
  method CopyManyToManyBounded(mem: array<Byte>, target: seq<Buffer>, source: seq<Buffer>, budget: nat)
      returns (total: nat)
    requires MayCopy(target, source, budget, mem.Length)
    modifies mem
    ensures total == Copies(target, source, budget)
    ensures mem[..] == CopyBetween(old(mem[..]), target, source, budget)
    ensures total <= budget && total <= Total(target) && total <= Total(source)
    ensures total == budget || total == Total(target) || total == Total(source)
    ensures InMemory(Flatten(target), total, mem.Length) && InMemory(Flatten(source), total, mem.Length)
    ensures Copied(old(mem[..]), mem[..], Flatten(target), Flatten(source), total)
  {
    ghost var before := mem[..];
    total := 0;
    var targetIter: nat, targetOffset: nat := 0, 0;
    var sourceIter: nat, sourceOffset: nat := 0, 0;
    while total != budget && targetIter != |target| && sourceIter != |source|
      invariant Stands(target, targetIter, targetOffset, total)
      invariant Stands(source, sourceIter, sourceOffset, total)
      invariant HasCopied(before, mem[..], target, source, budget, total)
      decreases |target| - targetIter + |source| - sourceIter + (budget - total)
    {
      var targetBuffer := Plus(target[targetIter], targetOffset);
      var sourceBuffer := Plus(source[sourceIter], sourceOffset);

      var bytesCopied := CopyCurrent(mem, before, target, source, budget, total, targetIter, targetOffset,
                                     targetBuffer, sourceIter, sourceOffset, Limit(sourceBuffer, budget - total));
      total := total + bytesCopied;

      if bytesCopied == targetBuffer.size {
        targetIter := targetIter + 1;
        targetOffset := 0;
      } else {
        targetOffset := targetOffset + bytesCopied;
      }

      if bytesCopied == sourceBuffer.size {
        sourceIter := sourceIter + 1;
        sourceOffset := 0;
      } else {
        sourceOffset := sourceOffset + bytesCopied;
      }
    }
    CopyKeepsToBudget(before, mem[..], target, source, budget, total);
  }

  /** `detail::buffer_copy(multiple_buffers, multiple_buffers, ...)` without a bound: the
      whole of the source may be copied. */
  method CopyManyToMany(mem: array<Byte>, target: seq<Buffer>, source: seq<Buffer>) returns (total: nat)
    requires MayCopy(target, source, Total(source), mem.Length)
    modifies mem
    ensures total == Min(Total(target), Total(source))
    ensures mem[..] == CopyBetween(old(mem[..]), target, source, Total(source))
  {
    ghost var before := mem[..];
    total := 0;
    var targetIter: nat, targetOffset: nat := 0, 0;
    var sourceIter: nat, sourceOffset: nat := 0, 0;
    while targetIter != |target| && sourceIter != |source|
      invariant Stands(target, targetIter, targetOffset, total)
      invariant Stands(source, sourceIter, sourceOffset, total)
      invariant HasCopied(before, mem[..], target, source, Total(source), total)
      decreases |target| - targetIter + |source| - sourceIter
    {
      var targetBuffer := Plus(target[targetIter], targetOffset);
      var sourceBuffer := Plus(source[sourceIter], sourceOffset);
      BeforeMonotone(source, sourceIter + 1, |source|);

      var bytesCopied := CopyCurrent(mem, before, target, source, Total(source), total,
                                     targetIter, targetOffset, targetBuffer,
                                     sourceIter, sourceOffset, sourceBuffer);
      total := total + bytesCopied;

      if bytesCopied == targetBuffer.size {
        targetIter := targetIter + 1;
        targetOffset := 0;
      } else {
        targetOffset := targetOffset + bytesCopied;
      }

      if bytesCopied == sourceBuffer.size {
        sourceIter := sourceIter + 1;
        sourceOffset := 0;
      } else {
        sourceOffset := sourceOffset + bytesCopied;
      }
    }
  }

  /** `detail::buffer_copy(one_buffer, multiple_buffers, ...)`. */
  method CopyOneToMany(mem: array<Byte>, target: seq<Buffer>, source: seq<Buffer>, budget: nat)
      returns (total: nat)
    requires |target| == 1 && MayCopy(target, source, budget, mem.Length)
    modifies mem
    ensures total == Copies(target, source, budget)
    ensures mem[..] == CopyBetween(old(mem[..]), target, source, budget)
    ensures total <= budget && total <= Total(target) && total <= Total(source)
    ensures total == budget || total == Total(target) || total == Total(source)
    ensures InMemory(Flatten(target), total, mem.Length) && InMemory(Flatten(source), total, mem.Length)
    ensures Copied(old(mem[..]), mem[..], Flatten(target), Flatten(source), total)
  {
    OneBuffer(target);
    ghost var before := mem[..];
    total := 0;
    var sourceIter: nat := 0;
    var targetBuffer := Limit(target[0], budget);
    while targetBuffer.size != 0 && sourceIter != |source|
      invariant sourceIter <= |source|
      invariant targetBuffer.data == target[0].data + total
      invariant targetBuffer.size + total == Min(target[0].size, budget)
      invariant targetBuffer.size != 0 ==> total == Before(source, sourceIter)
      invariant HasCopied(before, mem[..], target, source, budget, total)
      decreases |source| - sourceIter
    {
      var sourceBuffer := source[sourceIter];
      var bytesCopied := CopyCurrent(mem, before, target, source, budget, total,
                                     0, total, targetBuffer, sourceIter, 0, sourceBuffer);
      total := total + bytesCopied;
      targetBuffer := Plus(targetBuffer, bytesCopied);
      sourceIter := sourceIter + 1;
    }
    CopyKeepsToBudget(before, mem[..], target, source, budget, total);
  }

  /** `detail::buffer_copy(multiple_buffers, one_buffer, ...)`. */
  method CopyManyToOne(mem: array<Byte>, target: seq<Buffer>, source: seq<Buffer>, budget: nat)
      returns (total: nat)
    requires |source| == 1 && MayCopy(target, source, budget, mem.Length)
    modifies mem
    ensures total == Copies(target, source, budget)
    ensures mem[..] == CopyBetween(old(mem[..]), target, source, budget)
    ensures total <= budget && total <= Total(target) && total <= Total(source)
    ensures total == budget || total == Total(target) || total == Total(source)
    ensures InMemory(Flatten(target), total, mem.Length) && InMemory(Flatten(source), total, mem.Length)
    ensures Copied(old(mem[..]), mem[..], Flatten(target), Flatten(source), total)
  {
    OneBuffer(source);
    ghost var before := mem[..];
    total := 0;
    var targetIter: nat := 0;
    var sourceBuffer := Limit(source[0], budget);
    while sourceBuffer.size != 0 && targetIter != |target|
      invariant targetIter <= |target|
      invariant sourceBuffer.data == source[0].data + total
      invariant sourceBuffer.size + total == Min(source[0].size, budget)
      invariant sourceBuffer.size != 0 ==> total == Before(target, targetIter)
      invariant HasCopied(before, mem[..], target, source, budget, total)
      decreases |target| - targetIter
    {
      var targetBuffer := target[targetIter];
      var bytesCopied := CopyCurrent(mem, before, target, source, budget, total,
                                     targetIter, 0, targetBuffer, 0, total, sourceBuffer);
      total := total + bytesCopied;
      sourceBuffer := Plus(sourceBuffer, bytesCopied);
      targetIter := targetIter + 1;
    }
    CopyKeepsToBudget(before, mem[..], target, source, budget, total);
  }

  /** `detail::buffer_copy(one_buffer, one_buffer, ...)`, without and with a bound. */
  method CopyOneToOne(mem: array<Byte>, target: seq<Buffer>, source: seq<Buffer>) returns (total: nat)
    requires |target| == |source| == 1 && MayCopy(target, source, Total(source), mem.Length)
    modifies mem
    ensures total == Min(Total(target), Total(source))
    ensures mem[..] == CopyBetween(old(mem[..]), target, source, Total(source))
  {
    OneBuffer(target);
    OneBuffer(source);
    total := CopyCurrent(mem, mem[..], target, source, Total(source), 0, 0, 0, target[0], 0, 0, source[0]);
  }

  method CopyOneToOneBounded(mem: array<Byte>, target: seq<Buffer>, source: seq<Buffer>, budget: nat)
      returns (total: nat)
    requires |target| == |source| == 1 && MayCopy(target, source, budget, mem.Length)
    modifies mem
    ensures total == Copies(target, source, budget)
    ensures mem[..] == CopyBetween(old(mem[..]), target, source, budget)
    ensures total <= budget && total <= Total(target) && total <= Total(source)
    ensures total == budget || total == Total(target) || total == Total(source)
    ensures InMemory(Flatten(target), total, mem.Length) && InMemory(Flatten(source), total, mem.Length)
    ensures Copied(old(mem[..]), mem[..], Flatten(target), Flatten(source), total)
  {
    OneBuffer(target);
    OneBuffer(source);
    total := CopyCurrent(mem, mem[..], target, source, budget, 0, 0, 0, target[0], 0, 0, Limit(source[0], budget));
    CopyKeepsToBudget(old(mem[..]), mem[..], target, source, budget, total);
  }

  lemma OneBuffer(bs: seq<Buffer>)
    requires |bs| == 1
    ensures Before(bs, 0) == 0 && Total(bs) == bs[0].size
  {
    assert Before(bs, 1) == Before(bs, 0) + bs[0].size;
  }

  // ----- The two public forms -----

  /** `buffer_sequence_cardinality` tells a single buffer from a sequence by its type. */
  datatype BufferSequence = One(buffer: Buffer) | Multiple(buffers: seq<Buffer>) {
    /** The range from `buffer_sequence_begin` to `buffer_sequence_end`. */
    function Buffers(): seq<Buffer> {
      if One? then [buffer] else buffers
    }
  }

  /** A copy that overlaps nothing fits in an address space that `std::size_t` can count, so
      a bound of `SIZE_MAX` bounds nothing: the overloads that take it as their default
      agree with the ones that have no bound. */
  lemma SizeMaxIsNoBound(target: seq<Buffer>, source: seq<Buffer>, memory: nat)
    requires memory <= SIZE_MAX
    ensures MayCopy(target, source, Total(source), memory) ==>
              Copies(target, source, SIZE_MAX) == Min(Total(target), Total(source))
  {
    var n := Copies(target, source, Total(source));
    if MayCopy(target, source, Total(source), memory) {
      DistinctAtMost(Flatten(target)[..n], memory);
    }
  }

  /** `buffer_copy(target, source)`: whichever overload the types select, the result is that
      of the bounded general loop on the two sequences with a bound of `SIZE_MAX`. */
  method BufferCopy(mem: array<Byte>, target: BufferSequence, source: BufferSequence) returns (total: nat)
    requires mem.Length <= SIZE_MAX
    requires MayCopy(target.Buffers(), source.Buffers(), Total(source.Buffers()), mem.Length)
    modifies mem
    ensures total == Min(Total(target.Buffers()), Total(source.Buffers()))
    ensures MayCopy(target.Buffers(), source.Buffers(), SIZE_MAX, mem.Length)
    ensures mem[..] == CopyBetween(old(mem[..]), target.Buffers(), source.Buffers(), SIZE_MAX)
    ensures InMemory(Flatten(target.Buffers()), total, mem.Length) && InMemory(Flatten(source.Buffers()), total, mem.Length)
    ensures Copied(old(mem[..]), mem[..], Flatten(target.Buffers()), Flatten(source.Buffers()), total)
  {
    SizeMaxIsNoBound(target.Buffers(), source.Buffers(), mem.Length);
    var ts, ss := target.Buffers(), source.Buffers();
    match (target, source) {
      case (One(_), One(_)) => total := CopyOneToOne(mem, ts, ss);
      case (One(_), Multiple(_)) => total := CopyOneToMany(mem, ts, ss, SIZE_MAX);
      case (Multiple(_), One(_)) => total := CopyManyToOne(mem, ts, ss, SIZE_MAX);
      case (Multiple(_), Multiple(_)) => total := CopyManyToMany(mem, ts, ss);
    }
    CopyKeepsToBudget(old(mem[..]), mem[..], ts, ss, SIZE_MAX, total);
  }

  /** `buffer_copy(target, source, max_bytes_to_copy)`. */
  method BufferCopyBounded(mem: array<Byte>, target: BufferSequence, source: BufferSequence, budget: nat)
      returns (total: nat)
    requires MayCopy(target.Buffers(), source.Buffers(), budget, mem.Length)
    modifies mem
    ensures total == Copies(target.Buffers(), source.Buffers(), budget)
    ensures mem[..] == CopyBetween(old(mem[..]), target.Buffers(), source.Buffers(), budget)
    ensures total <= budget && total <= Total(target.Buffers()) && total <= Total(source.Buffers())
    ensures total == budget || total == Total(target.Buffers()) || total == Total(source.Buffers())
    ensures InMemory(Flatten(target.Buffers()), total, mem.Length) && InMemory(Flatten(source.Buffers()), total, mem.Length)
    ensures Copied(old(mem[..]), mem[..], Flatten(target.Buffers()), Flatten(source.Buffers()), total)
  {
    var ts, ss := target.Buffers(), source.Buffers();
    match (target, source) {
      case (One(_), One(_)) => total := CopyOneToOneBounded(mem, ts, ss, budget);
      case (One(_), Multiple(_)) => total := CopyOneToMany(mem, ts, ss, budget);
      case (Multiple(_), One(_)) => total := CopyManyToOne(mem, ts, ss, budget);
      case (Multiple(_), Multiple(_)) => total := CopyManyToManyBounded(mem, ts, ss, budget);
    }
  }

  /** What a copy means, in terms of the flattened sequences alone. */
  lemma CopyMeansPrefix(before: seq<Byte>, target: seq<Buffer>, source: seq<Buffer>, budget: nat, after: seq<Byte>)
    requires MayCopy(target, source, budget, |before|)
    ensures after == CopyBetween(before, target, source, budget) <==>
            Copied(before, after, Flatten(target), Flatten(source), Copies(target, source, budget))
  {
    FlatCopyIsTheCopy(before, after, Flatten(target), Flatten(source), Copies(target, source, budget));
  }
}
