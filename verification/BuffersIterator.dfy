/** `buffers_iterator`: a random-access iterator over the bytes of a buffer sequence.

    The first half defines, on values, what a place in a buffer sequence is and what moving
    by one byte does; the second half is the iterator itself, whose `Advance` jumps over
    whole buffers and is proved to land where that many single steps land. */
module BuffersIteration {
  import opened Buffers

  /** The position in the flattened bytes, the index of the current buffer (`|bs|` for the
      end) and the offset inside that buffer. */
  datatype Cursor = Cursor(position: nat, current: nat, offset: nat)

  /** What every reachable iterator satisfies: its three cursors agree, and it is strictly
      inside a non-empty buffer unless it is at the end. */
  predicate Canonical(bs: seq<Buffer>, c: Cursor) {
    && c.current <= |bs|
    && c.position == Before(bs, c.current) + c.offset
    && (if c.current < |bs| then c.offset < bs[c.current].size else c.offset == 0)
  }

  // ----- Single steps -----

  /** The first non-empty buffer at or after `i`, or the end. */
  function NonEmptyFrom(bs: seq<Buffer>, i: nat): (j: nat)
    requires i <= |bs|
    ensures i <= j <= |bs|
    ensures Before(bs, j) == Before(bs, i)
    ensures j < |bs| ==> bs[j].size > 0
    decreases |bs| - i
  {
    if i < |bs| && bs[i].size == 0 then NonEmptyFrom(bs, i + 1) else i
  }

  /** The last non-empty buffer before `i`; there is one when bytes precede `i`. */
  function NonEmptyBefore(bs: seq<Buffer>, i: nat): (j: nat)
    requires i <= |bs| && Before(bs, i) > 0
    ensures j < i && bs[j].size > 0
    ensures Before(bs, j) + bs[j].size == Before(bs, i)
  {
    if bs[i - 1].size > 0 then i - 1 else NonEmptyBefore(bs, i - 1)
  }

  /** One byte forward. */
  function Next(bs: seq<Buffer>, c: Cursor): (r: Cursor)
    requires Canonical(bs, c) && c.current < |bs|
    ensures Canonical(bs, r) && r.position == c.position + 1
  {
    if c.offset + 1 != bs[c.current].size then
      Cursor(c.position + 1, c.current, c.offset + 1)
    else
      Cursor(c.position + 1, NonEmptyFrom(bs, c.current + 1), 0)
  }

  /** One byte back. */
  function Prev(bs: seq<Buffer>, c: Cursor): (r: Cursor)
    requires Canonical(bs, c) && c.position > 0
    ensures Canonical(bs, r) && r.position == c.position - 1
  {
    if c.offset != 0 then
      Cursor(c.position - 1, c.current, c.offset - 1)
    else
      var j := NonEmptyBefore(bs, c.current);
      Cursor(c.position - 1, j, bs[j].size - 1)
  }

  /** `n` single steps forward, or `-n` back. */
  function Steps(bs: seq<Buffer>, c: Cursor, n: int): (r: Cursor)
    requires Canonical(bs, c) && 0 <= c.position + n <= Total(bs)
    ensures Canonical(bs, r) && r.position == c.position + n
    decreases if n < 0 then -n else n
  {
    if n == 0 then c
    else if n > 0 then
      EndIsTotal(bs, c);
      Steps(bs, Next(bs, c), n - 1)
    else Steps(bs, Prev(bs, c), n + 1)
  }

  // ----- The position decides the place -----

  /** A canonical cursor is at the end exactly when its position is the total size. */
  lemma EndIsTotal(bs: seq<Buffer>, c: Cursor)
    requires Canonical(bs, c)
    ensures c.position <= Total(bs)
    ensures c.position == Total(bs) <==> c.current == |bs|
  {
    if c.current < |bs| {
      BeforeMonotone(bs, c.current + 1, |bs|);
    }
  }

  /** Comparing positions is sound: two canonical cursors with the same position are in the
      same buffer at the same offset, however many empty buffers lie around them. */
  lemma PositionDecides(bs: seq<Buffer>, a: Cursor, b: Cursor)
    requires Canonical(bs, a) && Canonical(bs, b)
    ensures a.position == b.position <==> a == b
    ensures a.position < b.position ==>
              a.current < b.current || (a.current == b.current && a.offset < b.offset)
  {
    if a.current < b.current {
      BeforeMonotone(bs, a.current + 1, b.current);
    } else if b.current < a.current {
      BeforeMonotone(bs, b.current + 1, a.current);
    }
  }

  /** The place of the byte at position `p`, found by walking over whole buffers from the
      front: the reference definition of where an iterator at `p` must be. */
  function Locate(bs: seq<Buffer>, i: nat, p: nat): (c: Cursor)
    requires i <= |bs| && Before(bs, i) <= p <= Total(bs)
    ensures Canonical(bs, c) && c.position == p
    decreases |bs| - i
  {
    if i < |bs| && Before(bs, i + 1) <= p then Locate(bs, i + 1, p)
    else Cursor(p, i, p - Before(bs, i))
  }

  /** Canonical means exactly: where `Locate` puts the position. */
  lemma CanonicalIffLocated(bs: seq<Buffer>, c: Cursor)
    ensures Canonical(bs, c) <==> c.position <= Total(bs) && c == Locate(bs, 0, c.position)
  {
    if Canonical(bs, c) {
      EndIsTotal(bs, c);
      PositionDecides(bs, c, Locate(bs, 0, c.position));
    }
  }

  // ----- Laws of moving -----

  /** `(it + m) + k == it + (m + k)`, and so `(it + n) - n == it`. */
  lemma MovesCompose(bs: seq<Buffer>, c: Cursor, m: int, k: int)
    requires Canonical(bs, c)
    requires 0 <= c.position + m <= Total(bs) && 0 <= c.position + m + k <= Total(bs)
    ensures Steps(bs, Steps(bs, c, m), k) == Steps(bs, c, m + k)
    ensures m + k == 0 ==> Steps(bs, Steps(bs, c, m), k) == c
  {
    PositionDecides(bs, Steps(bs, Steps(bs, c, m), k), Steps(bs, c, m + k));
  }

  /** `++` and `--` undo each other. */
  lemma StepsUndo(bs: seq<Buffer>, c: Cursor)
    requires Canonical(bs, c)
    ensures c.current < |bs| ==> Prev(bs, Next(bs, c)) == c
    ensures c.position > 0 ==> Prev(bs, c).current < |bs| && Next(bs, Prev(bs, c)) == c
  {
    EndIsTotal(bs, c);
    if c.current < |bs| {
      PositionDecides(bs, Prev(bs, Next(bs, c)), c);
    }
    if c.position > 0 {
      EndIsTotal(bs, Prev(bs, c));
      PositionDecides(bs, Next(bs, Prev(bs, c)), c);
    }
  }

  /** The order the comparison operators give is the order of reachability by forward moves. */
  lemma OrderIsReachability(bs: seq<Buffer>, a: Cursor, b: Cursor)
    requires Canonical(bs, a) && Canonical(bs, b)
    ensures a.position <= b.position <==>
            exists n: nat :: a.position + n <= Total(bs) && Steps(bs, a, n) == b
    ensures a.position == b.position <==> a == b
  {
    EndIsTotal(bs, b);
    PositionDecides(bs, a, b);
    if a.position <= b.position {
      var n: nat := b.position - a.position;
      PositionDecides(bs, Steps(bs, a, n), b);
      assert Steps(bs, a, n) == b;
    }
  }

  // ----- What a canonical cursor points at -----

  /** Dereferencing at position `p` gives byte `p` of the flattened sequence. */
  lemma CursorAddress(bs: seq<Buffer>, c: Cursor)
    requires Canonical(bs, c) && c.current < |bs|
    ensures c.position < Total(bs)
    ensures bs[c.current].data + c.offset == Flatten(bs)[c.position]
  {
    FlattenSlice(bs, c.current, c.offset, 1);
    assert Flatten(bs)[c.position] == Flatten(bs)[c.position..][..1][0];
    assert Range(bs[c.current])[c.offset..][..1][0] == bs[c.current].data + c.offset;
  }

  /** The addresses met by stepping from `c` to the end. */
  function Traverse(bs: seq<Buffer>, c: Cursor): seq<nat>
    requires Canonical(bs, c)
    decreases |bs| - c.current, if c.current < |bs| then bs[c.current].size - c.offset else 0
  {
    if c.current == |bs| then []
    else [bs[c.current].data + c.offset] + Traverse(bs, Next(bs, c))
  }

  /** A loop from `begin` to `end` meets every byte of every buffer once, in order. */
  lemma {:induction false} TraverseMeetsAll(bs: seq<Buffer>, c: Cursor)
    requires Canonical(bs, c)
    ensures c.position <= Total(bs)
    ensures Traverse(bs, c) == Flatten(bs)[c.position..]
    decreases |bs| - c.current, if c.current < |bs| then bs[c.current].size - c.offset else 0
  {
    EndIsTotal(bs, c);
    if c.current < |bs| {
      CursorAddress(bs, c);
      TraverseMeetsAll(bs, Next(bs, c));
    }
  }

  // ----- Runs -----

  /** A run of in-range moves; `None` once a move leaves the sequence. */
  datatype Outcome = OutOfBounds | At(cursor: Cursor)

  function Walk(bs: seq<Buffer>, c: Cursor, moves: seq<int>): Outcome
    requires Canonical(bs, c)
    decreases |moves|
  {
    if moves == [] then At(c)
    else if 0 <= c.position + moves[0] <= Total(bs) then
      Walk(bs, Steps(bs, c, moves[0]), moves[1..])
    else OutOfBounds
  }

  lemma {:induction false} WalksAreCanonical(bs: seq<Buffer>, c: Cursor, moves: seq<int>)
    requires Canonical(bs, c)
    ensures Walk(bs, c, moves).At? ==> Canonical(bs, Walk(bs, c, moves).cursor)
    decreases |moves|
  {
    if moves != [] && 0 <= c.position + moves[0] <= Total(bs) {
      WalksAreCanonical(bs, Steps(bs, c, moves[0]), moves[1..]);
    }
  }

  /** The reachable cursors are exactly the canonical ones, from `begin` and from `end`. */
  lemma ReachableIffCanonical(bs: seq<Buffer>, start: Cursor, c: Cursor)
    requires Canonical(bs, start)
    ensures Canonical(bs, c) <==> exists moves :: Walk(bs, start, moves) == At(c)
  {
    if Canonical(bs, c) {
      EndIsTotal(bs, c);
      var n := c.position - start.position;
      PositionDecides(bs, Steps(bs, start, n), c);
      assert Walk(bs, Steps(bs, start, n), [n][1..]) == At(c);
      assert Walk(bs, start, [n]) == At(c);
    }
    forall moves | Walk(bs, start, moves) == At(c)
      ensures Canonical(bs, c)
    {
      WalksAreCanonical(bs, start, moves);
    }
  }

  // ----- The iterator -----

  class BuffersIterator {
    /** The sequence iterated over: `begin_` is index 0 and `end_` is `|buffers|`. */
    const buffers: seq<Buffer>
    var currentBuffer: Buffer
    var currentBufferPosition: nat
    var current: nat
    var position: nat

    /** The cached buffer is the current one, except at the end, where it may be stale. */
    ghost predicate Valid()
      reads this
    {
      && Canonical(buffers, Where())
      && (current < |buffers| ==> currentBuffer == buffers[current])
    }

    ghost function Where(): Cursor
      reads this
    {
      Cursor(position, current, currentBufferPosition)
    }

    constructor Begin(bs: seq<Buffer>)
      ensures buffers == bs && Valid()
      ensures Where() == Locate(bs, 0, 0)
    {
      buffers, currentBuffer, currentBufferPosition, current, position := bs, Buffer(0, 0), 0, 0, 0;
      new;
      while current != |buffers|
        invariant current <= |buffers| && Before(buffers, current) == 0
        invariant currentBufferPosition == 0 && position == 0
        decreases |buffers| - current
      {
        currentBuffer := buffers[current];
        if currentBuffer.size > 0 {
          break;
        }
        current := current + 1;
      }
      CanonicalIffLocated(buffers, Where());
    }

    constructor End(bs: seq<Buffer>)
      ensures buffers == bs && Valid()
      ensures Where() == Cursor(Total(bs), |bs|, 0)
    {
      buffers, currentBuffer, currentBufferPosition, current, position := bs, Buffer(0, 0), 0, 0, 0;
      new;
      while current != |buffers|
        invariant current <= |buffers| && position == Before(buffers, current)
        invariant currentBufferPosition == 0
        decreases |buffers| - current
      {
        position := position + buffers[current].size;
        current := current + 1;
      }
    }

    constructor Copy(other: BuffersIterator)
      requires other.Valid()
      ensures buffers == other.buffers && Valid() && Where() == other.Where()
    {
      buffers, currentBuffer := other.buffers, other.currentBuffer;
      currentBufferPosition, current, position := other.currentBufferPosition, other.current, other.position;
    }

    /** The address of the byte pointed at. */
    function Dereference(): (address: nat)
      requires Valid() && current < |buffers|
      reads this
      ensures position < Total(buffers) && address == Flatten(buffers)[position]
    {
      CursorAddress(buffers, Where());
      currentBuffer.data + currentBufferPosition
    }

    predicate Equal(other: BuffersIterator)
      reads this, other
    {
      position == other.position
    }

    function DistanceTo(other: BuffersIterator): int
      reads this, other
    {
      other.position - position
    }

    method Increment()
      requires Valid() && current != |buffers|
      modifies this
      ensures Valid() && Where() == Next(buffers, old(Where()))
    {
      position := position + 1;

      currentBufferPosition := currentBufferPosition + 1;
      if currentBufferPosition != currentBuffer.size {
        return;
      }

      current := current + 1;
      currentBufferPosition := 0;
      while current != |buffers|
        invariant current <= |buffers| && currentBufferPosition == 0
        invariant position == old(position) + 1 == Before(buffers, current)
        invariant NonEmptyFrom(buffers, current) == NonEmptyFrom(buffers, old(current) + 1)
        decreases |buffers| - current
      {
        currentBuffer := buffers[current];
        if currentBuffer.size > 0 {
          return;
        }
        current := current + 1;
      }
    }

    method Decrement()
      requires Valid() && position > 0
      modifies this
      ensures Valid() && Where() == Prev(buffers, old(Where()))
    {
      position := position - 1;

      if currentBufferPosition != 0 {
        currentBufferPosition := currentBufferPosition - 1;
        return;
      }

      var iter: nat := current;
      while iter != 0
        invariant iter <= current == old(current) <= |buffers| && currentBufferPosition == 0
        invariant position + 1 == old(position) == Before(buffers, iter)
        invariant NonEmptyBefore(buffers, iter) == NonEmptyBefore(buffers, old(current))
      {
        iter := iter - 1;
        var buffer := buffers[iter];
        if buffer.size > 0 {
          current := iter;
          currentBuffer := buffer;
          currentBufferPosition := buffer.size - 1;
          return;
        }
      }
    }

    /** One jump equals `n` single steps, in either direction. */
    method Advance(distance: int)
      requires Valid() && 0 <= position + distance <= Total(buffers)
      modifies this
      ensures Valid() && Where() == Steps(buffers, old(Where()), distance)
    {
      ghost var target := Steps(buffers, Where(), distance);
      EndIsTotal(buffers, Where());
      if distance > 0 {
        AdvanceForward(distance);
      } else if distance < 0 {
        AdvanceBackward(-distance);
      }
      PositionDecides(buffers, Where(), target);
    }

    /** The `n > 0` half of `advance`. */
    method AdvanceForward(distance: nat)
      requires Valid() && current != |buffers| && position + distance <= Total(buffers)
      modifies this
      ensures Valid() && position == old(position) + distance
    {
      var n: nat := distance;
      while true
        invariant current < |buffers| && currentBuffer == buffers[current]
        invariant currentBufferPosition <= currentBuffer.size
        invariant position == Before(buffers, current) + currentBufferPosition
        invariant position + n == old(position) + distance
        decreases |buffers| - current
      {
        var currentBufferBalance := currentBuffer.size - currentBufferPosition;
        if currentBufferBalance > n {
          position := position + n;
          currentBufferPosition := currentBufferPosition + n;
          return;
        }

        BeforeMonotone(buffers, current + 1, |buffers|);
        n := n - currentBufferBalance;
        position := position + currentBufferBalance;

        current := current + 1;
        if current == |buffers| {
          assert n == 0; // the source's "iterator out of bounds" assertion
          currentBuffer := Buffer(0, 0);
          currentBufferPosition := 0;
          return;
        }
        currentBuffer := buffers[current];
        currentBufferPosition := 0;
      }
    }

    /** The `n < 0` half of `advance`.  Every pass of the outer loop moves to an earlier
        buffer, because the inner search always finds a non-empty one while bytes remain to
        be moved; so the loop ends, and never in its "reached the beginning" branch. */
    method AdvanceBackward(distance: nat)
      requires Valid() && 0 < distance <= position
      modifies this
      ensures Valid() && position == old(position) - distance
    {
      var n: nat := distance;
      while true
        invariant current <= |buffers| && 0 < n <= position
        invariant current < |buffers| ==> currentBuffer == buffers[current]
        invariant currentBufferPosition <= if current < |buffers| then currentBuffer.size else 0
        invariant position == Before(buffers, current) + currentBufferPosition
        invariant position - n == old(position) - distance
        decreases current
      {
        if currentBufferPosition >= n {
          position := position - n;
          currentBufferPosition := currentBufferPosition - n;
          return;
        }

        n := n - currentBufferPosition;
        position := position - currentBufferPosition;

        if current == 0 {
          assert false; // the source returns here after asserting that nothing is left to move
        }

        var iter: nat := current;
        ghost var was, last := current, NonEmptyBefore(buffers, current);
        while iter != 0
          invariant last < iter <= current == was
          invariant Before(buffers, iter) == Before(buffers, was)
          invariant NonEmptyBefore(buffers, iter) == last
          decreases iter
        {
          iter := iter - 1;
          var buffer := buffers[iter];
          if buffer.size > 0 {
            current := iter;
            currentBuffer := buffer;
            currentBufferPosition := buffer.size;
            break;
          }
        }
      }
    }

    /** `it + n` and `it - n` leave the iterator alone and move a copy. */
    method Plus(n: int) returns (tmp: BuffersIterator)
      requires Valid() && 0 <= position + n <= Total(buffers)
      ensures fresh(tmp) && tmp.buffers == buffers && tmp.Valid()
      ensures tmp.Where() == Steps(buffers, Where(), n)
    {
      tmp := new BuffersIterator.Copy(this);
      tmp.Advance(n);
    }

    /** `it[n]` names byte `position + n` of the flattened sequence, as `*(it + n)` does. */
    method Index(n: int) returns (address: nat)
      requires Valid() && 0 <= position + n < Total(buffers)
      ensures address == Flatten(buffers)[position + n]
    {
      var tmp := new BuffersIterator.Copy(this);
      tmp.Advance(n);
      EndIsTotal(buffers, tmp.Where());
      address := tmp.Dereference();
    }
  }

  /** `==`, `<` and `-` look at `position_` only; on two iterators over one sequence that is
      enough: equal iterators share buffer and offset, a difference is the number of steps
      from one to the other, and exactly one of `<`, `==`, `>` holds. */
  lemma ComparisonsAreSound(a: BuffersIterator, b: BuffersIterator)
    requires a.Valid() && b.Valid() && a.buffers == b.buffers
    ensures a.Equal(b) <==> a.Where() == b.Where()
    ensures 0 <= a.position + a.DistanceTo(b) <= Total(a.buffers)
    ensures Steps(a.buffers, a.Where(), a.DistanceTo(b)) == b.Where()
    ensures a.DistanceTo(b) > 0 <==>
              a.current < b.current ||
              (a.current == b.current && a.currentBufferPosition < b.currentBufferPosition)
    ensures a.DistanceTo(b) == -b.DistanceTo(a)
  {
    EndIsTotal(b.buffers, b.Where());
    PositionDecides(a.buffers, a.Where(), b.Where());
    PositionDecides(a.buffers, b.Where(), a.Where());
    PositionDecides(a.buffers, Steps(a.buffers, a.Where(), a.DistanceTo(b)), b.Where());
  }
}
