/** The two queues are one: a `basic_streambuf` and a `dynamic_vector_buffer` that start empty
    with the same maximum cannot be told apart by the operations they share. */
module FifoEquivalence {
  import opened Buffers
  import opened ByteFifo
  import opened DynamicBuffer
  import opened Streambuf

  predicate Shared(ops: seq<Op>) {
    forall op :: op in ops ==> !op.Put? && !op.Get?
  }

  /** After each operation both hold the same bytes, and the run ends with an exception in one
      exactly when it ends with one in the other, at the same operation. */
  method RunBoth(maxSize: nat, ops: seq<Op>)
      returns (inStreambuf: seq<Observation>, inVector: seq<Observation>)
    requires maxSize <= SIZE_MAX && Shared(ops)
    requires AllowedRun(maxSize, Fifo([], NoRoom), ops)
    ensures inStreambuf == inVector == Observe(maxSize, Fifo([], NoRoom), ops)
  {
    var streambuf := new BasicStreambuf(maxSize);
    inStreambuf := streambuf.Run(ops);
    inVector := RunVector(maxSize, ops);
  }

  method RunVector(maxSize: nat, ops: seq<Op>) returns (seen: seq<Observation>)
    requires maxSize <= SIZE_MAX && Shared(ops)
    requires AllowedRun(maxSize, Fifo([], NoRoom), ops)
    ensures seen == Observe(maxSize, Fifo([], NoRoom), ops)
  {
    var vector := new DynamicVectorBuffer([], maxSize);
    seen := [];
    ghost var f := Fifo([], NoRoom);
    for i := 0 to |ops|
      invariant vector.Represents(f)
      invariant AllowedRun(maxSize, f, ops[i..])
      invariant Observe(maxSize, Fifo([], NoRoom), ops) == seen + Observe(maxSize, f, ops[i..])
    {
      ObserveStep(maxSize, f, ops, i, seen, Observe(maxSize, Fifo([], NoRoom), ops));
      var ok := vector.Perform(ops[i], f);
      if !ok {
        seen := seen + [Threw];
        return;
      }
      f := Apply(maxSize, f, ops[i]).value;
      seen := seen + [Holds(vector.Data())];
    }
  }

  /** Outside the allowed runs the two differ: both empty, both asked to consume `SIZE_MAX`
      bytes, the streambuf has one byte afterwards and the vector buffer none. */
  method ConsumeTooMuchFromBoth(putAddress: nat) returns (inStreambuf: int, inVector: nat)
    requires 1 <= putAddress <= SIZE_MAX
    ensures inStreambuf == 1 && inVector == 0
  {
    inStreambuf := ConsumeTooMuch(putAddress);
    var vector := new DynamicVectorBuffer([], 4);
    vector.Consume(SIZE_MAX);
    inVector := vector.Size();
  }
}
