/**
 * The dummy operations of the operation-executor test support: their partition
 * ids, the `durationMs` field with its `writeInternal`/`readInternal`
 * serialization, and what their `run()` does.
 */
module DummyOperations {
  import opened Wrappers
  import opened JavaInts

  /** `Operation.GENERIC_PARTITION_ID`: the partition id of partition-independent work. */
  const GenericPartitionId: int := -1

  /** A byte of a serialized stream. */
  newtype byte = x: int | 0 <= x < 256

  /** The dummy operation classes: generic, partition-specific, and urgent (an `UrgentSystemOperation`). */
  datatype OperationKind = GenericOp | PartitionOp | UrgentOp

  /** A dummy operation: its class, its partition id and its `durationMs` (a Java int). */
  datatype Operation = Operation(kind: OperationKind, partitionId: int, durationMs: int)

  /** `new DummyGenericOperation()`. */
  function DummyGenericOperation(): (op: Operation)
    ensures op.partitionId == GenericPartitionId && op.durationMs == 0
    ensures op.kind == GenericOp
  {
    Operation(GenericOp, GenericPartitionId, 0)
  }

  /** `new DummyPartitionOperation(partitionId)`. */
  function DummyPartitionOperationOn(partitionId: int): (op: Operation)
    ensures op.partitionId == partitionId && op.durationMs == 0 && op.kind == PartitionOp
  {
    Operation(PartitionOp, partitionId, 0)
  }

  /** `new DummyPartitionOperation()`: the default targets partition 0. */
  function DummyPartitionOperation(): (op: Operation)
    ensures op == DummyPartitionOperationOn(0)
    ensures op.partitionId == 0
  {
    DummyPartitionOperationOn(0)
  }

  /** `new UrgentDummyOperation(partitionId)`. */
  function UrgentDummyOperation(partitionId: int): (op: Operation)
    ensures op.partitionId == partitionId && op.durationMs == 0 && op.kind == UrgentOp
  {
    Operation(UrgentOp, partitionId, 0)
  }

  /** `durationMs(d)`: sets the duration and returns the same operation. */
  function WithDuration(op: Operation, durationMs: int): (r: Operation)
    requires IsInt32(durationMs)
    ensures r.durationMs == durationMs
    ensures r.kind == op.kind && r.partitionId == op.partitionId
  {
    op.(durationMs := durationMs)
  }

  // ---------------------------------------------------------------------------
  // Serialization: `writeInt` writes a Java int as four bytes, high byte first,
  // in two's complement; `readInt` reads them back or fails at end of stream.

  /** The `n` base-256 digits of `u`, most significant first. */
  function Digits(u: nat, n: nat): (bs: seq<byte>)
    ensures |bs| == n
  {
    if n == 0 then [] else Digits(u / 256, n - 1) + [(u % 256) as byte]
  }

  /** The number whose base-256 digits, most significant first, are `bs`. */
  function Value(bs: seq<byte>): nat {
    if |bs| == 0 then 0 else Value(bs[..|bs| - 1]) * 256 + bs[|bs| - 1] as nat
  }

  function Pow256(n: nat): nat {
    if n == 0 then 1 else 256 * Pow256(n - 1)
  }

  lemma {:induction false} ValueOfDigits(u: nat, n: nat)
    requires u < Pow256(n)
    ensures Value(Digits(u, n)) == u
  {
    if n > 0 {
      var d := Digits(u, n);
      assert d[..n - 1] == Digits(u / 256, n - 1);
      ValueOfDigits(u / 256, n - 1);
    }
  }

  lemma {:induction false} DigitsOfValue(bs: seq<byte>)
    ensures Digits(Value(bs), |bs|) == bs
  {
    if |bs| > 0 {
      var n := |bs|;
      DigitsOfValue(bs[..n - 1]);
      assert bs == bs[..n - 1] + [bs[n - 1]];
    }
  }

  lemma {:induction false} ValueBound(bs: seq<byte>)
    ensures Value(bs) < Pow256(|bs|)
  {
    if |bs| > 0 {
      ValueBound(bs[..|bs| - 1]);
    }
  }

  /** `out.writeInt(x)`. */
  function WriteInt(x: int): (bs: seq<byte>)
    requires IsInt32(x)
    ensures |bs| == 4
  {
    Digits(if x < 0 then x + TwoTo32 else x, 4)
  }

  /** `writeInt` is big-endian, most significant byte first, and negatives are two's complement. */
  lemma WriteIntIsBigEndian()
    ensures WriteInt(1) == [0, 0, 0, 1]
    ensures WriteInt(-1) == [255, 255, 255, 255]
    ensures WriteInt(0x0102_0304) == [1, 2, 3, 4]
  {
    assert Digits(1, 4) == [0, 0, 0, 1] by {
      assert Digits(0, 3) == [0, 0, 0] by {
        assert Digits(0, 1) == [0];
        assert Digits(0, 2) == [0, 0];
      }
    }
    assert Digits(0xFFFF_FFFF, 4) == [255, 255, 255, 255] by {
      assert Digits(0xFF, 1) == [255];
      assert Digits(0xFFFF, 2) == [255, 255];
      assert Digits(0xFF_FFFF, 3) == [255, 255, 255];
    }
    assert Digits(0x0102_0304, 4) == [1, 2, 3, 4] by {
      assert Digits(0x01, 1) == [1];
      assert Digits(0x0102, 2) == [1, 2];
      assert Digits(0x01_0203, 3) == [1, 2, 3];
    }
  }

  /** Why a read failed: the stream ended before the value was complete. */
  datatype IoError = EndOfStream

  /** `in.readInt()`: the value and the unread rest of the stream. */
  function ReadInt(bs: seq<byte>): (r: Result<(int, seq<byte>), IoError>)
    ensures r.Failure? <==> |bs| < 4
    ensures r.Success? ==> IsInt32(r.value.0) && r.value.1 == bs[4..]
  {
    if |bs| < 4 then Failure(EndOfStream)
    else
      var u := Value(bs[..4]);
      ValueBound(bs[..4]);
      Success((if u >= TwoTo31 then u - TwoTo32 else u, bs[4..]))
  }

  /** `writeInternal`: the base operation writes nothing of its own here, then `durationMs` follows. */
  function WriteInternal(op: Operation): seq<byte>
    requires IsInt32(op.durationMs)
  {
    WriteInt(op.durationMs)
  }

  /** `readInternal`: reads `durationMs` into `op`. */
  function ReadInternal(op: Operation, bs: seq<byte>): Result<(Operation, seq<byte>), IoError> {
    match ReadInt(bs)
    case Success((d, rest)) => Success((op.(durationMs := d), rest))
    case Failure(e) => Failure(e)
  }

  /** Writing then reading `durationMs` gives it back, and leaves whatever followed untouched. */
  lemma WriteReadRoundTrip(op: Operation, into: Operation, rest: seq<byte>)
    requires IsInt32(op.durationMs)
    ensures ReadInternal(into, WriteInternal(op) + rest)
            == Success((into.(durationMs := op.durationMs), rest))
  {
    var x := op.durationMs;
    var u := if x < 0 then x + TwoTo32 else x;
    var bs := WriteInternal(op) + rest;
    assert bs[..4] == Digits(u, 4);
    assert bs[4..] == rest;
    ValueOfDigits(u, 4);
  }

  /** Reading succeeds only on what writing produced: the four bytes read are the writing of the value read. */
  lemma ReadWriteRoundTrip(into: Operation, bs: seq<byte>)
    requires ReadInternal(into, bs).Success?
    ensures var (op, rest) := ReadInternal(into, bs).value;
            IsInt32(op.durationMs) && bs == WriteInternal(op) + rest
  {
    var b4 := bs[..4];
    var u := Value(b4);
    ValueBound(b4);
    DigitsOfValue(b4);
    assert bs == b4 + bs[4..];
  }

  // ---------------------------------------------------------------------------
  // run(): `Thread.sleep(durationMs)`, with an InterruptedException caught and
  // the interrupt flag set again.

  /** The throwables that can leave an operation's or a task's `run()`. */
  datatype Error =
    | IllegalArgument       // Thread.sleep with a negative duration (an Exception)
    | TaskFailure(id: nat)  // an Exception a Runnable or another operation throws
    | Fatal(id: nat)        // a java.lang.Error, which `catch (Exception e)` does not catch

  /** What `run()` did: returned, or threw; and the calling thread's interrupt flag afterwards. */
  datatype RunEffect = RunEffect(thrown: Option<Error>, interruptedAfter: bool)

  /**
   * `DummyOperation.run()` on a thread whose interrupt flag is `interrupted`:
   * a negative duration makes the sleep throw before it starts; an interrupted
   * sleep throws InterruptedException, which is caught and the flag set again.
   */
  function DummyRun(op: Operation, interrupted: bool): (e: RunEffect)
    ensures e.thrown.Some? <==> op.durationMs < 0
    ensures e.interruptedAfter == interrupted
  {
    if op.durationMs < 0 then RunEffect(Some(IllegalArgument), interrupted)
    else if interrupted then
      // the sleep throws InterruptedException and clears the flag; the catch sets it again
      RunEffect(None, true)
    else RunEffect(None, false)
  }
}
