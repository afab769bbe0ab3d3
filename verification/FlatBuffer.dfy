/** The simple form a ByteArray refines: one flat byte sequence with a cursor. The block size
    shows only in the capacity. Bytes nobody has written yet are unknown.
 */
module FlatBuffers {
  import opened Bits
  import opened Blocks
  import opened ByteArrays

  datatype Cell = Unknown | Known(value: u8)

  datatype FlatBuffer = FlatBuffer(cells: seq<Cell>, position: nat, size: nat)

  datatype Op = Write(buf: seq<u8>) | Read(n: nat) | SetPosition(val: nat) | AddCapacity(n: nat) | Clear

  /** What an operation gives its caller. */
  datatype Outcome<+T> = Done | Refused | Got(bytes: seq<T>)

  ghost predicate Legal(f: FlatBuffer) {
    f.position <= f.size <= |f.cells|
  }

  /** A zero-length read needs a block under the cursor. */
  ghost predicate Allowed(f: FlatBuffer, op: Op) {
    op.Read? && op.n == 0 ==> f.position < |f.cells|
  }

  function Cells(buf: seq<u8>): (s: seq<Cell>)
    ensures |s| == |buf|
  {
    seq(|buf|, i requires 0 <= i < |buf| => Known(buf[i]))
  }

  ghost function Grow(f: FlatBuffer, n: nat, blockSize: nat): FlatBuffer
    requires Legal(f) && blockSize > 0
  {
    var capacity := GrownCapacity(|f.cells|, f.position, n, blockSize);
    f.(cells := if capacity <= |f.cells| then f.cells else f.cells + seq(capacity - |f.cells|, _ => Unknown))
  }

  ghost function Step(f: FlatBuffer, op: Op, blockSize: nat): (r: (FlatBuffer, Outcome<Cell>))
    requires Legal(f) && 0 < blockSize <= |f.cells|
    ensures Legal(r.0) && blockSize <= |r.0.cells|
  {
    match op
    case Write(buf) =>
      RoomIsMade(|f.cells|, f.position, |buf|, blockSize);
      var g := Grow(f, |buf|, blockSize);
      var end := f.position + |buf|;
      (FlatBuffer(Overwrite(g.cells, f.position, Cells(buf)), end, Max(f.size, end)), Done)
    case Read(n) =>
      if n > f.size - f.position then (f, Refused)
      else (f.(position := f.position + n), Got(f.cells[f.position..f.position + n]))
    case SetPosition(val) =>
      if val > |f.cells| then (f, Refused)
      else (f.(position := val, size := Max(f.size, val)), Done)
    case AddCapacity(n) => (Grow(f, n, blockSize), Done)
    case Clear => (FlatBuffer(f.cells[..blockSize], 0, 0), Done)
  }

  ghost predicate AllAllowed(f: FlatBuffer, ops: seq<Op>, blockSize: nat)
    requires Legal(f) && 0 < blockSize <= |f.cells|
    decreases |ops|
  {
    ops == [] || (Allowed(f, ops[0]) && AllAllowed(Step(f, ops[0], blockSize).0, ops[1..], blockSize))
  }

  /** The outcomes of a run. */
  ghost function Outcomes(f: FlatBuffer, ops: seq<Op>, blockSize: nat): seq<Outcome<Cell>>
    requires Legal(f) && 0 < blockSize <= |f.cells|
    decreases |ops|
  {
    if ops == [] then []
    else
      var (f', out) := Step(f, ops[0], blockSize);
      [out] + Outcomes(f', ops[1..], blockSize)
  }

  /** Real bytes against cells: equal where known. */
  ghost predicate Agree(bytes: seq<u8>, cells: seq<Cell>) {
    |bytes| == |cells| && forall i :: 0 <= i < |cells| && cells[i].Known? ==> bytes[i] == cells[i].value
  }

  ghost predicate Matches(actual: Outcome<u8>, flat: Outcome<Cell>) {
    match flat
    case Done => actual.Done?
    case Refused => actual.Refused?
    case Got(cells) => actual.Got? && Agree(actual.bytes, cells)
  }

  ghost predicate Refines(ba: ByteArray, f: FlatBuffer)
    reads ba, ba.Repr
  {
    && ba.Valid() && Legal(f) && ba.position == f.position && ba.size == f.size
    && ba.blockSize <= |f.cells|
    && Agree(ba.Contents(), f.cells)
  }

  /** Growing at the end keeps agreement, whatever the new bytes are. */
  lemma GrowAgrees(bytes: seq<u8>, bytes': seq<u8>, f: FlatBuffer, n: nat, blockSize: nat)
    requires Legal(f) && blockSize > 0 && Agree(bytes, f.cells) && bytes <= bytes'
    requires |bytes'| == GrownCapacity(|f.cells|, f.position, n, blockSize)
    ensures Agree(bytes', Grow(f, n, blockSize).cells)
  {
    var cells' := Grow(f, n, blockSize).cells;
    forall i | 0 <= i < |cells'| && cells'[i].Known?
      ensures bytes'[i] == cells'[i].value
    {
      assert i < |bytes| && bytes'[i] == bytes[i];
    }
  }

  lemma WriteAgrees(bytes: seq<u8>, bytes': seq<u8>, f: FlatBuffer, buf: seq<u8>, blockSize: nat)
    requires Legal(f) && 0 < blockSize <= |f.cells| && Agree(bytes, f.cells)
    requires |bytes'| == GrownCapacity(|f.cells|, f.position, |buf|, blockSize)
    requires Overwrite(bytes, f.position, buf) <= bytes'
    ensures Agree(bytes', Step(f, Write(buf), blockSize).0.cells)
  {
    RoomIsMade(|f.cells|, f.position, |buf|, blockSize);
    var o, c := Overwrite(bytes, f.position, buf), Step(f, Write(buf), blockSize).0.cells;
    forall i | 0 <= i < |c| && c[i].Known?
      ensures bytes'[i] == c[i].value
    {
      if i < |o| {
        assert bytes'[i] == o[i];
      }
    }
  }

  /** One operation on a real buffer does to its flat form what Step says. */
  method Perform(ba: ByteArray, op: Op, ghost f: FlatBuffer) returns (out: Outcome<u8>)
    requires Refines(ba, f) && Allowed(f, op)
    modifies ba, ba.Repr
    ensures Refines(ba, Step(f, op, ba.blockSize).0) && fresh(ba.Repr - old(ba.Repr))
    ensures Matches(out, Step(f, op, ba.blockSize).1)
  {
    ba.Facts();
    ghost var bytes := ba.Contents();
    out := Done;
    match op {
      case Write(buf) =>
        ba.Write(buf);
        ba.Facts();
        WriteAgrees(bytes, ba.Contents(), f, buf, ba.blockSize);
      case Read(n) =>
        var buf := new u8[n];
        var ok := ba.Read(buf, n);
        out := if ok then Got(buf[..]) else Refused;
      case SetPosition(val) =>
        var ok := ba.SetPosition(val);
        out := if ok then Done else Refused;
      case AddCapacity(n) =>
        ba.AddCapacity(n);
        ba.Facts();
        GrowAgrees(bytes, ba.Contents(), f, n, ba.blockSize);
      case Clear =>
        ba.Clear();
        ba.Facts();
    }
  }

  ghost function Empty(blockSize: nat): FlatBuffer {
    FlatBuffer(seq(blockSize, _ => Unknown), 0, 0)
  }

  lemma OneMore(f: FlatBuffer, ops: seq<Op>, i: nat, blockSize: nat, flat: seq<Outcome<Cell>>)
    requires Legal(f) && 0 < blockSize <= |f.cells| && i < |ops|
    requires AllAllowed(f, ops[i..], blockSize)
    ensures Allowed(f, ops[i]) && AllAllowed(Step(f, ops[i], blockSize).0, ops[i + 1..], blockSize)
    ensures flat + Outcomes(f, ops[i..], blockSize)
            == flat + [Step(f, ops[i], blockSize).1] + Outcomes(Step(f, ops[i], blockSize).0, ops[i + 1..], blockSize)
  {
    assert ops[i..][1..] == ops[i + 1..];
  }

  /** Every run of operations on a fresh buffer, for every block size, gives the outcomes of the
      flat form. */
  method Run(blockSize: nat, ops: seq<Op>) returns (outs: seq<Outcome<u8>>)
    requires blockSize > 0 && AllAllowed(Empty(blockSize), ops, blockSize)
    ensures |outs| == |ops| == |Outcomes(Empty(blockSize), ops, blockSize)|
    ensures forall i :: 0 <= i < |ops| ==> Matches(outs[i], Outcomes(Empty(blockSize), ops, blockSize)[i])
  {
    var ba := new ByteArray(blockSize);
    ba.Facts();
    ghost var f := Empty(blockSize);
    ghost var flat: seq<Outcome<Cell>> := [];
    outs := [];
    ghost var all := Outcomes(f, ops, blockSize);
    while |outs| < |ops|
      invariant Refines(ba, f) && fresh(ba) && fresh(ba.Repr) && ba.blockSize == blockSize
      invariant |outs| == |flat| <= |ops|
      invariant AllAllowed(f, ops[|outs|..], blockSize)
      invariant all == flat + Outcomes(f, ops[|outs|..], blockSize)
      invariant forall i :: 0 <= i < |outs| ==> Matches(outs[i], flat[i])
      decreases |ops| - |outs|
    {
      var op := ops[|outs|];
      ghost var next := Step(f, op, blockSize);
      OneMore(f, ops, |outs|, blockSize, flat);
      var out := Perform(ba, op, f);
      f := next.0;
      flat := flat + [next.1];
      outs := outs + [out];
    }
  }
}
