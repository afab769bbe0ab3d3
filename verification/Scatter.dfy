/** The scatter lists a ByteArray hands to readv and writev, and its dump to a file: the places
    where it walks its own blocks for somebody else's copy.
 */
module Scatter {
  import opened Bits
  import Blocks
  import opened ByteArrays

  /** An iovec: base is the offset of iov_base in the node's block. */
  datatype Iovec = Iovec(node: Node, base: nat, len: nat)

  /** Offset and length of a segment in its block. */
  datatype Segment = Segment(base: nat, len: nat)

  /** The segments of the lists for len bytes from offset in the first block. Where a segment
      runs to the end of its block, its base is its length (the source adds ncap, not npos). */
  function Segments(blockSize: nat, offset: nat, len: nat): (s: seq<Segment>)
    requires offset < blockSize
    decreases len
  {
    if len == 0 then []
    else if blockSize - offset >= len then [Segment(offset, len)]
    else [Segment(blockSize - offset, blockSize - offset)] + Segments(blockSize, 0, len - (blockSize - offset))
  }

  /** iov lists the given segments on consecutive blocks from block start on. */
  ghost predicate OnBlocks(ba: ByteArray, iov: seq<Iovec>, start: nat, segments: seq<Segment>)
    reads ba
  {
    && |iov| == |segments|
    && forall i :: 0 <= i < |iov| ==>
         start + i < |ba.nodes| && iov[i].node == ba.nodes[start + i] && Segment(iov[i].base, iov[i].len) == segments[i]
  }

  function Lengths(s: seq<Segment>): nat {
    if s == [] then 0 else s[0].len + Lengths(s[1..])
  }

  /** The lengths are positive, at most a block, and add up to the bytes asked for. */
  lemma {:induction false} SegmentsShape(blockSize: nat, offset: nat, len: nat)
    requires offset < blockSize
    ensures var s := Segments(blockSize, offset, len);
            Lengths(s) == len && forall i :: 0 <= i < |s| ==> 0 < s[i].len <= blockSize
    decreases len
  {
    if len > blockSize - offset {
      var s := Segments(blockSize, offset, len);
      var rest := Segments(blockSize, 0, len - (blockSize - offset));
      SegmentsShape(blockSize, 0, len - (blockSize - offset));
      assert s[1..] == rest;
    }
  }

  /** Every segment is the byte range meant: it starts at the offset in the first block and at the
      front of the later ones. */
  ghost predicate RightRanges(s: seq<Segment>, offset: nat) {
    forall i :: 0 <= i < |s| ==> s[i].base == if i == 0 then offset else 0
  }

  ghost predicate InBounds(s: seq<Segment>, blockSize: nat) {
    forall i :: 0 <= i < |s| ==> s[i].base + s[i].len <= blockSize
  }

  /** The lists name the right bytes exactly when the request fits in the first block, or ends in
      the second and the first is half used. */
  lemma ListIsRightWhen(blockSize: nat, offset: nat, len: nat)
    requires offset < blockSize
    ensures RightRanges(Segments(blockSize, offset, len), offset)
            <==> len <= blockSize - offset || (len - (blockSize - offset) <= blockSize && 2 * offset == blockSize)
  {
    var s := Segments(blockSize, offset, len);
    if len > blockSize - offset {
      assert s[0].base == blockSize - offset;
      var left := len - (blockSize - offset);
      if left <= blockSize {
        assert Segments(blockSize, 0, left) == [Segment(0, left)];
      } else {
        assert s[1].base == blockSize;
      }
    }
  }

  /** They stay inside the blocks exactly when the request fits in the first block, or ends in the
      second and the first is at least half used. */
  lemma ListInBoundsWhen(blockSize: nat, offset: nat, len: nat)
    requires offset < blockSize
    ensures InBounds(Segments(blockSize, offset, len), blockSize)
            <==> len <= blockSize - offset || (len - (blockSize - offset) <= blockSize && blockSize <= 2 * offset)
  {
    var s := Segments(blockSize, offset, len);
    if len > blockSize - offset {
      assert s[0] == Segment(blockSize - offset, blockSize - offset);
      var left := len - (blockSize - offset);
      if left <= blockSize {
        assert Segments(blockSize, 0, left) == [Segment(0, left)];
      } else {
        assert s[1] == Segment(blockSize, blockSize);
      }
    }
  }

  /** Where segment i ends in the flat contents, when the first segment is in block start. */
  function EndOf(s: seq<Segment>, start: nat, i: nat, blockSize: nat): nat
    requires i < |s|
  {
    Total(start + i, blockSize) + s[i].base + s[i].len
  }

  /** The list ends where the bytes asked for end. */
  lemma {:induction false} ListEndsAt(blockSize: nat, start: nat, offset: nat, len: nat)
    requires offset < blockSize && len > 0
    ensures var s := Segments(blockSize, offset, len);
            s != [] && EndOf(s, start, |s| - 1, blockSize) == Total(start, blockSize) + offset + len
    decreases len
  {
    if len > blockSize - offset {
      var s := Segments(blockSize, offset, len);
      var rest := Segments(blockSize, 0, len - (blockSize - offset));
      ListEndsAt(blockSize, start + 1, 0, len - (blockSize - offset));
      assert s[1..] == rest;
    }
  }

  /** The list ends no later than the data. */
  ghost predicate EndsInData(s: seq<Segment>, start: nat, blockSize: nat, size: nat) {
    s == [] || EndOf(s, start, |s| - 1, blockSize) <= size
  }

  /** The list names the bytes meant, and all of them are data. */
  ghost predicate NamesData(s: seq<Segment>, pos: nat, blockSize: nat, size: nat)
    requires blockSize > 0
  {
    RightRanges(s, pos % blockSize) && forall i :: 0 <= i < |s| ==> EndOf(s, pos / blockSize, i, blockSize) <= size
  }

  lemma PositionSplit(pos: nat, blockSize: nat)
    requires blockSize > 0
    ensures Total(pos / blockSize, blockSize) + pos % blockSize == pos
  {
    Euclid(pos, blockSize);
    TotalIsProduct(pos / blockSize, blockSize);
  }

  /** The list for len bytes at pos ends within the data exactly when the bytes do. */
  lemma ListInDataWhen(blockSize: nat, size: nat, pos: nat, len: nat)
    requires blockSize > 0
    ensures EndsInData(Segments(blockSize, pos % blockSize, len), pos / blockSize, blockSize, size)
            <==> len == 0 || pos + len <= size
  {
    PositionSplit(pos, blockSize);
    if len > 0 {
      ListEndsAt(blockSize, pos / blockSize, pos % blockSize, len);
    }
  }

  /** The list for len bytes at pos is the len data bytes at pos exactly when its bases are right and
      the bytes end within the data. */
  lemma ListIsDataWhen(blockSize: nat, size: nat, pos: nat, len: nat)
    requires blockSize > 0
    ensures var rest := blockSize - pos % blockSize;
            NamesData(Segments(blockSize, pos % blockSize, len), pos, blockSize, size)
            <==> len == 0
                 || (pos + len <= size && (len <= rest || (len - rest <= blockSize && 2 * rest == blockSize)))
  {
    var offset := pos % blockSize;
    var s := Segments(blockSize, offset, len);
    ListIsRightWhen(blockSize, offset, len);
    ListInDataWhen(blockSize, size, pos, len);
    PositionSplit(pos, blockSize);
    if len > 0 && EndsInData(s, pos / blockSize, blockSize, size) && RightRanges(s, offset) {
      if len > blockSize - offset {
        assert Segments(blockSize, 0, len - (blockSize - offset)) == [Segment(0, len - (blockSize - offset))];
        assert Total(pos / blockSize + 1, blockSize) == Total(pos / blockSize, blockSize) + blockSize;
      }
    }
  }

  /** The list grows by one segment on the next block. */
  lemma OneMore(ba: ByteArray, iov: seq<Iovec>, start: nat, segments: seq<Segment>, v: Iovec)
    requires OnBlocks(ba, iov, start, segments)
    requires start + |iov| < |ba.nodes| && v.node == ba.nodes[start + |iov|]
    ensures OnBlocks(ba, iov + [v], start, segments + [Segment(v.base, v.len)])
  {
  }

  /** The loop shared by the three list builders. */
  method Gather(ba: ByteArray, from: Node?, ghost start: nat, offset: nat, len: nat) returns (iov: seq<Iovec>)
    requires ba.Shape() && offset < ba.blockSize
    requires Total(start, ba.blockSize) + offset + len <= ba.capacity
    requires start < |ba.nodes| && from == ba.nodes[start]
    ensures OnBlocks(ba, iov, start, Segments(ba.blockSize, offset, len))
  {
    iov := [];
    ghost var all := Segments(ba.blockSize, offset, len);
    ghost var done: seq<Segment> := [];
    ghost var k: nat := start;
    assert ba.NodeOk(k);
    var left: nat := len;
    var npos: nat := offset;
    var ncap: nat := from.data.Length - npos;
    var cur: Node? := from;
    while left > 0
      invariant left > 0 ==> k < |ba.nodes| && cur == ba.nodes[k] && ba.NodeOk(k)
      invariant npos < ba.blockSize && (left > 0 ==> ncap == ba.blockSize - npos && k == start + |iov|)
      invariant left > 0 ==> Total(k, ba.blockSize) + npos + left <= ba.capacity
      invariant OnBlocks(ba, iov, start, done)
      invariant all == done + Segments(ba.blockSize, npos, left)
    {
      var v := if ncap >= left then Iovec(cur, npos, left) else Iovec(cur, ncap, ncap);
      OneMore(ba, iov, start, done, v);
      done := done + [Segment(v.base, v.len)];
      iov := iov + [v];
      if ncap >= left {
        left := 0;
      } else {
        left := left - ncap;
        ba.NextNode(k);
        cur := cur.next;
        k := k + 1;
        npos := 0;
        ncap := cur.data.Length;
      }
    }
  }

  method GetReadBuffers(ba: ByteArray, len: nat) returns (iov: seq<Iovec>, size: nat)
    requires ba.Valid() && (len > 0 ==> ba.position < ba.capacity)
    ensures size == Min(len, ba.size - ba.position)
    ensures OnBlocks(ba, iov, ba.position / ba.blockSize, Segments(ba.blockSize, ba.position % ba.blockSize, size))
    ensures var s := Segments(ba.blockSize, ba.position % ba.blockSize, size);
            EndsInData(s, ba.position / ba.blockSize, ba.blockSize, ba.size)
  {
    ba.CursorFacts();
    ListInDataWhen(ba.blockSize, ba.size, ba.position, Min(len, ba.size - ba.position));
    if len == 0 {
      return [], 0;
    }
    size := if len > ba.size - ba.position then ba.size - ba.position else len;
    iov := Gather(ba, ba.cur, ba.at, ba.position % ba.blockSize, size);
  }

  /** The list for a position of the caller's, which must be inside the buffer. The length is cut to
      what is readable from the cursor, not from pos. */
  method GetReadBuffersAt(ba: ByteArray, len: nat, pos: nat) returns (iov: seq<Iovec>, size: nat)
    requires ba.Valid()
    requires len > 0 ==> pos < ba.capacity && pos + Min(len, ba.size - ba.position) <= ba.capacity
    ensures size == Min(len, ba.size - ba.position)
    ensures OnBlocks(ba, iov, pos / ba.blockSize, Segments(ba.blockSize, pos % ba.blockSize, size))
    ensures EndsInData(Segments(ba.blockSize, pos % ba.blockSize, size), pos / ba.blockSize, ba.blockSize, ba.size)
            <==> size == 0 || pos + size <= ba.size
  {
    ListInDataWhen(ba.blockSize, ba.size, pos, Min(len, ba.size - ba.position));
    if len == 0 {
      return [], 0;
    }
    size := if len > ba.size - ba.position then ba.size - ba.position else len;
    var node, k := BlockAt(ba, pos);
    iov := Gather(ba, node, k, pos % ba.blockSize, size);
  }

  method GetWriteBuffers(ba: ByteArray, len: nat) returns (iov: seq<Iovec>, size: nat)
    requires ba.Valid()
    modifies ba, ba.Repr
    ensures ba.Valid() && size == len
    ensures ba.position == old(ba.position) && ba.size == old(ba.size) && old(ba.Contents()) <= ba.Contents()
    ensures ba.capacity == GrownCapacity(old(ba.capacity), ba.position, len, ba.blockSize)
    ensures len > 0 ==>
      OnBlocks(ba, iov, ba.position / ba.blockSize, Segments(ba.blockSize, ba.position % ba.blockSize, len))
    ensures len == 0 ==> iov == []
  {
    if len == 0 {
      return [], 0;
    }
    ba.AddCapacity(len);
    RoomIsMade(old(ba.capacity), ba.position, len, ba.blockSize);
    size := len;
    ba.CursorFacts();
    iov := Gather(ba, ba.cur, ba.at, ba.position % ba.blockSize, len);
  }

  /** Counts off pos / blockSize blocks from the first. */
  method BlockAt(ba: ByteArray, pos: nat) returns (cur: Node?, ghost k: nat)
    requires ba.Shape() && pos < ba.capacity
    ensures k == pos / ba.blockSize < |ba.nodes| && cur == ba.nodes[k]
    ensures Total(k, ba.blockSize) + pos % ba.blockSize == pos
  {
    var blockCnt: nat := pos / ba.blockSize;
    Euclid(pos, ba.blockSize);
    ghost var last: nat := blockCnt;
    TotalIsProduct(last, ba.blockSize);
    if last >= |ba.nodes| {
      TotalMonotonic(|ba.nodes|, last, ba.blockSize);
    }
    cur := ba.root;
    k := 0;
    while blockCnt > 0
      invariant blockCnt + k == last && k < |ba.nodes| && cur == ba.nodes[k]
    {
      blockCnt := blockCnt - 1;
      assert ba.NodeOk(k);
      cur := cur.next;
      k := k + 1;
    }
  }

  /** The last piece of a dump, not a whole block, starting inside a block that it does not fit in. */
  predicate RunsOver(blockSize: nat, offset: nat, len: nat) {
    len <= blockSize < offset + len
  }

  /** Offset and length of the next piece of a dump. */
  method NextPiece(ghost k: nat, pos: nat, readSize: nat, blockSize: nat) returns (diff: nat, len: nat)
    requires Total(k, blockSize) <= pos < Total(k, blockSize) + blockSize
    ensures pos == Total(k, blockSize) + diff
    ensures len == if readSize > blockSize then blockSize - diff else readSize
  {
    OffsetIn(k, pos, blockSize);
    diff := pos % blockSize;
    len := if readSize > blockSize then blockSize - diff else readSize;
  }

  /** Dumps the readable bytes block by block. inBounds tells whether every piece lay inside its
      block; the source has no such check and writes out whatever lies behind. */
  method Dump(ba: ByteArray) returns (inBounds: bool, file: seq<u8>)
    requires ba.Valid()
    ensures inBounds <==> !RunsOver(ba.blockSize, ba.position - Total(ba.at, ba.blockSize), ba.size - ba.position)
    ensures inBounds ==> Dumped(ba, file, ba.size)
  {
    ba.Facts();
    ba.CursorFacts();
    ghost var over := RunsOver(ba.blockSize, ba.position - Total(ba.at, ba.blockSize), ba.size - ba.position);
    file := [];
    var readSize: nat := ba.size - ba.position;
    var pos: nat := ba.position;
    var cur := ba.cur;
    ghost var k: nat := ba.at;
    while readSize > 0
      invariant pos + readSize == ba.size && ba.position <= pos
      invariant readSize > 0 ==> Total(k, ba.blockSize) <= pos < Total(k, ba.blockSize) + ba.blockSize
      invariant readSize > 0 ==> k < |ba.nodes| && cur == ba.nodes[k]
      invariant if pos == ba.position then k == ba.at else !over && (readSize == 0 || pos == Total(k, ba.blockSize))
      invariant Dumped(ba, file, pos)
    {
      var diff, len := NextPiece(k, pos, readSize, ba.blockSize);
      if diff + len > ba.blockSize {
        return false, file;
      }
      assert ba.NodeOk(k);
      file := DumpPiece(ba, k, cur, diff, len, pos, file);
      if readSize > len {
        ba.NextNode(k);
      }
      cur := cur.next;
      k := k + 1;
      pos := pos + len;
      readSize := readSize - len;
    }
    return true, file;
  }

  /** The dump is the readable bytes exactly when the cursor is not inside a block with at most a
      block, but more than the block's rest, to read. */
  method WriteToFile(ba: ByteArray) returns (inBounds: bool, file: seq<u8>)
    requires ba.Valid()
    ensures var offset, len := ba.position % ba.blockSize, ba.size - ba.position;
            inBounds <==> !(len <= ba.blockSize && offset + len > ba.blockSize)
    ensures inBounds ==> ba.size <= |ba.Contents()| && file == ba.Contents()[ba.position..ba.size]
  {
    ba.CursorFacts();
    inBounds, file := Dump(ba);
  }

  lemma OffsetIn(k: nat, pos: nat, blockSize: nat)
    requires Total(k, blockSize) <= pos < Total(k, blockSize) + blockSize
    ensures pos % blockSize == pos - Total(k, blockSize)
  {
    TotalIsProduct(k, blockSize);
    DivModUnique(pos, k, pos - Total(k, blockSize), blockSize);
  }

  /** file holds the bytes from the cursor to pos. */
  ghost predicate Dumped(ba: ByteArray, file: seq<u8>, pos: nat)
    reads ba
  {
    && ba.position + |file| == pos <= |ba.Contents()|
    && forall i :: 0 <= i < |file| ==> file[i] == ba.Contents()[ba.position + i]
  }

  method DumpPiece(ba: ByteArray, ghost k: nat, node: Node, from: nat, len: nat, ghost pos: nat, file: seq<u8>)
    returns (file': seq<u8>)
    requires ba.Shape() && k < |ba.nodes| && node == ba.nodes[k] && Dumped(ba, file, pos)
    requires from + len <= ba.blockSize && pos == Total(k, ba.blockSize) + from
    ensures Dumped(ba, file', pos + len)
  {
    assert ba.NodeOk(k);
    ba.Facts();
    TotalIsProduct(k, ba.blockSize);
    Blocks.FlatSlice(ba.blocks, ba.blockSize, k, from, from + len);
    var piece := node.data[from..from + len];
    assert piece == ba.Contents()[pos..pos + len];
    file' := file + piece;
  }
}
