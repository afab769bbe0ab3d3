/** ByteArray: a growable buffer kept as a linked list of equal blocks, with one cursor.

    Every method is specified on the flat contents, so the block size shows only in how far
    the buffer grows.
 */
module ByteArrays {
  import opened Bits
  import opened Blocks
  import opened Endians

  class Node {
    const data: array<u8>
    var next: Node?

    constructor (s: nat)
      ensures data.Length == s && fresh(data) && next == null
    {
      data := new u8[s];
      next := null;
    }
  }

  /** The bytes in n blocks. */
  function Total(n: nat, blockSize: nat): nat {
    if n == 0 then 0 else Total(n - 1, blockSize) + blockSize
  }

  lemma {:induction false} TotalIsProduct(n: nat, blockSize: nat)
    ensures Total(n, blockSize) == n * blockSize
  {
    if n > 0 {
      TotalIsProduct(n - 1, blockSize);
      assert (n - 1) * blockSize + blockSize == n * blockSize;
    }
  }

  lemma {:induction false} TotalMonotonic(j: nat, k: nat, blockSize: nat)
    requires j <= k
    ensures Total(j, blockSize) <= Total(k, blockSize)
  {
    if j < k {
      TotalMonotonic(j, k - 1, blockSize);
    }
  }

  /** The capacity after making room for n bytes at position. */
  function GrownCapacity(capacity: nat, position: nat, n: nat, blockSize: nat): nat
    requires position <= capacity && blockSize > 0
  {
    if n <= capacity - position then capacity
    else
      BlockCountPositive(n - (capacity - position), blockSize);
      capacity + (n - (capacity - position) + blockSize - 1) / blockSize * blockSize
  }

  lemma BlockCountPositive(missing: nat, blockSize: nat)
    requires missing > 0 && blockSize > 0
    ensures var c := (missing + blockSize - 1) / blockSize;
            c > 0 && missing <= c * blockSize < missing + blockSize
  {
    Euclid(missing + blockSize - 1, blockSize);
    var c := (missing + blockSize - 1) / blockSize;
    assert c != 0 || c * blockSize == 0;
  }

  /** Growth makes room, keeps whole blocks, and one block fewer would not do. */
  lemma GrowthIsLeast(blocks: nat, position: nat, n: nat, blockSize: nat) returns (blocks': nat)
    requires blockSize > 0 && position <= blocks * blockSize
    ensures GrownCapacity(blocks * blockSize, position, n, blockSize) == blocks' * blockSize
    ensures blocks <= blocks' && position + n <= blocks' * blockSize
    ensures blocks' > blocks ==> (blocks' - 1) * blockSize < position + n
  {
    var capacity := blocks * blockSize;
    if n <= capacity - position {
      blocks' := blocks;
    } else {
      var missing := n - (capacity - position);
      BlockCountPositive(missing, blockSize);
      var c := (missing + blockSize - 1) / blockSize;
      blocks' := blocks + c;
      assert (blocks + c) * blockSize == capacity + c * blockSize;
      assert (blocks' - 1) * blockSize == blocks' * blockSize - blockSize;
    }
  }

  /** Adding blocks behind the first start ones leaves the cursor's block where it was. */
  lemma CursorAfterGrowth(at: nat, p: nat, start: nat, added: nat, blockSize: nat)
    requires blockSize > 0 && p <= Total(start, blockSize)
    requires Total(at, blockSize) <= p < Total(at, blockSize) + blockSize
    ensures Total(start + added, blockSize) == Total(start, blockSize) + added * blockSize
    ensures p == Total(start, blockSize) ==> at == start
    ensures p < Total(start, blockSize) ==> at < start
  {
    TotalIsProduct(start, blockSize);
    TotalIsProduct(start + added, blockSize);
    assert (start + added) * blockSize == start * blockSize + added * blockSize;
    if at > start {
      TotalMonotonic(start + 1, at, blockSize);
    } else if at < start {
      TotalMonotonic(at + 1, start, blockSize);
    }
  }

  lemma RoomIsMade(capacity: nat, position: nat, n: nat, blockSize: nat)
    requires blockSize > 0 && position <= capacity
    ensures GrownCapacity(capacity, position, n, blockSize) >= position + n
  {
    if n > capacity - position {
      BlockCountPositive(n - (capacity - position), blockSize);
    }
  }

  /** memcpy of a part of src into dst. */
  method CopyIn(dst: array<u8>, dpos: nat, src: seq<u8>, spos: nat, n: nat)
    requires dpos + n <= dst.Length && spos + n <= |src|
    modifies dst
    ensures dst[..] == Overwrite(old(dst[..]), dpos, src[spos..spos + n])
  {
    forall i | 0 <= i < n {
      dst[dpos + i] := src[spos + i];
    }
  }

  /** The n bytes of s at p, as far as s goes. */
  function BytesAt(s: seq<u8>, p: nat, n: nat): seq<u8> {
    s[Min(p, |s|)..Min(p + n, |s|)]
  }

  /** One among zeros. */
  function Marked(n: nat, p: nat): (s: seq<u8>)
    requires p < n
    ensures |s| == n && forall i :: 0 <= i < n ==> s[i] == if i == p then 1 else 0
  {
    seq(n, i => if i == p then 1 else 0)
  }

  class ByteArray {
    const blockSize: nat
    var position: nat
    var capacity: nat
    var size: nat
    var endian: Endian
    var root: Node
    var cur: Node?

    ghost var nodes: seq<Node>
    ghost var blocks: seq<seq<u8>>
    ghost var index: map<object, nat>  // where in the list a node or its bytes belong: no two share any
    ghost var at: nat                  // the cursor's block
    ghost var Repr: set<object>

    ghost function NodeAt(k: nat): Node?
      reads this`nodes
    {
      if k < |nodes| then nodes[k] else null
    }

    /** Node k: its bytes, its link, and that it shares neither with another node. */
    ghost predicate NodeOk(k: nat)
      reads this`nodes, this`blocks, this`index, this`Repr, Repr
    {
      && k < |nodes| && k < |blocks|
      && nodes[k] in Repr && nodes[k].data in Repr
      && nodes[k] in index && index[nodes[k]] == k
      && nodes[k].data in index && index[nodes[k].data] == k
      && nodes[k].data.Length == blockSize && nodes[k].data[..] == blocks[k]
      && nodes[k].next == NodeAt(k + 1)
    }

    /** The list of blocks is what nodes and blocks say it is. */
    ghost predicate Shape()
      reads this`nodes, this`blocks, this`index, this`Repr, this`capacity, this`root, Repr
    {
      && this !in Repr
      && blockSize > 0
      && 0 < |nodes| == |blocks|
      && nodes[0] == root
      && capacity == Total(|nodes|, blockSize)
      && (forall k: nat :: k < |nodes| ==> NodeOk(k))
    }

    /** The cursor is in block at, or just behind the last block. */
    ghost predicate Cursor()
      reads this`position, this`nodes, this`at, this`cur
    {
      Total(at, blockSize) <= position < Total(at, blockSize) + blockSize && cur == NodeAt(at)
    }

    ghost predicate Valid()
      reads this, Repr
    {
      Shape() && position <= size <= capacity && Cursor()
    }

    ghost function Contents(): seq<u8>
      reads this`blocks
    {
      Flat(blocks)
    }

    lemma Facts()
      requires Shape()
      ensures Uniform(blocks, blockSize)
      ensures |Contents()| == capacity
    {
      forall i | 0 <= i < |blocks|
        ensures |blocks[i]| == blockSize
      {
        assert NodeOk(i);
        assert |nodes[i].data[..]| == blockSize;
      }
      FlatLength(blocks, blockSize);
      TotalIsProduct(|nodes|, blockSize);
    }

    /** The block under the cursor is block position / blockSize; there is none exactly at full capacity. */
    lemma CursorFacts()
      requires Shape() && position <= capacity && Cursor()
      ensures cur == null <==> position == capacity
      ensures cur != null ==> at < |nodes| && cur == nodes[at] && NodeOk(at)
      ensures at == position / blockSize && Total(at, blockSize) == position - position % blockSize
    {
      TotalIsProduct(at, blockSize);
      DivModUnique(position, at, position - Total(at, blockSize), blockSize);
      if at < |nodes| {
        assert NodeOk(at);
        TotalMonotonic(at + 1, |nodes|, blockSize);
      } else {
        TotalMonotonic(|nodes|, at, blockSize);
      }
    }

    /** A block that is not the last has a next one. */
    lemma NextNode(k: nat)
      requires Shape() && Total(k + 1, blockSize) < capacity
      ensures k + 1 < |nodes| && NodeOk(k) && NodeOk(k + 1)
    {
      if k + 1 >= |nodes| {
        TotalMonotonic(|nodes|, k + 1, blockSize);
      }
      assert NodeOk(k) && NodeOk(k + 1);
    }

    constructor (blockSize: nat)
      requires blockSize > 0
      ensures Valid() && fresh(Repr)
      ensures this.blockSize == blockSize && position == size == 0 && capacity == blockSize && endian == Big
    {
      this.blockSize := blockSize;
      position, capacity, size := 0, blockSize, 0;
      endian := Big;
      var n := new Node(blockSize);
      root, cur := n, n;
      nodes := [n];
      blocks := [n.data[..]];
      index := map[n := 0, n.data := 0];
      Repr := {n, n.data};
      at := 0;
      new;
      assert NodeOk(0);
    }

    /** Links one more block behind the last one. */
    method AppendBlock(last: Node) returns (added: Node)
      requires Shape() && last == nodes[|nodes| - 1]
      modifies last`next, this`capacity, this`nodes, this`blocks, this`index, this`Repr
      ensures Shape() && fresh(Repr - old(Repr)) && fresh(added)
      ensures nodes == old(nodes) + [added]
      ensures blocks == old(blocks) + [added.data[..]]
      ensures capacity == old(capacity) + blockSize
    {
      added := new Node(blockSize);
      last.next := added;
      capacity := capacity + blockSize;
      nodes := nodes + [added];
      blocks := blocks + [added.data[..]];
      index := index[added := |nodes| - 1][added.data := |nodes| - 1];
      Repr := Repr + {added, added.data};
      forall k: nat | k < |nodes|
        ensures NodeOk(k)
      {
        assert k < |old(nodes)| ==> old(NodeOk(k));
        assert old(NodeOk(|nodes| - 1));
      }
    }

    method LastNode() returns (tmp: Node)
      requires Shape()
      ensures tmp == nodes[|nodes| - 1]
    {
      ghost var at := 0;
      tmp := root;
      while tmp.next != null
        invariant at < |nodes| && tmp == nodes[at]
        decreases |nodes| - at
      {
        assert NodeOk(at);
        tmp := tmp.next;
        at := at + 1;
      }
      assert NodeOk(at);
    }

    /** Links count blocks behind the last one; fst is the first of them. */
    method AppendBlocks(last: Node, count: nat) returns (fst: Node?)
      requires Shape() && last == nodes[|nodes| - 1] && count > 0
      modifies this`capacity, this`nodes, this`blocks, this`index, this`Repr, Repr
      ensures Shape() && fresh(Repr - old(Repr))
      ensures position == old(position) && size == old(size) && endian == old(endian)
      ensures at == old(at) && cur == old(cur)
      ensures |nodes| == |old(nodes)| + count && old(nodes) <= nodes && old(blocks) <= blocks
      ensures fst == nodes[|old(nodes)|]
    {
      var tmp := last;
      fst := null;
      var i := 0;
      while i < count
        invariant 0 <= i <= count
        invariant Shape() && fresh(Repr - old(Repr))
        invariant position == old(position) && size == old(size) && endian == old(endian)
        invariant at == old(at) && cur == old(cur)
        invariant |nodes| == |old(nodes)| + i && old(nodes) <= nodes && old(blocks) <= blocks
        invariant tmp == nodes[|nodes| - 1]
        invariant fst == if i == 0 then null else nodes[|old(nodes)|]
      {
        assert NodeOk(|nodes| - 1);
        var m := AppendBlock(tmp);
        if fst == null {
          fst := m;
        }
        tmp := m;
        i := i + 1;
      }
    }

    /** Grows the buffer until n bytes fit behind the cursor, by the least number of blocks. */
    method AddCapacity(n: nat)
      requires Valid()
      modifies this, Repr
      ensures Valid() && fresh(Repr - old(Repr))
      ensures position == old(position) && size == old(size) && endian == old(endian)
      ensures old(Contents()) <= Contents()
      ensures capacity == GrownCapacity(old(capacity), old(position), n, blockSize)
    {
      if n == 0 {
        return;
      }
      var lastCap := capacity - position;
      if lastCap >= n {
        return;
      }
      CursorFacts();
      ghost var start := |nodes|;
      var tmp := LastNode();
      var blockCnt := (n - lastCap + blockSize - 1) / blockSize;
      BlockCountPositive(n - lastCap, blockSize);
      var fst := AppendBlocks(tmp, blockCnt);
      if lastCap == 0 {
        cur := fst;
      }
      CursorAfterGrowth(at, position, start, blockCnt, blockSize);
      FlatGrows(old(blocks), blocks);
    }

    /** The contents are s with the first done bytes of buf written at p. */
    ghost predicate Written(s: seq<u8>, p: nat, buf: seq<u8>, done: nat)
      reads this`blocks
    {
      && p + |buf| <= |s| == |Contents()| && done <= |buf|
      && (forall i :: 0 <= i < |s| ==> Contents()[i] == if p <= i < p + done then buf[i - p] else s[i])
    }

    /** memcpy of the next n bytes of buf into the cursor's block at offset npos. */
    method StoreInBlock(ghost s: seq<u8>, ghost p: nat, npos: nat, buf: seq<u8>, done: nat, n: nat)
      requires Shape() && at < |nodes| && cur == nodes[at]
      requires npos + n <= blockSize && done + n <= |buf| && p + |buf| <= |s|
      requires p + done == Total(at, blockSize) + npos && Written(s, p, buf, done)
      modifies cur.data, this`blocks
      ensures Shape() && Written(s, p, buf, done + n)
    {
      assert NodeOk(at);
      Facts();
      TotalIsProduct(at, blockSize);
      FlatOverwrite(blocks, blockSize, at, npos, buf[done..done + n]);
      CopyIn(cur.data, npos, buf, done, n);
      blocks := blocks[at := Overwrite(blocks[at], npos, buf[done..done + n])];
      forall i: nat | i < |nodes|
        ensures NodeOk(i)
      {
        assert old(NodeOk(i));
      }
    }

    /** Moves the cursor n bytes on within its block, or to the next block if it ends there. */
    method Skip(npos: nat, n: nat)
      requires Shape() && Cursor() && at < |nodes|
      requires npos == position - Total(at, blockSize) && npos + n <= blockSize
      modifies this`position, this`cur, this`at
      ensures Shape() && Cursor()
      ensures position == old(position) + n
      ensures at == if npos + n == blockSize then old(at) + 1 else old(at)
    {
      assert NodeOk(at);
      if cur.data.Length == npos + n {
        cur := cur.next;
        at := at + 1;
      }
      position := position + n;
    }

    /** One turn of the copy loop: memcpy into the cursor's block, and on. */
    method StoreAndSkip(ghost s: seq<u8>, ghost p: nat, npos: nat, buf: seq<u8>, done: nat, n: nat)
      requires Shape() && Cursor() && at < |nodes|
      requires npos == position - Total(at, blockSize) && npos + n <= blockSize
      requires done + n <= |buf| && p + |buf| <= |s| && position == p + done && Written(s, p, buf, done)
      modifies cur.data, this`blocks, this`position, this`cur, this`at
      ensures Shape() && Cursor() && Written(s, p, buf, done + n)
      ensures position == old(position) + n
      ensures at == if npos + n == blockSize then old(at) + 1 else old(at)
    {
      StoreInBlock(s, p, npos, buf, done, n);
      Skip(npos, n);
    }

    /** Writes buf at the cursor, filling block after block, and moves the cursor behind it. */
    method Write(buf: seq<u8>)
      requires Valid()
      modifies this, Repr
      ensures Valid() && fresh(Repr - old(Repr))
      ensures position == old(position) + |buf| && endian == old(endian)
      ensures size == if old(size) < position then position else old(size)
      ensures capacity == GrownCapacity(old(capacity), old(position), |buf|, blockSize)
      ensures old(position) <= |old(Contents())|
      ensures Overwrite(old(Contents()), old(position), buf) <= Contents()
    {
      Facts();
      if |buf| == 0 {
        return;
      }
      AddCapacity(|buf|);
      RoomIsMade(old(capacity), position, |buf|, blockSize);
      Facts();
      Put(buf);
      if position > size {
        size := position;
      }
    }

    /** The copy loop of Write, once there is room. */
    method Put(buf: seq<u8>)
      requires Shape() && 0 < |buf| <= capacity - position && Cursor()
      modifies Repr, this`blocks, this`position, this`cur, this`at
      ensures Shape() && Cursor()
      ensures position == old(position) + |buf|
      ensures Written(old(Contents()), old(position), buf, |buf|)
    {
      Facts();
      CursorFacts();
      ghost var F := Contents();
      ghost var p: nat := position;
      var n: nat := |buf|;
      var npos: nat := position % blockSize;
      var ncap: nat := cur.data.Length - npos;
      var bpos: nat := 0;
      while n > 0
        invariant Shape() && Cursor()
        invariant 0 <= bpos <= |buf| && n == |buf| - bpos && position == p + bpos
        invariant n > 0 ==> npos == position - Total(at, blockSize) && ncap == blockSize - npos
        invariant n > 0 ==> at < |nodes| && NodeOk(at)
        invariant Written(F, p, buf, bpos)
      {
        if ncap >= n {
          StoreAndSkip(F, p, npos, buf, bpos, n);
          bpos := bpos + n;
          n := 0;
        } else {
          StoreAndSkip(F, p, npos, buf, bpos, ncap);
          bpos := bpos + ncap;
          n := n - ncap;
          CursorFacts();
          ncap := cur.data.Length;
          npos := 0;
        }
      }
    }

    /** The first done bytes of buf come from flat position p on, the others are as in b. */
    ghost predicate Loaded(b: seq<u8>, p: nat, buf: array<u8>, done: nat)
      reads this`blocks, buf
    {
      && done <= |b| == buf.Length && p + done <= |Contents()|
      && (forall i :: 0 <= i < done ==> buf[i] == Contents()[p + i])
      && (forall i :: done <= i < |b| ==> buf[i] == b[i])
    }

    /** memcpy of n bytes of block k from offset npos on into buf behind the done bytes there. */
    method LoadFromBlock(ghost b: seq<u8>, ghost p: nat, ghost k: nat, node: Node, npos: nat, buf: array<u8>,
                         done: nat, n: nat)
      requires Shape() && buf !in Repr && k < |nodes| && node == nodes[k]
      requires npos + n <= blockSize && done + n <= buf.Length
      requires p + done == Total(k, blockSize) + npos && Loaded(b, p, buf, done)
      modifies buf
      ensures Loaded(b, p, buf, done + n) && p + done + n <= capacity
    {
      assert NodeOk(k);
      Facts();
      TotalIsProduct(k, blockSize);
      FlatSlice(blocks, blockSize, k, npos, npos + n);
      ghost var piece := Contents()[p + done..p + done + n];
      CopyIn(buf, done, node.data[..], npos, n);
      forall i | done <= i < done + n
        ensures buf[i] == Contents()[p + i]
      {
        assert buf[..][i] == piece[i - done];
      }
      forall i | 0 <= i < done || done + n <= i < buf.Length
        ensures buf[i] == old(buf[i])
      {
        assert buf[..][i] == old(buf[..])[i];
      }
    }

    /** One turn of the copy loop: memcpy from the cursor's block, and on. */
    method LoadAndSkip(ghost b: seq<u8>, ghost p: nat, npos: nat, buf: array<u8>, done: nat, n: nat)
      requires Shape() && Cursor() && at < |nodes| && buf !in Repr
      requires npos == position - Total(at, blockSize) && npos + n <= blockSize
      requires done + n <= buf.Length && position == p + done && Loaded(b, p, buf, done)
      modifies buf, this`position, this`cur, this`at
      ensures Shape() && Cursor() && Loaded(b, p, buf, done + n)
      ensures position == old(position) + n
      ensures at == if npos + n == blockSize then old(at) + 1 else old(at)
    {
      LoadFromBlock(b, p, at, cur, npos, buf, done, n);
      Skip(npos, n);
    }

    /** Reads n bytes at the cursor into the caller's buffer and moves the cursor behind them;
        refuses, changing nothing, when fewer are readable. The source dereferences the cursor's
        block even for n == 0, so at full capacity there must be something to read. */
    method Read(buf: array<u8>, n: nat) returns (ok: bool)
      requires Valid() && n <= buf.Length && buf !in Repr
      requires n > 0 || position < capacity
      modifies buf, this`position, this`cur, this`at
      ensures Valid()
      ensures ok <==> n <= size - old(position)
      ensures !ok ==> position == old(position) && buf[..] == old(buf[..])
      ensures ok ==> position == old(position) + n && Loaded(old(buf[..]), old(position), buf, n)
    {
      if n > size - position {
        return false;
      }
      Facts();
      CursorFacts();
      ghost var b := buf[..];
      ghost var p: nat := position;
      assert Loaded(b, p, buf, 0);
      var left: nat := n;
      var npos: nat := position % blockSize;
      var ncap: nat := cur.data.Length - npos;
      var bpos: nat := 0;
      while left > 0
        invariant Shape() && Cursor()
        invariant 0 <= bpos <= n && left == n - bpos && position == p + bpos
        invariant left > 0 ==> npos == position - Total(at, blockSize) && ncap == blockSize - npos
        invariant left > 0 ==> at < |nodes| && NodeOk(at)
        invariant Loaded(b, p, buf, bpos)
      {
        if ncap >= left {
          LoadAndSkip(b, p, npos, buf, bpos, left);
          bpos := bpos + left;
          left := 0;
        } else {
          LoadAndSkip(b, p, npos, buf, bpos, ncap);
          left := left - ncap;
          bpos := bpos + ncap;
          npos := 0;
          CursorFacts();
          ncap := cur.data.Length;
        }
      }
      return true;
    }

    /** Where the read that takes a position starts: the offset is that of pos, the block the cursor's. */
    ghost function ReadAtStart(pos: nat): nat
      reads this`at
      requires blockSize > 0
    {
      Total(at, blockSize) + pos % blockSize
    }

    /** The copy loop of the const read, on a cursor of its own. */
    method CopyOut(from: Node, ghost start: nat, offset: nat, buf: array<u8>, n: nat)
      requires Shape() && start < |nodes| && from == nodes[start] && offset < blockSize
      requires n <= buf.Length && buf !in Repr && Total(start, blockSize) + offset + n <= capacity
      modifies buf
      ensures Loaded(old(buf[..]), Total(start, blockSize) + offset, buf, n)
    {
      Facts();
      ghost var b := buf[..];
      ghost var p: nat := Total(start, blockSize) + offset;
      ghost var k: nat := start;
      assert Loaded(b, p, buf, 0);
      assert NodeOk(k);
      var left: nat := n;
      var npos: nat := offset;
      var ncap: nat := from.data.Length - npos;
      var bpos: nat := 0;
      var cur: Node? := from;
      while left > 0
        invariant 0 <= bpos <= n && left == n - bpos && 0 <= k
        invariant left > 0 ==> k < |nodes| && cur == nodes[k] && NodeOk(k)
        invariant left > 0 ==>
          0 <= npos < blockSize && p + bpos == Total(k, blockSize) + npos && ncap == blockSize - npos
        invariant Loaded(b, p, buf, bpos)
      {
        if ncap >= left {
          LoadFromBlock(b, p, k, cur, npos, buf, bpos, left);
          bpos := bpos + left;
          left := 0;
        } else {
          LoadFromBlock(b, p, k, cur, npos, buf, bpos, ncap);
          left := left - ncap;
          bpos := bpos + ncap;
          npos := 0;
          NextNode(k);
          cur := cur.next;
          k := k + 1;
          ncap := cur.data.Length;
        }
      }
    }

    /** The const read. It must stay within the blocks from the cursor's on. */
    method ReadAt(buf: array<u8>, n: nat, pos: nat) returns (ok: bool)
      requires Valid() && n <= buf.Length && buf !in Repr
      requires n <= size - position ==> position < capacity && ReadAtStart(pos) + n <= capacity
      modifies buf
      ensures ok <==> n <= size - position
      ensures !ok ==> buf[..] == old(buf[..])
      ensures ok ==> Loaded(old(buf[..]), ReadAtStart(pos), buf, n)
    {
      if n > size - position {
        return false;
      }
      CursorFacts();
      CopyOut(cur, at, pos % blockSize, buf, n);
      return true;
    }

    /** The const read starts at pos exactly when pos is in the cursor's block. */
    lemma ReadAtStartsAt(pos: nat)
      requires Valid()
      ensures ReadAtStart(pos) == pos <==> pos / blockSize == at
    {
      TotalIsProduct(at, blockSize);
      Euclid(pos, blockSize);
      if ReadAtStart(pos) == pos {
        DivModUnique(pos, at, pos % blockSize, blockSize);
      }
    }

    /** Whatever the blocks hold, the n bytes from flat place start on are the n data bytes at pos. */
    ghost predicate AreDataAt(start: nat, pos: nat, n: nat)
      reads this`size, this`capacity
      requires size <= capacity && start + n <= capacity
    {
      forall c: seq<u8> :: |c| == capacity ==> c[start..start + n] == BytesAt(c[..size], pos, n)
    }

    /** The const read hands out the data bytes at pos exactly when pos is in the cursor's block and
        that many are readable from pos on; its own refusal counts from the cursor. */
    lemma ReadAtIsRight(pos: nat, n: nat)
      requires Valid() && ReadAtStart(pos) + n <= capacity
      ensures AreDataAt(ReadAtStart(pos), pos, n) <==> n == 0 || (pos / blockSize == at && pos + n <= size)
    {
      var start := ReadAtStart(pos);
      ReadAtStartsAt(pos);
      if n == 0 || (start == pos && pos + n <= size) {
        forall c: seq<u8> | |c| == capacity
          ensures c[start..start + n] == BytesAt(c[..size], pos, n)
        {
        }
      } else {
        var c := Marked(capacity, start);
        var there := BytesAt(c[..size], pos, n);
        assert pos + n <= size ==> there[0] == c[pos] == 0;
        assert c[start..start + n] != there;
      }
    }

    method ToString() returns (str: seq<u8>)
      requires Valid()
      ensures str == if size <= |Contents()| then Contents()[position..size] else []
    {
      Facts();
      if size - position == 0 {
        return [];
      }
      var buf := new u8[size - position];
      CursorFacts();
      ReadAtStartsAt(position);
      var ok := ReadAt(buf, size - position, position);
      str := buf[..];
    }

    /** Moves the cursor anywhere up to the capacity; moving past the data makes it data. */
    method SetPosition(val: nat) returns (ok: bool)
      requires Valid()
      modifies this`position, this`size, this`cur, this`at
      ensures Valid()
      ensures ok <==> val <= capacity
      ensures !ok ==> position == old(position) && size == old(size)
      ensures ok ==> position == val && size == if old(size) < val then val else old(size)
    {
      if val > capacity {
        return false;
      }
      position := val;
      if position > size {
        size := position;
      }
      cur, at := FindBlock(val);
      return true;
    }

    /** Walks to the block of a position. */
    method FindBlock(val: nat) returns (block: Node?, ghost k: nat)
      requires Shape() && val <= capacity
      ensures Total(k, blockSize) <= val < Total(k, blockSize) + blockSize && block == NodeAt(k)
    {
      block := root;
      k := 0;
      var left: nat := val;
      assert NodeOk(0);
      while left > block.data.Length
        invariant k < |nodes| && block == nodes[k] && NodeOk(k)
        invariant 0 <= left && val == Total(k, blockSize) + left
        decreases left
      {
        NextNode(k);
        left := left - block.data.Length;
        block := block.next;
        k := k + 1;
      }
      if left == block.data.Length {
        block := block.next;
        k := k + 1;
      }
    }

    /** Drops every block but the first. */
    method Clear()
      requires Valid()
      modifies this, Repr
      ensures Valid() && Repr <= old(Repr)
      ensures position == size == 0 && capacity == blockSize && endian == old(endian)
      ensures blockSize <= |old(Contents())| && Contents() == old(Contents())[..blockSize]
    {
      assert NodeOk(0);
      Facts();
      FlatSlice(blocks, blockSize, 0, 0, blockSize);
      position, size := 0, 0;
      capacity := blockSize;
      cur := root;
      root.next := null;
      nodes, blocks, at := [root], [blocks[0]], 0;
      assert NodeOk(0);
      assert Total(1, blockSize) == blockSize;
      assert Flat(blocks) == blocks[0] + Flat([]);
    }
  }
}
