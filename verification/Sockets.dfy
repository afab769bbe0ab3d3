/** A stream socket that delivers its bytes in pieces of the network's choosing, and the loops that read
    a given number of bytes from it and assemble a body of known length.
 */
module Sockets {
  import opened Bits
  import opened Blocks

  /** The pieces left when n bytes of the first were read. */
  function Rest(pieces: seq<seq<u8>>, n: nat): seq<seq<u8>>
    requires pieces != [] ==> n <= |pieces[0]|
  {
    if pieces == [] then [] else if n == |pieces[0]| then pieces[1..] else [pieces[0][n..]] + pieces[1..]
  }

  /** No piece is empty. */
  ghost predicate Pieces(pieces: seq<seq<u8>>) {
    forall i :: 0 <= i < |pieces| ==> 0 < |pieces[i]|
  }

  ghost predicate Below(pieces: seq<seq<u8>>, max: nat) {
    forall i :: 0 <= i < |pieces| ==> |pieces[i]| < max
  }

  /** Where the pieces end, counted from pos. */
  ghost function Cuts(pieces: seq<seq<u8>>, pos: nat): set<nat> {
    if pieces == [] then {} else {pos + |pieces[0]|} + Cuts(pieces[1..], pos + |pieces[0]|)
  }

  lemma RestIsSuffix(pieces: seq<seq<u8>>, n: nat)
    requires pieces != [] ==> n <= |pieces[0]|
    requires pieces == [] ==> n == 0
    ensures n <= |Flat(pieces)| && Flat(Rest(pieces, n)) == Flat(pieces)[n..]
    ensures pieces != [] ==> Flat(pieces)[..n] == pieces[0][..n]
  {
    if pieces != [] && n < |pieces[0]| {
      assert Rest(pieces, n)[1..] == pieces[1..];
    }
  }

  lemma RestKeeps(pieces: seq<seq<u8>>, n: nat, pos: nat, max: nat)
    requires Pieces(pieces) && Below(pieces, max) && (pieces != [] ==> n <= |pieces[0]|)
    requires pieces == [] ==> n == 0
    ensures Pieces(Rest(pieces, n)) && Below(Rest(pieces, n), max)
    ensures Cuts(Rest(pieces, n), pos + n) <= Cuts(pieces, pos)
  {
    if pieces != [] && n < |pieces[0]| {
      assert Rest(pieces, n)[1..] == pieces[1..];
    }
  }

  lemma NoPiecesLeft(pieces: seq<seq<u8>>)
    requires Pieces(pieces)
    ensures Flat(pieces) == [] <==> pieces == []
  {
    if pieces != [] {
      assert Flat(pieces)[0] == pieces[0][0];
    }
  }

  class Socket {
    var pieces: seq<seq<u8>>

    constructor (pieces: seq<seq<u8>>)
      ensures this.pieces == pieces
    {
      this.pieces := pieces;
    }

    /** recv: at most max bytes of what has arrived; 0 at the end of the stream. */
    method Read(buffer: array<u8>, offset: nat, max: nat) returns (n: nat)
      requires offset + max <= buffer.Length
      modifies this, buffer
      ensures n == if old(pieces) == [] then 0 else Min(|old(pieces)[0]|, max)
      ensures pieces == Rest(old(pieces), n)
      ensures forall i :: 0 <= i < n ==> buffer[offset + i] == old(pieces)[0][i]
      ensures forall i :: 0 <= i < buffer.Length && !(offset <= i < offset + n) ==> buffer[i] == old(buffer[i])
    {
      if pieces == [] {
        return 0;
      }
      n := Min(|pieces[0]|, max);
      forall i | 0 <= i < n {
        buffer[offset + i] := pieces[0][i];
      }
      pieces := Rest(pieces, n);
    }
  }

  /** int as a count of bytes is converted to it. */
  function AsInt(n: nat): (r: int)
    ensures -0x8000_0000 <= r < 0x8000_0000 && (r - n) % 0x1_0000_0000 == 0
    ensures 0 < r <==> 0 < n % 0x1_0000_0000 < 0x8000_0000
    ensures n < 0x8000_0000 ==> r == n
  {
    var u := n % 0x1_0000_0000;
    if u < 0x8000_0000 then u else u - 0x1_0000_0000
  }

  lemma ReadIsNext(stream: seq<u8>, at: nat, pieces: seq<seq<u8>>, n: nat)
    requires at <= |stream| && Pieces(pieces) && Flat(pieces) == stream[at..]
    requires pieces != [] ==> n <= |pieces[0]|
    requires pieces == [] ==> n == 0
    ensures Pieces(Rest(pieces, n))
    ensures at + n <= |stream| && Flat(Rest(pieces, n)) == stream[at + n..]
    ensures forall i :: 0 <= i < n ==> stream[at + i] == pieces[0][i]
    ensures pieces == [] <==> at == |stream|
  {
    RestIsSuffix(pieces, n);
    NoPiecesLeft(pieces);
    forall i | 0 <= i < n ensures stream[at + i] == pieces[0][i] {
      assert stream[at..][..n][i] == pieces[0][..n][i];
    }
  }

  /** A read as seen from the stream: it yields the next bytes, and none only at the end. */
  method ReadNext(socket: Socket, buffer: array<u8>, offset: nat, max: nat, ghost stream: seq<u8>, ghost at: nat)
    returns (n: nat)
    requires 0 < max && offset + max <= buffer.Length
    requires at <= |stream| && Pieces(socket.pieces) && Flat(socket.pieces) == stream[at..]
    modifies socket, buffer
    ensures n <= max && at + n <= |stream| && (n == 0 <==> at == |stream|)
    ensures Pieces(socket.pieces) && Flat(socket.pieces) == stream[at + n..]
    ensures buffer[offset..offset + n] == stream[at..at + n]
    ensures buffer[..offset] == old(buffer[..offset])
  {
    ghost var pieces := socket.pieces;
    n := socket.Read(buffer, offset, max);
    ReadIsNext(stream, at, pieces, n);
    assert n > 0 ==> buffer[offset..offset + n] == pieces[0][..n] == stream[at..at + n];
  }

  /** What was read before and what was read now are the stream's next bytes. */
  lemma Glue(b: seq<u8>, b': seq<u8>, offset: nat, at: nat, n: nat, stream: seq<u8>)
    requires |b| == |b'| && offset + at + n <= |b| && at + n <= |stream|
    requires b'[..offset + at] == b[..offset + at] && b[offset..offset + at] == stream[..at]
    requires b'[offset + at..offset + at + n] == stream[at..at + n]
    ensures b'[offset..offset + at + n] == stream[..at + n] && b'[..offset] == b[..offset]
  {
    assert b'[..offset + at][..offset] == b'[..offset] && b[..offset + at][..offset] == b[..offset];
    assert b'[..offset + at][offset..] == b'[offset..offset + at];
    assert b[..offset + at][offset..] == b[offset..offset + at];
    assert b'[offset..offset + at + n] == b'[offset..offset + at] + b'[offset + at..offset + at + n];
    assert stream[..at + n] == stream[..at] + stream[at..at + n];
  }

  /** Stream::readFixedSize: reads on until it has length bytes or the stream ends. The result is the
      length as an int, or 0. */
  method ReadFixedSize(socket: Socket, buffer: array<u8>, offset: nat, length: nat) returns (r: int)
    requires offset + length <= buffer.Length && Pieces(socket.pieces)
    modifies socket, buffer
    ensures var stream := old(Flat(socket.pieces));
      if length <= |stream| then
        r == AsInt(length) && buffer[offset..offset + length] == stream[..length]
        && Flat(socket.pieces) == stream[length..]
      else r == 0
    ensures buffer[..offset] == old(buffer[..offset])
  {
    var left: nat := length;
    var at: nat := 0;
    ghost var stream := Flat(socket.pieces);
    while left > 0
      invariant at + left == length && at <= |stream|
      invariant Pieces(socket.pieces) && Flat(socket.pieces) == stream[at..]
      invariant buffer[offset..offset + at] == stream[..at] && buffer[..offset] == old(buffer[..offset])
    {
      ghost var before := buffer[..];
      var n := ReadNext(socket, buffer, offset + at, left, stream, at);
      if n <= 0 {
        return 0;
      }
      Glue(before, buffer[..], offset, at, n, stream);
      at := at + n;
      left := left - n;
    }
    return AsInt(length);
  }
}
