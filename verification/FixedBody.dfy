/** A message body of known length, assembled from what header parsing left in the buffer and the socket. */
module FixedBodies {
  import opened Bits
  import opened Blocks
  import opened Options
  import opened Sockets

  /** The first length bytes of the stream after the header; nothing if it ends too soon. */
  function FixedBody(stream: seq<u8>, length: nat): Option<seq<u8>> {
    if length <= |stream| then Some(stream[..length]) else None
  }

  /** The length still to be read survives being returned as an int. */
  predicate FitsInt(left: nat) {
    left == 0 || 0 < left % 0x1_0000_0000 < 0x8000_0000
  }

  /** The body assembly of recvRequest, and of recvResponse without chunks. */
  method RecvFixedBody(data: array<u8>, lastSize: nat, contentLength: nat, socket: Socket)
    returns (result: Option<seq<u8>>)
    requires lastSize <= data.Length && lastSize <= contentLength && Pieces(socket.pieces)
    modifies socket
    ensures result == if FitsInt(contentLength - lastSize) then
      FixedBody(old(data[..lastSize] + Flat(socket.pieces)), contentLength) else None
  {
    var length: nat := contentLength;
    if length == 0 {
      return Some([]);
    }
    ghost var leftover := data[..lastSize];
    ghost var rest := Flat(socket.pieces);
    var body := new u8[length];
    forall i | 0 <= i < lastSize {
      body[i] := data[i];
    }
    var len: nat := lastSize;
    length := length - lastSize;
    assert body[..len] == leftover;
    if length > 0 {
      var r := ReadFixedSize(socket, body, len, length);
      if r <= 0 {
        return None;
      }
      assert body[..contentLength] == body[..len] + body[len..len + length];
      assert (leftover + rest)[..contentLength] == leftover + rest[..length];
    } else {
      assert (leftover + rest)[..contentLength] == leftover;
    }
    assert body[..] == body[..contentLength] == (leftover + rest)[..contentLength];
    return Some(body[..]);
  }
}
