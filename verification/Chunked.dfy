/** Chunked bodies (section 7.1 of RFC 9112): what a stream of chunks means, and the loop that decodes it
    from a buffer and a socket that splits the stream as it likes.
 */
module Chunked {
  import opened Bits
  import opened Blocks
  import opened ChunkLines
  import opened Options
  import opened Sockets

  // ---- What a chunked stream means ----

  function Prepend(body: seq<u8>, rest: Option<seq<u8>>): Option<seq<u8>> {
    match rest
    case None => None
    case Some(s) => Some(body + s)
  }

  /** The body that starts at a chunk line: the payloads up to the chunk of size 0; nothing if the stream
      is malformed or ends too soon. Each payload is followed by two bytes, which are skipped. */
  function Decode(stream: seq<u8>, at: nat): Option<seq<u8>>
    requires at <= |stream|
    decreases |stream| - at
  {
    match ParseLine(stream[at..])
    case Line(size, n) =>
      var b := at + n;
      if b + size + 2 > |stream| then None
      else if size == 0 then Some([])
      else Prepend(stream[b..b + size], Decode(stream, b + size + 2))
    case _ => None
  }

  /** The largest size for which content_len + 2 is an int. */
  const MAX_SIZE: nat := 0x7fff_fffd

  ghost predicate NoneInside(cuts: set<nat>, from: nat, to: nat) {
    forall p :: p in cuts ==> !(from < p < to)
  }

  /** No read ends inside the chunk line at `at`; its size fits; it is no status line. */
  ghost predicate RegularLine(stream: seq<u8>, at: nat, cuts: set<nat>)
    requires at <= |stream|
  {
    var line := ParseLine(stream[at..]);
    NoneInside(cuts, at, at + line.n) && !line.Other? && (line.Line? ==> line.size <= MAX_SIZE)
  }

  /** So it is with every chunk line from `at` on. */
  ghost predicate Regular(stream: seq<u8>, at: nat, cuts: set<nat>)
    requires at <= |stream|
    decreases |stream| - at
  {
    var line := ParseLine(stream[at..]);
    && RegularLine(stream, at, cuts)
    && (line.Line? ==>
          line.size == 0 || at + line.n + line.size + 2 > |stream|
          || Regular(stream, at + line.n + line.size + 2, cuts))
  }

  // ---- The loop ----

  /** The buffer holds the stream from `at` on, the socket the rest; unless the buffer is empty, it ends
      where a read ended. */
  ghost predicate Positioned(stream: seq<u8>, at: nat, buffered: seq<u8>, pieces: seq<seq<u8>>, cuts: set<nat>) {
    && at + |buffered| <= |stream|
    && buffered == stream[at..at + |buffered|]
    && Flat(pieces) == stream[at + |buffered|..]
    && Pieces(pieces)
    && Cuts(pieces, at + |buffered|) <= cuts
    && (buffered != [] ==> at + |buffered| in cuts)
  }

  lemma ReadPosition(stream: seq<u8>, at: nat, pieces: seq<seq<u8>>, cuts: set<nat>, max: nat)
    requires Positioned(stream, at, [], pieces, cuts) && pieces != [] && Below(pieces, max)
    ensures Positioned(stream, at, pieces[0], pieces[1..], cuts) && Below(pieces[1..], max)
  {
    var n: nat := |pieces[0]|;
    RestIsSuffix(pieces, n);
    RestKeeps(pieces, n, at, max);
    assert pieces[0][..n] == pieces[0];
    assert stream[at..at + n] == stream[at..][..n];
    assert stream[at + n..] == stream[at..][n..];
  }

  /** A buffer that ends where a read ended holds the whole line. */
  lemma LineIsBuffered(stream: seq<u8>, at: nat, buffered: seq<u8>, pieces: seq<seq<u8>>,
                       cuts: set<nat>)
    requires Positioned(stream, at, buffered, pieces, cuts) && RegularLine(stream, at, cuts) && buffered != []
    ensures var line := ParseLine(stream[at..]);
      && line.n <= |buffered| && !line.Other?
      && (line.Incomplete? ==> pieces == [] && ParseLine(buffered).Incomplete?)
      && (!line.Incomplete? ==> ParseLine(buffered) == line)
  {
    var line := ParseLine(stream[at..]);
    assert at + |buffered| in cuts;
    assert line.n <= |buffered|;
    assert stream[at..][..|buffered|] == buffered;
    LineOfPrefix(stream[at..], |buffered|);
    if line.Incomplete? {
      IncompleteIsAll(stream[at..]);
      NoPiecesLeft(pieces);
    }
  }

  lemma IncompleteIsAll(s: seq<u8>)
    ensures ParseLine(s).Incomplete? ==> ParseLine(s).n == |s|
  {
  }

  /** Taking n buffered bytes moves the position. */
  lemma Taken(stream: seq<u8>, at: nat, buffered: seq<u8>, pieces: seq<seq<u8>>,
              cuts: set<nat>, n: nat)
    requires Positioned(stream, at, buffered, pieces, cuts) && n <= |buffered|
    ensures Positioned(stream, at + n, buffered[n..], pieces, cuts)
    ensures buffered[..n] == stream[at..at + n]
  {
  }

  /** Reading n bytes past an empty buffer moves it too. */
  lemma Passed(stream: seq<u8>, pos: nat, pieces: seq<seq<u8>>, cuts: set<nat>, n: nat, max: nat)
    requires Positioned(stream, pos, [], pieces, cuts) && Below(pieces, max)
    requires if pieces == [] then n == 0 else n <= |pieces[0]|
    ensures Positioned(stream, pos + n, [], Rest(pieces, n), cuts) && Below(Rest(pieces, n), max)
    ensures pieces != [] ==> pieces[0][..n] == stream[pos..pos + n]
    ensures pieces == [] <==> pos == |stream|
  {
    ReadIsNext(stream, pos, pieces, n);
    RestKeeps(pieces, n, pos, max);
  }

  /** What the parser makes of the buffer is what the stream's line is. */
  lemma ParsedLine(stream: seq<u8>, at: nat, buffered: seq<u8>, pieces: seq<seq<u8>>, cuts: set<nat>)
    requires Positioned(stream, at, buffered, pieces, cuts) && RegularLine(stream, at, cuts) && buffered != []
    ensures var line := ParseLine(stream[at..]); var parsed := ParseLine(buffered);
      && (parsed.Line? <==> line.Line?) && (parsed.Bad? <==> line.Bad?)
      && (line.Line? ==>
            && parsed == line && line.size <= MAX_SIZE
            && Positioned(stream, at + line.n, buffered[parsed.n..], pieces, cuts))
      && (line.Incomplete? ==> parsed.n == |buffered| && Positioned(stream, |stream|, [], pieces, cuts))
  {
    LineIsBuffered(stream, at, buffered, pieces, cuts);
    IncompleteIsAll(buffered);
    var n: nat := ParseLine(buffered).n;
    Taken(stream, at, buffered, pieces, cuts, n);
    if ParseLine(buffered).Incomplete? {
      assert buffered[n..] == [];
      assert at + n == |stream| by {
        assert Flat(pieces) == [];
      }
    }
  }

  /** A read into the empty buffer. */
  method Refill(data: array<u8>, socket: Socket, ghost stream: seq<u8>, ghost at: nat, ghost cuts: set<nat>)
    returns (rt: nat)
    requires data.Length > 0 && Below(socket.pieces, data.Length)
    requires Positioned(stream, at, [], socket.pieces, cuts)
    modifies data, socket
    ensures rt < data.Length && (rt == 0 <==> at == |stream|)
    ensures Positioned(stream, at, data[..rt], socket.pieces, cuts) && Below(socket.pieces, data.Length)
  {
    ghost var pieces := socket.pieces;
    rt := socket.Read(data, 0, data.Length);
    NoPiecesLeft(pieces);
    if pieces == [] {
      assert data[..rt] == [];
    } else {
      ReadPosition(stream, at, pieces, cuts, data.Length);
      forall i | 0 <= i < rt ensures data[i] == pieces[0][i] {
        assert data[0 + i] == pieces[0][i];
      }
      assert data[..rt] == pieces[0];
    }
  }

  /** The parser over what is buffered. */
  method ParseBuffered(parser: ChunkParser, data: array<u8>, len: nat, socket: Socket,
                       ghost stream: seq<u8>, ghost at: nat, ghost cuts: set<nat>)
    returns (nparse: nat)
    requires 0 < len <= data.Length
    requires Positioned(stream, at, data[..len], socket.pieces, cuts) && RegularLine(stream, at, cuts)
    modifies parser, data
    ensures nparse <= len
    ensures var line := ParseLine(stream[at..]);
      && (parser.IsFinished() <==> line.Line?) && (parser.HasError() <==> line.Bad?)
      && (line.Line? ==>
            && parser.contentLen == line.size && (parser.chunksDone <==> line.size == 0)
            && Positioned(stream, at + line.n, data[..len - nparse], socket.pieces, cuts))
      && (line.Incomplete? ==> nparse == len && Positioned(stream, |stream|, [], socket.pieces, cuts))
  {
    ghost var buffered := data[..len];
    ParsedLine(stream, at, buffered, socket.pieces, cuts);
    nparse := parser.Execute(data, len);
    assert data[..len - nparse] == buffered[nparse..];
    if ParseLine(buffered).Line? {
      ContentLenIsRight(ParseLine(buffered).size);
    }
  }

  /** The inner loop: read until a chunk line is complete. */
  method ReadLine(parser: ChunkParser, data: array<u8>, len0: nat, socket: Socket,
                  ghost stream: seq<u8>, ghost at: nat, ghost cuts: set<nat>)
    returns (ok: bool, len: nat)
    requires len0 < data.Length && Below(socket.pieces, data.Length)
    requires Positioned(stream, at, data[..len0], socket.pieces, cuts) && RegularLine(stream, at, cuts)
    modifies parser, data, socket
    ensures ok == ParseLine(stream[at..]).Line?
    ensures ok ==> var line := ParseLine(stream[at..]);
      && parser.contentLen == line.size && (parser.chunksDone <==> line.size == 0)
      && len < data.Length && Below(socket.pieces, data.Length)
      && Positioned(stream, at + line.n, data[..len], socket.pieces, cuts)
  {
    len := len0;
    var begin := true;
    ghost var pos: nat := at;
    while true
      invariant len < data.Length && Below(socket.pieces, data.Length)
      invariant begin ==> pos == at
      invariant !begin ==> len == 0 && pos == |stream| && !ParseLine(stream[at..]).Line?
      invariant Positioned(stream, pos, data[..len], socket.pieces, cuts)
      decreases begin
    {
      if !begin || len == 0 {
        assert data[..len] == [];
        var rt := Refill(data, socket, stream, pos, cuts);
        if rt <= 0 {
          assert begin ==> stream[at..] == [];
          return false, 0;
        }
        len := len + rt;
      }
      var nparse := ParseBuffered(parser, data, len, socket, stream, at, cuts);
      if parser.HasError() {
        return false, 0;
      }
      len := len - nparse;
      begin := false;
      pos := |stream|;
      if parser.IsFinished() {
        return true, len;
      }
    }
  }

  /** The next part of a payload. */
  method ReadPart(data: array<u8>, max: nat, socket: Socket, ghost stream: seq<u8>, ghost pos: nat,
                  ghost cuts: set<nat>)
    returns (rt: nat)
    requires 0 < max <= data.Length && Below(socket.pieces, data.Length)
    requires Positioned(stream, pos, [], socket.pieces, cuts)
    modifies data, socket
    ensures rt <= max && (rt == 0 <==> pos == |stream|)
    ensures Positioned(stream, pos + rt, [], socket.pieces, cuts) && Below(socket.pieces, data.Length)
    ensures data[..rt] == stream[pos..pos + rt]
  {
    ghost var pieces := socket.pieces;
    rt := socket.Read(data, 0, max);
    Passed(stream, pos, pieces, cuts, rt, data.Length);
    forall i | 0 <= i < rt ensures data[i] == pieces[0][..rt][i] {
      assert data[0 + i] == pieces[0][i];
    }
    assert rt > 0 ==> data[..rt] == pieces[0][..rt];
  }

  /** The loop over a payload that is not all in the buffer. */
  method ReadPayload(data: array<u8>, wanted: nat, socket: Socket, ghost stream: seq<u8>, ghost pos: nat,
                     ghost cuts: set<nat>)
    returns (ok: bool, bytes: seq<u8>)
    requires data.Length > 0 && Below(socket.pieces, data.Length)
    requires Positioned(stream, pos, [], socket.pieces, cuts)
    modifies data, socket
    ensures ok <==> pos + wanted <= |stream|
    ensures ok ==> bytes == stream[pos..pos + wanted] && Below(socket.pieces, data.Length)
    ensures ok ==> Positioned(stream, pos + wanted, [], socket.pieces, cuts)
  {
    bytes := [];
    var left: nat := wanted;
    while left > 0
      invariant |bytes| + left == wanted && pos + |bytes| <= |stream| && bytes == stream[pos..pos + |bytes|]
      invariant Positioned(stream, pos + |bytes|, [], socket.pieces, cuts) && Below(socket.pieces, data.Length)
    {
      ghost var at: nat := pos + |bytes|;
      var rt := ReadPart(data, if left > data.Length then data.Length else left, socket, stream, at, cuts);
      if rt <= 0 {
        return false, [];
      }
      bytes := bytes + data[..rt];
      left := left - rt;
    }
    return true, bytes;
  }

  /** A payload and the two bytes behind it, when the buffer has them. */
  method FromBuffer(data: array<u8>, len0: nat, size: nat, ghost stream: seq<u8>, ghost b: nat,
                    ghost pieces: seq<seq<u8>>, ghost cuts: set<nat>)
    returns (payload: seq<u8>, len: nat)
    requires size + 2 <= len0 < data.Length && Positioned(stream, b, data[..len0], pieces, cuts)
    modifies data
    ensures b + size + 2 <= |stream| && payload == stream[b..b + size]
    ensures len < data.Length && Positioned(stream, b + size + 2, data[..len], pieces, cuts)
  {
    ghost var buffered := data[..len0];
    Taken(stream, b, buffered, pieces, cuts, size);
    Taken(stream, b, buffered, pieces, cuts, size + 2);
    payload := data[..size];
    assert payload == buffered[..size];
    Shift(data, size + 2, len0);
    len := len0 - (size + 2);
    assert data[..len] == buffered[size + 2..];
  }

  /** Otherwise what is there of it, and then from the socket. */
  method FromSocket(data: array<u8>, len0: nat, size: nat, socket: Socket, ghost stream: seq<u8>, ghost b: nat,
                    ghost cuts: set<nat>)
    returns (ok: bool, payload: seq<u8>)
    requires len0 < data.Length && len0 < size + 2 && Below(socket.pieces, data.Length)
    requires Positioned(stream, b, data[..len0], socket.pieces, cuts)
    modifies data, socket
    ensures ok <==> b + size + 2 <= |stream|
    ensures ok ==> payload == stream[b..b + size] && Below(socket.pieces, data.Length)
    ensures ok ==> Positioned(stream, b + size + 2, [], socket.pieces, cuts)
  {
    ghost var buffered := data[..len0];
    Taken(stream, b, buffered, socket.pieces, cuts, len0);
    assert buffered[len0..] == [];
    payload := data[..len0];
    assert payload == stream[b..b + len0];
    var bytes;
    ok, bytes := ReadPayload(data, size - len0 + 2, socket, stream, b + len0, cuts);
    if !ok {
      return false, [];
    }
    payload := payload + bytes;
    assert payload == stream[b..b + size + 2];
    payload := payload[..|payload| - 2];
  }

  method TakePayload(data: array<u8>, len0: nat, size: nat, socket: Socket, ghost stream: seq<u8>,
                     ghost b: nat, ghost cuts: set<nat>)
    returns (ok: bool, payload: seq<u8>, len: nat)
    requires len0 < data.Length && Below(socket.pieces, data.Length)
    requires Positioned(stream, b, data[..len0], socket.pieces, cuts)
    modifies data, socket
    ensures ok <==> b + size + 2 <= |stream|
    ensures ok ==> payload == stream[b..b + size] && len < data.Length && Below(socket.pieces, data.Length)
    ensures ok ==> Positioned(stream, b + size + 2, data[..len], socket.pieces, cuts)
  {
    if size + 2 <= len0 {
      ok := true;
      payload, len := FromBuffer(data, len0, size, stream, b, socket.pieces, cuts);
    } else {
      ok, payload := FromSocket(data, len0, size, socket, stream, b, cuts);
      len := 0;
      assert data[..len] == [];
    }
  }

  lemma PrependTwice(x: seq<u8>, y: seq<u8>, rest: Option<seq<u8>>)
    ensures Prepend(x, Prepend(y, rest)) == Prepend(x + y, rest)
  {
    if rest.Some? {
      assert x + (y + rest.value) == x + y + rest.value;
    }
  }

  /** Where the chunk at `at` ends. */
  function ChunkEnd(stream: seq<u8>, at: nat): nat
    requires at <= |stream| && ParseLine(stream[at..]).Line?
  {
    at + ParseLine(stream[at..]).n + ParseLine(stream[at..]).size + 2
  }

  /** A whole chunk stands at `at`. */
  predicate WholeChunk(stream: seq<u8>, at: nat)
    requires at <= |stream|
  {
    ParseLine(stream[at..]).Line? && ChunkEnd(stream, at) <= |stream|
  }

  function Payload(stream: seq<u8>, at: nat): seq<u8>
    requires at <= |stream| && WholeChunk(stream, at)
  {
    stream[ChunkEnd(stream, at) - 2 - ParseLine(stream[at..]).size..ChunkEnd(stream, at) - 2]
  }

  /** Decode, and what Regular grants, one chunk at a time. */
  lemma {:induction false} DecodeChunk(stream: seq<u8>, at: nat, cuts: set<nat>, body: seq<u8>)
    requires at <= |stream| && Regular(stream, at, cuts)
    ensures !WholeChunk(stream, at) ==> Decode(stream, at) == None
    ensures WholeChunk(stream, at) ==>
      var size := ParseLine(stream[at..]).size;
      && size <= MAX_SIZE && at < ChunkEnd(stream, at)
      && (size > 0 ==> Regular(stream, ChunkEnd(stream, at), cuts))
      && Prepend(body, Decode(stream, at)) == if size == 0 then Some(body + Payload(stream, at))
        else Prepend(body + Payload(stream, at), Decode(stream, ChunkEnd(stream, at)))
  {
    if WholeChunk(stream, at) {
      assert ParseLine(stream[at..]).size == 0 ==> Payload(stream, at) == [];
      PrependTwice(body, Payload(stream, at), Decode(stream, ChunkEnd(stream, at)));
    }
  }

  lemma ChunkPlaces(stream: seq<u8>, at: nat, size: nat, n: nat)
    requires at <= |stream| && ParseLine(stream[at..]) == Line(size, n)
    ensures ChunkEnd(stream, at) == at + n + size + 2
    ensures WholeChunk(stream, at) <==> at + n + size + 2 <= |stream|
    ensures WholeChunk(stream, at) ==> Payload(stream, at) == stream[at + n..at + n + size]
  {
  }

  /** The payload behind a chunk line that was read. */
  method TakeBody(data: array<u8>, len0: nat, size: nat, socket: Socket, ghost stream: seq<u8>, ghost at: nat,
                  ghost n: nat, ghost cuts: set<nat>)
    returns (ok: bool, payload: seq<u8>, len: nat)
    requires len0 < data.Length && Below(socket.pieces, data.Length)
    requires at <= |stream| && ParseLine(stream[at..]) == Line(size, n)
    requires Positioned(stream, at + n, data[..len0], socket.pieces, cuts)
    modifies data, socket
    ensures ok == WholeChunk(stream, at)
    ensures ok ==> payload == Payload(stream, at) && len < data.Length && Below(socket.pieces, data.Length)
    ensures ok ==> Positioned(stream, ChunkEnd(stream, at), data[..len], socket.pieces, cuts)
  {
    ChunkPlaces(stream, at, size, n);
    ok, payload, len := TakePayload(data, len0, size, socket, stream, at + n, cuts);
  }

  /** One turn of the outer loop. */
  method TakeChunk(parser: ChunkParser, data: array<u8>, len0: nat, socket: Socket,
                   ghost stream: seq<u8>, ghost at: nat, ghost cuts: set<nat>)
    returns (ok: bool, payload: seq<u8>, len: nat)
    requires len0 < data.Length && Below(socket.pieces, data.Length)
    requires Positioned(stream, at, data[..len0], socket.pieces, cuts) && RegularLine(stream, at, cuts)
    modifies parser, data, socket
    ensures ok == WholeChunk(stream, at)
    ensures ok ==> payload == Payload(stream, at)
    ensures ok ==> (parser.chunksDone <==> ParseLine(stream[at..]).size == 0)
    ensures ok ==> len < data.Length && Below(socket.pieces, data.Length)
    ensures ok ==> Positioned(stream, ChunkEnd(stream, at), data[..len], socket.pieces, cuts)
  {
    payload := [];
    ok, len := ReadLine(parser, data, len0, socket, stream, at, cuts);
    if ok {
      ghost var n: nat := ParseLine(stream[at..]).n;
      ok, payload, len := TakeBody(data, len, parser.contentLen, socket, stream, at, n, cuts);
    }
  }

  /** The chunk branch of recvResponse: for every way the stream is split, the result is what the stream means. */
  method RecvChunks(parser: ChunkParser, data: array<u8>, lastSize: nat, socket: Socket, ghost cuts: set<nat>)
    returns (result: Option<seq<u8>>)
    requires lastSize < data.Length && Pieces(socket.pieces) && Below(socket.pieces, data.Length)
    requires Cuts(socket.pieces, lastSize) <= cuts && (lastSize > 0 ==> lastSize in cuts)
    requires Regular(data[..lastSize] + Flat(socket.pieces), 0, cuts)
    modifies parser, data, socket
    ensures result == Decode(old(data[..lastSize] + Flat(socket.pieces)), 0)
  {
    ghost var stream := data[..lastSize] + Flat(socket.pieces);
    ghost var at: nat := 0;
    var body: seq<u8> := [];
    var len: nat := lastSize;
    PrependNothing(Decode(stream, 0));
    while true
      invariant at <= |stream| && len < data.Length && Below(socket.pieces, data.Length)
      invariant Positioned(stream, at, data[..len], socket.pieces, cuts) && Regular(stream, at, cuts)
      invariant Decode(stream, 0) == Prepend(body, Decode(stream, at))
      decreases |stream| - at
    {
      DecodeChunk(stream, at, cuts, body);
      var ok, payload;
      ok, payload, len := TakeChunk(parser, data, len, socket, stream, at, cuts);
      if !ok {
        return None;
      }
      body := body + payload;
      at := ChunkEnd(stream, at);
      if parser.chunksDone {
        return Some(body);
      }
    }
  }

  lemma PrependNothing(rest: Option<seq<u8>>)
    ensures Prepend([], rest) == rest
  {
    if rest.Some? {
      assert [] + rest.value == rest.value;
    }
  }
}
