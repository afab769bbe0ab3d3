/** Chunked streams as a sender writes them, and the proof that decoding gives the payloads back. */
module ChunkEncoding {
  import opened Bits
  import opened Blocks
  import opened ChunkLines
  import opened Chunked
  import opened Options
  import opened Sockets

  /** A chunk: its line, with whatever extensions the sender chose, and its payload. */
  datatype Chunk = Chunk(line: seq<u8>, payload: seq<u8>)

  const CRLF: seq<u8> := [CR, LF]

  predicate LineFor(line: seq<u8>, size: nat) {
    ParseLine(line) == Line(size, |line|)
  }

  predicate WellFormed(chunks: seq<Chunk>) {
    forall i :: 0 <= i < |chunks| ==>
      0 < |chunks[i].payload| <= MAX_SIZE && LineFor(chunks[i].line, |chunks[i].payload|)
  }

  /** The chunks, the last line (of size 0) and the empty line. */
  function Encode(chunks: seq<Chunk>, last: seq<u8>): seq<u8> {
    if chunks == [] then last + CRLF
    else chunks[0].line + chunks[0].payload + CRLF + Encode(chunks[1..], last)
  }

  function Body(chunks: seq<Chunk>): seq<u8> {
    if chunks == [] then [] else chunks[0].payload + Body(chunks[1..])
  }

  /** No read ends inside a chunk line of the stream that starts at `at`. */
  ghost predicate LinesWhole(chunks: seq<Chunk>, last: seq<u8>, at: nat, cuts: set<nat>) {
    if chunks == [] then NoneInside(cuts, at, at + |last|)
    else
      && NoneInside(cuts, at, at + |chunks[0].line|)
      && LinesWhole(chunks[1..], last, at + |chunks[0].line| + |chunks[0].payload| + 2, cuts)
  }

  /** What follows a complete line does not change it. */
  lemma LineFollowed(line: seq<u8>, size: nat, rest: seq<u8>)
    requires LineFor(line, size)
    ensures ParseLine(line + rest) == Line(size, |line|)
  {
    var s := line + rest;
    assert s[..|line|] == line;
    forall i | 0 <= i <= |line| ensures PhaseAt(s, i) == PhaseAt(line, i) {
      PhaseOfPrefix(s, |line|, i);
    }
    ExtentIs(s, 0, |line|);
    LineOfPrefix(s, |line|);
  }

  /** One chunk at the head of what is left of a stream. */
  lemma ChunkAhead(stream: seq<u8>, at: nat, c: Chunk, rest: seq<u8>)
    requires at <= |stream| && stream[at..] == c.line + c.payload + CRLF + rest && LineFor(c.line, |c.payload|)
    ensures ParseLine(stream[at..]) == Line(|c.payload|, |c.line|)
    ensures WholeChunk(stream, at) && Payload(stream, at) == c.payload
    ensures ChunkEnd(stream, at) == at + |c.line| + |c.payload| + 2 && stream[ChunkEnd(stream, at)..] == rest
  {
    var s := stream[at..];
    assert s == c.line + (c.payload + CRLF + rest);
    LineFollowed(c.line, |c.payload|, c.payload + CRLF + rest);
    var b := at + |c.line|;
    assert stream[b..b + |c.payload|] == s[|c.line|..|c.line| + |c.payload|];
    assert stream[b + |c.payload| + 2..] == s[|c.line| + |c.payload| + 2..];
  }

  lemma {:induction false} DecodeNext(stream: seq<u8>, at: nat)
    requires at <= |stream| && WholeChunk(stream, at)
    ensures Decode(stream, at) == if ParseLine(stream[at..]).size == 0 then Some([])
      else Prepend(Payload(stream, at), Decode(stream, ChunkEnd(stream, at)))
  {
  }

  lemma RegularNext(stream: seq<u8>, at: nat, cuts: set<nat>)
    requires at <= |stream| && WholeChunk(stream, at) && NoneInside(cuts, at, at + ParseLine(stream[at..]).n)
    requires ParseLine(stream[at..]).size <= MAX_SIZE
    requires ParseLine(stream[at..]).size > 0 ==> Regular(stream, ChunkEnd(stream, at), cuts)
    ensures Regular(stream, at, cuts)
  {
  }

  lemma EncodeAhead(chunks: seq<Chunk>, last: seq<u8>, tail: seq<u8>)
    ensures chunks == [] ==> Encode(chunks, last) + tail == last + [] + CRLF + tail
    ensures chunks != [] ==>
      Encode(chunks, last) + tail
      == chunks[0].line + chunks[0].payload + CRLF + (Encode(chunks[1..], last) + tail)
  {
    if chunks == [] {
      assert last + [] == last;
    }
  }

  /** Decoding inverts encoding, whatever follows. */
  lemma {:induction false} DecodeEncode(stream: seq<u8>, at: nat, chunks: seq<Chunk>, last: seq<u8>, tail: seq<u8>)
    requires WellFormed(chunks) && LineFor(last, 0)
    requires at <= |stream| && stream[at..] == Encode(chunks, last) + tail
    ensures Decode(stream, at) == Some(Body(chunks))
    decreases |chunks|
  {
    EncodeAhead(chunks, last, tail);
    if chunks == [] {
      ChunkAhead(stream, at, Chunk(last, []), tail);
      DecodeNext(stream, at);
    } else {
      ChunkAhead(stream, at, chunks[0], Encode(chunks[1..], last) + tail);
      DecodeEncode(stream, ChunkEnd(stream, at), chunks[1..], last, tail);
      DecodeNext(stream, at);
    }
  }

  /** A stream of chunks whose lines no read cuts is regular. */
  lemma {:induction false} EncodeIsRegular(stream: seq<u8>, at: nat, chunks: seq<Chunk>, last: seq<u8>,
                                           tail: seq<u8>, cuts: set<nat>)
    requires WellFormed(chunks) && LineFor(last, 0)
    requires at <= |stream| && stream[at..] == Encode(chunks, last) + tail && LinesWhole(chunks, last, at, cuts)
    ensures Regular(stream, at, cuts)
    decreases |chunks|
  {
    EncodeAhead(chunks, last, tail);
    if chunks == [] {
      ChunkAhead(stream, at, Chunk(last, []), tail);
      RegularNext(stream, at, cuts);
    } else {
      var rest := Encode(chunks[1..], last) + tail;
      assert stream[at..] == chunks[0].line + chunks[0].payload + CRLF + rest;
      ChunkAhead(stream, at, chunks[0], rest);
      EncodeIsRegular(stream, ChunkEnd(stream, at), chunks[1..], last, tail, cuts);
      RegularNext(stream, at, cuts);
    }
  }

  /** For every list of chunks and every split of their stream into reads that cuts no chunk line, the
      loop yields the payloads. */
  method RecvEncoded(parser: ChunkParser, data: array<u8>, lastSize: nat, socket: Socket,
                     ghost chunks: seq<Chunk>, ghost last: seq<u8>, ghost tail: seq<u8>)
    returns (result: Option<seq<u8>>)
    requires WellFormed(chunks) && LineFor(last, 0)
    requires lastSize < data.Length && Pieces(socket.pieces) && Below(socket.pieces, data.Length)
    requires data[..lastSize] + Flat(socket.pieces) == Encode(chunks, last) + tail
    requires LinesWhole(chunks, last, 0, Cuts(socket.pieces, lastSize) + {lastSize})
    modifies parser, data, socket
    ensures result == Some(Body(chunks))
  {
    ghost var stream := data[..lastSize] + Flat(socket.pieces);
    ghost var cuts := Cuts(socket.pieces, lastSize) + {lastSize};
    assert stream[0..] == stream;
    EncodeIsRegular(stream, 0, chunks, last, tail, cuts);
    DecodeEncode(stream, 0, chunks, last, tail);
    result := RecvChunks(parser, data, lastSize, socket, cuts);
  }

  // ---- Lines without extensions ----

  const LOWER := "0123456789abcdef"
  const UPPER := "0123456789ABCDEF"

  /** The byte is the d-th digit, in either case. */
  predicate Spells(c: u8, d: nat) {
    d < 16 && (c == LOWER[d] as int || c == UPPER[d] as int)
  }

  /** The number these digits are in base 16, the first one the most significant. */
  function Numeral(ds: seq<nat>): nat {
    if ds == [] then 0 else 16 * Numeral(ds[..|ds| - 1]) + ds[|ds| - 1]
  }

  /** The bytes spell the digits, each in either case. */
  predicate Spelling(s: seq<u8>, ds: seq<nat>) {
    |s| == |ds| > 0 && forall i :: 0 <= i < |s| ==> Spells(s[i], ds[i])
  }

  lemma SpelledDigit(c: u8, d: nat)
    requires Spells(c, d)
    ensures IsHex(c) && Digit(c) == d
  {
    assert LOWER == ['0', '1', '2', '3', '4', '5', '6', '7', '8', '9', 'a', 'b', 'c', 'd', 'e', 'f'];
    assert UPPER == ['0', '1', '2', '3', '4', '5', '6', '7', '8', '9', 'A', 'B', 'C', 'D', 'E', 'F'];
  }

  /** The bytes the machine takes for digits are those that spell one. */
  lemma HexIs(c: u8)
    ensures IsHex(c) <==> exists d: nat :: Spells(c, d)
  {
    if IsHex(c) {
      assert LOWER == ['0', '1', '2', '3', '4', '5', '6', '7', '8', '9', 'a', 'b', 'c', 'd', 'e', 'f'];
      assert UPPER == ['0', '1', '2', '3', '4', '5', '6', '7', '8', '9', 'A', 'B', 'C', 'D', 'E', 'F'];
      assert Spells(c, Digit(c));
    }
    if d: nat :| Spells(c, d) {
      SpelledDigit(c, d);
    }
  }

  /** Any spelling of a numeral has its value. */
  lemma {:induction false} SpelledValue(s: seq<u8>, ds: seq<nat>)
    requires Spelling(s, ds)
    ensures (forall i :: 0 <= i < |s| ==> IsHex(s[i])) && HexValue(s) == Numeral(ds)
  {
    var n := |s| - 1;
    forall i | 0 <= i < |s| ensures IsHex(s[i]) && Digit(s[i]) == ds[i] {
      SpelledDigit(s[i], ds[i]);
    }
    if n > 0 {
      SpelledValue(s[..n], ds[..n]);
    }
  }

  /** Every size has a numeral. */
  lemma {:induction false} EverySize(n: nat) returns (ds: seq<nat>)
    ensures ds != [] && Numeral(ds) == n && forall i :: 0 <= i < |ds| ==> ds[i] < 16
  {
    if n < 16 {
      ds := [n];
      assert [n][..0] == [];
    } else {
      var high := EverySize(n / 16);
      ds := high + [n % 16];
      assert ds[..|ds| - 1] == high;
    }
  }

  lemma {:induction false} DigitsEnd(s: seq<u8>, n: nat, d: nat)
    requires n <= d < |s| && !IsHex(s[d]) && forall i :: n <= i < d ==> IsHex(s[i])
    ensures Digits(s, n) == d
    decreases d - n
  {
    if n < d {
      DigitsEnd(s, n + 1, d);
    }
  }

  /** The plain line "size CRLF" is read as that size, whichever way its digits are spelled. */
  lemma HexLine(digits: seq<u8>, ds: seq<nat>)
    requires Spelling(digits, ds)
    ensures LineFor(digits + CRLF, Numeral(ds))
  {
    SpelledValue(digits, ds);
    var s := digits + CRLF;
    var d: nat := |digits|;
    forall i | 0 <= i <= d ensures PhaseAt(s, i) == if i == 0 then Begin else Size {
      DigitsFirst(s, i);
    }
    assert s[d] == CR && s[d + 1] == LF;
    assert PhaseAt(s, d + 1) == Next(PhaseAt(s, d), CR);
    assert PhaseAt(s, d + 2) == Next(PhaseAt(s, d + 1), LF);
    ExtentIs(s, 0, d + 2);
    DigitsEnd(s, 0, d);
    assert s[..d] == digits;
  }
}
