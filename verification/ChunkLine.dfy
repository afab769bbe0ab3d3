/** The line that starts a chunk, "size [; extension]* CRLF" (section 7.1 of RFC 9112), as the
    Chunked_Header machine accepts it, and the parser object that runs the machine over a buffer.
 */
module ChunkLines {
  import opened Bits

  const LF: u8 := 10
  const CR: u8 := 13
  const SEMICOLON: u8 := 59
  const EQUALS: u8 := 61

  /** Where the machine is. Foreign: the first byte starts a status line, which is another grammar. */
  datatype Phase = Begin | Size | NameStart | Name | ValueStart | Value | AfterCr | Done | Failed | Foreign

  predicate Stopped(p: Phase) {
    p == Done || p == Failed || p == Foreign
  }

  predicate IsHex(c: u8) {
    48 <= c <= 57 || 65 <= c <= 70 || 97 <= c <= 102
  }

  function Digit(c: u8): nat
    requires IsHex(c)
  {
    if c <= 57 then c - 48 else if c <= 70 then c - 55 else c - 87
  }

  /** token: printable ASCII but for the separators ( ) < > @ , ; : \ " / [ ] ? = { } and space. */
  predicate IsToken(c: u8) {
    32 < c < 127 && c !in {40, 41, 60, 62, 64, 44, 59, 58, 92, 34, 47, 91, 93, 63, 61, 123, 125}
  }

  function LineEnd(c: u8): Phase {
    if c == CR then AfterCr else if c == LF then Done else Failed
  }

  function Next(p: Phase, c: u8): Phase {
    match p
    case Begin => if IsHex(c) then Size else if c == 72 then Foreign else Failed
    case Size => if IsHex(c) then Size else if c == SEMICOLON then NameStart else LineEnd(c)
    case NameStart => if IsToken(c) then Name else Failed
    case Name =>
      if IsToken(c) then Name else if c == EQUALS then ValueStart
      else if c == SEMICOLON then NameStart else LineEnd(c)
    case ValueStart => if IsToken(c) then Value else Failed
    case Value => if IsToken(c) then Value else if c == SEMICOLON then NameStart else LineEnd(c)
    case AfterCr => if c == LF then Done else Failed
    case _ => p
  }

  /** Where the machine is after n bytes. */
  function PhaseAt(s: seq<u8>, n: nat): Phase
    requires n <= |s|
  {
    if n == 0 then Begin else Next(PhaseAt(s, n - 1), s[n - 1])
  }

  /** How many bytes it takes, from the n-th on, for the machine to stop; all if it does not. */
  function Extent(s: seq<u8>, n: nat): (m: nat)
    requires n <= |s|
    ensures n <= m <= |s|
    ensures forall i :: n <= i < m ==> !Stopped(PhaseAt(s, i))
    ensures m < |s| ==> Stopped(PhaseAt(s, m))
    decreases |s| - n
  {
    if n == |s| || Stopped(PhaseAt(s, n)) then n else Extent(s, n + 1)
  }

  /** The number of hexadecimal digits from the n-th byte on. */
  function Digits(s: seq<u8>, n: nat): (d: nat)
    requires n <= |s|
    ensures n <= d <= |s| && forall i :: n <= i < d ==> IsHex(s[i])
    ensures d < |s| ==> !IsHex(s[d])
    decreases |s| - n
  {
    if n == |s| || !IsHex(s[n]) then n else Digits(s, n + 1)
  }

  function HexValue(digits: seq<u8>): nat
    requires forall i :: 0 <= i < |digits| ==> IsHex(digits[i])
  {
    if digits == [] then 0 else 16 * HexValue(digits[..|digits| - 1]) + Digit(digits[|digits| - 1])
  }

  /** What the start of a stream is. Every case says how many bytes decide it. */
  datatype Line = Line(size: nat, n: nat) | Bad(n: nat) | Incomplete(n: nat) | Other(n: nat)

  function ParseLine(s: seq<u8>): (line: Line)
    ensures line.n <= |s| && (line.Line? || line.Bad? ==> line.n > 0)
  {
    var n := Extent(s, 0);
    match PhaseAt(s, n)
    case Done => Line(HexValue(s[..Digits(s, 0)]), n)
    case Failed => Bad(n)
    case Foreign => Other(n)
    case _ => Incomplete(n)
  }

  /** How many bytes the machine takes: it stands still at a byte it refuses. */
  function Consumed(line: Line): int {
    if line.Bad? then line.n - 1 else line.n
  }

  // ---- What lies behind the deciding bytes does not matter ----

  lemma {:induction false} PhaseOfPrefix(s: seq<u8>, m: nat, n: nat)
    requires n <= m <= |s|
    ensures PhaseAt(s[..m], n) == PhaseAt(s, n)
  {
    if n > 0 {
      PhaseOfPrefix(s, m, n - 1);
    }
  }

  lemma {:induction false} ExtentOfPrefix(s: seq<u8>, m: nat, n: nat)
    requires n <= m <= |s| && Extent(s, n) <= m
    ensures Extent(s[..m], n) == Extent(s, n)
    decreases |s| - n
  {
    PhaseOfPrefix(s, m, n);
    if n < |s| && !Stopped(PhaseAt(s, n)) {
      ExtentOfPrefix(s, m, n + 1);
    }
  }

  /** While the machine has not left the size, it has seen digits only. */
  lemma {:induction false} SizeIsDigits(s: seq<u8>, n: nat)
    requires n <= |s|
    ensures PhaseAt(s, n) == Begin <==> n == 0
    ensures PhaseAt(s, n) == Size ==> forall i :: 0 <= i < n ==> IsHex(s[i])
  {
    if n > 0 {
      SizeIsDigits(s, n - 1);
    }
  }

  lemma {:induction false} DigitsOfPrefix(s: seq<u8>, m: nat, n: nat)
    requires n <= m <= |s| && Digits(s, n) < m
    ensures Digits(s[..m], n) == Digits(s, n)
    decreases |s| - n
  {
    if n < |s| && IsHex(s[n]) {
      DigitsOfPrefix(s, m, n + 1);
    }
  }

  /** Digits come first: the size ends where the digits do. */
  lemma {:induction false} DigitsFirst(s: seq<u8>, n: nat)
    requires n <= |s| && forall i :: 0 <= i < n ==> IsHex(s[i])
    ensures PhaseAt(s, n) == if n == 0 then Begin else Size
  {
    if n > 0 {
      DigitsFirst(s, n - 1);
    }
  }

  lemma DigitsInside(s: seq<u8>)
    requires PhaseAt(s, Extent(s, 0)) == Done
    ensures Digits(s, 0) < Extent(s, 0)
  {
    var d := Digits(s, 0);
    DigitsFirst(s, d);
    if Extent(s, 0) <= d {
      DigitsFirst(s, Extent(s, 0));
    }
  }

  /** A buffer that holds the deciding bytes is read as the whole stream would be. */
  lemma LineOfPrefix(s: seq<u8>, m: nat)
    requires ParseLine(s).n <= m <= |s|
    ensures ParseLine(s[..m]) == if ParseLine(s).Incomplete? then Incomplete(m) else ParseLine(s)
  {
    var n := Extent(s, 0);
    ExtentOfPrefix(s, m, 0);
    PhaseOfPrefix(s, m, n);
    if PhaseAt(s, n) == Done {
      DigitsInside(s);
      DigitsOfPrefix(s, m, 0);
      assert s[..m][..Digits(s, 0)] == s[..Digits(s, 0)];
    }
  }

  // ---- content_len ----

  const LONG_MAX: nat := 0x7fff_ffff_ffff_ffff

  /** strtol, which stops at the largest long, assigned to an int. */
  function ContentLen(value: nat): int {
    ToSigned(32, Wrap(32, if value > LONG_MAX then LONG_MAX else value))
  }

  /** content_len is the chunk's size exactly for the sizes below 2^31. */
  lemma ContentLenIsRight(value: nat)
    ensures ContentLen(value) == value <==> value < 0x8000_0000
    ensures value < 0x8000_0000 ==> ContentLen(value) >= 0
  {
    Pow2Of32();
  }

  /** Other sizes leave their low 32 bits, as a signed number; beyond the largest long that is -1. */
  lemma ContentLenOtherwise(value: nat)
    ensures value < 0x8000_0000_0000_0000 ==>
      -0x8000_0000 <= ContentLen(value) < 0x8000_0000 && (ContentLen(value) - value) % 0x1_0000_0000 == 0
    ensures value >= 0x8000_0000_0000_0000 ==> ContentLen(value) == -1
  {
    Pow2Of32();
  }

  lemma Pow2Of32()
    ensures Pow2(32) == 0x1_0000_0000 && Pow2(31) == 0x8000_0000
  {
    assert Pow2(8) == 256;
    Pow2Add(8, 8);
    Pow2Add(16, 16);
    assert Pow2(32) == 2 * Pow2(31);
  }

  // ---- The parser object ----

  /** memmove(data, data + from, len - from) */
  method Shift(data: array<u8>, from: nat, len: nat)
    requires from <= len <= data.Length
    modifies data
    ensures data[..len - from] == old(data[from..len])
  {
    var i := 0;
    while i < len - from
      invariant 0 <= i <= len - from
      invariant forall j :: 0 <= j < i ==> data[j] == old(data[from + j])
      invariant forall j :: i <= j < data.Length ==> data[j] == old(data[j])
    {
      data[i] := data[from + i];
      i := i + 1;
    }
  }

  class ChunkParser {
    var phase: Phase      // cs
    var contentLen: int   // content_len
    var chunksDone: bool  // chunks_done

    constructor ()
      ensures phase == Begin && contentLen == -1 && !chunksDone
    {
      phase, contentLen, chunksDone := Begin, -1, false;
    }

    method Init()
      modifies this
      ensures phase == Begin && contentLen == -1 && !chunksDone
    {
      phase, contentLen, chunksDone := Begin, -1, false;
    }

    predicate IsFinished()
      reads this
    {
      phase == Done
    }

    predicate HasError()
      reads this
    {
      phase == Failed
    }

    /** Past the digits, content_len holds their value. */
    ghost predicate Taken(s: seq<u8>, n: nat)
      reads this
    {
      n > Digits(s, 0) && phase != Failed && phase != Foreign ==>
        contentLen == ContentLen(HexValue(s[..Digits(s, 0)])) && (chunksDone <==> contentLen <= 0)
    }

    /** One byte of the machine; the size is taken when it leaves the digits. */
    method Feed(data: array<u8>, n: nat, ghost s: seq<u8>)
      requires n < |s| <= data.Length && data[..|s|] == s
      requires phase == PhaseAt(s, n) && !Stopped(phase) && Taken(s, n)
      modifies this
      ensures phase == PhaseAt(s, n + 1) && Taken(s, n + 1)
    {
      SizeEnds(s, n);
      SizeIsDigits(s, n);
      var next := Next(phase, data[n]);
      if phase == Size && next != Size && next != Failed {
        assert data[..n] == s[..n];
        contentLen := ContentLen(HexValue(data[..n]));
        chunksDone := contentLen <= 0;
      }
      phase := next;
    }

    /** The machine over the buffer, up to and with the byte that stops it. */
    method Scan(data: array<u8>, len: nat) returns (n: nat)
      requires len <= data.Length && phase == Begin
      modifies this
      ensures n == Extent(data[..len], 0) && phase == PhaseAt(data[..len], n) && Taken(data[..len], n)
    {
      ghost var s := data[..len];
      n := 0;
      while n < len && !Stopped(phase)
        invariant n <= len && phase == PhaseAt(s, n) && Taken(s, n) && GoesOn(s, n)
      {
        StepsOn(s, n);
        Feed(data, n, s);
        n := n + 1;
      }
      ExtentIs(s, 0, n);
    }

    /** execute() in chunk mode: start afresh, run the machine, move what it did not take to the front. */
    method Execute(data: array<u8>, len: nat) returns (nparse: nat)
      requires len <= data.Length
      modifies this, data
      ensures var line := ParseLine(old(data[..len]));
        && nparse == Consumed(line)
        && data[..len - nparse] == old(data[nparse..len])
        && (IsFinished() <==> line.Line?) && (HasError() <==> line.Bad?)
        && (line.Line? ==> contentLen == ContentLen(line.size) && (chunksDone <==> contentLen <= 0))
    {
      Init();
      nparse := Scan(data, len);
      if phase == Done {
        DigitsInside(data[..len]);
      } else if phase == Failed {
        nparse := nparse - 1;  // the byte refused is not consumed
      }
      Shift(data, nparse, len);
    }
  }

  /** Where the size phase ends, the digits end. */
  lemma SizeEnds(s: seq<u8>, n: nat)
    requires n < |s|
    ensures PhaseAt(s, n) == Size && !IsHex(s[n]) ==> Digits(s, 0) == n
    ensures Digits(s, 0) == n ==> PhaseAt(s, n) == Size || n == 0
    ensures PhaseAt(s, n) == Size && IsHex(s[n]) ==> n + 1 <= Digits(s, 0)
    ensures PhaseAt(s, n) == Begin ==> n <= Digits(s, 0)
  {
    SizeIsDigits(s, n);
    var d := Digits(s, 0);
    if d == n {
      DigitsFirst(s, n);
    }
    assert d < n ==> !IsHex(s[d]);
  }

  /** The machine has not stopped before n. */
  ghost predicate GoesOn(s: seq<u8>, n: nat) {
    n <= |s| && forall i :: 0 <= i < n ==> !Stopped(PhaseAt(s, i))
  }

  lemma StepsOn(s: seq<u8>, n: nat)
    requires n < |s| && GoesOn(s, n) && !Stopped(PhaseAt(s, n))
    ensures GoesOn(s, n + 1)
  {
  }

  lemma {:induction false} ExtentIs(s: seq<u8>, n: nat, m: nat)
    requires n <= m <= |s| && (forall i :: n <= i < m ==> !Stopped(PhaseAt(s, i)))
    requires m < |s| ==> Stopped(PhaseAt(s, m))
    ensures Extent(s, n) == m
    decreases m - n
  {
    if n < m {
      ExtentIs(s, n + 1, m);
    }
  }
}
