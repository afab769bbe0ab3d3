/** The typed writers and readers of ByteArray, and what they are for: a list of records written
    to a fresh buffer is read back the same.
 */
module Serializer {
  import opened Bits
  import opened Blocks
  import opened ByteArrays
  import opened Endians
  import opened Records
  import Varint
  import Zigzag

  /** bytes were written at p over contents c. */
  ghost predicate Wrote(ba: ByteArray, c: seq<u8>, p: nat, bytes: seq<u8>)
    reads ba, ba.Repr
  {
    var end := p + |bytes|;
    && ba.Valid() && ba.position == end && |c| <= |ba.Contents()| && end <= |ba.Contents()|
    && (forall i :: p <= i < end ==> ba.Contents()[i] == bytes[i - p])
    && (forall i :: 0 <= i < |c| && !(p <= i < end) ==> ba.Contents()[i] == c[i])
  }

  /** The bytes a reader has in front of it. */
  ghost function Readable(ba: ByteArray): seq<u8>
    reads ba, ba.Repr
    requires ba.Valid()
  {
    ba.Facts();
    ba.Contents()[ba.position..ba.size]
  }

  method WriteBytes(ba: ByteArray, bytes: seq<u8>)
    requires ba.Valid()
    modifies ba, ba.Repr
    ensures Wrote(ba, old(ba.Contents()), old(ba.position), bytes) && fresh(ba.Repr - old(ba.Repr))
    ensures ba.endian == old(ba.endian) && ba.size == Max(old(ba.size), ba.position)
  {
    ba.Facts();
    ghost var o := Overwrite(ba.Contents(), ba.position, bytes);
    ghost var c := ba.Contents();
    ba.Write(bytes);
    ba.Facts();
    assert forall i :: 0 <= i < |o| ==> ba.Contents()[i] == o[i];
  }

  lemma WroteMore(ba: ByteArray, c: seq<u8>, p: nat, a: seq<u8>, c': seq<u8>, b: seq<u8>)
    requires p + |a| <= |c'| && |c| <= |c'|
    requires forall i :: p <= i < p + |a| ==> c'[i] == a[i - p]
    requires forall i :: 0 <= i < |c| && !(p <= i < p + |a|) ==> c'[i] == c[i]
    requires Wrote(ba, c', p + |a|, b)
    ensures Wrote(ba, c, p, a + b)
  {
  }

  /** writeFint8 .. writeFuint64: swapped unless the wanted byte order is the host's, then copied
      out as the host has it in memory. */
  method WriteFixed(ba: ByteArray, host: Endian, n: Width, bits: nat)
    requires ba.Valid()
    modifies ba, ba.Repr
    ensures Wrote(ba, old(ba.Contents()), old(ba.position), Layout(ba.endian, n, bits))
    ensures fresh(ba.Repr - old(ba.Repr))
    ensures ba.endian == old(ba.endian) && ba.size == Max(old(ba.size), ba.position)
  {
    var value := bits;
    if n > 1 && ba.endian != host {
      value := Byteswap(n, value);
    }
    SwapWhenOrdersDiffer(host, ba.endian, n, bits);
    OneByte(host, ba.endian, bits);
    WriteBytes(ba, Layout(host, n, value));
  }

  /** A single byte lies the same way in both orders. */
  lemma OneByte(e: Endian, e': Endian, v: nat)
    ensures Layout(e, 1, v) == Layout(e', 1, v) == [v % 256]
  {
    assert LittleBytes(0, v / 256) == BigBytes(0, v / 256) == [];
  }

  /** Fills the buffer of writeUint32 (5 bytes) or writeUint64 (10). */
  method PackVarint(room: nat, v: nat) returns (bytes: seq<u8>)
    requires |Varint.Bytes(v)| <= room
    ensures bytes == Varint.Bytes(v)
  {
    var tmp := new u8[room];
    var i: nat := 0;
    var value: nat := v;
    while value >= 0x80
      invariant i + |Varint.Bytes(value)| <= room
      invariant tmp[..i] + Varint.Bytes(value) == Varint.Bytes(v)
    {
      LowGroup(value);
      ghost var before := tmp[..i];
      tmp[i] := Or(And(value, 0x7F), 0x80);
      assert tmp[..i + 1] == before + [128 + value % 128];
      assert before + Varint.Bytes(value) == before + [128 + value % 128] + Varint.Bytes(value / 128);
      i := i + 1;
      value := value / 0x80;
    }
    tmp[i] := value;
    i := i + 1;
    return tmp[..i];
  }

  method WriteVarint(ba: ByteArray, room: nat, v: nat)
    requires ba.Valid() && |Varint.Bytes(v)| <= room
    modifies ba, ba.Repr
    ensures Wrote(ba, old(ba.Contents()), old(ba.position), Varint.Bytes(v))
    ensures fresh(ba.Repr - old(ba.Repr))
    ensures ba.endian == old(ba.endian) && ba.size == Max(old(ba.size), ba.position)
  {
    var bytes := PackVarint(room, v);
    WriteBytes(ba, bytes);
  }

  lemma LowGroup(value: nat)
    ensures Or(And(value, 0x7F), 0x80) == 128 + value % 128
  {
    assert Pow2(7) == 128;
    AndMask(value, 7);
    OrDisjoint(value % 128, 1, 7);
  }

  lemma PackedFits(n: Width, signed: bool, v: int)
    requires n >= 4 && Fits(8 * n, signed, v)
    ensures |Varint.Bytes(Unpacked(n, signed, v))| <= if n == 4 then 5 else 10
  {
    if signed {
      Zigzag.EncodeMeaning(8 * n, v);
    }
    Varint.FitsBuffer(Unpacked(n, signed, v));
  }

  method WriteRecord(ba: ByteArray, host: Endian, r: Record)
    requires ba.Valid()
    modifies ba, ba.Repr
    ensures Wrote(ba, old(ba.Contents()), old(ba.position), Encode(ba.endian, r))
    ensures fresh(ba.Repr - old(ba.Repr))
    ensures ba.endian == old(ba.endian) && ba.size == Max(old(ba.size), ba.position)
  {
    match r.format {
      case Fixed(n, _) =>
        WriteFixed(ba, host, n, Wrap(8 * n, r.item.v));
      case Packed(n, signed) =>
        PackedFits(n, signed, r.item.v);
        WriteVarint(ba, if n == 4 then 5 else 10, Unpacked(n, signed, r.item.v));
      case _ =>
        WriteString(ba, host, r);
    }
  }

  method WriteLength(ba: ByteArray, host: Endian, f: Format, length: nat)
    requires ba.Valid() && (f.FixedText? || f.CompactText?)
    modifies ba, ba.Repr
    ensures Wrote(ba, old(ba.Contents()), old(ba.position), Prefix(ba.endian, f, length))
    ensures fresh(ba.Repr - old(ba.Repr))
    ensures ba.endian == old(ba.endian) && ba.size == Max(old(ba.size), ba.position)
  {
    if f.FixedText? {
      WriteFixed(ba, host, f.width, Wrap(8 * f.width, length));
    } else {
      Varint.FitsBuffer(Wrap(64, length));
      WriteVarint(ba, 10, Wrap(64, length));
    }
  }

  /** The length first, then the characters. */
  method WriteString(ba: ByteArray, host: Endian, r: Record)
    requires ba.Valid() && r.item.Chars?
    modifies ba, ba.Repr
    ensures Wrote(ba, old(ba.Contents()), old(ba.position), Encode(ba.endian, r))
    ensures fresh(ba.Repr - old(ba.Repr))
    ensures ba.endian == old(ba.endian) && ba.size == Max(old(ba.size), ba.position)
  {
    WriteLength(ba, host, r.format, |r.item.s|);
    WriteBehind(ba, r.item.s, old(ba.Contents()), old(ba.position), Prefix(ba.endian, r.format, |r.item.s|));
  }

  /** More bytes behind those just written. */
  method WriteBehind(ba: ByteArray, bytes: seq<u8>, ghost c: seq<u8>, ghost p: nat, ghost done: seq<u8>)
    requires Wrote(ba, c, p, done)
    modifies ba, ba.Repr
    ensures Wrote(ba, c, p, done + bytes) && fresh(ba.Repr - old(ba.Repr))
    ensures ba.endian == old(ba.endian) && ba.size == Max(old(ba.size), ba.position)
  {
    ghost var before := ba.Contents();
    WriteBytes(ba, bytes);
    WroteMore(ba, c, p, done, before, bytes);
  }

  /** Reads n bytes; None is the source's out_of_range. */
  method ReadBytes(ba: ByteArray, n: nat) returns (ok: bool, bytes: seq<u8>)
    requires ba.Valid() && (n > 0 || ba.position < ba.capacity)
    modifies ba`position, ba`cur, ba`at
    ensures ba.Valid()
    ensures ok <==> n <= |old(Readable(ba))|
    ensures ba.position == if ok then old(ba.position) + n else old(ba.position)
    ensures ok ==> bytes == old(Readable(ba))[..n] && Readable(ba) == old(Readable(ba))[n..]
  {
    ba.Facts();
    ghost var readable := Readable(ba);
    var buf := new u8[n];
    ok := ba.Read(buf, n);
    bytes := buf[..];
    if ok {
      assert forall i :: 0 <= i < n ==> bytes[i] == readable[i];
    }
  }

  /** readFint8 .. readFuint64, as bits. */
  method ReadFixed(ba: ByteArray, host: Endian, n: Width) returns (r: Varint.Parsed<nat>)
    requires ba.Valid()
    modifies ba`position, ba`cur, ba`at
    ensures ba.Valid() && r == FixedNumber(ba.endian, n, old(Readable(ba)))
    ensures ba.position == old(ba.position) + r.used && Readable(ba) == old(Readable(ba))[r.used..]
  {
    ghost var readable := Readable(ba);
    var ok, bytes := ReadBytes(ba, n);
    if !ok {
      return Varint.Short(0);
    }
    var v := Load(host, bytes);
    SwappedLoad(host, ba.endian, bytes);
    if ba.endian == host || n == 1 {
      return Varint.Parsed(v, n);
    } else {
      return Varint.Parsed(Byteswap(n, v), n);
    }
  }

  /** Loading in one order and swapping is loading in the other. */
  lemma SwappedLoad(host: Endian, e: Endian, s: seq<u8>)
    ensures e != host ==> Byteswap(|s|, Load(host, s)) == Load(e, s)
    ensures |s| == 1 ==> Load(host, s) == Load(e, s)
  {
    var n := |s|;
    var v := Load(e, s);
    LoadInRange(e, s);
    LayoutLoad(e, s);
    SwapReversesLayout(n, v);
    ByteswapLoad(host, n, v);
    if n == 1 {
      assert s[1..] == [] && s[..0] == [];
    }
  }

  lemma {:induction false} LayoutLoad(e: Endian, s: seq<u8>)
    ensures Layout(e, |s|, Load(e, s)) == s
    decreases |s|
  {
    if s != [] {
      LayoutLoad(e, match e case Little => s[1..] case Big => s[..|s| - 1]);
    }
  }

  lemma ByteswapLoad(host: Endian, n: nat, v: nat)
    requires v < Pow2(8 * n)
    ensures Byteswap(n, Load(host, Layout(host, n, Byteswap(n, v)))) == v
  {
    LoadLayout(host, n, Byteswap(n, v));
    SwapInvolution(n, v);
  }

  method ReadByte(ba: ByteArray, ghost readable: seq<u8>, ghost used: nat) returns (ok: bool, b: u8)
    requires ba.Valid() && used <= |readable| && Readable(ba) == readable[used..]
    modifies ba`position, ba`cur, ba`at
    ensures ba.Valid() && (ok <==> used < |readable|)
    ensures !ok ==> ba.position == old(ba.position) && Readable(ba) == readable[used..]
    ensures ok ==> ba.position == old(ba.position) + 1 && b == readable[used] && Readable(ba) == readable[used + 1..]
  {
    var bytes: seq<u8>;
    ok, bytes := ReadBytes(ba, 1);
    b := if ok then bytes[0] else 0;
  }

  /** One turn: the next byte, its group or-ed in. */
  method ReadGroup(ba: ByteArray, w: nat, i: nat, acc: nat,
                   ghost all: Varint.Parsed<nat>, ghost readable: seq<u8>, ghost used: nat)
    returns (ok: bool, b: u8, result: nat)
    requires ba.Valid() && used <= |readable| && Readable(ba) == readable[used..]
    requires i < w && acc < Pow2(i) && Continued(all, w, i, readable[used..], acc, used)
    modifies ba`position, ba`cur, ba`at
    ensures ba.Valid() && (ok <==> used < |readable|)
    ensures !ok ==> all == Varint.Short(used) && ba.position == old(ba.position) && Readable(ba) == readable[used..]
    ensures ok ==> ba.position == old(ba.position) + 1 && Readable(ba) == readable[used + 1..] && result < Pow2(i + 7)
    ensures ok && b < 0x80 ==> all == Varint.Parsed(result, used + 1)
    ensures ok && b >= 0x80 ==> Continued(all, w, i + 7, readable[used + 1..], result, used + 1)
  {
    NextByte(all, w, i, readable, acc, used);
    ok, b := ReadByte(ba, readable, used);
    result := acc;
    if ok {
      result := OrGroup(w, i, acc, b);
    }
  }

  /** readUint32 and readUint64: byte by byte until one without the top bit, or the word is full. */
  method ReadVarint(ba: ByteArray, w: nat) returns (r: Varint.Parsed<nat>)
    requires ba.Valid()
    modifies ba`position, ba`cur, ba`at
    ensures ba.Valid() && r == Varint.Read(w, 0, old(Readable(ba)))
    ensures ba.position == old(ba.position) + r.used && Readable(ba) == old(Readable(ba))[r.used..]
  {
    ghost var readable := Readable(ba);
    ghost var all := Varint.Read(w, 0, readable);
    var result: nat := 0;
    var i: nat := 0;
    var used: nat := 0;
    FirstByte(w, readable);
    while i < w
      invariant ba.Valid() && used <= |readable|
      invariant ba.position == old(ba.position) + used && Readable(ba) == readable[used..]
      invariant result < Pow2(i)
      invariant Continued(all, w, i, readable[used..], result, used)
    {
      var ok, b;
      ok, b, result := ReadGroup(ba, w, i, result, all, readable, used);
      if !ok {
        return Varint.Short(used);
      }
      used := used + 1;
      if b < 0x80 {
        return Varint.Parsed(result, used);
      }
      i := i + 7;
    }
    LastByte(all, w, i, readable[used..], result, used);
    return Varint.Parsed(result, used);
  }

  lemma FirstByte(w: nat, s: seq<u8>)
    ensures Continued(Varint.Read(w, 0, s), w, 0, s[0..], 0, 0) && s[0..] == s && Pow2(0) == 1
  {
  }

  lemma LastByte(all: Varint.Parsed<nat>, w: nat, i: nat, rest: seq<u8>, acc: nat, used: nat)
    requires Continued(all, w, i, rest, acc, used) && i >= w
    ensures all == Varint.Parsed(acc, used)
  {
  }

  /** all is what a reader makes of the whole when acc came from the used bytes before rest. */
  ghost predicate Continued(all: Varint.Parsed<nat>, w: nat, i: nat, rest: seq<u8>, acc: nat, used: nat) {
    match Varint.Read(w, i, rest)
    case Short(k) => all == Varint.Short(used + k)
    case Parsed(v, k) => all == Varint.Parsed(acc + v, used + k)
  }

  /** One turn of the reader's loop. */
  lemma NextByte(all: Varint.Parsed<nat>, w: nat, i: nat, s: seq<u8>, acc: nat, used: nat)
    requires used <= |s| && Continued(all, w, i, s[used..], acc, used) && i < w
    ensures used == |s| ==> all == Varint.Short(used)
    ensures used < |s| && s[used] < 0x80 ==> all == Varint.Parsed(acc + Varint.Group(w, i, s[used]), used + 1)
    ensures used < |s| && s[used] >= 0x80 ==>
      Continued(all, w, i + 7, s[used + 1..], acc + Varint.Group(w, i, s[used] - 128), used + 1)
  {
    if used < |s| {
      assert s[used..][1..] == s[used + 1..];
    }
  }

  /** result |= the low seven bits of b, cast to the word and shifted left by i. */
  method OrGroup(w: nat, i: nat, result: nat, b: u8) returns (r: nat)
    requires result < Pow2(i) && i < w
    ensures r == result + Varint.Group(w, i, if b < 0x80 then b else b - 128) < Pow2(i + 7)
  {
    LowBits(b);
    AddGroup(w, i, result, And(b, 0x7F));
    r := Or(result, Wrap(w, (if b < 0x80 then b else And(b, 0x7F)) * Pow2(i)));
  }

  lemma LowBits(b: u8)
    ensures And(b, 0x7F) == if b < 128 then b else b - 128
  {
    assert Pow2(7) == 128;
    AndMask(b, 7);
  }

  /** Or-ing the next group in adds it: the bits below are all the result has. */
  lemma AddGroup(w: nat, i: nat, acc: nat, bits: nat)
    requires acc < Pow2(i) && i < w && bits < 128
    ensures Or(acc, Wrap(w, bits * Pow2(i))) == acc + Varint.Group(w, i, bits) < Pow2(i + 7)
  {
    var g := Varint.GroupQuotient(w, i, bits);
    OrDisjoint(acc, g, i);
    Pow2Add(7, i);
    assert Pow2(7) == 128;
    MulAtLeast(128 - g, Pow2(i));
    assert (128 - g) * Pow2(i) == 128 * Pow2(i) - g * Pow2(i);
  }

  /** A string of length zero must not be read at full capacity: the source's read looks at the
      cursor's block all the same. */
  ghost predicate Safe(ba: ByteArray, f: Format)
    reads ba, ba.Repr
    requires ba.Valid()
  {
    var r := Decode(ba.endian, f, Readable(ba));
    r.Parsed? && r.value == Chars([]) ==> ba.position + r.used < ba.capacity
  }

  method ReadRecord(ba: ByteArray, host: Endian, f: Format) returns (r: Varint.Parsed<Item>)
    requires ba.Valid() && Safe(ba, f)
    modifies ba`position, ba`cur, ba`at
    ensures ba.Valid() && r == Decode(ba.endian, f, old(Readable(ba)))
    ensures ba.position == old(ba.position) + r.used && Readable(ba) == old(Readable(ba))[r.used..]
  {
    match f {
      case Fixed(n, signed) =>
        var x := ReadFixed(ba, host, n);
        if x.Short? {
          return Varint.Short(x.used);
        }
        return Varint.Parsed(Number(if signed then ToSigned(8 * n, x.value) else x.value), x.used);
      case Packed(n, signed) =>
        var x := ReadVarint(ba, 8 * n);
        if x.Short? {
          return Varint.Short(x.used);
        }
        return Varint.Parsed(Number(if signed then Zigzag.Decode(8 * n, x.value) else x.value), x.used);
      case _ =>
        r := ReadString(ba, host, f);
    }
  }

  method ReadLength(ba: ByteArray, host: Endian, f: Format) returns (r: Varint.Parsed<nat>)
    requires ba.Valid() && (f.FixedText? || f.CompactText?)
    modifies ba`position, ba`cur, ba`at
    ensures ba.Valid() && r == LengthPrefix(ba.endian, f, old(Readable(ba)))
    ensures ba.position == old(ba.position) + r.used && Readable(ba) == old(Readable(ba))[r.used..]
  {
    if f.FixedText? {
      r := ReadFixed(ba, host, f.width);
    } else {
      r := ReadVarint(ba, 64);
    }
  }

  lemma SliceOfRest(s: seq<u8>, k: nat, n: nat)
    requires k + n <= |s|
    ensures s[k..][..n] == s[k..k + n] && s[k..][n..] == s[k + n..]
  {
  }

  lemma TextDecode(e: Endian, f: Format, s: seq<u8>, x: Varint.Parsed<nat>)
    requires (f.FixedText? || f.CompactText?) && x == LengthPrefix(e, f, s)
    ensures x.Short? || |s| - x.used < x.value ==> Decode(e, f, s) == Varint.Short(x.used)
    ensures x.Parsed? && |s| - x.used >= x.value ==>
      Decode(e, f, s) == Varint.Parsed(Chars(s[x.used..x.used + x.value]), x.used + x.value)
    ensures x.Parsed? && x.value == 0 ==> Decode(e, f, s) == Varint.Parsed(Chars([]), x.used)
  {
    assert x.Parsed? && x.value == 0 ==> s[x.used..x.used] == [];
  }

  /** The n characters behind a prefix of used bytes, out of what was readable in front of it. */
  method ReadChars(ba: ByteArray, n: nat, used: nat, ghost readable: seq<u8>) returns (r: Varint.Parsed<Item>)
    requires ba.Valid() && used <= |readable| && Readable(ba) == readable[used..]
    requires n > 0 || ba.position < ba.capacity
    modifies ba`position, ba`cur, ba`at
    ensures ba.Valid()
    ensures r == if n > |readable| - used then Varint.Short(used)
                 else Varint.Parsed(Chars(readable[used..used + n]), used + n)
    ensures r.used <= |readable| && Readable(ba) == readable[r.used..]
    ensures ba.position + used == old(ba.position) + r.used
  {
    var ok, bytes := ReadBytes(ba, n);
    if !ok {
      return Varint.Short(used);
    }
    SliceOfRest(readable, used, n);
    return Varint.Parsed(Chars(bytes), used + n);
  }

  method ReadString(ba: ByteArray, host: Endian, f: Format) returns (r: Varint.Parsed<Item>)
    requires ba.Valid() && Safe(ba, f) && (f.FixedText? || f.CompactText?)
    modifies ba`position, ba`cur, ba`at
    ensures ba.Valid() && r == Decode(ba.endian, f, old(Readable(ba)))
    ensures ba.position == old(ba.position) + r.used && Readable(ba) == old(Readable(ba))[r.used..]
  {
    ghost var readable := Readable(ba);
    var x := ReadLength(ba, host, f);
    TextDecode(ba.endian, f, readable, x);
    assert x.Parsed? && x.value == 0 ==> ba.position < ba.capacity;
    if x.Short? {
      return Varint.Short(x.used);
    }
    r := ReadChars(ba, x.value, x.used, readable);
  }

  /** A list a run of writers and readers gets through: strings within their prefixes, and an
      empty string that comes last not filling the blocks to the brim. */
  ghost predicate Transferable(e: Endian, rs: seq<Record>, blockSize: nat)
    requires blockSize > 0
  {
    && (forall i :: 0 <= i < |rs| ==> WellFormed(rs[i]))
    && (rs != [] && rs[|rs| - 1].item == Chars([]) ==> |EncodeAll(e, rs)| % blockSize != 0)
  }

  /** The next record goes behind what was written. */
  method WriteNext(ba: ByteArray, host: Endian, r: Record, ghost c: seq<u8>, ghost done: seq<u8>)
    requires Wrote(ba, c, 0, done) && ba.position == ba.size
    modifies ba, ba.Repr
    ensures fresh(ba.Repr - old(ba.Repr)) && ba.endian == old(ba.endian)
    ensures Wrote(ba, c, 0, done + Encode(ba.endian, r)) && ba.position == ba.size
  {
    ghost var before := ba.Contents();
    WriteRecord(ba, host, r);
    WroteMore(ba, c, 0, done, before, Encode(ba.endian, r));
  }

  /** Writes all the records to a fresh buffer. */
  method WriteAll(ba: ByteArray, host: Endian, rs: seq<Record>)
    requires ba.Valid() && ba.position == 0 && ba.size == 0
    modifies ba, ba.Repr
    ensures ba.Valid() && fresh(ba.Repr - old(ba.Repr)) && ba.endian == old(ba.endian)
    ensures ba.size == ba.position && Wrote(ba, old(ba.Contents()), 0, EncodeAll(ba.endian, rs))
  {
    ghost var c := ba.Contents();
    ghost var done: seq<u8> := [];
    var i: nat := 0;
    while i < |rs|
      invariant i <= |rs| && ba.Valid() && fresh(ba.Repr - old(ba.Repr)) && ba.endian == old(ba.endian)
      invariant ba.position == ba.size && Wrote(ba, c, 0, done) && done == EncodeAll(ba.endian, rs[..i])
    {
      EncodeNext(ba.endian, rs, i);
      WriteNext(ba, host, rs[i], c, done);
      done := done + Encode(ba.endian, rs[i]);
      i := i + 1;
    }
    assert rs[..i] == rs;
  }

  lemma EncodeNext(e: Endian, rs: seq<Record>, i: nat)
    requires i < |rs|
    ensures EncodeAll(e, rs[..i + 1]) == EncodeAll(e, rs[..i]) + Encode(e, rs[i])
  {
    EncodeOneMore(e, rs[..i], rs[i]);
    assert rs[..i + 1] == rs[..i] + [rs[i]];
  }

  /** The reader stands in front of record i of a transferable list. */
  ghost predicate Before(ba: ByteArray, rs: seq<Record>, i: nat)
    reads ba, ba.Repr
  {
    && ba.Valid() && i <= |rs| && Transferable(ba.endian, rs, ba.blockSize)
    && ba.size == |EncodeAll(ba.endian, rs)|
    && Readable(ba) == EncodeAll(ba.endian, rs[i..])
  }

  /** There the matching reader finds the item, with the next record behind it, */
  lemma NextRecord(ba: ByteArray, rs: seq<Record>, i: nat)
    requires Before(ba, rs, i) && i < |rs|
    ensures Decode(ba.endian, rs[i].format, Readable(ba)) == Varint.Parsed(rs[i].item, |Encode(ba.endian, rs[i])|)
    ensures |Encode(ba.endian, rs[i])| <= |Readable(ba)| == ba.size - ba.position
    ensures Readable(ba)[|Encode(ba.endian, rs[i])|..] == EncodeAll(ba.endian, rs[i + 1..])
  {
    var e, rest := ba.endian, EncodeAll(ba.endian, rs[i + 1..]);
    assert rs[i..][1..] == rs[i + 1..];
    RoundTrip(e, rs[i], rest);
    ba.Facts();
  }

  /** and may read it: only a last, empty string could find the cursor at full capacity. */
  lemma NextIsSafe(ba: ByteArray, rs: seq<Record>, i: nat)
    requires Before(ba, rs, i) && i < |rs|
    ensures Safe(ba, rs[i].format)
  {
    NextRecord(ba, rs, i);
    if rs[i].item == Chars([]) {
      if i + 1 == |rs| {
        NotToTheBrim(ba);
        assert EncodeAll(ba.endian, rs[i + 1..]) == [];
      } else {
        assert EncodeAll(ba.endian, rs[i + 1..]) != [];
      }
    }
  }

  lemma NotToTheBrim(ba: ByteArray)
    requires ba.Valid() && ba.size % ba.blockSize != 0
    ensures ba.size < ba.capacity
  {
    TotalIsProduct(|ba.nodes|, ba.blockSize);
    if ba.size == ba.capacity {
      DivModUnique(ba.size, |ba.nodes|, 0, ba.blockSize);
    }
  }

  method ReadNext(ba: ByteArray, host: Endian, ghost rs: seq<Record>, i: nat, f: Format) returns (item: Item)
    requires Before(ba, rs, i) && i < |rs| && f == rs[i].format
    modifies ba`position, ba`cur, ba`at
    ensures Before(ba, rs, i + 1) && item == rs[i].item
  {
    NextRecord(ba, rs, i);
    NextIsSafe(ba, rs, i);
    var x := ReadRecord(ba, host, f);
    item := x.value;
  }

  /** Reads records of the given formats one after the other. */
  method ReadAll(ba: ByteArray, host: Endian, ghost rs: seq<Record>, formats: seq<Format>) returns (items: seq<Item>)
    requires Before(ba, rs, 0)
    requires |formats| == |rs| && forall i :: 0 <= i < |rs| ==> formats[i] == rs[i].format
    modifies ba`position, ba`cur, ba`at
    ensures ba.Valid() && |items| == |rs| && ItemsOf(items, rs)
    ensures ba.position == ba.size
  {
    items := [];
    var i: nat := 0;
    while i < |formats|
      invariant i <= |rs| && Before(ba, rs, i)
      invariant i == |items| && ItemsOf(items, rs)
    {
      var item := ReadNext(ba, host, rs, i, formats[i]);
      items := items + [item];
      i := i + 1;
    }
    NothingLeft(ba, rs);
  }

  /** These are the items of the first records. */
  ghost predicate ItemsOf(items: seq<Item>, rs: seq<Record>) {
    |items| <= |rs| && forall i :: 0 <= i < |items| ==> items[i] == rs[i].item
  }

  lemma NothingLeft(ba: ByteArray, rs: seq<Record>)
    requires Before(ba, rs, |rs|)
    ensures ba.position == ba.size
  {
    ba.Facts();
    assert |Readable(ba)| == ba.size - ba.position;
  }

  /** For every list of records, block size, byte order and host order: writing the list to a
      fresh buffer, moving back to 0 and reading with the matching readers gives the list back and
      leaves nothing unread. */
  method Transfer(blockSize: nat, host: Endian, order: Endian, rs: seq<Record>) returns (items: seq<Item>, left: nat)
    requires blockSize > 0 && Transferable(order, rs, blockSize)
    ensures |items| == |rs| && forall i :: 0 <= i < |rs| ==> items[i] == rs[i].item
    ensures left == 0
  {
    var ba := new ByteArray(blockSize);
    ba.endian := order;
    WriteAll(ba, host, rs);
    var ok := ba.SetPosition(0);
    assert Readable(ba) == EncodeAll(order, rs);
    items := ReadAll(ba, host, rs, seq(|rs|, i requires 0 <= i < |rs| => rs[i].format));
    left := ba.size - ba.position;
  }
}
