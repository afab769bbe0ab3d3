/** The wire format: what one typed record looks like in a ByteArray, and what a reader of a
    given format makes of the bytes it finds.
 */
module Records {
  import opened Bits
  import opened Endians
  import Varint
  import Zigzag

  type Width = n: nat | n == 1 || n == 2 || n == 4 || n == 8 witness 1

  /** Fixed: writeFint8 .. writeFuint64. Packed: writeInt32 .. writeUint64. FixedText:
      writeStringF16/F32/F64. CompactText: writeStringVint. */
  datatype Format =
    | Fixed(width: Width, signed: bool)
    | Packed(width: Width, signed: bool)
    | FixedText(width: Width)
    | CompactText

  datatype Item = Number(v: int) | Chars(s: seq<u8>)

  datatype RawRecord = Record(format: Format, item: Item)

  /** The item is of the C++ type the writer takes. */
  predicate Typed(r: RawRecord) {
    match r.format
    case Fixed(n, signed) => r.item.Number? && Fits(8 * n, signed, r.item.v)
    case Packed(n, signed) => n >= 4 && r.item.Number? && Fits(8 * n, signed, r.item.v)
    case FixedText(n) => n >= 2 && r.item.Chars?
    case CompactText => r.item.Chars?
  }

  type Record = r: RawRecord | Typed(r) witness Record(Fixed(1, false), Number(0))

  /** A string is no longer than its length prefix can say. */
  predicate WellFormed(r: Record) {
    match r.format
    case FixedText(n) => |r.item.s| < Pow2(8 * n)
    case CompactText => |r.item.s| < Pow2(64)
    case _ => true
  }

  function Unpacked(width: Width, signed: bool, v: int): nat
    requires Fits(8 * width, signed, v)
  {
    if signed then Zigzag.Encode(8 * width, v) else v
  }

  function Prefix(e: Endian, f: Format, length: nat): seq<u8> {
    if f.FixedText? then Layout(e, f.width, Wrap(8 * f.width, length)) else Varint.Bytes(Wrap(64, length))
  }

  function Encode(e: Endian, r: Record): (s: seq<u8>)
    ensures |s| > 0
  {
    match r.format
    case Fixed(n, _) => Layout(e, n, Wrap(8 * n, r.item.v))
    case Packed(n, signed) => Varint.Bytes(Unpacked(n, signed, r.item.v))
    case _ => Prefix(e, r.format, |r.item.s|) + r.item.s
  }

  function FixedNumber(e: Endian, n: Width, s: seq<u8>): (r: Varint.Parsed<nat>)
    ensures r.used <= |s|
  {
    if |s| < n then Varint.Short(0) else Varint.Parsed(Load(e, s[..n]), n)
  }

  function LengthPrefix(e: Endian, f: Format, s: seq<u8>): (r: Varint.Parsed<nat>)
    ensures r.used <= |s|
  {
    if f.FixedText? then FixedNumber(e, f.width, s) else Varint.Read(64, 0, s)
  }

  /** A reader that runs out has used up what Short says. */
  function Decode(e: Endian, f: Format, s: seq<u8>): (r: Varint.Parsed<Item>)
    ensures r.used <= |s|
  {
    match f
    case Fixed(n, signed) =>
      (match FixedNumber(e, n, s)
       case Short(k) => Varint.Short(k)
       case Parsed(u, k) => Varint.Parsed(Number(if signed then ToSigned(8 * n, u) else u), k))
    case Packed(n, signed) =>
      (match Varint.Read(8 * n, 0, s)
       case Short(k) => Varint.Short(k)
       case Parsed(u, k) => Varint.Parsed(Number(if signed then Zigzag.Decode(8 * n, u) else u), k))
    case _ =>
      (match LengthPrefix(e, f, s)
       case Short(k) => Varint.Short(k)
       case Parsed(length, k) =>
         if |s| - k < length then Varint.Short(k)
         else Varint.Parsed(Chars(s[k..k + length]), k + length))
  }

  lemma SignedBits(w: nat, v: int)
    requires w > 0 && Fits(w, true, v)
    ensures ToSigned(w, Wrap(w, v)) == v
  {
    if v < 0 {
      DivModUnique(v, -1, v + Pow2(w), Pow2(w));
    } else {
      Zigzag.WrapSmall(w, v);
    }
  }

  lemma FixedRoundTrip(e: Endian, r: Record, rest: seq<u8>)
    requires r.format.Fixed?
    ensures Decode(e, r.format, Encode(e, r) + rest) == Varint.Parsed(r.item, |Encode(e, r)|)
  {
    var n: nat, v := r.format.width, r.item.v;
    var bits := Wrap(8 * n, v);
    assert (Encode(e, r) + rest)[..n] == Layout(e, n, bits);
    LoadLayout(e, n, bits);
    if r.format.signed {
      SignedBits(8 * n, v);
    } else {
      Zigzag.WrapSmall(8 * n, v);
    }
  }

  lemma PackedRoundTrip(e: Endian, r: Record, rest: seq<u8>)
    requires r.format.Packed?
    ensures Decode(e, r.format, Encode(e, r) + rest) == Varint.Parsed(r.item, |Encode(e, r)|)
  {
    var n: nat, v := r.format.width, r.item.v;
    var u := Unpacked(n, r.format.signed, v);
    if r.format.signed {
      Zigzag.EncodeMeaning(8 * n, v);
      Zigzag.DecodeEncode(8 * n, v);
    }
    assert Pow2(0) == 1;
    Varint.ReadsBack(8 * n, 0, u, rest);
  }

  lemma TextRoundTrip(e: Endian, r: Record, rest: seq<u8>)
    requires WellFormed(r) && r.item.Chars?
    ensures Decode(e, r.format, Encode(e, r) + rest) == Varint.Parsed(r.item, |Encode(e, r)|)
  {
    var prefix := Prefix(e, r.format, |r.item.s|);
    PrefixRoundTrip(e, r, r.item.s + rest);
    var s := Encode(e, r) + rest;
    assert s == prefix + (r.item.s + rest);
    assert s[|prefix|..|prefix| + |r.item.s|] == r.item.s;
  }

  /** The matching reader gets the item back and uses exactly its bytes, whatever follows. */
  lemma RoundTrip(e: Endian, r: Record, rest: seq<u8>)
    requires WellFormed(r)
    ensures Decode(e, r.format, Encode(e, r) + rest) == Varint.Parsed(r.item, |Encode(e, r)|)
  {
    match r.format
    case Fixed(_, _) => FixedRoundTrip(e, r, rest);
    case Packed(_, _) => PackedRoundTrip(e, r, rest);
    case _ => TextRoundTrip(e, r, rest);
  }

  lemma FixedPrefix(e: Endian, n: Width, length: nat, rest: seq<u8>)
    requires length < Pow2(8 * n)
    ensures LengthPrefix(e, FixedText(n), Prefix(e, FixedText(n), length) + rest) == Varint.Parsed(length, n)
    ensures |Prefix(e, FixedText(n), length)| == n
  {
    Zigzag.WrapSmall(8 * n, length);
    LoadLayout(e, n, length);
    var prefix := Prefix(e, FixedText(n), length);
    assert (prefix + rest)[..n] == prefix;
  }

  lemma CompactPrefix(e: Endian, length: nat, rest: seq<u8>)
    requires length < Pow2(64)
    ensures LengthPrefix(e, CompactText, Prefix(e, CompactText, length) + rest)
            == Varint.Parsed(length, |Prefix(e, CompactText, length)|)
  {
    assert Pow2(0) == 1;
    Zigzag.WrapSmall(64, length);
    Varint.ReadsBack(64, 0, length, rest);
  }

  lemma PrefixRoundTrip(e: Endian, r: Record, rest: seq<u8>)
    requires WellFormed(r) && r.item.Chars?
    ensures LengthPrefix(e, r.format, Prefix(e, r.format, |r.item.s|) + rest)
            == Varint.Parsed(|r.item.s|, |Prefix(e, r.format, |r.item.s|)|)
  {
    match r.format
    case FixedText(n) => FixedPrefix(e, n, |r.item.s|, rest);
    case CompactText => CompactPrefix(e, |r.item.s|, rest);
  }

  function EncodeAll(e: Endian, rs: seq<Record>): seq<u8> {
    if rs == [] then [] else Encode(e, rs[0]) + EncodeAll(e, rs[1..])
  }

  lemma {:induction false} EncodeOneMore(e: Endian, rs: seq<Record>, r: Record)
    ensures EncodeAll(e, rs + [r]) == EncodeAll(e, rs) + Encode(e, r)
  {
    if rs == [] {
      assert rs + [r] == [r] && [r][1..] == [];
    } else {
      EncodeOneMore(e, rs[1..], r);
      assert (rs + [r])[1..] == rs[1..] + [r];
      Associative(Encode(e, rs[0]), EncodeAll(e, rs[1..]), Encode(e, r));
    }
  }

  lemma Associative(a: seq<u8>, b: seq<u8>, c: seq<u8>)
    ensures a + (b + c) == (a + b) + c
  {
  }
}
