/** The zigzag mapping of signed onto unsigned integers, as the code computes it: by
    wrapping arithmetic one way and by shift and xor the other.
 */
module Zigzag {
  import opened Bits

  /** The cast of -v to unsigned wraps, so the minimum value is its own negation. */
  function Encode(w: nat, v: int): nat {
    if v < 0 then Wrap(w, Wrap(w, -v) * 2 - 1) else Wrap(w, v * 2)
  }

  function Decode(w: nat, u: nat): int
    requires w > 0
  {
    ToSigned(w, Xor(u / 2, Wrap(w, -(And(u, 1) as int))))
  }

  lemma WrapSmall(w: nat, x: int)
    requires 0 <= x < Pow2(w)
    ensures Wrap(w, x) == x
  {
    DivModUnique(x, 0, x, Pow2(w));
  }

  /** Doubling as the encoder does it, cast and all. */
  lemma NegativeMeaning(w: nat, v: int)
    requires w > 0 && -(Pow2(w - 1) as int) <= v < 0
    ensures Wrap(w, Wrap(w, -v) * 2 - 1) == -2 * v - 1
  {
    var p := Pow2(w - 1);
    assert Pow2(w) == 2 * p;
    WrapSmall(w, -v);
    WrapSmall(w, -2 * v - 1);
  }

  /** The minimum value included: nothing is lost to wrapping. */
  lemma EncodeMeaning(w: nat, v: int)
    requires w > 0 && Fits(w, true, v)
    ensures Encode(w, v) == (if v < 0 then -2 * v - 1 else 2 * v) < Pow2(w)
  {
    if v < 0 {
      NegativeMeaning(w, v);
    } else {
      WrapSmall(w, 2 * v);
    }
  }

  /** The decoder's mask -(u & 1) is a word of zeros or of ones. */
  lemma MaskMeaning(w: nat, u: nat)
    requires w > 0
    ensures Wrap(w, -(And(u, 1) as int)) == if u % 2 == 0 then 0 else Pow2(w) - 1
  {
    assert Pow2(1) == 2;
    AndMask(u, 1);
    if u % 2 == 0 {
      WrapSmall(w, 0);
    } else {
      DivModUnique(-1, -1, Pow2(w) - 1, Pow2(w));
    }
  }

  lemma DecodeMeaning(w: nat, u: nat)
    requires w > 0 && u < Pow2(w)
    ensures Decode(w, u) == if u % 2 == 0 then u / 2 else -(u / 2) - 1
    ensures Fits(w, true, Decode(w, u))
  {
    MaskMeaning(w, u);
    if u % 2 == 0 {
      assert Xor(u / 2, 0) == u / 2;
    } else {
      XorOnes(u / 2, w);
    }
  }

  /** Decoding undoes encoding over the whole signed range, */
  lemma DecodeEncode(w: nat, v: int)
    requires w > 0 && Fits(w, true, v)
    ensures Decode(w, Encode(w, v)) == v
  {
    var u := Encode(w, v);
    EncodeMeaning(w, v);
    DecodeMeaning(w, u);
  }

  /** and encoding undoes decoding over the whole unsigned range: the mapping is a bijection. */
  lemma EncodeDecode(w: nat, u: nat)
    requires w > 0 && u < Pow2(w)
    ensures Encode(w, Decode(w, u)) == u
  {
    var v := Decode(w, u);
    DecodeMeaning(w, u);
    EncodeMeaning(w, v);
  }

  /** Values that fit a signed integer of m bits are exactly those encoded below 2^m. */
  lemma SmallStaysSmall(w: nat, v: int, m: nat)
    requires 0 < m && 0 < w && Fits(w, true, v)
    ensures Fits(m, true, v) <==> Encode(w, v) < Pow2(m)
  {
    EncodeMeaning(w, v);
  }
}
