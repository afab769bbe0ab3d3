/** Base-128 variable-length integers: seven bits a byte, least significant group first, the
    top bit set on every byte but the last.
 */
module Varint {
  import opened Bits
  import Zigzag

  /** What a reader makes of the bytes it is given: a value and how many bytes it used, or
      how many it used up before running out. */
  datatype Parsed<+T> = Parsed(value: T, used: nat) | Short(used: nat)

  /** The encoding of v. */
  function Bytes(v: nat): (s: seq<u8>)
    ensures |s| >= 1
  {
    if v < 128 then [v] else [128 + v % 128] + Bytes(v / 128)
  }

  /** What a reader of w-bit integers finds at bit offset i of its result: the groups it
      reads, each shifted into place and cut to w bits. */
  function Read(w: nat, i: nat, s: seq<u8>): (r: Parsed<nat>)
    ensures r.used <= |s|
    decreases |s|
  {
    if i >= w then Parsed(0, 0)
    else if s == [] then Short(0)
    else if s[0] < 128 then Parsed(Group(w, i, s[0]), 1)
    else
      match Read(w, i + 7, s[1..])
      case Short(n) => Short(n + 1)
      case Parsed(v, n) => Parsed(Group(w, i, s[0] - 128) + v, n + 1)
  }

  /** Seven bits shifted left by i in a w-bit word. */
  function Group(w: nat, i: nat, bits: nat): nat {
    Wrap(w, bits * Pow2(i))
  }

  /** Reading back what was written uses exactly the bytes written, whatever follows. */
  lemma {:induction false} ReadsBack(w: nat, i: nat, v: nat, rest: seq<u8>)
    requires i < w && v < Pow2(w - i)
    ensures Read(w, i, Bytes(v) + rest) == Parsed(v * Pow2(i), |Bytes(v)|)
    decreases v
  {
    var s := Bytes(v) + rest;
    GroupInPlace(w, i, v % 128, v);
    if v >= 128 {
      assert s[0] == 128 + v % 128;
      assert s[1..] == Bytes(v / 128) + rest;
      NextGroup(w, i, v);
      ReadsBack(w, i + 7, v / 128, rest);
    }
  }

  /** What is left of a value after its low group still fits above bit i + 7. */
  lemma NextGroup(w: nat, i: nat, v: nat)
    requires i < w && 128 <= v < Pow2(w - i)
    ensures i + 7 < w && v / 128 < Pow2(w - (i + 7))
    ensures v * Pow2(i) == (v % 128) * Pow2(i) + (v / 128) * Pow2(i + 7)
  {
    assert Pow2(7) == 128;
    if w - i <= 7 {
      Pow2Monotonic(w - i, 7);
    } else {
      Pow2Add(7, w - (i + 7));
      assert 7 + (w - (i + 7)) == w - i;
    }
    Pow2Add(7, i);
    var q, r, p := v / 128, v % 128, Pow2(i);
    assert v == 128 * q + r;
    assert (128 * q + r) * p == 128 * q * p + r * p;
    assert q * (128 * p) == 128 * q * p;
  }

  /** A group of a value that fits is not cut. */
  lemma GroupInPlace(w: nat, i: nat, bits: nat, v: nat)
    requires i <= w && bits <= v < Pow2(w - i)
    ensures Group(w, i, bits) == bits * Pow2(i)
  {
    Pow2Add(w - i, i);
    MulAtLeast(Pow2(w - i) - bits, Pow2(i));
    assert (Pow2(w - i) - bits) * Pow2(i) == Pow2(w - i) * Pow2(i) - bits * Pow2(i);
    Zigzag.WrapSmall(w, bits * Pow2(i));
  }

  /** The encoding has the least number of bytes with room for the value. */
  lemma {:induction false} LengthIsLeast(v: nat, k: nat)
    requires k >= 1
    ensures |Bytes(v)| <= k <==> v < Pow2(7 * k)
    decreases k
  {
    if k == 1 {
      assert Pow2(7) == 128;
      if v >= 128 {
        assert |Bytes(v)| == 1 + |Bytes(v / 128)|;
      }
    } else {
      Pow2Add(7, 7 * (k - 1));
      assert Pow2(7) == 128;
      if v >= 128 {
        LengthIsLeast(v / 128, k - 1);
      } else {
        Pow2Monotonic(7, 7 * k);
      }
    }
  }

  /** At most five bytes for 32 bits and ten for 64, so the writers' buffers are never overrun. */
  lemma FitsBuffer(v: nat)
    ensures v < Pow2(32) ==> |Bytes(v)| <= 5
    ensures v < Pow2(64) ==> |Bytes(v)| <= 10
  {
    Pow2Monotonic(32, 35);
    Pow2Monotonic(64, 70);
    LengthIsLeast(v, 5);
    LengthIsLeast(v, 10);
  }

  /** A signed value takes at most k bytes exactly when it fits a signed integer of 7k bits. */
  lemma ZigzagLength(w: nat, v: int, k: nat)
    requires 0 < k && 0 < w && Fits(w, true, v)
    ensures |Bytes(Zigzag.Encode(w, v))| <= k <==> Fits(7 * k, true, v)
  {
    Zigzag.SmallStaysSmall(w, v, 7 * k);
    LengthIsLeast(Zigzag.Encode(w, v), k);
  }

  /** What a reader has from bit i on is a multiple of 2^i that fits in the word, so or-ing it
      onto i lower bits adds it. */
  lemma {:induction false} ReadIsShifted(w: nat, i: nat, s: seq<u8>) returns (q: nat)
    requires i <= w && Read(w, i, s).Parsed?
    ensures Read(w, i, s).value == q * Pow2(i) && q < Pow2(w - i)
    decreases |s|
  {
    q := 0;
    if i < w {
      q := GroupQuotient(w, i, if s[0] < 128 then s[0] else s[0] - 128);
      if s[0] >= 128 && i + 7 < w {
        var q' := ReadIsShifted(w, i + 7, s[1..]);
        AddGroups(w, i, q, q');
        q := q + 128 * q';
      }
    }
  }

  lemma AddGroups(w: nat, i: nat, q: nat, q': nat)
    requires i + 7 < w && q < 128 && q' < Pow2(w - (i + 7))
    ensures q + 128 * q' < Pow2(w - i)
    ensures (q + 128 * q') * Pow2(i) == q * Pow2(i) + q' * Pow2(i + 7)
  {
    assert Pow2(7) == 128;
    Pow2Add(7, i);
    Pow2Add(7, w - (i + 7));
    assert 7 + (w - (i + 7)) == w - i;
    var p := Pow2(i);
    assert (q + 128 * q') * p == q * p + 128 * q' * p;
    assert q' * (128 * p) == 128 * q' * p;
  }

  lemma GroupQuotient(w: nat, i: nat, bits: nat) returns (g: nat)
    requires i <= w
    ensures Group(w, i, bits) == g * Pow2(i) && g < Pow2(w - i) && g <= bits
  {
    Pow2Add(w - i, i);
    assert w - i + i == w;
    g := CutProduct(bits, Pow2(w - i), Pow2(i));
  }

  /** Cutting a shifted number to w bits cuts the number to w - i bits. */
  lemma CutProduct(bits: nat, m: nat, p: nat) returns (g: nat)
    requires m > 0 && p > 0
    ensures g < m && g <= bits
    ensures m * p > 0 && (bits * p) % (m * p) == g * p
  {
    var q := bits / m;
    g := bits % m;
    MulAtLeast(p, m);
    assert m * p == p * m;
    if q > 0 {
      MulAtLeast(q, m);
    }
    ScaledRemainder(bits, q, g, m, p);
  }

  lemma ScaledRemainder(bits: nat, q: nat, g: nat, m: nat, p: nat)
    requires bits == q * m + g && g < m && p > 0 && m * p > 0
    ensures (bits * p) % (m * p) == g * p
  {
    MulAtLeast(m - g, p);
    assert (m - g) * p == m * p - g * p;
    assert (q * m + g) * p == q * (m * p) + g * p;
    DivModUnique(bits * p, q, g * p, m * p);
  }
}
