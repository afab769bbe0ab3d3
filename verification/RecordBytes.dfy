/** What the bytes of a record are, one by one, told by arithmetic alone. */
module RecordBytes {
  import opened Bits
  import opened Endians
  import opened Records
  import Varint
  import Zigzag

  /** Digit k of x in base 2^b; x may be negative, which is two's complement. */
  function DigitOf(x: int, b: nat, k: nat): nat {
    (x / Pow2(b * k)) % Pow2(b)
  }

  lemma DigitAhead(x: int, b: nat, k: nat)
    requires k > 0
    ensures DigitOf(x, b, k) == DigitOf(x / Pow2(b), b, k - 1)
  {
    assert b * k == b + b * (k - 1);
    Pow2Add(b, b * (k - 1));
    DivTwice(x, Pow2(b), Pow2(b * (k - 1)));
  }

  lemma FirstDigit(x: int, b: nat)
    ensures DigitOf(x, b, 0) == x % Pow2(b)
  {
    assert b * 0 == 0 && Pow2(0) == 1;
  }

  /** The little-endian layout has the low digit first, */
  lemma {:induction false} LittleDigits(n: nat, v: nat, k: nat)
    requires k < n
    ensures Layout(Little, n, v)[k] == DigitOf(v, 8, k)
    decreases k
  {
    assert Pow2(8) == 256;
    if k == 0 {
      FirstDigit(v, 8);
    } else {
      DigitAhead(v, 8, k);
      LittleDigits(n - 1, v / 256, k - 1);
      assert Layout(Little, n, v)[k] == Layout(Little, n - 1, v / 256)[k - 1];
    }
  }

  /** the big-endian one last. */
  lemma {:induction false} BigDigits(n: nat, v: nat, k: nat)
    requires k < n
    ensures Layout(Big, n, v)[n - 1 - k] == DigitOf(v, 8, k)
    decreases k
  {
    assert Pow2(8) == 256;
    if k == 0 {
      FirstDigit(v, 8);
    } else {
      DigitAhead(v, 8, k);
      BigDigits(n - 1, v / 256, k - 1);
      assert Layout(Big, n, v)[n - 1 - k] == Layout(Big, n - 1, v / 256)[n - 1 - k];
    }
  }

  /** A multiple of b goes through division by b, */
  lemma DivShift(m: int, r: int, b: nat)
    requires b > 0
    ensures (m * b + r) / b == m + r / b
  {
    Euclid(r, b);
    assert (m + r / b) * b == m * b + (r / b) * b;
    DivModUnique(m * b + r, m + r / b, r % b, b);
  }

  /** and disappears in the remainder. */
  lemma ModShift(m: int, r: int, b: nat)
    requires b > 0
    ensures (m * b + r) % b == r % b
  {
    Euclid(r, b);
    assert (m + r / b) * b == m * b + (r / b) * b;
    DivModUnique(m * b + r, m + r / b, r % b, b);
  }

  lemma Regrouped(q: int, low: nat, one: nat, high: nat)
    ensures q * (low * (one * high)) == ((q * high) * one) * low
  {
    assert q * (low * (one * high)) == (q * (one * high)) * low;
    assert q * (one * high) == (q * high) * one;
  }

  lemma QuotientDrops(q: int, r: int, low: nat, one: nat, high: nat)
    requires low > 0 && one > 0
    ensures ((q * (low * (one * high)) + r) / low) % one == (r / low) % one
  {
    Regrouped(q, low, one, high);
    DivShift((q * high) * one, r, low);
    ModShift(q * high, r / low, one);
  }

  lemma CutProduct(x: int, low: nat, one: nat, high: nat)
    requires low > 0 && one > 0 && low * (one * high) > 0
    ensures ((x % (low * (one * high))) / low) % one == (x / low) % one
  {
    var w: nat := low * (one * high);
    Euclid(x, w);
    QuotientDrops(x / w, x % w, low, one, high);
  }

  /** Cutting a number to w bits leaves its digits below. */
  lemma CutDigits(w: nat, x: int, b: nat, k: nat)
    requires b * k + b <= w
    ensures DigitOf(Wrap(w, x), b, k) == DigitOf(x, b, k)
  {
    var high: nat := w - b * k - b;
    Pow2Add(b, high);
    Pow2Add(b * k, b + high);
    CutProduct(x, Pow2(b * k), Pow2(b), Pow2(high));
  }

  /** A fixed-width number lies in two's complement, the low byte first or last as the order says. */
  lemma FixedBytes(e: Endian, r: Record, k: nat)
    requires r.format.Fixed? && k < r.format.width
    ensures var n: nat := r.format.width; var s := Encode(e, r);
      |s| == n && s[if e == Little then k else n - 1 - k] == DigitOf(r.item.v, 8, k)
  {
    var n: nat, v := r.format.width, r.item.v;
    LittleDigits(n, Wrap(8 * n, v), k);
    BigDigits(n, Wrap(8 * n, v), k);
    CutDigits(8 * n, v, 8, k);
  }

  /** A varint is the base-128 digits, low one first, with 128 added to all but the last. */
  lemma {:induction false} VarintBytes(v: nat, k: nat)
    requires k < |Varint.Bytes(v)|
    ensures Varint.Bytes(v)[k] == DigitOf(v, 7, k) + if k + 1 < |Varint.Bytes(v)| then 128 else 0
    decreases k
  {
    assert Pow2(7) == 128;
    if k == 0 {
      FirstDigit(v, 7);
    } else {
      DigitAhead(v, 7, k);
      VarintBytes(v / 128, k - 1);
      assert Varint.Bytes(v)[k] == Varint.Bytes(v / 128)[k - 1];
    }
  }

  /** A packed signed number is the varint of 2v or of -2v-1, a packed unsigned one that of itself. */
  lemma PackedBytes(e: Endian, r: Record)
    requires r.format.Packed?
    ensures var v := r.item.v;
      if r.format.signed then Encode(e, r) == Varint.Bytes(if v < 0 then -2 * v - 1 else 2 * v)
      else v >= 0 && Encode(e, r) == Varint.Bytes(v)
  {
    if r.format.signed {
      Zigzag.EncodeMeaning(8 * r.format.width, r.item.v);
    }
  }

  /** A string is its length, as the bytes of a fixed-width number or a varint, and its characters. */
  lemma TextBytes(e: Endian, r: Record)
    requires WellFormed(r) && r.item.Chars?
    ensures var s := r.item.s; var prefix := Prefix(e, r.format, |s|);
      && Encode(e, r) == prefix + s
      && (r.format.CompactText? ==> prefix == Varint.Bytes(|s|))
      && (r.format.FixedText? ==>
            && |prefix| == r.format.width
            && forall k: nat :: k < r.format.width ==>
                 prefix[if e == Little then k else |prefix| - 1 - k] == DigitOf(|s|, 8, k))
  {
    var length := |r.item.s|;
    if r.format.FixedText? {
      var n: nat := r.format.width;
      Zigzag.WrapSmall(8 * n, length);
      forall k: nat | k < n
        ensures Layout(Little, n, length)[k] == DigitOf(length, 8, k) == Layout(Big, n, length)[n - 1 - k]
      {
        LittleDigits(n, length, k);
        BigDigits(n, length, k);
      }
    } else {
      Zigzag.WrapSmall(64, length);
    }
  }
}
