/** Byte orders and the byte swaps underneath the fixed-width codec. */
module Endians {
  import opened Bits

  datatype Endian = Little | Big

  /** The n low bytes of v, least significant first. */
  function LittleBytes(n: nat, v: nat): (s: seq<u8>)
    ensures |s| == n
  {
    if n == 0 then [] else [v % 256] + LittleBytes(n - 1, v / 256)
  }

  /** The n low bytes of v, most significant first. */
  function BigBytes(n: nat, v: nat): (s: seq<u8>)
    ensures |s| == n
  {
    if n == 0 then [] else BigBytes(n - 1, v / 256) + [v % 256]
  }

  function FromLittle(s: seq<u8>): nat {
    if s == [] then 0 else s[0] + 256 * FromLittle(s[1..])
  }

  function FromBig(s: seq<u8>): nat {
    if s == [] then 0 else 256 * FromBig(s[..|s| - 1]) + s[|s| - 1]
  }

  /** How an n-byte integer lies in memory under a byte order. */
  function Layout(e: Endian, n: nat, v: nat): (s: seq<u8>)
    ensures |s| == n
  {
    match e
    case Little => LittleBytes(n, v)
    case Big => BigBytes(n, v)
  }

  /** The integer found in memory under a byte order. */
  function Load(e: Endian, s: seq<u8>): nat {
    match e
    case Little => FromLittle(s)
    case Big => FromBig(s)
  }

  lemma TopByteRange(top: u8, m: nat, low: nat)
    requires low < m
    ensures 0 <= top * m + low < 256 * m
  {
    MulAtLeast(256 - top, m);
    assert (256 - top) * m == 256 * m - top * m;
    if top > 0 {
      MulAtLeast(top, m);
    }
  }

  /** Numeric byte swap of an n-byte integer: the low byte of v becomes the top byte. */
  function Byteswap(n: nat, v: nat): (r: nat)
    ensures r < Pow2(8 * n)
  {
    if n == 0 then 0
    else
      var low := Byteswap(n - 1, v / 256);
      Pow2Add(8, 8 * (n - 1));
      TopByteRange(v % 256, Pow2(8 * (n - 1)), low);
      (v % 256) * Pow2(8 * (n - 1)) + low
  }

  function ByteswapOnLittleEndian(host: Endian, n: nat, v: nat): nat {
    if host == Big then v else Byteswap(n, v)
  }

  function ByteswapOnBigEndian(host: Endian, n: nat, v: nat): nat {
    if host == Big then Byteswap(n, v) else v
  }

  lemma {:induction false} LoadLayout(e: Endian, n: nat, v: nat)
    requires v < Pow2(8 * n)
    ensures Load(e, Layout(e, n, v)) == v
  {
    if n > 0 {
      Pow2Add(8, 8 * (n - 1));
      assert v / 256 < Pow2(8 * (n - 1));
      LoadLayout(e, n - 1, v / 256);
      assert LittleBytes(n, v)[1..] == LittleBytes(n - 1, v / 256);
      assert BigBytes(n, v)[..n - 1] == BigBytes(n - 1, v / 256);
    }
  }

  lemma {:induction false} LoadInRange(e: Endian, s: seq<u8>)
    ensures Load(e, s) < Pow2(8 * |s|)
    decreases |s|
  {
    if s != [] {
      var rest := if e == Little then s[1..] else s[..|s| - 1];
      LoadInRange(e, rest);
      assert Load(e, s) < 256 * (Load(e, rest) + 1);
      Pow2Add(8, 8 * |rest|);
    }
  }

  lemma TopByteShift(top: u8, m: nat, low: nat)
    requires low < 256 * m
    ensures var v := top * (256 * m) + low;
            v >= 0 && v % 256 == low % 256 && v / 256 == top * m + low / 256
  {
    assert top * (256 * m) == 256 * (top * m);
    TopByteRange(top, 256 * m, low);
  }

  /** Adding a new top byte appends in one order and prepends in the other. */
  lemma {:induction false} TopByte(n: nat, top: u8, low: nat, v: nat)
    requires low < Pow2(8 * n) && v == top * Pow2(8 * n) + low
    ensures LittleBytes(n + 1, v) == LittleBytes(n, low) + [top]
    ensures BigBytes(n + 1, v) == [top] + BigBytes(n, low)
    decreases n
  {
    if n == 0 {
      assert Pow2(0) == 1 && v == top;
      assert LittleBytes(1, v) == [v % 256] + LittleBytes(0, v / 256);
      assert BigBytes(1, v) == BigBytes(0, v / 256) + [v % 256];
    } else {
      Pow2Add(8, 8 * (n - 1));
      TopByteShift(top, Pow2(8 * (n - 1)), low);
      TopByte(n - 1, top, low / 256, v / 256);
      TopByteStep(n, top, low, v);
    }
  }

  lemma TopByteStep(n: nat, top: u8, low: nat, v: nat)
    requires n > 0 && v % 256 == low % 256
    requires LittleBytes(n, v / 256) == LittleBytes(n - 1, low / 256) + [top]
    requires BigBytes(n, v / 256) == [top] + BigBytes(n - 1, low / 256)
    ensures LittleBytes(n + 1, v) == LittleBytes(n, low) + [top]
    ensures BigBytes(n + 1, v) == [top] + BigBytes(n, low)
  {
    assert LittleBytes(n + 1, v) == [v % 256] + LittleBytes(n, v / 256);
    assert BigBytes(n + 1, v) == BigBytes(n, v / 256) + [v % 256];
  }

  /** A swapped integer lies in memory in the opposite order. */
  lemma {:induction false} SwapReversesLayout(n: nat, v: nat)
    ensures LittleBytes(n, Byteswap(n, v)) == BigBytes(n, v)
    ensures BigBytes(n, Byteswap(n, v)) == LittleBytes(n, v)
  {
    if n > 0 {
      SwapReversesLayout(n - 1, v / 256);
      TopByte(n - 1, v % 256, Byteswap(n - 1, v / 256), Byteswap(n, v));
    }
  }

  /** Swapping twice gives the integer back. */
  lemma SwapInvolution(n: nat, v: nat)
    requires v < Pow2(8 * n)
    ensures Byteswap(n, Byteswap(n, v)) == v
  {
    var w := Byteswap(n, v);
    SwapReversesLayout(n, v);
    SwapReversesLayout(n, w);
    LoadLayout(Little, n, Byteswap(n, w));
    LoadLayout(Little, n, v);
  }

  /** "Swap unless the wanted order is the host's" gives the wanted layout on every host. */
  lemma SwapWhenOrdersDiffer(host: Endian, e: Endian, n: nat, v: nat)
    ensures Layout(host, n, if e != host then Byteswap(n, v) else v) == Layout(e, n, v)
  {
    SwapReversesLayout(n, v);
  }

  /** The network conversions leave big-endian, respectively little-endian, bytes in memory on every host. */
  lemma NetworkOrder(host: Endian, n: nat, v: nat)
    ensures Layout(host, n, ByteswapOnLittleEndian(host, n, v)) == BigBytes(n, v)
    ensures Layout(host, n, ByteswapOnBigEndian(host, n, v)) == LittleBytes(n, v)
  {
    SwapReversesLayout(n, v);
  }
}
