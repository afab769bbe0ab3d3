/** A list of equal blocks read as one flat byte sequence. */
module Blocks {
  import opened Bits

  function Flat(blocks: seq<seq<u8>>): seq<u8> {
    if blocks == [] then [] else blocks[0] + Flat(blocks[1..])
  }

  ghost predicate Uniform(blocks: seq<seq<u8>>, b: nat) {
    forall i :: 0 <= i < |blocks| ==> |blocks[i]| == b
  }

  /** s with the bytes from p on replaced by c, as far as c goes; longer than s if c reaches past its end. */
  function Overwrite<T>(s: seq<T>, p: nat, c: seq<T>): seq<T>
    requires p <= |s|
  {
    s[..p] + c + (if p + |c| <= |s| then s[p + |c|..] else [])
  }

  lemma {:induction false} FlatLength(blocks: seq<seq<u8>>, b: nat)
    requires Uniform(blocks, b)
    ensures |Flat(blocks)| == |blocks| * b
  {
    if blocks != [] {
      FlatLength(blocks[1..], b);
      assert (|blocks| - 1) * b + b == |blocks| * b;
    }
  }

  lemma {:induction false} FlatConcat(x: seq<seq<u8>>, y: seq<seq<u8>>)
    ensures Flat(x + y) == Flat(x) + Flat(y)
  {
    if x == [] {
      assert x + y == y;
    } else {
      FlatConcat(x[1..], y);
      assert (x + y)[1..] == x[1..] + y;
      assert Flat(x + y) == x[0] + (Flat(x[1..]) + Flat(y));
    }
  }

  lemma FlatGrows(x: seq<seq<u8>>, y: seq<seq<u8>>)
    requires x <= y
    ensures Flat(x) <= Flat(y)
  {
    assert y == x + y[|x|..];
    FlatConcat(x, y[|x|..]);
  }

  /** The flat sequence around block k. */
  lemma FlatSplit(blocks: seq<seq<u8>>, b: nat, k: nat)
    requires Uniform(blocks, b) && k < |blocks|
    ensures |Flat(blocks[..k])| == k * b
    ensures Flat(blocks) == Flat(blocks[..k]) + blocks[k] + Flat(blocks[k + 1..])
  {
    FlatLength(blocks[..k], b);
    assert blocks == blocks[..k] + ([blocks[k]] + blocks[k + 1..]);
    FlatConcat(blocks[..k], [blocks[k]] + blocks[k + 1..]);
    FlatConcat([blocks[k]], blocks[k + 1..]);
    assert Flat([blocks[k]]) == blocks[k] + Flat([]);
  }

  /** Bytes of one block are bytes of the flat sequence. */
  lemma FlatSlice(blocks: seq<seq<u8>>, b: nat, k: nat, from: nat, to: nat)
    requires Uniform(blocks, b) && k < |blocks| && from <= to <= b
    ensures 0 <= k * b && k * b + to <= |Flat(blocks)|
    ensures Flat(blocks)[k * b + from..k * b + to] == blocks[k][from..to]
  {
    FlatSplit(blocks, b, k);
  }

  lemma OverwriteMiddle(a: seq<u8>, m: seq<u8>, z: seq<u8>, p: nat, c: seq<u8>)
    requires p + |c| <= |m|
    ensures Overwrite(a + m + z, |a| + p, c) == a + Overwrite(m, p, c) + z
  {
    var s := a + m + z;
    assert s[..|a| + p] == a + m[..p];
    assert s[|a| + p + |c|..] == m[p + |c|..] + z;
  }

  /** Overwriting within one block overwrites the flat sequence at the matching place. */
  lemma FlatOverwrite(blocks: seq<seq<u8>>, b: nat, k: nat, p: nat, c: seq<u8>)
    requires Uniform(blocks, b) && k < |blocks| && p + |c| <= b
    ensures 0 <= k * b && k * b + p + |c| <= |Flat(blocks)|
    ensures Flat(blocks[k := Overwrite(blocks[k], p, c)]) == Overwrite(Flat(blocks), k * b + p, c)
  {
    var blocks' := blocks[k := Overwrite(blocks[k], p, c)];
    OverwriteMiddle(Flat(blocks[..k]), blocks[k], Flat(blocks[k + 1..]), p, c);
    FlatSplit(blocks, b, k);
    FlatSplit(blocks', b, k);
    assert blocks'[..k] == blocks[..k];
    assert blocks'[k + 1..] == blocks[k + 1..];
  }
}
