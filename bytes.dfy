/** Little-endian fixed-width encoding of unsigned values: how a fixed-width
    value vector lays its values out in its buffer, and how loading a buffer
    reads them back. */
module Bytes {

  /** One byte of a buffer. */
  type byte = x: int | 0 <= x < 256

  /** 256 to the power w: the number of distinct values a w-byte field holds. */
  function Pow256(w: nat): (r: nat)
    ensures r >= 1
  {
    if w == 0 then 1 else 256 * Pow256(w - 1)
  }

  /** The w bytes of v, least significant byte first. */
  function EncodeLE(v: nat, w: nat): (r: seq<byte>)
    requires v < Pow256(w)
    ensures |r| == w
  {
    if w == 0 then [] else [v % 256] + EncodeLE(v / 256, w - 1)
  }

  /** The value whose least significant byte comes first in b. */
  function DecodeLE(b: seq<byte>): (v: nat)
    ensures v < Pow256(|b|)
  {
    if b == [] then 0 else b[0] + 256 * DecodeLE(b[1..])
  }

  lemma {:induction false} DecodeEncode(v: nat, w: nat)
    requires v < Pow256(w)
    ensures DecodeLE(EncodeLE(v, w)) == v
  {
    if w > 0 {
      var e := EncodeLE(v, w);
      assert e[1..] == EncodeLE(v / 256, w - 1);
      DecodeEncode(v / 256, w - 1);
    }
  }

  /** Every value of vs fits in w bytes. */
  predicate AllFit(vs: seq<nat>, w: nat)
  {
    forall i :: 0 <= i < |vs| ==> vs[i] < Pow256(w)
  }

  /** The buffer holding vs, w bytes per value, in order. */
  function EncodeAll(vs: seq<nat>, w: nat): (r: seq<byte>)
    requires AllFit(vs, w)
    ensures |r| == w * |vs|
  {
    if vs == [] then [] else EncodeLE(vs[0], w) + EncodeAll(vs[1..], w)
  }

  /** The first n values of w bytes each read from the front of b. */
  function DecodeAll(b: seq<byte>, w: nat, n: nat): (r: seq<nat>)
    requires w * n <= |b|
    ensures |r| == n && AllFit(r, w)
  {
    if n == 0 then [] else [DecodeLE(b[..w])] + DecodeAll(b[w..], w, n - 1)
  }

  /** Reading |vs| values back from a buffer that starts with the encoding of
      vs gives vs, whatever follows it in the buffer. */
  lemma {:induction false} DecodeEncodeAll(vs: seq<nat>, w: nat, rest: seq<byte>)
    requires AllFit(vs, w)
    ensures w * |vs| <= |EncodeAll(vs, w) + rest|
    ensures DecodeAll(EncodeAll(vs, w) + rest, w, |vs|) == vs
  {
    if vs != [] {
      var b := EncodeAll(vs, w) + rest;
      assert b[..w] == EncodeLE(vs[0], w);
      assert b[w..] == EncodeAll(vs[1..], w) + rest;
      DecodeEncode(vs[0], w);
      DecodeEncodeAll(vs[1..], w, rest);
    }
  }
}
