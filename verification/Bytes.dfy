/** Bytes, exclusive or, and the sequence operations every other module shares. */
module Bytes {

  type byte = bv8

  function Xor(a: byte, b: byte): byte { a ^ b }

  lemma XorLaws(a: byte, b: byte, c: byte)
    ensures Xor(a, b) == Xor(b, a)
    ensures Xor(Xor(a, b), c) == Xor(a, Xor(b, c))
    ensures Xor(a, 0) == a
    ensures Xor(a, a) == 0
    ensures Xor(a, Xor(a, b)) == b
  {
  }

  lemma XorExchange(a: byte, b: byte, x: byte, y: byte)
    ensures Xor(Xor(a, b), Xor(x, y)) == Xor(Xor(a, x), Xor(b, y))
  {
    XorLaws(a, b, Xor(x, y));
    XorLaws(b, x, y);
    XorLaws(x, b, y);
    XorLaws(a, x, Xor(b, y));
  }

  /** Replacing the middle term of a sum by adding old and new. */
  lemma XorPatch(h: byte, o: byte, t: byte, b: byte)
    ensures Xor(h, Xor(b, t)) == Xor(Xor(h, Xor(o, t)), Xor(b, o))
  {
    XorLaws(h, Xor(o, t), Xor(b, o));
    XorExchange(o, t, b, o);
    XorLaws(o, b, t);
    XorLaws(t, o, b);
    XorExchange(o, t, o, b);
    XorLaws(b, t, o);
    XorLaws(o, t, b);
    XorLaws(b, o, 0);
    XorLaws(t, b, 0);
    XorLaws(0, Xor(t, b), 0);
  }

  /** Element-wise exclusive or of two buffers of one length. */
  function XorSeq(a: seq<byte>, b: seq<byte>): (r: seq<byte>)
    requires |a| == |b|
    ensures |r| == |a|
    ensures forall i :: 0 <= i < |r| ==> r[i] == Xor(a[i], b[i])
  {
    seq(|a|, i requires 0 <= i < |a| => Xor(a[i], b[i]))
  }

  function Zeros(n: nat): (r: seq<byte>)
    ensures |r| == n && forall i :: 0 <= i < n ==> r[i] == 0
  {
    seq(n, _ => 0)
  }

  /** `base` with the bytes from `off` on replaced by `buf`. */
  function Overlay(base: seq<byte>, off: nat, buf: seq<byte>): (r: seq<byte>)
    requires off + |buf| <= |base|
    ensures |r| == |base|
    ensures forall i :: 0 <= i < |r| ==> r[i] == if off <= i < off + |buf| then buf[i - off] else base[i]
  {
    base[..off] + buf + base[off + |buf|..]
  }
}
