/** The parity arithmetic of ublk/raidsp/parity.cpp, its wrap-around loops, and the
    law the RAID write engine relies on: patching a parity equals recomputing it. */
module Parity {
  import opened Arithmetic
  import opened Bytes

  /** Exclusive or of every data byte `i` with `(start + i) % n == j`. */
  function Column(data: seq<byte>, start: nat, n: nat, j: nat): byte
    requires n > 0
  {
    if data == [] then 0
    else
      var last := |data| - 1;
      Xor(Column(data[..last], start, n, j), if Wrap(start + last, n) == j then data[last] else 0)
  }

  /** What `parity_to` promises: each data byte is folded once into its column. */
  function Folded(parity: seq<byte>, data: seq<byte>, start: nat): (r: seq<byte>)
    requires |parity| > 0
    ensures |r| == |parity|
    ensures forall j :: 0 <= j < |r| ==> r[j] == Xor(parity[j], Column(data, start, |parity|, j))
  {
    seq(|parity|, j requires 0 <= j < |parity| => Xor(parity[j], Column(data, start, |parity|, j)))
  }

  /** The parity of stripe data, as `parity_renew` computes it. */
  function Of(data: seq<byte>, n: nat): (r: seq<byte>)
    requires n > 0
    ensures |r| == n
  {
    Folded(Zeros(n), data, 0)
  }

  // ---------- Columns ----------

  lemma {:induction false} ColumnConcat(a: seq<byte>, b: seq<byte>, start: nat, n: nat, j: nat)
    requires n > 0
    ensures Column(a + b, start, n, j) == Xor(Column(a, start, n, j), Column(b, start + |a|, n, j))
  {
    if b == [] {
      assert a + b == a;
    } else {
      var last := |b| - 1;
      var ab := a + b;
      assert ab[..|ab| - 1] == a + b[..last];
      assert ab[|ab| - 1] == b[last];
      assert start + (|ab| - 1) == start + |a| + last;
      ColumnConcat(a, b[..last], start, n, j);
      var t := if Wrap(start + |a| + last, n) == j then b[last] else 0;
      assert Column(ab, start, n, j) == Xor(Column(ab[..|ab| - 1], start, n, j), t);
      assert Column(b, start + |a|, n, j) == Xor(Column(b[..last], start + |a|, n, j), t);
      XorLaws(Column(a, start, n, j), Column(b[..last], start + |a|, n, j), t);
    }
  }

  lemma {:induction false} ColumnXor(a: seq<byte>, b: seq<byte>, start: nat, n: nat, j: nat)
    requires n > 0 && |a| == |b|
    ensures Column(XorSeq(a, b), start, n, j) == Xor(Column(a, start, n, j), Column(b, start, n, j))
  {
    if a != [] {
      var last := |a| - 1;
      var ab := XorSeq(a, b);
      assert ab[..last] == XorSeq(a[..last], b[..last]);
      ColumnXor(a[..last], b[..last], start, n, j);
      var ca, cb := Column(a[..last], start, n, j), Column(b[..last], start, n, j);
      if Wrap(start + last, n) == j {
        assert Column(ab, start, n, j) == Xor(Xor(ca, cb), Xor(a[last], b[last]));
        XorExchange(ca, cb, a[last], b[last]);
      } else {
        XorExchange(ca, cb, 0, 0);
      }
    }
  }

  /** Only the starting column matters. */
  lemma {:induction false} ColumnShift(data: seq<byte>, s: nat, t: nat, n: nat, j: nat)
    requires n > 0 && Wrap(s, n) == Wrap(t, n)
    ensures Column(data, s, n, j) == Column(data, t, n, j)
  {
    if data != [] {
      var last := |data| - 1;
      ColumnShift(data[..last], s, t, n, j);
      WrapCongruent(s, t, last, n);
      var x := if Wrap(t + last, n) == j then data[last] else 0;
      assert Column(data, s, n, j) == Xor(Column(data[..last], s, n, j), x);
    }
  }

  // ---------- Folding ----------

  lemma FoldedConcat(parity: seq<byte>, a: seq<byte>, b: seq<byte>, start: nat)
    requires |parity| > 0
    ensures Folded(Folded(parity, a, start), b, start + |a|) == Folded(parity, a + b, start)
  {
    var n := |parity|;
    forall j | 0 <= j < n
      ensures Folded(Folded(parity, a, start), b, start + |a|)[j] == Folded(parity, a + b, start)[j]
    {
      ColumnConcat(a, b, start, n, j);
    }
  }

  lemma FoldedShift(parity: seq<byte>, data: seq<byte>, s: nat, t: nat)
    requires |parity| > 0 && Wrap(s, |parity|) == Wrap(t, |parity|)
    ensures Folded(parity, data, s) == Folded(parity, data, t)
  {
    forall j | 0 <= j < |parity| ensures Folded(parity, data, s)[j] == Folded(parity, data, t)[j] {
      ColumnShift(data, s, t, |parity|, j);
    }
  }

  /** A block that does not wrap meets each of its columns exactly once. */
  lemma {:induction false} BlockColumn(block: seq<byte>, q: nat, n: nat, j: nat)
    requires q + |block| <= n && j < n
    requires n > 0
    ensures Column(block, q, n, j) == if q <= j < q + |block| then block[j - q] else 0
  {
    if block != [] {
      var last := |block| - 1;
      BlockColumn(block[..last], q, n, j);
      assert Wrap(q + last, n) == q + last;
    }
  }

  // ---------- The law the read-modify-write path rests on ----------

  lemma ColumnSplit(head: seq<byte>, mid: seq<byte>, tail: seq<byte>, n: nat, j: nat)
    requires n > 0
    ensures Column(head + (mid + tail), 0, n, j)
         == Xor(Column(head, 0, n, j), Xor(Column(mid, |head|, n, j), Column(tail, |head| + |mid|, n, j)))
  {
    ColumnConcat(head, mid + tail, 0, n, j);
    ColumnConcat(mid, tail, |head|, n, j);
  }

  /** Column `j` of data with one range replaced. */
  lemma ColumnOverlay(data: seq<byte>, n: nat, off: nat, buf: seq<byte>, j: nat)
    requires n > 0 && off + |buf| <= |data|
    ensures Column(Overlay(data, off, buf), 0, n, j)
         == Xor(Column(data, 0, n, j), Column(XorSeq(buf, data[off..off + |buf|]), Wrap(off, n), n, j))
  {
    var was := data[off..off + |buf|];
    var head, tail := data[..off], data[off + |buf|..];
    OverlayParts(data, off, buf);
    ColumnPatched(head, was, tail, buf, n, j);
  }

  lemma OverlayParts(data: seq<byte>, off: nat, buf: seq<byte>)
    requires off + |buf| <= |data|
    ensures data == data[..off] + (data[off..off + |buf|] + data[off + |buf|..])
    ensures Overlay(data, off, buf) == data[..off] + (buf + data[off + |buf|..])
  {
  }

  lemma ColumnPatched(head: seq<byte>, was: seq<byte>, tail: seq<byte>, buf: seq<byte>, n: nat, j: nat)
    requires n > 0 && |buf| == |was|
    ensures Column(head + (buf + tail), 0, n, j)
         == Xor(Column(head + (was + tail), 0, n, j), Column(XorSeq(buf, was), Wrap(|head|, n), n, j))
  {
    var off := |head|;
    ColumnSplit(head, was, tail, n, j);
    ColumnSplit(head, buf, tail, n, j);
    ColumnXor(buf, was, off, n, j);
    ColumnShift(XorSeq(buf, was), Wrap(off, n), off, n, j);
    XorPatch(Column(head, 0, n, j), Column(was, off, n, j), Column(tail, off + |buf|, n, j), Column(buf, off, n, j));
  }

  /** Folding `new xor old` of a range into a coherent parity gives the parity of the
      stripe with that range replaced, for any range, however many strips it spans. */
  lemma ReadModifyWriteIsRecompute(data: seq<byte>, n: nat, off: nat, buf: seq<byte>)
    requires n > 0 && off + |buf| <= |data|
    ensures Folded(Of(data, n), XorSeq(buf, data[off..off + |buf|]), off % n) == Of(Overlay(data, off, buf), n)
  {
    WrapIsMod(off, n);
    var diff := XorSeq(buf, data[off..off + |buf|]);
    forall j | 0 <= j < n
      ensures Folded(Of(data, n), diff, off % n)[j] == Of(Overlay(data, off, buf), n)[j]
    {
      ColumnOverlay(data, n, off, buf, j);
    }
  }

  // ---------- What a coherent parity is good for ----------

  /** Exclusive or of byte `j` of the first `k` strips. */
  function StripsXor(data: seq<byte>, n: nat, k: nat, j: nat): byte
    requires k * n <= |data| && j < n
  {
    if k == 0 then 0
    else
      assert (k - 1) * n + n == k * n;
      Xor(StripsXor(data, n, k - 1, j), data[(k - 1) * n + j])
  }

  lemma {:induction false} ColumnIsStripsXor(data: seq<byte>, n: nat, k: nat, j: nat)
    requires k * n <= |data| && j < n
    ensures Column(data[..k * n], 0, n, j) == StripsXor(data, n, k, j)
  {
    if k > 0 {
      var m := (k - 1) * n;
      assert m + n == k * n;
      ColumnIsStripsXor(data, n, k - 1, j);
      var strip := data[m..m + n];
      assert data[..k * n] == data[..m] + strip;
      ColumnConcat(data[..m], strip, 0, n, j);
      WrapMultiple(k - 1, 0, n);
      ColumnShift(strip, m, 0, n, j);
      BlockColumn(strip, 0, n, j);
    }
  }

  /** Exclusive or of byte `j` of all data strips but strip `miss`. */
  function OtherStripsXor(data: seq<byte>, n: nat, k: nat, miss: nat, j: nat): byte
    requires k * n <= |data| && j < n
  {
    if k == 0 then 0
    else
      assert (k - 1) * n + n == k * n;
      Xor(OtherStripsXor(data, n, k - 1, miss, j), if k - 1 == miss then 0 else data[(k - 1) * n + j])
  }

  lemma {:induction false} StripsXorSplit(data: seq<byte>, n: nat, k: nat, miss: nat, j: nat)
    requires k * n <= |data| && j < n
    requires miss * n + n <= |data|
    ensures StripsXor(data, n, k, j)
         == if miss < k then Xor(OtherStripsXor(data, n, k, miss, j), data[miss * n + j])
            else OtherStripsXor(data, n, k, miss, j)
  {
    if k > 0 {
      assert (k - 1) * n + n == k * n;
      StripsXorSplit(data, n, k - 1, miss, j);
    }
  }

  /** A parity equals the parity of the data exactly when all strips, parity included,
      cancel out column by column. */
  lemma CoherentIffStripsCancel(data: seq<byte>, parity: seq<byte>, n: nat, k: nat)
    requires n > 0 && |data| == k * n && |parity| == n
    ensures parity == Of(data, n) <==> forall j :: 0 <= j < n ==> Xor(StripsXor(data, n, k, j), parity[j]) == 0
  {
    assert data[..k * n] == data;
    forall j | 0 <= j < n
      ensures Of(data, n)[j] == StripsXor(data, n, k, j)
    {
      ColumnIsStripsXor(data, n, k, j);
    }
    if forall j :: 0 <= j < n ==> Xor(StripsXor(data, n, k, j), parity[j]) == 0 {
      forall j | 0 <= j < n ensures parity[j] == Of(data, n)[j] {
        assert Xor(StripsXor(data, n, k, j), parity[j]) == 0;
      }
    }
  }

  /** With a coherent parity any one data strip is the exclusive or of all the others. */
  lemma AnyStripRecoverable(data: seq<byte>, parity: seq<byte>, n: nat, k: nat, miss: nat, j: nat)
    requires n > 0 && |data| == k * n && parity == Of(data, n)
    requires miss < k && j < n && miss * n + n <= |data|
    ensures data[miss * n + j] == Xor(OtherStripsXor(data, n, k, miss, j), parity[j])
  {
    CoherentIffStripsCancel(data, parity, n, k);
    StripsXorSplit(data, n, k, miss, j);
  }

  // ---------- The loops ----------

  /** `math::xor_to`: exclusive or of a source range into a destination range, in place. */
  method XorTo(src: array<byte>, from: nat, len: nat, dst: array<byte>, at: nat)
    requires src != dst
    requires from + len <= src.Length && at + len <= dst.Length
    modifies dst
    ensures forall j :: 0 <= j < dst.Length ==>
      dst[j] == if at <= j < at + len then Xor(old(dst[j]), src[from + j - at]) else old(dst[j])
  {
    for i := 0 to len
      invariant forall j :: 0 <= j < dst.Length ==>
        dst[j] == if at <= j < at + i then Xor(old(dst[j]), src[from + j - at]) else old(dst[j])
    {
      dst[at + i] := Xor(dst[at + i], src[from + i]);
    }
  }

  /** Folding the next block extends the folded prefix. */
  lemma Advance(was: seq<byte>, data: seq<byte>, pos: nat, len: nat, start: nat, at: nat)
    requires |was| > 0 && pos + len <= |data|
    requires Wrap(start + pos, |was|) == at
    ensures Folded(Folded(was, data[..pos], start), data[pos..pos + len], at) == Folded(was, data[..pos + len], start)
  {
    assert Wrap(at, |was|) == at;
    FoldedShift(Folded(was, data[..pos], start), data[pos..pos + len], at, start + pos);
    FoldedConcat(was, data[..pos], data[pos..pos + len], start);
    assert data[..pos] + data[pos..pos + len] == data[..pos + len];
  }

  /** One block that does not wrap: after it, `len` more data bytes are folded in. */
  method FoldBlock(data: array<byte>, pos: nat, len: nat, parity: array<byte>, at: nat,
                   ghost was: seq<byte>, ghost start: nat)
    requires data != parity && parity.Length > 0
    requires pos + len <= data.Length && at + len <= parity.Length
    requires |was| == parity.Length && Wrap(start + pos, |was|) == at
    requires parity[..] == Folded(was, data[..pos], start)
    modifies parity
    ensures parity[..] == Folded(was, data[..pos + len], start)
    ensures Wrap(start + (pos + len), |was|) == Wrap(at + len, |was|)
  {
    XorTo(data, pos, len, parity, at);
    ghost var block := data[pos..pos + len];
    forall j | 0 <= j < parity.Length
      ensures parity[j] == Folded(old(parity[..]), block, at)[j]
    {
      BlockColumn(block, at, parity.Length, j);
    }
    assert parity[..] == Folded(old(parity[..]), block, at);
    Advance(was, data[..], pos, len, start, at);
    assert data[..][..pos] == data[..pos] && data[..][..pos + len] == data[..pos + len];
    assert data[..][pos..pos + len] == block;
    WrapCongruent(start + pos, at, len, |was|);
  }

  /** `parity_to`: head up to the wrap, whole parities, tail. */
  method ParityTo(data: array<byte>, parity: array<byte>, start: nat)
    requires data != parity && parity.Length > 0
    modifies parity
    ensures parity[..] == Folded(old(parity[..]), data[..], start)
  {
    var n := parity.Length;
    var at := start % n;
    WrapIsMod(start, n);
    var pos := 0;
    ghost var was := parity[..];
    assert parity[..] == Folded(was, data[..0], start);
    if at != 0 {
      var len := if data.Length < n - at then data.Length else n - at;
      FoldBlock(data, 0, len, parity, at, was, start);
      pos := len;
    }
    while data.Length - pos >= n
      invariant 0 <= pos <= data.Length
      invariant pos == data.Length || Wrap(start + pos, n) == 0
      invariant parity[..] == Folded(was, data[..pos], start)
    {
      FoldBlock(data, pos, n, parity, 0, was, start);
      pos := pos + n;
    }
    if pos < data.Length {
      FoldBlock(data, pos, data.Length - pos, parity, 0, was, start);
    }
    assert data[..data.Length] == data[..];
  }

  /** `parity_renew`: zero the parity, then fold the stripe into it. */
  method ParityRenew(data: array<byte>, parity: array<byte>)
    requires data != parity && parity.Length > 0
    modifies parity
    ensures parity[..] == Of(data[..], parity.Length)
  {
    for i := 0 to parity.Length
      invariant forall j :: 0 <= j < i ==> parity[j] == 0
    {
      parity[i] := 0;
    }
    assert parity[..] == Zeros(parity.Length);
    ParityTo(data, parity, 0);
  }
}
