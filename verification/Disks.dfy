/** The disks under a RAID4/5 array, and why an I/O on a disk is a step on a stripe: the
    write engine is stated on stripes, the backend works on disks. */
module Disks {
  import opened Arithmetic
  import opened Bytes
  import opened StripeWriter
  import opened Layout
  import opened RaidBackend

  /** `m` stripes on as many disks as the layout has. */
  ghost predicate Fit(l: Layout, disks: seq<seq<byte>>, m: nat) {
    l.Valid() && |disks| == l.shape.strips + 1 && forall d :: 0 <= d < |disks| ==> |disks[d]| == m * l.shape.strip
  }

  lemma InDisk(l: Layout, m: nat, s: nat, j: nat)
    requires s < m && j < l.shape.strip
    ensures DiskOffset(l, s, j) < m * l.shape.strip
  {
    LowerQuotientIsLess(s, j, m, 0, l.shape.strip);
  }

  /** The data of a stripe, gathered from its disks. */
  function DataOf(l: Layout, disks: seq<seq<byte>>, m: nat, s: nat): (r: seq<byte>)
    requires Fit(l, disks, m) && s < m
    ensures |r| == l.shape.DataSize()
  {
    seq(l.shape.DataSize(), i requires 0 <= i < l.shape.DataSize() =>
      DataByte(l, disks, m, s, i))
  }

  function DataByte(l: Layout, disks: seq<seq<byte>>, m: nat, s: nat, i: nat): byte
    requires Fit(l, disks, m) && s < m && i < l.shape.DataSize()
  {
    RoomToNext(i, l.shape.strip, l.shape.strips);
    InDisk(l, m, s, Wrap(i, l.shape.strip));
    disks[DataDisk(l, s, Quot(i, l.shape.strip))][DiskOffset(l, s, Wrap(i, l.shape.strip))]
  }

  function ParityOf(l: Layout, disks: seq<seq<byte>>, m: nat, s: nat): (r: seq<byte>)
    requires Fit(l, disks, m) && s < m
    ensures |r| == l.shape.strip
  {
    seq(l.shape.strip, j requires 0 <= j < l.shape.strip => ParityByte(l, disks, m, s, j))
  }

  function ParityByte(l: Layout, disks: seq<seq<byte>>, m: nat, s: nat, j: nat): byte
    requires Fit(l, disks, m) && s < m && j < l.shape.strip
  {
    InDisk(l, m, s, j);
    disks[l.parityDisk(s)][DiskOffset(l, s, j)]
  }

  // ---------- Which piece is which strip's ----------

  /** `io` transfers exactly the bytes of strip `k` of the range [`off`, `off + len`) of
      stripe `s`, from or to buffer position `io.pos` on. */
  ghost predicate IsPiece(l: Layout, s: nat, off: nat, len: nat, k: nat, io: Io)
    requires l.shape.Valid()
  {
    && k < l.shape.strips && io.pos + io.len <= len && io.disk == DataDisk(l, s, k)
    && (forall i :: off <= i < off + len ==> (Quot(i, l.shape.strip) == k <==> io.pos <= i - off < io.pos + io.len))
    && (forall i :: off + io.pos <= i < off + io.pos + io.len ==> DiskOffset(l, s, Wrap(i, l.shape.strip)) == io.off + (i - off - io.pos))
  }

  /** The pieces of a stripe range are its strips, one by one. */
  lemma {:induction false} StripIosArePieces(l: Layout, s: nat, off: nat, total: nat, k: nat, j: nat, len: nat, pos: nat)
    requires l.Valid() && j < l.shape.strip && off + total <= l.shape.DataSize() && pos + len == total
    requires len > 0 ==> Quot(off + pos, l.shape.strip) == k && Wrap(off + pos, l.shape.strip) == j
    ensures ArePieces(l, s, off, total, pos, k, StripIos(l, s, k, j, len, pos))
    decreases len
  {
    if len > 0 {
      var strip := l.shape.strip;
      var size := if strip - j < len then strip - j else len;
      var head := Io(DataDisk(l, s, k), DiskOffset(l, s, j), pos, size);
      var tail := StripIos(l, s, k + 1, 0, len - size, pos + size);
      NextQuot(off + pos, strip);
      StripIosArePieces(l, s, off, total, k + 1, 0, len - size, pos + size);
      HeadPiece(l, s, off, total, pos, k, j, head);
      ConsPieces(l, s, off, total, pos, size, k, j, head, tail);
    }
  }

  /** The pieces `ios` are those of the strips from `k` on, one by one. */
  ghost predicate ArePieces(l: Layout, s: nat, off: nat, total: nat, pos: nat, k: nat, ios: seq<Io>)
    requires l.shape.Valid()
  {
    forall m :: 0 <= m < |ios| ==> ios[m].pos >= pos && IsPieceFrom(l, s, off, total, pos, k + m, ios[m])
  }

  lemma ConsPieces(l: Layout, s: nat, off: nat, total: nat, pos: nat, size: nat, k: nat, j: nat, head: Io, tail: seq<Io>)
    requires l.Valid() && pos + size <= total && j + size <= l.shape.strip && head.pos == pos
    requires Quot(off + pos, l.shape.strip) == k && Wrap(off + pos, l.shape.strip) == j
    requires IsPieceFrom(l, s, off, total, pos, k, head) && ArePieces(l, s, off, total, pos + size, k + 1, tail)
    ensures ArePieces(l, s, off, total, pos, k, [head] + tail)
  {
    var ios := [head] + tail;
    forall m | 0 <= m < |ios| ensures ios[m].pos >= pos && IsPieceFrom(l, s, off, total, pos, k + m, ios[m]) {
      if m > 0 {
        var i := m - 1;
        assert ios[m] == tail[i];
        LaterPiece(l, s, off, total, pos, size, k, j, k + 1 + i, tail[i]);
      }
    }
  }

  /** `IsPiece`, as far as the range from `pos` on is concerned. */
  ghost predicate IsPieceFrom(l: Layout, s: nat, off: nat, total: nat, pos: nat, k: nat, io: Io)
    requires l.shape.Valid()
  {
    && k < l.shape.strips && io.pos + io.len <= total && io.disk == DataDisk(l, s, k)
    && (forall i :: off + pos <= i < off + total ==> (Quot(i, l.shape.strip) == k <==> io.pos <= i - off < io.pos + io.len))
    && (forall i :: off + io.pos <= i < off + io.pos + io.len ==> DiskOffset(l, s, Wrap(i, l.shape.strip)) == io.off + (i - off - io.pos))
  }

  lemma HeadPiece(l: Layout, s: nat, off: nat, total: nat, pos: nat, k: nat, j: nat, io: Io)
    requires l.Valid() && off + total <= l.shape.DataSize() && pos < total
    requires Quot(off + pos, l.shape.strip) == k && Wrap(off + pos, l.shape.strip) == j
    requires io.disk == DataDisk(l, s, k) && io.off == DiskOffset(l, s, j) && io.pos == pos
    requires io.len == if l.shape.strip - j < total - pos then l.shape.strip - j else total - pos
    ensures IsPieceFrom(l, s, off, total, pos, k, io)
  {
    var strip := l.shape.strip;
    RoomToNext(off + pos, strip, l.shape.strips);
    NextQuot(off + pos, strip);
    forall i | off + pos <= i < off + total
      ensures Quot(i, strip) == k <==> io.pos <= i - off < io.pos + io.len
      ensures io.pos <= i - off < io.pos + io.len ==> Wrap(i, strip) == j + (i - off - io.pos)
    {
      if i < off + pos + io.len {
        SameQuot(off + pos, i - (off + pos), strip);
      } else {
        QuotMonotone(off + pos + (strip - j), i, strip);
      }
    }
  }

  lemma LaterPiece(l: Layout, s: nat, off: nat, total: nat, pos: nat, size: nat, k: nat, j: nat, k': nat, io: Io)
    requires l.Valid() && pos + size <= total && j + size <= l.shape.strip
    requires Quot(off + pos, l.shape.strip) == k && Wrap(off + pos, l.shape.strip) == j && k < k'
    requires IsPieceFrom(l, s, off, total, pos + size, k', io) && io.pos >= pos + size
    ensures IsPieceFrom(l, s, off, total, pos, k', io)
  {
    forall i | off + pos <= i < off + pos + size ensures Quot(i, l.shape.strip) == k {
      SameQuot(off + pos, i - (off + pos), l.shape.strip);
    }
  }

  /** No strip of the range is without its piece. */
  lemma {:induction false} StripIosReach(l: Layout, s: nat, off: nat, total: nat, k: nat, j: nat, len: nat, pos: nat)
    requires l.Valid() && j < l.shape.strip && pos + len == total
    requires len > 0 ==> Quot(off + pos, l.shape.strip) == k && Wrap(off + pos, l.shape.strip) == j
    ensures forall i :: off + pos <= i < off + total ==>
      k <= Quot(i, l.shape.strip) < k + |StripIos(l, s, k, j, len, pos)|
    ensures forall io :: io in StripIos(l, s, k, j, len, pos) ==> io.len > 0
    decreases len
  {
    if len > 0 {
      var strip := l.shape.strip;
      var size := if strip - j < len then strip - j else len;
      NextQuot(off + pos, strip);
      StripIosReach(l, s, off, total, k + 1, 0, len - size, pos + size);
      forall i | off + pos <= i < off + pos + size ensures Quot(i, strip) == k {
        SameQuot(off + pos, i - (off + pos), strip);
      }
    }
  }

  // ---------- I/Os on disks are steps on stripes ----------

  function Poke(disks: seq<seq<byte>>, d: nat, o: nat, bytes: seq<byte>): seq<seq<byte>>
    requires d < |disks| && o + |bytes| <= |disks[d]|
  {
    disks[d := Overlay(disks[d], o, bytes)]
  }

  /** A piece lies on its disk. */
  lemma PieceOnDisk(l: Layout, disks: seq<seq<byte>>, m: nat, s: nat, off: nat, len: nat, k: nat, io: Io)
    requires Fit(l, disks, m) && s < m && IsPiece(l, s, off, len, k, io) && off + len <= l.shape.DataSize() && io.len > 0
    ensures io.disk < |disks| && io.off + io.len <= |disks[io.disk]|
  {
    var last := off + io.pos + io.len - 1;
    assert DiskOffset(l, s, Wrap(last, l.shape.strip)) == io.off + (last - off - io.pos);
    InDisk(l, m, s, Wrap(last, l.shape.strip));
  }

  /** Two bytes on one disk offset are one byte of one stripe. */
  lemma OffsetsApart(l: Layout, s: nat, j: nat, s': nat, j': nat)
    requires l.shape.Valid() && j < l.shape.strip && j' < l.shape.strip
    ensures DiskOffset(l, s, j) == DiskOffset(l, s', j') <==> s == s' && j == j'
  {
    QuotUnique(DiskOffset(l, s, j), l.shape.strip, s, j);
    QuotUnique(DiskOffset(l, s', j'), l.shape.strip, s', j');
  }

  /** Where the poked range is, seen from any stripe. */
  lemma InPoke(l: Layout, s: nat, off: nat, len: nat, k: nat, io: Io, s': nat, j': nat)
    requires l.Valid() && IsPiece(l, s, off, len, k, io) && j' < l.shape.strip
    ensures io.off <= DiskOffset(l, s', j') < io.off + io.len <==>
      s' == s && exists i :: off + io.pos <= i < off + io.pos + io.len && Wrap(i, l.shape.strip) == j'
    ensures forall i :: off + io.pos <= i < off + io.pos + io.len ==> DiskOffset(l, s, Wrap(i, l.shape.strip)) == io.off + (i - off - io.pos)
  {
    var o := DiskOffset(l, s', j');
    if io.off <= o < io.off + io.len {
      var i := off + io.pos + (o - io.off);
      assert DiskOffset(l, s, Wrap(i, l.shape.strip)) == o;
      OffsetsApart(l, s, Wrap(i, l.shape.strip), s', j');
    }
    if s' == s && exists i :: off + io.pos <= i < off + io.pos + io.len && Wrap(i, l.shape.strip) == j' {
      var i :| off + io.pos <= i < off + io.pos + io.len && Wrap(i, l.shape.strip) == j';
      assert DiskOffset(l, s, Wrap(i, l.shape.strip)) == io.off + (i - off - io.pos);
    }
  }

  /** A data byte is in the poked range exactly if it is in strip `k` of the range. */
  lemma DataInPoke(l: Layout, s: nat, off: nat, len: nat, k: nat, io: Io, s': nat, i: nat)
    requires l.Valid() && IsPiece(l, s, off, len, k, io) && i < l.shape.DataSize()
    ensures var o := DiskOffset(l, s', Wrap(i, l.shape.strip));
      DataDisk(l, s', Quot(i, l.shape.strip)) == io.disk && io.off <= o < io.off + io.len <==>
      s' == s && off <= i < off + len && Quot(i, l.shape.strip) == k
    ensures s' == s && off <= i < off + len && Quot(i, l.shape.strip) == k ==>
      DiskOffset(l, s, Wrap(i, l.shape.strip)) == io.off + (i - off - io.pos) && io.pos <= i - off < io.pos + io.len
  {
    var strip := l.shape.strip;
    InPoke(l, s, off, len, k, io, s', Wrap(i, strip));
    if DataDisk(l, s', Quot(i, strip)) == io.disk && io.off <= DiskOffset(l, s', Wrap(i, strip)) < io.off + io.len {
      var i' :| off + io.pos <= i' < off + io.pos + io.len && Wrap(i', strip) == Wrap(i, strip);
      assert Quot(i', strip) == k == Quot(i, strip);
      QuotWrap(i, strip);
      QuotWrap(i', strip);
    }
  }

  lemma WrittenByte(l: Layout, disks: seq<seq<byte>>, disks': seq<seq<byte>>, m: nat, s: nat, off: nat, buf: seq<byte>, k: nat, io: Io, s': nat, i: nat)
    requires Fit(l, disks, m) && Fit(l, disks', m) && s < m && s' < m && off + |buf| <= l.shape.DataSize() && i < l.shape.DataSize()
    requires IsPiece(l, s, off, |buf|, k, io) && io.disk < |disks| && io.off + io.len <= |disks[io.disk]|
    requires disks' == Poke(disks, io.disk, io.off, buf[io.pos..io.pos + io.len])
    ensures DataByte(l, disks', m, s', i)
         == if s' == s && off <= i < off + |buf| && Quot(i, l.shape.strip) == k then buf[i - off] else DataByte(l, disks, m, s', i)
  {
    DataInPoke(l, s, off, |buf|, k, io, s', i);
    RoomToNext(i, l.shape.strip, l.shape.strips);
    InDisk(l, m, s', Wrap(i, l.shape.strip));
    Poked(disks, io.disk, io.off, buf[io.pos..io.pos + io.len], DataDisk(l, s', Quot(i, l.shape.strip)), DiskOffset(l, s', Wrap(i, l.shape.strip)));
  }

  lemma Poked(disks: seq<seq<byte>>, d: nat, o: nat, bytes: seq<byte>, e: nat, p: nat)
    requires d < |disks| && o + |bytes| <= |disks[d]| && e < |disks| && p < |disks[e]|
    ensures |Poke(disks, d, o, bytes)| == |disks| && |Poke(disks, d, o, bytes)[e]| == |disks[e]|
    ensures Poke(disks, d, o, bytes)[e][p] == if e == d && o <= p < o + |bytes| then bytes[p - o] else disks[e][p]
  {
  }

  lemma WrittenParityByte(l: Layout, disks: seq<seq<byte>>, disks': seq<seq<byte>>, m: nat, s: nat, off: nat, buf: seq<byte>, k: nat, io: Io, s': nat, j: nat)
    requires Fit(l, disks, m) && Fit(l, disks', m) && s < m && s' < m && j < l.shape.strip
    requires IsPiece(l, s, off, |buf|, k, io) && io.disk < |disks| && io.off + io.len <= |disks[io.disk]|
    requires disks' == Poke(disks, io.disk, io.off, buf[io.pos..io.pos + io.len])
    ensures ParityByte(l, disks', m, s', j) == ParityByte(l, disks, m, s', j)
  {
    InPoke(l, s, off, |buf|, k, io, s', j);
    InDisk(l, m, s', j);
  }

  lemma SameData(l: Layout, disks: seq<seq<byte>>, m: nat, s: nat, r: seq<byte>)
    requires Fit(l, disks, m) && s < m && |r| == l.shape.DataSize()
    requires forall i :: 0 <= i < |r| ==> DataByte(l, disks, m, s, i) == r[i]
    ensures DataOf(l, disks, m, s) == r
  {
  }

  lemma SameParity(l: Layout, disks: seq<seq<byte>>, m: nat, s: nat, r: seq<byte>)
    requires Fit(l, disks, m) && s < m && |r| == l.shape.strip
    requires forall j :: 0 <= j < |r| ==> ParityByte(l, disks, m, s, j) == r[j]
    ensures ParityOf(l, disks, m, s) == r
  {
  }

  lemma PokeFits(l: Layout, disks: seq<seq<byte>>, m: nat, d: nat, o: nat, bytes: seq<byte>)
    requires Fit(l, disks, m) && d < |disks| && o + |bytes| <= |disks[d]|
    ensures Fit(l, Poke(disks, d, o, bytes), m)
  {
  }

  lemma DataWritten(l: Layout, disks: seq<seq<byte>>, disks': seq<seq<byte>>, m: nat, s: nat, off: nat, buf: seq<byte>, k: nat, io: Io,
                    s': nat, r: seq<byte>)
    requires Fit(l, disks, m) && Fit(l, disks', m) && s < m && s' < m && off + |buf| <= l.shape.DataSize() == |r|
    requires IsPiece(l, s, off, |buf|, k, io) && io.disk < |disks| && io.off + io.len <= |disks[io.disk]|
    requires disks' == Poke(disks, io.disk, io.off, buf[io.pos..io.pos + io.len])
    requires forall i :: 0 <= i < |r| ==>
      r[i] == if s' == s && off <= i < off + |buf| && Quot(i, l.shape.strip) == k then buf[i - off] else DataByte(l, disks, m, s', i)
    ensures DataOf(l, disks', m, s') == r
  {
    forall i | 0 <= i < |r| ensures DataByte(l, disks', m, s', i) == r[i] {
      WrittenByte(l, disks, disks', m, s, off, buf, k, io, s', i);
    }
    SameData(l, disks', m, s', r);
  }

  /** Writing a piece of `buf` to its disk puts strip `k` of the range into the stripe, and
      touches no other stripe's data and no parity. */
  lemma WriteIsPut(l: Layout, disks: seq<seq<byte>>, disks': seq<seq<byte>>, m: nat, s: nat, off: nat, buf: seq<byte>, k: nat, io: Io, s': nat)
    requires Fit(l, disks, m) && s < m && s' < m && off + |buf| <= l.shape.DataSize()
    requires IsPiece(l, s, off, |buf|, k, io) && io.len > 0
    requires io.disk < |disks| && io.off + io.len <= |disks[io.disk]| ==>
      disks' == Poke(disks, io.disk, io.off, buf[io.pos..io.pos + io.len])
    ensures io.disk < |disks| && io.off + io.len <= |disks[io.disk]| && Fit(l, disks', m)
    ensures DataOf(l, disks', m, s')
         == if s' == s then Put(DataOf(l, disks, m, s), l.shape.strip, off, buf, k) else DataOf(l, disks, m, s')
    ensures ParityOf(l, disks', m, s') == ParityOf(l, disks, m, s')
  {
    PieceOnDisk(l, disks, m, s, off, |buf|, k, io);
    PokeFits(l, disks, m, io.disk, io.off, buf[io.pos..io.pos + io.len]);
    var was := DataOf(l, disks, m, s');
    DataWritten(l, disks, disks', m, s, off, buf, k, io, s', if s' == s then Put(was, l.shape.strip, off, buf, k) else was);
    forall j | 0 <= j < l.shape.strip ensures ParityByte(l, disks', m, s', j) == ParityOf(l, disks, m, s')[j] {
      WrittenParityByte(l, disks, disks', m, s, off, buf, k, io, s', j);
    }
    SameParity(l, disks', m, s', ParityOf(l, disks, m, s'));
  }

  /** Reading a piece from its disk gets strip `k` of the range out of the stripe. */
  lemma ReadIsGet(l: Layout, disks: seq<seq<byte>>, m: nat, s: nat, off: nat, buf: seq<byte>, k: nat, io: Io)
    requires Fit(l, disks, m) && s < m && off + |buf| <= l.shape.DataSize()
    requires IsPiece(l, s, off, |buf|, k, io) && io.len > 0
    ensures io.disk < |disks| && io.off + io.len <= |disks[io.disk]|
    ensures Overlay(buf, io.pos, disks[io.disk][io.off..io.off + io.len]) == Get(buf, l.shape.strip, off, DataOf(l, disks, m, s), k)
  {
    PieceOnDisk(l, disks, m, s, off, |buf|, k, io);
    var got := Overlay(buf, io.pos, disks[io.disk][io.off..io.off + io.len]);
    forall b | 0 <= b < |buf| ensures got[b] == Get(buf, l.shape.strip, off, DataOf(l, disks, m, s), k)[b] {
      assert Quot(off + b, l.shape.strip) == k <==> io.pos <= (off + b) - off < io.pos + io.len;
      if Quot(off + b, l.shape.strip) == k {
        assert DiskOffset(l, s, Wrap(off + b, l.shape.strip)) == io.off + (off + b - off - io.pos);
      }
    }
  }

  /** Writing a parity strip to its disk changes that stripe's parity and nothing else. */
  lemma ParityWriteIsLocal(l: Layout, disks: seq<seq<byte>>, disks': seq<seq<byte>>, m: nat, s: nat, parity: seq<byte>, s': nat)
    requires Fit(l, disks, m) && s < m && s' < m && |parity| == l.shape.strip
    requires s * l.shape.strip + |parity| <= |disks[l.parityDisk(s)]| ==>
      disks' == Poke(disks, l.parityDisk(s), s * l.shape.strip, parity)
    ensures s * l.shape.strip + |parity| <= |disks[l.parityDisk(s)]| && Fit(l, disks', m)
    ensures ParityOf(l, disks', m, s') == if s' == s then parity else ParityOf(l, disks, m, s')
    ensures DataOf(l, disks', m, s') == DataOf(l, disks, m, s')
  {
    InDisk(l, m, s, l.shape.strip - 1);
    PokeFits(l, disks, m, l.parityDisk(s), s * l.shape.strip, parity);
    var r := if s' == s then parity else ParityOf(l, disks, m, s');
    forall j | 0 <= j < |r| ensures ParityByte(l, disks', m, s', j) == r[j] {
      NewParityByte(l, disks, disks', m, s, parity, s', j);
    }
    SameParity(l, disks', m, s', r);
    forall i | 0 <= i < l.shape.DataSize() ensures DataByte(l, disks', m, s', i) == DataOf(l, disks, m, s')[i] {
      KeptDataByte(l, disks, disks', m, s, parity, s', i);
    }
    SameData(l, disks', m, s', DataOf(l, disks, m, s'));
  }

  lemma NewParityByte(l: Layout, disks: seq<seq<byte>>, disks': seq<seq<byte>>, m: nat, s: nat, parity: seq<byte>, s': nat, j: nat)
    requires Fit(l, disks, m) && Fit(l, disks', m) && s < m && s' < m && |parity| == l.shape.strip && j < |parity|
    requires s * l.shape.strip + |parity| <= |disks[l.parityDisk(s)]|
    requires disks' == Poke(disks, l.parityDisk(s), s * l.shape.strip, parity)
    ensures ParityByte(l, disks', m, s', j) == if s' == s then parity[j] else ParityByte(l, disks, m, s', j)
  {
    InParity(l, s, s', j);
    InDisk(l, m, s', j);
  }

  lemma KeptDataByte(l: Layout, disks: seq<seq<byte>>, disks': seq<seq<byte>>, m: nat, s: nat, parity: seq<byte>, s': nat, i: nat)
    requires Fit(l, disks, m) && Fit(l, disks', m) && s < m && s' < m && |parity| == l.shape.strip && i < l.shape.DataSize()
    requires s * l.shape.strip + |parity| <= |disks[l.parityDisk(s)]|
    requires disks' == Poke(disks, l.parityDisk(s), s * l.shape.strip, parity)
    ensures DataByte(l, disks', m, s', i) == DataByte(l, disks, m, s', i)
  {
    InParity(l, s, s', Wrap(i, l.shape.strip));
    RoomToNext(i, l.shape.strip, l.shape.strips);
    InDisk(l, m, s', Wrap(i, l.shape.strip));
  }

  /** Reading a stripe's parity strip from its disk. */
  lemma ParityReadIs(l: Layout, disks: seq<seq<byte>>, m: nat, s: nat)
    requires Fit(l, disks, m) && s < m
    ensures var io := ParityIo(l, s);
      io.disk < |disks| && io.off + io.len <= |disks[io.disk]| && disks[io.disk][io.off..io.off + io.len] == ParityOf(l, disks, m, s)
  {
    InDisk(l, m, s, l.shape.strip - 1);
    var io := ParityIo(l, s);
    forall j | 0 <= j < l.shape.strip ensures disks[io.disk][io.off..io.off + io.len][j] == ParityOf(l, disks, m, s)[j] {
      InDisk(l, m, s, j);
    }
  }

  lemma InParity(l: Layout, s: nat, s': nat, j: nat)
    requires l.shape.Valid() && j < l.shape.strip
    ensures s * l.shape.strip <= DiskOffset(l, s', j) < s * l.shape.strip + l.shape.strip <==> s == s'
  {
    if s < s' {
      LowerQuotientIsLess(s, l.shape.strip - 1, s', j, l.shape.strip);
    } else if s' < s {
      LowerQuotientIsLess(s', j, s, 0, l.shape.strip);
    }
  }

  // ---------- Client reads ----------

  /** Strips in flat order. */
  lemma StripNumber(g: Shape, a: nat)
    requires g.Valid()
    ensures Quot(a, g.strip) == StripAt(g, a).0 * g.strips + StripAt(g, a).1
    ensures Wrap(a, g.strip) == Wrap(Wrap(a, g.DataSize()), g.strip)
  {
    var s, i := Quot(a, g.DataSize()), Wrap(a, g.DataSize());
    QuotWrap(a, g.DataSize());
    QuotWrap(i, g.strip);
    StripProduct(s, g.strips, g.strip, Quot(i, g.strip));
    QuotUnique(a, g.strip, s * g.strips + Quot(i, g.strip), Wrap(i, g.strip));
  }

  lemma StripProduct(s: nat, strips: nat, strip: nat, k: nat)
    ensures s * (strips * strip) + k * strip == (s * strips + k) * strip
    ensures s * strips + k >= 0
  {
    assert s * (strips * strip) == (s * strips) * strip;
  }

  /** Bytes on two sides of a strip's start are in different strips. */
  lemma StartSeparates(g: Shape, a: nat, start: nat, b: nat)
    requires g.Valid() && a < start <= b && StripStarts(g, start)
    ensures StripAt(g, a) != StripAt(g, b)
  {
    StripNumber(g, a);
    StripNumber(g, b);
    StripNumber(g, start);
    QuotMonotone(start, b, g.strip);
    BelowStart(a, start, g.strip);
  }

  lemma BelowStart(a: nat, start: nat, n: nat)
    requires n > 0 && a < start && Wrap(start, n) == 0
    ensures Quot(a, n) < Quot(start, n)
  {
    if a >= n {
      BelowStart(a - n, start - n, n);
    } else {
      assert start >= n;
    }
  }

  /** Address `a` of the request at `addr` is transferred by `io`. */
  predicate InPiece(addr: nat, io: Io, a: nat) {
    addr + io.pos <= a < addr + io.pos + io.len
  }

  predicate Reached(addr: nat, ios: seq<Io>, a: nat) {
    exists io :: io in ios && InPiece(addr, io, a)
  }

  /** The pieces of a tiled request are its strips, each whole. */
  lemma {:induction false} TiledSeparates(g: Shape, addr: nat, pos: nat, end: nat, ios: seq<Io>)
    requires g.Valid() && Tiled(g, addr, pos, end, ios)
    ensures forall io :: io in ios ==> pos <= io.pos && 0 < io.len && io.pos + io.len <= end
    ensures forall io, a :: io in ios && addr + pos <= a < addr + end && StripAt(g, a) == StripAt(g, addr + io.pos) ==>
      InPiece(addr, io, a)
    ensures forall a :: addr + pos <= a < addr + end ==> Reached(addr, ios, a)
    decreases |ios|
  {
    if ios != [] {
      var next, tail := pos + ios[0].len, ios[1..];
      TiledSeparates(g, addr, next, end, tail);
      forall io, a | io in ios && addr + pos <= a < addr + end && StripAt(g, a) == StripAt(g, addr + io.pos)
        ensures InPiece(addr, io, a)
      {
        if io == ios[0] {
          if a >= addr + next {
            StartSeparates(g, addr + pos, addr + next, a);
          }
        } else {
          assert io in tail;
          if a < addr + next {
            StartSeparates(g, a, addr + next, addr + io.pos);
          }
        }
      }
      forall a | addr + pos <= a < addr + end ensures Reached(addr, ios, a) {
        if a >= addr + next {
          assert Reached(addr, tail, a);
        } else {
          assert ios[0] in ios && InPiece(addr, ios[0], a);
        }
      }
    }
  }

  /** `io` transfers exactly the bytes of one strip of a read of `len` bytes at `addr`. */
  ghost predicate IsReadPiece(l: Layout, addr: nat, len: nat, part: (nat, nat), io: Io)
    requires l.shape.Valid()
  {
    && 0 < io.len && io.pos + io.len <= len
    && (forall a :: addr <= a < addr + len ==>
          (StripAt(l.shape, a) == part <==> InPiece(addr, io, a)))
    && Located(l, addr, io)
  }

  lemma ExactIsReadPiece(l: Layout, addr: nat, len: nat, ios: seq<Io>, m: nat)
    requires l.shape.Valid() && Exact(l, addr, len, ios) && m < |ios|
    ensures IsReadPiece(l, addr, len, StripAt(l.shape, addr + ios[m].pos), ios[m])
  {
    assert ios[m] in ios;
    TiledSeparates(l.shape, addr, 0, len, ios);
  }

  /** A byte of a piece of a client read is on its disk. */
  lemma ReadPieceByte(l: Layout, disks: seq<seq<byte>>, m: nat, addr: nat, len: nat, part: (nat, nat), io: Io, a: nat)
    requires Fit(l, disks, m) && IsReadPiece(l, addr, len, part, io) && InPiece(addr, io, a)
    requires Quot(a, l.shape.DataSize()) < m
    ensures io.disk < |disks| && io.off + (a - addr - io.pos) < |disks[io.disk]|
    ensures disks[io.disk][io.off + (a - addr - io.pos)] == FlatDiskByte(l, disks, m, a)
  {
    FlatByteIsAt(l, disks, m, a);
    assert Locate(l, Data(a)) == (io.disk, io.off + (a - addr - io.pos));
  }

  /** Byte `a` of the array, as the disks hold it. */
  function FlatDiskByte(l: Layout, disks: seq<seq<byte>>, m: nat, a: nat): byte
    requires Fit(l, disks, m) && Quot(a, l.shape.DataSize()) < m
  {
    DataOf(l, disks, m, Quot(a, l.shape.DataSize()))[Wrap(a, l.shape.DataSize())]
  }

  lemma FlatByteIsAt(l: Layout, disks: seq<seq<byte>>, m: nat, a: nat)
    requires Fit(l, disks, m) && Quot(a, l.shape.DataSize()) < m
    ensures var (d, o) := Locate(l, Data(a));
      d < |disks| && o < |disks[d]| && disks[d][o] == FlatDiskByte(l, disks, m, a)
  {
    var i := Wrap(a, l.shape.DataSize());
    RoomToNext(i, l.shape.strip, l.shape.strips);
    InDisk(l, m, Quot(a, l.shape.DataSize()), Wrap(i, l.shape.strip));
  }
}
