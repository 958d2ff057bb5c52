/** Turning requests on stripes into requests on disks (ublk/raidsp/backend.cpp). */
module RaidBackend {
  import opened Arithmetic
  import opened Bytes
  import opened StripeWriter
  import opened Layout

  /** A request on one disk: `len` bytes at `off`, for the caller's buffer from `pos` on. */
  datatype Io = Io(disk: nat, off: nat, pos: nat, len: nat)

  // ---------- What is promised ----------

  /** The stripe and strip a flat address is in. */
  function StripAt(g: Shape, a: nat): (nat, nat)
    requires g.Valid()
  {
    (Quot(a, g.DataSize()), Quot(Wrap(a, g.DataSize()), g.strip))
  }

  /** Every byte of a piece of the request at `addr` is where the address map says, and all
      are in one strip. */
  ghost predicate Located(l: Layout, addr: nat, io: Io)
    requires l.shape.Valid()
  {
    forall a :: addr + io.pos <= a < addr + io.pos + io.len ==>
      && Locate(l, Data(a)) == (io.disk, io.off + (a - addr - io.pos))
      && StripAt(l.shape, a) == StripAt(l.shape, addr + io.pos)
  }

  /** The address begins a strip. */
  predicate StripStarts(g: Shape, a: nat)
    requires g.Valid()
  {
    Wrap(Wrap(a, g.DataSize()), g.strip) == 0
  }

  /** Disk requests that cut bytes `pos` up to `end` of a request at flat address `addr` into
      non-empty pieces, in order, without gap or overlap, each ending only where a strip or
      the request ends. */
  ghost predicate Tiled(g: Shape, addr: nat, pos: nat, end: nat, ios: seq<Io>)
    requires g.Valid()
    decreases |ios|
  {
    if ios == [] then pos == end
    else
      && ios[0].pos == pos && ios[0].len > 0 && pos + ios[0].len <= end
      && (pos + ios[0].len < end ==> StripStarts(g, addr + (pos + ios[0].len)))
      && Tiled(g, addr, pos + ios[0].len, end, ios[1..])
  }

  /** The disk requests transfer the whole request of `len` bytes, each byte once and at its
      place, one strip at a time. */
  ghost predicate Exact(l: Layout, addr: nat, len: nat, ios: seq<Io>)
    requires l.shape.Valid()
  {
    Tiled(l.shape, addr, 0, len, ios) && forall m :: 0 <= m < |ios| ==> Located(l, addr, ios[m])
  }

  // ---------- The pieces ----------

  /** The pieces of one stripe from byte `j` of data strip `k` on. */
  function StripIos(l: Layout, s: nat, k: nat, j: nat, len: nat, pos: nat): seq<Io>
    requires l.shape.Valid() && j < l.shape.strip
    decreases len
  {
    if len == 0 then []
    else
      var size := if l.shape.strip - j < len then l.shape.strip - j else len;
      [Io(DataDisk(l, s, k), DiskOffset(l, s, j), pos, size)] + StripIos(l, s, k + 1, 0, len - size, pos + size)
  }

  /** The pieces of any number of stripes from byte `offset` of the data of stripe `s` on. */
  function ReadIos(l: Layout, s: nat, offset: nat, len: nat, pos: nat): seq<Io>
    requires l.shape.Valid() && offset < l.shape.DataSize()
    decreases len
  {
    if len == 0 then []
    else
      var chunk: nat := if l.shape.DataSize() - offset < len then l.shape.DataSize() - offset else len;
      assert len - chunk < len;
      StripIos(l, s, Quot(offset, l.shape.strip), Wrap(offset, l.shape.strip), chunk, pos)
      + ReadIos(l, s + 1, 0, len - chunk, pos + chunk)
  }

  lemma NextStripe(l: Layout, s: nat, offset: nat, len: nat, pos: nat, ios: seq<Io>, piece: seq<Io>)
    requires l.shape.Valid() && offset < l.shape.DataSize() && len > 0
    requires var chunk: nat := if l.shape.DataSize() - offset < len then l.shape.DataSize() - offset else len;
      piece == StripIos(l, s, Quot(offset, l.shape.strip), Wrap(offset, l.shape.strip), chunk, pos)
    ensures var chunk: nat := if l.shape.DataSize() - offset < len then l.shape.DataSize() - offset else len;
      len >= chunk && ios + ReadIos(l, s, offset, len, pos) == (ios + piece) + ReadIos(l, s + 1, 0, len - chunk, pos + chunk)
  {
  }

  /** Where in its stripe and strip a flat address is. */
  ghost predicate IsAt(g: Shape, a: nat, s: nat, offset: nat, k: nat, j: nat)
    requires g.Valid()
  {
    && Quot(a, g.DataSize()) == s && Wrap(a, g.DataSize()) == offset
    && Quot(offset, g.strip) == k && Wrap(offset, g.strip) == j
  }

  lemma Advance(g: Shape, a: nat, s: nat, offset: nat, k: nat, j: nat, d: nat)
    requires g.Valid() && IsAt(g, a, s, offset, k, j) && j + d <= g.strip
    ensures k < g.strips && offset + (g.strip - j) <= g.DataSize()
    ensures j + d < g.strip ==> IsAt(g, a + d, s, offset + d, k, j + d)
    ensures j + d == g.strip && offset + d < g.DataSize() ==> IsAt(g, a + d, s, offset + d, k + 1, 0)
    ensures j + d == g.strip ==> StripStarts(g, a + d)
  {
    RoomToNext(offset, g.strip, g.strips);
    if j + d < g.strip {
      SameQuot(a, d, g.DataSize());
      SameQuot(offset, d, g.strip);
    } else {
      NextQuot(offset, g.strip);
      if offset + d < g.DataSize() {
        SameQuot(a, d, g.DataSize());
      } else {
        NextQuot(a, g.DataSize());
      }
    }
  }

  /** A piece that does not cross its strip's end. */
  lemma PieceIsLocated(l: Layout, addr: nat, io: Io, s: nat, offset: nat, k: nat, j: nat)
    requires l.Valid() && j + io.len <= l.shape.strip
    requires IsAt(l.shape, addr + io.pos, s, offset, k, j)
    requires io.disk == DataDisk(l, s, k) && io.off == DiskOffset(l, s, j)
    ensures Located(l, addr, io)
  {
    forall a | addr + io.pos <= a < addr + io.pos + io.len
      ensures Locate(l, Data(a)) == (io.disk, io.off + (a - addr - io.pos))
      ensures StripAt(l.shape, a) == (s, k)
    {
      Advance(l.shape, addr + io.pos, s, offset, k, j, a - addr - io.pos);
    }
  }

  lemma TiledCons(g: Shape, addr: nat, pos: nat, end: nat, io: Io, tail: seq<Io>)
    requires g.Valid() && io.pos == pos && io.len > 0 && pos + io.len <= end
    requires pos + io.len < end ==> StripStarts(g, addr + (pos + io.len))
    requires Tiled(g, addr, pos + io.len, end, tail)
    ensures Tiled(g, addr, pos, end, [io] + tail)
  {
    assert ([io] + tail)[1..] == tail;
  }

  /** The piece that ends with its strip or with the request, followed by the other pieces. */
  lemma FirstPieceTiled(l: Layout, addr: nat, s: nat, offset: nat, k: nat, j: nat, size: nat, pos: nat, end: nat, tail: seq<Io>)
    requires l.shape.Valid() && 0 < size && j + size <= l.shape.strip && pos + size <= end
    requires IsAt(l.shape, addr + pos, s, offset, k, j)
    requires pos + size < end ==> j + size == l.shape.strip
    requires Tiled(l.shape, addr, pos + size, end, tail)
    ensures Tiled(l.shape, addr, pos, end, [Io(DataDisk(l, s, k), DiskOffset(l, s, j), pos, size)] + tail)
  {
    Advance(l.shape, addr + pos, s, offset, k, j, size);
    TiledCons(l.shape, addr, pos, end, Io(DataDisk(l, s, k), DiskOffset(l, s, j), pos, size), tail);
  }

  lemma FirstThenTail(l: Layout, s: nat, k: nat, j: nat, len: nat, pos: nat, size: nat, rest: seq<Io>)
    requires l.shape.Valid() && j < l.shape.strip && len > 0 && size == if l.shape.strip - j < len then l.shape.strip - j else len
    ensures StripIos(l, s, k, j, len, pos) + rest
         == [Io(DataDisk(l, s, k), DiskOffset(l, s, j), pos, size)] + (StripIos(l, s, k + 1, 0, len - size, pos + size) + rest)
  {
  }

  /** A piece that reaches the end of the stripe's data reaches the end of its strip. */
  lemma EndOfStripe(g: Shape, a: nat, s: nat, offset: nat, k: nat, j: nat, len: nat, size: nat)
    requires g.Valid() && IsAt(g, a, s, offset, k, j) && size == if g.strip - j < len then g.strip - j else len
    ensures len == size && offset + len == g.DataSize() ==> j + size == g.strip
    ensures size < len ==> j + size == g.strip
  {
    RoomToNext(offset, g.strip, g.strips);
  }

  /** The pieces of one stripe, followed by what covers the rest of the request. */
  lemma {:induction false} StripIosTiled(l: Layout, addr: nat, s: nat, offset: nat, k: nat, j: nat,
                                         len: nat, pos: nat, end: nat, rest: seq<Io>)
    requires l.shape.Valid() && j < l.shape.strip && offset + len <= l.shape.DataSize() && pos + len <= end
    requires len > 0 ==> IsAt(l.shape, addr + pos, s, offset, k, j)
    requires pos + len < end ==> offset + len == l.shape.DataSize()
    requires Tiled(l.shape, addr, pos + len, end, rest)
    ensures Tiled(l.shape, addr, pos, end, StripIos(l, s, k, j, len, pos) + rest)
    decreases len
  {
    var g := l.shape;
    if len == 0 {
      assert StripIos(l, s, k, j, len, pos) + rest == rest;
    } else {
      var size := if g.strip - j < len then g.strip - j else len;
      var tail := StripIos(l, s, k + 1, 0, len - size, pos + size) + rest;
      Advance(g, addr + pos, s, offset, k, j, size);
      StripIosTiled(l, addr, s, offset + size, k + 1, 0, len - size, pos + size, end, rest);
      EndOfStripe(g, addr + pos, s, offset, k, j, len, size);
      FirstPieceTiled(l, addr, s, offset, k, j, size, pos, end, tail);
      FirstThenTail(l, s, k, j, len, pos, size, rest);
    }
  }

  lemma {:induction false} StripIosLocated(l: Layout, addr: nat, s: nat, offset: nat, k: nat, j: nat, len: nat, pos: nat)
    requires l.Valid() && j < l.shape.strip && offset + len <= l.shape.DataSize()
    requires len > 0 ==> IsAt(l.shape, addr + pos, s, offset, k, j)
    ensures forall io :: io in StripIos(l, s, k, j, len, pos) ==> Located(l, addr, io)
    decreases len
  {
    if len > 0 {
      var size := if l.shape.strip - j < len then l.shape.strip - j else len;
      Advance(l.shape, addr + pos, s, offset, k, j, size);
      PieceIsLocated(l, addr, Io(DataDisk(l, s, k), DiskOffset(l, s, j), pos, size), s, offset, k, j);
      StripIosLocated(l, addr, s, offset + size, k + 1, 0, len - size, pos + size);
    }
  }

  /** The pieces of a request over any number of stripes. */
  lemma {:induction false} ReadIosTiled(l: Layout, addr: nat, s: nat, offset: nat, len: nat, pos: nat, end: nat)
    requires l.Valid() && offset < l.shape.DataSize() && pos + len == end
    requires len > 0 ==> Quot(addr + pos, l.shape.DataSize()) == s && Wrap(addr + pos, l.shape.DataSize()) == offset
    ensures Tiled(l.shape, addr, pos, end, ReadIos(l, s, offset, len, pos))
    ensures forall io :: io in ReadIos(l, s, offset, len, pos) ==> Located(l, addr, io)
    decreases len
  {
    if len > 0 {
      var size := l.shape.DataSize();
      var chunk := if size - offset < len then size - offset else len;
      var k, j := Quot(offset, l.shape.strip), Wrap(offset, l.shape.strip);
      NextQuot(addr + pos, size);
      ReadIosTiled(l, addr, s + 1, 0, len - chunk, pos + chunk, end);
      StripIosTiled(l, addr, s, offset, k, j, chunk, pos, end, ReadIos(l, s + 1, 0, len - chunk, pos + chunk));
      StripIosLocated(l, addr, s, offset, k, j, chunk, pos);
    }
  }

  // ---------- The handlers ----------

  /** All disks but the stripe's parity disk in order, `nr` of them from data strip `first` on. */
  function HandlersView(l: Layout, s: nat, first: nat, nr: nat): (hs: seq<nat>)
    requires l.Valid() && first + nr < l.shape.strips + 1
    ensures |hs| == nr && forall i :: 0 <= i < nr ==> hs[i] == DataDisk(l, s, first + i)
  {
    var all, skip := Disks(l.shape.strips + 1), l.parityDisk(s);
    var others := all[..skip] + all[skip + 1..];
    assert forall i :: 0 <= i < |others| ==> others[i] == DataDisk(l, s, i);
    others[first..][..nr]
  }

  function Disks(n: nat): (ds: seq<nat>)
    ensures |ds| == n && forall i :: 0 <= i < n ==> ds[i] == i
  {
    if n == 0 then [] else Disks(n - 1) + [n - 1]
  }

  lemma RoundUpIs(a: nat, n: nat)
    requires n > 0
    ensures DivRoundUp(a, n) == Quot(a, n) + if Wrap(a, n) == 0 then 0 else 1
  {
    QuotIsDiv(a + n - 1, n);
    if Wrap(a, n) == 0 {
      if a > 0 {
        QuotWrap(a, n);
        QuotWrap(a + n - 1, n);
        QuotUnique(a + n - 1, n, Quot(a, n), n - 1);
      }
    } else {
      assert a + n - 1 == (a - Wrap(a, n)) + n + (Wrap(a, n) - 1);
      QuotWrap(a, n);
      assert (Quot(a, n) + 1) * n == Quot(a, n) * n + n;
      QuotUnique(a + n - 1, n, Quot(a, n) + 1, Wrap(a, n) - 1);
    }
  }

  /** The strips a range touches, as the code counts them. */
  lemma {:induction false} StripIosCount(l: Layout, s: nat, offset: nat, len: nat, pos: nat)
    requires l.shape.Valid() && len > 0
    ensures |StripIos(l, s, Quot(offset, l.shape.strip), Wrap(offset, l.shape.strip), len, pos)|
         == DivRoundUp(offset + len, l.shape.strip) - Quot(offset, l.shape.strip)
    decreases len
  {
    var strip, k, j := l.shape.strip, Quot(offset, l.shape.strip), Wrap(offset, l.shape.strip);
    RoundUpIs(offset + len, strip);
    if strip - j < len {
      NextQuot(offset, strip);
      StripIosCount(l, s, offset + (strip - j), len - (strip - j), pos + (strip - j));
      assert offset + (strip - j) + (len - (strip - j)) == offset + len;
    } else {
      if j + len < strip {
        SameQuot(offset, len, strip);
      } else {
        NextQuot(offset, strip);
      }
    }
  }

  /** So many handlers there are, and their requests are enough for the range. */
  lemma StripCount(l: Layout, s: nat, offset: nat, len: nat, pos: nat)
    requires l.shape.Valid() && len > 0 && offset + len <= l.shape.DataSize()
    ensures Quot(offset, l.shape.strip) <= DivRoundUp(offset + len, l.shape.strip) < l.shape.strips + 1
    ensures |StripIos(l, s, Quot(offset, l.shape.strip), Wrap(offset, l.shape.strip), len, pos)|
         == DivRoundUp(offset + len, l.shape.strip) - Quot(offset, l.shape.strip)
  {
    StripIosCount(l, s, offset, len, pos);
    RoundUpFits(offset + len, l.shape.strip, l.shape.strips);
  }

  /** While handlers are left so are bytes, and the next handler gets the next strip's. */
  lemma NextStrip(l: Layout, s: nat, k: nat, j: nat, len: nat, pos: nat, size: nat, left: nat, ios: seq<Io>, whole: seq<Io>)
    requires l.shape.Valid() && j < l.shape.strip && size == if l.shape.strip - j < len then l.shape.strip - j else len
    requires whole == ios + StripIos(l, s, k, j, len, pos) && |whole| == |ios| + left && left > 0
    ensures 0 < size <= len
    ensures whole == ios + [Io(DataDisk(l, s, k), DiskOffset(l, s, j), pos, size)] + StripIos(l, s, k + 1, 0, len - size, pos + size)
  {
  }

  lemma StripIosEmpty(l: Layout, s: nat, k: nat, j: nat, len: nat, pos: nat)
    requires l.shape.Valid() && j < l.shape.strip
    ensures StripIos(l, s, k, j, len, pos) == [] <==> len == 0
  {
  }

  // ---------- The loops ----------

  /** The backend: immutable once built. */
  class Backend {
    const l: Layout

    constructor (l: Layout)
      requires l.Valid()
      ensures this.l == l
    {
      this.l := l;
    }

    /** The loop over the strips of one stripe that reads and writes share: one request for each
        handler in view.  The view is always there to take, and its handlers are always enough. */
    method StripLoop(s: nat, offset: nat, len: nat, pos: nat) returns (ios: seq<Io>)
      requires l.Valid() && len > 0 && offset + len <= l.shape.DataSize()
      ensures ios == StripIos(l, s, Quot(offset, l.shape.strip), Wrap(offset, l.shape.strip), len, pos)
      ensures |ios| == DivRoundUp(offset + len, l.shape.strip) - Quot(offset, l.shape.strip)
    {
      var first: nat, stripOffset: nat := StripAndByte(offset);
      var last := DivRoundUp(offset + len, l.shape.strip);
      StripCount(l, s, offset, len, pos);
      var hs := HandlersView(l, s, first, last - first);
      ios := Requests(s, first, stripOffset, len, pos, hs);
    }

    /** One request for each handler, the first from byte `off` of its strip on. */
    method Requests(s: nat, first: nat, off: nat, len: nat, pos: nat, hs: seq<nat>) returns (ios: seq<Io>)
      requires l.Valid() && off < l.shape.strip && |hs| == |StripIos(l, s, first, off, len, pos)|
      requires forall i :: 0 <= i < |hs| ==> hs[i] == DataDisk(l, s, first + i)
      ensures ios == StripIos(l, s, first, off, len, pos)
    {
      var strip := l.shape.strip;
      var stripOffset: nat, done: nat := off, 0;
      ghost var whole := StripIos(l, s, first, stripOffset, len, pos);
      ios := [];
      for i := 0 to |hs|
        invariant done <= len && stripOffset < strip && |ios| == i
        invariant whole == ios + StripIos(l, s, first + i, stripOffset, len - done, pos + done)
      {
        var size := if strip - stripOffset < len - done then strip - stripOffset else len - done;
        NextStrip(l, s, first + i, stripOffset, len - done, pos + done, size, |hs| - i, ios, whole);
        ios := ios + [Io(hs[i], DiskOffset(l, s, stripOffset), pos + done, size)];
        done, stripOffset := done + size, 0;
      }
      StripIosEmpty(l, s, first + |hs|, stripOffset, len - done, pos + done);
      assert done == len;
    }

    method StripAndByte(offset: nat) returns (k: nat, j: nat)
      requires l.shape.Valid()
      ensures k == Quot(offset, l.shape.strip) && j == Wrap(offset, l.shape.strip)
    {
      QuotIsDiv(offset, l.shape.strip);
      k, j := offset / l.shape.strip, offset % l.shape.strip;
    }

    /** `data_read`: any number of stripes, from `offset` in the data of stripe `from`. */
    method DataRead(ghost addr: nat, from: nat, offset: nat, len: nat) returns (ios: seq<Io>)
      requires l.Valid() && len > 0 && from == Quot(addr, l.shape.DataSize()) && offset == Wrap(addr, l.shape.DataSize())
      ensures ios == ReadIos(l, from, offset, len, 0)
      ensures Exact(l, addr, len, ios)
    {
      ios := StripesLoop(from, offset, len);
      ReadIosTiled(l, addr, from, offset, len, 0, len);
    }

    method StripesLoop(from: nat, offset: nat, len: nat) returns (ios: seq<Io>)
      requires l.Valid() && offset < l.shape.DataSize()
      ensures ios == ReadIos(l, from, offset, len, 0)
    {
      var size := l.shape.DataSize();
      var s, stripeOffset := from, offset;
      var rb := 0;
      ios := [];
      while rb < len
        invariant 0 <= rb <= len && s >= 0 && 0 <= stripeOffset < size
        invariant ReadIos(l, from, offset, len, 0) == ios + ReadIos(l, s, stripeOffset, len - rb, rb)
      {
        var chunk := if size - stripeOffset < len - rb then size - stripeOffset else len - rb;
        var piece := StripLoop(s, stripeOffset, chunk, rb);
        NextStripe(l, s, stripeOffset, len - rb, rb, ios, piece);
        ios := ios + piece;
        rb, s, stripeOffset := rb + chunk, s + 1, 0;
      }
      assert ReadIos(l, s, stripeOffset, 0, rb) == [];
    }

    /** `stripe_write`: one stripe's data range, and its whole parity strip. */
    method StripeWrite(ghost addr: nat, s: nat, offset: nat, len: nat) returns (ios: seq<Io>, parity: Io)
      requires l.Valid() && len > 0 && offset + len <= l.shape.DataSize()
      requires s == Quot(addr, l.shape.DataSize()) && offset == Wrap(addr, l.shape.DataSize())
      ensures ios == StripIos(l, s, Quot(offset, l.shape.strip), Wrap(offset, l.shape.strip), len, 0)
      ensures Exact(l, addr, len, ios)
      ensures IsParityIo(l, s, parity)
    {
      ios := StripLoop(s, offset, len, 0);
      ghost var k, j := Quot(offset, l.shape.strip), Wrap(offset, l.shape.strip);
      StripIosTiled(l, addr, s, offset, k, j, len, 0, len, []);
      StripIosLocated(l, addr, s, offset, k, j, len, 0);
      assert ios + [] == ios;
      parity := ParityIo(l, s);
    }

    /** `parity_read` asks for the whole parity strip, each byte from its place. */
    method ParityRead(s: nat) returns (parity: Io)
      requires l.Valid()
      ensures IsParityIo(l, s, parity)
    {
      parity := ParityIo(l, s);
    }
  }

  /** A request for a stripe's whole parity strip, with each byte at its place on the disks. */
  ghost predicate IsParityIo(l: Layout, s: nat, io: Io)
    requires l.shape.Valid()
  {
    && io.pos == 0 && io.len == l.shape.strip
    && forall j :: 0 <= j < l.shape.strip ==> Locate(l, Par(s, j)) == (io.disk, io.off + j)
  }

  /** There is one such request only. */
  lemma ParityIoIs(l: Layout, s: nat, io: Io)
    requires l.shape.Valid() && IsParityIo(l, s, io)
    ensures io == ParityIo(l, s)
  {
    assert Locate(l, Par(s, 0)) == (io.disk, io.off + 0);
  }

  /** Reading inside one stripe takes that stripe's pieces only. */
  lemma OneStripe(l: Layout, s: nat, offset: nat, len: nat)
    requires l.shape.Valid() && len > 0 && offset + len <= l.shape.DataSize()
    ensures ReadIos(l, s, offset, len, 0) == StripIos(l, s, Quot(offset, l.shape.strip), Wrap(offset, l.shape.strip), len, 0)
  {
    assert ReadIos(l, s + 1, 0, 0, len) == [];
  }

  /** The request for a stripe's parity strip: each of its bytes is at its place. */
  function ParityIo(l: Layout, s: nat): (io: Io)
    ensures io.pos == 0 && io.len == l.shape.strip
    ensures l.shape.Valid() ==>
      forall j :: 0 <= j < l.shape.strip ==> Locate(l, Par(s, j)) == (io.disk, io.off + j)
  {
    Io(l.parityDisk(s), s * l.shape.strip, 0, l.shape.strip)
  }
}
