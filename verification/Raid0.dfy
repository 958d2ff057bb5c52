/** Striping over several handlers (ublk/raid0/backend.cpp). */
module Raid0 {
  import opened Arithmetic
  import opened Bytes

  // ---------- Shifts and masks ----------

  function Pow2(k: nat): (p: nat)
    ensures p > 0
  {
    if k == 0 then 1 else 2 * Pow2(k - 1)
  }

  /** `x >> k`: `k` times the last bit is dropped. */
  function Shr(x: nat, k: nat): nat {
    if k == 0 then x else Shr(x / 2, k - 1)
  }

  /** `x << k`. */
  function Shl(x: nat, k: nat): nat
    decreases k
  {
    if k == 0 then x else Shl(2 * x, k - 1)
  }

  /** `x & m`, bit by bit. */
  function And(x: nat, m: nat): nat {
    if x == 0 || m == 0 then 0
    else (if x % 2 == 1 && m % 2 == 1 then 1 else 0) + 2 * And(x / 2, m / 2)
  }

  lemma MaskStep(x: nat, k: nat)
    requires k > 0
    ensures And(x, Pow2(k) - 1) == x % 2 + 2 * And(x / 2, Pow2(k - 1) - 1)
  {
    var p := Pow2(k - 1);
    assert (2 * p - 1) % 2 == 1 && (2 * p - 1) / 2 == p - 1;
  }

  lemma Halves(x: nat, q: nat, p: nat, r: nat)
    requires x / 2 == q * p + r
    ensures x == q * (2 * p) + (x % 2 + 2 * r)
  {
    assert q * (2 * p) == 2 * (q * p);
  }

  lemma {:induction false} ShrMask(x: nat, k: nat)
    ensures x == Shr(x, k) * Pow2(k) + And(x, Pow2(k) - 1) && And(x, Pow2(k) - 1) < Pow2(k)
    decreases k
  {
    if k > 0 {
      ShrMask(x / 2, k - 1);
      MaskStep(x, k);
      Halves(x, Shr(x / 2, k - 1), Pow2(k - 1), And(x / 2, Pow2(k - 1) - 1));
    }
  }

  /** A shift divides, and a mask takes the remainder. */
  lemma ShiftAndMask(x: nat, k: nat)
    ensures Shr(x, k) == Quot(x, Pow2(k)) && And(x, Pow2(k) - 1) == Wrap(x, Pow2(k))
  {
    ShrMask(x, k);
    QuotUnique(x, Pow2(k), Shr(x, k), And(x, Pow2(k) - 1));
  }

  lemma {:induction false} ShlIsProduct(x: nat, k: nat)
    ensures Shl(x, k) == x * Pow2(k)
    decreases k
  {
    if k > 0 {
      ShlIsProduct(2 * x, k - 1);
      assert (2 * x) * Pow2(k - 1) == x * (2 * Pow2(k - 1));
    }
  }

  // ---------- The address map ----------

  /** Address `a` of an array striped over `n` members: the member, and the address there. */
  function Place(strip: nat, n: nat, a: nat): (nat, nat)
    requires strip > 0 && n > 0
  {
    (Wrap(Quot(a, strip), n), Wrap(a, strip) + Quot(Quot(a, strip), n) * strip)
  }

  /** The address of a member's byte. */
  function AddressOf(strip: nat, n: nat, m: nat, o: nat): nat
    requires strip > 0
  {
    (Quot(o, strip) * n + m) * strip + Wrap(o, strip)
  }

  /** No two addresses share a byte of a member. */
  lemma PlaceIsInjective(strip: nat, n: nat, a: nat)
    requires strip > 0 && n > 0
    ensures Place(strip, n, a).0 < n
    ensures AddressOf(strip, n, Place(strip, n, a).0, Place(strip, n, a).1) == a
  {
    var id := Quot(a, strip);
    QuotUnique(Place(strip, n, a).1, strip, Quot(id, n), Wrap(a, strip));
    QuotWrap(a, strip);
    QuotWrap(id, n);
  }

  /** No byte of a member is left out. */
  lemma PlaceIsOnto(strip: nat, n: nat, m: nat, o: nat)
    requires strip > 0 && m < n
    ensures Place(strip, n, AddressOf(strip, n, m, o)) == (m, o)
  {
    var id := Quot(o, strip) * n + m;
    QuotUnique(AddressOf(strip, n, m, o), strip, id, Wrap(o, strip));
    QuotUnique(id, n, Quot(o, strip), m);
    QuotWrap(o, strip);
  }

  /** Strips go to the members in turn: address 0 is the first member's first byte; the next byte of
      a strip is the next byte of its member; the first byte of the next strip is on the next
      member at the same row, or, after the last member, on the first, one row further on. */
  lemma StripsGoRound(strip: nat, n: nat, a: nat)
    requires strip > 0 && n > 0
    ensures Place(strip, n, 0) == (0, 0)
    ensures var (m, o) := Place(strip, n, a);
      Place(strip, n, a + 1) == if Wrap(o + 1, strip) != 0 then (m, o + 1) else if m + 1 < n then (m + 1, o + 1 - strip) else (0, o + 1)
  {
    var id, row, j := Quot(a, strip), Quot(Quot(a, strip), n), Wrap(a, strip);
    RowEnds(strip, row, j);
    if j + 1 < strip {
      SameQuot(a, 1, strip);
    } else {
      NextQuot(a, strip);
      MulNext(row, strip);
      if Wrap(id, n) + 1 < n {
        SameQuot(id, 1, n);
      } else {
        NextQuot(id, n);
      }
    }
  }

  lemma RowEnds(strip: nat, row: nat, j: nat)
    requires j < strip
    ensures Wrap(j + row * strip + 1, strip) == 0 <==> j + 1 == strip
  {
    MulNext(row, strip);
    if j + 1 < strip {
      QuotUnique(j + row * strip + 1, strip, row, j + 1);
    } else {
      QuotUnique(j + row * strip + 1, strip, row + 1, 0);
    }
  }

  /** `n` members of `size` bytes, a whole number of strips. */
  ghost predicate Fit(strip: nat, members: seq<seq<byte>>, size: nat) {
    && strip > 0 && |members| > 0 && Wrap(size, strip) == 0
    && forall m :: 0 <= m < |members| ==> |members[m]| == size
  }

  lemma Regroup(n: nat, rows: nat, strip: nat)
    ensures n * (rows * strip) == (rows * n) * strip
  {
    assert n * (rows * strip) == (n * rows) * strip;
  }

  lemma PlaceInMember(strip: nat, n: nat, size: nat, a: nat)
    requires strip > 0 && n > 0 && Wrap(size, strip) == 0 && a < n * size
    ensures Place(strip, n, a).0 < n && Place(strip, n, a).1 < size
  {
    var id, rows := Quot(a, strip), Quot(size, strip);
    QuotWrap(size, strip);
    Regroup(n, rows, strip);
    RoomToNext(a, strip, rows * n);
    RoomToNext(id, n, rows);
    LowerQuotientIsLess(Quot(id, n), Wrap(a, strip), rows, 0, strip);
  }

  /** The array as one flat byte array. */
  function Flat(strip: nat, members: seq<seq<byte>>, size: nat): (r: seq<byte>)
    requires Fit(strip, members, size)
    ensures |r| == |members| * size
  {
    seq(|members| * size, a requires 0 <= a < |members| * size => FlatByte(strip, members, size, a))
  }

  function FlatByte(strip: nat, members: seq<seq<byte>>, size: nat, a: nat): byte
    requires Fit(strip, members, size) && a < |members| * size
  {
    PlaceInMember(strip, |members|, size, a);
    members[Place(strip, |members|, a).0][Place(strip, |members|, a).1]
  }

  // ---------- One piece of a request ----------

  /** `len` bytes of a request from its byte `pos` on, at `off` of member `hid`. */
  datatype Piece = Piece(hid: nat, off: nat, pos: nat, len: nat)

  predicate In(p: Piece, m: nat, o: nat) { m == p.hid && p.off <= o < p.off + p.len }

  /** A piece inside one strip holds exactly the addresses from `a` on. */
  lemma PieceHolds(strip: nat, n: nat, a: nat, p: Piece, x: nat)
    requires strip > 0 && n > 0 && (p.hid, p.off) == Place(strip, n, a) && Wrap(a, strip) + p.len <= strip
    ensures In(p, Place(strip, n, x).0, Place(strip, n, x).1) <==> a <= x < a + p.len
    ensures a <= x < a + p.len ==> Place(strip, n, x) == (p.hid, p.off + (x - a))
  {
    if a <= x < a + p.len {
      FurtherOn(strip, n, a, x, x - a);
    }
    if In(p, Place(strip, n, x).0, Place(strip, n, x).1) {
      SameStrip(strip, n, a, x, Place(strip, n, x).1 - p.off);
    }
  }

  lemma FurtherOn(strip: nat, n: nat, a: nat, x: nat, d: nat)
    requires strip > 0 && n > 0 && Wrap(a, strip) + d < strip && x == a + d
    ensures Place(strip, n, x) == (Place(strip, n, a).0, Place(strip, n, a).1 + d)
  {
    SameQuot(a, d, strip);
  }

  /** An address found `d` bytes further on in the strip of `a` is `a + d`. */
  lemma SameStrip(strip: nat, n: nat, a: nat, x: nat, d: nat)
    requires strip > 0 && n > 0 && Wrap(a, strip) + d < strip
    requires Place(strip, n, x) == (Place(strip, n, a).0, Place(strip, n, a).1 + d)
    ensures x == a + d
  {
    var o, row := Place(strip, n, a).1, Quot(Quot(a, strip), n);
    QuotUnique(o + d, strip, row, Wrap(a, strip) + d);
    QuotUnique(o + d, strip, Quot(Quot(x, strip), n), Wrap(x, strip));
    QuotWrap(Quot(a, strip), n);
    QuotWrap(Quot(x, strip), n);
    QuotWrap(a, strip);
    QuotWrap(x, strip);
  }

  /** The pieces of the bytes from `pos` on of a request at `addr` of `len` bytes. */
  function Pieces(strip: nat, n: nat, addr: nat, len: nat, pos: nat): seq<Piece>
    requires strip > 0 && n > 0 && pos <= len
    decreases len - pos
  {
    if pos == len then []
    else
      var j := Wrap(addr + pos, strip);
      var size := if strip - j < len - pos then strip - j else len - pos;
      var (hid, off) := Place(strip, n, addr + pos);
      [Piece(hid, off, pos, size)] + Pieces(strip, n, addr, len, pos + size)
  }

  /** A piece holds bytes of the request only, each at its place. */
  lemma {:induction false} PieceIsInside(strip: nat, n: nat, addr: nat, len: nat, pos: nat, p: Piece, x: nat)
    requires strip > 0 && n > 0 && pos <= len && p in Pieces(strip, n, addr, len, pos)
    ensures p.len > 0 && pos <= p.pos && p.pos + p.len <= len
    ensures In(p, Place(strip, n, x).0, Place(strip, n, x).1) ==>
      addr + pos <= x < addr + len && Place(strip, n, x).1 - p.off == x - addr - p.pos
    decreases len - pos
  {
    var j := Wrap(addr + pos, strip);
    var size := if strip - j < len - pos then strip - j else len - pos;
    var (hid, off) := Place(strip, n, addr + pos);
    if p == Piece(hid, off, pos, size) {
      PieceHolds(strip, n, addr + pos, p, x);
    } else {
      PieceIsInside(strip, n, addr, len, pos + size, p, x);
    }
  }

  /** The pieces follow each other, and each goes up to the end of its strip, or of the request:
      one for each strip. */
  lemma {:induction false} PiecesTile(strip: nat, n: nat, addr: nat, len: nat, pos: nat, i: nat)
    requires strip > 0 && n > 0 && pos <= len && i < |Pieces(strip, n, addr, len, pos)|
    ensures var ps := Pieces(strip, n, addr, len, pos);
      && ps[i].len > 0 && ps[i].pos == (if i == 0 then pos else ps[i - 1].pos + ps[i - 1].len)
      && (if i + 1 < |ps| then Wrap(addr + ps[i].pos + ps[i].len, strip) == 0 else ps[i].pos + ps[i].len == len)
    decreases len - pos
  {
    var ps := Pieces(strip, n, addr, len, pos);
    var size := ps[0].len;
    var rest := Pieces(strip, n, addr, len, pos + size);
    assert ps == [ps[0]] + rest && ps[0].pos == pos;
    if i == 0 {
      if size == strip - Wrap(addr + pos, strip) {
        NextQuot(addr + pos, strip);
      }
    } else {
      PiecesTile(strip, n, addr, len, pos + size, i - 1);
    }
  }

  /** Every byte of the request is in some piece. */
  lemma {:induction false} PieceFor(strip: nat, n: nat, addr: nat, len: nat, pos: nat, x: nat) returns (p: Piece)
    requires strip > 0 && n > 0 && pos <= len && addr + pos <= x < addr + len
    ensures p in Pieces(strip, n, addr, len, pos) && In(p, Place(strip, n, x).0, Place(strip, n, x).1)
    decreases len - pos
  {
    var j := Wrap(addr + pos, strip);
    var size := if strip - j < len - pos then strip - j else len - pos;
    var (hid, off) := Place(strip, n, addr + pos);
    if x < addr + pos + size {
      p := Piece(hid, off, pos, size);
      PieceHolds(strip, n, addr + pos, p, x);
    } else {
      p := PieceFor(strip, n, addr, len, pos + size, x);
    }
  }

  /** A piece cut off, to its strip's or the request's end, is the next one. */
  lemma NextPiece(strip: nat, n: nat, addr: nat, len: nat, pos: nat, ps: seq<Piece>, p: Piece)
    requires strip > 0 && n > 0 && pos < len && (p.hid, p.off) == Place(strip, n, addr + pos) && p.pos == pos
    requires p.len == var j := Wrap(addr + pos, strip); if strip - j < len - pos then strip - j else len - pos
    ensures ps + Pieces(strip, n, addr, len, pos) == ps + [p] + Pieces(strip, n, addr, len, pos + p.len)
  {
    assert Pieces(strip, n, addr, len, pos) == [p] + Pieces(strip, n, addr, len, pos + p.len);
  }

  /** The next piece lies inside one strip, and the others follow it. */
  lemma FirstPiece(strip: nat, n: nat, addr: nat, len: nat, pos: nat, ps: seq<Piece>)
    requires strip > 0 && n > 0 && pos <= len && ps == Pieces(strip, n, addr, len, pos) && ps != []
    ensures var p := ps[0];
      && p.pos == pos && p.len > 0 && pos + p.len <= len
      && (p.hid, p.off) == Place(strip, n, addr + pos) && Wrap(addr + pos, strip) + p.len <= strip
      && ps[1..] == Pieces(strip, n, addr, len, pos + p.len)
  {
  }

  /** From piece `i` on the pieces are those of the request after its first `done` bytes. */
  ghost predicate Left(strip: nat, n: nat, addr: nat, len: nat, done: nat, ps: seq<Piece>, i: nat) {
    strip > 0 && n > 0 && done <= len && i <= |ps| && ps[i..] == Pieces(strip, n, addr, len, done)
  }

  lemma NextLeft(strip: nat, n: nat, addr: nat, len: nat, done: nat, ps: seq<Piece>, i: nat)
    requires Left(strip, n, addr, len, done, ps, i) && i < |ps|
    ensures var p := ps[i];
      && p.pos == done && p.len > 0 && done + p.len <= len
      && (p.hid, p.off) == Place(strip, n, addr + done) && Wrap(addr + done, strip) + p.len <= strip
      && Left(strip, n, addr, len, done + p.len, ps, i + 1)
  {
    FirstPiece(strip, n, addr, len, done, ps[i..]);
    assert ps[i..][1..] == ps[i + 1..];
  }

  lemma NoPieces(strip: nat, n: nat, addr: nat, len: nat, pos: nat)
    requires strip > 0 && n > 0 && pos <= len && Pieces(strip, n, addr, len, pos) == []
    ensures pos == len
  {
  }

  // ---------- The loop ----------

  /** The array once the first `done` bytes of a write arrived. */
  ghost predicate Written(strip: nat, was: seq<seq<byte>>, now: seq<seq<byte>>, size: nat, addr: nat, buf: seq<byte>, done: nat) {
    && Fit(strip, was, size) && Fit(strip, now, size) && |now| == |was| && addr + |buf| <= |was| * size && done <= |buf|
    && forall x: nat :: x < |was| * size ==>
         FlatByte(strip, now, size, x) == if addr <= x < addr + done then buf[x - addr] else FlatByte(strip, was, size, x)
  }

  function Store(members: seq<seq<byte>>, p: Piece, buf: seq<byte>): seq<seq<byte>>
    requires p.hid < |members| && p.off + p.len <= |members[p.hid]| && p.pos + p.len <= |buf|
  {
    members[p.hid := Overlay(members[p.hid], p.off, buf[p.pos..p.pos + p.len])]
  }

  lemma PieceFits(strip: nat, n: nat, size: nat, a: nat, p: Piece)
    requires strip > 0 && n > 0 && Wrap(size, strip) == 0 && (p.hid, p.off) == Place(strip, n, a)
    requires p.len > 0 && Wrap(a, strip) + p.len <= strip && a + p.len <= n * size
    ensures p.hid < n && p.off + p.len <= size
  {
    PieceHolds(strip, n, a, p, a + p.len - 1);
    PlaceInMember(strip, n, size, a + p.len - 1);
  }

  lemma PieceWritten(strip: nat, was: seq<seq<byte>>, now: seq<seq<byte>>, size: nat, addr: nat, buf: seq<byte>, done: nat, p: Piece)
    requires Written(strip, was, now, size, addr, buf, done) && (p.hid, p.off) == Place(strip, |was|, addr + done)
    requires p.pos == done && p.len > 0 && done + p.len <= |buf| && Wrap(addr + done, strip) + p.len <= strip
    requires p.hid < |now| && p.off + p.len <= |now[p.hid]|
    ensures Written(strip, was, Store(now, p, buf), size, addr, buf, done + p.len)
  {
    var now' := Store(now, p, buf);
    forall x: nat | x < |was| * size
      ensures FlatByte(strip, now', size, x) == if addr <= x < addr + (done + p.len) then buf[x - addr] else FlatByte(strip, was, size, x)
    {
      PieceHolds(strip, |was|, addr + done, p, x);
      StoredByte(strip, now, size, p, buf, x);
    }
  }

  lemma StoredByte(strip: nat, members: seq<seq<byte>>, size: nat, p: Piece, buf: seq<byte>, x: nat)
    requires Fit(strip, members, size) && p.hid < |members| && p.off + p.len <= |members[p.hid]| && p.pos + p.len <= |buf|
    requires x < |members| * size
    ensures Fit(strip, Store(members, p, buf), size)
    ensures var (m, o) := Place(strip, |members|, x);
      FlatByte(strip, Store(members, p, buf), size, x)
      == if In(p, m, o) then buf[p.pos + (o - p.off)] else FlatByte(strip, members, size, x)
  {
    PlaceInMember(strip, |members|, size, x);
  }

  class Backend {
    const shift: nat                  // strip_shift
    const strip: nat                  // strip_sz
    var members: seq<seq<byte>>       // the handlers below, each one flat byte array

    ghost predicate Valid(size: nat)
      reads this
    {
      strip == Pow2(shift) && Fit(strip, members, size)
    }

    constructor (shift: nat, members: seq<seq<byte>>, ghost size: nat)
      requires Fit(Pow2(shift), members, size)
      ensures Valid(size) && this.members == members
    {
      this.shift, this.strip, this.members := shift, Pow2(shift), members;
    }

    /** The loop body's computation: where strip `id`, byte `j` is. */
    method Locate(id: nat, j: nat, ghost a: nat) returns (hid: nat, off: nat)
      requires strip == Pow2(shift) && |members| > 0 && id == Quot(a, strip) && j == Wrap(a, strip)
      ensures (hid, off) == Place(strip, |members|, a)
    {
      QuotIsDiv(id, |members|);
      ShlIsProduct(id / |members|, shift);
      hid, off := id % |members|, j + Shl(id / |members|, shift);
    }

    /** The loop of `do_op`: the requests it submits to the members, in order. */
    method Split(addr: nat, len: nat) returns (ps: seq<Piece>)
      requires strip == Pow2(shift) && |members| > 0
      ensures ps == Pieces(strip, |members|, addr, len, 0)
    {
      ShiftAndMask(addr, shift);
      var id, j, done := Shr(addr, shift), And(addr, strip - 1), 0;
      ps := [];
      while done < len
        invariant 0 <= done <= len && id >= 0 && j >= 0 && Cursor(strip, addr, len, done, id, j)
        invariant Pieces(strip, |members|, addr, len, 0) == ps + Pieces(strip, |members|, addr, len, done)
      {
        var size := if strip - j < len - done then strip - j else len - done;
        var hid, off := Locate(id, j, addr + done);
        NextPiece(strip, |members|, addr, len, done, ps, Piece(hid, off, done, size));
        ps := ps + [Piece(hid, off, done, size)];
        CursorMoves(strip, addr, len, done, id, j, size);
        id, j, done := id + 1, 0, done + size;
      }
    }

    /** `do_op` of a write: the flat array has the bytes at their address, and is as it was
        elsewhere. */
    method Write(addr: nat, buf: seq<byte>, ghost size: nat)
      requires Valid(size) && buf != [] && addr + |buf| <= |members| * size
      modifies this`members
      ensures Valid(size) && |members| == |old(members)|
      ensures Flat(strip, members, size) == Overlay(Flat(strip, old(members), size), addr, buf)
    {
      ghost var was := members;
      ghost var done: nat := 0;
      var ps := Split(addr, |buf|);
      for i := 0 to |ps|
        invariant Left(strip, |was|, addr, |buf|, done, ps, i)
        invariant Written(strip, was, members, size, addr, buf, done)
      {
        var p := ps[i];
        NextLeft(strip, |was|, addr, |buf|, done, ps, i);
        PieceFits(strip, |members|, size, addr + done, p);
        PieceWritten(strip, was, members, size, addr, buf, done, p);
        members := Store(members, p, buf);
        done := done + p.len;
      }
      NoPieces(strip, |was|, addr, |buf|, done);
      FlatWritten(strip, was, members, size, addr, buf);
    }

    /** `do_op` of a read. */
    method Read(addr: nat, len: nat, ghost size: nat) returns (buf: seq<byte>)
      requires Valid(size) && len > 0 && addr + len <= |members| * size
      ensures buf == Flat(strip, members, size)[addr..addr + len]
    {
      var ps := Split(addr, len);
      ghost var done: nat := 0;
      buf := [];
      for i := 0 to |ps|
        invariant Left(strip, |members|, addr, len, done, ps, i)
        invariant ReadTo(Flat(strip, members, size), addr, done, buf)
      {
        var p := ps[i];
        PartRead(strip, members, size, addr, len, done, ps, i, buf);
        buf := buf + members[p.hid][p.off..p.off + p.len];
        done := done + p.len;
      }
      NoPieces(strip, |members|, addr, len, done);
    }
  }

  ghost predicate ReadTo(flat: seq<byte>, addr: nat, done: nat, buf: seq<byte>) {
    addr + done <= |flat| && buf == flat[addr..addr + done]
  }

  /** The next piece is in its member, and what it reads there is the flat array's part. */
  lemma PartRead(strip: nat, members: seq<seq<byte>>, size: nat, addr: nat, len: nat, done: nat, ps: seq<Piece>, i: nat, buf: seq<byte>)
    requires Fit(strip, members, size) && addr + len <= |members| * size && i < |ps| && Left(strip, |members|, addr, len, done, ps, i)
    requires ReadTo(Flat(strip, members, size), addr, done, buf)
    ensures var p := ps[i];
      && done + p.len <= len && p.hid < |members| && p.off + p.len <= size && Left(strip, |members|, addr, len, done + p.len, ps, i + 1)
      && ReadTo(Flat(strip, members, size), addr, done + p.len, buf + members[p.hid][p.off..p.off + p.len])
  {
    NextLeft(strip, |members|, addr, len, done, ps, i);
    PieceFits(strip, |members|, size, addr + done, ps[i]);
    PieceRead(strip, members, size, addr + done, ps[i]);
    ReadMore(Flat(strip, members, size), addr, done, ps[i].len, buf, members[ps[i].hid][ps[i].off..ps[i].off + ps[i].len]);
  }

  lemma ReadMore(flat: seq<byte>, addr: nat, done: nat, len: nat, buf: seq<byte>, part: seq<byte>)
    requires addr + done + len <= |flat| && ReadTo(flat, addr, done, buf) && part == flat[addr + done..addr + done + len]
    ensures ReadTo(flat, addr, done + len, buf + part)
  {
  }

  lemma FlatWritten(strip: nat, was: seq<seq<byte>>, now: seq<seq<byte>>, size: nat, addr: nat, buf: seq<byte>)
    requires Written(strip, was, now, size, addr, buf, |buf|)
    ensures Flat(strip, now, size) == Overlay(Flat(strip, was, size), addr, buf)
  {
  }

  lemma PieceRead(strip: nat, members: seq<seq<byte>>, size: nat, a: nat, p: Piece)
    requires Fit(strip, members, size) && (p.hid, p.off) == Place(strip, |members|, a)
    requires Wrap(a, strip) + p.len <= strip && a + p.len <= |members| * size && p.hid < |members| && p.off + p.len <= size
    ensures members[p.hid][p.off..p.off + p.len] == Flat(strip, members, size)[a..a + p.len]
  {
    forall x | a <= x < a + p.len ensures members[p.hid][p.off + (x - a)] == Flat(strip, members, size)[x] {
      PieceHolds(strip, |members|, a, p, x);
    }
    var l, r := members[p.hid][p.off..p.off + p.len], Flat(strip, members, size)[a..a + p.len];
    forall i | 0 <= i < p.len ensures l[i] == r[i] {
      assert members[p.hid][p.off + (a + i - a)] == Flat(strip, members, size)[a + i];
    }
  }
}
