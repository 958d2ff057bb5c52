/** Where the bytes of a RAID4/5 array live: stripes over disks around a parity disk
    (ublk/raidsp/backend.cpp, ublk/raid4/target.cpp, ublk/raid5/target.cpp). */
module Layout {
  import opened Arithmetic
  import opened Bytes
  import opened StripeWriter

  // ---------- Parity placement ----------

  /** RAID4: always the last of the `n` disks. */
  function Raid4ParityDisk(n: nat, stripe: nat): (d: nat)
    requires n > 0
    ensures d < n
  {
    n - 1
  }

  /** RAID5: rotating from the last disk down. */
  function Raid5ParityDisk(n: nat, stripe: nat): (d: nat)
    requires n > 0
    ensures d < n
  {
    WrapIsMod(stripe, n);
    n - (stripe % n) - 1
  }

  /** A shape over `strips + 1` disks and the choice of each stripe's parity disk. */
  datatype Layout = Layout(shape: Shape, parityDisk: nat -> nat) {
    ghost predicate Valid() {
      shape.Valid() && forall s: nat :: parityDisk(s) <= shape.strips
    }
  }

  function Raid4(shape: Shape): Layout { Layout(shape, (s: nat) => Raid4ParityDisk(shape.strips + 1, s)) }
  function Raid5(shape: Shape): Layout { Layout(shape, (s: nat) => Raid5ParityDisk(shape.strips + 1, s)) }

  lemma RaidLayoutsAreValid(shape: Shape)
    requires shape.Valid()
    ensures Raid4(shape).Valid() && Raid5(shape).Valid()
  {
  }

  /** RAID4 keeps data strip `k` on disk `k` and the parity on the disk behind them. */
  lemma Raid4IsInOrder(g: Shape, s: nat, k: nat)
    requires g.Valid() && k < g.strips
    ensures DataDisk(Raid4(g), s, k) == k && Raid4(g).parityDisk(s) == g.strips
  {
  }

  /** RAID5 starts on the last disk and moves down one disk a stripe, around. */
  lemma Raid5MovesDown(n: nat, s: nat)
    requires n > 0
    ensures Raid5ParityDisk(n, 0) == n - 1
    ensures Raid5ParityDisk(n, s + 1) == if Raid5ParityDisk(n, s) == 0 then n - 1 else Raid5ParityDisk(n, s) - 1
  {
    QuotIsDiv(s, n);
    QuotIsDiv(s + 1, n);
    QuotWrapNext(s, n);
  }

  // ---------- The address map ----------

  /** A byte of the array: data byte `a` of the flat array, or byte `j` of a stripe's parity. */
  datatype Place = Data(a: nat) | Par(s: nat, j: nat)

  /** The disk of data strip `k`: all disks in order but the parity disk. */
  function DataDisk(l: Layout, s: nat, k: nat): nat {
    if k < l.parityDisk(s) then k else k + 1
  }

  function DiskOffset(l: Layout, s: nat, j: nat): nat { s * l.shape.strip + j }

  /** Disk and offset of a byte. */
  function Locate(l: Layout, p: Place): (nat, nat)
    requires l.shape.Valid()
  {
    match p
    case Data(a) =>
      var s, i := Quot(a, l.shape.DataSize()), Wrap(a, l.shape.DataSize());
      (DataDisk(l, s, Quot(i, l.shape.strip)), DiskOffset(l, s, Wrap(i, l.shape.strip)))
    case Par(s, j) =>
      (l.parityDisk(s), DiskOffset(l, s, j))
  }

  /** What a disk holds at an offset. */
  function PlaceAt(l: Layout, d: nat, o: nat): Place
    requires l.shape.Valid()
  {
    var s, j := Quot(o, l.shape.strip), Wrap(o, l.shape.strip);
    if d == l.parityDisk(s) then Par(s, j)
    else Data(s * l.shape.DataSize() + (if d < l.parityDisk(s) then d else d - 1) * l.shape.strip + j)
  }

  /** Strip `k`, byte `j` is inside the stripe's data, and is found there again. */
  lemma InStrip(g: Shape, k: nat, j: nat)
    requires g.Valid() && k < g.strips && j < g.strip
    ensures k * g.strip + j < g.DataSize()
    ensures Quot(k * g.strip + j, g.strip) == k && Wrap(k * g.strip + j, g.strip) == j
  {
    LowerQuotientIsLess(k, j, g.strips, 0, g.strip);
    QuotUnique(k * g.strip + j, g.strip, k, j);
  }

  /** A place inside the stripe's data is in one of its strips. */
  lemma StripBound(g: Shape, i: nat)
    requires g.Valid() && i < g.DataSize()
    ensures Quot(i, g.strip) < g.strips
    ensures i == Quot(i, g.strip) * g.strip + Wrap(i, g.strip)
  {
    QuotWrap(i, g.strip);
    QuotBelow(i, g.strip, g.strips);
  }

  lemma QuotBelow(a: nat, n: nat, m: nat)
    requires n > 0 && a < m * n
    ensures Quot(a, n) < m
  {
    QuotWrap(a, n);
    if m < Quot(a, n) {
      LowerQuotientIsLess(m, 0, Quot(a, n), Wrap(a, n), n);
    }
  }

  /** No two bytes share a place on the disks. */
  lemma LocateIsInjective(l: Layout, p: Place)
    requires l.Valid() && (p.Par? ==> p.j < l.shape.strip)
    ensures Locate(l, p).0 <= l.shape.strips
    ensures PlaceAt(l, Locate(l, p).0, Locate(l, p).1) == p
  {
    var g := l.shape;
    match p
    case Data(a) =>
      var s, i := Quot(a, g.DataSize()), Wrap(a, g.DataSize());
      StripBound(g, i);
      QuotWrap(a, g.DataSize());
      QuotUnique(DiskOffset(l, s, Wrap(i, g.strip)), g.strip, s, Wrap(i, g.strip));
    case Par(s, j) =>
      QuotUnique(DiskOffset(l, s, j), g.strip, s, j);
  }

  /** No place on the disks is left out. */
  lemma LocateIsOnto(l: Layout, d: nat, o: nat)
    requires l.Valid() && d <= l.shape.strips
    ensures Locate(l, PlaceAt(l, d, o)) == (d, o)
    ensures PlaceAt(l, d, o).Par? ==> PlaceAt(l, d, o).j < l.shape.strip
  {
    var g := l.shape;
    var s, j := Quot(o, g.strip), Wrap(o, g.strip);
    QuotWrap(o, g.strip);
    if d != l.parityDisk(s) {
      var k := if d < l.parityDisk(s) then d else d - 1;
      AddressIsAt(l, s, k, j, PlaceAt(l, d, o).a);
    }
  }

  /** The first disk from `d` on that does not hold the parity of stripe `s`. */
  function DataDiskFrom(l: Layout, s: nat, d: nat): (r: nat)
    ensures r != l.parityDisk(s) && d <= r <= d + 1
    ensures r > d ==> d == l.parityDisk(s)
  {
    if d == l.parityDisk(s) then d + 1 else d
  }

  /** The flat array goes over the disks in order, around the parity: it starts with the first data
      disk's first byte; the next byte of a strip is the disk's next byte; the next strip is on the
      next data disk, at the same row, or, after the last one, on the first data disk of the next
      stripe, one row further on. */
  lemma StripsGoAcross(l: Layout, a: nat)
    requires l.Valid()
    ensures Locate(l, Data(0)) == (DataDiskFrom(l, 0, 0), 0)
    ensures var (d, o) := Locate(l, Data(a)); var s := Quot(o, l.shape.strip);
      Locate(l, Data(a + 1)) ==
        if Wrap(o + 1, l.shape.strip) != 0 then (d, o + 1)
        else if DataDiskFrom(l, s, d + 1) <= l.shape.strips then (DataDiskFrom(l, s, d + 1), o + 1 - l.shape.strip)
        else (DataDiskFrom(l, s + 1, 0), o + 1)
  {
    var g := l.shape;
    var s, i := Quot(a, g.DataSize()), Wrap(a, g.DataSize());
    var k, j := Quot(i, g.strip), Wrap(i, g.strip);
    StripBound(g, i);
    QuotWrap(a, g.DataSize());
    NextAddress(l, s, k, j, a);
    NextPlace(l, s, k, j, Locate(l, Data(a + 1)));
    assert Locate(l, Data(a)) == (DataDisk(l, s, k), DiskOffset(l, s, j));
  }

  /** The place after byte `j` of data strip `k` of stripe `s`, from where that one is. */
  lemma NextPlace(l: Layout, s: nat, k: nat, j: nat, next: (nat, nat))
    requires l.Valid() && k < l.shape.strips && j < l.shape.strip && next == Next(l, s, k, j)
    ensures var d, o := DataDisk(l, s, k), DiskOffset(l, s, j);
      && Quot(o, l.shape.strip) == s
      && next ==
           if Wrap(o + 1, l.shape.strip) != 0 then (d, o + 1)
           else if DataDiskFrom(l, s, d + 1) <= l.shape.strips then (DataDiskFrom(l, s, d + 1), o + 1 - l.shape.strip)
           else (DataDiskFrom(l, s + 1, 0), o + 1)
  {
    RowEnds(l.shape, s, j);
  }

  /** Where the byte after byte `j` of data strip `k` of stripe `s` is. */
  function Next(l: Layout, s: nat, k: nat, j: nat): (nat, nat) {
    if j + 1 < l.shape.strip then (DataDisk(l, s, k), DiskOffset(l, s, j + 1))
    else if k + 1 < l.shape.strips then (DataDisk(l, s, k + 1), DiskOffset(l, s, 0))
    else (DataDisk(l, s + 1, 0), DiskOffset(l, s + 1, 0))
  }

  lemma NextAddress(l: Layout, s: nat, k: nat, j: nat, a: nat)
    requires l.Valid() && k < l.shape.strips && j < l.shape.strip && a == s * l.shape.DataSize() + (k * l.shape.strip + j)
    ensures Locate(l, Data(a + 1)) == Next(l, s, k, j)
  {
    var g := l.shape;
    if j + 1 < g.strip {
      AddressIsAt(l, s, k, j + 1, a + 1);
    } else if k + 1 < g.strips {
      MulNext(k, g.strip);
      AddressIsAt(l, s, k + 1, 0, a + 1);
    } else {
      StripeEnds(g, s, k);
      AddressIsAt(l, s + 1, 0, 0, a + 1);
    }
  }

  /** The last strip ends with its stripe's data. */
  lemma StripeEnds(g: Shape, s: nat, k: nat)
    requires g.Valid() && k + 1 == g.strips
    ensures s * g.DataSize() + (k * g.strip + g.strip) == (s + 1) * g.DataSize() + (0 * g.strip + 0)
  {
    MulNext(k, g.strip);
    MulNext(s, g.DataSize());
    assert (k + 1) * g.strip == g.DataSize();
  }

  /** Byte `j` of data strip `k` of stripe `s`. */
  lemma AddressIsAt(l: Layout, s: nat, k: nat, j: nat, a: nat)
    requires l.Valid() && k < l.shape.strips && j < l.shape.strip && a == s * l.shape.DataSize() + (k * l.shape.strip + j)
    ensures Locate(l, Data(a)) == (DataDisk(l, s, k), DiskOffset(l, s, j))
  {
    InStrip(l.shape, k, j);
    QuotUnique(a, l.shape.DataSize(), s, k * l.shape.strip + j);
  }

  lemma RowEnds(g: Shape, s: nat, j: nat)
    requires g.Valid() && j < g.strip
    ensures Quot(s * g.strip + j, g.strip) == s
    ensures Wrap(s * g.strip + j + 1, g.strip) == 0 <==> j + 1 == g.strip
    ensures (s + 1) * g.strip == s * g.strip + g.strip
  {
    QuotUnique(s * g.strip + j, g.strip, s, j);
    if j + 1 < g.strip {
      QuotUnique(s * g.strip + j + 1, g.strip, s, j + 1);
    } else {
      QuotUnique(s * g.strip + j + 1, g.strip, s + 1, 0);
    }
  }

  /** The stripe a byte belongs to. */
  function StripeOfPlace(g: Shape, p: Place): nat
    requires g.Valid()
  {
    match p
    case Data(a) => Quot(a, g.DataSize())
    case Par(s, _) => s
  }

  /** Data never lands on its stripe's parity disk, and every byte of a stripe, data or parity, is
      in the stripe's own part of its disk. */
  lemma StripesAreApart(l: Layout, p: Place)
    requires l.Valid() && (p.Par? ==> p.j < l.shape.strip)
    ensures var s := StripeOfPlace(l.shape, p);
      && (Locate(l, p).0 == l.parityDisk(s) <==> p.Par?)
      && s * l.shape.strip <= Locate(l, p).1 < (s + 1) * l.shape.strip
  {
    var s := StripeOfPlace(l.shape, p);
    assert (s + 1) * l.shape.strip == s * l.shape.strip + l.shape.strip;
  }

  /** So bytes of different stripes never meet on a disk. */
  lemma StripesDoNotMeet(l: Layout, p: Place, q: Place)
    requires l.Valid() && (p.Par? ==> p.j < l.shape.strip) && (q.Par? ==> q.j < l.shape.strip)
    ensures StripeOfPlace(l.shape, p) < StripeOfPlace(l.shape, q) ==> Locate(l, p).1 < Locate(l, q).1
  {
    StripesAreApart(l, p);
    StripesAreApart(l, q);
    if StripeOfPlace(l.shape, p) < StripeOfPlace(l.shape, q) {
      MulMonotone(StripeOfPlace(l.shape, p) + 1, StripeOfPlace(l.shape, q), l.shape.strip);
    }
  }

  // ---------- Balance of RAID5 ----------

  /** How many of the first `m` stripes keep their parity on disk `d`. */
  function ParityCount(n: nat, m: nat, d: nat): nat
    requires n > 0
  {
    if m == 0 then 0 else ParityCount(n, m - 1, d) + (if Raid5ParityDisk(n, m - 1) == d then 1 else 0)
  }

  lemma QuotWrapNext(x: nat, n: nat)
    requires n > 0
    ensures Wrap(x, n) + 1 < n ==> Quot(x + 1, n) == Quot(x, n) && Wrap(x + 1, n) == Wrap(x, n) + 1
    ensures Wrap(x, n) + 1 == n ==> Quot(x + 1, n) == Quot(x, n) + 1 && Wrap(x + 1, n) == 0
  {
    if x >= n {
      QuotWrapNext(x - n, n);
    }
  }

  lemma {:induction false} ParityCountIs(n: nat, m: nat, d: nat)
    requires n > 0 && d < n
    ensures ParityCount(n, m, d) == m / n + if d >= n - m % n then 1 else 0
  {
    QuotIsDiv(m, n);
    if m > 0 {
      ParityCountIs(n, m - 1, d);
      QuotIsDiv(m - 1, n);
      QuotWrapNext(m - 1, n);
    }
  }

  /** Over any `n` consecutive stripes every disk holds the parity exactly once. */
  lemma RotationIsFair(n: nat, from: nat, d: nat)
    requires n > 0 && d < n
    ensures ParityCount(n, from + n, d) == ParityCount(n, from, d) + 1
  {
    ParityCountIs(n, from, d);
    ParityCountIs(n, from + n, d);
    QuotIsDiv(from, n);
    QuotIsDiv(from + n, n);
  }

  /** How many of the first `k` data strips of a stripe disk `d` holds. */
  function StripsOn(l: Layout, s: nat, k: nat, d: nat): nat {
    if k == 0 then 0 else StripsOn(l, s, k - 1, d) + (if DataDisk(l, s, k - 1) == d then 1 else 0)
  }

  /** How many strips disk `d` delivers to a full read of the first `m` stripes. */
  function StripReads(l: Layout, m: nat, d: nat): nat {
    if m == 0 then 0 else StripReads(l, m - 1, d) + StripsOn(l, m - 1, l.shape.strips, d)
  }

  lemma {:induction false} StripsOnIs(l: Layout, s: nat, k: nat, d: nat)
    requires l.Valid() && k <= l.shape.strips
    ensures var p := l.parityDisk(s);
      StripsOn(l, s, k, d) == if d != p && (if d < p then d else d - 1) < k then 1 else 0
  {
    if k > 0 {
      StripsOnIs(l, s, k - 1, d);
    }
  }

  /** A full read of `m` stripes of a RAID5 array spreads evenly over its `n` disks. */
  lemma {:induction false} ReadsAreSpread(g: Shape, m: nat, d: nat)
    requires g.Valid() && d <= g.strips
    ensures var n := g.strips + 1;
      StripReads(Raid5(g), m, d) == (n - 1) * (m / n) + m % n - if d >= n - m % n then 1 else 0
  {
    var n := g.strips + 1;
    ReadsAndParities(g, m, d);
    ParityCountIs(n, m, d);
    Regroup(m, n);
  }

  lemma Regroup(m: nat, n: nat)
    requires n > 0
    ensures m - m / n == (n - 1) * (m / n) + m % n
  {
    assert m == n * (m / n) + m % n;
    assert (n - 1) * (m / n) == n * (m / n) - m / n;
  }

  lemma {:induction false} ReadsAndParities(g: Shape, m: nat, d: nat)
    requires g.Valid() && d <= g.strips
    ensures StripReads(Raid5(g), m, d) + ParityCount(g.strips + 1, m, d) == m
  {
    if m > 0 {
      ReadsAndParities(g, m - 1, d);
      StripsOnIs(Raid5(g), m - 1, g.strips, d);
    }
  }
}
