/** The write-through cache (ublk/cache/rwt_handler.cpp): one lock per chunk, one shared list of
    chunk writes that wait, cached chunks changed before the write goes below, chunks that are
    not cached read first. */
module RwtHandler {
  import opened Arithmetic
  import opened Bytes
  import opened Options
  import opened BitsetLocker
  import opened FlatLru
  import opened CacheReads
  import opened Waiting

  /** A part of client write `rid`: bytes `off` onwards of one chunk. */
  datatype Sub = Sub(rid: nat, chunk: nat, off: nat, buf: seq<byte>)

  /** The chunk is read before it is modified, or the write is below already. */
  datatype Stage = Reading(whole: seq<byte>, got: set<nat>) | Storing

  datatype Active = Active(w: Sub, stage: Stage)

  predicate Covers(w: Sub, i: nat) { w.off <= i < w.off + |w.buf| }

  // ---------- Coherence ----------

  /** The layer below, overlaid with the one write in flight on the chunk. */
  function Expect(n: nat, dev: seq<byte>, active: map<nat, Active>, a: nat): byte
    requires n > 0 && a < |dev|
  {
    var c, i := ChunkOf(n, a), Inside(n, a);
    if c in active && active[c].stage.Storing? && Covers(active[c].w, i) then active[c].w.buf[i - active[c].w.off] else dev[a]
  }

  ghost predicate PairOk(n: nat, dev: seq<byte>, active: map<nat, Active>, p: Pair<seq<byte>>)
    requires n > 0
  {
    |p.data| == n && forall a: nat :: a < |dev| && ChunkOf(n, a) == p.key ==> p.data[Inside(n, a)] == Expect(n, dev, active, a)
  }

  /** Every cached chunk, but for chunk `hole`, is as expected. */
  ghost predicate CachedOk(n: nat, dev: seq<byte>, active: map<nat, Active>, l: seq<Pair<seq<byte>>>, hole: int)
    requires n > 0
  {
    forall p :: p in l && p.key != hole ==> PairOk(n, dev, active, p)
  }

  /** What was read of chunk `c` so far is what is below. */
  ghost predicate ReadOk(n: nat, dev: seq<byte>, c: nat, buf: seq<byte>, got: set<nat>)
    requires n > 0
  {
    |buf| == n && forall a: nat :: a < |dev| && ChunkOf(n, a) == c && Inside(n, a) in got ==> buf[Inside(n, a)] == dev[a]
  }

  ghost predicate ReadingOk(n: nat, dev: seq<byte>, active: map<nat, Active>)
    requires n > 0
  {
    forall c :: c in active && active[c].stage.Reading? ==> ReadOk(n, dev, c, active[c].stage.whole, active[c].stage.got)
  }

  /** Fetches of clients that may still fill the cache. */
  ghost predicate FetchedOk(n: nat, dev: seq<byte>, done: nat, fetches: map<nat, Fetch>)
    requires n > 0
  {
    forall id :: id in fetches && fetches[id].since >= done ==> ReadOk(n, dev, fetches[id].chunk, fetches[id].buf, fetches[id].got)
  }

  /** A client's fetch that may fill the cache overlaps a write of its chunk that is below. */
  ghost predicate Overlaps(active: map<nat, Active>, done: nat, f: Fetch) {
    f.since == done && f.chunk in active && active[f.chunk].stage.Storing?
  }

  ghost predicate NoOverlap(active: map<nat, Active>, done: nat, fetches: map<nat, Fetch>) {
    forall id :: id in fetches ==> !Overlaps(active, done, fetches[id])
  }

  /** No miss of a client that may still fill the cache is under way for a chunk that is locked. */
  ghost predicate SeparateIn(bits: seq<bool>, done: nat, fetches: map<nat, Fetch>) {
    forall id :: id in fetches && fetches[id].since == done ==> !Held(bits, fetches[id].chunk)
  }

  /** A request for `len` bytes at `addr` has the whole chunk of address `a`. */
  predicate Swallows(n: nat, addr: nat, len: nat, a: nat)
    requires n > 0
  {
    addr <= a - Inside(n, a) && a - Inside(n, a) + n <= addr + len
  }

  /** Of each chunk a write touches it writes the whole, or no miss that may still fill the cache
      is of it. */
  predicate MissesSpare(n: nat, done: nat, fetches: map<nat, Fetch>, addr: nat, len: nat)
    requires n > 0
  {
    forall a, id | addr <= a < addr + len && id in fetches ::
      fetches[id].since == done && fetches[id].chunk == ChunkOf(n, a) ==> Swallows(n, addr, len, a)
  }

  /** Each chunk a read touches is cached, or free. */
  ghost predicate HitsOrFree(n: nat, l: seq<Pair<seq<byte>>>, bits: seq<bool>, addr: nat, len: nat)
    requires n > 0
  {
    forall a :: addr <= a < addr + len ==> Has(l, ChunkOf(n, a)) || !Held(bits, ChunkOf(n, a))
  }

  ghost predicate NoMissOf(done: nat, fetches: map<nat, Fetch>, c: nat) {
    forall id :: id in fetches && fetches[id].since == done ==> fetches[id].chunk != c
  }

  lemma SparedLater(n: nat, done: nat, done': nat, fetches: map<nat, Fetch>, addr: nat, len: nat)
    requires n > 0 && done <= done' && forall id :: id in fetches ==> fetches[id].since <= done
    requires MissesSpare(n, done, fetches, addr, len)
    ensures MissesSpare(n, done', fetches, addr, len)
  {
  }

  // ---------- Books ----------

  ghost predicate SubOk(n: nat, m: nat, w: Sub) {
    |w.buf| > 0 && w.off + |w.buf| <= n && w.chunk < m
  }

  ghost predicate ActiveOk(n: nat, m: nat, c: nat, x: Active) {
    x.w.chunk == c && SubOk(n, m, x.w) && (x.stage.Reading? ==> |x.stage.whole| == n)
  }

  /** At most one write per chunk runs, and exactly while the chunk's lock bit is set; only
      writes of locked chunks wait. */
  ghost predicate BooksOk(n: nat, m: nat, bits: seq<bool>, active: map<nat, Active>, pending: seq<Sub>, hole: int) {
    && |bits| <= m
    && (forall c: nat :: Held(bits, c) <==> c in active || c == hole)
    && (hole >= 0 ==> hole !in active)
    && (forall c :: c in active ==> ActiveOk(n, m, c, active[c]))
    && (forall j :: 0 <= j < |pending| ==> SubOk(n, m, pending[j]) && Held(bits, pending[j].chunk))
  }

  /** How often a chunk write was served, runs, or waits. */
  function Tally(served: multiset<Sub>, pending: seq<Sub>, active: map<nat, Active>, w: Sub): nat {
    served[w] + multiset(pending)[w] + if w.chunk in active && active[w.chunk].w == w then 1 else 0
  }

  /** Every accepted chunk write is served once. */
  ghost predicate Counted(accepted: multiset<Sub>, served: multiset<Sub>, pending: seq<Sub>, active: map<nat, Active>) {
    forall w: Sub :: accepted[w] == Tally(served, pending, active, w)
  }

  function FirstPending(pending: seq<Sub>, c: nat): (j: nat)
    ensures j <= |pending| && (j < |pending| ==> pending[j].chunk == c)
    ensures forall i :: 0 <= i < j ==> pending[i].chunk != c
  {
    if pending == [] then 0 else if pending[0].chunk == c then 0 else 1 + FirstPending(pending[1..], c)
  }

  /** The lock of chunk `c` went to the first write waiting for it, or was released. */
  ghost predicate PassedOn(pending: seq<Sub>, pending': seq<Sub>, active': map<nat, Active>, c: nat) {
    var j := FirstPending(pending, c);
    if j < |pending| then pending' == Without(pending, j) && c in active' && active'[c].w == pending[j]
    else pending' == pending && c !in active'
  }

  /** A chunk is locked exactly while a write of it runs, and then only may others wait. */
  lemma LockedIsBusy(n: nat, m: nat, bits: seq<bool>, active: map<nat, Active>, pending: seq<Sub>, c: nat)
    requires BooksOk(n, m, bits, active, pending, -1)
    ensures Held(bits, c) <==> c in active || exists j :: 0 <= j < |pending| && pending[j].chunk == c
  {
  }

  /** So clients' misses are apart from writes below, whatever the layer below does next. */
  lemma SeparateIsApart(n: nat, m: nat, bits: seq<bool>, active: map<nat, Active>, pending: seq<Sub>, hole: int,
                        done: nat, fetches: map<nat, Fetch>)
    requires BooksOk(n, m, bits, active, pending, hole) && SeparateIn(bits, done, fetches)
    ensures NoOverlap(active, done, fetches)
  {
  }

  function Place(w: Sub): nat { w.chunk }

  /** When a chunk's lock is passed on, the writes left for each chunk keep their order exactly if
      none of those behind the taken one waits for the chunk of the very last one. */
  lemma OrderOfService(pending: seq<Sub>, c: nat)
    requires FirstPending(pending, c) < |pending|
    ensures var j, last := FirstPending(pending, c), |pending| - 1;
      OrderKept(pending, Place, j) <==> forall i :: j < i < last ==> pending[i].chunk != pending[last].chunk
  {
    OrderKeptIff(pending, Place, FirstPending(pending, c));
  }

  /** Of three writes waiting for one chunk the third is taken second. */
  lemma ThirdOvertakesSecond(x: Sub, y: Sub, z: Sub)
    requires x.chunk == y.chunk == z.chunk
    ensures FirstPending([x, y, z], x.chunk) == 0 && Without([x, y, z], 0) == [z, y]
    ensures FirstPending([z, y], x.chunk) == 0 && Without([z, y], 0) == [y]
  {
  }

  // ---------- What each step does to coherence ----------

  /** A write of chunk `c` starts, goes below, or ends: other chunks do not mind. */
  lemma OtherPairs(n: nat, dev: seq<byte>, dev': seq<byte>, active: map<nat, Active>, active': map<nat, Active>, c: nat, p: Pair<seq<byte>>)
    requires n > 0 && PairOk(n, dev, active, p) && p.key != c && |dev'| == |dev|
    requires forall d: nat :: d != c ==> (d in active' <==> d in active) && (d in active ==> active'[d] == active[d])
    requires forall a: nat :: a < |dev| && ChunkOf(n, a) != c ==> dev'[a] == dev[a]
    ensures PairOk(n, dev', active', p)
  {
  }

  /** The chunk's own pair, as it should be once the write `w` is below. */
  lemma OwnPair(n: nat, dev: seq<byte>, active: map<nat, Active>, w: Sub, was: seq<byte>)
    requires n > 0 && |was| == n && w.off + |w.buf| <= n
    requires forall a: nat :: a < |dev| && ChunkOf(n, a) == w.chunk && !Covers(w, Inside(n, a)) ==> was[Inside(n, a)] == dev[a]
    ensures PairOk(n, dev, active[w.chunk := Active(w, Storing)], Pair(w.chunk, Overlay(was, w.off, w.buf)))
  {
  }

  /** A write goes below while the cache gains its chunk. */
  lemma GoesBelow(n: nat, dev: seq<byte>, active: map<nat, Active>, l: seq<Pair<seq<byte>>>, l': seq<Pair<seq<byte>>>, hole: int, w: Sub, data: seq<byte>)
    requires n > 0 && CachedOk(n, dev, active, l, hole) && Gained(l, l', w.chunk, data)
    requires PairOk(n, dev, active[w.chunk := Active(w, Storing)], Pair(w.chunk, data)) || hole == w.chunk
    ensures CachedOk(n, dev, active[w.chunk := Active(w, Storing)], l', hole)
  {
    forall p | p in l' && p.key != hole ensures PairOk(n, dev, active[w.chunk := Active(w, Storing)], p) {
      if p != Pair(w.chunk, data) {
        OtherPairs(n, dev, dev, active, active[w.chunk := Active(w, Storing)], w.chunk, p);
      }
    }
  }

  /** A write of a chunk that is not cached starts to read it: nothing is below yet. */
  lemma StartsReading(n: nat, dev: seq<byte>, active: map<nat, Active>, l: seq<Pair<seq<byte>>>, hole: int, x: Active)
    requires n > 0 && CachedOk(n, dev, active, l, hole) && x.stage.Reading? && x.w.chunk !in active
    ensures CachedOk(n, dev, active[x.w.chunk := x], l, hole)
  {
    forall p | p in l && p.key != hole ensures PairOk(n, dev, active[x.w.chunk := x], p) {
      assert PairOk(n, dev, active, p);
    }
  }

  lemma SameReads(n: nat, dev: seq<byte>, dev': seq<byte>, c: nat, d: nat, buf: seq<byte>, got: set<nat>)
    requires n > 0 && ReadOk(n, dev, d, buf, got) && d != c && |dev'| == |dev|
    requires forall a: nat :: a < |dev| && ChunkOf(n, a) != c ==> dev'[a] == dev[a]
    ensures ReadOk(n, dev', d, buf, got)
  {
  }

  /** Below, the bytes of one chunk change, all of them bytes of the write in flight on it. */
  ghost predicate ChangedIn(n: nat, dev: seq<byte>, dev': seq<byte>, w: Sub)
    requires n > 0
  {
    |dev'| == |dev| &&
    forall a: nat :: a < |dev| && !(ChunkOf(n, a) == w.chunk && Covers(w, Inside(n, a))) ==> dev'[a] == dev[a]
  }

  lemma ChangeKeeps(n: nat, dev: seq<byte>, dev': seq<byte>, active: map<nat, Active>, l: seq<Pair<seq<byte>>>, done: nat, fetches: map<nat, Fetch>, c: nat)
    requires n > 0 && CachedOk(n, dev, active, l, -1) && ReadingOk(n, dev, active) && FetchedOk(n, dev, done, fetches)
    requires c in active && active[c].w.chunk == c && active[c].stage.Storing? && ChangedIn(n, dev, dev', active[c].w)
    requires NoOverlap(active, done, fetches) && forall id :: id in fetches ==> fetches[id].since <= done
    ensures CachedOk(n, dev', active, l, -1) && ReadingOk(n, dev', active) && FetchedOk(n, dev', done, fetches)
  {
    forall p | p in l && p.key != -1 ensures PairOk(n, dev', active, p) {
      assert PairOk(n, dev, active, p);
    }
    forall d | d in active && active[d].stage.Reading? ensures ReadOk(n, dev', d, active[d].stage.whole, active[d].stage.got) {
      SameReads(n, dev, dev', c, d, active[d].stage.whole, active[d].stage.got);
    }
    forall id | id in fetches && fetches[id].since >= done ensures ReadOk(n, dev', fetches[id].chunk, fetches[id].buf, fetches[id].got) {
      SameReads(n, dev, dev', c, fetches[id].chunk, fetches[id].buf, fetches[id].got);
    }
  }

  /** A write that is below in full ends. */
  lemma EndsWell(n: nat, dev: seq<byte>, active: map<nat, Active>, l: seq<Pair<seq<byte>>>, c: nat)
    requires n > 0 && CachedOk(n, dev, active, l, -1) && c in active
    requires active[c].stage.Storing? ==>
      forall a: nat :: a < |dev| && ChunkOf(n, a) == c && Covers(active[c].w, Inside(n, a)) ==>
        dev[a] == active[c].w.buf[Inside(n, a) - active[c].w.off]
    ensures CachedOk(n, dev, active - {c}, l, -1)
  {
    forall p | p in l && p.key != -1 ensures PairOk(n, dev, active - {c}, p) {
      assert PairOk(n, dev, active, p);
    }
  }

  /** A write that failed ends: its chunk is not to be trusted. */
  lemma EndsBadly(n: nat, dev: seq<byte>, active: map<nat, Active>, l: seq<Pair<seq<byte>>>, c: nat)
    requires n > 0 && CachedOk(n, dev, active, l, -1)
    ensures CachedOk(n, dev, active - {c}, l, c)
  {
    forall p | p in l && p.key != c ensures PairOk(n, dev, active - {c}, p) {
      OtherPairs(n, dev, dev, active, active - {c}, c, p);
    }
  }

  /** A client's fetch fills the cache. */
  lemma FillKeeps(n: nat, dev: seq<byte>, active: map<nat, Active>, l: seq<Pair<seq<byte>>>, l': seq<Pair<seq<byte>>>, done: nat, f: Fetch)
    requires n > 0 && CachedOk(n, dev, active, l, -1) && ReadOk(n, dev, f.chunk, f.buf, f.got)
    requires f.since == done && !Overlaps(active, done, f) && (forall i: nat :: i < n ==> i in f.got) && Gained(l, l', f.chunk, f.buf)
    ensures CachedOk(n, dev, active, l', -1)
  {
    forall p | p in l' && p.key != -1 ensures PairOk(n, dev, active, p) {
      assert p == Pair(f.chunk, f.buf) || p in l;
    }
  }

  lemma SampleKeeps(n: nat, dev: seq<byte>, c: nat, buf: seq<byte>, got: set<nat>, a: nat)
    requires n > 0 && ReadOk(n, dev, c, buf, got) && a < |dev| && ChunkOf(n, a) == c
    ensures ReadOk(n, dev, c, buf[Inside(n, a) := dev[a]], got + {Inside(n, a)})
  {
    forall b: nat | b < |dev| && ChunkOf(n, b) == c && Inside(n, b) == Inside(n, a) ensures b == a {
      QuotWrap(a, n);
      QuotWrap(b, n);
    }
  }

  lemma FetchSampled(n: nat, dev: seq<byte>, done: nat, fetches: map<nat, Fetch>, bits: seq<bool>, id: nat, a: nat)
    requires n > 0 && id in fetches && |fetches[id].buf| == n && a < |dev| && ChunkOf(n, a) == fetches[id].chunk
    ensures var f := fetches[id];
      var fetches' := fetches[id := f.(buf := f.buf[Inside(n, a) := dev[a]], got := f.got + {Inside(n, a)})];
      && (FetchedOk(n, dev, done, fetches) ==> FetchedOk(n, dev, done, fetches'))
      && (SeparateIn(bits, done, fetches) ==> SeparateIn(bits, done, fetches'))
  {
    var f := fetches[id];
    if FetchedOk(n, dev, done, fetches) && f.since >= done {
      SampleKeeps(n, dev, f.chunk, f.buf, f.got, a);
    }
  }

  // ---------- Books, step by step ----------

  lemma Started(n: nat, m: nat, bits: seq<bool>, active: map<nat, Active>, pending: seq<Sub>, x: Active)
    requires BooksOk(n, m, bits, active, pending, x.w.chunk) && ActiveOk(n, m, x.w.chunk, x)
    ensures BooksOk(n, m, bits, active[x.w.chunk := x], pending, -1)
  {
  }

  lemma WentOn(n: nat, m: nat, bits: seq<bool>, active: map<nat, Active>, pending: seq<Sub>, c: nat, x: Active)
    requires BooksOk(n, m, bits, active, pending, -1) && c in active && ActiveOk(n, m, c, x)
    ensures BooksOk(n, m, bits, active[c := x], pending, -1)
  {
  }

  lemma Ended(n: nat, m: nat, bits: seq<bool>, active: map<nat, Active>, pending: seq<Sub>, c: nat)
    requires BooksOk(n, m, bits, active, pending, -1) && c in active
    ensures BooksOk(n, m, bits, active - {c}, pending, c)
  {
  }

  lemma Waited(n: nat, m: nat, bits: seq<bool>, active: map<nat, Active>, pending: seq<Sub>, w: Sub)
    requires BooksOk(n, m, bits, active, pending, -1) && SubOk(n, m, w) && Held(bits, w.chunk)
    ensures BooksOk(n, m, bits, active, pending + [w], -1)
  {
  }

  lemma Taken(n: nat, m: nat, bits: seq<bool>, active: map<nat, Active>, pending: seq<Sub>, j: nat, hole: int)
    requires BooksOk(n, m, bits, active, pending, hole) && j < |pending|
    ensures BooksOk(n, m, bits, active, Without(pending, j), hole)
  {
    forall i | 0 <= i < |Without(pending, j)| ensures Without(pending, j)[i] in pending {
      WithoutAt(pending, j, i);
    }
  }

  lemma Released(n: nat, m: nat, bits: seq<bool>, bits': seq<bool>, active: map<nat, Active>, pending: seq<Sub>, c: nat)
    requires BooksOk(n, m, bits, active, pending, c) && |bits'| == |bits|
    requires forall p: nat :: Held(bits', p) <==> Held(bits, p) && p != c
    requires FirstPending(pending, c) == |pending|
    ensures BooksOk(n, m, bits', active, pending, -1)
  {
    forall j | 0 <= j < |pending| ensures pending[j].chunk != c {
    }
  }

  lemma Locked(n: nat, m: nat, bits: seq<bool>, bits': seq<bool>, active: map<nat, Active>, pending: seq<Sub>, c: nat)
    requires BooksOk(n, m, bits, active, pending, -1) && |bits'| == |bits| && !Held(bits, c)
    requires forall p: nat :: Held(bits', p) <==> Held(bits, p) || p == c
    ensures BooksOk(n, m, bits', active, pending, c)
  {
  }

  lemma SameBits(n: nat, m: nat, bits: seq<bool>, bits': seq<bool>, active: map<nat, Active>, pending: seq<Sub>)
    requires BooksOk(n, m, bits, active, pending, -1) && |bits'| <= m
    requires forall p: nat :: Held(bits', p) <==> Held(bits, p)
    ensures BooksOk(n, m, bits', active, pending, -1)
  {
  }

  /** With nothing under way below, no lock is held and nothing waits. */
  lemma QuietIsIdle(n: nat, m: nat, bits: seq<bool>, pending: seq<Sub>, c: nat)
    requires BooksOk(n, m, bits, map[], pending, -1)
    ensures pending == [] && !Held(bits, c)
  {
    assert pending != [] ==> Held(bits, pending[0].chunk);
  }

  /** And every chunk write accepted so far was served as often as it was accepted. */
  lemma QuietServedOnce(n: nat, m: nat, bits: seq<bool>, accepted: multiset<Sub>, served: multiset<Sub>, pending: seq<Sub>)
    requires BooksOk(n, m, bits, map[], pending, -1) && Counted(accepted, served, pending, map[])
    ensures accepted == served
  {
    QuietIsIdle(n, m, bits, pending, 0);
    forall w: Sub ensures accepted[w] == served[w] {
      assert accepted[w] == Tally(served, pending, map[], w);
    }
  }

  /** A chunk write of client write `rid` runs or waits. */
  ghost predicate Open(pending: seq<Sub>, active: map<nat, Active>, rid: nat) {
    (exists c :: c in active && active[c].w.rid == rid) || exists j :: 0 <= j < |pending| && pending[j].rid == rid
  }

  /** A client write is over, in that none of its chunk writes runs or waits, if and only if each
      was served as often as it was accepted. */
  lemma OverIsServed(n: nat, m: nat, bits: seq<bool>, accepted: multiset<Sub>, served: multiset<Sub>, pending: seq<Sub>,
                     active: map<nat, Active>, rid: nat)
    requires BooksOk(n, m, bits, active, pending, -1) && Counted(accepted, served, pending, active)
    ensures !Open(pending, active, rid) <==> forall w: Sub :: w.rid == rid ==> served[w] == accepted[w]
  {
    if Open(pending, active, rid) {
      var w := OpenSub(n, m, bits, pending, active, rid);
      assert accepted[w] == Tally(served, pending, active, w);
    } else {
      forall w: Sub | w.rid == rid ensures served[w] == accepted[w] {
        assert accepted[w] == Tally(served, pending, active, w);
        assert w !in pending;
      }
    }
  }

  lemma OpenSub(n: nat, m: nat, bits: seq<bool>, pending: seq<Sub>, active: map<nat, Active>, rid: nat) returns (w: Sub)
    requires BooksOk(n, m, bits, active, pending, -1) && Open(pending, active, rid)
    ensures w.rid == rid && Tally(multiset{}, pending, active, w) > 0
  {
    if c :| c in active && active[c].w.rid == rid {
      w := active[c].w;
    } else {
      var j :| 0 <= j < |pending| && pending[j].rid == rid;
      w := pending[j];
      assert w in multiset(pending);
    }
  }

  /** When chunk write `w` is served no client write but its own can be over with that, and that
      one is if `w` was the last of its chunk writes. */
  lemma OverWithLast(n: nat, m: nat, bits: seq<bool>, bits': seq<bool>, accepted: multiset<Sub>, served: multiset<Sub>, w: Sub,
                     pending: seq<Sub>, active: map<nat, Active>, pending': seq<Sub>, active': map<nat, Active>, rid: nat)
    requires BooksOk(n, m, bits, active, pending, -1) && Counted(accepted, served, pending, active)
    requires BooksOk(n, m, bits', active', pending', -1) && Counted(accepted, served + multiset{w}, pending', active')
    ensures Open(pending, active, w.rid)
    ensures rid != w.rid ==> (Open(pending', active', rid) <==> Open(pending, active, rid))
    ensures !Open(pending', active', w.rid) <==>
      forall v: Sub :: v.rid == w.rid ==> accepted[v] == served[v] + if v == w then 1 else 0
  {
    OverIsServed(n, m, bits, accepted, served, pending, active, rid);
    OverIsServed(n, m, bits', accepted, served + multiset{w}, pending', active', rid);
    OverIsServed(n, m, bits, accepted, served, pending, active, w.rid);
    OverIsServed(n, m, bits', accepted, served + multiset{w}, pending', active', w.rid);
    assert accepted[w] == Tally(served + multiset{w}, pending', active', w);
  }

  lemma CountStarted(accepted: multiset<Sub>, served: multiset<Sub>, pending: seq<Sub>, active: map<nat, Active>, w: Sub, x: Active)
    requires Counted(accepted, served, pending, active) && w.chunk !in active && x.w == w
    ensures Counted(accepted + multiset{w}, served, pending, active[w.chunk := x])
  {
    forall v: Sub ensures (accepted + multiset{w})[v] == Tally(served, pending, active[w.chunk := x], v) {
      assert accepted[v] == Tally(served, pending, active, v);
    }
  }

  lemma CountWaiting(accepted: multiset<Sub>, served: multiset<Sub>, pending: seq<Sub>, active: map<nat, Active>, w: Sub)
    requires Counted(accepted, served, pending, active)
    ensures Counted(accepted + multiset{w}, served, pending + [w], active)
  {
    forall v: Sub ensures (accepted + multiset{w})[v] == Tally(served, pending + [w], active, v) {
      assert accepted[v] == Tally(served, pending, active, v);
    }
  }

  lemma CountTaken(accepted: multiset<Sub>, served: multiset<Sub>, pending: seq<Sub>, active: map<nat, Active>, j: nat, x: Active)
    requires Counted(accepted, served, pending, active) && j < |pending| && pending[j].chunk !in active && x.w == pending[j]
    ensures Counted(accepted, served, Without(pending, j), active[x.w.chunk := x])
  {
    WithoutMultiset(pending, j);
    forall v: Sub ensures accepted[v] == Tally(served, Without(pending, j), active[x.w.chunk := x], v) {
      assert accepted[v] == Tally(served, pending, active, v);
    }
  }

  lemma CountWentOn(accepted: multiset<Sub>, served: multiset<Sub>, pending: seq<Sub>, active: map<nat, Active>, c: nat, x: Active)
    requires Counted(accepted, served, pending, active) && c in active && active[c].w == x.w && x.w.chunk == c
    ensures Counted(accepted, served, pending, active[c := x])
  {
    forall v: Sub ensures accepted[v] == Tally(served, pending, active[c := x], v) {
      assert accepted[v] == Tally(served, pending, active, v);
    }
  }

  lemma CountEnded(accepted: multiset<Sub>, served: multiset<Sub>, pending: seq<Sub>, active: map<nat, Active>, c: nat)
    requires Counted(accepted, served, pending, active) && c in active && active[c].w.chunk == c
    ensures Counted(accepted, served + multiset{active[c].w}, pending, active - {c})
  {
    forall v: Sub ensures accepted[v] == Tally(served + multiset{active[c].w}, pending, active - {c}, v) {
      assert accepted[v] == Tally(served, pending, active, v);
    }
  }

  /** A waiting write starts on the chunk it has the lock of. */
  lemma NextStarted(n: nat, m: nat, bits: seq<bool>, accepted: multiset<Sub>, served: multiset<Sub>, active: map<nat, Active>,
                    pending: seq<Sub>, j: nat, x: Active)
    requires BooksOk(n, m, bits, active, pending, x.w.chunk) && Counted(accepted, served, pending, active)
    requires j < |pending| && x.w == pending[j] && ActiveOk(n, m, x.w.chunk, x)
    ensures BooksOk(n, m, bits, active[x.w.chunk := x], Without(pending, j), -1)
    ensures Counted(accepted, served, Without(pending, j), active[x.w.chunk := x])
  {
    Started(n, m, bits, active, pending, x);
    CountTaken(accepted, served, pending, active, j, x);
    Taken(n, m, bits, active[x.w.chunk := x], pending, j, -1);
  }

  /** A new write starts on the chunk locked for it. */
  lemma NewStarted(n: nat, m: nat, bits: seq<bool>, accepted: multiset<Sub>, served: multiset<Sub>, active: map<nat, Active>,
                   pending: seq<Sub>, x: Active)
    requires BooksOk(n, m, bits, active, pending, x.w.chunk) && Counted(accepted, served, pending, active) && ActiveOk(n, m, x.w.chunk, x)
    ensures BooksOk(n, m, bits, active[x.w.chunk := x], pending, -1)
    ensures Counted(accepted + multiset{x.w}, served, pending, active[x.w.chunk := x])
  {
    Started(n, m, bits, active, pending, x);
    CountStarted(accepted, served, pending, active, x.w, x);
  }

  // ---------- Small steps of the cache ----------

  lemma CachedKept(n: nat, dev: seq<byte>, active: map<nat, Active>, l: seq<Pair<seq<byte>>>, l': seq<Pair<seq<byte>>>, hole: int)
    requires n > 0 && CachedOk(n, dev, active, l, hole) && Kept(l, l')
    ensures CachedOk(n, dev, active, l', hole)
  {
  }

  lemma WholeGained(n: nat, l: seq<Pair<seq<byte>>>, l': seq<Pair<seq<byte>>>, key: nat, data: seq<byte>)
    requires WholeChunks(n, l) && Gained(l, l', key, data) && |data| == n
    ensures WholeChunks(n, l')
  {
  }

  /** A whole chunk over a cached one leaves nothing of it. */
  lemma WholeLookup(n: nat, l: seq<Pair<seq<byte>>>, w: Sub)
    requires WholeChunks(n, l)
    ensures var was := Lookup(l, w.chunk);
      was.Some? ==> |was.value| == n && (w.off == 0 && |w.buf| == n ==> Overlay(was.value, w.off, w.buf) == w.buf)
  {
    LookupIsMember(l, w.chunk);
  }

  lemma DropForgets(l: seq<Pair<seq<byte>>>, c: nat)
    ensures Kept(l, Drop(l, c)) && forall p :: p in Drop(l, c) ==> p.key != c
  {
    forall p | p in Drop(l, c) ensures p in l && p.key != c {
      OutsideMember(l, c, c + 1, p);
    }
  }

  lemma FirstThenDropIsGained(l: seq<Pair<seq<byte>>>, key: nat, data: seq<byte>)
    ensures Gained(l, [Pair(key, data)] + Drop(l, key), key, data)
  {
    var l' := [Pair(key, data)] + Drop(l, key);
    assert l'[0] == Pair(key, data);
    FirstOrRest(l', Pair(key, data), Drop(l, key));
    DropForgets(l, key);
  }

  lemma HoleFilled(n: nat, dev: seq<byte>, active: map<nat, Active>, l: seq<Pair<seq<byte>>>, c: nat)
    requires n > 0 && CachedOk(n, dev, active, l, c) && forall p :: p in l ==> p.key != c
    ensures CachedOk(n, dev, active, l, -1)
  {
  }

  /** The chunk a write is about to change is what is below, unless it is the hole. */
  lemma OwnPairInPlace(n: nat, dev: seq<byte>, active: map<nat, Active>, l: seq<Pair<seq<byte>>>, hole: int, w: Sub, was: seq<byte>)
    requires n > 0 && CachedOk(n, dev, active, l, hole) && Pair(w.chunk, was) in l && |was| == n
    requires w.chunk !in active && w.off + |w.buf| <= n
    ensures PairOk(n, dev, active[w.chunk := Active(w, Storing)], Pair(w.chunk, Overlay(was, w.off, w.buf))) || hole == w.chunk
  {
    if hole != w.chunk {
      assert PairOk(n, dev, active, Pair(w.chunk, was));
      OwnPair(n, dev, active, w, was);
    }
  }

  lemma OwnPairWhole(n: nat, dev: seq<byte>, active: map<nat, Active>, w: Sub)
    requires n > 0 && |w.buf| == n && w.off == 0
    ensures PairOk(n, dev, active[w.chunk := Active(w, Storing)], Pair(w.chunk, w.buf))
  {
    assert Overlay(w.buf, 0, w.buf) == w.buf;
    OwnPair(n, dev, active, w, w.buf);
  }

  lemma OwnPairRead(n: nat, dev: seq<byte>, active: map<nat, Active>, w: Sub, whole: seq<byte>, got: set<nat>)
    requires n > 0 && ReadOk(n, dev, w.chunk, whole, got) && (forall i: nat :: i < n ==> i in got) && w.off + |w.buf| <= n
    ensures PairOk(n, dev, active[w.chunk := Active(w, Storing)], Pair(w.chunk, Overlay(whole, w.off, w.buf)))
  {
    OwnPair(n, dev, active, w, whole);
  }

  lemma ReadingStarts(n: nat, dev: seq<byte>, active: map<nat, Active>, x: Active)
    requires n > 0 && ReadingOk(n, dev, active)
    requires x.stage.Reading? ==> |x.stage.whole| == n && x.stage.got == {}
    ensures ReadingOk(n, dev, active[x.w.chunk := x])
  {
  }

  /** Fetch `f` was `f0` and has read the first `i` bytes of its chunk since; byte `at` is what
      is below. */
  ghost predicate SampledTo(n: nat, dev: seq<byte>, f0: Fetch, f: Fetch, i: nat, at: nat) {
    && f.chunk == f0.chunk && f.since == f0.since && |f.buf| == n
    && (forall k: nat :: k < i ==> k in f.got)
    && at < n && f.chunk * n + at < |dev| && (i > at ==> f.buf[at] == dev[f.chunk * n + at])
  }

  /** The fetch has a byte that the write in flight does not say. */
  lemma WrongByte(n: nat, dev: seq<byte>, active: map<nat, Active>, f0: Fetch, f: Fetch, at: nat, a: nat)
    requires n > 0 && SampledTo(n, dev, f0, f, n, at) && a == f.chunk * n + at && ChunkOf(n, a) == f.chunk && Inside(n, a) == at
    requires f.chunk in active && active[f.chunk].stage.Storing? && active[f.chunk].w.off == at
    requires |active[f.chunk].w.buf| > 0 && dev[a] != active[f.chunk].w.buf[0]
    ensures f.buf[Inside(n, a)] != Expect(n, dev, active, a)
  {
  }

  lemma SampledMore(n: nat, dev: seq<byte>, f0: Fetch, f: Fetch, f': Fetch, i: nat, at: nat)
    requires SampledTo(n, dev, f0, f, i, at) && i < n && f.chunk * n + i < |dev|
    requires f' == f.(buf := f.buf[i := dev[f.chunk * n + i]], got := f.got + {i})
    ensures SampledTo(n, dev, f0, f', i + 1, at)
  {
  }

  /** The writes of other chunks are where they were. */
  ghost predicate Elsewhere(active: map<nat, Active>, active': map<nat, Active>, c: nat) {
    active' - {c} == active - {c}
  }

  /** Of other chunks nothing started or ended, and at most the oldest of them is not cached any
      more. */
  ghost predicate OnlyChunk(active: map<nat, Active>, l: seq<Pair<seq<byte>>>, active': map<nat, Active>, l': seq<Pair<seq<byte>>>, c: nat) {
    Elsewhere(active, active', c) && OthersStay(l, l', c)
  }

  /** The lock of chunk `c` went to the first write waiting for it, or was released; that write goes
      below only with the chunk cached; and nothing else happened. */
  ghost predicate Handed(pending: seq<Sub>, active: map<nat, Active>, l: seq<Pair<seq<byte>>>,
                         pending': seq<Sub>, active': map<nat, Active>, l': seq<Pair<seq<byte>>>, c: nat) {
    && PassedOn(pending, pending', active', c) && OnlyChunk(active, l, active', l', c)
    && (c in active' && active'[c].stage.Storing? ==> Has(l', c))
  }

  lemma HandedFrom(pending: seq<Sub>, active: map<nat, Active>, l: seq<Pair<seq<byte>>>,
                   pending': seq<Sub>, active': map<nat, Active>, l': seq<Pair<seq<byte>>>, c: nat)
    requires Handed(pending, active - {c}, l, pending', active', l', c)
    ensures Handed(pending, active, l, pending', active', l', c)
  {
  }

  lemma NoneHanded(pending: seq<Sub>, active: map<nat, Active>, l: seq<Pair<seq<byte>>>, c: nat)
    requires FirstPending(pending, c) == |pending| && c !in active
    ensures Handed(pending, active, l, pending, active, l, c)
  {
  }

  lemma FirstStays(l: seq<Pair<seq<byte>>>, p: Pair<seq<byte>>)
    ensures OthersStay(l, [p] + Drop(l, p.key), p.key)
  {
    DropFirst(Drop(l, p.key), p);
    DropTwice(l, p.key);
  }

  lemma ForgottenStays(active: map<nat, Active>, l: seq<Pair<seq<byte>>>, active': map<nat, Active>, l': seq<Pair<seq<byte>>>, c: nat)
    requires OnlyChunk(active, l, active', l', c)
    ensures OnlyChunk(active, l, active', Drop(l', c), c)
  {
    DroppedStays(l, l', c);
  }

  lemma SetElsewhere(active: map<nat, Active>, c: nat, x: Active)
    ensures Elsewhere(active, active[c := x], c)
  {
  }

  /** A chunk write waits if a write of its chunk runs, and otherwise it starts. */
  ghost predicate Admitted(active: map<nat, Active>, pending: seq<Sub>, active': map<nat, Active>, pending': seq<Sub>, w: Sub) {
    if w.chunk in active then pending' == pending + [w] && active' == active
    else pending' == pending && w.chunk in active' && active'[w.chunk].w == w && Elsewhere(active, active', w.chunk)
  }

  /** As long as the cache is coherent, the cached chunk of a write that is below is the chunk below,
      overlaid with the write. */
  lemma BelowIsOverlaid(h: Rwt, c: nat, a: nat)
    requires h.Valid() && h.Coherent() && h.Below(c) && Has(h.side.cache.Contents(), c)
    requires a < |h.side.dev| && ChunkOf(h.side.n, a) == c
    ensures Lookup(h.side.cache.Contents(), c).Some?
    ensures var data, w, i := Lookup(h.side.cache.Contents(), c).value, h.active[c].w, Inside(h.side.n, a);
      |data| == h.side.n && data[i] == if w.off <= i < w.off + |w.buf| then w.buf[i - w.off] else h.side.dev[a]
  {
    LookupIsMember(h.side.cache.Contents(), c);
    assert PairOk(h.side.n, h.side.dev, h.active, Pair(c, Lookup(h.side.cache.Contents(), c).value));
  }

  // ---------- The handler ----------

  class Rwt {
    const side: ReadSide
    const locker: Locker             // chunk_w_locker_
    const chunks: nat                // capacity of the layer below, in chunks
    var pending: seq<Sub>            // wqs_pending_
    var active: map<nat, Active>     // the completers waiting for the layer below, by chunk
    var failed: set<nat>             // client writes that heard of an error

    ghost var accepted: multiset<Sub>
    ghost var served: multiset<Sub>

    ghost predicate SideOk()
      reads side, side.cache
    {
      && side.Valid() && Wrap(|side.dev|, side.n) == 0 && Quot(|side.dev|, side.n) == chunks
      && forall id :: id in side.fetches ==> side.fetches[id].since <= side.done
    }

    ghost predicate Shows(hole: int)
      reads this`active, this`pending, this`accepted, this`served, side, side.cache, locker
    {
      && SideOk() && BooksOk(side.n, chunks, locker.bits, active, pending, hole)
      && Counted(accepted, served, pending, active)
    }

    ghost predicate Valid()
      reads this`active, this`pending, this`accepted, this`served, side, side.cache, locker
    {
      Shows(-1)
    }

    ghost predicate CoherentBut(hole: int)
      reads this`active, side`dev, side`done, side`fetches, side.cache
    {
      && side.n > 0 && CachedOk(side.n, side.dev, active, side.cache.Contents(), hole)
      && ReadingOk(side.n, side.dev, active)
      && FetchedOk(side.n, side.dev, side.done, side.fetches)
    }

    /** A valid cached chunk is the chunk below, overlaid with the one write in flight on it. */
    ghost predicate Coherent()
      reads this`active, side`dev, side`done, side`fetches, side.cache
    {
      CoherentBut(-1)
    }

    /** No fetch of a client that may fill the cache overlaps a write of its chunk below. */
    ghost predicate Apart()
      reads this`active, side`done, side`fetches
    {
      NoOverlap(active, side.done, side.fetches)
    }

    /** No miss that may still fill the cache is under way for a chunk of which a write runs or
        waits. */
    ghost predicate Separate()
      reads side`done, side`fetches, locker
    {
      SeparateIn(locker.bits, side.done, side.fetches)
    }

    /** A client may read: each chunk it touches is cached, or no write of it runs or waits. */
    predicate MayRead(addr: nat, len: nat)
      reads side, side.cache, locker
    {
      side.n > 0 && forall a | addr <= a < addr + len :: IsCached(ChunkOf(side.n, a)) || !IsHeld(ChunkOf(side.n, a))
    }

    /** A client may write: of each chunk it touches it writes the whole, or no miss is under way
        that may still fill the cache. */
    predicate MayWrite(addr: nat, len: nat)
      reads side
    {
      side.n > 0 && MissesSpare(side.n, side.done, side.fetches, addr, len)
    }

    predicate IsCached(c: nat)
      reads side, side.cache
    {
      Exact(side.cache.cache, side.cache.max, c)
    }

    predicate IsHeld(c: nat)
      reads locker
      ensures IsHeld(c) <==> Held(locker.bits, c)
    {
      c < |locker.bits| && locker.bits[c]
    }

    constructor (chunk: nat, lenMax: nat, dev: seq<byte>)
      requires chunk > 0 && lenMax > 0 && Wrap(|dev|, chunk) == 0
      ensures Valid() && Coherent() && Apart() && Separate() && side.dev == dev && active == map[]
      ensures pending == [] && accepted == served == multiset{} && failed == {} && side.done == 0 && chunks == Quot(|dev|, chunk)
      ensures side.n == chunk && side.cache.max == lenMax && side.cache.Contents() == [] && side.fetches == map[] && side.clients == map[] && locker.bits == []
      ensures fresh(side) && fresh(side.cache) && fresh(locker)
    {
      side := new ReadSide(chunk, lenMax, dev);
      locker := new Locker();
      chunks := Quot(|dev|, chunk);
      pending, active, failed := [], map[], {};
      accepted, served := multiset{}, multiset{};
    }

    // ---------- A chunk write starts ----------

    /** The cache gains the whole of a chunk, and every fetch that began before is void. */
    method Gain(w: Sub, data: seq<byte>, ghost coh: bool, ghost hole: int)
      requires SideOk() && |data| == side.n && (coh ==> CoherentBut(hole))
      requires coh ==> PairOk(side.n, side.dev, active[w.chunk := Active(w, Storing)], Pair(w.chunk, data)) || hole == w.chunk
      modifies this`active, side`done, side.cache
      ensures SideOk() && active == old(active)[w.chunk := Active(w, Storing)]
      ensures side.done == old(side.done) + 1 && Lookup(side.cache.Contents(), w.chunk) == Some(data)
      ensures CameFirst(old(side.cache.Contents()), side.cache.Contents(), w.chunk, data)
      ensures coh ==> CoherentBut(hole)
    {
      ghost var l, c := side.cache.Contents(), side.cache.cache;
      var evicted := side.cache.Update(w.chunk, data);
      UpdatesIsGained(c, side.cache.cache, side.cache.max, w.chunk, data, evicted);
      UpdatesComesFirst(c, side.cache.cache, side.cache.max, w.chunk, data, evicted);
      WholeGained(side.n, l, side.cache.Contents(), w.chunk, data);
      if coh {
        GoesBelow(side.n, side.dev, active, l, side.cache.Contents(), hole, w, data);
        ReadingStarts(side.n, side.dev, active, Active(w, Storing));
      }
      side.done := side.done + 1;
      active := active[w.chunk := Active(w, Storing)];
    }

    /** A write of the chunk is below. */
    predicate Below(c: nat)
      reads this`active
    {
      c in active && active[c].stage.Storing?
    }

    /** A write of the chunk goes below only with the chunk cached. */
    ghost predicate WentBelow(c: nat)
      requires side.cache.Valid()
      reads this`active, side.cache
    {
      Below(c) ==> Has(side.cache.Contents(), c)
    }

    /** A part of a cached chunk changes in place. */
    method ChangeInPlace(w: Sub, was: seq<byte>, ghost coh: bool, ghost hole: int)
      requires SideOk() && SubOk(side.n, chunks, w) && w.chunk !in active && (coh ==> CoherentBut(hole))
      requires Has(side.cache.Contents(), w.chunk) && Pair(w.chunk, was) in side.cache.Contents() && |was| == side.n
      modifies this`active, side.cache
      ensures SideOk() && active == old(active)[w.chunk := Active(w, Storing)]
      ensures Lookup(side.cache.Contents(), w.chunk) == Some(Overlay(was, w.off, w.buf))
      ensures side.cache.Contents() == [Pair(w.chunk, Overlay(was, w.off, w.buf))] + Drop(old(side.cache.Contents()), w.chunk)
      ensures coh ==> CoherentBut(hole)
    {
      ghost var l := side.cache.Contents();
      var data := Overlay(was, w.off, w.buf);
      FirstThenDropIsGained(l, w.chunk, data);
      if coh {
        OwnPairInPlace(side.n, side.dev, active, l, hole, w, was);
        GoesBelow(side.n, side.dev, active, l, [Pair(w.chunk, data)] + Drop(l, w.chunk), hole, w, data);
        ReadingStarts(side.n, side.dev, active, Active(w, Storing));
      }
      side.cache.Overwrite(w.chunk, data);
      assert side.cache.Contents()[0] == Pair(w.chunk, data);
      WholeGained(side.n, l, side.cache.Contents(), w.chunk, data);
      active := active[w.chunk := Active(w, Storing)];
    }

    /** `process`: a whole chunk replaces what is cached, a part of a cached chunk is changed in
        place, a chunk that is not cached is read first. */
    method Process(w: Sub, ghost coh: bool, ghost hole: int) returns (res: int)
      requires SideOk() && SubOk(side.n, chunks, w) && w.chunk !in active && (coh ==> CoherentBut(hole))
      modifies this`active, side`done, side.cache
      ensures res == 0 && SideOk() && (coh ==> CoherentBut(hole)) && (old(Separate()) ==> Separate())
      ensures w.chunk in active && active == old(active)[w.chunk := active[w.chunk]]
      ensures OnlyChunk(old(active), old(side.cache.Contents()), active, side.cache.Contents(), w.chunk)
      ensures active[w.chunk].w == w && ActiveOk(side.n, chunks, w.chunk, active[w.chunk])
      ensures side.done == old(side.done) + if |w.buf| == side.n then 1 else 0
      ensures match old(Lookup(side.cache.Contents(), w.chunk))
              case Some(was) =>
                && active[w.chunk].stage.Storing? && |was| == side.n
                && Lookup(side.cache.Contents(), w.chunk) == Some(Overlay(was, w.off, w.buf))
              case None =>
                if |w.buf| == side.n then
                  active[w.chunk].stage.Storing? && Lookup(side.cache.Contents(), w.chunk) == Some(w.buf)
                else
                  && active[w.chunk].stage.Reading? && active[w.chunk].stage.got == {}
                  && side.done == old(side.done)
      ensures if |w.buf| == side.n then CameFirst(old(side.cache.Contents()), side.cache.Contents(), w.chunk, w.buf)
              else match old(Lookup(side.cache.Contents(), w.chunk))
                   case Some(was) =>
                     side.cache.Contents() == [Pair(w.chunk, Overlay(was, w.off, w.buf))] + Drop(old(side.cache.Contents()), w.chunk)
                   case None => side.cache.Contents() == old(side.cache.Contents())
      ensures WentBelow(w.chunk)
    {
      ghost var were, all := active, side.cache.Contents();
      WholeLookup(side.n, side.cache.Contents(), w);
      if |w.buf| >= side.n {
        if coh {
          OwnPairWhole(side.n, side.dev, active, w);
        }
        Gain(w, w.buf, coh, hole);
        CameFirstStays(all, side.cache.Contents(), w.chunk, w.buf);
      } else {
        ghost var l := side.cache.Contents();
        var cached := side.FindChunk(w.chunk);
        if coh {
          CachedKept(side.n, side.dev, active, l, side.cache.Contents(), hole);
        }
        if cached.Some? {
          UsedStays(all, w.chunk);
          FirstStays(all, Pair(w.chunk, Overlay(cached.value, w.off, w.buf)));
          ChangeInPlace(w, cached.value, coh, hole);
        } else {
          var x := Active(w, Reading(Zeros(side.n), {}));
          if coh {
            StartsReading(side.n, side.dev, active, side.cache.Contents(), hole, x);
            ReadingStarts(side.n, side.dev, active, x);
          }
          active := active[w.chunk := x];
        }
      }
      SetElsewhere(were, w.chunk, active[w.chunk]);
      res := 0;
    }

    // ---------- A chunk write is over ----------

    method FindPending(c: nat) returns (j: nat)
      ensures j == FirstPending(pending, c)
    {
      j := 0;
      while j < |pending| && pending[j].chunk != c
        invariant j <= |pending| && FirstPending(pending, c) == j + FirstPending(pending[j..], c)
      {
        j := j + 1;
      }
    }

    /** The first write waiting for the chunk takes over its lock. */
    method TakeNext(c: nat, j: nat, ghost coh: bool, ghost hole: int) returns (finish: bool)
      requires Shows(c) && j == FirstPending(pending, c) < |pending| && c !in active && (coh ==> CoherentBut(hole))
      modifies this`active, this`pending, side`done, side.cache
      ensures finish && Valid() && (coh ==> CoherentBut(hole)) && (old(Separate()) ==> Separate())
      ensures Handed(old(pending), old(active), old(side.cache.Contents()), pending, active, side.cache.Contents(), c)
    {
      ghost var was, waiting := active, pending;
      var w := pending[j];
      var res := Process(w, coh, hole);
      finish := res == 0;
      NextStarted(side.n, chunks, locker.bits, accepted, served, was, waiting, j, active[w.chunk]);
      pending := Without(pending, j);
    }

    method Free(c: nat)
      requires Shows(c) && FirstPending(pending, c) == |pending|
      modifies locker
      ensures Valid() && (old(Separate()) ==> Separate())
    {
      ghost var bits := locker.bits;
      locker.Unlock(c);
      Released(side.n, chunks, bits, locker.bits, active, pending, c);
    }

    /** The loop of the completer: the chunk's lock is passed on, or released. */
    method PassOn(c: nat, ghost coh: bool, ghost hole: int)
      requires Shows(c) && c !in active && (coh ==> CoherentBut(hole))
      modifies this`active, this`pending, side`done, side.cache, locker
      ensures Valid() && (coh ==> CoherentBut(hole)) && (old(Separate()) ==> Separate())
      ensures Handed(old(pending), old(active), old(side.cache.Contents()), pending, active, side.cache.Contents(), c)
    {
      var finish := false;
      while !finish
        invariant if finish then Valid() && Handed(old(pending), old(active), old(side.cache.Contents()), pending, active, side.cache.Contents(), c)
                  else Shows(c) && c !in active && pending == old(pending) && active == old(active)
                       && side.cache.Contents() == old(side.cache.Contents())
        invariant coh ==> CoherentBut(hole)
        invariant old(Separate()) ==> Separate()
        decreases !finish
      {
        finish := HandOver(c, coh, hole);
      }
    }

    /** Its body. */
    method HandOver(c: nat, ghost coh: bool, ghost hole: int) returns (finish: bool)
      requires Shows(c) && c !in active && (coh ==> CoherentBut(hole))
      modifies this`active, this`pending, side`done, side.cache, locker
      ensures finish && Valid() && (coh ==> CoherentBut(hole)) && (old(Separate()) ==> Separate())
      ensures Handed(old(pending), old(active), old(side.cache.Contents()), pending, active, side.cache.Contents(), c)
    {
      var j := FindPending(c);
      if j < |pending| {
        finish := TakeNext(c, j, coh, hole);
      } else {
        NoneHanded(pending, active, side.cache.Contents(), c);
        Free(c);
        finish := true;
      }
    }

    /** The chunk of a failed write is not cached any more, and the client write hears of it. */
    method Forget(c: nat, rid: nat, ghost coh: bool)
      requires Valid() && (coh ==> CoherentBut(c))
      modifies this`failed, side.cache
      ensures Valid() && (coh ==> Coherent()) && failed == old(failed) + {rid}
      ensures forall p :: p in side.cache.Contents() ==> p.key != c
      ensures side.cache.Contents() == Drop(old(side.cache.Contents()), c)
    {
      ghost var l := side.cache.Contents();
      DropForgets(l, c);
      side.cache.Invalidate(c);
      if coh {
        CachedKept(side.n, side.dev, active, l, side.cache.Contents(), c);
        HoleFilled(side.n, side.dev, active, side.cache.Contents(), c);
      }
      failed := failed + {rid};
    }

    /** Nothing waits any more for the write on chunk `c`. */
    method Retire(c: nat, err: bool, ghost coh: bool)
      requires Valid() && c in active
      requires coh ==> Coherent() && (err || Landed(c))
      modifies this`active, this`served
      ensures Shows(c) && active == old(active) - {c} && served == old(served) + multiset{old(active)[c].w}
      ensures coh ==> CoherentBut(if err then c else -1)
    {
      Ended(side.n, chunks, locker.bits, active, pending, c);
      CountEnded(accepted, served, pending, active, c);
      if coh {
        if err {
          EndsBadly(side.n, side.dev, active, side.cache.Contents(), c);
        } else {
          EndsWell(side.n, side.dev, active, side.cache.Contents(), c);
        }
      }
      served := served + multiset{active[c].w};
      active := active - {c};
    }

    /** The completer of a chunk write.  A failed one leaves its chunk uncached, whoever gets
        the lock next. */
    method ChunkOver(c: nat, err: bool, ghost coh: bool)
      requires Valid() && c in active
      requires coh ==> Coherent() && (err || Landed(c))
      modifies this`active, this`pending, this`served, this`failed, side`done, side.cache, locker
      ensures Valid() && (coh ==> Coherent()) && (old(Separate()) ==> Separate())
      ensures PassedOn(old(pending), pending, active, c) && OnlyChunk(old(active), old(side.cache.Contents()), active, side.cache.Contents(), c) && (!err ==> WentBelow(c))
      ensures err ==> forall p :: p in side.cache.Contents() ==> p.key != c
      ensures failed == if err then old(failed) + {old(active)[c].w.rid} else old(failed)
      ensures served == old(served) + multiset{old(active)[c].w} && accepted == old(accepted)
    {
      var w := active[c].w;
      ghost var were, all := active, side.cache.Contents();
      Release(c, err, coh);
      if err {
        ForgottenStays(were, all, active, side.cache.Contents(), c);
        Forget(c, w.rid, coh);
      }
    }

    /** The write on chunk `c` gives up the chunk's lock. */
    method Release(c: nat, err: bool, ghost coh: bool)
      requires Valid() && c in active
      requires coh ==> Coherent() && (err || Landed(c))
      modifies this`active, this`pending, this`served, side`done, side.cache, locker
      ensures Valid() && (coh ==> CoherentBut(if err then c else -1)) && (old(Separate()) ==> Separate())
      ensures Handed(old(pending), old(active), old(side.cache.Contents()), pending, active, side.cache.Contents(), c)
      ensures served == old(served) + multiset{old(active)[c].w}
    {
      ghost var were, waiting, all := active, pending, side.cache.Contents();
      Retire(c, err, coh);
      PassOn(c, coh, if err then c else -1);
      HandedFrom(waiting, were, all, pending, active, side.cache.Contents(), c);
    }

    /** The write on chunk `c`, if it went below, is there in full. */
    ghost predicate Landed(c: nat)
      requires c in active && side.n > 0
      reads this, side
    {
      active[c].stage.Storing? ==>
        forall a: nat :: a < |side.dev| && ChunkOf(side.n, a) == c && Covers(active[c].w, Inside(side.n, a)) ==>
          side.dev[a] == active[c].w.buf[Inside(side.n, a) - active[c].w.off]
    }

    // ---------- The layer below ----------

    /** A byte of a chunk that a write has to read first is read. */
    method SampleOwn(c: nat, a: nat)
      requires Valid() && c in active && active[c].stage.Reading? && a < |side.dev| && ChunkOf(side.n, a) == c
      modifies this`active
      ensures Valid() && c in old(active) && (old(Coherent()) ==> Coherent())
      ensures active == old(active)[c := active[c]] && active[c].w == old(active)[c].w
      ensures old(active)[c].stage.Reading? && Inside(side.n, a) < |old(active)[c].stage.whole|
      ensures active[c].stage == Reading(old(active)[c].stage.whole[Inside(side.n, a) := side.dev[a]],
                                         old(active)[c].stage.got + {Inside(side.n, a)})
    {
      var x := active[c];
      var i := Inside(side.n, a);
      var x' := x.(stage := Reading(x.stage.whole[i := side.dev[a]], x.stage.got + {i}));
      WentOn(side.n, chunks, locker.bits, active, pending, c, x');
      CountWentOn(accepted, served, pending, active, c, x');
      if Coherent() {
        SampleKeeps(side.n, side.dev, c, x.stage.whole, x.stage.got, a);
        StaysReading(side.n, side.dev, active, side.cache.Contents(), c, x');
      }
      active := active[c := x'];
    }

    /** The chunk a write has to modify was read, or could not be. */
    method ReadDone(c: nat, ok: bool)
      requires Valid() && c in active && active[c].stage.Reading?
      requires ok ==> forall i: nat :: i < side.n ==> i in active[c].stage.got
      modifies this`active, this`pending, this`served, this`failed, side`done, side.cache, locker
      ensures Valid() && (old(Coherent()) ==> Coherent()) && (old(Separate()) ==> Separate())
      ensures !ok ==> PassedOn(old(pending), pending, active, c) && forall p :: p in side.cache.Contents() ==> p.key != c
      ensures OnlyChunk(old(active), old(side.cache.Contents()), active, side.cache.Contents(), c)
      ensures served == if ok then old(served) else old(served) + multiset{old(active)[c].w}
      ensures failed == if ok then old(failed) else old(failed) + {old(active)[c].w.rid}
      ensures ok ==> c in old(active) && active == old(active)[c := Active(old(active)[c].w, Storing)]
      ensures ok ==> side.done == old(side.done) + 1 && WentBelow(c) && old(active)[c].stage.Reading?
      ensures ok ==> Lookup(side.cache.Contents(), c) == Some(Overlay(old(active)[c].stage.whole, active[c].w.off, active[c].w.buf))
    {
      ghost var coh := Coherent();
      if !ok {
        ChunkOver(c, true, coh);
      } else {
        var x := active[c];
        var data := Overlay(x.stage.whole, x.w.off, x.w.buf);
        WentOn(side.n, chunks, locker.bits, active, pending, c, Active(x.w, Storing));
        CountWentOn(accepted, served, pending, active, c, Active(x.w, Storing));
        if coh {
          OwnPairRead(side.n, side.dev, active, x.w, x.stage.whole, x.stage.got);
        }
        SetElsewhere(active, c, Active(x.w, Storing));
        ghost var all := side.cache.Contents();
        Gain(x.w, data, coh, -1);
        CameFirstStays(all, side.cache.Contents(), c, data);
      }
    }

    /** What the layer below may do with a write under way: anything to the bytes it covers. */
    method Tear(a: nat, v: byte)
      requires Valid() && a < |side.dev| && InFlight(a)
      modifies side`dev
      ensures Valid() && side.dev == old(side.dev)[a := v]
      ensures old(Coherent() && Apart()) ==> Coherent() && Apart()
      ensures old(Coherent() && Separate()) ==> Coherent() && Separate()
    {
      var dev := side.dev[a := v];
      if Separate() {
        SeparateIsApart(side.n, chunks, locker.bits, active, pending, -1, side.done, side.fetches);
      }
      if Coherent() && Apart() {
        var c := ChunkOf(side.n, a);
        ChangeKeeps(side.n, side.dev, dev, active, side.cache.Contents(), side.done, side.fetches, c);
      }
      side.dev := dev;
    }

    /** Address `a` is covered by the write in flight on its chunk. */
    ghost predicate InFlight(a: nat)
      requires side.n > 0
      reads this, side
    {
      var c := ChunkOf(side.n, a);
      c in active && active[c].stage.Storing? && Covers(active[c].w, Inside(side.n, a))
    }

    /** The addresses no write in flight covers. */
    ghost function Settled(): set<nat>
      requires side.n > 0
      reads this, side
    {
      set a: nat | a < |side.dev| && !InFlight(a)
    }

    /** The write on chunk `c` arrives below in full. */
    method Arrive(c: nat)
      requires Valid() && c in active && active[c].stage.Storing?
      modifies side`dev
      ensures Valid() && Landed(c) && |side.dev| == |old(side.dev)|
      ensures forall a: nat :: a < |side.dev| && !InFlight(a) ==> side.dev[a] == old(side.dev)[a]
      ensures old(Coherent() && Apart()) ==> Coherent() && Apart()
    {
      var w := active[c].w;
      var was, n := side.dev, side.n;
      var dev := seq(|was|, a requires 0 <= a < |was| =>
        if ChunkOf(n, a) == c && Covers(w, Inside(n, a)) then w.buf[Inside(n, a) - w.off] else was[a]);
      if Coherent() && Apart() {
        ChangeKeeps(side.n, side.dev, dev, active, side.cache.Contents(), side.done, side.fetches, c);
      }
      side.dev := dev;
    }

    /** The write on chunk `c` is over below, well or with an error. */
    method StoreDone(c: nat, ok: bool)
      requires Valid() && c in active && active[c].stage.Storing?
      modifies this`active, this`pending, this`served, this`failed, side`dev, side`done, side.cache, locker
      ensures Valid() && (old(Coherent() && Apart()) ==> Coherent())
      ensures old(Coherent() && Separate()) ==> Coherent() && Separate()
      ensures PassedOn(old(pending), pending, active, c) && served == old(served) + multiset{old(active)[c].w}
      ensures OnlyChunk(old(active), old(side.cache.Contents()), active, side.cache.Contents(), c) && (ok ==> WentBelow(c))
      ensures |side.dev| == |old(side.dev)|
      ensures forall a :: a in old(Settled()) ==> a < |side.dev| && side.dev[a] == old(side.dev)[a]
      ensures !ok ==> forall p :: p in side.cache.Contents() ==> p.key != c
      ensures failed == if ok then old(failed) else old(failed) + {old(active)[c].w.rid}
    {
      ghost var coh := Coherent() && Apart();
      if Separate() {
        SeparateIsApart(side.n, chunks, locker.bits, active, pending, -1, side.done, side.fetches);
      }
      if ok {
        Arrive(c);
      }
      ChunkOver(c, !ok, coh);
    }

    // ---------- Client writes ----------

    /** No miss of the chunk is under way that may still fill the cache. */
    ghost predicate MayWriteChunk(c: nat)
      reads side
    {
      NoMissOf(side.done, side.fetches, c)
    }

    /** A chunk write is accepted: its chunk is locked for it, or it has to wait. */
    method AcceptSub(w: Sub, ghost coh: bool) returns (res: int)
      requires Valid() && SubOk(side.n, chunks, w) && w.chunk < |locker.bits| && (coh ==> Coherent())
      modifies this`active, this`pending, this`accepted, side`done, side.cache, locker
      ensures res == 0 && Valid() && (coh ==> Coherent())
      ensures |locker.bits| == |old(locker.bits)| && accepted == old(accepted) + multiset{w} && side.done >= old(side.done)
      ensures old(Separate() && (|w.buf| == side.n || MayWriteChunk(w.chunk))) ==> Separate()
      ensures Admitted(old(active), old(pending), active, pending, w) && (w.chunk !in old(active) ==> WentBelow(w.chunk))
      ensures OthersStay(old(side.cache.Contents()), side.cache.Contents(), w.chunk)
      ensures w.chunk !in old(active) && |w.buf| < side.n && old(Has(side.cache.Contents(), w.chunk)) ==>
        side.done == old(side.done) && w.chunk in active && active[w.chunk] == Active(w, Storing)
    {
      var taken := Lock(w.chunk);
      if !taken {
        Wait(w);
        res := 0;
      } else {
        res := Begin(w, coh);
      }
    }

    method Lock(c: nat) returns (taken: bool)
      requires Valid() && c < |locker.bits|
      modifies locker
      ensures taken <==> c !in active
      ensures (if taken then Shows(c) else Valid()) && |locker.bits| == |old(locker.bits)|
      ensures old(Separate()) && (taken ==> MayWriteChunk(c)) ==> Separate()
    {
      ghost var bits := locker.bits;
      taken := locker.TryLock(c);
      if taken {
        Locked(side.n, chunks, bits, locker.bits, active, pending, c);
      } else {
        SameBits(side.n, chunks, bits, locker.bits, active, pending);
      }
    }

    method Wait(w: Sub)
      requires Valid() && SubOk(side.n, chunks, w) && w.chunk in active
      modifies this`pending, this`accepted
      ensures Valid() && Admitted(old(active), old(pending), active, pending, w) && accepted == old(accepted) + multiset{w}
    {
      Waited(side.n, chunks, locker.bits, active, pending, w);
      CountWaiting(accepted, served, pending, active, w);
      pending := pending + [w];
      accepted := accepted + multiset{w};
    }

    /** A write starts on a chunk just locked for it. */
    method Begin(w: Sub, ghost coh: bool) returns (res: int)
      requires Shows(w.chunk) && SubOk(side.n, chunks, w) && w.chunk !in active && (coh ==> Coherent())
      modifies this`active, this`accepted, side`done, side.cache
      ensures res == 0 && Valid() && (coh ==> Coherent()) && accepted == old(accepted) + multiset{w}
      ensures old(Separate()) || |w.buf| == side.n ==> Separate()
      ensures Admitted(old(active), old(pending), active, pending, w) && WentBelow(w.chunk)
      ensures OthersStay(old(side.cache.Contents()), side.cache.Contents(), w.chunk)
      ensures side.done == old(side.done) + if |w.buf| == side.n then 1 else 0
      ensures |w.buf| < side.n && old(Has(side.cache.Contents(), w.chunk)) ==>
        side.done == old(side.done) && w.chunk in active && active[w.chunk] == Active(w, Storing)
    {
      ghost var was := active;
      res := Process(w, coh, -1);
      NewStarted(side.n, chunks, locker.bits, accepted, served, was, pending, active[w.chunk]);
      accepted := accepted + multiset{w};
    }

    /** The next piece of a client write. */
    method AcceptNext(rid: nat, addr: nat, buf: seq<byte>, wb: nat, chunk: nat, off: nat,
                      ghost pieces: seq<Sub>, ghost at: seq<nat>, ghost was: multiset<Sub>, ghost coh: bool)
      returns (wb': nat, ghost pieces': seq<Sub>, ghost at': seq<nat>)
      requires Valid() && (coh ==> Coherent()) && wb < |buf| && (wb == 0 || off == 0)
      requires Cursor(side.n, addr, |buf|, wb, chunk, off) && DivRoundUp(addr + |buf|, side.n) <= |locker.bits|
      requires Cut(side.n, rid, addr, buf, wb, pieces, at) && accepted == was + multiset(pieces)
      modifies this`active, this`pending, this`accepted, side`done, side.cache, locker
      ensures Valid() && (coh ==> Coherent()) && |locker.bits| == |old(locker.bits)|
      ensures wb < wb' <= |buf| && Cursor(side.n, addr, |buf|, wb', chunk + 1, 0)
      ensures Cut(side.n, rid, addr, buf, wb', pieces', at') && accepted == was + multiset(pieces')
      ensures old(Separate() && MayWrite(addr, |buf|)) ==> Separate() && MayWrite(addr, |buf|)
    {
      var len := if side.n - off < |buf| - wb then side.n - off else |buf| - wb;
      wb' := wb + len;
      pieces', at' := NextPiece(side.n, rid, addr, buf, wb, chunk, off, wb', pieces, at);
      AcceptPiece(rid, addr, buf, wb, chunk, off, wb', coh);
    }

    /** The piece of a client write up to byte `end`. */
    method AcceptPiece(rid: nat, addr: nat, buf: seq<byte>, wb: nat, chunk: nat, off: nat, end: nat, ghost coh: bool)
      requires Valid() && (coh ==> Coherent()) && wb < |buf| && (wb == 0 || off == 0)
      requires Cursor(side.n, addr, |buf|, wb, chunk, off) && DivRoundUp(addr + |buf|, side.n) <= |locker.bits|
      requires end == wb + if side.n - off < |buf| - wb then side.n - off else |buf| - wb
      modifies this`active, this`pending, this`accepted, side`done, side.cache, locker
      ensures Valid() && (coh ==> Coherent()) && |locker.bits| == |old(locker.bits)|
      ensures accepted == old(accepted) + multiset{Sub(rid, chunk, off, buf[wb..end])}
      ensures old(Separate() && MayWrite(addr, |buf|)) ==> Separate() && MayWrite(addr, |buf|)
    {
      if MayWrite(addr, |buf|) {
        TouchedByWrite(side.n, side.done, side.fetches, addr, |buf|, wb, end - wb);
      }
      BelowRoundUp(addr + wb, addr + |buf|, side.n);
      AcceptApart(Sub(rid, chunk, off, buf[wb..end]), addr, |buf|, coh);
    }

    /** A piece of a write of `len` bytes at `addr`. */
    method AcceptApart(w: Sub, addr: nat, len: nat, ghost coh: bool)
      requires Valid() && SubOk(side.n, chunks, w) && w.chunk < |locker.bits| && (coh ==> Coherent())
      requires MayWrite(addr, len) ==> |w.buf| == side.n || MayWriteChunk(w.chunk)
      modifies this`active, this`pending, this`accepted, side`done, side.cache, locker
      ensures Valid() && (coh ==> Coherent()) && |locker.bits| == |old(locker.bits)| && accepted == old(accepted) + multiset{w}
      ensures old(Separate() && MayWrite(addr, len)) ==> Separate() && MayWrite(addr, len)
    {
      ghost var done0, spare := side.done, MayWrite(addr, len);
      var res := AcceptSub(w, coh);
      if spare {
        SparedLater(side.n, done0, side.done, side.fetches, addr, len);
      }
    }

    /** `submit` of a client write: one write per chunk it touches, in order, without gap or
        overlap. */
    method SubmitWrite(rid: nat, addr: nat, buf: seq<byte>) returns (ghost pieces: seq<Sub>, ghost at: seq<nat>)
      requires Valid() && buf != [] && addr + |buf| <= |side.dev|
      modifies this`active, this`pending, this`accepted, side`done, side.cache, locker
      ensures Valid() && (old(Coherent()) ==> Coherent())
      ensures old(Separate() && MayWrite(addr, |buf|)) ==> Separate()
      ensures Cut(side.n, rid, addr, buf, |buf|, pieces, at) && accepted == old(accepted) + multiset(pieces)
    {
      ghost var coh := Coherent();
      Grow(addr + |buf|);
      pieces, at := AcceptPieces(rid, addr, buf, coh);
    }

    method AcceptPieces(rid: nat, addr: nat, buf: seq<byte>, ghost coh: bool) returns (ghost pieces: seq<Sub>, ghost at: seq<nat>)
      requires Valid() && (coh ==> Coherent()) && DivRoundUp(addr + |buf|, side.n) <= |locker.bits|
      modifies this`active, this`pending, this`accepted, side`done, side.cache, locker
      ensures Valid() && (coh ==> Coherent())
      ensures old(Separate() && MayWrite(addr, |buf|)) ==> Separate()
      ensures Cut(side.n, rid, addr, buf, |buf|, pieces, at) && accepted == old(accepted) + multiset(pieces)
    {
      ghost var apart := Separate() && MayWrite(addr, |buf|);
      QuotIsDiv(addr, side.n);
      var chunk: nat, off: nat, wb: nat := addr / side.n, addr % side.n, 0;
      pieces, at := [], [0];
      while wb < |buf|
        invariant Valid() && (coh ==> Coherent()) && wb <= |buf| && (wb == 0 || off == 0)
        invariant Cursor(side.n, addr, |buf|, wb, chunk, off)
        invariant DivRoundUp(addr + |buf|, side.n) <= |locker.bits|
        invariant apart ==> Separate() && MayWrite(addr, |buf|)
        invariant Cut(side.n, rid, addr, buf, wb, pieces, at) && accepted == old(accepted) + multiset(pieces)
      {
        wb, pieces, at := AcceptNext(rid, addr, buf, wb, chunk, off, pieces, at, old(accepted), coh);
        chunk, off := chunk + 1, 0;
      }
    }

    /** Room for the lock bits of all chunks below byte `end`. */
    method Grow(end: nat)
      requires Valid() && end <= |side.dev|
      modifies locker
      ensures Valid() && DivRoundUp(end, side.n) <= |locker.bits| && (old(Separate()) ==> Separate())
    {
      ghost var bits := locker.bits;
      QuotWrap(|side.dev|, side.n);
      RoundUpFits(end, side.n, chunks);
      locker.Extend(DivRoundUp(end, side.n));
      SameBits(side.n, chunks, bits, locker.bits, active, pending);
    }

    // ---------- Client reads ----------

    /** Each byte out of the cache is the byte below, overlaid with the write in flight. */
    method SubmitRead(rid: nat, addr: nat, len: nat)
      requires Valid() && rid !in side.clients && len > 0 && addr + len <= |side.dev|
      modifies side`fetches, side`clients, side`tickets, side.cache
      ensures Valid() && (old(Coherent()) ==> Coherent())
      ensures Asked(old(side.fetches), side.fetches, side.done) && Kept(old(side.cache.Contents()), side.cache.Contents())
      ensures UsedByRead(side.n, old(side.cache.Contents()), side.cache.Contents(), addr, len)
      ensures Joined(old(side.clients), side.clients, rid, addr, len)
      ensures ServedTo(side.n, old(side.cache.Contents()), side.fetches, rid, addr, side.clients[rid].buf, len)
      ensures old(Separate() && MayRead(addr, len)) ==> Separate()
      ensures old(Coherent()) ==> ServedExpected(rid)
    {
      ghost var l, coh := side.cache.Contents(), Coherent();
      ServeApart(rid, addr, len);
      if coh {
        CachedKept(side.n, side.dev, active, l, side.cache.Contents(), -1);
        HitsAreExpected(rid, l);
      }
    }

    /** The read itself, whatever the cache holds. */
    method Serve(rid: nat, addr: nat, len: nat)
      requires Valid() && rid !in side.clients && len > 0 && addr + len <= |side.dev|
      modifies side`fetches, side`clients, side`tickets, side.cache
      ensures Valid() && Kept(old(side.cache.Contents()), side.cache.Contents())
      ensures Asked(old(side.fetches), side.fetches, side.done) && Missed(old(side.cache.Contents()), old(side.fetches), side.fetches)
      ensures UsedByRead(side.n, old(side.cache.Contents()), side.cache.Contents(), addr, len)
      ensures Joined(old(side.clients), side.clients, rid, addr, len)
      ensures ServedTo(side.n, old(side.cache.Contents()), side.fetches, rid, addr, side.clients[rid].buf, len)
      ensures old(FetchedOk(side.n, side.dev, side.done, side.fetches)) ==> FetchedOk(side.n, side.dev, side.done, side.fetches)
    {
      ghost var fetches0 := side.fetches;
      side.SubmitRead(rid, addr, len);
      AskedKeeps(side.n, side.dev, side.done, fetches0, side.fetches, side.clients, side.tickets);
    }

    /** Misses stay apart from writes if the client may read. */
    method ServeApart(rid: nat, addr: nat, len: nat)
      requires Valid() && rid !in side.clients && len > 0 && addr + len <= |side.dev|
      modifies side`fetches, side`clients, side`tickets, side.cache
      ensures Valid() && Kept(old(side.cache.Contents()), side.cache.Contents())
      ensures Asked(old(side.fetches), side.fetches, side.done)
      ensures UsedByRead(side.n, old(side.cache.Contents()), side.cache.Contents(), addr, len)
      ensures Joined(old(side.clients), side.clients, rid, addr, len)
      ensures ServedTo(side.n, old(side.cache.Contents()), side.fetches, rid, addr, side.clients[rid].buf, len)
      ensures old(FetchedOk(side.n, side.dev, side.done, side.fetches)) ==> FetchedOk(side.n, side.dev, side.done, side.fetches)
      ensures old(Separate() && MayRead(addr, len)) ==> Separate()
    {
      ghost var l, fetches0, clients0 := side.cache.Contents(), side.fetches, side.clients;
      ghost var sep := Separate() && MayRead(addr, len);
      assert forall r, i :: r in clients0 && i in clients0[r].todo ==> i in fetches0;
      if sep {
        MayReadMeans(addr, len);
      }
      Serve(rid, addr, len);
      if sep {
        MissesStaySeparate(side.n, locker.bits, side.done, fetches0, side.fetches, clients0, side.clients, side.tickets, rid, addr, len, l);
      }
    }

    /** Every byte a client has, but for those on their way, is the byte below, overlaid with the
        write in flight. */
    ghost predicate ServedExpected(rid: nat)
      requires side.n > 0 && rid in side.clients && side.clients[rid].addr + |side.clients[rid].buf| <= |side.dev|
      reads this, side
    {
      forall i :: 0 <= i < |side.clients[rid].buf| ==>
        Awaited(side.fetches, rid, i) || side.clients[rid].buf[i] == Expect(side.n, side.dev, active, side.clients[rid].addr + i)
    }

    lemma HitsAreExpected(rid: nat, l: seq<Pair<seq<byte>>>)
      requires side.n > 0 && rid in side.clients && side.clients[rid].addr + |side.clients[rid].buf| <= |side.dev|
      requires CachedOk(side.n, side.dev, active, l, -1)
      requires ServedTo(side.n, l, side.fetches, rid, side.clients[rid].addr, side.clients[rid].buf, |side.clients[rid].buf|)
      ensures ServedExpected(rid)
    {
      var c := side.clients[rid];
      forall i | 0 <= i < |c.buf| && !Awaited(side.fetches, rid, i)
        ensures c.buf[i] == Expect(side.n, side.dev, active, c.addr + i)
      {
        HitIsExpected(side.n, side.dev, active, l, c.addr, c.buf, i);
      }
    }

    lemma MayReadMeans(addr: nat, len: nat)
      requires side.Valid()
      ensures MayRead(addr, len) <==> HitsOrFree(side.n, side.cache.Contents(), locker.bits, addr, len)
    {
      forall a | addr <= a < addr + len
        ensures IsCached(ChunkOf(side.n, a)) <==> Has(side.cache.Contents(), ChunkOf(side.n, a))
      {
        ExactIsHas(side.cache.cache, side.cache.max, ChunkOf(side.n, a));
      }
    }

    method Sample(id: nat, a: nat)
      requires Valid() && id in side.fetches && a < |side.dev| && ChunkOf(side.n, a) == side.fetches[id].chunk
      modifies side`fetches
      ensures Valid() && (old(Coherent()) ==> Coherent()) && (old(Separate()) ==> Separate())
      ensures id in old(side.fetches) && Inside(side.n, a) < |old(side.fetches)[id].buf|
      ensures side.fetches == old(side.fetches)[id := old(side.fetches)[id].(
        buf := old(side.fetches)[id].buf[Inside(side.n, a) := side.dev[a]], got := old(side.fetches)[id].got + {Inside(side.n, a)})]
    {
      FetchSampled(side.n, side.dev, side.done, side.fetches, locker.bits, id, a);
      side.Sample(id, a);
    }

    /** The completer of a miss.  It may only be trusted if no write of the chunk went below
        while it was under way. */
    method FetchDone(id: nat, ok: bool) returns (over: bool)
      requires Valid() && id in side.fetches
      requires ok ==> forall i: nat :: i < side.n ==> i in side.fetches[id].got
      modifies side`fetches, side`clients, side.cache
      ensures Valid() && id in old(side.fetches) && side.fetches == old(side.fetches) - {id}
      ensures old(Coherent() && Apart()) ==> Coherent() && Apart()
      ensures old(Coherent() && Separate()) ==> Coherent() && Separate()
      ensures var f := old(side.fetches)[id];
        if ok && f.since == side.done then CameFirst(old(side.cache.Contents()), side.cache.Contents(), f.chunk, f.buf)
        else side.cache.Contents() == old(side.cache.Contents())
      ensures var f := old(side.fetches)[id];
        && f.rid in old(side.clients) && f.at + f.len <= |old(side.clients)[f.rid].buf| && f.off + f.len <= |f.buf|
        && side.clients == old(side.clients)[f.rid := Delivered(old(side.clients)[f.rid], id, f, ok)]
        && (over <==> side.clients[f.rid].todo == {})
        && (side.clients[f.rid].err <==> old(side.clients)[f.rid].err || !ok)
    {
      if Separate() {
        SeparateIsApart(side.n, chunks, locker.bits, active, pending, -1, side.done, side.fetches);
      }
      ghost var l, f, coh := side.cache.Contents(), side.fetches[id], Coherent() && Apart();
      over := side.FetchDone(id, ok);
      if coh && ok && f.since == side.done {
        FillKeeps(side.n, side.dev, active, l, side.cache.Contents(), side.done, f);
      }
    }

    // ---------- Why the reads have to stay apart ----------

    /** A client's fetch reads its whole chunk while nothing changes below. */
    method SampleAll(id: nat, at: nat)
      requires Valid() && id in side.fetches && side.fetches[id].chunk < chunks && at < side.n
      modifies side`fetches
      ensures Valid() && id in side.fetches && id in old(side.fetches)
      ensures SampledTo(side.n, side.dev, old(side.fetches)[id], side.fetches[id], side.n, at)
      ensures side.fetches == old(side.fetches)[id := side.fetches[id]]
    {
      ghost var fetches0 := side.fetches;
      var i := 0;
      InChunk(side.n, |side.dev|, chunks, side.fetches[id].chunk, at);
      while i < side.n
        invariant 0 <= i <= side.n && Valid() && id in side.fetches && side.fetches == fetches0[id := side.fetches[id]]
        invariant SampledTo(side.n, side.dev, fetches0[id], side.fetches[id], i, at)
      {
        SampleNext(id, i, at, fetches0[id]);
        i := i + 1;
      }
    }

    method SampleNext(id: nat, i: nat, at: nat, ghost f0: Fetch)
      requires Valid() && id in side.fetches && f0.chunk < chunks && i < side.n
      requires SampledTo(side.n, side.dev, f0, side.fetches[id], i, at)
      modifies side`fetches
      ensures Valid() && id in side.fetches && side.fetches == old(side.fetches)[id := side.fetches[id]]
      ensures SampledTo(side.n, side.dev, f0, side.fetches[id], i + 1, at)
    {
      ghost var f := side.fetches[id];
      InChunk(side.n, |side.dev|, chunks, f0.chunk, i);
      Sample(id, side.fetches[id].chunk * side.n + i);
      SampledMore(side.n, side.dev, f0, f, side.fetches[id], i, at);
    }

    /** From any state in which a fetch that may fill the cache overlaps a write of its chunk
        below, the layer below alone can bring about a cached chunk that is wrong. */
    method Spoil(id: nat)
      requires Valid() && id in side.fetches && Overlaps(active, side.done, side.fetches[id])
      modifies side`dev, side`fetches, side`clients, side.cache
      ensures Valid() && !Coherent()
    {
      var c := side.fetches[id].chunk;
      var w := active[c].w;
      InChunk(side.n, |side.dev|, chunks, c, w.off);
      Tear(c * side.n + w.off, if w.buf[0] == 0 then 1 else 0);
      FillWrongly(id, c * side.n + w.off);
    }

    /** A fetch reads a byte that the write in flight does not say, and fills the cache. */
    method FillWrongly(id: nat, ghost a: nat)
      requires Valid() && id in side.fetches && Overlaps(active, side.done, side.fetches[id]) && a < |side.dev|
      requires var w := active[side.fetches[id].chunk].w;
        w.off < side.n && a == side.fetches[id].chunk * side.n + w.off && side.dev[a] != w.buf[0]
      modifies side`fetches, side`clients, side.cache
      ensures Valid() && !Coherent()
    {
      var c := side.fetches[id].chunk;
      InChunk(side.n, |side.dev|, chunks, c, active[c].w.off);
      ghost var f := side.fetches[id];
      SampleAll(id, active[c].w.off);
      WrongByte(side.n, side.dev, active, f, side.fetches[id], active[c].w.off, a);
      DeliverWrongly(id, a);
    }

    /** A fetch that has read such a byte is over. */
    method DeliverWrongly(id: nat, ghost a: nat)
      requires Valid() && id in side.fetches && side.fetches[id].since == side.done && a < |side.dev|
      requires forall i: nat :: i < side.n ==> i in side.fetches[id].got
      requires ChunkOf(side.n, a) == side.fetches[id].chunk && |side.fetches[id].buf| == side.n
      requires side.fetches[id].buf[Inside(side.n, a)] != Expect(side.n, side.dev, active, a)
      modifies side`fetches, side`clients, side.cache
      ensures Valid() && !Coherent()
    {
      ghost var f := side.fetches[id];
      var over := FetchDone(id, true);
      WrongPair(side.n, side.dev, active, side.cache.Contents(), f.chunk, a, f.buf);
    }
  }

  /** The trap, from a fresh handler on two bytes: two clients miss the same chunk, the first
      fetch fills the cache, a one-byte write changes the cached chunk in place, which leaves
      the count of writes alone, and then the second fetch fills the cache too. */
  method IncoherentRun() returns (h: Rwt)
    ensures fresh(h) && h.Valid() && !h.Coherent()
  {
    var first, second;
    h, first, second := MissTwice();
    FillFirst(h, first, second);
    WriteOver(h, second);
    h.Spoil(second);
  }

  ghost predicate Empty(h: Rwt)
    reads h.side, h.side.cache
  {
    forall p :: p !in h.side.cache.Contents()
  }

  ghost predicate Outstanding(h: Rwt, id: nat)
    reads h, h.side
  {
    id in h.side.fetches && h.side.fetches[id].chunk == 0 && h.side.fetches[id].since == h.side.done
  }

  /** A client asks for the first byte of an empty cache. */
  method Miss(h: Rwt, rid: nat) returns (id: nat)
    requires h.Valid() && rid !in h.side.clients && |h.side.dev| > 0 && Empty(h)
    modifies h.side`fetches, h.side`clients, h.side`tickets, h.side.cache
    ensures h.Valid() && Empty(h) && Outstanding(h, id) && id !in old(h.side.fetches)
    ensures h.side.clients.Keys == old(h.side.clients).Keys + {rid}
    ensures forall i :: i in old(h.side.fetches) ==> i in h.side.fetches && h.side.fetches[i] == old(h.side.fetches)[i]
  {
    ghost var fetches0, clients0, l := h.side.fetches, h.side.clients, h.side.cache.Contents();
    assert forall i :: i in fetches0 ==> fetches0[i].rid in clients0;
    h.SubmitRead(rid, 0, 1);
    assert Awaited(h.side.fetches, rid, 0) by {
      assert !Hit(h.side.n, l, 0, h.side.clients[rid].buf, 0);
    }
    id :| Coming(h.side.fetches, rid, id, 0);
    assert id !in fetches0;
    assert h.side.fetches[id].at == 0 && Wrap(0, h.side.n) == 0;
  }

  method MissTwice() returns (h: Rwt, first: nat, second: nat)
    ensures fresh(h) && fresh(h.side) && fresh(h.side.cache) && fresh(h.locker) && h.Valid()
    ensures h.chunks == 1 && h.side.n == 2 && |h.side.dev| == 2 && h.active == map[]
    ensures Outstanding(h, first) && Outstanding(h, second) && first != second
  {
    QuotUnique(2, 2, 1, 0);
    h := new Rwt(2, 1, [0, 0]);
    assert Empty(h);
    first, second := MissBoth(h);
  }

  method MissBoth(h: Rwt) returns (first: nat, second: nat)
    requires h.Valid() && |h.side.dev| > 0 && Empty(h) && h.side.clients == map[]
    modifies h.side`fetches, h.side`clients, h.side`tickets, h.side.cache
    ensures h.Valid() && Outstanding(h, first) && Outstanding(h, second) && first != second
  {
    first := Miss(h, 0);
    second := Miss(h, 1);
  }

  method FillFirst(h: Rwt, first: nat, second: nat)
    requires h.Valid() && h.chunks > 0 && h.side.n > 0 && Outstanding(h, first) && Outstanding(h, second) && first != second
    modifies h.side`fetches, h.side`clients, h.side.cache
    ensures h.Valid() && Outstanding(h, second) && Has(h.side.cache.Contents(), 0)
  {
    h.SampleAll(first, 0);
    ghost var buf := h.side.fetches[first].buf;
    var over := h.FetchDone(first, true);
    assert Pair(0, buf) in h.side.cache.Contents();
    MemberIsHas(h.side.cache.Contents(), 0);
  }

  method WriteOver(h: Rwt, second: nat)
    requires h.Valid() && h.chunks > 0 && h.side.n == 2 && |h.side.dev| >= 2 && h.active == map[]
    requires Outstanding(h, second) && Has(h.side.cache.Contents(), 0)
    modifies h`active, h`pending, h`accepted, h.side`done, h.side.cache, h.locker
    ensures h.Valid() && Outstanding(h, second) && Overlaps(h.active, h.side.done, h.side.fetches[second])
  {
    h.Grow(1);
    BelowRoundUp(0, 1, 2);
    var res := h.AcceptSub(Sub(2, 0, 0, [1]), false);
  }

  /** A write of the only chunk, by client write `rid`. */
  function OneByte(rid: nat): Sub { Sub(rid, 0, 0, [0]) }

  /** Writes that wait are not served in order, from a fresh handler on one byte: of four writes,
      accepted one after the other, the first two end, and the fourth has the lock while the third
      still waits. */
  method OvertakingRun() returns (h: Rwt)
    ensures fresh(h) && h.Valid() && h.served == multiset{OneByte(1), OneByte(2)}
    ensures 0 in h.active && h.active[0].w == OneByte(4) && h.pending == [OneByte(3)]
  {
    h := WaitingThree();
    EndTwo(h, OneByte(2), OneByte(3), OneByte(4));
  }

  /** Two writes of the chunk end while three and then two wait. */
  method EndTwo(h: Rwt, second: Sub, third: Sub, fourth: Sub)
    requires h.Valid() && 0 in h.active && h.pending == [second, third, fourth]
    requires second.chunk == third.chunk == fourth.chunk == 0
    modifies h`active, h`pending, h`served, h`failed, h.side, h.side.cache, h.locker
    ensures h.Valid() && 0 in h.active && h.active[0].w == fourth && h.pending == [third]
    ensures h.served == old(h.served) + multiset{old(h.active)[0].w, second}
  {
    ThirdOvertakesSecond(second, third, fourth);
    End(h);
    assert h.pending == [fourth, third];
    End(h);
  }

  /** One write of the chunk runs, three more wait, in the order they came. */
  method WaitingThree() returns (h: Rwt)
    ensures fresh(h) && fresh(h.side) && fresh(h.side.cache) && fresh(h.locker) && h.Valid() && h.served == multiset{}
    ensures 0 in h.active && h.active[0].w == OneByte(1) && h.pending == [OneByte(2), OneByte(3), OneByte(4)]
  {
    h := WritingOne();
    Add(h, 2);
    Add(h, 3);
    Add(h, 4);
  }

  method WritingOne() returns (h: Rwt)
    ensures fresh(h) && fresh(h.side) && fresh(h.side.cache) && fresh(h.locker) && h.Valid() && h.served == multiset{}
    ensures h.side.n == 1 && h.chunks == 1 && |h.locker.bits| > 0
    ensures 0 in h.active && h.active[0].w == OneByte(1) && h.pending == []
  {
    QuotUnique(1, 1, 1, 0);
    h := new Rwt(1, 1, [0]);
    h.Grow(1);
    BelowRoundUp(0, 1, 1);
    var res := h.AcceptSub(OneByte(1), false);
  }

  /** One more write of the chunk comes. */
  method Add(h: Rwt, rid: nat)
    requires h.Valid() && h.side.n == 1 && h.chunks == 1 && |h.locker.bits| > 0 && 0 in h.active
    modifies h`active, h`pending, h`accepted, h.side`done, h.side.cache, h.locker
    ensures h.Valid() && |h.locker.bits| > 0 && h.active == old(h.active) && h.pending == old(h.pending) + [OneByte(rid)]
  {
    var res := h.AcceptSub(OneByte(rid), false);
  }

  /** The write on chunk 0 ends, with an error. */
  method End(h: Rwt)
    requires h.Valid() && 0 in h.active
    modifies h`active, h`pending, h`served, h`failed, h.side, h.side.cache, h.locker
    ensures h.Valid() && PassedOn(old(h.pending), h.pending, h.active, 0) && h.served == old(h.served) + multiset{old(h.active)[0].w}
  {
    if h.active[0].stage.Reading? {
      h.ReadDone(0, false);
    } else {
      h.StoreDone(0, false);
    }
  }

  lemma MemberIsHas(l: seq<Pair<seq<byte>>>, key: nat)
    requires exists p :: p in l && p.key == key
    ensures Has(l, key)
  {
    LookupIsMember(l, key);
  }

  /** A cached chunk that does not have the byte of the write in flight. */
  lemma WrongPair(n: nat, dev: seq<byte>, active: map<nat, Active>, l: seq<Pair<seq<byte>>>, c: nat, a: nat, buf: seq<byte>)
    requires n > 0 && Pair(c, buf) in l && a < |dev| && ChunkOf(n, a) == c && |buf| == n
    requires buf[Inside(n, a)] != Expect(n, dev, active, a)
    ensures !CachedOk(n, dev, active, l, -1)
  {
    assert !PairOk(n, dev, active, Pair(c, buf));
  }

  lemma InChunk(n: nat, size: nat, chunks: nat, c: nat, i: nat)
    requires n > 0 && Wrap(size, n) == 0 && Quot(size, n) == chunks && c < chunks && i < n
    ensures c * n + i < size && ChunkOf(n, c * n + i) == c && Inside(n, c * n + i) == i
  {
    QuotWrap(size, n);
    LowerQuotientIsLess(c, i, chunks, 0, n);
    QuotUnique(c * n + i, n, c, i);
  }

  /** The first `wb` bytes of a client write, cut into chunk writes: one for each chunk, up to its end
      or the client write's. */
  ghost predicate Cut(n: nat, rid: nat, addr: nat, buf: seq<byte>, wb: nat, pieces: seq<Sub>, at: seq<nat>)
    requires n > 0
  {
    && |at| == |pieces| + 1 && at[0] == 0 && at[|pieces|] == wb
    && forall k :: 0 <= k < |pieces| ==> CutAt(n, rid, addr, buf, pieces, at, k)
  }

  ghost predicate CutAt(n: nat, rid: nat, addr: nat, buf: seq<byte>, pieces: seq<Sub>, at: seq<nat>, k: nat)
    requires n > 0 && |at| == |pieces| + 1 && k < |pieces|
  {
    && at[k] < at[k + 1] <= |buf| && Inside(n, addr + at[k]) + (at[k + 1] - at[k]) <= n
    && (at[k + 1] == |buf| || Inside(n, addr + at[k]) + (at[k + 1] - at[k]) == n)
    && pieces[k] == Sub(rid, ChunkOf(n, addr + at[k]), Inside(n, addr + at[k]), buf[at[k]..at[k + 1]])
  }

  lemma CutMore(n: nat, rid: nat, addr: nat, buf: seq<byte>, wb: nat, len: nat, pieces: seq<Sub>, at: seq<nat>)
    requires n > 0 && Cut(n, rid, addr, buf, wb, pieces, at) && len > 0 && wb + len <= |buf| && Inside(n, addr + wb) + len <= n
    requires wb + len == |buf| || Inside(n, addr + wb) + len == n
    ensures Cut(n, rid, addr, buf, wb + len,
                pieces + [Sub(rid, ChunkOf(n, addr + wb), Inside(n, addr + wb), buf[wb..wb + len])], at + [wb + len])
  {
    var pieces', at' := pieces + [Sub(rid, ChunkOf(n, addr + wb), Inside(n, addr + wb), buf[wb..wb + len])], at + [wb + len];
    forall k | 0 <= k < |pieces'| ensures CutAt(n, rid, addr, buf, pieces', at', k) {
      if k < |pieces| {
        assert CutAt(n, rid, addr, buf, pieces, at, k);
      }
    }
  }

  /** The next piece of a client write. */
  lemma NextPiece(n: nat, rid: nat, addr: nat, buf: seq<byte>, wb: nat, chunk: nat, off: nat, end: nat, pieces: seq<Sub>, at: seq<nat>)
    returns (pieces': seq<Sub>, at': seq<nat>)
    requires n > 0 && wb < |buf| && Cursor(n, addr, |buf|, wb, chunk, off) && Cut(n, rid, addr, buf, wb, pieces, at)
    requires end == wb + if n - off < |buf| - wb then n - off else |buf| - wb
    ensures wb < end <= |buf| && Cursor(n, addr, |buf|, end, chunk + 1, 0)
    ensures Cut(n, rid, addr, buf, end, pieces', at')
    ensures multiset(pieces') == multiset(pieces) + multiset{Sub(rid, chunk, off, buf[wb..end])}
  {
    pieces', at' := pieces + [Sub(rid, chunk, off, buf[wb..end])], at + [end];
    CutMore(n, rid, addr, buf, wb, end - wb, pieces, at);
    CursorMoves(n, addr, |buf|, wb, chunk, off, end - wb);
  }

  /** A piece that is less than a chunk is of a chunk that its write does not write in full. */
  lemma TouchedByWrite(n: nat, done: nat, fetches: map<nat, Fetch>, addr: nat, len: nat, wb: nat, size: nat)
    requires n > 0 && wb < len && (wb == 0 || Inside(n, addr + wb) == 0)
    requires size == if n - Inside(n, addr + wb) < len - wb then n - Inside(n, addr + wb) else len - wb
    requires MissesSpare(n, done, fetches, addr, len)
    ensures size == n || NoMissOf(done, fetches, ChunkOf(n, addr + wb))
  {
    assert size < n ==> !Swallows(n, addr, len, addr + wb);
  }

  /** The fetches a client read has started are for chunks it touches. */
  lemma NewFetchesTouch(n: nat, fetches: map<nat, Fetch>, fetches': map<nat, Fetch>, clients: map<nat, Client>, clients': map<nat, Client>,
                        tickets: nat, rid: nat, addr: nat, len: nat)
    requires n > 0 && FetchesOk(n, fetches', clients', tickets)
    requires rid !in clients && Joined(clients, clients', rid, addr, len)
    requires forall r, id :: r in clients && id in clients[r].todo ==> id in fetches
    ensures forall id :: id in fetches' && id !in fetches ==> exists a :: addr <= a < addr + len && fetches'[id].chunk == ChunkOf(n, a)
  {
    forall id | id in fetches' && id !in fetches ensures exists a :: addr <= a < addr + len && fetches'[id].chunk == ChunkOf(n, a) {
      assert FetchOk(n, fetches'[id], id, clients');
      assert fetches'[id].rid == rid;
      assert fetches'[id].chunk == ChunkOf(n, addr + fetches'[id].at);
    }
  }

  /** So misses stay apart if each chunk a client reads is cached or free. */
  lemma MissesStaySeparate(n: nat, bits: seq<bool>, done: nat, fetches: map<nat, Fetch>, fetches': map<nat, Fetch>,
                           clients: map<nat, Client>, clients': map<nat, Client>, tickets: nat, rid: nat, addr: nat, len: nat,
                           l: seq<Pair<seq<byte>>>)
    requires n > 0 && FetchesOk(n, fetches', clients', tickets) && Asked(fetches, fetches', done) && Missed(l, fetches, fetches')
    requires rid !in clients && Joined(clients, clients', rid, addr, len)
    requires forall r, id :: r in clients && id in clients[r].todo ==> id in fetches
    requires HitsOrFree(n, l, bits, addr, len)
    requires SeparateIn(bits, done, fetches)
    ensures SeparateIn(bits, done, fetches')
  {
    NewFetchesTouch(n, fetches, fetches', clients, clients', tickets, rid, addr, len);
  }

  lemma AskedKeeps(n: nat, dev: seq<byte>, done: nat, fetches: map<nat, Fetch>, fetches': map<nat, Fetch>,
                   clients: map<nat, Client>, tickets: nat)
    requires n > 0 && Asked(fetches, fetches', done) && FetchesOk(n, fetches', clients, tickets)
    requires forall id :: id in fetches ==> fetches[id].since <= done
    ensures forall id :: id in fetches' ==> fetches'[id].since <= done
    ensures FetchedOk(n, dev, done, fetches) ==> FetchedOk(n, dev, done, fetches')
  {
    assert forall id :: id in fetches' ==> FetchOk(n, fetches'[id], id, clients);
  }

  lemma HitIsExpected(n: nat, dev: seq<byte>, active: map<nat, Active>, l: seq<Pair<seq<byte>>>, addr: nat, buf: seq<byte>, i: nat)
    requires n > 0 && CachedOk(n, dev, active, l, -1) && Hit(n, l, addr, buf, i) && addr + i < |dev|
    ensures i < |buf| && buf[i] == Expect(n, dev, active, addr + i)
  {
    var p :| p in l && p.key == ChunkOf(n, addr + i) && i < |buf| && Inside(n, addr + i) < |p.data|
             && buf[i] == p.data[Inside(n, addr + i)];
    assert PairOk(n, dev, active, p);
  }

  lemma StaysReading(n: nat, dev: seq<byte>, active: map<nat, Active>, l: seq<Pair<seq<byte>>>, c: nat, x: Active)
    requires n > 0 && CachedOk(n, dev, active, l, -1) && ReadingOk(n, dev, active)
    requires c in active && active[c].stage.Reading? && x.stage.Reading? && ReadOk(n, dev, c, x.stage.whole, x.stage.got)
    ensures CachedOk(n, dev, active[c := x], l, -1) && ReadingOk(n, dev, active[c := x])
  {
    forall p | p in l && p.key != -1 ensures PairOk(n, dev, active[c := x], p) {
      assert PairOk(n, dev, active, p);
    }
  }
}
