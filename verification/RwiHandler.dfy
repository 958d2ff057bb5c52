/** The invalidating cache (ublk/cache/rwi_handler.cpp): client writes go to the layer below
    only, and take the chunks they touch out of the cache when they are over. */
module RwiHandler {
  import opened Arithmetic
  import opened Bytes
  import opened FlatLru
  import opened CacheReads

  /** A client write the layer below is busy with. */
  datatype Write = Write(addr: nat, buf: seq<byte>)

  predicate Covers(w: Write, a: nat) { w.addr <= a < w.addr + |w.buf| }

  /** Writes are not empty and lie inside the device. */
  ghost predicate WritesOk(writes: map<nat, Write>, size: nat) {
    forall id :: id in writes ==> writes[id].buf != [] && writes[id].addr + |writes[id].buf| <= size
  }

  /** Some write that is not over covers address `a`. */
  ghost predicate Covered(writes: map<nat, Write>, a: nat) {
    exists id :: id in writes && Covers(writes[id], a)
  }

  // ---------- Coherence ----------

  /** A cached chunk holds what is below, wherever no write is under way. */
  ghost predicate PairOk(n: nat, dev: seq<byte>, writes: map<nat, Write>, p: Pair<seq<byte>>)
    requires n > 0
  {
    |p.data| == n &&
    forall a: nat :: a < |dev| && ChunkOf(n, a) == p.key ==> p.data[Inside(n, a)] == dev[a] || Covered(writes, a)
  }

  ghost predicate CachedOk(n: nat, dev: seq<byte>, writes: map<nat, Write>, l: seq<Pair<seq<byte>>>)
    requires n > 0
  {
    forall p :: p in l ==> PairOk(n, dev, writes, p)
  }

  /** So does what a fetch has read so far, unless a write was over since it began. */
  ghost predicate FetchOk(n: nat, dev: seq<byte>, writes: map<nat, Write>, done: nat, f: Fetch)
    requires n > 0
  {
    |f.buf| == n && f.since <= done &&
    (f.since == done ==> forall a: nat :: a < |dev| && ChunkOf(n, a) == f.chunk && Inside(n, a) in f.got ==>
      f.buf[Inside(n, a)] == dev[a] || Covered(writes, a))
  }

  ghost predicate FetchedOk(n: nat, dev: seq<byte>, writes: map<nat, Write>, done: nat, fetches: map<nat, Fetch>)
    requires n > 0
  {
    forall id :: id in fetches ==> FetchOk(n, dev, writes, done, fetches[id])
  }

  lemma MoreWrites(n: nat, dev: seq<byte>, writes: map<nat, Write>, done: nat, l: seq<Pair<seq<byte>>>, fetches: map<nat, Fetch>, id: nat, w: Write)
    requires n > 0 && CachedOk(n, dev, writes, l) && FetchedOk(n, dev, writes, done, fetches) && id !in writes
    ensures CachedOk(n, dev, writes[id := w], l) && FetchedOk(n, dev, writes[id := w], done, fetches)
  {
    forall a | Covered(writes, a) ensures Covered(writes[id := w], a) {
      var i :| i in writes && Covers(writes[i], a);
      assert Covers(writes[id := w][i], a);
    }
  }

  /** Below, only bytes that some write covers change. */
  ghost predicate ChangedUnder(dev: seq<byte>, dev': seq<byte>, writes: map<nat, Write>) {
    |dev'| == |dev| && forall a: nat :: a < |dev| ==> dev'[a] == dev[a] || Covered(writes, a)
  }

  lemma ChangeKeeps(n: nat, dev: seq<byte>, dev': seq<byte>, writes: map<nat, Write>, done: nat, l: seq<Pair<seq<byte>>>, fetches: map<nat, Fetch>)
    requires n > 0 && CachedOk(n, dev, writes, l) && FetchedOk(n, dev, writes, done, fetches) && ChangedUnder(dev, dev', writes)
    ensures CachedOk(n, dev', writes, l) && FetchedOk(n, dev', writes, done, fetches)
  {
    forall p | p in l ensures PairOk(n, dev', writes, p) {
      assert PairOk(n, dev, writes, p);
    }
    forall id | id in fetches ensures FetchOk(n, dev', writes, done, fetches[id]) {
      assert FetchOk(n, dev, writes, done, fetches[id]);
    }
  }

  /** The chunks a write touches, as the handler computes them. */
  lemma TouchedChunks(n: nat, w: Write, a: nat)
    requires n > 0 && Covers(w, a)
    ensures w.addr / n <= ChunkOf(n, a) < DivRoundUp(w.addr + |w.buf|, n)
  {
    QuotIsDiv(w.addr, n);
    QuotMonotone(w.addr, a, n);
    BelowRoundUp(a, w.addr + |w.buf|, n);
  }

  lemma StillCovered(writes: map<nat, Write>, id: nat, a: nat)
    requires id in writes && Covered(writes, a) && !Covers(writes[id], a)
    ensures Covered(writes - {id}, a)
  {
    var i :| i in writes && Covers(writes[i], a);
    assert i in writes - {id};
  }

  /** A write is over: its chunks are out of the cache, and no fetch that began before will
      fill it. */
  lemma WriteOver(n: nat, dev: seq<byte>, writes: map<nat, Write>, done: nat, l: seq<Pair<seq<byte>>>, l': seq<Pair<seq<byte>>>,
                  fetches: map<nat, Fetch>, id: nat)
    requires n > 0 && CachedOk(n, dev, writes, l) && FetchedOk(n, dev, writes, done, fetches) && id in writes
    requires l' == Outside(l, writes[id].addr / n, DivRoundUp(writes[id].addr + |writes[id].buf|, n))
    ensures CachedOk(n, dev, writes - {id}, l') && FetchedOk(n, dev, writes - {id}, done + 1, fetches)
  {
    var w := writes[id];
    forall p | p in l' ensures PairOk(n, dev, writes - {id}, p) {
      OutsideMember(l, w.addr / n, DivRoundUp(w.addr + |w.buf|, n), p);
      PairWithout(n, dev, writes, id, p);
    }
    forall i | i in fetches ensures FetchOk(n, dev, writes - {id}, done + 1, fetches[i]) {
      assert FetchOk(n, dev, writes, done, fetches[i]);
    }
  }

  lemma PairWithout(n: nat, dev: seq<byte>, writes: map<nat, Write>, id: nat, p: Pair<seq<byte>>)
    requires n > 0 && PairOk(n, dev, writes, p) && id in writes
    requires !(writes[id].addr / n <= p.key < DivRoundUp(writes[id].addr + |writes[id].buf|, n))
    ensures PairOk(n, dev, writes - {id}, p)
  {
    forall a: nat | a < |dev| && ChunkOf(n, a) == p.key && p.data[Inside(n, a)] != dev[a] ensures Covered(writes - {id}, a) {
      if Covers(writes[id], a) {
        TouchedChunks(n, writes[id], a);
      }
      StillCovered(writes, id, a);
    }
  }

  lemma SampleKeeps(n: nat, dev: seq<byte>, writes: map<nat, Write>, done: nat, f: Fetch, a: nat)
    requires n > 0 && FetchOk(n, dev, writes, done, f) && a < |dev| && ChunkOf(n, a) == f.chunk
    ensures FetchOk(n, dev, writes, done, f.(buf := f.buf[Inside(n, a) := dev[a]], got := f.got + {Inside(n, a)}))
  {
    forall b: nat | b < |dev| && ChunkOf(n, b) == f.chunk && Inside(n, b) == Inside(n, a) ensures b == a {
      QuotWrap(a, n);
      QuotWrap(b, n);
    }
  }

  /** A fetch that saw every byte is as good as a cached chunk. */
  lemma FillKeeps(n: nat, dev: seq<byte>, writes: map<nat, Write>, done: nat, l: seq<Pair<seq<byte>>>, l': seq<Pair<seq<byte>>>, f: Fetch)
    requires n > 0 && CachedOk(n, dev, writes, l) && FetchOk(n, dev, writes, done, f) && f.since == done
    requires (forall i: nat :: i < n ==> i in f.got) && Gained(l, l', f.chunk, f.buf)
    ensures CachedOk(n, dev, writes, l')
  {
    forall p | p in l' ensures PairOk(n, dev, writes, p) {
      assert p == Pair(f.chunk, f.buf) || p in l;
    }
  }

  /** A byte out of the cache is the byte below, unless a write under way covers it. */
  lemma HitIsBelow(n: nat, dev: seq<byte>, writes: map<nat, Write>, l: seq<Pair<seq<byte>>>, addr: nat, buf: seq<byte>, i: nat)
    requires n > 0 && CachedOk(n, dev, writes, l) && Hit(n, l, addr, buf, i) && addr + i < |dev|
    ensures i < |buf| && (buf[i] == dev[addr + i] || Covered(writes, addr + i))
  {
    var p :| p in l && p.key == ChunkOf(n, addr + i) && i < |buf| && Inside(n, addr + i) < |p.data|
             && buf[i] == p.data[Inside(n, addr + i)];
    assert PairOk(n, dev, writes, p);
  }

  // ---------- The handler ----------

  class Rwi {
    const side: ReadSide
    var writes: map<nat, Write>
    var failed: set<nat>            // client writes that heard of an error

    ghost predicate Valid()
      reads this, side, side.cache
    {
      side.Valid() && WritesOk(writes, |side.dev|)
    }

    ghost predicate Coherent()
      requires side.n > 0
      reads this, side, side.cache
    {
      && CachedOk(side.n, side.dev, writes, side.cache.Contents())
      && FetchedOk(side.n, side.dev, writes, side.done, side.fetches)
    }

    constructor (chunk: nat, lenMax: nat, dev: seq<byte>)
      requires chunk > 0 && lenMax > 0
      ensures Valid() && Coherent() && writes == map[] && failed == {} && side.dev == dev && fresh(side) && fresh(side.cache)
      ensures side.n == chunk && side.cache.max == lenMax && side.fetches == map[] && side.clients == map[]
    {
      side := new ReadSide(chunk, lenMax, dev);
      writes, failed := map[], {};
    }

    /** A client read: each byte that came out of the cache is the byte below, unless a write
        that is not over covers it. */
    method SubmitRead(rid: nat, addr: nat, len: nat)
      requires Valid() && Coherent() && rid !in side.clients && len > 0 && addr + len <= |side.dev|
      modifies side`fetches, side`clients, side`tickets, side.cache
      ensures Valid() && Coherent() && Joined(old(side.clients), side.clients, rid, addr, len)
      ensures Asked(old(side.fetches), side.fetches, side.done)
      ensures UsedByRead(side.n, old(side.cache.Contents()), side.cache.Contents(), addr, len)
      ensures forall i :: 0 <= i < len ==>
        Awaited(side.fetches, rid, i) || side.clients[rid].buf[i] == side.dev[addr + i] || Covered(writes, addr + i)
    {
      ghost var l, fetches0 := side.cache.Contents(), side.fetches;
      side.SubmitRead(rid, addr, len);
      AskedKeeps(side.n, side.dev, writes, side.done, fetches0, side.fetches);
      forall i | 0 <= i < len && !Awaited(side.fetches, rid, i)
        ensures side.clients[rid].buf[i] == side.dev[addr + i] || Covered(writes, addr + i)
      {
        HitIsBelow(side.n, side.dev, writes, l, addr, side.clients[rid].buf, i);
      }
    }

    method Sample(id: nat, a: nat)
      requires Valid() && Coherent() && id in side.fetches && a < |side.dev| && ChunkOf(side.n, a) == side.fetches[id].chunk
      modifies side`fetches
      ensures Valid() && Coherent() && id in old(side.fetches) && Inside(side.n, a) < |old(side.fetches)[id].buf|
      ensures side.fetches == old(side.fetches)[id := old(side.fetches)[id].(
        buf := old(side.fetches)[id].buf[Inside(side.n, a) := side.dev[a]], got := old(side.fetches)[id].got + {Inside(side.n, a)})]
    {
      SampleKeeps(side.n, side.dev, writes, side.done, side.fetches[id], a);
      side.Sample(id, a);
    }

    /** A miss is over; if it went well, every byte of the chunk was read. */
    method FetchDone(id: nat, ok: bool) returns (over: bool)
      requires Valid() && Coherent() && id in side.fetches
      requires ok ==> forall i: nat :: i < side.n ==> i in side.fetches[id].got
      modifies side`fetches, side`clients, side.cache
      ensures Valid() && Coherent() && id in old(side.fetches) && old(side.fetches)[id].rid in old(side.clients)
      ensures side.fetches == old(side.fetches) - {id}
      ensures if ok && old(side.fetches)[id].since == side.done
              then CameFirst(old(side.cache.Contents()), side.cache.Contents(), old(side.fetches)[id].chunk, old(side.fetches)[id].buf)
              else side.cache.Contents() == old(side.cache.Contents())
      ensures var f := old(side.fetches)[id];
        && f.at + f.len <= |old(side.clients)[f.rid].buf| && f.off + f.len <= |f.buf|
        && side.clients == old(side.clients)[f.rid := Delivered(old(side.clients)[f.rid], id, f, ok)]
        && (over <==> side.clients[f.rid].todo == {})
        && (side.clients[f.rid].err <==> old(side.clients)[f.rid].err || !ok)
    {
      ghost var l, f := side.cache.Contents(), side.fetches[id];
      over := side.FetchDone(id, ok);
      if ok && f.since == side.done {
        FillKeeps(side.n, side.dev, writes, side.done, l, side.cache.Contents(), f);
      }
    }

    /** A client write goes below. */
    method SubmitWrite(wid: nat, addr: nat, buf: seq<byte>)
      requires Valid() && Coherent() && wid !in writes && buf != [] && addr + |buf| <= |side.dev|
      modifies this`writes
      ensures Valid() && Coherent() && writes == old(writes)[wid := Write(addr, buf)]
    {
      MoreWrites(side.n, side.dev, writes, side.done, side.cache.Contents(), side.fetches, wid, Write(addr, buf));
      writes := writes[wid := Write(addr, buf)];
    }

    /** What the layer below may do with a write under way: anything to the bytes it covers. */
    method Tear(wid: nat, a: nat, v: byte)
      requires Valid() && Coherent() && wid in writes && Covers(writes[wid], a) && a < |side.dev|
      modifies side`dev
      ensures Valid() && Coherent() && side.dev == old(side.dev)[a := v]
    {
      assert Covered(writes, a);
      ChangeKeeps(side.n, side.dev, side.dev[a := v], writes, side.done, side.cache.Contents(), side.fetches);
      side.dev := side.dev[a := v];
    }

    /** The completer of a client write.  What the write left below is the layer's own business:
        another write of the same bytes may have been served after it. */
    method WriteDone(wid: nat, ok: bool)
      requires Valid() && Coherent() && wid in writes
      modifies this, side`done, side.cache
      ensures Valid() && Coherent() && wid in old(writes) && writes == old(writes) - {wid}
      ensures failed == if ok then old(failed) else old(failed) + {wid}
      ensures side.done == old(side.done) + 1
      ensures side.cache.Contents() == Outside(old(side.cache.Contents()), old(writes)[wid].addr / side.n,
                                               DivRoundUp(old(writes)[wid].addr + |old(writes)[wid].buf|, side.n))
    {
      Forget(wid);
      if !ok {
        failed := failed + {wid};
      }
    }

    /** The chunks a write touches go, and the write is counted. */
    method Forget(wid: nat)
      requires Valid() && Coherent() && wid in writes
      modifies this`writes, side`done, side.cache
      ensures Valid() && Coherent() && wid in old(writes) && writes == old(writes) - {wid}
      ensures side.done == old(side.done) + 1
      ensures side.cache.Contents() == Outside(old(side.cache.Contents()), old(writes)[wid].addr / side.n,
                                               DivRoundUp(old(writes)[wid].addr + |old(writes)[wid].buf|, side.n))
    {
      var w := writes[wid];
      ghost var l := side.cache.Contents();
      var first, last := w.addr / side.n, DivRoundUp(w.addr + |w.buf|, side.n);
      TouchedChunks(side.n, w, w.addr);
      WriteOver(side.n, side.dev, writes, side.done, l, Outside(l, first, last), side.fetches, wid);
      side.cache.InvalidateRange(first, last);
      side.done := side.done + 1;
      writes := writes - {wid};
      WholeOutside(side.n, l, first, last);
    }
  }

  /** With no write outstanding the cache holds nothing but what is below. */
  lemma QuietCacheIsBelow(h: Rwi, p: Pair<seq<byte>>, a: nat)
    requires h.Valid() && h.Coherent() && h.writes == map[]
    requires p in h.side.cache.Contents() && a < |h.side.dev| && ChunkOf(h.side.n, a) == p.key
    ensures |p.data| == h.side.n && p.data[Inside(h.side.n, a)] == h.side.dev[a]
  {
    assert PairOk(h.side.n, h.side.dev, h.writes, p);
    assert !Covered(h.writes, a);
  }

  lemma WholeOutside(n: nat, l: seq<Pair<seq<byte>>>, lo: nat, hi: nat)
    requires WholeChunks(n, l)
    ensures WholeChunks(n, Outside(l, lo, hi))
  {
    forall p | p in Outside(l, lo, hi) ensures |p.data| == n {
      OutsideMember(l, lo, hi, p);
    }
  }

  lemma AskedKeeps(n: nat, dev: seq<byte>, writes: map<nat, Write>, done: nat, fetches: map<nat, Fetch>, fetches': map<nat, Fetch>)
    requires n > 0 && FetchedOk(n, dev, writes, done, fetches) && Asked(fetches, fetches', done)
    requires forall id :: id in fetches' ==> |fetches'[id].buf| == n
    ensures FetchedOk(n, dev, writes, done, fetches')
  {
  }
}
