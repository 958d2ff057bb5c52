/** The read side that both cache handlers share (ublk/cache/rwi_handler.cpp): hits are copied
    out of the cache, a miss fetches its whole chunk and fills the cache, unless a write was
    over in between. */
module CacheReads {
  import opened Arithmetic
  import opened Bytes
  import opened Options
  import opened FlatLru

  /** A chunk on its way from the layer below, for `len` bytes from `at` on of the buffer of
      client read `rid`; `since` is the number of writes over when it was asked for, `got` says
      which of its bytes were read so far. */
  datatype Fetch = Fetch(rid: nat, chunk: nat, since: nat, at: nat, off: nat, len: nat, buf: seq<byte>, got: set<nat>)

  /** A client read, and the fetches it waits for. */
  datatype Client = Client(addr: nat, buf: seq<byte>, todo: set<nat>, err: bool)

  function ChunkOf(n: nat, a: nat): nat requires n > 0 { Quot(a, n) }
  function Inside(n: nat, a: nat): nat requires n > 0 { Wrap(a, n) }

  /** A fetch belongs to its client's read: its bytes go where they were asked for. */
  ghost predicate FetchOk(n: nat, f: Fetch, id: nat, clients: map<nat, Client>)
    requires n > 0
  {
    && |f.buf| == n && f.off + f.len <= n && f.len > 0
    && f.rid in clients && id in clients[f.rid].todo && f.at + f.len <= |clients[f.rid].buf|
    && ChunkOf(n, clients[f.rid].addr + f.at) == f.chunk && Inside(n, clients[f.rid].addr + f.at) == f.off
  }

  ghost predicate FetchesOk(n: nat, fetches: map<nat, Fetch>, clients: map<nat, Client>, tickets: nat)
    requires n > 0
  {
    && (forall id :: id in fetches ==> id < tickets && FetchOk(n, fetches[id], id, clients))
    && (forall rid, id :: rid in clients && id in clients[rid].todo ==> id in fetches && fetches[id].rid == rid)
  }

  ghost predicate WholeChunks(n: nat, l: seq<Pair<seq<byte>>>) {
    forall p :: p in l ==> |p.data| == n
  }

  /** Byte `i` of a client's buffer came out of one of the cached chunks `l`. */
  ghost predicate Hit(n: nat, l: seq<Pair<seq<byte>>>, addr: nat, buf: seq<byte>, i: nat)
    requires n > 0
  {
    exists p :: p in l && p.key == ChunkOf(n, addr + i) && i < |buf| && Inside(n, addr + i) < |p.data|
                && buf[i] == p.data[Inside(n, addr + i)]
  }

  /** Byte `i` of a client's buffer will come with fetch `id`. */
  predicate Coming(fetches: map<nat, Fetch>, rid: nat, id: nat, i: nat) {
    id in fetches && fetches[id].rid == rid && fetches[id].at <= i < fetches[id].at + fetches[id].len
  }

  ghost predicate Awaited(fetches: map<nat, Fetch>, rid: nat, i: nat) {
    exists id :: Coming(fetches, rid, id, i)
  }

  /** The first `done` bytes of a read are cached ones, or on their way. */
  ghost predicate ServedTo(n: nat, l: seq<Pair<seq<byte>>>, fetches: map<nat, Fetch>, rid: nat, addr: nat, buf: seq<byte>, done: nat)
    requires n > 0
  {
    forall i :: 0 <= i < done ==> Hit(n, l, addr, buf, i) || Awaited(fetches, rid, i)
  }

  /** New fetches start empty, with the current count of writes; old ones stay. */
  ghost predicate Asked(old_: map<nat, Fetch>, new_: map<nat, Fetch>, done: nat) {
    && (forall id :: id in old_ ==> id in new_ && new_[id] == old_[id])
    && (forall id :: id in new_ && id !in old_ ==> new_[id].since == done && new_[id].got == {})
  }

  /** New fetches are of chunks that were not cached. */
  ghost predicate Missed(l: seq<Pair<seq<byte>>>, old_: map<nat, Fetch>, new_: map<nat, Fetch>) {
    forall id :: id in new_ && id !in old_ ==> !Has(l, new_[id].chunk)
  }

  /** There is at most one new fetch, and it is of the chunk. */
  ghost predicate AtMostOne(old_: map<nat, Fetch>, new_: map<nat, Fetch>, chunk: nat) {
    && (forall id :: id in new_ && id !in old_ ==> new_[id].chunk == chunk)
    && (forall id, id' {:trigger new_[id].chunk, new_[id'].chunk} :: id in new_ && id !in old_ && id' in new_ && id' !in old_ ==> id == id')
  }

  /** New fetches are of chunks before `chunk`, one for each at most. */
  ghost predicate OncePerChunk(old_: map<nat, Fetch>, new_: map<nat, Fetch>, chunk: nat) {
    && (forall id :: id in new_ && id !in old_ ==> new_[id].chunk < chunk)
    && NoTwice(old_, new_)
  }

  /** No chunk is fetched twice by the new fetches. */
  ghost predicate NoTwice(old_: map<nat, Fetch>, new_: map<nat, Fetch>) {
    forall id, id' {:trigger new_[id].chunk, new_[id'].chunk} :: id in new_ && id !in old_ && id' in new_ && id' !in old_ && id != id' ==>
      new_[id].chunk != new_[id'].chunk
  }

  lemma AskedMore(all: seq<Pair<seq<byte>>>, old_: map<nat, Fetch>, mid: map<nat, Fetch>, new_: map<nat, Fetch>, done: nat, chunk: nat)
    requires Asked(old_, mid, done) && Missed(all, old_, mid) && OncePerChunk(old_, mid, chunk)
    requires Asked(mid, new_, done) && Missed(all, mid, new_) && AtMostOne(mid, new_, chunk)
    ensures Asked(old_, new_, done) && Missed(all, old_, new_) && OncePerChunk(old_, new_, chunk + 1)
  {
  }

  /** A hit: its part of the chunk is copied. */
  lemma HitServes(n: nat, l: seq<Pair<seq<byte>>>, fetches: map<nat, Fetch>, rid: nat, addr: nat, buf: seq<byte>, rb: nat, len: nat,
                  p: Pair<seq<byte>>)
    requires n > 0 && rb + len <= |buf| && Inside(n, addr + rb) + len <= n && p in l && |p.data| == n && p.key == ChunkOf(n, addr + rb)
    requires ServedTo(n, l, fetches, rid, addr, buf, rb)
    ensures ServedTo(n, l, fetches, rid, addr, Overlay(buf, rb, p.data[Inside(n, addr + rb)..Inside(n, addr + rb) + len]), rb + len)
  {
    var off := Inside(n, addr + rb);
    var buf' := Overlay(buf, rb, p.data[off..off + len]);
    forall i | 0 <= i < rb + len ensures Hit(n, l, addr, buf', i) || Awaited(fetches, rid, i) {
      if i < rb {
        if Hit(n, l, addr, buf, i) {
          var q :| q in l && q.key == ChunkOf(n, addr + i) && Inside(n, addr + i) < |q.data| && buf[i] == q.data[Inside(n, addr + i)];
          assert buf'[i] == q.data[Inside(n, addr + i)];
        }
      } else {
        SameQuot(addr + rb, i - rb, n);
        assert addr + rb + (i - rb) == addr + i;
        assert buf'[i] == p.data[Inside(n, addr + i)];
      }
    }
  }

  /** A miss: its part is on the way. */
  lemma MissServes(n: nat, l: seq<Pair<seq<byte>>>, fetches: map<nat, Fetch>, rid: nat, addr: nat, buf: seq<byte>, rb: nat, id: nat, f: Fetch)
    requires n > 0 && ServedTo(n, l, fetches, rid, addr, buf, rb) && id !in fetches && f.rid == rid && f.at == rb
    ensures ServedTo(n, l, fetches[id := f], rid, addr, buf, rb + f.len)
  {
    var fetches' := fetches[id := f];
    forall i | 0 <= i < rb + f.len ensures Hit(n, l, addr, buf, i) || Awaited(fetches', rid, i) {
      if i < rb {
        if Awaited(fetches, rid, i) {
          var j :| Coming(fetches, rid, j, i);
          assert Coming(fetches', rid, j, i);
        }
      } else {
        assert Coming(fetches', rid, id, i);
      }
    }
  }

  /** Fetches of other clients do not mind a new or changed client. */
  lemma FetchAdded(n: nat, fetches: map<nat, Fetch>, clients: map<nat, Client>, tickets: nat, rid: nat, f: Fetch)
    requires n > 0 && FetchesOk(n, fetches, clients, tickets) && rid in clients && f.rid == rid
    requires FetchOk(n, f, tickets, clients[rid := clients[rid].(todo := clients[rid].todo + {tickets})])
    ensures FetchesOk(n, fetches[tickets := f], clients[rid := clients[rid].(todo := clients[rid].todo + {tickets})], tickets + 1)
  {
    var fetches', clients' := fetches[tickets := f], clients[rid := clients[rid].(todo := clients[rid].todo + {tickets})];
    forall r, id | r in clients' && id in clients'[r].todo ensures id in fetches' && fetches'[id].rid == r {
      if r != rid || id != tickets {
        assert r in clients && id in clients[r].todo;
        assert id in fetches && fetches[id].rid == r && id < tickets;
      }
    }
  }

  lemma FetchRemoved(n: nat, fetches: map<nat, Fetch>, clients: map<nat, Client>, tickets: nat, id: nat, c: Client)
    requires n > 0 && FetchesOk(n, fetches, clients, tickets) && id in fetches
    requires var was := clients[fetches[id].rid]; c.addr == was.addr && |c.buf| == |was.buf| && c.todo == was.todo - {id}
    ensures FetchesOk(n, fetches - {id}, clients[fetches[id].rid := c], tickets)
  {
  }

  lemma ClientChanged(n: nat, fetches: map<nat, Fetch>, clients: map<nat, Client>, tickets: nat, rid: nat, c: Client)
    requires n > 0 && FetchesOk(n, fetches, clients, tickets)
    requires if rid in clients then c.addr == clients[rid].addr && |c.buf| == |clients[rid].buf| && c.todo == clients[rid].todo else c.todo == {}
    ensures FetchesOk(n, fetches, clients[rid := c], tickets)
  {
  }

  /** Only the buffer and the fetches of client `rid` may differ. */
  ghost predicate ClientsKept(old_: map<nat, Client>, new_: map<nat, Client>, rid: nat) {
    && new_.Keys == old_.Keys && (forall r :: r in new_ && r != rid ==> new_[r] == old_[r])
    && (rid in new_ ==> new_[rid].addr == old_[rid].addr && |new_[rid].buf| == |old_[rid].buf| && new_[rid].err == old_[rid].err)
  }

  /** Client `rid` asked for `len` bytes at `addr`; the other clients stay. */
  ghost predicate Joined(old_: map<nat, Client>, new_: map<nat, Client>, rid: nat, addr: nat, len: nat) {
    && new_.Keys == old_.Keys + {rid} && (forall r :: r in old_ && r != rid ==> new_[r] == old_[r])
    && new_[rid].addr == addr && |new_[rid].buf| == len && !new_[rid].err
  }

  /** A client once a fetch of its arrived, or failed to. */
  function Delivered(c: Client, id: nat, f: Fetch, ok: bool): Client
    requires f.at + f.len <= |c.buf| && f.off + f.len <= |f.buf|
  {
    Client(c.addr, if ok then Overlay(c.buf, f.at, f.buf[f.off..f.off + f.len]) else c.buf, c.todo - {id}, c.err || !ok)
  }

  /** The chunks of the first `rb` bytes of a read end before `chunk`. */
  ghost predicate EndsAt(n: nat, addr: nat, rb: nat, first: nat, chunk: nat)
    requires n > 0
  {
    chunk == if rb == 0 then first else Quot(addr + rb - 1, n) + 1
  }

  lemma EndsNext(n: nat, addr: nat, len: nat, rb: nat, size: nat, first: nat, chunk: nat, off: nat)
    requires n > 0 && first == Quot(addr, n) && Cursor(n, addr, len, rb, chunk, off) && rb < len && 0 < size <= n - off
    ensures first <= chunk && EndsAt(n, addr, rb + size, first, chunk + 1)
  {
    SameQuot(addr + rb, size - 1, n);
    QuotMonotone(addr, addr + rb, n);
  }

  lemma UsedMore(all: seq<Pair<seq<byte>>>, l: seq<Pair<seq<byte>>>, first: nat, chunk: nat)
    requires l == UsedRange(all, first, chunk) && first <= chunk
    ensures Used(l, chunk) == UsedRange(all, first, chunk + 1)
  {
  }

  /** The first `rb` bytes of a read are copied, or asked for, the chunks from `first` up to `chunk`
      were used, and nothing else has changed. */
  ghost predicate Got(n: nat, done: nat, all: seq<Pair<seq<byte>>>, l: seq<Pair<seq<byte>>>, fetches0: map<nat, Fetch>, fetches: map<nat, Fetch>,
                      clients0: map<nat, Client>, clients: map<nat, Client>, rid: nat, addr: nat, len: nat, rb: nat, first: nat, chunk: nat)
    requires n > 0
  {
    && Joined(clients0, clients, rid, addr, len)
    && l == UsedRange(all, first, chunk) && EndsAt(n, addr, rb, first, chunk)
    && ServedTo(n, all, fetches, rid, addr, clients[rid].buf, rb)
    && Asked(fetches0, fetches, done) && Missed(all, fetches0, fetches) && OncePerChunk(fetches0, fetches, chunk)
  }

  lemma GotMore(n: nat, done: nat, all: seq<Pair<seq<byte>>>, l: seq<Pair<seq<byte>>>, fetches0: map<nat, Fetch>, fetches: map<nat, Fetch>,
                fetches': map<nat, Fetch>, clients0: map<nat, Client>, clients: map<nat, Client>, clients': map<nat, Client>,
                rid: nat, addr: nat, len: nat, rb: nat, rb': nat, first: nat, chunk: nat)
    requires n > 0 && Got(n, done, all, l, fetches0, fetches, clients0, clients, rid, addr, len, rb, first, chunk) && rid !in clients0
    requires first <= chunk && EndsAt(n, addr, rb', first, chunk + 1)
    requires Asked(fetches, fetches', done) && Missed(all, fetches, fetches') && AtMostOne(fetches, fetches', chunk)
    requires ClientsKept(clients, clients', rid) && ServedTo(n, all, fetches', rid, addr, clients'[rid].buf, rb')
    ensures Got(n, done, all, Used(l, chunk), fetches0, fetches', clients0, clients', rid, addr, len, rb', first, chunk + 1)
  {
    UsedMore(all, l, first, chunk);
    AskedMore(all, fetches0, fetches, fetches', done, chunk);
  }

  /** A read uses the chunks it touches, in order. */
  ghost predicate UsedByRead(n: nat, l: seq<Pair<seq<byte>>>, l': seq<Pair<seq<byte>>>, addr: nat, len: nat)
    requires n > 0 && len > 0
  {
    l' == UsedRange(l, Quot(addr, n), Quot(addr + len - 1, n) + 1)
  }

  class ReadSide {
    const n: nat                       // item_sz
    const cache: Lru<seq<byte>>        // cache_
    var dev: seq<byte>                 // what the layer below holds
    var done: nat                      // last_wq_done_seq_
    var fetches: map<nat, Fetch>       // the completers of misses
    var clients: map<nat, Client>
    var tickets: nat

    ghost predicate Valid()
      reads this`fetches, this`clients, this`tickets, cache
    {
      && n > 0 && cache.Valid() && WholeChunks(n, cache.Contents())
      && FetchesOk(n, fetches, clients, tickets)
    }

    constructor (chunk: nat, lenMax: nat, dev: seq<byte>)
      requires chunk > 0 && lenMax > 0
      ensures Valid() && n == chunk && this.dev == dev && done == 0 && fetches == map[] && clients == map[] && cache.max == lenMax
      ensures cache.Contents() == [] && fresh(cache)
    {
      n, this.dev, done, fetches, clients, tickets := chunk, dev, 0, map[], map[], 0;
      cache := new Lru<seq<byte>>(lenMax);
    }

    /** A hit is copied to the client's buffer. */
    method CopyOut(rid: nat, rb: nat, data: seq<byte>, off: nat, len: nat, ghost all: seq<Pair<seq<byte>>>)
      requires Valid() && rid in clients && rb + len <= |clients[rid].buf| && off + len <= n == |data|
      requires off == Inside(n, clients[rid].addr + rb) && Pair(ChunkOf(n, clients[rid].addr + rb), data) in all
      requires ServedTo(n, all, fetches, rid, clients[rid].addr, clients[rid].buf, rb)
      modifies this`clients
      ensures Valid() && ClientsKept(old(clients), clients, rid)
      ensures ServedTo(n, all, fetches, rid, clients[rid].addr, clients[rid].buf, rb + len)
    {
      HitServes(n, all, fetches, rid, clients[rid].addr, clients[rid].buf, rb, len, Pair(ChunkOf(n, clients[rid].addr + rb), data));
      var c := clients[rid].(buf := Overlay(clients[rid].buf, rb, data[off..off + len]));
      ClientChanged(n, fetches, clients, tickets, rid, c);
      clients := clients[rid := c];
    }

    /** A miss is asked for. */
    method Ask(rid: nat, rb: nat, chunk: nat, off: nat, len: nat, ghost all: seq<Pair<seq<byte>>>)
      requires Valid() && rid in clients && rb + len <= |clients[rid].buf| && len > 0 && off + len <= n
      requires chunk == ChunkOf(n, clients[rid].addr + rb) && off == Inside(n, clients[rid].addr + rb)
      requires ServedTo(n, all, fetches, rid, clients[rid].addr, clients[rid].buf, rb)
      modifies this`fetches, this`clients, this`tickets
      ensures Valid() && ClientsKept(old(clients), clients, rid) && Asked(old(fetches), fetches, done)
      ensures AtMostOne(old(fetches), fetches, chunk)
      ensures ServedTo(n, all, fetches, rid, clients[rid].addr, clients[rid].buf, rb + len)
    {
      var f := Fetch(rid, chunk, done, rb, off, len, Zeros(n), {});
      MissServes(n, all, fetches, rid, clients[rid].addr, clients[rid].buf, rb, tickets, f);
      FetchAdded(n, fetches, clients, tickets, rid, f);
      clients := clients[rid := clients[rid].(todo := clients[rid].todo + {tickets})];
      fetches := fetches[tickets := f];
      tickets := tickets + 1;
    }

    method FindChunk(chunk: nat) returns (cached: Option<seq<byte>>)
      requires Valid()
      modifies cache
      ensures Valid() && Kept(old(cache.Contents()), cache.Contents())
      ensures cached.Some? ==> Pair(chunk, cached.value) in old(cache.Contents()) && |cached.value| == n
      ensures cached.Some? ==> Has(cache.Contents(), chunk) && Pair(chunk, cached.value) in cache.Contents()
      ensures cached == Lookup(old(cache.Contents()), chunk) && SameKeys(old(cache.Contents()), cache.Contents())
      ensures cache.Contents() == Used(old(cache.Contents()), chunk)
    {
      LookupIsMember(cache.Contents(), chunk);
      UsedIsKept(cache.Contents(), chunk);
      UsedSameKeys(cache.Contents(), chunk);
      cached := cache.Find(chunk);
      assert cached.Some? ==> cache.Contents()[0] == Pair(chunk, cached.value);
    }

    /** One chunk of a client read: copied on a hit, asked for on a miss. */
    method ReadChunk(rid: nat, rb: nat, chunk: nat, off: nat, len: nat, ghost all: seq<Pair<seq<byte>>>)
      requires Valid() && rid in clients && rb + len <= |clients[rid].buf| && len > 0 && off + len <= n
      requires chunk == ChunkOf(n, clients[rid].addr + rb) && off == Inside(n, clients[rid].addr + rb)
      requires Kept(all, cache.Contents()) && SameKeys(all, cache.Contents())
      requires ServedTo(n, all, fetches, rid, clients[rid].addr, clients[rid].buf, rb)
      modifies this`fetches, this`clients, this`tickets, cache
      ensures Valid() && Kept(old(cache.Contents()), cache.Contents()) && SameKeys(old(cache.Contents()), cache.Contents())
      ensures cache.Contents() == Used(old(cache.Contents()), chunk)
      ensures Asked(old(fetches), fetches, done) && Missed(all, old(fetches), fetches) && AtMostOne(old(fetches), fetches, chunk)
      ensures ClientsKept(old(clients), clients, rid)
      ensures ServedTo(n, all, fetches, rid, clients[rid].addr, clients[rid].buf, rb + len)
    {
      var cached := FindChunk(chunk);
      if cached.Some? {
        CopyOut(rid, rb, cached.value, off, len, all);
      } else {
        Ask(rid, rb, chunk, off, len, all);
      }
    }

    /** `submit` of a client read: chunk by chunk.  What was cached is copied, each byte from
        its place; what was not is on its way, each byte to its place. */
    method SubmitRead(rid: nat, addr: nat, len: nat)
      requires Valid() && rid !in clients && len > 0
      modifies this`fetches, this`clients, this`tickets, cache
      ensures Valid() && Kept(old(cache.Contents()), cache.Contents()) && Asked(old(fetches), fetches, done)
      ensures Missed(old(cache.Contents()), old(fetches), fetches)
      ensures NoTwice(old(fetches), fetches)
      ensures UsedByRead(n, old(cache.Contents()), cache.Contents(), addr, len)
      ensures Joined(old(clients), clients, rid, addr, len)
      ensures ServedTo(n, old(cache.Contents()), fetches, rid, addr, clients[rid].buf, len)
    {
      ghost var all, clients0, fetches0 := cache.Contents(), clients, fetches;
      Join(rid, addr, len);
      ghost var chunk := ReadChunks(rid, addr, len, all, fetches0, clients0, Quot(addr, n));
      RangeKept(all, Quot(addr, n), chunk);
    }

    /** The loop over the chunks of a read. */
    method ReadChunks(rid: nat, addr: nat, len: nat,
                      ghost all: seq<Pair<seq<byte>>>, ghost fetches0: map<nat, Fetch>, ghost clients0: map<nat, Client>, ghost first: nat)
      returns (chunk: nat)
      requires Valid() && rid !in clients0 && len > 0 && first == Quot(addr, n)
      requires GotTo(all, fetches0, clients0, rid, addr, len, 0, first, first)
      modifies this`fetches, this`clients, this`tickets, cache
      ensures Valid() && GotTo(all, fetches0, clients0, rid, addr, len, len, first, chunk)
    {
      var off: nat;
      chunk, off := ChunkAt(addr);
      var rb: nat := 0;
      while rb < len
        invariant Valid() && rb <= len && Cursor(n, addr, len, rb, chunk, off)
        invariant GotTo(all, fetches0, clients0, rid, addr, len, rb, first, chunk)
      {
        rb := ReadNext(rid, addr, len, rb, chunk, off, all, fetches0, clients0, first);
        chunk, off := chunk + 1, 0;
      }
    }

    /** A client read is new: it has nothing yet, and waits for nothing. */
    method Join(rid: nat, addr: nat, len: nat)
      requires Valid() && rid !in clients && len > 0
      modifies this`clients
      ensures Valid() && clients == old(clients)[rid := Client(addr, Zeros(len), {}, false)]
      ensures GotTo(cache.Contents(), fetches, old(clients), rid, addr, len, 0, Quot(addr, n), Quot(addr, n))
    {
      ClientChanged(n, fetches, clients, tickets, rid, Client(addr, Zeros(len), {}, false));
      clients := clients[rid := Client(addr, Zeros(len), {}, false)];
    }

    method ChunkAt(addr: nat) returns (chunk: nat, off: nat)
      requires n > 0
      ensures chunk == Quot(addr, n) && off == Wrap(addr, n)
    {
      QuotIsDiv(addr, n);
      chunk, off := addr / n, addr % n;
    }

    ghost predicate GotTo(all: seq<Pair<seq<byte>>>, fetches0: map<nat, Fetch>, clients0: map<nat, Client>,
                          rid: nat, addr: nat, len: nat, rb: nat, first: nat, chunk: nat)
      requires n > 0 && cache.Valid()
      reads this`done, this`fetches, this`clients, cache
    {
      Got(n, done, all, cache.Contents(), fetches0, fetches, clients0, clients, rid, addr, len, rb, first, chunk)
    }

    /** The part of a read in chunk `chunk`, from byte `off` of it on. */
    method ReadNext(rid: nat, addr: nat, len: nat, rb: nat, chunk: nat, off: nat,
                    ghost all: seq<Pair<seq<byte>>>, ghost fetches0: map<nat, Fetch>, ghost clients0: map<nat, Client>, ghost first: nat)
      returns (rb': nat)
      requires Valid() && Cursor(n, addr, len, rb, chunk, off) && rb < len
      requires rid !in clients0 && first == Quot(addr, n) && GotTo(all, fetches0, clients0, rid, addr, len, rb, first, chunk)
      modifies this`fetches, this`clients, this`tickets, cache
      ensures Valid() && rb < rb' <= len && Cursor(n, addr, len, rb', chunk + 1, 0)
      ensures GotTo(all, fetches0, clients0, rid, addr, len, rb', first, chunk + 1)
    {
      var size := if n - off < len - rb then n - off else len - rb;
      CursorMoves(n, addr, len, rb, chunk, off, size);
      EndsNext(n, addr, len, rb, size, first, chunk, off);
      ghost var l, fetches1, clients1 := cache.Contents(), fetches, clients;
      RangeKept(all, first, chunk);
      ReadChunk(rid, rb, chunk, off, size, all);
      rb' := rb + size;
      GotMore(n, done, all, l, fetches0, fetches1, fetches, clients0, clients1, clients, rid, addr, len, rb, rb', first, chunk);
    }

    /** A byte of a chunk is read below. */
    method Sample(id: nat, a: nat)
      requires Valid() && id in fetches && a < |dev| && ChunkOf(n, a) == fetches[id].chunk
      modifies this`fetches
      ensures Valid() && id in old(fetches) && Inside(n, a) < |old(fetches)[id].buf|
      ensures fetches == old(fetches)[id := old(fetches)[id].(buf := old(fetches)[id].buf[Inside(n, a) := dev[a]],
                                                             got := old(fetches)[id].got + {Inside(n, a)})]
    {
      var f := fetches[id];
      fetches := fetches[id := f.(buf := f.buf[Inside(n, a) := dev[a]], got := f.got + {Inside(n, a)})];
    }

    /** The completer of a miss: the client gets its part, and the chunk is cached unless a
        write was over since it was asked for. */
    method FetchDone(id: nat, ok: bool) returns (over: bool)
      requires Valid() && id in fetches
      modifies this`fetches, this`clients, cache
      ensures Valid() && id in old(fetches) && old(fetches)[id].rid in old(clients) && fetches == old(fetches) - {id}
      ensures var f := old(fetches)[id];
        && (if ok && f.since == done then Gained(old(cache.Contents()), cache.Contents(), f.chunk, f.buf)
                                         && CameFirst(old(cache.Contents()), cache.Contents(), f.chunk, f.buf)
            else cache.Contents() == old(cache.Contents()))
        && clients == old(clients)[f.rid := Delivered(old(clients)[f.rid], id, f, ok)]
        && (over <==> clients[f.rid].todo == {})
        && (clients[f.rid].err <==> old(clients)[f.rid].err || !ok)
    {
      var f := fetches[id];
      var c := Delivered(clients[f.rid], id, f, ok);
      FetchRemoved(n, fetches, clients, tickets, id, c);
      clients := clients[f.rid := c];
      fetches := fetches - {id};
      over := c.todo == {};
      if ok && f.since == done {
        ghost var was := cache.cache;
        var evicted := cache.Update(f.chunk, f.buf);
        UpdatesIsGained(was, cache.cache, cache.max, f.chunk, f.buf, evicted);
        UpdatesComesFirst(was, cache.cache, cache.max, f.chunk, f.buf, evicted);
      }
    }
  }
}
