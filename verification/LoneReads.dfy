/** What a client of a cache may count on (ublk/cache/rwi_handler.cpp): each byte it reads that no
    client write overlaps, from the read's submission to its completion, is what the layer below
    holds, whether it came out of the cache or with a miss.  Such bytes are called lone. */
module LoneReads {
  import opened Arithmetic
  import opened Bytes
  import opened FlatLru
  import opened CacheReads

  /** Address `a`, as client read `rid` gets to see it. */
  datatype Spot = Spot(rid: nat, a: nat)

  /** If fetch `f` brings the client the byte of address `a`, and has read it, it has what is
      below. */
  ghost predicate PartIsBelow(n: nat, dev: seq<byte>, f: Fetch, addr: nat, a: nat)
    requires n > 0
  {
    |f.buf| == n && (addr + f.at <= a < addr + f.at + f.len && a < |dev| && Inside(n, a) in f.got ==> f.buf[Inside(n, a)] == dev[a])
  }

  /** What the client has of address `a`, unless it is on its way, or the client heard of an error,
      is what is below. */
  ghost predicate BufferIsBelow(dev: seq<byte>, fetches: map<nat, Fetch>, rid: nat, c: Client, a: nat) {
    && c.addr <= a < c.addr + |c.buf| && a < |dev|
    && (!c.err ==> Awaited(fetches, rid, a - c.addr) || c.buf[a - c.addr] == dev[a])
  }

  ghost predicate ByteIsBelow(n: nat, dev: seq<byte>, fetches: map<nat, Fetch>, rid: nat, c: Client, a: nat)
    requires n > 0
  {
    BufferIsBelow(dev, fetches, rid, c, a) && forall id :: id in fetches && fetches[id].rid == rid ==> PartIsBelow(n, dev, fetches[id], c.addr, a)
  }

  ghost predicate LoneOk(n: nat, dev: seq<byte>, fetches: map<nat, Fetch>, clients: map<nat, Client>, lone: set<Spot>)
    requires n > 0
  {
    forall p :: p in lone ==> p.rid in clients && ByteIsBelow(n, dev, fetches, p.rid, clients[p.rid], p.a)
  }

  /** A lone byte of a read that waits for nothing any more, and heard of no error, is there. */
  lemma LoneByteIsThere(n: nat, dev: seq<byte>, fetches: map<nat, Fetch>, clients: map<nat, Client>, tickets: nat, lone: set<Spot>,
                        rid: nat, a: nat)
    requires n > 0 && FetchesOk(n, fetches, clients, tickets) && LoneOk(n, dev, fetches, clients, lone) && Spot(rid, a) in lone
    requires clients[rid].todo == {} && !clients[rid].err
    ensures var c := clients[rid]; c.addr <= a < c.addr + |c.buf| && a < |dev| && c.buf[a - c.addr] == dev[a]
  {
    assert ByteIsBelow(n, dev, fetches, rid, clients[rid], a);
    assert forall id :: id in fetches ==> FetchOk(n, fetches[id], id, clients);
    assert forall i :: !Awaited(fetches, rid, i);
  }

  /** The bytes of a client's fetch are all in the fetched chunk. */
  lemma InFetchedChunk(n: nat, f: Fetch, addr: nat, a: nat)
    requires n > 0 && f.off + f.len <= n && ChunkOf(n, addr + f.at) == f.chunk && Inside(n, addr + f.at) == f.off
    requires addr + f.at <= a < addr + f.at + f.len
    ensures ChunkOf(n, a) == f.chunk && Inside(n, a) == f.off + (a - addr - f.at)
  {
    SameQuot(addr + f.at, a - addr - f.at, n);
  }

  /** Two bytes of a chunk at one place are one byte. */
  lemma SamePlace(n: nat, a: nat, b: nat)
    requires n > 0 && ChunkOf(n, a) == ChunkOf(n, b) && Inside(n, a) == Inside(n, b)
    ensures a == b
  {
    QuotWrap(a, n);
    QuotWrap(b, n);
  }

  // ---------- What the layer below does ----------

  function Sampled(n: nat, dev: seq<byte>, f: Fetch, a: nat): Fetch
    requires n > 0 && |f.buf| == n && a < |dev|
  {
    f.(buf := f.buf[Inside(n, a) := dev[a]], got := f.got + {Inside(n, a)})
  }

  lemma PartSampled(n: nat, dev: seq<byte>, f: Fetch, addr: nat, a: nat, b: nat)
    requires n > 0 && PartIsBelow(n, dev, f, addr, b) && a < |dev| && ChunkOf(n, a) == f.chunk
    requires f.off + f.len <= n && ChunkOf(n, addr + f.at) == f.chunk && Inside(n, addr + f.at) == f.off
    ensures PartIsBelow(n, dev, Sampled(n, dev, f, a), addr, b)
  {
    if addr + f.at <= b < addr + f.at + f.len && Inside(n, b) == Inside(n, a) {
      InFetchedChunk(n, f, addr, b);
      SamePlace(n, a, b);
    }
  }

  /** The layer below reads a byte of a fetch. */
  lemma LoneSampled(n: nat, dev: seq<byte>, fetches: map<nat, Fetch>, clients: map<nat, Client>, tickets: nat, lone: set<Spot>, id: nat, a: nat)
    requires n > 0 && FetchesOk(n, fetches, clients, tickets) && LoneOk(n, dev, fetches, clients, lone)
    requires id in fetches && a < |dev| && ChunkOf(n, a) == fetches[id].chunk
    ensures FetchOk(n, fetches[id], id, clients)
    ensures LoneOk(n, dev, fetches[id := Sampled(n, dev, fetches[id], a)], clients, lone)
  {
    assert FetchOk(n, fetches[id], id, clients);
    var fetches' := fetches[id := Sampled(n, dev, fetches[id], a)];
    forall p | p in lone ensures ByteIsBelow(n, dev, fetches', p.rid, clients[p.rid], p.a) {
      var c := clients[p.rid];
      assert ByteIsBelow(n, dev, fetches, p.rid, c, p.a);
      StillAwaited(fetches, fetches', p.rid);
      if fetches[id].rid == p.rid {
        PartSampled(n, dev, fetches[id], c.addr, a, p.a);
      }
    }
  }

  /** A fetch is over; if it went well, it has read its whole chunk. */
  lemma LoneDelivered(n: nat, dev: seq<byte>, fetches: map<nat, Fetch>, clients: map<nat, Client>, tickets: nat, lone: set<Spot>, id: nat, ok: bool)
    requires n > 0 && FetchesOk(n, fetches, clients, tickets) && LoneOk(n, dev, fetches, clients, lone) && id in fetches
    requires ok ==> forall i: nat :: i < n ==> i in fetches[id].got
    ensures FetchOk(n, fetches[id], id, clients)
    ensures LoneOk(n, dev, fetches - {id}, clients[fetches[id].rid := Delivered(clients[fetches[id].rid], id, fetches[id], ok)], lone)
  {
    var f := fetches[id];
    assert FetchOk(n, f, id, clients);
    var fetches', clients' := fetches - {id}, clients[f.rid := Delivered(clients[f.rid], id, f, ok)];
    forall p | p in lone ensures ByteIsBelow(n, dev, fetches', p.rid, clients'[p.rid], p.a) {
      var c := clients[p.rid];
      assert ByteIsBelow(n, dev, fetches, p.rid, c, p.a);
      if !clients'[p.rid].err && !Awaited(fetches', p.rid, p.a - c.addr) {
        ByteDelivered(n, dev, fetches, clients, p, id, ok);
      }
    }
  }

  lemma ByteDelivered(n: nat, dev: seq<byte>, fetches: map<nat, Fetch>, clients: map<nat, Client>, p: Spot, id: nat, ok: bool)
    requires n > 0 && id in fetches && FetchOk(n, fetches[id], id, clients) && p.rid in clients
    requires ByteIsBelow(n, dev, fetches, p.rid, clients[p.rid], p.a) && !clients[p.rid].err && (fetches[id].rid == p.rid ==> ok)
    requires ok ==> forall i: nat :: i < n ==> i in fetches[id].got
    requires !Awaited(fetches - {id}, p.rid, p.a - clients[p.rid].addr)
    ensures var c := clients[p.rid];
      (if fetches[id].rid == p.rid then Delivered(c, id, fetches[id], ok) else c).buf[p.a - c.addr] == dev[p.a]
  {
    var f, c := fetches[id], clients[p.rid];
    var i := p.a - c.addr;
    if f.rid == p.rid && f.at <= i < f.at + f.len {
      InFetchedChunk(n, f, c.addr, p.a);
      assert PartIsBelow(n, dev, f, c.addr, p.a);
    } else {
      forall j ensures !Coming(fetches, p.rid, j, i) {
        assert !Coming(fetches - {id}, p.rid, j, i);
      }
    }
  }

  /** No lone byte changes below. */
  lemma LoneChanged(n: nat, dev: seq<byte>, dev': seq<byte>, fetches: map<nat, Fetch>, clients: map<nat, Client>, lone: set<Spot>)
    requires n > 0 && LoneOk(n, dev, fetches, clients, lone) && |dev'| == |dev|
    requires forall p :: p in lone && p.a < |dev| ==> dev'[p.a] == dev[p.a]
    ensures LoneOk(n, dev', fetches, clients, lone)
  {
    forall p | p in lone ensures ByteIsBelow(n, dev', fetches, p.rid, clients[p.rid], p.a) {
      assert ByteIsBelow(n, dev, fetches, p.rid, clients[p.rid], p.a);
      forall id | id in fetches && fetches[id].rid == p.rid ensures PartIsBelow(n, dev', fetches[id], clients[p.rid].addr, p.a) {
        assert PartIsBelow(n, dev, fetches[id], clients[p.rid].addr, p.a);
      }
    }
  }

  // ---------- What clients do ----------

  /** A read is submitted: of the bytes it has already, those that are to be lone are what is below. */
  lemma LoneSubmitted(n: nat, dev: seq<byte>, fetches: map<nat, Fetch>, fetches': map<nat, Fetch>, clients: map<nat, Client>, clients': map<nat, Client>,
                      tickets: nat, tickets': nat, done: nat, lone: set<Spot>, lone': set<Spot>, rid: nat, addr: nat, len: nat)
    requires n > 0 && FetchesOk(n, fetches, clients, tickets) && FetchesOk(n, fetches', clients', tickets')
    requires LoneOk(n, dev, fetches, clients, lone) && rid !in clients
    requires Joined(clients, clients', rid, addr, len) && Asked(fetches, fetches', done)
    requires forall p :: p in lone' ==> p in lone || (p.rid == rid && BufferIsBelow(dev, fetches', rid, clients'[rid], p.a))
    ensures LoneOk(n, dev, fetches', clients', lone')
  {
    forall p | p in lone' ensures p.rid in clients' && ByteIsBelow(n, dev, fetches', p.rid, clients'[p.rid], p.a) {
      if p in lone {
        assert p.rid != rid;
        forall id | id in fetches' && fetches'[id].rid == p.rid ensures id in fetches {
          assert FetchOk(n, fetches'[id], id, clients');
        }
        assert ByteIsBelow(n, dev, fetches, p.rid, clients[p.rid], p.a);
        StillAwaited(fetches, fetches', p.rid);
      } else {
        forall id | id in fetches' && fetches'[id].rid == rid ensures PartIsBelow(n, dev, fetches'[id], addr, p.a) {
          NewFetch(n, fetches, fetches', clients, clients', tickets, tickets', done, rid, id);
        }
      }
    }
  }

  /** The fetches of a new client have read nothing yet. */
  lemma NewFetch(n: nat, fetches: map<nat, Fetch>, fetches': map<nat, Fetch>, clients: map<nat, Client>, clients': map<nat, Client>,
                 tickets: nat, tickets': nat, done: nat, rid: nat, id: nat)
    requires n > 0 && FetchesOk(n, fetches, clients, tickets) && FetchesOk(n, fetches', clients', tickets') && Asked(fetches, fetches', done)
    requires rid !in clients && id in fetches' && fetches'[id].rid == rid
    ensures id !in fetches && fetches'[id].got == {} && |fetches'[id].buf| == n
  {
    assert FetchOk(n, fetches'[id], id, clients');
    assert id in fetches ==> FetchOk(n, fetches[id], id, clients);
  }

  lemma StillAwaited(fetches: map<nat, Fetch>, fetches': map<nat, Fetch>, rid: nat)
    requires forall id :: id in fetches && fetches[id].rid == rid ==>
      id in fetches' && fetches'[id].rid == rid && fetches'[id].at == fetches[id].at && fetches'[id].len == fetches[id].len
    ensures forall i :: Awaited(fetches, rid, i) ==> Awaited(fetches', rid, i)
  {
    forall i | Awaited(fetches, rid, i) ensures Awaited(fetches', rid, i) {
      var j :| Coming(fetches, rid, j, i);
      assert Coming(fetches', rid, j, i);
    }
  }

  // ---------- Histories ----------

  /** What happened, as clients see it: a read was submitted, when writes that are not over covered
      the addresses `busy` of its range; a write was; a fetch for a read was over. */
  datatype Deed =
    | ReadAsked(rid: nat, addr: nat, len: nat, busy: set<nat>)
    | WriteAsked(addr: nat, len: nat)
    | FetchOver(rid: nat, ok: bool)
    | NoDeed

  /** Deed `i` asked for the byte, and no write overlapped it then, or was submitted since. */
  ghost predicate AskedAlone(past: seq<Deed>, i: nat, rid: nat, a: nat) {
    && i < |past| && past[i].ReadAsked? && past[i].rid == rid
    && past[i].addr <= a < past[i].addr + past[i].len && a !in past[i].busy
    && forall k :: i < k < |past| && past[k].WriteAsked? ==> !(past[k].addr <= a < past[k].addr + past[k].len)
  }

  ghost predicate Alone(past: seq<Deed>, rid: nat, a: nat) {
    exists i: nat :: AskedAlone(past, i, rid, a)
  }

  /** A fetch for the read failed. */
  ghost predicate SomeFailed(past: seq<Deed>, rid: nat) {
    exists k :: 0 <= k < |past| && past[k] == FetchOver(rid, false)
  }

  /** The lone bytes after one deed more. */
  ghost function LoneAfter(lone: set<Spot>, deed: Deed): set<Spot> {
    match deed
    case ReadAsked(rid, addr, len, busy) => lone + set a | addr <= a < addr + len && a !in busy :: Spot(rid, a)
    case WriteAsked(addr, len) => set p | p in lone && !(addr <= p.a < addr + len)
    case _ => lone
  }

  /** What clients heard of errors: a read hears of one if a fetch of its failed, and only then. */
  ghost predicate ErrorsMove(clients: map<nat, Client>, clients': map<nat, Client>, deed: Deed) {
    && (forall rid :: rid in clients ==> rid in clients' && (clients'[rid].err <==> clients[rid].err || deed == FetchOver(rid, false)))
    && (forall rid :: rid in clients' && rid !in clients ==> !clients'[rid].err)
    && (deed.FetchOver? ==> deed.rid in clients)
  }

  /** Delivering a fetch is all there is to hear of it. */
  lemma DeliveredMoves(n: nat, fetches: map<nat, Fetch>, clients: map<nat, Client>, tickets: nat, id: nat, ok: bool)
    requires n > 0 && FetchesOk(n, fetches, clients, tickets) && id in fetches
    ensures FetchOk(n, fetches[id], id, clients)
    ensures var f := fetches[id];
      var clients' := clients[f.rid := Delivered(clients[f.rid], id, f, ok)];
      clients'.Keys == clients.Keys && ErrorsMove(clients, clients', FetchOver(f.rid, ok))
  {
    assert FetchOk(n, fetches[id], id, clients);
  }

  /** The lone bytes, and what clients heard of errors, are as the history says. */
  ghost predicate Told(past: seq<Deed>, lone: set<Spot>, clients: map<nat, Client>) {
    && (forall rid, a: nat :: Alone(past, rid, a) ==> Spot(rid, a) in lone)
    && (forall rid :: SomeFailed(past, rid) ==> rid in clients)
    && (forall rid :: rid in clients ==> (clients[rid].err <==> SomeFailed(past, rid)))
  }

  lemma NothingTold()
    ensures Told([], {}, map[])
  {
  }

  lemma FailedMore(past: seq<Deed>, deed: Deed, rid: nat)
    ensures SomeFailed(past + [deed], rid) <==> SomeFailed(past, rid) || deed == FetchOver(rid, false)
  {
    var past' := past + [deed];
    assert past'[|past|] == deed;
    if SomeFailed(past, rid) {
      var k :| 0 <= k < |past| && past[k] == FetchOver(rid, false);
      assert past'[k] == past[k];
    }
    if SomeFailed(past', rid) {
      var k :| 0 <= k < |past'| && past'[k] == FetchOver(rid, false);
      assert k < |past| ==> past[k] == past'[k];
    }
  }

  lemma AloneMore(past: seq<Deed>, lone: set<Spot>, deed: Deed, rid: nat, a: nat)
    requires forall rid, a: nat :: Alone(past, rid, a) ==> Spot(rid, a) in lone
    requires Alone(past + [deed], rid, a)
    ensures Spot(rid, a) in LoneAfter(lone, deed)
  {
    var past' := past + [deed];
    assert past'[|past|] == deed;
    var i: nat :| AskedAlone(past', i, rid, a);
    if i < |past| {
      assert past[i] == past'[i];
      forall k | i < k < |past| && past[k].WriteAsked? ensures !(past[k].addr <= a < past[k].addr + past[k].len) {
        assert past'[k] == past[k];
      }
      assert AskedAlone(past, i, rid, a);
    }
  }

  lemma ToldMore(past: seq<Deed>, lone: set<Spot>, clients: map<nat, Client>, deed: Deed, clients': map<nat, Client>)
    requires Told(past, lone, clients) && ErrorsMove(clients, clients', deed)
    ensures Told(past + [deed], LoneAfter(lone, deed), clients')
  {
    forall rid, a: nat | Alone(past + [deed], rid, a) ensures Spot(rid, a) in LoneAfter(lone, deed) {
      AloneMore(past, lone, deed, rid, a);
    }
    forall rid | SomeFailed(past + [deed], rid) ensures rid in clients' {
      FailedMore(past, deed, rid);
    }
    forall rid | rid in clients' ensures clients'[rid].err <==> SomeFailed(past + [deed], rid) {
      FailedMore(past, deed, rid);
    }
  }

  /** A read that waits for nothing any more and none of whose fetches failed has what is below, in
      each byte that no write overlapped. */
  ghost predicate GotBelow(past: seq<Deed>, dev: seq<byte>, clients: map<nat, Client>) {
    forall rid, a: nat :: rid in clients && clients[rid].todo == {} && !SomeFailed(past, rid) && Alone(past, rid, a) ==>
      var c := clients[rid]; c.addr <= a < c.addr + |c.buf| && a < |dev| && c.buf[a - c.addr] == dev[a]
  }

  lemma AloneGetsBelow(n: nat, past: seq<Deed>, dev: seq<byte>, fetches: map<nat, Fetch>, clients: map<nat, Client>, tickets: nat, lone: set<Spot>)
    requires n > 0 && FetchesOk(n, fetches, clients, tickets) && LoneOk(n, dev, fetches, clients, lone) && Told(past, lone, clients)
    ensures GotBelow(past, dev, clients)
  {
    forall rid, a: nat | rid in clients && clients[rid].todo == {} && !SomeFailed(past, rid) && Alone(past, rid, a)
      ensures var c := clients[rid]; c.addr <= a < c.addr + |c.buf| && a < |dev| && c.buf[a - c.addr] == dev[a]
    {
      LoneByteIsThere(n, dev, fetches, clients, tickets, lone, rid, a);
    }
  }

  /** So a read that no write overlapped anywhere has the whole range. */
  lemma WholeRead(past: seq<Deed>, dev: seq<byte>, clients: map<nat, Client>, rid: nat)
    requires GotBelow(past, dev, clients) && rid in clients && clients[rid].todo == {} && !SomeFailed(past, rid)
    requires clients[rid].addr + |clients[rid].buf| <= |dev|
    requires forall a :: clients[rid].addr <= a < clients[rid].addr + |clients[rid].buf| ==> Alone(past, rid, a)
    ensures var c := clients[rid]; c.buf == dev[c.addr..c.addr + |c.buf|]
  {
    var c := clients[rid];
    forall i | 0 <= i < |c.buf| ensures c.buf[i] == dev[c.addr + i] {
      assert Alone(past, rid, c.addr + i);
    }
  }
}
