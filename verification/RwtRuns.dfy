/** Whole runs of the write-through handler: with clients that do not read and write one chunk
    at a time the cache stays coherent, whatever the layer below does; a client that does can
    have it spoilt. */
module RwtRuns {
  import opened Arithmetic
  import opened Bytes
  import opened BitsetLocker
  import opened FlatLru
  import opened CacheReads
  import opened LoneReads
  import opened RwtHandler

  /** What clients ask for, and what the layer below does: it reads a byte of a fetch, or of the
      chunk a write has to read first; a fetch, that read, or a write is over, well or not; a
      byte of a write under way changes. */
  datatype Event =
    | Read(rid: nat, addr: nat, len: nat)
    | Write(rid: nat, addr: nat, buf: seq<byte>)
    | Sample(id: nat, a: nat)
    | Fetched(id: nat, ok: bool)
    | SampleOwn(c: nat, a: nat)
    | OwnRead(c: nat, ok: bool)
    | Torn(a: nat, v: byte)
    | Stored(c: nat, ok: bool)

  /** What is under way, what was accepted and served, and the client writes that heard of an
      error. */
  datatype View = View(fetches: map<nat, Fetch>, clients: map<nat, Client>, active: map<nat, Active>,
                       accepted: multiset<Sub>, served: multiset<Sub>, failed: set<nat>)

  ghost function ViewOf(h: Rwt): View
    reads h, h.side
  {
    View(h.side.fetches, h.side.clients, h.active, h.accepted, h.served, h.failed)
  }

  /** What clients look at before they submit a request: the count of writes that were over, what
      is cached, and which chunks are locked. */
  datatype Gate = Gate(done: nat, cached: seq<Pair<seq<byte>>>, bits: seq<bool>)

  ghost function GateOf(h: Rwt): Gate
    requires h.side.cache.Valid()
    reads h, h.side, h.side.cache, h.locker
  {
    Gate(h.side.done, h.side.cache.Contents(), h.locker.bits)
  }

  /** The event can happen. */
  predicate Enabled(h: Rwt, ev: Event)
    reads h, h.side
  {
    CanHappen(h.side.n, |h.side.dev|, h.side.fetches, h.side.clients, h.active, ev)
  }

  /** It can, above chunks of `n` bytes and a device of `size`. */
  predicate CanHappen(n: nat, size: nat, fetches: map<nat, Fetch>, clients: map<nat, Client>, active: map<nat, Active>, ev: Event) {
    n > 0 &&
    match ev
    case Read(rid, addr, len) => rid !in clients && len > 0 && addr + len <= size
    case Write(rid, addr, buf) => buf != [] && addr + |buf| <= size
    case Sample(id, a) => id in fetches && a < size && ChunkOf(n, a) == fetches[id].chunk
    case Fetched(id, ok) => id in fetches && (ok ==> forall i | 0 <= i < n :: i in fetches[id].got)
    case SampleOwn(c, a) => c in active && active[c].stage.Reading? && a < size && ChunkOf(n, a) == c
    case OwnRead(c, ok) => c in active && active[c].stage.Reading? && (ok ==> forall i | 0 <= i < n :: i in active[c].stage.got)
    case Torn(a, v) =>
      a < size && var c := ChunkOf(n, a); c in active && active[c].stage.Storing? && Covers(active[c].w, Inside(n, a))
    case Stored(c, ok) => c in active && active[c].stage.Storing?
  }

  /** A client holds a request back that would read and write one chunk at a time. */
  predicate Allowed(h: Rwt, ev: Event)
    reads h, h.side, h.side.cache, h.locker
  {
    match ev
    case Read(_, addr, len) => h.MayRead(addr, len)
    case Write(_, addr, buf) => h.MayWrite(addr, |buf|)
    case _ => true
  }

  /** The event can happen, and its client does not hold it back: it reads only chunks that are
      cached or not locked, and writes only whole chunks or chunks of which no miss is under way
      that may still fill the cache. */
  ghost predicate Takes(n: nat, size: nat, v: View, gate: Gate, ev: Event) {
    CanHappen(n, size, v.fetches, v.clients, v.active, ev) &&
    match ev
    case Read(_, addr, len) => HitsOrFree(n, gate.cached, gate.bits, addr, len)
    case Write(_, addr, buf) => MissesSpare(n, gate.done, v.fetches, addr, |buf|)
    case _ => true
  }

  lemma AllowedIsTaken(h: Rwt, ev: Event)
    requires h.Valid()
    ensures Takes(h.side.n, |h.side.dev|, ViewOf(h), GateOf(h), ev) <==> Enabled(h, ev) && Allowed(h, ev)
  {
    match ev
    case Read(_, addr, len) => h.MayReadMeans(addr, len);
    case _ =>
  }

  /** What the event is to clients, if it happens. */
  ghost function DeedOf(n: nat, size: nat, v: View, ev: Event): Deed
    requires CanHappen(n, size, v.fetches, v.clients, v.active, ev)
  {
    match ev
    case Read(rid, addr, len) => ReadAsked(rid, addr, len, set a | addr <= a < addr + len && !Free(n, v.accepted, v.served, a))
    case Write(_, addr, buf) => WriteAsked(addr, |buf|)
    case Fetched(id, ok) => FetchOver(v.fetches[id].rid, ok)
    case _ => NoDeed
  }

  /** The client writes that heard of an error: one more if a chunk write of it failed. */
  predicate Heard(active: map<nat, Active>, failed: set<nat>, ev: Event, failed': set<nat>) {
    if (ev.OwnRead? || ev.Stored?) && !ev.ok then ev.c in active && failed' == failed + {active[ev.c].w.rid} else failed' == failed
  }

  /** The chunk writes that are served: one more if one is over below, or could not be prepared. */
  predicate Serves(active: map<nat, Active>, served: multiset<Sub>, ev: Event, served': multiset<Sub>) {
    if ev.Stored? || (ev.OwnRead? && !ev.ok) then ev.c in active && served' == served + multiset{active[ev.c].w} else served' == served
  }

  predicate Ends(active: map<nat, Active>, served: multiset<Sub>, failed: set<nat>, ev: Event, served': multiset<Sub>, failed': set<nat>) {
    Heard(active, failed, ev, failed') && Serves(active, served, ev, served')
  }

  /** What is under way after the event: what was submitted, and not what is over. */
  ghost predicate Moves(v: View, ev: Event, v': View) {
    && Ends(v.active, v.served, v.failed, ev, v'.served, v'.failed)
    && match ev
       case Read(rid, addr, len) => v'.accepted == v.accepted && v'.active == v.active && Joined(v.clients, v'.clients, rid, addr, len)
       case Write(rid, _, buf) => v.accepted <= v'.accepted && v'.clients == v.clients && v'.fetches == v.fetches
       case Fetched(id, _) =>
         && v'.accepted == v.accepted && v'.active == v.active && v'.clients.Keys == v.clients.Keys
         && id in v.fetches && v'.fetches == v.fetches - {id}
       case Sample(_, _) => v'.accepted == v.accepted && v'.clients == v.clients && v'.active == v.active && v'.fetches.Keys == v.fetches.Keys
       case _ => v'.accepted == v.accepted && v'.clients == v.clients && v'.fetches == v.fetches
  }

  /** What is under way, the lone bytes and what clients heard of errors follow the event. */
  ghost predicate Follows(n: nat, size: nat, v: View, lone: set<Spot>, ev: Event, v': View, lone': set<Spot>)
    requires CanHappen(n, size, v.fetches, v.clients, v.active, ev)
  {
    && Moves(v, ev, v') && lone' == LoneAfter(lone, DeedOf(n, size, v, ev))
    && ErrorsMove(v.clients, v'.clients, DeedOf(n, size, v, ev))
  }

  /** What the layer below does to writes is nothing to the reads of clients. */
  lemma BelowFollows(n: nat, size: nat, v: View, lone: set<Spot>, ev: Event, v': View)
    requires CanHappen(n, size, v.fetches, v.clients, v.active, ev) && (ev.OwnRead? || ev.Stored?)
    requires Ends(v.active, v.served, v.failed, ev, v'.served, v'.failed)
    requires v'.accepted == v.accepted && v'.clients == v.clients && v'.fetches == v.fetches
    ensures Follows(n, size, v, lone, ev, v', lone)
  {
  }

  /** A fetch is over, and its client heard of an error if it failed. */
  ghost predicate Delivers(fetches: map<nat, Fetch>, clients: map<nat, Client>, id: nat, ok: bool, fetches': map<nat, Fetch>, clients': map<nat, Client>) {
    && id in fetches && fetches' == fetches - {id} && clients'.Keys == clients.Keys
    && ErrorsMove(clients, clients', FetchOver(fetches[id].rid, ok))
  }

  /** A write is nothing to the reads under way, but for the bytes it covers. */
  lemma WriteFollows(n: nat, size: nat, v: View, lone: set<Spot>, ev: Event, v': View)
    requires CanHappen(n, size, v.fetches, v.clients, v.active, ev) && ev.Write? && v'.served == v.served && v'.failed == v.failed
    requires v.accepted <= v'.accepted && v'.clients == v.clients && v'.fetches == v.fetches
    ensures Follows(n, size, v, lone, ev, v', LoneAfter(lone, WriteAsked(ev.addr, |ev.buf|)))
  {
  }

  /** What is fetched for reads is nothing to writes. */
  lemma SampleFollows(n: nat, size: nat, v: View, lone: set<Spot>, ev: Event, v': View)
    requires CanHappen(n, size, v.fetches, v.clients, v.active, ev) && ev.Sample? && v' == v.(fetches := v'.fetches)
    requires v'.fetches.Keys == v.fetches.Keys
    ensures Follows(n, size, v, lone, ev, v', lone)
  {
  }

  lemma FetchFollows(n: nat, size: nat, v: View, lone: set<Spot>, ev: Event, v': View)
    requires CanHappen(n, size, v.fetches, v.clients, v.active, ev) && ev.Fetched? && v' == v.(fetches := v'.fetches, clients := v'.clients)
    requires Delivers(v.fetches, v.clients, ev.id, ev.ok, v'.fetches, v'.clients)
    ensures Follows(n, size, v, lone, ev, v', lone)
  {
  }

  /** A read that joins the others. */
  lemma ReadFollows(n: nat, size: nat, v: View, lone: set<Spot>, ev: Event, v': View, lone': set<Spot>)
    requires CanHappen(n, size, v.fetches, v.clients, v.active, ev) && ev.Read?
    requires v'.accepted == v.accepted && v'.active == v.active && v'.served == v.served && v'.failed == v.failed
    requires Joined(v.clients, v'.clients, ev.rid, ev.addr, ev.len) && lone' == LoneAfter(lone, DeedOf(n, size, v, ev))
    ensures Follows(n, size, v, lone, ev, v', lone')
  {
  }

  // ---------- Lone bytes ----------

  /** No write that is not over covers the address. */
  ghost predicate Free(n: nat, accepted: multiset<Sub>, served: multiset<Sub>, a: nat) {
    forall w: Sub :: accepted[w] > served[w] ==> !(w.chunk * n + w.off <= a < w.chunk * n + w.off + |w.buf|)
  }

  ghost predicate AllFree(n: nat, accepted: multiset<Sub>, served: multiset<Sub>, lone: set<Spot>) {
    forall p :: p in lone ==> Free(n, accepted, served, p.a)
  }

  ghost predicate Lone(h: Rwt, lone: set<Spot>)
    reads h, h.side
  {
    && h.side.n > 0 && LoneOk(h.side.n, h.side.dev, h.side.fetches, h.side.clients, lone)
    && AllFree(h.side.n, h.accepted, h.served, lone)
  }

  /** The write in flight on a chunk is not over. */
  lemma ActiveIsUnfinished(n: nat, accepted: multiset<Sub>, served: multiset<Sub>, pending: seq<Sub>, active: map<nat, Active>, c: nat)
    requires Counted(accepted, served, pending, active) && c in active && active[c].w.chunk == c
    ensures accepted[active[c].w] > served[active[c].w]
  {
    assert accepted[active[c].w] == Tally(served, pending, active, active[c].w);
  }

  /** So it covers no free address. */
  lemma NotInFlight(h: Rwt, a: nat)
    requires h.Valid() && Free(h.side.n, h.accepted, h.served, a)
    ensures !h.InFlight(a)
  {
    var c := ChunkOf(h.side.n, a);
    QuotWrap(a, h.side.n);
    if c in h.active {
      ActiveIsUnfinished(h.side.n, h.accepted, h.served, h.pending, h.active, c);
    }
  }

  /** More writes are over. */
  lemma StaysFree(n: nat, accepted: multiset<Sub>, served: multiset<Sub>, served': multiset<Sub>, lone: set<Spot>)
    requires AllFree(n, accepted, served, lone) && served <= served'
    ensures AllFree(n, accepted, served', lone)
  {
    forall p | p in lone ensures Free(n, accepted, served', p.a) {
      assert Free(n, accepted, served, p.a);
    }
  }

  /** The pieces of a write lie inside it. */
  lemma PieceIsInside(n: nat, rid: nat, addr: nat, buf: seq<byte>, pieces: seq<Sub>, at: seq<nat>, w: Sub)
    requires n > 0 && Cut(n, rid, addr, buf, |buf|, pieces, at) && w in pieces
    ensures addr <= w.chunk * n + w.off && w.chunk * n + w.off + |w.buf| <= addr + |buf|
  {
    var k :| 0 <= k < |pieces| && pieces[k] == w;
    assert CutAt(n, rid, addr, buf, pieces, at, k);
    QuotWrap(addr + at[k], n);
  }

  lemma WriteAccepted(n: nat, accepted: multiset<Sub>, served: multiset<Sub>, lone: set<Spot>,
                      rid: nat, addr: nat, buf: seq<byte>, pieces: seq<Sub>, at: seq<nat>)
    requires n > 0 && AllFree(n, accepted, served, lone) && Cut(n, rid, addr, buf, |buf|, pieces, at)
    ensures AllFree(n, accepted + multiset(pieces), served, LoneAfter(lone, WriteAsked(addr, |buf|)))
  {
    forall p, w: Sub | p in LoneAfter(lone, WriteAsked(addr, |buf|)) && (accepted + multiset(pieces))[w] > served[w]
      ensures !(w.chunk * n + w.off <= p.a < w.chunk * n + w.off + |w.buf|)
    {
      assert Free(n, accepted, served, p.a);
      if w in pieces {
        PieceIsInside(n, rid, addr, buf, pieces, at, w);
      }
    }
  }

  lemma LoneIsSettled(h: Rwt, lone: set<Spot>)
    requires h.Valid() && AllFree(h.side.n, h.accepted, h.served, lone)
    ensures forall p :: p in lone && p.a < |h.side.dev| ==> p.a in h.Settled()
  {
    forall p | p in lone ensures !h.InFlight(p.a) {
      NotInFlight(h, p.a);
    }
  }

  // ---------- Events ----------

  method DoRead(h: Rwt, rid: nat, addr: nat, len: nat, ghost lone: set<Spot>) returns (ghost lone': set<Spot>)
    requires h.Valid() && Enabled(h, Read(rid, addr, len))
    modifies h.side`fetches, h.side`clients, h.side`tickets, h.side.cache
    ensures h.Valid() && (old(h.Coherent()) ==> h.Coherent())
    ensures old(h.Separate() && h.MayRead(addr, len)) ==> h.Separate()
    ensures old(h.Coherent() && Lone(h, lone)) ==> Lone(h, lone')
    ensures Follows(h.side.n, |h.side.dev|, old(ViewOf(h)), lone, Read(rid, addr, len), ViewOf(h), lone')
  {
    ghost var v := ViewOf(h);
    lone' := LoneAfter(lone, DeedOf(h.side.n, |h.side.dev|, v, Read(rid, addr, len)));
    ReadJoins(h, rid, addr, len, lone, lone');
    ReadFollows(h.side.n, |h.side.dev|, v, lone, Read(rid, addr, len), ViewOf(h), lone');
  }

  method ReadJoins(h: Rwt, rid: nat, addr: nat, len: nat, ghost lone: set<Spot>, ghost lone': set<Spot>)
    requires h.Valid() && Enabled(h, Read(rid, addr, len))
    requires forall p :: p in lone' ==> p in lone || (p.rid == rid && addr <= p.a < addr + len && Free(h.side.n, h.accepted, h.served, p.a))
    modifies h.side`fetches, h.side`clients, h.side`tickets, h.side.cache
    ensures h.Valid() && (old(h.Coherent()) ==> h.Coherent())
    ensures old(h.Separate() && h.MayRead(addr, len)) ==> h.Separate()
    ensures old(h.Coherent() && Lone(h, lone)) ==> Lone(h, lone')
    ensures Joined(old(h.side.clients), h.side.clients, rid, addr, len)
  {
    ghost var fetches, clients, tickets, ok := h.side.fetches, h.side.clients, h.side.tickets, h.Coherent() && Lone(h, lone);
    assert FetchesOk(h.side.n, fetches, clients, tickets);
    h.SubmitRead(rid, addr, len);
    if ok {
      LoneJoined(h, fetches, clients, tickets, lone, lone', rid, addr, len);
    }
  }

  /** A read is submitted to a coherent cache. */
  lemma LoneJoined(h: Rwt, fetches: map<nat, Fetch>, clients: map<nat, Client>, tickets: nat, lone: set<Spot>, lone': set<Spot>,
                   rid: nat, addr: nat, len: nat)
    requires h.Valid() && FetchesOk(h.side.n, fetches, clients, tickets) && Joined(clients, h.side.clients, rid, addr, len)
    requires rid !in clients && addr + len <= |h.side.dev| && h.ServedExpected(rid) && Asked(fetches, h.side.fetches, h.side.done)
    requires LoneOk(h.side.n, h.side.dev, fetches, clients, lone) && AllFree(h.side.n, h.accepted, h.served, lone)
    requires forall p :: p in lone' ==> p in lone || (p.rid == rid && addr <= p.a < addr + len && Free(h.side.n, h.accepted, h.served, p.a))
    ensures Lone(h, lone')
  {
    forall p | p in lone' && p !in lone ensures BufferIsBelow(h.side.dev, h.side.fetches, rid, h.side.clients[rid], p.a) {
      NotInFlight(h, p.a);
      var i := p.a - addr;
      assert addr + i == p.a;
    }
    LoneSubmitted(h.side.n, h.side.dev, fetches, h.side.fetches, clients, h.side.clients, tickets, h.side.tickets, h.side.done,
                  lone, lone', rid, addr, len);
  }

  method DoWrite(h: Rwt, rid: nat, addr: nat, buf: seq<byte>, ghost lone: set<Spot>) returns (ghost lone': set<Spot>)
    requires h.Valid() && Enabled(h, Write(rid, addr, buf))
    modifies h`active, h`pending, h`accepted, h.side`done, h.side.cache, h.locker
    ensures h.Valid() && (old(h.Coherent()) ==> h.Coherent())
    ensures old(h.Separate() && h.MayWrite(addr, |buf|)) ==> h.Separate()
    ensures old(Lone(h, lone)) ==> Lone(h, lone')
    ensures Follows(h.side.n, |h.side.dev|, old(ViewOf(h)), lone, Write(rid, addr, buf), ViewOf(h), lone')
  {
    ghost var v := ViewOf(h);
    lone' := LoneAfter(lone, WriteAsked(addr, |buf|));
    WriteJoins(h, rid, addr, buf, lone);
    WriteFollows(h.side.n, |h.side.dev|, v, lone, Write(rid, addr, buf), ViewOf(h));
  }

  method WriteJoins(h: Rwt, rid: nat, addr: nat, buf: seq<byte>, ghost lone: set<Spot>)
    requires h.Valid() && Enabled(h, Write(rid, addr, buf))
    modifies h`active, h`pending, h`accepted, h.side`done, h.side.cache, h.locker
    ensures h.Valid() && (old(h.Coherent()) ==> h.Coherent()) && old(h.accepted) <= h.accepted
    ensures old(h.Separate() && h.MayWrite(addr, |buf|)) ==> h.Separate()
    ensures old(Lone(h, lone)) ==> Lone(h, LoneAfter(lone, WriteAsked(addr, |buf|)))
  {
    ghost var accepted, ok := h.accepted, Lone(h, lone);
    ghost var pieces, at := h.SubmitWrite(rid, addr, buf);
    if ok {
      WriteAccepted(h.side.n, accepted, h.served, lone, rid, addr, buf, pieces, at);
    }
  }

  method DoSample(h: Rwt, id: nat, a: nat, ghost lone: set<Spot>)
    requires h.Valid() && Enabled(h, Sample(id, a))
    modifies h.side`fetches
    ensures h.Valid() && (old(h.Coherent()) ==> h.Coherent()) && (old(h.Separate()) ==> h.Separate())
    ensures old(Lone(h, lone)) ==> Lone(h, lone)
    ensures Follows(h.side.n, |h.side.dev|, old(ViewOf(h)), lone, Sample(id, a), ViewOf(h), lone)
  {
    ghost var v := ViewOf(h);
    SampleArrives(h, id, a, lone);
    SampleFollows(h.side.n, |h.side.dev|, v, lone, Sample(id, a), ViewOf(h));
  }

  method SampleArrives(h: Rwt, id: nat, a: nat, ghost lone: set<Spot>)
    requires h.Valid() && Enabled(h, Sample(id, a))
    modifies h.side`fetches
    ensures h.Valid() && (old(h.Coherent()) ==> h.Coherent()) && (old(h.Separate()) ==> h.Separate())
    ensures old(Lone(h, lone)) ==> Lone(h, lone)
    ensures h.side.fetches.Keys == old(h.side.fetches).Keys
  {
    if Lone(h, lone) {
      LoneSampled(h.side.n, h.side.dev, h.side.fetches, h.side.clients, h.side.tickets, lone, id, a);
    }
    h.Sample(id, a);
  }

  method DoFetched(h: Rwt, id: nat, ok: bool, ghost lone: set<Spot>)
    requires h.Valid() && Enabled(h, Fetched(id, ok))
    modifies h.side`fetches, h.side`clients, h.side.cache
    ensures h.Valid() && (old(h.Coherent() && h.Apart()) ==> h.Coherent())
    ensures old(h.Coherent() && h.Separate()) ==> h.Coherent() && h.Separate()
    ensures old(Lone(h, lone)) ==> Lone(h, lone)
    ensures Follows(h.side.n, |h.side.dev|, old(ViewOf(h)), lone, Fetched(id, ok), ViewOf(h), lone)
  {
    ghost var v := ViewOf(h);
    FetchEnds(h, id, ok, lone);
    FetchFollows(h.side.n, |h.side.dev|, v, lone, Fetched(id, ok), ViewOf(h));
  }

  method FetchEnds(h: Rwt, id: nat, ok: bool, ghost lone: set<Spot>)
    requires h.Valid() && Enabled(h, Fetched(id, ok))
    modifies h.side`fetches, h.side`clients, h.side.cache
    ensures h.Valid() && (old(h.Coherent() && h.Apart()) ==> h.Coherent())
    ensures old(h.Coherent() && h.Separate()) ==> h.Coherent() && h.Separate()
    ensures old(Lone(h, lone)) ==> Lone(h, lone)
    ensures Delivers(old(h.side.fetches), old(h.side.clients), id, ok, h.side.fetches, h.side.clients)
  {
    if Lone(h, lone) {
      LoneDelivered(h.side.n, h.side.dev, h.side.fetches, h.side.clients, h.side.tickets, lone, id, ok);
    }
    DeliveredMoves(h.side.n, h.side.fetches, h.side.clients, h.side.tickets, id, ok);
    var over := h.FetchDone(id, ok);
  }

  method DoSampleOwn(h: Rwt, c: nat, a: nat, ghost lone: set<Spot>)
    requires h.Valid() && Enabled(h, SampleOwn(c, a))
    modifies h`active
    ensures h.Valid() && (old(h.Coherent()) ==> h.Coherent())
    ensures Follows(h.side.n, |h.side.dev|, old(ViewOf(h)), lone, SampleOwn(c, a), ViewOf(h), lone)
  {
    h.SampleOwn(c, a);
  }

  method DoOwnRead(h: Rwt, c: nat, ok: bool, ghost lone: set<Spot>)
    requires h.Valid() && Enabled(h, OwnRead(c, ok))
    modifies h`active, h`pending, h`served, h`failed, h.side`done, h.side.cache, h.locker
    ensures h.Valid() && (old(h.Coherent()) ==> h.Coherent()) && (old(h.Separate()) ==> h.Separate())
    ensures old(Lone(h, lone)) ==> Lone(h, lone)
    ensures Follows(h.side.n, |h.side.dev|, old(ViewOf(h)), lone, OwnRead(c, ok), ViewOf(h), lone)
  {
    ghost var v := ViewOf(h);
    OwnReadEnds(h, c, ok, lone);
    BelowFollows(h.side.n, |h.side.dev|, v, lone, OwnRead(c, ok), ViewOf(h));
  }

  method OwnReadEnds(h: Rwt, c: nat, ok: bool, ghost lone: set<Spot>)
    requires h.Valid() && Enabled(h, OwnRead(c, ok))
    modifies h`active, h`pending, h`served, h`failed, h.side`done, h.side.cache, h.locker
    ensures h.Valid() && (old(h.Coherent()) ==> h.Coherent()) && (old(h.Separate()) ==> h.Separate())
    ensures old(Lone(h, lone)) ==> Lone(h, lone)
    ensures Ends(old(h.active), old(h.served), old(h.failed), OwnRead(c, ok), h.served, h.failed)
  {
    ghost var served, was := h.served, Lone(h, lone);
    h.ReadDone(c, ok);
    if was {
      StaysFree(h.side.n, h.accepted, served, h.served, lone);
    }
  }

  method DoTorn(h: Rwt, a: nat, v: byte, ghost lone: set<Spot>)
    requires h.Valid() && Enabled(h, Torn(a, v))
    modifies h.side`dev
    ensures h.Valid() && (old(h.Coherent() && h.Apart()) ==> h.Coherent()) && |h.side.dev| == |old(h.side.dev)|
    ensures old(h.Coherent() && h.Separate()) ==> h.Coherent() && h.Separate()
    ensures old(Lone(h, lone)) ==> Lone(h, lone)
    ensures Follows(h.side.n, |h.side.dev|, old(ViewOf(h)), lone, Torn(a, v), ViewOf(h), lone)
  {
    if Lone(h, lone) {
      LoneIsSettled(h, lone);
      LoneChanged(h.side.n, h.side.dev, h.side.dev[a := v], h.side.fetches, h.side.clients, lone);
    }
    h.Tear(a, v);
  }

  method DoStored(h: Rwt, c: nat, ok: bool, ghost lone: set<Spot>)
    requires h.Valid() && Enabled(h, Stored(c, ok))
    modifies h`active, h`pending, h`served, h`failed, h.side`dev, h.side`done, h.side.cache, h.locker
    ensures h.Valid() && (old(h.Coherent() && h.Apart()) ==> h.Coherent()) && |h.side.dev| == |old(h.side.dev)|
    ensures old(h.Coherent() && h.Separate()) ==> h.Coherent() && h.Separate()
    ensures old(Lone(h, lone)) ==> Lone(h, lone)
    ensures Follows(h.side.n, |h.side.dev|, old(ViewOf(h)), lone, Stored(c, ok), ViewOf(h), lone)
  {
    ghost var v := ViewOf(h);
    StoreEnds(h, c, ok, lone);
    BelowFollows(h.side.n, |h.side.dev|, v, lone, Stored(c, ok), ViewOf(h));
  }

  method StoreEnds(h: Rwt, c: nat, ok: bool, ghost lone: set<Spot>)
    requires h.Valid() && Enabled(h, Stored(c, ok))
    modifies h`active, h`pending, h`served, h`failed, h.side`dev, h.side`done, h.side.cache, h.locker
    ensures h.Valid() && (old(h.Coherent() && h.Apart()) ==> h.Coherent()) && |h.side.dev| == |old(h.side.dev)|
    ensures old(h.Coherent() && h.Separate()) ==> h.Coherent() && h.Separate()
    ensures old(Lone(h, lone)) ==> Lone(h, lone)
    ensures Ends(old(h.active), old(h.served), old(h.failed), Stored(c, ok), h.served, h.failed)
  {
    ghost var served, dev, was := h.served, h.side.dev, Lone(h, lone);
    if was {
      LoneIsSettled(h, lone);
    }
    h.StoreDone(c, ok);
    if was {
      LoneChanged(h.side.n, dev, h.side.dev, h.side.fetches, h.side.clients, lone);
      StaysFree(h.side.n, h.accepted, served, h.served, lone);
    }
  }

  /** Every event that can happen keeps the cache coherent, and clients' misses apart from
      writes, if clients hold back.  If they do not, it still leads from a coherent cache to a
      coherent one, unless a miss overlaps a write below.  What clients have of lone bytes stays
      what is below, and what they get out of a coherent cache is; a client hears of an error
      exactly if a fetch, or a chunk write, of its failed. */
  method Do(h: Rwt, ev: Event, ghost lone: set<Spot>) returns (ghost lone': set<Spot>)
    requires h.Valid() && Enabled(h, ev)
    modifies h, h.side, h.side.cache, h.locker
    ensures h.Valid() && (old(h.Coherent() && h.Separate() && Allowed(h, ev)) ==> h.Coherent() && h.Separate())
    ensures old(h.Coherent() && h.Apart()) ==> h.Coherent()
    ensures old(h.Coherent() && Lone(h, lone)) ==> Lone(h, lone')
    ensures |h.side.dev| == |old(h.side.dev)|
    ensures Follows(h.side.n, |h.side.dev|, old(ViewOf(h)), lone, ev, ViewOf(h), lone')
  {
    match ev
    case Read(rid, addr, len) => lone' := DoRead(h, rid, addr, len, lone);
    case Write(rid, addr, buf) => lone' := DoWrite(h, rid, addr, buf, lone);
    case _ =>
      DoBelow(h, ev, lone);
      lone' := lone;
  }

  method DoBelow(h: Rwt, ev: Event, ghost lone: set<Spot>)
    requires h.Valid() && Enabled(h, ev) && !ev.Read? && !ev.Write?
    modifies h, h.side, h.side.cache, h.locker
    ensures h.Valid() && (old(h.Coherent() && h.Separate()) ==> h.Coherent() && h.Separate())
    ensures old(h.Coherent() && h.Apart()) ==> h.Coherent()
    ensures old(Lone(h, lone)) ==> Lone(h, lone)
    ensures |h.side.dev| == |old(h.side.dev)|
    ensures Follows(h.side.n, |h.side.dev|, old(ViewOf(h)), lone, ev, ViewOf(h), lone)
  {
    match ev
    case Sample(id, a) => DoSample(h, id, a, lone);
    case Fetched(id, ok) => DoFetched(h, id, ok, lone);
    case SampleOwn(c, a) => DoSampleOwn(h, c, a, lone);
    case OwnRead(c, ok) => DoOwnRead(h, c, ok, lone);
    case Torn(a, v) => DoTorn(h, a, v, lone);
    case Stored(c, ok) => DoStored(h, c, ok, lone);
  }

  // ---------- Runs ----------

  ghost predicate Happens(n: nat, size: nat, v: View, gate: Gate, ev: Event, v': View, deed: Deed) {
    if Takes(n, size, v, gate, ev) then deed == DeedOf(n, size, v, ev) && Moves(v, ev, v') else deed == NoDeed && v' == v
  }

  /** What is under way from event to event, what clients saw before, and what the events are to
      them. */
  ghost predicate History(n: nat, size: nat, views: seq<View>, gates: seq<Gate>, past: seq<Deed>, evs: seq<Event>) {
    && |past| <= |evs| && |views| == |gates| == |past| + 1
    && views[0] == View(map[], map[], map[], multiset{}, multiset{}, {}) && gates[0] == Gate(0, [], [])
    && forall k :: 0 <= k < |past| ==> Happens(n, size, views[k], gates[k], evs[k], views[k + 1], past[k])
  }

  lemma HistoryGoesOn(n: nat, size: nat, views: seq<View>, gates: seq<Gate>, past: seq<Deed>, evs: seq<Event>, v: View, gate: Gate, deed: Deed)
    requires History(n, size, views, gates, past, evs) && |past| < |evs|
    requires Happens(n, size, views[|past|], gates[|past|], evs[|past|], v, deed)
    ensures History(n, size, views + [v], gates + [gate], past + [deed], evs)
  {
    var k := |past|;
    var views', gates', past' := views + [v], gates + [gate], past + [deed];
    forall j | 0 <= j < |past'| ensures Happens(n, size, views'[j], gates'[j], evs[j], views'[j + 1], past'[j]) {
      assert views'[j] == views[j] && gates'[j] == gates[j];
      if j < k {
        assert past'[j] == past[j] && views'[j + 1] == views[j + 1];
      }
    }
  }

  /** Any run of a fresh handler, of those of the events that can happen and that clients do not
      hold back, leaves the cache coherent: every cached chunk is the chunk below overlaid with the
      one write in flight on it.  Every byte of a read that is over, and none of whose fetches
      failed, is what is below, unless a write overlapped it; and a read has heard of an error
      exactly if a fetch of its failed. */
  method Run(chunk: nat, lenMax: nat, dev: seq<byte>, evs: seq<Event>)
    returns (h: Rwt, ghost views: seq<View>, ghost gates: seq<Gate>, ghost past: seq<Deed>)
    requires chunk > 0 && lenMax > 0 && Wrap(|dev|, chunk) == 0
    ensures fresh(h) && h.Valid() && h.Coherent() && h.Separate() && |h.side.dev| == |dev|
    ensures History(chunk, |dev|, views, gates, past, evs) && |past| == |evs| && views[|evs|] == ViewOf(h) && gates[|evs|] == GateOf(h)
    ensures GotBelow(past, h.side.dev, h.side.clients)
    ensures forall rid :: rid in h.side.clients ==> (h.side.clients[rid].err <==> SomeFailed(past, rid))
  {
    h := Start(chunk, lenMax, dev);
    ghost var lone: set<Spot> := {};
    views, gates, past := [ViewOf(h)], [GateOf(h)], [];
    for i := 0 to |evs|
      invariant fresh(h) && fresh(h.side) && fresh(h.side.cache) && fresh(h.locker)
      invariant Going(h, chunk, |dev|, lone, past)
      invariant History(chunk, |dev|, views, gates, past, evs) && |past| == i && views[i] == ViewOf(h) && gates[i] == GateOf(h)
    {
      ghost var deed;
      lone, deed := DoIfAllowed(h, evs[i], lone, past, chunk, |dev|);
      HistoryGoesOn(chunk, |dev|, views, gates, past, evs, ViewOf(h), GateOf(h), deed);
      views, gates, past := views + [ViewOf(h)], gates + [GateOf(h)], past + [deed];
    }
    AloneGetsBelow(chunk, past, h.side.dev, h.side.fetches, h.side.clients, h.side.tickets, lone);
  }

  method Start(chunk: nat, lenMax: nat, dev: seq<byte>) returns (h: Rwt)
    requires chunk > 0 && lenMax > 0 && Wrap(|dev|, chunk) == 0
    ensures fresh(h) && fresh(h.side) && fresh(h.side.cache) && fresh(h.locker) && Going(h, chunk, |dev|, {}, [])
    ensures ViewOf(h) == View(map[], map[], map[], multiset{}, multiset{}, {}) && GateOf(h) == Gate(0, [], [])
  {
    h := new Rwt(chunk, lenMax, dev);
    NothingTold();
  }

  /** What every event of a run keeps. */
  ghost predicate Going(h: Rwt, n: nat, size: nat, lone: set<Spot>, past: seq<Deed>)
    reads h, h.side, h.side.cache, h.locker
  {
    && h.Valid() && h.Coherent() && h.Separate() && Lone(h, lone) && h.side.n == n && |h.side.dev| == size
    && Told(past, lone, h.side.clients)
  }

  /** The event happens, unless it cannot or its client holds it back. */
  method DoIfAllowed(h: Rwt, ev: Event, ghost lone: set<Spot>, ghost past: seq<Deed>, ghost n: nat, ghost size: nat)
    returns (ghost lone': set<Spot>, ghost deed: Deed)
    requires Going(h, n, size, lone, past)
    modifies h, h.side, h.side.cache, h.locker
    ensures Going(h, n, size, lone', past + [deed])
    ensures Happens(n, size, old(ViewOf(h)), old(GateOf(h)), ev, ViewOf(h), deed)
  {
    AllowedIsTaken(h, ev);
    ghost var clients := h.side.clients;
    deed, lone' := NoDeed, lone;
    if Enabled(h, ev) && Allowed(h, ev) {
      deed := DeedOf(h.side.n, |h.side.dev|, ViewOf(h), ev);
      lone' := Do(h, ev, lone);
    }
    ToldMore(past, lone, clients, deed, h.side.clients);
  }

  // ---------- Clients that do not hold back ----------

  /** A client reads a byte of a chunk that is not cached while a write of it is below: then the
      layer below can have the cache wrong. */
  method ReadSpoils(h: Rwt, rid: nat, addr: nat, len: nat, i: nat)
    requires h.Valid() && rid !in h.side.clients && i < len && addr + len <= |h.side.dev|
    requires var c := ChunkOf(h.side.n, addr + i);
      c in h.active && h.active[c].stage.Storing? && !Has(h.side.cache.Contents(), c)
    modifies h.side, h.side.cache
    ensures h.Valid() && !h.Coherent()
  {
    ghost var l, fetches0, clients0 := h.side.cache.Contents(), h.side.fetches, h.side.clients;
    h.SubmitRead(rid, addr, len);
    var id := MissedAt(h, rid, addr, i, l);
    h.Spoil(id);
  }

  /** The fetch that a byte of a missed chunk comes with. */
  method MissedAt(h: Rwt, rid: nat, addr: nat, i: nat, ghost l: seq<Pair<seq<byte>>>) returns (id: nat)
    requires h.Valid() && rid in h.side.clients && h.side.clients[rid].addr == addr && i < |h.side.clients[rid].buf|
    requires ServedTo(h.side.n, l, h.side.fetches, rid, addr, h.side.clients[rid].buf, |h.side.clients[rid].buf|)
    requires !Has(l, ChunkOf(h.side.n, addr + i))
    requires forall id :: id in h.side.fetches && h.side.fetches[id].rid == rid ==> h.side.fetches[id].since == h.side.done
    ensures id in h.side.fetches && h.side.fetches[id].chunk == ChunkOf(h.side.n, addr + i) && h.side.fetches[id].since == h.side.done
  {
    LookupIsMember(l, ChunkOf(h.side.n, addr + i));
    assert Awaited(h.side.fetches, rid, i) by {
      assert !Hit(h.side.n, l, addr, h.side.clients[rid].buf, i);
    }
    id :| Coming(h.side.fetches, rid, id, i);
    var f := h.side.fetches[id];
    SameQuot(addr + f.at, i - f.at, h.side.n);
  }

  /** A client writes a part of a cached chunk while a miss of it is under way that may still
      fill the cache: then, too, the layer below can have the cache wrong. */
  method WriteSpoils(h: Rwt, id: nat, w: Sub)
    requires h.Valid() && id in h.side.fetches && h.side.fetches[id].since == h.side.done && h.side.fetches[id].chunk == w.chunk
    requires SubOk(h.side.n, h.chunks, w) && |w.buf| < h.side.n && Has(h.side.cache.Contents(), w.chunk)
    requires w.chunk < |h.locker.bits| && !Held(h.locker.bits, w.chunk)
    modifies h, h.side, h.side.cache, h.locker
    ensures h.Valid() && !h.Coherent()
  {
    LockedIsBusy(h.side.n, h.chunks, h.locker.bits, h.active, h.pending, w.chunk);
    var res := h.AcceptSub(w, false);
    h.Spoil(id);
  }
}
