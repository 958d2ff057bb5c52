/** Whole runs of the invalidating handler, in any interleaving of clients and the layer below:
    the cache stays coherent, and every byte a client reads that no write overlaps is what is
    below. */
module RwiRuns {
  import opened Arithmetic
  import opened Bytes
  import opened CacheReads
  import opened LoneReads
  import opened RwiHandler

  /** What clients ask for, and what the layer below does: it reads a byte of a fetch; a fetch is
      over, well or not; a byte of a write under way changes; a write is over, well or not. */
  datatype Event =
    | Ask(rid: nat, addr: nat, len: nat)
    | Put(wid: nat, addr: nat, buf: seq<byte>)
    | Sample(id: nat, a: nat)
    | Fetched(id: nat, ok: bool)
    | Torn(wid: nat, a: nat, v: byte)
    | Stored(wid: nat, ok: bool)

  /** What is under way, and the writes that heard of an error. */
  datatype View = View(writes: map<nat, Write>, failed: set<nat>, fetches: map<nat, Fetch>, clients: map<nat, Client>)

  function ViewOf(h: Rwi): View
    reads h, h.side
  {
    View(h.writes, h.failed, h.side.fetches, h.side.clients)
  }

  /** The event can happen, above chunks of `n` bytes and a device of `size`. */
  predicate CanHappen(n: nat, size: nat, v: View, ev: Event) {
    n > 0 &&
    match ev
    case Ask(rid, addr, len) => rid !in v.clients && len > 0 && addr + len <= size
    case Put(wid, addr, buf) => wid !in v.writes && buf != [] && addr + |buf| <= size
    case Sample(id, a) => id in v.fetches && a < size && ChunkOf(n, a) == v.fetches[id].chunk
    case Fetched(id, ok) => id in v.fetches && (ok ==> forall i | 0 <= i < n :: i in v.fetches[id].got)
    case Torn(wid, a, _) => wid in v.writes && Covers(v.writes[wid], a) && a < size
    case Stored(wid, _) => wid in v.writes
  }

  predicate Enabled(h: Rwi, ev: Event)
    reads h, h.side
  {
    CanHappen(h.side.n, |h.side.dev|, ViewOf(h), ev)
  }

  /** What the event is to clients. */
  ghost function DeedOf(n: nat, size: nat, v: View, ev: Event): Deed {
    if !CanHappen(n, size, v, ev) then NoDeed
    else
      match ev
      case Ask(rid, addr, len) => ReadAsked(rid, addr, len, set a | addr <= a < addr + len && Covered(v.writes, a))
      case Put(_, addr, buf) => WriteAsked(addr, |buf|)
      case Fetched(id, ok) => FetchOver(v.fetches[id].rid, ok)
      case _ => NoDeed
  }

  /** What is under way after the event: what was submitted, and not what is over.  A write that
      failed hears of it. */
  ghost predicate Moves(n: nat, size: nat, v: View, ev: Event, v': View) {
    if !CanHappen(n, size, v, ev) then v' == v
    else
      match ev
      case Ask(rid, addr, len) => v'.writes == v.writes && v'.failed == v.failed && Joined(v.clients, v'.clients, rid, addr, len)
      case Put(wid, addr, buf) => v' == v.(writes := v.writes[wid := Write(addr, buf)])
      case Fetched(id, _) =>
        v'.writes == v.writes && v'.failed == v.failed && v'.fetches == v.fetches - {id} && v'.clients.Keys == v.clients.Keys
      case Stored(wid, ok) => v' == v.(writes := v.writes - {wid}, failed := if ok then v.failed else v.failed + {wid})
      case _ => v' == v.(fetches := v'.fetches) && v'.fetches.Keys == v.fetches.Keys
  }

  /** What is under way, the lone bytes and what clients heard of errors follow the event. */
  ghost predicate Follows(n: nat, size: nat, v: View, lone: set<Spot>, ev: Event, v': View, lone': set<Spot>) {
    && Moves(n, size, v, ev, v') && lone' == LoneAfter(lone, DeedOf(n, size, v, ev))
    && ErrorsMove(v.clients, v'.clients, DeedOf(n, size, v, ev))
  }

  // ---------- Lone bytes ----------

  ghost predicate NotCovered(writes: map<nat, Write>, lone: set<Spot>) {
    forall p :: p in lone ==> !Covered(writes, p.a)
  }

  ghost predicate Lone(h: Rwi, lone: set<Spot>)
    reads h, h.side
  {
    h.side.n > 0 && LoneOk(h.side.n, h.side.dev, h.side.fetches, h.side.clients, lone) && NotCovered(h.writes, lone)
  }

  // ---------- Events ----------

  method DoAsk(h: Rwi, rid: nat, addr: nat, len: nat, ghost lone: set<Spot>) returns (ghost lone': set<Spot>)
    requires h.Valid() && h.Coherent() && Lone(h, lone) && Enabled(h, Ask(rid, addr, len))
    modifies h.side, h.side.cache
    ensures h.Valid() && h.Coherent() && Lone(h, lone') && |h.side.dev| == |old(h.side.dev)|
    ensures Follows(h.side.n, |h.side.dev|, old(ViewOf(h)), lone, Ask(rid, addr, len), ViewOf(h), lone')
  {
    ghost var fetches, clients, tickets := h.side.fetches, h.side.clients, h.side.tickets;
    lone' := LoneAfter(lone, DeedOf(h.side.n, |h.side.dev|, ViewOf(h), Ask(rid, addr, len)));
    h.SubmitRead(rid, addr, len);
    forall p | p in lone' && p !in lone
      ensures p.rid == rid && BufferIsBelow(h.side.dev, h.side.fetches, rid, h.side.clients[rid], p.a)
    {
      var i := p.a - addr;
      assert addr + i == p.a;
    }
    LoneSubmitted(h.side.n, h.side.dev, fetches, h.side.fetches, clients, h.side.clients, tickets, h.side.tickets, h.side.done,
                  lone, lone', rid, addr, len);
  }

  method DoPut(h: Rwi, wid: nat, addr: nat, buf: seq<byte>, ghost lone: set<Spot>) returns (ghost lone': set<Spot>)
    requires h.Valid() && h.Coherent() && Lone(h, lone) && Enabled(h, Put(wid, addr, buf))
    modifies h`writes
    ensures h.Valid() && h.Coherent() && Lone(h, lone')
    ensures Follows(h.side.n, |h.side.dev|, old(ViewOf(h)), lone, Put(wid, addr, buf), ViewOf(h), lone')
  {
    ghost var writes := h.writes;
    h.SubmitWrite(wid, addr, buf);
    lone' := LoneAfter(lone, WriteAsked(addr, |buf|));
    forall p | p in lone' ensures !Covered(h.writes, p.a) {
      assert !Covered(writes, p.a);
    }
  }

  method DoSample(h: Rwi, id: nat, a: nat, ghost lone: set<Spot>)
    requires h.Valid() && h.Coherent() && Lone(h, lone) && Enabled(h, Sample(id, a))
    modifies h.side`fetches
    ensures h.Valid() && h.Coherent() && Lone(h, lone)
    ensures Follows(h.side.n, |h.side.dev|, old(ViewOf(h)), lone, Sample(id, a), ViewOf(h), lone)
  {
    LoneSampled(h.side.n, h.side.dev, h.side.fetches, h.side.clients, h.side.tickets, lone, id, a);
    h.Sample(id, a);
  }

  /** Hits and misses alike: when a read is over the client has what is below in its lone bytes. */
  method DoFetched(h: Rwi, id: nat, ok: bool, ghost lone: set<Spot>)
    requires h.Valid() && h.Coherent() && Lone(h, lone) && Enabled(h, Fetched(id, ok))
    modifies h.side`fetches, h.side`clients, h.side.cache
    ensures h.Valid() && h.Coherent() && Lone(h, lone)
    ensures Follows(h.side.n, |h.side.dev|, old(ViewOf(h)), lone, Fetched(id, ok), ViewOf(h), lone)
  {
    LoneDelivered(h.side.n, h.side.dev, h.side.fetches, h.side.clients, h.side.tickets, lone, id, ok);
    DeliveredMoves(h.side.n, h.side.fetches, h.side.clients, h.side.tickets, id, ok);
    var over := h.FetchDone(id, ok);
  }

  method DoTorn(h: Rwi, wid: nat, a: nat, v: byte, ghost lone: set<Spot>)
    requires h.Valid() && h.Coherent() && Lone(h, lone) && Enabled(h, Torn(wid, a, v))
    modifies h.side`dev
    ensures h.Valid() && h.Coherent() && Lone(h, lone) && |h.side.dev| == |old(h.side.dev)|
    ensures Follows(h.side.n, |h.side.dev|, old(ViewOf(h)), lone, Torn(wid, a, v), ViewOf(h), lone)
  {
    ghost var dev := h.side.dev;
    h.Tear(wid, a, v);
    assert Covered(h.writes, a);
    LoneChanged(h.side.n, dev, h.side.dev, h.side.fetches, h.side.clients, lone);
  }

  method DoStored(h: Rwi, wid: nat, ok: bool, ghost lone: set<Spot>)
    requires h.Valid() && h.Coherent() && Lone(h, lone) && Enabled(h, Stored(wid, ok))
    modifies h, h.side`done, h.side.cache
    ensures h.Valid() && h.Coherent() && Lone(h, lone)
    ensures Follows(h.side.n, |h.side.dev|, old(ViewOf(h)), lone, Stored(wid, ok), ViewOf(h), lone)
  {
    ghost var writes := h.writes;
    h.WriteDone(wid, ok);
    forall p | p in lone ensures !Covered(h.writes, p.a) {
      assert !Covered(writes, p.a);
    }
  }

  /** Every event that can happen, in any state that can be reached, keeps the cache coherent, and
      what clients have of lone bytes what is below; a client hears of an error exactly if a fetch
      of its failed. */
  method Do(h: Rwi, ev: Event, ghost lone: set<Spot>) returns (ghost lone': set<Spot>)
    requires h.Valid() && h.Coherent() && Lone(h, lone) && Enabled(h, ev)
    modifies h, h.side, h.side.cache
    ensures h.Valid() && h.Coherent() && Lone(h, lone') && |h.side.dev| == |old(h.side.dev)|
    ensures Follows(h.side.n, |h.side.dev|, old(ViewOf(h)), lone, ev, ViewOf(h), lone')
  {
    lone' := lone;
    match ev
    case Ask(rid, addr, len) => lone' := DoAsk(h, rid, addr, len, lone);
    case Put(wid, addr, buf) => lone' := DoPut(h, wid, addr, buf, lone);
    case Sample(id, a) => DoSample(h, id, a, lone);
    case Fetched(id, ok) => DoFetched(h, id, ok, lone);
    case Torn(wid, a, v) => DoTorn(h, wid, a, v, lone);
    case Stored(wid, ok) => DoStored(h, wid, ok, lone);
  }

  // ---------- Runs ----------

  /** What is under way from event to event, and what the events are to clients. */
  ghost predicate History(n: nat, size: nat, views: seq<View>, past: seq<Deed>, evs: seq<Event>) {
    && |past| <= |evs| && |views| == |past| + 1 && views[0] == View(map[], {}, map[], map[])
    && forall k :: 0 <= k < |past| ==> past[k] == DeedOf(n, size, views[k], evs[k]) && Moves(n, size, views[k], evs[k], views[k + 1])
  }

  lemma HistoryGoesOn(n: nat, size: nat, views: seq<View>, past: seq<Deed>, evs: seq<Event>, v: View)
    requires History(n, size, views, past, evs) && |past| < |evs| && Moves(n, size, views[|past|], evs[|past|], v)
    ensures History(n, size, views + [v], past + [DeedOf(n, size, views[|past|], evs[|past|])], evs)
  {
    var k := |past|;
    var views', past' := views + [v], past + [DeedOf(n, size, views[k], evs[k])];
    forall j | 0 <= j < |past'|
      ensures past'[j] == DeedOf(n, size, views'[j], evs[j]) && Moves(n, size, views'[j], evs[j], views'[j + 1])
    {
      assert views'[j] == views[j];
      if j < k {
        assert past'[j] == past[j] && views'[j + 1] == views[j + 1];
      }
    }
  }

  lemma NothingHappens(past: seq<Deed>, lone: set<Spot>, clients: map<nat, Client>)
    requires Told(past, lone, clients)
    ensures Told(past + [NoDeed], lone, clients)
  {
    ToldMore(past, lone, clients, NoDeed, clients);
  }

  /** Any run of a fresh handler, of those of the events that can happen when it is their turn,
      leaves the cache coherent; every byte of a read that is over, and none of whose fetches
      failed, is what is below, unless a write overlapped it; and a read has heard of an error
      exactly if a fetch of its failed. */
  method Run(chunk: nat, lenMax: nat, dev: seq<byte>, evs: seq<Event>)
    returns (h: Rwi, ghost views: seq<View>, ghost past: seq<Deed>)
    requires chunk > 0 && lenMax > 0
    ensures fresh(h) && h.Valid() && h.Coherent() && |h.side.dev| == |dev|
    ensures History(chunk, |dev|, views, past, evs) && |past| == |evs| && views[|evs|] == ViewOf(h)
    ensures GotBelow(past, h.side.dev, h.side.clients)
    ensures forall rid :: rid in h.side.clients ==> (h.side.clients[rid].err <==> SomeFailed(past, rid))
  {
    h := new Rwi(chunk, lenMax, dev);
    ghost var lone: set<Spot> := {};
    views, past := [ViewOf(h)], [];
    NothingTold();
    for i := 0 to |evs|
      invariant fresh(h) && fresh(h.side) && fresh(h.side.cache)
      invariant h.Valid() && h.Coherent() && Lone(h, lone) && h.side.n == chunk && |h.side.dev| == |dev|
      invariant History(chunk, |dev|, views, past, evs) && |past| == i && views[i] == ViewOf(h)
      invariant Told(past, lone, h.side.clients)
    {
      ghost var deed, clients := DeedOf(chunk, |dev|, views[i], evs[i]), h.side.clients;
      if Enabled(h, evs[i]) {
        ghost var were := lone;
        lone := Do(h, evs[i], lone);
        ToldMore(past, were, clients, deed, h.side.clients);
      } else {
        NothingHappens(past, lone, h.side.clients);
      }
      HistoryGoesOn(chunk, |dev|, views, past, evs, ViewOf(h));
      views, past := views + [ViewOf(h)], past + [deed];
    }
    AloneGetsBelow(chunk, past, h.side.dev, h.side.fetches, h.side.clients, h.side.tickets, lone);
  }
}
