/** A client's view of the RAID4/5 target: one flat byte array. */
module FlatArray {
  import opened Arithmetic
  import opened Bytes
  import opened StripeWriter
  import opened Engine
  import opened EngineInvariant
  import opened EngineRequests
  import opened EngineTheorems

  // ---------- What a run leaves of the past ----------

  lemma StepHistory(g: Shape, st: State, ev: Event)
    requires Shaped(g, st) && Enabled(g, st, ev) && !ev.SubmitWrite?
    ensures Apply(g, st, ev).accepted == st.accepted && LaterHistory(st, Apply(g, st, ev))
    ensures Apply(g, st, ev).online ==> st.online
    ensures Remembers(st, Apply(g, st, ev))
  {
    if ev.ChunkIo? {
      ChunkIoFrame(g, st, ev.stripe, ev.part, ev.ok);
    }
  }

  /** `st'` comes later: histories only grew, over is for good, and what was accepted since is
      not of requests that were over. */
  ghost predicate Later(st: State, st': State) {
    && LaterHistory(st, st') && Remembers(st, st') && st.accepted <= st'.accepted
    && forall i :: |st.accepted| <= i < |st'.accepted| ==> st'.accepted[i].rid !in st.closed
  }

  /** Every chunk ever accepted is of a request that is open or over. */
  ghost predicate Owned(st: State) {
    forall ch :: ch in st.accepted ==> ch.rid in st.requests || ch.rid in st.closed
  }

  lemma LaterTransitive(a: State, b: State, c: State)
    requires Later(a, b) && Later(b, c)
    ensures Later(a, c)
  {
    forall s | 0 <= s < |a.stripes| ensures a.stripes[s].log <= c.stripes[s].log {
      assert a.stripes[s].log <= b.stripes[s].log <= c.stripes[s].log;
    }
    forall i | |a.accepted| <= i < |c.accepted| ensures c.accepted[i].rid !in a.closed {
      if i < |b.accepted| {
        assert c.accepted[i] == b.accepted[i];
      }
    }
  }

  /** The chunks an event has accepted. */
  ghost function NewChunks(g: Shape, st: State, ev: Event): seq<Chunk>
    requires g.Valid()
  {
    if ev.SubmitWrite? && st.online then Split(g.DataSize(), ev.rid, ev.addr, ev.buf) else []
  }

  /** The chunks of all writes a run accepted, up to event `n`. */
  ghost function Submitted(g: Shape, states: seq<State>, evs: seq<Event>, n: nat): seq<Chunk>
    requires g.Valid() && n <= |evs| <= |states|
  {
    if n == 0 then [] else Submitted(g, states, evs, n - 1) + NewChunks(g, states[n - 1], evs[n - 1])
  }

  lemma SubmitHistory(g: Shape, st: State, ev: Event)
    requires Shaped(g, st) && Enabled(g, st, ev)
    ensures Apply(g, st, ev).accepted == st.accepted + NewChunks(g, st, ev)
    ensures LaterHistory(st, Apply(g, st, ev)) && Remembers(st, Apply(g, st, ev))
    ensures ev.SubmitWrite? && st.online ==> ev.rid in Apply(g, st, ev).requests
  {
    if ev.SubmitWrite? {
      SubmitFrame(g, st, ev.rid, ev.addr, ev.buf);
    } else {
      StepHistory(g, st, ev);
    }
  }

  lemma StepSubmits(g: Shape, st: State, ev: Event, st': State)
    requires AllInv(g, st) && Step(g, st, ev, st')
    ensures st'.accepted == st.accepted + NewChunks(g, st, ev) && Later(st, st') && (Owned(st) ==> Owned(st'))
  {
    InvariantShapes(g, st);
    SubmitHistory(g, st, ev);
    NewChunksAreOwn(g, st, ev);
    forall i | |st.accepted| <= i < |st'.accepted| ensures st'.accepted[i].rid !in st.closed {
      assert st'.accepted[i] in NewChunks(g, st, ev);
    }
  }

  lemma NewChunksAreOwn(g: Shape, st: State, ev: Event)
    requires g.Valid() && Enabled(g, st, ev)
    ensures forall ch :: ch in NewChunks(g, st, ev) ==> ev.SubmitWrite? && ch.rid == ev.rid
  {
    if ev.SubmitWrite? {
      SplitIsWellSplit(g, ev.rid, ev.addr, ev.buf, |st.stripes|);
    }
  }

  lemma RunInvariant(g: Shape, states: seq<State>, evs: seq<Event>, n: nat)
    requires Run(g, states, evs) && Initial(g, states[0]) && n <= |evs|
    ensures AllInv(g, states[n])
  {
    InitialInvariant(g, states[0]);
    RunKeepsInvariant(g, states, evs, n);
  }

  lemma RunStep(g: Shape, states: seq<State>, evs: seq<Event>, n: nat)
    requires Run(g, states, evs) && Initial(g, states[0]) && n < |evs|
    ensures states[n + 1].accepted == states[n].accepted + NewChunks(g, states[n], evs[n])
    ensures Later(states[n], states[n + 1]) && (Owned(states[n]) ==> Owned(states[n + 1]))
  {
    RunInvariant(g, states, evs, n);
    assert Step(g, states[n], evs[n], states[n + 1]);
    StepSubmits(g, states[n], evs[n], states[n + 1]);
  }

  lemma {:induction false} RunAccepts(g: Shape, states: seq<State>, evs: seq<Event>, n: nat)
    requires Run(g, states, evs) && Initial(g, states[0]) && n <= |evs|
    ensures Owned(states[n]) && states[n].accepted == Submitted(g, states, evs, n)
  {
    if n > 0 {
      RunAccepts(g, states, evs, n - 1);
      RunStep(g, states, evs, n - 1);
    }
  }

  lemma RunHistory(g: Shape, states: seq<State>, evs: seq<Event>, n: nat)
    requires Run(g, states, evs) && Initial(g, states[0]) && n <= |evs|
    ensures AllInv(g, states[n]) && Owned(states[n]) && states[n].accepted == Submitted(g, states, evs, n)
  {
    RunInvariant(g, states, evs, n);
    RunAccepts(g, states, evs, n);
  }

  lemma {:induction false} RunIsLater(g: Shape, states: seq<State>, evs: seq<Event>, m: nat, n: nat)
    requires Run(g, states, evs) && Initial(g, states[0]) && m <= n <= |evs|
    ensures Later(states[m], states[n])
    decreases n
  {
    if m < n {
      RunIsLater(g, states, evs, m, n - 1);
      RunStep(g, states, evs, n - 1);
      LaterTransitive(states[m], states[n - 1], states[n]);
    }
  }

  // ---------- Where the bytes of a split request go ----------

  lemma {:induction false} SplitCovers(g: Shape, rid: nat, addr: nat, buf: seq<byte>, a: nat) returns (ch: Chunk)
    requires g.Valid() && addr <= a < addr + |buf|
    ensures ch in Split(g.DataSize(), rid, addr, buf) && ch.stripe == StripeOf(g, a)
    ensures Covers(ch, Inside(g, a)) && ch.buf[Inside(g, a) - ch.off] == buf[a - addr]
    decreases |buf|
  {
    var size := g.DataSize();
    var off := Wrap(addr, size);
    var len := if |buf| < size - off then |buf| else size - off;
    var first := Chunk(rid, Quot(addr, size), off, buf[..len]);
    var rest := Split(size, rid, addr + len, buf[len..]);
    assert Split(size, rid, addr, buf) == [first] + rest;
    if a < addr + len {
      SameQuot(addr, a - addr, size);
      ch := first;
      assert Inside(g, a) - off == a - addr;
    } else {
      ch := SplitCovers(g, rid, addr + len, buf[len..], a);
    }
    InEither(ch, [first], rest);
  }

  lemma InEither(ch: Chunk, l: seq<Chunk>, r: seq<Chunk>)
    requires ch in l || ch in r
    ensures ch in l + r
  {
  }

  lemma {:induction false} SplitCoversOnly(g: Shape, rid: nat, addr: nat, buf: seq<byte>, ch: Chunk, a: nat)
    requires g.Valid() && ch in Split(g.DataSize(), rid, addr, buf)
    requires ch.stripe == StripeOf(g, a) && Covers(ch, Inside(g, a))
    ensures addr <= a < addr + |buf|
    decreases |buf|
  {
    var size := g.DataSize();
    var off := Wrap(addr, size);
    var len := if |buf| < size - off then |buf| else size - off;
    var first := Chunk(rid, Quot(addr, size), off, buf[..len]);
    if ch == first {
      QuotWrap(a, size);
      QuotWrap(addr, size);
    } else {
      SplitCoversOnly(g, rid, addr + len, buf[len..], ch, a);
    }
  }

  lemma OneChunkPerStripe(cs: seq<Chunk>, a: Chunk, b: Chunk)
    requires forall i, j :: 0 <= i < j < |cs| ==> cs[i].stripe < cs[j].stripe
    requires a in cs && b in cs && a.stripe == b.stripe
    ensures a == b && multiset(cs)[a] == 1
  {
    var j :| 0 <= j < |cs| && cs[j] == a;
    assert cs == cs[..j] + [a] + cs[j + 1..];
    assert a !in cs[..j] && a !in cs[j + 1..];
  }

  /** A chunk of a split request carries the request's bytes. */
  lemma ChunkCarries(g: Shape, rid: nat, addr: nat, buf: seq<byte>, m: nat, ch: Chunk, a: nat)
    requires g.Valid() && WellSplit(g, rid, m, Split(g.DataSize(), rid, addr, buf)) && ch in Split(g.DataSize(), rid, addr, buf)
    requires ch.stripe == StripeOf(g, a) && Covers(ch, Inside(g, a))
    ensures addr <= a < addr + |buf| && ch.buf[Inside(g, a) - ch.off] == buf[a - addr]
  {
    SplitCoversOnly(g, rid, addr, buf, ch, a);
    var ch' := SplitCovers(g, rid, addr, buf, a);
    OneChunkPerStripe(Split(g.DataSize(), rid, addr, buf), ch, ch');
  }

  lemma SomeWellSplit(g: Shape, rid: nat, addr: nat, buf: seq<byte>) returns (m: nat)
    requires g.Valid()
    ensures WellSplit(g, rid, m, Split(g.DataSize(), rid, addr, buf))
  {
    m := addr + |buf|;
    MulMonotone(1, g.DataSize(), m);
    assert m <= m * g.DataSize();
    SplitIsWellSplit(g, rid, addr, buf, m);
  }

  lemma ChunkIsOf(g: Shape, rid: nat, addr: nat, buf: seq<byte>, ch: Chunk, a: nat)
    requires g.Valid() && ch in Split(g.DataSize(), rid, addr, buf)
    requires ch.stripe == StripeOf(g, a) && Covers(ch, Inside(g, a))
    ensures ch.rid == rid && addr <= a < addr + |buf| && ch.buf[Inside(g, a) - ch.off] == buf[a - addr]
  {
    var m := SomeWellSplit(g, rid, addr, buf);
    ChunkCarries(g, rid, addr, buf, m, ch, a);
  }

  // ---------- Serving exactly the accepted chunks ----------

  /** The log entries of a stripe since an earlier state. */
  function Since(st: State, st': State, s: nat): seq<Served>
    requires s < |st.stripes| && s < |st'.stripes| && |st.stripes[s].log| <= |st'.stripes[s].log|
  {
    st'.stripes[s].log[|st.stripes[s].log|..]
  }

  /** How often a chunk was served, if its request is over: as often as it was accepted. */
  lemma OverIsServed(g: Shape, st: State, ch: Chunk)
    requires AllInv(g, st) && ch.stripe < |st.stripes| && ch.rid in st.closed
    ensures multiset(st.accepted)[ch] == multiset(Chunks(st.stripes[ch.stripe].log))[ch]
  {
    assert multiset(st.accepted)[ch] == Tally(st, ch);
    assert forall j :: 0 <= j < |st.pending| ==> st.pending[j].rid in st.requests;
    assert ch !in st.pending;
  }

  /** A chunk that was not accepted yet was not served yet. */
  lemma NewIsNotServed(g: Shape, st: State, ch: Chunk)
    requires AllInv(g, st) && ch.stripe < |st.stripes| && ch !in st.accepted
    ensures multiset(Chunks(st.stripes[ch.stripe].log))[ch] == 0
  {
    assert multiset(st.accepted)[ch] == Tally(st, ch);
  }

  /** Of the entries `d` number `e - 1` is the last to cover byte `i`; none does if `e` is 0. */
  ghost predicate LastCovers(d: seq<Served>, i: nat, e: nat) {
    && e <= |d| && (e > 0 ==> Covers(d[e - 1].chunk, i))
    && forall q :: e <= q < |d| ==> !Covers(d[q].chunk, i)
  }

  /** What the entries `d` make of byte `i`: nothing if none covers it, else what the last one
      to cover it says. */
  lemma {:induction false} LastOne(init: seq<byte>, log: seq<Served>, d: seq<Served>, i: nat) returns (e: nat)
    requires i < |init| && forall x :: x in log + d ==> x.chunk.off + |x.chunk.buf| <= |init|
    ensures forall x :: x in log ==> x.chunk.off + |x.chunk.buf| <= |init|
    ensures LastCovers(d, i, e)
    ensures Replay(init, log + d)[i] == if e == 0 then Replay(init, log)[i] else d[e - 1].chunk.buf[i - d[e - 1].chunk.off]
    decreases |d|
  {
    assert forall x :: x in log ==> x in log + d;
    if d == [] {
      assert log + d == log;
      e := 0;
    } else {
      var rest, x := d[..|d| - 1], d[|d| - 1];
      assert log + d == (log + rest) + [x];
      if Covers(x.chunk, i) {
        e := |d|;
        LogHits(init, log + d, i);
        assert (log + d)[|log + d| - 1] == x;
      } else {
        assert x in log + d && forall y :: y in log + rest ==> y in log + d;
        LogMisses(init, log + rest, x, i);
        e := LastOne(init, log, rest, i);
        assert LastCovers(rest, i, e) && forall q :: 0 <= q < |rest| ==> rest[q] == d[q];
      }
    }
  }

  lemma LogHits(init: seq<byte>, log: seq<Served>, i: nat)
    requires (forall d :: d in log ==> d.chunk.off + |d.chunk.buf| <= |init|) && log != []
    requires Covers(log[|log| - 1].chunk, i)
    ensures i < |init| && Replay(init, log)[i] == log[|log| - 1].chunk.buf[i - log[|log| - 1].chunk.off]
  {
    assert log[|log| - 1] in log;
  }

  // ---------- Client writes ----------

  /** Event `k` is a client write that was accepted and covers address `a`. */
  ghost predicate Writes(states: seq<State>, evs: seq<Event>, k: nat, a: nat) {
    k < |evs| <= |states| && evs[k].SubmitWrite? && states[k].online && evs[k].addr <= a < evs[k].addr + |evs[k].buf|
  }

  /** Writes stay inside the array. */
  ghost predicate InBounds(g: Shape, states: seq<State>, evs: seq<Event>) {
    && g.Valid() && |evs| <= |states|
    && forall k :: 0 <= k < |evs| && evs[k].SubmitWrite? ==>
         evs[k].addr + |evs[k].buf| <= |states[k].stripes| * g.DataSize()
  }

  lemma RunIsInBounds(g: Shape, states: seq<State>, evs: seq<Event>)
    requires Run(g, states, evs) && g.Valid()
    ensures InBounds(g, states, evs)
  {
    forall k | 0 <= k < |evs| && evs[k].SubmitWrite?
      ensures evs[k].addr + |evs[k].buf| <= |states[k].stripes| * g.DataSize()
    {
      assert Step(g, states[k], evs[k], states[k + 1]);
    }
  }

  lemma LastSubmits(g: Shape, states: seq<State>, evs: seq<Event>, n: nat, ch: Chunk)
    requires g.Valid() && 0 < n <= |evs| <= |states|
    requires ch in Submitted(g, states, evs, n) && ch !in Submitted(g, states, evs, n - 1)
    ensures evs[n - 1].SubmitWrite? && states[n - 1].online && ch in NewChunks(g, states[n - 1], evs[n - 1])
  {
  }

  /** Each submitted chunk is of some write. */
  lemma {:induction false} SubmitterOf(g: Shape, states: seq<State>, evs: seq<Event>, n: nat, ch: Chunk) returns (k: nat)
    requires g.Valid() && n <= |evs| <= |states| && ch in Submitted(g, states, evs, n)
    ensures k < n && evs[k].SubmitWrite? && states[k].online && ch in NewChunks(g, states[k], evs[k])
  {
    k := n - 1;
    if ch in Submitted(g, states, evs, k) {
      k := SubmitterOf(g, states, evs, k, ch);
    } else {
      LastSubmits(g, states, evs, n, ch);
    }
  }

  /** A submitted chunk that covers an address is of a write that covers it. */
  lemma SubmittedBy(g: Shape, states: seq<State>, evs: seq<Event>, n: nat, ch: Chunk, a: nat) returns (k: nat)
    requires g.Valid() && n <= |evs| <= |states| && ch in Submitted(g, states, evs, n)
    requires ch.stripe == StripeOf(g, a) && Covers(ch, Inside(g, a))
    ensures k < n && Writes(states, evs, k, a) && IsOf(g, ch, evs[k], a)
  {
    k := SubmitterOf(g, states, evs, n, ch);
    NewIsOf(g, states[k], evs[k], ch, a);
  }

  /** At address `a` the chunk has the write's byte. */
  ghost predicate IsOf(g: Shape, ch: Chunk, ev: Event, a: nat)
    requires g.Valid() && Covers(ch, Inside(g, a))
  {
    && ev.SubmitWrite? && ch.rid == ev.rid && ev.addr <= a < ev.addr + |ev.buf|
    && ch.buf[Inside(g, a) - ch.off] == ev.buf[a - ev.addr]
  }

  lemma NewIsOf(g: Shape, st: State, ev: Event, ch: Chunk, a: nat)
    requires g.Valid() && ev.SubmitWrite? && st.online
    requires ch in NewChunks(g, st, ev) && ch.stripe == StripeOf(g, a) && Covers(ch, Inside(g, a))
    ensures IsOf(g, ch, ev, a)
  {
    ChunkIsOf(g, ev.rid, ev.addr, ev.buf, ch, a);
  }

  /** A write that covers an address submits a chunk that does. */
  lemma {:induction false} SubmitsChunk(g: Shape, states: seq<State>, evs: seq<Event>, n: nat, k: nat, a: nat) returns (ch: Chunk)
    requires InBounds(g, states, evs) && n <= |evs| && k < n && Writes(states, evs, k, a)
    ensures ch in Submitted(g, states, evs, n) && ch.stripe == StripeOf(g, a) && Covers(ch, Inside(g, a)) && ch.rid == evs[k].rid
    decreases n
  {
    var before := Submitted(g, states, evs, n - 1);
    if k == n - 1 {
      ch := SplitCovers(g, evs[k].rid, evs[k].addr, evs[k].buf, a);
      SplitIsWellSplit(g, evs[k].rid, evs[k].addr, evs[k].buf, |states[k].stripes|);
      InEither(ch, before, NewChunks(g, states[k], evs[k]));
    } else {
      ch := SubmitsChunk(g, states, evs, n - 1, k, a);
      InEither(ch, before, NewChunks(g, states[n - 1], evs[n - 1]));
    }
  }

  /** The last entry a stripe has served, since an earlier state, of those that cover an address. */
  lemma LastServed(g: Shape, st: State, st': State, a: nat) returns (e: nat)
    requires Sound(g, st) && Sound(g, st') && LaterHistory(st, st') && StripeOf(g, a) < |st.stripes|
    ensures var d := Since(st, st', StripeOf(g, a));
      && LastCovers(d, Inside(g, a), e)
      && FlatByte(g, st', a) == if e == 0 then FlatByte(g, st, a) else d[e - 1].chunk.buf[Inside(g, a) - d[e - 1].chunk.off]
  {
    var s := StripeOf(g, a);
    var d := Since(st, st', s);
    assert st'.stripes[s].log == st.stripes[s].log + d;
    e := LastOne(st.stripes[s].init, st.stripes[s].log, d, Inside(g, a));
  }

  // ---------- Which requests the entries are of ----------

  lemma CountOfLater(log: seq<Served>, log': seq<Served>, ch: Chunk)
    requires log <= log'
    ensures multiset(Chunks(log'))[ch] == multiset(Chunks(log))[ch] + multiset(Chunks(log'[|log|..]))[ch]
  {
    assert Chunks(log') == Chunks(log) + Chunks(log'[|log|..]);
  }

  lemma AcceptedNoMore(st: State, st': State, ch: Chunk)
    requires Later(st, st') && ch.rid in st.closed
    ensures multiset(st'.accepted)[ch] == multiset(st.accepted)[ch]
  {
    assert st'.accepted == st.accepted + st'.accepted[|st.accepted|..];
    assert ch !in st'.accepted[|st.accepted|..];
  }

  /** What a stripe served since an earlier state is of requests that were not over then. */
  lemma SinceIsOpen(g: Shape, st: State, st': State, s: nat, p: nat)
    requires AllInv(g, st) && AllInv(g, st') && Later(st, st') && s < |st.stripes| && p < |Since(st, st', s)|
    ensures var ch := Since(st, st', s)[p].chunk; ch.stripe == s && ch in st'.accepted && ch.rid !in st.closed
  {
    var d := Since(st, st', s);
    var ch := d[p].chunk;
    assert d[p] == st'.stripes[s].log[|st.stripes[s].log| + p];
    CountOfLater(st.stripes[s].log, st'.stripes[s].log, ch);
    assert Chunks(d)[p] == ch;
    assert multiset(st'.accepted)[ch] == Tally(st', ch);
    if ch.rid in st.closed {
      AcceptedNoMore(st, st', ch);
      OverIsServed(g, st, ch);
      OverIsServed(g, st', ch);
    }
  }

  /** A chunk accepted since, of a request that is over by now, was served since. */
  lemma FinishedIsSince(g: Shape, st: State, st': State, ch: Chunk) returns (p: nat)
    requires AllInv(g, st) && AllInv(g, st') && Later(st, st') && ch.stripe < |st.stripes|
    requires ch !in st.accepted && ch in st'.accepted && ch.rid in st'.closed
    ensures p < |Since(st, st', ch.stripe)| && Since(st, st', ch.stripe)[p].chunk == ch
  {
    var d := Since(st, st', ch.stripe);
    CountOfLater(st.stripes[ch.stripe].log, st'.stripes[ch.stripe].log, ch);
    NewIsNotServed(g, st, ch);
    OverIsServed(g, st', ch);
    assert ch in Chunks(d);
    p :| 0 <= p < |Chunks(d)| && Chunks(d)[p] == ch;
  }

  // ---------- The flat array, in every state of every run ----------

  /** Write `j` is over before write `k` is submitted. */
  ghost predicate Precedes(states: seq<State>, evs: seq<Event>, j: nat, k: nat)
    requires j < |evs| && k < |evs| <= |states| && evs[j].SubmitWrite?
  {
    evs[j].rid in states[k].closed
  }

  /** Once a chunk that was new at `st` is over, the last entry that covers a byte of it is of a write
      that was not over at `st`. */
  lemma LastIsSince(g: Shape, st: State, st': State, ch: Chunk, i: nat, e: nat)
    requires AllInv(g, st) && AllInv(g, st') && Later(st, st') && ch.stripe < |st.stripes| && Covers(ch, i)
    requires ch !in st.accepted && ch in st'.accepted && ch.rid in st'.closed
    requires LastCovers(st'.stripes[ch.stripe].log, i, e)
    ensures e > 0 && st'.stripes[ch.stripe].log[e - 1].chunk.rid !in st.closed
  {
    var p := FinishedIsSince(g, st, st', ch);
    var was, q := |st.stripes[ch.stripe].log|, e - 1;
    assert st'.stripes[ch.stripe].log[was + p].chunk == ch;
    assert st'.stripes[ch.stripe].log[q] == Since(st, st', ch.stripe)[q - was];
    SinceIsOpen(g, st, st', ch.stripe, q - was);
  }

  /** The last entry that covers an address is of no write that was over when a write now over
      was submitted. */
  lemma NotSuperseded(g: Shape, states: seq<State>, evs: seq<Event>, n: nat, j: nat, a: nat, e: nat)
    requires Run(g, states, evs) && Initial(g, states[0]) && n <= |evs| && StripeOf(g, a) < |states[n].stripes|
    requires j < n && Writes(states, evs, j, a) && evs[j].rid in states[n].closed
    requires LastCovers(states[n].stripes[StripeOf(g, a)].log, Inside(g, a), e)
    ensures e > 0 && states[n].stripes[StripeOf(g, a)].log[e - 1].chunk.rid !in states[j].closed
  {
    var s := StripeOf(g, a);
    RunHistory(g, states, evs, j);
    RunHistory(g, states, evs, n);
    RunIsLater(g, states, evs, j, n);
    RunIsInBounds(g, states, evs);
    assert Step(g, states[j], evs[j], states[j + 1]);
    var ch := SubmitsChunk(g, states, evs, n, j, a);
    LastIsSince(g, states[j], states[n], ch, Inside(g, a), e);
  }

  /** Every entry is of a chunk submitted in the run. */
  lemma EntryIsSubmitted(g: Shape, states: seq<State>, evs: seq<Event>, n: nat, s: nat, e: nat)
    requires Run(g, states, evs) && Initial(g, states[0]) && n <= |evs|
    requires s < |states[n].stripes| && e < |states[n].stripes[s].log|
    ensures g.Valid() && states[n].stripes[s].log[e].chunk.stripe == s && states[n].stripes[s].log[e].chunk in Submitted(g, states, evs, n)
  {
    RunHistory(g, states, evs, n);
    EntryIsAccepted(g, states[n], s, e);
  }

  lemma EntryIsAccepted(g: Shape, st: State, s: nat, e: nat)
    requires AllInv(g, st) && s < |st.stripes| && e < |st.stripes[s].log|
    ensures st.stripes[s].log[e].chunk.stripe == s && st.stripes[s].log[e].chunk in st.accepted
  {
    var ch := st.stripes[s].log[e].chunk;
    assert Chunks(st.stripes[s].log)[e] == ch;
    assert multiset(st.accepted)[ch] == Tally(st, ch);
  }

  /** An entry that covers an address is of a write that does. */
  lemma EntryIsOf(g: Shape, states: seq<State>, evs: seq<Event>, n: nat, a: nat, e: nat) returns (k: nat)
    requires Run(g, states, evs) && Initial(g, states[0]) && n <= |evs| && StripeOf(g, a) < |states[n].stripes|
    requires e < |states[n].stripes[StripeOf(g, a)].log| && Covers(states[n].stripes[StripeOf(g, a)].log[e].chunk, Inside(g, a))
    ensures var ch := states[n].stripes[StripeOf(g, a)].log[e].chunk;
      && k < n && Writes(states, evs, k, a) && evs[k].rid == ch.rid
      && ch.buf[Inside(g, a) - ch.off] == evs[k].buf[a - evs[k].addr]
  {
    var s := StripeOf(g, a);
    EntryIsSubmitted(g, states, evs, n, s, e);
    k := SubmittedBy(g, states, evs, n, states[n].stripes[s].log[e].chunk, a);
  }

  /** What the disks hold of address `a` at first. */
  ghost function FirstByte(g: Shape, st: State, a: nat): byte
    requires Initial(g, st) && StripeOf(g, a) < |st.stripes|
  {
    st.stripes[StripeOf(g, a)].data[Inside(g, a)]
  }

  lemma FlatAtFirst(g: Shape, st: State, a: nat)
    requires Initial(g, st) && StripeOf(g, a) < |st.stripes|
    ensures Sound(g, st) && FlatByte(g, st, a) == FirstByte(g, st, a)
  {
    InitialInvariant(g, st);
  }

  /** What is needed to speak of the flat array. */
  lemma RunIsSound(g: Shape, states: seq<State>, evs: seq<Event>, m: nat, n: nat)
    requires Run(g, states, evs) && Initial(g, states[0]) && m <= n <= |evs|
    ensures Sound(g, states[n]) && LaterHistory(states[m], states[n])
  {
    RunHistory(g, states, evs, n);
    RunIsLater(g, states, evs, m, n);
  }

  /** The last entry that covers an address. */
  lemma LastEntry(g: Shape, first: State, st: State, a: nat) returns (e: nat)
    requires Initial(g, first) && Sound(g, st) && LaterHistory(first, st) && StripeOf(g, a) < |st.stripes|
    ensures var log := st.stripes[StripeOf(g, a)].log;
      && LastCovers(log, Inside(g, a), e)
      && FlatByte(g, st, a) == if e == 0 then FirstByte(g, first, a) else log[e - 1].chunk.buf[Inside(g, a) - log[e - 1].chunk.off]
  {
    FlatAtFirst(g, first, a);
    e := LastServed(g, first, st, a);
    assert Since(first, st, StripeOf(g, a)) == st.stripes[StripeOf(g, a)].log;
  }

  /** In every state of every run a byte of the flat array is what the last write served says,
      and that write was not over when any write of the byte that is over now was submitted;
      before that it is as it was at first, and no write of it is over. */
  lemma LastWrite(g: Shape, states: seq<State>, evs: seq<Event>, n: nat, a: nat) returns (written: bool, k: nat)
    requires Run(g, states, evs) && Initial(g, states[0]) && n <= |evs| && StripeOf(g, a) < |states[0].stripes|
    ensures Sound(g, states[n]) && |states[n].stripes| == |states[0].stripes|
    ensures written ==> k < n && Writes(states, evs, k, a) && FlatByte(g, states[n], a) == evs[k].buf[a - evs[k].addr]
    ensures written ==> forall j: nat :: j < n && Writes(states, evs, j, a) && evs[j].rid in states[n].closed ==>
      !Precedes(states, evs, k, j)
    ensures !written ==> FlatByte(g, states[n], a) == FirstByte(g, states[0], a)
    ensures !written ==> forall j: nat :: j < n && Writes(states, evs, j, a) ==> evs[j].rid !in states[n].closed
  {
    RunIsSound(g, states, evs, 0, n);
    var e := LastEntry(g, states[0], states[n], a);
    written, k := e > 0, 0;
    if written {
      k := EntryIsOf(g, states, evs, n, a, e - 1);
      forall j: nat | j < n && Writes(states, evs, j, a) && evs[j].rid in states[n].closed ensures !Precedes(states, evs, k, j) {
        NotSuperseded(g, states, evs, n, j, a, e);
      }
    } else {
      forall j: nat | j < n && Writes(states, evs, j, a) ensures evs[j].rid !in states[n].closed {
        if evs[j].rid in states[n].closed {
          NotSuperseded(g, states, evs, n, j, a, e);
        }
      }
    }
  }

  /** The target is one flat byte array under any number of client writes, overlapping or not,
      submitted at any time and carried out in whatever order the backend and the stripe locks
      like.  A write that is over is there to stay: the byte is what a write says that was not
      over yet when that one was submitted.  And a byte changes only by writes that are not
      over yet. */
  lemma WritesOverlayFlatArray(g: Shape, states: seq<State>, evs: seq<Event>, m: nat, n: nat, a: nat)
    requires Run(g, states, evs) && Initial(g, states[0]) && m <= n <= |evs| && StripeOf(g, a) < |states[0].stripes|
    ensures Sound(g, states[m]) && Sound(g, states[n]) && |states[m].stripes| == |states[n].stripes| == |states[0].stripes|
    ensures forall j: nat :: j < n && Writes(states, evs, j, a) && evs[j].rid in states[n].closed ==>
      exists k: nat :: k < n && Writes(states, evs, k, a) && !Precedes(states, evs, k, j)
                       && FlatByte(g, states[n], a) == evs[k].buf[a - evs[k].addr]
    ensures (forall k: nat :: k < n && Writes(states, evs, k, a) ==> evs[k].rid in states[m].closed) ==>
      FlatByte(g, states[n], a) == FlatByte(g, states[m], a)
  {
    RunIsSound(g, states, evs, 0, m);
    var written, k := LastWrite(g, states, evs, n, a);
    if forall k: nat :: k < n && Writes(states, evs, k, a) ==> evs[k].rid in states[m].closed {
      UnchangedIfOver(g, states, evs, m, n, a);
    }
  }

  lemma UnchangedIfOver(g: Shape, states: seq<State>, evs: seq<Event>, m: nat, n: nat, a: nat)
    requires Run(g, states, evs) && Initial(g, states[0]) && m <= n <= |evs| && StripeOf(g, a) < |states[m].stripes|
    requires forall k: nat :: k < n && Writes(states, evs, k, a) ==> evs[k].rid in states[m].closed
    ensures Sound(g, states[m]) && Sound(g, states[n]) && |states[n].stripes| == |states[m].stripes|
    ensures FlatByte(g, states[n], a) == FlatByte(g, states[m], a)
  {
    RunHistory(g, states, evs, m);
    RunHistory(g, states, evs, n);
    RunIsLater(g, states, evs, m, n);
    var e := LastServed(g, states[m], states[n], a);
    if e > 0 {
      var ch := LastIsOpen(g, states[m], states[n], a, e);
      var k := SubmittedBy(g, states, evs, n, ch, a);
    }
  }

  /** The chunk a byte changed with since `st` is of a write that was not over then. */
  lemma LastIsOpen(g: Shape, st: State, st': State, a: nat, e: nat) returns (ch: Chunk)
    requires AllInv(g, st) && AllInv(g, st') && Later(st, st') && StripeOf(g, a) < |st.stripes|
    requires e > 0 && LastCovers(Since(st, st', StripeOf(g, a)), Inside(g, a), e)
    ensures ch.stripe == StripeOf(g, a) && Covers(ch, Inside(g, a)) && ch in st'.accepted && ch.rid !in st.closed
  {
    var p := e - 1;
    ch := Since(st, st', StripeOf(g, a))[p].chunk;
    assert Covers(ch, Inside(g, a));
    SinceIsOpen(g, st, st', StripeOf(g, a), p);
  }

  // ---------- Between two quiet states ----------

  lemma ServedSince(g: Shape, st: State, st': State, cs: seq<Chunk>, s: nat, ch: Chunk)
    requires AllInv(g, st) && Quiet(st) && AllInv(g, st') && Quiet(st')
    requires LaterHistory(st, st') && st'.accepted == st.accepted + cs && s < |st.stripes| && ch.stripe == s
    ensures multiset(cs)[ch] == multiset(Chunks(Since(st, st', s)))[ch]
  {
    QuietServedOnce(g, st, ch);
    QuietServedOnce(g, st', ch);
    ServedDifference(st, st', cs, s, ch);
  }

  lemma ServedDifference(st: State, st': State, cs: seq<Chunk>, s: nat, ch: Chunk)
    requires st'.accepted == st.accepted + cs && s < |st.stripes| && s < |st'.stripes|
    requires st.stripes[s].log <= st'.stripes[s].log
    requires multiset(st.accepted)[ch] == multiset(Chunks(st.stripes[s].log))[ch]
    requires multiset(st'.accepted)[ch] == multiset(Chunks(st'.stripes[s].log))[ch]
    ensures multiset(cs)[ch] == multiset(Chunks(Since(st, st', s)))[ch]
  {
    assert Chunks(st'.stripes[s].log) == Chunks(st.stripes[s].log) + Chunks(Since(st, st', s));
  }

  /** The entries `d` of stripe `s` are of exactly those of the chunks `cs` that are for it. */
  ghost predicate ServesExactly(d: seq<Served>, cs: seq<Chunk>, s: nat) {
    && (forall j :: 0 <= j < |d| ==> d[j].chunk.stripe == s && d[j].chunk in cs)
    && (forall ch :: ch in cs && ch.stripe == s ==> exists j :: 0 <= j < |d| && d[j].chunk == ch)
  }

  lemma IsAmongChunks(d: seq<Served>, ch: Chunk)
    ensures multiset(Chunks(d))[ch] > 0 <==> exists j :: 0 <= j < |d| && d[j].chunk == ch
  {
    if multiset(Chunks(d))[ch] > 0 {
      var j :| 0 <= j < |Chunks(d)| && Chunks(d)[j] == ch;
      assert d[j].chunk == ch;
    }
    if j :| 0 <= j < |d| && d[j].chunk == ch {
      assert Chunks(d)[j] == ch;
    }
  }

  /** Between two quiet states a stripe served exactly what was accepted for it. */
  lemma QuietServesExactly(g: Shape, st: State, st': State, cs: seq<Chunk>, s: nat)
    requires AllInv(g, st) && Quiet(st) && AllInv(g, st') && Quiet(st')
    requires LaterHistory(st, st') && st'.accepted == st.accepted + cs && s < |st.stripes|
    ensures ServesExactly(Since(st, st', s), cs, s)
  {
    var d := Since(st, st', s);
    forall j | 0 <= j < |d| ensures d[j].chunk.stripe == s && d[j].chunk in cs {
      assert d[j] == st'.stripes[s].log[|st.stripes[s].log| + j];
      IsAmongChunks(d, d[j].chunk);
      ServedSince(g, st, st', cs, s, d[j].chunk);
    }
    forall ch | ch in cs && ch.stripe == s ensures exists j :: 0 <= j < |d| && d[j].chunk == ch {
      ServedSince(g, st, st', cs, s, ch);
      IsAmongChunks(d, ch);
    }
  }

  // ---------- Bytes that are known ----------

  lemma {:induction false} KnownIfAllOk(log: seq<Served>, i: nat)
    requires forall j :: 0 <= j < |log| && Covers(log[j].chunk, i) ==> log[j].ok
    ensures Known(log, i)
  {
    if log != [] {
      KnownIfAllOk(log[..|log| - 1], i);
    }
  }

  /** As long as no backend I/O failed for any write of a byte, the byte is known. */
  lemma UnfailedIsKnown(g: Shape, states: seq<State>, evs: seq<Event>, n: nat, a: nat)
    requires Run(g, states, evs) && Initial(g, states[0]) && n <= |evs| && StripeOf(g, a) < |states[n].stripes|
    requires forall k: nat :: k < n && Writes(states, evs, k, a) ==> evs[k].rid !in states[n].failures
    ensures FlatKnown(g, states[n], a)
  {
    var s := StripeOf(g, a);
    var log := states[n].stripes[s].log;
    forall j | 0 <= j < |log| && Covers(log[j].chunk, Inside(g, a)) ensures log[j].ok {
      EntryIsOk(g, states, evs, n, a, j);
    }
    KnownIfAllOk(log, Inside(g, a));
  }

  lemma EntryIsOk(g: Shape, states: seq<State>, evs: seq<Event>, n: nat, a: nat, j: nat)
    requires Run(g, states, evs) && Initial(g, states[0]) && n <= |evs| && StripeOf(g, a) < |states[n].stripes|
    requires forall k: nat :: k < n && Writes(states, evs, k, a) ==> evs[k].rid !in states[n].failures
    requires j < |states[n].stripes[StripeOf(g, a)].log| && Covers(states[n].stripes[StripeOf(g, a)].log[j].chunk, Inside(g, a))
    ensures states[n].stripes[StripeOf(g, a)].log[j].ok
  {
    var k := EntryIsOf(g, states, evs, n, a, j);
    RunHistory(g, states, evs, n);
    OkUnlessFailed(states[n], StripeOf(g, a), j);
  }

  lemma OkUnlessFailed(st: State, s: nat, j: nat)
    requires LogsOk(st) && FailuresOk(st) && s < |st.stripes| && j < |st.stripes[s].log|
    requires st.stripes[s].log[j].chunk.rid !in st.failures
    ensures st.stripes[s].log[j].ok
  {
  }
}
