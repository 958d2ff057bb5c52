/** Client requests keep the invariant of the RAID4/5 target: splitting a write, accepting
    its chunks one by one, and serving reads. */
module EngineRequests {
  import opened Arithmetic
  import opened Bytes
  import opened Options
  import opened StripeWriter
  import opened Engine
  import opened EngineInvariant

  // ---------- Splitting ----------

  /** Chunks fit their stripes, and go to strictly increasing stripes. */
  ghost predicate WellSplit(g: Shape, rid: nat, m: nat, cs: seq<Chunk>) {
    && (forall j :: 0 <= j < |cs| ==> Fits(g, cs[j]) && cs[j].rid == rid && cs[j].stripe < m)
    && (forall i, j :: 0 <= i < j < |cs| ==> cs[i].stripe < cs[j].stripe)
  }

  lemma {:induction false} SplitIsWellSplit(g: Shape, rid: nat, addr: nat, buf: seq<byte>, m: nat)
    requires g.Valid() && addr + |buf| <= m * g.DataSize()
    ensures WellSplit(g, rid, m, Split(g.DataSize(), rid, addr, buf))
    ensures forall ch :: ch in Split(g.DataSize(), rid, addr, buf) ==> ch.stripe >= Quot(addr, g.DataSize())
    ensures buf != [] ==> Split(g.DataSize(), rid, addr, buf) != []
    decreases |buf|
  {
    var size := g.DataSize();
    if |buf| > 0 {
      var off := Wrap(addr, size);
      var len := if |buf| < size - off then |buf| else size - off;
      var first, rest := Chunk(rid, Quot(addr, size), off, buf[..len]), Split(size, rid, addr + len, buf[len..]);
      QuotInRange(addr, size, m);
      SplitIsWellSplit(g, rid, addr + len, buf[len..], m);
      if len < |buf| {
        NextQuot(addr, size);
      }
      assert Split(size, rid, addr, buf) == [first] + rest;
      ConsWellSplit(g, rid, m, first, rest);
    }
  }

  lemma ConsWellSplit(g: Shape, rid: nat, m: nat, first: Chunk, rest: seq<Chunk>)
    requires WellSplit(g, rid, m, rest) && Fits(g, first) && first.rid == rid && first.stripe < m
    requires forall ch :: ch in rest ==> ch.stripe > first.stripe
    ensures WellSplit(g, rid, m, [first] + rest) && forall ch :: ch in [first] + rest ==> ch.stripe >= first.stripe
  {
  }

  // ---------- A request is opened ----------

  ghost function Coming(cs: seq<Chunk>): set<(nat, nat)> {
    set j | 0 <= j < |cs| :: (cs[j].rid, cs[j].stripe)
  }

  lemma OpenedKeepsInvariant(g: Shape, st: State, rid: nat, cs: seq<Chunk>)
    requires AllInv(g, st) && Fresh(st, rid) && cs != [] && WellSplit(g, rid, |st.stripes|, cs)
    ensures Invariant(g, st.(requests := st.requests[rid := Request(StripesOf(cs), false)]), -1, Coming(cs))
  {
    var st' := st.(requests := st.requests[rid := Request(StripesOf(cs), false)]);
    assert cs[0].stripe in StripesOf(cs);
    OpenedRequests(st, st', rid, cs);
    OpenedRest(st, st', rid);
    OpenedReaders(g, st, st');
  }

  lemma OpenedRequests(st: State, st': State, rid: nat, cs: seq<Chunk>)
    requires RequestsOk(st, {}) && Fresh(st, rid) && cs != []
    requires forall j :: 0 <= j < |cs| ==> cs[j].rid == rid
    requires st' == st.(requests := st.requests[rid := Request(StripesOf(cs), false)])
    ensures RequestsOk(st', Coming(cs))
  {
    assert cs[0].stripe in StripesOf(cs);
    assert forall r, t :: Runs(st', r, t) <==> Runs(st, r, t);
    assert forall r, t :: Waits(st', r, t) <==> Waits(st, r, t);
    forall t | t in StripesOf(cs) ensures (rid, t) in Coming(cs) {
      var j :| 0 <= j < |cs| && cs[j].stripe == t;
      assert (cs[j].rid, cs[j].stripe) in Coming(cs);
    }
  }

  lemma OpenedRest(st: State, st': State, rid: nat)
    requires KeysOk(st) && FailuresOk(st) && LogsOk(st) && Fresh(st, rid)
    requires rid in st'.requests && !st'.requests[rid].err && st' == st.(requests := st.requests[rid := st'.requests[rid]])
    ensures KeysOk(st') && FailuresOk(st') && LogsOk(st')
  {
    forall r | FailsSomewhere(st, r) ensures FailsSomewhere(st', r) {
      var t: nat :| Runs(st, r, t) && HasFailed(st.stripes[t].op.value);
      assert Runs(st', r, t);
    }
    assert forall r :: Erring(st, r) ==> Erring(st', r);
  }

  lemma OpenedReaders(g: Shape, st: State, st': State)
    requires Sound(g, st) && ReadersOk(g, st) && Counted(st)
    requires st' == st.(requests := st'.requests)
    ensures Sound(g, st') && ReadersOk(g, st') && Counted(st')
  {
    forall ch: Chunk ensures multiset(st'.accepted)[ch] == Tally(st', ch) {
      assert multiset(st.accepted)[ch] == Tally(st, ch);
    }
    assert Sound(g, st');
    forall r | r in st.readers ensures ReaderOk(g, st', st.readers[r]) {
      SameForReader(g, st, st', st.readers[r]);
    }
  }

  /** A read looks at stripes, waiting chunks and what was accepted, nothing else. */
  lemma SameForReader(g: Shape, st: State, st': State, rd: Read)
    requires Sound(g, st) && ReaderOk(g, st, rd)
    requires st'.stripes == st.stripes && st'.pending == st.pending && st'.accepted == st.accepted
    ensures Sound(g, st') && ReaderOk(g, st', rd)
  {
    forall a | rd.addr <= a < rd.addr + |rd.buf| ensures ByteOk(g, st', rd, a) {
      assert ByteOk(g, st, rd, a);
      assert Busy(g, st', a) <==> Busy(g, st, a);
    }
  }

  // ---------- A chunk is accepted ----------

  ghost predicate Queues(st: State, st': State, ch: Chunk) {
    st' == st.(pending := st.pending + [ch], accepted := st.accepted + [ch])
  }

  lemma QueuedRequests(st: State, st': State, ch: Chunk, coming: set<(nat, nat)>)
    requires RequestsOk(st, coming) && (ch.rid, ch.stripe) in coming && Queues(st, st', ch)
    ensures RequestsOk(st', coming - {(ch.rid, ch.stripe)})
  {
    assert forall r, t :: Runs(st', r, t) <==> Runs(st, r, t);
    assert st'.pending[|st.pending|] == ch;
    forall r, t ensures Waits(st', r, t) <==> Waits(st, r, t) || (r == ch.rid && t == ch.stripe) {
      if Waits(st, r, t) {
        var j :| 0 <= j < |st.pending| && st.pending[j].rid == r && st.pending[j].stripe == t;
        assert st'.pending[j] == st.pending[j];
      }
    }
    forall j | 0 <= j < |st.pending| ensures st.pending[j].rid != ch.rid || st.pending[j].stripe != ch.stripe {
      assert !Waits(st, ch.rid, ch.stripe);
    }
  }

  lemma QueuedRest(g: Shape, st: State, st': State, ch: Chunk)
    requires KeysOk(st) && FailuresOk(st) && LogsOk(st) && Counted(st) && Queues(st, st', ch)
    ensures KeysOk(st') && FailuresOk(st') && LogsOk(st') && Counted(st')
  {
    forall r | FailsSomewhere(st, r) ensures FailsSomewhere(st', r) {
      var t: nat :| Runs(st, r, t) && HasFailed(st.stripes[t].op.value);
      assert Runs(st', r, t);
    }
    assert forall r :: Erring(st, r) ==> Erring(st', r);
    forall c: Chunk ensures multiset(st'.accepted)[c] == Tally(st', c) {
      assert multiset(st.accepted)[c] == Tally(st, c);
    }
  }

  lemma QueuedReaders(g: Shape, st: State, st': State, ch: Chunk)
    requires Sound(g, st) && ReadersOk(g, st) && Queues(st, st', ch)
    ensures Sound(g, st') && ReadersOk(g, st')
  {
    assert Sound(g, st');
    forall r | r in st.readers ensures ReaderOk(g, st', st.readers[r]) {
      var rd := st.readers[r];
      forall a | rd.addr <= a < rd.addr + |rd.buf| ensures ByteOk(g, st', rd, a) {
        assert ByteOk(g, st, rd, a);
        CleanBefore(g, st, st', ch, rd, a);
        QueuedBusy(g, st, st', ch, a);
      }
    }
  }

  lemma CleanBefore(g: Shape, st: State, st': State, ch: Chunk, rd: Read, a: nat)
    requires g.Valid() && st'.accepted == st.accepted + [ch] && rd.since <= |st.accepted|
    ensures Clean(g, st', rd, a) ==> Clean(g, st, rd, a) && !Hits(g, ch, a)
  {
    if Clean(g, st', rd, a) {
      assert st'.accepted[|st.accepted|] == ch;
      forall j | rd.since <= j < |st.accepted| ensures !Hits(g, st.accepted[j], a) {
        assert st'.accepted[j] == st.accepted[j];
      }
    }
  }

  lemma QueuedBusy(g: Shape, st: State, st': State, ch: Chunk, a: nat)
    requires g.Valid() && Queues(st, st', ch)
    ensures Busy(g, st', a) ==> Busy(g, st, a) || Hits(g, ch, a)
  {
    forall j | 0 <= j < |st'.pending| && Hits(g, st'.pending[j], a)
      ensures Busy(g, st, a) || Hits(g, ch, a)
    {
      if j < |st.pending| {
        assert st.pending[j] == st'.pending[j];
      }
    }
  }

  ghost predicate Takes(st: State, st': State, s: nat, y: Stripe, ch: Chunk) {
    && Starts(st, st', s, y, ch) && SameRest(st, st')
    && st'.pending == st.pending && st'.accepted == st.accepted + [ch]
  }

  lemma TakenRequests(st: State, st': State, s: nat, y: Stripe, ch: Chunk, coming: set<(nat, nat)>)
    requires RequestsOk(st, coming) && (ch.rid, ch.stripe) in coming && Takes(st, st', s, y, ch)
    ensures RequestsOk(st', coming - {(ch.rid, ch.stripe)})
  {
    assert forall r, t :: Runs(st', r, t) <==> Runs(st, r, t) || (r == ch.rid && t == s);
    assert forall r, t :: Waits(st', r, t) <==> Waits(st, r, t);
  }

  lemma TakenCounted(st: State, st': State, s: nat, y: Stripe, ch: Chunk)
    requires Counted(st) && Takes(st, st', s, y, ch)
    ensures Counted(st')
  {
    forall c: Chunk ensures multiset(st'.accepted)[c] == Tally(st', c) {
      assert multiset(st.accepted)[c] == Tally(st, c);
    }
  }

  lemma TakenBusy(g: Shape, st: State, st': State, s: nat, y: Stripe, ch: Chunk, a: nat)
    requires g.Valid() && Takes(st, st', s, y, ch)
    ensures Busy(g, st', a) ==> Busy(g, st, a) || Hits(g, ch, a)
  {
    forall t | 0 <= t < |st'.stripes| && st'.stripes[t].op.Some? && Hits(g, st'.stripes[t].op.value.chunk, a)
      ensures Busy(g, st, a) || Hits(g, ch, a)
    {
      if t != s {
        assert st.stripes[t] == st'.stripes[t];
      }
    }
  }

  lemma TakenReaders(g: Shape, st: State, st': State, s: nat, y: Stripe, ch: Chunk)
    requires Sound(g, st) && ReadersOk(g, st) && Takes(st, st', s, y, ch) && Inv(g, y)
    ensures Sound(g, st') && ReadersOk(g, st')
  {
    assert Sound(g, st');
    forall r | r in st.readers ensures ReaderOk(g, st', st.readers[r]) {
      var rd := st.readers[r];
      forall a | rd.addr <= a < rd.addr + |rd.buf| ensures StillClean(g, st, st', rd, a) {
        CleanBefore(g, st, st', ch, rd, a);
        TakenBusy(g, st, st', s, y, ch, a);
      }
      StartedReader(g, st, st', s, y, ch, rd);
    }
  }

  lemma TakenStripes(g: Shape, st: State, st': State, s: nat, y: Stripe, ch: Chunk)
    requires StripesOk(g, st, -1) && PendingOk(g, st) && Takes(st, st', s, y, ch) && Inv(g, y)
    ensures StripesOk(g, st', -1) && PendingOk(g, st')
  {
  }

  lemma QueuedKeepsInvariant(g: Shape, st: State, st': State, ch: Chunk, coming: set<(nat, nat)>)
    requires Invariant(g, st, -1, coming) && (ch.rid, ch.stripe) in coming && Queues(st, st', ch)
    requires Fits(g, ch) && ch.stripe < |st.stripes| && st.stripes[ch.stripe].locked
    ensures Invariant(g, st', -1, coming - {(ch.rid, ch.stripe)})
  {
    QueuedPending(g, st, st', ch);
    QueuedRequests(st, st', ch, coming);
    QueuedRest(g, st, st', ch);
    QueuedReaders(g, st, st', ch);
  }

  lemma QueuedPending(g: Shape, st: State, st': State, ch: Chunk)
    requires StripesOk(g, st, -1) && PendingOk(g, st) && Queues(st, st', ch)
    requires Fits(g, ch) && ch.stripe < |st.stripes| && st.stripes[ch.stripe].locked
    ensures StripesOk(g, st', -1) && PendingOk(g, st')
  {
  }

  lemma TakenKeepsInvariant(g: Shape, st: State, st': State, y: Stripe, ch: Chunk, coming: set<(nat, nat)>)
    requires Invariant(g, st, -1, coming) && (ch.rid, ch.stripe) in coming && Takes(st, st', ch.stripe, y, ch)
    requires Inv(g, y)
    ensures Invariant(g, st', -1, coming - {(ch.rid, ch.stripe)})
  {
    TakenStripes(g, st, st', ch.stripe, y, ch);
    TakenRequests(st, st', ch.stripe, y, ch, coming);
    StartedFailures(st, st', ch.stripe, y, ch);
    StartedLogs(st, st', ch.stripe, y, ch);
    TakenCounted(st, st', ch.stripe, y, ch);
    TakenReaders(g, st, st', ch.stripe, y, ch);
  }

  lemma AcceptKeepsInvariant(g: Shape, st: State, ch: Chunk, coming: set<(nat, nat)>)
    requires Invariant(g, st, -1, coming) && (ch.rid, ch.stripe) in coming
    requires Fits(g, ch) && ch.stripe < |st.stripes|
    ensures Invariant(g, Accept(g, st, ch), -1, coming - {(ch.rid, ch.stripe)})
  {
    if st.stripes[ch.stripe].locked {
      QueuedKeepsInvariant(g, st, Accept(g, st, ch), ch, coming);
    } else {
      BeginStarts(g, st.stripes[ch.stripe], ch);
      TakenKeepsInvariant(g, st, Accept(g, st, ch), Begin(g, st.stripes[ch.stripe], ch), ch, coming);
    }
  }

  lemma {:induction false} AcceptAllKeepsInvariant(g: Shape, st: State, rid: nat, cs: seq<Chunk>)
    requires Invariant(g, st, -1, Coming(cs)) && WellSplit(g, rid, |st.stripes|, cs)
    ensures AllInv(g, AcceptAll(g, st, cs))
    decreases |cs|
  {
    if cs == [] {
      assert Coming(cs) == {};
    } else {
      AcceptFirst(g, st, rid, cs);
      RestIsWellSplit(g, st, rid, cs);
      AcceptAllKeepsInvariant(g, Accept(g, st, cs[0]), rid, cs[1..]);
    }
  }

  /** The first chunk is accepted, the others are still to come. */
  lemma AcceptFirst(g: Shape, st: State, rid: nat, cs: seq<Chunk>)
    requires Invariant(g, st, -1, Coming(cs)) && WellSplit(g, rid, |st.stripes|, cs) && cs != []
    ensures Invariant(g, Accept(g, st, cs[0]), -1, Coming(cs[1..]))
  {
    var coming := ComingRest(cs);
    AcceptKeepsInvariant(g, st, cs[0], coming);
  }

  lemma RestIsWellSplit(g: Shape, st: State, rid: nat, cs: seq<Chunk>)
    requires g.Valid() && WellSplit(g, rid, |st.stripes|, cs) && cs != []
    ensures WellSplit(g, rid, |Accept(g, st, cs[0]).stripes|, cs[1..])
  {
  }

  lemma ComingRest(cs: seq<Chunk>) returns (coming: set<(nat, nat)>)
    requires cs != [] && forall i, j :: 0 <= i < j < |cs| ==> cs[i].stripe < cs[j].stripe
    ensures coming == Coming(cs) && (cs[0].rid, cs[0].stripe) in coming
    ensures coming - {(cs[0].rid, cs[0].stripe)} == Coming(cs[1..])
  {
    coming := Coming(cs);
    forall p | p in Coming(cs[1..]) ensures p in Coming(cs) - {(cs[0].rid, cs[0].stripe)} {
      var j :| 0 <= j < |cs[1..]| && p == (cs[1..][j].rid, cs[1..][j].stripe);
      assert cs[1..][j] == cs[j + 1];
    }
    forall p | p in Coming(cs) - {(cs[0].rid, cs[0].stripe)} ensures p in Coming(cs[1..]) {
      var j :| 0 <= j < |cs| && p == (cs[j].rid, cs[j].stripe);
      assert cs[1..][j - 1] == cs[j];
    }
  }

  // ---------- Reads ----------

  lemma SubmittedReadKeepsInvariant(g: Shape, st: State, rid: nat, addr: nat, len: nat)
    requires AllInv(g, st) && Fresh(st, rid) && InRange(g, st, addr, len)
    ensures AllInv(g, st.(readers := st.readers[rid := Read(addr, ReadParts(g, addr, len), false, Zeros(len),
                                                          BusyIn(g, st, addr, len), |st.accepted|)]))
  {
    var rd := Read(addr, ReadParts(g, addr, len), false, Zeros(len), BusyIn(g, st, addr, len), |st.accepted|);
    var st' := st.(readers := st.readers[rid := rd]);
    assert ReadOf(g, addr) in rd.todo;
    assert ReaderOk(g, st, rd) by {
      forall a | addr <= a < addr + len ensures StripeOf(g, a) < |st.stripes| && ReadOf(g, a) in rd.todo {
        QuotInRange(a, g.DataSize(), |st.stripes|);
      }
    }
    ReaderAdded(g, st, st', rid);
    forall r | r in st'.readers ensures Sound(g, st') && ReaderOk(g, st', st'.readers[r]) {
      SameForReader(g, st, st', st'.readers[r]);
    }
  }

  // Steps of reads leave the writes alone.

  ghost predicate SameWrites(st: State, st': State) {
    && st'.stripes == st.stripes && st'.pending == st.pending && st'.requests == st.requests
    && st'.accepted == st.accepted
  }

  lemma SameWritesInvariant(g: Shape, st: State, st': State)
    requires StripesOk(g, st, -1) && PendingOk(g, st) && Counted(st) && SameWrites(st, st')
    ensures StripesOk(g, st', -1) && PendingOk(g, st') && Counted(st')
  {
    forall c: Chunk ensures multiset(st'.accepted)[c] == Tally(st', c) {
      assert multiset(st.accepted)[c] == Tally(st, c);
    }
  }

  lemma SameWritesRequests(st: State, st': State)
    requires RequestsOk(st, {}) && SameWrites(st, st')
    ensures RequestsOk(st', {})
    ensures forall r :: FailsSomewhere(st', r) <==> FailsSomewhere(st, r)
  {
    assert forall r, t :: Runs(st', r, t) <==> Runs(st, r, t);
    assert forall r, t :: Waits(st', r, t) <==> Waits(st, r, t);
    forall r ensures FailsSomewhere(st', r) <==> FailsSomewhere(st, r) {
      if FailsSomewhere(st, r) {
        var t: nat :| Runs(st, r, t) && HasFailed(st.stripes[t].op.value);
        assert Runs(st', r, t);
      }
    }
  }

  lemma SameWritesLogs(st: State, st': State)
    requires LogsOk(st) && SameWrites(st, st')
    requires forall r :: r in st.closed ==> r in st'.closed && st'.closed[r] == st.closed[r]
    ensures LogsOk(st')
  {
    assert forall r :: Erring(st, r) ==> Erring(st', r);
  }

  lemma ReaderAdded(g: Shape, st: State, st': State, rid: nat)
    requires AllInv(g, st) && Fresh(st, rid) && rid in st'.readers && !st'.readers[rid].err
    requires st' == st.(readers := st.readers[rid := st'.readers[rid]])
    ensures StripesOk(g, st', -1) && PendingOk(g, st') && RequestsOk(st', {}) && KeysOk(st')
    ensures FailuresOk(st') && LogsOk(st') && OnlineOk(st') && Counted(st')
  {
    SameWritesInvariant(g, st, st');
    SameWritesRequests(st, st');
    SameWritesLogs(st, st');
    ReaderAddedFailures(st, st', rid);
  }

  lemma ReaderAddedFailures(st: State, st': State, rid: nat)
    requires KeysOk(st) && FailuresOk(st) && Fresh(st, rid) && rid in st'.readers && !st'.readers[rid].err
    requires st' == st.(readers := st.readers[rid := st'.readers[rid]])
    requires forall r :: FailsSomewhere(st', r) <==> FailsSomewhere(st, r)
    ensures KeysOk(st') && FailuresOk(st')
  {
  }

  /** The read after one of its backend reads. */
  ghost function Served(g: Shape, st: State, rd: Read, part: (nat, nat), ok: bool): Read
    requires g.Valid() && ReadShaped(g, st, rd)
  {
    rd.(todo := rd.todo - {part}, err := rd.err || !ok, buf := if ok then Fill(g, st, rd, part) else rd.buf)
  }

  /** What arrives of a byte that no write overlaps is the flat array's. */
  lemma FillIsFlat(g: Shape, st: State, rd: Read, part: (nat, nat), a: nat)
    requires Sound(g, st) && ReadShaped(g, st, rd) && StripesOk(g, st, -1)
    requires rd.addr <= a < rd.addr + |rd.buf| && ByteOk(g, st, rd, a) && Clean(g, st, rd, a) && !rd.err
    ensures ReadShaped(g, st, Served(g, st, rd, part, true)) && Arrived(g, st, Served(g, st, rd, part, true), a)
  {
    assert rd.addr + (a - rd.addr) == a;
    if ReadOf(g, a) == part {
      var x := st.stripes[StripeOf(g, a)];
      assert x.op.Some? ==> !Hits(g, x.op.value.chunk, a);
      assert !BeingWritten(x, Inside(g, a));
    }
  }

  lemma ReadIoKeepsReader(g: Shape, st: State, rd: Read, part: (nat, nat), ok: bool)
    requires Sound(g, st) && ReaderOk(g, st, rd) && StripesOk(g, st, -1)
    requires Served(g, st, rd, part, ok).todo != {}
    ensures ReaderOk(g, st, Served(g, st, rd, part, ok))
  {
    var rd' := Served(g, st, rd, part, ok);
    forall a | rd.addr <= a < rd.addr + |rd.buf| ensures ByteOk(g, st, rd', a) {
      assert ByteOk(g, st, rd, a);
      if Clean(g, st, rd, a) && !rd'.err {
        FillIsFlat(g, st, rd, part, a);
      }
    }
  }

  lemma ReadIoKeepsInvariant(g: Shape, st: State, rid: nat, part: (nat, nat), ok: bool)
    requires AllInv(g, st) && rid in st.readers
    ensures AllInv(g, AfterReadIo(g, st, rid, part, ok))
  {
    var rd := st.readers[rid];
    assert ReaderOk(g, st, rd);
    var st' := AfterReadIo(g, st, rid, part, ok);
    var rd' := Served(g, st, rd, part, ok);
    ReadIoRest(g, st, st', rid, rd', ok);
    assert Sound(g, st');
    forall r | r in st'.readers ensures ReaderOk(g, st', st'.readers[r]) {
      if r == rid {
        ReadIoKeepsReader(g, st, rd, part, ok);
      }
      SameForReader(g, st, st', st'.readers[r]);
    }
  }

  /** A read's own bookkeeping after a backend read. */
  ghost predicate ReadReported(st: State, st': State, rid: nat, rd': Read, ok: bool) {
    && rid in st.readers && rd'.err == (st.readers[rid].err || !ok)
    && st'.failures == (if ok then st.failures else st.failures + {rid})
    && (rd'.todo == {} ==> st'.readers == st.readers - {rid} && st'.closed == st.closed[rid := rd'.err]
                           && st'.online == (st.online && !rd'.err))
    && (rd'.todo != {} ==> st'.readers == st.readers[rid := rd'] && st'.closed == st.closed && st'.online == st.online)
  }

  lemma ReadIoRest(g: Shape, st: State, st': State, rid: nat, rd': Read, ok: bool)
    requires AllInv(g, st) && SameWrites(st, st') && ReadReported(st, st', rid, rd', ok)
    ensures StripesOk(g, st', -1) && PendingOk(g, st') && RequestsOk(st', {}) && KeysOk(st')
    ensures FailuresOk(st') && LogsOk(st') && OnlineOk(st') && Counted(st')
  {
    SameWritesInvariant(g, st, st');
    SameWritesRequests(st, st');
    SameWritesLogs(st, st');
    ReadIoFailures(st, st', rid, rd', ok);
    ReadIoOnline(st, st', rid, rd', ok);
  }

  lemma ReadIoFailures(st: State, st': State, rid: nat, rd': Read, ok: bool)
    requires KeysOk(st) && FailuresOk(st) && SameWrites(st, st') && ReadReported(st, st', rid, rd', ok)
    requires forall r :: FailsSomewhere(st', r) <==> FailsSomewhere(st, r)
    ensures KeysOk(st') && FailuresOk(st')
  {
  }

  lemma ReadIoOnline(st: State, st': State, rid: nat, rd': Read, ok: bool)
    requires KeysOk(st) && OnlineOk(st) && ReadReported(st, st', rid, rd', ok)
    ensures OnlineOk(st')
  {
    if rd'.todo == {} {
      assert rid in st'.closed;
      assert forall r :: r in st.closed ==> r in st'.closed && st'.closed[r] == st.closed[r];
    }
  }
}
