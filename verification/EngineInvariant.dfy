/** What holds in every reachable state of the RAID4/5 target, over every order of
    completions and every backend failure, and the proof that each step keeps it. */
module EngineInvariant {
  import opened Bytes
  import opened Options
  import opened StripeWriter
  import opened Waiting
  import opened Engine

  // ---------- The invariant ----------
  //
  // Inside one event two things may be in between: a stripe whose write just ended and whose
  // lock is still to be passed on (`hole`, or -1), and chunks of a request that are still to
  // be accepted (`coming`, pairs of request and stripe).

  ghost predicate Runs(st: State, rid: nat, s: nat) {
    s < |st.stripes| && st.stripes[s].op.Some? && st.stripes[s].op.value.chunk.rid == rid
  }

  ghost predicate Waits(st: State, rid: nat, s: nat) {
    exists j :: 0 <= j < |st.pending| && st.pending[j].rid == rid && st.pending[j].stripe == s
  }

  /** Each stripe keeps its own invariant, and is locked exactly while a write is under way. */
  ghost predicate StripesOk(g: Shape, st: State, hole: int) {
    forall s :: 0 <= s < |st.stripes| ==>
      && Inv(g, st.stripes[s])
      && (st.stripes[s].locked <==> st.stripes[s].op.Some? || s == hole)
      && (s == hole ==> st.stripes[s].op.None?)
      && (st.stripes[s].op.Some? ==> st.stripes[s].op.value.chunk.stripe == s)
  }

  /** Only chunks of a locked stripe wait. */
  ghost predicate PendingOk(g: Shape, st: State) {
    forall j :: 0 <= j < |st.pending| ==>
      && Fits(g, st.pending[j])
      && st.pending[j].stripe < |st.stripes|
      && st.stripes[st.pending[j].stripe].locked
  }

  /** The stripes a request waits for are those where its chunk runs or waits, never both. */
  ghost predicate RequestsOk(st: State, coming: set<(nat, nat)>) {
    && (forall rid, s :: rid in st.requests && s in st.requests[rid].todo ==>
          Runs(st, rid, s) || Waits(st, rid, s) || (rid, s) in coming)
    && (forall rid, s :: (rid, s) in coming ==>
          rid in st.requests && s in st.requests[rid].todo && !Runs(st, rid, s) && !Waits(st, rid, s))
    && (forall s :: 0 <= s < |st.stripes| && st.stripes[s].op.Some? ==>
          var rid := st.stripes[s].op.value.chunk.rid;
          rid in st.requests && s in st.requests[rid].todo && !Waits(st, rid, s))
    && (forall j :: 0 <= j < |st.pending| ==>
          st.pending[j].rid in st.requests && st.pending[j].stripe in st.requests[st.pending[j].rid].todo)
    && (forall i, j :: 0 <= i < j < |st.pending| ==>
          st.pending[i].rid != st.pending[j].rid || st.pending[i].stripe != st.pending[j].stripe)
    && (forall rid :: rid in st.requests ==> st.requests[rid].todo != {})
  }

  /** A request is open, or being read, or closed: one of them. */
  ghost predicate KeysOk(st: State) {
    && (forall rid :: rid in st.requests ==> rid !in st.readers && rid !in st.closed)
    && (forall rid :: rid in st.readers ==> rid !in st.closed)
    && (forall rid :: rid in st.failures ==> !Fresh(st, rid))
  }

  /** An open request whose failure shows in a write still under way. */
  ghost predicate FailsSomewhere(st: State, rid: nat) {
    exists s: nat :: Runs(st, rid, s) && HasFailed(st.stripes[s].op.value)
  }

  /** Errors reach the request, and nothing else does. */
  ghost predicate FailuresOk(st: State) {
    && (forall s :: 0 <= s < |st.stripes| && st.stripes[s].op.Some? && HasFailed(st.stripes[s].op.value) ==>
          st.stripes[s].op.value.chunk.rid in st.failures)
    && (forall rid :: rid in st.requests && st.requests[rid].err ==> rid in st.failures)
    && (forall rid :: rid in st.requests && rid in st.failures ==> st.requests[rid].err || FailsSomewhere(st, rid))
    && (forall rid :: rid in st.readers ==> (st.readers[rid].err <==> rid in st.failures))
    && (forall rid :: rid in st.closed ==> (st.closed[rid] <==> rid in st.failures))
  }

  ghost predicate Erring(st: State, rid: nat) {
    (rid in st.requests && st.requests[rid].err) || (rid in st.closed && st.closed[rid])
  }

  /** A chunk write that failed is charged to its request. */
  ghost predicate LogsOk(st: State) {
    forall s, j :: 0 <= s < |st.stripes| && 0 <= j < |st.stripes[s].log| ==>
      && st.stripes[s].log[j].chunk.stripe == s
      && (st.stripes[s].log[j].ok || Erring(st, st.stripes[s].log[j].chunk.rid))
  }

  function Chunks(log: seq<Served>): seq<Chunk> {
    seq(|log|, i requires 0 <= i < |log| => log[i].chunk)
  }

  /** How often a chunk was served, runs, or waits. */
  ghost function Tally(st: State, ch: Chunk): nat {
    multiset(st.pending)[ch]
    + (if ch.stripe < |st.stripes| then
         multiset(Chunks(st.stripes[ch.stripe].log))[ch]
         + (if st.stripes[ch.stripe].op.Some? && st.stripes[ch.stripe].op.value.chunk == ch then 1 else 0)
       else 0)
  }

  /** Every accepted chunk is served once: none is lost, none is done twice. */
  ghost predicate Counted(st: State) {
    forall ch: Chunk :: multiset(st.accepted)[ch] == Tally(st, ch)
  }

  ghost predicate OnlineOk(st: State) {
    st.online <==> forall rid :: rid in st.closed ==> !st.closed[rid]
  }

  // ---------- Reads ----------

  ghost predicate Sound(g: Shape, st: State) {
    g.Valid() && forall s :: 0 <= s < |st.stripes| ==> Inv(g, st.stripes[s])
  }

  /** The flat array: byte `a` of the fold of all chunk writes. */
  ghost function FlatByte(g: Shape, st: State, a: nat): byte
    requires Sound(g, st) && StripeOf(g, a) < |st.stripes|
  {
    Replay(st.stripes[StripeOf(g, a)].init, st.stripes[StripeOf(g, a)].log)[Inside(g, a)]
  }

  /** Its last write, if any, succeeded. */
  ghost predicate FlatKnown(g: Shape, st: State, a: nat)
    requires g.Valid() && StripeOf(g, a) < |st.stripes|
  {
    Known(st.stripes[StripeOf(g, a)].log, Inside(g, a))
  }

  /** No write overlaps the read at address `a`, from its submission until now. */
  ghost predicate Clean(g: Shape, st: State, rd: Read, a: nat)
    requires g.Valid()
  {
    a !in rd.busy && forall j :: 0 <= rd.since <= j < |st.accepted| ==> !Hits(g, st.accepted[j], a)
  }

  /** If the byte of address `a` arrived, it is the flat array's. */
  ghost predicate Arrived(g: Shape, st: State, rd: Read, a: nat)
    requires Sound(g, st) && ReadShaped(g, st, rd) && rd.addr <= a < rd.addr + |rd.buf|
  {
    ReadOf(g, a) !in rd.todo && FlatKnown(g, st, a) ==> rd.buf[a - rd.addr] == FlatByte(g, st, a)
  }

  /** So it is as long as no write overlaps the byte, whatever happens to the others. */
  ghost predicate ByteOk(g: Shape, st: State, rd: Read, a: nat)
    requires Sound(g, st) && ReadShaped(g, st, rd) && rd.addr <= a < rd.addr + |rd.buf|
  {
    Clean(g, st, rd, a) ==> !Busy(g, st, a) && (!rd.err ==> Arrived(g, st, rd, a))
  }

  ghost predicate ReaderOk(g: Shape, st: State, rd: Read)
    requires Sound(g, st)
  {
    && rd.todo != {} && rd.since <= |st.accepted| && ReadShaped(g, st, rd)
    && (forall a :: rd.addr <= a < rd.addr + |rd.buf| ==> ByteOk(g, st, rd, a))
  }

  ghost predicate ReadersOk(g: Shape, st: State)
    requires Sound(g, st)
  {
    forall rid :: rid in st.readers ==> ReaderOk(g, st, st.readers[rid])
  }

  ghost predicate Invariant(g: Shape, st: State, hole: int, coming: set<(nat, nat)>) {
    && Sound(g, st) && StripesOk(g, st, hole) && PendingOk(g, st)
    && RequestsOk(st, coming) && KeysOk(st) && FailuresOk(st) && LogsOk(st) && OnlineOk(st)
    && Counted(st) && ReadersOk(g, st)
  }

  /** Between events. */
  ghost predicate AllInv(g: Shape, st: State) {
    Invariant(g, st, -1, {})
  }

  // ---------- A write under way makes progress, or tears ----------

  /** Stripe `s` changes inside its write; an I/O that failed is remembered. */
  ghost predicate Within(st: State, s: nat, y: Stripe, ok: bool) {
    && s < |st.stripes| && st.stripes[s].op.Some? && y.op.Some?
    && var x := st.stripes[s];
    && y.op.value.chunk == x.op.value.chunk && y.log == x.log && y.init == x.init && y.locked == x.locked
    && (HasFailed(y.op.value) <==> HasFailed(x.op.value) || !ok)
  }

  function Changed(st: State, s: nat, y: Stripe, ok: bool): State
    requires s < |st.stripes| && y.op.Some?
  {
    Fail(st.(stripes := st.stripes[s := y]), y.op.value.chunk.rid, ok)
  }

  lemma ChangedRequests(st: State, s: nat, y: Stripe, ok: bool)
    requires RequestsOk(st, {}) && Within(st, s, y, ok)
    ensures RequestsOk(Changed(st, s, y, ok), {})
  {
    var st' := Changed(st, s, y, ok);
    assert forall r, t :: Runs(st', r, t) <==> Runs(st, r, t);
    assert forall r, t :: Waits(st', r, t) <==> Waits(st, r, t);
  }

  lemma ChangedFailures(st: State, s: nat, y: Stripe, ok: bool)
    requires RequestsOk(st, {}) && KeysOk(st) && FailuresOk(st) && Within(st, s, y, ok)
    ensures FailuresOk(Changed(st, s, y, ok)) && KeysOk(Changed(st, s, y, ok))
  {
    var st' := Changed(st, s, y, ok);
    var rid := y.op.value.chunk.rid;
    forall r | r in st'.requests && r in st'.failures && !st'.requests[r].err
      ensures FailsSomewhere(st', r)
    {
      if r == rid && !ok {
        assert Runs(st', r, s);
      } else {
        assert FailsSomewhere(st, r);
        var t: nat :| Runs(st, r, t) && HasFailed(st.stripes[t].op.value);
        assert Runs(st', r, t);
      }
    }
  }

  lemma ChangedCounted(st: State, s: nat, y: Stripe, ok: bool)
    requires Counted(st) && Within(st, s, y, ok)
    ensures Counted(Changed(st, s, y, ok))
  {
    var st' := Changed(st, s, y, ok);
    forall ch: Chunk ensures multiset(st'.accepted)[ch] == Tally(st', ch) {
      assert multiset(st.accepted)[ch] == Tally(st, ch);
    }
  }

  lemma ChangedReader(g: Shape, st: State, s: nat, y: Stripe, ok: bool, rd: Read)
    requires Sound(g, st) && ReaderOk(g, st, rd) && Within(st, s, y, ok) && Inv(g, y)
    ensures Sound(g, Changed(st, s, y, ok)) && ReaderOk(g, Changed(st, s, y, ok), rd)
  {
    var st' := Changed(st, s, y, ok);
    forall a | rd.addr <= a < rd.addr + |rd.buf| ensures ByteOk(g, st', rd, a) {
      assert ByteOk(g, st, rd, a);
      assert Busy(g, st', a) ==> Busy(g, st, a);
      assert FlatKnown(g, st', a) ==> FlatKnown(g, st, a);
    }
  }

  lemma ChangedReaders(g: Shape, st: State, s: nat, y: Stripe, ok: bool)
    requires Sound(g, st) && ReadersOk(g, st) && Within(st, s, y, ok) && Inv(g, y)
    ensures Sound(g, Changed(st, s, y, ok)) && ReadersOk(g, Changed(st, s, y, ok))
  {
    forall r | r in st.readers
      ensures Sound(g, Changed(st, s, y, ok)) && ReaderOk(g, Changed(st, s, y, ok), st.readers[r])
    {
      ChangedReader(g, st, s, y, ok, st.readers[r]);
    }
    assert Sound(g, Changed(st, s, y, ok));
  }

  lemma ChangedStripes(g: Shape, st: State, s: nat, y: Stripe, ok: bool)
    requires StripesOk(g, st, -1) && PendingOk(g, st) && Within(st, s, y, ok) && Inv(g, y)
    ensures StripesOk(g, Changed(st, s, y, ok), -1) && PendingOk(g, Changed(st, s, y, ok))
  {
  }

  lemma ChangedLogs(st: State, s: nat, y: Stripe, ok: bool)
    requires LogsOk(st) && Within(st, s, y, ok)
    ensures LogsOk(Changed(st, s, y, ok))
  {
    var st' := Changed(st, s, y, ok);
    assert forall r :: Erring(st', r) <==> Erring(st, r);
  }

  lemma ChangedKeepsInvariant(g: Shape, st: State, s: nat, y: Stripe, ok: bool)
    requires AllInv(g, st) && Within(st, s, y, ok) && Inv(g, y)
    ensures AllInv(g, Changed(st, s, y, ok))
  {
    ChangedStripes(g, st, s, y, ok);
    ChangedRequests(st, s, y, ok);
    ChangedFailures(st, s, y, ok);
    ChangedLogs(st, s, y, ok);
    ChangedCounted(st, s, y, ok);
    ChangedReaders(g, st, s, y, ok);
  }

  // ---------- A write ends, and its request hears of it ----------

  /** Stripe `s` ends its write with `y`, seen from `st'`. */
  ghost predicate EndsIn(st: State, st': State, s: nat, y: Stripe, failed: bool) {
    && s < |st.stripes| && st.stripes[s].op.Some? && y.op.None?
    && var x := st.stripes[s];
    && x.op.value.chunk.stripe == s
    && y.log == x.log + [Served(x.op.value.chunk, !failed)] && y.init == x.init && y.locked == x.locked
    && st'.stripes == st.stripes[s := y] && st'.pending == st.pending
    && st'.accepted == st.accepted && st'.readers == st.readers
  }

  /** The request's bookkeeping. */
  ghost predicate Reported(st: State, st': State, rid: nat, s: nat, failed: bool) {
    && rid in st.requests && s in st.requests[rid].todo
    && var r' := Request(st.requests[rid].todo - {s}, st.requests[rid].err || failed);
    && (r'.todo != {} ==> st'.requests == st.requests[rid := r'] && st'.closed == st.closed && st'.online == st.online)
    && (r'.todo == {} ==> st'.requests == st.requests - {rid} && st'.closed == st.closed[rid := r'.err]
                          && st'.online == (st.online && !r'.err))
  }

  lemma EndedStripes(g: Shape, st: State, st': State, s: nat, y: Stripe, failed: bool)
    requires StripesOk(g, st, -1) && PendingOk(g, st) && EndsIn(st, st', s, y, failed) && Inv(g, y)
    ensures StripesOk(g, st', s) && PendingOk(g, st')
  {
  }

  lemma EndedRuns(st: State, st': State, s: nat, y: Stripe, failed: bool)
    requires EndsIn(st, st', s, y, failed)
    ensures forall r, t :: Runs(st', r, t) <==> Runs(st, r, t) && t != s
    ensures forall r, t :: Waits(st', r, t) <==> Waits(st, r, t)
  {
  }

  lemma EndedRequests(st: State, st': State, s: nat, y: Stripe, failed: bool)
    requires RequestsOk(st, {}) && EndsIn(st, st', s, y, failed)
    requires Reported(st, st', st.stripes[s].op.value.chunk.rid, s, failed)
    ensures RequestsOk(st', {})
  {
    var rid := st.stripes[s].op.value.chunk.rid;
    EndedRuns(st, st', s, y, failed);
    assert !Waits(st, rid, s);
    forall r, t | r in st.requests && t in st.requests[r].todo && (r != rid || t != s)
      ensures r in st'.requests && t in st'.requests[r].todo
    {
      if r == rid {
        assert t in st.requests[rid].todo - {s};
      }
    }
    forall j | 0 <= j < |st'.pending|
      ensures st'.pending[j].rid in st'.requests && st'.pending[j].stripe in st'.requests[st'.pending[j].rid].todo
    {
      assert Waits(st, st.pending[j].rid, st.pending[j].stripe);
    }
  }

  /** The request of the write that ended: it failed exactly if that write did, or one still
      under way has an I/O that failed. */
  lemma EndedOwn(st: State, st': State, s: nat, y: Stripe, ok: bool)
    requires s < |st.stripes| && st.stripes[s].op.Some?
    requires var failed, rid := HasFailed(st.stripes[s].op.value) || !ok, st.stripes[s].op.value.chunk.rid;
      && EndsIn(st, st', s, y, failed) && Reported(st, st', rid, s, failed)
      && st'.failures == if ok then st.failures else st.failures + {rid}
    requires FailuresOk(st)
    requires forall t :: 0 <= t < |st.stripes| && st.stripes[t].op.Some? ==>
      var r := st.stripes[t].op.value.chunk.rid; r in st.requests && t in st.requests[r].todo
    ensures var failed, rid := HasFailed(st.stripes[s].op.value) || !ok, st.stripes[s].op.value.chunk.rid;
      && (rid in st'.failures <==> st.requests[rid].err || failed || FailsSomewhere(st', rid))
      && (FailsSomewhere(st', rid) ==> st.requests[rid].todo - {s} != {})
  {
    var rid, failed := st.stripes[s].op.value.chunk.rid, HasFailed(st.stripes[s].op.value) || !ok;
    if rid in st.failures && !st.requests[rid].err && !failed {
      StillFails(st, st', s, y, rid);
    }
    if FailsSomewhere(st', rid) {
      var t: nat :| Runs(st', rid, t) && HasFailed(st'.stripes[t].op.value);
      assert Runs(st, rid, t) && t in st.requests[rid].todo - {s};
    }
  }

  lemma EndedFailures(st: State, st': State, s: nat, y: Stripe, ok: bool)
    requires s < |st.stripes| && st.stripes[s].op.Some?
    requires var failed, rid := HasFailed(st.stripes[s].op.value) || !ok, st.stripes[s].op.value.chunk.rid;
      && EndsIn(st, st', s, y, failed) && Reported(st, st', rid, s, failed)
      && st'.failures == if ok then st.failures else st.failures + {rid}
    requires FailuresOk(st)
    requires forall t :: 0 <= t < |st.stripes| && st.stripes[t].op.Some? ==>
      var r := st.stripes[t].op.value.chunk.rid; r in st.requests && t in st.requests[r].todo
    requires forall r :: r in st.requests ==> r !in st.readers && r !in st.closed
    ensures FailuresOk(st')
  {
    EndedOwn(st, st', s, y, ok);
    var rid := st.stripes[s].op.value.chunk.rid;
    forall r | r in st.requests && r != rid && r in st.failures && !st.requests[r].err
      ensures FailsSomewhere(st', r)
    {
      StillFails(st, st', s, y, r);
    }
  }

  lemma EndedKeys(st: State, st': State, s: nat, y: Stripe, rid: nat, failed: bool, ok: bool)
    requires KeysOk(st) && EndsIn(st, st', s, y, failed) && Reported(st, st', rid, s, failed)
    requires st'.failures == if ok then st.failures else st.failures + {rid}
    ensures KeysOk(st')
  {
  }

  lemma StillFails(st: State, st': State, s: nat, y: Stripe, r: nat)
    requires FailsSomewhere(st, r) && s < |st.stripes| && st.stripes[s].op.Some?
    requires st'.stripes == st.stripes[s := y]
    requires r == st.stripes[s].op.value.chunk.rid ==> !HasFailed(st.stripes[s].op.value)
    ensures FailsSomewhere(st', r)
  {
    var t: nat :| Runs(st, r, t) && HasFailed(st.stripes[t].op.value);
    assert Runs(st', r, t);
  }

  lemma EndedLogs(st: State, st': State, s: nat, y: Stripe, failed: bool)
    requires LogsOk(st) && EndsIn(st, st', s, y, failed)
    requires forall r :: Erring(st, r) ==> Erring(st', r)
    requires failed ==> Erring(st', st.stripes[s].op.value.chunk.rid)
    ensures LogsOk(st')
  {
  }

  lemma ReportedErring(st: State, st': State, rid: nat, s: nat, failed: bool)
    requires Reported(st, st', rid, s, failed) && rid !in st.closed
    ensures forall r :: Erring(st, r) ==> Erring(st', r)
    ensures failed ==> Erring(st', rid)
  {
  }

  lemma ReportedOnline(st: State, st': State, rid: nat, s: nat, failed: bool)
    requires Reported(st, st', rid, s, failed) && rid !in st.closed && OnlineOk(st)
    ensures OnlineOk(st')
  {
    if st.requests[rid].todo - {s} == {} {
      assert rid in st'.closed;
      assert forall r :: r in st.closed ==> r in st'.closed && st'.closed[r] == st.closed[r];
    }
  }

  lemma EndedCounted(st: State, st': State, s: nat, y: Stripe, failed: bool)
    requires Counted(st) && EndsIn(st, st', s, y, failed)
    ensures Counted(st')
  {
    var x := st.stripes[s];
    assert Chunks(y.log) == Chunks(x.log) + [x.op.value.chunk];
    forall ch: Chunk ensures multiset(st'.accepted)[ch] == Tally(st', ch) {
      assert multiset(st.accepted)[ch] == Tally(st, ch);
    }
  }

  lemma EndedReader(g: Shape, st: State, st': State, s: nat, y: Stripe, failed: bool, rd: Read)
    requires Sound(g, st) && ReaderOk(g, st, rd) && EndsIn(st, st', s, y, failed) && Inv(g, y)
    ensures Sound(g, st') && ReaderOk(g, st', rd)
  {
    var c := st.stripes[s].op.value.chunk;
    forall a | rd.addr <= a < rd.addr + |rd.buf| ensures ByteOk(g, st', rd, a) {
      assert ByteOk(g, st, rd, a);
      assert Busy(g, st', a) ==> Busy(g, st, a);
      if Clean(g, st, rd, a) {
        assert !Hits(g, c, a);
        if StripeOf(g, a) == s {
          LogMisses(st.stripes[s].init, st.stripes[s].log, Served(c, !failed), Inside(g, a));
        }
      }
    }
  }

  lemma LogMisses(init: seq<byte>, log: seq<Served>, e: Served, i: nat)
    requires forall d :: d in log ==> d.chunk.off + |d.chunk.buf| <= |init|
    requires e.chunk.off + |e.chunk.buf| <= |init| && i < |init| && !Covers(e.chunk, i)
    ensures forall d :: d in log + [e] ==> d.chunk.off + |d.chunk.buf| <= |init|
    ensures Known(log + [e], i) == Known(log, i)
    ensures Replay(init, log + [e])[i] == Replay(init, log)[i]
  {
    assert (log + [e])[..|log + [e]| - 1] == log;
  }

  lemma EndedReaders(g: Shape, st: State, st': State, s: nat, y: Stripe, failed: bool)
    requires Sound(g, st) && ReadersOk(g, st) && EndsIn(st, st', s, y, failed) && Inv(g, y)
    ensures Sound(g, st') && ReadersOk(g, st')
  {
    assert Sound(g, st');
    forall r | r in st.readers ensures ReaderOk(g, st', st.readers[r]) {
      EndedReader(g, st, st', s, y, failed, st.readers[r]);
    }
  }

  lemma EndedKeepsInvariant(g: Shape, st: State, st': State, s: nat, y: Stripe, ok: bool)
    requires AllInv(g, st) && Inv(g, y) && s < |st.stripes| && st.stripes[s].op.Some?
    requires var failed, rid := HasFailed(st.stripes[s].op.value) || !ok, st.stripes[s].op.value.chunk.rid;
      && EndsIn(st, st', s, y, failed) && Reported(st, st', rid, s, failed)
      && st'.failures == if ok then st.failures else st.failures + {rid}
    ensures Invariant(g, st', s, {})
  {
    var rid, failed := st.stripes[s].op.value.chunk.rid, HasFailed(st.stripes[s].op.value) || !ok;
    EndedStripes(g, st, st', s, y, failed);
    EndedRequests(st, st', s, y, failed);
    EndedFailures(st, st', s, y, ok);
    EndedKeys(st, st', s, y, rid, failed, ok);
    ReportedErring(st, st', rid, s, failed);
    EndedLogs(st, st', s, y, failed);
    ReportedOnline(st, st', rid, s, failed);
    EndedCounted(st, st', s, y, failed);
    EndedReaders(g, st, st', s, y, failed);
  }

  // ---------- A chunk's write starts on a stripe that has none ----------

  /** What stays the same for everybody else. */
  ghost predicate SameRest(st: State, st': State) {
    && st'.requests == st.requests && st'.readers == st.readers && st'.closed == st.closed
    && st'.online == st.online && st'.failures == st.failures
  }

  ghost predicate Starts(st: State, st': State, s: nat, y: Stripe, ch: Chunk) {
    && s < |st.stripes| && st.stripes[s].op.None? && ch.stripe == s
    && y.op.Some? && y.op.value.chunk == ch && !HasFailed(y.op.value)
    && y.log == st.stripes[s].log && y.init == st.stripes[s].init && y.locked
    && st'.stripes == st.stripes[s := y]
  }

  lemma BeginStarts(g: Shape, x: Stripe, ch: Chunk)
    requires Inv(g, x) && x.op.None? && Fits(g, ch)
    ensures var y := Begin(g, x, ch);
      Inv(g, y) && y.op.Some? && y.op.value.chunk == ch && !HasFailed(y.op.value)
      && y.log == x.log && y.init == x.init && y.locked
  {
    BeginKeepsInv(g, x, ch);
  }

  lemma StartedFailures(st: State, st': State, s: nat, y: Stripe, ch: Chunk)
    requires FailuresOk(st) && KeysOk(st) && SameRest(st, st') && Starts(st, st', s, y, ch)
    ensures FailuresOk(st') && KeysOk(st')
  {
    forall r | FailsSomewhere(st, r) ensures FailsSomewhere(st', r) {
      var t: nat :| Runs(st, r, t) && HasFailed(st.stripes[t].op.value);
      assert Runs(st', r, t);
    }
  }

  lemma StartedLogs(st: State, st': State, s: nat, y: Stripe, ch: Chunk)
    requires LogsOk(st) && SameRest(st, st') && Starts(st, st', s, y, ch)
    ensures LogsOk(st')
  {
  }

  lemma StartedReader(g: Shape, st: State, st': State, s: nat, y: Stripe, ch: Chunk, rd: Read)
    requires Sound(g, st) && ReaderOk(g, st, rd) && Starts(st, st', s, y, ch) && Inv(g, y)
    requires |st'.accepted| >= |st.accepted|
    requires forall a :: rd.addr <= a < rd.addr + |rd.buf| ==> StillClean(g, st, st', rd, a)
    ensures Sound(g, st') && ReaderOk(g, st', rd)
  {
    forall a | rd.addr <= a < rd.addr + |rd.buf| ensures ByteOk(g, st', rd, a) {
      assert ByteOk(g, st, rd, a) && StillClean(g, st, st', rd, a);
    }
  }

  ghost predicate StillClean(g: Shape, st: State, st': State, rd: Read, a: nat)
    requires g.Valid()
  {
    Clean(g, st', rd, a) ==> Clean(g, st, rd, a) && (Busy(g, st', a) ==> Busy(g, st, a))
  }

  // ---------- The lock is passed on ----------

  /** Everybody but entry `j` still waits, and nobody else. */
  lemma StillWaits(pending: seq<Chunk>, j: nat, k: nat) returns (i: nat)
    requires j < |pending| && k < |pending| && k != j
    ensures i < |Without(pending, j)| && Without(pending, j)[i] == pending[k]
  {
    i := if k == |pending| - 1 then j else k;
    WithoutAt(pending, j, i);
  }

  lemma WaitedBefore(pending: seq<Chunk>, j: nat, i: nat) returns (k: nat)
    requires j < |pending| && i < |Without(pending, j)|
    ensures k < |pending| && k != j && Without(pending, j)[i] == pending[k]
  {
    k := if i == j then |pending| - 1 else i;
    WithoutAt(pending, j, i);
  }

  ghost predicate Hands(st: State, st': State, s: nat, y: Stripe, j: nat) {
    && j < |st.pending| && Starts(st, st', s, y, st.pending[j]) && SameRest(st, st')
    && st'.pending == Without(st.pending, j) && st'.accepted == st.accepted
  }

  lemma HandedStripes(g: Shape, st: State, st': State, s: nat, y: Stripe, j: nat)
    requires StripesOk(g, st, s) && PendingOk(g, st) && Hands(st, st', s, y, j) && Inv(g, y)
    ensures StripesOk(g, st', -1) && PendingOk(g, st')
  {
    forall i | 0 <= i < |st'.pending|
      ensures Fits(g, st'.pending[i]) && st'.pending[i].stripe < |st'.stripes| && st'.stripes[st'.pending[i].stripe].locked
    {
      var k := WaitedBefore(st.pending, j, i);
    }
  }

  lemma HandedWaits(st: State, st': State, j: nat, r: nat, t: nat)
    requires j < |st.pending| && st'.pending == Without(st.pending, j)
    requires forall a, b :: 0 <= a < b < |st.pending| ==>
      st.pending[a].rid != st.pending[b].rid || st.pending[a].stripe != st.pending[b].stripe
    ensures Waits(st', r, t) <==> Waits(st, r, t) && !(r == st.pending[j].rid && t == st.pending[j].stripe)
  {
    if Waits(st, r, t) && !(r == st.pending[j].rid && t == st.pending[j].stripe) {
      var k :| 0 <= k < |st.pending| && st.pending[k].rid == r && st.pending[k].stripe == t;
      var i := StillWaits(st.pending, j, k);
      assert st'.pending[i].rid == r && st'.pending[i].stripe == t;
    }
    if Waits(st', r, t) {
      var i :| 0 <= i < |st'.pending| && st'.pending[i].rid == r && st'.pending[i].stripe == t;
      var k := WaitedBefore(st.pending, j, i);
      assert st.pending[k].rid == r && st.pending[k].stripe == t;
    }
  }

  lemma HandedRequests(st: State, st': State, s: nat, y: Stripe, j: nat)
    requires RequestsOk(st, {}) && Hands(st, st', s, y, j)
    ensures RequestsOk(st', {})
  {
    var ch := st.pending[j];
    assert forall r, t :: Runs(st', r, t) <==> Runs(st, r, t) || (r == ch.rid && t == s);
    forall r, t
      ensures Waits(st', r, t) <==> Waits(st, r, t) && !(r == ch.rid && t == s)
    {
      HandedWaits(st, st', j, r, t);
    }
    WithoutDistinct(st.pending, j);
    forall i | 0 <= i < |st'.pending| ensures st'.pending[i] in st.pending {
      WithoutAt(st.pending, j, i);
    }
  }

  lemma WithoutDistinct(pending: seq<Chunk>, j: nat)
    requires j < |pending|
    requires forall a, b :: 0 <= a < b < |pending| ==> pending[a].rid != pending[b].rid || pending[a].stripe != pending[b].stripe
    ensures var r := Without(pending, j);
      forall a, b :: 0 <= a < b < |r| ==> r[a].rid != r[b].rid || r[a].stripe != r[b].stripe
  {
  }

  lemma HandedCounted(st: State, st': State, s: nat, y: Stripe, j: nat)
    requires Counted(st) && Hands(st, st', s, y, j)
    ensures Counted(st')
  {
    WithoutMultiset(st.pending, j);
    forall ch: Chunk ensures multiset(st'.accepted)[ch] == Tally(st', ch) {
      assert multiset(st.accepted)[ch] == Tally(st, ch);
    }
  }

  lemma HandedReaders(g: Shape, st: State, st': State, s: nat, y: Stripe, j: nat)
    requires Sound(g, st) && ReadersOk(g, st) && Hands(st, st', s, y, j) && Inv(g, y)
    ensures Sound(g, st') && ReadersOk(g, st')
  {
    assert Sound(g, st');
    forall r | r in st.readers ensures ReaderOk(g, st', st.readers[r]) {
      HandedReader(g, st, st', s, y, j, st.readers[r]);
    }
  }

  lemma HandedReader(g: Shape, st: State, st': State, s: nat, y: Stripe, j: nat, rd: Read)
    requires Sound(g, st) && ReaderOk(g, st, rd) && Hands(st, st', s, y, j) && Inv(g, y)
    ensures Sound(g, st') && ReaderOk(g, st', rd)
  {
    forall a | rd.addr <= a < rd.addr + |rd.buf| ensures StillClean(g, st, st', rd, a) {
      HandedBusy(g, st, st', s, y, j, a);
    }
    StartedReader(g, st, st', s, y, st.pending[j], rd);
  }

  lemma HandedBusy(g: Shape, st: State, st': State, s: nat, y: Stripe, j: nat, a: nat)
    requires g.Valid() && Hands(st, st', s, y, j)
    ensures Busy(g, st', a) ==> Busy(g, st, a)
  {
    forall i | 0 <= i < |st'.pending| && Hits(g, st'.pending[i], a)
      ensures Busy(g, st, a)
    {
      var k := WaitedBefore(st.pending, j, i);
      assert Hits(g, st.pending[k], a);
    }
    forall t | 0 <= t < |st'.stripes| && st'.stripes[t].op.Some? && Hits(g, st'.stripes[t].op.value.chunk, a)
      ensures Busy(g, st, a)
    {
      if t == s {
        assert Hits(g, st.pending[j], a);
      } else {
        assert st.stripes[t] == st'.stripes[t];
      }
    }
  }

  lemma HandedKeepsInvariant(g: Shape, st: State, st': State, s: nat, y: Stripe, j: nat)
    requires Invariant(g, st, s, {}) && Hands(st, st', s, y, j) && Inv(g, y)
    ensures AllInv(g, st')
  {
    HandedStripes(g, st, st', s, y, j);
    HandedRequests(st, st', s, y, j);
    StartedFailures(st, st', s, y, st.pending[j]);
    StartedLogs(st, st', s, y, st.pending[j]);
    HandedCounted(st, st', s, y, j);
    HandedReaders(g, st, st', s, y, j);
  }

  ghost predicate Frees(st: State, st': State, s: nat) {
    && s < |st.stripes| && st.stripes[s].op.None? && SameRest(st, st')
    && st'.stripes == st.stripes[s := st.stripes[s].(locked := false)]
    && st'.pending == st.pending && st'.accepted == st.accepted
  }

  lemma FreedStripes(g: Shape, st: State, st': State, s: nat)
    requires Sound(g, st) && StripesOk(g, st, s) && PendingOk(g, st) && Frees(st, st', s)
    requires forall i :: 0 <= i < |st.pending| ==> st.pending[i].stripe != s
    ensures Sound(g, st') && StripesOk(g, st', -1) && PendingOk(g, st')
  {
  }

  lemma FreedRequests(st: State, st': State, s: nat)
    requires RequestsOk(st, {}) && Frees(st, st', s)
    ensures RequestsOk(st', {})
  {
    assert forall r, t :: Runs(st', r, t) <==> Runs(st, r, t);
    assert forall r, t :: Waits(st', r, t) <==> Waits(st, r, t);
  }

  lemma FreedFailures(st: State, st': State, s: nat)
    requires KeysOk(st) && FailuresOk(st) && LogsOk(st) && Frees(st, st', s)
    ensures KeysOk(st') && FailuresOk(st') && LogsOk(st')
  {
    forall r | FailsSomewhere(st, r) ensures FailsSomewhere(st', r) {
      var t: nat :| Runs(st, r, t) && HasFailed(st.stripes[t].op.value);
      assert Runs(st', r, t);
    }
  }

  lemma FreedReaders(g: Shape, st: State, st': State, s: nat)
    requires Sound(g, st) && Sound(g, st') && ReadersOk(g, st) && Counted(st) && Frees(st, st', s)
    ensures ReadersOk(g, st') && Counted(st')
  {
    forall ch: Chunk ensures multiset(st'.accepted)[ch] == Tally(st', ch) {
      assert multiset(st.accepted)[ch] == Tally(st, ch);
    }
    forall r | r in st.readers ensures ReaderOk(g, st', st.readers[r]) {
      var rd := st.readers[r];
      assert ReaderOk(g, st, rd);
      forall a | rd.addr <= a < rd.addr + |rd.buf| ensures ByteOk(g, st', rd, a) {
        assert ByteOk(g, st, rd, a);
        assert Busy(g, st', a) ==> Busy(g, st, a);
      }
    }
  }

  lemma PassOnKeepsInvariant(g: Shape, st: State, s: nat)
    requires Invariant(g, st, s, {}) && s < |st.stripes|
    ensures AllInv(g, PassOn(g, st, s))
  {
    var st' := PassOn(g, st, s);
    var j := FirstPending(st.pending, s);
    if j < |st.pending| {
      BeginStarts(g, st.stripes[s], st.pending[j]);
      HandedKeepsInvariant(g, st, st', s, st'.stripes[s], j);
    } else {
      FreedStripes(g, st, st', s);
      FreedRequests(st, st', s);
      FreedFailures(st, st', s);
      FreedReaders(g, st, st', s);
    }
  }
}
