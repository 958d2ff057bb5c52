/** The main results about the RAID4/5 target, for every run: every order of completions,
    every backend failure, any number of clients' requests under way. */
module EngineTheorems {
  import opened Arithmetic
  import opened Bytes
  import opened Options
  import Parity
  import opened StripeWriter
  import opened Waiting
  import opened Engine
  import opened EngineInvariant
  import opened EngineRequests

  // ---------- Runs ----------

  /** A freshly built target: the disks hold anything, no parity is trusted. */
  ghost predicate Initial(g: Shape, st: State) {
    && g.Valid()
    && (forall s :: 0 <= s < |st.stripes| ==>
          var x := st.stripes[s];
          Sized(g, x) && x.init == x.data && x.log == [] && x.op.None? && !x.locked && !x.coherent)
    && st.pending == [] && st.requests == map[] && st.readers == map[] && st.closed == map[]
    && st.accepted == [] && st.failures == {} && st.online
  }

  /** `Shaped` holds of every reachable state (`RunKeepsInvariant`), so a step is one `Apply`. */
  ghost predicate Step(g: Shape, st: State, ev: Event, st': State) {
    Enabled(g, st, ev) && (Shaped(g, st) ==> st' == Apply(g, st, ev))
  }

  ghost predicate Run(g: Shape, states: seq<State>, evs: seq<Event>) {
    && |states| == |evs| + 1
    && forall i :: 0 <= i < |evs| ==> Step(g, states[i], evs[i], states[i + 1])
  }

  // ---------- The invariant holds throughout ----------

  lemma InvariantShapes(g: Shape, st: State)
    requires AllInv(g, st)
    ensures Shaped(g, st)
  {
    forall rid | rid in st.readers ensures ReadShaped(g, st, st.readers[rid]) {
      assert ReaderOk(g, st, st.readers[rid]);
    }
  }

  lemma InitialInvariant(g: Shape, st: State)
    requires Initial(g, st)
    ensures AllInv(g, st)
  {
    forall ch: Chunk ensures multiset(st.accepted)[ch] == Tally(st, ch) {
    }
  }

  lemma ChunkIoKeepsInvariant(g: Shape, st: State, s: nat, part: Part, ok: bool)
    requires AllInv(g, st) && Shaped(g, st) && Enabled(g, st, ChunkIo(s, part, ok))
    ensures AllInv(g, AfterChunkIo(g, st, s, part, ok))
  {
    CompleteKeepsInv(g, st.stripes[s], part, ok);
    CompleteFrame(g, st.stripes[s], part, ok);
    if Complete(g, st.stripes[s], part, ok).op.Some? {
      ChangedKeepsInvariant(g, st, s, Complete(g, st.stripes[s], part, ok), ok);
    } else {
      EndKeepsInvariant(g, st, s, part, ok, Complete(g, st.stripes[s], part, ok));
    }
  }

  lemma EndKeepsInvariant(g: Shape, st: State, s: nat, part: Part, ok: bool, y: Stripe)
    requires AllInv(g, st) && s < |st.stripes| && st.stripes[s].op.Some? && y.op.None? && Inv(g, y)
    requires var x := st.stripes[s];
      y.log == x.log + [Served(x.op.value.chunk, !(HasFailed(x.op.value) || !ok))] && y.init == x.init && y.locked == x.locked
    ensures st.stripes[s].op.value.chunk.rid in st.requests
    ensures var rid := st.stripes[s].op.value.chunk.rid;
      AllInv(g, PassOn(g, Report(Fail(st.(stripes := st.stripes[s := y]), rid, ok), rid, s, !y.log[|y.log| - 1].ok), s))
  {
    var rid := st.stripes[s].op.value.chunk.rid;
    var st1 := Fail(st.(stripes := st.stripes[s := y]), rid, ok);
    var st' := Report(st1, rid, s, !y.log[|y.log| - 1].ok);
    ReportFrame(st1, rid, s, !y.log[|y.log| - 1].ok);
    EndedKeepsInvariant(g, st, st', s, y, ok);
    PassOnKeepsInvariant(g, st', s);
  }

  /** No request is forgotten: an open one is open or over, and over is for good. */
  ghost predicate Remembers(st: State, st': State) {
    && (forall r :: r in st.closed ==> r in st'.closed)
    && (forall r :: r in st.requests ==> r in st'.requests || r in st'.closed)
  }

  lemma ReportFrame(st: State, rid: nat, s: nat, failed: bool)
    requires rid in st.requests
    ensures var st' := Report(st, rid, s, failed);
      && st'.stripes == st.stripes && st'.pending == st.pending && st'.accepted == st.accepted
      && st'.readers == st.readers && st'.failures == st.failures && (st'.online ==> st.online)
      && Remembers(st, st')
      && (s in st.requests[rid].todo ==> Reported(st, st', rid, s, failed))
  {
  }

  lemma SubmitWriteKeepsInvariant(g: Shape, st: State, rid: nat, addr: nat, buf: seq<byte>)
    requires AllInv(g, st) && Shaped(g, st) && Enabled(g, st, SubmitWrite(rid, addr, buf))
    ensures AllInv(g, Apply(g, st, SubmitWrite(rid, addr, buf)))
  {
    if st.online {
      var cs := Split(g.DataSize(), rid, addr, buf);
      SplitIsWellSplit(g, rid, addr, buf, |st.stripes|);
      OpenedKeepsInvariant(g, st, rid, cs);
      AcceptAllKeepsInvariant(g, st.(requests := st.requests[rid := Request(StripesOf(cs), false)]), rid, cs);
    }
  }

  lemma TearKeepsInvariant(g: Shape, st: State, s: nat, part: Part, junk: seq<byte>)
    requires AllInv(g, st) && Shaped(g, st) && Enabled(g, st, Tear(s, part, junk))
    ensures AllInv(g, Apply(g, st, Tear(s, part, junk)))
  {
    TornKeepsInv(g, st.stripes[s], part, junk);
    ChangedKeepsInvariant(g, st, s, Torn(g, st.stripes[s], part, junk), true);
  }

  /** Every event keeps the invariant. */
  lemma StepKeepsInvariant(g: Shape, st: State, ev: Event)
    requires AllInv(g, st) && Shaped(g, st) && Enabled(g, st, ev)
    ensures AllInv(g, Apply(g, st, ev))
  {
    match ev
    case SubmitWrite(rid, addr, buf) => SubmitWriteKeepsInvariant(g, st, rid, addr, buf);
    case SubmitRead(rid, addr, len) =>
      if st.online {
        SubmittedReadKeepsInvariant(g, st, rid, addr, len);
      }
    case ChunkIo(s, part, ok) => ChunkIoKeepsInvariant(g, st, s, part, ok);
    case ReadIo(rid, s, k, ok) => ReadIoKeepsInvariant(g, st, rid, (s, k), ok);
    case Tear(s, part, junk) => TearKeepsInvariant(g, st, s, part, junk);
  }

  lemma {:induction false} RunKeepsInvariant(g: Shape, states: seq<State>, evs: seq<Event>, n: nat)
    requires Run(g, states, evs) && AllInv(g, states[0]) && n <= |evs|
    ensures AllInv(g, states[n])
  {
    if n > 0 {
      RunKeepsInvariant(g, states, evs, n - 1);
      assert Step(g, states[n - 1], evs[n - 1], states[n - 1 + 1]);
      InvariantShapes(g, states[n - 1]);
      StepKeepsInvariant(g, states[n - 1], evs[n - 1]);
    }
  }

  // ---------- Parity ----------

  /** In every state of every run, a stripe that is not locked and whose coherency bit is set
      has all its strips, parity included, cancelling out in every column. */
  lemma ParityEquation(g: Shape, states: seq<State>, evs: seq<Event>, n: nat, s: nat, j: nat)
    requires Run(g, states, evs) && Initial(g, states[0]) && n <= |evs|
    requires s < |states[n].stripes| && !states[n].stripes[s].locked && states[n].stripes[s].coherent
    requires j < g.strip
    ensures |states[n].stripes[s].data| == g.DataSize() && |states[n].stripes[s].parity| == g.strip
    ensures Xor(Parity.StripsXor(states[n].stripes[s].data, g.strip, g.strips, j), states[n].stripes[s].parity[j]) == 0
  {
    InitialInvariant(g, states[0]);
    RunKeepsInvariant(g, states, evs, n);
    var x := states[n].stripes[s];
    assert Inv(g, x) && x.op.None?;
    Parity.CoherentIffStripsCancel(x.data, x.parity, g.strip, g.strips);
  }

  /** So any one strip lost can be rebuilt from the others. */
  lemma LostStripRecoverable(g: Shape, states: seq<State>, evs: seq<Event>, n: nat, s: nat, miss: nat, j: nat)
    requires Run(g, states, evs) && Initial(g, states[0]) && n <= |evs|
    requires s < |states[n].stripes| && !states[n].stripes[s].locked && states[n].stripes[s].coherent
    requires miss < g.strips && j < g.strip
    ensures var x := states[n].stripes[s];
      |x.data| == g.strips * g.strip && |x.parity| == g.strip && miss * g.strip + j < |x.data| &&
      x.data[miss * g.strip + j] == Xor(Parity.OtherStripsXor(x.data, g.strip, g.strips, miss, j), x.parity[j])
  {
    InitialInvariant(g, states[0]);
    RunKeepsInvariant(g, states, evs, n);
    var x := states[n].stripes[s];
    assert Inv(g, x) && x.op.None?;
    assert miss * g.strip + g.strip == (miss + 1) * g.strip;
    MulMonotone(miss + 1, g.strips, g.strip);
    Parity.AnyStripRecoverable(x.data, x.parity, g.strip, g.strips, miss, j);
  }

  // ---------- Nothing outstanding ----------

  /** Some backend I/O is outstanding. */
  ghost predicate HasIo(st: State) {
    || (exists s, part :: 0 <= s < |st.stripes| && Outstanding(st.stripes[s], part))
    || (exists rid, p :: rid in st.readers && p in st.readers[rid].todo)
  }

  ghost predicate Quiet(st: State) { !HasIo(st) }

  lemma RunningHasIo(g: Shape, st: State, s: nat)
    requires StripesOk(g, st, -1) && s < |st.stripes| && st.stripes[s].op.Some?
    ensures HasIo(st)
  {
    var part := SomethingOutstanding(g, st.stripes[s]);
  }

  lemma AnyRunningHasIo(g: Shape, st: State)
    requires StripesOk(g, st, -1)
    ensures forall s :: 0 <= s < |st.stripes| && st.stripes[s].op.Some? ==> HasIo(st)
  {
    forall s | 0 <= s < |st.stripes| && st.stripes[s].op.Some? ensures HasIo(st) {
      RunningHasIo(g, st, s);
    }
  }

  /** Whoever waits for a lock or has a request open waits for backend I/O. */
  lemma ActivityHasIo(g: Shape, st: State)
    requires AllInv(g, st)
    requires st.pending != [] || st.requests != map[] || st.readers != map[]
    ensures HasIo(st)
  {
    if st.pending != [] {
      RunningHasIo(g, st, st.pending[0].stripe);
    } else if rid :| rid in st.requests {
      var s :| s in st.requests[rid].todo;
      assert Runs(st, rid, s) || Waits(st, rid, s);
      RunningHasIo(g, st, s);
    } else {
      var rid :| rid in st.readers;
      assert ReaderOk(g, st, st.readers[rid]);
      var p :| p in st.readers[rid].todo;
    }
  }

  /** Without backend I/O no lock is held, nothing waits, and every request is over. */
  lemma QuietIsIdle(g: Shape, st: State)
    requires AllInv(g, st) && Quiet(st)
    ensures forall s :: 0 <= s < |st.stripes| ==> !st.stripes[s].locked && st.stripes[s].op.None?
    ensures st.pending == [] && st.requests == map[] && st.readers == map[]
  {
    if st.pending != [] || st.requests != map[] || st.readers != map[] {
      ActivityHasIo(g, st);
    }
    AnyRunningHasIo(g, st);
  }

  /** Every accepted chunk was then served exactly as often as it was accepted. */
  lemma QuietServedOnce(g: Shape, st: State, ch: Chunk)
    requires AllInv(g, st) && Quiet(st) && ch.stripe < |st.stripes|
    ensures multiset(st.accepted)[ch] == multiset(Chunks(st.stripes[ch.stripe].log))[ch]
  {
    QuietIsIdle(g, st);
    assert multiset(st.accepted)[ch] == Tally(st, ch);
  }

  // ---------- The order of service ----------

  function Place(ch: Chunk): nat { ch.stripe }

  /** When a stripe's lock is passed on, the chunks left for each stripe keep their order exactly
      if none of those behind the taken one waits for the stripe of the very last one. */
  lemma OrderOfService(g: Shape, st: State, s: nat)
    requires g.Valid() && s < |st.stripes| && FirstPending(st.pending, s) < |st.pending|
    ensures var j, last := FirstPending(st.pending, s), |st.pending| - 1;
      && PassOn(g, st, s).pending == Without(st.pending, j)
      && (OrderKept(st.pending, Place, j) <==> forall i :: j < i < last ==> st.pending[i].stripe != st.pending[last].stripe)
  {
    OrderKeptIff(st.pending, Place, FirstPending(st.pending, s));
  }

  /** Of three chunks waiting for one stripe the third is served second, whatever happens in
      between to everything but the waiting list. */
  lemma ThirdOvertakesSecond(g: Shape, st: State, st': State, s: nat, a: Chunk, b: Chunk, c: Chunk)
    requires g.Valid() && s < |st.stripes| && a.stripe == b.stripe == c.stripe == s && st.pending == [a, b, c]
    requires st'.pending == PassOn(g, st, s).pending && |st'.stripes| == |st.stripes|
    ensures var x, y := PassOn(g, st, s).stripes[s].op, PassOn(g, st', s).stripes[s].op;
      x.Some? && x.value.chunk == a && y.Some? && y.value.chunk == c && PassOn(g, st', s).pending == [b]
  {
    assert FirstPending(st.pending, s) == 0;
    assert st'.pending == [c, b];
    assert FirstPending(st'.pending, s) == 0;
  }

  // ---------- Online means sound ----------

  lemma {:induction false} AllKnown(log: seq<Served>, i: nat)
    requires forall j :: 0 <= j < |log| ==> log[j].ok
    ensures Known(log, i)
  {
    if log != [] {
      AllKnown(log[..|log| - 1], i);
    }
  }

  /** A target that is online with no backend I/O outstanding: every stripe ever written has its
      coherency bit set and a parity that holds, and the data of every stripe is exactly the
      fold of its chunk writes. */
  lemma OnlineQuietIsSound(g: Shape, st: State, s: nat)
    requires AllInv(g, st) && Quiet(st) && st.online && s < |st.stripes|
    ensures st.stripes[s].log != [] ==> st.stripes[s].coherent && ParityHolds(g, st.stripes[s])
    ensures st.stripes[s].data == Replay(st.stripes[s].init, st.stripes[s].log)
    ensures forall j :: 0 <= j < |st.stripes[s].log| ==> st.stripes[s].log[j].ok
  {
    QuietIsIdle(g, st);
    var x := st.stripes[s];
    forall j | 0 <= j < |x.log| ensures x.log[j].ok {
      assert x.log[j].ok || Erring(st, x.log[j].chunk.rid);
    }
    forall i | 0 <= i < |x.data| ensures x.data[i] == Replay(x.init, x.log)[i] {
      AllKnown(x.log, i);
    }
  }

  // ---------- Errors ----------

  /** A request that is over failed exactly if some backend I/O failed for it; it is then in
      no other books, so it is over once; and the target is online exactly as long as none failed. */
  lemma ErrorsAreExact(g: Shape, states: seq<State>, evs: seq<Event>, n: nat, rid: nat)
    requires Run(g, states, evs) && Initial(g, states[0]) && n <= |evs| && rid in states[n].closed
    ensures states[n].closed[rid] <==> rid in states[n].failures
    ensures rid !in states[n].requests && rid !in states[n].readers
    ensures states[n].online <==> forall r :: r in states[n].closed ==> !states[n].closed[r]
  {
    InitialInvariant(g, states[0]);
    RunKeepsInvariant(g, states, evs, n);
  }

  /** `failures` is just that: an event adds a request to it exactly if it is a failing backend
      I/O of that request. */
  lemma FailuresAreFailedIos(g: Shape, st: State, ev: Event, rid: nat)
    requires Shaped(g, st) && Enabled(g, st, ev)
    ensures rid in Apply(g, st, ev).failures <==>
      || rid in st.failures
      || (ev.ChunkIo? && !ev.ok && st.stripes[ev.stripe].op.value.chunk.rid == rid)
      || (ev.ReadIo? && !ev.ok && ev.rid == rid)
  {
    match ev
    case SubmitWrite(r, addr, buf) =>
      SubmitFrame(g, st, r, addr, buf);
    case ChunkIo(s, part, ok) =>
      ChunkIoFrame(g, st, s, part, ok);
    case _ =>
  }

  lemma SubmitFrame(g: Shape, st: State, rid: nat, addr: nat, buf: seq<byte>)
    requires Shaped(g, st) && Enabled(g, st, SubmitWrite(rid, addr, buf))
    ensures var st' := Apply(g, st, SubmitWrite(rid, addr, buf));
      && st'.failures == st.failures && st'.closed == st.closed && st'.online == st.online
      && st'.accepted == st.accepted + (if st.online then Split(g.DataSize(), rid, addr, buf) else [])
      && SameHistory(st, st') && Remembers(st, st') && (st.online ==> rid in st'.requests)
  {
    if st.online {
      var cs := Split(g.DataSize(), rid, addr, buf);
      SplitInRange(g, st, rid, addr, buf);
      AcceptAllFrame(g, st.(requests := st.requests[rid := Request(StripesOf(cs), false)]), cs);
    }
  }

  ghost predicate SameHistory(st: State, st': State) {
    |st'.stripes| == |st.stripes| &&
    forall s :: 0 <= s < |st.stripes| ==>
      st'.stripes[s].log == st.stripes[s].log && st'.stripes[s].init == st.stripes[s].init
  }

  /** The logs only grow. */
  ghost predicate LaterHistory(st: State, st': State) {
    |st'.stripes| == |st.stripes| &&
    forall s :: 0 <= s < |st.stripes| ==>
      st.stripes[s].log <= st'.stripes[s].log && st'.stripes[s].init == st.stripes[s].init
  }

  lemma PassOnFrame(g: Shape, st: State, s: nat)
    requires g.Valid() && s < |st.stripes|
    ensures var st' := PassOn(g, st, s);
      && st'.failures == st.failures && st'.accepted == st.accepted && st'.online == st.online && SameHistory(st, st')
      && st'.requests == st.requests && st'.closed == st.closed
  {
    var j := FirstPending(st.pending, s);
    var y := if j < |st.pending| then Begin(g, st.stripes[s], st.pending[j]) else st.stripes[s].(locked := false);
    assert PassOn(g, st, s).stripes == st.stripes[s := y];
  }

  lemma CompleteHistory(g: Shape, x: Stripe, part: Part, ok: bool)
    requires g.Valid() && Sized(g, x) && Outstanding(x, part) && OpSized(g, x.op.value)
    ensures Complete(g, x, part, ok).init == x.init && x.log <= Complete(g, x, part, ok).log
    ensures Complete(g, x, part, ok).op.None? ==> |Complete(g, x, part, ok).log| > 0
  {
  }

  lemma ChunkIoFrame(g: Shape, st: State, s: nat, part: Part, ok: bool)
    requires Shaped(g, st) && Enabled(g, st, ChunkIo(s, part, ok))
    ensures var st' := AfterChunkIo(g, st, s, part, ok);
      && st'.failures == (if ok then st.failures else st.failures + {st.stripes[s].op.value.chunk.rid})
      && st'.accepted == st.accepted && (st'.online ==> st.online) && LaterHistory(st, st') && Remembers(st, st')
  {
    var rid := st.stripes[s].op.value.chunk.rid;
    var y := Complete(g, st.stripes[s], part, ok);
    CompleteHistory(g, st.stripes[s], part, ok);
    var st1 := Fail(st.(stripes := st.stripes[s := y]), rid, ok);
    if y.op.None? {
      ReportFrame(st1, rid, s, !y.log[|y.log| - 1].ok);
      PassOnFrame(g, Report(st1, rid, s, !y.log[|y.log| - 1].ok), s);
    }
    LaterIn(st, st1, AfterChunkIo(g, st, s, part, ok), s, y);
  }

  /** Only the history of stripe `s` has got longer. */
  lemma LaterIn(st: State, st1: State, st': State, s: nat, y: Stripe)
    requires s < |st.stripes| && st1.stripes == st.stripes[s := y] && SameHistory(st1, st')
    requires st.stripes[s].log <= y.log && y.init == st.stripes[s].init
    ensures LaterHistory(st, st')
  {
    forall t | 0 <= t < |st.stripes|
      ensures st.stripes[t].log <= st'.stripes[t].log && st'.stripes[t].init == st.stripes[t].init
    {
      assert st1.stripes[t] == if t == s then y else st.stripes[t];
    }
  }

  /** Only chunks were accepted. */
  ghost predicate AcceptedOnly(st: State, st': State, cs: seq<Chunk>) {
    && st'.failures == st.failures && st'.requests == st.requests && st'.closed == st.closed && st'.online == st.online
    && st'.accepted == st.accepted + cs && SameHistory(st, st')
  }

  lemma AcceptFrame(g: Shape, st: State, ch: Chunk)
    requires g.Valid() && ch.stripe < |st.stripes|
    ensures AcceptedOnly(st, Accept(g, st, ch), [ch])
  {
  }

  lemma AcceptedMore(st: State, st1: State, st2: State, ch: Chunk, rest: seq<Chunk>)
    requires AcceptedOnly(st, st1, [ch]) && AcceptedOnly(st1, st2, rest)
    ensures AcceptedOnly(st, st2, [ch] + rest)
  {
    assert st.accepted + [ch] + rest == st.accepted + ([ch] + rest);
  }

  lemma {:induction false} AcceptAllFrame(g: Shape, st: State, cs: seq<Chunk>)
    requires g.Valid() && forall ch :: ch in cs ==> ch.stripe < |st.stripes|
    ensures AcceptedOnly(st, AcceptAll(g, st, cs), cs)
    decreases |cs|
  {
    if cs == [] {
      assert st.accepted + cs == st.accepted;
    } else {
      AcceptFrame(g, st, cs[0]);
      AcceptAllFrame(g, Accept(g, st, cs[0]), cs[1..]);
      AcceptedMore(st, Accept(g, st, cs[0]), AcceptAll(g, st, cs), cs[0], cs[1..]);
      assert [cs[0]] + cs[1..] == cs;
    }
  }

  /** Offline is for good, and an offline target refuses every request unchanged. */
  lemma OfflineIsAbsorbing(g: Shape, st: State, ev: Event)
    requires Shaped(g, st) && Enabled(g, st, ev) && !st.online
    ensures !Apply(g, st, ev).online
    ensures ev.SubmitWrite? || ev.SubmitRead? ==> Apply(g, st, ev) == st
  {
    if ev.ChunkIo? {
      ChunkIoFrame(g, st, ev.stripe, ev.part, ev.ok);
    }
  }

  // ---------- Reads ----------

  /** The last backend read of a client read arrives, and none failed: the client gets the flat
      array in each byte that no write overlapped from the read's submission on. */
  lemma CleanReadIsExact(g: Shape, st: State, rid: nat, part: (nat, nat), a: nat)
    requires AllInv(g, st) && rid in st.readers && st.readers[rid].todo == {part}
    requires Clean(g, st, st.readers[rid], a) && !st.readers[rid].err
    requires st.readers[rid].addr <= a < st.readers[rid].addr + |st.readers[rid].buf|
    ensures ReaderOk(g, st, st.readers[rid])
    ensures FlatKnown(g, st, a) ==>
      Fill(g, st, st.readers[rid], part)[a - st.readers[rid].addr] == FlatByte(g, st, a)
  {
    var rd := st.readers[rid];
    assert ReaderOk(g, st, rd);
    ExactLast(g, st, rd, part, a);
  }

  lemma ExactLast(g: Shape, st: State, rd: Read, part: (nat, nat), a: nat)
    requires Sound(g, st) && StripesOk(g, st, -1) && ReaderOk(g, st, rd) && rd.todo == {part} && Clean(g, st, rd, a) && !rd.err
    requires rd.addr <= a < rd.addr + |rd.buf| && StripeOf(g, a) < |st.stripes|
    ensures FlatKnown(g, st, a) ==> Fill(g, st, rd, part)[a - rd.addr] == FlatByte(g, st, a)
  {
    assert ByteOk(g, st, rd, a);
    FillIsFlat(g, st, rd, part, a);
    LastArrived(g, st, rd, part, a);
  }

  /** With the last backend read everything arrived. */
  lemma LastArrived(g: Shape, st: State, rd: Read, part: (nat, nat), a: nat)
    requires Sound(g, st) && ReadShaped(g, st, rd) && rd.todo == {part}
    requires rd.addr <= a < rd.addr + |rd.buf| && StripeOf(g, a) < |st.stripes|
    requires ReadShaped(g, st, EngineRequests.Served(g, st, rd, part, true)) && Arrived(g, st, EngineRequests.Served(g, st, rd, part, true), a)
    ensures FlatKnown(g, st, a) ==> Fill(g, st, rd, part)[a - rd.addr] == FlatByte(g, st, a)
  {
    var rd' := EngineRequests.Served(g, st, rd, part, true);
    assert rd'.todo == {};
    assert ReadOf(g, a) !in rd'.todo;
  }
}
