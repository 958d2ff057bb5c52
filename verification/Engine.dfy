/** The RAID4/5 target as a state machine (ublk/raidsp/acceptor.cpp, target.cpp, fsm.hpp):
    client requests split into chunks, one lock per stripe, one shared list of chunks that
    wait, and the online/offline machine.  An event is a client request, the completion of
    one backend I/O, or a write under way tearing the bytes it may touch. */
module Engine {
  import opened Arithmetic
  import opened Bytes
  import opened Options
  import opened StripeWriter
  import opened Waiting

  /** A client write: the stripes whose chunk is not over yet. */
  datatype Request = Request(todo: set<nat>, err: bool)

  /** A client read of `|buf|` bytes at `addr`; `todo` names its backend reads by stripe and
      strip.  `busy` and `since` say which writes it may overlap: at the addresses `busy` some
      chunk that was outstanding when it was submitted, or those accepted from `since` on. */
  datatype Read = Read(addr: nat, todo: set<(nat, nat)>, err: bool, buf: seq<byte>, busy: set<nat>, since: nat)

  /** `closed` tells of every request that is over whether it failed; `accepted` are all
      chunks ever accepted; `failures` are the requests some backend I/O failed for. */
  datatype State = State(
    stripes: seq<Stripe>,
    pending: seq<Chunk>,
    requests: map<nat, Request>,
    readers: map<nat, Read>,
    online: bool,
    closed: map<nat, bool>,
    accepted: seq<Chunk>,
    failures: set<nat>)

  datatype Event =
    | SubmitWrite(rid: nat, addr: nat, buf: seq<byte>)
    | SubmitRead(rid: nat, addr: nat, len: nat)
    | ChunkIo(stripe: nat, part: Part, ok: bool)
    | ReadIo(rid: nat, stripe: nat, strip: nat, ok: bool)
    | Tear(stripe: nat, part: Part, junk: seq<byte>)

  // ---------- Splitting a write into chunks ----------

  /** One chunk per stripe the request touches, in order. */
  function Split(size: nat, rid: nat, addr: nat, buf: seq<byte>): (cs: seq<Chunk>)
    requires size > 0
    decreases |buf|
  {
    if |buf| == 0 then []
    else
      var off: nat := Wrap(addr, size);
      var len := if |buf| < size - off then |buf| else size - off;
      assert |buf[len..]| < |buf|;
      [Chunk(rid, Quot(addr, size), off, buf[..len])] + Split(size, rid, addr + len, buf[len..])
  }

  // ---------- Steps ----------

  /** A chunk is accepted: its stripe is free and the write starts, or it has to wait. */
  function Accept(g: Shape, st: State, ch: Chunk): State
    requires g.Valid() && ch.stripe < |st.stripes|
  {
    var st' := st.(accepted := st.accepted + [ch]);
    if st.stripes[ch.stripe].locked
    then st'.(pending := st.pending + [ch])
    else st'.(stripes := st.stripes[ch.stripe := Begin(g, st.stripes[ch.stripe], ch)])
  }

  function AcceptAll(g: Shape, st: State, cs: seq<Chunk>): (r: State)
    requires g.Valid() && forall ch :: ch in cs ==> ch.stripe < |st.stripes|
    ensures |r.stripes| == |st.stripes|
    decreases |cs|
  {
    if cs == [] then st else AcceptAll(g, Accept(g, st, cs[0]), cs[1..])
  }

  /** The first waiting chunk of a stripe. */
  function FirstPending(pending: seq<Chunk>, s: nat): (j: nat)
    ensures j <= |pending|
    ensures j < |pending| ==> pending[j].stripe == s
    ensures forall i :: 0 <= i < j ==> pending[i].stripe != s
  {
    if pending == [] then 0 else if pending[0].stripe == s then 0 else 1 + FirstPending(pending[1..], s)
  }

  /** The stripe's lock goes to the first chunk waiting for it, or is released. */
  function PassOn(g: Shape, st: State, s: nat): State
    requires g.Valid() && s < |st.stripes|
  {
    var j := FirstPending(st.pending, s);
    if j < |st.pending| then
      st.(stripes := st.stripes[s := Begin(g, st.stripes[s], st.pending[j])], pending := Without(st.pending, j))
    else
      st.(stripes := st.stripes[s := st.stripes[s].(locked := false)])
  }

  /** A request is over: a failed one takes the target offline. */
  function Close(st: State, rid: nat, err: bool): State {
    st.(closed := st.closed[rid := err], online := st.online && !err)
  }

  /** The chunk of request `rid` on stripe `s` is over. */
  function Report(st: State, rid: nat, s: nat, failed: bool): State
    requires rid in st.requests
  {
    var r := st.requests[rid];
    var r' := Request(r.todo - {s}, r.err || failed);
    if r'.todo == {}
    then Close(st.(requests := st.requests - {rid}), rid, r'.err)
    else st.(requests := st.requests[rid := r'])
  }

  function Fail(st: State, rid: nat, ok: bool): State {
    if ok then st else st.(failures := st.failures + {rid})
  }

  function AfterChunkIo(g: Shape, st: State, s: nat, part: Part, ok: bool): State
    requires g.Valid() && s < |st.stripes| && Sized(g, st.stripes[s])
    requires Outstanding(st.stripes[s], part) && OpSized(g, st.stripes[s].op.value)
    requires st.stripes[s].op.value.chunk.rid in st.requests
  {
    var rid := st.stripes[s].op.value.chunk.rid;
    var y := Complete(g, st.stripes[s], part, ok);
    var st' := Fail(st.(stripes := st.stripes[s := y]), rid, ok);
    if y.op.Some? then st'
    else PassOn(g, Report(st', rid, s, !y.log[|y.log| - 1].ok), s)
  }

  // ---------- Client reads ----------

  /** Address `a` of the flat array: its stripe, and its place in the stripe's data. */
  function StripeOf(g: Shape, a: nat): nat requires g.Valid() { Quot(a, g.DataSize()) }
  function Inside(g: Shape, a: nat): nat requires g.Valid() { Wrap(a, g.DataSize()) }

  /** The backend read that address `a` belongs to. */
  function ReadOf(g: Shape, a: nat): (nat, nat)
    requires g.Valid()
  {
    (StripeOf(g, a), Quot(Inside(g, a), g.strip))
  }

  function ReadParts(g: Shape, addr: nat, len: nat): set<(nat, nat)>
    requires g.Valid()
  {
    set a | addr <= a < addr + len :: ReadOf(g, a)
  }

  /** The chunk covers address `a`. */
  predicate Hits(g: Shape, ch: Chunk, a: nat)
    requires g.Valid()
  {
    StripeOf(g, a) == ch.stripe && Covers(ch, Inside(g, a))
  }

  /** A chunk that covers address `a` is under way, or waits. */
  ghost predicate Busy(g: Shape, st: State, a: nat)
    requires g.Valid()
  {
    || (exists j :: 0 <= j < |st.pending| && Hits(g, st.pending[j], a))
    || (exists s :: 0 <= s < |st.stripes| && st.stripes[s].op.Some? && Hits(g, st.stripes[s].op.value.chunk, a))
  }

  ghost function BusyIn(g: Shape, st: State, addr: nat, len: nat): set<nat>
    requires g.Valid()
  {
    set a | addr <= a < addr + len && Busy(g, st, a)
  }

  ghost predicate ReadShaped(g: Shape, st: State, rd: Read)
    requires g.Valid()
  {
    (forall a :: rd.addr <= a < rd.addr + |rd.buf| ==> StripeOf(g, a) < |st.stripes|) &&
    (forall s :: 0 <= s < |st.stripes| ==> |st.stripes[s].data| == g.DataSize())
  }

  /** The read's buffer once one of its backend reads arrived. */
  function Fill(g: Shape, st: State, rd: Read, part: (nat, nat)): (buf: seq<byte>)
    requires g.Valid()
    requires ReadShaped(g, st, rd)
    ensures |buf| == |rd.buf|
  {
    seq(|rd.buf|, i requires 0 <= i < |rd.buf| =>
      var a := rd.addr + i;
      if ReadOf(g, a) == part then st.stripes[StripeOf(g, a)].data[Inside(g, a)] else rd.buf[i])
  }

  function AfterReadIo(g: Shape, st: State, rid: nat, part: (nat, nat), ok: bool): State
    requires g.Valid() && rid in st.readers
    requires ReadShaped(g, st, st.readers[rid])
  {
    var rd := st.readers[rid];
    var rd' := rd.(todo := rd.todo - {part}, err := rd.err || !ok,
                   buf := if ok then Fill(g, st, rd, part) else rd.buf);
    var st' := Fail(st, rid, ok);
    if rd'.todo == {}
    then Close(st'.(readers := st.readers - {rid}), rid, rd'.err)
    else st'.(readers := st.readers[rid := rd'])
  }

  // ---------- Events ----------

  ghost predicate Fresh(st: State, rid: nat) {
    rid !in st.requests && rid !in st.readers && rid !in st.closed
  }

  ghost predicate InRange(g: Shape, st: State, addr: nat, len: nat) {
    len > 0 && addr + len <= |st.stripes| * g.DataSize()
  }

  ghost predicate Enabled(g: Shape, st: State, ev: Event) {
    match ev
    case SubmitWrite(rid, addr, buf) => Fresh(st, rid) && InRange(g, st, addr, |buf|)
    case SubmitRead(rid, addr, len) => Fresh(st, rid) && InRange(g, st, addr, len)
    case ChunkIo(s, part, _) => s < |st.stripes| && Outstanding(st.stripes[s], part)
    case ReadIo(rid, s, k, _) => rid in st.readers && (s, k) in st.readers[rid].todo
    case Tear(s, part, junk) =>
      s < |st.stripes| && Outstanding(st.stripes[s], part) && st.stripes[s].op.value.phase.Write? &&
      |junk| == if part.ParityStrip? then g.strip else |st.stripes[s].op.value.chunk.buf|
  }

  /** Requests on an offline target are refused (`EIO`) and change nothing. */
  ghost function Apply(g: Shape, st: State, ev: Event): State
    requires Shaped(g, st) && Enabled(g, st, ev)
  {
    match ev
    case SubmitWrite(rid, addr, buf) =>
      if !st.online then st
      else
        var cs := Split(g.DataSize(), rid, addr, buf);
        SplitInRange(g, st, rid, addr, buf);
        AcceptAll(g, st.(requests := st.requests[rid := Request(StripesOf(cs), false)]), cs)
    case SubmitRead(rid, addr, len) =>
      if !st.online then st
      else st.(readers := st.readers[rid := Read(addr, ReadParts(g, addr, len), false, Zeros(len),
                                             BusyIn(g, st, addr, len), |st.accepted|)])
    case ChunkIo(s, part, ok) =>
      AfterChunkIo(g, st, s, part, ok)
    case ReadIo(rid, s, k, ok) =>
      AfterReadIo(g, st, rid, (s, k), ok)
    case Tear(s, part, junk) =>
      st.(stripes := st.stripes[s := Torn(g, st.stripes[s], part, junk)])
  }

  function StripesOf(cs: seq<Chunk>): set<nat> {
    set j | 0 <= j < |cs| :: cs[j].stripe
  }

  // ---------- Shape ----------

  /** What the steps need to be defined. */
  ghost predicate Shaped(g: Shape, st: State) {
    && g.Valid()
    && (forall s :: 0 <= s < |st.stripes| ==>
          && Sized(g, st.stripes[s])
          && (st.stripes[s].op.Some? ==> OpSized(g, st.stripes[s].op.value) && st.stripes[s].op.value.chunk.rid in st.requests))
    && (forall rid :: rid in st.readers ==> ReadShaped(g, st, st.readers[rid]))
  }

  lemma SplitInRange(g: Shape, st: State, rid: nat, addr: nat, buf: seq<byte>)
    requires g.Valid() && addr + |buf| <= |st.stripes| * g.DataSize()
    ensures forall ch :: ch in Split(g.DataSize(), rid, addr, buf) ==> ch.stripe < |st.stripes|
    decreases |buf|
  {
    if buf != [] {
      var size := g.DataSize();
      var off := Wrap(addr, size);
      var len := if |buf| < size - off then |buf| else size - off;
      QuotInRange(addr, size, |st.stripes|);
      SplitInRange(g, st, rid, addr + len, buf[len..]);
    }
  }

  lemma QuotInRange(a: nat, n: nat, m: nat)
    requires n > 0 && a < m * n
    ensures Quot(a, n) < m
  {
    QuotWrap(a, n);
    if Quot(a, n) >= m {
      MulMonotone(m, Quot(a, n), n);
      assert false;
    }
  }
}
