/** One stripe of a RAID4/5 array and the locked, phased write that updates it
    (ublk/raidsp/acceptor.cpp).  A write is a chunk of one stripe; it is carried out by
    backend I/Os that complete one at a time, in any order, each well or with an error. */
module StripeWriter {
  import opened Arithmetic
  import opened Bytes
  import opened Options
  import Parity

  /** `strips` data strips of `strip` bytes, and one parity strip. */
  datatype Shape = Shape(strips: nat, strip: nat) {
    ghost predicate Valid() { strips >= 2 && strip > 0 }
    function DataSize(): (size: nat)
      ensures strips > 0 && strip > 0 ==> size > 0
    {
      strips * strip
    }
  }

  /** A part of request `rid`: bytes `off` onwards of one stripe. */
  datatype Chunk = Chunk(rid: nat, stripe: nat, off: nat, buf: seq<byte>)

  datatype Phase =
    | ReadOld(todo: set<nat>, err: bool, old_: seq<byte>)       // coherent parity: the bytes to be replaced
    | ReadParity(old_: seq<byte>)                                // coherent parity: then the parity strip
    | ReadStripe(todo: set<nat>, err: bool, whole: seq<byte>)   // incoherent parity: all the data
    | Write(coherently: bool, todo: set<nat>, parityTodo: bool, errD: bool, errP: bool, newParity: seq<byte>)

  datatype Op = Op(chunk: Chunk, phase: Phase)

  /** A chunk write that is over, and whether it reported success. */
  datatype Served = Served(chunk: Chunk, ok: bool)

  /** A backend I/O of a chunk write: one data strip, or the parity strip. */
  datatype Part = DataStrip(k: nat) | ParityStrip

  /** A stripe: what the disks hold, what the acceptor remembers about it, the write under
      way, and for the specification its first content and the writes already over. */
  datatype Stripe = Stripe(data: seq<byte>, parity: seq<byte>, coherent: bool, locked: bool,
                           op: Option<Op>, init: seq<byte>, log: seq<Served>)

  // ---------- Pieces of a range, strip by strip ----------

  /** The strips a range of stripe data touches. */
  function Strips(n: nat, off: nat, len: nat): set<nat>
    requires n > 0
  {
    set i | off <= i < off + len :: Quot(i, n)
  }

  /** Stripe data once strip `k` of the range at `off` holds its part of `buf`. */
  function Put(data: seq<byte>, n: nat, off: nat, buf: seq<byte>, k: nat): (r: seq<byte>)
    requires n > 0 && off + |buf| <= |data|
    ensures |r| == |data|
  {
    seq(|data|, i requires 0 <= i < |data| =>
      if off <= i < off + |buf| && Quot(i, n) == k then buf[i - off] else data[i])
  }

  /** A buffer for the range at `off` once strip `k` of it was read. */
  function Get(buf: seq<byte>, n: nat, off: nat, data: seq<byte>, k: nat): (r: seq<byte>)
    requires n > 0 && off + |buf| <= |data|
    ensures |r| == |buf|
  {
    seq(|buf|, i requires 0 <= i < |buf| => if Quot(off + i, n) == k then data[off + i] else buf[i])
  }

  // ---------- Steps ----------

  ghost predicate Fits(g: Shape, ch: Chunk) {
    |ch.buf| > 0 && ch.off + |ch.buf| <= g.DataSize()
  }

  function WritePhase(g: Shape, ch: Chunk, coherently: bool, newParity: seq<byte>): Phase
    requires g.strip > 0
  {
    Write(coherently, Strips(g.strip, ch.off, |ch.buf|), true, false, false, newParity)
  }

  /** How the write of a chunk starts. */
  function FirstPhase(g: Shape, x: Stripe, ch: Chunk): Phase
    requires g.strip > 0
  {
    if |ch.buf| < g.DataSize() then
      if x.coherent
      then ReadOld(Strips(g.strip, ch.off, |ch.buf|), false, Zeros(|ch.buf|))
      else ReadStripe(Strips(g.strip, 0, g.DataSize()), false, Zeros(g.DataSize()))
    else
      WritePhase(g, ch, x.coherent, Parity.Of(ch.buf, g.strip))
  }

  function Begin(g: Shape, x: Stripe, ch: Chunk): Stripe
    requires g.strip > 0
  {
    x.(locked := true, op := Some(Op(ch, FirstPhase(g, x, ch))))
  }

  ghost predicate Outstanding(x: Stripe, part: Part) {
    x.op.Some? &&
    match x.op.value.phase
    case ReadOld(todo, _, _) => part.DataStrip? && part.k in todo
    case ReadParity(_) => part.ParityStrip?
    case ReadStripe(todo, _, _) => part.DataStrip? && part.k in todo
    case Write(_, todo, parityTodo, _, _, _) => if part.ParityStrip? then parityTodo else part.k in todo
  }

  /** An I/O of the write under way completes: the phase it leads to, or the end of the
      write with its verdict. */
  datatype Outcome = Goes(phase: Phase) | Ends(failed: bool)

  function AfterRead(g: Shape, x: Stripe, k: nat, ok: bool): Outcome
    requires g.Valid() && Sized(g, x) && x.op.Some? && OpSized(g, x.op.value)
    requires x.op.value.phase.ReadOld? || x.op.value.phase.ReadStripe?
  {
    var ch := x.op.value.chunk;
    match x.op.value.phase
    case ReadOld(todo, err, old_) =>
      var old' := if ok then Get(old_, g.strip, ch.off, x.data, k) else old_;
      if todo - {k} != {} then Goes(ReadOld(todo - {k}, err || !ok, old'))
      else if err || !ok then Ends(true)
      else Goes(ReadParity(old'))
    case ReadStripe(todo, err, whole) =>
      var whole' := if ok then Get(whole, g.strip, 0, x.data, k) else whole;
      if todo - {k} != {} then Goes(ReadStripe(todo - {k}, err || !ok, whole'))
      else if err || !ok then Ends(true)
      else Goes(WritePhase(g, ch, false, Parity.Of(Overlay(whole', ch.off, ch.buf), g.strip)))
  }

  function AfterParityRead(g: Shape, x: Stripe, ok: bool): Outcome
    requires g.Valid() && Sized(g, x) && x.op.Some? && OpSized(g, x.op.value)
    requires x.op.value.phase.ReadParity?
  {
    var ch := x.op.value.chunk;
    if !ok then Ends(true)
    else Goes(WritePhase(g, ch, true,
                         Parity.Folded(x.parity, XorSeq(ch.buf, x.op.value.phase.old_), ch.off % g.strip)))
  }

  function AfterWrite(x: Stripe, part: Part, ok: bool): Outcome
    requires x.op.Some? && x.op.value.phase.Write?
  {
    var p := x.op.value.phase;
    var p' := if part.ParityStrip?
              then p.(parityTodo := false, errP := p.errP || !ok)
              else p.(todo := p.todo - {part.k}, errD := p.errD || !ok);
    if p'.todo == {} && !p'.parityTodo then Ends(p'.errD || p'.errP) else Goes(p')
  }

  function After(g: Shape, x: Stripe, part: Part, ok: bool): Outcome
    requires g.Valid() && Sized(g, x) && Outstanding(x, part) && OpSized(g, x.op.value)
  {
    match x.op.value.phase
    case Write(_, _, _, _, _, _) => AfterWrite(x, part, ok)
    case ReadParity(_) => AfterParityRead(g, x, ok)
    case _ => AfterRead(g, x, part.k, ok)
  }

  /** What the disks hold once the I/O did its work: writes that fail, or are still under
      way, leave whatever bytes they like (`Torn`). */
  function Stored(g: Shape, x: Stripe, part: Part, ok: bool): Stripe
    requires g.Valid() && Sized(g, x) && Outstanding(x, part) && OpSized(g, x.op.value)
  {
    var op := x.op.value;
    if !op.phase.Write? || !ok then x
    else if part.ParityStrip? then x.(parity := op.phase.newParity)
    else x.(data := Put(x.data, g.strip, op.chunk.off, op.chunk.buf, part.k))
  }

  function Torn(g: Shape, x: Stripe, part: Part, junk: seq<byte>): Stripe
    requires g.Valid() && Sized(g, x) && Outstanding(x, part) && OpSized(g, x.op.value)
    requires x.op.value.phase.Write?
    requires |junk| == if part.ParityStrip? then g.strip else |x.op.value.chunk.buf|
  {
    if part.ParityStrip? then x.(parity := junk)
    else x.(data := Put(x.data, g.strip, x.op.value.chunk.off, junk, part.k))
  }

  /** The coherency bit after a write I/O: a coherent write clears it as soon as its data or
      its parity is over with an error; an incoherent one decides when both are over. */
  function Coherency(x: Stripe, part: Part, ok: bool): bool
    requires x.op.Some?
  {
    var p := x.op.value.phase;
    if !p.Write? then x.coherent
    else
      var errD, errP := p.errD || (part.DataStrip? && !ok), p.errP || (part.ParityStrip? && !ok);
      var dataOver := if part.DataStrip? then p.todo - {part.k} == {} else p.todo == {};
      var parityOver := part.ParityStrip? || !p.parityTodo;
      if p.coherently then
        x.coherent && !(part.DataStrip? && dataOver && errD) && !(part.ParityStrip? && errP)
      else if dataOver && parityOver then !(errD || errP)
      else x.coherent
  }

  /** The stripe after an I/O of the write under way completed.  When that ends the write,
      the write is logged and the stripe is left without one, but still locked: who gets it
      next is for the pending list to say. */
  function Complete(g: Shape, x: Stripe, part: Part, ok: bool): Stripe
    requires g.Valid() && Sized(g, x) && Outstanding(x, part) && OpSized(g, x.op.value)
  {
    var y := Stored(g, x, part, ok).(coherent := Coherency(x, part, ok));
    match After(g, x, part, ok)
    case Goes(phase) => y.(op := Some(x.op.value.(phase := phase)))
    case Ends(failed) => y.(op := None, log := x.log + [Served(x.op.value.chunk, !failed)])
  }

  // ---------- Sizes ----------

  ghost predicate Sized(g: Shape, x: Stripe) {
    |x.data| == |x.init| == g.DataSize() && |x.parity| == g.strip
  }

  ghost predicate OpSized(g: Shape, op: Op)
    requires g.strip > 0
  {
    Fits(g, op.chunk) &&
    match op.phase
    case ReadOld(todo, _, old_) => todo != {} && todo <= Strips(g.strip, op.chunk.off, |op.chunk.buf|) && |old_| == |op.chunk.buf|
    case ReadParity(old_) => |old_| == |op.chunk.buf|
    case ReadStripe(todo, _, whole) => todo != {} && todo <= Strips(g.strip, 0, g.DataSize()) && |whole| == g.DataSize()
    case Write(_, todo, parityTodo, _, errP, newParity) =>
      (todo != {} || parityTodo) && todo <= Strips(g.strip, op.chunk.off, |op.chunk.buf|) &&
      |newParity| == g.strip && (parityTodo ==> !errP)
  }

  // ---------- The specification: a flat stripe ----------

  /** The stripe's data as the fold of its chunk writes in the order they were served. */
  function Replay(init: seq<byte>, log: seq<Served>): (r: seq<byte>)
    requires forall e :: e in log ==> e.chunk.off + |e.chunk.buf| <= |init|
    ensures |r| == |init|
  {
    if log == [] then init
    else
      var e := log[|log| - 1];
      Overlay(Replay(init, log[..|log| - 1]), e.chunk.off, e.chunk.buf)
  }

  predicate Covers(ch: Chunk, i: nat) { ch.off <= i < ch.off + |ch.buf| }

  /** Byte `i` is defined: the last write to it, if any, succeeded. */
  predicate Known(log: seq<Served>, i: nat) {
    if log == [] then true
    else
      var e := log[|log| - 1];
      if Covers(e.chunk, i) then e.ok else Known(log[..|log| - 1], i)
  }

  predicate BeingWritten(x: Stripe, i: nat) {
    x.op.Some? && x.op.value.phase.Write? && Covers(x.op.value.chunk, i)
  }

  predicate HasFailed(op: Op) {
    match op.phase
    case ReadOld(_, err, _) => err
    case ReadParity(_) => false
    case ReadStripe(_, err, _) => err
    case Write(_, _, _, errD, errP, _) => errD || errP
  }

  // ---------- The invariant of one stripe ----------

  ghost predicate ParityHolds(g: Shape, x: Stripe)
    requires g.strip > 0
  {
    x.parity == Parity.Of(x.data, g.strip)
  }

  /** The phase-indexed parity equation. */
  ghost predicate PhaseOk(g: Shape, x: Stripe)
    requires g.Valid() && Sized(g, x)
  {
    match x.op
    case None => x.coherent ==> ParityHolds(g, x)
    case Some(op) =>
      OpSized(g, op) &&
      var n, off, buf := g.strip, op.chunk.off, op.chunk.buf;
      match op.phase
      case ReadOld(todo, err, old_) =>
        x.coherent && ParityHolds(g, x) &&
        (!err ==> forall i :: 0 <= i < |buf| && Quot(off + i, n) !in todo ==> old_[i] == x.data[off + i])
      case ReadParity(old_) =>
        x.coherent && ParityHolds(g, x) && old_ == x.data[off..off + |buf|]
      case ReadStripe(todo, err, whole) =>
        !x.coherent &&
        (!err ==> forall i :: 0 <= i < |whole| && Quot(i, n) !in todo ==> whole[i] == x.data[i])
      case Write(coherently, todo, parityTodo, errD, errP, newParity) =>
        newParity == Parity.Of(Overlay(x.data, off, buf), n) &&
        (!errD ==> forall i :: off <= i < off + |buf| && Quot(i, n) !in todo ==> x.data[i] == buf[i - off]) &&
        (!errP && !parityTodo ==> x.parity == newParity) &&
        x.coherent == (coherently && !(todo == {} && errD) && !errP)
  }

  /** Data bytes are those of the flat stripe, wherever no write is under way. */
  ghost predicate FlatOk(x: Stripe)
    requires forall e :: e in x.log ==> e.chunk.off + |e.chunk.buf| <= |x.init|
    requires |x.data| == |x.init|
  {
    forall i :: 0 <= i < |x.data| && Known(x.log, i) && !BeingWritten(x, i) ==>
      x.data[i] == Replay(x.init, x.log)[i]
  }

  /** After a successful write the parity stays coherent until an I/O fails. */
  ghost predicate BitOk(x: Stripe) {
    x.log != [] && x.log[|x.log| - 1].ok && !(x.op.Some? && HasFailed(x.op.value)) ==> x.coherent
  }

  ghost predicate Inv(g: Shape, x: Stripe) {
    g.Valid() && Sized(g, x) &&
    (x.op.Some? ==> x.locked) &&
    (forall e :: e in x.log ==> Fits(g, e.chunk)) &&
    PhaseOk(g, x) && FlatOk(x) && BitOk(x)
  }

  // ---------- Every step keeps the invariant ----------

  lemma StripsNonEmpty(n: nat, off: nat, len: nat)
    requires n > 0 && len > 0
    ensures Strips(n, off, len) != {}
  {
    assert Quot(off, n) in Strips(n, off, len);
  }

  lemma BeginKeepsInv(g: Shape, x: Stripe, ch: Chunk)
    requires Inv(g, x) && x.op.None? && Fits(g, ch)
    ensures Inv(g, Begin(g, x, ch))
  {
    StripsNonEmpty(g.strip, ch.off, |ch.buf|);
    StripsNonEmpty(g.strip, 0, g.DataSize());
    if |ch.buf| == g.DataSize() {
      assert Overlay(x.data, ch.off, ch.buf) == ch.buf;
    }
  }

  /** Some byte of the chunk is in strip `k`. */
  ghost predicate Touches(g: Shape, ch: Chunk, k: nat)
    requires g.Valid()
  {
    exists i: nat :: ch.off <= i < ch.off + |ch.buf| && Quot(i, g.strip) == k
  }

  /** What starting a write reads: of a coherent stripe exactly the strips it changes, of an
      incoherent one all data strips, and nothing at all if it writes the whole stripe, which is
      when all strips and the parity go out at once.  Nothing of the stripe changes by that. */
  lemma StartReadsAsNeeded(g: Shape, x: Stripe, ch: Chunk, k: nat)
    requires g.Valid() && Fits(g, ch)
    ensures var y := Begin(g, x, ch);
      && y.op.Some? && y.op.value.chunk == ch && y.locked
      && y.data == x.data && y.parity == x.parity && y.coherent == x.coherent && y.init == x.init && y.log == x.log
      && (|ch.buf| == g.DataSize() <==> y.op.value.phase.Write?)
      && (Outstanding(y, ParityStrip) <==> |ch.buf| == g.DataSize())
      && (Outstanding(y, DataStrip(k)) <==>
            if |ch.buf| < g.DataSize() && x.coherent then Touches(g, ch, k) else k < g.strips)
  {
    AllStrips(g, k);
    if |ch.buf| == g.DataSize() {
      assert ch.off == 0;
    } else if x.coherent {
      assert k in Strips(g.strip, ch.off, |ch.buf|) <==> Touches(g, ch, k);
    }
  }

  lemma AllStrips(g: Shape, k: nat)
    requires g.Valid()
    ensures k in Strips(g.strip, 0, g.DataSize()) <==> k < g.strips
  {
    if k < g.strips {
      LowerQuotientIsLess(k, 0, g.strips, 0, g.strip);
      QuotUnique(k * g.strip, g.strip, k, 0);
      assert k * g.strip < g.DataSize();
    }
    forall i | 0 <= i < g.DataSize() ensures Quot(i, g.strip) < g.strips {
      RoomToNext(i, g.strip, g.strips);
    }
  }

  /** The coherency bit follows the I/Os that write: reads never change it, nor does giving up after
      one failed; a write that is over leaves it set exactly if no I/O of its that wrote failed; and
      before that it is cleared only after one did. */
  lemma BitFollowsFailures(g: Shape, x: Stripe, part: Part, ok: bool)
    requires Inv(g, x) && Outstanding(x, part)
    ensures var p, y := x.op.value.phase, Complete(g, x, part, ok);
      && (!p.Write? ==> y.coherent == x.coherent)
      && (p.Write? && y.op.None? ==> (y.coherent <==> ok && !p.errD && !p.errP))
      && (p.Write? && y.op.Some? ==> (y.coherent ==> x.coherent) && (x.coherent && !y.coherent ==> !ok || p.errD || p.errP))
  {
  }

  lemma TornKeepsInv(g: Shape, x: Stripe, part: Part, junk: seq<byte>)
    requires Inv(g, x) && Outstanding(x, part) && x.op.value.phase.Write?
    requires |junk| == if part.ParityStrip? then g.strip else |x.op.value.chunk.buf|
    ensures Inv(g, Torn(g, x, part, junk))
  {
    var y := Torn(g, x, part, junk);
    var ch := x.op.value.chunk;
    assert Overlay(y.data, ch.off, ch.buf) == Overlay(x.data, ch.off, ch.buf);
  }

  /** The last strip of a range arrives: the buffer holds the whole range. */
  lemma LastRead(n: nat, off: nat, buf: seq<byte>, data: seq<byte>, todo: set<nat>, k: nat)
    requires n > 0 && off + |buf| <= |data| && todo - {k} == {}
    requires forall i :: 0 <= i < |buf| && Quot(off + i, n) !in todo ==> buf[i] == data[off + i]
    ensures Get(buf, n, off, data, k) == data[off..off + |buf|]
  {
    var r := Get(buf, n, off, data, k);
    forall i | 0 <= i < |buf| ensures r[i] == data[off + i] {
      if Quot(off + i, n) != k {
        assert Quot(off + i, n) !in todo - {k};
      }
    }
  }

  /** The write under way ends: what is known of the flat stripe. */
  lemma LogStep(x: Stripe, y: Stripe, failed: bool)
    requires x.op.Some? && |x.data| == |x.init| == |y.data| && x.init == y.init
    requires forall e :: e in x.log ==> e.chunk.off + |e.chunk.buf| <= |x.init|
    requires x.op.value.chunk.off + |x.op.value.chunk.buf| <= |x.init|
    requires y.op.None? && y.log == x.log + [Served(x.op.value.chunk, !failed)]
    requires FlatOk(x)
    requires forall i :: 0 <= i < |x.data| && !Covers(x.op.value.chunk, i) ==> y.data[i] == x.data[i]
    requires !failed ==> forall i :: 0 <= i < |x.data| && Covers(x.op.value.chunk, i) ==>
      y.data[i] == x.op.value.chunk.buf[i - x.op.value.chunk.off]
    ensures forall e :: e in y.log ==> e.chunk.off + |e.chunk.buf| <= |y.init|
    ensures FlatOk(y)
  {
    assert y.log[..|y.log| - 1] == x.log;
  }

  /** Before anything is written, a write may move on to any phase that fits the stripe. */
  lemma MoveOn(g: Shape, x: Stripe, phase: Phase)
    requires Inv(g, x) && x.op.Some? && !x.op.value.phase.Write?
    requires PhaseOk(g, x.(op := Some(Op(x.op.value.chunk, phase))))
    requires HasFailed(x.op.value) ==> HasFailed(Op(x.op.value.chunk, phase)) || x.coherent
    requires x.coherent || !phase.ReadOld?
    ensures Inv(g, x.(op := Some(Op(x.op.value.chunk, phase))))
  {
  }

  /** Before anything is written, a write may also be given up. */
  lemma GiveUp(g: Shape, x: Stripe)
    requires Inv(g, x) && x.op.Some? && !x.op.value.phase.Write?
    ensures Inv(g, x.(op := None, log := x.log + [Served(x.op.value.chunk, false)]))
  {
    LogStep(x, x.(op := None, log := x.log + [Served(x.op.value.chunk, false)]), true);
  }

  /** The bytes to be replaced are all read: the parity is next. */
  lemma ReadsParity(g: Shape, x: Stripe, k: nat)
    requires Inv(g, x) && Outstanding(x, DataStrip(k)) && x.op.value.phase.ReadOld? && !x.op.value.phase.err
    requires x.op.value.phase.todo - {k} == {}
    ensures Inv(g, Complete(g, x, DataStrip(k), true))
  {
    var ch, p := x.op.value.chunk, x.op.value.phase;
    LastRead(g.strip, ch.off, p.old_, x.data, p.todo, k);
    MoveOn(g, x, ReadParity(x.data[ch.off..ch.off + |ch.buf|]));
  }

  lemma CompleteReadOldKeepsInv(g: Shape, x: Stripe, k: nat, ok: bool)
    requires Inv(g, x) && Outstanding(x, DataStrip(k)) && x.op.value.phase.ReadOld?
    ensures Inv(g, Complete(g, x, DataStrip(k), ok))
  {
    var p := x.op.value.phase;
    if p.todo - {k} != {} {
      MoveOn(g, x, After(g, x, DataStrip(k), ok).phase);
    } else if p.err || !ok {
      GiveUp(g, x);
    } else {
      ReadsParity(g, x, k);
    }
  }

  /** A whole stripe was read: its parity is renewed. */
  lemma StartsWriting(g: Shape, x: Stripe)
    requires Inv(g, x) && x.op.Some? && x.op.value.phase.ReadStripe? && !x.op.value.phase.err
    ensures var ch := x.op.value.chunk;
      Inv(g, x.(op := Some(Op(ch, WritePhase(g, ch, false, Parity.Of(Overlay(x.data, ch.off, ch.buf), g.strip))))))
  {
    var ch := x.op.value.chunk;
    StripsNonEmpty(g.strip, ch.off, |ch.buf|);
    MoveOn(g, x, WritePhase(g, ch, false, Parity.Of(Overlay(x.data, ch.off, ch.buf), g.strip)));
  }

  lemma CompleteReadStripeKeepsInv(g: Shape, x: Stripe, k: nat, ok: bool)
    requires Inv(g, x) && Outstanding(x, DataStrip(k)) && x.op.value.phase.ReadStripe?
    ensures Inv(g, Complete(g, x, DataStrip(k), ok))
  {
    var ch, p := x.op.value.chunk, x.op.value.phase;
    if p.todo - {k} != {} {
      MoveOn(g, x, After(g, x, DataStrip(k), ok).phase);
    } else if p.err || !ok {
      GiveUp(g, x);
    } else {
      LastRead(g.strip, 0, p.whole, x.data, p.todo, k);
      assert x.data[0..0 + |p.whole|] == x.data;
      StartsWriting(g, x);
    }
  }

  lemma CompleteParityReadKeepsInv(g: Shape, x: Stripe, ok: bool)
    requires Inv(g, x) && Outstanding(x, ParityStrip) && x.op.value.phase.ReadParity?
    ensures Inv(g, Complete(g, x, ParityStrip, ok))
  {
    var ch := x.op.value.chunk;
    if ok {
      Parity.ReadModifyWriteIsRecompute(x.data, g.strip, ch.off, ch.buf);
      StripsNonEmpty(g.strip, ch.off, |ch.buf|);
      MoveOn(g, x, After(g, x, ParityStrip, ok).phase);
    } else {
      GiveUp(g, x);
    }
  }

  /** What a completed write I/O leaves on the disks. */
  lemma StoredFacts(g: Shape, x: Stripe, part: Part, ok: bool)
    requires Inv(g, x) && Outstanding(x, part) && x.op.value.phase.Write?
    ensures var ch, y := x.op.value.chunk, Stored(g, x, part, ok);
      && Sized(g, y)
      && Overlay(y.data, ch.off, ch.buf) == Overlay(x.data, ch.off, ch.buf)
      && (forall i :: 0 <= i < |x.data| && !Covers(ch, i) ==> y.data[i] == x.data[i])
      && (!x.op.value.phase.errD && (ok || part.ParityStrip?) ==>
          forall i :: ch.off <= i < ch.off + |ch.buf| && Quot(i, g.strip) !in DataLeft(x, part) ==>
            y.data[i] == ch.buf[i - ch.off])
  {
    var ch, y := x.op.value.chunk, Stored(g, x, part, ok);
    assert Overlay(y.data, ch.off, ch.buf) == Overlay(x.data, ch.off, ch.buf);
  }

  /** The data strips still to be written. */
  function DataLeft(x: Stripe, part: Part): set<nat>
    requires x.op.Some? && x.op.value.phase.Write?
  {
    if part.DataStrip? then x.op.value.phase.todo - {part.k} else x.op.value.phase.todo
  }

  lemma WriteGoesOnInPhase(g: Shape, x: Stripe, part: Part, ok: bool)
    requires Inv(g, x) && Outstanding(x, part) && x.op.value.phase.Write?
    requires After(g, x, part, ok).Goes?
    ensures Sized(g, Complete(g, x, part, ok)) && PhaseOk(g, Complete(g, x, part, ok))
  {
    StoredFacts(g, x, part, ok);
  }

  lemma WriteGoesOn(g: Shape, x: Stripe, part: Part, ok: bool)
    requires Inv(g, x) && Outstanding(x, part) && x.op.value.phase.Write?
    requires After(g, x, part, ok).Goes?
    ensures Inv(g, Complete(g, x, part, ok))
  {
    var y := Complete(g, x, part, ok);
    WriteGoesOnInPhase(g, x, part, ok);
    StoredFacts(g, x, part, ok);
    assert FlatOk(y);
  }

  lemma WriteEnds(g: Shape, x: Stripe, part: Part, ok: bool)
    requires Inv(g, x) && Outstanding(x, part) && x.op.value.phase.Write?
    requires After(g, x, part, ok).Ends?
    ensures Inv(g, Complete(g, x, part, ok))
  {
    var ch := x.op.value.chunk;
    var y := Complete(g, x, part, ok);
    var failed := After(g, x, part, ok).failed;
    StoredFacts(g, x, part, ok);
    LogStep(x, y, failed);
    assert y.coherent <==> !failed;
    if !failed {
      assert Overlay(y.data, ch.off, ch.buf) == y.data;
    }
  }

  lemma CompleteWriteKeepsInv(g: Shape, x: Stripe, part: Part, ok: bool)
    requires Inv(g, x) && Outstanding(x, part) && x.op.value.phase.Write?
    ensures Inv(g, Complete(g, x, part, ok))
  {
    if After(g, x, part, ok).Goes? {
      WriteGoesOn(g, x, part, ok);
    } else {
      WriteEnds(g, x, part, ok);
    }
  }

  lemma CompleteKeepsInv(g: Shape, x: Stripe, part: Part, ok: bool)
    requires Inv(g, x) && Outstanding(x, part)
    ensures Inv(g, Complete(g, x, part, ok))
  {
    match x.op.value.phase
    case Write(_, _, _, _, _, _) => CompleteWriteKeepsInv(g, x, part, ok);
    case ReadParity(_) => CompleteParityReadKeepsInv(g, x, ok);
    case ReadOld(_, _, _) => CompleteReadOldKeepsInv(g, x, part.k, ok);
    case ReadStripe(_, _, _) => CompleteReadStripeKeepsInv(g, x, part.k, ok);
  }

  /** What a completed I/O leaves alone, and how failures add up: a write fails exactly when
      one of its I/Os does. */
  lemma CompleteFrame(g: Shape, x: Stripe, part: Part, ok: bool)
    requires Inv(g, x) && Outstanding(x, part)
    ensures var y := Complete(g, x, part, ok);
      && y.init == x.init && y.locked == x.locked
      && (y.op.Some? ==> y.op.value.chunk == x.op.value.chunk && y.log == x.log
                         && (HasFailed(y.op.value) <==> HasFailed(x.op.value) || !ok))
      && (y.op.None? ==> y.log == x.log + [Served(x.op.value.chunk, !(HasFailed(x.op.value) || !ok))])
  {
  }

  /** Every write under way waits for some backend I/O. */
  lemma SomethingOutstanding(g: Shape, x: Stripe) returns (part: Part)
    requires Inv(g, x) && x.op.Some?
    ensures Outstanding(x, part)
  {
    part := ParityStrip;
    match x.op.value.phase
    case ReadOld(todo, _, _) => var k :| k in todo; part := DataStrip(k);
    case ReadParity(_) =>
    case ReadStripe(todo, _, _) => var k :| k in todo; part := DataStrip(k);
    case Write(_, todo, parityTodo, _, _, _) =>
      if !parityTodo {
        var k :| k in todo;
        part := DataStrip(k);
      }
  }
}
