/** What ties the fields of the write engine's class to the states of the machine: one small
    fact for each thing a method does to its fields. */
module AcceptorSteps {
  import opened Arithmetic
  import opened Bytes
  import opened Options
  import Parity
  import opened BitsetLocker
  import opened StripeWriter
  import opened Engine
  import opened EngineInvariant
  import opened EngineRequests
  import EngineTheorems
  import opened Layout
  import opened RaidBackend
  import opened Disks

  /** What the steps ask of the machine's state; the invariant gives it. */
  ghost predicate Ready(g: Shape, st: State) {
    && Shaped(g, st)
    && (forall s :: 0 <= s < |st.stripes| ==>
          (st.stripes[s].locked <==> st.stripes[s].op.Some?)
          && (st.stripes[s].op.Some? ==> st.stripes[s].op.value.chunk.stripe == s))
    && (forall j :: 0 <= j < |st.pending| ==> Fits(g, st.pending[j]))
  }

  lemma InvariantIsReady(g: Shape, st: State)
    requires AllInv(g, st)
    ensures Ready(g, st)
  {
    forall rid | rid in st.readers ensures ReadShaped(g, st, st.readers[rid]) {
      assert ReaderOk(g, st, st.readers[rid]);
    }
  }

  /** Every event keeps the machine's invariant, and what the next step asks of its state. */
  lemma StepStaysReady(g: Shape, st: State, ev: Event)
    requires Shaped(g, st) && Enabled(g, st, ev)
    ensures AllInv(g, st) ==> AllInv(g, Apply(g, st, ev)) && Ready(g, Apply(g, st, ev))
  {
    if AllInv(g, st) {
      EngineTheorems.StepKeepsInvariant(g, st, ev);
      InvariantIsReady(g, Apply(g, st, ev));
    }
  }

  /** The data strips an operation has outstanding have their disk request at hand. */
  ghost predicate PiecesFor(l: Layout, s: nat, ps: map<nat, Io>, op: Op)
    requires l.shape.Valid()
  {
    match op.phase
    case ReadOld(todo, _, _) => HasPieces(l, s, ps, op.chunk.off, |op.chunk.buf|, todo)
    case ReadParity(_) => true
    case ReadStripe(todo, _, _) => HasPieces(l, s, ps, 0, l.shape.DataSize(), todo)
    case Write(_, todo, _, _, _, _) => HasPieces(l, s, ps, op.chunk.off, |op.chunk.buf|, todo)
  }

  ghost predicate HasPieces(l: Layout, s: nat, ps: map<nat, Io>, off: nat, len: nat, todo: set<nat>)
    requires l.shape.Valid()
  {
    forall k :: k in todo ==> k in ps && ps[k].len > 0 && IsPiece(l, s, off, len, k, ps[k])
  }

  /** The bits of all stripes a request touches, and of no more stripes than there are. */
  lemma {:induction false} RoundedUp(g: Shape, rid: nat, addr: nat, buf: seq<byte>, m: nat)
    requires g.Valid() && buf != [] && addr + |buf| <= m * g.DataSize()
    ensures DivRoundUp(addr + |buf|, g.DataSize()) <= m
    ensures forall ch :: ch in Split(g.DataSize(), rid, addr, buf) ==> Fits(g, ch) && ch.stripe < DivRoundUp(addr + |buf|, g.DataSize())
  {
    var n := g.DataSize();
    var end := addr + |buf|;
    RoundUpFits(end, n, m);
    QuotIsDiv(end + n - 1, n);
    var k := Quot(end + n - 1, n);
    QuotWrap(end + n - 1, n);
    SplitIsWellSplit(g, rid, addr, buf, k);
  }

  /** The loop's cursor: chunk `j` starts at byte `at[j]` of the buffer. */
  ghost predicate CutAt(size: nat, rid: nat, from: nat, offset: nat, buf: seq<byte>, cs: seq<Chunk>, at: seq<nat>, j: nat)
    requires j < |cs| && |at| == |cs| + 1
  {
    var off := if j == 0 then offset else 0;
    && off < size && at[j] < |buf|
    && at[j + 1] == at[j] + (if size - off < |buf| - at[j] then size - off else |buf| - at[j])
    && cs[j] == Chunk(rid, from + j, off, buf[at[j]..at[j + 1]])
  }

  ghost predicate Cut(size: nat, rid: nat, from: nat, offset: nat, buf: seq<byte>, cs: seq<Chunk>, at: seq<nat>) {
    && |at| == |cs| + 1 && at[0] == 0 && at[|cs|] == |buf|
    && forall j :: 0 <= j < |cs| ==> CutAt(size, rid, from, offset, buf, cs, at, j)
  }

  /** The loop is at chunk `i`: byte `wb` of the buffer, byte `off` of stripe `s`. */
  ghost predicate CutCursor(size: nat, rid: nat, from: nat, offset: nat, buf: seq<byte>, cs: seq<Chunk>, at: seq<nat>,
                            i: nat, wb: nat, s: nat, off: nat) {
    && Cut(size, rid, from, offset, buf, cs, at)
    && i <= |cs| && wb == at[i] <= |buf| && s == from + i && off == if i == 0 then offset else 0
  }

  lemma CutMoves(size: nat, rid: nat, from: nat, offset: nat, buf: seq<byte>, cs: seq<Chunk>, at: seq<nat>,
                 i: nat, wb: nat, s: nat, off: nat)
    requires CutCursor(size, rid, from, offset, buf, cs, at, i, wb, s, off) && wb < |buf|
    ensures off < size && i < |cs|
    ensures var len := if size - off < |buf| - wb then size - off else |buf| - wb;
      && wb < wb + len <= |buf| && cs[i] == Chunk(rid, s, off, buf[wb..wb + len])
      && CutCursor(size, rid, from, offset, buf, cs, at, i + 1, wb + len, s + 1, 0)
  {
    assert i < |cs| ==> CutAt(size, rid, from, offset, buf, cs, at, i);
    if i + 1 < |cs| {
      assert CutAt(size, rid, from, offset, buf, cs, at, i + 1);
    }
  }

  lemma CutEnds(size: nat, rid: nat, from: nat, offset: nat, buf: seq<byte>, cs: seq<Chunk>, at: seq<nat>,
                i: nat, s: nat, off: nat)
    requires CutCursor(size, rid, from, offset, buf, cs, at, i, |buf|, s, off)
    ensures i == |cs|
  {
    assert i < |cs| ==> CutAt(size, rid, from, offset, buf, cs, at, i);
  }

  lemma {:induction false} SplitIsCut(size: nat, rid: nat, addr: nat, from: nat, offset: nat, buf: seq<byte>) returns (at: seq<nat>)
    requires size > 0 && (buf != [] ==> from == Quot(addr, size) && offset == Wrap(addr, size))
    ensures Cut(size, rid, from, offset, buf, Split(size, rid, addr, buf), at)
    decreases |buf|
  {
    if buf == [] {
      at := [0];
    } else {
      var len := if |buf| < size - offset then |buf| else size - offset;
      NextQuot(addr, size);
      var at' := SplitIsCut(size, rid, addr + len, from + 1, 0, buf[len..]);
      at := [0] + seq(|at'|, j requires 0 <= j < |at'| => at'[j] + len);
      CutCons(size, rid, from, offset, buf, len, Split(size, rid, addr + len, buf[len..]), at', at);
    }
  }

  lemma CutCons(size: nat, rid: nat, from: nat, offset: nat, buf: seq<byte>, len: nat, cs': seq<Chunk>, at': seq<nat>, at: seq<nat>)
    requires offset < size && buf != [] && len == if |buf| < size - offset then |buf| else size - offset
    requires Cut(size, rid, from + 1, 0, buf[len..], cs', at')
    requires |at| == |at'| + 1 && at[0] == 0 && forall j :: 0 <= j < |at'| ==> at[j + 1] == at'[j] + len
    ensures Cut(size, rid, from, offset, buf, [Chunk(rid, from, offset, buf[..len])] + cs', at)
  {
    var cs := [Chunk(rid, from, offset, buf[..len])] + cs';
    forall j | 0 <= j < |cs| ensures CutAt(size, rid, from, offset, buf, cs, at, j) {
      if j > 0 {
        assert CutAt(size, rid, from + 1, 0, buf[len..], cs', at', j - 1);
        assert at[j - 1 + 1] == at'[j - 1] + len && at[j + 1] == at'[j] + len;
        assert buf[len..][at'[j - 1]..at'[j]] == buf[at[j]..at[j + 1]];
      } else {
        assert at[0 + 1] == at'[0] + len;
      }
    }
  }

  /** Accepting the chunks `cs`, all of stripes below `n`, in state `st` leads to `end`. */
  ghost predicate Remaining(g: Shape, st: State, n: nat, cs: seq<Chunk>, end: State) {
    && g.Valid() && n <= |st.stripes| && (forall ch :: ch in cs ==> ch.stripe < n && Fits(g, ch))
    && AcceptAll(g, st, cs) == end
  }

  lemma RemainingStep(g: Shape, st: State, n: nat, cs: seq<Chunk>, end: State)
    requires Remaining(g, st, n, cs, end) && cs != []
    ensures g.Valid() && cs[0].stripe < n <= |st.stripes| && Fits(g, cs[0]) && Remaining(g, Accept(g, st, cs[0]), n, cs[1..], end)
  {
    assert cs[0] in cs && forall c :: c in cs[1..] ==> c in cs;
  }

  lemma RemainingStarts(g: Shape, st: State, rid: nat, addr: nat, buf: seq<byte>)
    requires g.Valid() && buf != [] && addr + |buf| <= |st.stripes| * g.DataSize()
    ensures forall ch :: ch in Split(g.DataSize(), rid, addr, buf) ==> ch.stripe < |st.stripes|
    ensures forall n :: DivRoundUp(addr + |buf|, g.DataSize()) <= n <= |st.stripes| ==>
      Remaining(g, st, n, Split(g.DataSize(), rid, addr, buf), AcceptAll(g, st, Split(g.DataSize(), rid, addr, buf)))
  {
    RoundedUp(g, rid, addr, buf, |st.stripes|);
  }

  /** A client read under way: the disk requests that did not complete yet, by stripe and
      strip, and the client's buffer. */
  datatype Reading = Reading(addr: nat, ios: map<(nat, nat), Io>, err: bool, buf: seq<byte>)

  ghost predicate ShowsRead(l: Layout, r: Reading, rd: Read) {
    && l.shape.Valid() && rd.addr == r.addr && rd.todo == r.ios.Keys && rd.err == r.err && rd.buf == r.buf
    && forall part :: part in r.ios ==> IsReadPiece(l, r.addr, |r.buf|, part, r.ios[part])
  }

  /** Stripe `s` now being `y`. */
  function With(st: State, s: nat, y: Stripe): State
    requires s < |st.stripes|
  {
    st.(stripes := st.stripes[s := y])
  }

  /** The part of a read at `addr` that a disk request is for. */
  function PartAt(l: Layout, addr: nat, io: Io): (nat, nat)
    requires l.shape.Valid()
  {
    StripAt(l.shape, addr + io.pos)
  }

  /** The pieces of a read, by part. */
  ghost predicate PiecesUpTo(l: Layout, addr: nat, len: nat, list: seq<Io>, m: nat, ps: map<(nat, nat), Io>)
    requires l.shape.Valid() && m <= |list|
  {
    && (forall part :: part in ps ==> IsPartOf(l, addr, len, part, ps[part]))
    && (forall j :: 0 <= j < m ==> PartAt(l, addr, list[j]) in ps)
  }

  ghost predicate IsPartOf(l: Layout, addr: nat, len: nat, part: (nat, nat), io: Io)
    requires l.shape.Valid()
  {
    IsReadPiece(l, addr, len, part, io) && part in ReadParts(l.shape, addr, len)
  }

  lemma PieceIsPart(l: Layout, addr: nat, len: nat, list: seq<Io>, m: nat)
    requires l.shape.Valid() && Exact(l, addr, len, list) && m < |list|
    ensures IsPartOf(l, addr, len, PartAt(l, addr, list[m]), list[m])
  {
    ExactIsReadPiece(l, addr, len, list, m);
    assert ReadOf(l.shape, addr + list[m].pos) == PartAt(l, addr, list[m]);
  }

  lemma PieceAdded(l: Layout, addr: nat, len: nat, list: seq<Io>, m: nat, ps: map<(nat, nat), Io>)
    requires l.shape.Valid() && m < |list| && PiecesUpTo(l, addr, len, list, m, ps)
    requires IsPartOf(l, addr, len, PartAt(l, addr, list[m]), list[m])
    ensures PiecesUpTo(l, addr, len, list, m + 1, ps[PartAt(l, addr, list[m]) := list[m]])
  {
    var p, io := PartAt(l, addr, list[m]), list[m];
    var ps' := ps[p := io];
    forall part | part in ps' ensures IsPartOf(l, addr, len, part, ps'[part]) {
      if part != p {
        assert IsPartOf(l, addr, len, part, ps[part]);
      }
    }
  }

  lemma AllPieces(l: Layout, addr: nat, len: nat, list: seq<Io>, ps: map<(nat, nat), Io>)
    requires l.shape.Valid() && Exact(l, addr, len, list) && PiecesUpTo(l, addr, len, list, |list|, ps)
    ensures ps.Keys == ReadParts(l.shape, addr, len)
  {
    TiledSeparates(l.shape, addr, 0, len, list);
    forall part | part in ReadParts(l.shape, addr, len) ensures part in ps {
      var a :| addr <= a < addr + len && ReadOf(l.shape, a) == part;
      assert Reached(addr, list, a);
      var io :| io in list && InPiece(addr, io, a);
      var j :| 0 <= j < |list| && list[j] == io;
      ExactIsReadPiece(l, addr, len, list, j);
      assert PartAt(l, addr, list[j]) in ps;
    }
  }

  lemma ReadAdded(l: Layout, reading: map<nat, Reading>, readers: map<nat, Read>, rid: nat, r: Reading, rd: Read)
    requires ReadsOk(l, reading, readers) && ShowsRead(l, r, rd)
    ensures ReadsOk(l, reading[rid := r], readers[rid := rd])
  {
  }

  /** A piece off its disk is what the machine fills in. */
  lemma PieceFills(l: Layout, disks: seq<seq<byte>>, coherency: seq<bool>, st: State, rd: Read, part: (nat, nat), io: Io)
    requires DisksOk(l, disks, coherency, st.stripes) && ReadShaped(l.shape, st, rd)
    requires IsReadPiece(l, rd.addr, |rd.buf|, part, io)
    ensures io.disk < |disks| && io.off + io.len <= |disks[io.disk]|
    ensures Overlay(rd.buf, io.pos, disks[io.disk][io.off..io.off + io.len]) == Fill(l.shape, st, rd, part)
  {
    PieceByteFills(l, disks, coherency, st, rd, part, io, io.pos + io.len - 1);
    var got, want := Overlay(rd.buf, io.pos, disks[io.disk][io.off..io.off + io.len]), Fill(l.shape, st, rd, part);
    forall b | 0 <= b < |rd.buf| ensures got[b] == want[b] {
      PieceByteFills(l, disks, coherency, st, rd, part, io, b);
    }
  }

  lemma ReadRemoved(l: Layout, reading: map<nat, Reading>, readers: map<nat, Read>, rid: nat)
    requires ReadsOk(l, reading, readers)
    ensures ReadsOk(l, reading - {rid}, readers - {rid})
  {
  }

  lemma NoneLeft<T, U>(m: map<T, U>)
    ensures m == map[] <==> m.Keys == {}
  {
  }

  lemma ReadIoIs(g: Shape, st: State, rid: nat, part: (nat, nat), ok: bool, buf: seq<byte>)
    requires g.Valid() && rid in st.readers && ReadShaped(g, st, st.readers[rid])
    requires buf == if ok then Fill(g, st, st.readers[rid], part) else st.readers[rid].buf
    ensures var rd := st.readers[rid]; var left, failed, st1 := rd.todo - {part}, rd.err || !ok, Fail(st, rid, ok);
      AfterReadIo(g, st, rid, part, ok)
      == if left == {} then Close(st1.(readers := st.readers - {rid}), rid, failed)
         else st1.(readers := st.readers[rid := rd.(todo := left, err := failed, buf := buf)])
  {
  }

  /** A byte of the array, as the disks hold it. */
  lemma FlatShown(l: Layout, disks: seq<seq<byte>>, coherency: seq<bool>, xs: seq<Stripe>, a: nat)
    requires DisksOk(l, disks, coherency, xs) && StripeOf(l.shape, a) < |xs|
    ensures |xs[StripeOf(l.shape, a)].data| == l.shape.DataSize()
    ensures xs[StripeOf(l.shape, a)].data[Inside(l.shape, a)] == FlatDiskByte(l, disks, |xs|, a)
  {
    assert OnDisks(l, disks, coherency, |xs|, xs[StripeOf(l.shape, a)], StripeOf(l.shape, a));
  }

  lemma PieceByteFills(l: Layout, disks: seq<seq<byte>>, coherency: seq<bool>, st: State, rd: Read, part: (nat, nat), io: Io, b: nat)
    requires DisksOk(l, disks, coherency, st.stripes) && ReadShaped(l.shape, st, rd)
    requires IsReadPiece(l, rd.addr, |rd.buf|, part, io) && b < |rd.buf|
    ensures io.pos <= b < io.pos + io.len ==> io.disk < |disks| && io.off + (b - io.pos) < |disks[io.disk]|
    ensures Fill(l.shape, st, rd, part)[b]
         == if io.pos <= b < io.pos + io.len then disks[io.disk][io.off + (b - io.pos)] else rd.buf[b]
  {
    var a := rd.addr + b;
    FlatShown(l, disks, coherency, st.stripes, a);
    PartsAgree(l, rd.addr, |rd.buf|, part, io, a);
    if InPiece(rd.addr, io, a) {
      ReadPieceByte(l, disks, |st.stripes|, rd.addr, |rd.buf|, part, io, a);
    }
  }

  lemma PartsAgree(l: Layout, addr: nat, len: nat, part: (nat, nat), io: Io, a: nat)
    requires l.shape.Valid() && IsReadPiece(l, addr, len, part, io) && addr <= a < addr + len
    ensures ReadOf(l.shape, a) == part <==> InPiece(addr, io, a)
  {
    assert StripAt(l.shape, a) == ReadOf(l.shape, a);
  }

  /** The stripe once its write is over. */
  function Ended(x: Stripe, ch: Chunk, failed: bool): Stripe {
    x.(op := None, log := x.log + [StripeWriter.Served(ch, !failed)])
  }

  /** Stripe `s` becomes `y`; if that is the end of its write, the request hears of it and the
      lock is passed on. */
  function Settle(g: Shape, st: State, s: nat, y: Stripe, rid: nat): State
    requires g.Valid() && s < |st.stripes| && rid in st.requests
    requires y.op.None? ==> |y.log| > 0
  {
    var st' := st.(stripes := st.stripes[s := y]);
    if y.op.Some? then st' else PassOn(g, Report(st', rid, s, !y.log[|y.log| - 1].ok), s)
  }

  /** The stripe once its write went on, or ended. */
  function Advanced(x: Stripe, o: Outcome): Stripe
    requires x.op.Some?
  {
    match o
    case Goes(phase) => x.(op := Some(Op(x.op.value.chunk, phase)))
    case Ends(failed) => Ended(x, x.op.value.chunk, failed)
  }

  /** A write is under way on stripe `s`. */
  ghost predicate Writing(g: Shape, st: State, s: nat) {
    && g.Valid() && s < |st.stripes| && st.stripes[s].op.Some? && st.stripes[s].locked && Sized(g, st.stripes[s])
    && OpSized(g, st.stripes[s].op.value) && st.stripes[s].op.value.chunk.rid in st.requests
  }

  /** The state once the write on stripe `s` went on, or ended. */
  function Moved(g: Shape, st: State, s: nat, o: Outcome): State
    requires g.Valid() && s < |st.stripes| && st.stripes[s].op.Some? && st.stripes[s].op.value.chunk.rid in st.requests
  {
    Settle(g, st, s, Advanced(st.stripes[s], o), st.stripes[s].op.value.chunk.rid)
  }

  lemma MovedOn(g: Shape, st: State, s: nat, phase: Phase)
    requires Writing(g, st, s)
    ensures Moved(g, st, s, Goes(phase))
         == st.(stripes := st.stripes[s := st.stripes[s].(locked := true, op := Some(Op(st.stripes[s].op.value.chunk, phase)))])
  {
  }

  /** What a write's I/O does to the disks and to the coherency bit. */
  function Effect(g: Shape, x: Stripe, part: Part, ok: bool): Stripe
    requires g.Valid() && Sized(g, x) && Outstanding(x, part) && OpSized(g, x.op.value)
  {
    var y := Stored(g, x, part, ok);
    y.(coherent := Coherency(y, part, ok))
  }

  lemma EffectFrame(g: Shape, x: Stripe, part: Part, ok: bool)
    requires g.Valid() && Sized(g, x) && Outstanding(x, part) && OpSized(g, x.op.value)
    ensures var z := Effect(g, x, part, ok);
      && Sized(g, z) && z.op == x.op && z.locked == x.locked
      && Complete(g, x, part, ok) == Advanced(z, After(g, x, part, ok))
      && (x.op.value.phase.Write? ==> After(g, x, part, ok) == AfterWrite(z, part, ok))
      && (!x.op.value.phase.Write? ==> z == x)
  {
  }

  /** The completers decide about the coherency bit: a coherent write on an error only, an
      incoherent one when both its halves are over. */
  predicate Speaks(p: Phase, part: Part, ok: bool)
    requires p.Write?
  {
    var errD, errP := p.errD || (part.DataStrip? && !ok), p.errP || (part.ParityStrip? && !ok);
    var dataOver := if part.DataStrip? then p.todo - {part.k} == {} else p.todo == {};
    if p.coherently
    then (part.DataStrip? && dataOver && errD) || (part.ParityStrip? && errP)
    else dataOver && (part.ParityStrip? || !p.parityTodo)
  }

  predicate Verdict(p: Phase, ok: bool)
    requires p.Write?
  {
    !p.coherently && !(p.errD || p.errP || !ok)
  }

  /** A write that has stored a part is still under way. */
  lemma StillWriting(g: Shape, st: State, s: nat, part: Part, ok: bool)
    requires Writing(g, st, s) && Outstanding(st.stripes[s], part)
    ensures var x := st.stripes[s]; var y := Stored(g, x, part, ok);
      && Writing(g, With(st, s, y), s) && With(st, s, y).stripes[s].op == x.op && (!ok ==> With(st, s, y) == st)
      && (ok && x.op.value.phase.Write? && part.ParityStrip? ==> y == x.(parity := x.op.value.phase.newParity))
      && (ok && x.op.value.phase.Write? && part.DataStrip? ==>
            y == x.(data := Put(x.data, g.strip, x.op.value.chunk.off, x.op.value.chunk.buf, part.k)))
  {
    assert st.stripes[s := st.stripes[s]] == st.stripes;
  }

  lemma CoherencyIs(st: State, s: nat, part: Part, ok: bool)
    requires s < |st.stripes| && st.stripes[s].op.Some? && st.stripes[s].op.value.phase.Write?
    ensures var x := st.stripes[s];
      With(st, s, x.(coherent := Coherency(x, part, ok)))
      == if Speaks(x.op.value.phase, part, ok) then With(st, s, x.(coherent := Verdict(x.op.value.phase, ok))) else st
  {
    var x := st.stripes[s];
    assert With(st, s, x) == st;
  }

  /** A write phase after one of its I/Os. */
  function OneLess(p: Phase, part: Part, ok: bool): Phase
    requires p.Write?
  {
    if part.ParityStrip? then p.(parityTodo := false, errP := p.errP || !ok)
    else p.(todo := p.todo - {part.k}, errD := p.errD || !ok)
  }

  lemma AfterWriteIs(x: Stripe, part: Part, ok: bool)
    requires x.op.Some? && x.op.value.phase.Write?
    ensures var p := OneLess(x.op.value.phase, part, ok);
      AfterWrite(x, part, ok) == if p.todo == {} && !p.parityTodo then Ends(p.errD || p.errP) else Goes(p)
  {
  }

  lemma EffectInTwo(g: Shape, st: State, s: nat, part: Part, ok: bool)
    requires Writing(g, st, s) && Outstanding(st.stripes[s], part)
    ensures var y := Stored(g, st.stripes[s], part, ok);
      && y.op == st.stripes[s].op && Writing(g, With(st, s, y), s)
      && With(With(st, s, y), s, y.(coherent := Coherency(y, part, ok))) == With(st, s, Effect(g, st.stripes[s], part, ok))
  {
  }

  lemma ReadyIsWriting(g: Shape, st: State, s: nat, part: Part, ok: bool)
    requires Ready(g, st) && s < |st.stripes| && Outstanding(st.stripes[s], part)
    ensures Writing(g, st, s) && st.stripes[s].op.value.chunk.stripe == s
  {
  }

  /** The machine's step on a backend I/O: the failure is noted, the disks and the coherency
      bit change, and the write goes on or ends. */
  lemma StepInParts(g: Shape, st: State, s: nat, part: Part, ok: bool)
    requires Writing(g, st, s) && Outstanding(st.stripes[s], part)
    ensures var x := st.stripes[s];
      var st' := With(Fail(st, x.op.value.chunk.rid, ok), s, Effect(g, x, part, ok));
      Writing(g, st', s) && AfterChunkIo(g, st, s, part, ok) == Moved(g, st', s, After(g, x, part, ok))
  {
    var x := st.stripes[s];
    EffectFrame(g, x, part, ok);
    StepIsSettle(g, Fail(st, x.op.value.chunk.rid, ok), st, s, part, ok, Effect(g, x, part, ok));
  }

  lemma StepIsSettle(g: Shape, st1: State, st: State, s: nat, part: Part, ok: bool, z: Stripe)
    requires Writing(g, st, s) && Outstanding(st.stripes[s], part)
    requires st1 == Fail(st, st.stripes[s].op.value.chunk.rid, ok) && z.op == st.stripes[s].op
    requires Complete(g, st.stripes[s], part, ok) == Advanced(z, After(g, st.stripes[s], part, ok))
    ensures AfterChunkIo(g, st, s, part, ok) == Moved(g, With(st1, s, z), s, After(g, st.stripes[s], part, ok))
  {
    var y := Complete(g, st.stripes[s], part, ok);
    assert With(st1, s, z).stripes[s := y] == st.stripes[s := y];
  }

  /** What the completer of an I/O has to make of state `st`, phase by phase. */
  ghost predicate Leads(g: Shape, st: State, s: nat, part: Part, ok: bool, end: State)
    requires Writing(g, st, s) && Outstanding(st.stripes[s], part)
  {
    var x := st.stripes[s];
    match x.op.value.phase
    case Write(_, _, _, _, _, _) =>
      var st' := With(st, s, Effect(g, x, part, ok));
      Writing(g, st', s) && end == Moved(g, st', s, After(g, x, part, ok))
    case ReadParity(_) => end == Moved(g, st, s, AfterParityRead(g, x, ok))
    case _ => end == Moved(g, st, s, AfterRead(g, x, part.k, ok))
  }

  lemma StepLeads(g: Shape, st: State, s: nat, part: Part, ok: bool)
    requires Writing(g, st, s) && Outstanding(st.stripes[s], part)
    ensures var st1 := Fail(st, st.stripes[s].op.value.chunk.rid, ok);
      Writing(g, st1, s) && Leads(g, st1, s, part, ok, AfterChunkIo(g, st, s, part, ok))
  {
    var st1 := Fail(st, st.stripes[s].op.value.chunk.rid, ok);
    StepInParts(g, st, s, part, ok);
    EffectLeads(g, st1, s, part, ok, AfterChunkIo(g, st, s, part, ok));
  }

  lemma EffectLeads(g: Shape, st: State, s: nat, part: Part, ok: bool, end: State)
    requires Writing(g, st, s) && Outstanding(st.stripes[s], part)
    requires var st' := With(st, s, Effect(g, st.stripes[s], part, ok));
      Writing(g, st', s) && end == Moved(g, st', s, After(g, st.stripes[s], part, ok))
    ensures Leads(g, st, s, part, ok, end)
  {
    EffectFrame(g, st.stripes[s], part, ok);
    if !st.stripes[s].op.value.phase.Write? {
      assert With(st, s, Effect(g, st.stripes[s], part, ok)) == st;
    }
  }

  // ---------- Fields and machine ----------

  /** Stripe `x` is what the disks hold as stripe `s`, with its coherency bit. */
  ghost predicate OnDisks(l: Layout, disks: seq<seq<byte>>, coherency: seq<bool>, m: nat, x: Stripe, s: nat)
    requires Fit(l, disks, m) && s < m
  {
    x.data == DataOf(l, disks, m, s) && x.parity == ParityOf(l, disks, m, s)
    && (x.coherent <==> s < |coherency| && coherency[s])
  }

  ghost predicate DisksOk(l: Layout, disks: seq<seq<byte>>, coherency: seq<bool>, xs: seq<Stripe>) {
    Fit(l, disks, |xs|) && forall s :: 0 <= s < |xs| ==> OnDisks(l, disks, coherency, |xs|, xs[s], s)
  }

  ghost predicate ActiveOk(l: Layout, active: map<nat, Op>, ios: map<nat, map<nat, Io>>, n: nat) {
    l.shape.Valid() && forall s :: s in active ==> s < n && s in ios && PiecesFor(l, s, ios[s], active[s])
  }

  /** Stripe `x` has its lock bit and its write. */
  ghost predicate Agrees(active: map<nat, Op>, bits: seq<bool>, x: Stripe, s: nat) {
    (x.locked <==> Held(bits, s)) && x.op == if s in active then Some(active[s]) else None
  }

  ghost predicate LocksOk(active: map<nat, Op>, bits: seq<bool>, xs: seq<Stripe>, hole: int) {
    forall s :: 0 <= s < |xs| && s != hole ==> Agrees(active, bits, xs[s], s)
  }

  ghost predicate WaitOk(pending: seq<Chunk>, n: nat) {
    forall j :: 0 <= j < |pending| ==> pending[j].stripe < n
  }

  ghost predicate ReadsOk(l: Layout, reading: map<nat, Reading>, readers: map<nat, Read>) {
    reading.Keys == readers.Keys && forall rid :: rid in reading ==> ShowsRead(l, reading[rid], readers[rid])
  }

  lemma DisksKept(l: Layout, disks: seq<seq<byte>>, coherency: seq<bool>, xs: seq<Stripe>, s: nat, y: Stripe)
    requires DisksOk(l, disks, coherency, xs) && s < |xs|
    requires y.data == xs[s].data && y.parity == xs[s].parity && y.coherent == xs[s].coherent
    ensures DisksOk(l, disks, coherency, xs[s := y])
  {
  }

  lemma ActiveAdded(l: Layout, active: map<nat, Op>, ios: map<nat, map<nat, Io>>, n: nat, s: nat, op: Op, ps: map<nat, Io>)
    requires ActiveOk(l, active, ios, n) && s < n && PiecesFor(l, s, ps, op)
    ensures ActiveOk(l, active[s := op], ios[s := ps], n)
  {
  }

  lemma LocksKept(active: map<nat, Op>, bits: seq<bool>, xs: seq<Stripe>, hole: int,
                  active': map<nat, Op>, bits': seq<bool>, s: nat, y: Stripe)
    requires LocksOk(active, bits, xs, hole) && s < |xs| && (hole == -1 || hole == s)
    requires forall t: nat :: t != s ==> (Held(bits', t) <==> Held(bits, t))
    requires forall t: nat :: t != s ==> (t in active' <==> t in active) && (t in active ==> active'[t] == active[t])
    requires Agrees(active', bits', y, s)
    ensures LocksOk(active', bits', xs[s := y], -1)
  {
  }

  lemma LocksSame(active: map<nat, Op>, bits: seq<bool>, bits': seq<bool>, xs: seq<Stripe>, hole: int)
    requires LocksOk(active, bits, xs, -1)
    requires forall t: nat :: t != hole ==> (Held(bits', t) <==> Held(bits, t))
    ensures LocksOk(active, bits', xs, hole)
  {
    forall s | 0 <= s < |xs| && s != hole ensures Agrees(active, bits', xs[s], s) {
      assert Agrees(active, bits, xs[s], s);
    }
  }

  lemma LockAt(active: map<nat, Op>, bits: seq<bool>, xs: seq<Stripe>, hole: int, s: nat)
    requires LocksOk(active, bits, xs, hole) && s < |xs| && s != hole
    ensures Agrees(active, bits, xs[s], s)
  {
  }

  lemma StripAtDisk(l: Layout, disks: seq<seq<byte>>, coherency: seq<bool>, xs: seq<Stripe>, s: nat)
    requires DisksOk(l, disks, coherency, xs) && s < |xs|
    ensures xs[s].data == DataOf(l, disks, |xs|, s) && xs[s].parity == ParityOf(l, disks, |xs|, s)
    ensures |xs[s].data| == l.shape.DataSize() && |xs[s].parity| == l.shape.strip
    ensures xs[s].coherent <==> s < |coherency| && coherency[s]
  {
  }

  lemma StripStored(l: Layout, disks: seq<seq<byte>>, disks': seq<seq<byte>>, coherency: seq<bool>, xs: seq<Stripe>,
                    s: nat, k: nat, off: nat, buf: seq<byte>, io: Io)
    requires DisksOk(l, disks, coherency, xs) && s < |xs| && off + |buf| <= |xs[s].data| == l.shape.DataSize()
    requires io.len > 0 && IsPiece(l, s, off, |buf|, k, io) && io.disk < |disks| && io.off + io.len <= |disks[io.disk]|
    requires disks' == Poke(disks, io.disk, io.off, buf[io.pos..io.pos + io.len])
    ensures DisksOk(l, disks', coherency, xs[s := xs[s].(data := Put(xs[s].data, l.shape.strip, off, buf, k))])
  {
    var xs' := xs[s := xs[s].(data := Put(xs[s].data, l.shape.strip, off, buf, k))];
    WriteIsPut(l, disks, disks', |xs|, s, off, buf, k, io, s);
    forall t | 0 <= t < |xs| ensures OnDisks(l, disks', coherency, |xs|, xs'[t], t) {
      WriteIsPut(l, disks, disks', |xs|, s, off, buf, k, io, t);
      assert OnDisks(l, disks, coherency, |xs|, xs[t], t);
    }
  }

  lemma ParityStored(l: Layout, disks: seq<seq<byte>>, disks': seq<seq<byte>>, coherency: seq<bool>, xs: seq<Stripe>,
                     s: nat, parity: seq<byte>)
    requires DisksOk(l, disks, coherency, xs) && s < |xs| && |parity| == l.shape.strip
    requires s * l.shape.strip + |parity| <= |disks[l.parityDisk(s)]|
    requires disks' == Poke(disks, l.parityDisk(s), s * l.shape.strip, parity)
    ensures DisksOk(l, disks', coherency, xs[s := xs[s].(parity := parity)])
  {
    var xs' := xs[s := xs[s].(parity := parity)];
    ParityWriteIsLocal(l, disks, disks', |xs|, s, parity, s);
    forall t | 0 <= t < |xs| ensures OnDisks(l, disks', coherency, |xs|, xs'[t], t) {
      ParityWriteIsLocal(l, disks, disks', |xs|, s, parity, t);
      assert OnDisks(l, disks, coherency, |xs|, xs[t], t);
    }
  }

  lemma BitSet(l: Layout, disks: seq<seq<byte>>, coherency: seq<bool>, xs: seq<Stripe>, s: nat, value: bool)
    requires DisksOk(l, disks, coherency, xs) && s < |coherency| <= |xs|
    ensures DisksOk(l, disks, coherency[s := value], xs[s := xs[s].(coherent := value)])
  {
    var c', xs' := coherency[s := value], xs[s := xs[s].(coherent := value)];
    forall t | 0 <= t < |xs| ensures OnDisks(l, disks, c', |xs|, xs'[t], t) {
      assert OnDisks(l, disks, coherency, |xs|, xs[t], t);
    }
  }

  lemma BitsGrown(l: Layout, disks: seq<seq<byte>>, coherency: seq<bool>, xs: seq<Stripe>, n: nat)
    requires DisksOk(l, disks, coherency, xs)
    ensures DisksOk(l, disks, coherency + seq(n, _ => false), xs)
  {
    forall t | 0 <= t < |xs| ensures OnDisks(l, disks, coherency + seq(n, _ => false), |xs|, xs[t], t) {
      assert OnDisks(l, disks, coherency, |xs|, xs[t], t);
    }
  }

  lemma InitialDisks(l: Layout, disks: seq<seq<byte>>, xs: seq<Stripe>)
    requires Fit(l, disks, |xs|)
    requires forall s :: 0 <= s < |xs| ==>
      xs[s].data == DataOf(l, disks, |xs|, s) && xs[s].parity == ParityOf(l, disks, |xs|, s) && !xs[s].coherent
    ensures DisksOk(l, disks, [], xs)
  {
  }

  /** The requests of a range are its strips' pieces. */
  lemma PiecesFound(l: Layout, s: nat, off: nat, len: nat, list: seq<Io>, ps: map<nat, Io>)
    requires l.Valid() && len > 0 && off + len <= l.shape.DataSize()
    requires list == StripIos(l, s, Quot(off, l.shape.strip), Wrap(off, l.shape.strip), len, 0)
    requires forall k :: Quot(off, l.shape.strip) <= k < Quot(off, l.shape.strip) + |list| ==>
      k in ps && ps[k] == list[k - Quot(off, l.shape.strip)]
    ensures HasPieces(l, s, ps, off, len, Strips(l.shape.strip, off, len))
  {
    var strip, k0 := l.shape.strip, Quot(off, l.shape.strip);
    StripIosArePieces(l, s, off, len, k0, Wrap(off, strip), len, 0);
    StripIosReach(l, s, off, len, k0, Wrap(off, strip), len, 0);
    forall k | k in Strips(strip, off, len) ensures k in ps && ps[k].len > 0 && IsPiece(l, s, off, len, k, ps[k]) {
      var i :| off <= i < off + len && Quot(i, strip) == k;
      assert IsPieceFrom(l, s, off, len, 0, k0 + (k - k0), list[k - k0]);
      assert list[k - k0] in list;
    }
  }
}
