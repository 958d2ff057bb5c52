/** A client's view of reads of the RAID4/5 target, over whole runs. */
module FlatReads {
  import opened Bytes
  import opened StripeWriter
  import opened Engine
  import opened EngineInvariant
  import opened EngineTheorems
  import opened FlatArray

  /** A read under way keeps its range, and what is known of the writes it may overlap. */
  ghost predicate SameRead(rd: Read, rd': Read) {
    rd'.addr == rd.addr && |rd'.buf| == |rd.buf| && rd'.busy == rd.busy && rd'.since == rd.since
  }

  lemma {:induction false} AcceptAllReaders(g: Shape, st: State, cs: seq<Chunk>)
    requires g.Valid() && forall ch :: ch in cs ==> ch.stripe < |st.stripes|
    ensures AcceptAll(g, st, cs).readers == st.readers
    decreases |cs|
  {
    if cs != [] {
      AcceptAllReaders(g, Accept(g, st, cs[0]), cs[1..]);
    }
  }

  lemma ChunkIoReaders(g: Shape, st: State, s: nat, part: Part, ok: bool)
    requires Shaped(g, st) && Enabled(g, st, ChunkIo(s, part, ok))
    ensures AfterChunkIo(g, st, s, part, ok).readers == st.readers
  {
    var rid := st.stripes[s].op.value.chunk.rid;
    var y := Complete(g, st.stripes[s], part, ok);
    CompleteHistory(g, st.stripes[s], part, ok);
    var st1 := Fail(st.(stripes := st.stripes[s := y]), rid, ok);
    if y.op.None? {
      ReportFrame(st1, rid, s, !y.log[|y.log| - 1].ok);
      PassOnReaders(g, Report(st1, rid, s, !y.log[|y.log| - 1].ok), s);
    }
  }

  lemma PassOnReaders(g: Shape, st: State, s: nat)
    requires g.Valid() && s < |st.stripes|
    ensures PassOn(g, st, s).readers == st.readers
  {
  }

  lemma StepKeepsRead(g: Shape, st: State, ev: Event, rid: nat)
    requires Shaped(g, st) && Enabled(g, st, ev) && rid in st.readers && rid in Apply(g, st, ev).readers
    ensures SameRead(st.readers[rid], Apply(g, st, ev).readers[rid])
  {
    match ev
    case SubmitWrite(r, addr, buf) =>
      if st.online {
        var cs := Split(g.DataSize(), r, addr, buf);
        SplitInRange(g, st, r, addr, buf);
        AcceptAllReaders(g, st.(requests := st.requests[r := Request(StripesOf(cs), false)]), cs);
      }
    case ChunkIo(s, part, ok) => ChunkIoReaders(g, st, s, part, ok);
    case _ =>
  }

  /** The read of event `i` is under way from then on up to event `k`. */
  ghost predicate UnderWay(states: seq<State>, evs: seq<Event>, i: nat, k: nat, rid: nat) {
    && i < k <= |evs| < |states| && evs[i].SubmitRead? && evs[i].rid == rid && states[i].online
    && forall j :: i < j <= k ==> rid in states[j].readers
  }

  /** Each state of a run follows from the one before by its event. */
  ghost predicate Stepwise(g: Shape, states: seq<State>, evs: seq<Event>) {
    && |states| == |evs| + 1
    && forall n :: 0 <= n < |evs| ==>
         Shaped(g, states[n]) && Enabled(g, states[n], evs[n]) && states[n + 1] == Apply(g, states[n], evs[n])
  }

  lemma RunIsStepwise(g: Shape, states: seq<State>, evs: seq<Event>)
    requires Run(g, states, evs) && AllInv(g, states[0])
    ensures Stepwise(g, states, evs)
  {
    forall n | 0 <= n < |evs|
      ensures Shaped(g, states[n]) && Enabled(g, states[n], evs[n]) && states[n + 1] == Apply(g, states[n], evs[n])
    {
      RunKeepsInvariant(g, states, evs, n);
      InvariantShapes(g, states[n]);
      assert Step(g, states[n], evs[n], states[n + 1]);
    }
  }

  lemma {:induction false} ReadRemembers(g: Shape, states: seq<State>, evs: seq<Event>, i: nat, k: nat, rid: nat)
    requires g.Valid() && Stepwise(g, states, evs) && UnderWay(states, evs, i, k, rid)
    ensures var rd := states[k].readers[rid];
      && rd.addr == evs[i].addr && |rd.buf| == evs[i].len
      && rd.since == |states[i].accepted| && rd.busy == BusyIn(g, states[i], evs[i].addr, evs[i].len)
    decreases k
  {
    var j := k - 1;
    assert states[j + 1] == Apply(g, states[j], evs[j]);
    if i < j {
      ReadRemembers(g, states, evs, i, j, rid);
      StepKeepsRead(g, states[j], evs[j], rid);
    }
  }

  /** No write overlaps the read at address `a`: none was under way or waiting when it was
      submitted, none was accepted since. */
  ghost predicate NoOverlap(g: Shape, states: seq<State>, evs: seq<Event>, i: nat, k: nat, a: nat)
    requires g.Valid() && i < |states| && k < |states|
  {
    && !Busy(g, states[i], a)
    && forall j :: |states[i].accepted| <= j < |states[k].accepted| ==> !Hits(g, states[k].accepted[j], a)
  }

  lemma ReadIsClean(g: Shape, states: seq<State>, evs: seq<Event>, i: nat, k: nat, rid: nat, a: nat)
    requires g.Valid() && Stepwise(g, states, evs) && UnderWay(states, evs, i, k, rid) && NoOverlap(g, states, evs, i, k, a)
    ensures Clean(g, states[k], states[k].readers[rid], a)
    ensures states[k].readers[rid].addr == evs[i].addr && |states[k].readers[rid].buf| == evs[i].len
  {
    ReadRemembers(g, states, evs, i, k, rid);
  }

  /** The last backend read of a client read completes, and none of its backend reads failed:
      whatever else the target did meanwhile, every byte the client gets that no write overlapped
      is the flat array's, as far as the last write to it succeeded. */
  lemma ReadReturnsFlatArray(g: Shape, states: seq<State>, evs: seq<Event>, i: nat, k: nat, rid: nat, part: (nat, nat), a: nat)
    requires Run(g, states, evs) && AllInv(g, states[0]) && UnderWay(states, evs, i, k, rid) && NoOverlap(g, states, evs, i, k, a)
    requires states[k].readers[rid].todo == {part} && !states[k].readers[rid].err
    requires evs[i].addr <= a < evs[i].addr + evs[i].len
    ensures AllInv(g, states[k]) && ReaderOk(g, states[k], states[k].readers[rid])
    ensures |states[k].readers[rid].buf| == evs[i].len && StripeOf(g, a) < |states[k].stripes|
    ensures FlatKnown(g, states[k], a) ==>
      Fill(g, states[k], states[k].readers[rid], part)[a - evs[i].addr] == FlatByte(g, states[k], a)
  {
    RunKeepsInvariant(g, states, evs, k);
    RunIsStepwise(g, states, evs);
    ReadIsClean(g, states, evs, i, k, rid, a);
    CleanReadIsExact(g, states[k], rid, part, a);
  }

  // ---------- What a client may count on ----------

  /** No client write covers byte `a` of the read of event `i` while it is under way: each was
      over before the read was submitted. */
  ghost predicate Undisturbed(states: seq<State>, evs: seq<Event>, i: nat, k: nat, a: nat)
    requires i < |evs| && i < |states|
  {
    forall j: nat :: j < k && Writes(states, evs, j, a) ==> j < i && evs[j].rid in states[i].closed
  }

  /** A chunk accepted so far that covers the byte is of a write that was over in time. */
  lemma OverlapIsOver(g: Shape, states: seq<State>, evs: seq<Event>, i: nat, k: nat, a: nat, n: nat, ch: Chunk)
    requires Run(g, states, evs) && Initial(g, states[0]) && g.Valid() && i < |evs| && n <= k <= |evs|
    requires Undisturbed(states, evs, i, k, a) && ch in states[n].accepted && Hits(g, ch, a)
    ensures ch.rid in states[i].closed
  {
    RunHistory(g, states, evs, n);
    var j := SubmittedBy(g, states, evs, n, ch, a);
  }

  lemma Accepted(g: Shape, st: State, ch: Chunk)
    requires AllInv(g, st)
    requires ch in st.pending || exists s :: 0 <= s < |st.stripes| && st.stripes[s].op.Some? && st.stripes[s].op.value.chunk == ch
    ensures ch in st.accepted && ch.rid !in st.closed
  {
    assert multiset(st.accepted)[ch] == Tally(st, ch);
    assert ch in st.pending ==> multiset(st.pending)[ch] > 0;
    assert forall j :: 0 <= j < |st.pending| ==> st.pending[j].rid in st.requests;
  }

  lemma UndisturbedIsIdle(g: Shape, states: seq<State>, evs: seq<Event>, i: nat, k: nat, a: nat)
    requires Run(g, states, evs) && Initial(g, states[0]) && g.Valid() && i < k <= |evs| && Undisturbed(states, evs, i, k, a)
    ensures !Busy(g, states[i], a)
  {
    RunHistory(g, states, evs, i);
    var st := states[i];
    forall j | 0 <= j < |st.pending| ensures !Hits(g, st.pending[j], a) {
      Accepted(g, st, st.pending[j]);
      if Hits(g, st.pending[j], a) {
        OverlapIsOver(g, states, evs, i, k, a, i, st.pending[j]);
      }
    }
    forall s | 0 <= s < |st.stripes| && st.stripes[s].op.Some? ensures !Hits(g, st.stripes[s].op.value.chunk, a) {
      Accepted(g, st, st.stripes[s].op.value.chunk);
      if Hits(g, st.stripes[s].op.value.chunk, a) {
        OverlapIsOver(g, states, evs, i, k, a, i, st.stripes[s].op.value.chunk);
      }
    }
  }

  lemma UndisturbedIsNoOverlap(g: Shape, states: seq<State>, evs: seq<Event>, i: nat, k: nat, a: nat)
    requires Run(g, states, evs) && Initial(g, states[0]) && g.Valid() && i < k <= |evs| && Undisturbed(states, evs, i, k, a)
    ensures NoOverlap(g, states, evs, i, k, a)
  {
    UndisturbedIsIdle(g, states, evs, i, k, a);
    RunIsLater(g, states, evs, i, k);
    forall q | |states[i].accepted| <= q < |states[k].accepted| ensures !Hits(g, states[k].accepted[q], a) {
      if Hits(g, states[k].accepted[q], a) {
        OverlapIsOver(g, states, evs, i, k, a, k, states[k].accepted[q]);
      }
    }
  }

  /** What a client may count on: a read that does not fail gets, for every byte that no write
      disturbs, what a write of that byte says that was not over yet when any other write of it
      was submitted, or what the disks held at first if there is none; as long as no I/O failed
      for any write of the byte. */
  lemma ReadReturnsLastWrite(g: Shape, states: seq<State>, evs: seq<Event>, i: nat, k: nat, rid: nat, part: (nat, nat), a: nat)
    returns (written: bool, w: nat)
    requires Run(g, states, evs) && Initial(g, states[0]) && UnderWay(states, evs, i, k, rid) && Undisturbed(states, evs, i, k, a)
    requires states[k].readers[rid].todo == {part} && !states[k].readers[rid].err
    requires evs[i].addr <= a < evs[i].addr + evs[i].len
    requires forall j: nat :: j < k && Writes(states, evs, j, a) ==> evs[j].rid !in states[k].failures
    ensures AllInv(g, states[k]) && ReaderOk(g, states[k], states[k].readers[rid])
    ensures |states[k].readers[rid].buf| == evs[i].len && StripeOf(g, a) < |states[k].stripes| == |states[0].stripes|
    ensures var byte_ := Fill(g, states[k], states[k].readers[rid], part)[a - evs[i].addr];
      if written then
        && w < k && Writes(states, evs, w, a) && byte_ == evs[w].buf[a - evs[w].addr]
        && forall j: nat :: j < k && Writes(states, evs, j, a) ==> !Precedes(states, evs, w, j)
      else
        byte_ == FirstByte(g, states[0], a) && forall j: nat :: j < k ==> !Writes(states, evs, j, a)
  {
    InitialInvariant(g, states[0]);
    UndisturbedIsNoOverlap(g, states, evs, i, k, a);
    ReadReturnsFlatArray(g, states, evs, i, k, rid, part, a);
    RunIsLater(g, states, evs, 0, k);
    RunIsLater(g, states, evs, i, k);
    UnfailedIsKnown(g, states, evs, k, a);
    written, w := LastWrite(g, states, evs, k, a);
  }
}
