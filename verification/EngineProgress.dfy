/** Requests of the RAID4/5 target get done: the work that is left bounds the backend I/Os that
    can still complete, and as long as a request is open some I/O is outstanding. */
module EngineProgress {
  import opened Arithmetic
  import opened Options
  import opened StripeWriter
  import opened Waiting
  import opened Engine
  import opened EngineInvariant
  import opened EngineTheorems

  /** An upper bound on the I/Os a write under way still waits for. */
  function PhaseWork(g: Shape, phase: Phase): nat {
    match phase
    case ReadOld(todo, _, _) => |todo| + g.strips + 2
    case ReadParity(_) => g.strips + 2
    case ReadStripe(todo, _, _) => |todo| + g.strips + 1
    case Write(_, todo, parityTodo, _, _, _) => |todo| + if parityTodo then 1 else 0
  }

  function StripeWork(g: Shape, x: Stripe): nat {
    if x.op.Some? then PhaseWork(g, x.op.value.phase) else 0
  }

  /** No chunk's write needs more. */
  function ChunkWork(g: Shape): nat { 2 * g.strips + 2 }

  function WorkOf(g: Shape, xs: seq<Stripe>): nat {
    if xs == [] then 0 else WorkOf(g, xs[..|xs| - 1]) + StripeWork(g, xs[|xs| - 1])
  }

  function WaitingWork(g: Shape, waiting: nat): nat {
    if waiting == 0 then 0 else WaitingWork(g, waiting - 1) + ChunkWork(g)
  }

  /** The backend I/Os the writes of a state may still take. */
  function WorkLeft(g: Shape, st: State): nat {
    WorkOf(g, st.stripes) + WaitingWork(g, |st.pending|)
  }

  lemma {:induction false} WorkOfUpdate(g: Shape, xs: seq<Stripe>, s: nat, y: Stripe)
    requires s < |xs|
    ensures WorkOf(g, xs[s := y]) + StripeWork(g, xs[s]) == WorkOf(g, xs) + StripeWork(g, y)
  {
    var last := |xs| - 1;
    if s == last {
      assert xs[s := y][..last] == xs[..last];
    } else {
      assert xs[s := y][..last] == xs[..last][s := y];
      WorkOfUpdate(g, xs[..last], s, y);
    }
  }

  lemma StripsCount(g: Shape, off: nat, len: nat)
    requires g.Valid() && off + len <= g.DataSize()
    ensures |Strips(g.strip, off, len)| <= g.strips
  {
    forall k | k in Strips(g.strip, off, len) ensures k < g.strips {
      var i :| off <= i < off + len && Quot(i, g.strip) == k;
      RoomToNext(i, g.strip, g.strips);
    }
    BelowCount(Strips(g.strip, off, len), g.strips);
  }

  lemma BeginWork(g: Shape, x: Stripe, ch: Chunk)
    requires g.Valid() && Fits(g, ch)
    ensures StripeWork(g, Begin(g, x, ch)) <= ChunkWork(g)
  {
    StripsCount(g, ch.off, |ch.buf|);
    StripsCount(g, 0, g.DataSize());
  }

  lemma ReadLessWork(g: Shape, x: Stripe, k: nat, ok: bool)
    requires g.Valid() && Sized(g, x) && Outstanding(x, DataStrip(k)) && OpSized(g, x.op.value)
    requires x.op.value.phase.ReadOld? || x.op.value.phase.ReadStripe?
    ensures AfterRead(g, x, k, ok).Goes? ==> PhaseWork(g, AfterRead(g, x, k, ok).phase) < PhaseWork(g, x.op.value.phase)
  {
    StripsCount(g, x.op.value.chunk.off, |x.op.value.chunk.buf|);
    assert |x.op.value.phase.todo - {k}| == |x.op.value.phase.todo| - 1;
  }

  lemma WriteLessWork(g: Shape, x: Stripe, part: Part, ok: bool)
    requires Outstanding(x, part) && x.op.value.phase.Write?
    ensures AfterWrite(x, part, ok).Goes? ==> PhaseWork(g, AfterWrite(x, part, ok).phase) < PhaseWork(g, x.op.value.phase)
  {
    if part.DataStrip? {
      assert |x.op.value.phase.todo - {part.k}| == |x.op.value.phase.todo| - 1;
    }
  }

  lemma LessWork(g: Shape, x: Stripe, part: Part, ok: bool)
    requires g.Valid() && Sized(g, x) && Outstanding(x, part) && OpSized(g, x.op.value)
    ensures After(g, x, part, ok).Goes? ==> PhaseWork(g, After(g, x, part, ok).phase) < PhaseWork(g, x.op.value.phase)
  {
    match x.op.value.phase
    case Write(_, _, _, _, _, _) => WriteLessWork(g, x, part, ok);
    case ReadParity(_) => StripsCount(g, x.op.value.chunk.off, |x.op.value.chunk.buf|);
    case _ => ReadLessWork(g, x, part.k, ok);
  }

  /** Every I/O that completes leaves less to do. */
  lemma CompleteWork(g: Shape, x: Stripe, part: Part, ok: bool)
    requires g.Valid() && Sized(g, x) && Outstanding(x, part) && OpSized(g, x.op.value)
    ensures StripeWork(g, Complete(g, x, part, ok)) < StripeWork(g, x)
  {
    LessWork(g, x, part, ok);
    assert PhaseWork(g, x.op.value.phase) > 0 by {
      SomethingLeft(g, x, part);
    }
  }

  lemma SomethingLeft(g: Shape, x: Stripe, part: Part)
    requires Outstanding(x, part)
    ensures PhaseWork(g, x.op.value.phase) > 0
  {
    match x.op.value.phase
    case Write(_, todo, parityTodo, _, _, _) => assert todo != {} ==> |todo| > 0;
    case _ =>
  }

  lemma PassOnWork(g: Shape, st: State, s: nat)
    requires g.Valid() && s < |st.stripes| && st.stripes[s].op.None? && PendingOk(g, st)
    ensures WorkLeft(g, PassOn(g, st, s)) <= WorkLeft(g, st)
  {
    var j := FirstPending(st.pending, s);
    if j < |st.pending| {
      BeginWork(g, st.stripes[s], st.pending[j]);
      WorkOfUpdate(g, st.stripes, s, Begin(g, st.stripes[s], st.pending[j]));
    } else {
      WorkOfUpdate(g, st.stripes, s, st.stripes[s].(locked := false));
    }
  }

  lemma ChunkIoWork(g: Shape, st: State, s: nat, part: Part, ok: bool)
    requires AllInv(g, st) && Shaped(g, st) && Enabled(g, st, ChunkIo(s, part, ok))
    ensures WorkLeft(g, AfterChunkIo(g, st, s, part, ok)) < WorkLeft(g, st)
  {
    var x := st.stripes[s];
    var y := Complete(g, x, part, ok);
    var rid := x.op.value.chunk.rid;
    CompleteWork(g, x, part, ok);
    WorkOfUpdate(g, st.stripes, s, y);
    CompleteFrame(g, x, part, ok);
    if y.op.None? {
      var st1 := Fail(st.(stripes := st.stripes[s := y]), rid, ok);
      ReportFrame(st1, rid, s, !y.log[|y.log| - 1].ok);
      StillFits(g, st, Report(st1, rid, s, !y.log[|y.log| - 1].ok), s, y);
      PassOnWork(g, Report(st1, rid, s, !y.log[|y.log| - 1].ok), s);
    }
  }

  lemma StillFits(g: Shape, st: State, st': State, s: nat, y: Stripe)
    requires PendingOk(g, st) && s < |st.stripes| && st'.stripes == st.stripes[s := y] && st'.pending == st.pending
    requires y.locked == st.stripes[s].locked
    ensures PendingOk(g, st')
  {
  }

  /** How many I/Os of writes complete in the first `n` events. */
  function ChunkIos(evs: seq<Event>, n: nat): nat
    requires n <= |evs|
  {
    if n == 0 then 0 else ChunkIos(evs, n - 1) + if evs[n - 1].ChunkIo? then 1 else 0
  }

  lemma StepWork(g: Shape, st: State, ev: Event)
    requires AllInv(g, st) && Shaped(g, st) && Enabled(g, st, ev) && !ev.SubmitWrite?
    ensures WorkLeft(g, Apply(g, st, ev)) + (if ev.ChunkIo? then 1 else 0) <= WorkLeft(g, st)
  {
    match ev
    case ChunkIo(s, part, ok) => ChunkIoWork(g, st, s, part, ok);
    case Tear(s, part, junk) => WorkOfUpdate(g, st.stripes, s, Torn(g, st.stripes[s], part, junk));
    case _ =>
  }

  /** Without new writes, only so many of their backend I/Os can complete, whatever the order,
      the reads beside them, and the errors; then no request for a write is open. */
  lemma {:induction false} WritesGetDone(g: Shape, states: seq<State>, evs: seq<Event>, n: nat)
    requires Run(g, states, evs) && AllInv(g, states[0]) && n <= |evs|
    requires forall i :: 0 <= i < n ==> !evs[i].SubmitWrite?
    ensures ChunkIos(evs, n) + WorkLeft(g, states[n]) <= WorkLeft(g, states[0])
    ensures states[n].requests != map[] ==> WorkLeft(g, states[n]) > 0 && HasIo(states[n])
  {
    if n > 0 {
      var i := n - 1;
      WritesGetDone(g, states, evs, i);
      WorkAfter(g, states, evs, i);
    }
    OpenAfter(g, states, evs, n);
  }

  lemma OpenAfter(g: Shape, states: seq<State>, evs: seq<Event>, n: nat)
    requires Run(g, states, evs) && AllInv(g, states[0]) && n <= |evs|
    ensures states[n].requests != map[] ==> WorkLeft(g, states[n]) > 0 && HasIo(states[n])
  {
    RunKeepsInvariant(g, states, evs, n);
    OpenNeedsIo(g, states[n]);
  }

  lemma OpenNeedsIo(g: Shape, st: State)
    requires AllInv(g, st)
    ensures st.requests != map[] ==> WorkLeft(g, st) > 0 && HasIo(st)
  {
    if st.requests != map[] {
      ActivityHasIo(g, st);
      OpenHasWork(g, st);
    }
  }

  lemma WorkAfter(g: Shape, states: seq<State>, evs: seq<Event>, i: nat)
    requires Run(g, states, evs) && AllInv(g, states[0]) && i < |evs| && !evs[i].SubmitWrite?
    ensures WorkLeft(g, states[i + 1]) + (if evs[i].ChunkIo? then 1 else 0) <= WorkLeft(g, states[i])
  {
    RunKeepsInvariant(g, states, evs, i);
    assert Step(g, states[i], evs[i], states[i + 1]);
    InvariantShapes(g, states[i]);
    StepWork(g, states[i], evs[i]);
  }

  lemma {:induction false} SomeWork(g: Shape, xs: seq<Stripe>, s: nat)
    requires s < |xs|
    ensures WorkOf(g, xs) >= StripeWork(g, xs[s])
  {
    if s < |xs| - 1 {
      SomeWork(g, xs[..|xs| - 1], s);
    }
  }

  lemma OpenHasWork(g: Shape, st: State)
    requires AllInv(g, st) && st.requests != map[]
    ensures WorkLeft(g, st) > 0
  {
    var rid :| rid in st.requests;
    var s :| s in st.requests[rid].todo;
    if Runs(st, rid, s) {
      SomeWork(g, st.stripes, s);
      RunningWork(g, st.stripes[s]);
    } else {
      assert Waits(st, rid, s);
      assert |st.pending| > 0;
    }
  }

  lemma RunningWork(g: Shape, x: Stripe)
    requires Inv(g, x) && x.op.Some?
    ensures StripeWork(g, x) > 0
  {
    match x.op.value.phase
    case Write(_, todo, parityTodo, _, _, _) => assert todo != {} ==> |todo| > 0;
    case _ =>
  }
}
