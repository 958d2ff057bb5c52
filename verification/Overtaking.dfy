/** A run of a fresh RAID4/5 target in which a waiting write is overtaken
    (ublk/raidsp/acceptor.cpp): the smallest array, and four client writes of its only stripe. */
module Overtaking {
  import opened Arithmetic
  import opened Bytes
  import opened Options
  import opened StripeWriter
  import opened Waiting
  import opened Engine
  import opened EngineInvariant
  import opened EngineRequests
  import opened EngineTheorems

  /** Two data strips of a byte each, and one stripe. */
  const G := Shape(2, 1)

  function Empty(): State {
    State([Stripe([0, 0], [0], false, false, None, [0, 0], [])], [], map[], map[], true, map[], [], {})
  }

  /** Client write `rid` of the whole stripe, and its only chunk. */
  function Ask(rid: nat): Event { SubmitWrite(rid, 0, Zeros(2)) }
  function Whole(rid: nat): Chunk { Chunk(rid, 0, 0, Zeros(2)) }

  /** The write of request `rid` has the stripe; strips `todo` and the parity are still to be
      written, nothing failed so far. */
  ghost predicate Holds(st: State, rid: nat, todo: set<nat>) {
    && |st.stripes| == 1 && st.online && st.stripes[0].locked && st.stripes[0].op.Some?
    && var op := st.stripes[0].op.value;
    && op.chunk == Whole(rid) && op.phase.Write? && op.phase.todo == todo && op.phase.parityTodo
    && !op.phase.errD && !op.phase.errP
    && rid in st.requests && st.requests[rid] == Request({0}, false)
  }

  /** Nothing but the stripe's disks, and how far its write is, changed. */
  ghost predicate SameBooks(st: State, st': State) {
    && st' == st.(stripes := st'.stripes) && |st'.stripes| == |st.stripes| == 1
    && st'.stripes[0].log == st.stripes[0].log && st'.stripes[0].locked == st.stripes[0].locked
  }

  lemma SplitWhole(rid: nat)
    ensures G.DataSize() == 2 && Split(G.DataSize(), rid, 0, Zeros(2)) == [Whole(rid)]
  {
    assert Zeros(2)[..2] == Zeros(2);
  }

  lemma StripsOfWhole()
    ensures Strips(1, 0, 2) == {0, 1}
  {
    assert Quot(0, 1) == 0 && Quot(1, 1) == 1;
    forall k ensures k in Strips(1, 0, 2) <==> k == 0 || k == 1 {
      assert k in Strips(1, 0, 2) <==> exists i :: 0 <= i < 2 && k == Quot(i, 1);
    }
  }

  lemma OneStripe(rid: nat)
    ensures StripesOf([Whole(rid)]) == {0}
  {
    var cs := [Whole(rid)];
    assert cs[0].stripe == 0;
    forall s | s in StripesOf(cs) ensures s == 0 {
      var j :| 0 <= j < |cs| && cs[j].stripe == s;
      assert cs[j] == Whole(rid);
    }
  }

  lemma AcceptOne(st: State, ch: Chunk)
    requires ch.stripe < |st.stripes|
    ensures AcceptAll(G, st, [ch]) == Accept(G, st, ch)
  {
    assert AcceptAll(G, Accept(G, st, ch), []) == Accept(G, st, ch);
  }

  // ---------- Steps ----------

  /** A write of a stripe that is held has to wait; a free one it gets. */
  lemma AskedFor(st: State, rid: nat)
    requires Shaped(G, st) && Enabled(G, st, Ask(rid)) && |st.stripes| == 1 && st.online
    ensures var st' := Apply(G, st, Ask(rid));
      && st'.requests == st.requests[rid := Request({0}, false)] && st'.readers == st.readers && st'.closed == st.closed && st'.online
      && |st'.stripes| == 1 && st'.stripes[0].log == st.stripes[0].log
      && (if st.stripes[0].locked then st'.stripes == st.stripes && st'.pending == st.pending + [Whole(rid)]
          else Holds(st', rid, {0, 1}) && st'.pending == st.pending)
  {
    SplitWhole(rid);
    StripsOfWhole();
    OneStripe(rid);
    AcceptOne(st.(requests := st.requests[rid := Request({0}, false)]), Whole(rid));
  }

  lemma DataWritten(st: State, rid: nat, todo: set<nat>, k: nat)
    requires Shaped(G, st) && Holds(st, rid, todo) && k in todo
    ensures var ev := ChunkIo(0, DataStrip(k), true);
      Enabled(G, st, ev) && SameBooks(st, Apply(G, st, ev)) && Holds(Apply(G, st, ev), rid, todo - {k})
  {
  }

  /** The last I/O of a write: its lock goes to the first of those that wait. */
  lemma ParityWritten(st: State, rid: nat, next: nat)
    requires Shaped(G, st) && Holds(st, rid, {}) && st.pending != [] && st.pending[0] == Whole(next)
    requires next != rid && next in st.requests && st.requests[next] == Request({0}, false)
    ensures var ev := ChunkIo(0, ParityStrip, true);
      && Enabled(G, st, ev)
      && var st' := Apply(G, st, ev);
      && Holds(st', next, {0, 1}) && st'.pending == Without(st.pending, 0) && st'.requests == st.requests - {rid}
      && st'.stripes[0].log == st.stripes[0].log + [Served(Whole(rid), true)]
  {
    StripsOfWhole();
    assert FirstPending(st.pending, 0) == 0;
  }

  /** Whose writes wait, in which order. */
  function Queue(rids: seq<nat>): seq<Chunk> { seq(|rids|, i requires 0 <= i < |rids| => Whole(rids[i])) }

  /** Write `rid` has the stripe, those of `rids` wait, and those of `over` were served. */
  ghost predicate At(st: State, rid: nat, todo: set<nat>, rids: seq<nat>, over: seq<nat>) {
    && Holds(st, rid, todo) && st.pending == Queue(rids) && st.readers == map[]
    && Chunks(st.stripes[0].log) == Queue(over)
    && (forall i :: 0 <= i < |rids| ==> rids[i] != rid && rids[i] in st.requests && st.requests[rids[i]] == Request({0}, false))
  }

  lemma QueueGrows(rids: seq<nat>, next: nat)
    ensures Queue(rids + [next]) == Queue(rids) + [Whole(next)]
  {
  }

  lemma QueueWithout(rids: seq<nat>)
    requires rids != []
    ensures Without(Queue(rids), 0) == Queue(Without(rids, 0))
  {
  }

  lemma OneMore(st: State, rid: nat, rids: seq<nat>, next: nat)
    requires Shaped(G, st) && At(st, rid, {0, 1}, rids, []) && Enabled(G, st, Ask(next))
    ensures var st' := Apply(G, st, Ask(next));
      At(st', rid, {0, 1}, rids + [next], []) && st'.closed == st.closed && st'.requests.Keys == st.requests.Keys + {next}
  {
    AskedFor(st, next);
    QueueGrows(rids, next);
  }

  lemma OneStrip(st: State, rid: nat, todo: set<nat>, k: nat, rids: seq<nat>, over: seq<nat>)
    requires Shaped(G, st) && At(st, rid, todo, rids, over) && k in todo
    ensures var ev := ChunkIo(0, DataStrip(k), true);
      Enabled(G, st, ev) && At(Apply(G, st, ev), rid, todo - {k}, rids, over)
  {
    DataWritten(st, rid, todo, k);
  }

  lemma LastIo(st: State, rid: nat, rids: seq<nat>, over: seq<nat>)
    requires Shaped(G, st) && At(st, rid, {}, rids, over) && rids != [] && forall i :: 0 < i < |rids| ==> rids[i] != rids[0]
    ensures var ev := ChunkIo(0, ParityStrip, true);
      Enabled(G, st, ev) && At(Apply(G, st, ev), rids[0], {0, 1}, Without(rids, 0), over + [rid])
  {
    ParityWritten(st, rid, rids[0]);
    QueueWithout(rids);
    QueueGrows(over, rid);
    ChunksGrow(st.stripes[0].log, Served(Whole(rid), true));
    forall i | 0 <= i < |Without(rids, 0)| ensures Without(rids, 0)[i] in rids[1..] {
      WithoutAt(rids, 0, i);
    }
  }

  lemma ChunksGrow(log: seq<Served>, e: Served)
    ensures Chunks(log + [e]) == Chunks(log) + [e.chunk]
  {
  }

  // ---------- The run ----------

  ghost predicate Reached(states: seq<State>, evs: seq<Event>) {
    Run(G, states, evs) && states[0] == Empty()
  }

  lemma IsShaped(states: seq<State>, evs: seq<Event>)
    requires Reached(states, evs)
    ensures Shaped(G, states[|evs|])
  {
    EmptyIsInitial();
    InitialInvariant(G, Empty());
    RunKeepsInvariant(G, states, evs, |evs|);
    InvariantShapes(G, states[|evs|]);
  }

  lemma EmptyIsInitial()
    ensures Initial(G, Empty())
  {
    assert G.DataSize() == 2;
  }

  lemma Then(states: seq<State>, evs: seq<Event>, ev: Event) returns (states': seq<State>, evs': seq<Event>)
    requires Reached(states, evs) && Shaped(G, states[|evs|]) && Enabled(G, states[|evs|], ev)
    ensures Reached(states', evs') && evs' == evs + [ev] && states'[|evs'|] == Apply(G, states[|evs|], ev)
  {
    states', evs' := states + [Apply(G, states[|evs|], ev)], evs + [ev];
    forall i | 0 <= i < |evs'| ensures Step(G, states'[i], evs'[i], states'[i + 1]) {
      if i < |evs| {
        assert Step(G, states[i], evs[i], states[i + 1]);
      }
    }
  }

  /** No request but those up to `rid` was made. */
  ghost predicate Known(st: State, rid: nat) {
    st.closed == map[] && forall r :: r in st.requests ==> r <= rid
  }

  lemma ThenAsk(states: seq<State>, evs: seq<Event>, rids: seq<nat>, next: nat) returns (states': seq<State>, evs': seq<Event>)
    requires Reached(states, evs) && At(states[|evs|], 1, {0, 1}, rids, []) && next > 0 && Known(states[|evs|], next - 1)
    ensures Reached(states', evs') && evs' == evs + [Ask(next)] && At(states'[|evs'|], 1, {0, 1}, rids + [next], [])
    ensures Known(states'[|evs'|], next)
  {
    IsShaped(states, evs);
    assert G.DataSize() == 2;
    OneMore(states[|evs|], 1, rids, next);
    states', evs' := Then(states, evs, Ask(next));
  }

  lemma ThenStrip(states: seq<State>, evs: seq<Event>, rid: nat, todo: set<nat>, k: nat, rids: seq<nat>, over: seq<nat>)
    returns (states': seq<State>, evs': seq<Event>)
    requires Reached(states, evs) && At(states[|evs|], rid, todo, rids, over) && k in todo
    ensures Reached(states', evs') && |evs| < |evs'| && evs == evs'[..|evs|] && At(states'[|evs'|], rid, todo - {k}, rids, over)
  {
    IsShaped(states, evs);
    OneStrip(states[|evs|], rid, todo, k, rids, over);
    states', evs' := Then(states, evs, ChunkIo(0, DataStrip(k), true));
  }

  lemma ThenParity(states: seq<State>, evs: seq<Event>, rid: nat, rids: seq<nat>, over: seq<nat>)
    returns (states': seq<State>, evs': seq<Event>)
    requires Reached(states, evs) && At(states[|evs|], rid, {}, rids, over) && rids != [] && forall i :: 0 < i < |rids| ==> rids[i] != rids[0]
    ensures Reached(states', evs') && |evs| < |evs'| && evs == evs'[..|evs|]
    ensures At(states'[|evs'|], rids[0], {0, 1}, Without(rids, 0), over + [rid])
  {
    IsShaped(states, evs);
    LastIo(states[|evs|], rid, rids, over);
    states', evs' := Then(states, evs, ChunkIo(0, ParityStrip, true));
  }

  /** The write that has the stripe ends well. */
  lemma ThenEnds(states: seq<State>, evs: seq<Event>, rid: nat, rids: seq<nat>, over: seq<nat>) returns (states': seq<State>, evs': seq<Event>)
    requires Reached(states, evs) && At(states[|evs|], rid, {0, 1}, rids, over) && rids != []
    requires forall i :: 0 < i < |rids| ==> rids[i] != rids[0]
    ensures Reached(states', evs') && |evs| < |evs'| && evs == evs'[..|evs|]
    ensures At(states'[|evs'|], rids[0], {0, 1}, Without(rids, 0), over + [rid])
  {
    states', evs' := ThenStrip(states, evs, rid, {0, 1}, 0, rids, over);
    states', evs' := ThenStrip(states', evs', rid, {0, 1} - {0}, 1, rids, over);
    assert {0, 1} - {0} - {1} == {};
    states', evs' := ThenParity(states', evs', rid, rids, over);
  }

  lemma AskedOnce() returns (states: seq<State>, evs: seq<Event>)
    ensures Reached(states, evs) && evs == [Ask(1)] && At(states[1], 1, {0, 1}, [], []) && Known(states[1], 1)
  {
    IsShaped([Empty()], []);
    AskedFor(Empty(), 1);
    states, evs := Then([Empty()], [], Ask(1));
  }

  /** Writes 2, 3 and 4 wait while write 1 runs. */
  lemma WaitingThree() returns (states: seq<State>, evs: seq<Event>)
    ensures Reached(states, evs) && evs == [Ask(1), Ask(2), Ask(3), Ask(4)] && At(states[4], 1, {0, 1}, [2, 3, 4], [])
  {
    states, evs := AskedOnce();
    var none: seq<nat>, two: seq<nat>, three: seq<nat>, four: seq<nat> := [], [2], [2, 3], [2, 3, 4];
    assert none + [2] == two && two + [3] == three && three + [4] == four;
    states, evs := ThenAsk(states, evs, none, 2);
    states, evs := ThenAsk(states, evs, two, 3);
    states, evs := ThenAsk(states, evs, three, 4);
  }

  /** Of four client writes of one stripe, submitted in order, the fourth has the stripe when two
      are over, while the third still waits. */
  lemma OvertakingRun() returns (states: seq<State>, evs: seq<Event>)
    ensures Run(G, states, evs) && Initial(G, states[0])
    ensures |evs| >= 4 && evs[..4] == [Ask(1), Ask(2), Ask(3), Ask(4)]
    ensures var st := states[|evs|];
      && |st.stripes| == 1 && Chunks(st.stripes[0].log) == [Whole(1), Whole(2)]
      && st.stripes[0].op.Some? && st.stripes[0].op.value.chunk == Whole(4) && st.pending == [Whole(3)]
  {
    EmptyIsInitial();
    var states1, evs1 := WaitingThree();
    assert Without([2, 3, 4], 0) == [4, 3] && Without([4, 3], 0) == [3];
    var states2, evs2 := ThenEnds(states1, evs1, 1, [2, 3, 4], []);
    states, evs := ThenEnds(states2, evs2, 2, [4, 3], [1]);
    assert evs[..4] == evs2[..4] == evs1;
    assert Queue([1, 2]) == [Whole(1), Whole(2)] && Queue([3]) == [Whole(3)];
  }
}
