/** The RAID4/5 write engine in its own form (ublk/raidsp/acceptor.cpp, target.cpp, fsm.hpp):
    fields updated in place, one method per entry point and completer.  The ghost field `model`
    is the state of the machine of module Engine; every method moves it by exactly the
    machine's step, so all results about runs of the machine hold of this code. */
module Acceptor {
  import opened Arithmetic
  import opened Bytes
  import opened Options
  import Parity
  import opened BitsetLocker
  import opened StripeWriter
  import opened Waiting
  import opened Engine
  import opened EngineInvariant
  import opened EngineRequests
  import EngineTheorems
  import Fsm
  import opened Layout
  import opened RaidBackend
  import opened Disks

  import opened AcceptorSteps

  class Target {
    const l: Layout
    const stripes: nat               // capacity, in stripes
    const be: Backend
    const locker: Locker             // stripe_w_locker_

    var disks: seq<seq<byte>>        // what the backend devices hold

    var coherency: seq<bool>         // stripe_parity_coherency_state_
    var pending: seq<Chunk>          // wqs_pending_
    var active: map<nat, Op>         // the completers waiting for backend I/O, by stripe
    var ios: map<nat, map<nat, Io>>  // their disk requests, by stripe and data strip
    var requests: map<nat, Request>
    var reading: map<nat, Reading>
    const fsm: Fsm.Machine           // fsm_

    ghost var model: State

    ghost predicate Shows(hole: int)
      reads this, locker, fsm
    {
      && be.l == l && |model.stripes| == stripes
      && DisksOk(l, disks, coherency, model.stripes)
      && ActiveOk(l, active, ios, |coherency|)
      && LocksOk(active, locker.bits, model.stripes, hole)
      && |coherency| == |locker.bits| <= stripes && WaitOk(pending, |coherency|)
      && model.pending == pending && model.requests == requests && model.online == fsm.online
      && ReadsOk(l, reading, model.readers)
    }

    ghost predicate Valid()
      reads this, locker, fsm
    {
      Shows(-1)
    }

    constructor (l: Layout, disks: seq<seq<byte>>, stripes: nat)
      requires Fit(l, disks, stripes)
      ensures Valid() && this.l == l && this.stripes == stripes && this.disks == disks
      ensures EngineTheorems.Initial(l.shape, model) && AllInv(l.shape, model) && Ready(l.shape, model)
      ensures fresh(locker) && fresh(fsm)
    {
      this.l, this.stripes, this.disks := l, stripes, disks;
      be := new Backend(l);
      locker := new Locker();
      fsm := new Fsm.Machine();
      coherency, pending, active, ios, requests, reading := [], [], map[], map[], map[], map[];
      ghost var xs := seq(stripes, s requires 0 <= s < stripes && Fit(l, disks, stripes) =>
          Stripe(DataOf(l, disks, stripes, s), ParityOf(l, disks, stripes, s), false, false, None, DataOf(l, disks, stripes, s), []));
      model := State(xs, [], map[], map[], true, map[], [], {});
      InitialDisks(l, disks, xs);
      new;
      EngineTheorems.InitialInvariant(l.shape, model);
      InvariantIsReady(l.shape, model);
    }

    // ---------- Helpers ----------

    /** The backend's requests for a range of one stripe, by strip. */
    method ByStrip(ghost s: nat, off: nat, ghost len: nat, list: seq<Io>) returns (ps: map<nat, Io>)
      requires l.Valid() && len > 0 && off + len <= l.shape.DataSize()
      requires list == StripIos(l, s, Quot(off, l.shape.strip), Wrap(off, l.shape.strip), len, 0)
      ensures HasPieces(l, s, ps, off, len, Strips(l.shape.strip, off, len))
    {
      QuotIsDiv(off, l.shape.strip);
      var k := off / l.shape.strip;
      ps := map[];
      for m := 0 to |list|
        invariant forall i :: k <= i < k + m ==> i in ps && ps[i] == list[i - k]
      {
        ps := ps[k + m := list[m]];
      }
      PiecesFound(l, s, off, len, list, ps);
    }

    /** A range of a stripe is asked for. */
    method ReadRange(s: nat, off: nat, len: nat) returns (ps: map<nat, Io>)
      requires l.Valid() && be.l == l && len > 0 && off + len <= l.shape.DataSize()
      ensures HasPieces(l, s, ps, off, len, Strips(l.shape.strip, off, len))
    {
      ghost var addr := s * l.shape.DataSize() + off;
      QuotUnique(addr, l.shape.DataSize(), s, off);
      OneStripe(l, s, off, len);
      var list := be.DataRead(addr, s, off, len);
      ps := ByStrip(s, off, len, list);
    }

    /** A range of a stripe goes out, together with the parity strip. */
    method WriteRange(s: nat, off: nat, len: nat) returns (ps: map<nat, Io>, parity: Io)
      requires l.Valid() && be.l == l && len > 0 && off + len <= l.shape.DataSize()
      ensures HasPieces(l, s, ps, off, len, Strips(l.shape.strip, off, len)) && IsParityIo(l, s, parity)
    {
      ghost var addr := s * l.shape.DataSize() + off;
      QuotUnique(addr, l.shape.DataSize(), s, off);
      var list;
      list, parity := be.StripeWrite(addr, s, off, len);
      ps := ByStrip(s, off, len, list);
    }

    /** A parity computed from scratch. */
    method RenewedParity(data: seq<byte>) returns (p: seq<byte>)
      requires l.shape.Valid()
      ensures p == Parity.Of(data, l.shape.strip)
    {
      var d := new byte[|data|](i requires 0 <= i < |data| => data[i]);
      var parity := new byte[l.shape.strip];
      Parity.ParityRenew(d, parity);
      assert d[..] == data;
      p := parity[..];
    }

    /** A parity patched with old and new bytes of a range. */
    method PatchedParity(was: seq<byte>, old_: seq<byte>, buf: seq<byte>, off: nat) returns (p: seq<byte>)
      requires |was| == l.shape.strip > 0 && |old_| == |buf|
      ensures p == Parity.Folded(was, XorSeq(buf, old_), off % l.shape.strip)
    {
      var chunk := new byte[|buf|](i requires 0 <= i < |buf| => buf[i]);
      var diff := new byte[|old_|](i requires 0 <= i < |old_| => old_[i]);
      var parity := new byte[|was|](i requires 0 <= i < |was| => was[i]);
      assert parity[..] == was;
      Parity.XorTo(chunk, 0, |buf|, diff, 0);
      forall i | 0 <= i < |buf| ensures diff[i] == XorSeq(buf, old_)[i] {
        XorLaws(old_[i], buf[i], 0);
      }
      assert diff[..] == XorSeq(buf, old_);
      Parity.ParityTo(diff, parity, off % l.shape.strip);
      p := parity[..];
    }

    // ---------- A chunk's write starts ----------

    /** The completers of stripe `s`, whose lock is held, now wait for the I/O of `op`. */
    method Install(s: nat, op: Op, ps: map<nat, Io>)
      requires Shows(s) && s < |coherency| && Held(locker.bits, s) && PiecesFor(l, s, ps, op)
      modifies this`active, this`ios, this`model
      ensures Valid()
      ensures model == With(old(model), s, old(model.stripes[s]).(locked := true, op := Some(op)))
    {
      ghost var y := model.stripes[s].(locked := true, op := Some(op));
      ActiveAdded(l, active, ios, |coherency|, s, op, ps);
      DisksKept(l, disks, coherency, model.stripes, s, y);
      LocksKept(active, locker.bits, model.stripes, s, active[s := op], locker.bits, s, y);
      active := active[s := op];
      ios := ios[s := ps];
      model := With(model, s, y);
    }

    /** `process(stripe_id, wq)`: the lock is held, nothing runs on the stripe yet. */
    method Process(ch: Chunk) returns (res: int)
      requires Shows(ch.stripe) && ch.stripe < |coherency| && Fits(l.shape, ch)
      requires Held(locker.bits, ch.stripe)
      modifies this`active, this`ios, this`model
      ensures res == 0 && Valid() && model == With(old(model), ch.stripe, Begin(l.shape, old(model.stripes[ch.stripe]), ch))
    {
      var s, strip, size := ch.stripe, l.shape.strip, l.shape.DataSize();
      StripAtDisk(l, disks, coherency, model.stripes, s);
      if |ch.buf| < size {
        if coherency[s] {
          var ps := ReadRange(s, ch.off, |ch.buf|);
          Install(s, Op(ch, ReadOld(Strips(strip, ch.off, |ch.buf|), false, Zeros(|ch.buf|))), ps);
        } else {
          var ps := ReadRange(s, 0, size);
          Install(s, Op(ch, ReadStripe(Strips(strip, 0, size), false, Zeros(size))), ps);
        }
      } else {
        var parity := RenewedParity(ch.buf);
        StripeWrite(ch, coherency[s], parity);
      }
      res := 0;
    }

    /** `stripe_write` and the coherent and incoherent parity writes: the range and the parity
        strip go out together. */
    method StripeWrite(ch: Chunk, coherently: bool, parity: seq<byte>)
      requires Shows(ch.stripe) && ch.stripe < |coherency| && Held(locker.bits, ch.stripe) && Fits(l.shape, ch)
      modifies this`active, this`ios, this`model
      ensures Valid()
      ensures model == With(old(model), ch.stripe,
        old(model.stripes[ch.stripe]).(locked := true, op := Some(Op(ch, WritePhase(l.shape, ch, coherently, parity)))))
    {
      var ps, parityIo := WriteRange(ch.stripe, ch.off, |ch.buf|);
      Install(ch.stripe, Op(ch, WritePhase(l.shape, ch, coherently, parity)), ps);
    }

    // ---------- A chunk's write is over ----------

    method FindPending(s: nat) returns (j: nat)
      ensures j == FirstPending(pending, s)
    {
      j := 0;
      while j < |pending| && pending[j].stripe != s
        invariant j <= |pending| && FirstPending(pending, s) == j + FirstPending(pending[j..], s)
      {
        j := j + 1;
      }
    }

    /** The completer of a chunk: its request hears of it, and the stripe's lock goes to the
        first chunk waiting for it, or is released. */
    method ChunkOver(ch: Chunk, failed: bool)
      requires Valid() && ch.stripe < |coherency| && Held(locker.bits, ch.stripe)
      requires ch.rid in requests
      requires forall j :: 0 <= j < |pending| ==> Fits(l.shape, pending[j])
      modifies this, locker, fsm
      ensures Valid() && model == PassOn(l.shape, Report(old(model), ch.rid, ch.stripe, failed), ch.stripe)
    {
      ReportChunk(ch.rid, ch.stripe, failed);
      ghost var st := model;
      var finish := false;
      while !finish
        invariant Valid()
        invariant !finish ==> model == st && Held(locker.bits, ch.stripe) && ch.stripe < |coherency| && pending == old(pending)
        invariant finish ==> model == PassOn(l.shape, st, ch.stripe)
        decreases !finish
      {
        var j := FindPending(ch.stripe);
        if j < |pending| {
          finish := TakeNext(ch.stripe, j);
        } else {
          FreeStripe(ch.stripe);
          finish := true;
        }
      }
    }

    method TakeNext(s: nat, j: nat) returns (finish: bool)
      requires Valid() && s < |coherency| && Held(locker.bits, s) && j == FirstPending(pending, s) < |pending|
      requires Fits(l.shape, pending[j])
      modifies this`active, this`ios, this`pending, this`model
      ensures finish && Valid() && model == PassOn(l.shape, old(model), s)
    {
      assert LocksOk(active, locker.bits, model.stripes, s);
      var res := Process(pending[j]);
      finish := res == 0;
      pending := Without(pending, j);
      model := model.(pending := pending);
    }

    method FreeStripe(s: nat)
      requires Valid() && s < |coherency| && Held(locker.bits, s) && FirstPending(pending, s) == |pending|
      modifies this`model, locker
      ensures Valid() && model == PassOn(l.shape, old(model), s)
    {
      ghost var y, bits := model.stripes[s].(locked := false), locker.bits;
      LockAt(active, bits, model.stripes, -1, s);
      locker.Unlock(s);
      DisksKept(l, disks, coherency, model.stripes, s, y);
      LocksKept(active, bits, model.stripes, -1, active, locker.bits, s, y);
      model := With(model, s, y);
    }

    method ReportChunk(rid: nat, s: nat, failed: bool)
      requires Valid() && rid in requests
      modifies this`requests, this`model, fsm
      ensures Valid() && model == Report(old(model), rid, s, failed)
    {
      var r := Request(requests[rid].todo - {s}, requests[rid].err || failed);
      if r.todo == {} {
        CloseRequest(rid, r.err);
      } else {
        requests := requests[rid := r];
        model := model.(requests := requests);
      }
    }

    /** The last chunk of a request is over. */
    method CloseRequest(rid: nat, err: bool)
      requires Valid()
      modifies this`requests, this`model, fsm
      ensures Valid() && model == Close(old(model).(requests := old(model.requests) - {rid}), rid, err)
    {
      requests := requests - {rid};
      if err {
        var answer := fsm.Process(Fsm.Failed);
      }
      model := Close(model.(requests := requests), rid, err);
    }

    // ---------- Effects of a completed I/O ----------

    /** A data strip of a range arrived from its disk. */
    method Fetch(s: nat, k: nat, off: nat, buf: seq<byte>, io: Io) returns (r: seq<byte>)
      requires Valid() && s < stripes && off + |buf| <= l.shape.DataSize() && io.len > 0 && IsPiece(l, s, off, |buf|, k, io)
      ensures r == Get(buf, l.shape.strip, off, model.stripes[s].data, k)
    {
      ReadIsGet(l, disks, stripes, s, off, buf, k, io);
      StripAtDisk(l, disks, coherency, model.stripes, s);
      r := Overlay(buf, io.pos, disks[io.disk][io.off..io.off + io.len]);
    }

    /** A data strip of a range reached its disk. */
    method StoreStrip(s: nat, k: nat, off: nat, buf: seq<byte>, io: Io)
      requires Valid() && s < stripes && off + |buf| <= l.shape.DataSize() == |model.stripes[s].data|
      requires io.len > 0 && IsPiece(l, s, off, |buf|, k, io)
      modifies this`disks, this`model
      ensures Valid()
      ensures model == With(old(model), s, old(model.stripes[s]).(data := Put(old(model.stripes[s]).data, l.shape.strip, off, buf, k)))
    {
      ghost var xs, y := model.stripes, model.stripes[s].(data := Put(model.stripes[s].data, l.shape.strip, off, buf, k));
      PieceOnDisk(l, disks, stripes, s, off, |buf|, k, io);
      LockAt(active, locker.bits, xs, -1, s);
      LocksKept(active, locker.bits, xs, -1, active, locker.bits, s, y);
      StripStored(l, disks, Poke(disks, io.disk, io.off, buf[io.pos..io.pos + io.len]), coherency, xs, s, k, off, buf, io);
      disks := Poke(disks, io.disk, io.off, buf[io.pos..io.pos + io.len]);
      model := With(model, s, y);
    }

    /** A stripe's parity strip reached its disk. */
    method StoreParity(s: nat, parity: seq<byte>)
      requires Valid() && s < stripes && |parity| == l.shape.strip
      modifies this`disks, this`model
      ensures Valid()
      ensures model == With(old(model), s, old(model.stripes[s]).(parity := parity))
    {
      ghost var xs, y := model.stripes, model.stripes[s].(parity := parity);
      var io := be.ParityRead(s);
      ParityIoIs(l, s, io);
      ParityReadIs(l, disks, stripes, s);
      LockAt(active, locker.bits, xs, -1, s);
      LocksKept(active, locker.bits, xs, -1, active, locker.bits, s, y);
      ParityStored(l, disks, Poke(disks, io.disk, io.off, parity), coherency, xs, s, parity);
      disks := Poke(disks, io.disk, io.off, parity);
      model := With(model, s, y);
    }

    method SetCoherency(s: nat, value: bool)
      requires Valid() && s < |coherency|
      modifies this`coherency, this`model
      ensures Valid() && |coherency| == |old(coherency)|
      ensures model == With(old(model), s, old(model.stripes[s]).(coherent := value))
    {
      ghost var xs, y := model.stripes, model.stripes[s].(coherent := value);
      LockAt(active, locker.bits, xs, -1, s);
      LocksKept(active, locker.bits, xs, -1, active, locker.bits, s, y);
      BitSet(l, disks, coherency, xs, s, value);
      coherency := coherency[s := value];
      model := With(model, s, y);
    }

    /** A write holds stripe `s`. */
    ghost predicate Working(s: nat)
      reads this, locker, fsm
    {
      && Writing(l.shape, model, s) && s in active && model.stripes[s].op.value == active[s]
      && Valid() && s < stripes && Held(locker.bits, s) && active[s].chunk.stripe == s
      && forall j :: 0 <= j < |pending| ==> Fits(l.shape, pending[j])
    }

    /** Nothing waits any more for the write on stripe `s`. */
    method Retire(s: nat, failed: bool)
      requires Working(s)
      modifies this`active, this`model
      ensures Valid() && model == With(old(model), s, Ended(old(model.stripes[s]), old(active)[s].chunk, failed))
    {
      ghost var y := Ended(model.stripes[s], active[s].chunk, failed);
      LockAt(active, locker.bits, model.stripes, -1, s);
      DisksKept(l, disks, coherency, model.stripes, s, y);
      LocksKept(active, locker.bits, model.stripes, -1, active - {s}, locker.bits, s, y);
      active := active - {s};
      model := With(model, s, y);
    }

    /** The write on stripe `s` is over. */
    method EndWrite(s: nat, failed: bool)
      requires Working(s)
      modifies this, locker, fsm
      ensures Valid() && model == Moved(l.shape, old(model), s, Ends(failed))
    {
      var ch := active[s].chunk;
      Retire(s, failed);
      ChunkOver(ch, failed);
    }

    /** The write on stripe `s` goes on. */
    method GoOn(s: nat, phase: Phase, ps: map<nat, Io>)
      requires Working(s) && PiecesFor(l, s, ps, Op(active[s].chunk, phase))
      modifies this`active, this`ios, this`model
      ensures Valid() && model == Moved(l.shape, old(model), s, Goes(phase))
    {
      MovedOn(l.shape, model, s, phase);
      Install(s, Op(active[s].chunk, phase), ps);
    }

    /** The write on stripe `s` gets to writing. */
    method GetToWriting(s: nat, coherently: bool, parity: seq<byte>)
      requires Working(s)
      modifies this`active, this`ios, this`model
      ensures Valid() && model == Moved(l.shape, old(model), s, Goes(WritePhase(l.shape, old(active)[s].chunk, coherently, parity)))
    {
      MovedOn(l.shape, model, s, WritePhase(l.shape, active[s].chunk, coherently, parity));
      StripeWrite(active[s].chunk, coherently, parity);
    }

    // ---------- The completers of a chunk's backend I/O ----------

    /** One strip of the bytes to be replaced arrived, or failed to. */
    method OldArrived(s: nat, k: nat, ok: bool)
      requires Working(s) && active[s].phase.ReadOld? && k in active[s].phase.todo
      modifies this, locker, fsm
      ensures Valid() && model == Moved(l.shape, old(model), s, AfterRead(l.shape, old(model.stripes[s]), k, ok))
    {
      var ch, p, ps := active[s].chunk, active[s].phase, ios[s];
      LockAt(active, locker.bits, model.stripes, -1, s);
      var old_ := p.old_;
      if ok {
        old_ := Fetch(s, k, ch.off, old_, ps[k]);
      }
      var todo, err := p.todo - {k}, p.err || !ok;
      if todo != {} {
        GoOn(s, ReadOld(todo, err, old_), ps);
      } else if err {
        EndWrite(s, true);
      } else {
        GoOn(s, ReadParity(old_), ps);
      }
    }

    /** One strip of a whole stripe arrived, or failed to. */
    method StripeArrived(s: nat, k: nat, ok: bool)
      requires Working(s) && active[s].phase.ReadStripe? && k in active[s].phase.todo
      modifies this, locker, fsm
      ensures Valid() && model == Moved(l.shape, old(model), s, AfterRead(l.shape, old(model.stripes[s]), k, ok))
    {
      var ch, p, ps := active[s].chunk, active[s].phase, ios[s];
      LockAt(active, locker.bits, model.stripes, -1, s);
      var whole := p.whole;
      if ok {
        whole := Fetch(s, k, 0, whole, ps[k]);
      }
      var todo, err := p.todo - {k}, p.err || !ok;
      if todo != {} {
        GoOn(s, ReadStripe(todo, err, whole), ps);
      } else if err {
        EndWrite(s, true);
      } else {
        var parity := RenewedParity(Overlay(whole, ch.off, ch.buf));
        GetToWriting(s, false, parity);
      }
    }

    /** The old parity strip arrived, or failed to. */
    method ParityArrived(s: nat, ok: bool)
      requires Working(s) && active[s].phase.ReadParity?
      modifies this, locker, fsm
      ensures Valid() && model == Moved(l.shape, old(model), s, AfterParityRead(l.shape, old(model.stripes[s]), ok))
    {
      var ch, p := active[s].chunk, active[s].phase;
      ghost var next := AfterParityRead(l.shape, model.stripes[s], ok);
      if !ok {
        EndWrite(s, true);
      } else {
        var was := ParityOnDisk(s);
        var parity := PatchedParity(was, p.old_, ch.buf, ch.off);
        assert next == Goes(WritePhase(l.shape, ch, true, parity));
        GetToWriting(s, true, parity);
      }
    }

    /** What the disks have of a stripe's parity. */
    method ParityOnDisk(s: nat) returns (parity: seq<byte>)
      requires Working(s)
      ensures parity == model.stripes[s].parity && |parity| == l.shape.strip
    {
      var io := be.ParityRead(s);
      ParityIoIs(l, s, io);
      ParityReadIs(l, disks, stripes, s);
      LockAt(active, locker.bits, model.stripes, -1, s);
      StripAtDisk(l, disks, coherency, model.stripes, s);
      parity := disks[io.disk][io.off..io.off + io.len];
    }

    /** One strip of the data, or the parity strip, reached its disk, or failed to. */
    method Store(s: nat, part: Part, ok: bool)
      requires Working(s) && active[s].phase.Write? && Outstanding(model.stripes[s], part)
      modifies this`disks, this`model
      ensures Working(s)
      ensures model == With(old(model), s, Stored(l.shape, old(model.stripes[s]), part, ok))
    {
      var ch, p := active[s].chunk, active[s].phase;
      StillWriting(l.shape, model, s, part, ok);
      if ok {
        if part.ParityStrip? {
          StoreParity(s, p.newParity);
        } else {
          StoreStrip(s, part.k, ch.off, ch.buf, ios[s][part.k]);
        }
      }
    }

    /** The completers' word on the coherency bit: a coherent write clears it on an error, an
        incoherent one sets it to whether all went well. */
    method Judge(s: nat, part: Part, ok: bool)
      requires Working(s) && active[s].phase.Write?
      modifies this`coherency, this`model
      ensures Working(s)
      ensures model == With(old(model), s, old(model.stripes[s]).(coherent := Coherency(old(model.stripes[s]), part, ok)))
    {
      CoherencyIs(model, s, part, ok);
      if Speaks(active[s].phase, part, ok) {
        SetCoherency(s, Verdict(active[s].phase, ok));
      }
    }

    /** A write I/O is over: the write goes on, or ends. */
    method Written(s: nat, part: Part, ok: bool)
      requires Working(s) && active[s].phase.Write? && Outstanding(model.stripes[s], part)
      modifies this, locker, fsm
      ensures Valid() && model == Moved(l.shape, old(model), s, AfterWrite(old(model.stripes[s]), part, ok))
    {
      AfterWriteIs(model.stripes[s], part, ok);
      var p := OneLess(active[s].phase, part, ok);
      if p.todo == {} && !p.parityTodo {
        EndWrite(s, p.errD || p.errP);
      } else {
        GoOn(s, p, ios[s]);
      }
    }

    /** A write I/O completes. */
    method WriteIo(s: nat, part: Part, ok: bool)
      requires Working(s) && active[s].phase.Write? && Outstanding(model.stripes[s], part)
      modifies this, locker, fsm
      ensures Writing(l.shape, With(old(model), s, Effect(l.shape, old(model.stripes[s]), part, ok)), s)
      ensures Valid() && model == Moved(l.shape, With(old(model), s, Effect(l.shape, old(model.stripes[s]), part, ok)), s,
                                        After(l.shape, old(model.stripes[s]), part, ok))
    {
      EffectFrame(l.shape, model.stripes[s], part, ok);
      EffectInTwo(l.shape, model, s, part, ok);
      Store(s, part, ok);
      Judge(s, part, ok);
      Written(s, part, ok);
    }

    /** A failed I/O is noted, for the specification. */
    ghost method NoteFailure(s: nat, part: Part, ok: bool)
      requires Valid() && Ready(l.shape, model) && s < stripes && Outstanding(model.stripes[s], part)
      modifies this`model
      ensures Working(s) && Outstanding(model.stripes[s], part)
      ensures Leads(l.shape, model, s, part, ok, AfterChunkIo(l.shape, old(model), s, part, ok))
    {
      ReadyIsWriting(l.shape, model, s, part, ok);
      LockAt(active, locker.bits, model.stripes, -1, s);
      StepLeads(l.shape, model, s, part, ok);
      model := Fail(model, active[s].chunk.rid, ok);
    }

    /** A backend I/O of the write on stripe `s` completes: exactly the machine's step. */
    method CompleteChunkIo(s: nat, part: Part, ok: bool)
      requires Valid() && Ready(l.shape, model) && s < stripes && Outstanding(model.stripes[s], part)
      modifies this, locker, fsm
      ensures Valid() && model == AfterChunkIo(l.shape, old(model), s, part, ok)
      ensures old(AllInv(l.shape, model)) ==> AllInv(l.shape, model) && Ready(l.shape, model)
    {
      StepStaysReady(l.shape, model, ChunkIo(s, part, ok));
      NoteFailure(s, part, ok);
      match active[s].phase
      case Write(_, _, _, _, _, _) => WriteIo(s, part, ok);
      case ReadParity(_) => ParityArrived(s, ok);
      case ReadOld(_, _, _) => OldArrived(s, part.k, ok);
      case ReadStripe(_, _, _) => StripeArrived(s, part.k, ok);
    }

    // ---------- Client writes ----------

    /** Room for the lock and coherency bits of the first `n` stripes. */
    method Grow(n: nat)
      requires Valid() && n <= stripes
      modifies this`coherency, locker
      ensures Valid() && n <= |coherency| <= stripes
    {
      ghost var bits := locker.bits;
      locker.Extend(n);
      LocksSame(active, bits, locker.bits, model.stripes, -1);
      BitsGrown(l, disks, coherency, model.stripes, |locker.bits| - |coherency|);
      coherency := coherency + seq(|locker.bits| - |coherency|, _ => false);
    }

    /** A chunk is accepted: its stripe is locked for it, or it joins the pending ones. */
    method AcceptChunk(ch: Chunk) returns (res: int)
      requires Valid() && ch.stripe < |coherency| && Fits(l.shape, ch)
      modifies this`active, this`ios, this`pending, this`model, locker
      ensures res == 0 && Valid() && model == Accept(l.shape, old(model), ch)
    {
      ghost var bits := locker.bits;
      LockAt(active, bits, model.stripes, -1, ch.stripe);
      res := 0;
      var taken := locker.TryLock(ch.stripe);
      if !taken {
        LocksSame(active, bits, locker.bits, model.stripes, -1);
        pending := pending + [ch];
        model := model.(pending := pending);
      } else {
        LocksSame(active, bits, locker.bits, model.stripes, ch.stripe);
        res := Process(ch);
      }
      model := model.(accepted := model.accepted + [ch]);
    }

    /** The next chunk of those left of a request. */
    method AcceptNext(ch: Chunk, ghost left: seq<Chunk>, ghost end: State)
      requires Valid() && Remaining(l.shape, model, |coherency|, left, end) && left != [] && left[0] == ch
      modifies this`active, this`ios, this`pending, this`model, locker
      ensures Valid() && Remaining(l.shape, model, |coherency|, left[1..], end)
    {
      RemainingStep(l.shape, model, |coherency|, left, end);
      var res := AcceptChunk(ch);
    }

    /** The chunks of a request, which starts at byte `offset` of stripe `from`. */
    method CutUp(rid: nat, from: nat, offset: nat, buf: seq<byte>, size: nat, ghost cs: seq<Chunk>, ghost at: seq<nat>)
      returns (list: seq<Chunk>)
      requires Cut(size, rid, from, offset, buf, cs, at)
      ensures list == cs
    {
      var s: nat, off: nat, wb: nat := from, offset, 0;
      list := [];
      while wb < |buf|
        invariant |list| <= |cs| && list == cs[..|list|]
        invariant CutCursor(size, rid, from, offset, buf, cs, at, |list|, wb, s, off)
        decreases |buf| - wb
      {
        CutMoves(size, rid, from, offset, buf, cs, at, |list|, wb, s, off);
        var len := if size - off < |buf| - wb then size - off else |buf| - wb;
        list := list + [Chunk(rid, s, off, buf[wb..wb + len])];
        wb, s, off := wb + len, s + 1, 0;
      }
      CutEnds(size, rid, from, offset, buf, cs, at, |list|, s, off);
    }

    /** They are accepted one by one. */
    method AcceptChunks(list: seq<Chunk>, ghost end: State)
      requires Valid() && Remaining(l.shape, model, |coherency|, list, end)
      modifies this, locker
      ensures Valid() && model == end
    {
      var k := 0;
      assert list[0..] == list;
      while k < |list|
        invariant 0 <= k <= |list| && Valid() && Remaining(l.shape, model, |coherency|, list[k..], end)
      {
        AcceptNext(list[k], list[k..], end);
        assert list[k..][1..] == list[k + 1..];
        k := k + 1;
      }
    }

    /** `process` of a client write: one chunk per stripe. */
    method SubmitWrite(rid: nat, addr: nat, buf: seq<byte>) returns (res: int)
      requires Valid() && Ready(l.shape, model) && Enabled(l.shape, model, Event.SubmitWrite(rid, addr, buf))
      modifies this, locker, fsm
      ensures Valid() && model == Apply(l.shape, old(model), Event.SubmitWrite(rid, addr, buf))
      ensures old(AllInv(l.shape, model)) ==> AllInv(l.shape, model) && Ready(l.shape, model)
      ensures res == 0 <==> old(model).online
      ensures old(model).online <==> old(fsm.online)
      ensures res == if old(fsm.online) then 0 else Fsm.EIO
    {
      StepStaysReady(l.shape, model, Event.SubmitWrite(rid, addr, buf));
      if fsm.online {
        AcceptWrite(rid, addr, buf);
      }
      var answer := fsm.Process(Fsm.Request(0));
      res := answer.code;
    }

    /** `acceptor::process` of a write: one chunk per stripe. */
    method AcceptWrite(rid: nat, addr: nat, buf: seq<byte>)
      requires Valid() && Ready(l.shape, model) && Enabled(l.shape, model, Event.SubmitWrite(rid, addr, buf)) && fsm.online
      modifies this, locker
      ensures Valid() && model == Apply(l.shape, old(model), Event.SubmitWrite(rid, addr, buf))
    {
      var size := l.shape.DataSize();
      QuotIsDiv(addr, size);
      ghost var cs := Split(size, rid, addr, buf);
      ghost var at := SplitIsCut(size, rid, addr, addr / size, addr % size, buf);
      Open(rid, addr, buf);
      RoundedUp(l.shape, rid, addr, buf, stripes);
      RemainingStarts(l.shape, model, rid, addr, buf);
      Grow(DivRoundUp(addr + |buf|, size));
      var list := CutUp(rid, addr / size, addr % size, buf, size, cs, at);
      AcceptChunks(list, AcceptAll(l.shape, model, cs));
    }

    /** The request's own bookkeeping before its chunks are accepted. */
    method Open(rid: nat, addr: nat, buf: seq<byte>)
      requires Valid()
      modifies this`requests, this`model
      ensures Valid()
      ensures model == old(model).(requests :=
        old(model).requests[rid := Request(StripesOf(Split(l.shape.DataSize(), rid, addr, buf)), false)])
    {
      requests := requests[rid := Request(StripesOf(Split(l.shape.DataSize(), rid, addr, buf)), false)];
      model := model.(requests := requests);
    }

    // ---------- Client reads ----------

    /** The backend's requests for a client read, by stripe and strip. */
    method ReadPieces(addr: nat, len: nat) returns (ps: map<(nat, nat), Io>)
      requires l.Valid() && be.l == l && len > 0
      ensures ps.Keys == ReadParts(l.shape, addr, len)
      ensures forall part :: part in ps ==> IsReadPiece(l, addr, len, part, ps[part])
    {
      var size := l.shape.DataSize();
      QuotIsDiv(addr, size);
      var list := be.DataRead(addr, addr / size, addr % size, len);
      ps := map[];
      for m := 0 to |list|
        invariant PiecesUpTo(l, addr, len, list, m, ps)
      {
        PieceIsPart(l, addr, len, list, m);
        PieceAdded(l, addr, len, list, m, ps);
        ps := ps[PartAt(l, addr, list[m]) := list[m]];
      }
      AllPieces(l, addr, len, list, ps);
    }

    /** `process` of a client read. */
    method SubmitRead(rid: nat, addr: nat, len: nat) returns (res: int)
      requires Valid() && Ready(l.shape, model) && Enabled(l.shape, model, Event.SubmitRead(rid, addr, len))
      modifies this`reading, this`model, fsm
      ensures Valid() && model == Apply(l.shape, old(model), Event.SubmitRead(rid, addr, len))
      ensures old(AllInv(l.shape, model)) ==> AllInv(l.shape, model) && Ready(l.shape, model)
      ensures res == 0 <==> old(model).online
      ensures old(model).online <==> old(fsm.online)
      ensures res == if old(fsm.online) then 0 else Fsm.EIO
    {
      StepStaysReady(l.shape, model, Event.SubmitRead(rid, addr, len));
      if fsm.online {
        AcceptRead(rid, addr, len);
      }
      var answer := fsm.Process(Fsm.Request(0));
      res := answer.code;
    }

    /** `acceptor::process` of a read. */
    method AcceptRead(rid: nat, addr: nat, len: nat)
      requires Valid() && Ready(l.shape, model) && Enabled(l.shape, model, Event.SubmitRead(rid, addr, len)) && fsm.online
      modifies this`reading, this`model
      ensures Valid() && model == Apply(l.shape, old(model), Event.SubmitRead(rid, addr, len))
    {
      var ps := ReadPieces(addr, len);
      var r := Reading(addr, ps, false, Zeros(len));
      ghost var rd := Read(addr, ReadParts(l.shape, addr, len), false, Zeros(len), BusyIn(l.shape, model, addr, len), |model.accepted|);
      ReadAdded(l, reading, model.readers, rid, r, rd);
      reading := reading[rid := r];
      model := model.(readers := model.readers[rid := rd]);
    }

    /** A backend read of a client read completes.  When it is the last, the client hears
        whether the read failed, and has its buffer. */
    method CompleteReadIo(rid: nat, part: (nat, nat), ok: bool) returns (over: bool, failed: bool, buf: seq<byte>)
      requires Valid() && Ready(l.shape, model) && rid in model.readers && part in model.readers[rid].todo
      modifies this`reading, this`model, fsm
      ensures rid in old(model).readers && ReadShaped(l.shape, old(model), old(model).readers[rid])
      ensures Valid() && model == AfterReadIo(l.shape, old(model), rid, part, ok)
      ensures old(AllInv(l.shape, model)) ==> AllInv(l.shape, model) && Ready(l.shape, model)
      ensures over <==> rid !in model.readers
      ensures over ==> rid in model.closed && model.closed[rid] == failed
      ensures buf == if ok then Fill(l.shape, old(model), old(model).readers[rid], part) else old(model).readers[rid].buf
    {
      StepStaysReady(l.shape, model, ReadIo(rid, part.0, part.1, ok));
      buf := FilledBuffer(rid, part, ok);
      over, failed := NoteRead(rid, part, ok, buf);
    }

    /** The read has heard of one backend read more. */
    method NoteRead(rid: nat, part: (nat, nat), ok: bool, buf: seq<byte>) returns (over: bool, failed: bool)
      requires Valid() && rid in model.readers && part in model.readers[rid].todo && ReadShaped(l.shape, model, model.readers[rid])
      requires buf == if ok then Fill(l.shape, model, model.readers[rid], part) else model.readers[rid].buf
      modifies this`reading, this`model, fsm
      ensures rid in old(model).readers && ReadShaped(l.shape, old(model), old(model).readers[rid])
      ensures Valid() && model == AfterReadIo(l.shape, old(model), rid, part, ok)
      ensures over <==> rid !in model.readers
      ensures over ==> rid in model.closed && model.closed[rid] == failed
    {
      var r := reading[rid];
      ghost var rd := model.readers[rid];
      failed := r.err || !ok;
      var left := r.ios - {part};
      ReadIoIs(l.shape, model, rid, part, ok, buf);
      NoneLeft(left);
      over := left == map[];
      if over {
        EndRead(rid, ok, failed);
      } else {
        UpdateRead(rid, ok, Reading(r.addr, left, failed, buf), rd.(todo := rd.todo - {part}, err := failed, buf := buf));
      }
    }

    /** A client's buffer once a backend read arrived, or failed to. */
    method FilledBuffer(rid: nat, part: (nat, nat), ok: bool) returns (buf: seq<byte>)
      requires Valid() && Ready(l.shape, model) && rid in model.readers && part in model.readers[rid].todo
      ensures ReadShaped(l.shape, model, model.readers[rid])
      ensures buf == if ok then Fill(l.shape, model, model.readers[rid], part) else model.readers[rid].buf
    {
      var r := reading[rid];
      buf := r.buf;
      if ok {
        var io := r.ios[part];
        PieceFills(l, disks, coherency, model, model.readers[rid], part, io);
        buf := Overlay(buf, io.pos, disks[io.disk][io.off..io.off + io.len]);
      }
    }

    method EndRead(rid: nat, ok: bool, failed: bool)
      requires Valid()
      modifies this`reading, this`model, fsm
      ensures Valid() && model == Close(Fail(old(model), rid, ok).(readers := old(model).readers - {rid}), rid, failed)
    {
      ReadRemoved(l, reading, model.readers, rid);
      reading := reading - {rid};
      if failed {
        var answer := fsm.Process(Fsm.Failed);
      }
      model := Close(Fail(model, rid, ok).(readers := model.readers - {rid}), rid, failed);
    }

    method UpdateRead(rid: nat, ok: bool, r: Reading, ghost rd: Read)
      requires Valid() && ShowsRead(l, r, rd)
      modifies this`reading, this`model
      ensures Valid() && model == Fail(old(model), rid, ok).(readers := old(model).readers[rid := rd])
    {
      ReadAdded(l, reading, model.readers, rid, r, rd);
      reading := reading[rid := r];
      model := Fail(model, rid, ok).(readers := model.readers[rid := rd]);
    }

    // ---------- The rest ----------

    /** The coherency query: an offline target answers no. */
    method IsStripeParityCoherent(s: nat) returns (coherent: bool)
      requires Valid()
      ensures coherent <==> fsm.online && s < stripes && model.stripes[s].coherent
      ensures coherent && AllInv(l.shape, model) && !Held(locker.bits, s) ==>
        Fit(l, disks, stripes) && ParityOf(l, disks, stripes, s) == Parity.Of(DataOf(l, disks, stripes, s), l.shape.strip)
    {
      coherent := Fsm.AnswerTo(fsm.online, Fsm.Check(s < |coherency| && coherency[s])).coherent;
      if s < stripes {
        LockAt(active, locker.bits, model.stripes, -1, s);
        StripAtDisk(l, disks, coherency, model.stripes, s);
        if AllInv(l.shape, model) && coherent && !Held(locker.bits, s) {
          assert Inv(l.shape, model.stripes[s]);
        }
      }
    }

    /** What a disk may do with a write that is under way. */
    method Tear(s: nat, part: Part, junk: seq<byte>)
      requires Valid() && Ready(l.shape, model) && Enabled(l.shape, model, Event.Tear(s, part, junk))
      modifies this`disks, this`model
      ensures Valid() && model == Apply(l.shape, old(model), Event.Tear(s, part, junk))
      ensures old(AllInv(l.shape, model)) ==> AllInv(l.shape, model) && Ready(l.shape, model)
    {
      StepStaysReady(l.shape, model, Event.Tear(s, part, junk));
      LockAt(active, locker.bits, model.stripes, -1, s);
      StripAtDisk(l, disks, coherency, model.stripes, s);
      if part.ParityStrip? {
        StoreParity(s, junk);
      } else {
        StoreStrip(s, part.k, active[s].chunk.off, junk, ios[s][part.k]);
      }
    }
  }

  /** A RAID4 target: `shape.strips` data disks and one for the parity, each of `stripes` strips. */
  method NewRaid4(shape: Shape, disks: seq<seq<byte>>, stripes: nat) returns (t: Target)
    requires shape.Valid() && |disks| == shape.strips + 1 && forall d :: 0 <= d < |disks| ==> |disks[d]| == stripes * shape.strip
    ensures fresh(t) && t.Valid() && t.l == Raid4(shape) && t.disks == disks && AllInv(shape, t.model) && EngineTheorems.Initial(shape, t.model)
  {
    RaidLayoutsAreValid(shape);
    t := new Target(Raid4(shape), disks, stripes);
  }

  /** A RAID5 target. */
  method NewRaid5(shape: Shape, disks: seq<seq<byte>>, stripes: nat) returns (t: Target)
    requires shape.Valid() && |disks| == shape.strips + 1 && forall d :: 0 <= d < |disks| ==> |disks[d]| == stripes * shape.strip
    ensures fresh(t) && t.Valid() && t.l == Raid5(shape) && t.disks == disks && AllInv(shape, t.model) && EngineTheorems.Initial(shape, t.model)
  {
    RaidLayoutsAreValid(shape);
    t := new Target(Raid5(shape), disks, stripes);
  }
}
