/** RAID50: striping over RAID5 targets is a flat byte array again (ublk/master.cpp), under any
    number of client writes and reads at a time. */
module Raid50 {
  import opened Arithmetic
  import opened Bytes
  import opened StripeWriter
  import opened Engine
  import opened EngineInvariant
  import opened EngineTheorems
  import opened FlatArray
  import opened FlatReads
  import opened Interleaving
  import Raid0

  // ---------- Requests of the striped array ----------

  /** The members, their strips, and how many bytes each has. */
  datatype Array = Array(strip: nat, gs: seq<Shape>, size: nat) {
    ghost predicate Valid() {
      strip > 0 && |gs| > 0 && Wrap(size, strip) == 0
    }
    function Pieces(addr: nat, len: nat): seq<Raid0.Piece>
      requires strip > 0 && |gs| > 0
    {
      Raid0.Pieces(strip, |gs|, addr, len, 0)
    }
    function Place(x: nat): (nat, nat)
      requires strip > 0 && |gs| > 0
    {
      Raid0.Place(strip, |gs|, x)
    }
  }

  /** All members start as fresh targets and go through the events `evs`. */
  ghost predicate FreshRun(ar: Array, rows: seq<seq<State>>, evs: seq<ArrayEvent>) {
    && ar.Valid() && ArrayRun(ar.gs, rows, evs)
    && forall m :: 0 <= m < |ar.gs| ==> Initial(ar.gs[m], rows[0][m]) && |rows[0][m].stripes| * ar.gs[m].DataSize() == ar.size
  }

  /** A client write; its pieces are submitted by the events from `at` on, and the first `taken`
      of them accepted.  That is all of them, unless a member is offline and refuses its piece:
      then the write fails there and sends no more. */
  datatype ClientWrite = ClientWrite(addr: nat, buf: seq<byte>, at: nat, taken: nat)

  predicate Holds(w: ClientWrite, x: nat) { w.addr <= x < w.addr + |w.buf| }

  predicate Has(p: Raid0.Piece, m: nat, o: nat) { p.hid == m && p.off <= o < p.off + p.len }

  /** Piece `i` was taken and has the write's byte of address `x`. */
  predicate SendsWith(ar: Array, w: ClientWrite, x: nat, i: nat)
    requires ar.strip > 0 && |ar.gs| > 0
  {
    i < w.taken && i < |ar.Pieces(w.addr, |w.buf|)| && Has(ar.Pieces(w.addr, |w.buf|)[i], ar.Place(x).0, ar.Place(x).1)
  }

  /** A piece with the write's byte of address `x` was taken. */
  ghost predicate Sends(ar: Array, w: ClientWrite, x: nat)
    requires ar.strip > 0 && |ar.gs| > 0
  {
    Holds(w, x) && exists i :: SendsWith(ar, w, x, i)
  }

  /** If all pieces were taken so were all bytes. */
  lemma AllSent(ar: Array, w: ClientWrite, x: nat)
    requires ar.strip > 0 && |ar.gs| > 0 && Holds(w, x) && w.taken == |ar.Pieces(w.addr, |w.buf|)|
    ensures Sends(ar, w, x)
  {
    var p := Raid0.PieceFor(ar.strip, |ar.gs|, w.addr, |w.buf|, 0, x);
    var i :| 0 <= i < |ar.Pieces(w.addr, |w.buf|)| && ar.Pieces(w.addr, |w.buf|)[i] == p;
    Raid0.PieceIsInside(ar.strip, |ar.gs|, w.addr, |w.buf|, 0, p, x);
    assert SendsWith(ar, w, x, i);
  }

  ghost predicate IsWritePiece(ev: ArrayEvent, p: Raid0.Piece, buf: seq<byte>) {
    && ev.member == p.hid && ev.ev.SubmitWrite? && ev.ev.addr == p.off
    && p.pos + p.len <= |buf| && ev.ev.buf == buf[p.pos..p.pos + p.len]
  }

  ghost predicate IsReadPiece(ev: ArrayEvent, p: Raid0.Piece) {
    ev.member == p.hid && ev.ev.SubmitRead? && ev.ev.addr == p.off && ev.ev.len == p.len
  }

  /** The pieces of a client write are submitted one after the other, and accepted, however many
      there are before one is refused. */
  ghost predicate Issued(ar: Array, rows: seq<seq<State>>, evs: seq<ArrayEvent>, w: ClientWrite)
    requires FreshRun(ar, rows, evs)
  {
    var ps := ar.Pieces(w.addr, |w.buf|);
    && w.taken <= |ps| && w.at + w.taken <= |evs|
    && forall i :: 0 <= i < w.taken ==>
         IsWritePiece(evs[w.at + i], ps[i], w.buf) && evs[w.at + i].member < |ar.gs| && rows[w.at + i][ps[i].hid].online
  }

  /** The members accept no writes but pieces of the client writes `ws`. */
  ghost predicate OnlyPieces(ar: Array, rows: seq<seq<State>>, evs: seq<ArrayEvent>, ws: seq<ClientWrite>)
    requires FreshRun(ar, rows, evs)
  {
    forall t :: 0 <= t < |evs| && evs[t].member < |ar.gs| && evs[t].ev.SubmitWrite? && rows[t][evs[t].member].online ==>
      exists c, i :: IsPieceOf(ar, ws, t, c, i)
  }

  ghost predicate IsPieceOf(ar: Array, ws: seq<ClientWrite>, t: nat, c: nat, i: nat)
    requires ar.strip > 0 && |ar.gs| > 0
  {
    c < |ws| && i < ws[c].taken && i < |ar.Pieces(ws[c].addr, |ws[c].buf|)| && t == ws[c].at + i
  }

  ghost predicate ClientRun(ar: Array, rows: seq<seq<State>>, evs: seq<ArrayEvent>, ws: seq<ClientWrite>) {
    && FreshRun(ar, rows, evs) && (forall c :: 0 <= c < |ws| ==> Issued(ar, rows, evs, ws[c]))
    && OnlyPieces(ar, rows, evs, ws)
  }

  /** The member write of event `u` is over at time `t`. */
  ghost predicate PieceOver(rows: seq<seq<State>>, evs: seq<ArrayEvent>, u: nat, t: nat)
    requires u < |evs| && t < |rows|
  {
    evs[u].ev.SubmitWrite? && evs[u].member < |rows[t]| && evs[u].ev.rid in rows[t][evs[u].member].closed
  }

  /** A client write is over at time `t`: all its pieces that were taken are. */
  ghost predicate Over(ar: Array, rows: seq<seq<State>>, evs: seq<ArrayEvent>, w: ClientWrite, t: nat)
    requires FreshRun(ar, rows, evs) && Issued(ar, rows, evs, w) && t < |rows|
  {
    && w.at + w.taken <= t
    && forall u :: w.at <= u < w.at + w.taken ==> PieceOver(rows, evs, u, t)
  }

  // ---------- From the members' runs to the array ----------

  /** A member write that covers address `o`, found at `x` of the array, is a piece of a client
      write that holds `x`, and says what that says. */
  lemma PieceSays(ar: Array, rows: seq<seq<State>>, evs: seq<ArrayEvent>, ws: seq<ClientWrite>, t: nat, m: nat, x: nat, o: nat)
    returns (c: nat, i: nat)
    requires ClientRun(ar, rows, evs, ws) && t < |evs| && m < |ar.gs| && evs[t].member == m && ar.Place(x) == (m, o)
    requires evs[t].ev.SubmitWrite? && rows[t][m].online && evs[t].ev.addr <= o < evs[t].ev.addr + |evs[t].ev.buf|
    ensures IsPieceOf(ar, ws, t, c, i) && Sends(ar, ws[c], x)
    ensures evs[t].ev.buf[o - evs[t].ev.addr] == ws[c].buf[x - ws[c].addr]
  {
    c, i :| IsPieceOf(ar, ws, t, c, i);
    IssuedPieceSays(ar, rows, evs, ws[c], i, m, x, o);
  }

  lemma IssuedPieceSays(ar: Array, rows: seq<seq<State>>, evs: seq<ArrayEvent>, w: ClientWrite, i: nat, m: nat, x: nat, o: nat)
    requires FreshRun(ar, rows, evs) && Issued(ar, rows, evs, w) && i < w.taken && ar.Place(x) == (m, o)
    requires evs[w.at + i].member == m && evs[w.at + i].ev.SubmitWrite?
    requires evs[w.at + i].ev.addr <= o < evs[w.at + i].ev.addr + |evs[w.at + i].ev.buf|
    ensures Sends(ar, w, x) && evs[w.at + i].ev.buf[o - evs[w.at + i].ev.addr] == w.buf[x - w.addr]
  {
    PieceByteIs(ar, w, ar.Pieces(w.addr, |w.buf|)[i], evs[w.at + i], m, x, o);
    assert SendsWith(ar, w, x, i);
  }

  lemma PieceByteIs(ar: Array, w: ClientWrite, p: Raid0.Piece, ev: ArrayEvent, m: nat, x: nat, o: nat)
    requires ar.strip > 0 && |ar.gs| > 0 && p in ar.Pieces(w.addr, |w.buf|) && IsWritePiece(ev, p, w.buf) && ar.Place(x) == (m, o)
    requires ev.member == m && ev.ev.addr <= o < ev.ev.addr + |ev.ev.buf|
    ensures Holds(w, x) && Has(p, m, o) && ev.ev.buf[o - ev.ev.addr] == w.buf[x - w.addr]
  {
    Raid0.PieceIsInside(ar.strip, |ar.gs|, w.addr, |w.buf|, 0, p, x);
  }

  /** The piece a byte was sent with. */
  lemma PieceWith(ar: Array, rows: seq<seq<State>>, evs: seq<ArrayEvent>, w: ClientWrite, x: nat) returns (i: nat)
    requires FreshRun(ar, rows, evs) && Issued(ar, rows, evs, w) && Sends(ar, w, x)
    ensures i < w.taken && w.at + i < |evs|
    ensures var (m, o) := ar.Place(x); var ev := evs[w.at + i];
      ev.member == m < |ar.gs|
      && ev.ev.SubmitWrite? && rows[w.at + i][m].online && ev.ev.addr <= o < ev.ev.addr + |ev.ev.buf|
  {
    i :| SendsWith(ar, w, x, i);
    assert IsWritePiece(evs[w.at + i], ar.Pieces(w.addr, |w.buf|)[i], w.buf);
  }

  /** The run of member `m` up to time `t`. */
  lemma RunOf(ar: Array, rows: seq<seq<State>>, evs: seq<ArrayEvent>, m: nat, t: nat)
    requires FreshRun(ar, rows, evs) && m < |ar.gs| && t <= |evs|
    ensures var states, es := StatesOf(rows, evs, m, t), EvsOf(evs, m, t);
      Run(ar.gs[m], states, es) && Initial(ar.gs[m], states[0]) && states[0] == rows[0][m] && states[|es|] == rows[t][m]
  {
    MemberRun(ar.gs, rows, evs, m, t);
    LastState(ar.gs, rows, evs, m, t);
  }

  /** What is over stays over. */
  lemma StillOver(ar: Array, rows: seq<seq<State>>, evs: seq<ArrayEvent>, m: nat, t: nat, t': nat)
    requires FreshRun(ar, rows, evs) && m < |ar.gs| && t <= t' <= |evs|
    ensures rows[t][m].closed.Keys <= rows[t'][m].closed.Keys
  {
    RunOf(ar, rows, evs, m, t');
    StateOf(ar.gs, rows, evs, m, t, t');
    RunIsLater(ar.gs[m], StatesOf(rows, evs, m, t'), EvsOf(evs, m, t'), |EvsOf(evs, m, t)|, |EvsOf(evs, m, t')|);
  }

  /** Event `u` is a write of member `m` that covers its address `o`. */
  ghost predicate WritesAt(rows: seq<seq<State>>, evs: seq<ArrayEvent>, u: nat, m: nat, o: nat) {
    && u < |evs| < |rows| && evs[u].member == m < |rows[u]| && evs[u].ev.SubmitWrite? && rows[u][m].online
    && evs[u].ev.addr <= o < evs[u].ev.addr + |evs[u].ev.buf|
  }

  /** It is one in the member's own run, too. */
  lemma ToMember(ar: Array, rows: seq<seq<State>>, evs: seq<ArrayEvent>, u: nat, t: nat, m: nat, o: nat)
    requires FreshRun(ar, rows, evs) && m < |ar.gs| && u < t <= |evs| && WritesAt(rows, evs, u, m, o)
    ensures var k := |EvsOf(evs, m, u)|;
      Writes(StatesOf(rows, evs, m, t), EvsOf(evs, m, t), k, o) && EvsOf(evs, m, t)[k] == evs[u].ev
  {
    StateOf(ar.gs, rows, evs, m, u, t);
    EventOf(evs, u, t);
  }

  lemma FromMember(ar: Array, rows: seq<seq<State>>, evs: seq<ArrayEvent>, t: nat, m: nat, o: nat, k: nat) returns (u: nat)
    requires FreshRun(ar, rows, evs) && m < |ar.gs| && t <= |evs|
    requires Writes(StatesOf(rows, evs, m, t), EvsOf(evs, m, t), k, o)
    ensures u < t && WritesAt(rows, evs, u, m, o) && EvsOf(evs, m, t)[k] == evs[u].ev && k == |EvsOf(evs, m, u)|
  {
    u := TimeOf(evs, m, t, k);
    StateOf(ar.gs, rows, evs, m, u, t);
    EventOf(evs, u, t);
  }

  /** Of the writes of a member's byte that are over at time `t`, none was submitted when write
      `u` was over already; there is none at all if there is no `u`. */
  ghost predicate Newest(rows: seq<seq<State>>, evs: seq<ArrayEvent>, t: nat, m: nat, o: nat, written: bool, u: nat)
    requires t <= |evs| < |rows|
  {
    && (written ==> u < t && WritesAt(rows, evs, u, m, o))
    && forall v: nat :: v < t && WritesAt(rows, evs, v, m, o) && PieceOver(rows, evs, v, t) ==> written && !PieceOver(rows, evs, u, v)
  }

  /** The same in the member's own run. */
  ghost predicate NewestInMember(states: seq<State>, es: seq<Event>, o: nat, written: bool, k: nat) {
    && |es| < |states| && (written ==> Writes(states, es, k, o))
    && forall j: nat :: Writes(states, es, j, o) && es[j].rid in states[|es|].closed ==> written && !Precedes(states, es, k, j)
  }

  lemma NewestCarries(ar: Array, rows: seq<seq<State>>, evs: seq<ArrayEvent>, t: nat, m: nat, o: nat, written: bool, k: nat, u: nat)
    requires FreshRun(ar, rows, evs) && m < |ar.gs| && t <= |evs|
    requires NewestInMember(StatesOf(rows, evs, m, t), EvsOf(evs, m, t), o, written, k)
    requires written ==> u < t && WritesAt(rows, evs, u, m, o) && k == |EvsOf(evs, m, u)|
    ensures Newest(rows, evs, t, m, o, written, u)
  {
    forall v: nat | v < t && WritesAt(rows, evs, v, m, o) && PieceOver(rows, evs, v, t)
      ensures written && !PieceOver(rows, evs, u, v)
    {
      OverInMember(ar, rows, evs, t, m, o, v);
      if written {
        SameOrder(ar, rows, evs, t, m, u, v);
      }
    }
  }

  lemma NewestOfRun(g: Shape, states: seq<State>, es: seq<Event>, o: nat) returns (written: bool, k: nat, ev: Event)
    requires Run(g, states, es) && Initial(g, states[0]) && StripeOf(g, o) < |states[0].stripes|
    ensures NewestInMember(states, es, o, written, k) && (written ==> k < |es| && ev == es[k])
    ensures Sound(g, states[|es|]) && |states[|es|].stripes| == |states[0].stripes|
    ensures SaidBy(FlatByte(g, states[|es|], o), written, ev, o, FirstByte(g, states[0], o))
  {
    written, k := LastWrite(g, states, es, |es|, o);
    ev := if written then es[k] else SubmitRead(0, 0, 0);
  }

  /** The last write of a member's byte. */
  lemma LastMemberWrite(ar: Array, rows: seq<seq<State>>, evs: seq<ArrayEvent>, t: nat, m: nat, o: nat)
    returns (written: bool, u: nat, ev: Event)
    requires FreshRun(ar, rows, evs) && m < |ar.gs| && t <= |evs| && o < ar.size
    ensures StripeOf(ar.gs[m], o) < |rows[0][m].stripes| == |rows[t][m].stripes|
    ensures Sound(ar.gs[m], rows[t][m])
    ensures Newest(rows, evs, t, m, o, written, u) && (written ==> ev == evs[u].ev)
    ensures SaidBy(FlatByte(ar.gs[m], rows[t][m], o), written, ev, o, FirstByte(ar.gs[m], rows[0][m], o))
  {
    var states, es := StatesOf(rows, evs, m, t), EvsOf(evs, m, t);
    RunOf(ar, rows, evs, m, t);
    QuotInRange(o, ar.gs[m].DataSize(), |rows[0][m].stripes|);
    var k;
    written, k, ev := NewestOfRun(ar.gs[m], states, es, o);
    u := NewestEvent(ar, rows, evs, t, m, o, written, k);
  }

  lemma OverInMember(ar: Array, rows: seq<seq<State>>, evs: seq<ArrayEvent>, t: nat, m: nat, o: nat, v: nat)
    requires FreshRun(ar, rows, evs) && m < |ar.gs| && t <= |evs|
    requires v < t && WritesAt(rows, evs, v, m, o) && PieceOver(rows, evs, v, t)
    ensures var states, es, j := StatesOf(rows, evs, m, t), EvsOf(evs, m, t), |EvsOf(evs, m, v)|;
      j < |es| && Writes(states, es, j, o) && es[j].rid in states[|es|].closed
  {
    ToMember(ar, rows, evs, v, t, m, o);
    LastState(ar.gs, rows, evs, m, t);
  }

  lemma SameOrder(ar: Array, rows: seq<seq<State>>, evs: seq<ArrayEvent>, t: nat, m: nat, u: nat, v: nat)
    requires FreshRun(ar, rows, evs) && m < |ar.gs| && u < t <= |evs| && v < t
    requires evs[u].member == m && evs[u].ev.SubmitWrite? && evs[v].member == m
    ensures |EvsOf(evs, m, u)| < |EvsOf(evs, m, t)| && |EvsOf(evs, m, v)| < |EvsOf(evs, m, t)|
    ensures EvsOf(evs, m, t)[|EvsOf(evs, m, u)|] == evs[u].ev
    ensures Precedes(StatesOf(rows, evs, m, t), EvsOf(evs, m, t), |EvsOf(evs, m, u)|, |EvsOf(evs, m, v)|) <==> PieceOver(rows, evs, u, v)
  {
    StateOf(ar.gs, rows, evs, m, v, t);
    EventOf(evs, u, t);
    EventOf(evs, v, t);
  }

  // ---------- Writes ----------

  /** If a client write is over, so is its piece with a byte of it. */
  lemma PieceOverAt(ar: Array, rows: seq<seq<State>>, evs: seq<ArrayEvent>, w: ClientWrite, t: nat, x: nat) returns (v: nat)
    requires FreshRun(ar, rows, evs) && Issued(ar, rows, evs, w) && t <= |evs| && Sends(ar, w, x) && Over(ar, rows, evs, w, t)
    ensures w.at <= v < t && PieceOver(rows, evs, v, t)
    ensures WritesAt(rows, evs, v, ar.Place(x).0, ar.Place(x).1)
  {
    var i := PieceWith(ar, rows, evs, w, x);
    v := w.at + i;
  }

  /** No client write that is over now was submitted when this one was over already. */
  lemma NotOverBefore(ar: Array, rows: seq<seq<State>>, evs: seq<ArrayEvent>, ws: seq<ClientWrite>, t: nat, x: nat,
                      m: nat, o: nat, u: nat, c: nat, i: nat, d: nat)
    requires ClientRun(ar, rows, evs, ws) && t <= |evs| && u < t && IsPieceOf(ar, ws, u, c, i) && d < |ws|
    requires Sends(ar, ws[d], x) && Over(ar, rows, evs, ws[d], t)
    requires ar.Place(x) == (m, o) && Newest(rows, evs, t, m, o, true, u)
    ensures !Over(ar, rows, evs, ws[c], ws[d].at)
  {
    var v := PieceOverAt(ar, rows, evs, ws[d], t, x);
    StillOver(ar, rows, evs, m, ws[d].at, v);
    assert Over(ar, rows, evs, ws[c], ws[d].at) ==> PieceOver(rows, evs, u, ws[d].at);
  }

  lemma NewestForClients(ar: Array, rows: seq<seq<State>>, evs: seq<ArrayEvent>, ws: seq<ClientWrite>, t: nat, x: nat,
                         written: bool, u: nat, c: nat, d: nat)
    requires ClientRun(ar, rows, evs, ws) && t <= |evs| && Newest(rows, evs, t, ar.Place(x).0, ar.Place(x).1, written, u)
    requires written ==> exists i :: IsPieceOf(ar, ws, u, c, i)
    requires d < |ws| && Sends(ar, ws[d], x) && Over(ar, rows, evs, ws[d], t)
    ensures written && c < |ws| && !Over(ar, rows, evs, ws[c], ws[d].at)
  {
    var v := PieceOverAt(ar, rows, evs, ws[d], t, x);
    assert written;
    var i :| IsPieceOf(ar, ws, u, c, i);
    NotOverBefore(ar, rows, evs, ws, t, x, ar.Place(x).0, ar.Place(x).1, u, c, i, d);
  }

  /** What the newest write of a member's address says; its first byte if there is none. */
  ghost predicate SaidBy(b: byte, written: bool, ev: Event, o: nat, first: byte)
  {
    if written then ev.SubmitWrite? && ev.addr <= o < ev.addr + |ev.buf| && b == ev.buf[o - ev.addr] else b == first
  }

  /** Byte `b` of address `x` is what client write `c` says, one that was not over yet when any
      other write of the byte that is over at time `t` was submitted; or, if no write of it is
      over, `first`. */
  ghost predicate LastSaid(ar: Array, rows: seq<seq<State>>, evs: seq<ArrayEvent>, ws: seq<ClientWrite>, t: nat, x: nat,
                           b: byte, first: byte, written: bool, c: nat)
    requires ClientRun(ar, rows, evs, ws) && t < |rows|
  {
    && (if written then c < |ws| && Sends(ar, ws[c], x) && b == ws[c].buf[x - ws[c].addr] else b == first)
    && forall d :: 0 <= d < |ws| && Sends(ar, ws[d], x) && Over(ar, rows, evs, ws[d], t) ==>
         written && !Over(ar, rows, evs, ws[c], ws[d].at)
  }

  /** From the newest member write of a byte to the client write it is a piece of. */
  lemma SaidByClient(ar: Array, rows: seq<seq<State>>, evs: seq<ArrayEvent>, ws: seq<ClientWrite>, t0: nat, t: nat, x: nat,
                     m: nat, o: nat, b: byte, first: byte, written: bool, u: nat, ev: Event)
    returns (c: nat)
    requires ClientRun(ar, rows, evs, ws) && t0 <= t <= |evs| && ar.Place(x) == (m, o) && m < |ar.gs|
    requires Newest(rows, evs, t, m, o, written, u) && (written ==> ev == evs[u].ev) && SaidBy(b, written, ev, o, first)
    ensures LastSaid(ar, rows, evs, ws, t0, x, b, first, written, c)
  {
    c := 0;
    if written {
      var i;
      c, i := PieceSays(ar, rows, evs, ws, u, m, x, o);
    }
    forall d | 0 <= d < |ws| && Sends(ar, ws[d], x) && Over(ar, rows, evs, ws[d], t0)
      ensures written && !Over(ar, rows, evs, ws[c], ws[d].at)
    {
      StaysOver(ar, rows, evs, ws[d], t0, t);
      NewestForClients(ar, rows, evs, ws, t, x, written, u, c, d);
    }
  }

  /** The striped array is one flat byte array under any number of client writes, overlapping
      or not, their pieces carried out by the members in whatever order: a byte is what one of
      the client writes says, one that was not over yet when any other write of the byte that
      is over by now was submitted; or it is as it was, and no write of it is over. */
  lemma StripedLastWrite(ar: Array, rows: seq<seq<State>>, evs: seq<ArrayEvent>, ws: seq<ClientWrite>, t: nat, x: nat)
    returns (written: bool, c: nat)
    requires ClientRun(ar, rows, evs, ws) && t <= |evs| && x < |ar.gs| * ar.size
    ensures var (m, o) := ar.Place(x);
      && m < |ar.gs| && StripeOf(ar.gs[m], o) < |rows[0][m].stripes| == |rows[t][m].stripes|
      && Sound(ar.gs[m], rows[t][m])
      && LastSaid(ar, rows, evs, ws, t, x, FlatByte(ar.gs[m], rows[t][m], o), FirstByte(ar.gs[m], rows[0][m], o), written, c)
  {
    var (m, o) := ar.Place(x);
    Raid0.PlaceInMember(ar.strip, |ar.gs|, ar.size, x);
    var u, ev;
    written, u, ev := LastMemberWrite(ar, rows, evs, t, m, o);
    c := SaidByClient(ar, rows, evs, ws, t, t, x, m, o, FlatByte(ar.gs[m], rows[t][m], o), FirstByte(ar.gs[m], rows[0][m], o),
      written, u, ev);
  }

  // ---------- Reads ----------

  /** A client read; its pieces are submitted by the events from `at` on, and the last backend
      read of piece `i` completes with event `ends[i]`. */
  datatype ClientRead = ClientRead(addr: nat, len: nat, at: nat, ends: seq<nat>)

  /** The member read `p`, submitted by event `u`, is under way until its last backend read
      completes with event `e`, and none of its backend reads failed. */
  ghost predicate PieceFetched(ar: Array, rows: seq<seq<State>>, evs: seq<ArrayEvent>, p: Raid0.Piece, u: nat, e: nat)
    requires FreshRun(ar, rows, evs)
  {
    && u < e < |evs| && p.hid < |ar.gs| && evs[e].member == p.hid
    && IsReadPiece(evs[u], p) && rows[u][p.hid].online
    && evs[e].ev.ReadIo? && evs[e].ev.rid == evs[u].ev.rid && evs[e].ev.ok
    && (forall q :: u < q <= e ==> evs[u].ev.rid in rows[q][p.hid].readers)
    && var rd := rows[e][p.hid].readers[evs[u].ev.rid]; rd.todo == {(evs[e].ev.stripe, evs[e].ev.strip)} && !rd.err
  }

  ghost predicate Fetched(ar: Array, rows: seq<seq<State>>, evs: seq<ArrayEvent>, r: ClientRead)
    requires FreshRun(ar, rows, evs)
  {
    var ps := ar.Pieces(r.addr, r.len);
    && |r.ends| == |ps| && r.at + |ps| <= |evs|
    && forall i :: 0 <= i < |ps| ==> PieceFetched(ar, rows, evs, ps[i], r.at + i, r.ends[i])
  }

  lemma PieceIsShaped(ar: Array, rows: seq<seq<State>>, evs: seq<ArrayEvent>, p: Raid0.Piece, u: nat, e: nat)
    requires FreshRun(ar, rows, evs) && PieceFetched(ar, rows, evs, p, u, e)
    ensures ReadShaped(ar.gs[p.hid], rows[e][p.hid], rows[e][p.hid].readers[evs[u].ev.rid])
  {
    RunOf(ar, rows, evs, p.hid, e);
    var states, es := StatesOf(rows, evs, p.hid, e), EvsOf(evs, p.hid, e);
    RunHistory(ar.gs[p.hid], states, es, |es|);
    InvariantShapes(ar.gs[p.hid], rows[e][p.hid]);
  }

  /** What a piece of a read gets from its member. */
  ghost function PieceBytes(ar: Array, rows: seq<seq<State>>, evs: seq<ArrayEvent>, p: Raid0.Piece, u: nat, e: nat): seq<byte>
    requires FreshRun(ar, rows, evs) && PieceFetched(ar, rows, evs, p, u, e)
  {
    PieceIsShaped(ar, rows, evs, p, u, e);
    Fill(ar.gs[p.hid], rows[e][p.hid], rows[e][p.hid].readers[evs[u].ev.rid], (evs[e].ev.stripe, evs[e].ev.strip))
  }

  ghost predicate Gets(ar: Array, rows: seq<seq<State>>, evs: seq<ArrayEvent>, p: Raid0.Piece, u: nat, e: nat, bytes: seq<byte>)
    requires FreshRun(ar, rows, evs) && PieceFetched(ar, rows, evs, p, u, e)
  {
    bytes == PieceBytes(ar, rows, evs, p, u, e)
  }

  /** The client's buffer: each piece gets its own part of it. */
  ghost predicate Assembled(ar: Array, rows: seq<seq<State>>, evs: seq<ArrayEvent>, r: ClientRead, buf: seq<byte>)
    requires FreshRun(ar, rows, evs) && Fetched(ar, rows, evs, r)
  {
    var ps := ar.Pieces(r.addr, r.len);
    |buf| == r.len && forall i :: 0 <= i < |ps| && ps[i].pos + ps[i].len <= |buf| ==>
      Gets(ar, rows, evs, ps[i], r.at + i, r.ends[i], buf[ps[i].pos..ps[i].pos + ps[i].len])
  }

  predicate Reads(r: ClientRead, x: nat) { r.addr <= x < r.addr + r.len }

  /** No client write of byte `x` is under way together with the read. */
  ghost predicate Alone(ar: Array, rows: seq<seq<State>>, evs: seq<ArrayEvent>, ws: seq<ClientWrite>, r: ClientRead, x: nat)
    requires ClientRun(ar, rows, evs, ws) && r.at < |rows|
  {
    forall c :: 0 <= c < |ws| && Sends(ar, ws[c], x) ==>
      Over(ar, rows, evs, ws[c], r.at) || forall i :: 0 <= i < |r.ends| ==> r.ends[i] <= ws[c].at
  }

  /** Up to time `t` no backend I/O failed for a member write of address `o`. */
  ghost predicate NoneFailed(rows: seq<seq<State>>, evs: seq<ArrayEvent>, t: nat, m: nat, o: nat)
    requires t <= |evs| < |rows| && m < |rows[t]|
  {
    forall v: nat :: v < t && WritesAt(rows, evs, v, m, o) ==> evs[v].ev.rid !in rows[t][m].failures
  }

  /** A member write of the byte is over before the read is submitted. */
  lemma OverInTime(ar: Array, rows: seq<seq<State>>, evs: seq<ArrayEvent>, ws: seq<ClientWrite>, r: ClientRead, i: nat, v: nat,
                   x: nat, m: nat, o: nat)
    requires ClientRun(ar, rows, evs, ws) && r.at + i <= |evs| < |rows| && Alone(ar, rows, evs, ws, r, x) && i < |r.ends|
    requires m < |ar.gs| && ar.Place(x) == (m, o) && v < r.ends[i] && WritesAt(rows, evs, v, m, o)
    ensures v < r.at && PieceOver(rows, evs, v, r.at + i)
  {
    var c, j := PieceSays(ar, rows, evs, ws, v, m, x, o);
    assert Over(ar, rows, evs, ws[c], r.at);
    assert PieceOver(rows, evs, v, r.at);
    StillOver(ar, rows, evs, m, r.at, r.at + i);
  }

  /** So the member's read is undisturbed there. */
  lemma PieceIsUndisturbed(ar: Array, rows: seq<seq<State>>, evs: seq<ArrayEvent>, ws: seq<ClientWrite>, r: ClientRead, i: nat, x: nat,
                           m: nat, o: nat)
    requires ClientRun(ar, rows, evs, ws) && Fetched(ar, rows, evs, r) && Alone(ar, rows, evs, ws, r, x)
    requires i < |ar.Pieces(r.addr, r.len)| && ar.Pieces(r.addr, r.len)[i].hid == m && ar.Place(x) == (m, o)
    ensures var e, u := r.ends[i], r.at + i;
      && m < |ar.gs| && u < e <= |evs| && |EvsOf(evs, m, u)| < |EvsOf(evs, m, e)|
      && EvsOf(evs, m, e)[|EvsOf(evs, m, u)|] == evs[u].ev && evs[u].ev.SubmitRead?
      && Undisturbed(StatesOf(rows, evs, m, e), EvsOf(evs, m, e), |EvsOf(evs, m, u)|, |EvsOf(evs, m, e)|, o)
  {
    var p, e, u := ar.Pieces(r.addr, r.len)[i], r.ends[i], r.at + i;
    assert PieceFetched(ar, rows, evs, p, u, e);
    var states, es, k := StatesOf(rows, evs, m, e), EvsOf(evs, m, e), |EvsOf(evs, m, u)|;
    StateOf(ar.gs, rows, evs, m, u, e);
    EventOf(evs, u, e);
    forall j: nat | j < |es| && Writes(states, es, j, o) ensures j < k && es[j].rid in states[k].closed {
      var v := FromMember(ar, rows, evs, e, m, o, j);
      OverInTime(ar, rows, evs, ws, r, i, v, x, m, o);
      EventOf(evs, v, u);
    }
  }

  /** And under way all the time. */
  lemma PieceIsUnderWay(ar: Array, rows: seq<seq<State>>, evs: seq<ArrayEvent>, p: Raid0.Piece, u: nat, e: nat)
    requires FreshRun(ar, rows, evs) && PieceFetched(ar, rows, evs, p, u, e)
    ensures UnderWay(StatesOf(rows, evs, p.hid, e), EvsOf(evs, p.hid, e), |EvsOf(evs, p.hid, u)|, |EvsOf(evs, p.hid, e)|, evs[u].ev.rid)
  {
    var m := p.hid;
    var states, es, k := StatesOf(rows, evs, m, e), EvsOf(evs, m, e), |EvsOf(evs, m, u)|;
    StateOf(ar.gs, rows, evs, m, u, e);
    EventOf(evs, u, e);
    forall j | k < j <= |es| ensures evs[u].ev.rid in states[j].readers {
      if j == |es| {
        LastState(ar.gs, rows, evs, m, e);
      } else {
        var q := TimeOf(evs, m, e, j);
        StateOf(ar.gs, rows, evs, m, q, e);
        if q <= u {
          EvsGrow(evs, m, q, u);
        }
      }
    }
  }

  /** The member's read of a byte, with the newest write of it. */
  lemma NewestRead(g: Shape, states: seq<State>, es: seq<Event>, i: nat, rid: nat, part: (nat, nat), o: nat, off: nat, bytes: seq<byte>)
    returns (written: bool, k: nat, ev: Event)
    requires Run(g, states, es) && Initial(g, states[0]) && UnderWay(states, es, i, |es|, rid) && Undisturbed(states, es, i, |es|, o)
    requires states[|es|].readers[rid].todo == {part} && !states[|es|].readers[rid].err
    requires es[i].addr == off <= o < off + es[i].len
    requires forall j: nat :: Writes(states, es, j, o) ==> es[j].rid !in states[|es|].failures
    requires ReadShaped(g, states[|es|], states[|es|].readers[rid]) && bytes == Fill(g, states[|es|], states[|es|].readers[rid], part)
    ensures NewestInMember(states, es, o, written, k) && (written ==> k < |es| && ev == es[k])
    ensures StripeOf(g, o) < |states[0].stripes| && |bytes| == es[i].len
    ensures SaidBy(bytes[o - off], written, ev, o, FirstByte(g, states[0], o))
  {
    written, k := ReadReturnsLastWrite(g, states, es, i, |es|, rid, part, o);
    ev := es[if written then k else i];
  }

  /** A piece of a read whose member's read no write disturbs, at the member's address `o`. */
  ghost predicate Lone(ar: Array, rows: seq<seq<State>>, evs: seq<ArrayEvent>, p: Raid0.Piece, u: nat, e: nat, o: nat)
    requires FreshRun(ar, rows, evs)
  {
    && PieceFetched(ar, rows, evs, p, u, e) && p.off <= o < p.off + p.len && NoneFailed(rows, evs, e, p.hid, o)
    && |EvsOf(evs, p.hid, u)| < |EvsOf(evs, p.hid, e)| && EvsOf(evs, p.hid, e)[|EvsOf(evs, p.hid, u)|] == evs[u].ev
    && Undisturbed(StatesOf(rows, evs, p.hid, e), EvsOf(evs, p.hid, e), |EvsOf(evs, p.hid, u)|, |EvsOf(evs, p.hid, e)|, o)
  }

  lemma PieceByteInMember(ar: Array, rows: seq<seq<State>>, evs: seq<ArrayEvent>, p: Raid0.Piece, u: nat, e: nat, o: nat, bytes: seq<byte>)
    returns (written: bool, k: nat, ev: Event)
    requires FreshRun(ar, rows, evs) && Lone(ar, rows, evs, p, u, e, o) && Gets(ar, rows, evs, p, u, e, bytes)
    ensures NewestInMember(StatesOf(rows, evs, p.hid, e), EvsOf(evs, p.hid, e), o, written, k)
    ensures StripeOf(ar.gs[p.hid], o) < |rows[0][p.hid].stripes| && |bytes| == p.len
    ensures written ==> k < |EvsOf(evs, p.hid, e)| && ev == EvsOf(evs, p.hid, e)[k]
    ensures SaidBy(bytes[o - p.off], written, ev, o, FirstByte(ar.gs[p.hid], rows[0][p.hid], o))
  {
    var m := p.hid;
    var states, es := StatesOf(rows, evs, m, e), EvsOf(evs, m, e);
    RunOf(ar, rows, evs, m, e);
    PieceIsUnderWay(ar, rows, evs, p, u, e);
    UnfailedInMember(ar, rows, evs, m, e, o);
    PieceIsShaped(ar, rows, evs, p, u, e);
    written, k, ev := NewestRead(ar.gs[m], states, es, |EvsOf(evs, m, u)|, evs[u].ev.rid, (evs[e].ev.stripe, evs[e].ev.strip), o, p.off, bytes);
  }

  /** What a piece gets for the member's address `o`. */
  lemma PieceByte(ar: Array, rows: seq<seq<State>>, evs: seq<ArrayEvent>, p: Raid0.Piece, u: nat, e: nat, m: nat, o: nat,
                  bytes: seq<byte>, b: byte)
    returns (written: bool, w: nat, ev: Event)
    requires FreshRun(ar, rows, evs) && Lone(ar, rows, evs, p, u, e, o) && Gets(ar, rows, evs, p, u, e, bytes)
    requires m == p.hid && |bytes| == p.len && b == bytes[o - p.off]
    ensures Newest(rows, evs, e, m, o, written, w) && (written ==> ev == evs[w].ev)
    ensures StripeOf(ar.gs[m], o) < |rows[0][m].stripes| && SaidBy(b, written, ev, o, FirstByte(ar.gs[m], rows[0][m], o))
  {
    var k;
    written, k, ev := PieceByteInMember(ar, rows, evs, p, u, e, o, bytes);
    w := NewestEvent(ar, rows, evs, e, m, o, written, k);
  }

  /** The newest write of a member's run, among the events of all members. */
  lemma NewestEvent(ar: Array, rows: seq<seq<State>>, evs: seq<ArrayEvent>, t: nat, m: nat, o: nat, written: bool, k: nat) returns (u: nat)
    requires FreshRun(ar, rows, evs) && m < |ar.gs| && t <= |evs|
    requires NewestInMember(StatesOf(rows, evs, m, t), EvsOf(evs, m, t), o, written, k)
    ensures Newest(rows, evs, t, m, o, written, u)
    ensures written ==> EvsOf(evs, m, t)[k] == evs[u].ev
  {
    u := 0;
    if written {
      u := FromMember(ar, rows, evs, t, m, o, k);
    }
    NewestCarries(ar, rows, evs, t, m, o, written, k, u);
  }

  lemma UnfailedInMember(ar: Array, rows: seq<seq<State>>, evs: seq<ArrayEvent>, m: nat, t: nat, o: nat)
    requires FreshRun(ar, rows, evs) && m < |ar.gs| && t <= |evs| && NoneFailed(rows, evs, t, m, o)
    ensures forall j: nat :: Writes(StatesOf(rows, evs, m, t), EvsOf(evs, m, t), j, o) ==> EvsOf(evs, m, t)[j].rid !in rows[t][m].failures
  {
    forall j: nat | Writes(StatesOf(rows, evs, m, t), EvsOf(evs, m, t), j, o) ensures EvsOf(evs, m, t)[j].rid !in rows[t][m].failures {
      var v := FromMember(ar, rows, evs, t, m, o, j);
    }
  }

  /** The piece of a read that address `x` is in. */
  lemma PieceOfRead(ar: Array, rows: seq<seq<State>>, evs: seq<ArrayEvent>, ws: seq<ClientWrite>, r: ClientRead, x: nat)
    returns (i: nat, p: Raid0.Piece)
    requires ClientRun(ar, rows, evs, ws) && Fetched(ar, rows, evs, r) && Alone(ar, rows, evs, ws, r, x) && Reads(r, x)
    requires NoneFailedFor(ar, rows, evs, r, x)
    ensures i < |ar.Pieces(r.addr, r.len)| && p == ar.Pieces(r.addr, r.len)[i]
    ensures
      && ar.Place(x).0 == p.hid < |ar.gs| && Lone(ar, rows, evs, p, r.at + i, r.ends[i], ar.Place(x).1)
      && p.pos + p.len <= r.len && x - r.addr == p.pos + (ar.Place(x).1 - p.off)
  {
    var (m, o) := ar.Place(x);
    p := Raid0.PieceFor(ar.strip, |ar.gs|, r.addr, r.len, 0, x);
    i :| 0 <= i < |ar.Pieces(r.addr, r.len)| && ar.Pieces(r.addr, r.len)[i] == p;
    Raid0.PieceIsInside(ar.strip, |ar.gs|, r.addr, r.len, 0, p, x);
    PieceIsUndisturbed(ar, rows, evs, ws, r, i, x, m, o);
  }

  /** The piece's part of the buffer. */
  lemma PartOfBuffer(ar: Array, rows: seq<seq<State>>, evs: seq<ArrayEvent>, r: ClientRead, buf: seq<byte>, i: nat, p: Raid0.Piece,
                     k: nat)
    returns (bytes: seq<byte>)
    requires FreshRun(ar, rows, evs) && Fetched(ar, rows, evs, r) && Assembled(ar, rows, evs, r, buf)
    requires i < |ar.Pieces(r.addr, r.len)| && p == ar.Pieces(r.addr, r.len)[i] && k < p.len && p.pos + p.len <= r.len
    ensures PieceFetched(ar, rows, evs, p, r.at + i, r.ends[i]) && |buf| == r.len
    ensures |bytes| == p.len && bytes[k] == buf[p.pos + k] && Gets(ar, rows, evs, p, r.at + i, r.ends[i], bytes)
  {
    bytes := buf[p.pos..p.pos + p.len];
  }

  /** Up to the end of each piece no backend I/O failed for a member write of address `x`. */
  ghost predicate NoneFailedFor(ar: Array, rows: seq<seq<State>>, evs: seq<ArrayEvent>, r: ClientRead, x: nat)
    requires FreshRun(ar, rows, evs)
  {
    forall i, e :: 0 <= i < |r.ends| && e == r.ends[i] <= |evs| && ar.Place(x).0 < |ar.gs| ==>
      NoneFailed(rows, evs, e, ar.Place(x).0, ar.Place(x).1)
  }

  /** The piece that fetched a byte of the client's buffer. */
  lemma PieceWithByte(ar: Array, rows: seq<seq<State>>, evs: seq<ArrayEvent>, ws: seq<ClientWrite>,
                      r: ClientRead, buf: seq<byte>, x: nat, m: nat, o: nat)
    returns (p: Raid0.Piece, u: nat, e: nat, bytes: seq<byte>)
    requires ClientRun(ar, rows, evs, ws) && Fetched(ar, rows, evs, r) && Alone(ar, rows, evs, ws, r, x)
    requires Assembled(ar, rows, evs, r, buf) && Reads(r, x) && NoneFailedFor(ar, rows, evs, r, x) && ar.Place(x) == (m, o)
    ensures m < |ar.gs| && r.at < e <= |evs| && Lone(ar, rows, evs, p, u, e, o) && m == p.hid
    ensures |bytes| == p.len && Gets(ar, rows, evs, p, u, e, bytes) && buf[x - r.addr] == bytes[o - p.off]
  {
    var i;
    i, p := PieceOfRead(ar, rows, evs, ws, r, x);
    u, e := r.at + i, r.ends[i];
    bytes := PartOfBuffer(ar, rows, evs, r, buf, i, p, o - p.off);
  }

  /** A read of the striped array gets, in each byte that no client write disturbs, what one of the
      client writes says, one that was not over yet when any other write of the byte was
      submitted; or what the members held at first, if no client write of the byte is over. */
  lemma StripedReadReturnsLastWrite(ar: Array, rows: seq<seq<State>>, evs: seq<ArrayEvent>, ws: seq<ClientWrite>,
                                    r: ClientRead, buf: seq<byte>, x: nat)
    returns (written: bool, c: nat)
    requires ClientRun(ar, rows, evs, ws) && Fetched(ar, rows, evs, r) && Alone(ar, rows, evs, ws, r, x)
    requires Assembled(ar, rows, evs, r, buf) && Reads(r, x) && NoneFailedFor(ar, rows, evs, r, x)
    ensures var (m, o) := ar.Place(x);
      && m < |ar.gs| && StripeOf(ar.gs[m], o) < |rows[0][m].stripes|
      && LastSaid(ar, rows, evs, ws, r.at, x, buf[x - r.addr], FirstByte(ar.gs[m], rows[0][m], o), written, c)
  {
    var (m, o) := ar.Place(x);
    var p, u, e, bytes := PieceWithByte(ar, rows, evs, ws, r, buf, x, m, o);
    var w, ev;
    written, w, ev := PieceByte(ar, rows, evs, p, u, e, m, o, bytes, buf[x - r.addr]);
    c := SaidByClient(ar, rows, evs, ws, r.at, e, x, m, o, buf[x - r.addr], FirstByte(ar.gs[m], rows[0][m], o), written, w, ev);
  }

  lemma StaysOver(ar: Array, rows: seq<seq<State>>, evs: seq<ArrayEvent>, w: ClientWrite, t: nat, t': nat)
    requires FreshRun(ar, rows, evs) && Issued(ar, rows, evs, w) && t <= t' <= |evs| && Over(ar, rows, evs, w, t)
    ensures Over(ar, rows, evs, w, t')
  {
    var ps := ar.Pieces(w.addr, |w.buf|);
    forall u | w.at <= u < w.at + w.taken ensures PieceOver(rows, evs, u, t') {
      assert PieceOver(rows, evs, u, t);
      assert IsWritePiece(evs[w.at + (u - w.at)], ps[u - w.at], w.buf);
      StillOver(ar, rows, evs, evs[u].member, t, t');
    }
  }

  /** While a member is online and idle, its flat array is what its disks hold. */
  lemma IdleMemberHoldsFlat(g: Shape, st: State, o: nat)
    requires AllInv(g, st) && Quiet(st) && st.online && StripeOf(g, o) < |st.stripes|
    ensures |st.stripes[StripeOf(g, o)].data| == g.DataSize()
    ensures st.stripes[StripeOf(g, o)].data[Inside(g, o)] == FlatByte(g, st, o)
  {
    OnlineQuietIsSound(g, st, StripeOf(g, o));
  }

  // ---------- The events a request issues ----------

  /** The requests a client write comes to, as the splitting loop has them. */
  method WriteEvents(b: Raid0.Backend, addr: nat, buf: seq<byte>, rid: nat) returns (evs: seq<ArrayEvent>)
    requires b.strip == Raid0.Pow2(b.shift) && |b.members| > 0
    ensures var ps := Raid0.Pieces(b.strip, |b.members|, addr, |buf|, 0);
      |evs| == |ps| && forall i :: 0 <= i < |ps| ==> IsWritePiece(evs[i], ps[i], buf) && evs[i].ev.rid == rid + i
  {
    var ps := b.Split(addr, |buf|);
    evs := [];
    for i := 0 to |ps|
      invariant |evs| == i
      invariant forall k :: 0 <= k < i ==> IsWritePiece(evs[k], ps[k], buf) && evs[k].ev.rid == rid + k
    {
      var p := ps[i];
      Raid0.PieceIsInside(b.strip, |b.members|, addr, |buf|, 0, p, addr);
      evs := evs + [At(p.hid, SubmitWrite(rid + i, p.off, buf[p.pos..p.pos + p.len]))];
    }
  }

  /** The requests a client read comes to. */
  method ReadEvents(b: Raid0.Backend, addr: nat, len: nat, rid: nat) returns (evs: seq<ArrayEvent>)
    requires b.strip == Raid0.Pow2(b.shift) && |b.members| > 0
    ensures var ps := Raid0.Pieces(b.strip, |b.members|, addr, len, 0);
      |evs| == |ps| && forall i :: 0 <= i < |ps| ==> IsReadPiece(evs[i], ps[i]) && evs[i].ev.rid == rid + i
  {
    var ps := b.Split(addr, len);
    evs := [];
    for i := 0 to |ps|
      invariant |evs| == i
      invariant forall k :: 0 <= k < i ==> IsReadPiece(evs[k], ps[k]) && evs[k].ev.rid == rid + k
    {
      evs := evs + [At(ps[i].hid, SubmitRead(rid + i, ps[i].off, ps[i].len))];
    }
  }
}
