/** Several RAID4/5 targets side by side: each event is one of one target, and each target's
    own events make a run of it. */
module Interleaving {
  import opened StripeWriter
  import opened Engine
  import opened EngineTheorems

  /** Event `ev` of member `member`. */
  datatype ArrayEvent = At(member: nat, ev: Event)

  /** `rows[t]` are the members' states after `t` events. */
  ghost predicate ArrayRun(gs: seq<Shape>, rows: seq<seq<State>>, evs: seq<ArrayEvent>) {
    && |rows| == |evs| + 1 && (forall t :: 0 <= t < |rows| ==> |rows[t]| == |gs|)
    && forall t :: 0 <= t < |evs| ==> ArrayStep(gs, rows[t], evs[t], rows[t + 1])
  }

  ghost predicate ArrayStep(gs: seq<Shape>, row: seq<State>, ev: ArrayEvent, row': seq<State>)
    requires |row| == |row'| == |gs|
  {
    && ev.member < |gs| && Step(gs[ev.member], row[ev.member], ev.ev, row'[ev.member])
    && forall m :: 0 <= m < |gs| && m != ev.member ==> row'[m] == row[m]
  }

  /** The events of member `m` among the first `t`. */
  ghost function EvsOf(evs: seq<ArrayEvent>, m: nat, t: nat): (r: seq<Event>)
    requires t <= |evs|
  {
    if t == 0 then [] else EvsOf(evs, m, t - 1) + if evs[t - 1].member == m then [evs[t - 1].ev] else []
  }

  ghost predicate HasMember(rows: seq<seq<State>>, evs: seq<ArrayEvent>, m: nat) {
    |evs| < |rows| && forall u :: 0 <= u < |rows| ==> m < |rows[u]|
  }

  /** The states it goes through. */
  ghost function StatesOf(rows: seq<seq<State>>, evs: seq<ArrayEvent>, m: nat, t: nat): (r: seq<State>)
    requires t <= |evs| && HasMember(rows, evs, m)
    ensures |r| == |EvsOf(evs, m, t)| + 1 && r[|r| - 1] in r
  {
    if t == 0 then [rows[0][m]]
    else StatesOf(rows, evs, m, t - 1) + if evs[t - 1].member == m then [rows[t][m]] else []
  }

  lemma StepOf(gs: seq<Shape>, rows: seq<seq<State>>, evs: seq<ArrayEvent>, m: nat, t: nat)
    requires ArrayRun(gs, rows, evs) && m < |gs| && t < |evs|
    ensures if evs[t].member == m then Step(gs[m], rows[t][m], evs[t].ev, rows[t + 1][m]) else rows[t + 1][m] == rows[t][m]
  {
    assert ArrayStep(gs, rows[t], evs[t], rows[t + 1]);
  }

  /** The member's run ends where the member is at time `t`, and starts where it was at first. */
  lemma {:induction false} LastState(gs: seq<Shape>, rows: seq<seq<State>>, evs: seq<ArrayEvent>, m: nat, t: nat)
    requires ArrayRun(gs, rows, evs) && m < |gs| && t <= |evs|
    ensures StatesOf(rows, evs, m, t)[|EvsOf(evs, m, t)|] == rows[t][m] && StatesOf(rows, evs, m, t)[0] == rows[0][m]
  {
    if t > 0 {
      var u := t - 1;
      LastState(gs, rows, evs, m, u);
      StepOf(gs, rows, evs, m, u);
      OneMore(StatesOf(rows, evs, m, u), rows[t][m]);
    }
  }

  lemma OneMore<T>(s: seq<T>, x: T)
    requires s != []
    ensures (s + [x])[|s|] == x && (s + [x])[0] == s[0] && s + [] == s
  {
  }

  /** Later on the member's run only has got longer. */
  lemma {:induction false} EvsGrow(evs: seq<ArrayEvent>, m: nat, u: nat, t: nat)
    requires u <= t <= |evs|
    ensures EvsOf(evs, m, u) <= EvsOf(evs, m, t)
    decreases t
  {
    if u < t {
      EvsGrow(evs, m, u, t - 1);
    }
  }

  lemma {:induction false} StatesGrow(rows: seq<seq<State>>, evs: seq<ArrayEvent>, m: nat, u: nat, t: nat)
    requires HasMember(rows, evs, m) && u <= t <= |evs|
    ensures StatesOf(rows, evs, m, u) <= StatesOf(rows, evs, m, t)
    decreases t
  {
    if u < t {
      StatesGrow(rows, evs, m, u, t - 1);
    }
  }

  /** What the member's run says of time `u`. */
  lemma StateOf(gs: seq<Shape>, rows: seq<seq<State>>, evs: seq<ArrayEvent>, m: nat, u: nat, t: nat)
    requires ArrayRun(gs, rows, evs) && m < |gs| && u <= t <= |evs|
    ensures |EvsOf(evs, m, u)| <= |EvsOf(evs, m, t)|
    ensures StatesOf(rows, evs, m, t)[|EvsOf(evs, m, u)|] == rows[u][m]
  {
    EvsGrow(evs, m, u, t);
    StatesGrow(rows, evs, m, u, t);
    LastState(gs, rows, evs, m, u);
  }

  lemma EventOf(evs: seq<ArrayEvent>, u: nat, t: nat)
    requires u < t <= |evs|
    ensures var m := evs[u].member;
      |EvsOf(evs, m, u)| < |EvsOf(evs, m, t)| && EvsOf(evs, m, t)[|EvsOf(evs, m, u)|] == evs[u].ev
  {
    var m := evs[u].member;
    EvsGrow(evs, m, u + 1, t);
    assert EvsOf(evs, m, u + 1) == EvsOf(evs, m, u) + [evs[u].ev];
  }

  /** Each event of the member's run happened at some time. */
  lemma {:induction false} TimeOf(evs: seq<ArrayEvent>, m: nat, t: nat, k: nat) returns (u: nat)
    requires t <= |evs| && k < |EvsOf(evs, m, t)|
    ensures u < t && evs[u].member == m && |EvsOf(evs, m, u)| == k
    decreases t
  {
    if k < |EvsOf(evs, m, t - 1)| {
      u := TimeOf(evs, m, t - 1, k);
    } else {
      u := t - 1;
    }
  }

  lemma MemberStep(gs: seq<Shape>, rows: seq<seq<State>>, evs: seq<ArrayEvent>, m: nat, t: nat, i: nat)
    requires ArrayRun(gs, rows, evs) && m < |gs| && t <= |evs| && i < |EvsOf(evs, m, t)|
    ensures Step(gs[m], StatesOf(rows, evs, m, t)[i], EvsOf(evs, m, t)[i], StatesOf(rows, evs, m, t)[i + 1])
  {
    var u := StepAt(gs, rows, evs, m, t, i);
    StepOf(gs, rows, evs, m, u);
  }

  /** When the member's run took step `i`. */
  lemma StepAt(gs: seq<Shape>, rows: seq<seq<State>>, evs: seq<ArrayEvent>, m: nat, t: nat, i: nat) returns (u: nat)
    requires ArrayRun(gs, rows, evs) && m < |gs| && t <= |evs| && i < |EvsOf(evs, m, t)|
    ensures u < t && evs[u].member == m && EvsOf(evs, m, t)[i] == evs[u].ev
    ensures StatesOf(rows, evs, m, t)[i] == rows[u][m] && StatesOf(rows, evs, m, t)[i + 1] == rows[u + 1][m]
  {
    u := TimeOf(evs, m, t, i);
    StateOf(gs, rows, evs, m, u, t);
    StateOf(gs, rows, evs, m, u + 1, t);
    EventOf(evs, u, t);
    assert |EvsOf(evs, m, u + 1)| == i + 1;
  }

  /** The member's own events are a run of it. */
  lemma MemberRun(gs: seq<Shape>, rows: seq<seq<State>>, evs: seq<ArrayEvent>, m: nat, t: nat)
    requires ArrayRun(gs, rows, evs) && m < |gs| && t <= |evs|
    ensures Run(gs[m], StatesOf(rows, evs, m, t), EvsOf(evs, m, t))
  {
    forall i | 0 <= i < |EvsOf(evs, m, t)|
      ensures Step(gs[m], StatesOf(rows, evs, m, t)[i], EvsOf(evs, m, t)[i], StatesOf(rows, evs, m, t)[i + 1])
    {
      MemberStep(gs, rows, evs, m, t, i);
    }
  }
}
