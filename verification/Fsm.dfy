/** The online/offline machine of a RAID4/5 target (ublk/raidsp/fsm.hpp). */
module Fsm {

  /** The error a refused request is answered with. */
  const EIO: int := 5

  /** A request, with what the acceptor returns if it gets to see it; a failed completion; a
      question for a stripe's coherency, with what the acceptor knows. */
  datatype Event = Request(r: int) | Failed | Check(known: bool)

  /** What `e.r` becomes, as a number or as a truth value. */
  datatype Answer = Code(code: int) | Coherent(coherent: bool) | NoAnswer

  /** An event that takes an online target offline. */
  predicate Fatal(ev: Event) {
    ev.Failed? || (ev.Request? && ev.r != 0)
  }

  class Machine {
    var online: bool

    constructor ()
      ensures online
    {
      online := true;
    }

    /** `process_event`.  An online machine answers what the acceptor returned, an offline one
        refuses with an error. */
    method Process(ev: Event) returns (answer: Answer)
      modifies this
      ensures online <==> old(online) && !Fatal(ev)
      ensures answer == AnswerTo(old(online), ev)
      ensures ev.Request? && old(online) ==> answer == Code(ev.r)
      ensures ev.Request? && !old(online) ==> answer == Code(EIO) && Refused(answer)
      ensures ev.Check? ==> answer == Coherent(old(online) && ev.known)
    {
      match ev
      case Request(r) =>
        if online {
          answer := Code(r);
          if r != 0 {
            online := false;
          }
        } else {
          answer := Code(EIO);
        }
      case Failed =>
        online := false;
        answer := NoAnswer;
      case Check(known) =>
        answer := Coherent(online && known);
    }
  }

  /** The request came to nothing. */
  predicate Refused(answer: Answer) { answer.Code? && answer.code != 0 }

  function AnswerTo(online: bool, ev: Event): Answer {
    match ev
    case Request(r) => Code(if online then r else EIO)
    case Failed => NoAnswer
    case Check(known) => Coherent(online && known)
  }

  /** No event before `k` was fatal. */
  predicate Unharmed(evs: seq<Event>, k: nat)
    requires k <= |evs|
  {
    forall i :: 0 <= i < k ==> !Fatal(evs[i])
  }

  /** The answer to event `k`: it depends only on whether a fatal event came before. */
  function Due(evs: seq<Event>, k: nat): Answer
    requires k < |evs|
  {
    AnswerTo(Unharmed(evs, k), evs[k])
  }

  /** To a request: what the acceptor returned, or, once an event was fatal, an error, whatever the
      acceptor would have returned.  To a question: a stripe is coherent only if the acceptor knows
      it is, and no event was fatal. */
  lemma DueIs(evs: seq<Event>, k: nat)
    requires k < |evs|
    ensures evs[k].Request? ==> Due(evs, k).Code?
    ensures evs[k].Request? && Unharmed(evs, k) ==> Due(evs, k).code == evs[k].r
    ensures evs[k].Request? && !Unharmed(evs, k) ==> Due(evs, k).code != 0
    ensures evs[k].Request? ==> (Due(evs, k).code == 0 <==> Unharmed(evs, k + 1))
    ensures evs[k].Check? ==> Due(evs, k) == Coherent(Unharmed(evs, k) && evs[k].known)
  {
    NextUnharmed(evs, k);
  }

  ghost predicate Answered(evs: seq<Event>, answers: seq<Answer>)
    requires |answers| <= |evs|
  {
    forall k :: 0 <= k < |answers| ==> answers[k] == Due(evs, k)
  }

  lemma AnsweredMore(evs: seq<Event>, answers: seq<Answer>, answer: Answer)
    requires |answers| < |evs| && Answered(evs, answers) && answer == Due(evs, |answers|)
    ensures Answered(evs, answers + [answer])
  {
  }

  lemma NextUnharmed(evs: seq<Event>, k: nat)
    requires k < |evs|
    ensures Unharmed(evs, k + 1) <==> Unharmed(evs, k) && !Fatal(evs[k])
  {
  }

  /** Feeding a fresh machine all events, with the answers. */
  method Feed(evs: seq<Event>) returns (online: bool, answers: seq<Answer>)
    ensures online <==> Unharmed(evs, |evs|)
    ensures |answers| == |evs| && Answered(evs, answers)
    ensures forall k :: 0 <= k < |evs| && evs[k].Request? ==>
      answers[k].Code? && if Unharmed(evs, k) then answers[k].code == evs[k].r else answers[k].code != 0
  {
    var m := new Machine();
    answers := [];
    for k := 0 to |evs|
      invariant m.online <==> Unharmed(evs, k)
      invariant |answers| == k && Answered(evs, answers)
    {
      NextUnharmed(evs, k);
      var answer := m.Process(evs[k]);
      AnsweredMore(evs, answers, answer);
      answers := answers + [answer];
    }
    online := m.online;
    forall k | 0 <= k < |evs| && evs[k].Request?
      ensures answers[k].Code? && if Unharmed(evs, k) then answers[k].code == evs[k].r else answers[k].code != 0
    {
      DueIs(evs, k);
    }
  }
}
