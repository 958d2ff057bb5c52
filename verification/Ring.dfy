/** The single-producer, single-consumer ring (ublk/cfq/base.hpp, pusher.hpp, popper.hpp).  The
    two sides run concurrently: each takes its turns one memory access at a time, and each may
    work with an old value of the other side's position. */
module Ring {
  import opened Arithmetic
  import opened Options

  /** The producer found room and is about to write the slot, or is about to publish it. */
  datatype Producer<T> = NotPushing | HasRoom(item: T) | HasWritten(item: T)

  /** The consumer found an item and is about to read the slot, or is about to free it. */
  datatype Consumer<T> = NotPopping | HasItem | HasRead(item: T)

  /** What is in memory, and, for the specification, all items pushed and popped so far, counted
      from the slot `base` on. */
  datatype State<T> = State(base: nat, items: seq<T>, head: nat, tail: nat, producer: Producer<T>, consumer: Consumer<T>,
                            pushed: seq<T>, popped: seq<T>, headSeen: nat, tailSeen: nat)

  /** Where item number `i` goes. */
  function Slot<T>(s: State<T>, i: nat): (slot: nat)
    requires |s.items| > 0
    ensures slot < |s.items|
  {
    Wrap(s.base + i, |s.items|)
  }

  /** Slots are live from the head up to the tail. */
  ghost predicate Live<T>(s: State<T>, slot: nat)
    requires |s.items| > 0
  {
    exists i :: |s.popped| <= i < |s.pushed| && Slot(s, i) == slot
  }

  ghost predicate Inv<T>(s: State<T>) {
    var n, p, c := |s.items|, |s.pushed|, |s.popped|;
    && n >= 2 && s.head == Slot(s, c) && s.tail == Slot(s, p)
    && c <= p <= c + (n - 1)
    && s.popped == s.pushed[..c]
    && (forall i :: c <= i < p ==> s.items[Slot(s, i)] == s.pushed[i])
    // what one side has seen of the other is old, but was true once
    && s.headSeen <= c && p <= s.headSeen + (n - 1) && c <= s.tailSeen <= p
    && (!s.producer.NotPushing? ==> p < s.headSeen + (n - 1))
    && (s.producer.HasWritten? ==> s.items[s.tail] == s.producer.item)
    && (!s.consumer.NotPopping? ==> c < s.tailSeen)
    && (s.consumer.HasRead? ==> s.consumer.item == s.pushed[c])
  }

  // ---------- Positions ----------

  lemma {:induction false} WrapNear(i: nat, d: nat, n: nat)
    requires 0 < d < n
    ensures Wrap(i + d, n) != Wrap(i, n)
    decreases i
  {
    if i >= n {
      WrapNear(i - n, d, n);
    }
  }

  /** Positions less than a round apart are the same slot only if they are the same. */
  lemma SameSlot(i: nat, j: nat, n: nat)
    requires n > 0 && i <= j < i + n
    ensures Wrap(i, n) == Wrap(j, n) <==> i == j
  {
    if i < j {
      WrapNear(i, j - i, n);
    }
  }

  lemma NextSlot(i: nat, n: nat)
    requires n > 0
    ensures Wrap(i + 1, n) == (Wrap(i, n) + 1) % n
  {
    WrapAdd(i, 1, n);
    WrapIsMod(Wrap(i, n) + 1, n);
  }

  // ---------- Steps ----------

  /** The producer looks whether there is room: `seen` is the number of pops it knows of. */
  function PushLook<T>(s: State<T>, item: T, seen: nat): State<T>
    requires |s.items| > 0
  {
    if (s.tail + 1) % |s.items| != Slot(s, seen)
    then s.(producer := HasRoom(item), headSeen := seen)
    else s.(headSeen := seen)
  }

  function PushWrite<T>(s: State<T>): State<T>
    requires s.producer.HasRoom? && s.tail < |s.items|
  {
    s.(items := s.items[s.tail := s.producer.item], producer := HasWritten(s.producer.item))
  }

  function PushPublish<T>(s: State<T>): State<T>
    requires s.producer.HasWritten? && |s.items| > 0
  {
    s.(tail := (s.tail + 1) % |s.items|, pushed := s.pushed + [s.producer.item], producer := NotPushing)
  }

  /** The consumer looks whether there is an item: `seen` is the number of pushes it knows of. */
  function PopLook<T>(s: State<T>, seen: nat): State<T>
    requires |s.items| > 0
  {
    if Slot(s, seen) != s.head then s.(consumer := HasItem, tailSeen := seen) else s.(tailSeen := seen)
  }

  function PopRead<T>(s: State<T>): State<T>
    requires s.consumer.HasItem? && s.head < |s.items|
  {
    s.(consumer := HasRead(s.items[s.head]))
  }

  function PopPublish<T>(s: State<T>): State<T>
    requires s.consumer.HasRead? && |s.items| > 0
  {
    s.(head := (s.head + 1) % |s.items|, popped := s.popped + [s.consumer.item], consumer := NotPopping)
  }

  datatype Step<T> = Look(item: T, seen: nat) | Write | Publish | Peek(seen: nat) | Read | Free

  /** Each side goes through its program in order; positions it sees never go back. */
  ghost predicate Enabled<T>(s: State<T>, step: Step<T>) {
    match step
    case Look(_, seen) => s.producer.NotPushing? && s.headSeen <= seen <= |s.popped|
    case Write => s.producer.HasRoom?
    case Publish => s.producer.HasWritten?
    case Peek(seen) => s.consumer.NotPopping? && s.tailSeen <= seen <= |s.pushed|
    case Read => s.consumer.HasItem?
    case Free => s.consumer.HasRead?
  }

  ghost function Apply<T>(s: State<T>, step: Step<T>): State<T>
    requires Inv(s) && Enabled(s, step)
  {
    match step
    case Look(item, seen) => PushLook(s, item, seen)
    case Write => PushWrite(s)
    case Publish => PushPublish(s)
    case Peek(seen) => PopLook(s, seen)
    case Read => PopRead(s)
    case Free => PopPublish(s)
  }

  // ---------- What every interleaving keeps ----------

  lemma LookKeeps<T>(s: State<T>, item: T, seen: nat)
    requires Inv(s) && Enabled(s, Look(item, seen))
    ensures Inv(PushLook(s, item, seen))
    ensures PushLook(s, item, seen).producer.HasRoom? <==> |s.pushed| < seen + (|s.items| - 1)
  {
    RoomAsSeen(s.base, |s.items|, |s.pushed|, seen);
  }

  /** The next slot of the producer is the consumer's exactly if the ring is full. */
  lemma RoomAsSeen(base: nat, n: nat, p: nat, seen: nat)
    requires n > 0 && seen <= p <= seen + (n - 1)
    ensures (Wrap(base + p, n) + 1) % n != Wrap(base + seen, n) <==> p < seen + (n - 1)
  {
    NextSlot(base + p, n);
    if p + 1 < seen + n {
      SameSlot(base + seen, base + p + 1, n);
    } else {
      FullRound(base + seen, n);
      assert base + p + 1 == base + seen + n;
    }
  }

  lemma FullRound(i: nat, n: nat)
    requires n > 0
    ensures Wrap(i + n, n) == Wrap(i, n)
  {
  }

  /** The slot the producer writes is not live: the consumer is not to read it, nor is it
      reading it. */
  lemma WriteIsNotLive<T>(s: State<T>)
    requires Inv(s) && s.producer.HasRoom?
    ensures s.tail < |s.items| && !Live(s, s.tail)
  {
    forall i | |s.popped| <= i < |s.pushed| ensures Slot(s, i) != s.tail {
      SameSlot(s.base + i, s.base + |s.pushed|, |s.items|);
    }
  }

  lemma WriteKeeps<T>(s: State<T>)
    requires Inv(s) && s.producer.HasRoom?
    ensures Inv(PushWrite(s))
  {
    var s' := PushWrite(s);
    forall i | |s.popped| <= i < |s.pushed| ensures s'.items[Slot(s', i)] == s.pushed[i] {
      SameSlot(s.base + i, s.base + |s.pushed|, |s.items|);
    }
  }

  lemma PublishKeeps<T>(s: State<T>)
    requires Inv(s) && s.producer.HasWritten?
    ensures Inv(PushPublish(s))
  {
    NextPosition(s.base, |s.pushed|, |s.items|);
  }

  lemma NextPosition(base: nat, p: nat, n: nat)
    requires n > 0
    ensures Wrap(base + (p + 1), n) == (Wrap(base + p, n) + 1) % n
  {
    NextSlot(base + p, n);
  }

  lemma PeekKeeps<T>(s: State<T>, seen: nat)
    requires Inv(s) && Enabled(s, Peek(seen))
    ensures Inv(PopLook(s, seen)) && (PopLook(s, seen).consumer.HasItem? <==> |s.popped| < seen)
  {
    SameSlot(s.base + |s.popped|, s.base + seen, |s.items|);
  }

  lemma ReadKeeps<T>(s: State<T>)
    requires Inv(s) && s.consumer.HasItem?
    ensures Inv(PopRead(s)) && PopRead(s).consumer.HasRead? && PopRead(s).consumer.item == s.pushed[|s.popped|]
  {
  }

  lemma FreeKeeps<T>(s: State<T>)
    requires Inv(s) && s.consumer.HasRead?
    ensures Inv(PopPublish(s))
  {
    var c := |s.popped|;
    NextPosition(s.base, c, |s.items|);
    assert s.pushed[..c + 1] == s.pushed[..c] + [s.pushed[c]];
  }

  lemma StepKeeps<T>(s: State<T>, step: Step<T>)
    requires Inv(s) && Enabled(s, step)
    ensures Inv(Apply(s, step))
  {
    match step
    case Look(item, seen) => LookKeeps(s, item, seen);
    case Write => WriteKeeps(s);
    case Publish => PublishKeeps(s);
    case Peek(seen) => PeekKeeps(s, seen);
    case Read => ReadKeeps(s);
    case Free => FreeKeeps(s);
  }

  ghost predicate Run<T(!new)>(states: seq<State<T>>, steps: seq<Step<T>>) {
    && |states| == |steps| + 1
    && forall i :: 0 <= i < |steps| ==>
         Enabled(states[i], steps[i]) && (Inv(states[i]) ==> states[i + 1] == Apply(states[i], steps[i]))
  }

  lemma {:induction false} RunKeeps<T(!new)>(states: seq<State<T>>, steps: seq<Step<T>>, k: nat)
    requires Run(states, steps) && Inv(states[0]) && k <= |steps|
    ensures Inv(states[k])
  {
    if k > 0 {
      RunKeeps(states, steps, k - 1);
      StepKeeps(states[k - 1], steps[k - 1]);
      assert states[k - 1 + 1] == Apply(states[k - 1], steps[k - 1]);
    }
  }

  /** Where memory has what: `at` is the slot the ring started from. */
  ghost predicate Placed<T>(s: State<T>, at: nat) {
    var n := |s.items|;
    && n > 0 && s.tail == (at + |s.pushed|) % n && s.head == (at + |s.popped|) % n
    && forall i :: |s.popped| <= i < |s.pushed| ==> s.items[(at + i) % n] == s.pushed[i]
  }

  lemma InvIsPlaced<T>(s: State<T>)
    requires Inv(s)
    ensures Placed(s, s.base)
  {
    forall i: nat ensures Slot(s, i) == (s.base + i) % |s.items| {
      WrapIsMod(s.base + i, |s.items|);
    }
  }

  lemma {:induction false} RunStaysInPlace<T(!new)>(states: seq<State<T>>, steps: seq<Step<T>>, k: nat)
    requires Run(states, steps) && Inv(states[0]) && k <= |steps|
    ensures states[k].base == states[0].base && |states[k].items| == |states[0].items|
  {
    if k > 0 {
      var j := k - 1;
      RunStaysInPlace(states, steps, j);
      RunKeeps(states, steps, j);
      assert states[j + 1] == Apply(states[j], steps[j]);
    }
  }

  /** Both positions move up one slot an item, around the ring, and item number `i` is in slot `i`
      from the one the ring started from: what the program on the other side counts on. */
  lemma ItemsGoRound<T(!new)>(states: seq<State<T>>, steps: seq<Step<T>>, k: nat)
    requires Run(states, steps) && Inv(states[0]) && states[0].pushed == states[0].popped == [] && k <= |steps|
    ensures |states[k].items| == |states[0].items| && Placed(states[k], states[0].head)
  {
    RunKeeps(states, steps, k);
    RunStaysInPlace(states, steps, k);
    InvIsPlaced(states[k]);
    InvIsPlaced(states[0]);
    FromSlot(states[k], states[0].base);
  }

  lemma FromSlot<T>(s: State<T>, base: nat)
    requires Placed(s, base)
    ensures Placed(s, base % |s.items|)
  {
    var n := |s.items|;
    SameRound(base, |s.pushed|, n);
    SameRound(base, |s.popped|, n);
    forall i | |s.popped| <= i < |s.pushed| ensures s.items[(base % n + i) % n] == s.pushed[i] {
      SameRound(base, i, n);
    }
  }

  lemma SameRound(base: nat, i: nat, n: nat)
    requires n > 0
    ensures (base + i) % n == (base % n + i) % n
  {
    WrapAdd(base, i, n);
    WrapIsMod(base, n);
    WrapIsMod(base + i, n);
    WrapIsMod(base % n + i, n);
  }

  /** In every state of every interleaving: what was popped is a prefix of what was pushed, at
      most one item less than there are slots is live, and a write never hits a live slot. */
  lemma RingIsAQueue<T(!new)>(states: seq<State<T>>, steps: seq<Step<T>>, k: nat)
    requires Run(states, steps) && Inv(states[0]) && k <= |steps|
    ensures states[k].popped <= states[k].pushed
    ensures |states[k].pushed| - |states[k].popped| <= |states[k].items| - 1
    ensures k < |steps| && steps[k].Write? ==> states[k].tail < |states[k].items| && !Live(states[k], states[k].tail)
  {
    RunKeeps(states, steps, k);
    if k < |steps| && steps[k].Write? {
      WriteIsNotLive(states[k]);
    }
  }

  /** The rest of a push that found room. */
  lemma WriteThenPublish<T>(s: State<T>, v: T)
    requires Inv(s) && s.producer == HasRoom(v)
    ensures Inv(PushPublish(PushWrite(s)))
    ensures var s' := PushPublish(PushWrite(s));
      && s' == s.(items := s.items[s.tail := v], tail := (s.tail + 1) % |s.items|, pushed := s.pushed + [v], producer := NotPushing)
  {
    WriteKeeps(s);
    PublishKeeps(PushWrite(s));
  }

  /** The rest of a pop that found an item. */
  lemma ReadThenFree<T>(s: State<T>)
    requires Inv(s) && s.consumer.HasItem?
    ensures |s.popped| < |s.pushed| && s.head < |s.items| && s.items[s.head] == s.pushed[|s.popped|]
    ensures var v := s.items[s.head];
      && PopRead(s) == s.(consumer := HasRead(v)) && Inv(PopPublish(PopRead(s)))
      && PopPublish(PopRead(s)) == s.(head := (s.head + 1) % |s.items|, popped := s.popped + [v], consumer := NotPopping)
  {
    ReadKeeps(s);
    FreeKeeps(PopRead(s));
  }

  // ---------- Both sides ----------

  class Queue<T> {
    var s: State<T>

    /** Both positions are at slot `at` of a ring nobody uses yet. */
    constructor (items: seq<T>, at: nat)
      requires |items| >= 2 && at < |items|
      ensures Inv(s) && s.items == items && s.head == s.tail == at && s.pushed == [] && s.popped == []
    {
      s := State(at, items, at, at, NotPushing, NotPopping, [], [], 0, 0);
    }

    /** `push`, while the consumer rests; `seen` is how far the producer sees it. */
    method Push(v: T, seen: nat) returns (ok: bool)
      requires Inv(s) && s.producer.NotPushing? && s.headSeen <= seen <= |s.popped|
      modifies this
      ensures Inv(s) && s.producer.NotPushing? && s.popped == old(s.popped)
      ensures ok <==> |old(s.pushed)| < seen + (|old(s.items)| - 1)
      ensures s.pushed == if ok then old(s.pushed) + [v] else old(s.pushed)
      ensures old(s.tail) < |old(s.items)| && s.head == old(s.head)
      ensures if ok then s.tail == (old(s.tail) + 1) % |s.items| && s.items == old(s.items)[old(s.tail) := v]
              else s.tail == old(s.tail) && s.items == old(s.items)
    {
      LookKeeps(s, v, seen);
      s := PushLook(s, v, seen);
      ok := s.producer.HasRoom?;
      if ok {
        WriteThenPublish(s, v);
        s := PushWrite(s);
        s := PushPublish(s);
      }
    }

    /** `pop`, while the producer rests. */
    method Pop(seen: nat) returns (v: Option<T>)
      requires Inv(s) && s.consumer.NotPopping? && s.tailSeen <= seen <= |s.pushed|
      modifies this
      ensures Inv(s) && s.consumer.NotPopping? && s.pushed == old(s.pushed)
      ensures v.Some? <==> |old(s.popped)| < seen
      ensures v.Some? ==> |old(s.popped)| < |s.pushed| && v.value == s.pushed[|old(s.popped)|] && s.popped == old(s.popped) + [v.value]
      ensures v.None? ==> s.popped == old(s.popped)
      ensures old(s.head) < |s.items| && s.items == old(s.items) && s.tail == old(s.tail)
      ensures if v.Some? then s.head == (old(s.head) + 1) % |s.items| && v.value == s.items[old(s.head)] else s.head == old(s.head)
    {
      PeekKeeps(s, seen);
      s := PopLook(s, seen);
      v := None;
      if s.consumer.HasItem? {
        ReadThenFree(s);
        s := PopRead(s);
        v := Some(s.consumer.item);
        s := PopPublish(s);
      }
    }
  }
}
