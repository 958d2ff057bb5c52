/** Taking an entry out of a list of waiting writes: both the write engine and the write-through
    cache swap it with the last one and pop. */
module Waiting {

  function Without<T>(waiting: seq<T>, j: nat): (r: seq<T>)
    requires j < |waiting|
    ensures |r| == |waiting| - 1
  {
    waiting[j := waiting[|waiting| - 1]][..|waiting| - 1]
  }

  /** One entry goes, once. */
  lemma WithoutMultiset<T>(waiting: seq<T>, j: nat)
    requires j < |waiting|
    ensures multiset(Without(waiting, j)) == multiset(waiting) - multiset{waiting[j]}
  {
    var last := |waiting| - 1;
    var swapped := waiting[j := waiting[last]];
    assert waiting == waiting[..last] + [waiting[last]];
    assert swapped == swapped[..last] + [swapped[last]];
    if j == last {
      assert swapped == waiting;
    } else {
      assert Without(waiting, j) == waiting[..last][j := waiting[last]];
    }
  }

  /** Entry by entry. */
  lemma WithoutAt<T>(waiting: seq<T>, j: nat, i: nat)
    requires j < |waiting| && i < |waiting| - 1
    ensures Without(waiting, j)[i] == if i == j then waiting[|waiting| - 1] else waiting[i]
  {
  }

  // ---------- Order ----------

  /** Where entry `i` of what is left stood before. */
  function CameFrom<T>(waiting: seq<T>, j: nat, i: nat): (k: nat)
    requires j < |waiting| && i < |waiting| - 1
    ensures k < |waiting| && k != j && Without(waiting, j)[i] == waiting[k]
  {
    if i == j then |waiting| - 1 else i
  }

  /** Of any two entries left for one place, the one that stood first still does. */
  ghost predicate OrderKept<T>(waiting: seq<T>, place: T -> nat, j: nat)
    requires j < |waiting|
  {
    forall i, k :: 0 <= i < k < |waiting| - 1 && place(Without(waiting, j)[i]) == place(Without(waiting, j)[k]) ==>
      CameFrom(waiting, j, i) < CameFrom(waiting, j, k)
  }

  /** Taking out an entry keeps the order at every place exactly if no entry between it and the
      last one waits for the last one's place. */
  lemma OrderKeptIff<T>(waiting: seq<T>, place: T -> nat, j: nat)
    requires j < |waiting|
    ensures OrderKept(waiting, place, j) <==>
      forall i :: j < i < |waiting| - 1 ==> place(waiting[i]) != place(waiting[|waiting| - 1])
  {
    var last := |waiting| - 1;
    forall i | j < i < last && place(waiting[i]) == place(waiting[last]) ensures !OrderKept(waiting, place, j) {
      assert Without(waiting, j)[j] == waiting[last] && Without(waiting, j)[i] == waiting[i];
      assert CameFrom(waiting, j, j) == last && CameFrom(waiting, j, i) == i;
    }
    if forall i :: j < i < last ==> place(waiting[i]) != place(waiting[last]) {
      forall i, k | 0 <= i < k < last && place(Without(waiting, j)[i]) == place(Without(waiting, j)[k])
        ensures CameFrom(waiting, j, i) < CameFrom(waiting, j, k)
      {
        assert Without(waiting, j)[k] == if k == j then waiting[last] else waiting[k];
      }
    }
  }

  /** The entries for place `p`, first come first. */
  function Queue<T>(waiting: seq<T>, place: T -> nat, p: nat): seq<T> {
    if waiting == [] then []
    else (if place(waiting[0]) == p then [waiting[0]] else []) + Queue(waiting[1..], place, p)
  }

  lemma {:induction false} QueueConcat<T>(a: seq<T>, b: seq<T>, place: T -> nat, p: nat)
    ensures Queue(a + b, place, p) == Queue(a, place, p) + Queue(b, place, p)
  {
    if a == [] {
      assert a + b == b;
    } else {
      var first := if place(a[0]) == p then [a[0]] else [];
      assert (a + b)[0] == a[0] && (a + b)[1..] == a[1..] + b;
      QueueConcat(a[1..], b, place, p);
      assert first + (Queue(a[1..], place, p) + Queue(b, place, p)) == (first + Queue(a[1..], place, p)) + Queue(b, place, p);
    }
  }

  lemma {:induction false} NobodyQueues<T>(waiting: seq<T>, place: T -> nat, p: nat)
    requires forall i :: 0 <= i < |waiting| ==> place(waiting[i]) != p
    ensures Queue(waiting, place, p) == []
  {
    if waiting != [] {
      NobodyQueues(waiting[1..], place, p);
    }
  }

  /** Then every queue is what it was, without that entry. */
  lemma QueueKept<T>(waiting: seq<T>, place: T -> nat, j: nat, p: nat)
    requires j < |waiting| && OrderKept(waiting, place, j)
    ensures Queue(Without(waiting, j), place, p) == Queue(waiting[..j], place, p) + Queue(waiting[j + 1..], place, p)
  {
    var last := |waiting| - 1;
    if j == last {
      assert Without(waiting, j) == waiting[..j] && waiting[j + 1..] == [];
    } else {
      var head, mid, y := waiting[..j], waiting[j + 1..last], waiting[last];
      OrderKeptIff(waiting, place, j);
      assert Without(waiting, j) == head + ([y] + mid) && waiting[j + 1..] == mid + [y];
      QueueConcat(head, [y] + mid, place, p);
      QueueConcat([y], mid, place, p);
      QueueConcat(mid, [y], place, p);
      if place(y) == p {
        NobodyQueues(mid, place, p);
      } else {
        NobodyQueues([y], place, p);
      }
    }
  }
}
