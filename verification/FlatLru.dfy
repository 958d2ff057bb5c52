/** The chunk cache (ublk/cache/flat_lru.hpp): a vector sorted by key whose entries carry an
    age, and what it has to do with a textbook LRU list. */
module FlatLru {
  import opened Arithmetic
  import opened Options

  /** An age equal to the cache's capacity marks an entry invalid. */
  datatype Entry<T> = Entry(key: nat, data: Option<T>, age: nat)

  datatype Pair<T> = Pair(key: nat, data: T)

  // ---------- The textbook ----------

  /** Most recently used first. */
  predicate Has<T>(l: seq<Pair<T>>, key: nat) {
    exists i :: 0 <= i < |l| && l[i].key == key
  }

  function Lookup<T>(l: seq<Pair<T>>, key: nat): (r: Option<T>)
    ensures r.Some? <==> Has(l, key)
  {
    if l == [] then None
    else if l[0].key == key then Some(l[0].data)
    else
      var r := Lookup(l[1..], key);
      assert r.Some? ==> exists i :: 0 <= i < |l[1..]| && l[1..][i].key == key && l[i + 1].key == key;
      assert forall i :: 0 < i < |l| ==> l[i] == l[1..][i - 1];
      r
  }

  /** The pairs whose key is not in [`lo`, `hi`). */
  function Outside<T>(l: seq<Pair<T>>, lo: nat, hi: nat): seq<Pair<T>> {
    if l == [] then []
    else (if lo <= l[0].key < hi then [] else [l[0]]) + Outside(l[1..], lo, hi)
  }

  function Drop<T>(l: seq<Pair<T>>, key: nat): seq<Pair<T>> {
    Outside(l, key, key + 1)
  }

  /** The list once `key` was used. */
  function Used<T>(l: seq<Pair<T>>, key: nat): seq<Pair<T>> {
    match Lookup(l, key)
    case Some(data) => [Pair(key, data)] + Drop(l, key)
    case None => l
  }

  /** The list once `data` was stored under `key`, with room for `max` pairs. */
  function Stored<T>(l: seq<Pair<T>>, max: nat, key: nat, data: T): seq<Pair<T>>
    requires max > 0
  {
    [Pair(key, data)] + if Has(l, key) then Drop(l, key) else if |l| < max then l else l[..max - 1]
  }

  /** What storing replaces or evicts. */
  function Evicted<T>(l: seq<Pair<T>>, max: nat, key: nat): Option<Pair<T>>
    requires max > 0
  {
    match Lookup(l, key)
    case Some(data) => Some(Pair(key, data))
    case None => if |l| < max then None else Some(l[max - 1])
  }

  // ---------- The vector ----------

  ghost predicate Sorted<T>(c: seq<Entry<T>>) {
    forall i, j :: 0 <= i < j < |c| ==> c[i].key < c[j].key
  }

  ghost predicate Ages<T>(c: seq<Entry<T>>, max: nat) {
    && (forall i :: 0 <= i < |c| ==> c[i].age <= max && (c[i].age < max ==> c[i].data.Some?))
    && (forall i, j :: 0 <= i < j < |c| && c[i].age < max ==> c[i].age != c[j].age)
  }

  ghost predicate Ok<T>(c: seq<Entry<T>>, max: nat) {
    max > 0 && |c| <= max && Sorted(c) && Ages(c, max)
  }

  function IndexOfAge<T>(c: seq<Entry<T>>, a: nat): (i: nat)
    ensures i <= |c| && (i < |c| ==> c[i].age == a)
    ensures forall j :: 0 <= j < i ==> c[j].age != a
  {
    if c == [] then 0 else if c[0].age == a then 0 else 1 + IndexOfAge(c[1..], a)
  }

  /** The pair of age `a`, if there is one. */
  function At<T>(c: seq<Entry<T>>, a: nat): seq<Pair<T>> {
    var i := IndexOfAge(c, a);
    Seen(c, i)
  }

  function Seen<T>(c: seq<Entry<T>>, i: nat): seq<Pair<T>> {
    if i < |c| && c[i].data.Some? then [Pair(c[i].key, c[i].data.value)] else []
  }

  /** The pairs of ages from `a` up to `b`, in that order. */
  function ByAge<T>(c: seq<Entry<T>>, a: nat, b: nat): seq<Pair<T>>
    decreases b - a
  {
    if a >= b then [] else At(c, a) + ByAge(c, a + 1, b)
  }

  /** What the cache holds, most recently used first. */
  function Recency<T>(c: seq<Entry<T>>, max: nat): seq<Pair<T>> { ByAge(c, 0, max) }

  // ---------- Ages ----------

  lemma AtIs<T>(c: seq<Entry<T>>, max: nat, i: nat)
    requires Ages(c, max) && i < |c| && c[i].age < max
    ensures At(c, c[i].age) == [Pair(c[i].key, c[i].data.value)]
  {
    var j := IndexOfAge(c, c[i].age);
    assert j == i;
  }

  lemma AtNone<T>(c: seq<Entry<T>>, a: nat)
    requires forall i :: 0 <= i < |c| ==> c[i].age != a
    ensures At(c, a) == []
  {
  }

  lemma IndexOfAgeIs<T>(c: seq<Entry<T>>, a: nat, i: nat)
    requires i <= |c| && (i < |c| ==> c[i].age == a) && forall j :: 0 <= j < i ==> c[j].age != a
    ensures IndexOfAge(c, a) == i
  {
    var j := IndexOfAge(c, a);
    assert j < |c| ==> c[j].age == a;
  }

  /** An entry of another age is not seen. */
  lemma AtSkips<T>(p: seq<Entry<T>>, x: Entry<T>, q: seq<Entry<T>>, a: nat)
    requires x.age != a
    ensures At(p + [x] + q, a) == At(p + q, a)
  {
    var c, r := p + [x] + q, p + q;
    var j := IndexOfAge(r, a);
    var i := if j < |p| then j else j + 1;
    forall n | 0 <= n < i ensures c[n].age != a {
      if n < |p| {
        assert c[n] == r[n];
      } else if n > |p| {
        assert c[n] == r[n - 1];
      }
    }
    IndexOfAgeIs(c, a, i);
  }

  /** What has age `x` in the one has the next age in the other. */
  ghost predicate Aged<T>(c: seq<Entry<T>>, c': seq<Entry<T>>, x: nat) {
    At(c', x + 1) == At(c, x)
  }

  lemma {:induction false} ByAgeAged<T>(c: seq<Entry<T>>, c': seq<Entry<T>>, a: nat, b: nat)
    requires forall x: nat :: a <= x < b ==> Aged(c, c', x)
    ensures ByAge(c', a + 1, b + 1) == ByAge(c, a, b)
    decreases b - a
  {
    if a < b {
      var n := a + 1;
      assert Aged(c, c', a);
      ByAgeAged(c, c', n, b);
      ByAgeStep(c, a, b);
      ByAgeStep(c', n, b + 1);
    }
  }

  lemma ByAgeStep<T>(c: seq<Entry<T>>, a: nat, b: nat)
    requires a < b
    ensures ByAge(c, a, b) == At(c, a) + ByAge(c, a + 1, b)
  {
  }

  lemma {:induction false} ByAgeKept<T>(c: seq<Entry<T>>, c': seq<Entry<T>>, a: nat, b: nat)
    requires forall x :: a <= x < b ==> At(c', x) == At(c, x)
    ensures ByAge(c', a, b) == ByAge(c, a, b)
    decreases b - a
  {
    if a < b {
      ByAgeKept(c, c', a + 1, b);
    }
  }

  lemma {:induction false} ByAgeSplit<T>(c: seq<Entry<T>>, a: nat, m: nat, b: nat)
    requires a <= m <= b
    ensures ByAge(c, a, b) == ByAge(c, a, m) + ByAge(c, m, b)
    decreases m - a
  {
    if a < m {
      ByAgeSplit(c, a + 1, m, b);
    }
  }

  /** Everything younger than entry `j` grows older by one, and the entry is the youngest. */
  function Touched<T>(c: seq<Entry<T>>, j: nat): (r: seq<Entry<T>>)
    requires j < |c|
    ensures |r| == |c|
  {
    seq(|c|, i requires 0 <= i < |c| =>
      if i == j then c[i].(age := 0) else if c[i].age < c[j].age then c[i].(age := c[i].age + 1) else c[i])
  }

  lemma TouchedAges<T>(c: seq<Entry<T>>, max: nat, j: nat)
    requires Ages(c, max) && max > 0 && j < |c| && c[j].data.Some?
    ensures Ages(Touched(c, j), max)
  {
  }

  lemma TouchedAt<T>(c: seq<Entry<T>>, max: nat, j: nat, a: nat)
    requires Ages(c, max) && j < |c| && c[j].data.Some? && a < max
    ensures a < c[j].age && a + 1 < max ==> At(Touched(c, j), a + 1) == At(c, a)
    ensures a > c[j].age ==> At(Touched(c, j), a) == At(c, a)
    ensures At(Touched(c, j), 0) == [Pair(c[j].key, c[j].data.value)]
  {
    var c' := Touched(c, j);
    TouchedAges(c, max, j);
    AtIs(c', max, j);
    var i := IndexOfAge(c, a);
    if i < |c| {
      AtIs(c, max, i);
      if c'[i].age < max {
        AtIs(c', max, i);
      }
    } else if a < c[j].age {
      if a + 1 < max {
        AtNone(c', a + 1);
      }
    } else {
      AtNone(c', a);
    }
  }

  /** The touched entry moves to the front; an entry that would grow as old as an invalid one
      drops off the end. */
  lemma TouchedRecency<T>(c: seq<Entry<T>>, max: nat, j: nat)
    requires Ages(c, max) && max > 0 && j < |c| && c[j].data.Some?
    ensures var t := c[j].age;
      Recency(Touched(c, j), max)
      == [Pair(c[j].key, c[j].data.value)] + if t < max then ByAge(c, 0, t) + ByAge(c, t + 1, max) else ByAge(c, 0, max - 1)
  {
    var t, c' := c[j].age, Touched(c, j);
    var m := if t < max then t else max - 1;
    TouchedAt(c, max, j, 0);
    Younger(c, max, j, m);
    Older(c, max, j);
    ByAgeSplit(c', 0, 1, max);
    ByAgeSplit(c', 1, m + 1, max);
    assert ByAge(c', 0, 1) == At(c', 0);
  }

  lemma {:induction false} Younger<T>(c: seq<Entry<T>>, max: nat, j: nat, m: nat)
    requires Ages(c, max) && max > 0 && j < |c| && c[j].data.Some? && m <= c[j].age && m < max
    ensures ByAge(Touched(c, j), 1, m + 1) == ByAge(c, 0, m)
  {
    forall a: nat | a < m ensures Aged(c, Touched(c, j), a) {
      TouchedAt(c, max, j, a);
    }
    ByAgeAged(c, Touched(c, j), 0, m);
  }

  lemma {:induction false} Older<T>(c: seq<Entry<T>>, max: nat, j: nat)
    requires Ages(c, max) && max > 0 && j < |c| && c[j].data.Some?
    ensures c[j].age < max ==> ByAge(Touched(c, j), c[j].age + 1, max) == ByAge(c, c[j].age + 1, max)
  {
    var t := c[j].age;
    forall a | t + 1 <= a < max ensures At(Touched(c, j), a) == At(c, a) {
      TouchedAt(c, max, j, a);
    }
    ByAgeKept(c, Touched(c, j), t + 1, max);
  }

  // ---------- Keys ----------

  ghost predicate NoKey<T>(l: seq<Pair<T>>, lo: nat, hi: nat) {
    forall i :: 0 <= i < |l| ==> !(lo <= l[i].key < hi)
  }

  lemma {:induction false} OutsideSame<T>(l: seq<Pair<T>>, lo: nat, hi: nat)
    requires NoKey(l, lo, hi)
    ensures Outside(l, lo, hi) == l
  {
    if l != [] {
      assert !(lo <= l[0].key < hi);
      OutsideSame(l[1..], lo, hi);
    }
  }

  lemma {:induction false} OutsideConcat<T>(l: seq<Pair<T>>, r: seq<Pair<T>>, lo: nat, hi: nat)
    ensures Outside(l + r, lo, hi) == Outside(l, lo, hi) + Outside(r, lo, hi)
  {
    var lr := l + r;
    if l == [] {
      assert lr == r;
    } else {
      assert lr[0] == l[0] && lr[1..] == l[1..] + r;
      var head := if lo <= l[0].key < hi then [] else [l[0]];
      OutsideConcat(l[1..], r, lo, hi);
      assert head + (Outside(l[1..], lo, hi) + Outside(r, lo, hi)) == (head + Outside(l[1..], lo, hi)) + Outside(r, lo, hi);
    }
  }

  lemma {:induction false} LookupSkips<T>(l: seq<Pair<T>>, r: seq<Pair<T>>, key: nat)
    requires NoKey(l, key, key + 1)
    ensures Lookup(l + r, key) == Lookup(r, key)
  {
    if l == [] {
      assert l + r == r;
    } else {
      assert (l + r)[1..] == l[1..] + r;
      assert !(key <= l[0].key < key + 1);
      LookupSkips(l[1..], r, key);
    }
  }

  /** Ages of entries with other keys show no such key. */
  lemma {:induction false} ByAgeAvoids<T>(c: seq<Entry<T>>, a: nat, b: nat, lo: nat, hi: nat)
    requires forall i :: 0 <= i < |c| && lo <= c[i].key < hi ==> !(a <= c[i].age < b)
    ensures NoKey(ByAge(c, a, b), lo, hi)
    decreases b - a
  {
    if a < b {
      ByAgeAvoids(c, a + 1, b, lo, hi);
    }
  }

  /** A valid entry's pair is in the list, and the only one of its key. */
  lemma HitRecency<T>(c: seq<Entry<T>>, max: nat, i: nat)
    requires Ok(c, max) && i < |c| && c[i].age < max
    ensures Lookup(Recency(c, max), c[i].key) == c[i].data
    ensures Drop(Recency(c, max), c[i].key) == ByAge(c, 0, c[i].age) + ByAge(c, c[i].age + 1, max)
  {
    AtIs(c, max, i);
    assert forall j :: 0 <= j < |c| && c[j].key == c[i].key ==> j == i;
    OnlyOf(c, max, Pair(c[i].key, c[i].data.value), c[i].age);
  }

  lemma OnlyOf<T>(c: seq<Entry<T>>, max: nat, p: Pair<T>, t: nat)
    requires t < max && At(c, t) == [p]
    requires forall j :: 0 <= j < |c| && c[j].key == p.key ==> c[j].age == t
    ensures Lookup(Recency(c, max), p.key) == Some(p.data)
    ensures Drop(Recency(c, max), p.key) == ByAge(c, 0, t) + ByAge(c, t + 1, max)
  {
    var l, r := ByAge(c, 0, t), ByAge(c, t + 1, max);
    AroundHit(c, max, p, t);
    HitList(l, p, r);
  }

  lemma AroundHit<T>(c: seq<Entry<T>>, max: nat, p: Pair<T>, t: nat)
    requires t < max && At(c, t) == [p]
    requires forall j :: 0 <= j < |c| && c[j].key == p.key ==> c[j].age == t
    ensures Recency(c, max) == ByAge(c, 0, t) + ([p] + ByAge(c, t + 1, max))
    ensures NoKey(ByAge(c, 0, t), p.key, p.key + 1) && NoKey(ByAge(c, t + 1, max), p.key, p.key + 1)
  {
    ByAgeSplit(c, 0, t, max);
    ByAgeAvoids(c, 0, t, p.key, p.key + 1);
    ByAgeAvoids(c, t + 1, max, p.key, p.key + 1);
  }

  lemma HitList<T>(l: seq<Pair<T>>, p: Pair<T>, r: seq<Pair<T>>)
    requires NoKey(l, p.key, p.key + 1) && NoKey(r, p.key, p.key + 1)
    ensures Lookup(l + ([p] + r), p.key) == Some(p.data)
    ensures Drop(l + ([p] + r), p.key) == l + r
  {
    var pr := [p] + r;
    assert pr[0] == p && pr[1..] == r;
    LookupSkips(l, pr, p.key);
    OutsideConcat(l, pr, p.key, p.key + 1);
    OutsideSame(l, p.key, p.key + 1);
    OutsideSame(r, p.key, p.key + 1);
    assert Outside(pr, p.key, p.key + 1) == r;
  }

  lemma MissRecency<T>(c: seq<Entry<T>>, max: nat, key: nat)
    requires forall i :: 0 <= i < |c| && c[i].key == key ==> c[i].age >= max
    ensures !Has(Recency(c, max), key) && Lookup(Recency(c, max), key) == None
  {
    ByAgeAvoids(c, 0, max, key, key + 1);
    assert NoKey(Recency(c, max), key, key + 1);
  }

  // ---------- Invalidation ----------

  ghost predicate Invalidated<T>(c: seq<Entry<T>>, c': seq<Entry<T>>, max: nat, lo: nat, hi: nat) {
    && |c'| == |c|
    && forall i :: 0 <= i < |c| ==> c'[i] == if lo <= c[i].key < hi then Entry(c[i].key, None, max) else c[i]
  }

  lemma InvalidatedOk<T>(c: seq<Entry<T>>, c': seq<Entry<T>>, max: nat, lo: nat, hi: nat)
    requires Ok(c, max) && Invalidated(c, c', max, lo, hi)
    ensures Ok(c', max) && Recency(c', max) == Outside(Recency(c, max), lo, hi)
  {
    InvalidatedIsOk(c, c', max, lo, hi);
    forall a | 0 <= a < max ensures At(c', a) == Outside(At(c, a), lo, hi) {
      InvalidatedAt(c, c', max, lo, hi, a);
    }
    OutsideByAge(c, c', lo, hi, 0, max);
  }

  lemma InvalidatedIsOk<T>(c: seq<Entry<T>>, c': seq<Entry<T>>, max: nat, lo: nat, hi: nat)
    requires Ok(c, max) && Invalidated(c, c', max, lo, hi)
    ensures Ok(c', max)
  {
  }

  lemma InvalidatedAt<T>(c: seq<Entry<T>>, c': seq<Entry<T>>, max: nat, lo: nat, hi: nat, a: nat)
    requires Ok(c, max) && Invalidated(c, c', max, lo, hi) && a < max
    ensures At(c', a) == Outside(At(c, a), lo, hi)
  {
    var i := IndexOfAge(c, a);
    if i < |c| {
      AtIs(c, max, i);
      if lo <= c[i].key < hi {
        AtNone(c', a);
      } else {
        AtIs(c', max, i);
      }
    } else {
      AtNone(c', a);
    }
  }

  lemma {:induction false} OutsideByAge<T>(c: seq<Entry<T>>, c': seq<Entry<T>>, lo: nat, hi: nat, a: nat, b: nat)
    requires forall x :: a <= x < b ==> At(c', x) == Outside(At(c, x), lo, hi)
    ensures ByAge(c', a, b) == Outside(ByAge(c, a, b), lo, hi)
    decreases b - a
  {
    if a < b {
      OutsideConcat(At(c, a), ByAge(c, a + 1, b), lo, hi);
      OutsideByAge(c, c', lo, hi, a + 1, b);
    }
  }

  // ---------- Storing ----------

  /** Slot `j` of `c'` is the one that changed: it holds `key` and `data`, at the age of the
      entry of `c` it replaces, or at age `max`. */
  ghost predicate Replaces<T>(c: seq<Entry<T>>, c': seq<Entry<T>>, max: nat, j: nat, key: nat, data: T) {
    && j < |c'| && c'[j].key == key && c'[j].data == Some(data)
    && forall a :: 0 <= a < max && a != c'[j].age ==> At(c', a) == At(c, a)
  }

  lemma StoredRecency<T>(c: seq<Entry<T>>, c': seq<Entry<T>>, max: nat, j: nat, key: nat, data: T)
    requires max > 0 && Ages(c', max) && Replaces(c, c', max, j, key, data)
    ensures var t := c'[j].age;
      Recency(Touched(c', j), max)
      == [Pair(key, data)] + if t < max then ByAge(c, 0, t) + ByAge(c, t + 1, max) else ByAge(c, 0, max - 1)
  {
    var t := c'[j].age;
    TouchedRecency(c', max, j);
    if t < max {
      ByAgeKept(c, c', 0, t);
      ByAgeKept(c, c', t + 1, max);
    } else {
      ByAgeKept(c, c', 0, max - 1);
    }
  }

  /** A slot overwritten in place. */
  lemma OverwrittenReplaces<T>(c: seq<Entry<T>>, max: nat, j: nat, key: nat, data: T)
    requires Ages(c, max) && j < |c|
    ensures var c' := c[j := Entry(key, Some(data), c[j].age)]; Ages(c', max) && Replaces(c, c', max, j, key, data)
  {
    var x := Entry(key, Some(data), c[j].age);
    var c' := c[j := x];
    forall a | 0 <= a < max && a != c[j].age ensures At(c', a) == At(c, a) {
      AtSkips(c[..j], x, c[j + 1..], a);
      AtSkips(c[..j], c[j], c[j + 1..], a);
      assert c' == c[..j] + [x] + c[j + 1..] && c == c[..j] + [c[j]] + c[j + 1..];
    }
  }

  lemma InsertedAges<T>(c: seq<Entry<T>>, max: nat, j: nat, x: Entry<T>)
    requires Ages(c, max) && j <= |c| && x.age <= max
    requires x.age < max ==> x.data.Some? && forall i :: 0 <= i < |c| ==> c[i].age != x.age
    ensures Ages(c[..j] + [x] + c[j..], max)
    ensures forall a :: 0 <= a < max && a != x.age ==> At(c[..j] + [x] + c[j..], a) == At(c, a)
  {
    var c' := c[..j] + [x] + c[j..];
    forall a | 0 <= a < max && a != x.age ensures At(c', a) == At(c, a) {
      AtSkips(c[..j], x, c[j..], a);
      assert c[..j] + c[j..] == c;
    }
    forall i | 0 <= i < |c'| && i != j ensures c'[i] == c[if i < j then i else i - 1] {
    }
  }

  lemma RemovedAges<T>(c: seq<Entry<T>>, max: nat, v: nat)
    requires Ages(c, max) && v < |c|
    ensures var rest := c[..v] + c[v + 1..];
      Ages(rest, max) && (c[v].age < max ==> forall i :: 0 <= i < |rest| ==> rest[i].age != c[v].age)
    ensures forall a :: 0 <= a < max && a != c[v].age ==> At(c[..v] + c[v + 1..], a) == At(c, a)
  {
    var rest := c[..v] + c[v + 1..];
    forall a | 0 <= a < max && a != c[v].age ensures At(rest, a) == At(c, a) {
      AtSkips(c[..v], c[v], c[v + 1..], a);
      assert c == c[..v] + [c[v]] + c[v + 1..];
    }
    forall i | 0 <= i < |rest| ensures rest[i] == c[if i < v then i else i + 1] {
    }
  }

  /** A fresh slot. */
  lemma InsertedReplaces<T>(c: seq<Entry<T>>, max: nat, j: nat, key: nat, data: T)
    requires Ages(c, max) && j <= |c|
    ensures var c' := c[..j] + [Entry(key, Some(data), max)] + c[j..]; Ages(c', max) && Replaces(c, c', max, j, key, data)
  {
    InsertedAges(c, max, j, Entry(key, Some(data), max));
  }

  /** A slot moved from `v` to `j`. */
  function Moved<T>(c: seq<Entry<T>>, v: nat, j: nat): (r: seq<Entry<T>>)
    requires v < |c| && j < |c|
    ensures |r| == |c| && r[j] == c[v]
  {
    var rest := c[..v] + c[v + 1..];
    rest[..j] + [c[v]] + rest[j..]
  }

  lemma MovedKeepsAges<T>(c: seq<Entry<T>>, max: nat, v: nat, j: nat)
    requires Ages(c, max) && v < |c| && j < |c|
    ensures Ages(Moved(c, v, j), max)
    ensures forall a :: 0 <= a < max && a != c[v].age ==> At(Moved(c, v, j), a) == At(c, a)
  {
    RemovedAges(c, max, v);
    InsertedAges(c[..v] + c[v + 1..], max, j, c[v]);
  }

  // ---------- Finding a slot ----------

  /** `std::ranges::lower_bound` by key. */
  function LowerBound<T>(c: seq<Entry<T>>, key: nat): (i: nat)
    ensures i <= |c| && (i < |c| ==> c[i].key >= key)
    ensures forall j :: 0 <= j < i ==> c[j].key < key
  {
    if c == [] || c[0].key >= key then 0 else 1 + LowerBound(c[1..], key)
  }

  lemma LowerBoundSplits<T>(c: seq<Entry<T>>, key: nat)
    requires Sorted(c)
    ensures forall j :: LowerBound(c, key) <= j < |c| ==> c[j].key >= key
    ensures forall j :: LowerBound(c, key) < j < |c| ==> c[j].key > key
  {
  }

  predicate Exact<T>(c: seq<Entry<T>>, max: nat, key: nat) {
    var i := LowerBound(c, key);
    i < |c| && c[i].key == key && c[i].age != max
  }

  /** A key is found exactly if a valid entry has it. */
  lemma ExactIsHas<T>(c: seq<Entry<T>>, max: nat, key: nat)
    requires Ok(c, max)
    ensures var l := Recency(c, max);
      && (Exact(c, max, key) <==> Has(l, key))
      && (Exact(c, max, key) ==> Lookup(l, key) == c[LowerBound(c, key)].data)
  {
    LowerBoundSplits(c, key);
    if Exact(c, max, key) {
      HitRecency(c, max, LowerBound(c, key));
    } else {
      MissRecency(c, max, key);
    }
  }

  /** The oldest entry, or an invalid one. */
  ghost predicate Evictable<T>(c: seq<Entry<T>>, max: nat, v: nat) {
    && v < |c|
    && (if c[v].age == max then forall i :: 0 <= i < v ==> c[i].age != max
        else forall i :: 0 <= i < |c| ==> c[i].age <= c[v].age < max)
  }

  function AgesOf<T>(c: seq<Entry<T>>): set<nat> { set i | 0 <= i < |c| :: c[i].age }

  lemma AgesOfMore<T>(c: seq<Entry<T>>, n: nat)
    requires |c| == n + 1
    ensures AgesOf(c) == AgesOf(c[..n]) + {c[n].age}
  {
    forall a | a in AgesOf(c) ensures a in AgesOf(c[..n]) + {c[n].age} {
      var i :| 0 <= i < |c| && c[i].age == a;
      if i < n {
        assert c[..n][i] == c[i];
      }
    }
    forall a | a in AgesOf(c[..n]) ensures a in AgesOf(c) {
      var i :| 0 <= i < n && c[..n][i].age == a;
      assert c[i] == c[..n][i];
    }
  }

  lemma {:induction false} AgesCount<T>(c: seq<Entry<T>>, max: nat)
    requires Ages(c, max) && forall i :: 0 <= i < |c| ==> c[i].age < max
    ensures |AgesOf(c)| == |c|
  {
    if c != [] {
      var n := |c| - 1;
      AgesCount(c[..n], max);
      AgesOfMore(c, n);
    }
  }

  /** A full cache of valid entries has one of each age. */
  lemma OldestIsLast<T>(c: seq<Entry<T>>, max: nat, v: nat)
    requires Ok(c, max) && |c| == max && Evictable(c, max, v)
    ensures c[v].age >= max - 1
  {
    if c[v].age < max - 1 {
      AgesCount(c, max);
      BelowCount(AgesOf(c), max - 1);
    }
  }

  /** Storing under a new key in a slot that is invalid, fresh or the oldest of a full cache. */
  lemma MissStored<T>(c: seq<Entry<T>>, c': seq<Entry<T>>, max: nat, j: nat, key: nat, data: T)
    requires Ok(c, max) && Ok(c', max) && Replaces(c, c', max, j, key, data) && c'[j].age >= max - 1
    ensures Recency(Touched(c', j), max) == [Pair(key, data)] + ByAge(c, 0, max - 1)
  {
    StoredRecency(c, c', max, j, key, data);
    assert ByAge(c, max, max) == [];
  }

  /** The slot of a key that is not cached, once it is there: `j` of the vector, whose keys
      stay sorted. */
  lemma MovedSorted<T>(c: seq<Entry<T>>, v: nat, lb: nat, key: nat, data: T)
    requires Sorted(c) && v < |c| && lb <= |c|
    requires (forall i :: 0 <= i < lb ==> c[i].key < key) && (forall i :: lb <= i < |c| ==> c[i].key > key)
    ensures var j: nat := if v < lb then lb - 1 else lb;
      j < |c| && Sorted(Put(Moved(c, v, j), j, key, data))
  {
    var j: nat := if v < lb then lb - 1 else lb;
    var rest := c[..v] + c[v + 1..];
    var x := Entry(key, Some(data), c[v].age);
    forall i | 0 <= i < |rest| ensures rest[i] == c[if i < v then i else i + 1] {
    }
    SortedAround(rest[..j], x, rest[j..]);
    assert Put(Moved(c, v, j), j, key, data) == rest[..j] + [x] + rest[j..];
  }

  lemma SortedAround<T>(p: seq<Entry<T>>, x: Entry<T>, q: seq<Entry<T>>)
    requires Sorted(p) && Sorted(q)
    requires (forall i :: 0 <= i < |p| ==> p[i].key < x.key) && (forall i :: 0 <= i < |q| ==> q[i].key > x.key)
    ensures Sorted(p + [x] + q)
  {
  }

  // ---------- Runs without invalidation ----------

  ghost predicate HasAge<T>(c: seq<Entry<T>>, a: nat) {
    exists i :: 0 <= i < |c| && c[i].age == a
  }

  /** The ages are exactly 0, 1, ... */
  ghost predicate Dense<T>(c: seq<Entry<T>>) {
    && (forall i :: 0 <= i < |c| ==> c[i].age < |c|)
    && (forall a :: 0 <= a < |c| ==> HasAge(c, a))
  }

  lemma {:induction false} DenseByAge<T>(c: seq<Entry<T>>, max: nat, a: nat, b: nat)
    requires Ok(c, max) && Dense(c) && a <= b <= |c|
    ensures |ByAge(c, a, b)| == b - a
    decreases b - a
  {
    if a < b {
      assert HasAge(c, a);
      var i :| 0 <= i < |c| && c[i].age == a;
      AtIs(c, max, i);
      DenseByAge(c, max, a + 1, b);
    }
  }

  lemma {:induction false} NoneOlder<T>(c: seq<Entry<T>>, a: nat, b: nat)
    requires forall i :: 0 <= i < |c| ==> c[i].age < a
    ensures ByAge(c, a, b) == []
    decreases b - a
  {
    if a < b {
      AtNone(c, a);
      NoneOlder(c, a + 1, b);
    }
  }

  /** Every rank is taken: the age of an entry is its rank in the list. */
  lemma AgeIsRank<T>(c: seq<Entry<T>>, max: nat, i: nat)
    requires Ok(c, max) && Dense(c) && i < |c|
    ensures |Recency(c, max)| == |c|
    ensures Recency(c, max)[c[i].age] == Pair(c[i].key, c[i].data.value)
  {
    var t := c[i].age;
    DenseByAge(c, max, 0, |c|);
    NoneOlder(c, |c|, max);
    ByAgeSplit(c, 0, |c|, max);
    ByAgeSplit(c, 0, t, max);
    DenseByAge(c, max, 0, t);
    AtIs(c, max, i);
  }

  lemma TouchedDense<T>(c: seq<Entry<T>>, max: nat, j: nat)
    requires Ages(c, max) && j < |c| <= max
    requires forall i :: 0 <= i < |c| && i != j ==> c[i].age < |c|
    requires forall a :: 0 <= a < |c| && a < c[j].age && a + 1 < |c| ==> HasAge(c, a)
    requires forall a :: c[j].age < a < |c| ==> HasAge(c, a)
    requires forall i :: 0 <= i < |c| && i != j && c[i].age < c[j].age ==> c[i].age + 1 < |c|
    ensures Dense(Touched(c, j))
  {
    var c' := Touched(c, j);
    forall a | 0 <= a < |c'| ensures HasAge(c', a) {
      if a == 0 {
        assert c'[j].age == 0;
      } else if a <= c[j].age {
        assert HasAge(c, a - 1);
        var i :| 0 <= i < |c| && c[i].age == a - 1;
        assert c'[i].age == a;
      } else {
        assert HasAge(c, a);
        var i :| 0 <= i < |c| && c[i].age == a;
        assert c'[i].age == a;
      }
    }
  }

  // ---------- Where a new pair goes ----------

  /** A pair no longer cached, or the oldest: what the replaced slot held. */
  ghost predicate Spent<T>(c: seq<Entry<T>>, max: nat, p: Pair<T>) {
    exists i :: 0 <= i < |c| && c[i].age + 1 >= max && c[i].key == p.key && c[i].data == Some(p.data)
  }

  /** Whose slot was taken, and what it held. */
  ghost predicate Took<T>(c: seq<Entry<T>>, max: nat, key: nat, age: nat, evicted: Option<Pair<T>>) {
    var lb := LowerBound(c, key);
    if Exact(c, max, key)
    then age == c[lb].age && c[lb].data.Some? && evicted == Some(Pair(key, c[lb].data.value))
    else age + 1 >= max && (evicted.Some? ==> Spent(c, max, evicted.value))
  }

  /** Without invalidation before, the slot is the textbook's. */
  ghost predicate TookTextbook<T>(c: seq<Entry<T>>, c': seq<Entry<T>>, max: nat, j: nat, key: nat, evicted: Option<Pair<T>>) {
    j < |c'| && max > 0 && (Dense(c) ==> Dense(Touched(c', j)) && evicted == Evicted(Recency(c, max), max, key))
  }

  /** Slot `j` of `c'` got the pair, still to be touched. */
  ghost predicate Placed<T>(c: seq<Entry<T>>, c': seq<Entry<T>>, max: nat, j: nat, key: nat, data: T, evicted: Option<Pair<T>>) {
    && Ok(c', max) && Replaces(c, c', max, j, key, data)
    && Took(c, max, key, c'[j].age, evicted)
    && TookTextbook(c, c', max, j, key, evicted)
  }

  function Prior<T>(e: Entry<T>): Option<Pair<T>> {
    if e.data.Some? then Some(Pair(e.key, e.data.value)) else None
  }

  function Put<T>(c: seq<Entry<T>>, j: nat, key: nat, data: T): (r: seq<Entry<T>>)
    requires j < |c|
    ensures |r| == |c|
  {
    c[j := Entry(key, Some(data), c[j].age)]
  }

  lemma PutDense<T>(c: seq<Entry<T>>, max: nat, j: nat, key: nat, data: T)
    requires Ok(c, max) && Dense(c) && j < |c|
    ensures Dense(Touched(Put(c, j, key, data), j))
  {
    OverwrittenReplaces(c, max, j, key, data);
    var c' := Put(c, j, key, data);
    forall i | 0 <= i < |c| ensures c'[i].age == c[i].age && HasAge(c, c'[i].age) && HasAge(c', c[i].age) {
    }
    SameAgesDense(c, c', max, j);
  }

  lemma SameAgesDense<T>(c: seq<Entry<T>>, c': seq<Entry<T>>, max: nat, j: nat)
    requires Dense(c) && Ages(c', max) && |c'| == |c| <= max && j < |c|
    requires forall i :: 0 <= i < |c'| ==> HasAge(c, c'[i].age)
    requires forall i :: 0 <= i < |c| ==> HasAge(c', c[i].age)
    ensures Dense(Touched(c', j))
  {
    forall i | 0 <= i < |c'| ensures c'[i].age < |c'| {
      assert HasAge(c, c'[i].age);
    }
    forall a | 0 <= a < |c| ensures HasAge(c', a) {
      assert HasAge(c, a);
    }
    TouchedDense(c', max, j);
  }

  lemma PlacedExact<T>(c: seq<Entry<T>>, max: nat, key: nat, data: T)
    requires Ok(c, max) && Exact(c, max, key)
    ensures var j := LowerBound(c, key);
      j < |c| && Placed(c, Put(c, j, key, data), max, j, key, data, Prior(c[j]))
  {
    var j := LowerBound(c, key);
    OverwrittenReplaces(c, max, j, key, data);
    assert Took(c, max, key, c[j].age, Prior(c[j]));
    assert TookTextbook(c, Put(c, j, key, data), max, j, key, Prior(c[j])) by {
      ExactIsHas(c, max, key);
      if Dense(c) {
        PutDense(c, max, j, key, data);
      }
    }
  }

  /** The slot at the key's place is invalid: it is used, whatever key it had. */
  lemma PlacedInvalid<T>(c: seq<Entry<T>>, max: nat, key: nat, data: T)
    requires Ok(c, max) && LowerBound(c, key) < |c| && c[LowerBound(c, key)].age == max
    ensures var j := LowerBound(c, key); Placed(c, Put(c, j, key, data), max, j, key, data, Prior(c[j]))
  {
    var j := LowerBound(c, key);
    OverwrittenReplaces(c, max, j, key, data);
    LowerBoundSplits(c, key);
    assert Sorted(Put(c, j, key, data));
    assert Took(c, max, key, max, Prior(c[j]));
  }

  function Inserted<T>(c: seq<Entry<T>>, j: nat, x: Entry<T>): (r: seq<Entry<T>>)
    requires j <= |c|
    ensures |r| == |c| + 1 && r[j] == x
    ensures forall i :: 0 <= i < |c| ==> r[if i < j then i else i + 1] == c[i]
  {
    c[..j] + [x] + c[j..]
  }

  lemma InsertedDense<T>(c: seq<Entry<T>>, max: nat, j: nat, x: Entry<T>)
    requires Dense(c) && j <= |c| < max && x.age == max && Ages(Inserted(c, j, x), max)
    ensures Dense(Touched(Inserted(c, j, x), j))
  {
    var c' := Inserted(c, j, x);
    forall i | 0 <= i < |c'| && i != j ensures c'[i].age < |c| {
      assert c'[i] == c[if i < j then i else i - 1];
    }
    forall a | 0 <= a < |c| ensures HasAge(c', a) {
      assert HasAge(c, a);
      var i :| 0 <= i < |c| && c[i].age == a;
      assert c'[if i < j then i else i + 1] == c[i];
    }
    TouchedDense(c', max, j);
  }

  lemma PlacedFresh<T>(c: seq<Entry<T>>, max: nat, key: nat, data: T)
    requires Ok(c, max) && |c| < max && !Exact(c, max, key)
    requires LowerBound(c, key) < |c| ==> c[LowerBound(c, key)].age < max
    ensures var j := LowerBound(c, key);
      Placed(c, Inserted(c, j, Entry(key, Some(data), max)), max, j, key, data, None)
  {
    var j, x := LowerBound(c, key), Entry(key, Some(data), max);
    InsertedReplaces(c, max, j, key, data);
    InsertedSorted(c, max, key, x);
    assert TookTextbook(c, Inserted(c, j, x), max, j, key, None) by {
      ExactIsHas(c, max, key);
      if Dense(c) {
        InsertedDense(c, max, j, x);
        FullOrNot(c, max);
      }
    }
  }

  lemma InsertedSorted<T>(c: seq<Entry<T>>, max: nat, key: nat, x: Entry<T>)
    requires Sorted(c) && !Exact(c, max, key) && x.key == key
    requires LowerBound(c, key) < |c| ==> c[LowerBound(c, key)].age < max
    ensures Sorted(Inserted(c, LowerBound(c, key), x))
  {
    var j := LowerBound(c, key);
    LowerBoundSplits(c, key);
    SortedAround(c[..j], x, c[j..]);
  }

  lemma FullOrNot<T>(c: seq<Entry<T>>, max: nat)
    requires Ok(c, max) && Dense(c)
    ensures |Recency(c, max)| == |c|
  {
    if c == [] {
      NoneOlder(c, 0, max);
    } else {
      AgeIsRank(c, max, 0);
    }
  }

  /** The full cache: the slot of the oldest, or of an invalid entry, moves to the key's place. */
  lemma PlacedFull<T>(c: seq<Entry<T>>, max: nat, v: nat, key: nat, data: T)
    requires Ok(c, max) && |c| == max && !Exact(c, max, key) && Evictable(c, max, v)
    requires LowerBound(c, key) < |c| ==> c[LowerBound(c, key)].age < max
    ensures var lb := LowerBound(c, key);
      var j: nat := if v < lb then lb - 1 else lb;
      j < |c| && Placed(c, Put(Moved(c, v, j), j, key, data), max, j, key, data, Prior(c[v]))
  {
    var lb := LowerBound(c, key);
    var j: nat := if v < lb then lb - 1 else lb;
    LowerBoundSplits(c, key);
    MovedSorted(c, v, lb, key, data);
    MovedReplaces(c, max, v, j, key, data);
    OldestIsLast(c, max, v);
    FullTextbook(c, max, v, j, key, data);
    assert c[v].data.Some? ==> Spent(c, max, Pair(c[v].key, c[v].data.value));
  }

  lemma FullTextbook<T>(c: seq<Entry<T>>, max: nat, v: nat, j: nat, key: nat, data: T)
    requires Ok(c, max) && |c| == max && !Exact(c, max, key) && Evictable(c, max, v) && j < |c|
    ensures TookTextbook(c, Put(Moved(c, v, j), j, key, data), max, j, key, Prior(c[v]))
  {
    ExactIsHas(c, max, key);
    OldestIsLast(c, max, v);
    if Dense(c) {
      AgeIsRank(c, max, v);
      MovedDense(c, max, v, j, key, data);
    }
  }

  lemma MovedReplaces<T>(c: seq<Entry<T>>, max: nat, v: nat, j: nat, key: nat, data: T)
    requires Ages(c, max) && v < |c| && j < |c|
    ensures Ages(Put(Moved(c, v, j), j, key, data), max)
    ensures Replaces(c, Put(Moved(c, v, j), j, key, data), max, j, key, data)
  {
    MovedKeepsAges(c, max, v, j);
    OverwrittenReplaces(Moved(c, v, j), max, j, key, data);
  }

  lemma MovedDense<T>(c: seq<Entry<T>>, max: nat, v: nat, j: nat, key: nat, data: T)
    requires Ages(c, max) && Dense(c) && v < |c| <= max && j < |c|
    ensures Dense(Touched(Put(Moved(c, v, j), j, key, data), j))
  {
    var rest := c[..v] + c[v + 1..];
    var m := Put(Moved(c, v, j), j, key, data);
    forall i | 0 <= i < |m| ensures HasAge(c, m[i].age) {
      if i != j {
        var n := if i < j then i else i - 1;
        assert m[i] == rest[n] == c[if n < v then n else n + 1];
      }
    }
    forall i | 0 <= i < |c| ensures HasAge(m, c[i].age) {
      if i == v {
        assert m[j].age == c[v].age;
      } else {
        var n := if i < v then i else i - 1;
        assert rest[n] == c[i] && m[if n < j then n else n + 1] == rest[n];
      }
    }
    MovedReplaces(c, max, v, j, key, data);
    SameAgesDense(c, m, max, j);
  }

  /** The four ways a pair gets its slot. */
  ghost predicate Chosen<T>(c: seq<Entry<T>>, c': seq<Entry<T>>, max: nat, v: nat, j: nat, key: nat, data: T, evicted: Option<Pair<T>>) {
    var lb := LowerBound(c, key);
    if Exact(c, max, key) || (lb < |c| && c[lb].age == max) then
      j == lb && lb < |c| && c' == Put(c, lb, key, data) && evicted == Prior(c[lb])
    else if |c| < max then
      j == lb && c' == Inserted(c, lb, Entry(key, Some(data), max)) && evicted == None
    else
      && Evictable(c, max, v) && j == (if v < lb then lb - 1 else lb) && j < |c|
      && c' == Put(Moved(c, v, j), j, key, data) && evicted == Prior(c[v])
  }

  lemma PlacedByCases<T>(c: seq<Entry<T>>, c': seq<Entry<T>>, max: nat, v: nat, j: nat, key: nat, data: T, evicted: Option<Pair<T>>)
    requires Ok(c, max) && Chosen(c, c', max, v, j, key, data, evicted)
    ensures Placed(c, c', max, j, key, data, evicted)
  {
    var lb := LowerBound(c, key);
    if Exact(c, max, key) {
      PlacedExact(c, max, key, data);
    } else if lb < |c| && c[lb].age == max {
      PlacedInvalid(c, max, key, data);
    } else {
      PlacedNew(c, c', max, v, j, key, data, evicted);
    }
  }

  lemma PlacedNew<T>(c: seq<Entry<T>>, c': seq<Entry<T>>, max: nat, v: nat, j: nat, key: nat, data: T, evicted: Option<Pair<T>>)
    requires Ok(c, max) && Chosen(c, c', max, v, j, key, data, evicted) && !Exact(c, max, key)
    requires LowerBound(c, key) < |c| ==> c[LowerBound(c, key)].age < max
    ensures Placed(c, c', max, j, key, data, evicted)
  {
    if |c| < max {
      PlacedFresh(c, max, key, data);
    } else {
      PlacedFull(c, max, v, key, data);
    }
  }

  // ---------- The result of an update ----------

  /** Storing, for every cache, however many entries were invalidated before: what was cached
      stays, but for the pair replaced, and for one that reached the last age. */
  lemma PlacedRecency<T>(c: seq<Entry<T>>, c': seq<Entry<T>>, max: nat, j: nat, key: nat, data: T, evicted: Option<Pair<T>>)
    requires Ok(c, max) && Placed(c, c', max, j, key, data, evicted)
    ensures Recency(Touched(c', j), max)
         == [Pair(key, data)] + if Has(Recency(c, max), key) then Drop(Recency(c, max), key) else ByAge(c, 0, max - 1)
  {
    ExactIsHas(c, max, key);
    if Exact(c, max, key) {
      HitRecency(c, max, LowerBound(c, key));
      StoredRecency(c, c', max, j, key, data);
    } else {
      MissStored(c, c', max, j, key, data);
    }
  }

  lemma {:induction false} ByAgeLength<T>(c: seq<Entry<T>>, a: nat, b: nat)
    requires a <= b
    ensures |ByAge(c, a, b)| <= b - a
    decreases b - a
  {
    if a < b {
      ByAgeLength(c, a + 1, b);
    }
  }

  /** Storing a new key is what the textbook says exactly if the cache is full of valid entries
      or no entry has reached the last age.  Otherwise a pair is lost for which there was room. */
  lemma StoringIsTextbook<T>(c: seq<Entry<T>>, max: nat, key: nat, data: T)
    requires Ok(c, max) && !Has(Recency(c, max), key)
    ensures [Pair(key, data)] + ByAge(c, 0, max - 1) == Stored(Recency(c, max), max, key, data)
       <==> |Recency(c, max)| >= max || !HasAge(c, max - 1)
  {
    var l := Recency(c, max);
    ByAgeSplit(c, 0, max - 1, max);
    assert ByAge(c, max, max) == [];
    assert l == ByAge(c, 0, max - 1) + At(c, max - 1);
    ByAgeLength(c, 0, max - 1);
    if HasAge(c, max - 1) {
      var i :| 0 <= i < |c| && c[i].age == max - 1;
      AtIs(c, max, i);
    } else {
      AtNone(c, max - 1);
    }
    assert |[Pair(key, data)] + ByAge(c, 0, max - 1)| == 1 + |ByAge(c, 0, max - 1)|;
    assert |l| >= max ==> l[..max - 1] == ByAge(c, 0, max - 1);
  }

  /** What is left of the list when the last age drops off: all of it, or all but its last pair. */
  lemma AtMostTheOldestGoes<T>(c: seq<Entry<T>>, max: nat)
    requires Ok(c, max)
    ensures var l := Recency(c, max);
      if HasAge(c, max - 1) then l != [] && ByAge(c, 0, max - 1) == l[..|l| - 1] else ByAge(c, 0, max - 1) == l
  {
    ByAgeSplit(c, 0, max - 1, max);
    assert ByAge(c, max, max) == [];
    if HasAge(c, max - 1) {
      var i :| 0 <= i < |c| && c[i].age == max - 1;
      AtIs(c, max, i);
    } else {
      AtNone(c, max - 1);
    }
  }

  // ---------- When an update is the textbook's ----------

  /** The slot an update of a key that is not cached takes holds no pair. */
  predicate SlotIsEmpty<T>(c: seq<Entry<T>>, max: nat, key: nat) {
    var lb, v := LowerBound(c, key), IndexOfAge(c, max);
    if lb < |c| && c[lb].age == max then c[lb].data.None?
    else |c| < max || (v < |c| && c[v].data.None?)
  }

  /** The key is cached, or the cache is full of valid entries, or neither is there an entry of
      the last age to lose nor a stale pair to hand back. */
  ghost predicate TextbookGuard<T>(c: seq<Entry<T>>, max: nat, key: nat)
    requires max > 0
  {
    Has(Recency(c, max), key) || |Recency(c, max)| >= max || (!HasAge(c, max - 1) && SlotIsEmpty(c, max, key))
  }

  lemma {:induction false} AgesAtMost<T>(c: seq<Entry<T>>)
    ensures |AgesOf(c)| <= |c|
  {
    if c != [] {
      var rest, last := c[..|c| - 1], c[|c| - 1];
      AgesAtMost(rest);
      assert AgesOf(c) == AgesOf(rest) + {last.age} by {
        assert forall i :: 0 <= i < |rest| ==> c[i] == rest[i];
      }
    }
  }

  function AgesWithin<T>(c: seq<Entry<T>>, a: nat, b: nat): set<nat> { set x | x in AgesOf(c) && a <= x < b }

  lemma {:induction false} ByAgeCount<T>(c: seq<Entry<T>>, a: nat, b: nat)
    requires a <= b
    ensures |ByAge(c, a, b)| <= |AgesWithin(c, a, b)|
    decreases b - a
  {
    if a < b {
      ByAgeCount(c, a + 1, b);
      var older := AgesWithin(c, a + 1, b);
      if At(c, a) != [] {
        assert c[IndexOfAge(c, a)].age == a;
        SubsetCount(older + {a}, AgesWithin(c, a, b));
      } else {
        SubsetCount(older, AgesWithin(c, a, b));
      }
    }
  }

  lemma {:induction false} SubsetCount(s: set<nat>, t: set<nat>)
    requires s <= t
    ensures |s| <= |t|
  {
    if s != {} {
      var x :| x in s;
      SubsetCount(s - {x}, t - {x});
    }
  }

  /** As many pairs as there is room for means that every slot is in use and valid. */
  lemma FullIsValid<T>(c: seq<Entry<T>>, max: nat)
    requires Ok(c, max) && |Recency(c, max)| >= max
    ensures |c| == max && forall i :: 0 <= i < |c| ==> c[i].age < max
  {
    ByAgeCount(c, 0, max);
    AgesAtMost(c);
    forall i | 0 <= i < |c| ensures c[i].age < max {
      if c[i].age == max {
        SubsetCount(AgesWithin(c, 0, max), AgesOf(c) - {max});
      }
    }
    SubsetCount(AgesWithin(c, 0, max), AgesOf(c));
  }

  /** The pair a full cache hands back is the last of the list. */
  lemma FullHandsBackTheLast<T>(c: seq<Entry<T>>, max: nat, v: nat)
    requires Ok(c, max) && |Recency(c, max)| >= max && Evictable(c, max, v)
    ensures |Recency(c, max)| == max && Prior(c[v]) == Some(Recency(c, max)[max - 1])
  {
    FullIsValid(c, max);
    OldestIsLast(c, max, v);
    AtIs(c, max, v);
    ByAgeSplit(c, 0, max - 1, max);
    assert ByAge(c, max, max) == [];
    ByAgeLength(c, 0, max - 1);
  }

  /** What is handed back for a key that is not cached is what the textbook says. */
  lemma HandedBack<T>(c: seq<Entry<T>>, c': seq<Entry<T>>, max: nat, v: nat, j: nat, key: nat, data: T, evicted: Option<Pair<T>>)
    requires Ok(c, max) && Chosen(c, c', max, v, j, key, data, evicted) && !Has(Recency(c, max), key)
    ensures evicted == Evicted(Recency(c, max), max, key) <==> |Recency(c, max)| >= max || SlotIsEmpty(c, max, key)
  {
    ExactIsHas(c, max, key);
    var lb := LowerBound(c, key);
    if |Recency(c, max)| >= max {
      FullIsValid(c, max);
      FullHandsBackTheLast(c, max, v);
    } else if !(lb < |c| && c[lb].age == max) && |c| >= max {
      FullVictim(c, max, v);
    }
  }

  lemma {:induction false} AllBelow(s: set<nat>, n: nat)
    requires |s| == n && forall x :: x in s ==> x < n
    ensures forall a :: 0 <= a < n ==> a in s
  {
    if n > 0 {
      if n - 1 !in s {
        BelowCount(s, n - 1);
      }
      AllBelow(s - {n - 1}, n - 1);
    }
  }

  /** A vector as long as it may get, of valid entries only, holds as many pairs. */
  lemma AllValidIsFull<T>(c: seq<Entry<T>>, max: nat)
    requires Ok(c, max) && |c| == max && forall i :: 0 <= i < |c| ==> c[i].age < max
    ensures |Recency(c, max)| == max
  {
    AgesCount(c, max);
    AllBelow(AgesOf(c), max);
    forall a | 0 <= a < |c| ensures HasAge(c, a) {
      assert a in AgesOf(c);
    }
    FullOrNot(c, max);
  }

  lemma FullVictim<T>(c: seq<Entry<T>>, max: nat, v: nat)
    requires Ok(c, max) && |c| == max && |Recency(c, max)| < max && Evictable(c, max, v)
    ensures IndexOfAge(c, max) == v
  {
    if c[v].age < max {
      AllValidIsFull(c, max);
    }
    IndexOfAgeIs(c, max, v);
  }

  /** An update is what the textbook says, of the list and of the pair handed back, exactly if
      the guard holds. */
  lemma UpdateIsTextbookIff<T>(c: seq<Entry<T>>, c': seq<Entry<T>>, max: nat, v: nat, j: nat, key: nat, data: T, evicted: Option<Pair<T>>)
    requires Ok(c, max) && Chosen(c, c', max, v, j, key, data, evicted) && j < |c'|
    ensures UpdatesAsTextbook(c, Touched(c', j), max, key, data, evicted) <==> TextbookGuard(c, max, key)
  {
    PlacedByCases(c, c', max, v, j, key, data, evicted);
    PlacedRecency(c, c', max, j, key, data, evicted);
    ExactIsHas(c, max, key);
    if !Has(Recency(c, max), key) {
      StoringIsTextbook(c, max, key, data);
      HandedBack(c, c', max, v, j, key, data, evicted);
    }
  }

  /** Without invalidation it always is. */
  lemma DenseStoring<T>(c: seq<Entry<T>>, max: nat, key: nat, data: T)
    requires Ok(c, max) && Dense(c)
    ensures Stored(Recency(c, max), max, key, data)
         == [Pair(key, data)] + if Has(Recency(c, max), key) then Drop(Recency(c, max), key) else ByAge(c, 0, max - 1)
  {
    if !Has(Recency(c, max), key) {
      FullOrNot(c, max);
      StoringIsTextbook(c, max, key, data);
    }
  }

  /** The trap: three pairs, the middle one invalidated; storing its key again silently loses
      a pair although only two were cached. */
  lemma InvalidationLosesAPair(c: seq<Entry<int>>)
    requires |c| == 3 && c[0] == Entry(1, Some(10), 0) && c[1] == Entry(2, None, 3) && c[2] == Entry(3, Some(30), 2)
    ensures Ok(c, 3) && Recency(c, 3) == [Pair(1, 10), Pair(3, 30)]
    ensures Recency(Touched(Put(c, 1, 2, 20), 1), 3) == [Pair(2, 20), Pair(1, 10)]
  {
    Three(c, 0, 3, 2);
    StoredAgain(c);
    Three([Entry(1, Some(10), 1), Entry(2, Some(20), 0), Entry(3, Some(30), 3)], 1, 0, 3);
  }

  lemma StoredAgain(c: seq<Entry<int>>)
    requires |c| == 3 && c[0] == Entry(1, Some(10), 0) && c[1] == Entry(2, None, 3) && c[2] == Entry(3, Some(30), 2)
    ensures Touched(Put(c, 1, 2, 20), 1) == [Entry(1, Some(10), 1), Entry(2, Some(20), 0), Entry(3, Some(30), 3)]
  {
    assert Put(c, 1, 2, 20) == [Entry(1, Some(10), 0), Entry(2, Some(20), 3), Entry(3, Some(30), 2)];
  }

  lemma ThreeParts<T>(x: seq<Pair<T>>, y: seq<Pair<T>>, z: seq<Pair<T>>)
    ensures x + (y + (z + [])) == x + y + z
  {
  }

  lemma Three<T>(c: seq<Entry<T>>, i: nat, j: nat, k: nat)
    requires i <= |c| && (i < |c| ==> c[i].age == 0) && forall n :: 0 <= n < i ==> c[n].age != 0
    requires j <= |c| && (j < |c| ==> c[j].age == 1) && forall n :: 0 <= n < j ==> c[n].age != 1
    requires k <= |c| && (k < |c| ==> c[k].age == 2) && forall n :: 0 <= n < k ==> c[n].age != 2
    ensures Recency(c, 3) == Seen(c, i) + Seen(c, j) + Seen(c, k)
  {
    IndexOfAgeIs(c, 0, i);
    IndexOfAgeIs(c, 1, j);
    IndexOfAgeIs(c, 2, k);
    ByAgeStep(c, 2, 3);
    ByAgeStep(c, 1, 3);
    ByAgeStep(c, 0, 3);
    ThreeParts(At(c, 0), At(c, 1), At(c, 2));
  }

  /** Storing a pair on any history: it comes first, what it replaces goes and is handed back,
      and at most one other pair is lost, the oldest (`AtMostTheOldestGoes`); nothing still cached
      is handed back. */
  ghost predicate Updates<T>(c: seq<Entry<T>>, c': seq<Entry<T>>, max: nat, key: nat, data: T, evicted: Option<Pair<T>>) {
    && max > 0
    && Recency(c', max) == [Pair(key, data)] +
         (if Has(Recency(c, max), key) then Drop(Recency(c, max), key) else ByAge(c, 0, max - 1))
    && match Lookup(Recency(c, max), key)
       case Some(was) => evicted == Some(Pair(key, was))
       case None => (evicted.Some? ==> Spent(c, max, evicted.value))
  }

  /** Storing a pair as in the textbook. */
  ghost predicate UpdatesAsTextbook<T>(c: seq<Entry<T>>, c': seq<Entry<T>>, max: nat, key: nat, data: T, evicted: Option<Pair<T>>) {
    && max > 0
    && Recency(c', max) == Stored(Recency(c, max), max, key, data)
    && evicted == Evicted(Recency(c, max), max, key)
  }

  // ---------- Which pairs are cached ----------

  /** Nothing but pairs of `l` is left. */
  ghost predicate Kept<T>(l: seq<Pair<T>>, l': seq<Pair<T>>) {
    forall p :: p in l' ==> p in l
  }

  /** The same keys are cached. */
  ghost predicate SameKeys<T>(l: seq<Pair<T>>, l': seq<Pair<T>>) {
    forall key: nat :: Has(l, key) <==> Has(l', key)
  }

  /** The pair came in, all others were there before, under other keys. */
  ghost predicate Gained<T>(l: seq<Pair<T>>, l': seq<Pair<T>>, key: nat, data: T) {
    && Pair(key, data) in l'
    && forall p :: p in l' ==> p == Pair(key, data) || (p in l && p.key != key)
  }

  lemma HeadOrTail<T>(l: seq<Pair<T>>)
    requires l != []
    ensures forall p :: p in l <==> p == l[0] || p in l[1..]
  {
    assert l == [l[0]] + l[1..];
  }

  lemma {:induction false} OutsideMember<T>(l: seq<Pair<T>>, lo: nat, hi: nat, p: Pair<T>)
    ensures p in Outside(l, lo, hi) <==> p in l && !(lo <= p.key < hi)
  {
    if l != [] {
      HeadOrTail(l);
      OutsideMember(l[1..], lo, hi, p);
      var head := if lo <= l[0].key < hi then [] else [l[0]];
      assert p in head <==> p == l[0] && !(lo <= p.key < hi);
    }
  }

  lemma {:induction false} LookupIsMember<T>(l: seq<Pair<T>>, key: nat)
    ensures Lookup(l, key).Some? ==> Pair(key, Lookup(l, key).value) in l
    ensures Lookup(l, key).None? ==> forall p :: p in l ==> p.key != key
  {
    if l != [] {
      HeadOrTail(l);
      LookupIsMember(l[1..], key);
      assert l[0].key == key ==> Pair(key, l[0].data) == l[0];
    }
  }

  lemma FirstOrRest<T>(l: seq<Pair<T>>, x: Pair<T>, r: seq<Pair<T>>)
    requires l == [x] + r
    ensures forall p :: p in l <==> p == x || p in r
  {
    assert l[0] == x && l[1..] == r;
    HeadOrTail(l);
  }

  lemma UsedIsKept<T>(l: seq<Pair<T>>, key: nat)
    ensures Kept(l, Used(l, key))
  {
    LookupIsMember(l, key);
    var data := Lookup(l, key);
    if data.Some? {
      FirstOrRest(Used(l, key), Pair(key, data.value), Drop(l, key));
      forall p | p in Used(l, key) ensures p in l {
        OutsideMember(l, key, key + 1, p);
      }
    }
  }

  lemma HasMember<T>(l: seq<Pair<T>>, key: nat)
    ensures Has(l, key) <==> exists p :: p in l && p.key == key
  {
    LookupIsMember(l, key);
  }

  /** Using a key takes no key out. */
  lemma UsedSameKeys<T>(l: seq<Pair<T>>, key: nat)
    ensures SameKeys(l, Used(l, key))
  {
    var data := Lookup(l, key);
    if data.Some? {
      var l' := Used(l, key);
      FirstOrRest(l', Pair(key, data.value), Drop(l, key));
      forall k: nat ensures Has(l, k) <==> Has(l', k) {
        if k == key {
          assert l'[0].key == key;
        } else {
          KeyNotDropped(l, key, k);
          HasMember(l', k);
          HasMember(Drop(l, key), k);
        }
      }
    }
  }

  lemma KeyNotDropped<T>(l: seq<Pair<T>>, key: nat, k: nat)
    requires k != key
    ensures Has(Drop(l, key), k) <==> Has(l, k)
  {
    var d := Drop(l, key);
    if Has(l, k) {
      var i :| 0 <= i < |l| && l[i].key == k;
      OutsideMember(l, key, key + 1, l[i]);
      var j :| 0 <= j < |d| && d[j] == l[i];
    }
    if Has(d, k) {
      var j :| 0 <= j < |d| && d[j].key == k;
      OutsideMember(l, key, key + 1, d[j]);
      var i :| 0 <= i < |l| && l[i] == d[j];
    }
  }

  lemma UpdatesIsGained<T>(c: seq<Entry<T>>, c': seq<Entry<T>>, max: nat, key: nat, data: T, evicted: Option<Pair<T>>)
    requires Updates(c, c', max, key, data, evicted)
    ensures Gained(Recency(c, max), Recency(c', max), key, data)
    ensures Lookup(Recency(c', max), key) == Some(data)
  {
    var l := Recency(c, max);
    var rest := if Has(l, key) then Drop(l, key) else ByAge(c, 0, max - 1);
    RestIsOther(c, max, key);
    FirstOrRest(Recency(c', max), Pair(key, data), rest);
    assert Recency(c', max)[0] == Pair(key, data);
  }

  /** The pair came first, and of the others at most the oldest went. */
  ghost predicate CameFirst<T>(l: seq<Pair<T>>, l': seq<Pair<T>>, key: nat, data: T) {
    && l' != [] && l'[0] == Pair(key, data)
    && if Has(l, key) then l'[1..] == Drop(l, key) else l'[1..] == l || (l != [] && l'[1..] == l[..|l| - 1])
  }

  lemma UpdatesComesFirst<T>(c: seq<Entry<T>>, c': seq<Entry<T>>, max: nat, key: nat, data: T, evicted: Option<Pair<T>>)
    requires Ok(c, max) && Updates(c, c', max, key, data, evicted)
    ensures CameFirst(Recency(c, max), Recency(c', max), key, data)
  {
    AtMostTheOldestGoes(c, max);
  }

  /** Of the other keys' pairs at most the oldest went. */
  ghost predicate OthersStay<T>(l: seq<Pair<T>>, l': seq<Pair<T>>, key: nat) {
    var d, d' := Drop(l, key), Drop(l', key);
    d' == d || (d != [] && d' == d[..|d| - 1])
  }

  lemma {:induction false} DropNone<T>(l: seq<Pair<T>>, key: nat)
    requires !Has(l, key)
    ensures Drop(l, key) == l
  {
    if l != [] {
      assert l[0].key != key;
      forall i | 0 <= i < |l[1..]| ensures l[1..][i].key != key {
        assert l[1..][i] == l[i + 1];
      }
      DropNone(l[1..], key);
      assert l == [l[0]] + l[1..];
    }
  }

  lemma DropTwice<T>(l: seq<Pair<T>>, key: nat)
    ensures Drop(Drop(l, key), key) == Drop(l, key)
  {
    var d := Drop(l, key);
    forall i | 0 <= i < |d| ensures d[i].key != key {
      OutsideMember(l, key, key + 1, d[i]);
    }
    DropNone(d, key);
  }

  lemma DropFirst<T>(l: seq<Pair<T>>, p: Pair<T>)
    ensures Drop([p] + l, p.key) == Drop(l, p.key)
  {
    assert ([p] + l)[1..] == l;
  }

  lemma CameFirstStays<T>(l: seq<Pair<T>>, l': seq<Pair<T>>, key: nat, data: T)
    requires CameFirst(l, l', key, data)
    ensures OthersStay(l, l', key)
  {
    var rest := l'[1..];
    assert l' == [Pair(key, data)] + rest;
    DropFirst(rest, Pair(key, data));
    if Has(l, key) {
      DropTwice(l, key);
    } else {
      DropNone(l, key);
      assert forall i :: 0 <= i < |rest| ==> rest[i] == l[i];
      DropNone(rest, key);
    }
  }

  /** Using or dropping a key is nothing to the others. */
  lemma UsedStays<T>(l: seq<Pair<T>>, key: nat)
    ensures Drop(Used(l, key), key) == Drop(l, key) && OthersStay(l, Used(l, key), key)
  {
    if Lookup(l, key).Some? {
      DropFirst(Drop(l, key), Pair(key, Lookup(l, key).value));
      DropTwice(l, key);
    }
  }

  lemma DroppedStays<T>(l: seq<Pair<T>>, l': seq<Pair<T>>, key: nat)
    requires OthersStay(l, l', key)
    ensures OthersStay(l, Drop(l', key), key)
  {
    DropTwice(l', key);
  }

  /** The list once the keys from `lo` up to `hi` were used, one after the other. */
  function UsedRange<T>(l: seq<Pair<T>>, lo: nat, hi: nat): seq<Pair<T>>
    decreases hi
  {
    if hi <= lo then l else Used(UsedRange(l, lo, hi - 1), hi - 1)
  }

  lemma {:induction false} RangeKept<T>(l: seq<Pair<T>>, lo: nat, hi: nat)
    ensures Kept(l, UsedRange(l, lo, hi)) && SameKeys(l, UsedRange(l, lo, hi))
    decreases hi
  {
    if lo < hi {
      var mid := UsedRange(l, lo, hi - 1);
      RangeKept(l, lo, hi - 1);
      UsedIsKept(mid, hi - 1);
      UsedSameKeys(mid, hi - 1);
    }
  }

  lemma RestIsOther<T>(c: seq<Entry<T>>, max: nat, key: nat)
    requires max > 0
    ensures var l := Recency(c, max);
      var rest := if Has(l, key) then Drop(l, key) else ByAge(c, 0, max - 1);
      forall p :: p in rest ==> p in l && p.key != key
  {
    var l := Recency(c, max);
    if Has(l, key) {
      forall p | p in Drop(l, key) ensures p in l && p.key != key {
        OutsideMember(l, key, key + 1, p);
      }
    } else {
      LookupIsMember(l, key);
      ByAgeSplit(c, 0, max - 1, max);
      assert forall p :: p in ByAge(c, 0, max - 1) ==> p in l;
    }
  }

  // ---------- The cache ----------

  class Lru<T> {
    const max: nat                 // cache_len_max_
    var cache: seq<Entry<T>>       // cache_

    ghost predicate Valid()
      reads this
    {
      Ok(cache, max)
    }

    /** What is cached, most recently used first. */
    ghost function Contents(): seq<Pair<T>>
      reads this
    {
      Recency(cache, max)
    }

    constructor (lenMax: nat)
      requires lenMax > 0
      ensures Valid() && max == lenMax && Dense(cache) && Contents() == []
    {
      max, cache := lenMax, [];
      new;
      NoneOlder(cache, 0, max);
    }

    /** Everything younger ages by one; the bound is the entry's own age before. */
    method Touch(index: nat)
      requires index < |cache|
      modifies this`cache
      ensures cache == Touched(old(cache), index)
    {
      var bound := cache[index].age;
      var i := 0;
      while i < |cache|
        invariant |cache| == |old(cache)| && 0 <= i <= |cache|
        invariant forall n :: 0 <= n < |cache| ==>
          (cache[n] == if n < i && old(cache)[n].age < bound then old(cache)[n].(age := old(cache)[n].age + 1) else old(cache)[n])
      {
        if cache[i].age < bound {
          cache := cache[i := cache[i].(age := cache[i].age + 1)];
        }
        i := i + 1;
      }
      cache := cache[index := cache[index].(age := 0)];
    }

    method EvictIndexFind() returns (evict: nat)
      requires Valid() && cache != []
      ensures Evictable(cache, max, evict)
    {
      evict := 0;
      if cache[evict].age != max {
        var index := 1;
        while index < |cache|
          invariant 1 <= index <= |cache| && evict < index
          invariant forall i :: 0 <= i < index ==> cache[i].age <= cache[evict].age < max
        {
          if cache[evict].age < cache[index].age {
            evict := index;
            if cache[evict].age == max {
              break;
            }
          }
          index := index + 1;
        }
      }
    }

    /** `find`: a miss, or the buffer last stored under the key, which is then the most recent. */
    method Find(key: nat) returns (data: Option<T>)
      requires Valid()
      modifies this`cache
      ensures Valid() && Contents() == Used(old(Contents()), key)
      ensures data == Lookup(old(Contents()), key)
      ensures old(Dense(cache)) ==> Dense(cache)
    {
      ExactIsHas(cache, max, key);
      var index := LowerBound(cache, key);
      data := None;
      if Exact(cache, max, key) {
        data := cache[index].data;
        FoundIsUsed(cache, max, key);
        if Dense(cache) {
          FoundDense(cache, max, index);
        }
        Touch(index);
      }
    }

    /** Writing through `find_mutable`'s view: the buffer changes in place. */
    method Overwrite(key: nat, data: T)
      requires Valid() && Has(Contents(), key)
      modifies this`cache
      ensures Valid() && Contents() == [Pair(key, data)] + Drop(old(Contents()), key)
      ensures old(Dense(cache)) ==> Dense(cache)
    {
      ExactIsHas(cache, max, key);
      var index := LowerBound(cache, key);
      PlacedExact(cache, max, key, data);
      PlacedStep(cache, Put(cache, index, key, data), max, index, key, data, Prior(cache[index]));
      cache := Put(cache, index, key, data);
      Touch(index);
    }

    /** `update`, on any history. */
    method Update(key: nat, data: T) returns (evicted: Option<Pair<T>>)
      requires Valid()
      modifies this`cache
      ensures Valid() && Updates(old(cache), cache, max, key, data, evicted)
      ensures old(Dense(cache)) ==> Dense(cache) && UpdatesAsTextbook(old(cache), cache, max, key, data, evicted)
      ensures UpdatesAsTextbook(old(cache), cache, max, key, data, evicted) <==> TextbookGuard(old(cache), max, key)
    {
      ghost var c := cache;
      var index;
      ghost var v;
      index, evicted, v := Place(key, data);
      PlacedStep(c, cache, max, index, key, data, evicted);
      UpdateIsTextbookIff(c, cache, max, v, index, key, data, evicted);
      Touch(index);
    }

    /** `update` up to the final touch: the pair gets its slot. */
    method Place(key: nat, data: T) returns (index: nat, evicted: Option<Pair<T>>, ghost v: nat)
      requires Valid()
      modifies this`cache
      ensures Placed(old(cache), cache, max, index, key, data, evicted)
      ensures Chosen(old(cache), cache, max, v, index, key, data, evicted)
    {
      ghost var c := cache;
      v := 0;
      index := LowerBound(cache, key);
      var needUpdate := true;
      if !Exact(cache, max, key) {
        if index == |cache| || cache[index].age != max {
          if |cache| >= max {
            var evict := EvictIndexFind();
            v := evict;
            index := MoveSlot(evict, index);
          } else {
            cache := Inserted(cache, index, Entry(key, Some(data), max));
            needUpdate := false;
          }
        }
      }
      evicted := None;
      if needUpdate {
        evicted := Prior(cache[index]);
        cache := Put(cache, index, key, data);
      }
      PlacedByCases(c, cache, max, v, index, key, data, evicted);
    }

    /** The rotations: slot `evict` moves to where the vector stays sorted with a key whose
        lower bound is `index`. */
    method MoveSlot(evict: nat, index: nat) returns (slot: nat)
      requires evict < |cache| && index <= |cache|
      modifies this`cache
      ensures slot == (if evict < index then index - 1 else index) && slot < |cache|
      ensures cache == Moved(old(cache), evict, slot)
    {
      if evict < index {
        slot := index - 1;
        cache := cache[..evict] + cache[evict + 1..index] + [cache[evict]] + cache[index..];
      } else {
        slot := index;
        cache := cache[..index] + [cache[evict]] + cache[index..evict] + cache[evict + 1..];
      }
    }

    method Invalidate(key: nat)
      requires Valid()
      modifies this`cache
      ensures Valid() && Contents() == Drop(old(Contents()), key)
      ensures if old(Has(Contents(), key)) then Invalidated(old(cache), cache, max, key, key + 1) else cache == old(cache)
    {
      var index := LowerBound(cache, key);
      ExactIsHas(cache, max, key);
      LowerBoundSplits(cache, key);
      if Exact(cache, max, key) {
        ghost var c := cache;
        cache := cache[index := Entry(cache[index].key, None, max)];
        InvalidatedOk(c, cache, max, key, key + 1);
      } else {
        NothingToDrop(cache, max, key);
      }
    }

    method InvalidateRange(first: nat, last: nat)
      requires Valid() && first < last
      modifies this`cache
      ensures Valid() && Contents() == Outside(old(Contents()), first, last)
      ensures Invalidated(old(cache), cache, max, first, last)
    {
      var index, end := LowerBound(cache, first), LowerBound(cache, last);
      LowerBoundSplits(cache, first);
      LowerBoundSplits(cache, last);
      ghost var c := cache;
      while index < end
        invariant |cache| == |c| && (index <= end || cache == c) && LowerBound(c, first) <= index
        invariant forall i :: 0 <= i < |c| ==>
          (cache[i] == if LowerBound(c, first) <= i < index then Entry(c[i].key, None, max) else c[i])
      {
        cache := cache[index := Entry(cache[index].key, None, max)];
        index := index + 1;
      }
      InvalidatedOk(c, cache, max, first, last);
    }
  }

  lemma FoundIsUsed<T>(c: seq<Entry<T>>, max: nat, key: nat)
    requires Ok(c, max) && Exact(c, max, key)
    ensures var j := LowerBound(c, key); Ok(Touched(c, j), max) && Recency(Touched(c, j), max) == Used(Recency(c, max), key)
  {
    TouchedOk(c, max, LowerBound(c, key));
    TouchedRecency(c, max, LowerBound(c, key));
    HitRecency(c, max, LowerBound(c, key));
  }

  lemma TouchedOk<T>(c: seq<Entry<T>>, max: nat, j: nat)
    requires Ok(c, max) && j < |c| && c[j].data.Some?
    ensures Ok(Touched(c, j), max)
  {
    TouchedAges(c, max, j);
    forall a, b | 0 <= a < b < |c| ensures Touched(c, j)[a].key < Touched(c, j)[b].key {
      assert c[a].key < c[b].key;
    }
  }

  lemma FoundDense<T>(c: seq<Entry<T>>, max: nat, j: nat)
    requires Ok(c, max) && Dense(c) && j < |c|
    ensures Dense(Touched(c, j))
  {
    TouchedDense(c, max, j);
  }

  /** Touching the slot that got the pair. */
  lemma PlacedStep<T>(c: seq<Entry<T>>, c': seq<Entry<T>>, max: nat, j: nat, key: nat, data: T, evicted: Option<Pair<T>>)
    requires Ok(c, max) && Placed(c, c', max, j, key, data, evicted)
    ensures Ok(Touched(c', j), max) && Updates(c, Touched(c', j), max, key, data, evicted)
    ensures Dense(c) ==> Dense(Touched(c', j)) && UpdatesAsTextbook(c, Touched(c', j), max, key, data, evicted)
  {
    TouchedOk(c', max, j);
    PlacedRecency(c, c', max, j, key, data, evicted);
    PlacedEvicts(c, c', max, j, key, data, evicted);
    if Dense(c) {
      DenseStoring(c, max, key, data);
    }
  }

  lemma PlacedEvicts<T>(c: seq<Entry<T>>, c': seq<Entry<T>>, max: nat, j: nat, key: nat, data: T, evicted: Option<Pair<T>>)
    requires Ok(c, max) && Placed(c, c', max, j, key, data, evicted)
    ensures match Lookup(Recency(c, max), key)
            case Some(was) => evicted == Some(Pair(key, was))
            case None => (evicted.Some? ==> Spent(c, max, evicted.value))
  {
    ExactIsHas(c, max, key);
  }

  lemma NothingToDrop<T>(c: seq<Entry<T>>, max: nat, key: nat)
    requires Ok(c, max) && !Exact(c, max, key)
    ensures Drop(Recency(c, max), key) == Recency(c, max)
  {
    LowerBoundSplits(c, key);
    ByAgeAvoids(c, 0, max, key, key + 1);
    OutsideSame(Recency(c, max), key, key + 1);
  }

  // ---------- The trap, from an empty cache ----------

  /** Three pairs are stored, one is invalidated, and stored again: another one is lost though
      there was room for all three. */
  method LosingRun() returns (cache: Lru<int>)
    ensures fresh(cache) && cache.Valid() && cache.max == 3 && cache.Contents() == [Pair(2, 20), Pair(1, 10)]
  {
    cache := StoreThree();
    ThreeStored(cache.cache);
    assert cache.Contents()[1].key == 2;
    cache.Invalidate(2);
    OneInvalidated(cache.cache);
    var evicted := cache.Update(2, 20);
  }

  method StoreThree() returns (cache: Lru<int>)
    ensures fresh(cache) && cache.Valid() && cache.max == 3 && Dense(cache.cache)
    ensures cache.Contents() == [Pair(1, 10), Pair(2, 2), Pair(3, 30)]
  {
    cache := StoreTwo(3);
    StoreNew(cache, 1, 10, [Pair(2, 2), Pair(3, 30)]);
  }

  method StoreTwo(n: nat) returns (cache: Lru<int>)
    requires n > 1
    ensures fresh(cache) && cache.Valid() && cache.max == n && Dense(cache.cache)
    ensures cache.Contents() == [Pair(2, 2), Pair(3, 30)]
  {
    cache := NewFor(n);
    StoreNew(cache, 3, 30, []);
    StoreNew(cache, 2, 2, [Pair(3, 30)]);
  }

  method NewFor(n: nat) returns (cache: Lru<int>)
    requires n > 0
    ensures fresh(cache) && cache.Valid() && cache.max == n && Dense(cache.cache) && cache.Contents() == []
  {
    cache := new Lru<int>(n);
  }

  method StoreNew(cache: Lru<int>, key: nat, data: int, ghost l: seq<Pair<int>>)
    requires cache.Valid() && Dense(cache.cache) && cache.Contents() == l && |l| < cache.max
    requires forall i :: 0 <= i < |l| ==> l[i].key != key
    modifies cache`cache
    ensures cache.Valid() && Dense(cache.cache) && cache.Contents() == [Pair(key, data)] + l
  {
    var evicted := cache.Update(key, data);
  }

  /** The vector after three pairs were stored in an empty cache, the last one first. */
  lemma ThreeStored(c: seq<Entry<int>>)
    requires Ok(c, 3) && Dense(c) && Recency(c, 3) == [Pair(1, 10), Pair(2, 2), Pair(3, 30)]
    ensures c == [Entry(1, Some(10), 0), Entry(2, Some(2), 1), Entry(3, Some(30), 2)]
  {
    FullOrNot(c, 3);
    AgeIsRank(c, 3, 0);
    AgeIsRank(c, 3, 1);
    AgeIsRank(c, 3, 2);
  }

  lemma OneInvalidated(c: seq<Entry<int>>)
    requires c == [Entry(1, Some(10), 0), Entry(2, None, 3), Entry(3, Some(30), 2)]
    ensures Recency(c, 3) == [Pair(1, 10), Pair(3, 30)] && !Has(Recency(c, 3), 2) && ByAge(c, 0, 2) == [Pair(1, 10)]
  {
    InvalidationLosesAPair(c);
    AtMostTheOldestGoes(c, 3);
    assert c[2].age == 2;
  }
}
