/** What a run without invalidation leaves in the cache (ublk/cache/flat_lru.hpp), told by the run
    alone: a pair is cached exactly as long as fewer other keys than there are slots were used since
    its key was, and of two cached pairs the one used later comes first. */
module LruRuns {
  import opened Options
  import opened FlatLru

  /** What a client of the cache does. */
  datatype Op<T> = Find(key: nat) | Update(key: nat, data: T)

  /** The textbook's list after the operations. */
  function ListAfter<T>(max: nat, ops: seq<Op<T>>): seq<Pair<T>>
    requires max > 0
  {
    if ops == [] then []
    else
      var last, l := ops[|ops| - 1], ListAfter(max, ops[..|ops| - 1]);
      match last
      case Find(key) => Used(l, key)
      case Update(key, data) => Stored(l, max, key, data)
  }

  // ---------- What the run says ----------

  /** The keys used since `key` was used last. */
  function Since(uses: seq<nat>, key: nat): set<nat> {
    if uses == [] then {}
    else
      var n := |uses| - 1;
      if uses[n] == key then {} else Since(uses[..n], key) + {uses[n]}
  }

  /** The key was used, and fewer other keys than there are slots were since. */
  predicate Recent(uses: seq<nat>, max: nat, key: nat) {
    key in uses && |Since(uses, key)| < max
  }

  /** The keys in the order they were used; a miss, that is looking for a key that is not recent,
      uses nothing. */
  function Uses<T>(max: nat, ops: seq<Op<T>>): seq<nat> {
    if ops == [] then []
    else
      var n := |ops| - 1;
      var uses := Uses(max, ops[..n]);
      uses + if ops[n].Update? || Recent(uses, max, ops[n].key) then [ops[n].key] else []
  }

  /** What was last stored under the key. */
  function LastStored<T>(ops: seq<Op<T>>, key: nat): Option<T> {
    if ops == [] then None
    else
      var n := |ops| - 1;
      if ops[n].Update? && ops[n].key == key then Some(ops[n].data) else LastStored(ops[..n], key)
  }

  // ---------- What the list says ----------

  /** The keys in front of `key`. */
  function Before<T>(l: seq<Pair<T>>, key: nat): set<nat> {
    if l == [] || l[0].key == key then {} else {l[0].key} + Before(l[1..], key)
  }

  ghost predicate Distinct<T>(l: seq<Pair<T>>) {
    forall i, j :: 0 <= i < j < |l| ==> l[i].key != l[j].key
  }

  /** The list is what the uses say. */
  ghost predicate Tells<T>(l: seq<Pair<T>>, max: nat, uses: seq<nat>) {
    && Distinct(l) && |l| <= max
    && (forall key: nat :: Has(l, key) ==> key in uses && Before(l, key) == Since(uses, key) && |Since(uses, key)| < max)
    && (forall key: nat :: key in uses && !Has(l, key) ==> |Since(uses, key)| >= max)
  }

  lemma SinceMore(uses: seq<nat>, key: nat, k: nat)
    ensures Since(uses + [key], k) == if k == key then {} else Since(uses, k) + {key}
  {
    assert (uses + [key])[..|uses|] == uses;
  }

  lemma HasHead<T>(p: Pair<T>, l: seq<Pair<T>>, key: nat)
    ensures Has([p] + l, key) <==> p.key == key || Has(l, key)
  {
    if p.key == key {
      assert ([p] + l)[0] == p;
    }
    if Has(l, key) {
      var i :| 0 <= i < |l| && l[i].key == key;
      assert ([p] + l)[i + 1] == l[i];
    }
  }

  lemma BeforeHead<T>(p: Pair<T>, l: seq<Pair<T>>, key: nat)
    ensures Before([p] + l, key) == if p.key == key then {} else {p.key} + Before(l, key)
  {
    assert ([p] + l)[1..] == l;
  }

  lemma DropStep<T>(l: seq<Pair<T>>, key: nat)
    requires l != []
    ensures Drop(l, key) == if l[0].key == key then Drop(l[1..], key) else [l[0]] + Drop(l[1..], key)
  {
  }

  lemma {:induction false} BeforeDrop<T>(l: seq<Pair<T>>, key: nat, k: nat)
    requires k != key
    ensures Before(Drop(l, key), k) == Before(l, k) - {key}
  {
    if l != [] {
      DropStep(l, key);
      BeforeDrop(l[1..], key, k);
      if l[0].key != key {
        BeforeHead(l[0], Drop(l[1..], key), k);
      }
    }
  }

  lemma {:induction false} DropDistinct<T>(l: seq<Pair<T>>, key: nat)
    requires Distinct(l)
    ensures Distinct(Drop(l, key)) && !Has(Drop(l, key), key)
    ensures |Drop(l, key)| == if Has(l, key) then |l| - 1 else |l|
  {
    if l != [] {
      var rest := l[1..];
      assert forall i :: 0 <= i < |rest| ==> rest[i] == l[i + 1];
      assert l == [l[0]] + rest;
      HasHead(l[0], rest, key);
      DropDistinct(rest, key);
      if l[0].key == key {
        assert !Has(rest, key);
      } else {
        HasHead(l[0], Drop(rest, key), key);
        ConsDistinct(l[0], Drop(rest, key), rest, key);
      }
    }
  }

  lemma ConsDistinct<T>(p: Pair<T>, d: seq<Pair<T>>, l: seq<Pair<T>>, key: nat)
    requires Distinct(d) && d == Drop(l, key) && !Has(l, p.key) && p.key != key
    ensures Distinct([p] + d)
  {
    KeyNotDropped(l, key, p.key);
    assert forall i :: 0 <= i < |d| ==> d[i].key != p.key;
  }

  lemma {:induction false} BeforeIsCached<T>(l: seq<Pair<T>>, key: nat, k: nat)
    requires k in Before(l, key)
    ensures Has(l, k)
  {
    HasHead(l[0], l[1..], k);
    assert l == [l[0]] + l[1..];
    if k != l[0].key {
      BeforeIsCached(l[1..], key, k);
    }
  }

  lemma FirstIsAlone<T>(l: seq<Pair<T>>)
    requires l != [] && Distinct(l)
    ensures Distinct(l[1..]) && !Has(l[1..], l[0].key)
  {
    assert forall i :: 0 <= i < |l[1..]| ==> l[1..][i] == l[i + 1];
  }

  /** In front of the last pair stand all others. */
  lemma {:induction false} BeforeLast<T>(l: seq<Pair<T>>, key: nat)
    requires l != [] && Distinct(l) && l[|l| - 1].key == key
    ensures |Before(l, key)| == |l| - 1
  {
    if |l| > 1 {
      var rest := l[1..];
      FirstIsAlone(l);
      assert rest[|rest| - 1] == l[|l| - 1];
      BeforeLast(rest, key);
      if l[0].key in Before(rest, key) {
        BeforeIsCached(rest, key, l[0].key);
      }
    }
  }

  lemma {:induction false} BeforePrefix<T>(l: seq<Pair<T>>, n: nat, key: nat)
    requires n <= |l| && Has(l[..n], key)
    ensures Before(l[..n], key) == Before(l, key) && Has(l, key)
  {
    var i :| 0 <= i < n && l[..n][i].key == key;
    assert l[i].key == key;
    if l[0].key != key {
      var p := l[1..][..n - 1];
      assert l[..n][1..] == p;
      assert p[i - 1].key == key;
      BeforePrefix(l[1..], n - 1, key);
    }
  }

  // ---------- Every operation keeps it so ----------

  lemma UsedBefore<T>(l: seq<Pair<T>>, uses: seq<nat>, p: Pair<T>, k: nat)
    requires k != p.key ==> Before(l, k) == Since(uses, k)
    ensures Before([p] + Drop(l, p.key), k) == Since(uses + [p.key], k)
  {
    SinceMore(uses, p.key, k);
    BeforeHead(p, Drop(l, p.key), k);
    if k != p.key {
      BeforeDrop(l, p.key, k);
    }
  }

  /** A cached key is used. */
  lemma UsedTells<T>(l: seq<Pair<T>>, max: nat, uses: seq<nat>, p: Pair<T>)
    requires max > 0 && Tells(l, max, uses) && Has(l, p.key)
    ensures Tells([p] + Drop(l, p.key), max, uses + [p.key])
  {
    var l', uses' := [p] + Drop(l, p.key), uses + [p.key];
    DropDistinct(l, p.key);
    forall k: nat ensures Has(l', k) <==> Has(l, k) {
      HasHead(p, Drop(l, p.key), k);
      if k != p.key {
        KeyNotDropped(l, p.key, k);
      }
    }
    assert Distinct(l') by {
      assert forall i :: 0 <= i < |Drop(l, p.key)| ==> Drop(l, p.key)[i].key != p.key;
    }
    forall k: nat | Has(l', k) ensures k in uses' && Before(l', k) == Since(uses', k) && |Since(uses', k)| < max {
      UsedBefore(l, uses, p, k);
      FrontIsShort(l', k);
    }
    forall k: nat | k in uses' && !Has(l', k) ensures |Since(uses', k)| >= max {
      SinceMore(uses, p.key, k);
      SubsetCount(Since(uses, k), Since(uses', k));
    }
  }

  /** Fewer keys stand in front of a pair than there are pairs. */
  lemma {:induction false} FrontIsShort<T>(l: seq<Pair<T>>, key: nat)
    requires Has(l, key)
    ensures |Before(l, key)| < |l|
  {
    if l[0].key != key {
      assert l == [l[0]] + l[1..];
      HasHead(l[0], l[1..], key);
      FrontIsShort(l[1..], key);
      var b := Before(l[1..], key);
      assert |{l[0].key} + b| <= 1 + |b|;
    }
  }

  /** A new key is stored, and there is room for it. */
  lemma RoomTells<T>(l: seq<Pair<T>>, max: nat, uses: seq<nat>, p: Pair<T>)
    requires max > 0 && Tells(l, max, uses) && !Has(l, p.key) && |l| < max
    ensures Tells([p] + l, max, uses + [p.key])
  {
    var l', uses' := [p] + l, uses + [p.key];
    forall k: nat ensures Has(l', k) <==> k == p.key || Has(l, k) {
      HasHead(p, l, k);
    }
    assert forall i :: 0 <= i < |l| ==> l[i].key != p.key;
    forall k: nat | Has(l', k) ensures k in uses' && Before(l', k) == Since(uses', k) && |Since(uses', k)| < max {
      SinceMore(uses, p.key, k);
      BeforeHead(p, l, k);
      FrontIsShort(l', k);
    }
    forall k: nat | k in uses' && !Has(l', k) ensures |Since(uses', k)| >= max {
      SinceMore(uses, p.key, k);
      SubsetCount(Since(uses, k), Since(uses', k));
    }
  }

  lemma KeptBefore<T>(l: seq<Pair<T>>, n: nat, uses: seq<nat>, p: Pair<T>, k: nat)
    requires n <= |l| && Has([p] + l[..n], k) && !Has(l, p.key) && (k != p.key ==> Before(l, k) == Since(uses, k))
    ensures Before([p] + l[..n], k) == Since(uses + [p.key], k)
  {
    SinceMore(uses, p.key, k);
    BeforeHead(p, l[..n], k);
    HasHead(p, l[..n], k);
    if k != p.key {
      BeforePrefix(l, n, k);
    }
  }

  lemma LastIsFar<T>(l: seq<Pair<T>>, last: nat, key: nat)
    requires l != [] && Distinct(l) && l[|l| - 1].key == last && !Has(l, key)
    ensures |Before(l, last) + {key}| == |l|
  {
    BeforeLast(l, last);
    if key in Before(l, last) {
      BeforeIsCached(l, last, key);
    }
  }

  /** A new key is stored in a full cache: the last pair goes. */
  lemma FullTells<T>(l: seq<Pair<T>>, max: nat, uses: seq<nat>, p: Pair<T>)
    requires max > 0 && Tells(l, max, uses) && !Has(l, p.key) && |l| == max
    ensures Tells([p] + l[..max - 1], max, uses + [p.key])
  {
    var n := max - 1;
    var kept, last := l[..n], l[n].key;
    var l', uses' := [p] + kept, uses + [p.key];
    assert forall i :: 0 <= i < |l| ==> l[i].key != p.key;
    assert forall i :: 0 <= i < n ==> kept[i] == l[i];
    forall k: nat ensures Has(l', k) <==> k == p.key || (Has(l, k) && k != last) {
      HasHead(p, kept, k);
      KeptKeys(l, n, k);
    }
    forall k: nat | Has(l', k) ensures k in uses' && Before(l', k) == Since(uses', k) && |Since(uses', k)| < max {
      KeptBefore(l, n, uses, p, k);
      FrontIsShort(l', k);
    }
    forall k: nat | k in uses' && !Has(l', k) ensures |Since(uses', k)| >= max {
      SinceMore(uses, p.key, k);
      if k == last {
        assert l[n].key == last && Has(l, last);
        LastIsFar(l, last, p.key);
      } else {
        SubsetCount(Since(uses, k), Since(uses', k));
      }
    }
  }

  lemma KeptKeys<T>(l: seq<Pair<T>>, n: nat, k: nat)
    requires Distinct(l) && n + 1 == |l|
    ensures Has(l[..n], k) <==> Has(l, k) && k != l[n].key
  {
    if Has(l[..n], k) {
      var i :| 0 <= i < n && l[..n][i].key == k;
      assert l[i].key == k;
    }
    if Has(l, k) && k != l[n].key {
      var i :| 0 <= i < |l| && l[i].key == k;
      assert l[..n][i] == l[i];
    }
  }

  /** After any operations the textbook's list is what the run says. */
  lemma {:induction false} ListTells<T>(max: nat, ops: seq<Op<T>>)
    requires max > 0
    ensures Tells(ListAfter(max, ops), max, Uses(max, ops))
  {
    if ops != [] {
      var n := |ops| - 1;
      ListTells(max, ops[..n]);
      OpTells(ListAfter(max, ops[..n]), max, Uses(max, ops[..n]), ops[n]);
    }
  }

  lemma OpTells<T>(l: seq<Pair<T>>, max: nat, uses: seq<nat>, op: Op<T>)
    requires max > 0 && Tells(l, max, uses)
    ensures var uses' := uses + if op.Update? || Has(l, op.key) then [op.key] else [];
      match op
      case Find(key) => Tells(Used(l, key), max, uses')
      case Update(key, data) => Tells(Stored(l, max, key, data), max, uses')
  {
    match op
    case Find(key) =>
      if Has(l, key) {
        UsedTells(l, max, uses, Pair(key, Lookup(l, key).value));
      } else {
        assert uses + [] == uses;
      }
    case Update(key, data) =>
      if Has(l, key) {
        UsedTells(l, max, uses, Pair(key, data));
      } else if |l| < max {
        RoomTells(l, max, uses, Pair(key, data));
      } else {
        FullTells(l, max, uses, Pair(key, data));
      }
  }

  /** So a key is cached exactly if it was used, and fewer other keys than there are slots were
      since; and those of them that are cached stand in front of it. */
  lemma CachedIfRecent<T>(max: nat, ops: seq<Op<T>>, key: nat)
    requires max > 0
    ensures var l, uses := ListAfter(max, ops), Uses(max, ops);
      && (Has(l, key) <==> Recent(uses, max, key))
      && (Has(l, key) ==> Before(l, key) == Since(uses, key))
  {
    ListTells(max, ops);
  }

  lemma LookupHead<T>(p: Pair<T>, l: seq<Pair<T>>, k: nat)
    ensures Lookup([p] + l, k) == if p.key == k then Some(p.data) else Lookup(l, k)
  {
    assert ([p] + l)[1..] == l;
  }

  lemma {:induction false} LookupDrop<T>(l: seq<Pair<T>>, key: nat, k: nat)
    requires k != key
    ensures Lookup(Drop(l, key), k) == Lookup(l, k)
  {
    if l != [] {
      DropStep(l, key);
      LookupDrop(l[1..], key, k);
      if l[0].key != key {
        LookupHead(l[0], Drop(l[1..], key), k);
      }
    }
  }

  lemma {:induction false} LookupPrefix<T>(l: seq<Pair<T>>, n: nat, k: nat)
    requires n <= |l| && Has(l[..n], k)
    ensures Lookup(l[..n], k) == Lookup(l, k)
  {
    var i :| 0 <= i < n && l[..n][i].key == k;
    if l[0].key != k {
      var p := l[1..][..n - 1];
      assert l[..n][1..] == p;
      assert p[i - 1].key == k;
      LookupPrefix(l[1..], n - 1, k);
    }
  }

  /** Using a key changes no buffer, storing one changes its own. */
  lemma UsedLookup<T>(l: seq<Pair<T>>, key: nat, k: nat)
    ensures Lookup(Used(l, key), k) == Lookup(l, k)
  {
    if Lookup(l, key).Some? {
      LookupHead(Pair(key, Lookup(l, key).value), Drop(l, key), k);
      if k != key {
        LookupDrop(l, key, k);
      }
    }
  }

  lemma StoredLookup<T>(l: seq<Pair<T>>, max: nat, key: nat, data: T, k: nat)
    requires max > 0 && |l| <= max && Has(Stored(l, max, key, data), k)
    ensures Lookup(Stored(l, max, key, data), k) == if k == key then Some(data) else Lookup(l, k)
  {
    var rest := if Has(l, key) then Drop(l, key) else if |l| < max then l else l[..max - 1];
    LookupHead(Pair(key, data), rest, k);
    HasHead(Pair(key, data), rest, k);
    if k != key {
      LookupDrop(l, key, k);
      if !Has(l, key) && |l| == max {
        LookupPrefix(l, max - 1, k);
      }
    }
  }

  /** And its buffer is the one last stored under it. */
  lemma {:induction false} CachedIsLastStored<T>(max: nat, ops: seq<Op<T>>, key: nat)
    requires max > 0 && Has(ListAfter(max, ops), key)
    ensures Lookup(ListAfter(max, ops), key) == LastStored(ops, key)
  {
    var n := |ops| - 1;
    var l, op := ListAfter(max, ops[..n]), ops[n];
    ListTells(max, ops[..n]);
    if op.Find? {
      UsedLookup(l, op.key, key);
      CachedIsLastStored(max, ops[..n], key);
    } else {
      StoredLookup(l, max, op.key, op.data, key);
      if op.key != key {
        CachedIsLastStored(max, ops[..n], key);
      }
    }
  }

  // ---------- Nothing vanishes ----------

  ghost function Handed<T>(evicted: Option<Pair<T>>): multiset<Pair<T>> {
    if evicted.Some? then multiset{evicted.value} else multiset{}
  }

  /** What storing a pair takes out of the list it hands back, and nothing else. */
  lemma NothingVanishes<T>(l: seq<Pair<T>>, max: nat, key: nat, data: T)
    requires max > 0 && |l| <= max && Distinct(l)
    ensures multiset(Stored(l, max, key, data)) + Handed(Evicted(l, max, key)) == multiset(l) + multiset{Pair(key, data)}
  {
    if Has(l, key) {
      DropTakesOne(l, key);
    } else if |l| == max {
      var n := max - 1;
      assert l == l[..n] + [l[n]];
    }
  }

  lemma {:induction false} DropTakesOne<T>(l: seq<Pair<T>>, key: nat)
    requires Distinct(l) && Has(l, key)
    ensures Lookup(l, key).Some? && multiset(Drop(l, key)) + multiset{Pair(key, Lookup(l, key).value)} == multiset(l)
  {
    var rest := l[1..];
    FirstIsAlone(l);
    DropStep(l, key);
    HasHead(l[0], rest, key);
    assert l == [l[0]] + rest;
    if l[0].key == key {
      DropNone(rest, key);
    } else {
      DropTakesOne(rest, key);
    }
  }

  // ---------- The cache ----------

  /** A fresh cache that goes through the operations: nothing is invalidated, so it is the
      textbook's. */
  method Run<T>(lenMax: nat, ops: seq<Op<T>>) returns (c: Lru<T>)
    requires lenMax > 0
    ensures fresh(c) && c.Valid() && c.max == lenMax
    ensures forall key: nat :: Has(c.Contents(), key) <==> Recent(Uses(lenMax, ops), lenMax, key)
    ensures forall key: nat :: Has(c.Contents(), key) ==>
      Before(c.Contents(), key) == Since(Uses(lenMax, ops), key) && Lookup(c.Contents(), key) == LastStored(ops, key)
  {
    c := new Lru<T>(lenMax);
    for i := 0 to |ops|
      invariant fresh(c) && c.Valid() && c.max == lenMax && Dense(c.cache) && c.Contents() == ListAfter(lenMax, ops[..i])
    {
      assert ops[..i + 1][..i] == ops[..i];
      match ops[i]
      case Find(key) => var data := c.Find(key);
      case Update(key, data) => var evicted := c.Update(key, data);
    }
    assert ops[..|ops|] == ops;
    ListTells(lenMax, ops);
    forall key: nat | Has(c.Contents(), key)
      ensures Lookup(c.Contents(), key) == LastStored(ops, key) {
      CachedIsLastStored(lenMax, ops, key);
    }
  }
}
