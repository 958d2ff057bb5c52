/** The few facts about division and wrap-around the other modules need. */
module Arithmetic {

  lemma {:induction false} MulMonotone(a: nat, b: nat, n: nat)
    requires a <= b
    ensures a * n <= b * n
    decreases b
  {
    if a < b {
      MulMonotone(a, b - 1, n);
      assert b * n == (b - 1) * n + n;
    }
  }

  lemma MulNext(a: nat, n: nat)
    ensures (a + 1) * n == a * n + n
  {
  }

  lemma LowerQuotientIsLess(q: nat, r: nat, q': nat, r': nat, n: nat)
    requires q < q' && r < n
    ensures q * n + r < q' * n + r'
  {
    MulMonotone(q + 1, q', n);
    assert (q + 1) * n == q * n + n;
  }

  /** A quotient and remainder are determined by their equation. */
  lemma DivModUnique(x: nat, n: nat, q: nat, r: nat)
    requires n > 0 && x == q * n + r && r < n
    ensures x / n == q && x % n == r
  {
    var q', r' := x / n, x % n;
    assert x == q' * n + r';
    if q' < q {
      LowerQuotientIsLess(q', r', q, r, n);
    } else if q < q' {
      LowerQuotientIsLess(q, r, q', r', n);
    }
  }

  /** `x` modulo `n`, by repeated subtraction. */
  function Wrap(x: nat, n: nat): (r: nat)
    requires n > 0
    ensures r < n
  {
    if x < n then x else Wrap(x - n, n)
  }

  lemma {:induction false} WrapAdd(a: nat, b: nat, n: nat)
    requires n > 0
    ensures Wrap(a + b, n) == Wrap(Wrap(a, n) + b, n)
  {
    if a >= n {
      WrapAdd(a - n, b, n);
    }
  }

  lemma WrapCongruent(s: nat, t: nat, b: nat, n: nat)
    requires n > 0 && Wrap(s, n) == Wrap(t, n)
    ensures Wrap(s + b, n) == Wrap(t + b, n)
  {
    WrapAdd(s, b, n);
    WrapAdd(t, b, n);
  }

  lemma {:induction false} WrapQuotient(x: nat, n: nat) returns (q: nat)
    requires n > 0
    ensures x == q * n + Wrap(x, n)
  {
    if x < n {
      q := 0;
    } else {
      var p := WrapQuotient(x - n, n);
      q := p + 1;
      assert q * n == p * n + n;
    }
  }

  lemma WrapIsMod(x: nat, n: nat)
    requires n > 0
    ensures Wrap(x, n) == x % n
  {
    var q := WrapQuotient(x, n);
    DivModUnique(x, n, q, Wrap(x, n));
  }

  lemma {:induction false} WrapMultiple(q: nat, x: nat, n: nat)
    requires n > 0
    ensures q * n + x >= 0
    ensures Wrap(q * n + x, n) == Wrap(x, n)
  {
    if q > 0 {
      assert q * n == (q - 1) * n + n;
      assert (q - 1) * n >= 0;
      WrapMultiple(q - 1, x, n);
    }
  }

  /** `x` divided by `n`, by repeated subtraction. */
  function Quot(x: nat, n: nat): nat
    requires n > 0
  {
    if x < n then 0 else 1 + Quot(x - n, n)
  }

  lemma {:induction false} QuotWrap(x: nat, n: nat)
    requires n > 0
    ensures x == Quot(x, n) * n + Wrap(x, n)
  {
    if x >= n {
      QuotWrap(x - n, n);
      assert Quot(x, n) * n == Quot(x - n, n) * n + n;
    }
  }

  lemma QuotIsDiv(x: nat, n: nat)
    requires n > 0
    ensures Quot(x, n) == x / n && Wrap(x, n) == x % n
  {
    QuotWrap(x, n);
    DivModUnique(x, n, Quot(x, n), Wrap(x, n));
  }

  lemma QuotUnique(x: nat, n: nat, q: nat, r: nat)
    requires n > 0 && x == q * n + r && r < n
    ensures Quot(x, n) == q && Wrap(x, n) == r
  {
    QuotIsDiv(x, n);
    DivModUnique(x, n, q, r);
  }

  lemma QuotMonotone(x: nat, y: nat, n: nat)
    requires n > 0 && x <= y
    ensures Quot(x, n) <= Quot(y, n)
  {
    if x >= n {
      QuotMonotone(x - n, y - n, n);
    }
  }

  /** Up to the next multiple the quotient stays. */
  lemma {:induction false} SameQuot(x: nat, d: nat, n: nat)
    requires n > 0 && Wrap(x, n) + d < n
    ensures Quot(x + d, n) == Quot(x, n) && Wrap(x + d, n) == Wrap(x, n) + d
    decreases x
  {
    if x >= n {
      SameQuot(x - n, d, n);
    }
  }

  /** At the next multiple it goes up by one. */
  lemma {:induction false} NextQuot(x: nat, n: nat)
    requires n > 0
    ensures Quot(x + (n - Wrap(x, n)), n) == Quot(x, n) + 1 && Wrap(x + (n - Wrap(x, n)), n) == 0
    decreases x
  {
    if x >= n {
      NextQuot(x - n, n);
    }
  }

  /** Below a multiple of `n` there is room up to the next multiple. */
  lemma {:induction false} RoomToNext(x: nat, n: nat, m: nat)
    requires n > 0 && x < m * n
    ensures Quot(x, n) < m && x + (n - Wrap(x, n)) <= m * n
    decreases x
  {
    if m == 0 {
    } else {
      assert m * n == (m - 1) * n + n;
      assert (m - 1) * n >= 0;
      if x >= n {
        RoomToNext(x - n, n, m - 1);
      }
    }
  }

  /** How many blocks of `n` the first `a` units take. */
  function DivRoundUp(a: nat, n: nat): nat
    requires n > 0
  {
    (a + n - 1) / n
  }

  lemma BelowRoundUp(a: nat, end: nat, n: nat)
    requires n > 0 && a < end
    ensures Quot(a, n) < DivRoundUp(end, n)
  {
    QuotIsDiv(end + n - 1, n);
    QuotMonotone(a + n, end + n - 1, n);
  }

  lemma RoundUpFits(end: nat, n: nat, m: nat)
    requires n > 0 && end <= m * n
    ensures DivRoundUp(end, n) <= m
  {
    assert (m + 1) * n == m * n + n;
    RoomToNext(end + n - 1, n, m + 1);
    QuotIsDiv(end + n - 1, n);
  }

  /** So many numbers are below `n`. */
  lemma {:induction false} BelowCount(s: set<nat>, n: nat)
    requires forall x :: x in s ==> x < n
    ensures |s| <= n
  {
    if n > 0 {
      BelowCount(s - {n - 1}, n - 1);
    } else {
      assert s == {};
    }
  }

  /** The cursor of a loop over the blocks of `n` that a request of `len` units at `addr`
      touches: its unit `at` is unit `off` of block `block`. */
  ghost predicate Cursor(n: nat, addr: nat, len: nat, at: nat, block: nat, off: nat)
    requires n > 0
  {
    off < n && (at < len ==> block == Quot(addr + at, n) && off == Wrap(addr + at, n))
  }

  lemma CursorMoves(n: nat, addr: nat, len: nat, at: nat, block: nat, off: nat, size: nat)
    requires n > 0 && Cursor(n, addr, len, at, block, off) && at < len && size == if n - off < len - at then n - off else len - at
    ensures Cursor(n, addr, len, at + size, block + 1, 0)
  {
    NextQuot(addr + at, n);
    assert size == n - off ==> addr + (at + size) == addr + at + (n - Wrap(addr + at, n));
  }
}
