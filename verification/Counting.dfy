/** Counting over windows of a counter that is reduced modulo a period. */
module Counting {
  /** How many of the `len` counters from `start` on satisfy `p`. */
  function Count(p: nat -> bool, start: nat, len: nat): (c: nat)
    ensures c <= len
  {
    if len == 0 then 0 else Count(p, start, len - 1) + (if p(start + len - 1) then 1 else 0)
  }

  lemma {:induction false} CountSplit(p: nat -> bool, start: nat, a: nat, b: nat)
    ensures Count(p, start, a + b) == Count(p, start, a) + Count(p, start + a, b)
  {
    if b > 0 { CountSplit(p, start, a, b - 1); }
  }

  lemma {:induction false} CountAgrees(p: nat -> bool, q: nat -> bool, start: nat, at: nat, len: nat)
    requires forall n: nat :: start <= n < start + len ==> p(n) == q(n - start + at)
    ensures Count(p, start, len) == Count(q, at, len)
  {
    if len > 0 {
      assert p(start + len - 1) == q(at + len - 1);
      CountAgrees(p, q, start, at, len - 1);
    }
  }

  ghost predicate Periodic(p: nat -> bool, period: nat) {
    forall n: nat :: p(n + period) == p(n)
  }

  /** Sliding a window by one loses its first counter and gains the one after it. */
  lemma {:induction false} Slide(p: nat -> bool, start: nat, len: nat)
    ensures Count(p, start + 1, len) + (if p(start) then 1 else 0)
         == Count(p, start, len) + (if p(start + len) then 1 else 0)
  {
    if len > 0 { Slide(p, start, len - 1); }
  }

  /** Every window as long as the period sees the same number of hits. */
  lemma {:induction false} OnePeriod(p: nat -> bool, start: nat, period: nat)
    requires Periodic(p, period)
    ensures Count(p, start, period) == Count(p, 0, period)
  {
    if start > 0 {
      OnePeriod(p, start - 1, period);
      Slide(p, start - 1, period);
      assert p((start - 1) + period) == p(start - 1);
    }
  }

  lemma OneMore(k: nat, n: nat)
    requires k > 0
    ensures k * n == (k - 1) * n + n
  {
  }

  lemma {:induction false} ManyPeriods(p: nat -> bool, start: nat, period: nat, k: nat)
    requires Periodic(p, period)
    ensures Count(p, start, k * period) == k * Count(p, 0, period)
  {
    hide Periodic;
    if k > 0 {
      var before := (k - 1) * period;
      ManyPeriods(p, start, period, k - 1);
      OneMore(k, period);
      OneMore(k, Count(p, 0, period));
      CountSplit(p, start, before, period);
      OnePeriod(p, start + before, period);
    }
  }

  lemma {:induction false} CountFirst(p: nat -> bool, m: nat, r: nat, len: nat)
    requires r < m && len <= m
    requires forall n: nat :: n < m ==> p(n) == (n == r)
    ensures Count(p, 0, len) == if r < len then 1 else 0
  {
    if len > 0 { CountFirst(p, m, r, len - 1); }
  }

  function IsResidue(m: nat, r: nat): nat -> bool
    requires m > 0
  {
    (n: nat) => n % m == r
  }

  /** Quotient and remainder are determined by the equation they satisfy. */
  lemma Division(x: nat, m: nat, q: nat, r: nat)
    requires r < m && x == q * m + r
    ensures x / m == q && x % m == r
  {
    DividesAs(x, m);
    if x / m < q { Apart(x / m, q, m); }
    if q < x / m { Apart(q, x / m, m); }
  }

  lemma Scale(k: nat, m: nat)
    requires k >= 1
    ensures k * m >= m
  {
  }

  lemma DividesAs(x: nat, m: nat)
    requires m > 0
    ensures x == (x / m) * m + x % m && 0 <= x % m < m
  {
  }

  lemma Apart(q: nat, p: nat, m: nat)
    requires q < p
    ensures p * m >= q * m + m
  {
    Scale(p - q, m);
    assert p * m == q * m + (p - q) * m;
  }

  /** Numbers less than `m` apart leave different remainders. */
  lemma ResiduesDiffer(a: nat, b: nat, m: nat)
    requires a < b && b - a < m
    ensures a % m != b % m
  {
    DividesAs(a, m);
    DividesAs(b, m);
    if a / m < b / m { Apart(a / m, b / m, m); }
    if b / m < a / m { Apart(b / m, a / m, m); }
  }

  lemma ModOfShift(m: nat, k: nat, j: nat)
    requires j < m
    ensures (k * m + j) % m == j
  {
    Division(k * m + j, m, k, j);
  }

  lemma ResidueIsPeriodic(m: nat, r: nat)
    requires m > 0
    ensures Periodic(IsResidue(m, r), m)
  {
    var p := IsResidue(m, r);
    forall n: nat ensures p(n + m) == p(n) { SameRemainder(n, m); }
  }

  lemma SameRemainder(n: nat, m: nat)
    requires m > 0
    ensures (n + m) % m == n % m
  {
    DividesAs(n, m);
    OneMore(n / m + 1, m);
    Division(n + m, m, n / m + 1, n % m);
  }

  /** A partial round sees residue `r` once if it gets that far. */
  lemma PartialRound(m: nat, r: nat, k: nat, tail: nat)
    requires r < m && tail <= m
    ensures Count(IsResidue(m, r), k * m, tail) == if r < tail then 1 else 0
  {
    var p, first := IsResidue(m, r), (n: nat) => n == r;
    forall n: nat | k * m <= n < k * m + tail ensures p(n) == first(n - k * m + 0) {
      ModOfShift(m, k, n - k * m);
    }
    CountAgrees(p, first, k * m, 0, tail);
    CountFirst(first, m, r, tail);
  }

  /** The first `k * m + tail` counters see residue `r` k times, and once more when
      the partial last round reaches it. */
  lemma {:induction false} ResidueCount(m: nat, r: nat, k: nat, tail: nat)
    requires r < m && tail <= m
    ensures Count(IsResidue(m, r), 0, k * m + tail) == k + (if r < tail then 1 else 0)
  {
    var p := IsResidue(m, r);
    CountSplit(p, 0, k * m, tail);
    PartialRound(m, r, k, tail);
    if k > 0 {
      ResidueCount(m, r, k - 1, m);
      assert (k - 1) * m + m == k * m;
    } else {
      assert k * m == 0;
    }
  }
}
