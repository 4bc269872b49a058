/** Round-robin by counter, and the weighted random pick for one drawn number. */
module PlainPicks {
  import opened SmoothWrr

  // ---- Counter-based round-robin -------------------------------------------------------------------------------

  /** How many of the `L` picks that start at counter value `a` land on position `i` of `n`. */
  function Hits(i: nat, n: nat, a: nat, L: nat): nat
    requires n > 0
    decreases L
  {
    if L == 0 then 0 else (if a % n == i then 1 else 0) + Hits(i, n, a + 1, L - 1)
  }

  lemma {:induction false} HitsAppend(i: nat, n: nat, a: nat, L: nat)
    requires n > 0
    ensures Hits(i, n, a, L + 1) == Hits(i, n, a, L) + (if (a + L) % n == i then 1 else 0)
    decreases L
  {
    if L > 0 {
      HitsAppend(i, n, a + 1, L - 1);
    }
  }

  lemma {:induction false} HitsSplit(i: nat, n: nat, a: nat, K: nat, L: nat)
    requires n > 0
    ensures Hits(i, n, a, K + L) == Hits(i, n, a, K) + Hits(i, n, a + K, L)
    decreases K
  {
    if K > 0 {
      HitsSplit(i, n, a + 1, K - 1, L);
    }
  }

  lemma ModPeriod(a: nat, n: nat)
    requires n > 0
    ensures (a + n) % n == a % n
  {
    assert a == (a / n) * n + a % n;
    assert a + n == (a / n + 1) * n + a % n;
    ModUnique(a / n + 1, n, a % n);
  }

  lemma ModUnique(q: nat, n: nat, r: nat)
    requires r < n
    ensures q * n >= 0 && (q * n + r) % n == r && (q * n + r) / n == q
  {
    var x := q * n + r;
    assert x == (x / n) * n + x % n;
    assert (x / n - q) * n == r - x % n;
    MultipleGrows(x / n - q, n);
  }

  lemma MultipleGrows(k: int, n: nat)
    ensures k >= 1 ==> k * n >= n
    ensures k <= -1 ==> k * n + n <= 0
  {
    if k >= 1 {
      assert (k - 1) * n >= 0;
    } else if k <= -1 {
      assert (k + 1) * n <= 0;
    }
  }

  lemma {:induction false} HitsBeforeWrap(i: nat, n: nat, L: nat)
    requires n > 0 && L <= n
    ensures Hits(i, n, 0, L) == if i < L then 1 else 0
  {
    if L > 0 {
      HitsBeforeWrap(i, n, L - 1);
      HitsAppend(i, n, 0, L - 1);
      ModUnique(0, n, L - 1);
    }
  }

  /** `n` consecutive picks visit every position once, wherever they start. */
  lemma {:induction false} HitsOncePerRound(i: nat, n: nat, a: nat)
    requires i < n
    ensures Hits(i, n, a, n) == 1
  {
    if a == 0 {
      HitsBeforeWrap(i, n, n);
    } else {
      HitsOncePerRound(i, n, a - 1);
      HitsAppend(i, n, a - 1, n);
      ModPeriod(a - 1, n);
    }
  }

  /** Every window of `L` picks visits every position either floor(L/n) or ceil(L/n) times. */
  lemma {:induction false} RoundRobinIsFair(i: nat, n: nat, a: nat, L: nat)
    requires i < n
    ensures L / n <= Hits(i, n, a, L) <= (L + n - 1) / n
    decreases L
  {
    if L < n {
      HitsOncePerRound(i, n, a);
      HitsSplit(i, n, a, L, n - L);
      ModUnique(0, n, L);
      if L == 0 {
        ModUnique(0, n, n - 1);
      } else {
        ModUnique(1, n, L - 1);
      }
    } else {
      HitsOncePerRound(i, n, a);
      HitsSplit(i, n, a, n, L - n);
      RoundRobinIsFair(i, n, a + n, L - n);
      DivPeriod(L - n, n);
      DivPeriod(L - n + n - 1, n);
    }
  }

  lemma DivPeriod(a: nat, n: nat)
    requires n > 0
    ensures (a + n) / n == a / n + 1
  {
    assert a + n == (a / n + 1) * n + a % n;
    ModUnique(a / n + 1, n, a % n);
  }

  // ---- Weighted random -----------------------------------------------------------------------------------------

  /** The drawn number falls into the stretch of the cumulative weights that belongs to position `i`. */
  predicate Selects(weights: seq<int>, draw: int, i: nat) {
    i < |weights| && Sum(weights[..i]) <= draw < Sum(weights[..i + 1])
  }

  lemma {:induction false} PrefixSumsGrow(weights: seq<int>, i: nat, j: nat)
    requires IsWeights(weights) && i <= j <= |weights|
    ensures 0 <= Sum(weights[..i]) <= Sum(weights[..j])
    ensures i < j ==> Sum(weights[..i]) < Sum(weights[..j])
    decreases i + j
  {
    if i < j {
      PrefixSumsGrow(weights, i, j - 1);
      assert weights[..j][..j - 1] == weights[..j - 1];
    } else if i > 0 {
      PrefixSumsGrow(weights, i - 1, j - 1);
      assert weights[..j][..j - 1] == weights[..j - 1];
    }
  }

  lemma SelectsAtMostOne(weights: seq<int>, draw: int, i: nat, j: nat)
    requires IsWeights(weights) && Selects(weights, draw, i) && Selects(weights, draw, j)
    ensures i == j
  {
    if i < j {
      PrefixSumsGrow(weights, i + 1, j);
    } else if j < i {
      PrefixSumsGrow(weights, j + 1, i);
    }
  }

  ghost function Draws(weights: seq<int>, i: nat): set<int>
    requires |weights| > 0
  {
    set draw: int | 0 <= draw < Sum(weights) && Selects(weights, draw, i)
  }

  predicate Between(lo: int, v: int, hi: int) {
    lo <= v < hi
  }

  function Interval(lo: int, hi: int): set<int> {
    set v: int | lo <= v < hi && Between(lo, v, hi)
  }

  lemma {:induction false} IntervalSize(lo: int, hi: int)
    requires lo <= hi
    ensures |Interval(lo, hi)| == hi - lo
    decreases hi - lo
  {
    if lo < hi {
      IntervalSize(lo, hi - 1);
      assert Interval(lo, hi) == Interval(lo, hi - 1) + {hi - 1};
    }
  }

  /** Exactly `weights[i]` of the `Sum(weights)` equally likely draws select instance `i`. */
  lemma WeightedDrawsAreExact(weights: seq<int>, i: nat)
    requires IsWeights(weights) && i < |weights|
    ensures |Draws(weights, i)| == weights[i]
  {
    var lo, hi := Sum(weights[..i]), Sum(weights[..i + 1]);
    assert weights[..i + 1][..i] == weights[..i];
    assert weights[..|weights|] == weights;
    PrefixSumsGrow(weights, i, i + 1);
    PrefixSumsGrow(weights, i + 1, |weights|);
    assert Draws(weights, i) == Interval(lo, hi);
    IntervalSize(lo, hi);
  }
}
