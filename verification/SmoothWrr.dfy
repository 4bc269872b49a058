/**
 Smooth weighted round-robin on values: one pick, the run of picks from a zero vector with fixed weights,
 and the run of calls that share the table of weight vectors. Go's `int` is modelled as unbounded.
 */
module SmoothWrr {

  function Sum(s: seq<int>): int {
    if |s| == 0 then 0 else Sum(s[..|s| - 1]) + s[|s| - 1]
  }

  predicate IsWeights(weights: seq<int>) {
    |weights| > 0 && forall i :: 0 <= i < |weights| ==> weights[i] > 0
  }

  predicate AllEqual(values: seq<int>) {
    forall i :: 0 <= i < |values| ==> values[i] == values[0]
  }

  predicate AllTheSame(values: seq<int>) {
    forall i, j :: 0 <= i < |values| && 0 <= j < |values| ==> values[i] == values[j]
  }

  predicate TwoDiffer(values: seq<int>) {
    exists i, j :: 0 <= i < |values| && 0 <= j < |values| && values[i] != values[j]
  }

  /** The test before a weighted pick tells the two apart. */
  lemma SameOrDiffer(values: seq<int>)
    ensures AllEqual(values) <==> AllTheSame(values)
    ensures AllEqual(values) <==> !TwoDiffer(values)
  {
  }

  function Zeros(n: nat): (z: seq<int>)
    ensures |z| == n && forall i :: 0 <= i < n ==> z[i] == 0
  {
    seq(n, _ => 0)
  }

  function Raise(current: seq<int>, weights: seq<int>): (r: seq<int>)
    requires |current| == |weights|
    ensures |r| == |current|
  {
    seq(|current|, i requires 0 <= i < |current| => current[i] + weights[i])
  }

  /** `p` is the first position of the largest element. */
  predicate IsFirstMax(s: seq<int>, p: nat) {
    && p < |s|
    && (forall i :: 0 <= i < |s| ==> s[i] <= s[p])
    && (forall i :: 0 <= i < p ==> s[i] < s[p])
  }

  lemma {:induction false} FirstMaxExists(s: seq<int>) returns (p: nat)
    requires |s| > 0
    ensures IsFirstMax(s, p)
  {
    if |s| == 1 {
      p := 0;
    } else {
      p := FirstMaxExists(s[..|s| - 1]);
      assert forall i :: 0 <= i < |s| - 1 ==> s[..|s| - 1][i] == s[i];
      p := if s[|s| - 1] > s[p] then |s| - 1 else p;
    }
  }

  ghost function FirstMax(s: seq<int>): (p: nat)
    requires |s| > 0
    ensures IsFirstMax(s, p)
  {
    assert exists p: nat :: IsFirstMax(s, p) by {
      var q := FirstMaxExists(s);
    }
    var p: nat :| IsFirstMax(s, p);
    p
  }

  /** The vector stored after one pick, and the picked position. */
  ghost function Step(current: seq<int>, weights: seq<int>): (r: (seq<int>, nat))
    requires |current| == |weights| > 0
    ensures |r.0| == |current| && r.1 < |current|
  {
    var raised := Raise(current, weights);
    var p := FirstMax(raised);
    (raised[p := raised[p] - Sum(weights)], p)
  }

  /** The vector sums to zero and stays strictly above `-bound`. */
  predicate Balanced(current: seq<int>, bound: int) {
    Sum(current) == 0 && forall i :: 0 <= i < |current| ==> current[i] > -bound
  }

  // ---- Sums ----------------------------------------------------------------------------------------------------

  lemma {:induction false} SumRaise(current: seq<int>, weights: seq<int>)
    requires |current| == |weights|
    ensures Sum(Raise(current, weights)) == Sum(current) + Sum(weights)
  {
    if |current| > 0 {
      var n := |current| - 1;
      SumRaise(current[..n], weights[..n]);
      assert Raise(current, weights)[..n] == Raise(current[..n], weights[..n]);
    }
  }

  lemma {:induction false} SumUpdate(s: seq<int>, i: nat, v: int)
    requires i < |s|
    ensures Sum(s[i := v]) == Sum(s) - s[i] + v
  {
    var n := |s| - 1;
    if i == n {
      assert s[i := v][..n] == s[..n];
    } else {
      SumUpdate(s[..n], i, v);
      assert s[i := v][..n] == s[..n][i := v];
    }
  }

  /** A sum is at least any one element plus the common lower bound of the others. */
  lemma {:induction false} SumLowerBound(s: seq<int>, i: nat, low: int)
    requires i < |s|
    requires forall j :: 0 <= j < |s| ==> s[j] >= low
    ensures Sum(s) >= s[i] + (|s| - 1) * low
  {
    var n := |s| - 1;
    if n == 0 {
      assert s[..0] == [];
    } else if i < n {
      SumLowerBound(s[..n], i, low);
      assert n * low == (n - 1) * low + low;
    } else {
      SumLowerBound(s[..n], 0, low);
      assert n * low == (n - 1) * low + low;
    }
  }

  lemma SumPositive(weights: seq<int>)
    requires IsWeights(weights)
    ensures forall i :: 0 <= i < |weights| ==> 0 < weights[i] <= Sum(weights)
  {
    forall i | 0 <= i < |weights| ensures weights[i] <= Sum(weights) {
      SumLowerBound(weights, i, 0);
    }
  }

  lemma {:induction false} SumNonPositive(s: seq<int>)
    requires forall i :: 0 <= i < |s| ==> s[i] <= 0
    ensures Sum(s) <= 0
  {
    if |s| > 0 {
      SumNonPositive(s[..|s| - 1]);
    }
  }

  lemma {:induction false} SumZeros(n: nat)
    ensures Sum(Zeros(n)) == 0
  {
    if n > 0 {
      SumZeros(n - 1);
      assert Zeros(n)[..n - 1] == Zeros(n - 1);
    }
  }

  function Total(weights: seq<int>): (W: nat)
    requires IsWeights(weights)
    ensures W == Sum(weights) > 0
    ensures forall i :: 0 <= i < |weights| ==> weights[i] <= W
  {
    SumPositive(weights);
    assert weights[0] <= Sum(weights);
    Sum(weights)
  }

  // ---- One pick ------------------------------------------------------------------------------------------------

  /** From any vector that sums to zero the largest raised entry is positive, so a scan that starts below zero
      finds a true maximum. */
  lemma PickIsPositive(current: seq<int>, weights: seq<int>)
    requires |current| == |weights| && IsWeights(weights) && Sum(current) == 0
    ensures Raise(current, weights)[Step(current, weights).1] > 0
  {
    var raised := Raise(current, weights);
    SumRaise(current, weights);
    SumPositive(weights);
    if raised[Step(current, weights).1] <= 0 {
      SumNonPositive(raised);
    }
  }

  /** Sum zero is kept, and so is any strict lower bound not below the total weight. */
  lemma StepKeepsBalance(current: seq<int>, weights: seq<int>, bound: int)
    requires |current| == |weights| && IsWeights(weights)
    requires Balanced(current, bound) && Sum(weights) <= bound
    ensures Balanced(Step(current, weights).0, bound)
  {
    var raised := Raise(current, weights);
    var (next, p) := Step(current, weights);
    SumRaise(current, weights);
    SumUpdate(raised, p, raised[p] - Sum(weights));
    PickIsPositive(current, weights);
  }

  // ---- Picks from a zero vector with fixed weights -------------------------------------------------------------

  ghost function VectorAt(weights: seq<int>, t: nat): (v: seq<int>)
    requires |weights| > 0
    ensures |v| == |weights|
  {
    if t == 0 then Zeros(|weights|) else Step(VectorAt(weights, t - 1), weights).0
  }

  ghost function PickAt(weights: seq<int>, t: nat): (p: nat)
    requires |weights| > 0
    ensures p < |weights|
  {
    Step(VectorAt(weights, t), weights).1
  }

  /** How often position `i` is picked in the picks numbered `a` up to but excluding `b`. */
  ghost function PickCount(weights: seq<int>, i: nat, a: nat, b: nat): nat
    requires |weights| > 0
    decreases b
  {
    if b <= a then 0
    else PickCount(weights, i, a, b - 1) + (if PickAt(weights, b - 1) == i then 1 else 0)
  }

  lemma {:induction false} VectorBalanced(weights: seq<int>, t: nat)
    requires IsWeights(weights)
    ensures Balanced(VectorAt(weights, t), Total(weights))
  {
    if t == 0 {
      SumZeros(|weights|);
    } else {
      VectorBalanced(weights, t - 1);
      StepKeepsBalance(VectorAt(weights, t - 1), weights, Total(weights));
    }
  }

  lemma StepEntry(current: seq<int>, weights: seq<int>, i: nat)
    requires |current| == |weights| && i < |weights|
    ensures var (next, p) := Step(current, weights);
            next[i] == current[i] + weights[i] - (if p == i then Sum(weights) else 0)
  {
  }

  lemma NextOnLedger(entry: int, next: int, t: int, w: int, W: int, n: int, picked: bool)
    requires entry == t * w - W * n && next == entry + w - (if picked then W else 0)
    ensures next == (t + 1) * w - W * (if picked then n + 1 else n)
  {
  }

  /** The ledger: an entry is what the instance was owed minus what its picks cost. */
  lemma {:induction false} Ledger(weights: seq<int>, i: nat, t: nat)
    requires IsWeights(weights) && i < |weights|
    ensures VectorAt(weights, t)[i] == t * weights[i] - Total(weights) * PickCount(weights, i, 0, t)
  {
    if t > 0 {
      Ledger(weights, i, t - 1);
      LedgerStep(weights, i, t - 1, PickCount(weights, i, 0, t - 1));
    }
  }

  lemma LedgerStep(weights: seq<int>, i: nat, t: nat, n: nat)
    requires IsWeights(weights) && i < |weights|
    requires VectorAt(weights, t)[i] == t * weights[i] - Total(weights) * n
    ensures VectorAt(weights, t + 1)[i] ==
            (t + 1) * weights[i] - Total(weights) * (if PickAt(weights, t) == i then n + 1 else n)
  {
    VectorNext(weights, t);
    StepEntry(VectorAt(weights, t), weights, i);
    NextOnLedger(VectorAt(weights, t)[i], VectorAt(weights, t + 1)[i], t, weights[i], Total(weights), n,
                 PickAt(weights, t) == i);
  }

  /** After any number of picks from zero, an instance's count differs from its exact share by less than one pick
      above and by less than `n - 1` picks below. */
  lemma PickCountBounds(weights: seq<int>, i: nat, t: nat)
    requires IsWeights(weights) && i < |weights| && |weights| > 1
    ensures t * weights[i] - Total(weights) * (|weights| - 1) < Total(weights) * PickCount(weights, i, 0, t)
    ensures Total(weights) * PickCount(weights, i, 0, t) < t * weights[i] + Total(weights)
  {
    var W := Total(weights);
    EntryBounds(weights, VectorAt(weights, t), i, t);
    Ledger(weights, i, t);
    ShareBounds(VectorAt(weights, t)[i], t, weights[i], W, PickCount(weights, i, 0, t), |weights| - 1);
  }

  lemma EntryBounds(weights: seq<int>, v: seq<int>, i: nat, t: nat)
    requires IsWeights(weights) && i < |weights| && v == VectorAt(weights, t)
    ensures v[i] + Total(weights) > 0 && 0 >= v[i] + (|weights| - 1) * (1 - Total(weights))
  {
    VectorBalanced(weights, t);
    SumLowerBound(v, i, 1 - Total(weights));
  }

  lemma ShareBounds(entry: int, t: int, w: int, W: int, n: int, others: int)
    requires others > 0 && entry == t * w - W * n
    requires entry > -W && 0 >= entry + others * (1 - W)
    ensures t * w - W * others < W * n < t * w + W
  {
    assert others * (1 - W) == others - W * others;
  }

  lemma NonNegativeZeroSum(s: seq<int>)
    requires Sum(s) == 0
    requires forall i :: 0 <= i < |s| ==> s[i] >= 0
    ensures s == Zeros(|s|)
  {
    forall i | 0 <= i < |s| ensures s[i] == 0 {
      SumLowerBound(s, i, 0);
    }
  }

  lemma Distribute(W: int, a: int, b: int)
    ensures W * (a - b) == W * a - W * b
  {
  }

  lemma {:induction false} NegativeMultiple(W: int, k: int)
    requires W > 0 && k < 0
    ensures W * k <= -W
    decreases -k
  {
    if k < -1 {
      NegativeMultiple(W, k + 1);
      Distribute(W, k + 1, 1);
    }
  }

  /** A multiple of `W` that is above `-W` is not negative. */
  lemma MultipleAboveMinus(entry: int, w: int, W: int, n: int)
    requires W > 0 && entry == W * w - W * n && entry > -W
    ensures entry >= 0
  {
    Distribute(W, w, n);
    if w - n < 0 {
      NegativeMultiple(W, w - n);
    } else {
      assert W * (w - n) >= 0;
    }
  }

  /** One full cycle returns the vector to zero. */
  lemma CycleReturnsToZero(weights: seq<int>)
    requires IsWeights(weights)
    ensures VectorAt(weights, Total(weights)) == Zeros(|weights|)
  {
    var W := Total(weights);
    VectorBalanced(weights, W);
    forall i | 0 <= i < |weights| ensures VectorAt(weights, W)[i] >= 0 {
      Ledger(weights, i, W);
      MultipleAboveMinus(VectorAt(weights, W)[i], weights[i], W, PickCount(weights, i, 0, W));
    }
    NonNegativeZeroSum(VectorAt(weights, W));
  }

  lemma {:induction false} Periodic(weights: seq<int>, t: nat)
    requires IsWeights(weights)
    ensures VectorAt(weights, t + Total(weights)) == VectorAt(weights, t)
    ensures PickAt(weights, t + Total(weights)) == PickAt(weights, t)
  {
    if t == 0 {
      PeriodicFromZero(weights);
    } else {
      Periodic(weights, t - 1);
      var u := t - 1 + Total(weights);
      NextAgrees(weights, t - 1, u);
      assert u + 1 == t + Total(weights);
    }
  }

  lemma PeriodicFromZero(weights: seq<int>)
    requires IsWeights(weights)
    ensures VectorAt(weights, Total(weights)) == VectorAt(weights, 0)
    ensures PickAt(weights, Total(weights)) == PickAt(weights, 0)
  {
    CycleReturnsToZero(weights);
  }

  lemma NextAgrees(weights: seq<int>, t: nat, u: nat)
    requires |weights| > 0 && VectorAt(weights, t) == VectorAt(weights, u)
    ensures VectorAt(weights, t + 1) == VectorAt(weights, u + 1)
    ensures PickAt(weights, t + 1) == PickAt(weights, u + 1)
  {
    VectorNext(weights, t);
    VectorNext(weights, u);
  }

  lemma VectorNext(weights: seq<int>, t: nat)
    requires |weights| > 0
    ensures VectorAt(weights, t + 1) == Step(VectorAt(weights, t), weights).0
  {
  }

  lemma {:induction false} PickCountSplits(weights: seq<int>, i: nat, a: nat, b: nat, c: nat)
    requires |weights| > 0 && a <= b <= c
    ensures PickCount(weights, i, a, c) == PickCount(weights, i, a, b) + PickCount(weights, i, b, c)
  {
    if b < c {
      PickCountSplits(weights, i, a, b, c - 1);
    }
  }

  /** Any `Total(weights)` consecutive picks, wherever they start, return instance `i` exactly `weights[i]` times
      and bring the vector back to what it was. */
  lemma ExactInEveryWindow(weights: seq<int>, t: nat)
    requires IsWeights(weights)
    ensures VectorAt(weights, t + Total(weights)) == VectorAt(weights, t)
    ensures forall i :: 0 <= i < |weights| ==> PickCount(weights, i, t, t + Total(weights)) == weights[i]
  {
    var W := Total(weights);
    Periodic(weights, t);
    forall i | 0 <= i < |weights| ensures PickCount(weights, i, t, t + W) == weights[i] {
      ExactForOne(weights, i, t);
    }
  }

  lemma ExactForOne(weights: seq<int>, i: nat, t: nat)
    requires IsWeights(weights) && i < |weights|
    ensures PickCount(weights, i, t, t + Total(weights)) == weights[i]
  {
    var W := Total(weights);
    var p, q := CycleLedgers(weights, i, t);
    PickCountSplits(weights, i, 0, t, t + W);
  }

  /** The counts of an instance at both ends of a cycle. */
  lemma CycleLedgers(weights: seq<int>, i: nat, t: nat) returns (p: int, q: int)
    requires IsWeights(weights) && i < |weights|
    ensures p == PickCount(weights, i, 0, t) && q == PickCount(weights, i, 0, t + Total(weights))
    ensures q - p == weights[i]
  {
    Periodic(weights, t);
    Ledger(weights, i, t);
    Ledger(weights, i, t + Total(weights));
    p, q := PickCount(weights, i, 0, t), PickCount(weights, i, 0, t + Total(weights));
    EqualLedgers(VectorAt(weights, t)[i], t, weights[i], Total(weights), p, q);
  }

  lemma EqualLedgers(entry: int, t: int, w: int, W: int, p: int, q: int)
    requires W > 0 && entry == t * w - W * p && entry == (t + W) * w - W * q
    ensures q - p == w
  {
    assert (t + W) * w == t * w + W * w;
    Distribute(W, w, q - p);
    Distribute(W, q, p);
    assert W * (w - (q - p)) == 0;
  }

  /** Every cycle boundary counted from zero has a zero vector. */
  lemma {:induction false} CycleBoundary(weights: seq<int>, k: nat, t: nat)
    requires IsWeights(weights) && t == k * Total(weights)
    ensures VectorAt(weights, t) == Zeros(|weights|)
  {
    if k > 0 {
      var u := OneCycleLess(k, Total(weights));
      CycleBoundary(weights, k - 1, u);
      Periodic(weights, u);
    }
  }

  lemma OneCycleLess(k: nat, W: nat) returns (u: nat)
    requires k > 0
    ensures u == (k - 1) * W && k * W == u + W
  {
    u := (k - 1) * W;
  }

  // ---- Runs of calls over the table of weight vectors ----------------------------------------------------------

  type Table = map<string, seq<int>>

  datatype Call = Call(key: string, weights: seq<int>)

  /** The stored vector is used only when its length matches; otherwise a zero vector takes its place. */
  function Stored(table: Table, key: string, size: nat): (v: seq<int>)
    ensures |v| == size
  {
    if key in table && |table[key]| == size then table[key] else Zeros(size)
  }

  /** All-equal weights are left to plain round-robin, which does not touch the table. */
  ghost function AfterCall(table: Table, call: Call): Table
    requires |call.weights| > 0
  {
    if AllEqual(call.weights) then table
    else table[call.key := Step(Stored(table, call.key, |call.weights|), call.weights).0]
  }

  predicate IsRun(calls: seq<Call>) {
    forall i :: 0 <= i < |calls| ==> IsWeights(calls[i].weights)
  }

  ghost function AfterCalls(calls: seq<Call>): Table
    requires IsRun(calls)
  {
    if |calls| == 0 then map[] else AfterCall(AfterCalls(calls[..|calls| - 1]), calls[|calls| - 1])
  }

  function LargestTotal(calls: seq<Call>): nat
    requires IsRun(calls)
  {
    if |calls| == 0 then 0
    else
      var rest, total := LargestTotal(calls[..|calls| - 1]), Sum(calls[|calls| - 1].weights);
      if total > rest then total else rest
  }

  predicate TableBalanced(table: Table, bound: int) {
    forall key :: key in table ==> Balanced(table[key], bound)
  }

  lemma CallKeepsBalance(table: Table, call: Call, bound: int)
    requires IsWeights(call.weights) && TableBalanced(table, bound)
    requires Sum(call.weights) <= bound
    ensures TableBalanced(AfterCall(table, call), bound)
    ensures Balanced(Stored(table, call.key, |call.weights|), bound)
  {
    SumPositive(call.weights);
    assert call.weights[0] <= bound;
    SumZeros(|call.weights|);
    if !AllEqual(call.weights) {
      StepKeepsBalance(Stored(table, call.key, |call.weights|), call.weights, bound);
    }
  }

  /** Whatever weights, members and names the calls use, every stored vector sums to zero and stays strictly above
      minus the largest total seen so far; and the next pick, whatever it is, has a positive raised entry. */
  lemma {:induction false} EveryRunIsBalanced(calls: seq<Call>)
    requires IsRun(calls)
    ensures TableBalanced(AfterCalls(calls), LargestTotal(calls))
  {
    if |calls| > 0 {
      var before, call := calls[..|calls| - 1], calls[|calls| - 1];
      EveryRunIsBalanced(before);
      CallKeepsBalance(AfterCalls(before), call, LargestTotal(calls));
    }
  }

  lemma NextPickIsTrueMaximum(calls: seq<Call>, call: Call)
    requires IsRun(calls) && IsWeights(call.weights)
    ensures var current := Stored(AfterCalls(calls), call.key, |call.weights|);
            var raised := Raise(current, call.weights);
            IsFirstMax(raised, Step(current, call.weights).1) && raised[Step(current, call.weights).1] > 0
  {
    EveryRunIsBalanced(calls);
    SumZeros(|call.weights|);
    PickIsPositive(Stored(AfterCalls(calls), call.key, |call.weights|), call.weights);
  }

  function CallsTo(calls: seq<Call>, key: string): nat {
    if |calls| == 0 then 0
    else CallsTo(calls[..|calls| - 1], key) + (if calls[|calls| - 1].key == key then 1 else 0)
  }

  /** Calls for other names may be interleaved at will: a name whose weights never change follows the fixed-weight
      run. */
  lemma {:induction false} FixedWeightsFollowTheRun(calls: seq<Call>, key: string, weights: seq<int>)
    requires IsRun(calls) && IsWeights(weights) && TwoDiffer(weights)
    requires forall i :: 0 <= i < |calls| && calls[i].key == key ==> calls[i].weights == weights
    ensures Stored(AfterCalls(calls), key, |weights|) == VectorAt(weights, CallsTo(calls, key))
  {
    if |calls| > 0 {
      var before, call := calls[..|calls| - 1], calls[|calls| - 1];
      FixedWeightsFollowTheRun(before, key, weights);
      assert AfterCalls(calls) == AfterCall(AfterCalls(before), call);
      CallFollowsTheRun(AfterCalls(before), call, key, weights, CallsTo(before, key));
    }
  }

  lemma CallFollowsTheRun(table: Table, call: Call, key: string, weights: seq<int>, t: nat)
    requires IsWeights(weights) && !AllEqual(weights) && |call.weights| > 0
    requires call.key == key ==> call.weights == weights
    requires Stored(table, key, |weights|) == VectorAt(weights, t)
    ensures Stored(AfterCall(table, call), key, |weights|) == VectorAt(weights, if call.key == key then t + 1 else t)
  {
    VectorNext(weights, t);
  }
}
