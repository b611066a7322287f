/** Probe sequences.

    The three orders in which the table visits its buckets, as pure
    definitions the table's loops are specified against:
    - linear insertion visits home, home+1, ... modulo the capacity;
    - quadratic insertion visits home + i + i*i modulo the capacity for
      i = 1 .. ProbeLimit;
    - linear search visits home, home+1 .. n-1, then home-1 down to 0.
 */
module Probing {
  import opened Buckets

  /** The bounded number of quadratic probe steps. */
  const ProbeLimit: nat := 20000

  // ---------------------------------------------------------------------------
  // Linear probing

  /** The bucket `k` steps after `home`, wrapping around once at the capacity `n`. */
  function LinearPos(home: nat, k: nat, n: nat): (p: nat)
    requires home < n && k < n
    ensures p < n
    ensures p == (home + k) % n
  {
    if home + k < n then home + k else home + k - n
  }

  /** Every bucket lies on the linear probe sequence from every home, fewer
      than `n` steps away. */
  lemma LinearPosReachesEveryBucket(home: nat, i: nat, n: nat)
    requires home < n && i < n
    ensures exists k :: 0 <= k < n && LinearPos(home, k, n) == i
  {
    if i >= home {
      assert LinearPos(home, i - home, n) == i;
    } else {
      assert LinearPos(home, i + n - home, n) == i;
    }
  }

  /** The number of steps to a bucket is its distance from home, taken
      modulo the capacity. */
  lemma LinearPosDistance(home: nat, k: nat, n: nat)
    requires home < n && k < n
    ensures (LinearPos(home, k, n) - home) % n == k
  {
  }

  /** The number of steps from `home` to the first free bucket at or after
      step `k`, or `|b|` when steps `k .. |b|-1` all land on occupied buckets. */
  function FirstFreeOffset(b: seq<Bucket>, home: nat, k: nat): (r: nat)
    requires home < |b| && k <= |b|
    ensures k <= r <= |b|
    ensures r < |b| ==> IsFree(b[LinearPos(home, r, |b|)])
    ensures forall m :: k <= m < r ==> !IsFree(b[LinearPos(home, m, |b|)])
    decreases |b| - k
  {
    if k == |b| then k
    else if IsFree(b[LinearPos(home, k, |b|)]) then k
    else FirstFreeOffset(b, home, k + 1)
  }

  /** Linear probing from any home finds a free bucket within `|b|` steps
      exactly when the buckets have a free one. */
  lemma FirstFreeOffsetFindsFreeBucket(b: seq<Bucket>, home: nat)
    requires home < |b|
    ensures FirstFreeOffset(b, home, 0) < |b| <==> exists i :: 0 <= i < |b| && IsFree(b[i])
  {
    var r := FirstFreeOffset(b, home, 0);
    if r == |b| {
      forall i | 0 <= i < |b|
        ensures !IsFree(b[i])
      {
        LinearPosReachesEveryBucket(home, i, |b|);
        var k :| 0 <= k < |b| && LinearPos(home, k, |b|) == i;
        assert !IsFree(b[LinearPos(home, k, |b|)]);
      }
    } else {
      assert IsFree(b[LinearPos(home, r, |b|)]);
    }
  }

  // ---------------------------------------------------------------------------
  // Quadratic probing

  /** The offset `i + i*i` of quadratic step `i` from home, accumulated as
      2 + 4 + ... + 2i. */
  function QuadOffset(i: nat): nat {
    if i == 0 then 0 else QuadOffset(i - 1) + 2 * i
  }

  lemma {:induction false} QuadOffsetIsStepPlusSquare(i: nat)
    ensures QuadOffset(i) == i + i * i
  {
    if i > 0 {
      QuadOffsetIsStepPlusSquare(i - 1);
      assert (i - 1) * (i - 1) == i * i - 2 * i + 1;
    }
  }

  /** The bucket visited at quadratic step `i` from `home`. */
  function QuadPos(home: nat, i: nat, n: nat): (p: nat)
    requires n > 0
    ensures p < n
  {
    (home + QuadOffset(i)) % n
  }

  /** `QuadPos` is the position main.py computes, `(home + i + i**2) % n`. */
  lemma QuadPosSpelledOut(home: nat, i: nat, n: nat)
    requires n > 0
    ensures (home + i + i * i) % n == QuadPos(home, i, n)
  {
    QuadOffsetIsStepPlusSquare(i);
  }

  /** Some quadratic step in `1 .. ProbeLimit` lands on a free bucket. */
  predicate QuadStepsFindFree(b: seq<Bucket>, home: nat)
    requires 0 < |b|
  {
    exists i :: 1 <= i <= ProbeLimit && IsFree(b[QuadPos(home, i, |b|)])
  }

  /** Step `i` is the least quadratic step in `1 .. ProbeLimit` that lands on
      a free bucket. */
  predicate IsFirstFreeQuadStep(b: seq<Bucket>, home: nat, i: nat)
    requires 0 < |b|
  {
    && 1 <= i <= ProbeLimit
    && IsFree(b[QuadPos(home, i, |b|)])
    && forall j :: 1 <= j < i ==> !IsFree(b[QuadPos(home, j, |b|)])
  }

  /** The least free quadratic step is unique. */
  lemma FirstFreeQuadStepUnique(b: seq<Bucket>, home: nat, i: nat, j: nat)
    requires 0 < |b| && IsFirstFreeQuadStep(b, home, i) && IsFirstFreeQuadStep(b, home, j)
    ensures i == j
  {
  }

  lemma {:induction false} QuadOffsetIsEven(i: nat)
    ensures QuadOffset(i) % 2 == 0
  {
    if i > 0 {
      QuadOffsetIsEven(i - 1);
    }
  }

  /** With two buckets every quadratic step from bucket 0 lands back on
      bucket 0, because i + i*i is even: once bucket 0 is taken no quadratic
      step finds a free bucket, whatever bucket 1 holds. */
  lemma TwoBucketQuadStepsStayHome(b: seq<Bucket>)
    requires |b| == 2 && !IsFree(b[0])
    ensures !QuadStepsFindFree(b, 0)
  {
    forall i | 1 <= i <= ProbeLimit
      ensures !IsFree(b[QuadPos(0, i, 2)])
    {
      QuadOffsetIsEven(i);
    }
  }

  // ---------------------------------------------------------------------------
  // Linear search order

  /** The buckets in the order linear search visits them: home, the buckets
      after it up to the end, then the buckets before it down to 0. */
  function SearchOrder(home: nat, n: nat): (order: seq<int>)
    requires home < n
  {
    seq(n - home, k => home + k) + seq(home, k => home - 1 - k)
  }

  /** The position of bucket `j` in the search order from `home`, which is
      also the number of mismatching buckets visited before reaching it. */
  function SearchRank(home: nat, j: nat, n: nat): (r: nat)
    requires home < n && j < n
    ensures r < n
  {
    if j >= home then j - home else n - 1 - j
  }

  /** The search order visits every bucket exactly once, and `SearchRank` is
      its inverse. */
  lemma SearchOrderVisitsEachBucketOnce(home: nat, n: nat)
    requires home < n
    ensures |SearchOrder(home, n)| == n
    ensures forall k :: 0 <= k < n ==> 0 <= SearchOrder(home, n)[k] < n
    ensures forall k :: 0 <= k < n ==> SearchRank(home, SearchOrder(home, n)[k], n) == k
    ensures forall j :: 0 <= j < n ==> SearchOrder(home, n)[SearchRank(home, j, n)] == j
  {
  }

  /** Bucket `j` holds `key` and no bucket visited earlier in the search order does. */
  predicate IsFirstMatch(b: seq<Bucket>, home: nat, key: string, j: nat)
    requires home < |b|
  {
    && j < |b|
    && b[j].key == key
    && forall i :: 0 <= i < |b| && SearchRank(home, i, |b|) < SearchRank(home, j, |b|) ==> b[i].key != key
  }
}
