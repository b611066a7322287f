/** The open-addressing hash table of main.py.

    A table is a fixed number of buckets plus three counters: `keyCount`
    (buckets holding a key), `collisions` (occupied buckets met while
    inserting) and `comparisons` (mismatching buckets met while searching).
    Each operation takes a table and returns the table after the call, so the
    contracts can say exactly how buckets and counters move.
 */
module HashTable {
  import opened Keys
  import opened Buckets
  import opened Probing

  datatype Table = Table(
    nBuckets: nat,
    buckets: seq<Bucket>,
    collisions: nat,
    keyCount: nat,
    comparisons: nat)

  /** What a search returns: the bucket holding the key, or "Key not found". */
  datatype SearchResult = Found(bucket: Bucket) | KeyNotFound

  /** The shape every table has: a positive capacity and that many buckets. */
  predicate WellFormed(t: Table) {
    t.nBuckets > 0 && |t.buckets| == t.nBuckets
  }

  /** The invariant the insert operations keep: `keyCount` counts the
      buckets that hold a key. */
  predicate Valid(t: Table) {
    WellFormed(t) && t.keyCount == CountOccupied(t.buckets)
  }

  predicate IsFull(t: Table) {
    t.keyCount == t.nBuckets
  }

  /** A fresh table: `n` free buckets, all counters zero. */
  function NewTable(n: nat): (t: Table)
    requires n > 0
    ensures Valid(t) && t.nBuckets == n && !IsFull(t)
    ensures forall i :: 0 <= i < n ==> t.buckets[i] == EmptyBucket
    ensures t.collisions == 0 && t.keyCount == 0 && t.comparisons == 0
  {
    var b := seq(n, _ => EmptyBucket);
    NoneOccupiedIffAllFree(b);
    Table(n, b, 0, 0, 0)
  }

  /** In a valid table the key count is bounded by the capacity, and the
      table is full exactly when no bucket is free. */
  lemma FullIffNoFreeBucket(t: Table)
    requires Valid(t)
    ensures t.keyCount <= t.nBuckets
    ensures IsFull(t) <==> forall i :: 0 <= i < t.nBuckets ==> !IsFree(t.buckets[i])
  {
    AllOccupiedIffNoneFree(t.buckets);
  }

  /** The hash function: the key's integer value modulo the capacity, with
      Python's floor remainder, which is never negative for a positive
      capacity. */
  function HomeIndex(t: Table, key: string): (h: nat)
    requires t.nBuckets > 0 && IsDecimalKey(key)
    ensures h < t.nBuckets
    ensures exists q: int :: ParseKey(key) == q * t.nBuckets + h
  {
    var q := ParseKey(key) / t.nBuckets;
    assert ParseKey(key) == q * t.nBuckets + ParseKey(key) % t.nBuckets;
    ParseKey(key) % t.nBuckets
  }

  // ---------------------------------------------------------------------------
  // Linear probing

  /** Insert with linear probing. A full table is refused and left as it
      was; otherwise the pair goes into the first free bucket along home,
      home+1, ... (wrapping around), every occupied bucket met on the way,
      home included, counts as one collision, and nothing else changes. No
      check is made for a key that is already present. */
  method LinearInsert(t: Table, key: string, val: string) returns (isStored: bool, t': Table)
    requires Valid(t) && IsDecimalKey(key)
    ensures isStored <==> !IsFull(t)
    ensures !isStored ==> t' == t
    ensures isStored ==>
      var home := HomeIndex(t, key);
      var k := FirstFreeOffset(t.buckets, home, 0);
      && k < t.nBuckets
      && t'.buckets == t.buckets[LinearPos(home, k, t.nBuckets) := Bucket(key, val)]
      && t'.collisions == t.collisions + k
      && t'.keyCount == t.keyCount + 1
      && t'.nBuckets == t.nBuckets
      && t'.comparisons == t.comparisons
    ensures Valid(t')
  {
    var n := t.nBuckets;
    var b := t.buckets;
    var position := HomeIndex(t, key);
    ghost var home := position;
    DecimalKeyIsNotSentinel(key);
    FullIffNoFreeBucket(t);
    FirstFreeOffsetFindsFreeBucket(b, home);
    ghost var target := FirstFreeOffset(b, home, 0);

    if b[position].key == "" {
      assert LinearPos(home, 0, n) == home;
      PlacingInFreeBucketCountsOne(b, position, Bucket(key, val));
      t' := t.(buckets := b[position := Bucket(key, val)], keyCount := t.keyCount + 1);
      return true, t';
    }
    if t.keyCount == n {
      return false, t;
    }
    var collisions := t.collisions;
    ghost var k := 0;
    while b[position].key != ""
      invariant k <= target < n
      invariant position == LinearPos(home, k, n)
      invariant collisions == t.collisions + k
      decreases target - k
    {
      position := position + 1;
      collisions := collisions + 1;
      k := k + 1;
      if position >= n {
        position := 0;
      }
    }
    PlacingInFreeBucketCountsOne(b, position, Bucket(key, val));
    t' := t.(buckets := b[position := Bucket(key, val)], collisions := collisions,
             keyCount := t.keyCount + 1);
    return true, t';
  }

  // ---------------------------------------------------------------------------
  // Quadratic probing

  /** Probe home + i + i*i (modulo the capacity) for i = 1 .. ProbeLimit and
      stop at the first free bucket. When none is free, the position of the
      last step taken is returned with `posFound` false. */
  method QuadraticProbe(b: seq<Bucket>, position: nat) returns (posFound: bool, newPosition: nat)
    requires |b| > 0
    ensures newPosition < |b|
    ensures posFound <==> QuadStepsFindFree(b, position)
    ensures posFound ==>
      exists i :: IsFirstFreeQuadStep(b, position, i) && newPosition == QuadPos(position, i, |b|)
    ensures !posFound ==> newPosition == QuadPos(position, ProbeLimit, |b|)
  {
    posFound := false;
    newPosition := 0;
    var i := 1;
    while i <= ProbeLimit
      invariant 1 <= i <= ProbeLimit + 1
      invariant forall j :: 1 <= j < i ==> !IsFree(b[QuadPos(position, j, |b|)])
      invariant i > 1 ==> newPosition == QuadPos(position, i - 1, |b|)
      invariant newPosition < |b|
    {
      newPosition := position + i + i * i;
      newPosition := newPosition % |b|;
      QuadPosSpelledOut(position, i, |b|);
      if b[newPosition].key == "" {
        posFound := true;
        assert IsFirstFreeQuadStep(b, position, i);
        break;
      } else {
        i := i + 1;
      }
    }
  }

  /** Insert with quadratic probing. A free home bucket takes the pair with
      no collision; otherwise exactly one collision is counted, whether or
      not a free bucket is then found among the bounded quadratic steps, and
      when none is found nothing but that counter changes. The table's
      fullness is not consulted. */
  method QuadraticInsert(t: Table, key: string, val: string) returns (isStored: bool, t': Table)
    requires WellFormed(t) && IsDecimalKey(key)
    ensures WellFormed(t') && t'.nBuckets == t.nBuckets && t'.comparisons == t.comparisons
    ensures Valid(t) ==> Valid(t')
    ensures IsFree(t.buckets[HomeIndex(t, key)]) ==>
      && isStored
      && t'.buckets == t.buckets[HomeIndex(t, key) := Bucket(key, val)]
      && t'.keyCount == t.keyCount + 1
      && t'.collisions == t.collisions
    ensures !IsFree(t.buckets[HomeIndex(t, key)]) ==>
      && t'.collisions == t.collisions + 1
      && (isStored <==> QuadStepsFindFree(t.buckets, HomeIndex(t, key)))
    ensures !IsFree(t.buckets[HomeIndex(t, key)]) && isStored ==>
      exists i ::
        && IsFirstFreeQuadStep(t.buckets, HomeIndex(t, key), i)
        && t'.buckets == t.buckets[QuadPos(HomeIndex(t, key), i, t.nBuckets) := Bucket(key, val)]
        && t'.keyCount == t.keyCount + 1
    ensures !isStored ==> t'.buckets == t.buckets && t'.keyCount == t.keyCount
  {
    var b := t.buckets;
    var position := HomeIndex(t, key);
    DecimalKeyIsNotSentinel(key);
    if b[position].key == "" {
      PlacingInFreeBucketCountsOne(b, position, Bucket(key, val));
      t' := t.(buckets := b[position := Bucket(key, val)], keyCount := t.keyCount + 1);
      return true, t';
    }
    t' := t.(collisions := t.collisions + 1);
    isStored, position := QuadraticProbe(b, position);
    if isStored {
      PlacingInFreeBucketCountsOne(b, position, Bucket(key, val));
      t' := t'.(buckets := b[position := Bucket(key, val)], keyCount := t.keyCount + 1);
    }
  }

  // ---------------------------------------------------------------------------
  // Search

  /** Search for a key: home first, then forward from home (home is looked
      at again) to the last bucket, then backward from home-1 to 0. The
      result is the first bucket holding the key in that order, and each
      mismatching bucket visited counts one comparison; only `comparisons`
      changes. */
  method SearchLinear(t: Table, key: string) returns (r: SearchResult, t': Table)
    requires WellFormed(t) && IsDecimalKey(key)
    ensures t' == t.(comparisons := t'.comparisons)
    ensures r.Found? <==> exists i :: 0 <= i < t.nBuckets && t.buckets[i].key == key
    ensures r.Found? ==>
      var home := HomeIndex(t, key);
      exists j: nat :: && IsFirstMatch(t.buckets, home, key, j)
                       && r.bucket == t.buckets[j]
                       && t'.comparisons == t.comparisons + SearchRank(home, j, t.nBuckets)
    ensures r.KeyNotFound? ==> t'.comparisons == t.comparisons + t.nBuckets
  {
    var n := t.nBuckets;
    var b := t.buckets;
    var position: int := HomeIndex(t, key);
    ghost var home := position;

    if b[position].key == key {
      assert IsFirstMatch(b, home, key, home);
      return Found(b[position]), t;
    }
    var temp := position - 1;
    var comparisons := t.comparisons;
    while position < n
      invariant home <= position <= n
      invariant comparisons == t.comparisons + (position - home)
      invariant forall i :: home <= i < position ==> b[i].key != key
    {
      if b[position].key != key {
        position := position + 1;
        comparisons := comparisons + 1;
      } else {
        assert IsFirstMatch(b, home, key, position);
        return Found(b[position]), t.(comparisons := comparisons);
      }
    }
    position := temp;
    while position >= 0
      invariant -1 <= position < home
      invariant comparisons == t.comparisons + (n - home) + (home - 1 - position)
      invariant forall i :: position < i < n ==> b[i].key != key
    {
      if b[position].key != key {
        position := position - 1;
        comparisons := comparisons + 1;
      } else {
        assert IsFirstMatch(b, home, key, position);
        return Found(b[position]), t.(comparisons := comparisons);
      }
    }
    return KeyNotFound, t.(comparisons := comparisons);
  }

  // ---------------------------------------------------------------------------
  // Batch insertion

  function Min(a: nat, b: nat): nat {
    if a <= b then a else b
  }

  /** Insert a sequence of (key, value) records in order with linear
      probing, counting the successful inserts. Every record succeeds until
      the table is full and every later one is refused, so the number stored
      is the number of records or the free capacity, whichever is smaller. */
  method LinearInsertAll(t: Table, records: seq<(string, string)>) returns (inserted: nat, t': Table)
    requires Valid(t)
    requires forall i :: 0 <= i < |records| ==> IsDecimalKey(records[i].0)
    ensures Valid(t') && t'.nBuckets == t.nBuckets
    ensures inserted == Min(|records|, t.nBuckets - t.keyCount)
    ensures t'.keyCount == t.keyCount + inserted
  {
    FullIffNoFreeBucket(t);
    inserted := 0;
    t' := t;
    var i := 0;
    while i < |records|
      invariant 0 <= i <= |records|
      invariant Valid(t') && t'.nBuckets == t.nBuckets
      invariant inserted == Min(i, t.nBuckets - t.keyCount)
      invariant t'.keyCount == t.keyCount + inserted
    {
      var ok;
      ok, t' := LinearInsert(t', records[i].0, records[i].1);
      if ok {
        inserted := inserted + 1;
      }
      i := i + 1;
    }
  }
}
