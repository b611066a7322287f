/** Worked runs of the table on small capacities, each fixing the exact
    outcome the operations' contracts force. */
module Scenarios {
  import opened Keys
  import opened Buckets
  import opened Probing
  import opened HashTable

  lemma SmallKeyValues()
    ensures IsDecimalKey("0") && ParseKey("0") == 0
    ensures IsDecimalKey("2") && ParseKey("2") == 2
    ensures IsDecimalKey("4") && ParseKey("4") == 4
    ensures IsDecimalKey("5") && ParseKey("5") == 5
    ensures IsDecimalKey("9") && ParseKey("9") == 9
    ensures IsDecimalKey("10") && ParseKey("10") == 10
  {
    assert "10"[..1] == "1";
    assert "1"[..0] == "";
  }

  /** Keys "0", "5" and "10" share home bucket 0 of a five-bucket table.
      They land in buckets 0, 1 and 2; the second insert meets one occupied
      bucket and the third meets two, so three collisions are counted.
      Searching for "5" then misses bucket 0 (one comparison) and finds the
      key in bucket 1. */
  method SharedHomeScenario() returns (t: Table, r: SearchResult)
    ensures |t.buckets| == 5
    ensures t.buckets[..3] == [Bucket("0", "a"), Bucket("5", "b"), Bucket("10", "c")]
    ensures t.keyCount == 3 && t.collisions == 3
    ensures r == Found(Bucket("5", "b")) && t.comparisons == 1
  {
    SmallKeyValues();
    t := NewTable(5);
    var ok;
    ok, t := LinearInsert(t, "0", "a");
    assert t.buckets[0] == Bucket("0", "a");
    ok, t := LinearInsert(t, "5", "b");
    assert t.buckets[1] == Bucket("5", "b");
    assert IsFree(t.buckets[2]) && t.keyCount == 2;
    assert FirstFreeOffset(t.buckets, 0, 2) == 2;
    ok, t := LinearInsert(t, "10", "c");
    assert t.buckets[2] == Bucket("10", "c");
    assert forall i :: 0 <= i < 5 && t.buckets[i].key == "5" ==> i == 1;
    assert t.buckets[1].key == "5";
    r, t := SearchLinear(t, "5");
    assert r.Found?;
    assert r.bucket == t.buckets[1];
    assert t.comparisons == 1;
  }

  /** Key "9" finds its home bucket 4 (the last one) taken by "4" and wraps
      around to bucket 0. Search still finds it, in its backward scan, after
      four mismatching buckets. */
  method WrappedKeyScenario() returns (t: Table, r: SearchResult)
    ensures |t.buckets| == 5
    ensures t.buckets[0] == Bucket("9", "b") && t.buckets[4] == Bucket("4", "a")
    ensures t.collisions == 1
    ensures r == Found(Bucket("9", "b")) && t.comparisons == 4
  {
    SmallKeyValues();
    t := NewTable(5);
    var ok;
    ok, t := LinearInsert(t, "4", "a");
    assert t.buckets[4] == Bucket("4", "a");
    ok, t := LinearInsert(t, "9", "b");
    assert t.buckets[0] == Bucket("9", "b");
    assert forall i :: 0 <= i < 5 && t.buckets[i].key == "9" ==> i == 0;
    r, t := SearchLinear(t, "9");
  }

  /** In a two-bucket table every quadratic step from bucket 0 returns to
      bucket 0, so once it is taken a second key with home 0 is refused
      although bucket 1 is free and the table is not full. */
  method QuadraticMissScenario() returns (isStored: bool, t: Table)
    ensures !isStored && Valid(t) && !IsFull(t)
    ensures t.keyCount == 1 && t.collisions == 1
  {
    SmallKeyValues();
    t := NewTable(2);
    var ok;
    ok, t := QuadraticInsert(t, "0", "a");
    TwoBucketQuadStepsStayHome(t.buckets);
    isStored, t := QuadraticInsert(t, "2", "b");
  }

  /** Once three keys fill a three-bucket table, a fourth linear insert is
      refused and changes nothing. */
  method FullTableScenario() returns (isStored: bool, before: Table, after: Table)
    ensures IsFull(before) && before.keyCount == 3
    ensures !isStored && after == before
  {
    SmallKeyValues();
    before := NewTable(3);
    var ok;
    ok, before := LinearInsert(before, "0", "a");
    ok, before := LinearInsert(before, "5", "b");
    ok, before := LinearInsert(before, "10", "c");
    isStored, after := LinearInsert(before, "4", "d");
  }
}
