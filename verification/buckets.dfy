/** Buckets and occupancy.

    A bucket holds a key and a value; the empty key marks a free bucket. The
    table keeps its key count equal to the number of buckets that are not
    free; `CountOccupied` is that number and the lemmas below relate it to
    the buckets themselves.
 */
module Buckets {

  datatype Bucket = Bucket(key: string, val: string)

  /** The bucket every slot holds when the table is created. */
  const EmptyBucket: Bucket := Bucket("", "")

  predicate IsFree(b: Bucket) {
    b.key == ""
  }

  /** The number of buckets that hold a key. */
  function CountOccupied(s: seq<Bucket>): (c: nat)
    ensures c <= |s|
  {
    if |s| == 0 then 0 else (if IsFree(s[0]) then 0 else 1) + CountOccupied(s[1..])
  }

  lemma {:induction false} NoneOccupiedIffAllFree(s: seq<Bucket>)
    ensures CountOccupied(s) == 0 <==> forall i :: 0 <= i < |s| ==> IsFree(s[i])
  {
    if |s| > 0 {
      NoneOccupiedIffAllFree(s[1..]);
      assert forall i :: 0 < i < |s| ==> s[i] == s[1..][i - 1];
    }
  }

  lemma {:induction false} AllOccupiedIffNoneFree(s: seq<Bucket>)
    ensures CountOccupied(s) == |s| <==> forall i :: 0 <= i < |s| ==> !IsFree(s[i])
  {
    if |s| > 0 {
      AllOccupiedIffNoneFree(s[1..]);
      assert forall i :: 0 < i < |s| ==> s[i] == s[1..][i - 1];
    }
  }

  /** Writing a keyed bucket over a free one adds exactly one occupied bucket. */
  lemma {:induction false} PlacingInFreeBucketCountsOne(s: seq<Bucket>, i: nat, b: Bucket)
    requires i < |s| && IsFree(s[i]) && !IsFree(b)
    ensures CountOccupied(s[i := b]) == CountOccupied(s) + 1
  {
    if i == 0 {
      assert s[i := b][1..] == s[1..];
    } else {
      assert s[i := b][1..] == s[1..][i - 1 := b];
      PlacingInFreeBucketCountsOne(s[1..], i - 1, b);
    }
  }
}
