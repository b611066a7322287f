# Open-addressing hash table, modelled in Dafny

This project models `Hash_table` in `main.py`, a teaching hash table of fixed
capacity that maps string keys to string values. The table is a flat list of
`Bucket(key, val)` pairs, and the empty key `""` marks a free bucket. The hash
of a key is its integer value modulo the capacity. There are two ways to
resolve collisions: linear probing, which walks forward and wraps around, and
quadratic probing, which visits `home + i + i*i` for a bounded `i`. Search
looks at the home bucket, then scans forward from home to the end, then
backward from `home - 1` to 0. The table keeps three counters: `keyCount`,
`collisions` and `comparisons`.

The Python methods mutate the table in place. Here each operation is a
method that takes a `Table` value and returns the table after the call, next
to its Python return value. This lets the contracts say exactly how the
buckets and each counter change. The Python while-loops stay while-loops,
and their invariants are proved against pure definitions of the probe
sequences.

Files:

- `keys.dfy` (module `Keys`): the keys the hash function accepts, which are
  decimal strings with an optional leading `-`. Also holds their integer
  value and the canonical spelling of an integer.
- `buckets.dfy` (module `Buckets`): `Bucket`, the free-bucket sentinel, and
  `CountOccupied`, the number of buckets holding a key.
- `probing.dfy` (module `Probing`): the linear, quadratic and search visiting
  orders. It includes `FirstFreeOffset` (the first free bucket along the
  linear sequence), `IsFirstFreeQuadStep` (the least quadratic step within
  the limit of 20000 that lands on a free bucket) and `SearchRank` (the
  position of a bucket in the search order).
- `hash_table.dfy` (module `HashTable`): the table and its operations.
- `scenarios.dfy` (module `Scenarios`): small worked runs whose outcomes the
  contracts fix exactly.

Behaviour of the code that is easy to misread. The model follows the code in
each case:

- Linear insertion counts one collision for every occupied bucket it visits,
  the home bucket included (main.py:128-130). Inserting `"0"`, `"5"` and
  `"10"` into five buckets therefore gives 3 collisions. For a
  successful insert the increase is the number of steps `k` from home to the
  bucket used, and `Probing.LinearPosDistance` shows this is
  `(placed - home) mod n`.
- The forward search loop starts at `home` itself (main.py:159), so a miss at
  home costs one comparison before the scan moves on.
- Search is complete. The backward scan from `home - 1` down to 0 covers the
  buckets the forward scan skips. A key that linear insertion placed by
  wrapping around past the end is found in the backward scan, as
  `Scenarios.WrappedKeyScenario` shows.
- Neither insert checks for a key that is already present. A second insert
  of the same key stores a second pair when the insert succeeds, and search
  returns whichever copy comes first in its visiting order.
- `LinearInsert` requires `Valid`, which says `keyCount` equals the number of
  occupied buckets. The class keeps this invariant, since only the two
  inserts change buckets or `keyCount`. The Python loop relies on it to
  terminate.
- The hash uses Python's `%`. Its result has the sign of the divisor, and for
  the positive capacity this is the same as Dafny's Euclidean `%`, including
  for negative keys.

## Model

| member | source | states |
|---|---|---|
| HashTable.NewTable | main.py:29-35 | a new table of positive capacity `n` has `n` buckets, all `("", "")`, `collisions`, `keyCount` and `comparisons` all 0, satisfies the count invariant, and is not full |
| HashTable.FullIffNoFreeBucket | main.py:37-41 | in a valid table `keyCount <= n_buckets`, and `isFull` holds exactly when no bucket is free |
| HashTable.HomeIndex | main.py:51-52 | the home bucket is in `[0, n_buckets)` and differs from the key's integer value by a multiple of the capacity, which is Python's floor remainder for a positive capacity, negative keys included |
| HashTable.LinearInsert | main.py:105-140 | succeeds exactly when the table is not full. A refused insert changes nothing. A successful one writes the pair into the first free bucket along home, home+1, ... (wrapping), changes no other bucket, raises `collisions` by the `k < n` occupied buckets met (home included), raises `keyCount` by 1, and keeps the count invariant |
| HashTable.QuadraticProbe | main.py:55-72 | reports a free bucket exactly when some step `i` in `1..20000` lands on one. It then returns the position `(home + i + i*i) mod n` of the least such `i`, and otherwise the position of step 20000 |
| HashTable.QuadraticInsert | main.py:74-100 | a free home bucket takes the pair with no collision counted. Otherwise `collisions` rises by exactly 1, the pair goes to the least free quadratic step, and when there is none the result is false with buckets and `keyCount` unchanged. Keeps the count invariant |
| HashTable.SearchLinear | main.py:147-176 | finds the key exactly when some bucket holds it, returning the first such bucket in the order home, home..n-1, home-1..0. `comparisons` rises by that bucket's position in the order (0 at home, `j - home` forward, `n - 1 - j` backward) or by `n` on a miss. Nothing else changes |
| HashTable.LinearInsertAll | main.py:225-235 | inserting records in order stores `min(records, free capacity)` of them, so every record succeeds until the table is full. `keyCount` rises by that number and the count invariant holds |
| Keys.ParseKey | main.py:52 | a key without a leading minus denotes a non-negative integer, and one with a minus denotes a non-positive integer |
| Keys.ParseKeyOfKeyOf | main.py:52 | every integer's canonical decimal spelling is a key that reads back as that integer |
| Keys.ParseKeyIgnoresLeadingZero | main.py:52 | a leading `0` in front of a digit string does not change the integer it denotes, as `int("007") == 7` |
| Keys.ParseKeyOfNegated | main.py:52 | a leading `-` negates the integer its digits denote, so `"-0"` denotes 0; with the two rows above this fixes the value of every key |
| Keys.DecimalKeyIsNotSentinel | main.py:52 | no key the hash accepts is the empty free-bucket marker |
| Buckets.NoneOccupiedIffAllFree | main.py:32-34 | the occupied count is 0 exactly when every bucket is free |
| Buckets.AllOccupiedIffNoneFree | main.py:37-41 | the occupied count equals the number of buckets exactly when no bucket is free |
| Buckets.PlacingInFreeBucketCountsOne | main.py:84-87 | writing a keyed pair over a free bucket raises the occupied count by exactly one, as the inserts' `keyCount += 1` assumes |
| Probing.FirstFreeOffset | main.py:128-132 | the least number of linear steps from home to a free bucket: every earlier step lands on an occupied bucket |
| Probing.FirstFreeOffsetFindsFreeBucket | main.py:126-132 | the linear scan finds a free bucket within `n` steps from any home exactly when some bucket is free |
| Probing.LinearPosReachesEveryBucket | main.py:128-132 | every bucket lies fewer than `n` wrapping steps from every home |
| Probing.LinearPosDistance | main.py:128-132 | the number of steps to a bucket is its distance from home modulo `n` |
| Probing.QuadPosSpelledOut | main.py:63-64 | the quadratic position is `(home + i + i**2) mod n`, as main.py computes it |
| Probing.FirstFreeQuadStepUnique | main.py:61-71 | at most one step is the least quadratic step that lands on a free bucket |
| Probing.TwoBucketQuadStepsStayHome | main.py:61-71 | with two buckets and bucket 0 taken, no quadratic step from 0 in `1..20000` finds a free bucket, because `i + i*i` is even |
| Probing.SearchOrderVisitsEachBucketOnce | main.py:157-173 | the search order has length `n` and visits every bucket exactly once, with `SearchRank` as its inverse |
| Scenarios.SharedHomeScenario | main.py:128-130 | `"0"`, `"5"`, `"10"` in five buckets land in buckets 0, 1, 2 with 3 collisions, and searching `"5"` finds it with 1 comparison |
| Scenarios.WrappedKeyScenario | main.py:166-173 | a key wrapped from the last bucket to bucket 0 is found by the backward scan after 4 comparisons |
| Scenarios.QuadraticMissScenario | main.py:93-100 | in a two-bucket table with bucket 0 taken, a quadratic insert with home 0 fails though the table is not full, and counts one collision |
| Scenarios.FullTableScenario | main.py:126-127 | after three keys fill three buckets, a fourth linear insert returns false and leaves the table unchanged |

## Left out

- `load_lynx_json` and `custom_json_decoder` (main.py:190-205) are left out because they are file I/O, JSON parsing and dynamic record types. The batch insert takes the records as a sequence of pairs.
- `main()` is left out apart from its insert loop (main.py:232-235): wall-clock timing, console printing, the fixed `stops.json` run and the single hard-coded search.
- `Bucket.print_me` and `Hash_table.print_hash_table` (main.py:22-23, 44-47) are left out because they only print.
- The table's `name` attribute (main.py:30) is never read, so it is not modelled.
- HashTable.HomeIndex: Python's `int()` leniency is not modelled (surrounding whitespace, a leading `+`, `_` digit separators, non-ASCII digits), nor its `ValueError` on a non-numeric key, nor the `ValueError` CPython raises for a decimal string longer than its integer-conversion digit limit (4300 digits by default). Keys are required to be ASCII decimal strings with an optional leading `-`, of any length, so the model hashes and stores a key that long where Python raises in `compute_hash_bucket` and so in every insert and search.
- HashTable.NewTable: requires a positive capacity. Python builds an empty table for capacity 0, and every later hash then divides by zero. For a negative capacity it builds an empty list with a negative `n_buckets`, and every later hash yields an index into that empty list, which raises `IndexError`.
- HashTable.SearchLinear: returns the found bucket as a value. Python returns the stored `Bucket` object itself (main.py:153, 164, 173), so a caller that assigns to its `key` or `val` changes the table, and setting `key` to `""` breaks the key-count invariant. Such aliasing is not modelled.
- `TABLE_SIZE` (main.py:12) and the advice to choose a prime are not modelled, because the capacity is a parameter.
- The discarded `Bucket(key_str, val_str)` expressions (main.py:76, main.py:107) and the unreachable `isFound = True` (main.py:154) are dead code.
- Python's unbounded integers are modelled as Dafny's unbounded `int`/`nat`, so no overflow is modelled.
