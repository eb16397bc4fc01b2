# Set-associative cache simulator, modelled in Dafny

This project models the core of a small cache simulator. The cache has a
capacity of 64 KiB, split into sets of `numWays` lines. An address is split
into three parts:

- the byte offset, which is dropped;
- the set index, the next `log2(numSet)` bits;
- the tag, the bits above those.

A lookup scans the ways of the target set in order. The first valid way that
holds the tag is a hit, and its frequency counter goes up by one. On a miss
the block is installed. It goes into the lowest invalid way. If the set is
full, it replaces the least-frequently-used way: the first way with the
smallest counter. That way's counter is reset to 1. The simulator step
`cacheSim` runs the lookup, and on a miss the installation.

Modules (one file each):

- `AddressCodec` (`address_codec.dfy`): the pure address decoding, powers of
  two and the integer logarithm.
- `LfuSet` (`lfu_set.dfy`): one set as a value (`seq<Line>`).
  - `FirstMatch`, `FirstInvalid` and `Victim` define the three scans.
  - `AfterSearch`, `AfterInsert` and `AfterAccess` give the set after a lookup,
    an installation and one simulator step. The lemmas listed below state
    what these functions mean.
  - Lemmas state the invariants these steps keep.
- `Cache` (`cache.dfy`): the class `SetAssociativeCache`.
  - Its geometry fields are constants.
  - Its table `cache: seq<seq<Line>>` is updated in place by the loops of
    `Search` and `Insert`. Each of these methods is proved against the
    `LfuSet` function for its step.
  - `CacheSim` is the simulator step.
- `Generators` (`generators.dfy`): the address streams.
  - `memGen1`, `memGen4`, `memGen5` and `memGen6` are counter objects. Each
    object owns the static counter of its source function.
  - `memGen2` and `memGen3` are methods of one multiply-with-carry object.
    That object holds the two state words `m_w` and `m_z` of `rand_`.

The source's types map to these:

- `LfuSet.Line` is the `cacheLine` record of cache.cpp:15-22: a counter, a
  valid bit and a tag.
- `Cache.CacheResType` is the `MISS`/`HIT` enumeration of cache.cpp:12.

`Search`, `Insert` and `CacheSim` are specified through the set-level
functions `AfterSearch`, `AfterInsert` and `AfterAccess`. Each of these
functions only promises to keep the number of ways. The lemmas named in
their rows below say what each one does to the set.

Where the design and the code differ, the model follows the code:

- The constructor validates nothing. A line size or an associativity that is
  not a power of two is accepted. `setOffset` is then the rounded-down
  logarithm, and only the first `2^setOffset` sets are ever used.
  `PowerOfTwoGeometry` shows that with power-of-two geometry every set is
  used.
- Filling a free way adds one to its counter instead of setting it to 1.
  Invalid lines always have counter 0 (`LineOk`), so the result is 1 in every
  reachable state (`InsertIntoFreeWay`).
- `insert` does not check that the block is absent. No duplicate tags is an
  invariant of `cacheSim` (`AccessKeepsNoDuplicates`), not of `insert` alone.
- With 128-byte lines and 4 ways, the addresses 0, 128, 256, 384 and 512 fall
  into sets 0 to 4, not into one set (`DriverConsecutiveLines`). The
  multiples of 16 KiB share set 0 (`DriverSetZero`). `ConflictScenario` runs
  five such blocks through one set.

## Model

| member | source | states |
|---|---|---|
| `AddressCodec.Log2` | cache.cpp:40-45 | the result k satisfies 2^k <= x < 2^(k+1): the truncated logarithm used for `byteOffset` and `setOffset` |
| `AddressCodec.Log2OfPow2` | cache.cpp:40-45 | on a power of two the logarithm is exact: 2^Log2(x) == x |
| `AddressCodec.Decode` | cache.cpp:52-54 | the set index is below 2^setOffset, and tag * 2^setOffset + set index equals `address >> byteOffset` |
| `AddressCodec.DecodeUnique` | cache.cpp:52-54 | any split of the block address into a tag and an in-range set index is the decoded one |
| `AddressCodec.TagIsHighBits` | cache.cpp:52-54 | the tag equals `address >> (byteOffset + setOffset)` |
| `AddressCodec.DecodeReconstructs` | cache.cpp:52-54 | tag, set index and the dropped offset bits rebuild the address |
| `AddressCodec.SameFieldsIffSameBlock` | cache.cpp:52-54 | two addresses decode alike if and only if they agree above the byte offset |
| `AddressCodec.OffsetIgnored` | cache.cpp:52 | changing only the offset bits changes neither tag nor set index |
| `AddressCodec.PowerOfTwoQuotient` | cache.cpp:42-45 | a power of two divided by one of its divisors is a power of two |
| `Cache.PowerOfTwoGeometry` | cache.cpp:40-46 | for a power-of-two line size and ways that divide the line count, both logarithms are exact, numSet * numWays equals the line count, and 2^setOffset == numSet, so every set is used |
| `Cache.DriverGeometry` | cache.cpp:194-196 | 128-byte lines and 4 ways give 512 lines, 128 sets, 7 offset bits and 7 set bits |
| `Cache.DriverConsecutiveLines` | cache.cpp:52-54 | under the driver's geometry, address 128k for any k < 128 decodes to set k with tag 0, so consecutive lines fall into consecutive sets |
| `Cache.DriverSetZero` | cache.cpp:52-54 | under the driver's geometry, address 16384k for every k decodes to set 0 with tag k, so all multiples of 16 KiB compete for set 0 |
| `Cache.SetAssociativeCache.constructor` | cache.cpp:38-47 | the geometry fields are the line count, set count and logarithms computed from the line size and ways; every set holds `numWays` empty lines `{0, invalid, 0}` |
| `Cache.SetAssociativeCache.Search` | cache.cpp:49-67 | returns true iff the decoded set holds the decoded tag in a valid way; the new table is the old one with that set replaced by `AfterSearch`, so only the first matching way's counter changes, by one; the invariants are kept |
| `Cache.SetAssociativeCache.Insert` | cache.cpp:69-111 | the new table is the old one with the decoded set replaced by `AfterInsert` (first invalid way filled, else the LFU victim replaced), given that the eviction scan can pick a way |
| `Cache.LeastFrequentWay` | cache.cpp:94-107 | the scan that starts at INT_MAX and keeps the first strictly smaller counter returns the LFU victim whenever some counter is below INT_MAX |
| `Cache.CacheSim` | cache.cpp:170-180 | returns MISS iff the block was not resident; afterwards the block is resident, the table equals `AfterAccess` of the old one, exactly one line changed, and a cache without duplicate tags keeps none |
| `Cache.RepeatedAccessHits` | cache.cpp:170-180 | two `cacheSim` calls on the same address in a row: the first misses iff the block was absent, and the second always hits |
| `LfuSet.EmptySet` | cache.cpp:46 | a set of the given number of ways, each the empty line `{0, invalid, 0}` |
| `LfuSet.FirstMatch` | cache.cpp:58-66 | the lowest way that is valid and holds the tag, or the set size when there is none |
| `LfuSet.FirstInvalid` | cache.cpp:76-92 | the lowest invalid way, or the set size when every way is valid |
| `LfuSet.Victim` | cache.cpp:94-107 | a way whose counter is at most every other counter, and strictly below the counters of all lower ways |
| `LfuSet.AfterSearch` | cache.cpp:58-66 | the set after a lookup keeps its number of ways; `SearchEffect` states that only the first matching way's counter changes, by one |
| `LfuSet.InstallWay` | cache.cpp:76-107 | the way an installation writes is one of the set's ways; `InsertIntoFreeWay` and `InsertEvicts` state that it is the first invalid way, else the LFU victim |
| `LfuSet.AfterInsert` | cache.cpp:76-110 | the set after an installation keeps its number of ways; `InsertIntoFreeWay` and `InsertEvicts` state which way takes the tag and that no other way changes |
| `LfuSet.AfterAccess` | cache.cpp:170-180 | the set after a simulator step keeps its number of ways; `AccessChangesOneLine`, `AccessMakesResident` and `AccessKeepsNoDuplicates` state its effect |
| `LfuSet.AccessedWay` | cache.cpp:170-180 | the way a simulator step writes is one of the set's ways; `AccessChangesOneLine` states that it is the only way the step changes |
| `LfuSet.FirstMatchIffResident` | cache.cpp:58-66 | the lookup scan finds a way iff some valid way holds the tag; an invalid way is never matched |
| `LfuSet.SearchEffect` | cache.cpp:58-66 | on a hit only the first matching way changes, and only its counter, by one; on a miss the set is unchanged |
| `LfuSet.SearchKeepsNoDuplicates` | cache.cpp:61 | a lookup changes no valid bit and no tag, so it keeps a set free of duplicate tags |
| `LfuSet.InsertIntoFreeWay` | cache.cpp:76-91 | with a free way, the lowest one becomes `{1, valid, tag}` and every other way is untouched |
| `LfuSet.InsertEvicts` | cache.cpp:94-110 | in a full set the victim is the first way of least count; it becomes `{1, valid, tag}` and every other way is untouched |
| `LfuSet.VictimUnique` | cache.cpp:96-107 | the first-minimum conditions determine the victim |
| `LfuSet.VictimTieBreak` | cache.cpp:99-107 | when all counters tie, way 0 is the victim |
| `LfuSet.SearchKeepsLinesOk` | cache.cpp:61 | lookups keep the line-state invariant: invalid lines have counter 0, valid lines at least 1 |
| `LfuSet.InsertKeepsLinesOk` | cache.cpp:87-89 | installations keep the line-state invariant |
| `LfuSet.ValidNeverCleared` | cache.cpp:58-110 | neither a lookup nor an installation clears a valid bit |
| `LfuSet.AccessKeepsNoDuplicates` | cache.cpp:170-180 | one simulator step keeps the set free of two valid ways with the same tag |
| `LfuSet.AccessMakesResident` | cache.cpp:170-180 | after a simulator step the block is resident, so repeating the address hits |
| `LfuSet.AccessChangesOneLine` | cache.cpp:170-180 | a simulator step changes the accessed way and no other way, on a hit, a fill and an eviction alike |
| `LfuSet.CountValidMonotone` | cache.cpp:58-110 | a set whose valid bits include another's has at least as many valid lines |
| `LfuSet.AccessValidCount` | cache.cpp:170-180 | the number of valid lines never decreases and never exceeds the ways; it grows by one exactly on a miss into a set with a free way |
| `LfuSet.ResidentTagsCount` | cache.cpp:170-180 | without duplicate tags the number of resident blocks equals the number of valid lines |
| `LfuSet.AccessResidentTags` | cache.cpp:170-180 | resident blocks after a step: unchanged on a hit, plus the new block on a fill, and the victim's block replaced by the new one on an eviction |
| `LfuSet.AccessAllKeepsNoDuplicates` | cache.cpp:170-180 | any run of simulator steps keeps the set free of duplicate tags |
| `LfuSet.CapacityForcesEviction` | cache.cpp:94-110 | a run of more distinct blocks than ways into one set leaves at least one of them evicted |
| `LfuSet.ConflictScenario` | cache.cpp:76-110 | five blocks into an empty 4-way set all miss; the fifth evicts way 0, leaving tags 4, 1, 2, 3 with counter 1 |
| `Generators.CounterOutput` | cache.cpp:134-167 | the address of call k of a counter generator is below its range |
| `Generators.CounterIgnoresWrap` | cache.cpp:134-167 | when the range divides 2^32, the 32-bit wrap-around of the counter never shows in its output |
| `Generators.CounterGenerator.MemGen1` | cache.cpp:134-138 | a counter with step 1, range 64 MiB, read before it advances, starting at 0 |
| `Generators.CounterGenerator.MemGen4` | cache.cpp:151-155 | a counter with step 1, range 4 KiB, read before it advances, starting at 0 |
| `Generators.CounterGenerator.MemGen5` | cache.cpp:157-161 | a counter with step 1, range 64 KiB, read before it advances, starting at 0 |
| `Generators.CounterGenerator.MemGen6` | cache.cpp:163-167 | a counter with step 32, range 256 KiB, advanced before it is read, starting at 0 |
| `Generators.CounterGenerator.Next` | cache.cpp:134-167 | call k returns `CounterOutput` for call k, and the 32-bit counter stays equal to k steps of the stride |
| `Generators.MemGen1Outputs` | cache.cpp:134-138 | call k of memGen1 returns k mod 64 MiB |
| `Generators.MemGen4Outputs` | cache.cpp:151-155 | call k of memGen4 returns k mod 4096 |
| `Generators.MemGen5Outputs` | cache.cpp:157-161 | call k of memGen5 returns k mod 65536 |
| `Generators.MemGen6Outputs` | cache.cpp:163-167 | call k of memGen6 returns 32 * ((k + 1) mod 8192), and the stream repeats every 8192 calls |
| `Generators.MwcStepNoWrap` | cache.cpp:129-130 | with multipliers up to 36969 the 32-bit step of `rand_` never wraps |
| `Generators.ForbiddenSeedsAreFixedPoints` | cache.cpp:125-130 | the seeds the comments forbid (0, 0x9068ffff for m_z, 0x464fffff for m_w) are fixed points of the steps |
| `Generators.RandomSource.constructor` | cache.cpp:125-126 | the two state words start at the source's seeds |
| `Generators.RandomSource.Rand` | cache.cpp:127-132 | both state words take one step, and the result is `(m_z << 16) + m_w` in 32 bits |
| `Generators.RandomSource.MemGen2` | cache.cpp:140-144 | one `rand_` step, and the result reduced modulo 24 KiB |
| `Generators.RandomSource.MemGen3` | cache.cpp:146-149 | one `rand_` step, and the result reduced modulo the DRAM size |

## Left out

- `printCache`, `main`, the `msg` table and all output: these are I/O and driver glue. So are the hit and miss counters and the floating-point hit and miss ratios of `main`.
- The floating-point `log2` and `pow` calls are replaced by the integer `Log2` (rounded down) and `Pow2`. The two agree on powers of two. For any other line size or set count, the model assumes that truncating the float `log2` gives the rounded-down value.
- Cache.SetAssociativeCache.Search: counters are unbounded naturals, so the 32-bit wrap-around of `counter++` is not modelled. It would need 2^32 hits on one line.
- Cache.SetAssociativeCache.Insert: requires that a full set has some counter below INT_MAX. Otherwise `leastAddress` stays -1 and the source indexes out of bounds, which is undefined behaviour.
- Cache.CacheSim: carries the same requirement as `Insert` for an access that misses.
- Cache.SetAssociativeCache.constructor: requires `0 < lineSize <= 64 KiB` and `0 < ways <= lines`. With other values `numSet` is 0 and the source divides by zero or takes `log2(0)`. No other validation is modelled, because the source performs none.
- Cache.LeastFrequentWay: the eviction scan of `insert` is a separate method over the set's lines. The source runs it inline over copies of the lines, so the result is the same.
- The table is a `seq<seq<Line>>` field that each method reassigns, not a vector of vectors. The lines are values, so there is no aliasing to lose.
- Tags and counters are naturals. A tag is at most 32 bits, because it comes from a 32-bit address.
- The unused `static addr` of `memGen2` has no effect and is not modelled.
