/**
 * The set-associative cache object: geometry fixed at construction and a
 * table of sets whose lines lookups and installations update in place, and
 * the simulator step that combines the two.
 */
module Cache {
  import opened AddressCodec
  import opened LfuSet

  /** Total capacity of the cache in bytes (64 KiB). */
  const CACHE_SIZE: nat := 64 * 1024

  datatype CacheResType = MISS | HIT

  function TotalLines(lineSize: nat): nat
    requires lineSize > 0
  {
    CACHE_SIZE / lineSize
  }

  function NumSets(lineSize: nat, ways: nat): nat
    requires lineSize > 0 && ways > 0
  {
    TotalLines(lineSize) / ways
  }

  /**
   * With a power-of-two line size and an associativity that divides the
   * number of lines, the logarithms are exact, the sets times the ways give
   * every line, and every set is reachable by some set index.
   */
  lemma PowerOfTwoGeometry(lineSize: nat, ways: nat)
    requires IsPow2(lineSize) && lineSize <= CACHE_SIZE
    requires ways > 0 && TotalLines(lineSize) % ways == 0
    ensures Pow2(Log2(lineSize)) == lineSize
    ensures NumSets(lineSize, ways) >= 1
    ensures NumSets(lineSize, ways) * ways == TotalLines(lineSize)
    ensures Pow2(Log2(NumSets(lineSize, ways))) == NumSets(lineSize, ways)
  {
    LinesArePowerOfTwo(lineSize);
    var lines := TotalLines(lineSize);
    DivMod(lines, ways);
    PowerOfTwoQuotient(lines, ways);
    Log2OfPow2(NumSets(lineSize, ways));
  }

  lemma LinesArePowerOfTwo(lineSize: nat)
    requires IsPow2(lineSize) && lineSize <= CACHE_SIZE
    ensures Pow2(Log2(lineSize)) == lineSize
    ensures IsPow2(TotalLines(lineSize)) && TotalLines(lineSize) * lineSize == CACHE_SIZE
  {
    Log2OfPow2(lineSize);
    var b := Log2(lineSize);
    Log2AtMost16(lineSize);
    Pow2Add(16 - b, b);
    assert CACHE_SIZE == Pow2(16 - b) * lineSize;
    DivModUnique(CACHE_SIZE, lineSize, Pow2(16 - b), 0);
    Pow2IsPow2(16 - b);
  }

  lemma Log2AtMost16(x: nat)
    requires 1 <= x <= CACHE_SIZE
    ensures Log2(x) <= 16 && Pow2(16) == CACHE_SIZE
  {
    assert Pow2(8) == 256;
    Pow2Add(8, 8);
    if Log2(x) > 16 {
      Pow2Monotone(17, Log2(x));
    }
  }

  /**
   * The configuration of the simulator's driver: 128-byte lines, 4 ways. It
   * has 512 lines in 128 sets, 7 offset bits and 7 set bits.
   */
  lemma DriverGeometry()
    ensures TotalLines(128) == 512 && NumSets(128, 4) == 128
    ensures Log2(128) == 7 && Log2(NumSets(128, 4)) == 7
  {
    assert Pow2(7) == 128;
  }

  /** Under the driver's geometry consecutive lines fall into consecutive sets, all with tag 0. */
  lemma DriverConsecutiveLines(k: nat)
    requires k < 128
    ensures Decode(128 * k, 7, 7) == Fields(0, k)
  {
    assert Pow2(7) == 128;
    DivModUnique(128 * k, 128, k, 0);
    DecodeUnique(128 * k, 7, 7, 0, k);
  }

  /** Under the driver's geometry the multiples of 16 KiB all share set 0, with tag k for 16384 * k. */
  lemma DriverSetZero(k: nat)
    ensures Decode(16384 * k, 7, 7) == Fields(k, 0)
  {
    assert Pow2(7) == 128;
    DivModUnique(16384 * k, 128, 128 * k, 0);
    DecodeUnique(16384 * k, 7, 7, k, 0);
  }

  class SetAssociativeCache {
    const size: nat := CACHE_SIZE
    const lineSize: nat
    const totCacheLines: nat
    const numWays: nat
    const numSet: nat
    const byteOffset: nat
    const setOffset: nat
    /** `cache[s][w]` is way `w` of set `s`. */
    var cache: seq<seq<Line>>

    /**
     * Every set has `numWays` ways, every set index an address can decode to
     * names a set, and every line satisfies the line-state invariant.
     */
    ghost predicate Valid()
      reads this
    {
      && numWays >= 1
      && Pow2(setOffset) <= numSet
      && |cache| == numSet
      && forall s :: 0 <= s < numSet ==> |cache[s]| == numWays && LinesOk(cache[s])
    }

    /** No set holds the same tag in two valid ways. */
    ghost predicate NoDuplicates()
      reads this
    {
      forall s :: 0 <= s < |cache| ==> NoDuplicateTags(cache[s])
    }

    function SetOf(address: nat): nat
    {
      Decode(address, byteOffset, setOffset).setIndex
    }

    function TagOf(address: nat): nat
    {
      Decode(address, byteOffset, setOffset).tag
    }

    /** The block of `address` is in the cache. */
    ghost predicate IsResident(address: nat)
      reads this
      requires Valid()
    {
      Resident(cache[SetOf(address)], TagOf(address))
    }

    /**
     * The geometry is derived from the line size and the associativity; every
     * line starts invalid with tag 0 and counter 0.
     */
    constructor (lineSize: nat, ways: nat)
      requires 0 < lineSize <= CACHE_SIZE
      requires 0 < ways <= CACHE_SIZE / lineSize
      ensures Valid() && NoDuplicates()
      ensures this.lineSize == lineSize && numWays == ways
      ensures totCacheLines == TotalLines(lineSize) && numSet == NumSets(lineSize, ways)
      ensures byteOffset == Log2(lineSize) && setOffset == Log2(numSet)
      ensures forall s :: 0 <= s < numSet ==> cache[s] == EmptySet(ways)
    {
      byteOffset := Log2(lineSize);
      this.lineSize := lineSize;
      totCacheLines := size / lineSize;
      numWays := ways;
      numSet := (size / lineSize) / ways;
      setOffset := Log2((size / lineSize) / ways);
      cache := seq((size / lineSize) / ways, _ => EmptySet(ways));
    }

    /**
     * Looks the address up in its set, scanning the ways in order. On a hit
     * the first matching way's counter goes up by one; nothing else changes.
     */
    method Search(address: Uint32) returns (hit: bool)
      requires Valid()
      modifies this
      ensures Valid()
      ensures old(NoDuplicates()) ==> NoDuplicates()
      ensures hit == Resident(old(cache)[SetOf(address)], TagOf(address))
      ensures cache == old(cache)[SetOf(address) := AfterSearch(old(cache)[SetOf(address)], TagOf(address))]
    {
      var block := address / Pow2(byteOffset);
      var setAddress := block % Pow2(setOffset);
      var tag := block / Pow2(setOffset);
      assert setAddress == SetOf(address) && tag == TagOf(address);
      FirstMatchIffResident(cache[setAddress], tag);
      SearchKeepsNoDuplicates(cache[setAddress], tag);
      for i := 0 to numWays
        invariant cache == old(cache)
        invariant forall j :: 0 <= j < i ==> !Holds(cache[setAddress][j], tag)
      {
        if cache[setAddress][i].valid {
          if cache[setAddress][i].tag == tag {
            assert FirstMatch(cache[setAddress], tag) == i;
            cache := cache[setAddress := cache[setAddress][i := cache[setAddress][i].(counter := cache[setAddress][i].counter + 1)]];
            return true;
          }
        }
      }
      return false;
    }

    /**
     * Installs the address's block: into the lowest invalid way if there is
     * one, else over the way with the smallest counter (the first such way).
     */
    method Insert(address: Uint32)
      requires Valid()
      requires EvictionDefined(cache[SetOf(address)])
      modifies this
      ensures Valid()
      ensures cache == old(cache)[SetOf(address) := AfterInsert(old(cache)[SetOf(address)], TagOf(address))]
    {
      var block := address / Pow2(byteOffset);
      var setAddress := block % Pow2(setOffset);
      var tag := block / Pow2(setOffset);
      assert setAddress == SetOf(address) && tag == TagOf(address);
      ghost var ways := cache[setAddress];
      InsertKeepsLinesOk(ways, tag);
      var flag := false;
      for i := 0 to numWays
        invariant !flag
        invariant cache == old(cache)
        invariant forall j :: 0 <= j < i ==> ways[j].valid
      {
        if cache[setAddress][i].valid {
          continue;
        } else {
          flag := true;
          assert FirstInvalid(ways) == i;
          cache := cache[setAddress := cache[setAddress][i := Line(cache[setAddress][i].counter + 1, true, tag)]];
          break;
        }
      }
      if !flag {
        assert FirstInvalid(ways) == numWays;
        var leastAddress := LeastFrequentWay(cache[setAddress]);
        cache := cache[setAddress := cache[setAddress][leastAddress := cache[setAddress][leastAddress].(counter := 1, tag := tag)]];
      }
      assert cache[setAddress] == AfterInsert(ways, tag);
    }
  }

  /**
   * The eviction scan of `insert`: from `least = INT_MAX`, keep the first way
   * whose counter is strictly below the least seen so far. When some counter
   * is below INT_MAX, it finds the LFU victim.
   */
  method LeastFrequentWay(ways: seq<Line>) returns (leastAddress: nat)
    requires exists w :: 0 <= w < |ways| && ways[w].counter < INT_MAX
    ensures ways != [] && leastAddress == Victim(ways)
  {
    // `line.counter < least` compares as unsigned; `least` stays in 0..INT_MAX.
    var least: int := INT_MAX;
    var found: int := -1;
    for i := 0 to |ways|
      invariant found == -1 ==> least == INT_MAX && forall j :: 0 <= j < i ==> ways[j].counter >= INT_MAX
      invariant found != -1 ==>
        && 0 <= found < i
        && least == ways[found].counter < INT_MAX
        && found == Victim(ways[..i])
    {
      var line := ways[i];
      if line.counter < least {
        least := line.counter;
        found := i;
      }
      if found != -1 {
        VictimStep(ways, i, found);
      }
    }
    assert ways[..|ways|] == ways;
    leastAddress := found;
  }

  /** The scan's choice after way `i`, stated as the victim of the first `i + 1` ways. */
  lemma VictimStep(ways: seq<Line>, i: nat, leastAddress: int)
    requires i < |ways|
    requires 0 <= leastAddress <= i
    requires leastAddress == i ==> forall j :: 0 <= j < i ==> ways[i].counter < ways[j].counter
    requires leastAddress < i ==> leastAddress == Victim(ways[..i]) && ways[leastAddress].counter <= ways[i].counter
    ensures leastAddress == Victim(ways[..i + 1])
  {
    assert ways[..i + 1][..i] == ways[..i];
  }

  /**
   * One access of the simulator: a lookup, and on a miss an installation.
   * The result is MISS exactly when the block was not resident; afterwards it
   * is resident, exactly one line has changed, and a cache without duplicate
   * tags stays so.
   */
  method CacheSim(c: SetAssociativeCache, address: Uint32) returns (r: CacheResType)
    requires c.Valid()
    requires c.IsResident(address) || EvictionDefined(c.cache[c.SetOf(address)])
    modifies c
    ensures c.Valid()
    ensures (r == MISS) == !old(c.IsResident(address))
    ensures var s := c.SetOf(address);
      c.cache == old(c.cache)[s := AfterAccess(old(c.cache)[s], c.TagOf(address))]
    ensures c.IsResident(address)
    ensures var s, w := c.SetOf(address), AccessedWay(old(c.cache)[c.SetOf(address)], c.TagOf(address));
      && c.cache[s][w] != old(c.cache)[s][w]
      && forall s', w' :: 0 <= s' < c.numSet && 0 <= w' < c.numWays && (s', w') != (s, w) ==>
           c.cache[s'][w'] == old(c.cache)[s'][w']
    ensures old(c.NoDuplicates()) ==> c.NoDuplicates()
  {
    ghost var s, tag := c.SetOf(address), c.TagOf(address);
    ghost var ways := c.cache[s];
    FirstMatchIffResident(ways, tag);
    AccessMakesResident(ways, tag);
    AccessChangesOneLine(ways, tag);
    if c.NoDuplicates() {
      AccessKeepsNoDuplicates(ways, tag);
    }
    var flag := c.Search(address);
    if !flag {
      c.Insert(address);
      return MISS;
    }
    return HIT;
  }

  /** Repeating an access straight away always hits. */
  method RepeatedAccessHits(c: SetAssociativeCache, address: Uint32) returns (first: CacheResType, second: CacheResType)
    requires c.Valid()
    requires c.IsResident(address) || EvictionDefined(c.cache[c.SetOf(address)])
    modifies c
    ensures (first == MISS) == !old(c.IsResident(address))
    ensures second == HIT
  {
    first := CacheSim(c, address);
    second := CacheSim(c, address);
  }
}
