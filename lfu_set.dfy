/**
 * One set of the cache as a value: the sequence of its ways, in way order.
 * This module states what a lookup and an installation do to a set, the
 * least-frequently-used victim choice, and the invariants those keep.
 */
module LfuSet {

  /** The largest signed 32-bit value, the start value of the eviction scan. */
  const INT_MAX: nat := 0x7fff_ffff

  /** A way: its access counter for LFU, whether it holds a block, and the block's tag. */
  datatype Line = Line(counter: nat, valid: bool, tag: nat)

  /** The line every way starts as. */
  const EMPTY_LINE: Line := Line(0, false, 0)

  function EmptySet(numWays: nat): (ways: seq<Line>)
    ensures |ways| == numWays
    ensures forall w :: 0 <= w < numWays ==> ways[w] == EMPTY_LINE
  {
    seq(numWays, _ => EMPTY_LINE)
  }

  /** A line matches a tag only when it is valid. */
  predicate Holds(line: Line, tag: nat)
  {
    line.valid && line.tag == tag
  }

  /** The block with this tag is resident in the set. */
  predicate Resident(ways: seq<Line>, tag: nat)
  {
    exists w :: 0 <= w < |ways| && Holds(ways[w], tag)
  }

  /** Every way is valid: an installation has to evict. */
  predicate Full(ways: seq<Line>)
  {
    forall w :: 0 <= w < |ways| ==> ways[w].valid
  }

  /** The lowest way holding the tag, or |ways| when there is none. */
  function FirstMatch(ways: seq<Line>, tag: nat): (w: nat)
    ensures w <= |ways|
    ensures w < |ways| ==> Holds(ways[w], tag)
    ensures forall j :: 0 <= j < w ==> !Holds(ways[j], tag)
  {
    if ways == [] then 0
    else if Holds(ways[0], tag) then 0
    else 1 + FirstMatch(ways[1..], tag)
  }

  /** The lowest invalid way, or |ways| when the set is full. */
  function FirstInvalid(ways: seq<Line>): (w: nat)
    ensures w <= |ways|
    ensures w < |ways| ==> !ways[w].valid
    ensures forall j :: 0 <= j < w ==> ways[j].valid
  {
    if ways == [] then 0
    else if !ways[0].valid then 0
    else 1 + FirstInvalid(ways[1..])
  }

  /**
   * The LFU victim: a way with the smallest counter, the lowest such way on
   * ties. It is computed as the left-to-right scan that keeps the first
   * strictly smaller counter.
   */
  function Victim(ways: seq<Line>): (w: nat)
    requires ways != []
    ensures w < |ways|
    ensures forall j :: 0 <= j < |ways| ==> ways[w].counter <= ways[j].counter
    ensures forall j :: 0 <= j < w ==> ways[w].counter < ways[j].counter
    decreases |ways|
  {
    if |ways| == 1 then 0
    else
      var v := Victim(ways[..|ways| - 1]);
      if ways[|ways| - 1].counter < ways[v].counter then |ways| - 1 else v
  }

  /**
   * The scan of the source starts from INT_MAX and compares strictly, so it
   * picks a way only when some counter lies below INT_MAX; a set with a free
   * way does not scan at all.
   */
  predicate EvictionDefined(ways: seq<Line>)
  {
    FirstInvalid(ways) < |ways| || exists w :: 0 <= w < |ways| && ways[w].counter < INT_MAX
  }

  /** The set after a lookup: a hit adds one to the counter of the first matching way. */
  function AfterSearch(ways: seq<Line>, tag: nat): (r: seq<Line>)
    ensures |r| == |ways|
  {
    var w := FirstMatch(ways, tag);
    if w < |ways| then ways[w := ways[w].(counter := ways[w].counter + 1)] else ways
  }

  /** The way an installation writes: the first invalid way, else the LFU victim. */
  function InstallWay(ways: seq<Line>): (w: nat)
    requires ways != []
    ensures w < |ways|
  {
    var i := FirstInvalid(ways);
    if i < |ways| then i else Victim(ways)
  }

  /**
   * The set after installing a tag: a free way is made valid with the tag and
   * its counter incremented; otherwise the victim takes the tag and its
   * counter is reset to 1.
   */
  function AfterInsert(ways: seq<Line>, tag: nat): (r: seq<Line>)
    requires ways != []
    ensures |r| == |ways|
  {
    var i := FirstInvalid(ways);
    if i < |ways| then ways[i := Line(ways[i].counter + 1, true, tag)]
    else
      var v := Victim(ways);
      ways[v := ways[v].(counter := 1, tag := tag)]
  }

  /** One access of the simulator: a lookup, and on a miss an installation. */
  function AfterAccess(ways: seq<Line>, tag: nat): (r: seq<Line>)
    requires ways != []
    ensures |r| == |ways|
  {
    if FirstMatch(ways, tag) < |ways| then AfterSearch(ways, tag) else AfterInsert(ways, tag)
  }

  /** The one way an access writes. */
  function AccessedWay(ways: seq<Line>, tag: nat): (w: nat)
    requires ways != []
    ensures w < |ways|
  {
    var m := FirstMatch(ways, tag);
    if m < |ways| then m else InstallWay(ways)
  }

  /** Line-state invariant: an invalid line has never been counted, a valid one has. */
  predicate LineOk(line: Line)
  {
    if line.valid then line.counter >= 1 else line.counter == 0
  }

  predicate LinesOk(ways: seq<Line>)
  {
    forall w :: 0 <= w < |ways| ==> LineOk(ways[w])
  }

  /** No two valid ways of the set hold the same tag. */
  predicate NoDuplicateTags(ways: seq<Line>)
  {
    forall i, j :: 0 <= i < j < |ways| && ways[i].valid && ways[j].valid ==> ways[i].tag != ways[j].tag
  }

  /** The tags of the blocks resident in the set. */
  function ResidentTags(ways: seq<Line>): set<nat>
  {
    set w | 0 <= w < |ways| && ways[w].valid :: ways[w].tag
  }

  function CountValid(ways: seq<Line>): nat
  {
    if ways == [] then 0
    else CountValid(ways[..|ways| - 1]) + (if ways[|ways| - 1].valid then 1 else 0)
  }

  /** The state of a set after a run of accesses, oldest first. */
  function AccessAll(ways: seq<Line>, tags: seq<nat>): (r: seq<Line>)
    requires ways != []
    ensures |r| == |ways|
    decreases |tags|
  {
    if tags == [] then ways else AccessAll(AfterAccess(ways, tags[0]), tags[1..])
  }

  /** The hit (true) or miss (false) of every access of a run. */
  function Outcomes(ways: seq<Line>, tags: seq<nat>): (r: seq<bool>)
    requires ways != []
    ensures |r| == |tags|
    decreases |tags|
  {
    if tags == [] then []
    else [Resident(ways, tags[0])] + Outcomes(AfterAccess(ways, tags[0]), tags[1..])
  }

  // ---------------------------------------------------------------------
  // Lookup
  // ---------------------------------------------------------------------

  /** The scan finds a way exactly when the block is resident; invalid ways never match. */
  lemma FirstMatchIffResident(ways: seq<Line>, tag: nat)
    ensures FirstMatch(ways, tag) < |ways| <==> Resident(ways, tag)
    ensures forall w :: 0 <= w < |ways| && !ways[w].valid ==> FirstMatch(ways, tag) != w
  {
  }

  /**
   * On a hit only the first matching way changes, and only by one more count;
   * on a miss the set is unchanged.
   */
  lemma SearchEffect(ways: seq<Line>, tag: nat)
    ensures var r, w := AfterSearch(ways, tag), FirstMatch(ways, tag);
      (Resident(ways, tag) ==>
         && w < |ways|
         && r[w] == Line(ways[w].counter + 1, true, tag)
         && forall j :: 0 <= j < |ways| && j != w ==> r[j] == ways[j])
      && (!Resident(ways, tag) ==> r == ways)
  {
    FirstMatchIffResident(ways, tag);
  }

  /** A lookup changes no valid bit and no tag, so it keeps the set free of duplicates. */
  lemma SearchKeepsNoDuplicates(ways: seq<Line>, tag: nat)
    ensures NoDuplicateTags(AfterSearch(ways, tag)) <==> NoDuplicateTags(ways)
  {
    var r := AfterSearch(ways, tag);
    assert forall w :: 0 <= w < |ways| ==> r[w].valid == ways[w].valid && r[w].tag == ways[w].tag;
  }

  // ---------------------------------------------------------------------
  // Installation
  // ---------------------------------------------------------------------

  /** A set with a free way: the lowest free way takes the tag with counter 1. */
  lemma InsertIntoFreeWay(ways: seq<Line>, tag: nat)
    requires ways != [] && LinesOk(ways) && !Full(ways)
    ensures var r, i := AfterInsert(ways, tag), FirstInvalid(ways);
      && i < |ways| && !ways[i].valid
      && (forall j :: 0 <= j < i ==> ways[j].valid)
      && r[i] == Line(1, true, tag)
      && forall j :: 0 <= j < |ways| && j != i ==> r[j] == ways[j]
  {
    assert LineOk(ways[FirstInvalid(ways)]);
  }

  /**
   * A full set: the first way of least count takes the tag, stays valid and
   * has its counter reset to 1; every other way is untouched.
   */
  lemma InsertEvicts(ways: seq<Line>, tag: nat)
    requires ways != [] && Full(ways)
    ensures var r, v := AfterInsert(ways, tag), Victim(ways);
      && (forall j :: 0 <= j < |ways| ==> ways[v].counter <= ways[j].counter)
      && (forall j :: 0 <= j < v ==> ways[v].counter < ways[j].counter)
      && r[v] == Line(1, true, tag)
      && forall j :: 0 <= j < |ways| && j != v ==> r[j] == ways[j]
  {
    assert FirstInvalid(ways) == |ways|;
  }

  /** The conditions on the victim determine it. */
  lemma VictimUnique(ways: seq<Line>, v: nat)
    requires v < |ways|
    requires forall j :: 0 <= j < |ways| ==> ways[v].counter <= ways[j].counter
    requires forall j :: 0 <= j < v ==> ways[v].counter < ways[j].counter
    ensures Victim(ways) == v
  {
  }

  /** With all counters tied, the lowest way is evicted. */
  lemma VictimTieBreak(ways: seq<Line>)
    requires ways != []
    requires forall j :: 0 <= j < |ways| ==> ways[j].counter == ways[0].counter
    ensures Victim(ways) == 0
  {
  }

  // ---------------------------------------------------------------------
  // Invariants
  // ---------------------------------------------------------------------

  lemma SearchKeepsLinesOk(ways: seq<Line>, tag: nat)
    requires LinesOk(ways)
    ensures LinesOk(AfterSearch(ways, tag))
  {
  }

  lemma InsertKeepsLinesOk(ways: seq<Line>, tag: nat)
    requires ways != [] && LinesOk(ways)
    ensures LinesOk(AfterInsert(ways, tag))
  {
    if !Full(ways) {
      InsertIntoFreeWay(ways, tag);
    }
  }

  /** No lookup or installation ever clears a valid bit. */
  lemma ValidNeverCleared(ways: seq<Line>, tag: nat)
    requires ways != []
    ensures forall w :: 0 <= w < |ways| && ways[w].valid ==> AfterSearch(ways, tag)[w].valid
    ensures forall w :: 0 <= w < |ways| && ways[w].valid ==> AfterInsert(ways, tag)[w].valid
  {
  }

  /**
   * An access keeps the set free of duplicate tags: it installs only a tag
   * the lookup did not find.
   */
  lemma AccessKeepsNoDuplicates(ways: seq<Line>, tag: nat)
    requires ways != [] && NoDuplicateTags(ways)
    ensures NoDuplicateTags(AfterAccess(ways, tag))
  {
    var r := AfterAccess(ways, tag);
    var w := AccessedWay(ways, tag);
    ValidNeverCleared(ways, tag);
    CountValidMonotone(ways, r);
    FirstMatchIffResident(ways, tag);
    if !Resident(ways, tag) {
      assert r == ways[w := Line(r[w].counter, true, tag)];
      forall i, j | 0 <= i < j < |r| && r[i].valid && r[j].valid
        ensures r[i].tag != r[j].tag
      {
        if i == w {
          assert !Holds(ways[j], tag);
        } else if j == w {
          assert !Holds(ways[i], tag);
        } else {
          assert ways[i] == r[i] && ways[j] == r[j];
        }
      }
    }
  }

  /** After an access the block is resident, so repeating the access hits. */
  lemma AccessMakesResident(ways: seq<Line>, tag: nat)
    requires ways != []
    ensures Resident(AfterAccess(ways, tag), tag)
  {
    var r := AfterAccess(ways, tag);
    var w := AccessedWay(ways, tag);
    assert Holds(r[w], tag);
  }

  /**
   * Exactly one line changes per access: the accessed way changes and no
   * other way, whether the access hits, fills a free way or evicts.
   */
  lemma AccessChangesOneLine(ways: seq<Line>, tag: nat)
    requires ways != []
    ensures var r, w := AfterAccess(ways, tag), AccessedWay(ways, tag);
      && r[w] != ways[w]
      && forall j :: 0 <= j < |ways| && j != w ==> r[j] == ways[j]
  {
    var w := AccessedWay(ways, tag);
    FirstMatchIffResident(ways, tag);
    if !Resident(ways, tag) && FirstInvalid(ways) == |ways| {
      assert !Holds(ways[w], tag);
    }
  }

  // ---------------------------------------------------------------------
  // Occupancy
  // ---------------------------------------------------------------------

  lemma {:induction false} CountValidBounded(ways: seq<Line>)
    ensures CountValid(ways) <= |ways|
    decreases |ways|
  {
    if ways != [] {
      CountValidBounded(ways[..|ways| - 1]);
    }
  }

  /** A set whose valid bits include another's holds at least as many valid lines. */
  lemma {:induction false} CountValidMonotone(a: seq<Line>, b: seq<Line>)
    requires |a| == |b|
    requires forall w :: 0 <= w < |a| && a[w].valid ==> b[w].valid
    ensures CountValid(a) <= CountValid(b)
    decreases |a|
  {
    if a != [] {
      CountValidMonotone(a[..|a| - 1], b[..|b| - 1]);
    }
  }

  /** Overwriting one way changes the count by the change in that way's valid bit. */
  lemma {:induction false} CountValidUpdate(ways: seq<Line>, i: nat, line: Line)
    requires i < |ways|
    ensures CountValid(ways[i := line]) + (if ways[i].valid then 1 else 0)
         == CountValid(ways) + (if line.valid then 1 else 0)
    decreases |ways|
  {
    var n := |ways| - 1;
    if i < n {
      assert ways[i := line][..n] == ways[..n][i := line];
      CountValidUpdate(ways[..n], i, line);
    } else {
      assert ways[i := line][..n] == ways[..n];
    }
  }

  /**
   * The number of valid lines never decreases, never exceeds the number of
   * ways, and grows by one exactly when a miss fills a free way.
   */
  lemma AccessValidCount(ways: seq<Line>, tag: nat)
    requires ways != []
    ensures var r := AfterAccess(ways, tag);
      && CountValid(ways) <= CountValid(r) <= |ways|
      && CountValid(r) == CountValid(ways) + (if !Resident(ways, tag) && !Full(ways) then 1 else 0)
  {
    var r := AfterAccess(ways, tag);
    var w := AccessedWay(ways, tag);
    ValidNeverCleared(ways, tag);
    CountValidMonotone(ways, r);
    FirstMatchIffResident(ways, tag);
    AccessChangesOneLine(ways, tag);
    assert r == ways[w := r[w]];
    CountValidUpdate(ways, w, r[w]);
    CountValidBounded(r);
  }

  lemma {:induction false} ResidentTagsCount(ways: seq<Line>)
    requires NoDuplicateTags(ways)
    ensures |ResidentTags(ways)| == CountValid(ways)
    decreases |ways|
  {
    if ways != [] {
      var n := |ways| - 1;
      var prefix := ways[..n];
      assert NoDuplicateTags(prefix);
      ResidentTagsCount(prefix);
      ResidentTagsLast(ways);
      if ways[n].valid {
        assert ways[n].tag !in ResidentTags(prefix);
      }
    }
  }

  /** The resident tags of a set are those of all ways but the last, plus the last way's if it is valid. */
  lemma ResidentTagsLast(ways: seq<Line>)
    requires ways != []
    ensures var n := |ways| - 1;
      ResidentTags(ways) == ResidentTags(ways[..n]) + (if ways[n].valid then {ways[n].tag} else {})
  {
    var n := |ways| - 1;
    var prefix := ways[..n];
    forall t | t in ResidentTags(ways)
      ensures t in ResidentTags(prefix) + (if ways[n].valid then {ways[n].tag} else {})
    {
      var w :| 0 <= w < |ways| && ways[w].valid && ways[w].tag == t;
      if w < n {
        assert prefix[w] == ways[w];
      }
    }
    forall t | t in ResidentTags(prefix)
      ensures t in ResidentTags(ways)
    {
      var w :| 0 <= w < n && prefix[w].valid && prefix[w].tag == t;
      assert ways[w] == prefix[w];
    }
  }

  /**
   * The blocks resident after an access: a hit keeps them, a miss into a free
   * way adds the new block, and a miss into a full set replaces the victim's
   * block by the new one.
   */
  lemma AccessResidentTags(ways: seq<Line>, tag: nat)
    requires ways != [] && NoDuplicateTags(ways)
    ensures var r := ResidentTags(AfterAccess(ways, tag));
      && (Resident(ways, tag) ==> r == ResidentTags(ways))
      && (!Resident(ways, tag) && !Full(ways) ==> r == ResidentTags(ways) + {tag})
      && (!Resident(ways, tag) && Full(ways) ==> r == ResidentTags(ways) - {ways[Victim(ways)].tag} + {tag})
  {
    var a := AfterAccess(ways, tag);
    var w := AccessedWay(ways, tag);
    FirstMatchIffResident(ways, tag);
    AccessChangesOneLine(ways, tag);
    if Resident(ways, tag) {
      assert forall j :: 0 <= j < |ways| ==> a[j].valid == ways[j].valid && a[j].tag == ways[j].tag;
    } else if !Full(ways) {
      assert !ways[w].valid && a[w].valid && a[w].tag == tag;
      assert a[w].tag in ResidentTags(a);
    } else {
      var v := Victim(ways);
      assert a[v].valid && a[v].tag == tag;
      assert a[v].tag in ResidentTags(a);
      assert ways[v].tag !in ResidentTags(a) by {
        forall j | 0 <= j < |a| && a[j].valid ensures a[j].tag != ways[v].tag {
          if j != v {
            assert ways[j].valid && ways[j] == a[j];
          } else {
            assert !Holds(ways[v], tag);
          }
        }
      }
    }
  }

  lemma {:induction false} AccessAllKeepsNoDuplicates(ways: seq<Line>, tags: seq<nat>)
    requires ways != [] && NoDuplicateTags(ways)
    ensures NoDuplicateTags(AccessAll(ways, tags))
    decreases |tags|
  {
    if tags != [] {
      AccessKeepsNoDuplicates(ways, tags[0]);
      AccessAllKeepsNoDuplicates(AfterAccess(ways, tags[0]), tags[1..]);
    }
  }

  lemma {:induction false} DistinctCard(tags: seq<nat>)
    requires forall i, j :: 0 <= i < j < |tags| ==> tags[i] != tags[j]
    ensures |set k | 0 <= k < |tags| :: tags[k]| == |tags|
    decreases |tags|
  {
    if tags != [] {
      var n := |tags| - 1;
      DistinctCard(tags[..n]);
      assert (set k | 0 <= k < |tags| :: tags[k])
          == (set k | 0 <= k < n :: tags[..n][k]) + {tags[n]};
    }
  }

  /**
   * Capacity: a run of more distinct blocks than there are ways, all into one
   * set, leaves at least one of them evicted.
   */
  lemma CapacityForcesEviction(ways: seq<Line>, tags: seq<nat>)
    requires ways != [] && NoDuplicateTags(ways)
    requires |tags| > |ways|
    requires forall i, j :: 0 <= i < j < |tags| ==> tags[i] != tags[j]
    ensures exists k :: 0 <= k < |tags| && !Resident(AccessAll(ways, tags), tags[k])
  {
    var final := AccessAll(ways, tags);
    var accessed := set k | 0 <= k < |tags| :: tags[k];
    var resident := ResidentTags(final);
    AccessAllKeepsNoDuplicates(ways, tags);
    ResidentTagsCount(final);
    CountValidBounded(final);
    DistinctCard(tags);
    var t := OutsideSmallerSet(accessed, resident);
    var k :| 0 <= k < |tags| && tags[k] == t;
    assert !Resident(final, tags[k]);
  }

  /** A larger set has an element outside a smaller one. */
  lemma OutsideSmallerSet(a: set<nat>, b: set<nat>) returns (t: nat)
    requires |b| < |a|
    ensures t in a && t !in b
  {
    var d := a - b;
    assert a == (a * b) + d;
    assert |a * b| <= |b| by {
      assert b == (a * b) + (b - a);
    }
    t :| t in d;
  }

  /**
   * Five blocks into one empty 4-way set: all five miss; the first four fill
   * ways 0 to 3 with counter 1, and the fifth evicts way 0, the lowest of the
   * tied ways.
   */
  lemma ConflictScenario(s0: seq<Line>, tags: seq<nat>)
    requires s0 == EmptySet(4) && tags == [0, 1, 2, 3, 4]
    ensures Outcomes(s0, tags) == [false, false, false, false, false]
    ensures AccessAll(s0, tags) == [Line(1, true, 4), Line(1, true, 1), Line(1, true, 2), Line(1, true, 3)]
  {
    var s4 := [Line(1, true, 0), Line(1, true, 1), Line(1, true, 2), Line(1, true, 3)];
    var s5 := [Line(1, true, 4), Line(1, true, 1), Line(1, true, 2), Line(1, true, 3)];
    FillPhase(s0, tags, s4);
    assert tags[4..] == [4];
    EvictStep(s4, s5);
  }

  /** The first four blocks of the scenario miss and fill ways 0 to 3 in order. */
  lemma FillPhase(s0: seq<Line>, tags: seq<nat>, s4: seq<Line>)
    requires s0 == EmptySet(4) && tags == [0, 1, 2, 3, 4]
    requires s4 == [Line(1, true, 0), Line(1, true, 1), Line(1, true, 2), Line(1, true, 3)]
    ensures AccessAll(s0, tags) == AccessAll(s4, tags[4..])
    ensures Outcomes(s0, tags) == [false, false, false, false] + Outcomes(s4, tags[4..])
  {
    var s1 := s0[0 := Line(1, true, 0)];
    var s2 := s1[1 := Line(1, true, 1)];
    var s3 := s2[2 := Line(1, true, 2)];
    assert s3[3 := Line(1, true, 3)] == s4;
    MissStep(s0, 0, 0, s1);
    MissStep(s1, 1, 1, s2);
    MissStep(s2, 2, 2, s3);
    MissStep(s3, 3, 3, s4);
    RunStep(s0, tags, s1);
    RunStep(s1, tags[1..], s2);
    RunStep(s2, tags[2..], s3);
    RunStep(s3, tags[3..], s4);
    assert tags[1..][1..] == tags[2..] && tags[2..][1..] == tags[3..] && tags[3..][1..] == tags[4..];
  }

  /** One step of a run whose first access misses. */
  lemma RunStep(ways: seq<Line>, tags: seq<nat>, next: seq<Line>)
    requires ways != [] && tags != [] && !Resident(ways, tags[0]) && AfterAccess(ways, tags[0]) == next
    ensures AccessAll(ways, tags) == AccessAll(next, tags[1..])
    ensures Outcomes(ways, tags) == [false] + Outcomes(next, tags[1..])
  {
  }

  /** The fifth block of the scenario: all four counters tie at 1 and way 0 is evicted. */
  lemma EvictStep(s4: seq<Line>, s5: seq<Line>)
    requires s4 == [Line(1, true, 0), Line(1, true, 1), Line(1, true, 2), Line(1, true, 3)]
    requires s5 == [Line(1, true, 4), Line(1, true, 1), Line(1, true, 2), Line(1, true, 3)]
    ensures AccessAll(s4, [4]) == s5 && Outcomes(s4, [4]) == [false]
  {
    assert !Resident(s4, 4);
    VictimTieBreak(s4);
    assert FirstInvalid(s4) == 4;
    assert AfterAccess(s4, 4) == s5;
    assert [4][1..] == [];
  }

  /** A miss into way `i`, the first free way, of a set of valid lines of other tags. */
  lemma MissStep(ways: seq<Line>, tag: nat, i: nat, r: seq<Line>)
    requires i < |ways| && !ways[i].valid && ways[i].counter == 0
    requires forall j :: 0 <= j < i ==> ways[j].valid && ways[j].tag != tag
    requires forall j :: i < j < |ways| ==> !ways[j].valid
    requires r == ways[i := Line(1, true, tag)]
    ensures !Resident(ways, tag) && AfterAccess(ways, tag) == r
  {
  }
}
