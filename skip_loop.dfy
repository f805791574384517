/** The skip loop of `intersect_merge_AND` (search.py:209-238) exactly as written, run with
    an explicit step budget: `None` means the budget ran out before the loop ended. */
module SkipLoop {
  import opened Wrappers
  import opened Entries
  import opened SkipPointers
  import Merges

  /** Every skip target of the list is an index of the list. */
  predicate TargetsInRange(a: seq<Entry>)
  {
    forall i :: 0 <= i < |a| && a[i].Skip? ==> a[i].target < |a|
  }

  /** The inner `while` of case 2 (search.py:214-219): while the entry at the skip target
      carries a pointer and its id does not pass v, the cursor moves to the target and the
      target follows that entry's pointer. Yields the cursor once the loop ends. */
  function InnerAsWritten(a: seq<Entry>, p: nat, s: nat, v: int, fuel: nat): (r: Option<nat>)
    requires TargetsInRange(a) && p < |a| && s < |a|
    ensures r.Some? ==> r.value < |a|
    ensures r == Some(p) <== !(a[s].Skip? && a[s].doc <= v) && fuel > 0
    decreases fuel
  {
    if fuel == 0 then None
    else if a[s].Skip? && a[s].doc <= v then InnerAsWritten(a, s, a[s].target, v, fuel - 1)
    else Some(p)
  }

  /** The outer loop of `intersect_merge_AND` (search.py:187-238) from cursors p1, p2 with
      the ids matched so far in `acc`; the skip branch on either side follows the source,
      including its special case for a cursor on the last entry. */
  function IntersectAsWritten(a: seq<Entry>, b: seq<Entry>, p1: nat, p2: nat, acc: seq<int>,
                              fuel: nat): (r: Option<seq<int>>)
    requires TargetsInRange(a) && TargetsInRange(b)
    ensures r.Some? ==> |acc| <= |r.value|
    decreases fuel
  {
    if fuel == 0 then None
    else if !(p1 < |a| && p2 < |b|) then Some(acc)
    else
      var v1, v2 := a[p1].doc, b[p2].doc;
      if v1 == v2 then IntersectAsWritten(a, b, p1 + 1, p2 + 1, acc + [v1], fuel - 1)
      else if v1 < v2 then
        if a[p1].Skip? && a[a[p1].target].doc <= v2 then
          if p1 == |a| - 1 then IntersectAsWritten(a, b, p1 + 1, p2, acc, fuel - 1)
          else
            match InnerAsWritten(a, p1, a[p1].target, v2, fuel)
            case None => None
            case Some(q) => IntersectAsWritten(a, b, q, p2, acc, fuel - 1)
        else IntersectAsWritten(a, b, p1 + 1, p2, acc, fuel - 1)
      else
        if b[p2].Skip? && b[b[p2].target].doc <= v1 then
          if p2 == |b| - 1 then IntersectAsWritten(a, b, p1, p2 + 1, acc, fuel - 1)
          else
            match InnerAsWritten(b, p2, b[p2].target, v1, fuel)
            case None => None
            case Some(q) => IntersectAsWritten(a, b, p1, q, acc, fuel - 1)
        else IntersectAsWritten(a, b, p1, p2 + 1, acc, fuel - 1)
  }

  /** A square root is pinned down by the squares around it. */
  lemma SquareLess(x: nat, y: nat)
    ensures x * x < y * y ==> x < y
  {
    if x >= y {
      assert x * x == y * y + (x - y) * (x + y);
    }
  }

  lemma IsqrtOf(n: nat, k: nat)
    requires k * k <= n < (k + 1) * (k + 1)
    ensures Isqrt(n) == k
  {
    var r := Isqrt(n);
    SquareLess(r, k + 1);
    SquareLess(k, r + 1);
  }

  /** The on-disk form of the ids 1..8: isqrt(8) = 2, so the stride is 4, and the pair at
      index 4 points at the bare last entry. */
  lemma EightEntries()
    ensures SkipList([1, 2, 3, 4, 5, 6, 7, 8])
         == [Skip(1, 4), Plain(2), Plain(3), Plain(4), Skip(5, 7), Plain(6), Plain(7), Plain(8)]
  {
    IsqrtOf(8, 2);
    assert Stride(8) == 4;
  }

  /** The on-disk form of the ids 1..5: isqrt(5) = 2, so the stride is 2, and the last entry
      is a pair pointing at itself. */
  lemma FiveEntries()
    ensures SkipList([1, 2, 3, 4, 5]) == [Skip(1, 2), Plain(2), Skip(3, 4), Plain(4), Skip(5, 4)]
  {
    IsqrtOf(5, 2);
    assert Stride(5) == 2;
  }

  /** With the ids 1..8 against the single id 9, the cursor jumps to index 4 and then, its
      target being a bare entry, neither jumps nor advances: the loop never ends. */
  lemma {:induction false} StuckAtBareTarget(fuel: nat)
    ensures IntersectAsWritten(SkipList([1, 2, 3, 4, 5, 6, 7, 8]), [Plain(9)], 4, 0, [], fuel) == None
    decreases fuel
  {
    EightEntries();
    var a := SkipList([1, 2, 3, 4, 5, 6, 7, 8]);
    if fuel > 0 {
      assert InnerAsWritten(a, 4, 7, 9, fuel) == Some(4);
      StuckAtBareTarget(fuel - 1);
    }
  }

  /** Finding: `intersect_merge_AND` as written never returns for the list built from the ids
      1..8 and the list [9], whatever the budget; the intended result is the empty list. */
  lemma AsWrittenNeverEndsEight(fuel: nat)
    ensures IntersectAsWritten(SkipList([1, 2, 3, 4, 5, 6, 7, 8]), [Plain(9)], 0, 0, [], fuel) == None
    ensures Merges.Inter([1, 2, 3, 4, 5, 6, 7, 8], [9]) == []
  {
    EightEntries();
    var a := SkipList([1, 2, 3, 4, 5, 6, 7, 8]);
    if fuel > 0 {
      if fuel > 1 {
        assert InnerAsWritten(a, 4, 7, 9, fuel - 1) == Some(4);
        assert InnerAsWritten(a, 0, 4, 9, fuel) == Some(4);
      }
      StuckAtBareTarget(fuel - 1);
    }
    Merges.InterDropAbsent([1, 2, 3, 4, 5, 6, 7, 8], [9], 0);
  }

  /** With the ids 1..5 against the single id 6, the inner loop reaches the last entry, whose
      pointer targets itself, and follows it forever. */
  lemma {:induction false} SpinsOnSelfPointer(fuel: nat)
    ensures InnerAsWritten(SkipList([1, 2, 3, 4, 5]), 4, 4, 6, fuel) == None
    decreases fuel
  {
    FiveEntries();
    if fuel > 0 {
      SpinsOnSelfPointer(fuel - 1);
    }
  }

  /** Finding: `intersect_merge_AND` as written never returns for the list built from the ids
      1..5 and the list [6], whatever the budget; the intended result is the empty list. */
  lemma AsWrittenNeverEndsFive(fuel: nat)
    ensures IntersectAsWritten(SkipList([1, 2, 3, 4, 5]), [Plain(6)], 0, 0, [], fuel) == None
    ensures Merges.Inter([1, 2, 3, 4, 5], [6]) == []
  {
    FiveEntries();
    var a := SkipList([1, 2, 3, 4, 5]);
    if fuel > 0 {
      SpinsOnSelfPointer(fuel - 1);
      assert InnerAsWritten(a, 0, 2, 6, fuel) == InnerAsWritten(a, 2, 4, 6, fuel - 1);
      if fuel > 1 {
        assert InnerAsWritten(a, 2, 4, 6, fuel - 1) == InnerAsWritten(a, 4, 4, 6, fuel - 2);
        SpinsOnSelfPointer(fuel - 2);
      }
    }
    Merges.InterDropAbsent([1, 2, 3, 4, 5], [6], 0);
  }

  /** The on-disk form of the ids 10..14: as for 1..5, pairs at indices 0, 2 and 4. */
  lemma TenToFourteen()
    ensures SkipList([10, 11, 12, 13, 14]) == [Skip(10, 2), Plain(11), Skip(12, 4), Plain(13), Skip(14, 4)]
  {
    IsqrtOf(5, 2);
    assert Stride(5) == 2;
  }

  /** `union_merge` of the lists built from 10..14 and 1..5: the smaller ids come first,
      as bare ids, then the first list is copied verbatim, so its pairs keep pointers that
      index the old list and now point backward, at bare entries. */
  lemma UnionKeepsStalePointers()
    ensures Merges.UnionOf(SkipList([10, 11, 12, 13, 14]), SkipList([1, 2, 3, 4, 5]))
         == [Plain(1), Plain(2), Plain(3), Plain(4), Plain(5),
             Skip(10, 2), Plain(11), Skip(12, 4), Plain(13), Skip(14, 4)]
  {
    TenToFourteen();
    FiveEntries();
    var a := SkipList([10, 11, 12, 13, 14]);
    var b := SkipList([1, 2, 3, 4, 5]);
    assert Merges.UnionOf(a, b[5..]) == a;
    assert Merges.UnionOf(a, b[4..]) == [Plain(5)] + Merges.UnionOf(a, b[5..]);
    assert Merges.UnionOf(a, b[3..]) == [Plain(4)] + Merges.UnionOf(a, b[4..]);
    assert Merges.UnionOf(a, b[2..]) == [Plain(3)] + Merges.UnionOf(a, b[3..]);
    assert Merges.UnionOf(a, b[1..]) == [Plain(2)] + Merges.UnionOf(a, b[2..]);
    assert Merges.UnionOf(a, b) == [Plain(1)] + Merges.UnionOf(a, b[1..]);
  }

  /** The single id 12 against that union, from its cursor k <= 5: the cursor walks over the
      bare ids 1..5 to the pair [10, 2], whose target, the bare 3, is not past 12, so the
      skip branch is taken but the inner loop never moves: the loop never ends. */
  lemma {:induction false} StuckOnBackwardPointer(k: nat, fuel: nat)
    requires k <= 5
    ensures IntersectAsWritten([Plain(12)],
                               [Plain(1), Plain(2), Plain(3), Plain(4), Plain(5),
                                Skip(10, 2), Plain(11), Skip(12, 4), Plain(13), Skip(14, 4)],
                               0, k, [], fuel) == None
    decreases fuel
  {
    if fuel > 0 {
      if k < 5 {
        StuckOnBackwardPointer(k + 1, fuel - 1);
      } else {
        StuckOnBackwardPointer(5, fuel - 1);
      }
    }
  }

  /** The pointers of that union stay inside it. */
  lemma StaleUnionInRange()
    ensures TargetsInRange([Plain(1), Plain(2), Plain(3), Plain(4), Plain(5),
                           Skip(10, 2), Plain(11), Skip(12, 4), Plain(13), Skip(14, 4)])
  {
  }

  /** The intended answer: 12 is among the union's ids. */
  lemma TwelveInUnion()
    ensures Merges.Inter([12], [1, 2, 3, 4, 5, 10, 11, 12, 13, 14]) == [12]
  {
    assert [12] == [] + [12];
    Merges.InterAppend([], 12, [1, 2, 3, 4, 5, 10, 11, 12, 13, 14]);
  }

  /** Finding: a query `(x OR y) AND z` with x's list built from 10..14, y's from 1..5 and
      z's the single id 12 never returns: `process_and_operator` intersects the shorter list
      [12] with the union, whose copied tail carries backward pointers. The intended result
      is [12]. */
  lemma AsWrittenNeverEndsAfterUnion(fuel: nat)
    ensures TargetsInRange(Merges.UnionOf(SkipList([10, 11, 12, 13, 14]), SkipList([1, 2, 3, 4, 5])))
    ensures IntersectAsWritten([Plain(12)],
                               Merges.UnionOf(SkipList([10, 11, 12, 13, 14]), SkipList([1, 2, 3, 4, 5])),
                               0, 0, [], fuel) == None
    ensures Merges.Inter([12], [1, 2, 3, 4, 5, 10, 11, 12, 13, 14]) == [12]
  {
    UnionKeepsStalePointers();
    StaleUnionInRange();
    StuckOnBackwardPointer(0, fuel);
    TwelveInUnion();
  }
}
