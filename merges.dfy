/** The three two-cursor merges of the query engine: skip-accelerated intersection
    (`intersect_merge_AND`), union (`union_merge`) and negation against the universe
    (`posting_list_negation`), search.py:179-342. */
module Merges {
  import opened Entries

  /** Reference meaning of AND: the elements of a that occur in b, in a's order. */
  function Inter(a: seq<int>, b: seq<int>): seq<int>
  {
    if a == [] then []
    else Inter(a[..|a| - 1], b) + (if a[|a| - 1] in b then [a[|a| - 1]] else [])
  }

  /** Reference meaning of NOT: the elements of a that do not occur in b, in a's order. */
  function Minus(a: seq<int>, b: seq<int>): seq<int>
  {
    if a == [] then []
    else Minus(a[..|a| - 1], b) + (if a[|a| - 1] !in b then [a[|a| - 1]] else [])
  }

  /** What `union_merge` builds: bare ids while both lists last, then the rest of the
      unexhausted list verbatim, skip pairs included. */
  function UnionOf(a: seq<Entry>, b: seq<Entry>): seq<Entry>
    decreases |a| + |b|
  {
    if a == [] then b
    else if b == [] then a
    else if a[0].doc == b[0].doc then [Plain(a[0].doc)] + UnionOf(a[1..], b[1..])
    else if a[0].doc < b[0].doc then [Plain(a[0].doc)] + UnionOf(a[1..], b)
    else [Plain(b[0].doc)] + UnionOf(a, b[1..])
  }

  // ---------------------------------------------------------------- Inter

  lemma InterAppend(a: seq<int>, x: int, b: seq<int>)
    ensures Inter(a + [x], b) == Inter(a, b) + (if x in b then [x] else [])
  {
    assert (a + [x])[..|a|] == a;
  }

  /** Appending ids absent from b does not change the intersection. */
  lemma {:induction false} InterAppendAbsent(a: seq<int>, t: seq<int>, b: seq<int>)
    requires forall i :: 0 <= i < |t| ==> t[i] !in b
    ensures Inter(a + t, b) == Inter(a, b)
  {
    if t != [] {
      var t', x := t[..|t| - 1], t[|t| - 1];
      assert x !in b;
      assert a + t == (a + t') + [x];
      InterAppend(a + t', x, b);
      InterAppendAbsent(a, t', b);
    } else {
      assert a + t == a;
    }
  }

  /** The intersection holds exactly the ids common to both lists, and it is strictly
      increasing when the first list is. */
  lemma {:induction false} InterMeaning(a: seq<int>, b: seq<int>)
    requires StrictlySorted(a)
    ensures StrictlySorted(Inter(a, b))
    ensures forall x :: x in Inter(a, b) <==> x in a && x in b
  {
    if a != [] {
      var a', x := a[..|a| - 1], a[|a| - 1];
      assert a == a' + [x];
      InterMeaning(a', b);
      assert forall y :: y in a' ==> y < x by {
        forall y | y in a' ensures y < x {
          var i :| 0 <= i < |a'| && a'[i] == y;
          assert a[i] == y;
        }
      }
      SortedSnoc(Inter(a', b), x);
    }
  }

  /** Two strictly increasing lists with the same elements are equal. */
  lemma {:induction false} SortedUnique(s: seq<int>, t: seq<int>)
    requires StrictlySorted(s) && StrictlySorted(t)
    requires forall x :: x in s <==> x in t
    ensures s == t
  {
    if s != [] {
      assert s[0] in s;
    }
    if t != [] {
      assert t[0] in t;
    }
    if s != [] && t != [] {
      var i :| 0 <= i < |t| && t[i] == s[0];
      assert t[0] <= t[i];
      var j :| 0 <= j < |s| && s[j] == t[0];
      assert s[0] <= s[j];
      forall x ensures x in s[1..] <==> x in t[1..] {
        if x in s[1..] {
          assert x in t && x != t[0];
        }
        if x in t[1..] {
          assert x in s && x != s[0];
        }
      }
      SortedUnique(s[1..], t[1..]);
      assert s == [s[0]] + s[1..] && t == [t[0]] + t[1..];
    }
  }

  /** For sorted lists the intersection does not depend on the operand order, which is why
      `process_and_operator` may put the shorter list first. */
  lemma InterSymmetric(a: seq<int>, b: seq<int>)
    requires StrictlySorted(a) && StrictlySorted(b)
    ensures Inter(a, b) == Inter(b, a)
  {
    InterMeaning(a, b);
    InterMeaning(b, a);
    SortedUnique(Inter(a, b), Inter(b, a));
  }

  // ---------------------------------------------------------------- Minus

  lemma MinusAppend(a: seq<int>, x: int, b: seq<int>)
    ensures Minus(a + [x], b) == Minus(a, b) + (if x !in b then [x] else [])
  {
    assert (a + [x])[..|a|] == a;
  }

  /** A suffix of ids absent from b passes into the difference unchanged. */
  lemma {:induction false} MinusSuffixAbsent(u: seq<int>, p: nat, b: seq<int>)
    requires p <= |u|
    requires forall i :: p <= i < |u| ==> u[i] !in b
    ensures Minus(u[..p], b) + u[p..] == Minus(u, b)
    decreases |u|
  {
    if p == |u| {
      assert u[..p] == u;
    } else {
      var u', x := u[..|u| - 1], u[|u| - 1];
      assert x !in b;
      MinusSuffixAbsent(u', p, b);
      assert u'[..p] == u[..p];
      assert u[p..] == u'[p..] + [x];
    }
  }

  /** NOT of an empty operand is the whole universe. */
  lemma MinusNothing(u: seq<int>)
    ensures Minus(u, []) == u
  {
    MinusSuffixAbsent(u, 0, []);
    assert u[..0] == [] && u[0..] == u;
  }

  /** The difference holds exactly the universe ids missing from the operand, and keeps the
      universe's strict order. */
  lemma {:induction false} MinusMeaning(a: seq<int>, b: seq<int>)
    requires StrictlySorted(a)
    ensures StrictlySorted(Minus(a, b))
    ensures forall x :: x in Minus(a, b) <==> x in a && x !in b
  {
    if a != [] {
      var a', x := a[..|a| - 1], a[|a| - 1];
      assert a == a' + [x];
      MinusMeaning(a', b);
      assert forall y :: y in a' ==> y < x by {
        forall y | y in a' ensures y < x {
          var i :| 0 <= i < |a'| && a'[i] == y;
          assert a[i] == y;
        }
      }
      SortedSnoc(Minus(a', b), x);
    }
  }

  // ---------------------------------------------------------------- Union

  lemma ValuesCons(a: seq<Entry>)
    requires a != []
    ensures Values(a) == [a[0].doc] + Values(a[1..])
  {
  }

  lemma UnionCons(a: seq<Entry>, b: seq<Entry>)
    requires a != [] && b != []
    ensures UnionOf(a, b) == (if a[0].doc == b[0].doc then [Plain(a[0].doc)] + UnionOf(a[1..], b[1..])
                              else if a[0].doc < b[0].doc then [Plain(a[0].doc)] + UnionOf(a[1..], b)
                              else [Plain(b[0].doc)] + UnionOf(a, b[1..]))
  {
  }

  /** The union holds exactly the ids of either list. */
  lemma {:induction false} UnionMembers(a: seq<Entry>, b: seq<Entry>)
    ensures forall x :: x in Values(UnionOf(a, b)) <==> x in Values(a) || x in Values(b)
    decreases |a| + |b|
  {
    if a != [] && b != [] {
      ValuesCons(a);
      ValuesCons(b);
      UnionCons(a, b);
      var h, rest;
      if a[0].doc == b[0].doc {
        h, rest := a[0].doc, UnionOf(a[1..], b[1..]);
        UnionMembers(a[1..], b[1..]);
      } else if a[0].doc < b[0].doc {
        h, rest := a[0].doc, UnionOf(a[1..], b);
        UnionMembers(a[1..], b);
      } else {
        h, rest := b[0].doc, UnionOf(a, b[1..]);
        UnionMembers(a, b[1..]);
      }
      assert UnionOf(a, b) == [Plain(h)] + rest;
      ValuesAppend([Plain(h)], rest);
      assert Values([Plain(h)]) == [h];
    }
  }

  /** Dropping the head of a strictly increasing list leaves ids above the head. */
  lemma SortedTail(a: seq<Entry>)
    requires a != [] && StrictlySorted(Values(a))
    ensures StrictlySorted(Values(a[1..]))
    ensures forall x :: x in Values(a) ==> x >= a[0].doc
    ensures forall x :: x in Values(a[1..]) ==> x > a[0].doc
  {
    var va := Values(a);
    ValuesSlice(a, 1, |a|);
    assert a[1..|a|] == a[1..];
    var tail := Values(a[1..]);
    assert tail == va[1..];
    forall x | x in tail ensures x > a[0].doc {
      var i :| 0 <= i < |tail| && tail[i] == x;
      assert tail[i] == va[i + 1];
      assert va[0] < va[i + 1];
    }
    forall x | x in va ensures x >= a[0].doc {
      var i :| 0 <= i < |va| && va[i] == x;
      assert va[0] <= va[i];
    }
  }

  /** The union of two strictly increasing lists is strictly increasing. */
  lemma {:induction false} UnionSorted(a: seq<Entry>, b: seq<Entry>)
    requires StrictlySorted(Values(a)) && StrictlySorted(Values(b))
    ensures StrictlySorted(Values(UnionOf(a, b)))
    decreases |a| + |b|
  {
    if a != [] && b != [] {
      UnionCons(a, b);
      SortedTail(a);
      SortedTail(b);
      var h, a', b';
      if a[0].doc == b[0].doc {
        h, a', b' := a[0].doc, a[1..], b[1..];
      } else if a[0].doc < b[0].doc {
        h, a', b' := a[0].doc, a[1..], b;
      } else {
        h, a', b' := b[0].doc, a, b[1..];
      }
      var rest := UnionOf(a', b');
      assert UnionOf(a, b) == [Plain(h)] + rest;
      UnionSorted(a', b');
      UnionMembers(a', b');
      assert forall x :: x in Values(rest) ==> x > h;
      ValuesAppend([Plain(h)], rest);
      assert Values([Plain(h)]) == [h];
      SortedCons(h, Values(rest));
    }
  }

  /** The union's ids are those of either list, strictly increasing when both lists are. */
  lemma UnionMeaning(a: seq<Entry>, b: seq<Entry>)
    requires StrictlySorted(Values(a)) && StrictlySorted(Values(b))
    ensures StrictlySorted(Values(UnionOf(a, b)))
    ensures forall x :: x in Values(UnionOf(a, b)) <==> x in Values(a) || x in Values(b)
  {
    UnionMembers(a, b);
    UnionSorted(a, b);
  }

  lemma SortedCons(h: int, s: seq<int>)
    requires StrictlySorted(s) && forall x :: x in s ==> x > h
    ensures StrictlySorted([h] + s)
  {
    var r := [h] + s;
    forall i, j | 0 <= i < j < |r| ensures r[i] < r[j] {
      assert r[j] == s[j - 1];
      if i == 0 {
        assert s[j - 1] in s;
      }
    }
  }

  lemma SortedSnoc(s: seq<int>, x: int)
    requires StrictlySorted(s) && forall y :: y in s ==> y < x
    ensures StrictlySorted(s + [x])
  {
    var r := s + [x];
    forall i, j | 0 <= i < j < |r| ensures r[i] < r[j] {
      assert r[i] == s[i];
      if j == |s| {
        assert s[i] in s;
      }
    }
  }

  /** OR with an empty side returns the other side untouched, skip pairs included. */
  lemma UnionWithEmpty(a: seq<Entry>)
    ensures UnionOf(a, []) == a && UnionOf([], a) == a
  {
  }

  // ---------------------------------------------------------------- methods

  /** A value below the other cursor's id, and above every id the other cursor has passed,
      does not occur in the other list. */
  lemma NotFoundBelow(vb: seq<int>, p2: nat, v: int)
    requires StrictlySorted(vb) && p2 < |vb| && v < vb[p2]
    requires forall j :: 0 <= j < p2 ==> vb[j] < v
    ensures v !in vb
  {
    forall j | 0 <= j < |vb| ensures vb[j] != v {
      if j >= p2 {
        assert vb[p2] <= vb[j];
      }
    }
  }

  /** Jumping the first cursor from `from` to `to` skips only ids that cannot occur in the
      second list. */
  lemma SkipKeepsInter(va: seq<int>, vb: seq<int>, from: nat, to: nat, p2: nat)
    requires StrictlySorted(va) && StrictlySorted(vb)
    requires from < to < |va| && p2 < |vb| && va[to] <= vb[p2]
    requires forall j :: 0 <= j < p2 ==> vb[j] < va[from]
    ensures Inter(va[..to], vb) == Inter(va[..from], vb)
    ensures forall j :: 0 <= j < p2 ==> vb[j] < va[to]
  {
    var t := va[from..to];
    forall i | 0 <= i < |t| ensures t[i] !in vb {
      SkippedAbsent(va, vb, from, to, p2, from + i);
    }
    InterAppendAbsent(va[..from], t, vb);
    assert va[..from] + t == va[..to];
  }

  /** An id passed over by the jump lies strictly between the second list's ids before the
      second cursor and its id at the cursor. */
  lemma SkippedAbsent(va: seq<int>, vb: seq<int>, from: nat, to: nat, p2: nat, k: nat)
    requires StrictlySorted(va) && StrictlySorted(vb)
    requires from <= k < to < |va| && p2 < |vb| && va[to] <= vb[p2]
    requires forall j :: 0 <= j < p2 ==> vb[j] < va[from]
    ensures va[k] !in vb
  {
    assert va[from] <= va[k] < va[to];
    NotFoundBelow(vb, p2, va[k]);
  }

  /** The first cursor's id occurs in the second list at the second cursor: it joins the
      intersection and both cursors move on. */
  lemma MatchStep(va: seq<int>, vb: seq<int>, p1: nat, p2: nat)
    requires StrictlySorted(va) && StrictlySorted(vb)
    requires p1 < |va| && p2 < |vb| && va[p1] == vb[p2]
    requires forall j :: 0 <= j < p2 ==> vb[j] < va[p1]
    ensures Inter(va[..p1 + 1], vb) == Inter(va[..p1], vb) + [va[p1]]
    ensures p1 + 1 < |va| ==> forall j :: 0 <= j < p2 + 1 ==> vb[j] < va[p1 + 1]
  {
    assert va[..p1 + 1] == va[..p1] + [va[p1]];
    InterAppend(va[..p1], va[p1], vb);
    if p1 + 1 < |va| {
      forall j | 0 <= j < p2 + 1 ensures vb[j] < va[p1 + 1] {
        assert vb[j] <= vb[p2];
        assert va[p1] < va[p1 + 1];
      }
    }
  }

  /** The first cursor's id is below the second cursor's: it is in no intersection and the
      first cursor moves on by one. */
  lemma MissStep(va: seq<int>, vb: seq<int>, p1: nat, p2: nat)
    requires StrictlySorted(va) && StrictlySorted(vb)
    requires p1 < |va| && p2 < |vb| && va[p1] < vb[p2]
    requires forall j :: 0 <= j < p2 ==> vb[j] < va[p1]
    ensures Inter(va[..p1 + 1], vb) == Inter(va[..p1], vb)
    ensures p1 + 1 < |va| ==> forall j :: 0 <= j < p2 ==> vb[j] < va[p1 + 1]
  {
    assert va[..p1 + 1] == va[..p1] + [va[p1]];
    InterAppend(va[..p1], va[p1], vb);
    NotFoundBelow(vb, p2, va[p1]);
    if p1 + 1 < |va| {
      assert va[p1] < va[p1 + 1];
    }
  }

  /** Every id before a position whose id does not exceed v is below v. */
  lemma BelowBound(vb: seq<int>, to: nat, v: int)
    requires StrictlySorted(vb) && to < |vb| && vb[to] <= v
    ensures forall j :: 0 <= j < to ==> vb[j] < v
  {
  }

  /** Ids from position k onwards that are absent from b do not change the intersection. */
  lemma {:induction false} InterDropAbsent(va: seq<int>, vb: seq<int>, k: nat)
    requires k <= |va|
    requires forall i :: k <= i < |va| ==> va[i] !in vb
    ensures Inter(va, vb) == Inter(va[..k], vb)
    decreases |va|
  {
    if |va| > k {
      var w := va[..|va| - 1];
      assert va[|va| - 1] !in vb;
      assert Inter(va, vb) == Inter(w, vb);
      InterDropAbsent(w, vb, k);
      assert w[..k] == va[..k];
    } else {
      assert va[..k] == va;
    }
  }

  /** Once the second list is used up, the rest of the first list adds nothing. */
  lemma RestAbsent(va: seq<int>, vb: seq<int>, p1: nat)
    requires StrictlySorted(va) && p1 < |va|
    requires forall j :: 0 <= j < |vb| ==> vb[j] < va[p1]
    ensures Inter(va, vb) == Inter(va[..p1], vb)
  {
    forall i | p1 <= i < |va| ensures va[i] !in vb {
      assert va[p1] <= va[i];
    }
    InterDropAbsent(va, vb, p1);
  }

  /** The inner skip loop of `intersect_merge_AND` (search.py:214-219, 230-235), with
      the target bound checked: from an entry whose id does not exceed `bound`, follow
      skip pointers forward while the target's id still does not exceed it. */
  method FollowSkips(l: seq<Entry>, p: nat, bound: int) returns (q: nat)
    requires p < |l| && l[p].doc <= bound
    ensures p <= q < |l| && l[q].doc <= bound
    ensures !(l[q].Skip? && q < l[q].target < |l| && l[l[q].target].doc <= bound)
  {
    q := p;
    while l[q].Skip? && q < l[q].target < |l| && l[l[q].target].doc <= bound
      invariant p <= q < |l| && l[q].doc <= bound
      decreases |l| - q
    {
      q := l[q].target;
    }
  }

  /** `intersect_merge_AND` (search.py:179-240), with the skip loop as evidently intended:
      a skip is taken only when its target lies ahead in the list and its id does not pass
      the other cursor's id, and jumping repeats while that holds. */
  method IntersectMerge(a: seq<Entry>, b: seq<Entry>) returns (r: seq<Entry>)
    requires StrictlySorted(Values(a)) && StrictlySorted(Values(b))
    ensures |a| == 0 || |b| == 0 ==> r == []
    ensures r == Bare(Inter(Values(a), Values(b)))
  {
    var va, vb := Values(a), Values(b);
    if |a| == 0 || |b| == 0 {
      InterAppendAbsent([], va, vb);
      assert [] + va == va;
      return [];
    }
    r := [];
    var p1, p2 := 0, 0;
    while p1 < |a| && p2 < |b|
      invariant 0 <= p1 <= |a| && 0 <= p2 <= |b|
      invariant r == Bare(Inter(va[..p1], vb))
      invariant p1 < |a| ==> forall j :: 0 <= j < p2 ==> vb[j] < va[p1]
      decreases |a| - p1 + |b| - p2
    {
      var v1, v2 := a[p1].doc, b[p2].doc;
      if v1 == v2 {
        MatchStep(va, vb, p1, p2);
        BareAppend(Inter(va[..p1], vb), v1);
        r := r + [Plain(v1)];
        p1, p2 := p1 + 1, p2 + 1;
      } else if v1 < v2 {
        if a[p1].Skip? && p1 < a[p1].target < |a| && a[a[p1].target].doc <= v2 {
          var start := p1;
          p1 := FollowSkips(a, a[p1].target, v2);
          SkipKeepsInter(va, vb, start, p1, p2);
        } else {
          MissStep(va, vb, p1, p2);
          p1 := p1 + 1;
        }
      } else {
        if b[p2].Skip? && p2 < b[p2].target < |b| && b[b[p2].target].doc <= v1 {
          p2 := FollowSkips(b, b[p2].target, v1);
          BelowBound(vb, p2, v1);
        } else {
          p2 := p2 + 1;
        }
      }
    }
    if p1 < |a| {
      RestAbsent(va, vb, p1);
    } else {
      assert va[..p1] == va;
    }
  }

  /** One comparison of the union loop emits the smaller head and advances past it. */
  lemma UnionAdvance(r: seq<Entry>, a: seq<Entry>, b: seq<Entry>, p1: nat, p2: nat)
    requires p1 < |a| && p2 < |b|
    ensures var v1, v2 := a[p1].doc, b[p2].doc;
            r + UnionOf(a[p1..], b[p2..])
            == if v1 == v2 then (r + [Plain(v1)]) + UnionOf(a[p1 + 1..], b[p2 + 1..])
               else if v1 < v2 then (r + [Plain(v1)]) + UnionOf(a[p1 + 1..], b[p2..])
               else (r + [Plain(v2)]) + UnionOf(a[p1..], b[p2 + 1..])
  {
    var sa, sb := a[p1..], b[p2..];
    assert sa[0] == a[p1] && sb[0] == b[p2];
    assert sa[1..] == a[p1 + 1..] && sb[1..] == b[p2 + 1..];
    UnionCons(sa, sb);
  }

  /** Once either list is used up, the union is what remains of the other. */
  lemma UnionDrained(a: seq<Entry>, b: seq<Entry>, p1: nat, p2: nat)
    requires p1 <= |a| && p2 <= |b| && (p1 == |a| || p2 == |b|)
    ensures UnionOf(a[p1..], b[p2..])
            == if p1 < |a| then a[p1..] else if p2 < |b| then b[p2..] else []
  {
  }

  /** `union_merge` (search.py:261-299). */
  method UnionMerge(a: seq<Entry>, b: seq<Entry>) returns (r: seq<Entry>)
    ensures r == UnionOf(a, b)
  {
    r := [];
    var p1, p2 := 0, 0;
    assert a[0..] == a && b[0..] == b;
    while p1 < |a| && p2 < |b|
      invariant 0 <= p1 <= |a| && 0 <= p2 <= |b|
      invariant r + UnionOf(a[p1..], b[p2..]) == UnionOf(a, b)
      decreases |a| - p1 + |b| - p2
    {
      var v1, v2 := a[p1].doc, b[p2].doc;
      UnionAdvance(r, a, b, p1, p2);
      if v1 == v2 {
        r := r + [Plain(v1)];
        p1, p2 := p1 + 1, p2 + 1;
      } else if v1 < v2 {
        r := r + [Plain(v1)];
        p1 := p1 + 1;
      } else {
        r := r + [Plain(v2)];
        p2 := p2 + 1;
      }
    }
    UnionDrained(a, b, p1, p2);
    if p1 < |a| && p2 >= |b| {
      r := r + a[p1..];
    }
    if p2 < |b| && p1 >= |a| {
      r := r + b[p2..];
    }
    if p1 >= |a| && p2 >= |b| {
      assert r + [] == r;
    }
  }

  /** `posting_list_negation` (search.py:313-342): the universe ids missing from the operand. */
  method Negate(universe: seq<int>, l: seq<Entry>) returns (r: seq<Entry>)
    requires StrictlySorted(universe) && StrictlySorted(Values(l))
    ensures r == Bare(Minus(universe, Values(l)))
  {
    var vl := Values(l);
    r := [];
    var p1, pAll := 0, 0;
    while pAll < |universe|
      invariant 0 <= p1 <= |l| && 0 <= pAll <= |universe|
      invariant r == Bare(Minus(universe[..pAll], vl))
      invariant pAll < |universe| ==> forall j :: 0 <= j < p1 ==> vl[j] < universe[pAll]
      decreases |universe| - pAll + |l| - p1
    {
      if p1 >= |l| {
        NegateTail(universe, vl, pAll);
        BareConcat(Minus(universe[..pAll], vl), universe[pAll..]);
        r := r + Bare(universe[pAll..]);
        return;
      }
      var v1 := l[p1].doc;
      var u := universe[pAll];
      if u == v1 {
        NegateMatch(universe, vl, pAll, p1);
        pAll, p1 := pAll + 1, p1 + 1;
      } else if u < v1 {
        NegateKeep(universe, vl, pAll, p1);
        r := r + [Plain(u)];
        pAll := pAll + 1;
      } else {
        p1 := p1 + 1;
      }
    }
    assert universe[..pAll] == universe;
  }

  /** Once the negated list is used up, every remaining id of the universe survives. */
  lemma NegateTail(universe: seq<int>, vl: seq<int>, pAll: nat)
    requires StrictlySorted(universe) && pAll < |universe|
    requires forall j :: 0 <= j < |vl| ==> vl[j] < universe[pAll]
    ensures Minus(universe[..pAll], vl) + universe[pAll..] == Minus(universe, vl)
  {
    forall i | pAll <= i < |universe| ensures universe[i] !in vl {
      assert universe[pAll] <= universe[i];
    }
    MinusSuffixAbsent(universe, pAll, vl);
  }

  /** A universe id equal to the current negated id is dropped, and both cursors move. */
  lemma NegateMatch(universe: seq<int>, vl: seq<int>, pAll: nat, p1: nat)
    requires StrictlySorted(universe) && StrictlySorted(vl)
    requires pAll < |universe| && p1 < |vl| && universe[pAll] == vl[p1]
    ensures Minus(universe[..pAll + 1], vl) == Minus(universe[..pAll], vl)
    ensures pAll + 1 < |universe| ==> forall j :: 0 <= j < p1 + 1 ==> vl[j] < universe[pAll + 1]
  {
    assert universe[..pAll + 1] == universe[..pAll] + [universe[pAll]];
    MinusAppend(universe[..pAll], universe[pAll], vl);
    if pAll + 1 < |universe| {
      forall j | 0 <= j < p1 + 1 ensures vl[j] < universe[pAll + 1] {
        assert vl[j] <= vl[p1];
        assert universe[pAll] < universe[pAll + 1];
      }
    }
  }

  /** A universe id below the current negated id is absent from the whole list and is kept. */
  lemma NegateKeep(universe: seq<int>, vl: seq<int>, pAll: nat, p1: nat)
    requires StrictlySorted(universe) && StrictlySorted(vl)
    requires pAll < |universe| && p1 < |vl| && universe[pAll] < vl[p1]
    requires forall j :: 0 <= j < p1 ==> vl[j] < universe[pAll]
    ensures Bare(Minus(universe[..pAll + 1], vl)) == Bare(Minus(universe[..pAll], vl)) + [Plain(universe[pAll])]
    ensures pAll + 1 < |universe| ==> forall j :: 0 <= j < p1 ==> vl[j] < universe[pAll + 1]
  {
    var u := universe[pAll];
    assert universe[..pAll + 1] == universe[..pAll] + [u];
    MinusAppend(universe[..pAll], u, vl);
    NotFoundBelow(vl, p1, u);
    BareAppend(Minus(universe[..pAll], vl), u);
    if pAll + 1 < |universe| {
      assert universe[pAll] < universe[pAll + 1];
    }
  }

  lemma BareConcat(s: seq<int>, t: seq<int>)
    ensures Bare(s + t) == Bare(s) + Bare(t)
  {
  }
}
