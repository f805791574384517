/** The term -> ids dictionaries the indexer keeps in memory and stores as blocks, and the
    dictionary that `merge` (index.py:134-174) builds from two blocks. A Python dict
    remembers the order its keys were first inserted in, and `json.dump`/`json.load` keep
    that order, so a dictionary is its key sequence together with the mapping. */
module Dicts {
  import opened Sorting

  /** A Python dict from terms to id lists: its keys in insertion order and the mapping. */
  datatype Dict = Dict(keys: seq<string>, lists: map<string, seq<int>>)

  /** No term is listed twice. */
  predicate Distinct(s: seq<string>)
  {
    forall t | t in s :: multiset(s)[t] == 1
  }

  /** The keys are listed once each, and they are exactly the mapped terms. */
  predicate DictOk(d: Dict)
  {
    Distinct(d.keys) && (forall t :: t in d.keys ==> t in d.lists) && (forall t :: t in d.lists ==> t in d.keys)
  }

  /** Every list holds at least one id: `index_file` creates a list with its first id. */
  predicate NonEmptyLists(d: Dict)
  {
    forall t :: t in d.lists ==> d.lists[t] != []
  }

  const EmptyDict := Dict([], map[])

  /** The ids a dictionary holds for t, counted with repetition; none for an absent term. */
  function Occurrences(d: Dict, t: string): multiset<int>
  {
    if t in d.lists then multiset(d.lists[t]) else multiset{}
  }

  /** With no empty list, a dictionary has a term exactly when it holds some id for it. */
  lemma HeldIffListed(d: Dict, t: string)
    requires NonEmptyLists(d)
    ensures t in d.lists <==> Occurrences(d, t) != multiset{}
  {
    if t in d.lists {
      assert d.lists[t][0] in Occurrences(d, t);
    }
  }

  /** `d[t] = v`: a new key goes to the end of the key order, a known key keeps its place. */
  function Put(d: Dict, t: string, v: seq<int>): Dict
  {
    if t in d.lists then Dict(d.keys, d.lists[t := v]) else Dict(d.keys + [t], d.lists[t := v])
  }

  /** An assignment keeps the dictionary well formed, maps t to v, appends t to the keys
      exactly when it is new, and leaves every other term alone. */
  lemma PutMeaning(d: Dict, t: string, v: seq<int>)
    requires DictOk(d)
    ensures var r := Put(d, t, v);
            DictOk(r)
            && (forall u :: u in r.lists <==> u in d.lists || u == t)
            && r.lists[t] == v
            && (forall u :: u in d.lists && u != t ==> r.lists[u] == d.lists[u])
            && r.keys == if t in d.lists then d.keys else d.keys + [t]
  {
    if t !in d.lists {
      DistinctSnoc(d.keys, t);
    }
  }

  /** A term not yet listed can be appended without listing anything twice. */
  lemma DistinctSnoc(s: seq<string>, t: string)
    requires Distinct(s) && t !in s
    ensures Distinct(s + [t])
  {
    var k := s + [t];
    assert multiset(k) == multiset(s) + multiset{t};
    forall u | u in k ensures multiset(k)[u] == 1 {
      if u != t {
        assert u in s;
      }
    }
  }

  /** Dropping the last key of a distinct sequence leaves it distinct, and that key is not
      among the others. */
  lemma DistinctInit(s: seq<string>)
    requires s != [] && Distinct(s)
    ensures Distinct(s[..|s| - 1]) && s[|s| - 1] !in s[..|s| - 1]
  {
    var init, t := s[..|s| - 1], s[|s| - 1];
    assert s == init + [t];
    assert multiset(s) == multiset(init) + multiset{t};
    assert t in s;
    forall u | u in init ensures multiset(init)[u] == 1 {
      assert u in s;
    }
  }

  // ---------------------------------------------------------------- merge

  /** `sorted` on a list of ids. */
  function SortIds(s: seq<int>): (r: seq<int>)
    ensures SortedBy(r, IntLe) && multiset(r) == multiset(s)
  {
    IntLeIsTotalPreorder();
    Sort(s, IntLe)
  }

  /** `sorted` returns a list of ids that is already in order unchanged. */
  lemma SortIdsOfSorted(s: seq<int>)
    requires SortedBy(s, IntLe)
    ensures SortIds(s) == s
  {
    IntLeIsTotalPreorder();
    SortOfSorted(s, IntLe);
  }

  /** The merged list of a right-block term: left and right ids sorted together when the
      left block has the term too, the right list as it is otherwise. */
  function Combined(l: Dict, r: Dict, t: string): seq<int>
    requires t in r.lists
  {
    if t in l.lists then SortIds(l.lists[t] + r.lists[t]) else r.lists[t]
  }

  /** The first loop of `merge` (index.py:145-156) after the right keys ks. (A key of a
      well-formed dictionary always has a list; the test only makes the function total.) */
  function MergeRight(l: Dict, r: Dict, ks: seq<string>): Dict
  {
    if ks == [] then EmptyDict
    else
      var p, t := MergeRight(l, r, ks[..|ks| - 1]), ks[|ks| - 1];
      if t in r.lists then Put(p, t, Combined(l, r, t)) else p
  }

  /** The second loop of `merge` (index.py:158-161) after the left keys ks: a left term the
      merged dictionary lacks is added with its left list. */
  function MergeLeft(m: Dict, l: Dict, ks: seq<string>): Dict
  {
    if ks == [] then m
    else
      var p, t := MergeLeft(m, l, ks[..|ks| - 1]), ks[|ks| - 1];
      if t !in p.lists && t in l.lists then Put(p, t, l.lists[t]) else p
  }

  /** The dictionary `merge` writes for blocks l (left) and r (right). */
  function MergeDicts(l: Dict, r: Dict): Dict
  {
    MergeLeft(MergeRight(l, r, r.keys), l, l.keys)
  }

  /** The terms of ks that are not in dom, in order. */
  function Absent(ks: seq<string>, dom: set<string>): seq<string>
  {
    if ks == [] then []
    else Absent(ks[..|ks| - 1], dom) + (if ks[|ks| - 1] in dom then [] else [ks[|ks| - 1]])
  }

  /** After the right keys ks: exactly those terms, each with its combined list. */
  lemma {:induction false} MergeRightMeaning(l: Dict, r: Dict, ks: seq<string>)
    requires forall t | t in ks :: t in r.lists
    ensures var m := MergeRight(l, r, ks);
            DictOk(m)
            && (forall t :: t in m.lists <==> t in ks)
            && (forall t :: t in m.lists ==> m.lists[t] == Combined(l, r, t))
  {
    if ks != [] {
      var init, t := ks[..|ks| - 1], ks[|ks| - 1];
      assert ks == init + [t];
      MergeRightMeaning(l, r, init);
      PutMeaning(MergeRight(l, r, init), t, Combined(l, r, t));
    }
  }

  /** When ks lists no term twice, the first loop lists the keys in the order of ks. */
  lemma {:induction false} MergeRightKeys(l: Dict, r: Dict, ks: seq<string>)
    requires Distinct(ks) && forall t | t in ks :: t in r.lists
    ensures MergeRight(l, r, ks).keys == ks
  {
    if ks != [] {
      var init, t := ks[..|ks| - 1], ks[|ks| - 1];
      assert ks == init + [t];
      DistinctInit(ks);
      MergeRightKeys(l, r, init);
      MergeRightDomain(l, r, init);
      assert MergeRight(l, r, ks).keys == init + [t];
    }
  }

  lemma {:induction false} MergeRightDomain(l: Dict, r: Dict, ks: seq<string>)
    requires forall t | t in ks :: t in r.lists
    ensures forall t :: t in MergeRight(l, r, ks).lists <==> t in ks
  {
    if ks != [] {
      var init := ks[..|ks| - 1];
      assert ks == init + [ks[|ks| - 1]];
      MergeRightDomain(l, r, init);
    }
  }

  /** After the left keys ks: the terms of m and of ks; m's lists untouched, the others
      with their left lists. */
  lemma {:induction false} MergeLeftMeaning(m: Dict, l: Dict, ks: seq<string>)
    requires DictOk(m) && forall t | t in ks :: t in l.lists
    ensures var p := MergeLeft(m, l, ks);
            DictOk(p)
            && (forall t :: t in p.lists <==> t in m.lists || t in ks)
            && (forall t :: t in m.lists ==> p.lists[t] == m.lists[t])
            && (forall t :: t in ks && t !in m.lists ==> p.lists[t] == l.lists[t])
  {
    if ks != [] {
      var init, t := ks[..|ks| - 1], ks[|ks| - 1];
      assert ks == init + [t];
      MergeLeftMeaning(m, l, init);
      var q := MergeLeft(m, l, init);
      if t !in q.lists {
        PutMeaning(q, t, l.lists[t]);
      }
    }
  }

  lemma {:induction false} MergeLeftDomain(m: Dict, l: Dict, ks: seq<string>)
    requires forall t | t in ks :: t in l.lists
    ensures forall t :: t in MergeLeft(m, l, ks).lists <==> t in m.lists || t in ks
  {
    if ks != [] {
      var init := ks[..|ks| - 1];
      assert ks == init + [ks[|ks| - 1]];
      MergeLeftDomain(m, l, init);
    }
  }

  /** When ks lists no term twice, the second loop appends to m's keys the terms of ks that
      m lacked, in the order of ks. */
  lemma {:induction false} MergeLeftKeys(m: Dict, l: Dict, ks: seq<string>)
    requires Distinct(ks) && forall t | t in ks :: t in l.lists
    ensures MergeLeft(m, l, ks).keys == m.keys + Absent(ks, m.lists.Keys)
  {
    if ks != [] {
      var init, t := ks[..|ks| - 1], ks[|ks| - 1];
      assert ks == init + [t];
      DistinctInit(ks);
      MergeLeftKeys(m, l, init);
      MergeLeftDomain(m, l, init);
      var q := MergeLeft(m, l, init);
      var a := Absent(init, m.lists.Keys);
      assert t in q.lists <==> t in m.lists.Keys;
      if t !in q.lists {
        assert MergeLeft(m, l, ks).keys == q.keys + [t];
        assert (m.keys + a) + [t] == m.keys + (a + [t]);
      } else {
        assert a + [] == a;
      }
    }
  }

  /** `merge` (index.py:134-174) on the stored dictionaries: the terms of both blocks; a
      shared term maps to its two lists sorted together, a one-sided term keeps its list;
      so every term's ids are those of the two blocks together. The keys are the right
      block's in its order, then the left block's other keys in theirs: not code-point
      order. */
  lemma MergeDictsMeaning(l: Dict, r: Dict)
    requires DictOk(l) && DictOk(r)
    ensures var m := MergeDicts(l, r);
            DictOk(m)
            && (forall t :: t in m.lists <==> t in l.lists || t in r.lists)
            && (forall t :: t in l.lists && t in r.lists ==> m.lists[t] == SortIds(l.lists[t] + r.lists[t]))
            && (forall t :: t in r.lists && t !in l.lists ==> m.lists[t] == r.lists[t])
            && (forall t :: t in l.lists && t !in r.lists ==> m.lists[t] == l.lists[t])
            && (forall t :: Occurrences(m, t) == Occurrences(l, t) + Occurrences(r, t))
            && m.keys == r.keys + Absent(l.keys, r.lists.Keys)
            && (NonEmptyLists(l) && NonEmptyLists(r) ==> NonEmptyLists(m))
  {
    MergeDictsLists(l, r);
    MergeDictsCounts(l, r);
    MergeDictsKeys(l, r);
  }

  lemma MergeDictsLists(l: Dict, r: Dict)
    requires DictOk(l) && DictOk(r)
    ensures var m := MergeDicts(l, r);
            DictOk(m)
            && (forall t :: t in m.lists <==> t in l.lists || t in r.lists)
            && (forall t :: t in l.lists && t in r.lists ==> m.lists[t] == SortIds(l.lists[t] + r.lists[t]))
            && (forall t :: t in r.lists && t !in l.lists ==> m.lists[t] == r.lists[t])
            && (forall t :: t in l.lists && t !in r.lists ==> m.lists[t] == l.lists[t])
  {
    var right := MergeRight(l, r, r.keys);
    MergeRightMeaning(l, r, r.keys);
    MergeLeftMeaning(right, l, l.keys);
  }

  lemma MergeDictsCounts(l: Dict, r: Dict)
    requires DictOk(l) && DictOk(r)
    ensures var m := MergeDicts(l, r);
            (forall t :: Occurrences(m, t) == Occurrences(l, t) + Occurrences(r, t))
            && (NonEmptyLists(l) && NonEmptyLists(r) ==> NonEmptyLists(m))
  {
    MergeDictsLists(l, r);
    var m := MergeDicts(l, r);
    forall t ensures Occurrences(m, t) == Occurrences(l, t) + Occurrences(r, t) {
      if t in l.lists && t in r.lists {
        assert m.lists[t] == SortIds(l.lists[t] + r.lists[t]);
      }
    }
    if NonEmptyLists(l) && NonEmptyLists(r) {
      forall t | t in m.lists ensures m.lists[t] != [] {
        if t in l.lists && t in r.lists {
          assert |multiset(m.lists[t])| == |l.lists[t]| + |r.lists[t]|;
        }
      }
    }
  }

  /** The counting half of MergeDictsMeaning for a single term. */
  lemma MergeDictsCount(l: Dict, r: Dict, t: string)
    requires DictOk(l) && DictOk(r)
    ensures Occurrences(MergeDicts(l, r), t) == Occurrences(l, t) + Occurrences(r, t)
  {
    MergeDictsCounts(l, r);
  }

  lemma MergeDictsKeys(l: Dict, r: Dict)
    requires DictOk(l) && DictOk(r)
    ensures MergeDicts(l, r).keys == r.keys + Absent(l.keys, r.lists.Keys)
  {
    var right := MergeRight(l, r, r.keys);
    MergeRightKeys(l, r, r.keys);
    MergeRightDomain(l, r, r.keys);
    MergeLeftKeys(right, l, l.keys);
    assert right.lists.Keys == r.lists.Keys;
  }
}
